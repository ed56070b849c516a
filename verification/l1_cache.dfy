/** The in-process cache: a bounded map in insertion order with a lifetime per entry. */
module L1Cache {
  import opened Options
  import opened Reals

  type Key = nat
  type Value = nat

  datatype Entry = Entry(value: Value, expiresAt: real)

  /** The latest write of a key that no delete or clear has undone. */
  datatype Written = Written(value: Value, at: nat, ttlMs: nat)

  function Without(keys: seq<Key>, key: Key): seq<Key> {
    if keys == [] then []
    else (if keys[0] == key then [] else [keys[0]]) + Without(keys[1..], key)
  }

  /** The keys stand in strictly increasing order of their stamps, so no key stands twice. */
  ghost predicate Sorted(keys: seq<Key>, stamp: map<Key, nat>) {
    && (forall i :: 0 <= i < |keys| ==> keys[i] in stamp)
    && (forall i, j :: 0 <= i < j < |keys| ==> stamp[keys[i]] < stamp[keys[j]])
  }

  lemma {:induction false} WithoutContents(keys: seq<Key>, key: Key)
    ensures |Without(keys, key)| <= |keys|
    ensures key in keys ==> |Without(keys, key)| < |keys|
    ensures forall k :: k in Without(keys, key) <==> k in keys && k != key
  {
    if keys != [] { WithoutContents(keys[1..], key); }
  }

  lemma {:induction false} WithoutSorted(keys: seq<Key>, key: Key, stamp: map<Key, nat>)
    requires Sorted(keys, stamp)
    ensures Sorted(Without(keys, key), stamp)
  {
    if keys != [] {
      WithoutSorted(keys[1..], key, stamp);
      WithoutContents(keys[1..], key);
      var rest := Without(keys[1..], key);
      forall i | 0 <= i < |rest| ensures stamp[keys[0]] < stamp[rest[i]] {
        assert rest[i] in rest && rest[i] in keys[1..];
      }
    }
  }

  lemma FirstIsOldest(keys: seq<Key>, stamp: map<Key, nat>)
    requires Sorted(keys, stamp) && keys != []
    ensures Sorted(keys[1..], stamp)
    ensures forall k :: k in keys ==> k in stamp
    ensures forall k :: k in keys[1..] <==> k in keys && k != keys[0]
    ensures forall k :: k in keys[1..] ==> stamp[keys[0]] < stamp[k]
  {}

  lemma AppendSorted(keys: seq<Key>, stamp: map<Key, nat>, key: Key, clock: nat)
    requires Sorted(keys, stamp) && key !in keys
    requires forall k :: k in stamp ==> stamp[k] < clock
    ensures Sorted(keys + [key], stamp[key := clock])
  {
    forall i | 0 <= i < |keys| ensures keys[i] != key { assert keys[i] in keys; }
  }

  function Max(a: int, b: int): int {
    if a >= b then a else b
  }

  class Cache {
    const maxSize: int

    // an insertion-ordered map: its keys in iteration order and its entries
    var order: seq<Key>
    var entries: map<Key, Entry>

    // history: operations so far, the last hit or insertion-while-absent of each key, and what was written
    ghost var clock: nat
    ghost var touched: map<Key, nat>
    ghost var latest: map<Key, Written>

    ghost predicate Valid()
      reads this
    {
      && (forall key :: key in order <==> key in entries)
      && Sorted(order, touched)
      && (forall key :: key in touched ==> touched[key] < clock)
      && |order| <= Max(1, maxSize)
      && (forall key :: key in entries ==> Current(key))
    }

    /** A stored entry is the latest write of its key and lives for 0.8 to 1.2 times its lifetime. */
    ghost predicate Current(key: Key)
      requires key in entries
      reads this
    {
      && key in latest
      && entries[key].value == latest[key].value
      && Earliest(latest[key]) <= entries[key].expiresAt <= Deadline(latest[key])
    }

    constructor (maxSize: int)
      ensures Valid() && entries == map[] && latest == map[] && this.maxSize == maxSize
    {
      this.maxSize, this.order, this.entries := maxSize, [], map[];
      this.clock, this.touched, this.latest := 0, map[], map[];
    }

    /** A hit returns what was last written to the key, not deleted or cleared since and not past 1.2
        times its lifetime, and makes the key the most recently touched; a stale entry is dropped. */
    method Get(key: Key, now: nat) returns (r: Option<Value>)
      requires Valid()
      modifies this
      ensures Valid() && latest == old(latest) && clock == old(clock) + 1
      ensures r.Some? ==> key in latest && r.value == latest[key].value && now as real <= Deadline(latest[key])
      ensures r.Some? <==> key in old(entries) && now as real <= old(entries)[key].expiresAt
      ensures key in old(entries) && now as real <= Earliest(latest[key]) ==> r.Some?
      ensures r.Some? ==> entries == old(entries) && order == Without(old(order), key) + [key]
      ensures r.None? ==> entries == old(entries) - {key}
      ensures touched == if r.Some? then old(touched)[key := old(clock)] else old(touched)
    {
      hide Sorted, Without, Deadline, Earliest;
      clock := clock + 1;
      if key !in entries { return None; }
      var entry := entries[key];
      WithoutContents(order, key);
      WithoutSorted(order, key, touched);
      order := Without(order, key);
      if now as real > entry.expiresAt {
        entries := entries - {key};
        return None;
      }
      AppendSorted(order, touched, key, clock - 1);
      order := order + [key];
      touched := touched[key := clock - 1];
      return Some(entry.value);
    }

    /** A write. A full cache first evicts the first key of the map, which is the one whose last hit, or
        insertion while absent, is oldest; then a present key keeps its place and an absent one goes last. */
    method Set(key: Key, value: Value, ttlMs: nat, now: nat, jitter: real) returns (victim: Option<Key>)
      requires Valid() && 0.8 <= jitter <= 1.2
      modifies this
      ensures Valid() && clock == old(clock) + 1
      ensures latest == old(latest)[key := Written(value, now, ttlMs)]
      ensures victim.Some? <==> |old(order)| >= maxSize && old(order) != []
      ensures victim.Some? ==>
                && victim.value in old(entries)
                && forall k :: k in old(entries) && k != victim.value ==> old(touched)[victim.value] < old(touched)[k]
      ensures var kept := if victim.Some? then old(entries) - {victim.value} else old(entries);
              && entries == kept[key := Entry(value, now as real + ttlMs as real * jitter)]
              && touched == if key in kept then old(touched) else old(touched)[key := old(clock)]
    {
      hide Sorted, Deadline, Earliest;
      victim := EvictIfFull();
      clock := clock + 1;
      if key !in entries {
        AppendSorted(order, touched, key, clock - 1);
        order := order + [key];
        touched := touched[key := clock - 1];
      }
      entries := entries[key := Entry(value, Expiry(now, ttlMs, jitter))];
      latest := latest[key := Written(value, now, ttlMs)];
      ExpiryBounds(value, now, ttlMs, jitter);
    }

    method EvictIfFull() returns (victim: Option<Key>)
      requires Valid()
      modifies this`order, this`entries
      ensures Valid() && (order == [] || |order| < Max(1, maxSize))
      ensures victim.Some? <==> |old(order)| >= maxSize && old(order) != []
      ensures victim.Some? ==>
                && victim.value in old(entries)
                && forall k :: k in old(entries) && k != victim.value ==> touched[victim.value] < touched[k]
      ensures entries == if victim.Some? then old(entries) - {victim.value} else old(entries)
    {
      hide Sorted, Deadline, Earliest;
      victim := None;
      if |order| >= maxSize && order != [] {
        victim := Some(order[0]);
        FirstIsOldest(order, touched);
        entries := entries - {order[0]};
        order := order[1..];
      }
    }

    method Delete(key: Key)
      requires Valid()
      modifies this
      ensures Valid() && clock == old(clock) + 1 && touched == old(touched)
      ensures entries == old(entries) - {key} && latest == old(latest) - {key}
    {
      clock := clock + 1;
      WithoutContents(order, key);
      WithoutSorted(order, key, touched);
      order := Without(order, key);
      entries := entries - {key};
      latest := latest - {key};
    }

    method Clear()
      requires Valid()
      modifies this
      ensures Valid() && clock == old(clock) + 1 && touched == old(touched)
      ensures entries == map[] && latest == map[]
    {
      clock := clock + 1;
      order, entries, latest := [], map[], map[];
    }
  }

  function Expiry(now: nat, ttlMs: nat, jitter: real): real {
    now as real + ttlMs as real * jitter
  }

  ghost function Earliest(w: Written): real {
    w.at as real + w.ttlMs as real * 0.8
  }

  ghost function Deadline(w: Written): real {
    w.at as real + w.ttlMs as real * 1.2
  }

  lemma ExpiryMono(now: nat, ttlMs: nat, x: real, y: real)
    requires 0.0 <= x <= y
    ensures Expiry(now, ttlMs, x) <= Expiry(now, ttlMs, y)
  {
    ScaleMono(ttlMs as real, x, y);
  }

  lemma ExpiryBounds(value: Value, now: nat, ttlMs: nat, jitter: real)
    requires 0.8 <= jitter <= 1.2
    ensures Earliest(Written(value, now, ttlMs)) <= Expiry(now, ttlMs, jitter) <= Deadline(Written(value, now, ttlMs))
  {
    var w := Written(value, now, ttlMs);
    assert Earliest(w) == Expiry(now, ttlMs, 0.8) && Deadline(w) == Expiry(now, ttlMs, 1.2);
    hide Expiry, Earliest, Deadline;
    ExpiryMono(now, ttlMs, 0.8, jitter);
    ExpiryMono(now, ttlMs, jitter, 1.2);
  }
}

/** The Bloom filter service over one stored bit array, and the user namespace it serves. */
module BloomFilter {
  import opened BloomHash
  import BloomRebuild

  const CHUNK: nat := 500

  ghost function OffsetSet(value: seq<Byte>): set<nat> {
    set i | 0 <= i < BLOOM_K :: BloomBits(value)[i]
  }

  /** What comes back for the GETBIT pipeline: nothing usable, or one reply per command. */
  datatype Reply = Rejected | Null | Replies(failed: set<nat>)

  ghost predicate Answered(failed: set<nat>) {
    forall k :: 0 <= k < BLOOM_K ==> k !in failed
  }

  ghost predicate Full(landed: set<nat>) {
    forall k :: 0 <= k < BLOOM_K ==> k in landed
  }

  /** The offsets of the commands of one value that take effect. */
  ghost function Landed(value: seq<Byte>, landed: set<nat>): set<nat> {
    set i | 0 <= i < BLOOM_K && i in landed :: BloomBits(value)[i]
  }

  ghost function AllLanded(values: seq<seq<Byte>>, landed: nat -> set<nat>): set<nat> {
    set j, i | 0 <= j < |values| && 0 <= i < BLOOM_K && i in landed(j) :: BloomBits(values[j])[i]
  }

  /** The service of one namespace: `bits` are the one bits of its key. Of a write pipeline any set of
      commands may take effect: all of them, none, or those before it breaks off. */
  class Service {
    const enabled: bool
    var bits: set<nat>

    constructor (enabled: bool, bits: set<nat>)
      ensures this.enabled == enabled && this.bits == bits
    {
      this.enabled, this.bits := enabled, bits;
    }

    /** A full pipeline adds the value; what is lost of a pipeline is lost silently. */
    method Add(value: seq<Byte>, landed: set<nat>)
      modifies this
      ensures bits == if enabled then old(bits) + Landed(value, landed) else old(bits)
      ensures enabled && Full(landed) ==> OffsetSet(value) <= bits
    {
      hide BloomBits;
      if !enabled { return; }
      var offsets := BloomBits(value);
      for i := 0 to BLOOM_K
        invariant bits == old(bits) + set k | 0 <= k < i && k in landed :: offsets[k]
      {
        if i in landed { bits := bits + {offsets[i]}; }
      }
    }

    /** A disabled filter and a pipeline without replies answer yes. A reply that carries an error
        reads as a zero bit, so one failed GETBIT turns the answer into no even for an added value. */
    method MightExist(value: seq<Byte>, reply: Reply) returns (r: bool)
      ensures r <==> !enabled || !reply.Replies? || (Answered(reply.failed) && OffsetSet(value) <= bits)
    {
      hide BloomBits;
      if !enabled { return true; }
      if !reply.Replies? { return true; }
      var offsets := BloomBits(value);
      r := true;
      for i := 0 to BLOOM_K
        invariant r <==> forall k :: 0 <= k < i ==> k !in reply.failed && offsets[k] in bits
      {
        r := r && i !in reply.failed && offsets[i] in bits;
      }
    }

    /** Warm-up in chunks of one pipeline each; landed(j) are the commands of value j that take effect. Every
        value is tried whatever becomes of the chunks before its own. */
    method Rebuild(values: seq<seq<Byte>>, landed: nat -> set<nat>)
      modifies this
      ensures bits == if enabled then old(bits) + AllLanded(values, landed) else old(bits)
      ensures enabled ==> forall j :: 0 <= j < |values| && Full(landed(j)) ==> OffsetSet(values[j]) <= bits
    {
      hide BloomBits;
      if !enabled { return; }
      if |values| == 0 { return; }
      var from := 0;
      while from < |values|
        invariant 0 <= from
        invariant bits == old(bits) + AllLanded(values[..if from <= |values| then from else |values|], landed)
        decreases |values| - from
      {
        var to := if from + CHUNK <= |values| then from + CHUNK else |values|;
        for j := from to to
          invariant bits == old(bits) + AllLanded(values[..j], landed)
        {
          LandedSnoc(values, j, landed);
          Add(values[j], landed(j));
        }
        from := from + CHUNK;
      }
      assert values[..|values|] == values;
      forall j | 0 <= j < |values| && Full(landed(j)) ensures OffsetSet(values[j]) <= bits {
        forall i | 0 <= i < BLOOM_K ensures BloomBits(values[j])[i] in AllLanded(values, landed) {
          assert i in landed(j);
        }
      }
    }
  }

  lemma LandedSnoc(values: seq<seq<Byte>>, j: nat, landed: nat -> set<nat>)
    requires j < |values|
    ensures AllLanded(values[..j + 1], landed) == AllLanded(values[..j], landed) + Landed(values[j], landed(j))
  {
    hide BloomBits;
    var more, less := values[..j + 1], values[..j];
    assert forall k :: 0 <= k < j ==> more[k] == less[k];
    assert more[j] == values[j];
    forall b | b in AllLanded(less, landed) + Landed(values[j], landed(j)) ensures b in AllLanded(more, landed) {
      if b in Landed(values[j], landed(j)) {
        var i :| 0 <= i < BLOOM_K && i in landed(j) && BloomBits(values[j])[i] == b;
        assert BloomBits(more[j])[i] == b;
      } else {
        var k, i :| 0 <= k < |less| && 0 <= i < BLOOM_K && i in landed(k) && BloomBits(less[k])[i] == b;
        assert BloomBits(more[k])[i] == b;
      }
    }
  }

  // ---------------------------------------------------------------- the user namespace

  function HexDigit(d: nat): (digit: Byte)
    requires d < 16
    ensures digit as char == "0123456789abcdef"[d]
  {
    if d < 10 then 48 + d else 87 + d
  }

  /** The n low hexadecimal digits of x. */
  function Hex(x: nat, n: nat): seq<Byte> {
    if n == 0 then [] else Hex(x / 16, n - 1) + [HexDigit(x % 16)]
  }

  /** The canonical text of a UUID: groups of 8, 4, 4, 4 and 12 digits. */
  function UuidText(id: BloomRebuild.Uuid): seq<Byte> {
    Hex(id / 0x1_0000_0000_0000_0000_0000_0000, 8) + [45] + Hex(id / 0x1_0000_0000_0000_0000_0000, 4) + [45]
    + Hex(id / 0x1_0000_0000_0000_0000, 4) + [45] + Hex(id / 0x1_0000_0000_0000, 4) + [45] + Hex(id, 12)
  }

  /** x without its n low hexadecimal digits. */
  function High(x: nat, n: nat): nat {
    if n == 0 then x else High(x / 16, n - 1)
  }

  lemma {:induction false} HexJoin(x: nat, m: nat, n: nat)
    ensures |Hex(x, n)| == n && Hex(x, m + n) == Hex(High(x, n), m) + Hex(x, n)
  {
    hide HexDigit;
    if n != 0 {
      HexJoin(x / 16, m, n - 1);
      assert Hex(x, m + n) == Hex(x / 16, m + n - 1) + [HexDigit(x % 16)];
    }
  }

  lemma {:induction false} HighTwice(x: nat, m: nat, n: nat)
    ensures High(x, m + n) == High(High(x, m), n)
  {
    if m != 0 { HighTwice(x / 16, m - 1, n); }
  }

  lemma {:induction false} HexInjective(x: nat, y: nat, n: nat)
    requires Hex(x, n) == Hex(y, n) && High(x, n) == High(y, n)
    ensures x == y
  {
    if n != 0 {
      var p, q := Hex(x / 16, n - 1), Hex(y / 16, n - 1);
      HexJoin(x / 16, 0, n - 1);
      HexJoin(y / 16, 0, n - 1);
      assert (p + [HexDigit(x % 16)])[..n - 1] == p && (q + [HexDigit(y % 16)])[..n - 1] == q;
      assert (p + [HexDigit(x % 16)])[n - 1] == (q + [HexDigit(y % 16)])[n - 1];
      HexInjective(x / 16, y / 16, n - 1);
    }
  }

  lemma HighFour(x: nat)
    ensures High(x, 4) == x / 0x10000
  {
    var a, b, c := x / 16, x / 16 / 16, x / 16 / 16 / 16;
    assert High(x, 4) == High(a, 3) == High(b, 2) == High(c, 1) == High(c / 16, 0);
  }

  lemma DividedTwice(x: nat)
    ensures x / 0x10000 / 0x10000 == x / 0x1_0000_0000
    ensures x / 0x1_0000_0000 / 0x10000 == x / 0x1_0000_0000_0000
    ensures x / 0x1_0000_0000_0000 / 0x10000 == x / 0x1_0000_0000_0000_0000
    ensures x / 0x1_0000_0000_0000_0000 / 0x10000 == x / 0x1_0000_0000_0000_0000_0000
    ensures x / 0x1_0000_0000_0000_0000_0000 / 0x10000 == x / 0x1_0000_0000_0000_0000_0000_0000
  {}

  lemma HighTwelve(x: nat)
    ensures High(x, 12) == x / 0x1_0000_0000_0000
  {
    hide High;
    DividedTwice(x);
    HighTwice(x, 4, 4);
    HighTwice(x, 8, 4);
    HighFour(x);
    HighFour(x / 0x10000);
    HighFour(x / 0x1_0000_0000);
  }

  lemma NextGroup(x: nat, m: nat)
    ensures |Hex(x, 4)| == 4 && Hex(x, m + 4) == Hex(x / 0x10000, m) + Hex(x, 4)
  {
    hide Hex, High;
    HexJoin(x, m, 4);
    HighFour(x);
  }

  /** The text is 36 characters long, and without its hyphens it is the 32 digits of the id. */
  lemma UuidTextDigits(id: BloomRebuild.Uuid)
    ensures var t := UuidText(id);
            |t| == 36 && t[..8] + t[9..13] + t[14..18] + t[19..23] + t[24..] == Hex(id, 32)
  {
    hide Hex, High;
    HighTwelve(id);
    DividedTwice(id);
    HexJoin(id, 20, 12);
    NextGroup(id / 0x1_0000_0000_0000, 16);
    NextGroup(id / 0x1_0000_0000_0000_0000, 12);
    NextGroup(id / 0x1_0000_0000_0000_0000_0000, 8);
    HexJoin(id / 0x1_0000_0000_0000_0000_0000_0000, 0, 8);
    TextSplits(Hex(id / 0x1_0000_0000_0000_0000_0000_0000, 8), Hex(id / 0x1_0000_0000_0000_0000_0000, 4),
               Hex(id / 0x1_0000_0000_0000_0000, 4), Hex(id / 0x1_0000_0000_0000, 4), Hex(id, 12));
  }

  lemma TextSplits(a: seq<Byte>, b: seq<Byte>, c: seq<Byte>, d: seq<Byte>, e: seq<Byte>)
    requires |a| == 8 && |b| == |c| == |d| == 4 && |e| == 12
    ensures var t := a + [45] + b + [45] + c + [45] + d + [45] + e;
            |t| == 36 && t[..8] + t[9..13] + t[14..18] + t[19..23] + t[24..] == a + b + c + d + e
  {
    var t := a + [45] + b + [45] + c + [45] + d + [45] + e;
    assert t[..8] == a && t[9..13] == b && t[14..18] == c && t[19..23] == d && t[24..] == e;
  }

  lemma AllHigh(x: nat)
    requires x < BloomRebuild.UUID_SPACE
    ensures High(x, 32) == 0
  {
    hide High;
    HighTwelve(x);
    var y := x / 0x1_0000_0000_0000;
    HighTwice(x, 12, 12);
    HighTwelve(y);
    var z := y / 0x1_0000_0000_0000;
    assert z < 0x1_0000_0000;
    HighTwice(x, 24, 4);
    HighFour(z);
    HighTwice(x, 28, 4);
    HighFour(z / 0x10000);
  }

  /** Different users never share the text that is hashed. */
  lemma UuidTextInjective(a: BloomRebuild.Uuid, b: BloomRebuild.Uuid)
    requires UuidText(a) == UuidText(b)
    ensures a == b
  {
    hide Hex, High, UuidText;
    UuidTextDigits(a);
    UuidTextDigits(b);
    AllHigh(a);
    AllHigh(b);
    HexInjective(a, b, 32);
  }

  ghost function UserConfig(chunk: nat): BloomRebuild.Config {
    BloomRebuild.Config((id: BloomRebuild.Uuid) => OffsetSet(UuidText(id)), chunk)
  }

  /** The rebuild theorems hold of the real hash, in any state of any interleaving: an added user whom the
      latest swap has not exposed and none of whose bits was lost gets no wrong no from the service over the
      live array; and in a run without faults nobody does outside the swap window, nor in it any user from
      before the rebuild. */
  lemma UserNamespaceSafe(chunk: nat, s: BloomRebuild.State, steps: seq<BloomRebuild.Step>, id: BloomRebuild.Uuid)
    requires chunk >= 1
    requires BloomRebuild.Initial(UserConfig(chunk), s) && BloomRebuild.Run(UserConfig(chunk), s, steps)
    ensures var t := BloomRebuild.Exec(UserConfig(chunk), s, steps);
            id in t.added && !BloomRebuild.Exposed(t, id) && OffsetSet(UuidText(id)) !! BloomRebuild.Lost(t) ==>
              OffsetSet(UuidText(id)) <= t.live
    ensures var t := BloomRebuild.Exec(UserConfig(chunk), s, steps);
            BloomRebuild.Faultless(steps) && id in t.added && (!BloomRebuild.InWindow(t) || id in t.startIds) ==>
              OffsetSet(UuidText(id)) <= t.live
  {
    hide BloomBits, UuidText;
    var cfg := UserConfig(chunk);
    assert cfg.Valid() by {
      forall u: BloomRebuild.Uuid ensures cfg.hash(u) != {} {
        assert BloomBits(UuidText(u))[0] in OffsetSet(UuidText(u));
      }
    }
    BloomRebuild.NoFalseNegatives(cfg, s, steps);
    hide OffsetSet, BloomRebuild.Run, BloomRebuild.Exec;
    var t := BloomRebuild.Exec(cfg, s, steps);
    if id in t.added && !BloomRebuild.MightExist(cfg, t, id) { assert id in t.rows; }
  }
}

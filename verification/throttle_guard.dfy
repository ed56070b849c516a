/** The multi-layer throttle guard over one Redis, called by one request at a time. */
module ThrottleGuard {
  import opened SlidingWindow

  /** The hash of identifier and prefix that names the keys of a layer. */
  type Key = nat

  datatype Layer = Layer(key: Key, ttlSeconds: nat, limit: nat, blockSeconds: nat)

  datatype Verdict = Allowed | SoftDenied | Escalated | HardBlocked

  datatype Block = NoBlock | Until(time: nat)

  /** A sorted set and the time after which its key is gone. */
  datatype ZSet = ZSet(scores: map<Member, nat>, expiresAt: nat)

  /** The script runs on a key: those from before it last expired and those since. */
  datatype History = History(gone: seq<Call>, counted: seq<Call>) {
    function Log(): seq<Call> {
      gone + counted
    }
  }

  /** When one round of the layer loop reads the block key, takes its stamp, runs the script and, if it
      comes to that, sets the block: in this order, by one clock. */
  datatype Times = Times(checked: nat, stamped: nat, ran: nat, blocked: nat) {
    predicate InOrder(lag: nat) {
      checked <= stamped <= ran <= blocked && ran <= stamped + lag
    }
  }

  function WindowMs(layer: Layer): nat {
    layer.ttlSeconds * 1000
  }

  predicate Blocked(block: Block, now: nat) {
    block.Until? && now <= block.time
  }

  ghost predicate UpTo(log: seq<Call>, now: nat) {
    forall c :: c in log ==> c.at <= now
  }

  /** The hard block, standing or lapsed, was set after every call so far. */
  ghost predicate BlockIsLatest(block: Block, log: seq<Call>) {
    block.Until? && UpTo(log, block.time)
  }

  /** The set tracks the history; and a block set after every call lasts its whole length from there. */
  ghost predicate SlotValid(zset: ZSet, h: History, block: Block, windowMs: nat, blockMs: nat, lag: nat) {
    && windowMs > 0
    && Tracks(zset.scores, zset.expiresAt, h.gone, h.counted, windowMs, lag)
    && (BlockIsLatest(block, h.Log()) ==> forall c :: c in h.Log() ==> c.at + blockMs <= block.time)
  }

  function ScriptSet(zset: ZSet, call: Call, ran: nat, windowMs: nat): ZSet {
    ZSet(AfterScript(zset.scores, call, windowMs, ran > zset.expiresAt), ran + windowMs)
  }

  /** What the key still knows of its calls when the script runs. */
  function Known(zset: ZSet, h: History, ran: nat): seq<Call> {
    Kept(h.counted, ran > zset.expiresAt)
  }

  function ScriptHistory(zset: ZSet, h: History, call: Call, ran: nat): History {
    History(Gone(h.gone, h.counted, ran > zset.expiresAt), Known(zset, h, ran) + [call])
  }

  /** The count of a script run against the log it ends: it is that of the distinct members that the counted
      calls have in (stamp - window, stamp]; it is the count of the whole log exactly when no call is lost
      on it that lies in the window and whose member is not called there again; and it never misses a call
      within reach, which is the whole window while stamps lag by no more than a millisecond. */
  ghost predicate Counts(count: nat, h: History, stamped: nat, windowMs: nat, lag: nat) {
    var lo := stamped - windowMs;
    && count == |Members(h.counted, lo)|
    && (count == |Members(h.Log(), lo)| <==>
        forall c :: c in h.gone && c.at > lo ==> c.member in Members(h.counted, lo))
    && |Members(h.Log(), stamped - Reach(windowMs, lag))| <= count <= |Members(h.Log(), lo)|
  }

  /** What one run of the script does to one key. */
  lemma ScriptSlot(zset: ZSet, h: History, block: Block, windowMs: nat, blockMs: nat, lag: nat, call: Call, ran: nat)
    requires SlotValid(zset, h, block, windowMs, blockMs, lag) && !Blocked(block, call.at)
    requires UpTo(h.Log(), call.at) && call.at <= ran <= call.at + lag
    ensures SlotValid(ScriptSet(zset, call, ran, windowMs), ScriptHistory(zset, h, call, ran), block,
                      windowMs, blockMs, lag)
    ensures ScriptHistory(zset, h, call, ran).Log() == h.Log() + [call]
    ensures Counts(|ScriptSet(zset, call, ran, windowMs).scores|, ScriptHistory(zset, h, call, ran), call.at,
                   windowMs, lag)
  {
    hide Represents, Members, AfterScript, Reach;
    var after, h' := ScriptSet(zset, call, ran, windowMs), ScriptHistory(zset, h, call, ran);
    forall c | c in h.counted ensures c.at <= call.at { assert c in h.Log(); }
    ScriptTracks(zset.scores, zset.expiresAt, h.gone, h.counted, windowMs, lag, call, ran);
    assert h'.Log() == h.Log() + [call];
    assert call in h'.Log() && call in h'.counted;
    assert |after.scores| == |after.scores.Keys|;
    CountFacts(h', call, windowMs, lag);
  }

  lemma CountFacts(h: History, call: Call, windowMs: nat, lag: nat)
    requires call in h.counted && Outlived(h.gone, h.counted, windowMs, lag)
    ensures Counts(|Members(h.counted, call.at - windowMs)|, h, call.at, windowMs, lag)
  {
    Forgetting(h.gone, h.counted, call.at - windowMs);
    CountReaches(h.gone, h.counted, call, windowMs, lag);
    hide Members, Outlived, Reach;
    SubsetSize(Members(h.Log(), call.at - Reach(windowMs, lag)), Members(h.counted, call.at - windowMs));
  }

  /** How many members the calls of a key have in the window of a new one, with it. */
  ghost function Count(zset: ZSet, h: History, t: Times, member: Member, ttlSeconds: nat): nat {
    |Members(Known(zset, h, t.ran) + [Call(t.stamped, member)], t.stamped - ttlSeconds * 1000)|
  }

  /** What Redis holds for a key, and what it was told. */
  datatype Slot = Slot(zset: ZSet, h: History, block: Block)

  /** What the round of one request does to a key of which it has n members in the window, itself included.
      A request that meets a standing block leaves no trace; any other is counted, and the hard threshold is
      tested first. */
  ghost predicate Answered(before: Slot, after: Slot, layer: Layer, t: Times, member: Member, threshold: nat,
                           verdict: Verdict)
  {
    var n := Count(before.zset, before.h, t, member, layer.ttlSeconds);
    var standing := Blocked(before.block, t.checked);
    && (verdict == HardBlocked <==> standing)
    && (verdict == Escalated <==> !standing && n > threshold)
    && (verdict == SoftDenied <==> !standing && layer.limit < n <= threshold)
    && (verdict == Allowed <==> !standing && n <= layer.limit && n <= threshold)
    && (verdict == HardBlocked ==> after == before)
    && (verdict != HardBlocked ==> after.h.Log() == before.h.Log() + [Call(t.stamped, member)])
    && after.block == if verdict == Escalated then Until(t.blocked + layer.blockSeconds * 1000) else before.block
  }

  class Guard {
    const blockThreshold: nat

    // the sorted sets, and the time after which each hard-block key is gone
    var zsets: map<Key, ZSet>
    var blockedUntil: map<Key, nat>

    // the script runs per key; the window and block length a key is used with; from a stamp to its run
    ghost var histories: map<Key, History>
    ghost const windows: Key -> nat
    ghost const blocks: Key -> nat
    ghost const lag: nat

    function SetOf(key: Key): ZSet
      reads this
    {
      if key in zsets then zsets[key] else ZSet(map[], 0)
    }

    function BlockOf(key: Key): Block
      reads this
    {
      if key in blockedUntil then Until(blockedUntil[key]) else NoBlock
    }

    ghost function HistoryOf(key: Key): History
      reads this
    {
      if key in histories then histories[key] else History([], [])
    }

    /** Every run of the script on the key, in order. */
    ghost function Log(key: Key): seq<Call>
      reads this
    {
      View(key).h.Log()
    }

    ghost function View(key: Key): Slot
      reads this
    {
      Slot(SetOf(key), HistoryOf(key), BlockOf(key))
    }

    ghost predicate Valid()
      reads this
    {
      forall key: Key :: SlotValid(SetOf(key), HistoryOf(key), BlockOf(key), windows(key), blocks(key), lag)
    }

    ghost predicate Serves(layer: Layer) {
      layer.ttlSeconds >= 1 && windows(layer.key) == WindowMs(layer) && blocks(layer.key) == layer.blockSeconds * 1000
    }

    constructor (blockThreshold: nat, ghost windows: Key -> nat, ghost blocks: Key -> nat, ghost lag: nat)
      requires forall key: Key :: windows(key) > 0
      ensures Valid() && zsets == map[] && blockedUntil == map[] && histories == map[]
      ensures this.blockThreshold == blockThreshold
      ensures this.windows == windows && this.blocks == blocks && this.lag == lag
    {
      this.blockThreshold, this.windows, this.blocks, this.lag := blockThreshold, windows, blocks, lag;
      this.zsets, this.blockedUntil, this.histories := map[], map[], map[];
    }

    /** The commands of the script: ZREMRANGEBYSCORE, ZADD, ZCARD, EXPIRE. */
    method Commands(key: Key, call: Call, ran: nat, windowMs: nat, ttlSeconds: nat) returns (count: nat)
      requires windowMs == ttlSeconds * 1000
      modifies this`zsets
      ensures zsets == old(zsets)[key := ScriptSet(old(SetOf(key)), call, ran, windowMs)]
      ensures count == |zsets[key].scores| && zsets[key].expiresAt == ran + ttlSeconds * 1000
    {
      var scores := if ran > SetOf(key).expiresAt then map[] else SetOf(key).scores;
      scores := map m | m in scores && scores[m] > call.at - windowMs :: scores[m];
      scores := scores[call.member := call.at];
      count := |scores|;
      zsets := zsets[key := ZSet(scores, ran + ttlSeconds * 1000)];
    }

    /** One run of the script, stamped before it runs. */
    method Script(layer: Layer, t: Times, member: Member) returns (count: nat)
      requires Valid() && Serves(layer) && t.InOrder(lag)
      requires UpTo(Log(layer.key), t.stamped) && !Blocked(BlockOf(layer.key), t.stamped)
      modifies this`zsets, this`histories
      ensures Valid()
      ensures histories == old(histories)[layer.key := ScriptHistory(old(SetOf(layer.key)), old(HistoryOf(layer.key)),
                                                                     Call(t.stamped, member), t.ran)]
      ensures zsets == old(zsets)[layer.key := SetOf(layer.key)]
      ensures SetOf(layer.key).expiresAt == t.ran + layer.ttlSeconds * 1000
      ensures Log(layer.key) == old(Log(layer.key)) + [Call(t.stamped, member)]
      ensures Counts(count, HistoryOf(layer.key), t.stamped, WindowMs(layer), lag)
    {
      hide SlotValid, Counts, ScriptSet, ScriptHistory;
      var key, call := layer.key, Call(t.stamped, member);
      ScriptSlot(SetOf(key), HistoryOf(key), BlockOf(key), windows(key), blocks(key), lag, call, t.ran);
      histories := histories[key := ScriptHistory(SetOf(key), HistoryOf(key), call, t.ran)];
      count := Commands(key, call, t.ran, WindowMs(layer), layer.ttlSeconds);
    }

    /** SET of the hard-block key with its expiry. */
    method ActivateBlock(layer: Layer, setAt: nat)
      requires Valid() && Serves(layer) && UpTo(Log(layer.key), setAt)
      modifies this`blockedUntil
      ensures Valid() && blockedUntil == old(blockedUntil)[layer.key := setAt + layer.blockSeconds * 1000]
    {
      hide Tracks;
      blockedUntil := blockedUntil[layer.key := setAt + layer.blockSeconds * 1000];
      assert SlotValid(SetOf(layer.key), HistoryOf(layer.key), old(BlockOf(layer.key)),
                       windows(layer.key), blocks(layer.key), lag);
      forall key: Key | key != layer.key
        ensures SlotValid(SetOf(key), HistoryOf(key), BlockOf(key), windows(key), blocks(key), lag)
      {
        assert old(SlotValid(SetOf(key), HistoryOf(key), BlockOf(key), windows(key), blocks(key), lag));
      }
    }

    /** Nothing of the key changes. */
    twostate predicate Untouched(key: Key)
      reads this
    {
      View(key) == old(View(key))
    }

    /** One round of the layer loop.

        While a block stands every request is denied and nothing is counted. Otherwise the count with the
        new call decides, the hard threshold first. If the block lasts at least as long as the window, the
        first request after it counts one, however late its script runs. */
    method CheckLayer(layer: Layer, t: Times, member: Member) returns (verdict: Verdict)
      requires Valid() && Serves(layer) && t.InOrder(lag) && UpTo(Log(layer.key), t.stamped)
      modifies this`zsets, this`histories, this`blockedUntil
      ensures Valid()
      ensures verdict == HardBlocked <==> old(layer.key in blockedUntil && t.checked <= blockedUntil[layer.key])
      ensures Answered(old(View(layer.key)), View(layer.key), layer, t, member, blockThreshold, verdict)
      ensures verdict != HardBlocked && lag <= 1 ==>
                Count(old(SetOf(layer.key)), old(HistoryOf(layer.key)), t, member, layer.ttlSeconds) ==
                |Members(Log(layer.key), t.stamped - layer.ttlSeconds * 1000)|
      ensures blockedUntil == if verdict != Escalated then old(blockedUntil)
                              else old(blockedUntil)[layer.key := t.blocked + layer.blockSeconds * 1000]
      ensures UpTo(Log(layer.key), t.stamped)
      ensures forall key :: key != layer.key ==> Untouched(key)
      ensures old(BlockIsLatest(BlockOf(layer.key), Log(layer.key))) && verdict != HardBlocked
              && layer.blockSeconds >= layer.ttlSeconds ==>
                && Count(old(SetOf(layer.key)), old(HistoryOf(layer.key)), t, member, layer.ttlSeconds) == 1
                && (layer.limit >= 1 && blockThreshold >= 1 ==> verdict == Allowed)
    {
      hide SlotValid, BlockIsLatest, UpTo, Tracks, Members, Known, Counts, ScriptHistory;
      var key := layer.key;
      if Blocked(BlockOf(key), t.checked) { return HardBlocked; }
      assert SlotValid(SetOf(key), HistoryOf(key), BlockOf(key), windows(key), blocks(key), lag);
      AfterBlock(SetOf(key), HistoryOf(key), BlockOf(key), windows(key), blocks(key), lag, t, member);
      var count := Script(layer, t, member);
      CountOf(count, old(SetOf(key)), old(HistoryOf(key)), Call(t.stamped, member), t.ran, WindowMs(layer), lag);
      assert UpTo(Log(key), t.blocked) by { UpToSnoc(old(Log(key)), Call(t.stamped, member), t.blocked); }
      assert UpTo(Log(key), t.stamped) by { UpToSnoc(old(Log(key)), Call(t.stamped, member), t.stamped); }
      if count > blockThreshold {
        ActivateBlock(layer, t.blocked);
        return Escalated;
      }
      if count > layer.limit { return SoftDenied; }
      return Allowed;
    }

    /** The rounds of one request follow each other. */
    ghost predicate Successive(times: seq<Times>) {
      && (forall i :: 0 <= i < |times| ==> times[i].InOrder(lag))
      && (forall i, j :: 0 <= i < j < |times| ==> times[i].blocked <= times[j].checked)
    }

    /** The guard of one request: layers in order, the first breach ends it. A layer not reached, and
        every key that no reached layer names, is left alone. With distinct keys each reached layer
        answers from what its key held before the request. */
    method CanActivate(layers: seq<Layer>, times: seq<Times>, members: seq<Member>)
      returns (ok: bool, verdicts: seq<Verdict>)
      requires Valid() && |times| == |members| == |layers| && Successive(times)
      requires forall i :: 0 <= i < |layers| ==> Serves(layers[i]) && UpTo(Log(layers[i].key), times[i].stamped)
      modifies this`zsets, this`histories, this`blockedUntil
      ensures Valid()
      ensures |verdicts| <= |layers| && (ok ==> |verdicts| == |layers|)
      ensures forall i :: 0 <= i < |verdicts| ==> (verdicts[i] == Allowed <==> ok || i < |verdicts| - 1)
      ensures !ok ==> verdicts != []
      ensures forall key :: key !in Keys(layers[..|verdicts|]) ==> Untouched(key)
      ensures DistinctKeys(layers) ==>
                forall i :: 0 <= i < |verdicts| ==>
                  Answered(old(View(layers[i].key)), View(layers[i].key), layers[i], times[i], members[i],
                           blockThreshold, verdicts[i])
    {
      hide SlotValid, View, Answered, Keys, DistinctKeys, UpTo;
      ok, verdicts := true, [];
      for i := 0 to |layers|
        invariant Valid() && ok && |verdicts| == i
        invariant forall k :: 0 <= k < i ==> verdicts[k] == Allowed
        invariant forall k :: i <= k < |layers| ==> UpTo(Log(layers[k].key), times[k].stamped)
        invariant forall key :: key !in Keys(layers[..i]) ==> Untouched(key)
        invariant DistinctKeys(layers) ==>
                    forall k :: 0 <= k < i ==>
                      Answered(old(View(layers[k].key)), View(layers[k].key), layers[k], times[k], members[k],
                               blockThreshold, verdicts[k])
      {
        KeysSnoc(layers, i);
        assert DistinctKeys(layers) ==> Untouched(layers[i].key);
        label before:
        var verdict := CheckLayer(layers[i], times[i], members[i]);
        forall key | key !in Keys(layers[..i + 1]) ensures Untouched(key) {
          assert Untouched@before(key);
        }
        forall k | i < k < |layers| ensures UpTo(Log(layers[k].key), times[k].stamped) {
          UpToMono(Log(layers[i].key), times[i].stamped, times[k].stamped);
          if layers[k].key != layers[i].key { assert Untouched@before(layers[k].key); }
        }
        forall k | 0 <= k < i && layers[k].key != layers[i].key
          ensures View(layers[k].key) == old@before(View(layers[k].key))
        {
          assert Untouched@before(layers[k].key);
        }
        verdicts := verdicts + [verdict];
        if verdict != Allowed { return false, verdicts; }
      }
      assert layers[..|layers|] == layers;
    }

    /** Any number of requests that meet one layer in turn. A request is turned away unseen exactly when the
        block there was at the start, or one that an earlier request has set, is still standing; and the
        first one after such a block, if it lasts a window, is let through. */
    method Serve(layer: Layer, times: seq<Times>, members: seq<Member>) returns (verdicts: seq<Verdict>)
      requires Valid() && Serves(layer) && |times| == |members| && Successive(times)
      requires forall i :: 0 <= i < |times| ==> UpTo(Log(layer.key), times[i].stamped)
      modifies this`zsets, this`histories, this`blockedUntil
      ensures Valid() && |verdicts| == |times|
      ensures forall j :: 0 <= j < |times| ==>
                (verdicts[j] == HardBlocked <==>
                  || Blocked(old(BlockOf(layer.key)), times[j].checked)
                  || SetEarlier(layer, verdicts, times, j, times[j].checked))
      ensures layer.blockSeconds >= layer.ttlSeconds && layer.limit >= 1 && blockThreshold >= 1 ==>
                (forall j :: 0 <= j < |times| && JustBlocked(verdicts, j) && verdicts[j] != HardBlocked ==>
                  verdicts[j] == Allowed)
    {
      hide SlotValid, UpTo, SetEarlier, BlockIsLatest, Blocked, Untouched, View, BlockOf, JustBlocked;
      verdicts := [];
      ghost var from := 0;
      ghost var start := BlockOf(layer.key);
      NoneEarlier(layer, times);
      for j := 0 to |times|
        invariant Valid() && |verdicts| == j
        invariant forall k :: j <= k < |times| ==> UpTo(Log(layer.key), times[k].stamped)
        invariant forall k :: j <= k < |times| ==> from <= times[k].checked
        invariant forall at: nat :: from <= at ==>
                    (Blocked(BlockOf(layer.key), at) <==>
                      Blocked(start, at) || SetEarlier(layer, verdicts, times, j, at))
        invariant JustBlocked(verdicts, j) ==> BlockIsLatest(BlockOf(layer.key), Log(layer.key))
        invariant forall k :: 0 <= k < j ==>
                    (verdicts[k] == HardBlocked <==>
                      || Blocked(start, times[k].checked)
                      || SetEarlier(layer, verdicts, times, k, times[k].checked))
        invariant layer.blockSeconds >= layer.ttlSeconds && layer.limit >= 1 && blockThreshold >= 1 ==>
                    (forall k :: 0 <= k < j && JustBlocked(verdicts, k) && verdicts[k] != HardBlocked ==>
                      verdicts[k] == Allowed)
      {
        ghost var was := verdicts;
        var verdict := ServeOne(layer, times[j], members[j]);
        verdicts := verdicts + [verdict];
        from := times[j].checked;
        forall k | j < k < |times| ensures UpTo(Log(layer.key), times[k].stamped) {
          UpToMono(Log(layer.key), times[j].stamped, times[k].stamped);
        }
        Appended(layer, was, verdict, times);
      }
    }

    /** One of them. */
    method ServeOne(layer: Layer, t: Times, member: Member) returns (verdict: Verdict)
      requires Valid() && Serves(layer) && t.InOrder(lag) && UpTo(Log(layer.key), t.stamped)
      modifies this`zsets, this`histories, this`blockedUntil
      ensures Valid() && UpTo(Log(layer.key), t.stamped)
      ensures verdict == HardBlocked <==> Blocked(old(BlockOf(layer.key)), t.checked)
      ensures forall at: nat :: t.checked <= at ==>
                (Blocked(BlockOf(layer.key), at) <==>
                  || Blocked(old(BlockOf(layer.key)), at)
                  || (verdict == Escalated && at <= t.blocked + layer.blockSeconds * 1000))
      ensures verdict == Escalated || (verdict == HardBlocked && old(BlockIsLatest(BlockOf(layer.key), Log(layer.key))))
              ==> BlockIsLatest(BlockOf(layer.key), Log(layer.key))
      ensures old(BlockIsLatest(BlockOf(layer.key), Log(layer.key))) && verdict != HardBlocked
              && layer.blockSeconds >= layer.ttlSeconds && layer.limit >= 1 && blockThreshold >= 1 ==>
                verdict == Allowed
    {
      hide SlotValid, UpTo, Count;
      verdict := CheckLayer(layer, t, member);
      if verdict == Escalated { UpToMono(Log(layer.key), t.stamped, t.blocked + layer.blockSeconds * 1000); }
    }
  }

  /** One of the first j requests has set a block that still stands at the time. */
  ghost predicate SetEarlier(layer: Layer, verdicts: seq<Verdict>, times: seq<Times>, j: nat, at: nat)
    requires j <= |verdicts| <= |times|
  {
    exists i :: 0 <= i < j && verdicts[i] == Escalated && at <= times[i].blocked + layer.blockSeconds * 1000
  }

  /** The latest of the first j requests that was not turned away by a block has set one. */
  predicate JustBlocked(verdicts: seq<Verdict>, j: nat)
    requires j <= |verdicts|
  {
    j > 0 && (verdicts[j - 1] == Escalated || (verdicts[j - 1] == HardBlocked && JustBlocked(verdicts, j - 1)))
  }

  lemma NoneEarlier(layer: Layer, times: seq<Times>)
    ensures forall at: nat :: !SetEarlier(layer, [], times, 0, at)
    ensures !JustBlocked([], 0)
  {}

  lemma Appended(layer: Layer, was: seq<Verdict>, verdict: Verdict, times: seq<Times>)
    requires |was| < |times|
    ensures forall k: nat, at: nat :: k <= |was| ==>
              (SetEarlier(layer, was + [verdict], times, k, at) <==> SetEarlier(layer, was, times, k, at))
    ensures forall at: nat ::
              (SetEarlier(layer, was + [verdict], times, |was| + 1, at) <==>
                || SetEarlier(layer, was, times, |was|, at)
                || (verdict == Escalated && at <= times[|was|].blocked + layer.blockSeconds * 1000))
    ensures forall k: nat :: k <= |was| ==> (JustBlocked(was + [verdict], k) <==> JustBlocked(was, k))
    ensures JustBlocked(was + [verdict], |was| + 1) <==>
            verdict == Escalated || (verdict == HardBlocked && JustBlocked(was, |was|))
  {
    forall k: nat | k <= |was| ensures JustBlocked(was + [verdict], k) <==> JustBlocked(was, k) {
      JustBlockedFrame(was, verdict, k);
    }
    hide JustBlocked, SetEarlier;
    forall k: nat, at: nat | k <= |was|
      ensures SetEarlier(layer, was + [verdict], times, k, at) <==> SetEarlier(layer, was, times, k, at)
    {
      EarlierFrame(layer, was, verdict, times, k, at);
    }
    forall at: nat
      ensures SetEarlier(layer, was + [verdict], times, |was| + 1, at) <==>
              || SetEarlier(layer, was, times, |was|, at)
              || (verdict == Escalated && at <= times[|was|].blocked + layer.blockSeconds * 1000)
    {
      EarlierFrame(layer, was, verdict, times, |was|, at);
      EarlierNext(layer, was + [verdict], times, |was|, at);
    }
  }

  lemma EarlierFrame(layer: Layer, was: seq<Verdict>, verdict: Verdict, times: seq<Times>, k: nat, at: nat)
    requires k <= |was| < |times|
    ensures SetEarlier(layer, was + [verdict], times, k, at) <==> SetEarlier(layer, was, times, k, at)
  {
    var now := was + [verdict];
    assert forall i :: 0 <= i < k ==> now[i] == was[i];
  }

  lemma EarlierNext(layer: Layer, verdicts: seq<Verdict>, times: seq<Times>, j: nat, at: nat)
    requires j < |verdicts| <= |times|
    ensures SetEarlier(layer, verdicts, times, j + 1, at) <==>
            || SetEarlier(layer, verdicts, times, j, at)
            || (verdicts[j] == Escalated && at <= times[j].blocked + layer.blockSeconds * 1000)
  {}

  lemma {:induction false} JustBlockedFrame(was: seq<Verdict>, verdict: Verdict, k: nat)
    requires k <= |was|
    ensures JustBlocked(was + [verdict], k) <==> JustBlocked(was, k)
  {
    if k > 0 { JustBlockedFrame(was, verdict, k - 1); }
  }

  lemma UpToSnoc(log: seq<Call>, call: Call, now: nat)
    requires UpTo(log, call.at) && call.at <= now
    ensures UpTo(log + [call], now)
  {}

  lemma CountOf(count: nat, zset: ZSet, h: History, call: Call, ran: nat, windowMs: nat, lag: nat)
    requires Counts(count, ScriptHistory(zset, h, call, ran), call.at, windowMs, lag)
    ensures count == |Members(Known(zset, h, ran) + [call], call.at - windowMs)|
    ensures lag <= 1 ==> count == |Members(ScriptHistory(zset, h, call, ran).Log(), call.at - windowMs)|
  {}

  lemma UpToMono(log: seq<Call>, a: nat, b: nat)
    requires UpTo(log, a) && a <= b
    ensures UpTo(log, b)
  {}

  lemma KeysSnoc(layers: seq<Layer>, i: nat)
    requires i < |layers|
    ensures Keys(layers[..i + 1]) == Keys(layers[..i]) + {layers[i].key}
    ensures DistinctKeys(layers) ==> layers[i].key !in Keys(layers[..i])
    ensures DistinctKeys(layers) ==> forall k :: 0 <= k < i ==> layers[k].key != layers[i].key
  {
    assert layers[..i + 1] == layers[..i] + [layers[i]];
  }

  ghost function Keys(layers: seq<Layer>): set<Key> {
    set layer | layer in layers :: layer.key
  }

  ghost predicate DistinctKeys(layers: seq<Layer>) {
    forall i, j :: 0 <= i < j < |layers| ==> layers[i].key != layers[j].key
  }

  /** The first call after a block that came after every earlier call and lasts a window is alone. */
  lemma AfterBlock(zset: ZSet, h: History, block: Block, windowMs: nat, blockMs: nat, lag: nat, t: Times,
                   member: Member)
    requires SlotValid(zset, h, block, windowMs, blockMs, lag) && !Blocked(block, t.checked) && t.InOrder(lag)
    ensures BlockIsLatest(block, h.Log()) && blockMs >= windowMs ==>
              |Members(Known(zset, h, t.ran) + [Call(t.stamped, member)], t.stamped - windowMs)| == 1
  {
    hide Tracks, Members, Known;
    if BlockIsLatest(block, h.Log()) && blockMs >= windowMs {
      LoneKnown(zset, h, t.ran, t.stamped - windowMs, Call(t.stamped, member));
    }
  }

  /** A call later than the whole window of an old log is alone in its own. */
  lemma LoneKnown(zset: ZSet, h: History, ran: nat, lo: int, call: Call)
    requires (forall c :: c in h.Log() ==> c.at <= lo) && call.at > lo
    ensures |Members(Known(zset, h, ran) + [call], lo)| == 1
  {
    var all := Known(zset, h, ran) + [call];
    assert call in all;
    forall c | c in all && c.at > lo ensures c == call { assert c == call || c in h.Log(); }
    assert Members(all, lo) == {call.member};
  }
}

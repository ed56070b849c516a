/** The append-only request log that the pruned, expiring sorted set of the throttle stands for. */
module SlidingWindow {
  /** The member string `stamp:salt`. */
  datatype Member = Member(stamp: nat, salt: nat)

  datatype Call = Call(at: nat, member: Member)

  /** The calls of a log stamped after lo. */
  ghost function Window(log: seq<Call>, lo: int): seq<Call> {
    if log == [] then []
    else
      var init, last := log[..|log| - 1], log[|log| - 1];
      Window(init, lo) + if last.at > lo then [last] else []
  }

  ghost function Members(log: seq<Call>, lo: int): set<Member> {
    set c | c in log && c.at > lo :: c.member
  }

  ghost predicate Ordered(log: seq<Call>) {
    forall i, j :: 0 <= i < j < |log| ==> log[i].at <= log[j].at
  }

  ghost predicate DistinctMembers(w: seq<Call>) {
    forall i, j :: 0 <= i < j < |w| ==> w[i].member != w[j].member
  }

  /** What the sorted set of one key holds after the calls of `log`: the latest stamp of every member
      called inside the window of the last call. */
  ghost predicate Represents(scores: map<Member, nat>, log: seq<Call>, windowMs: nat) {
    && Ordered(log)
    && (log == [] ==> scores == map[])
    && (log != [] ==>
          var lo := log[|log| - 1].at - windowMs;
          && (forall m :: m in scores ==> scores[m] > lo && Call(scores[m], m) in log)
          && (forall i :: 0 <= i < |log| && log[i].at > lo ==>
                log[i].member in scores && log[i].at <= scores[log[i].member]))
  }

  lemma {:induction false} WindowContents(log: seq<Call>, lo: int, c: Call)
    ensures c in Window(log, lo) <==> c in log && c.at > lo
  {
    if log != [] {
      WindowContents(log[..|log| - 1], lo, c);
      assert log == log[..|log| - 1] + [log[|log| - 1]];
    }
  }

  lemma {:induction false} DistinctCount(w: seq<Call>, lo: int)
    requires forall c :: c in w ==> c.at > lo
    ensures |Members(w, lo)| <= |w|
    ensures |Members(w, lo)| == |w| <==> DistinctMembers(w)
  {
    if w != [] {
      var init, last := w[..|w| - 1], w[|w| - 1];
      assert w == init + [last];
      DistinctCount(init, lo);
      assert Members(w, lo) == Members(init, lo) + {last.member};
      if last.member in Members(init, lo) {
        var c :| c in init && c.at > lo && c.member == last.member;
      }
    }
  }

  /** The number of members in a window is the number of calls in it exactly when no member repeats. */
  lemma CountsCalls(log: seq<Call>, lo: int)
    ensures |Members(log, lo)| <= |Window(log, lo)|
    ensures |Members(log, lo)| == |Window(log, lo)| <==> DistinctMembers(Window(log, lo))
  {
    var w := Window(log, lo);
    forall c: Call ensures c in w <==> c in log && c.at > lo { WindowContents(log, lo, c); }
    assert Members(log, lo) == Members(w, lo);
    DistinctCount(w, lo);
  }

  lemma {:induction false} WindowNarrows(log: seq<Call>, lo: int, hi: int)
    requires lo <= hi
    ensures |Window(log, hi)| <= |Window(log, lo)|
  {
    if log != [] { WindowNarrows(log[..|log| - 1], lo, hi); }
  }

  /** The sorted set after the script has pruned it and added the call; an expired key starts empty. */
  function AfterScript(scores: map<Member, nat>, call: Call, windowMs: nat, expired: bool): map<Member, nat> {
    var kept := if expired then map[] else map m | m in scores && scores[m] > call.at - windowMs :: scores[m];
    kept[call.member := call.at]
  }

  lemma RepresentsMembers(scores: map<Member, nat>, log: seq<Call>, windowMs: nat)
    requires Represents(scores, log, windowMs) && log != []
    ensures scores.Keys == Members(log, log[|log| - 1].at - windowMs)
  {
    var lo := log[|log| - 1].at - windowMs;
    forall m | m in scores ensures m in Members(log, lo) {
      assert Call(scores[m], m) in log;
    }
    forall m | m in Members(log, lo) ensures m in scores {
      var i :| 0 <= i < |log| && log[i].at > lo && log[i].member == m;
    }
  }

  lemma ScriptKeeps(scores: map<Member, nat>, log: seq<Call>, windowMs: nat, call: Call, m: Member)
    requires Represents(scores, log, windowMs)
    requires log != [] ==> log[|log| - 1].at <= call.at
    requires m in AfterScript(scores, call, windowMs, false) && windowMs > 0
    ensures var after := AfterScript(scores, call, windowMs, false);
            after[m] > call.at - windowMs && Call(after[m], m) in log + [call]
  {
    if m == call.member {
      assert call in log + [call];
    } else {
      assert Call(scores[m], m) in log;
    }
  }

  lemma ScriptMisses(scores: map<Member, nat>, log: seq<Call>, windowMs: nat, call: Call, i: nat)
    requires Represents(scores, log, windowMs)
    requires log != [] ==> log[|log| - 1].at <= call.at
    requires i < |log| && log[i].at > call.at - windowMs
    ensures var after := AfterScript(scores, call, windowMs, false);
            log[i].member in after && log[i].at <= after[log[i].member]
  {
    assert log[i].at <= log[|log| - 1].at;
  }

  lemma ScriptRepresents(scores: map<Member, nat>, log: seq<Call>, windowMs: nat, call: Call)
    requires Represents(scores, log, windowMs) && windowMs > 0
    requires log != [] ==> log[|log| - 1].at <= call.at
    ensures Represents(AfterScript(scores, call, windowMs, false), log + [call], windowMs)
  {
    var after, all := AfterScript(scores, call, windowMs, false), log + [call];
    var lo := call.at - windowMs;
    assert call.member in after && after[call.member] == call.at;
    forall m | m in after ensures after[m] > lo && Call(after[m], m) in all {
      ScriptKeeps(scores, log, windowMs, call, m);
    }
    forall i | 0 <= i < |all| && all[i].at > lo ensures all[i].member in after && all[i].at <= after[all[i].member] {
      if i < |log| { ScriptMisses(scores, log, windowMs, call, i); }
    }
    OrderedSnoc(log, call);
    hide AfterScript, Ordered;
    assert all[|all| - 1] == call;
  }

  lemma OrderedSnoc(log: seq<Call>, call: Call)
    requires Ordered(log) && (log != [] ==> log[|log| - 1].at <= call.at)
    ensures Ordered(log + [call])
  {
    var all := log + [call];
    forall i, j | 0 <= i < j < |all| ensures all[i].at <= all[j].at {
      if j == |log| { assert all[i].at <= log[|log| - 1].at; }
    }
  }

  /** What the key still knows of the calls it had counted. */
  function Kept(counted: seq<Call>, expired: bool): seq<Call> {
    if expired then [] else counted
  }

  /** What it has forgotten, then. */
  function Gone(gone: seq<Call>, counted: seq<Call>, expired: bool): seq<Call> {
    if expired then gone + counted else gone
  }

  /** One run of the script on a sorted set that represents the calls since the key last expired. It goes
      on doing so, and its size is the number of members those calls have in the window of this one. */
  lemma ScriptStep(scores: map<Member, nat>, counted: seq<Call>, windowMs: nat, call: Call, expired: bool)
    requires Represents(scores, counted, windowMs) && windowMs > 0
    requires counted != [] ==> counted[|counted| - 1].at <= call.at
    ensures Represents(AfterScript(scores, call, windowMs, expired), Kept(counted, expired) + [call], windowMs)
    ensures AfterScript(scores, call, windowMs, expired).Keys ==
            Members(Kept(counted, expired) + [call], call.at - windowMs)
  {
    if expired {
      assert AfterScript(scores, call, windowMs, true) == AfterScript(map[], call, windowMs, false);
      ScriptRepresents(map[], [], windowMs, call);
    } else {
      ScriptRepresents(scores, counted, windowMs, call);
    }
    hide AfterScript, Represents, Members;
    RepresentsMembers(AfterScript(scores, call, windowMs, expired), Kept(counted, expired) + [call], windowMs);
  }

  // ---------------------------------------------------------------- what an expiry loses

  /** A log whose first part is forgotten still gives the right count exactly when each forgotten call in
      the window has a member that is called there again. */
  lemma Forgetting(gone: seq<Call>, counted: seq<Call>, lo: int)
    ensures |Members(counted, lo)| <= |Members(gone + counted, lo)|
    ensures |Members(counted, lo)| == |Members(gone + counted, lo)| <==>
            forall c :: c in gone && c.at > lo ==> c.member in Members(counted, lo)
  {
    var kept, all := Members(counted, lo), Members(gone + counted, lo);
    assert kept <= all;
    SubsetSize(kept, all);
    forall c | c in gone && c.at > lo ensures c.member in all {
      assert c in gone + counted;
    }
  }

  lemma SubsetSize(a: set<Member>, b: set<Member>)
    requires a <= b
    ensures |a| <= |b| && (|a| == |b| <==> a == b)
  {
    assert b == a + (b - a);
  }

  /** How far back a count reaches when every call runs within lag of its stamp. The key of a window lives
      on for a window after each run, so a call can be forgotten only when a later one runs after that,
      and that one is stamped up to lag earlier than it runs. */
  function Reach(windowMs: nat, lag: nat): int {
    if lag == 0 then windowMs else windowMs + 1 - lag
  }

  ghost predicate Outlived(gone: seq<Call>, counted: seq<Call>, windowMs: nat, lag: nat) {
    forall c, d :: c in gone && d in counted ==> c.at + windowMs < d.at + lag
  }

  /** The count is at least that of the calls within reach and at most that of the whole window. */
  lemma CountReaches(gone: seq<Call>, counted: seq<Call>, call: Call, windowMs: nat, lag: nat)
    requires call in counted && Outlived(gone, counted, windowMs, lag)
    ensures Members(gone + counted, call.at - Reach(windowMs, lag)) <= Members(counted, call.at - windowMs)
    ensures Members(counted, call.at - windowMs) <= Members(gone + counted, call.at - windowMs)
  {}

  /** The sorted set stands for the counted calls; the key outlives each of them by a window, and they
      came after it had outlived the forgotten ones. */
  ghost predicate Tracks(scores: map<Member, nat>, expiresAt: nat, gone: seq<Call>, counted: seq<Call>,
                         windowMs: nat, lag: nat) {
    && Represents(scores, counted, windowMs)
    && Outlived(gone, counted, windowMs, lag)
    && (counted == [] ==> gone == [])
    && (forall c :: c in counted ==> c.at + windowMs <= expiresAt)
  }

  /** One run of the script, at most lag after its stamp. */
  lemma ScriptTracks(scores: map<Member, nat>, expiresAt: nat, gone: seq<Call>, counted: seq<Call>,
                     windowMs: nat, lag: nat, call: Call, now: nat)
    requires windowMs > 0 && Tracks(scores, expiresAt, gone, counted, windowMs, lag)
    requires (forall c :: c in counted ==> c.at <= call.at) && call.at <= now <= call.at + lag
    ensures var expired := now > expiresAt;
            Tracks(AfterScript(scores, call, windowMs, expired), now + windowMs, Gone(gone, counted, expired),
                   Kept(counted, expired) + [call], windowMs, lag)
    ensures AfterScript(scores, call, windowMs, now > expiresAt).Keys ==
            Members(Kept(counted, now > expiresAt) + [call], call.at - windowMs)
  {
    hide AfterScript, Represents, Members;
    if counted != [] { assert counted[|counted| - 1] in counted; }
    ScriptStep(scores, counted, windowMs, call, now > expiresAt);
  }
}

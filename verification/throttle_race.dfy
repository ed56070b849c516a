/** Concurrent requests against one throttle layer: EXISTS on the block key, the script, and the SET of
    the block key are separate commands and interleave freely. */
module ThrottleRace {
  import opened SlidingWindow

  type Request = nat

  /** A request takes its stamp before its script runs in Redis; lag bounds the time in between. */
  datatype Config = Config(windowMs: nat, limit: nat, threshold: nat, blockMs: nat, lag: nat)

  /** What a request does next, or how it ended. */
  datatype Pc = Passed | Blocking | Denied | Admitted

  /** The sorted set with the time after which its key is gone, and the hard block. log are the script runs
      in order, caller[i] the request that made run i, and lost the calls that the set no longer holds,
      because a run pruned them or the key expired. */
  datatype State = State(
    now: nat,
    scores: map<Member, nat>,
    expiresAt: nat,
    blockedUntil: nat,
    pcs: map<Request, Pc>,
    log: seq<Call>,
    caller: seq<Request>,
    lost: set<Call>)

  datatype Step =
    | Tick(delta: nat)
    | Exists(r: Request)
    | Eval(r: Request, call: Call)
    | SetBlock(r: Request)

  function Min(a: nat, b: nat): nat {
    if a <= b then a else b
  }

  /** No member repeats; the stamps may reach Redis in any order. */
  ghost predicate Legal(cfg: Config, s: State, step: Step) {
    match step
    case Tick(_) => true
    case Exists(r) => r !in s.pcs
    case Eval(r, call) =>
      && r in s.pcs && s.pcs[r].Passed? && call.at <= s.now <= call.at + cfg.lag
      && (forall c :: c in s.log ==> c.member != call.member)
    case SetBlock(r) => r in s.pcs && s.pcs[r].Blocking?
  }

  predicate Expired(s: State) {
    s.now > s.expiresAt
  }

  /** What the script leaves in the sorted set; its size is the count that the request gets. */
  function AfterEval(cfg: Config, s: State, call: Call): map<Member, nat> {
    AfterScript(s.scores, call, cfg.windowMs, Expired(s))
  }

  /** The calls that the set does not hold any more when a script counts: all, if the key has expired. */
  function LostBy(s: State): set<Call> {
    if Expired(s) then set c | c in s.log else s.lost
  }

  function LostAfter(cfg: Config, s: State, call: Call): set<Call> {
    LostBy(s) + set c | c in s.log && c.at <= call.at - cfg.windowMs
  }

  function Apply(cfg: Config, s: State, step: Step): State {
    match step
    case Tick(delta) => s.(now := s.now + delta)
    case Exists(r) => s.(pcs := s.pcs[r := if s.now <= s.blockedUntil then Denied else Passed])
    case Eval(r, call) =>
      var after := AfterEval(cfg, s, call);
      var pc := if |after| > cfg.threshold then Blocking else if |after| > cfg.limit then Denied else Admitted;
      s.(scores := after, expiresAt := s.now + cfg.windowMs, pcs := s.pcs[r := pc],
         log := s.log + [call], caller := s.caller + [r], lost := LostAfter(cfg, s, call))
    case SetBlock(r) => s.(pcs := s.pcs[r := Denied], blockedUntil := s.now + cfg.blockMs)
  }

  ghost predicate Run(cfg: Config, s: State, steps: seq<Step>)
    decreases |steps|
  {
    steps == [] || (Legal(cfg, s, steps[0]) && Run(cfg, Apply(cfg, s, steps[0]), steps[1..]))
  }

  ghost function Exec(cfg: Config, s: State, steps: seq<Step>): State
    requires Run(cfg, s, steps)
    decreases |steps|
  {
    if steps == [] then s else Exec(cfg, Apply(cfg, s, steps[0]), steps[1..])
  }

  predicate Initial(s: State) {
    s.scores == map[] && s.pcs == map[] && s.log == [] && s.caller == [] && s.lost == {}
  }

  /** The requests admitted by one of the first n calls, stamped in (lo, hi]. */
  ghost function AdmittedIn(s: State, n: nat, lo: int, hi: int): set<Request>
    requires n <= |s.log| == |s.caller|
  {
    set i | 0 <= i < n && lo < s.log[i].at <= hi && IsAdmitted(s, s.caller[i]) :: s.caller[i]
  }

  ghost predicate IsAdmitted(s: State, r: Request) {
    r in s.pcs && s.pcs[r].Admitted?
  }

  // ---------------------------------------------------------------- the invariant

  /** The set holds the calls that are not lost, each under its own stamp. */
  ghost predicate Holds(scores: map<Member, nat>, log: seq<Call>, lost: set<Call>) {
    && (forall m :: m in scores ==> Call(scores[m], m) in log && Call(scores[m], m) !in lost)
    && (forall c :: c in log && c !in lost ==> c.member in scores && scores[c.member] == c.at)
  }

  /** The key outlives every call by a window, so whatever is lost was called a window ago. If the stamps
      came in order, what is lost lies beyond the reach of the latest call. */
  ghost predicate LogInv(cfg: Config, s: State) {
    && Holds(s.scores, s.log, s.lost)
    && (forall c :: c in s.lost ==> c in s.log)
    && (forall c :: c in s.log ==> c.at <= s.now && c.at + cfg.windowMs <= s.expiresAt)
    && (forall c :: c in s.lost ==> c.at + cfg.windowMs <= s.now)
    && (Ordered(s.log) ==> BeyondReach(cfg, s.log, s.lost))
    && Distinct(s.log)
  }

  ghost predicate BeyondReach(cfg: Config, log: seq<Call>, lost: set<Call>) {
    log != [] ==> forall c :: c in lost ==> c.at <= log[|log| - 1].at - Reach(cfg.windowMs, cfg.lag)
  }

  ghost predicate Distinct(log: seq<Call>) {
    forall i, j :: 0 <= i < j < |log| ==> log[i].member != log[j].member
  }

  ghost predicate CallerInv(s: State) {
    && |s.caller| == |s.log|
    && (forall i :: 0 <= i < |s.caller| ==> s.caller[i] in s.pcs && !s.pcs[s.caller[i]].Passed?)
    && (forall i, j :: 0 <= i < j < |s.caller| ==> s.caller[i] != s.caller[j])
    && (forall r :: IsAdmitted(s, r) ==> r in s.caller)
  }

  /** At the call of an admitted request few enough calls were within reach of it. */
  ghost predicate Bounded(cfg: Config, s: State, reach: int, ordered: bool)
    requires |s.caller| == |s.log|
  {
    forall i :: 0 <= i < |s.caller| && IsAdmitted(s, s.caller[i]) ==>
      (ordered ==> Ordered(s.log[..i + 1])) ==> WithinBound(cfg, s.log[..i + 1], reach)
  }

  ghost predicate WithinBound(cfg: Config, log: seq<Call>, reach: int)
    requires log != []
  {
    |Window(log, log[|log| - 1].at - reach)| <= Min(cfg.limit, cfg.threshold)
  }

  ghost predicate CountInv(cfg: Config, s: State)
    requires |s.caller| == |s.log|
  {
    Bounded(cfg, s, cfg.windowMs - cfg.lag, false) && Bounded(cfg, s, Reach(cfg.windowMs, cfg.lag), true)
  }

  ghost predicate Inv(cfg: Config, s: State) {
    LogInv(cfg, s) && CallerInv(s) && CountInv(cfg, s)
  }

  lemma StepInv(cfg: Config, s: State, step: Step)
    requires Inv(cfg, s) && Legal(cfg, s, step)
    ensures Inv(cfg, Apply(cfg, s, step))
  {
    hide Holds, Distinct, BeyondReach, AfterScript, WithinBound, Ordered, Reach;
    if step.Eval? {
      EvalInv(cfg, s, step.r, step.call);
    } else {
      var t := Apply(cfg, s, step);
      assert t.log == s.log && t.caller == s.caller;
      assert forall i :: 0 <= i < |s.caller| ==> (IsAdmitted(t, s.caller[i]) <==> IsAdmitted(s, s.caller[i]));
    }
  }

  lemma EvalHolds(cfg: Config, s: State, call: Call)
    requires Holds(s.scores, s.log, s.lost) && forall c :: c in s.log ==> c.member != call.member
    requires forall c :: c in s.lost ==> c in s.log
    ensures Holds(AfterEval(cfg, s, call), s.log + [call], LostAfter(cfg, s, call))
  {
    var after, lost, all := AfterEval(cfg, s, call), LostAfter(cfg, s, call), s.log + [call];
    assert after[call.member] == call.at && call !in s.log && call == Call(call.at, call.member);
    forall m | m in after ensures Call(after[m], m) in all && Call(after[m], m) !in lost {
      if m == call.member { assert Call(after[m], m) == call; } else { assert Call(s.scores[m], m) in s.log; }
    }
    forall c | c in all && c !in lost ensures c.member in after && after[c.member] == c.at {
      assert c == call || (c in s.log && c.member != call.member);
    }
  }

  lemma OrderedInit(log: seq<Call>, call: Call)
    requires Ordered(log + [call])
    ensures Ordered(log) && forall c :: c in log ==> c.at <= call.at
  {
    var all := log + [call];
    forall i, j | 0 <= i < j < |log| ensures log[i].at <= log[j].at { assert all[i] == log[i] && all[j] == log[j]; }
    forall c | c in log ensures c.at <= call.at {
      var i :| 0 <= i < |log| && log[i] == c;
      assert all[i] == c && all[|log|] == call;
    }
  }

  lemma EvalReach(cfg: Config, s: State, call: Call)
    requires LogInv(cfg, s) && s.now <= call.at + cfg.lag && Ordered(s.log + [call])
    ensures BeyondReach(cfg, s.log + [call], LostAfter(cfg, s, call))
  {
    OrderedInit(s.log, call);
    hide Holds, Ordered, Distinct;
    var all := s.log + [call];
    assert all[|all| - 1] == call;
    if s.log != [] { assert s.log[|s.log| - 1] in s.log; }
  }

  lemma EvalLog(cfg: Config, s: State, r: Request, call: Call)
    requires LogInv(cfg, s) && Legal(cfg, s, Eval(r, call))
    ensures LogInv(cfg, Apply(cfg, s, Eval(r, call)))
  {
    hide Holds, Distinct, Ordered, BeyondReach, AfterEval;
    EvalHolds(cfg, s, call);
    DistinctSnoc(s.log, call);
    if Ordered(s.log + [call]) { EvalReach(cfg, s, call); }
  }

  /** The calls of a window are counted if none of them is lost. */
  lemma WindowCounted(scores: map<Member, nat>, log: seq<Call>, lost: set<Call>, lo: int)
    requires Holds(scores, log, lost) && Distinct(log)
    requires forall c :: c in lost ==> c.at <= lo
    ensures |Window(log, lo)| <= |scores|
  {
    CountsCalls(log, lo);
    DistinctWindow(log, lo);
    hide Distinct, Window;
    forall c | c in log && c.at > lo ensures c.member in scores {}
    assert Members(log, lo) <= scores.Keys;
    SubsetSize(Members(log, lo), scores.Keys);
    assert |scores.Keys| == |scores|;
  }

  /** An admitted call found few enough calls within its reach, because all of those were counted. */
  lemma EvalBound(cfg: Config, s: State, r: Request, call: Call)
    requires LogInv(cfg, s) && Legal(cfg, s, Eval(r, call))
    requires |AfterEval(cfg, s, call)| <= Min(cfg.limit, cfg.threshold)
    ensures WithinBound(cfg, s.log + [call], cfg.windowMs - cfg.lag)
    ensures Ordered(s.log + [call]) ==> WithinBound(cfg, s.log + [call], Reach(cfg.windowMs, cfg.lag))
  {
    hide Holds, Distinct, Ordered, AfterEval, Window, Reach;
    var all, t := s.log + [call], Apply(cfg, s, Eval(r, call));
    EvalLog(cfg, s, r, call);
    assert all[|all| - 1] == call;
    WindowCounted(t.scores, all, t.lost, call.at + cfg.lag - cfg.windowMs);
    if Ordered(all) { WindowCounted(t.scores, all, t.lost, call.at - Reach(cfg.windowMs, cfg.lag)); }
  }

  lemma EvalInv(cfg: Config, s: State, r: Request, call: Call)
    requires Inv(cfg, s) && Legal(cfg, s, Eval(r, call))
    ensures Inv(cfg, Apply(cfg, s, Eval(r, call)))
  {
    hide AfterEval, LostAfter, WithinBound, LogInv, Ordered, Reach;
    var t := Apply(cfg, s, Eval(r, call));
    EvalLog(cfg, s, r, call);
    if |AfterEval(cfg, s, call)| <= Min(cfg.limit, cfg.threshold) { EvalBound(cfg, s, r, call); }
    EvalCaller(cfg, s, r, call);
    hide Bounded, IsAdmitted, Legal, CallerInv;
    BoundedSnoc(cfg, s, t, cfg.windowMs - cfg.lag, false);
    BoundedSnoc(cfg, s, t, Reach(cfg.windowMs, cfg.lag), true);
  }

  lemma EvalCaller(cfg: Config, s: State, r: Request, call: Call)
    requires CallerInv(s) && Legal(cfg, s, Eval(r, call))
    ensures var t := Apply(cfg, s, Eval(r, call));
            && CallerInv(t) && |t.caller| == |t.log| == |s.log| + 1
            && s.log == t.log[..|s.log|] && s.caller == t.caller[..|s.log|] && t.caller[|s.log|] == r
            && (forall q :: q in s.caller ==> (IsAdmitted(t, q) <==> IsAdmitted(s, q)))
            && (IsAdmitted(t, r) ==> |AfterEval(cfg, s, call)| <= Min(cfg.limit, cfg.threshold))
  {
    hide AfterEval, LostAfter;
    assert r !in s.caller;
  }

  lemma BoundedSnoc(cfg: Config, s: State, t: State, reach: int, ordered: bool)
    requires |s.caller| == |s.log| && |t.caller| == |t.log| == |s.log| + 1
    requires s.log == t.log[..|s.log|] && s.caller == t.caller[..|s.log|]
    requires forall r :: r in s.caller ==> (IsAdmitted(t, r) <==> IsAdmitted(s, r))
    requires Bounded(cfg, s, reach, ordered)
    requires IsAdmitted(t, t.caller[|s.log|]) && (ordered ==> Ordered(t.log)) ==> WithinBound(cfg, t.log, reach)
    ensures Bounded(cfg, t, reach, ordered)
  {
    hide WithinBound, IsAdmitted, Ordered;
    forall i | 0 <= i < |t.caller| && IsAdmitted(t, t.caller[i]) && (ordered ==> Ordered(t.log[..i + 1]))
      ensures WithinBound(cfg, t.log[..i + 1], reach)
    {
      if i < |s.log| {
        assert t.log[..i + 1] == s.log[..i + 1] && t.caller[i] == s.caller[i];
      } else {
        assert t.log[..i + 1] == t.log;
      }
    }
  }

  lemma DistinctSnoc(log: seq<Call>, call: Call)
    requires Distinct(log) && forall c :: c in log ==> c.member != call.member
    ensures Distinct(log + [call])
  {
    var all := log + [call];
    forall i, j | 0 <= i < j < |all| ensures all[i].member != all[j].member {
      assert all[i] in log;
    }
  }

  lemma {:induction false} DistinctWindow(log: seq<Call>, lo: int)
    requires Distinct(log)
    ensures DistinctMembers(Window(log, lo))
  {
    if log != [] {
      var init, last := log[..|log| - 1], log[|log| - 1];
      DistinctWindow(init, lo);
      forall c | c in Window(init, lo) ensures c.member != last.member { WindowContents(init, lo, c); }
    }
  }

  lemma {:induction false} RunInv(cfg: Config, s: State, steps: seq<Step>)
    requires Inv(cfg, s) && Run(cfg, s, steps)
    ensures Inv(cfg, Exec(cfg, s, steps))
    decreases |steps|
  {
    if steps != [] {
      StepInv(cfg, s, steps[0]);
      RunInv(cfg, Apply(cfg, s, steps[0]), steps[1..]);
    }
  }

  // ---------------------------------------------------------------- the admission bound

  lemma {:induction false} AdmittedWithinWindow(s: State, n: nat, lo: int, hi: int)
    requires CallerInv(s) && n <= |s.log|
    ensures |AdmittedIn(s, n, lo, hi)| <= |Window(s.log[..n], lo)|
  {
    hide AdmittedIn;
    assert AdmittedIn(s, 0, lo, hi) == {} by { NoneAdmitted(s, lo, hi); }
    if n > 0 {
      AdmittedWithinWindow(s, n - 1, lo, hi);
      AdmittedGrows(s, n, lo, hi);
      assert s.log[..n][..n - 1] == s.log[..n - 1];
    }
  }

  lemma NoneAdmitted(s: State, lo: int, hi: int)
    requires |s.log| == |s.caller|
    ensures AdmittedIn(s, 0, lo, hi) == {}
  {}

  lemma AdmittedGrows(s: State, n: nat, lo: int, hi: int)
    requires CallerInv(s) && 0 < n <= |s.log|
    ensures var i := n - 1;
            AdmittedIn(s, n, lo, hi) ==
            AdmittedIn(s, n - 1, lo, hi) +
            if lo < s.log[i].at <= hi && IsAdmitted(s, s.caller[i]) then {s.caller[i]} else {}
  {}

  lemma {:induction false} AdmittedBelowLimit(cfg: Config, s: State, n: nat, lo: int, reach: int)
    requires CallerInv(s) && Bounded(cfg, s, reach, false) && n <= |s.log|
    ensures |AdmittedIn(s, n, lo, lo + reach)| <= Min(cfg.limit, cfg.threshold)
  {
    hide AdmittedIn, Window;
    NoneAdmitted(s, lo, lo + reach);
    if n > 0 {
      var i := n - 1;
      assert s.log[..i + 1][|s.log[..i + 1]| - 1] == s.log[i];
      if lo < s.log[i].at <= lo + reach && IsAdmitted(s, s.caller[i]) {
        AdmittedWithinWindow(s, n, lo, lo + reach);
        WindowNarrows(s.log[..n], s.log[i].at - reach, lo);
      } else {
        AdmittedBelowLimit(cfg, s, i, lo, reach);
        AdmittedGrows(s, n, lo, lo + reach);
      }
    }
  }

  lemma InitialInv(cfg: Config, s: State)
    requires Initial(s)
    ensures Inv(cfg, s)
  {
    hide WithinBound, Reach;
  }

  lemma OrderedPrefix(log: seq<Call>, n: nat)
    requires Ordered(log) && n <= |log|
    ensures Ordered(log[..n])
  {}

  /** The admission bound, under every interleaving: at most min(limit, threshold) requests are ever admitted
      by a call stamped in an interval as long as the window less the lag, whatever the order in which the
      stamps reach Redis. If they came in order it holds for the length that the counts reach back, which is
      the whole window up to a lag of one millisecond and that much longer beyond. */
  lemma AdmissionBound(cfg: Config, s: State, steps: seq<Step>, lo: int)
    requires Initial(s) && Run(cfg, s, steps)
    ensures var t := Exec(cfg, s, steps);
            && |t.caller| == |t.log|
            && (forall r :: IsAdmitted(t, r) ==> r in t.caller)
            && |AdmittedIn(t, |t.log|, lo, lo + cfg.windowMs - cfg.lag)| <= Min(cfg.limit, cfg.threshold)
            && (Ordered(t.log) ==>
                  |AdmittedIn(t, |t.log|, lo, lo + Reach(cfg.windowMs, cfg.lag))| <= Min(cfg.limit, cfg.threshold))
    ensures cfg.lag <= 1 ==> Reach(cfg.windowMs, cfg.lag) == cfg.windowMs
    ensures cfg.lag >= 1 ==> Reach(cfg.windowMs, cfg.lag) == cfg.windowMs - cfg.lag + 1
  {
    hide Inv, AdmittedIn, Ordered, Reach;
    InitialInv(cfg, s);
    RunInv(cfg, s, steps);
    hide Run, Exec;
    AdmissionOf(cfg, Exec(cfg, s, steps), lo);
    ReachOf(cfg);
  }

  lemma AdmissionOf(cfg: Config, t: State, lo: int)
    requires Inv(cfg, t)
    ensures |t.caller| == |t.log| && forall r :: IsAdmitted(t, r) ==> r in t.caller
    ensures |AdmittedIn(t, |t.log|, lo, lo + cfg.windowMs - cfg.lag)| <= Min(cfg.limit, cfg.threshold)
    ensures Ordered(t.log) ==>
              |AdmittedIn(t, |t.log|, lo, lo + Reach(cfg.windowMs, cfg.lag))| <= Min(cfg.limit, cfg.threshold)
  {
    hide LogInv, AdmittedIn, Bounded, Ordered, Reach;
    AdmittedBelowLimit(cfg, t, |t.log|, lo, cfg.windowMs - cfg.lag);
    if Ordered(t.log) {
      BoundedThroughout(cfg, t, Reach(cfg.windowMs, cfg.lag));
      AdmittedBelowLimit(cfg, t, |t.log|, lo, Reach(cfg.windowMs, cfg.lag));
    }
  }

  lemma ReachOf(cfg: Config)
    ensures cfg.lag <= 1 ==> Reach(cfg.windowMs, cfg.lag) == cfg.windowMs
    ensures cfg.lag >= 1 ==> Reach(cfg.windowMs, cfg.lag) == cfg.windowMs - cfg.lag + 1
  {}

  lemma BoundedThroughout(cfg: Config, s: State, reach: int)
    requires |s.caller| == |s.log| && Bounded(cfg, s, reach, true) && Ordered(s.log)
    ensures Bounded(cfg, s, reach, false)
  {
    hide Ordered, WithinBound;
    forall i | 0 <= i < |s.caller| && IsAdmitted(s, s.caller[i]) ensures WithinBound(cfg, s.log[..i + 1], reach) {
      OrderedPrefix(s.log, i + 1);
    }
  }

  // ---------------------------------------------------------------- what a block and a count decide

  /** Step k sets the block of the key, and at a time no later than `at` less its length. */
  ghost predicate BlockSet(cfg: Config, s: State, steps: seq<Step>, k: nat, at: nat) {
    && k < |steps| && steps[k].SetBlock?
    && Run(cfg, s, steps[..k]) && at <= Exec(cfg, s, steps[..k]).now + cfg.blockMs
  }

  predicate SetsNone(steps: seq<Step>) {
    forall k :: 0 <= k < |steps| ==> !steps[k].SetBlock?
  }

  /** A block that the run has set covers its last moment, or without any the one it started with does. */
  ghost predicate Stands(cfg: Config, s: State, steps: seq<Step>)
    requires Run(cfg, s, steps)
  {
    var at := Exec(cfg, s, steps).now;
    if SetsNone(steps) then at <= s.blockedUntil else exists k :: BlockSet(cfg, s, steps, k, at)
  }

  lemma {:induction false} RunSplits(cfg: Config, s: State, a: seq<Step>, b: seq<Step>)
    requires Run(cfg, s, a + b)
    ensures Run(cfg, s, a) && Run(cfg, Exec(cfg, s, a), b)
    ensures Exec(cfg, s, a + b) == Exec(cfg, Exec(cfg, s, a), b)
    decreases |a|
  {
    hide Apply, Legal;
    if a == [] {
      assert a + b == b;
    } else {
      assert (a + b)[1..] == a[1..] + b;
      RunSplits(cfg, Apply(cfg, s, a[0]), a[1..], b);
    }
  }

  /** Time goes on, and a block is never replaced by one that ends earlier than the time and its length. */
  lemma {:induction false} BlockStays(cfg: Config, s: State, steps: seq<Step>, until: nat)
    requires Run(cfg, s, steps)
    ensures s.now <= Exec(cfg, s, steps).now
    ensures until <= s.blockedUntil && until <= s.now + cfg.blockMs ==> until <= Exec(cfg, s, steps).blockedUntil
    decreases |steps|
  {
    if steps != [] { BlockStays(cfg, Apply(cfg, s, steps[0]), steps[1..], until); }
  }

  lemma SetCovers(cfg: Config, s: State, steps: seq<Step>, k: nat, at: nat)
    requires Run(cfg, s, steps) && BlockSet(cfg, s, steps, k, at)
    ensures at <= Exec(cfg, s, steps).blockedUntil
  {
    var a, b := steps[..k], steps[k..];
    assert steps == a + b;
    RunSplits(cfg, s, a, b);
    var t := Exec(cfg, s, a);
    assert Run(cfg, Apply(cfg, t, b[0]), b[1..]);
    BlockStays(cfg, Apply(cfg, t, b[0]), b[1..], t.now + cfg.blockMs);
  }

  /** A block at the end of a run that has set one comes from the run. */
  lemma {:induction false} CoverSet(cfg: Config, s: State, steps: seq<Step>, at: nat) returns (k: nat)
    requires Run(cfg, s, steps) && at <= Exec(cfg, s, steps).blockedUntil && !SetsNone(steps)
    ensures BlockSet(cfg, s, steps, k, at)
    decreases |steps|
  {
    var t, rest := Apply(cfg, s, steps[0]), steps[1..];
    if SetsNone(rest) {
      k := 0;
      NoneSet(cfg, t, rest);
      assert steps[0].SetBlock?;
      assert steps[..0] == [] && Exec(cfg, s, []) == s;
    } else {
      var j := CoverSet(cfg, t, rest, at);
      k := j + 1;
      var prefix := steps[..k];
      assert prefix[1..] == rest[..j] && prefix[0] == steps[0];
      hide Apply, Legal;
      assert Exec(cfg, s, prefix) == Exec(cfg, t, rest[..j]);
    }
  }

  lemma {:induction false} NoneSet(cfg: Config, s: State, steps: seq<Step>)
    requires Run(cfg, s, steps) && SetsNone(steps)
    ensures Exec(cfg, s, steps).blockedUntil == s.blockedUntil
    decreases |steps|
  {
    if steps != [] { NoneSet(cfg, Apply(cfg, s, steps[0]), steps[1..]); }
  }

  lemma StandsIff(cfg: Config, s: State, steps: seq<Step>)
    requires Run(cfg, s, steps)
    ensures var t := Exec(cfg, s, steps); t.now <= t.blockedUntil <==> Stands(cfg, s, steps)
  {
    var t := Exec(cfg, s, steps);
    if SetsNone(steps) {
      NoneSet(cfg, s, steps);
    } else if t.now <= t.blockedUntil {
      var k := CoverSet(cfg, s, steps, t.now);
    } else if Stands(cfg, s, steps) {
      var k :| BlockSet(cfg, s, steps, k, t.now);
      SetCovers(cfg, s, steps, k, t.now);
    }
  }

  /** How a request has been answered for good. */
  predicate Settled(s: State, r: Request) {
    r in s.pcs && (s.pcs[r].Denied? || s.pcs[r].Admitted?)
  }

  lemma {:induction false} SettledStays(cfg: Config, s: State, steps: seq<Step>, r: Request)
    requires Run(cfg, s, steps) && Settled(s, r)
    ensures var t := Exec(cfg, s, steps); r in t.pcs && t.pcs[r] == s.pcs[r] && (r in t.caller <==> r in s.caller)
    decreases |steps|
  {
    if steps != [] {
      SettledStep(cfg, s, steps[0], r);
      SettledStays(cfg, Apply(cfg, s, steps[0]), steps[1..], r);
    }
  }

  lemma SettledStep(cfg: Config, s: State, step: Step, r: Request)
    requires Legal(cfg, s, step) && Settled(s, r)
    ensures var t := Apply(cfg, s, step); r in t.pcs && t.pcs[r] == s.pcs[r] && (r in t.caller <==> r in s.caller)
  {}

  /** A request that asks while a block stands is denied for good and never counted; any other gets to run
      its script. */
  lemma BlockGate(cfg: Config, s: State, steps: seq<Step>, r: Request, later: seq<Step>)
    requires Initial(s) && Run(cfg, s, steps + ([Exists(r)] + later))
    ensures Run(cfg, s, steps)
    ensures var t, u := Exec(cfg, s, steps), Exec(cfg, s, steps + ([Exists(r)] + later));
            && (Stands(cfg, s, steps) ==> r in u.pcs && u.pcs[r] == Denied && r !in u.caller)
            && (!Stands(cfg, s, steps) ==> Apply(cfg, t, Exists(r)).pcs == t.pcs[r := Passed])
  {
    RunSplits(cfg, s, steps, [Exists(r)] + later);
    StandsIff(cfg, s, steps);
    hide Stands;
    InitialInv(cfg, s);
    RunInv(cfg, s, steps);
    var t := Exec(cfg, s, steps);
    var next := Apply(cfg, t, Exists(r));
    assert ([Exists(r)] + later)[1..] == later;
    hide LogInv, CountInv;
    if Stands(cfg, s, steps) { SettledStays(cfg, next, later, r); }
  }

  /** The count decides for good: a request is admitted exactly if it is within the limit and the threshold.
      One above the threshold sets the block of the key, and no other does. */
  lemma CountDecides(cfg: Config, s: State, steps: seq<Step>, r: Request, call: Call, later: seq<Step>)
    requires Run(cfg, s, steps + ([Eval(r, call)] + later))
    ensures Run(cfg, s, steps)
    ensures var n := |AfterEval(cfg, Exec(cfg, s, steps), call)|;
            var u := Exec(cfg, s, steps + ([Eval(r, call)] + later));
            && r in u.pcs && (IsAdmitted(u, r) <==> n <= cfg.limit && n <= cfg.threshold)
            && (SetBlock(r) in later ==> n > cfg.threshold && u.pcs[r] == Denied)
            && (n > cfg.threshold && SetBlock(r) !in later ==> u.pcs[r] == Blocking)
            && (cfg.limit < n <= cfg.threshold ==> u.pcs[r] == Denied)
  {
    hide AfterEval, LostAfter;
    RunSplits(cfg, s, steps, [Eval(r, call)] + later);
    var t := Exec(cfg, s, steps);
    var next := Apply(cfg, t, Eval(r, call));
    assert ([Eval(r, call)] + later)[1..] == later;
    DecidedStays(cfg, next, later, r);
  }

  lemma {:induction false} DecidedStays(cfg: Config, s: State, steps: seq<Step>, r: Request)
    requires Run(cfg, s, steps) && r in s.pcs && !s.pcs[r].Passed?
    ensures var t := Exec(cfg, s, steps);
            r in t.pcs && t.pcs[r] == if SetBlock(r) in steps then Denied else s.pcs[r]
    ensures SetBlock(r) in steps ==> s.pcs[r] == Blocking
    decreases |steps|
  {
    if steps != [] {
      DecidedStep(cfg, s, steps[0], r);
      hide Apply, Legal;
      DecidedStays(cfg, Apply(cfg, s, steps[0]), steps[1..], r);
    }
  }

  lemma DecidedStep(cfg: Config, s: State, step: Step, r: Request)
    requires Legal(cfg, s, step) && r in s.pcs && !s.pcs[r].Passed?
    ensures var t := Apply(cfg, s, step);
            r in t.pcs && t.pcs[r] == if step == SetBlock(r) then Denied else s.pcs[r]
    ensures step == SetBlock(r) ==> s.pcs[r] == Blocking
  {}

  // ---------------------------------------------------------------- what an expiry costs

  /** The count of the next script run is that of the whole log exactly when no call that a run has pruned,
      or an expiry of the key, be it only now, has swept away, lies in the window of this one. */
  lemma CountIsLogs(cfg: Config, s: State, steps: seq<Step>, r: Request, call: Call)
    requires cfg.windowMs > 0 && Initial(s) && Run(cfg, s, steps)
    requires Legal(cfg, Exec(cfg, s, steps), Eval(r, call))
    ensures var t := Exec(cfg, s, steps);
            |AfterEval(cfg, t, call)| == |Window(t.log + [call], call.at - cfg.windowMs)| <==>
            forall c :: c in LostBy(t) ==> c.at <= call.at - cfg.windowMs
  {
    var t := Exec(cfg, s, steps);
    InitialInv(cfg, s);
    RunInv(cfg, s, steps);
    hide CallerInv, CountInv, Run, Exec, AfterEval;
    CountOfLog(cfg, t, r, call);
  }

  lemma CountOfLog(cfg: Config, t: State, r: Request, call: Call)
    requires cfg.windowMs > 0 && LogInv(cfg, t) && Legal(cfg, t, Eval(r, call))
    ensures |AfterEval(cfg, t, call)| == |Window(t.log + [call], call.at - cfg.windowMs)| <==>
            forall c :: c in LostBy(t) ==> c.at <= call.at - cfg.windowMs
  {
    hide Distinct, Window, Ordered, AfterEval;
    var all, lo, after := t.log + [call], call.at - cfg.windowMs, AfterEval(cfg, t, call);
    var lost := LostAfter(cfg, t, call);
    EvalHolds(cfg, t, call);
    DistinctSnoc(t.log, call);
    CountsCalls(all, lo);
    DistinctWindow(all, lo);
    EvalPruned(cfg, t, call);
    KeysOfWindow(after, all, lost, lo);
    hide Holds, BeyondReach, Members;
    assert |after.Keys| == |after|;
    SubsetSize(after.Keys, Members(all, lo));
    assert forall c :: c in lost && c.at > lo ==> c in LostBy(t);
  }

  lemma EvalPruned(cfg: Config, t: State, call: Call)
    requires cfg.windowMs > 0
    ensures var after := AfterEval(cfg, t, call); forall m :: m in after ==> after[m] > call.at - cfg.windowMs
  {}

  /** A set pruned at lo holds every member of the window exactly if no lost call lies in it. */
  lemma KeysOfWindow(scores: map<Member, nat>, log: seq<Call>, lost: set<Call>, lo: int)
    requires Holds(scores, log, lost) && Distinct(log)
    requires (forall m :: m in scores ==> scores[m] > lo) && forall c :: c in lost ==> c in log
    ensures scores.Keys <= Members(log, lo)
    ensures scores.Keys == Members(log, lo) <==> forall c :: c in lost ==> c.at <= lo
  {
    forall c | c in lost && c.at > lo ensures c.member in Members(log, lo) && c.member !in scores {
      if c.member in scores { SameCall(log, c, Call(scores[c.member], c.member)); }
    }
    hide Distinct;
  }

  lemma SameCall(log: seq<Call>, c: Call, d: Call)
    requires Distinct(log) && c in log && d in log && c.member == d.member
    ensures c == d
  {
    var i :| 0 <= i < |log| && log[i] == c;
    var j :| 0 <= j < |log| && log[j] == d;
    assert i == j;
  }

  // ---------------------------------------------------------------- the bound is sharp

  lemma MinCount(cfg: Config, n: nat)
    requires n < Min(cfg.limit, cfg.threshold)
    ensures n + 1 <= cfg.limit && n + 1 <= cfg.threshold
  {}

  /** Requests 0 to n - 1 have been admitted in turn at one moment, and the next ones may ask. */
  ghost predicate Filled(s: State, t: State, n: nat, members: nat -> Member) {
    && t.now == s.now && t.blockedUntil == s.blockedUntil && |t.log| == |t.caller| == n
    && (forall i :: 0 <= i < n ==> t.log[i] == Call(s.now, members(i)) && t.caller[i] == i)
    && (forall r: Request :: r in t.pcs <==> r < n)
    && (forall r :: r in t.pcs ==> t.pcs[r] == Admitted)
    && |t.scores| <= n && (forall m :: m in t.scores ==> t.scores[m] == s.now)
  }

  /** Every request up to the limit is admitted at one moment. */
  lemma {:induction false} Fill(cfg: Config, s: State, n: nat, members: nat -> Member) returns (steps: seq<Step>)
    requires Initial(s) && s.now > s.blockedUntil && n <= Min(cfg.limit, cfg.threshold)
    requires Injective(members)
    ensures Run(cfg, s, steps) && Filled(s, Exec(cfg, s, steps), n, members)
    ensures n > 0 ==> Exec(cfg, s, steps).expiresAt == s.now + cfg.windowMs
    decreases n
  {
    if n == 0 {
      steps := [];
      assert Exec(cfg, s, steps) == s;
      assert Filled(s, s, 0, members);
    } else {
      hide Filled, Initial;
      var k: nat := n - 1;
      steps := Fill(cfg, s, k, members);
      FillOne(cfg, s, Exec(cfg, s, steps), k, members);
      hide *;
      steps := Extend(cfg, s, steps, Exists(k));
      steps := Extend(cfg, s, steps, Eval(k, Call(s.now, members(k))));
      assert Filled(s, Exec(cfg, s, steps), k + 1, members);
    }
  }

  ghost predicate Injective(members: nat -> Member) {
    forall i: nat, j: nat :: i < j ==> members(i) != members(j)
  }

  lemma NotYet(s: State, t: State, n: nat, members: nat -> Member)
    requires Filled(s, t, n, members) && Injective(members)
    ensures forall c :: c in t.log ==> c.member != members(n)
  {
    forall c | c in t.log ensures c.member != members(n) {
      var i :| 0 <= i < n && t.log[i] == c;
    }
  }

  lemma FillOne(cfg: Config, s: State, t: State, k: nat, members: nat -> Member)
    requires Filled(s, t, k, members) && s.now > s.blockedUntil && k < Min(cfg.limit, cfg.threshold)
    requires Injective(members)
    ensures var call, u := Call(s.now, members(k)), Apply(cfg, t, Exists(k));
            && Legal(cfg, t, Exists(k)) && Legal(cfg, u, Eval(k, call))
            && Filled(s, Apply(cfg, u, Eval(k, call)), k + 1, members)
            && Apply(cfg, u, Eval(k, call)).expiresAt == s.now + cfg.windowMs
  {
    hide Injective, AfterEval, Apply, Legal;
    var call := Call(s.now, members(k));
    MinCount(cfg, k);
    NotYet(s, t, k, members);
    AfterSize(cfg, t, call);
    AskAndRun(cfg, t, k, call);
    hide Min;
    FilledSnoc(s, t, Apply(cfg, Apply(cfg, t, Exists(k)), Eval(k, call)), k, members);
  }

  lemma FilledSnoc(s: State, t: State, w: State, k: nat, members: nat -> Member)
    requires Filled(s, t, k, members)
    requires w.now == t.now && w.blockedUntil == t.blockedUntil
    requires |w.scores| <= k + 1 && forall m :: m in w.scores ==> w.scores[m] == s.now
    requires w.log == t.log + [Call(s.now, members(k))] && w.caller == t.caller + [k] && w.pcs == t.pcs[k := Admitted]
    ensures Filled(s, w, k + 1, members)
  {
    forall i | 0 <= i < k + 1 ensures w.log[i] == Call(s.now, members(i)) && w.caller[i] == i {
      if i < k { assert w.log[i] == t.log[i] && w.caller[i] == t.caller[i]; }
    }
  }

  /** A request that is let through and counts within the limit is admitted. */
  lemma AskAndRun(cfg: Config, t: State, r: Request, call: Call)
    requires r !in t.pcs && t.now > t.blockedUntil && call.at <= t.now <= call.at + cfg.lag
    requires forall c :: c in t.log ==> c.member != call.member
    requires |AfterEval(cfg, t, call)| <= cfg.limit && |AfterEval(cfg, t, call)| <= cfg.threshold
    ensures var u := Apply(cfg, t, Exists(r));
            var w := Apply(cfg, u, Eval(r, call));
            && Legal(cfg, t, Exists(r)) && Legal(cfg, u, Eval(r, call))
            && w.now == t.now && w.blockedUntil == t.blockedUntil
            && w.scores == AfterEval(cfg, t, call) && w.expiresAt == t.now + cfg.windowMs
            && w.pcs == t.pcs[r := Admitted] && w.log == t.log + [call] && w.caller == t.caller + [r]
  {
    hide AfterScript, LostAfter;
    assert AfterEval(cfg, Apply(cfg, t, Exists(r)), call) == AfterEval(cfg, t, call);
  }

  lemma AfterSize(cfg: Config, s: State, call: Call)
    ensures |AfterEval(cfg, s, call)| <= |s.scores| + 1
    ensures forall m :: m in AfterEval(cfg, s, call) ==>
              AfterEval(cfg, s, call)[m] == call.at || (m in s.scores && AfterEval(cfg, s, call)[m] == s.scores[m])
  {
    var after := AfterEval(cfg, s, call);
    assert after.Keys <= s.scores.Keys + {call.member};
    SubsetSize(after.Keys, s.scores.Keys + {call.member});
    assert |after.Keys| == |after| && |s.scores.Keys| == |s.scores|;
  }

  /** The stamp of the first call of the next batch comes as soon after the first batch as the reach allows. */
  function Gap(cfg: Config): nat {
    if Reach(cfg.windowMs, cfg.lag) >= 0 then Reach(cfg.windowMs, cfg.lag) else 0
  }

  /** The time it takes until its script finds the first batch pruned, or the key expired. */
  function Delay(cfg: Config): nat {
    if cfg.lag <= 1 then cfg.windowMs else cfg.windowMs + 1
  }

  /** The bound is sharp for every configuration, with stamps in order: in an interval one millisecond longer
      than the counts reach back, and be it a single millisecond, one request too many can be admitted. The
      limit is used up at one moment; another request, stamped at the end of the reach and delayed as long as
      it may be, finds the first ones pruned or the key expired. */
  lemma BoundIsSharp(cfg: Config, s: State, members: nat -> Member) returns (steps: seq<Step>)
    requires Initial(s) && s.now > s.blockedUntil && Min(cfg.limit, cfg.threshold) > 0
    requires Injective(members)
    ensures Run(cfg, s, steps)
    ensures var t, lo := Exec(cfg, s, steps), s.now - 1;
            && |t.caller| == |t.log| && Ordered(t.log)
            && |AdmittedIn(t, |t.log|, lo, lo + Gap(cfg) + 1)| == Min(cfg.limit, cfg.threshold) + 1
  {
    var n := Min(cfg.limit, cfg.threshold);
    steps := Fill(cfg, s, n, members);
    var call := Call(s.now + Gap(cfg), members(n));
    Overrun(cfg, s, Exec(cfg, s, steps), n, members);
    hide *;
    var later := Extend(cfg, s, steps, Tick(Delay(cfg)));
    var asked := Extend(cfg, s, later, Exists(n));
    steps := Extend(cfg, s, asked, Eval(n, call));
  }

  lemma Overrun(cfg: Config, s: State, t: State, n: nat, members: nat -> Member)
    requires Filled(s, t, n, members) && t.expiresAt == s.now + cfg.windowMs && s.now > s.blockedUntil
    requires n == Min(cfg.limit, cfg.threshold) > 0
    requires Injective(members)
    ensures var call, lo := Call(s.now + Gap(cfg), members(n)), s.now - 1;
            var u := Apply(cfg, t, Tick(Delay(cfg)));
            var v := Apply(cfg, u, Exists(n));
            var w := Apply(cfg, v, Eval(n, call));
            && Legal(cfg, t, Tick(Delay(cfg))) && Legal(cfg, u, Exists(n)) && Legal(cfg, v, Eval(n, call))
            && |w.caller| == |w.log| && Ordered(w.log)
            && |AdmittedIn(w, |w.log|, lo, lo + Gap(cfg) + 1)| == n + 1
  {
    hide Injective, AfterEval, AdmittedIn, Ordered;
    var call := Call(s.now + Gap(cfg), members(n));
    var u := Apply(cfg, t, Tick(Delay(cfg)));
    NotYet(s, t, n, members);
    SweptAway(cfg, u, call);
    hide Apply, Legal;
    AskAndRun(cfg, u, n, call);
    AllFilled(s, t, Apply(cfg, Apply(cfg, u, Exists(n)), Eval(n, call)), n, members, call);
  }

  lemma AllFilled(s: State, t: State, w: State, n: nat, members: nat -> Member, call: Call)
    requires Filled(s, t, n, members) && call.at >= s.now
    requires w.log == t.log + [call] && w.caller == t.caller + [n] && w.pcs == t.pcs[n := Admitted]
    ensures |w.caller| == |w.log| == n + 1 && Ordered(w.log)
    ensures |AdmittedIn(w, n + 1, s.now - 1, call.at)| == n + 1
  {
    hide AdmittedIn, Ordered;
    OrderedLast(w.log, s.now);
    AllAdmitted(w, n + 1, s.now - 1, call.at);
  }

  lemma SweptAway(cfg: Config, s: State, call: Call)
    requires Expired(s) || forall m :: m in s.scores ==> s.scores[m] <= call.at - cfg.windowMs
    ensures |AfterEval(cfg, s, call)| == 1
  {
    assert AfterEval(cfg, s, call) == map[call.member := call.at];
  }

  lemma OrderedLast(log: seq<Call>, at: nat)
    requires forall i :: 0 <= i < |log| - 1 ==> log[i].at == at
    requires log != [] ==> log[|log| - 1].at >= at
    ensures Ordered(log)
  {}

  lemma {:induction false} AllAdmitted(s: State, n: nat, lo: int, hi: int)
    requires n <= |s.log| == |s.caller|
    requires forall i :: 0 <= i < |s.log| ==> s.caller[i] == i && lo < s.log[i].at <= hi && IsAdmitted(s, s.caller[i])
    ensures |AdmittedIn(s, n, lo, hi)| == n && forall r :: r in AdmittedIn(s, n, lo, hi) ==> r < n
  {
    if n == 0 {
      NoneAdmitted(s, lo, hi);
    } else {
      AllAdmitted(s, n - 1, lo, hi);
      assert AdmittedIn(s, n, lo, hi) == AdmittedIn(s, n - 1, lo, hi) + {s.caller[n - 1]};
    }
  }

  /** One more step at the end of a run. */
  lemma {:induction false} Extend(cfg: Config, s: State, steps: seq<Step>, step: Step) returns (more: seq<Step>)
    requires Run(cfg, s, steps) && Legal(cfg, Exec(cfg, s, steps), step)
    ensures Run(cfg, s, more) && Exec(cfg, s, more) == Apply(cfg, Exec(cfg, s, steps), step)
    decreases |steps|
  {
    if steps == [] {
      more := [step];
      assert more[1..] == [];
    } else {
      var tail := Extend(cfg, Apply(cfg, s, steps[0]), steps[1..], step);
      more := [steps[0]] + tail;
      assert more[1..] == tail;
    }
  }
}

/** The in-flight maps of the cache orchestrator and of the signed-URL cache. JavaScript runs the code
    between two awaits without interruption; each such stretch is one step.

    The orchestrator registers a resolve, and its creator unregisters it in a later turn, after it has
    settled. The signed-URL loader unregisters itself in the turn in which it settles. Both delete by
    key, without looking at what the map holds. */
module SingleFlight {
  type Key = nat
  type WorkId = nat
  type Caller = nat

  datatype Outcome = Value(v: nat) | Failure

  datatype Result = Pending | Settled(outcome: Outcome)

  /** open: the deletion belonging to this work has not run yet. */
  datatype Work = Work(key: Key, result: Result, open: bool)

  /** The key a caller asked for, the work it waits for and what it was given. */
  datatype Seat = Seat(key: Key, work: WorkId, got: Result)

  datatype State = State(works: map<WorkId, Work>, inflight: map<Key, WorkId>, seats: map<Caller, Seat>)

  datatype Step =
    | Arrive(c: Caller, k: Key, w: WorkId)
    | Settle(w: WorkId, outcome: Outcome)
    | Cleanup(w: WorkId)
    | Finish(w: WorkId, outcome: Outcome)
    | Deliver(c: Caller)
    | ThrowAtOnce(c: Caller, k: Key, w: WorkId)

  predicate Legal(s: State, step: Step) {
    match step
    case Arrive(c, k, w) => c !in s.seats && w !in s.works
    case Settle(w, _) => w in s.works && s.works[w].result.Pending?
    case Cleanup(w) => w in s.works && s.works[w].result.Settled? && s.works[w].open
    case Finish(w, _) => w in s.works && s.works[w].result.Pending?
    case Deliver(c) =>
      && c in s.seats && s.seats[c].got.Pending?
      && s.seats[c].work in s.works && s.works[s.seats[c].work].result.Settled?
    case ThrowAtOnce(c, k, w) => c !in s.seats && w !in s.works && k !in s.inflight
  }

  function Apply(s: State, step: Step): State
    requires Legal(s, step)
  {
    match step
    case Arrive(c, k, w) =>
      if k in s.inflight then s.(seats := s.seats[c := Seat(k, s.inflight[k], Pending)])
      else State(s.works[w := Work(k, Pending, true)], s.inflight[k := w], s.seats[c := Seat(k, w, Pending)])
    case Settle(w, outcome) => s.(works := s.works[w := s.works[w].(result := Settled(outcome))])
    case Cleanup(w) =>
      s.(works := s.works[w := s.works[w].(open := false)], inflight := s.inflight - {s.works[w].key})
    case Finish(w, outcome) =>
      s.(works := s.works[w := Work(s.works[w].key, Settled(outcome), false)],
         inflight := s.inflight - {s.works[w].key})
    case Deliver(c) => s.(seats := s.seats[c := s.seats[c].(got := s.works[s.seats[c].work].result)])
    // a loader that throws before its first await: the deletion runs first, then the registration
    case ThrowAtOnce(c, k, w) =>
      State(s.works[w := Work(k, Settled(Failure), false)], s.inflight[k := w], s.seats[c := Seat(k, w, Pending)])
  }

  ghost predicate Run(s: State, steps: seq<Step>)
    decreases |steps|
  {
    steps == [] || (Legal(s, steps[0]) && Run(Apply(s, steps[0]), steps[1..]))
  }

  ghost function Exec(s: State, steps: seq<Step>): State
    requires Run(s, steps)
    decreases |steps|
  {
    if steps == [] then s else Exec(Apply(s, steps[0]), steps[1..])
  }

  predicate Initial(s: State) {
    s.works == map[] && s.inflight == map[] && s.seats == map[]
  }

  /** An entry stands for exactly the work whose own deletion is still to come. */
  ghost predicate Exact(s: State) {
    && (forall k :: k in s.inflight ==>
          && s.inflight[k] in s.works
          && s.works[s.inflight[k]].key == k && s.works[s.inflight[k]].open)
    && (forall w :: w in s.works && s.works[w].open ==>
          s.works[w].key in s.inflight && s.inflight[s.works[w].key] == w)
  }

  /** Work under way is registered, a caller waits for work of its own key, and what it was given is what
      that work came to. */
  ghost predicate Fair(s: State) {
    && (forall w :: w in s.works && s.works[w].result.Pending? ==> s.works[w].open)
    && (forall c :: c in s.seats ==>
          s.seats[c].work in s.works && s.works[s.seats[c].work].key == s.seats[c].key)
    && (forall c :: c in s.seats && s.seats[c].got.Settled? ==> s.seats[c].got == s.works[s.seats[c].work].result)
    && (forall k :: k in s.inflight ==> s.inflight[k] in s.works && s.works[s.inflight[k]].key == k)
  }

  lemma StepExact(s: State, step: Step)
    requires Exact(s) && Fair(s) && Legal(s, step) && !step.ThrowAtOnce?
    ensures Exact(Apply(s, step)) && Fair(Apply(s, step))
  {}

  lemma {:induction false} RunExact(s: State, steps: seq<Step>)
    requires Exact(s) && Fair(s) && Run(s, steps)
    requires forall i :: 0 <= i < |steps| ==> !steps[i].ThrowAtOnce?
    ensures Exact(Exec(s, steps)) && Fair(Exec(s, steps))
    decreases |steps|
  {
    if steps != [] {
      StepExact(s, steps[0]);
      hide Exact, Fair, Apply, Legal;
      RunExact(Apply(s, steps[0]), steps[1..]);
    }
  }

  predicate Underway(s: State, w: WorkId) {
    w in s.works && s.works[w].result.Pending?
  }

  predicate Served(s: State, c: Caller) {
    c in s.seats && s.seats[c].got.Settled?
  }

  /** Under every interleaving: two works of one key are never both under way, the entry of a key is
      that of the work whose cleanup is still to come, that cleanup removes no other entry, and two
      callers that waited for the same work got the same outcome. */
  lemma AtMostOneRunning(s: State, steps: seq<Step>)
    requires Initial(s) && Run(s, steps)
    requires forall i :: 0 <= i < |steps| ==> !steps[i].ThrowAtOnce?
    ensures var t := Exec(s, steps);
            && (forall v, w :: Underway(t, v) && Underway(t, w) && t.works[v].key == t.works[w].key ==> v == w)
            && (forall k, w :: (k in t.inflight && t.inflight[k] == w)
                               <==> (w in t.works && t.works[w].key == k && t.works[w].open))
            && (forall w :: Legal(t, Cleanup(w)) ==> t.inflight[t.works[w].key] == w)
            && (forall b, c :: Served(t, b) && Served(t, c) && t.seats[b].work == t.seats[c].work ==>
                  t.seats[b].got == t.seats[c].got)
            && (forall c :: c in t.seats ==>
                  t.seats[c].work in t.works && t.works[t.seats[c].work].key == t.seats[c].key)
  {
    RunExact(s, steps);
  }

  /** A caller at the map joins the work of its key, if there is one not cleaned up, and only otherwise starts
      its own. */
  lemma JoinsOrStarts(s: State, steps: seq<Step>, c: Caller, k: Key, w: WorkId)
    requires Initial(s) && Run(s, steps) && Legal(Exec(s, steps), Arrive(c, k, w))
    requires forall i :: 0 <= i < |steps| ==> !steps[i].ThrowAtOnce?
    ensures var t, u := Exec(s, steps), Apply(Exec(s, steps), Arrive(c, k, w));
            && c in u.seats && u.seats[c].key == k && u.seats[c].got == Pending
            && (forall v :: v in t.works && t.works[v].key == k && t.works[v].open ==>
                  u.seats[c].work == v && u.works == t.works)
            && ((forall v :: v in t.works && t.works[v].key == k ==> !t.works[v].open) ==>
                  u.seats[c].work == w && u.works == t.works[w := Work(k, Pending, true)])
  {
    RunExact(s, steps);
  }

  lemma StepFair(s: State, step: Step, w: WorkId)
    requires Fair(s) && Legal(s, step)
    ensures Fair(Apply(s, step))
    ensures w in s.works ==> w in Apply(s, step).works && Apply(s, step).works[w].key == s.works[w].key
    ensures w in s.works && s.works[w].result.Settled? ==> Apply(s, step).works[w].result == s.works[w].result
  {}

  lemma {:induction false} ResultStays(s: State, steps: seq<Step>, w: WorkId)
    requires Fair(s) && Run(s, steps) && w in s.works && s.works[w].result.Settled?
    ensures var t := Exec(s, steps);
            Fair(t) && w in t.works && t.works[w].result == s.works[w].result && t.works[w].key == s.works[w].key
    decreases |steps|
  {
    if steps != [] {
      StepFair(s, steps[0], w);
      hide Apply, Legal, Fair;
      ResultStays(Apply(s, steps[0]), steps[1..], w);
    }
  }

  /** Once a loader has settled, whoever waits for it, having come before or after, gets just that outcome,
      and is one who asked for its key. */
  lemma OutcomeForAll(s: State, step: Step, w: WorkId, outcome: Outcome, steps: seq<Step>, c: Caller)
    requires Fair(s) && Legal(s, step) && (step == Settle(w, outcome) || step == Finish(w, outcome))
    requires Run(Apply(s, step), steps)
    requires c in Exec(Apply(s, step), steps).seats && Exec(Apply(s, step), steps).seats[c].work == w
    ensures var t := Exec(Apply(s, step), steps);
            && t.seats[c].key == s.works[w].key
            && (if Served(t, c) then t.seats[c].got == Settled(outcome)
                else Legal(t, Deliver(c)) && Apply(t, Deliver(c)).seats[c].got == Settled(outcome))
  {
    StepFair(s, step, w);
    ResultStays(Apply(s, step), steps, w);
  }

  // ---------------------------------------------------------------- loaders that throw at once

  /** The entry of k is a settled failure that no deletion is left to remove. */
  ghost predicate Stuck(s: State, k: Key, w: WorkId) {
    && k in s.inflight && s.inflight[k] == w && w in s.works
    && s.works[w] == Work(k, Settled(Failure), false)
    && (forall v :: v in s.works && s.works[v].key == k ==> !s.works[v].open && s.works[v].result.Settled?)
  }

  lemma StuckStep(s: State, step: Step, k: Key, w: WorkId)
    requires Fair(s) && Stuck(s, k, w) && Legal(s, step)
    ensures Fair(Apply(s, step)) && Stuck(Apply(s, step), k, w)
    ensures forall v :: v in Apply(s, step).works && Apply(s, step).works[v].key == k ==> v in s.works
    ensures forall v :: v in s.works && s.works[v].key != k ==> Apply(s, step).works[v].key != k
  {}

  /** Nothing dislodges the entry, and no work of its key starts again. */
  lemma {:induction false} StuckForever(s: State, steps: seq<Step>, k: Key, w: WorkId)
    requires Fair(s) && Stuck(s, k, w) && Run(s, steps)
    ensures Fair(Exec(s, steps)) && Stuck(Exec(s, steps), k, w)
    ensures forall v :: v in Exec(s, steps).works && Exec(s, steps).works[v].key == k ==> v in s.works
    decreases |steps|
  {
    if steps != [] {
      var t := Apply(s, steps[0]);
      StuckStep(s, steps[0], k, w);
      StuckForever(t, steps[1..], k, w);
      KeysStay(t, steps[1..]);
    }
  }

  lemma {:induction false} KeysStay(s: State, steps: seq<Step>)
    requires Run(s, steps)
    ensures forall v :: v in s.works ==> v in Exec(s, steps).works && Exec(s, steps).works[v].key == s.works[v].key
    decreases |steps|
  {
    if steps != [] { KeysStay(Apply(s, steps[0]), steps[1..]); }
  }

  lemma {:induction false} StuckAtEnd(s: State, steps: seq<Step>, i: nat) returns (k: Key, w: WorkId)
    requires Exact(s) && Fair(s) && Run(s, steps) && i < |steps| && steps[i].ThrowAtOnce?
    requires forall j :: 0 <= j < i ==> !steps[j].ThrowAtOnce?
    ensures Stuck(Exec(s, steps), k, w)
    decreases |steps|
  {
    var t := Apply(s, steps[0]);
    if i == 0 {
      k, w := steps[0].k, steps[0].w;
      ThrowSticks(s, steps[0]);
      StuckForever(t, steps[1..], k, w);
    } else {
      StepExact(s, steps[0]);
      hide Exact, Fair, Stuck;
      k, w := StuckAtEnd(t, steps[1..], i - 1);
    }
  }

  lemma ThrowSticks(s: State, step: Step)
    requires Exact(s) && Fair(s) && step.ThrowAtOnce? && Legal(s, step)
    ensures Fair(Apply(s, step)) && Stuck(Apply(s, step), step.k, step.w)
  {}

  /** The in-flight map stays exact if and only if no loader throws before its first await. One that
      does leaves its failure registered for good: no work of that key ever starts again. */
  lemma ExactIffNoThrow(s: State, steps: seq<Step>)
    requires Initial(s) && Run(s, steps)
    ensures Exact(Exec(s, steps)) <==> forall i :: 0 <= i < |steps| ==> !steps[i].ThrowAtOnce?
  {
    if forall i :: 0 <= i < |steps| ==> !steps[i].ThrowAtOnce? {
      RunExact(s, steps);
    } else {
      var i := FirstThrow(steps);
      var k, w := StuckAtEnd(s, steps, i);
    }
  }

  lemma {:induction false} FirstThrow(steps: seq<Step>) returns (i: nat)
    requires exists j :: 0 <= j < |steps| && steps[j].ThrowAtOnce?
    ensures i < |steps| && steps[i].ThrowAtOnce?
    ensures forall j :: 0 <= j < i ==> !steps[j].ThrowAtOnce?
  {
    i := 0;
    while !steps[i].ThrowAtOnce?
      invariant 0 <= i < |steps|
      invariant exists j :: i <= j < |steps| && steps[j].ThrowAtOnce?
      invariant forall j :: 0 <= j < i ==> !steps[j].ThrowAtOnce?
      decreases |steps| - i
    {
      i := i + 1;
    }
  }

  /** Once stuck, a caller of that key is handed the old failure and starts nothing. */
  lemma StuckServesFailure(s: State, steps: seq<Step>, k: Key, w: WorkId, c: Caller, v: WorkId)
    requires Fair(s) && Stuck(s, k, w) && Run(s, steps) && Legal(Exec(s, steps), Arrive(c, k, v))
    ensures var t := Exec(s, steps);
            && Apply(t, Arrive(c, k, v)).works == t.works
            && Legal(Apply(t, Arrive(c, k, v)), Deliver(c))
            && Apply(Apply(t, Arrive(c, k, v)), Deliver(c)).seats[c].got == Settled(Failure)
  {
    StuckForever(s, steps, k, w);
  }
}

/** Overlapping rotations of refresh keys: each reads its key, and later stores a new pair and deletes the
    old one, in either order, without looking at it again. */
module RotationRace {
  type Key = nat
  type Call = nat

  /** A refresh key that was handed out: alive, or gone since a position of the run, by a logout or otherwise. */
  datatype Life = Alive | Gone(at: nat, out: bool)

  /** When something was done, if it was. */
  datatype Done = NotYet | At(pos: nat)

  /** A rotation: the key it read at which position, whether it found it, and when it stored the new pair and
      deleted the old. */
  datatype Rotation = Rotation(key: Key, at: nat, granted: bool, stored: Done, deleted: Done)

  datatype State = State(clock: nat, keys: map<Key, Life>, calls: map<Call, Rotation>)

  datatype Step =
    | Read(c: Call, k: Key)
    | Store(c: Call, next: Key)
    | Delete(c: Call)
    | Expire(k: Key)
    | Logout(k: Key)

  predicate Live(s: State, k: Key) {
    k in s.keys && s.keys[k].Alive?
  }

  predicate Granted(s: State, c: Call) {
    c in s.calls && s.calls[c].granted
  }

  predicate Legal(s: State, step: Step) {
    match step
    case Read(c, k) => c !in s.calls && k in s.keys
    case Store(c, k) => Granted(s, c) && s.calls[c].stored.NotYet? && k !in s.keys
    case Delete(c) => Granted(s, c) && s.calls[c].deleted.NotYet?
    case Expire(k) => true
    case Logout(k) => Live(s, k)
  }

  /** The key is taken away, if it is still there. */
  function Drop(s: State, k: Key, out: bool): map<Key, Life> {
    if Live(s, k) then s.keys[k := Gone(s.clock, out)] else s.keys
  }

  function Apply(s: State, step: Step): State
    requires Legal(s, step)
  {
    match step
    case Read(c, k) => State(s.clock + 1, s.keys, s.calls[c := Rotation(k, s.clock, Live(s, k), NotYet, NotYet)])
    case Store(c, k) => State(s.clock + 1, s.keys[k := Alive], s.calls[c := s.calls[c].(stored := At(s.clock))])
    case Delete(c) =>
      State(s.clock + 1, Drop(s, s.calls[c].key, false), s.calls[c := s.calls[c].(deleted := At(s.clock))])
    case Expire(k) => State(s.clock + 1, Drop(s, k, false), s.calls)
    case Logout(k) => State(s.clock + 1, Drop(s, k, true), s.calls)
  }

  ghost predicate Run(s: State, steps: seq<Step>)
    decreases |steps|
  {
    steps == [] || (Legal(s, steps[0]) && Run(Apply(s, steps[0]), steps[1..]))
  }

  ghost function Exec(s: State, steps: seq<Step>): State
    requires Run(s, steps)
    decreases |steps|
  {
    if steps == [] then s else Exec(Apply(s, steps[0]), steps[1..])
  }

  predicate Initial(s: State) {
    s.calls == map[] && forall k :: k in s.keys ==> s.keys[k].Alive?
  }

  /** A rotation finds its key exactly if it reads before the key goes, and only one that has found it goes
      on; what it deletes stays deleted. */
  predicate CallInv(s: State, r: Rotation) {
    && r.key in s.keys && r.at < s.clock
    && (r.granted <==> (s.keys[r.key].Gone? ==> r.at < s.keys[r.key].at))
    && (r.stored.At? ==> r.granted && r.at < r.stored.pos < s.clock)
    && (r.deleted.At? ==> r.granted && s.keys[r.key].Gone? && s.keys[r.key].at <= r.deleted.pos < s.clock)
    && (r.deleted.At? && s.keys[r.key].out ==> s.keys[r.key].at < r.deleted.pos)
  }

  ghost predicate Inv(s: State) {
    && (forall k :: k in s.keys && s.keys[k].Gone? ==> s.keys[k].at < s.clock)
    && (forall c :: c in s.calls ==> CallInv(s, s.calls[c]))
  }

  lemma StepInv(s: State, step: Step)
    requires Inv(s) && Legal(s, step)
    ensures Inv(Apply(s, step))
  {
    var t := Apply(s, step);
    forall c | c in t.calls ensures CallInv(t, t.calls[c]) {
      if c in s.calls { assert CallInv(s, s.calls[c]); }
    }
  }

  lemma {:induction false} RunInv(s: State, steps: seq<Step>)
    requires Inv(s) && Run(s, steps)
    ensures Inv(Exec(s, steps))
    decreases |steps|
  {
    if steps != [] {
      StepInv(s, steps[0]);
      RunInv(Apply(s, steps[0]), steps[1..]);
    }
  }

  // ---------------------------------------------------------------- redeemed twice

  /** The call has handed out a new pair for the key. */
  predicate Redeems(s: State, c: Call, k: Key) {
    c in s.calls && s.calls[c].key == k && s.calls[c].stored.At?
  }

  /** The call has come through: it was refused, or it has stored its pair. */
  predicate Through(s: State, c: Call, k: Key) {
    c in s.calls && s.calls[c].key == k && (s.calls[c].granted ==> s.calls[c].stored.At?)
  }

  predicate ReadInTime(s: State, c: Call, k: Key)
    requires c in s.calls && k in s.keys
  {
    s.keys[k].Gone? ==> s.calls[c].at < s.keys[k].at
  }

  /** Under every interleaving, two rotations of a key that have come through both hand out a new pair if and
      only if both read the key before anything took it away. */
  lemma TwiceIff(s: State, steps: seq<Step>, c: Call, d: Call, k: Key)
    requires Initial(s) && Run(s, steps) && Through(Exec(s, steps), c, k) && Through(Exec(s, steps), d, k)
    ensures var t := Exec(s, steps);
            && k in t.keys
            && (Redeems(t, c, k) && Redeems(t, d, k) <==> ReadInTime(t, c, k) && ReadInTime(t, d, k))
  {
    RunInv(s, steps);
    hide Run, Exec;
    assert CallInv(Exec(s, steps), Exec(s, steps).calls[c]);
    assert CallInv(Exec(s, steps), Exec(s, steps).calls[d]);
  }

  /** In particular each has read the key before the other deleted it: two rotations that do not overlap
      never redeem the same key. */
  lemma TwiceOverlaps(s: State, steps: seq<Step>, c: Call, d: Call, k: Key)
    requires Initial(s) && Run(s, steps) && Redeems(Exec(s, steps), c, k) && Redeems(Exec(s, steps), d, k)
    ensures var t := Exec(s, steps);
            t.calls[d].deleted.At? ==> t.calls[c].at < t.calls[d].deleted.pos
  {
    RunInv(s, steps);
    hide Run, Exec;
    assert CallInv(Exec(s, steps), Exec(s, steps).calls[c]);
    assert CallInv(Exec(s, steps), Exec(s, steps).calls[d]);
  }

  /** The step takes the key away, or finds it gone. */
  predicate Takes(s: State, step: Step, k: Key)
    requires Legal(s, step)
  {
    step == Expire(k) || step == Logout(k) || (step.Delete? && s.calls[step.c].key == k)
  }

  lemma {:induction false} GoneStays(s: State, steps: seq<Step>, k: Key)
    requires Run(s, steps) && k in s.keys && s.keys[k].Gone?
    ensures k in Exec(s, steps).keys && Exec(s, steps).keys[k] == s.keys[k]
    decreases |steps|
  {
    if steps != [] { GoneStays(Apply(s, steps[0]), steps[1..], k); }
  }

  /** From then on every rotation of it is refused. */
  lemma RefusedAfter(s: State, step: Step, k: Key, later: seq<Step>, c: Call)
    requires k in s.keys && Legal(s, step) && Takes(s, step, k) && Run(Apply(s, step), later)
    requires c !in Exec(Apply(s, step), later).calls
    ensures var t := Exec(Apply(s, step), later);
            !Live(t, k) && Legal(t, Read(c, k)) && !Granted(Apply(t, Read(c, k)), c)
  {
    GoneStays(Apply(s, step), later, k);
  }

  // ---------------------------------------------------------------- a session that outlives its logout

  predicate LoggedOut(s: State, k: Key) {
    k in s.keys && s.keys[k].Gone? && s.keys[k].out
  }

  /** A session that was logged out has got a new pair that the logout did not reach, exactly if a rotation
      read the key before the logout deleted it, stores the pair, and was not done by then. */
  lemma OutlivesIff(s: State, steps: seq<Step>, k: Key, c: Call)
    requires Initial(s) && Run(s, steps) && LoggedOut(Exec(s, steps), k)
    ensures var t := Exec(s, steps);
            Redeems(t, c, k) <==>
              && c in t.calls && t.calls[c].key == k && t.calls[c].at < t.keys[k].at && t.calls[c].stored.At?
              && (t.calls[c].deleted.At? ==> t.keys[k].at < t.calls[c].deleted.pos)
  {
    RunInv(s, steps);
    hide Run, Exec;
    var t := Exec(s, steps);
    if c in t.calls { assert CallInv(t, t.calls[c]); }
  }

  /** The key is gone, and every rotation that has found it has stored its new pair. */
  ghost predicate Settled(s: State, k: Key) {
    k in s.keys && s.keys[k].Gone? && forall c :: Granted(s, c) && s.calls[c].key == k ==> s.calls[c].stored.At?
  }

  /** Once a key is gone, no further pair descends from it unless a rotation of it is under way then. */
  lemma {:induction false} LogoutFinal(s: State, steps: seq<Step>, k: Key)
    requires Settled(s, k) && Run(s, steps)
    ensures forall c :: Redeems(Exec(s, steps), c, k) ==> Redeems(s, c, k)
    decreases |steps|
  {
    if steps != [] {
      SettledStep(s, steps[0], k);
      hide Settled, Redeems, Apply, Legal;
      LogoutFinal(Apply(s, steps[0]), steps[1..], k);
    }
  }

  lemma SettledStep(s: State, step: Step, k: Key)
    requires Settled(s, k) && Legal(s, step)
    ensures Settled(Apply(s, step), k) && forall c :: Redeems(Apply(s, step), c, k) ==> Redeems(s, c, k)
  {}

  /** And if one is, it may go on, and its pair is alive. */
  lemma UnderWayGoesOn(s: State, k: Key, c: Call, next: Key)
    requires Granted(s, c) && s.calls[c].key == k && s.calls[c].stored.NotYet? && next !in s.keys
    ensures Legal(s, Store(c, next))
    ensures var t := Apply(s, Store(c, next)); Redeems(t, c, k) && Live(t, next)
  {}

  // ---------------------------------------------------------------- runs that do

  /** One more step at the end of a run. */
  lemma {:induction false} Extend(s: State, steps: seq<Step>, step: Step) returns (more: seq<Step>)
    requires Run(s, steps) && Legal(Exec(s, steps), step)
    ensures Run(s, more) && Exec(s, more) == Apply(Exec(s, steps), step)
    decreases |steps|
  {
    if steps == [] {
      more := [step];
      assert more[1..] == [];
    } else {
      var tail := Extend(Apply(s, steps[0]), steps[1..], step);
      more := [steps[0]] + tail;
      assert more[1..] == tail;
    }
  }

  /** Two overlapping rotations redeem one key, and both new pairs are alive. */
  lemma OverlapRedeemsTwice(s: State, k: Key, a: Key, b: Key) returns (steps: seq<Step>)
    requires Initial(s) && k in s.keys && a !in s.keys && b !in s.keys && a != b
    ensures Run(s, steps)
    ensures var t := Exec(s, steps);
            Redeems(t, 0, k) && Redeems(t, 1, k) && Live(t, a) && Live(t, b) && !Live(t, k)
  {
    steps := [];
    assert Exec(s, steps) == s;
    hide Run, Exec;
    steps := Extend(s, steps, Read(0, k));
    steps := Extend(s, steps, Read(1, k));
    steps := Extend(s, steps, Store(0, a));
    steps := Extend(s, steps, Delete(0));
    steps := Extend(s, steps, Store(1, b));
    steps := Extend(s, steps, Delete(1));
  }

  /** A session that outlives its logout. */
  lemma LogoutOutlived(s: State, k: Key, next: Key) returns (steps: seq<Step>)
    requires Initial(s) && k in s.keys && next !in s.keys
    ensures Run(s, steps)
    ensures var t := Exec(s, steps); LoggedOut(t, k) && Redeems(t, 0, k) && Live(t, next)
  {
    steps := [];
    assert Exec(s, steps) == s;
    hide Run, Exec;
    steps := Extend(s, steps, Read(0, k));
    steps := Extend(s, steps, Logout(k));
    steps := Extend(s, steps, Store(0, next));
    steps := Extend(s, steps, Delete(0));
  }
}

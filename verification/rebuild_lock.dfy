/** The distributed lock around a rebuild: SET NX PX to take it, a compare-and-delete script to give
    it back. Any number of nodes, arbitrary delays, expiry by the clock of Redis. */
module RebuildLock {
  /** Every attempt draws a token of its own. */
  type Token = nat

  datatype Lock = Free | Held(token: Token, expiresAt: nat)

  /** inside maps each run between its SET and its release to the time it took the lock; releasing
      are the runs whose release script has not reached Redis yet. */
  datatype State = State(
    now: nat,
    ttl: nat,
    lock: Lock,
    inside: map<Token, nat>,
    releasing: set<Token>,
    drawn: set<Token>)

  datatype Step =
    | Tick(delta: nat)
    | TryAcquire(token: Token)
    | Leave(token: Token)
    | Release(token: Token)

  /** A key is gone once the clock has passed its expiry. */
  predicate Live(s: State) {
    s.lock.Held? && s.now <= s.lock.expiresAt
  }

  predicate Legal(s: State, step: Step) {
    match step
    case Tick(_) => true
    case TryAcquire(token) => token !in s.drawn
    case Leave(token) => token in s.inside
    case Release(token) => token in s.releasing
  }

  function Apply(s: State, step: Step): State
    requires Legal(s, step)
  {
    match step
    case Tick(delta) => s.(now := s.now + delta)
    case TryAcquire(token) =>
      var t := s.(drawn := s.drawn + {token});
      if Live(s) then t
      else t.(lock := Held(token, s.now + s.ttl), inside := s.inside[token := s.now])
    case Leave(token) => s.(inside := s.inside - {token}, releasing := s.releasing + {token})
    case Release(token) =>
      var t := s.(releasing := s.releasing - {token});
      if Live(s) && s.lock.token == token then t.(lock := Free) else t
  }

  ghost predicate Run(s: State, steps: seq<Step>)
    decreases |steps|
  {
    steps == [] || (Legal(s, steps[0]) && Run(Apply(s, steps[0]), steps[1..]))
  }

  ghost function Exec(s: State, steps: seq<Step>): State
    requires Run(s, steps)
    decreases |steps|
  {
    if steps == [] then s else Exec(Apply(s, steps[0]), steps[1..])
  }

  predicate Initial(s: State) {
    s.lock == Free && s.inside == map[] && s.releasing == {} && s.drawn == {}
  }

  predicate Overdue(s: State, token: Token)
    requires token in s.inside
  {
    s.now > s.inside[token] + s.ttl
  }

  /** Whoever is inside holds the lock or has outstayed its time to live. */
  ghost predicate Inv(s: State) {
    && s.inside.Keys <= s.drawn && s.releasing <= s.drawn && s.inside.Keys !! s.releasing
    && (s.lock.Held? ==> s.lock.token in s.drawn)
    && (s.lock.Held? && s.lock.token in s.inside ==> s.lock.expiresAt == s.inside[s.lock.token] + s.ttl)
    && (forall t :: t in s.inside ==> Overdue(s, t) || s.lock == Held(t, s.inside[t] + s.ttl))
  }

  lemma {:induction false} RunInv(s: State, steps: seq<Step>)
    requires Inv(s) && Run(s, steps)
    ensures Inv(Exec(s, steps))
    decreases |steps|
  {
    if steps != [] {
      RunInv(Apply(s, steps[0]), steps[1..]);
    }
  }

  /** In every state of every run at most one run inside is not overdue, so two nodes are inside the
      rebuild together only if one of them outstayed the lock. */
  lemma MutualExclusion(s: State, steps: seq<Step>, a: Token, b: Token)
    requires Initial(s) && Run(s, steps)
    requires a in Exec(s, steps).inside && b in Exec(s, steps).inside
    ensures a == b || Overdue(Exec(s, steps), a) || Overdue(Exec(s, steps), b)
  {
    RunInv(s, steps);
  }

  /** The bound is exact: while the run that last took the lock is inside, another attempt gets in
      beside it if and only if that run is overdue. */
  lemma EntryBesideHolder(s: State, steps: seq<Step>, a: Token, b: Token)
    requires Initial(s) && Run(s, steps)
    requires a in Exec(s, steps).inside && b !in Exec(s, steps).drawn
    requires Exec(s, steps).lock.Held? && Exec(s, steps).lock.token == a
    ensures {a, b} <= Apply(Exec(s, steps), TryAcquire(b)).inside.Keys <==> Overdue(Exec(s, steps), a)
  {
    RunInv(s, steps);
  }

  /** A release, however late it arrives, never takes the lock from another run, whether that is still
      inside or about to release; and a run inside that is not overdue keeps a live lock. */
  lemma ReleaseIsOwn(s: State, steps: seq<Step>, mine: Token, theirs: Token)
    requires Initial(s) && Run(s, steps)
    requires mine in Exec(s, steps).releasing && theirs != mine
    ensures var t := Exec(s, steps);
            t.lock.Held? && t.lock.token == theirs ==> Apply(t, Release(mine)).lock == t.lock
    ensures theirs in Exec(s, steps).inside && !Overdue(Exec(s, steps), theirs) ==>
              Live(Apply(Exec(s, steps), Release(mine))) && Apply(Exec(s, steps), Release(mine)).lock.token == theirs
  {
    RunInv(s, steps);
  }

  /** The run that last took the lock gives it back, however long its release takes to arrive: in time the
      lock is deleted, later it has expired, and either way the next attempt gets in. */
  lemma ReleaseLetsNextIn(s: State, steps: seq<Step>, token: Token, delta: nat, next: Token)
    requires Initial(s) && Run(s, steps)
    requires token in Exec(s, steps).inside && next !in Exec(s, steps).drawn
    requires Exec(s, steps).lock.Held? && Exec(s, steps).lock.token == token
    ensures var t := Exec(s, steps);
            var u := Apply(Apply(Apply(t, Leave(token)), Tick(delta)), Release(token));
            var v := Apply(u, TryAcquire(next));
            && (t.now + delta <= t.inside[token] + t.ttl ==> u.lock == Free)
            && token !in u.inside && token !in u.releasing
            && v.lock == Held(next, t.now + delta + t.ttl) && next in v.inside
  {
    RunInv(s, steps);
  }
}

/** How old a cached value can be: any number of processes, each with its own L1, sharing one L2 entry
    over one row that changes at will. Every await of a resolve is a point where others run. */
module CacheStaleness {
  import opened Reals

  type Process = nat
  type Work = nat
  type Value = nat

  /** row gives the content of the row at every time; delay bounds how long a resolve still runs after
      the read that gave its value. */
  datatype Config = Config(row: real -> Value, l1TtlMs: nat, l2TtlSecs: nat, delay: real)

  /** A value with the time at which it was read from the database. */
  datatype Item = Item(value: Value, readAt: real)

  datatype Cached = Absent | Stored(item: Item, expiresAt: real)

  /** A resolve past its read: since is the time of that read, from L2 or from the database. */
  datatype Resolve = Resolve(owner: Process, item: Item, since: real, fromDb: bool)

  datatype State = State(now: real, l2: Cached, l1: map<Process, Cached>, running: map<Work, Resolve>)

  datatype Step =
    | Tick(delta: real)
    | ReadL2(w: Work, p: Process)
    | ReadDb(w: Work, p: Process)
    | StoreL2(w: Work, jitter: real)
    | StoreL1(w: Work, jitter: real)
    | Return(w: Work)
    | HitL1(p: Process)
    | DropL1(p: Process)
    | DropL2

  /** Math.round. */
  function Round(x: real): int {
    (x + 0.5).Floor
  }

  function Jittered(ttl: nat, jitter: real): real {
    ttl as real * jitter
  }

  function L2Lifetime(cfg: Config, jitter: real): real {
    1000.0 * Round(Jittered(cfg.l2TtlSecs, jitter)) as real
  }

  function L1Lifetime(cfg: Config, jitter: real): real {
    Jittered(cfg.l1TtlMs, jitter)
  }

  function Bound(cfg: Config): real {
    L1Lifetime(cfg, 1.2) + L2Lifetime(cfg, 1.2) + 2.0 * cfg.delay
  }

  function L1Of(s: State, p: Process): Cached {
    if p in s.l1 then s.l1[p] else Absent
  }

  predicate Live(c: Cached, now: real) {
    c.Stored? && now <= c.expiresAt
  }

  ghost predicate Legal(cfg: Config, s: State, step: Step) {
    match step
    case Tick(delta) =>
      delta >= 0.0 && forall w :: w in s.running ==> s.now + delta <= s.running[w].since + cfg.delay
    case ReadL2(w, p) => w !in s.running && Live(s.l2, s.now)
    case ReadDb(w, p) => w !in s.running
    case StoreL2(w, jitter) => w in s.running && s.running[w].fromDb && 0.8 <= jitter <= 1.2
    case StoreL1(w, jitter) => w in s.running && 0.8 <= jitter <= 1.2
    case Return(w) => w in s.running
    case HitL1(p) => Live(L1Of(s, p), s.now)
    case DropL1(_) => true
    case DropL2 => true
  }

  ghost function Apply(cfg: Config, s: State, step: Step): State
    requires Legal(cfg, s, step)
  {
    match step
    case Tick(delta) => s.(now := s.now + delta)
    case ReadL2(w, p) => s.(running := s.running[w := Resolve(p, s.l2.item, s.now, false)])
    case ReadDb(w, p) => s.(running := s.running[w := Resolve(p, Item(cfg.row(s.now), s.now), s.now, true)])
    case StoreL2(w, jitter) => s.(l2 := Stored(s.running[w].item, s.now + L2Lifetime(cfg, jitter)))
    case StoreL1(w, jitter) =>
      s.(l1 := s.l1[s.running[w].owner := Stored(s.running[w].item, s.now + L1Lifetime(cfg, jitter))])
    case Return(w) => s.(running := s.running - {w})
    case HitL1(p) => s
    case DropL1(p) => s.(l1 := s.l1 - {p})
    case DropL2 => s.(l2 := Absent)
  }

  /** The value that a step hands to a caller of get. */
  ghost function Returned(cfg: Config, s: State, step: Step): Item
    requires Legal(cfg, s, step) && (step.Return? || step.HitL1?)
  {
    if step.Return? then s.running[step.w].item else s.l1[step.p].item
  }

  ghost predicate Run(cfg: Config, s: State, steps: seq<Step>)
    decreases |steps|
  {
    steps == [] || (Legal(cfg, s, steps[0]) && Run(cfg, Apply(cfg, s, steps[0]), steps[1..]))
  }

  ghost function Exec(cfg: Config, s: State, steps: seq<Step>): State
    requires Run(cfg, s, steps)
    decreases |steps|
  {
    if steps == [] then s else Exec(cfg, Apply(cfg, s, steps[0]), steps[1..])
  }

  predicate Initial(s: State) {
    s.l2 == Absent && s.l1 == map[] && s.running == map[]
  }

  ghost predicate Genuine(cfg: Config, s: State, item: Item) {
    item.value == cfg.row(item.readAt) && item.readAt <= s.now
  }

  ghost predicate Inv(cfg: Config, s: State) {
    && (s.l2.Stored? ==>
          && Genuine(cfg, s, s.l2.item)
          && s.l2.expiresAt <= s.l2.item.readAt + cfg.delay + L2Lifetime(cfg, 1.2))
    && (forall w :: w in s.running ==>
          && Genuine(cfg, s, s.running[w].item)
          && s.running[w].since <= s.now <= s.running[w].since + cfg.delay
          && s.running[w].since <= s.running[w].item.readAt
                                   + if s.running[w].fromDb then 0.0 else cfg.delay + L2Lifetime(cfg, 1.2))
    && (forall p :: p in s.l1 && s.l1[p].Stored? ==>
          && Genuine(cfg, s, s.l1[p].item)
          && s.l1[p].expiresAt <= s.l1[p].item.readAt + Bound(cfg))
  }

  lemma LifetimeMono(cfg: Config, jitter: real)
    requires 0.8 <= jitter <= 1.2
    ensures 0.0 <= L1Lifetime(cfg, jitter) <= L1Lifetime(cfg, 1.2)
    ensures 0.0 <= L2Lifetime(cfg, jitter) <= L2Lifetime(cfg, 1.2)
  {
    hide Jittered, Round;
    JitteredMono(cfg.l1TtlMs, jitter, 1.2);
    JitteredMono(cfg.l2TtlSecs, jitter, 1.2);
    RoundMono(Jittered(cfg.l2TtlSecs, jitter), Jittered(cfg.l2TtlSecs, 1.2));
  }

  lemma JitteredMono(ttl: nat, x: real, y: real)
    requires 0.0 <= x <= y
    ensures 0.0 <= Jittered(ttl, x) <= Jittered(ttl, y)
  {
    ScaleMono(ttl as real, x, y);
  }

  lemma RoundMono(x: real, y: real)
    requires 0.0 <= x <= y
    ensures 0.0 <= 1000.0 * Round(x) as real <= 1000.0 * Round(y) as real
  {}

  lemma StepInv(cfg: Config, s: State, step: Step)
    requires cfg.delay >= 0.0 && Inv(cfg, s) && Legal(cfg, s, step)
    ensures Inv(cfg, Apply(cfg, s, step))
  {
    LifetimeMono(cfg, 1.2);
    if step.StoreL1? || step.StoreL2? { LifetimeMono(cfg, step.jitter); }
    hide L1Lifetime, L2Lifetime;
  }

  lemma {:induction false} RunInv(cfg: Config, s: State, steps: seq<Step>)
    requires cfg.delay >= 0.0 && Inv(cfg, s) && Run(cfg, s, steps)
    ensures Inv(cfg, Exec(cfg, s, steps))
    decreases |steps|
  {
    if steps != [] {
      StepInv(cfg, s, steps[0]);
      RunInv(cfg, Apply(cfg, s, steps[0]), steps[1..]);
    }
  }

  /** Whatever the processes, invalidations and races: a value handed out now was the content of the row
      at some time no longer ago than the bound. */
  lemma BoundedStaleness(cfg: Config, s: State, steps: seq<Step>, last: Step)
    requires cfg.delay >= 0.0 && Initial(s) && Run(cfg, s, steps)
    requires Legal(cfg, Exec(cfg, s, steps), last) && (last.Return? || last.HitL1?)
    ensures var t, item := Exec(cfg, s, steps), Returned(cfg, Exec(cfg, s, steps), last);
            && item.value == cfg.row(item.readAt)
            && item.readAt <= t.now
            && t.now - item.readAt <= 1.2 * cfg.l1TtlMs as real
                                      + 1000.0 * (1.2 * cfg.l2TtlSecs as real + 0.5).Floor as real + 2.0 * cfg.delay
  {
    RunInv(cfg, s, steps);
    LifetimeMono(cfg, 1.2);
    BoundIs(cfg);
  }

  lemma BoundIs(cfg: Config)
    ensures Bound(cfg) == 1.2 * cfg.l1TtlMs as real + 1000.0 * (1.2 * cfg.l2TtlSecs as real + 0.5).Floor as real
                          + 2.0 * cfg.delay
  {}

  /** What process p can get from the caches, and from resolves under way, was read at `since` or later. */
  ghost predicate FreshFor(s: State, p: Process, since: real) {
    && s.now >= since
    && (s.l2.Stored? ==> s.l2.item.readAt >= since)
    && (forall w :: w in s.running ==> s.running[w].item.readAt >= since)
    && (L1Of(s, p).Stored? ==> L1Of(s, p).item.readAt >= since)
  }

  lemma {:induction false} StaysFresh(cfg: Config, s: State, steps: seq<Step>, p: Process, since: real)
    requires FreshFor(s, p, since) && Run(cfg, s, steps)
    ensures FreshFor(Exec(cfg, s, steps), p, since)
    decreases |steps|
  {
    if steps != [] {
      hide L1Lifetime, L2Lifetime;
      assert FreshFor(Apply(cfg, s, steps[0]), p, since);
      StaysFresh(cfg, Apply(cfg, s, steps[0]), steps[1..], p, since);
    }
  }

  /** Once the shared entry and that of a process are deleted with no resolve under way, that process never
      again gets a value read before the deletion. */
  lemma InvalidationFresh(cfg: Config, s: State, p: Process, steps: seq<Step>, last: Step)
    requires s.running == map[]
    requires Run(cfg, Apply(cfg, Apply(cfg, s, DropL1(p)), DropL2), steps)
    requires var t := Exec(cfg, Apply(cfg, Apply(cfg, s, DropL1(p)), DropL2), steps);
             Legal(cfg, t, last) && (last == HitL1(p) || (last.Return? && t.running[last.w].owner == p))
    ensures Returned(cfg, Exec(cfg, Apply(cfg, Apply(cfg, s, DropL1(p)), DropL2), steps), last).readAt >= s.now
  {
    StaysFresh(cfg, Apply(cfg, Apply(cfg, s, DropL1(p)), DropL2), steps, p, s.now);
    hide L1Lifetime, L2Lifetime;
  }

  /** With one under way it can: that resolve stores what it has read after the deletion. */
  lemma RefillAfterDrop(cfg: Config, s: State, p: Process) returns (before: seq<Step>)
    requires cfg.delay > 0.0 && Initial(s)
    ensures Run(cfg, s, before)
    ensures var t := Exec(cfg, s, before);
            var u := Apply(cfg, Apply(cfg, t, DropL1(p)), DropL2);
            && Legal(cfg, u, StoreL1(0, 1.2))
            && Legal(cfg, Apply(cfg, u, StoreL1(0, 1.2)), HitL1(p))
            && Returned(cfg, Apply(cfg, u, StoreL1(0, 1.2)), HitL1(p)).readAt < t.now
  {
    LifetimeMono(cfg, 1.2);
    before := [];
    assert Exec(cfg, s, before) == s;
    hide Run, Exec, L1Lifetime, L2Lifetime;
    before := Extend(cfg, s, before, ReadDb(0, p));
    before := Extend(cfg, s, before, Tick(cfg.delay));
  }

  /** One more step at the end of a run. */
  lemma {:induction false} Extend(cfg: Config, s: State, steps: seq<Step>, step: Step) returns (more: seq<Step>)
    requires Run(cfg, s, steps) && Legal(cfg, Exec(cfg, s, steps), step)
    ensures Run(cfg, s, more) && Exec(cfg, s, more) == Apply(cfg, Exec(cfg, s, steps), step)
    decreases |steps|
  {
    if steps == [] {
      more := [step];
      assert more[1..] == [];
    } else {
      var tail := Extend(cfg, Apply(cfg, s, steps[0]), steps[1..], step);
      more := [steps[0]] + tail;
      assert more[1..] == tail;
    }
  }

  /** A resolve that stores the row in L2 at the last moment. */
  lemma FillL2(cfg: Config, s: State) returns (steps: seq<Step>)
    requires cfg.delay >= 0.0 && Initial(s)
    ensures Run(cfg, s, steps)
    ensures Exec(cfg, s, steps) ==
            s.(now := s.now + cfg.delay,
               l2 := Stored(Item(cfg.row(s.now), s.now), s.now + cfg.delay + L2Lifetime(cfg, 1.2)))
  {
    steps := [];
    assert Exec(cfg, s, steps) == s;
    hide Run, Exec, L2Lifetime;
    steps := Extend(cfg, s, steps, ReadDb(0, 0));
    steps := Extend(cfg, s, steps, Tick(cfg.delay));
    steps := Extend(cfg, s, steps, StoreL2(0, 1.2));
    steps := Extend(cfg, s, steps, Return(0));
    assert Exec(cfg, s, steps).running == map[];
  }

  /** A resolve of another process that reads it there at the last moment and keeps it at the last moment. */
  lemma FillL1(cfg: Config, s: State, steps: seq<Step>) returns (more: seq<Step>)
    requires cfg.delay >= 0.0 && L2Lifetime(cfg, 1.2) >= 0.0 && Run(cfg, s, steps)
    requires var t := Exec(cfg, s, steps);
             t.running == map[] && t.l2.Stored? && t.l2.expiresAt == t.now + L2Lifetime(cfg, 1.2)
    ensures Run(cfg, s, more)
    ensures var t, u := Exec(cfg, s, steps), Exec(cfg, s, more);
            && u.now == t.now + L2Lifetime(cfg, 1.2) + cfg.delay && u.running == map[]
            && L1Of(u, 1) == Stored(t.l2.item, u.now + L1Lifetime(cfg, 1.2))
  {
    hide Run, Exec, L1Lifetime, L2Lifetime;
    more := Extend(cfg, s, steps, Tick(L2Lifetime(cfg, 1.2)));
    more := Extend(cfg, s, more, ReadL2(1, 1));
    more := Extend(cfg, s, more, Tick(cfg.delay));
    more := Extend(cfg, s, more, StoreL1(1, 1.2));
    more := Extend(cfg, s, more, Return(1));
    assert Exec(cfg, s, more).running == map[];
  }

  /** The bound is attained: one process stores the row in L2 at the last moment, another reads it there
      at the last moment, keeps it at the last moment and hits it at the last moment. */
  lemma BoundAttained(cfg: Config, s: State) returns (steps: seq<Step>, last: Step)
    requires cfg.delay >= 0.0 && Initial(s)
    ensures Run(cfg, s, steps) && last.HitL1? && Legal(cfg, Exec(cfg, s, steps), last)
    ensures Exec(cfg, s, steps).now - Returned(cfg, Exec(cfg, s, steps), last).readAt ==
            1.2 * cfg.l1TtlMs as real + 1000.0 * (1.2 * cfg.l2TtlSecs as real + 0.5).Floor as real + 2.0 * cfg.delay
  {
    BoundIs(cfg);
    LifetimeMono(cfg, 1.2);
    hide Run, Exec, L1Lifetime, L2Lifetime;
    steps := FillL2(cfg, s);
    steps := FillL1(cfg, s, steps);
    steps := Extend(cfg, s, steps, Tick(L1Lifetime(cfg, 1.2)));
    last := HitL1(1);
  }
}

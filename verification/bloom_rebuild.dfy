/** The online rebuild of a Bloom namespace: one lock holder pages through the table into a shadow
    bit array, renames it over the live one and reconciles late rows, while users are inserted and
    added to the live array. Every Redis command and every database query is one step. */
module BloomRebuild {
  import opened Options

  const UUID_SPACE: nat := 0x1_0000_0000_0000_0000_0000_0000_0000_0000

  /** A UUID as the 128-bit number whose order the database uses. */
  type Uuid = x: nat | x < UUID_SPACE

  /** hash gives the bit offsets of an id; chunk is the page size. */
  datatype Config = Config(hash: Uuid -> set<nat>, chunk: nat) {
    ghost predicate Valid() {
      chunk >= 1 && forall id: Uuid :: hash(id) != {}
    }
  }

  /** Where the lock holder stands; the constructor names the next command. byError says that the answer of
      EXISTS was an error. */
  datatype Phase =
    | Idle
    | Clearing
    | Fetching(cursor: Option<Uuid>)
    | Writing(todo: set<nat>, next: Option<Uuid>)
    | Checking
    | Swapping(rename: bool, byError: bool)
    | Collecting
    | Reconciling(todo: set<nat>)
    | Finished
    | Aborted

  /** The latest swap, as history. before are the ids whose add had set a bit by then. The live array was
      base after the swap, of which stale is what a failed DEL left behind; after are the bits that adds have
      set since, put those of the reconciliation of the collected ids, and lost those whose SETBIT failed in
      the shadow or in the reconciliation. */
  datatype Swap =
    | NoSwap
    | Swapped(byError: bool, startIds: set<Uuid>, startedAt: nat, before: set<Uuid>, base: set<nat>,
              stale: set<nat>, after: set<nat>, put: set<nat>, lost: set<nat>, collected: set<Uuid>, reconciled: bool)

  /** A bit array is the set of its one bits: a key without a one bit does not exist.
      `added` are the ids whose add has completed; `adding` maps an add under way to the bits it has
      still to set. startedAt, startIds, seen, dropped, the shadow bits whose SETBIT failed, and stale, what
      a failed DEL left in the shadow, belong to the current rebuild. base and envBits are history: the live
      array when the rebuild began, and the bits adds have set since. */
  datatype State = State(
    now: nat,
    rows: map<Uuid, nat>,
    adding: map<Uuid, set<nat>>,
    added: set<Uuid>,
    live: set<nat>,
    shadow: set<nat>,
    phase: Phase,
    startedAt: nat,
    startIds: set<Uuid>,
    seen: seq<Uuid>,
    dropped: set<nat>,
    stale: set<nat>,
    base: set<nat>,
    envBits: set<nat>,
    last: Swap)

  /** An error of EXISTS is read as "no shadow", a failed query for late rows as none, an error of DEL is
      ignored, and a SETBIT that fails inside a pipeline is only logged; a pipeline that fails as a whole
      ends the run. */
  datatype Step =
    | Tick(delta: nat)
    | Insert(id: Uuid, stamp: nat)
    | BeginAdd(id: Uuid)
    | AddBit(id: Uuid, bit: nat)
    | EndAdd(id: Uuid)
    | Acquire
    | Clear(ok: bool)
    | ReadPage(ids: seq<Uuid>)
    | WriteBit(bit: nat, ok: bool)
    | EndWrite
    | CheckShadow(fails: bool)
    | Swap(ok: bool)
    | Collect
    | CollectFails
    | ReconcileBit(bit: nat, ok: bool)
    | EndReconcile
    | ReconcileFails
    | Abort(cleanup: bool)
    | Release

  predicate Above(cursor: Option<Uuid>, id: Uuid) {
    cursor == None || cursor.value < id
  }

  predicate Ascending(ids: seq<Uuid>) {
    forall i, j :: 0 <= i < j < |ids| ==> ids[i] < ids[j]
  }

  /** What the keyset query returns: the first `limit` ids above the cursor, in order. */
  predicate IsPage(keys: set<Uuid>, cursor: Option<Uuid>, limit: nat, page: seq<Uuid>) {
    && Ascending(page)
    && |page| <= limit
    && (forall id :: id in page ==> id in keys && Above(cursor, id))
    && (forall id :: id in keys && Above(cursor, id) && id !in page ==>
          |page| == limit && forall p :: p in page ==> p < id)
  }

  function BitsOf(cfg: Config, ids: set<Uuid>): set<nat> {
    set id, b | id in ids && b in cfg.hash(id) :: b
  }

  function Elements(ids: seq<Uuid>): set<Uuid> {
    set id | id in ids
  }

  function Since(rows: map<Uuid, nat>, t: nat): set<Uuid> {
    set id | id in rows && rows[id] >= t
  }

  predicate IsEnvironment(step: Step) {
    step.Tick? || step.Insert? || step.BeginAdd? || step.AddBit? || step.EndAdd?
  }

  predicate Rebuilding(s: State) {
    !s.phase.Idle? && !s.phase.Finished? && !s.phase.Aborted?
  }

  /** The bits of an id that its add has already set. */
  function Held(cfg: Config, s: State, id: Uuid): set<nat> {
    if id in s.added then cfg.hash(id)
    else if id in s.adding then cfg.hash(id) - s.adding[id]
    else {}
  }

  function Holders(cfg: Config, s: State): set<Uuid> {
    set id | id in s.rows && Held(cfg, s, id) != {}
  }

  /** An insert may be stamped before it commits, but not before the start of a rebuild under way. */
  predicate Legal(cfg: Config, s: State, step: Step) {
    match step
    case Tick(_) => true
    case Insert(id, stamp) => id !in s.rows && stamp <= s.now && (Rebuilding(s) ==> stamp >= s.startedAt)
    case BeginAdd(id) => id in s.rows && id !in s.adding
    case AddBit(id, bit) => id in s.adding && bit in s.adding[id]
    case EndAdd(id) => id in s.adding && s.adding[id] == {}
    case Acquire => s.phase.Idle?
    case Clear(_) => s.phase.Clearing?
    case ReadPage(ids) => s.phase.Fetching? && IsPage(s.rows.Keys, s.phase.cursor, cfg.chunk, ids)
    case WriteBit(bit, _) => s.phase.Writing? && bit in s.phase.todo
    case EndWrite => s.phase.Writing? && s.phase.todo == {}
    case CheckShadow(_) => s.phase.Checking?
    case Swap(ok) => s.phase.Swapping? && (s.phase.rename ==> ok)
    case Collect => s.phase.Collecting? && s.last.Swapped?
    case CollectFails => s.phase.Collecting?
    case ReconcileBit(bit, _) => s.phase.Reconciling? && bit in s.phase.todo && s.last.Swapped?
    case EndReconcile => s.phase.Reconciling? && s.phase.todo == {} && s.last.Swapped?
    case ReconcileFails => s.phase.Reconciling?
    case Abort(_) => s.phase.Fetching? || s.phase.Writing? || (s.phase.Swapping? && s.phase.rename)
    case Release => s.phase.Finished? || s.phase.Aborted?
  }

  function Apply(cfg: Config, s: State, step: Step): State
    requires Legal(cfg, s, step)
  {
    match step
    case Tick(delta) => s.(now := s.now + delta)
    case Insert(id, stamp) => s.(rows := s.rows[id := stamp])
    case BeginAdd(id) => s.(adding := s.adding[id := cfg.hash(id)])
    case AddBit(id, bit) =>
      s.(live := s.live + {bit}, envBits := s.envBits + {bit}, adding := s.adding[id := s.adding[id] - {bit}],
         last := if s.last.Swapped? then s.last.(after := s.last.after + {bit}) else s.last)
    case EndAdd(id) => s.(adding := s.adding - {id}, added := s.added + {id})
    case Acquire =>
      s.(phase := Clearing, startedAt := s.now, startIds := s.rows.Keys, seen := [], dropped := {}, stale := {},
         base := s.live, envBits := {})
    case Clear(ok) =>
      s.(shadow := if ok then {} else s.shadow, stale := if ok then {} else s.shadow, phase := Fetching(None))
    case ReadPage(ids) =>
      var next := if |ids| == cfg.chunk && ids != [] then Some(ids[|ids| - 1]) else None;
      s.(seen := s.seen + ids, phase := Writing(BitsOf(cfg, Elements(ids)), next))
    case WriteBit(bit, ok) =>
      s.(shadow := if ok then s.shadow + {bit} else s.shadow, dropped := if ok then s.dropped else s.dropped + {bit},
         phase := Writing(s.phase.todo - {bit}, s.phase.next))
    case EndWrite => s.(phase := if s.phase.next.Some? then Fetching(s.phase.next) else Checking)
    case CheckShadow(fails) => s.(phase := Swapping(!fails && s.shadow != {} && |s.seen| > 0, fails))
    case Swap(ok) =>
      var base := if s.phase.rename then s.shadow else if ok then {} else s.live;
      var stale := if s.phase.rename then s.stale else base;
      s.(live := base, shadow := if s.phase.rename then {} else s.shadow, phase := Collecting,
         last := Swapped(s.phase.byError, s.startIds, s.startedAt, Holders(cfg, s), base, stale, {}, {}, s.dropped,
                         {}, false))
    case Collect =>
      var ids := Since(s.rows, s.startedAt);
      s.(phase := Reconciling(BitsOf(cfg, ids)), last := s.last.(collected := ids))
    case CollectFails => s.(phase := Finished)
    case ReconcileBit(bit, ok) =>
      var t := s.(phase := Reconciling(s.phase.todo - {bit}));
      if ok then t.(live := s.live + {bit}, last := s.last.(put := s.last.put + {bit}))
      else t.(last := s.last.(lost := s.last.lost + {bit}))
    case EndReconcile => s.(phase := Finished, last := s.last.(reconciled := true))
    case ReconcileFails => s.(phase := Finished)
    case Abort(cleanup) => s.(phase := Aborted, shadow := if cleanup then {} else s.shadow)
    case Release => s.(phase := Idle)
  }

  ghost predicate Run(cfg: Config, s: State, steps: seq<Step>)
    decreases |steps|
  {
    steps == [] || (Legal(cfg, s, steps[0]) && Run(cfg, Apply(cfg, s, steps[0]), steps[1..]))
  }

  ghost function Exec(cfg: Config, s: State, steps: seq<Step>): State
    requires Run(cfg, s, steps)
    decreases |steps|
  {
    if steps == [] then s else Exec(cfg, Apply(cfg, s, steps[0]), steps[1..])
  }

  // ---------------------------------------------------------------- what is claimed of every state

  /** The answer of the membership test for an id. */
  ghost predicate MightExist(cfg: Config, s: State, id: Uuid) {
    cfg.hash(id) <= s.live
  }

  ghost predicate InWindow(s: State) {
    s.phase.Collecting? || s.phase.Reconciling?
  }

  /** The ids whose bits the latest swap may have cost: their add had set one by then, the shadow did not
      bring them back, because they came after its pages or because it was thrown away on an error, and
      neither has a completed reconciliation, because it is outstanding or broke off, or because their rows
      are stamped before the rebuild. */
  predicate Exposed(s: State, id: Uuid) {
    && s.last.Swapped? && id in s.last.before && id in s.rows
    && (s.last.byError || id !in s.last.startIds)
    && !(s.last.reconciled && s.rows[id] >= s.last.startedAt)
  }

  /** The bits that the latest swap and its reconciliation failed to set. */
  function Lost(s: State): set<nat> {
    if s.last.Swapped? then s.last.lost else {}
  }

  /** An added id that is not exposed passes the test, except for bits lost to failed commands. */
  ghost predicate Safe(cfg: Config, s: State) {
    forall id :: id in s.added ==>
      && id in s.rows
      && (!Exposed(s, id) ==> (MightExist(cfg, s, id) <==> cfg.hash(id) * Lost(s) <= s.live))
  }

  /** No false negative outside the swap window; inside it only rows the rebuild stamped as late can be missing. */
  ghost predicate OnlyLateMissing(cfg: Config, s: State) {
    forall id :: id in s.added && !MightExist(cfg, s, id) ==>
      InWindow(s) && id !in s.startIds && id in s.rows && s.rows[id] >= s.startedAt
  }

  predicate IsFault(step: Step) {
    match step
    case Clear(ok) => !ok
    case WriteBit(_, ok) => !ok
    case CheckShadow(fails) => fails
    case Swap(ok) => !ok
    case CollectFails => true
    case ReconcileBit(_, ok) => !ok
    case ReconcileFails => true
    case _ => false
  }

  ghost predicate Initial(cfg: Config, s: State) {
    && s.phase == Idle && s.added <= s.rows.Keys && s.adding == map[] && s.last == NoSwap
    && s.dropped == {} && s.stale == {}
    && (forall id :: id in s.rows ==> s.rows[id] <= s.now)
    && (forall id :: id in s.added ==> MightExist(cfg, s, id))
  }

  // ---------------------------------------------------------------- the invariant

  ghost predicate TableInv(cfg: Config, s: State) {
    && s.added <= s.rows.Keys
    && s.adding.Keys <= s.rows.Keys
    && (forall id :: id in s.rows ==> s.rows[id] <= s.now)
    && (s.phase.Idle? || (s.startIds <= s.rows.Keys && s.startedAt <= s.now))
    && (Rebuilding(s) ==> forall id :: id in s.rows && id !in s.startIds ==> s.rows[id] >= s.startedAt)
    && (forall id :: id in s.adding ==> s.adding[id] <= cfg.hash(id))
  }

  /** Paging has returned, in order, every start row up to the cursor. */
  ghost predicate Covered(s: State, cursor: Option<Uuid>) {
    && (cursor.None? ==> s.seen == [])
    && (cursor.Some? ==> s.seen != [] && s.seen[|s.seen| - 1] == cursor.value)
    && (forall id :: id in s.startIds && !Above(cursor, id) ==> id in s.seen)
  }

  /** The shadow holds the bits of the seen ids but for those still to write and those dropped. */
  ghost predicate ShadowHolds(cfg: Config, s: State, todo: set<nat>) {
    && BitsOf(cfg, Elements(s.seen)) <= s.shadow + todo + s.dropped
    && s.shadow + todo <= BitsOf(cfg, s.rows.Keys) + s.stale
  }

  ghost predicate PageInv(cfg: Config, s: State) {
    && (s.phase.Idle? || s.phase.Aborted? || Ascending(s.seen))
    && (s.phase.Idle? || Elements(s.seen) <= s.rows.Keys)
    && (s.phase.Clearing? ==> s.seen == [] && s.dropped == {})
    && (s.phase.Fetching? ==> Covered(s, s.phase.cursor) && ShadowHolds(cfg, s, {}))
    && (s.phase.Writing? ==>
          && (if s.phase.next.Some? then Covered(s, s.phase.next) else s.startIds <= Elements(s.seen))
          && ShadowHolds(cfg, s, s.phase.todo))
    && (s.phase.Checking? || s.phase.Swapping? ==> s.startIds <= Elements(s.seen) && ShadowHolds(cfg, s, {}))
    && (s.phase.Swapping? && s.phase.rename ==> !s.phase.byError)
    && (s.phase.Swapping? && !s.phase.rename && !s.phase.byError ==> s.shadow == {} || s.seen == [])
  }

  /** What the live array consists of. */
  ghost predicate LiveInv(cfg: Config, s: State) {
    && ((Rebuilding(s) && !InWindow(s)) || s.phase.Aborted? ==> s.live == s.base + s.envBits)
    && (InWindow(s) || s.phase.Finished? ==> s.last.Swapped?)
    && (InWindow(s) || s.phase.Finished? ==> s.last.startIds == s.startIds && s.last.startedAt == s.startedAt)
    && (InWindow(s) ==> !s.last.reconciled)
    && (s.phase.Collecting? ==> s.last.put == {} && s.last.collected == {})
    && (s.phase.Reconciling? ==> s.last.put + s.phase.todo <= BitsOf(cfg, s.last.collected))
    && (s.phase.Reconciling? ==> BitsOf(cfg, s.last.collected) <= s.last.put + s.phase.todo + s.last.lost)
    && (s.last.Swapped? ==> SwapHolds(cfg, s.rows.Keys, s.live, s.last))
  }

  ghost predicate SwapHolds(cfg: Config, ids: set<Uuid>, live: set<nat>, last: Swap)
    requires last.Swapped?
  {
    && live == last.base + last.after + last.put
    && last.base <= BitsOf(cfg, ids) + last.stale && last.after <= BitsOf(cfg, ids)
    && last.collected <= ids && last.put <= BitsOf(cfg, last.collected)
    && (last.byError ==> last.base == last.stale)
    && (!last.byError ==> BitsOf(cfg, last.startIds) <= last.base + last.lost)
    && (last.reconciled ==> BitsOf(cfg, last.collected) <= last.put + last.lost)
  }

  /** Who can have lost bits: what an unexposed id has set is there, or lost to a failed command. */
  ghost predicate HeldInv(cfg: Config, s: State) {
    && (forall id :: id in s.rows && !Exposed(s, id) ==> Held(cfg, s, id) <= s.live + Lost(s))
    && (s.last.Swapped? ==>
          forall id :: id in s.last.before ==>
            && id in s.rows
            && (id in s.last.startIds || s.rows[id] >= s.last.startedAt)
            && (s.phase.Reconciling? || s.last.reconciled ==>
                  s.rows[id] >= s.last.startedAt ==> id in s.last.collected))
  }

  ghost predicate Inv(cfg: Config, s: State) {
    TableInv(cfg, s) && PageInv(cfg, s) && LiveInv(cfg, s) && HeldInv(cfg, s)
  }

  lemma InitialInv(cfg: Config, s: State)
    requires Initial(cfg, s)
    ensures Inv(cfg, s)
  {}

  lemma InvSafe(cfg: Config, s: State)
    requires Inv(cfg, s)
    ensures Safe(cfg, s)
  {
    forall id | id in s.added && !Exposed(s, id)
      ensures MightExist(cfg, s, id) <==> cfg.hash(id) * Lost(s) <= s.live
    {
      assert Held(cfg, s, id) == cfg.hash(id);
    }
  }

  lemma BitsOfMember(cfg: Config, id: Uuid, ids: set<Uuid>)
    requires id in ids
    ensures cfg.hash(id) <= BitsOf(cfg, ids)
  {}

  lemma BitsOfMono(cfg: Config, a: set<Uuid>, b: set<Uuid>)
    requires a <= b
    ensures BitsOf(cfg, a) <= BitsOf(cfg, b)
  {}

  lemma BitsOfBelow(cfg: Config, ids: set<Uuid>, bits: set<nat>)
    ensures BitsOf(cfg, ids) <= bits <==> forall id :: id in ids ==> cfg.hash(id) <= bits
  {
    forall id | id in ids ensures cfg.hash(id) <= BitsOf(cfg, ids) { BitsOfMember(cfg, id, ids); }
  }

  lemma StepTable(cfg: Config, s: State, step: Step)
    requires TableInv(cfg, s) && Legal(cfg, s, step)
    ensures TableInv(cfg, Apply(cfg, s, step))
  {
    hide BitsOf, Elements, Holders, IsPage;
  }

  lemma EnvPage(cfg: Config, s: State, step: Step)
    requires PageInv(cfg, s) && Legal(cfg, s, step) && IsEnvironment(step)
    ensures PageInv(cfg, Apply(cfg, s, step))
  {
    hide Ascending;
    BitsOfMono(cfg, s.rows.Keys, Apply(cfg, s, step).rows.Keys);
    hide BitsOf, Elements;
  }

  lemma HolderPage(cfg: Config, s: State, step: Step)
    requires TableInv(cfg, s) && PageInv(cfg, s) && Legal(cfg, s, step) && !IsEnvironment(step) && !step.ReadPage?
    ensures PageInv(cfg, Apply(cfg, s, step))
  {
    EmptyPage(cfg);
    hide IsPage, Holders, TableInv, Ascending, BitsOf, Elements;
  }

  lemma EmptyPage(cfg: Config)
    ensures Ascending([]) && Elements([]) == {} && BitsOf(cfg, {}) == {}
  {}

  lemma ReadPageInv(cfg: Config, s: State, ids: seq<Uuid>)
    requires cfg.Valid() && Inv(cfg, s) && Legal(cfg, s, ReadPage(ids))
    ensures PageInv(cfg, Apply(cfg, s, ReadPage(ids)))
  {
    hide TableInv, LiveInv, HeldInv, Ascending;
    PageCovers(cfg, s, ids);
    ReadPageBits(cfg, s.seen, ids, s.rows.Keys);
    hide BitsOf;
  }

  lemma ReadPageBits(cfg: Config, seen: seq<Uuid>, ids: seq<Uuid>, rows: set<Uuid>)
    requires Elements(ids) <= rows
    ensures Elements(seen + ids) == Elements(seen) + Elements(ids)
    ensures BitsOf(cfg, Elements(seen + ids)) == BitsOf(cfg, Elements(seen)) + BitsOf(cfg, Elements(ids))
    ensures BitsOf(cfg, Elements(ids)) <= BitsOf(cfg, rows)
  {
    assert Elements(seen + ids) == Elements(seen) + Elements(ids);
  }

  /** One page extends the covered prefix to its own last id, or to the whole table when it is short. */
  lemma PageCovers(cfg: Config, s: State, ids: seq<Uuid>)
    requires cfg.Valid() && Inv(cfg, s) && Legal(cfg, s, ReadPage(ids))
    ensures Ascending(s.seen + ids)
    ensures forall id :: id in s.startIds && id !in s.seen + ids ==> |ids| == cfg.chunk && ids[|ids| - 1] < id
  {
    var cursor := s.phase.cursor;
    var all := s.seen + ids;
    forall i, j | 0 <= i < j < |all| ensures all[i] < all[j] {
      if i < |s.seen| <= j {
        assert all[j] in ids;
        assert s.seen[i] <= cursor.value < all[j];
      }
    }
    forall id | id in s.startIds && id !in s.seen + ids
      ensures |ids| == cfg.chunk && ids[|ids| - 1] < id
    {
      assert id in s.rows.Keys && Above(cursor, id) && id !in ids;
      assert ids[|ids| - 1] in ids;
    }
  }

  lemma EnvLive(cfg: Config, s: State, step: Step)
    requires TableInv(cfg, s) && LiveInv(cfg, s) && Legal(cfg, s, step) && IsEnvironment(step)
    ensures LiveInv(cfg, Apply(cfg, s, step))
  {
    hide IsPage;
    BitsOfMono(cfg, s.rows.Keys, Apply(cfg, s, step).rows.Keys);
    if step.AddBit? { BitsOfMember(cfg, step.id, s.rows.Keys); }
    hide BitsOf;
  }

  lemma HolderLive(cfg: Config, s: State, step: Step)
    requires TableInv(cfg, s) && PageInv(cfg, s) && LiveInv(cfg, s) && Legal(cfg, s, step) && !IsEnvironment(step)
    ensures LiveInv(cfg, Apply(cfg, s, step))
  {
    hide IsPage, Holders, BitsOf, Ascending, Covered, ShadowHolds;
    if step.Swap? { SwapLive(cfg, s, step.ok); }
  }

  /** A swap that is not made on an error puts the start rows in, but for the dropped bits. */
  lemma SwapBits(cfg: Config, s: State)
    requires PageInv(cfg, s) && s.phase.Swapping?
    ensures s.phase.rename ==> s.shadow <= BitsOf(cfg, s.rows.Keys) + s.stale
    ensures !s.phase.byError ==> BitsOf(cfg, s.startIds) <= (if s.phase.rename then s.shadow else {}) + s.dropped
  {
    hide Ascending, Covered;
    BitsOfMono(cfg, s.startIds, Elements(s.seen));
    if s.seen == [] { assert s.startIds == {} && BitsOf(cfg, {}) == {}; }
    hide BitsOf, Elements;
  }

  lemma SwapLive(cfg: Config, s: State, ok: bool)
    requires PageInv(cfg, s) && Legal(cfg, s, Swap(ok))
    requires s.phase.rename ==> !s.phase.byError
    ensures LiveInv(cfg, Apply(cfg, s, Swap(ok)))
  {
    SwapBits(cfg, s);
    hide IsPage, Holders, PageInv, BitsOf;
    var t := Apply(cfg, s, Swap(ok));
    assert SwapHolds(cfg, t.rows.Keys, t.live, t.last);
  }

  lemma EnvHeld(cfg: Config, s: State, step: Step)
    requires TableInv(cfg, s) && LiveInv(cfg, s) && HeldInv(cfg, s) && Legal(cfg, s, step) && IsEnvironment(step)
    ensures HeldInv(cfg, Apply(cfg, s, step))
  {
    hide IsPage, LiveInv, BitsOf;
    match step
    case Tick(_) =>
    case Insert(_, _) =>
    case BeginAdd(_) =>
    case AddBit(id, bit) =>
      var t := Apply(cfg, s, step);
      forall k | k in t.rows && !Exposed(t, k) ensures Held(cfg, t, k) <= t.live + Lost(t) {
        assert Held(cfg, s, k) <= s.live + Lost(s);
        assert Held(cfg, t, k) <= Held(cfg, s, k) + {bit};
      }
    case EndAdd(_) =>
  }

  lemma HolderHeld(cfg: Config, s: State, step: Step)
    requires Inv(cfg, s) && Legal(cfg, s, step) && !IsEnvironment(step)
    ensures HeldInv(cfg, Apply(cfg, s, step))
  {
    hide IsPage, Ascending, Covered, PageInv, Held, HeldInv, TableInv, SwapHolds, BitsOf;
    if step.Swap? { SwapHeld(cfg, s, step.ok); }
    else if step.EndReconcile? { ReconciledHeld(cfg, s); }
    else { OtherHeld(cfg, s, step); }
  }

  lemma OtherHeld(cfg: Config, s: State, step: Step)
    requires LiveInv(cfg, s) && HeldInv(cfg, s) && Legal(cfg, s, step) && !IsEnvironment(step)
    requires !step.Swap? && !step.EndReconcile?
    ensures HeldInv(cfg, Apply(cfg, s, step))
  {
    hide BitsOf, SwapHolds, IsPage, Ascending, Holders;
    var t := Apply(cfg, s, step);
    assert t.rows == s.rows && s.live <= t.live && Lost(s) <= Lost(t);
    forall id ensures Held(cfg, t, id) == Held(cfg, s, id) && (Exposed(t, id) <==> Exposed(s, id)) {}
  }

  lemma SwapHeld(cfg: Config, s: State, ok: bool)
    requires Inv(cfg, s) && Legal(cfg, s, Swap(ok))
    ensures HeldInv(cfg, Apply(cfg, s, Swap(ok)))
  {
    SwapBits(cfg, s);
    hide IsPage, PageInv, LiveInv;
    var t := Apply(cfg, s, Swap(ok));
    BitsOfBelow(cfg, s.startIds, t.live + Lost(t));
    hide BitsOf;
    forall id | id in t.rows && !Exposed(t, id) ensures Held(cfg, t, id) <= t.live + Lost(t) {
      assert Held(cfg, t, id) == Held(cfg, s, id) <= cfg.hash(id);
    }
  }

  lemma ReconciledHeld(cfg: Config, s: State)
    requires Inv(cfg, s) && Legal(cfg, s, EndReconcile)
    ensures HeldInv(cfg, Apply(cfg, s, EndReconcile))
  {
    hide IsPage, PageInv;
    var t := Apply(cfg, s, EndReconcile);
    BitsOfBelow(cfg, s.last.collected, s.live + Lost(s));
    hide BitsOf;
    forall id | id in t.rows && !Exposed(t, id) ensures Held(cfg, t, id) <= t.live + Lost(t) {
      assert Held(cfg, t, id) == Held(cfg, s, id) <= cfg.hash(id);
    }
  }

  // ---------------------------------------------------------------- every run

  lemma StepInv(cfg: Config, s: State, step: Step)
    requires cfg.Valid() && Inv(cfg, s) && Legal(cfg, s, step)
    ensures Inv(cfg, Apply(cfg, s, step))
  {
    StepTable(cfg, s, step);
    if IsEnvironment(step) {
      EnvPage(cfg, s, step);
      EnvLive(cfg, s, step);
      EnvHeld(cfg, s, step);
    } else {
      if step.ReadPage? { ReadPageInv(cfg, s, step.ids); } else { HolderPage(cfg, s, step); }
      HolderLive(cfg, s, step);
      HolderHeld(cfg, s, step);
    }
  }

  lemma {:induction false} RunInv(cfg: Config, s: State, steps: seq<Step>)
    requires cfg.Valid() && Inv(cfg, s) && Run(cfg, s, steps)
    ensures Inv(cfg, Exec(cfg, s, steps))
    decreases |steps|
  {
    if steps != [] {
      StepInv(cfg, s, steps[0]);
      RunInv(cfg, Apply(cfg, s, steps[0]), steps[1..]);
    }
  }

  ghost predicate Faultless(steps: seq<Step>) {
    forall i :: 0 <= i < |steps| ==> !IsFault(steps[i])
  }

  /** Nothing has failed on the way to the latest swap, nor after it. */
  ghost predicate Clean(s: State) {
    s.last.Swapped? ==>
      !s.last.byError && s.last.lost == {} && s.last.stale == {} && (s.last.reconciled || InWindow(s))
  }

  ghost predicate NoFaultYet(s: State) {
    Clean(s) && s.dropped == {} && s.stale == {} && (s.phase.Swapping? ==> !s.phase.byError)
  }

  lemma {:induction false} FaultlessRun(cfg: Config, s: State, steps: seq<Step>)
    requires cfg.Valid() && Inv(cfg, s) && NoFaultYet(s) && Run(cfg, s, steps) && Faultless(steps)
    ensures NoFaultYet(Exec(cfg, s, steps))
    decreases |steps|
  {
    if steps != [] {
      StepInv(cfg, s, steps[0]);
      FaultlessStep(cfg, s, steps[0]);
      FaultlessRun(cfg, Apply(cfg, s, steps[0]), steps[1..]);
    }
  }

  lemma FaultlessStep(cfg: Config, s: State, step: Step)
    requires LiveInv(cfg, s) && NoFaultYet(s) && Legal(cfg, s, step) && !IsFault(step)
    ensures NoFaultYet(Apply(cfg, s, step))
  {
    hide SwapHolds, IsPage, BitsOf, Holders;
  }

  /** In every state of every interleaving, faults included, each id whose add has completed passes the
      membership test unless the latest swap has exposed it or a failed command lost one of its bits. In
      runs without faults only the window between the swap and the end of the reconciliation is left, and
      in it only rows stamped at or after the start of the rebuild can fail. */
  lemma NoFalseNegatives(cfg: Config, s: State, steps: seq<Step>)
    requires cfg.Valid() && Initial(cfg, s) && Run(cfg, s, steps)
    ensures Safe(cfg, Exec(cfg, s, steps))
    ensures Faultless(steps) ==> OnlyLateMissing(cfg, Exec(cfg, s, steps))
  {
    var t := Exec(cfg, s, steps);
    InitialInv(cfg, s);
    RunInv(cfg, s, steps);
    InvSafe(cfg, t);
    if Faultless(steps) {
      FaultlessRun(cfg, s, steps);
      CleanSafe(cfg, t);
    }
  }

  lemma CleanSafe(cfg: Config, s: State)
    requires Inv(cfg, s) && Safe(cfg, s) && Clean(s)
    ensures OnlyLateMissing(cfg, s)
  {
    hide PageInv, SwapHolds;
  }

  /** When paging is over, the pages together list every row present at the start exactly once, no id
      twice and no id that is not a row, however the table grew meanwhile. */
  lemma PagingComplete(cfg: Config, s: State, steps: seq<Step>)
    requires cfg.Valid() && Initial(cfg, s) && Run(cfg, s, steps)
    ensures var t := Exec(cfg, s, steps);
            t.phase.Checking? ==>
              && (forall id :: id in t.startIds ==> multiset(t.seen)[id] == 1)
              && (forall i, j :: 0 <= i < j < |t.seen| ==> t.seen[i] < t.seen[j])
              && (forall id :: id in t.seen ==> id in t.rows)
  {
    InitialInv(cfg, s);
    RunInv(cfg, s, steps);
    var t := Exec(cfg, s, steps);
    if t.phase.Checking? {
      forall id | id in t.startIds ensures multiset(t.seen)[id] == 1 {
        assert id in Elements(t.seen);
        AscendingOnce(t.seen, id);
      }
    }
  }

  lemma {:induction false} AscendingOnce(ids: seq<Uuid>, id: Uuid)
    requires Ascending(ids) && id in ids
    ensures multiset(ids)[id] == 1
  {
    var last := |ids| - 1;
    assert ids == ids[..last] + [ids[last]];
    if ids[last] == id {
      assert id !in ids[..last];
    } else {
      AscendingOnce(ids[..last], id);
    }
  }

  /** A finished rebuild leaves no stale bit, whatever the live array and the shadow held before, but for what
      a failed DEL left behind. If nothing failed in it, the bits of the start rows and of all added rows are
      there; and with no row inserted meanwhile the live array is exactly the bits of the current rows. */
  lemma RebuildExact(cfg: Config, s: State, steps: seq<Step>)
    requires cfg.Valid() && Initial(cfg, s) && Run(cfg, s, steps)
    ensures var t := Exec(cfg, s, steps);
            t.phase.Finished? ==>
              && t.last.Swapped? && t.live <= BitsOf(cfg, t.rows.Keys) + t.last.stale
              && (Clean(t) ==> BitsOf(cfg, t.startIds + t.added) <= t.live)
              && (Clean(t) && t.startIds == t.rows.Keys ==> t.live == BitsOf(cfg, t.rows.Keys))
    ensures Faultless(steps) ==> Clean(Exec(cfg, s, steps))
  {
    var t := Exec(cfg, s, steps);
    InitialInv(cfg, s);
    RunInv(cfg, s, steps);
    if Faultless(steps) { FaultlessRun(cfg, s, steps); }
    if t.phase.Finished? { FinishedExact(cfg, t); }
  }

  lemma FinishedExact(cfg: Config, t: State)
    requires Inv(cfg, t) && t.phase.Finished?
    ensures t.last.Swapped? && t.live <= BitsOf(cfg, t.rows.Keys) + t.last.stale
    ensures Clean(t) ==> BitsOf(cfg, t.startIds + t.added) <= t.live
    ensures Clean(t) && t.startIds == t.rows.Keys ==> t.live == BitsOf(cfg, t.rows.Keys)
  {
    InvSafe(cfg, t);
    BitsOfMono(cfg, t.last.collected, t.rows.Keys);
    BitsOfMono(cfg, t.startIds, t.startIds + t.added);
    BitsOfBelow(cfg, t.startIds, t.live);
    BitsOfBelow(cfg, t.startIds + t.added, t.live);
    hide PageInv, BitsOf;
    if Clean(t) {
      CleanSafe(cfg, t);
      forall id | id in t.startIds + t.added ensures cfg.hash(id) <= t.live {
        if id !in t.startIds { assert MightExist(cfg, t, id); }
      }
    }
  }

  /** The bits that adds set in the course of some steps. */
  ghost function AddedBits(steps: seq<Step>): set<nat> {
    set i | 0 <= i < |steps| && steps[i].AddBit? :: steps[i].bit
  }

  ghost predicate NoAcquire(steps: seq<Step>) {
    forall i :: 0 <= i < |steps| ==> !steps[i].Acquire?
  }

  lemma {:induction false} SameBase(cfg: Config, s: State, steps: seq<Step>)
    requires Run(cfg, s, steps) && NoAcquire(steps)
    ensures Exec(cfg, s, steps).base == s.base && Exec(cfg, s, steps).envBits == s.envBits + AddedBits(steps)
    decreases |steps|
  {
    if steps != [] {
      var t := Apply(cfg, s, steps[0]);
      SameBase(cfg, t, steps[1..]);
      hide Run, Exec;
      assert t.base == s.base && t.envBits == s.envBits + if steps[0].AddBit? then {steps[0].bit} else {};
      hide Apply, Legal;
      AddedBitsCons(steps);
    }
  }

  lemma AddedBitsCons(steps: seq<Step>)
    requires steps != []
    ensures AddedBits(steps) == (if steps[0].AddBit? then {steps[0].bit} else {}) + AddedBits(steps[1..])
  {
    forall b | b in AddedBits(steps) ensures b in AddedBits(steps[1..]) || (steps[0].AddBit? && b == steps[0].bit) {
      var i :| 0 <= i < |steps| && steps[i].AddBit? && steps[i].bit == b;
      if i > 0 { assert steps[1..][i - 1] == steps[i]; }
    }
    forall b | b in AddedBits(steps[1..]) ensures b in AddedBits(steps) {
      var i :| 0 <= i < |steps[1..]| && steps[1..][i].AddBit? && steps[1..][i].bit == b;
      assert steps[i + 1] == steps[1..][i];
    }
  }

  /** A rebuild aborted by a failed page read, shadow write or rename leaves the live array as it was when the
      rebuild began, plus the bits that concurrent adds have set since. */
  lemma AbortPreserves(cfg: Config, s: State, steps: seq<Step>, rest: seq<Step>)
    requires cfg.Valid() && Initial(cfg, s) && Run(cfg, s, steps) && Legal(cfg, Exec(cfg, s, steps), Acquire)
    requires var t := Exec(cfg, s, steps); Run(cfg, Apply(cfg, t, Acquire), rest) && NoAcquire(rest)
    ensures var t := Exec(cfg, s, steps);
            var u := Exec(cfg, Apply(cfg, t, Acquire), rest);
            u.phase.Aborted? ==> u.live == t.live + AddedBits(rest) && u.live == u.base + u.envBits
  {
    var t := Exec(cfg, s, steps);
    InitialInv(cfg, s);
    RunInv(cfg, s, steps);
    StepInv(cfg, t, Acquire);
    RunInv(cfg, Apply(cfg, t, Acquire), rest);
    SameBase(cfg, Apply(cfg, t, Acquire), rest);
  }

  // ---------------------------------------------------------------- errors that are not fail-open

  /** EXISTS has failed at the latest swap, so the live key was deleted, unless that failed too. In every state
      from there on, with inserts and adds in between and later rebuilds begun, the live array is what such a
      failure left, what adds have set since and what the reconciliation put back. After the reconciliation
      only ids can be lost that had set a bit before the deletion and whose rows are stamped before the
      rebuild, or that need a bit lost since. */
  lemma ExistsErrorOutcome(cfg: Config, s: State, steps: seq<Step>)
    requires cfg.Valid() && Initial(cfg, s) && Run(cfg, s, steps)
    ensures var t := Exec(cfg, s, steps);
            t.last.Swapped? && t.last.byError && t.last.reconciled ==>
              && t.live == t.last.stale + t.last.after + t.last.put
              && BitsOf(cfg, t.last.collected) - t.last.lost <= t.last.put <= BitsOf(cfg, t.last.collected)
              && (forall id :: id in t.added && !MightExist(cfg, t, id) ==>
                    || (id in t.last.before && id in t.rows && t.rows[id] < t.last.startedAt)
                    || cfg.hash(id) * t.last.lost != {})
  {
    var t := Exec(cfg, s, steps);
    InitialInv(cfg, s);
    RunInv(cfg, s, steps);
    InvSafe(cfg, t);
    hide Run, Exec, PageInv, BitsOf;
  }

  /** The late query or its write has failed after a swap that kept the start rows. Then only late rows can
      be lost whose adds had set a bit before the swap, and the live array is the shadow with what adds have
      set since and the reconciliation got to. */
  lemma LateErrorOutcome(cfg: Config, s: State, steps: seq<Step>)
    requires cfg.Valid() && Initial(cfg, s) && Run(cfg, s, steps)
    ensures var t := Exec(cfg, s, steps);
            t.last.Swapped? && !t.last.byError && !t.last.reconciled ==>
              && t.live == t.last.base + t.last.after + t.last.put
              && BitsOf(cfg, t.last.startIds) - t.last.lost <= t.last.base
              && t.last.put <= BitsOf(cfg, t.last.collected)
              && (forall id :: id in t.added && !MightExist(cfg, t, id) ==>
                    || (id in t.last.before - t.last.startIds && id in t.rows && t.rows[id] >= t.last.startedAt)
                    || cfg.hash(id) * t.last.lost != {})
  {
    var t := Exec(cfg, s, steps);
    InitialInv(cfg, s);
    RunInv(cfg, s, steps);
    InvSafe(cfg, t);
    hide Run, Exec, PageInv, BitsOf;
  }

  /** A failed SETBIT costs exactly the ids that need the bit and do not get it otherwise: after a rebuild
      in which nothing else failed an added id is lost if and only if one of its bits is among those lost
      and not set. */
  lemma DroppedBitOutcome(cfg: Config, s: State, steps: seq<Step>, id: Uuid)
    requires cfg.Valid() && Initial(cfg, s) && Run(cfg, s, steps)
    requires var t := Exec(cfg, s, steps);
             t.last.Swapped? && !t.last.byError && t.last.reconciled && id in t.added
    ensures var t := Exec(cfg, s, steps);
            MightExist(cfg, t, id) <==> cfg.hash(id) * t.last.lost <= t.live
  {
    var t := Exec(cfg, s, steps);
    InitialInv(cfg, s);
    RunInv(cfg, s, steps);
    InvSafe(cfg, t);
    hide Run, Exec, PageInv, BitsOf;
  }

  /** One row stamped before the rebuild is enough to lose it to an error of EXISTS. */
  lemma ExistsErrorLosesARow() returns (cfg: Config, s: State, steps: seq<Step>, id: Uuid)
    ensures cfg.Valid() && Initial(cfg, s) && Run(cfg, s, steps)
    ensures var t := Exec(cfg, s, steps);
            t.phase.Idle? && id in s.added && MightExist(cfg, s, id) && id in t.added && !MightExist(cfg, t, id)
  {
    id, cfg := 7, Config(x => {0}, 2);
    s := State(1, map[id := 0], map[], {id}, {0}, {}, Idle, 0, {}, [], {}, {}, {}, {}, NoSwap);
    steps := OneRowSwap(cfg, s, id);
    BitsOfNone(cfg);
    assert Since(s.rows, s.now) == {};
    hide Run, Exec, Holders, BitsOf, IsPage, Elements, Since;
    steps := Extend(cfg, s, steps, Collect);
    steps := Extend(cfg, s, steps, EndReconcile);
    steps := Extend(cfg, s, steps, Release);
  }

  /** A rebuild that has read the one page of a table with at most one row. */
  lemma OnePage(cfg: Config, s: State, page: seq<Uuid>) returns (steps: seq<Step>)
    requires cfg.Valid() && cfg.chunk == 2 && s.phase.Idle? && |page| <= 1 && s.rows.Keys == Elements(page)
    ensures Run(cfg, s, steps)
    ensures Exec(cfg, s, steps) ==
            s.(phase := Writing(BitsOf(cfg, Elements(page)), None), startedAt := s.now, startIds := s.rows.Keys,
               seen := page, shadow := {}, dropped := {}, stale := {}, base := s.live, envBits := {})
  {
    steps := [];
    assert Exec(cfg, s, steps) == s;
    assert IsPage(s.rows.Keys, None, 2, page);
    hide Run, Exec, Holders, BitsOf, IsPage, Elements;
    steps := Extend(cfg, s, steps, Acquire);
    steps := Extend(cfg, s, steps, Clear(true));
    steps := Extend(cfg, s, steps, ReadPage(page));
    assert [] + page == page;
  }

  lemma OneRowSwap(cfg: Config, s: State, id: Uuid) returns (steps: seq<Step>)
    requires cfg.Valid() && cfg.chunk == 2 && s.phase.Idle? && s.rows.Keys == {id} && cfg.hash(id) == {0}
    ensures Run(cfg, s, steps)
    ensures var t := Exec(cfg, s, steps);
            && t.phase.Collecting? && t.live == {} && t.last.Swapped?
            && t.rows == s.rows && t.added == s.added && t.now == s.now == t.startedAt
  {
    BitsOfOne(cfg, id);
    assert Elements([id]) == {id};
    steps := OnePage(cfg, s, [id]);
    hide Run, Exec, Holders, BitsOf, IsPage, Elements;
    steps := Extend(cfg, s, steps, WriteBit(0, true));
    steps := Extend(cfg, s, steps, EndWrite);
    steps := Extend(cfg, s, steps, CheckShadow(true));
    steps := Extend(cfg, s, steps, Swap(true));
  }

  /** A row that comes during the rebuild is lost to a failed query for late rows. */
  lemma LateErrorLosesARow() returns (cfg: Config, s: State, steps: seq<Step>, id: Uuid)
    ensures cfg.Valid() && Initial(cfg, s) && Run(cfg, s, steps)
    ensures var t := Exec(cfg, s, steps); t.phase.Idle? && id in t.added && !MightExist(cfg, t, id)
  {
    id, cfg := 7, Config(x => {0}, 2);
    s := State(0, map[], map[], {}, {}, {}, Idle, 0, {}, [], {}, {}, {}, {}, NoSwap);
    assert Elements([]) == {};
    BitsOfNone(cfg);
    steps := OnePage(cfg, s, []);
    hide Run, Exec, Holders, BitsOf, IsPage, Elements;
    steps := LateRow(cfg, s, steps, id);
    steps := EmptySwap(cfg, s, steps);
    steps := Extend(cfg, s, steps, CollectFails);
    steps := Extend(cfg, s, steps, Release);
  }

  /** A user is created and added. */
  lemma LateRow(cfg: Config, s: State, steps: seq<Step>, id: Uuid) returns (more: seq<Step>)
    requires Run(cfg, s, steps) && cfg.hash(id) == {0}
    requires var t := Exec(cfg, s, steps); id !in t.rows && id !in t.adding && t.startedAt <= t.now
    ensures Run(cfg, s, more)
    ensures var t, u := Exec(cfg, s, steps), Exec(cfg, s, more);
            u.phase == t.phase && u.shadow == t.shadow && u.seen == t.seen && id in u.added
  {
    hide Run, Exec;
    more := Extend(cfg, s, steps, Insert(id, Exec(cfg, s, steps).now));
    more := Extend(cfg, s, more, BeginAdd(id));
    more := Extend(cfg, s, more, AddBit(id, 0));
    more := Extend(cfg, s, more, EndAdd(id));
  }

  /** The swap of a namespace that was empty when its page was read. */
  lemma EmptySwap(cfg: Config, s: State, steps: seq<Step>) returns (more: seq<Step>)
    requires Run(cfg, s, steps)
    requires var t := Exec(cfg, s, steps); t.phase == Writing({}, None) && t.shadow == {}
    ensures Run(cfg, s, more)
    ensures var t, u := Exec(cfg, s, steps), Exec(cfg, s, more);
            u.phase.Collecting? && u.live == {} && u.added == t.added
  {
    hide Run, Exec, Holders;
    more := Extend(cfg, s, steps, EndWrite);
    more := Extend(cfg, s, more, CheckShadow(false));
    more := Extend(cfg, s, more, Swap(true));
  }

  /** A row is lost because one SETBIT of the shadow has failed. */
  lemma DroppedBitLosesARow() returns (cfg: Config, s: State, steps: seq<Step>, id: Uuid)
    ensures cfg.Valid() && Initial(cfg, s) && Run(cfg, s, steps)
    ensures var t := Exec(cfg, s, steps);
            && t.last.Swapped? && !t.last.byError && t.last.reconciled
            && MightExist(cfg, s, id) && id in t.added && !MightExist(cfg, t, id)
  {
    id, cfg := 7, Config(x => {0, 1}, 2);
    s := State(1, map[id := 0], map[], {id}, {0, 1}, {}, Idle, 0, {}, [], {}, {}, {}, {}, NoSwap);
    steps := HalfSwap(cfg, s, id);
    BitsOfNone(cfg);
    assert Since(s.rows, s.now) == {};
    hide Run, Exec, Holders, BitsOf, IsPage, Elements, Since;
    steps := Extend(cfg, s, steps, Collect);
    steps := Extend(cfg, s, steps, EndReconcile);
  }

  /** One of the two bits of the only row gets into the shadow. */
  lemma HalfSwap(cfg: Config, s: State, id: Uuid) returns (steps: seq<Step>)
    requires cfg.Valid() && cfg.chunk == 2 && s.phase.Idle? && s.rows.Keys == {id} && cfg.hash(id) == {0, 1}
    ensures Run(cfg, s, steps)
    ensures var t := Exec(cfg, s, steps);
            && t.phase.Collecting? && t.live == {0} && t.last.Swapped? && !t.last.byError
            && t.rows == s.rows && t.added == s.added && t.startedAt == s.now
  {
    BitsOfOne(cfg, id);
    assert Elements([id]) == {id};
    steps := OnePage(cfg, s, [id]);
    hide Run, Exec, Holders, BitsOf, IsPage, Elements;
    steps := Extend(cfg, s, steps, WriteBit(0, true));
    steps := Extend(cfg, s, steps, WriteBit(1, false));
    steps := Extend(cfg, s, steps, EndWrite);
    steps := Extend(cfg, s, steps, CheckShadow(false));
    steps := Extend(cfg, s, steps, Swap(true));
  }

  lemma BitsOfOne(cfg: Config, id: Uuid)
    ensures BitsOf(cfg, {id}) == cfg.hash(id)
  {
    assert forall b :: b in cfg.hash(id) ==> id in {id} && b in cfg.hash(id);
  }

  lemma BitsOfNone(cfg: Config)
    ensures BitsOf(cfg, {}) == {}
  {}

  // ---------------------------------------------------------------- runs grow at the end

  lemma {:induction false} RunSnoc(cfg: Config, s: State, steps: seq<Step>, step: Step)
    requires Run(cfg, s, steps) && Legal(cfg, Exec(cfg, s, steps), step)
    ensures Run(cfg, s, steps + [step])
    ensures Exec(cfg, s, steps + [step]) == Apply(cfg, Exec(cfg, s, steps), step)
    decreases |steps|
  {
    if steps == [] {
      assert [step][1..] == [];
    } else {
      RunSnoc(cfg, Apply(cfg, s, steps[0]), steps[1..], step);
      assert (steps + [step])[1..] == steps[1..] + [step];
    }
  }

  lemma Extend(cfg: Config, s: State, steps: seq<Step>, step: Step) returns (more: seq<Step>)
    requires Run(cfg, s, steps) && Legal(cfg, Exec(cfg, s, steps), step)
    ensures Run(cfg, s, more) && Exec(cfg, s, more) == Apply(cfg, Exec(cfg, s, steps), step)
  {
    RunSnoc(cfg, s, steps, step);
    more := steps + [step];
  }

  lemma {:induction false} RunPrefix(cfg: Config, s: State, steps: seq<Step>, n: nat)
    requires Run(cfg, s, steps) && n <= |steps|
    ensures Run(cfg, s, steps[..n])
    decreases |steps|
  {
    if n > 0 {
      RunPrefix(cfg, Apply(cfg, s, steps[0]), steps[1..], n - 1);
      assert steps[..n][1..] == steps[1..][..n - 1];
    }
  }

  // ---------------------------------------------------------------- the service

  /** Redis and the database, shared with everybody else. The schedule says what the others do each
      time the rebuild waits; trace records every step since origin. */
  class World {
    const cfg: Config
    const schedule: nat -> seq<Step>
    var s: State
    var waits: nat
    ghost const origin: State
    ghost var trace: seq<Step>

    ghost predicate Valid()
      reads this
    {
      && cfg.Valid()
      && Initial(cfg, origin)
      && Run(cfg, origin, trace)
      && s == Exec(cfg, origin, trace)
    }

    constructor (cfg: Config, schedule: nat -> seq<Step>, s: State)
      requires cfg.Valid() && Initial(cfg, s)
      ensures Valid() && this.s == s && this.cfg == cfg && this.schedule == schedule && trace == []
    {
      this.cfg, this.schedule, this.s, this.waits := cfg, schedule, s, 0;
      this.origin, this.trace := s, [];
    }

    /** One command of the rebuild, or one step of somebody else. */
    method Do(step: Step)
      requires Valid() && Legal(cfg, s, step)
      modifies this`s, this`trace
      ensures Valid() && s == Apply(cfg, old(s), step) && trace == old(trace) + [step]
    {
      RunSnoc(cfg, origin, trace, step);
      s := Apply(cfg, s, step);
      trace := trace + [step];
    }

    /** The others run: whatever part of the scheduled steps is possible. */
    method Wait()
      requires Valid()
      modifies this
      ensures Valid() && old(trace) <= trace
      ensures SameHolder(old(s), s)
    {
      var steps := schedule(waits);
      waits := waits + 1;
      for i := 0 to |steps|
        invariant Valid() && old(trace) <= trace
        invariant SameHolder(old(s), s)
      {
        if IsEnvironment(steps[i]) && Legal(cfg, s, steps[i]) {
          Do(steps[i]);
        }
      }
    }

    /** In every state since origin the false negatives were at most the ones described. */
    ghost predicate AlwaysSafe()
      reads this
    {
      forall n :: 0 <= n <= |trace| ==>
        && Run(cfg, origin, trace[..n]) && Safe(cfg, Exec(cfg, origin, trace[..n]))
        && (Faultless(trace[..n]) ==> OnlyLateMissing(cfg, Exec(cfg, origin, trace[..n])))
    }

    lemma SafeThroughout()
      requires Valid()
      ensures AlwaysSafe()
    {
      forall n | 0 <= n <= |trace|
        ensures Run(cfg, origin, trace[..n]) && Safe(cfg, Exec(cfg, origin, trace[..n]))
        ensures Faultless(trace[..n]) ==> OnlyLateMissing(cfg, Exec(cfg, origin, trace[..n]))
      {
        RunPrefix(cfg, origin, trace, n);
        NoFalseNegatives(cfg, origin, trace[..n]);
      }
    }

    /** What the run of the lock holder that is just over has left. */
    lemma Exact()
      requires Valid()
      ensures s.phase.Finished? ==> s.last.Swapped? && SwapHolds(cfg, s.rows.Keys, s.live, s.last)
      ensures s.phase.Finished? && Clean(s) ==> BitsOf(cfg, s.startIds + s.added) <= s.live <= BitsOf(cfg, s.rows.Keys)
      ensures s.phase.Finished? && Clean(s) && s.startIds == s.rows.Keys ==> s.live == BitsOf(cfg, s.rows.Keys)
      ensures s.phase.Aborted? ==> s.live == s.base + s.envBits
    {
      InitialInv(cfg, origin);
      RunInv(cfg, origin, trace);
      hide Run, Exec, PageInv;
      if s.phase.Finished? { FinishedExact(cfg, s); }
    }
  }

  /** The others never touch what belongs to the lock holder. */
  ghost predicate SameHolder(s: State, t: State) {
    && t.phase == s.phase && t.shadow == s.shadow && t.seen == s.seen
    && t.dropped == s.dropped && t.stale == s.stale && s.live <= t.live
    && t.startIds == s.startIds && t.startedAt == s.startedAt && t.base == s.base
    && s.rows.Keys <= t.rows.Keys && SameSwap(s.last, t.last)
  }

  /** Up to the bits that adds have set since. */
  ghost predicate SameSwap(a: Swap, b: Swap) {
    match a
    case NoSwap => b == NoSwap
    case Swapped(_, _, _, _, _, _, _, _, _, _, _) => b.Swapped? && b == a.(after := b.after)
  }

  /** The database query behind fetchPage, by selection. */
  method SelectPage(keys: set<Uuid>, cursor: Option<Uuid>, limit: nat) returns (page: seq<Uuid>)
    ensures IsPage(keys, cursor, limit, page)
  {
    var rest := set id | id in keys && Above(cursor, id);
    page := [];
    while |page| < limit && rest != {}
      invariant Ascending(page) && |page| <= limit
      invariant forall id :: id in keys && Above(cursor, id) <==> id in page || id in rest
      invariant forall i, id :: 0 <= i < |page| && id in rest ==> page[i] < id
      decreases |rest|
    {
      var m := Least(rest);
      page, rest := page + [m], rest - {m};
    }
  }

  method Least(ids: set<Uuid>) returns (m: Uuid)
    requires ids != {}
    ensures m in ids && forall id :: id in ids ==> m <= id
  {
    m :| m in ids;
    var rest := ids - {m};
    while rest != {}
      invariant m in ids && rest <= ids
      invariant forall id :: id in ids && id !in rest ==> m <= id
    {
      var x :| x in rest;
      rest := rest - {x};
      if x < m { m := x; }
    }
  }

  /** What goes wrong in one run: the pages whose read or shadow write fails as a whole, the rename, the
      bits whose SETBIT fails inside a pipeline, the DEL of the shadow and of the live key, EXISTS, the query
      for late rows, and the write of these, which breaks off after so many bits. */
  datatype Faults = Faults(read: set<nat>, write: set<nat>, rename: bool, bits: set<nat>, clear: bool, del: bool,
                           check: bool, query: bool, put: Option<nat>)

  const NO_FAULTS := Faults({}, {}, false, {}, false, false, false, false, None)

  /** How it ends: through to the end, or by an exception before the swap or after it. */
  datatype Outcome = Completed | Kept | Broken

  /** What the pages put into the shadow. */
  function Copied(w: World, faults: Faults): set<nat>
    reads w
  {
    BitsOf(w.cfg, Elements(w.s.seen)) - faults.bits
  }

  /** The rebuild of one namespace by a node that finds the lock free. Of its pages the last one reached is
      number `last`, counting from 0. It gives up only when that page cannot be read or written, or when the
      shadow cannot be renamed; bits that fail inside a pipeline do not stop it. */
  method RebuildNamespace(w: World, faults: Faults) returns (outcome: Outcome, last: nat)
    requires w.Valid() && w.s.phase.Idle?
    modifies w
    ensures w.Valid() && w.s.phase.Idle? && old(w.trace) <= w.trace
    ensures w.AlwaysSafe()
    ensures outcome == Kept ==> old(w.s.live) <= w.s.live == w.s.base + w.s.envBits
    ensures outcome != Kept ==>
              && w.s.last.Swapped? && SwapHolds(w.cfg, w.s.rows.Keys, w.s.live, w.s.last)
              && w.s.last.startIds == w.s.startIds && w.s.last.startedAt == w.s.startedAt
              && w.s.last.byError == faults.check && w.s.last.lost <= faults.bits
              && (!faults.clear && !faults.del ==> w.s.last.stale == {})
    ensures outcome == Kept ==> last in faults.read || last in faults.write || (faults.rename && !faults.check)
    ensures outcome == Kept ==> w.s.shadow == {}
    ensures last in faults.read ==> outcome == Kept
    ensures forall p :: 0 <= p < last ==> p !in faults.read && p !in faults.write
    ensures w.s.stale == if faults.clear then old(w.s.shadow) else {}
    ensures last !in faults.read && last !in faults.write ==>
              (outcome == Kept <==>
                faults.rename && !faults.check && w.s.seen != [] && w.s.stale + Copied(w, faults) != {})
    ensures outcome != Kept && !faults.check && !faults.del ==>
              w.s.last.base == if w.s.seen != [] then w.s.stale + Copied(w, faults) else {}
    ensures outcome == Completed ==> w.s.last.reconciled == !faults.query
    ensures outcome == Broken ==> faults.put.Some? && !faults.query && !w.s.last.reconciled
    ensures faults.put.None? ==> outcome != Broken
    ensures faults == NO_FAULTS ==>
              && outcome == Completed
              && BitsOf(w.cfg, w.s.startIds + w.s.added) <= w.s.live <= BitsOf(w.cfg, w.s.rows.Keys)
              && (w.s.startIds == w.s.rows.Keys ==> w.s.live == BitsOf(w.cfg, w.s.rows.Keys))
  {
    hide Run, Exec, Initial, Inv, BitsOf, SwapHolds, Holders;
    w.Wait();
    w.Do(Acquire);
    w.Wait();
    w.Do(Clear(!faults.clear));
    outcome, last := FillAndSwap(w, faults);
    w.Exact();
    w.Do(Release);
    w.SafeThroughout();
  }

  /** What the lock holder does in between. */
  method FillAndSwap(w: World, faults: Faults) returns (outcome: Outcome, last: nat)
    requires w.Valid() && w.s.phase == Fetching(None) && w.s.seen == [] && w.s.dropped == {}
    requires w.s.shadow == w.s.stale && (!faults.clear ==> w.s.stale == {})
    modifies w
    ensures w.Valid() && old(w.trace) <= w.trace && w.s.base == old(w.s.base)
    ensures w.s.phase == if outcome == Kept then Aborted else Finished
    ensures outcome != Kept ==>
              && w.s.last.Swapped? && w.s.last.startIds == w.s.startIds && w.s.last.startedAt == w.s.startedAt
              && w.s.last.byError == faults.check && w.s.last.lost <= faults.bits
              && (!faults.clear && !faults.del ==> w.s.last.stale == {})
    ensures outcome == Kept ==> last in faults.read || last in faults.write || (faults.rename && !faults.check)
    ensures outcome == Kept ==> w.s.shadow == {}
    ensures last in faults.read ==> outcome == Kept
    ensures forall p :: 0 <= p < last ==> p !in faults.read && p !in faults.write
    ensures w.s.stale == old(w.s.stale)
    ensures last !in faults.read && last !in faults.write ==>
              (outcome == Kept <==>
                faults.rename && !faults.check && w.s.seen != [] && w.s.stale + Copied(w, faults) != {})
    ensures outcome != Kept && !faults.check && !faults.del ==>
              w.s.last.base == if w.s.seen != [] then w.s.stale + Copied(w, faults) else {}
    ensures outcome == Completed ==> w.s.last.reconciled == !faults.query
    ensures outcome == Broken ==> faults.put.Some? && !faults.query && !w.s.last.reconciled
  {
    hide Run, Exec, Initial, Holders, BitsOf, Elements;
    var totalIds, count, failed;
    totalIds, count, last, failed := FillShadow(w, faults);
    outcome := Kept;
    NoBits(w.cfg);
    assert !failed && totalIds == 0 ==> w.s.seen == [];
    assert !failed ==> w.s.shadow == w.s.stale + Copied(w, faults);
    if !failed {
      outcome := SwapIn(w, totalIds, faults);
    }
  }

  predicate Renames(shadow: set<nat>, totalIds: nat, faults: Faults) {
    !faults.check && shadow != {} && totalIds > 0
  }

  /** EXISTS, then RENAME or DEL, then the reconciliation. */
  method SwapIn(w: World, totalIds: nat, faults: Faults) returns (outcome: Outcome)
    requires w.Valid() && w.s.phase.Checking? && totalIds == |w.s.seen| && w.s.dropped <= faults.bits
    requires !faults.clear ==> w.s.stale == {}
    modifies w
    ensures w.Valid() && old(w.trace) <= w.trace && w.s.base == old(w.s.base)
    ensures w.s.phase == if outcome == Kept then Aborted else Finished
    ensures outcome != Kept ==>
              && w.s.last.Swapped? && w.s.last.startIds == w.s.startIds && w.s.last.startedAt == w.s.startedAt
              && w.s.last.byError == faults.check && w.s.last.lost <= faults.bits
              && (!faults.clear && !faults.del ==> w.s.last.stale == {})
    ensures w.s.seen == old(w.s.seen) && w.s.stale == old(w.s.stale)
    ensures outcome == Kept ==> w.s.shadow == {}
    ensures outcome == Kept <==> faults.rename && Renames(old(w.s.shadow), totalIds, faults)
    ensures outcome != Kept ==>
              if Renames(old(w.s.shadow), totalIds, faults) then w.s.last.base == old(w.s.shadow)
              else if faults.del then old(w.s.live) <= w.s.last.base else w.s.last.base == {}
    ensures outcome == Completed ==> w.s.last.reconciled == !faults.query
    ensures outcome == Broken ==> faults.put.Some? && !faults.query && !w.s.last.reconciled
  {
    hide Run, Exec, Initial, Holders, BitsOf;
    w.Wait();
    var shadowExists := !faults.check && w.s.shadow != {};
    w.Do(CheckShadow(faults.check));
    w.Wait();
    if shadowExists && totalIds > 0 && faults.rename {
      w.Do(Abort(true));
      return Kept;
    }
    w.Do(Swap(!faults.del || (shadowExists && totalIds > 0)));
    w.Wait();
    outcome := CollectLate(w, faults);
  }

  /** The query for the rows of the meantime, and their reconciliation. */
  method CollectLate(w: World, faults: Faults) returns (outcome: Outcome)
    requires w.Valid() && w.s.phase.Collecting? && w.s.last.Swapped? && w.s.last.lost <= faults.bits
    requires !w.s.last.reconciled && w.s.last.put == {}
    modifies w
    ensures w.Valid() && old(w.trace) <= w.trace
    ensures w.s.phase.Finished? && w.s.last.Swapped? && w.s.last.lost <= faults.bits
    ensures w.s.last.byError == old(w.s.last.byError) && w.s.last.stale == old(w.s.last.stale)
    ensures w.s.base == old(w.s.base)
    ensures w.s.last.startIds == old(w.s.last.startIds) && w.s.last.startedAt == old(w.s.last.startedAt)
    ensures w.s.startIds == old(w.s.startIds) && w.s.startedAt == old(w.s.startedAt)
    ensures w.s.seen == old(w.s.seen) && w.s.stale == old(w.s.stale) && w.s.last.base == old(w.s.last.base)
    ensures outcome != Kept && w.s.last.reconciled == (outcome == Completed && !faults.query)
    ensures outcome == Broken <==>
            !faults.query && faults.put.Some? && faults.put.value < |BitsOf(w.cfg, w.s.last.collected)|
    ensures outcome == Completed && !faults.query ==>
              && w.s.last.put == BitsOf(w.cfg, w.s.last.collected) - faults.bits
              && w.s.last.lost == old(w.s.last.lost) + BitsOf(w.cfg, w.s.last.collected) * faults.bits
  {
    hide Run, Exec, Initial, Holders, BitsOf;
    if faults.query {
      w.Do(CollectFails);
      return Completed;
    }
    w.Do(Collect);
    var failed := Reconcile(w, faults);
    if failed {
      w.Do(ReconcileFails);
      return Broken;
    }
    w.Do(EndReconcile);
    return Completed;
  }

  /** The do-while loop over the pages; the last page reached has number `last` and `count` ids, which are
      0 if it could not be read. */
  method FillShadow(w: World, faults: Faults) returns (totalIds: nat, count: nat, last: nat, failed: bool)
    requires w.Valid() && w.s.phase == Fetching(None) && w.s.seen == [] && w.s.dropped == {}
    modifies w
    ensures w.s.base == old(w.s.base) && w.s.stale == old(w.s.stale)
    ensures w.Valid() && old(w.trace) <= w.trace
    ensures w.s.phase == if failed then Aborted else Checking
    ensures failed <==> last in faults.read || (count > 0 && last in faults.write)
    ensures failed ==> w.s.shadow == {}
    ensures forall p :: 0 <= p < last ==> p !in faults.read && p !in faults.write
    ensures !failed ==> totalIds == |w.s.seen| && w.s.shadow == old(w.s.shadow) + Copied(w, faults)
    ensures !failed ==> w.s.dropped == BitsOf(w.cfg, Elements(w.s.seen)) * faults.bits
  {
    hide Run, Exec, Initial, Holders, BitsOf, Elements;
    var cursor: Option<Uuid> := None;
    totalIds, count, last, failed := 0, 0, 0, false;
    var more := true;
    NoBits(w.cfg);
    while more && !failed
      invariant w.s.base == old(w.s.base) && w.s.stale == old(w.s.stale)
      invariant w.Valid() && old(w.trace) <= w.trace
      invariant failed ==> w.s.phase.Aborted? && w.s.shadow == {}
      invariant !failed ==> w.s.phase == if more then Fetching(cursor) else Checking
      invariant !failed ==> totalIds == |w.s.seen| && w.s.shadow == old(w.s.shadow) + Copied(w, faults)
      invariant !failed ==> w.s.dropped == BitsOf(w.cfg, Elements(w.s.seen)) * faults.bits
      invariant failed || !more ==> (failed <==> last in faults.read || (count > 0 && last in faults.write))
      invariant forall p :: 0 <= p < last ==> p !in faults.read && p !in faults.write
      decreases !failed, more, if cursor.Some? then UUID_SPACE - cursor.value else UUID_SPACE + 1
    {
      var next;
      next, count, failed := CopyPage(w, cursor, last, faults, old(w.s.shadow));
      if !failed {
        totalIds := totalIds + count;
        cursor := next;
        more := cursor.Some?;
        if more { last := last + 1; }
      }
    }
  }

  lemma NoBits(cfg: Config)
    ensures BitsOf(cfg, Elements([])) == {}
  {}

  lemma BitsJoin(cfg: Config, a: seq<Uuid>, b: seq<Uuid>)
    ensures BitsOf(cfg, Elements(a + b)) == BitsOf(cfg, Elements(a)) + BitsOf(cfg, Elements(b))
  {
    assert Elements(a + b) == Elements(a) + Elements(b);
  }

  /** One round of the loop: read the page above the cursor and write its bits to the shadow. */
  method CopyPage(w: World, cursor: Option<Uuid>, page: nat, faults: Faults, ghost stale: set<nat>)
    returns (next: Option<Uuid>, count: nat, failed: bool)
    requires w.Valid() && w.s.phase == Fetching(cursor) && w.s.shadow == stale + Copied(w, faults)
    requires w.s.dropped == BitsOf(w.cfg, Elements(w.s.seen)) * faults.bits
    modifies w
    ensures w.s.base == old(w.s.base) && w.s.stale == old(w.s.stale)
    ensures w.Valid() && old(w.trace) <= w.trace
    ensures failed <==> page in faults.read || (count > 0 && page in faults.write)
    ensures failed ==> w.s.shadow == {}
    ensures w.s.phase == if failed then Aborted else if next.Some? then Fetching(next) else Checking
    ensures !failed ==> |w.s.seen| == |old(w.s.seen)| + count && (next.Some? ==> count > 0)
    ensures !failed ==> w.s.shadow == stale + Copied(w, faults)
    ensures !failed ==> w.s.dropped == BitsOf(w.cfg, Elements(w.s.seen)) * faults.bits
    ensures !failed && next.Some? ==> Above(cursor, next.value)
  {
    hide Run, Exec, Initial, Holders, BitsOf;
    w.Wait();
    if page in faults.read {
      w.Do(Abort(true));
      return None, 0, true;
    }
    var ids := SelectPage(w.s.rows.Keys, cursor, w.cfg.chunk);
    LastAbove(w.s.rows.Keys, cursor, w.cfg.chunk, ids);
    ghost var seen := w.s.seen;
    w.Do(ReadPage(ids));
    hide IsPage, Elements, Apply, Legal;
    next, count := if |ids| == w.cfg.chunk then Some(ids[|ids| - 1]) else None, |ids|;
    failed := WritePage(w, count, page, faults);
    BitsJoin(w.cfg, seen, ids);
  }

  /** The write of a page that has ids, which may fail as a whole. */
  method WritePage(w: World, count: nat, page: nat, faults: Faults) returns (failed: bool)
    requires w.Valid() && w.s.phase.Writing?
    modifies w
    ensures w.s.base == old(w.s.base) && w.s.stale == old(w.s.stale)
    ensures w.Valid() && old(w.trace) <= w.trace
    ensures failed <==> count > 0 && page in faults.write
    ensures failed ==> w.s.phase.Aborted? && w.s.shadow == {}
    ensures !failed ==> w.s.phase == if old(w.s.phase.next).Some? then Fetching(old(w.s.phase.next)) else Checking
    ensures !failed ==> w.s.seen == old(w.s.seen)
    ensures !failed ==> w.s.shadow == old(w.s.shadow) + (old(w.s.phase.todo) - faults.bits)
    ensures !failed ==> w.s.dropped == old(w.s.dropped) + old(w.s.phase.todo) * faults.bits
  {
    hide Run, Exec, Initial, Holders, BitsOf;
    if count > 0 && page in faults.write {
      w.Wait();
      w.Do(Abort(true));
      return true;
    }
    WriteShadowChunk(w, faults);
    w.Do(EndWrite);
    return false;
  }

  lemma LastAbove(keys: set<Uuid>, cursor: Option<Uuid>, limit: nat, page: seq<Uuid>)
    requires IsPage(keys, cursor, limit, page)
    ensures page != [] ==> Above(cursor, page[|page| - 1])
  {
    if page != [] { assert page[|page| - 1] in page; }
  }

  /** The SETBIT commands of a page: those that fail are dropped. */
  method WriteShadowChunk(w: World, faults: Faults)
    requires w.Valid() && w.s.phase.Writing?
    modifies w
    ensures w.s.base == old(w.s.base) && w.s.stale == old(w.s.stale)
    ensures w.Valid() && old(w.trace) <= w.trace
    ensures w.s.phase == Writing({}, old(w.s.phase.next)) && w.s.seen == old(w.s.seen)
    ensures w.s.shadow == old(w.s.shadow) + (old(w.s.phase.todo) - faults.bits)
    ensures w.s.dropped == old(w.s.dropped) + old(w.s.phase.todo) * faults.bits
  {
    hide Run, Exec, Initial, Holders, BitsOf;
    ghost var todo := w.s.phase.todo;
    while w.s.phase.todo != {}
      invariant w.s.base == old(w.s.base) && w.s.stale == old(w.s.stale)
      invariant w.Valid() && old(w.trace) <= w.trace
      invariant w.s.phase.Writing? && w.s.phase.next == old(w.s.phase.next) && w.s.seen == old(w.s.seen)
      invariant w.s.phase.todo <= todo
      invariant w.s.shadow == old(w.s.shadow) + (todo - w.s.phase.todo - faults.bits)
      invariant w.s.dropped == old(w.s.dropped) + (todo - w.s.phase.todo) * faults.bits
      decreases w.s.phase.todo
    {
      w.Wait();
      var bit :| bit in w.s.phase.todo;
      w.Do(WriteBit(bit, bit !in faults.bits));
    }
  }

  /** The write of the late rows, which may break off half way. */
  method Reconcile(w: World, faults: Faults) returns (failed: bool)
    requires w.Valid() && w.s.phase.Reconciling? && w.s.last.Swapped? && w.s.last.lost <= faults.bits
    modifies w
    ensures w.s.base == old(w.s.base) && w.s.stale == old(w.s.stale)
    ensures w.Valid() && old(w.trace) <= w.trace
    ensures w.s.phase.Reconciling? && w.s.last.Swapped? && w.s.last.lost <= faults.bits
    ensures SameSwap(old(w.s.last).(put := w.s.last.put, lost := w.s.last.lost), w.s.last)
    ensures w.s.startIds == old(w.s.startIds) && w.s.startedAt == old(w.s.startedAt)
    ensures w.s.seen == old(w.s.seen)
    ensures failed <==> faults.put.Some? && faults.put.value < |old(w.s.phase.todo)|
    ensures !failed ==> w.s.phase == Reconciling({})
    ensures !failed ==> w.s.last.put == old(w.s.last.put) + (old(w.s.phase.todo) - faults.bits)
    ensures !failed ==> w.s.last.lost == old(w.s.last.lost) + old(w.s.phase.todo) * faults.bits
  {
    hide Run, Exec, Initial, Holders, BitsOf;
    var n := 0;
    ghost var todo := w.s.phase.todo;
    while w.s.phase.todo != {}
      invariant w.s.base == old(w.s.base) && w.s.stale == old(w.s.stale)
      invariant w.Valid() && old(w.trace) <= w.trace
      invariant w.s.phase.Reconciling? && w.s.last.Swapped? && w.s.last.lost <= faults.bits
      invariant w.s.seen == old(w.s.seen)
      invariant w.s.phase.todo <= todo && n + |w.s.phase.todo| == |todo|
      invariant faults.put.Some? ==> n <= faults.put.value
      invariant w.s.last.put == old(w.s.last.put) + (todo - w.s.phase.todo - faults.bits)
      invariant w.s.last.lost == old(w.s.last.lost) + (todo - w.s.phase.todo) * faults.bits
      invariant SameSwap(old(w.s.last).(put := w.s.last.put, lost := w.s.last.lost), w.s.last)
      invariant w.s.startIds == old(w.s.startIds) && w.s.startedAt == old(w.s.startedAt)
      decreases w.s.phase.todo
    {
      if faults.put == Some(n) { return true; }
      var bit := ReconcileNext(w, faults);
      n := n + 1;
    }
    return false;
  }

  /** The next SETBIT command for the late rows. */
  method ReconcileNext(w: World, faults: Faults) returns (bit: nat)
    requires w.Valid() && w.s.phase.Reconciling? && w.s.last.Swapped? && w.s.phase.todo != {}
    modifies w
    ensures w.s.base == old(w.s.base) && w.s.stale == old(w.s.stale) && w.s.seen == old(w.s.seen)
    ensures w.Valid() && old(w.trace) <= w.trace
    ensures w.s.startIds == old(w.s.startIds) && w.s.startedAt == old(w.s.startedAt)
    ensures bit in old(w.s.phase.todo) && w.s.phase == Reconciling(old(w.s.phase.todo) - {bit})
    ensures w.s.last.Swapped? && SameSwap(old(w.s.last).(put := w.s.last.put, lost := w.s.last.lost), w.s.last)
    ensures w.s.last.put == old(w.s.last.put) + ({bit} - faults.bits)
    ensures w.s.last.lost == old(w.s.last.lost) + {bit} * faults.bits
  {
    hide Run, Exec, Initial, Holders, BitsOf;
    w.Wait();
    bit :| bit in w.s.phase.todo;
    w.Do(ReconcileBit(bit, bit !in faults.bits));
  }
}

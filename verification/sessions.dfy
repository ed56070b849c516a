/** Access and refresh tokens in Redis: login, rotation, logout, and the SCAN-based logout of all
    sessions, whose batches interleave with everything else. */
module Sessions {
  type User = nat
  type Session = nat

  /** The key `user:session` and the key `refresh:user:session`. */
  datatype Key = Access(user: User, session: Session) | Refresh(user: User, session: Session)

  /** exp is in whole seconds. */
  datatype Jwt = Jwt(user: User, refresh: bool, exp: nat)

  datatype Stored = Stored(jwt: Jwt, expiresAt: nat)

  /** Lifetimes in seconds; bucket places every key in the keyspace that SCAN walks. */
  datatype Config = Config(accessTtl: nat, refreshTtl: nat, bucket: Key -> nat, buckets: nat) {
    ghost predicate Valid() {
      accessTtl < refreshTtl && buckets > 0 && forall k: Key :: bucket(k) < buckets
    }
  }

  /** A logout of all sessions under way: first the access pattern, then the refresh pattern. dirty
      tells whether the user has got a new session meanwhile. */
  datatype Scan = Idle | Scanning(user: User, refresh: bool, cursor: nat, dirty: bool) | Done(user: User, dirty: bool)

  datatype State = State(now: nat, keys: map<Key, Stored>, used: set<Session>, redeemed: seq<Key>, scan: Scan)

  datatype Step =
    | Tick(delta: nat)
    | Login(user: User, session: Session)
    | Rotate(key: Key, session: Session)
    | Logout(user: User, session: Session)
    | BeginLogoutAll(user: User)
    | ScanBatch
    | EndLogoutAll

  predicate Live(s: State, k: Key) {
    k in s.keys && s.now <= s.keys[k].expiresAt
  }

  function AccessKey(k: Key): Key {
    Access(k.user, k.session)
  }

  /** The two keys of a new session. */
  function NewPair(cfg: Config, now: nat, user: User, session: Session): map<Key, Stored> {
    map[Access(user, session) := Stored(Jwt(user, false, now / 1000 + cfg.accessTtl), now + cfg.accessTtl * 1000),
        Refresh(user, session) := Stored(Jwt(user, true, now / 1000 + cfg.refreshTtl), now + cfg.refreshTtl * 1000)]
  }

  function Touch(scan: Scan, user: User): Scan {
    match scan
    case Idle => scan
    case Scanning(u, refresh, cursor, dirty) => Scanning(u, refresh, cursor, dirty || u == user)
    case Done(u, dirty) => Done(u, dirty || u == user)
  }

  predicate Matches(k: Key, user: User, refresh: bool) {
    k.user == user && k.Refresh? == refresh
  }

  predicate Legal(s: State, step: Step) {
    match step
    case Tick(_) => true
    case Login(_, session) => session !in s.used
    case Rotate(_, session) => session !in s.used
    case Logout(_, _) => true
    case BeginLogoutAll(_) => s.scan.Idle?
    case ScanBatch => s.scan.Scanning?
    case EndLogoutAll => s.scan.Done?
  }

  function Apply(cfg: Config, s: State, step: Step): State
    requires Legal(s, step)
  {
    match step
    case Tick(delta) => s.(now := s.now + delta)
    case Login(user, session) =>
      s.(keys := s.keys + NewPair(cfg, s.now, user, session), used := s.used + {session}, scan := Touch(s.scan, user))
    case Rotate(key, session) =>
      if !Live(s, key) then s
      else if s.now / 1000 >= s.keys[key].jwt.exp then s.(keys := s.keys - {key})
      else if !s.keys[key].jwt.refresh then s
      else
        var user := s.keys[key].jwt.user;
        s.(keys := s.keys + NewPair(cfg, s.now, user, session) - {AccessKey(key), key}, used := s.used + {session},
           redeemed := s.redeemed + [key], scan := Touch(s.scan, user))
    case Logout(user, session) => s.(keys := s.keys - {Access(user, session), Refresh(user, session)})
    case BeginLogoutAll(user) => s.(scan := Scanning(user, false, 0, false))
    case ScanBatch =>
      var c := s.scan;
      var batch := set k | k in s.keys && Matches(k, c.user, c.refresh) && cfg.bucket(k) == c.cursor;
      var next := if c.cursor + 1 < cfg.buckets then c.(cursor := c.cursor + 1)
                  else if !c.refresh then Scanning(c.user, true, 0, c.dirty)
                  else Done(c.user, c.dirty);
      s.(keys := s.keys - batch, scan := next)
    case EndLogoutAll => s.(scan := Idle)
  }

  ghost predicate Run(cfg: Config, s: State, steps: seq<Step>)
    decreases |steps|
  {
    steps == [] || (Legal(s, steps[0]) && Run(cfg, Apply(cfg, s, steps[0]), steps[1..]))
  }

  ghost function Exec(cfg: Config, s: State, steps: seq<Step>): State
    requires Run(cfg, s, steps)
    decreases |steps|
  {
    if steps == [] then s else Exec(cfg, Apply(cfg, s, steps[0]), steps[1..])
  }

  predicate Initial(s: State) {
    s.keys == map[] && s.used == {} && s.redeemed == [] && s.scan == Idle
  }

  // ---------------------------------------------------------------- invariants

  ghost predicate KeysInv(s: State) {
    && (forall k :: k in s.keys ==>
          k.session in s.used && s.keys[k].jwt.user == k.user && s.keys[k].jwt.refresh == k.Refresh?)
    && (forall i :: 0 <= i < |s.redeemed| ==> s.redeemed[i].session in s.used && s.redeemed[i] !in s.keys)
    && (forall i, j :: 0 <= i < j < |s.redeemed| ==> s.redeemed[i] != s.redeemed[j])
  }

  /** Where the scan has passed, nothing of the user is left unless a new session came meanwhile. */
  ghost predicate ScanInv(cfg: Config, s: State) {
    match s.scan
    case Idle => true
    case Scanning(u, refresh, cursor, dirty) =>
      cursor < cfg.buckets && (!dirty ==> forall k :: k in s.keys && k.user == u ==> !Passed(cfg, s.scan, k))
    case Done(u, dirty) => !dirty ==> forall k :: k in s.keys ==> k.user != u
  }

  predicate Passed(cfg: Config, scan: Scan, k: Key)
    requires scan.Scanning?
  {
    (scan.refresh && k.Access?) || (scan.refresh == k.Refresh? && cfg.bucket(k) < scan.cursor)
  }

  predicate Pure(scan: Scan) {
    scan.Idle? || !scan.dirty
  }

  /** The refresh key of a session outlives its access key, and so does the claim inside it. */
  ghost predicate PairInv(s: State) {
    forall u, t :: Access(u, t) in s.keys && s.now <= s.keys[Access(u, t)].expiresAt ==>
      && Refresh(u, t) in s.keys
      && s.keys[Access(u, t)].expiresAt < s.keys[Refresh(u, t)].expiresAt
      && s.keys[Access(u, t)].expiresAt < s.keys[Refresh(u, t)].jwt.exp * 1000
  }

  lemma StepKeys(cfg: Config, s: State, step: Step)
    requires KeysInv(s) && Legal(s, step)
    ensures KeysInv(Apply(cfg, s, step))
  {
    if step.Rotate? { RotateKeys(cfg, s, step.key, step.session); } else { OtherKeys(cfg, s, step); }
  }

  lemma RotateKeys(cfg: Config, s: State, key: Key, session: Session)
    requires KeysInv(s) && Legal(s, Rotate(key, session))
    ensures KeysInv(Apply(cfg, s, Rotate(key, session)))
  {}

  lemma OtherKeys(cfg: Config, s: State, step: Step)
    requires KeysInv(s) && Legal(s, step) && !step.Rotate?
    ensures KeysInv(Apply(cfg, s, step))
  {
    var t := Apply(cfg, s, step);
    assert t.redeemed == s.redeemed && s.used <= t.used;
  }

  lemma KeyOnce(s: State, key: Key)
    requires KeysInv(s)
    ensures key in s.keys ==>
              && key !in s.redeemed && key.session in s.used
              && s.keys[key].jwt.refresh == key.Refresh? && s.keys[key].jwt.user == key.user
  {}

  lemma StepScan(cfg: Config, s: State, step: Step)
    requires cfg.Valid() && KeysInv(s) && ScanInv(cfg, s) && Legal(s, step)
    ensures ScanInv(cfg, Apply(cfg, s, step))
  {}

  lemma StepPair(cfg: Config, s: State, step: Step)
    requires cfg.Valid() && KeysInv(s) && ScanInv(cfg, s) && PairInv(s) && Legal(s, step) && Pure(s.scan)
    ensures PairInv(Apply(cfg, s, step))
  {
    if step.ScanBatch? { BatchPair(cfg, s); }
    else if step.Rotate? { RotatePair(cfg, s, step.key, step.session); }
    else { CallPair(cfg, s, step); }
  }

  lemma BatchPair(cfg: Config, s: State)
    requires ScanInv(cfg, s) && PairInv(s) && Legal(s, ScanBatch) && Pure(s.scan)
    ensures PairInv(Apply(cfg, s, ScanBatch))
  {}

  lemma RotatePair(cfg: Config, s: State, key: Key, session: Session)
    requires cfg.Valid() && KeysInv(s) && PairInv(s) && Legal(s, Rotate(key, session))
    ensures PairInv(Apply(cfg, s, Rotate(key, session)))
  {
    hide ScanInv;
  }

  lemma CallPair(cfg: Config, s: State, step: Step)
    requires cfg.Valid() && KeysInv(s) && PairInv(s) && Legal(s, step) && !step.ScanBatch? && !step.Rotate?
    ensures PairInv(Apply(cfg, s, step))
  {}

  ghost predicate Undisturbed(cfg: Config, s: State, steps: seq<Step>)
    requires Run(cfg, s, steps)
    decreases |steps|
  {
    Pure(s.scan) && (steps == [] || Undisturbed(cfg, Apply(cfg, s, steps[0]), steps[1..]))
  }

  lemma {:induction false} RunInv(cfg: Config, s: State, steps: seq<Step>)
    requires cfg.Valid() && KeysInv(s) && ScanInv(cfg, s) && Run(cfg, s, steps)
    ensures KeysInv(Exec(cfg, s, steps)) && ScanInv(cfg, Exec(cfg, s, steps))
    ensures PairInv(s) && Undisturbed(cfg, s, steps) ==> PairInv(Exec(cfg, s, steps))
    decreases |steps|
  {
    if steps != [] {
      StepKeys(cfg, s, steps[0]);
      StepScan(cfg, s, steps[0]);
      if PairInv(s) && Undisturbed(cfg, s, steps) { StepPair(cfg, s, steps[0]); }
      RunInv(cfg, Apply(cfg, s, steps[0]), steps[1..]);
    }
  }

  // ---------------------------------------------------------------- main results

  /** In every reached state each key holds a token of its own user and kind, no refresh key is redeemed
      twice, and a logout of all sessions that finished without a new session of the user left no key. */
  lemma SessionsSound(cfg: Config, s: State, steps: seq<Step>)
    requires cfg.Valid() && Initial(s) && Run(cfg, s, steps)
    ensures var t := Exec(cfg, s, steps);
            && (forall k :: k in t.keys ==> t.keys[k].jwt.user == k.user && (t.keys[k].jwt.refresh <==> k.Refresh?))
            && (forall i, j :: 0 <= i < j < |t.redeemed| ==> t.redeemed[i] != t.redeemed[j])
            && (t.scan.Done? && !t.scan.dirty ==> forall k :: k in t.keys ==> k.user != t.scan.user)
  {
    RunInv(cfg, s, steps);
  }

  /** A live access key has a live refresh key beside it, as long as nobody gets a new session while all
      of theirs are being logged out. */
  lemma AccessHasRefresh(cfg: Config, s: State, steps: seq<Step>, user: User, session: Session)
    requires cfg.Valid() && Initial(s) && Run(cfg, s, steps) && Undisturbed(cfg, s, steps)
    ensures var t := Exec(cfg, s, steps);
            Live(t, Access(user, session)) ==> Live(t, Refresh(user, session))
  {
    RunInv(cfg, s, steps);
  }

  /** Not a login, rotation, logout or scan of this user. */
  predicate Foreign(s: State, step: Step, user: User)
    requires Legal(s, step)
  {
    && (step.ScanBatch? ==> s.scan.user != user)
    && (step.Login? || step.Logout? ==> step.user != user)
    && (step.Rotate? ==> step.key.user != user)
  }

  ghost predicate AllForeign(cfg: Config, s: State, steps: seq<Step>, user: User)
    requires Run(cfg, s, steps)
    decreases |steps|
  {
    steps == [] || (Foreign(s, steps[0], user) && AllForeign(cfg, Apply(cfg, s, steps[0]), steps[1..], user))
  }

  lemma StepKeepsOthers(cfg: Config, s: State, step: Step, k: Key)
    requires KeysInv(s) && Legal(s, step) && Foreign(s, step, k.user)
    ensures k in Apply(cfg, s, step).keys <==> k in s.keys
    ensures k in s.keys ==> Apply(cfg, s, step).keys[k] == s.keys[k]
  {}

  /** Whatever all other users do, logouts of all sessions included, the keys of a user stay as they are. */
  lemma {:induction false} OthersUntouched(cfg: Config, s: State, steps: seq<Step>, k: Key)
    requires KeysInv(s) && Run(cfg, s, steps) && AllForeign(cfg, s, steps, k.user)
    ensures k in Exec(cfg, s, steps).keys <==> k in s.keys
    ensures k in s.keys ==> Exec(cfg, s, steps).keys[k] == s.keys[k]
    decreases |steps|
  {
    if steps != [] {
      StepKeys(cfg, s, steps[0]);
      StepKeepsOthers(cfg, s, steps[0], k);
      hide Apply, KeysInv;
      OthersUntouched(cfg, Apply(cfg, s, steps[0]), steps[1..], k);
    }
  }

  lemma Granted(cfg: Config, s: State, step: Step, user: User, session: Session)
    requires KeysInv(s) && Legal(s, step) && Grants(s, step, user, session)
    ensures var t := Apply(cfg, s, step);
            && Access(user, session) in t.keys && Refresh(user, session) in t.keys
            && t.keys[Access(user, session)].expiresAt == s.now + 1000 * cfg.accessTtl
            && t.keys[Refresh(user, session)].expiresAt == s.now + 1000 * cfg.refreshTtl
            && t.keys[Access(user, session)].jwt.exp == s.now / 1000 + cfg.accessTtl
            && t.keys[Refresh(user, session)].jwt == Jwt(user, true, s.now / 1000 + cfg.refreshTtl)
  {
    if step.Rotate? { KeyOnce(s, step.key); }
    hide KeysInv;
  }

  lemma ClaimFirst(t: nat, now: nat, ttl: nat)
    requires now / 1000 < t / 1000 + ttl
    ensures now <= t + 1000 * ttl
  {}

  /** How long a session lasts if its user does nothing more, whatever all others do: from the login or the
      rotation that opens it, the access key and the refresh key live for their own lifetimes, and the latter
      can be redeemed exactly as long as its claim, which counts whole seconds, lies in the future. */
  lemma SessionLifetime(cfg: Config, s: State, step: Step, user: User, session: Session, later: seq<Step>,
                        next: Session)
    requires KeysInv(s) && Legal(s, step) && Grants(s, step, user, session)
    requires Run(cfg, Apply(cfg, s, step), later) && AllForeign(cfg, Apply(cfg, s, step), later, user)
    requires next !in Exec(cfg, Apply(cfg, s, step), later).used
    ensures var u := Exec(cfg, Apply(cfg, s, step), later);
            var rotated := Apply(cfg, u, Rotate(Refresh(user, session), next));
            && (Live(u, Access(user, session)) <==> u.now <= s.now + 1000 * cfg.accessTtl)
            && (Live(u, Refresh(user, session)) <==> u.now <= s.now + 1000 * cfg.refreshTtl)
            && (rotated.redeemed == u.redeemed + [Refresh(user, session)] <==>
                u.now / 1000 < s.now / 1000 + cfg.refreshTtl)
  {
    var t := Apply(cfg, s, step);
    Granted(cfg, s, step, user, session);
    StepKeys(cfg, s, step);
    OthersUntouched(cfg, t, later, Access(user, session));
    OthersUntouched(cfg, t, later, Refresh(user, session));
    hide KeysInv, Run, Exec, AllForeign;
    var u := Exec(cfg, t, later);
    if u.now / 1000 < s.now / 1000 + cfg.refreshTtl { ClaimFirst(s.now, u.now, cfg.refreshTtl); }
  }

  /** The batches that a scan still has to go through. */
  function Remaining(cfg: Config, scan: Scan): nat
    requires scan.Scanning? ==> scan.cursor < cfg.buckets
  {
    if !scan.Scanning? then 0
    else cfg.buckets - scan.cursor + if scan.refresh then 0 else cfg.buckets
  }

  /** The rest of a scan with nothing in between. */
  function ScanToEnd(cfg: Config, s: State): State
    requires s.scan.Scanning? ==> s.scan.cursor < cfg.buckets
    decreases Remaining(cfg, s.scan)
  {
    if s.scan.Scanning? then ScanToEnd(cfg, Apply(cfg, s, ScanBatch)) else s
  }

  /** What the rest of a scan removes: the keys of its user that it has not passed yet. */
  lemma {:induction false} ScanToEndKeeps(cfg: Config, s: State, k: Key)
    requires cfg.Valid() && s.scan.Scanning? && s.scan.cursor < cfg.buckets
    ensures ScanToEnd(cfg, s).now == s.now
    ensures k in ScanToEnd(cfg, s).keys <==> k in s.keys && (k.user != s.scan.user || Passed(cfg, s.scan, k))
    ensures k in ScanToEnd(cfg, s).keys ==> ScanToEnd(cfg, s).keys[k] == s.keys[k]
    decreases Remaining(cfg, s.scan)
  {
    var t := Apply(cfg, s, ScanBatch);
    if t.scan.Scanning? { ScanToEndKeeps(cfg, t, k); }
  }

  /** The step gives the user a new session: a login, or the rotation of a live refresh key. */
  predicate Grants(s: State, step: Step, user: User, session: Session)
    requires Legal(s, step)
  {
    match step
    case Login(u, t) => u == user && t == session
    case Rotate(key, t) =>
      Live(s, key) && s.now / 1000 < s.keys[key].jwt.exp && key.Refresh? && key.user == user && t == session
    case _ => false
  }

  predicate Opens(s: State, step: Step, user: User)
    requires Legal(s, step)
  {
    (step.Login? || step.Rotate?) && Grants(s, step, user, step.session)
  }

  ghost predicate OpensNone(cfg: Config, s: State, steps: seq<Step>, user: User)
    requires Run(cfg, s, steps)
    decreases |steps|
  {
    steps == [] || (!Opens(s, steps[0], user) && OpensNone(cfg, Apply(cfg, s, steps[0]), steps[1..], user))
  }

  predicate CleanFor(scan: Scan, user: User) {
    !scan.Idle? && scan.user == user ==> !scan.dirty
  }

  lemma {:induction false} StaysClean(cfg: Config, s: State, steps: seq<Step>, user: User)
    requires cfg.Valid() && KeysInv(s) && Run(cfg, s, steps) && OpensNone(cfg, s, steps, user)
    requires CleanFor(s.scan, user)
    ensures CleanFor(Exec(cfg, s, steps).scan, user)
    decreases |steps|
  {
    if steps != [] {
      StepKeys(cfg, s, steps[0]);
      CleanStep(cfg, s, steps[0], user);
      hide Apply, KeysInv, CleanFor;
      StaysClean(cfg, Apply(cfg, s, steps[0]), steps[1..], user);
    }
  }

  lemma CleanStep(cfg: Config, s: State, step: Step, user: User)
    requires KeysInv(s) && Legal(s, step) && !Opens(s, step, user) && CleanFor(s.scan, user)
    ensures CleanFor(Apply(cfg, s, step).scan, user)
  {
    if step.Rotate? { KeyOnce(s, step.key); }
    hide KeysInv;
  }

  /** A logout of all sessions that has finished, while everybody else went on and the user got no new
      session, has left the user no key. */
  lemma LogoutAllComplete(cfg: Config, s: State, steps: seq<Step>, user: User)
    requires cfg.Valid() && KeysInv(s) && s.scan.Idle? && Run(cfg, s, steps) && OpensNone(cfg, s, steps, user)
    ensures var t := Exec(cfg, s, steps);
            t.scan.Done? && t.scan.user == user ==> forall k :: k in t.keys ==> k.user != user
  {
    StaysClean(cfg, s, steps, user);
    RunInv(cfg, s, steps);
    hide Run, Exec, OpensNone;
  }

  /** A login or a rotation during a logout of all sessions of the same user: the new access key ends up
      without its refresh key exactly when the scan had passed the place of the first but not of the second. */
  lemma GrantDuringScan(cfg: Config, s: State, step: Step, user: User, session: Session)
    requires cfg.Valid() && KeysInv(s) && ScanInv(cfg, s) && s.scan.Scanning? && s.scan.user == user
    requires Legal(s, step) && Grants(s, step, user, session)
    ensures var t := Apply(cfg, s, step);
            && t.scan.Scanning? && t.scan.cursor < cfg.buckets
            && ((Live(ScanToEnd(cfg, t), Access(user, session)) && !Live(ScanToEnd(cfg, t), Refresh(user, session)))
                <==> Passed(cfg, s.scan, Access(user, session)) && !Passed(cfg, s.scan, Refresh(user, session)))
  {
    var t := Apply(cfg, s, step);
    ScanToEndKeeps(cfg, t, Access(user, session));
    ScanToEndKeeps(cfg, t, Refresh(user, session));
    if step.Rotate? { KeyOnce(s, step.key); }
    hide ScanToEnd, ScanInv, KeysInv;
  }

  /** A run in which a login during a logout of all sessions ends with a live access key and no refresh key. */
  lemma LoginLosesRefresh(cfg: Config, s: State, user: User, session: Session) returns (steps: seq<Step>)
    requires cfg.Valid() && cfg.buckets == 1 && Initial(s)
    ensures Run(cfg, s, steps)
    ensures var t := Exec(cfg, s, steps);
            Live(t, Access(user, session)) && Refresh(user, session) !in t.keys && t.scan.Idle?
  {
    steps := [];
    assert Exec(cfg, s, steps) == s;
    hide Run, Exec;
    assert cfg.bucket(Access(user, session)) == 0 && cfg.bucket(Refresh(user, session)) == 0;
    steps := Extend(cfg, s, steps, BeginLogoutAll(user));
    steps := Extend(cfg, s, steps, ScanBatch);
    steps := Extend(cfg, s, steps, Login(user, session));
    steps := Extend(cfg, s, steps, ScanBatch);
    steps := Extend(cfg, s, steps, EndLogoutAll);
  }

  /** One more step at the end of a run. */
  lemma {:induction false} Extend(cfg: Config, s: State, steps: seq<Step>, step: Step) returns (more: seq<Step>)
    requires Run(cfg, s, steps) && Legal(Exec(cfg, s, steps), step)
    ensures Run(cfg, s, more) && Exec(cfg, s, more) == Apply(cfg, Exec(cfg, s, steps), step)
    decreases |steps|
  {
    if steps == [] {
      more := [step];
      assert more[1..] == [];
    } else {
      var tail := Extend(cfg, Apply(cfg, s, steps[0]), steps[1..], step);
      more := [steps[0]] + tail;
      assert more[1..] == tail;
    }
  }

  // ---------------------------------------------------------------- the two commands of a new session

  function Store(s: State, k: Key, stored: Stored): State {
    s.(keys := s.keys[k := stored])
  }

  /** Up to n batches of the scan. */
  function Batches(cfg: Config, s: State, n: nat): State
    decreases n
  {
    if n == 0 || !s.scan.Scanning? then s else Batches(cfg, Apply(cfg, s, ScanBatch), n - 1)
  }

  /** The scan will not come to this key any more. */
  predicate Behind(cfg: Config, scan: Scan, k: Key) {
    scan.Scanning? ==> scan.user != k.user || Passed(cfg, scan, k)
  }

  lemma {:induction false} BatchesEnd(cfg: Config, s: State, n: nat)
    requires cfg.Valid() && (s.scan.Scanning? ==> s.scan.cursor < cfg.buckets)
    ensures var t := Batches(cfg, s, n);
            && (t.scan.Scanning? ==> t.scan.cursor < cfg.buckets)
            && ScanToEnd(cfg, t) == ScanToEnd(cfg, s)
    decreases n
  {
    if n > 0 && s.scan.Scanning? { BatchesEnd(cfg, Apply(cfg, s, ScanBatch), n - 1); }
  }

  lemma EndKeeps(cfg: Config, s: State, k: Key)
    requires cfg.Valid() && (s.scan.Scanning? ==> s.scan.cursor < cfg.buckets)
    ensures k in ScanToEnd(cfg, s).keys <==> k in s.keys && Behind(cfg, s.scan, k)
  {
    if s.scan.Scanning? { ScanToEndKeeps(cfg, s, k); }
  }

  /** The two keys of a new session are stored one after the other, in either order, with batches of a
      logout of all sessions in between: each survives exactly if the scan was past it when it was stored. */
  lemma StoredInTurn(cfg: Config, s: State, first: Key, second: Key, v: Stored, w: Stored, n: nat)
    requires cfg.Valid() && (s.scan.Scanning? ==> s.scan.cursor < cfg.buckets) && first != second
    ensures var between := Batches(cfg, Store(s, first, v), n);
            && (between.scan.Scanning? ==> between.scan.cursor < cfg.buckets)
            && (first in ScanToEnd(cfg, Store(between, second, w)).keys <==> Behind(cfg, s.scan, first))
            && (second in ScanToEnd(cfg, Store(between, second, w)).keys <==> Behind(cfg, between.scan, second))
  {
    var stored := Store(s, first, v);
    var between := Batches(cfg, stored, n);
    BatchesEnd(cfg, stored, n);
    EndKeeps(cfg, stored, first);
    EndKeeps(cfg, between, first);
    EndKeeps(cfg, Store(between, second, w), first);
    EndKeeps(cfg, Store(between, second, w), second);
    hide ScanToEnd, Batches;
  }

  // ---------------------------------------------------------------- the loops of the service

  /** The token store and the calls on it, each run without interruption. */
  class TokenStore {
    const cfg: Config
    var now: nat
    var keys: map<Key, Stored>
    ghost var used: set<Session>
    ghost var redeemed: seq<Key>

    constructor (cfg: Config)
      ensures this.cfg == cfg && Initial(View())
    {
      this.cfg, this.now, this.keys, this.used, this.redeemed := cfg, 0, map[], {}, [];
    }

    /** The state of the protocol with no scan under way. */
    ghost function View(): State
      reads this
    {
      State(now, keys, used, redeemed, Idle)
    }

    method StoreToken(k: Key, jwt: Jwt, ttlSeconds: nat)
      modifies this`keys
      ensures keys == old(keys)[k := Stored(jwt, now + ttlSeconds * 1000)]
    {
      keys := keys[k := Stored(jwt, now + ttlSeconds * 1000)];
    }

    method StorePair(user: User, session: Session)
      modifies this`keys
      ensures keys == old(keys) + NewPair(cfg, now, user, session)
      ensures Access(user, session) in keys && Refresh(user, session) in keys
      ensures keys[Access(user, session)] ==
              Stored(Jwt(user, false, now / 1000 + cfg.accessTtl), now + 1000 * cfg.accessTtl)
      ensures keys[Refresh(user, session)] ==
              Stored(Jwt(user, true, now / 1000 + cfg.refreshTtl), now + 1000 * cfg.refreshTtl)
    {
      StoreToken(Access(user, session), Jwt(user, false, now / 1000 + cfg.accessTtl), cfg.accessTtl);
      StoreToken(Refresh(user, session), Jwt(user, true, now / 1000 + cfg.refreshTtl), cfg.refreshTtl);
    }

    /** The part of a login that follows the credential checks. */
    method SignIn(user: User, session: Session)
      requires Legal(View(), Login(user, session))
      modifies this
      ensures View() == Apply(cfg, old(View()), Login(user, session))
      ensures Live(View(), Access(user, session)) && Live(View(), Refresh(user, session))
      ensures keys[Access(user, session)] ==
              Stored(Jwt(user, false, now / 1000 + cfg.accessTtl), now + 1000 * cfg.accessTtl)
      ensures keys[Refresh(user, session)] ==
              Stored(Jwt(user, true, now / 1000 + cfg.refreshTtl), now + 1000 * cfg.refreshTtl)
    {
      hide NewPair;
      StorePair(user, session);
      used := used + {session};
    }

    /** The new pair is stored before the old one is deleted. */
    method Replace(user: User, key: Key, session: Session)
      modifies this
      ensures now == old(now) && used == old(used) + {session} && redeemed == old(redeemed) + [key]
      ensures keys == old(keys) + NewPair(cfg, now, user, session) - {AccessKey(key), key}
      ensures session != key.session ==> Live(View(), Access(user, session)) && Live(View(), Refresh(user, session))
      ensures session != key.session ==>
                && keys[Access(user, session)] ==
                   Stored(Jwt(user, false, now / 1000 + cfg.accessTtl), now + 1000 * cfg.accessTtl)
                && keys[Refresh(user, session)] ==
                   Stored(Jwt(user, true, now / 1000 + cfg.refreshTtl), now + 1000 * cfg.refreshTtl)
    {
      hide NewPair;
      StorePair(user, session);
      keys := keys - {AccessKey(key), key};
      used := used + {session};
      redeemed := redeemed + [key];
    }

    /** Rotation of a refresh token; every other key, a dead key and an expired claim are refused. */
    method RefreshToken(key: Key, session: Session) returns (ok: bool)
      requires Legal(View(), Rotate(key, session)) && KeysInv(View())
      modifies this
      ensures View() == Apply(cfg, old(View()), Rotate(key, session)) && KeysInv(View())
      ensures ok <==> key.Refresh? && old(Live(View(), key)) && old(now) / 1000 < old(keys)[key].jwt.exp
      ensures ok ==> key !in old(redeemed) && redeemed == old(redeemed) + [key]
      ensures ok ==> Live(View(), Access(key.user, session)) && Live(View(), Refresh(key.user, session))
      ensures ok ==> keys[Access(key.user, session)] ==
                     Stored(Jwt(key.user, false, now / 1000 + cfg.accessTtl), now + 1000 * cfg.accessTtl)
      ensures ok ==> keys[Refresh(key.user, session)] ==
                     Stored(Jwt(key.user, true, now / 1000 + cfg.refreshTtl), now + 1000 * cfg.refreshTtl)
      ensures ok ==> key !in keys && AccessKey(key) !in keys
      ensures !ok ==> keys == old(keys) || (keys == old(keys) - {key} && old(now) / 1000 >= old(keys)[key].jwt.exp)
    {
      hide KeysInv, NewPair;
      StepKeys(cfg, View(), Rotate(key, session));
      KeyOnce(View(), key);
      if key !in keys || now > keys[key].expiresAt { return false; }
      var jwt := keys[key].jwt;
      if now / 1000 >= jwt.exp {
        keys := keys - {key};
        return false;
      }
      if !jwt.refresh { return false; }
      Replace(jwt.user, key, session);
      return true;
    }

    method SignOut(user: User, session: Session)
      modifies this`keys
      ensures View() == Apply(cfg, old(View()), Logout(user, session))
      ensures forall k :: k in keys <==> k in old(keys) && !(k.user == user && k.session == session)
    {
      keys := keys - {Access(user, session), Refresh(user, session)};
    }

    /** One SCAN: the matching keys of the bucket, and the next cursor, zero at the end. */
    method ScanOnce(cursor: nat, user: User, refresh: bool) returns (next: nat, found: set<Key>)
      requires cursor < cfg.buckets
      ensures next == if cursor + 1 < cfg.buckets then cursor + 1 else 0
      ensures found == set k | k in keys && Matches(k, user, refresh) && cfg.bucket(k) == cursor
    {
      next := if cursor + 1 < cfg.buckets then cursor + 1 else 0;
      found := set k | k in keys && Matches(k, user, refresh) && cfg.bucket(k) == cursor;
    }

    /** The do-while loop over one pattern. */
    method DeletePattern(user: User, refresh: bool) returns (deleted: nat)
      requires cfg.Valid()
      modifies this`keys
      ensures keys == old(keys) - Swept(cfg, old(keys), user, refresh, cfg.buckets)
      ensures deleted == |old(keys)| - |keys|
    {
      deleted := 0;
      var cursor := 0;
      var more := true;
      while more
        invariant cursor < cfg.buckets
        invariant keys == old(keys) - Swept(cfg, old(keys), user, refresh, if more then cursor else cfg.buckets)
        invariant deleted == |old(keys)| - |keys|
        decreases more, cfg.buckets - cursor
      {
        var next, found := ScanOnce(cursor, user, refresh);
        RemoveCount(keys, found);
        SweptGrows(cfg, old(keys), user, refresh, cursor);
        keys := keys - found;
        deleted := deleted + |found|;
        cursor := next;
        more := cursor != 0;
      }
    }

    /** Both patterns; the total is the number of keys that are gone. */
    method DeleteAllUserTokens(user: User) returns (totalDeleted: nat)
      requires cfg.Valid()
      modifies this`keys
      ensures forall k :: k in keys <==> k in old(keys) && k.user != user
      ensures forall k :: k in keys ==> keys[k] == old(keys)[k]
      ensures totalDeleted == |old(keys)| - |keys|
    {
      var access := DeletePattern(user, false);
      var refresh := DeletePattern(user, true);
      totalDeleted := access + refresh;
    }
  }

  /** The keys of one pattern in the buckets below cursor. */
  ghost function Swept(cfg: Config, keys: map<Key, Stored>, user: User, refresh: bool, cursor: nat): set<Key> {
    set k | k in keys && Matches(k, user, refresh) && cfg.bucket(k) < cursor
  }

  lemma SweptGrows(cfg: Config, keys: map<Key, Stored>, user: User, refresh: bool, cursor: nat)
    ensures var left := keys - Swept(cfg, keys, user, refresh, cursor);
            var found := set k | k in left && Matches(k, user, refresh) && cfg.bucket(k) == cursor;
            left - found == keys - Swept(cfg, keys, user, refresh, cursor + 1)
  {}

  lemma RemoveCount(keys: map<Key, Stored>, found: set<Key>)
    requires found <= keys.Keys
    ensures |keys - found| == |keys| - |found|
  {
    assert (keys - found).Keys == keys.Keys - found;
    assert |keys.Keys| == |keys| && |(keys - found).Keys| == |keys - found|;
  }
}

/** Single-use password-reset tokens: a forward index from token to user and a back-pointer from user
    to token, with one common time to live. */
module ResetTokens {
  import opened Options

  type User = nat
  type Token = nat

  const TTL_MS: nat := 600_000

  /** A stored string and the last moment at which the key is there. */
  datatype Key<T> = Key(value: T, expiresAt: nat)

  class Service {
    var now: nat
    var forward: map<Token, Key<User>>
    var back: map<User, Key<Token>>
    ghost var issued: set<Token>

    predicate Live(token: Token)
      reads this
    {
      token in forward && now <= forward[token].expiresAt
    }

    /** The user a live token belongs to, or none. */
    function Holder(token: Token): Option<User>
      reads this
    {
      if Live(token) then Some(forward[token].value) else None
    }

    /** A live token is the one its user points back to, and both keys go together. */
    ghost predicate Valid()
      reads this
    {
      && forward.Keys <= issued
      && (forall u :: u in back ==>
            back[u].value in issued && (back[u].value in forward ==> forward[back[u].value].value == u))
      && (forall t :: Live(t) ==> forward[t].value in back && back[forward[t].value] == Key(t, forward[t].expiresAt))
    }

    constructor ()
      ensures Valid() && forward == map[] && issued == {}
    {
      now, forward, back, issued := 0, map[], map[], {};
    }

    method Tick(delta: nat)
      requires Valid()
      modifies this`now
      ensures Valid() && now == old(now) + delta
      ensures forall t :: Holder(t) == old(Holder(t)) || Holder(t) == None
      ensures forall t :: Holder(t) == if t in forward && now <= forward[t].expiresAt then Some(forward[t].value)
                                       else None
    {
      now := now + delta;
    }

    method Revoke(user: User)
      requires Valid()
      modifies this`forward, this`back
      ensures Valid() && (user in back ==> now > back[user].expiresAt)
      ensures forall t :: Holder(t) == if old(Holder(t)) == Some(user) then None else old(Holder(t))
    {
      if user !in back || now > back[user].expiresAt { return; }
      var token := back[user].value;
      forward := forward - {token};
      back := back - {user};
    }

    /** Drawing a token never repeats one. */
    method Issue(user: User, token: Token)
      requires Valid() && token !in issued
      modifies this`forward, this`back, this`issued
      ensures Valid() && issued == old(issued) + {token} && token in forward
      ensures user in back && back[user] == Key(token, now + 600_000) && forward[token] == Key(user, now + 600_000)
      ensures forall t :: Holder(t) ==
                if t == token then Some(user) else if old(Holder(t)) == Some(user) then None else old(Holder(t))
    {
      Revoke(user);
      assert forall t :: Live(t) ==> Holder(t) != Some(user);
      forward := forward[token := Key(user, now + TTL_MS)];
      back := back[user := Key(token, now + TTL_MS)];
      issued := issued + {token};
    }

    /** GETDEL, then a best-effort deletion of the back-pointer that may fail. */
    method Consume(token: Token, cleanupFails: bool) returns (r: Option<User>)
      requires Valid()
      modifies this`forward, this`back
      ensures Valid()
      ensures r == old(Holder(token))
      ensures forall t :: Holder(t) == if t == token then None else old(Holder(t))
      ensures r.Some? ==> forall t :: Holder(t) != r
      ensures r.Some? && !cleanupFails ==> r.value !in back
    {
      if token !in forward || now > forward[token].expiresAt { return None; }
      var user := forward[token].value;
      forward := forward - {token};
      if !cleanupFails { back := back - {user}; }
      return Some(user);
    }

    /** At most one token per user is live. */
    lemma OneLiveToken(t: Token, u: Token)
      requires Valid() && Live(t) && Live(u) && Holder(t) == Holder(u)
      ensures t == u
    {
      assert back[forward[t].value].value == t;
    }
  }
}

/** The commands of concurrent issue, revoke and consume calls, interleaved. */
module ResetTokenRace {
  import opened Options
  import opened ResetTokens

  type Call = nat

  /** A revocation that has read the back-pointer; an issue that has finished revoking; a consumption
      whose back-pointer deletion is outstanding. */
  datatype Pending =
    | Revoking(user: User, seen: Option<Token>, issuing: bool)
    | Minting(user: User)
    | Cleaning(user: User)

  datatype State = State(
    now: nat,
    forward: map<Token, Key<User>>,
    back: map<User, Key<Token>>,
    pending: map<Call, Pending>,
    issued: set<Token>,
    consumed: seq<Token>)

  datatype Step =
    | Tick(delta: nat)
    | ReadBack(c: Call, user: User, issuing: bool)
    | DeleteBoth(c: Call)
    | Mint(c: Call, token: Token)
    | GetDel(c: Call, token: Token)
    | DeleteBack(c: Call, fails: bool)

  predicate Live(s: State, token: Token) {
    token in s.forward && s.now <= s.forward[token].expiresAt
  }

  predicate Legal(s: State, step: Step) {
    match step
    case Tick(_) => true
    case ReadBack(c, _, _) => c !in s.pending
    case DeleteBoth(c) => c in s.pending && s.pending[c].Revoking?
    case Mint(c, token) => c in s.pending && s.pending[c].Minting? && token !in s.issued
    case GetDel(c, _) => c !in s.pending
    case DeleteBack(c, _) => c in s.pending && s.pending[c].Cleaning?
  }

  function Apply(s: State, step: Step): State
    requires Legal(s, step)
  {
    match step
    case Tick(delta) => s.(now := s.now + delta)
    case ReadBack(c, user, issuing) =>
      var seen := if user in s.back && s.now <= s.back[user].expiresAt then Some(s.back[user].value) else None;
      s.(pending := s.pending[c := Revoking(user, seen, issuing)])
    case DeleteBoth(c) =>
      var p := s.pending[c];
      var t := if p.seen.None? then s else s.(forward := s.forward - {p.seen.value}, back := s.back - {p.user});
      t.(pending := if p.issuing then s.pending[c := Minting(p.user)] else s.pending - {c})
    case Mint(c, token) =>
      var user := s.pending[c].user;
      s.(forward := s.forward[token := Key(user, s.now + TTL_MS)], back := s.back[user := Key(token, s.now + TTL_MS)],
         pending := s.pending - {c}, issued := s.issued + {token})
    case GetDel(c, token) =>
      if Live(s, token)
      then s.(forward := s.forward - {token}, consumed := s.consumed + [token],
              pending := s.pending[c := Cleaning(s.forward[token].value)])
      else s
    case DeleteBack(c, fails) =>
      s.(back := if fails then s.back else s.back - {s.pending[c].user}, pending := s.pending - {c})
  }

  ghost predicate Run(s: State, steps: seq<Step>)
    decreases |steps|
  {
    steps == [] || (Legal(s, steps[0]) && Run(Apply(s, steps[0]), steps[1..]))
  }

  ghost function Exec(s: State, steps: seq<Step>): State
    requires Run(s, steps)
    decreases |steps|
  {
    if steps == [] then s else Exec(Apply(s, steps[0]), steps[1..])
  }

  predicate Initial(s: State) {
    s.forward == map[] && s.back == map[] && s.pending == map[] && s.issued == {} && s.consumed == []
  }

  ghost predicate Inv(s: State) {
    && s.forward.Keys <= s.issued
    && (forall i :: 0 <= i < |s.consumed| ==> s.consumed[i] in s.issued && s.consumed[i] !in s.forward)
    && (forall i, j :: 0 <= i < j < |s.consumed| ==> s.consumed[i] != s.consumed[j])
  }

  lemma {:induction false} RunInv(s: State, steps: seq<Step>)
    requires Inv(s) && Run(s, steps)
    ensures Inv(Exec(s, steps))
    decreases |steps|
  {
    if steps != [] { RunInv(Apply(s, steps[0]), steps[1..]); }
  }

  /** Under every interleaving a token is consumed successfully at most once, and a consumed token is
      neither live nor ever live again. */
  lemma ConsumedOnce(s: State, steps: seq<Step>, token: Token)
    requires Initial(s) && Run(s, steps)
    ensures var t := Exec(s, steps);
            multiset(t.consumed)[token] <= 1 && (token in t.consumed ==> token in t.issued && !Live(t, token))
  {
    RunInv(s, steps);
    OnceInSeq(Exec(s, steps).consumed, token);
  }

  lemma {:induction false} OnceInSeq(tokens: seq<Token>, token: Token)
    requires forall i, j :: 0 <= i < j < |tokens| ==> tokens[i] != tokens[j]
    ensures multiset(tokens)[token] <= 1
  {
    if tokens != [] {
      var last := |tokens| - 1;
      assert tokens == tokens[..last] + [tokens[last]];
      OnceInSeq(tokens[..last], token);
      if tokens[last] == token { assert token !in tokens[..last]; }
    }
  }

  /** A GETDEL that finds its token live is the success of that call, and of no later one. */
  lemma SuccessIsLast(s: State, steps: seq<Step>, c: Call, token: Token, later: seq<Step>)
    requires Initial(s) && Run(s, steps) && Legal(Exec(s, steps), GetDel(c, token)) && Live(Exec(s, steps), token)
    requires Run(Apply(Exec(s, steps), GetDel(c, token)), later)
    ensures var t, u := Exec(s, steps), Apply(Exec(s, steps), GetDel(c, token));
            && u.consumed == t.consumed + [token] && u.pending == t.pending[c := Cleaning(t.forward[token].value)]
            && !Live(Exec(u, later), token)
  {
    RunInv(s, steps);
    EntryStays(Apply(Exec(s, steps), GetDel(c, token)), later, token);
  }

  /** An entry of a token that was issued is never written again. */
  lemma {:induction false} EntryStays(s: State, steps: seq<Step>, token: Token)
    requires Run(s, steps) && token in s.issued
    ensures var t := Exec(s, steps);
            token in t.forward ==> token in s.forward && t.forward[token] == s.forward[token]
    decreases |steps|
  {
    if steps != [] { EntryStays(Apply(s, steps[0]), steps[1..], token); }
  }

  /** A new token is its user's and nobody else's, and is good for ten minutes from its minting at most: for
      just that long unless it is deleted first. */
  lemma TokenLifetime(s: State, c: Call, token: Token, steps: seq<Step>)
    requires Legal(s, Mint(c, token)) && Run(Apply(s, Mint(c, token)), steps)
    ensures var t := Exec(Apply(s, Mint(c, token)), steps);
            && (Live(t, token) <==> token in t.forward && t.now <= s.now + 600_000)
            && (token in t.forward ==> t.forward[token].value == s.pending[c].user)
  {
    EntryStays(Apply(s, Mint(c, token)), steps, token);
  }

  // ---------------------------------------------------------------- one live token per user

  ghost predicate SingleActive(s: State, user: User) {
    forall t, u :: Live(s, t) && Live(s, u) && s.forward[t].value == user == s.forward[u].value ==> t == u
  }

  /** The back-pointer of the user names a live token. */
  predicate PointsLive(s: State, user: User) {
    user in s.back && Live(s, s.back[user].value)
  }

  /** A token that a back-pointer names was issued, and to that user. */
  ghost predicate BackInv(s: State) {
    && s.forward.Keys <= s.issued
    && forall u :: u in s.back ==>
         s.back[u].value in s.issued && (s.back[u].value in s.forward ==> s.forward[s.back[u].value].value == u)
  }

  /** Every live token is the one its user points back to, and both keys go together. */
  ghost predicate Pointed(s: State) {
    forall t :: Live(s, t) ==>
      s.forward[t].value in s.back && s.back[s.forward[t].value] == Key(t, s.forward[t].expiresAt)
  }

  lemma PointedIsSingle(s: State, user: User)
    requires Pointed(s)
    ensures SingleActive(s, user)
  {
    forall t, u | Live(s, t) && Live(s, u) && s.forward[t].value == user == s.forward[u].value ensures t == u {
      assert s.back[user].value == t;
    }
  }

  /** The steps that leave a live token without its back-pointer: writing a new token, or cleaning up after
      a consumption, while the back-pointer names a live one; and a revocation that deletes the
      back-pointer when that names a live token other than the one it read. */
  predicate Breaks(s: State, step: Step)
    requires Legal(s, step)
  {
    match step
    case Mint(c, _) => PointsLive(s, s.pending[c].user)
    case DeleteBack(c, fails) => !fails && PointsLive(s, s.pending[c].user)
    case DeleteBoth(c) =>
      var p := s.pending[c];
      p.seen.Some? && PointsLive(s, p.user) && s.back[p.user].value != p.seen.value
    case _ => false
  }

  /** A step keeps every live token pointed to exactly when it is not one of those. */
  lemma PointedStep(s: State, step: Step)
    requires BackInv(s) && Pointed(s) && Legal(s, step)
    ensures BackInv(Apply(s, step))
    ensures Pointed(Apply(s, step)) <==> !Breaks(s, step)
  {
    var t := Apply(s, step);
    if Breaks(s, step) {
      var lost := s.back[s.pending[step.c].user].value;
      assert Live(t, lost) && t.forward[lost].value == s.pending[step.c].user;
    } else {
      forall u | Live(t, u)
        ensures t.forward[u].value in t.back && t.back[t.forward[u].value] == Key(u, t.forward[u].expiresAt)
      {
        if Live(s, u) { assert s.back[s.forward[u].value].value == u; }
      }
    }
  }

  ghost predicate NeverBreaks(s: State, steps: seq<Step>)
    requires Run(s, steps)
    decreases |steps|
  {
    steps == [] || (!Breaks(s, steps[0]) && NeverBreaks(Apply(s, steps[0]), steps[1..]))
  }

  ghost predicate AlwaysPointed(s: State, steps: seq<Step>)
    requires Run(s, steps)
    decreases |steps|
  {
    Pointed(s) && (steps == [] || AlwaysPointed(Apply(s, steps[0]), steps[1..]))
  }

  /** Whatever the interleaving, every live token is pointed to at every moment of a run exactly when the
      run has no such step; and then no user has two. */
  lemma {:induction false} NoBreakNoSecond(s: State, steps: seq<Step>, user: User)
    requires BackInv(s) && Pointed(s) && Run(s, steps)
    ensures AlwaysPointed(s, steps) <==> NeverBreaks(s, steps)
    ensures NeverBreaks(s, steps) ==> SingleActive(Exec(s, steps), user)
    decreases |steps|
  {
    if steps == [] {
      PointedIsSingle(s, user);
    } else {
      PointedStep(s, steps[0]);
      if !Breaks(s, steps[0]) { NoBreakNoSecond(Apply(s, steps[0]), steps[1..], user); }
    }
  }

  // ---------------------------------------------------------------- calls that overlap per user only

  predicate Busy(s: State, user: User) {
    exists c :: c in s.pending && s.pending[c].user == user
  }

  /** No call of a user begins before the previous one of the same user has finished. */
  ghost predicate OnePerUser(s: State, steps: seq<Step>)
    requires Run(s, steps)
    decreases |steps|
  {
    steps == [] || (Begins(s, steps[0]) && OnePerUser(Apply(s, steps[0]), steps[1..]))
  }

  predicate Begins(s: State, step: Step) {
    && (step.ReadBack? ==> !Busy(s, step.user))
    && (step.GetDel? && Live(s, step.token) ==> !Busy(s, s.forward[step.token].value))
  }

  /** A call under way still knows what its user points back to. */
  ghost predicate Fresh(s: State) {
    && (forall c, d :: c in s.pending && d in s.pending && s.pending[c].user == s.pending[d].user ==> c == d)
    && (forall c :: c in s.pending ==> CallFresh(s, s.pending[c]))
  }

  predicate CallFresh(s: State, p: Pending) {
    match p
    case Revoking(user, seen, _) => PointsLive(s, user) ==> seen == Some(s.back[user].value)
    case Minting(user) => !PointsLive(s, user)
    case Cleaning(user) => !PointsLive(s, user)
  }

  lemma FreshStep(s: State, step: Step)
    requires BackInv(s) && Pointed(s) && Fresh(s) && Legal(s, step) && Begins(s, step)
    ensures !Breaks(s, step) && Fresh(Apply(s, step))
  {
    var t := Apply(s, step);
    forall c | c in t.pending ensures CallFresh(t, t.pending[c]) {
      if c in s.pending { assert CallFresh(s, s.pending[c]); }
    }
  }

  /** Calls of different users may overlap freely: as long as those of one user do not, no step breaks
      the pointing, and no user ever has two live tokens. */
  lemma {:induction false} OneCallPerUser(s: State, steps: seq<Step>, user: User)
    requires BackInv(s) && Pointed(s) && Fresh(s) && Run(s, steps) && OnePerUser(s, steps)
    ensures NeverBreaks(s, steps) && SingleActive(Exec(s, steps), user)
    decreases |steps|
  {
    if steps == [] {
      PointedIsSingle(s, user);
    } else {
      FreshStep(s, steps[0]);
      PointedStep(s, steps[0]);
      OneCallPerUser(Apply(s, steps[0]), steps[1..], user);
    }
  }

  lemma InitialPointed(s: State)
    requires Initial(s)
    ensures Inv(s) && BackInv(s) && Pointed(s) && Fresh(s)
  {}

  /** From the start: every live token is pointed to at every moment exactly in the runs without such a
      step, and these never have two for a user. */
  lemma PointedFromStart(s: State, steps: seq<Step>, user: User)
    requires Initial(s) && Run(s, steps)
    ensures AlwaysPointed(s, steps) <==> NeverBreaks(s, steps)
    ensures NeverBreaks(s, steps) ==> SingleActive(Exec(s, steps), user)
  {
    InitialPointed(s);
    NoBreakNoSecond(s, steps, user);
  }

  /** From the start: calls of different users may overlap freely. */
  lemma OneCallPerUserFromStart(s: State, steps: seq<Step>, user: User)
    requires Initial(s) && Run(s, steps) && OnePerUser(s, steps)
    ensures AlwaysPointed(s, steps) && AlwaysSingle(s, steps, user)
  {
    InitialPointed(s);
    OneCallPerUser(s, steps, user);
    NoBreakNoSecond(s, steps, user);
    PointedSingle(s, steps, user);
  }

  lemma {:induction false} PointedSingle(s: State, steps: seq<Step>, user: User)
    requires Run(s, steps) && AlwaysPointed(s, steps)
    ensures AlwaysSingle(s, steps, user)
    decreases |steps|
  {
    PointedIsSingle(s, user);
    if steps != [] { PointedSingle(Apply(s, steps[0]), steps[1..], user); }
  }

  // ---------------------------------------------------------------- exactly when a second token appears

  /** The step writes a new token for the user while another is live. */
  ghost predicate Seconds(s: State, step: Step, user: User)
    requires Legal(s, step)
  {
    step.Mint? && s.pending[step.c].user == user && exists t :: Live(s, t) && s.forward[t].value == user
  }

  /** A step keeps one live token per user exactly when it is not such a step: writing a token is the only
      one that can add a second. */
  lemma SingleStep(s: State, step: Step, user: User)
    requires Inv(s) && SingleActive(s, user) && Legal(s, step)
    ensures Inv(Apply(s, step))
    ensures SingleActive(Apply(s, step), user) <==> !Seconds(s, step, user)
  {
    var t := Apply(s, step);
    if step.Mint? {
      var owner := s.pending[step.c].user;
      assert Live(t, step.token) && t.forward[step.token].value == owner;
      forall u | Live(s, u) ensures Live(t, u) && u != step.token && t.forward[u] == s.forward[u] {}
    } else {
      forall u | Live(t, u) ensures Live(s, u) && t.forward[u] == s.forward[u] {}
    }
  }

  ghost predicate NeverSeconds(s: State, steps: seq<Step>, user: User)
    requires Run(s, steps)
    decreases |steps|
  {
    steps == [] || (!Seconds(s, steps[0], user) && NeverSeconds(Apply(s, steps[0]), steps[1..], user))
  }

  ghost predicate AlwaysSingle(s: State, steps: seq<Step>, user: User)
    requires Run(s, steps)
    decreases |steps|
  {
    SingleActive(s, user) && (steps == [] || AlwaysSingle(Apply(s, steps[0]), steps[1..], user))
  }

  /** Under every interleaving a user has at most one live token at every moment of a run if and only if no
      token is written for the user in it while another is live. */
  lemma {:induction false} SingleRun(s: State, steps: seq<Step>, user: User)
    requires Inv(s) && SingleActive(s, user) && Run(s, steps)
    ensures AlwaysSingle(s, steps, user) <==> NeverSeconds(s, steps, user)
    decreases |steps|
  {
    if steps != [] {
      SingleStep(s, steps[0], user);
      if !Seconds(s, steps[0], user) { SingleRun(Apply(s, steps[0]), steps[1..], user); }
    }
  }

  lemma SingleFromStart(s: State, steps: seq<Step>, user: User)
    requires Initial(s) && Run(s, steps)
    ensures AlwaysSingle(s, steps, user) <==> NeverSeconds(s, steps, user)
  {
    InitialPointed(s);
    PointedIsSingle(s, user);
    SingleRun(s, steps, user);
  }

  /** The step in itself: a new token is the user's only one exactly when the user had none. */
  lemma MintKeepsSingleIff(s: State, c: Call, token: Token)
    requires Inv(s) && Legal(s, Mint(c, token))
    ensures SingleActive(Apply(s, Mint(c, token)), s.pending[c].user) <==>
            forall t :: Live(s, t) ==> s.forward[t].value != s.pending[c].user
  {
    var t := Apply(s, Mint(c, token));
    var user := s.pending[c].user;
    assert Live(t, token) && t.forward[token].value == user;
    forall u | Live(s, u) ensures Live(t, u) && u != token && t.forward[u] == s.forward[u] {}
  }

  // ---------------------------------------------------------------- three ways to two live tokens

  /** One more step at the end of a run. */
  lemma {:induction false} Extend(s: State, steps: seq<Step>, step: Step) returns (more: seq<Step>)
    requires Run(s, steps) && Legal(Exec(s, steps), step)
    ensures Run(s, more) && Exec(s, more) == Apply(Exec(s, steps), step)
    decreases |steps|
  {
    if steps == [] {
      more := [step];
      assert more[1..] == [];
    } else {
      var tail := Extend(Apply(s, steps[0]), steps[1..], step);
      more := [steps[0]] + tail;
      assert more[1..] == tail;
    }
  }

  /** A whole issue for a user whose back-pointer is gone, or names a token to be replaced. */
  lemma Issue(s: State, steps: seq<Step>, c: Call, user: User, token: Token) returns (more: seq<Step>)
    requires Run(s, steps)
    requires var t := Exec(s, steps);
             c !in t.pending && token !in t.issued && (user in t.back ==> t.now <= t.back[user].expiresAt)
    ensures Run(s, more)
    ensures var t, u := Exec(s, steps), Exec(s, more);
            && u.now == t.now && u.pending == t.pending && u.issued == t.issued + {token}
            && u.back == t.back[user := Key(token, t.now + TTL_MS)]
            && u.forward == (if user in t.back then t.forward - {t.back[user].value} else t.forward)
                            [token := Key(user, t.now + TTL_MS)]
  {
    hide Run, Exec;
    var t := Exec(s, steps);
    more := Extend(s, steps, ReadBack(c, user, true));
    more := Extend(s, more, DeleteBoth(c));
    more := Extend(s, more, Mint(c, token));
    assert Exec(s, more).pending == t.pending;
  }

  /** Two overlapping issues. */
  lemma OverlapBreaksSingle(s: State, user: User) returns (steps: seq<Step>)
    requires Initial(s)
    ensures Run(s, steps) && !SingleActive(Exec(s, steps), user)
  {
    steps := [];
    assert Exec(s, steps) == s;
    hide Run, Exec;
    steps := Extend(s, steps, ReadBack(0, user, true));
    steps := Extend(s, steps, ReadBack(1, user, true));
    steps := Extend(s, steps, DeleteBoth(0));
    steps := Extend(s, steps, DeleteBoth(1));
    steps := Extend(s, steps, Mint(0, 10));
    steps := Extend(s, steps, Mint(1, 11));
    assert Live(Exec(s, steps), 10) && Live(Exec(s, steps), 11);
  }

  /** No two issues overlap, but the cleanup of a consumption comes after the next issue. */
  lemma LateCleanupBreaksSingle(s: State, user: User) returns (steps: seq<Step>)
    requires Initial(s)
    ensures Run(s, steps) && !SingleActive(Exec(s, steps), user)
  {
    steps := [];
    assert Exec(s, steps) == s;
    hide Run, Exec;
    steps := Issue(s, steps, 0, user, 10);
    steps := Extend(s, steps, GetDel(1, 10));
    steps := Issue(s, steps, 0, user, 11);
    steps := Extend(s, steps, DeleteBack(1, false));
    steps := Issue(s, steps, 0, user, 12);
    assert Live(Exec(s, steps), 11) && Live(Exec(s, steps), 12);
  }

  /** No two issues overlap, but the deletion of a forgot-password comes after the next issue. */
  lemma LateRevokeBreaksSingle(s: State, user: User) returns (steps: seq<Step>)
    requires Initial(s)
    ensures Run(s, steps) && !SingleActive(Exec(s, steps), user)
  {
    steps := [];
    assert Exec(s, steps) == s;
    hide Run, Exec;
    steps := Issue(s, steps, 0, user, 10);
    steps := Extend(s, steps, ReadBack(1, user, false));
    steps := Issue(s, steps, 0, user, 11);
    steps := Extend(s, steps, DeleteBoth(1));
    steps := Issue(s, steps, 0, user, 12);
    assert Live(Exec(s, steps), 11) && Live(Exec(s, steps), 12);
  }
}

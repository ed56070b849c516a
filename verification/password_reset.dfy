/** The password-reset flow: forgot password, verify the emailed code, reset with the token that the
    verification hands out. Calls do not overlap; the clock is the one the token keys expire by. */
module PasswordReset {
  import opened Options
  import opened ResetTokens

  type Code = nat

  const OTP_TTL_MS: nat := 600_000

  /** The code of a user and the last moment at which it is accepted. */
  datatype Otp = Otp(code: Code, expiresAt: nat)

  datatype Event =
    | Forgot(user: User, otp: Otp)
    | Verified(user: User, token: Token, otp: Otp, at: nat)
    | Reset(user: User, token: Token)

  /** No event of the user strictly between i and j. */
  ghost predicate Quiet(trace: seq<Event>, user: User, i: int, j: int) {
    forall k :: 0 <= k < |trace| && i < k < j ==> trace[k].user != user
  }

  /** Event i is the verification that handed out this token, against a code not expired then, and
      nothing has happened for the user between it and position j. */
  ghost predicate Granted(trace: seq<Event>, user: User, token: Token, i: int, j: int) {
    && 0 <= i < |trace| && i < j
    && trace[i].Verified? && trace[i].user == user && trace[i].token == token
    && trace[i].at <= trace[i].otp.expiresAt
    && Quiet(trace, user, i, j)
  }

  /** Event i sent the user this code, and up to position j the user has been sent no other and has not
      reset the password. */
  ghost predicate Asked(trace: seq<Event>, user: User, otp: Otp, i: int, j: int) {
    && 0 <= i < |trace| && i < j && trace[i] == Forgot(user, otp)
    && forall k :: 0 <= k < |trace| && i < k < j ==> trace[k].user == user ==> trace[k].Verified?
  }

  ghost predicate Entitled(trace: seq<Event>, user: User, token: Token) {
    exists i :: Granted(trace, user, token, i, |trace|)
  }

  ghost predicate Sent(trace: seq<Event>, user: User, otp: Otp) {
    exists i :: Asked(trace, user, otp, i, |trace|)
  }

  ghost predicate Justified(trace: seq<Event>, j: int)
    requires 0 <= j < |trace|
  {
    match trace[j]
    case Forgot(_, _) => true
    case Verified(user, _, otp, at) => at <= otp.expiresAt && exists i :: Asked(trace, user, otp, i, j)
    case Reset(user, token) => exists i :: Granted(trace, user, token, i, j)
  }

  ghost predicate Lawful(trace: seq<Event>) {
    forall j :: 0 <= j < |trace| ==> Justified(trace, j)
  }

  /** The flow over the token service. What a lookup of a user by email finds, and whether a write to the
      user row succeeds, are inputs. */
  class Flow {
    const tokens: Service
    var otps: map<User, Otp>
    var passwords: map<User, nat>
    ghost var trace: seq<Event>

    ghost predicate Valid()
      reads this, tokens
    {
      && tokens.Valid()
      && Lawful(trace)
      && (forall t :: tokens.Holder(t).Some? ==> Entitled(trace, tokens.Holder(t).value, t))
      && (forall u :: u in otps ==> Sent(trace, u, otps[u]))
    }

    constructor ()
      ensures Valid() && fresh(tokens) && trace == [] && otps == map[] && passwords == map[]
    {
      tokens := new Service();
      otps, passwords, trace := map[], map[], [];
    }

    /** The live token of a found user goes first, then the new code is written. */
    method ForgotPassword(found: Option<User>, code: Code, writes: bool)
      requires Valid()
      modifies this, tokens
      ensures Valid() && passwords == old(passwords)
      ensures var otp := Otp(code, tokens.now + 600_000);
              if found.Some? && writes
              then otps == old(otps)[found.value := otp] && trace == old(trace) + [Forgot(found.value, otp)]
              else otps == old(otps) && trace == old(trace)
      ensures forall t :: tokens.Holder(t) ==
                if found.Some? && old(tokens.Holder(t)) == found then None else old(tokens.Holder(t))
    {
      if found.None? { return; }
      var user := found.value;
      tokens.Revoke(user);
      if !writes { return; }
      var otp := Otp(code, tokens.now + OTP_TTL_MS);
      otps := otps[user := otp];
      Snoc(trace, Forgot(user, otp));
      trace := trace + [Forgot(user, otp)];
      assert Asked(trace, user, otp, |trace| - 1, |trace|);
    }

    /** A wrong, missing or expired code fails; otherwise a fresh token replaces any earlier one. The
        code stays, so it can be verified again until it expires or the password is reset. */
    method VerifyOtp(found: Option<User>, code: Code, draw: Token) returns (r: Option<Token>)
      requires Valid() && draw !in tokens.issued
      modifies this, tokens
      ensures Valid() && otps == old(otps) && passwords == old(passwords)
      ensures r.Some? <==> found.Some? && found.value in otps
                           && otps[found.value].code == code && old(tokens.now) <= otps[found.value].expiresAt
      ensures r.Some? ==>
                && r == Some(draw) && tokens.Holder(draw) == found
                && (forall t :: tokens.Holder(t) == found ==> t == draw)
                && trace == old(trace) + [Verified(found.value, draw, otps[found.value], old(tokens.now))]
      ensures r.None? ==> trace == old(trace) && forall t :: tokens.Holder(t) == old(tokens.Holder(t))
    {
      if found.None? { return None; }
      var user := found.value;
      if user !in otps || otps[user].code != code { return None; }
      if otps[user].expiresAt < tokens.now { return None; }
      ghost var event := Verified(user, draw, otps[user], tokens.now);
      Snoc(trace, event);
      tokens.Issue(user, draw);
      trace := trace + [event];
      assert Granted(trace, user, draw, |trace| - 1, |trace|);
      return Some(draw);
    }

    /** The token is consumed first, and stays so if the write fails. A reset clears the code, so afterwards
        the user has neither a live token nor a code. */
    method ResetPassword(token: Token, password: nat, cleanupFails: bool, writes: bool) returns (ok: bool)
      requires Valid()
      modifies this, tokens
      ensures Valid()
      ensures ok <==> old(tokens.Holder(token)).Some? && writes
      ensures ok ==> var user := old(tokens.Holder(token)).value;
                     && trace == old(trace) + [Reset(user, token)]
                     && passwords == old(passwords)[user := password]
                     && otps == old(otps) - {user}
                     && forall t :: tokens.Holder(t) != Some(user)
      ensures !ok ==> trace == old(trace) && passwords == old(passwords) && otps == old(otps)
      ensures forall t :: tokens.Holder(t) == if t == token then None else old(tokens.Holder(t))
    {
      var holder := tokens.Consume(token, cleanupFails);
      if holder.None? || !writes { return false; }
      var user := holder.value;
      Snoc(trace, Reset(user, token));
      passwords := passwords[user := password];
      otps := otps - {user};
      trace := trace + [Reset(user, token)];
      return true;
    }

    method Tick(delta: nat)
      requires Valid()
      modifies tokens`now
      ensures Valid() && tokens.now == old(tokens.now) + delta
    {
      tokens.Tick(delta);
    }

    /** After any calls: every successful reset goes back to its own verification and the forgot-password
        whose code that was given, as described below. */
    lemma ResetMatched(j: nat) returns (k: nat, i: nat)
      requires Valid() && j < |trace| && trace[j].Reset?
      ensures Granted(trace, trace[j].user, trace[j].token, i, j)
      ensures k < i && Asked(trace, trace[j].user, trace[i].otp, k, i)
      ensures forall i', j' :: Later(trace, j, j') && Granted(trace, trace[j'].user, trace[j'].token, i', j') ==>
                i < j < i'
    {
      k, i := MatchedIn(trace, j);
    }

    /** After any calls: between two successful resets of a user lies a forgot-password of that user. */
    lemma ResetNeedsForgot(j: nat, j': nat) returns (k: nat)
      requires Valid() && j < j' < |trace|
      requires trace[j].Reset? && trace[j'].Reset? && trace[j].user == trace[j'].user
      ensures j < k < j' && trace[k].Forgot? && trace[k].user == trace[j].user
    {
      k := ForgotIn(trace, j, j');
    }
  }

  // ---------------------------------------------------------------- how a trace grows

  /** An event that is justified at the end keeps the trace lawful, leaves the grants of other users
      standing, and leaves the codes standing of everybody whom it neither sends a new one nor resets. */
  lemma Snoc(trace: seq<Event>, e: Event)
    requires Lawful(trace)
    requires e.Verified? ==> Sent(trace, e.user, e.otp) && e.at <= e.otp.expiresAt
    requires e.Reset? ==> Entitled(trace, e.user, e.token)
    ensures Lawful(trace + [e])
    ensures forall u, t :: u != e.user && Entitled(trace, u, t) ==> Entitled(trace + [e], u, t)
    ensures forall u, o :: Sent(trace, u, o) && (e.user == u ==> e.Verified?) ==> Sent(trace + [e], u, o)
  {
    var more := trace + [e];
    forall j | 0 <= j < |more| ensures Justified(more, j) {
      if j < |trace| { JustifiedStays(trace, e, j); } else { JustifiedLast(trace, e); }
    }
    forall u, t | u != e.user && Entitled(trace, u, t) ensures Entitled(more, u, t) {
      var i :| Granted(trace, u, t, i, |trace|);
      assert Granted(more, u, t, i, |more|);
    }
    forall u, o | Sent(trace, u, o) && (e.user == u ==> e.Verified?) ensures Sent(more, u, o) {
      var i :| Asked(trace, u, o, i, |trace|);
      assert Asked(more, u, o, i, |more|);
    }
  }

  lemma JustifiedStays(trace: seq<Event>, e: Event, j: nat)
    requires j < |trace| && Justified(trace, j)
    ensures Justified(trace + [e], j)
  {
    match trace[j]
    case Forgot(_, _) =>
    case Verified(user, _, otp, _) =>
      var i :| Asked(trace, user, otp, i, j);
      assert Asked(trace + [e], user, otp, i, j);
    case Reset(user, token) =>
      var i :| Granted(trace, user, token, i, j);
      assert Granted(trace + [e], user, token, i, j);
  }

  lemma JustifiedLast(trace: seq<Event>, e: Event)
    requires e.Verified? ==> Sent(trace, e.user, e.otp) && e.at <= e.otp.expiresAt
    requires e.Reset? ==> Entitled(trace, e.user, e.token)
    ensures Justified(trace + [e], |trace|)
  {
    if e.Verified? {
      var i :| Asked(trace, e.user, e.otp, i, |trace|);
      assert Asked(trace + [e], e.user, e.otp, i, |trace|);
    } else if e.Reset? {
      var i :| Granted(trace, e.user, e.token, i, |trace|);
      assert Granted(trace + [e], e.user, e.token, i, |trace|);
    }
  }

  // ---------------------------------------------------------------- what a lawful trace says

  /** Another reset of the same user further on. */
  ghost predicate Later(trace: seq<Event>, j: int, j': int)
    requires 0 <= j < |trace|
  {
    j < j' < |trace| && trace[j'].Reset? && trace[j'].user == trace[j].user
  }

  /** Every reset j goes back to one verification i of the same user and token with no event of the user in
      between, and that to the forgot-password k that sent the very code it was given, unexpired then and not
      replaced since. Two resets of a user go back to two verifications. */
  lemma MatchedIn(trace: seq<Event>, j: nat) returns (k: nat, i: nat)
    requires Lawful(trace) && j < |trace| && trace[j].Reset?
    ensures Granted(trace, trace[j].user, trace[j].token, i, j)
    ensures k < i && Asked(trace, trace[j].user, trace[i].otp, k, i)
    ensures forall i', j' :: Later(trace, j, j') && Granted(trace, trace[j'].user, trace[j'].token, i', j') ==>
              i < j < i'
  {
    assert Justified(trace, j);
    var g :| Granted(trace, trace[j].user, trace[j].token, g, j);
    i := g;
    assert Justified(trace, i);
    var a :| Asked(trace, trace[i].user, trace[i].otp, a, i);
    k := a;
  }

  /** Between two resets of a user lies a forgot-password of that user. */
  lemma ForgotIn(trace: seq<Event>, j: nat, j': nat) returns (k: nat)
    requires Lawful(trace) && j < j' < |trace|
    requires trace[j].Reset? && trace[j'].Reset? && trace[j].user == trace[j'].user
    ensures j < k < j' && trace[k].Forgot? && trace[k].user == trace[j].user
  {
    var i;
    k, i := MatchedIn(trace, j');
  }
}

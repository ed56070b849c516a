/** The user DAO over one table and the two cache tiers of one process. Calls do not overlap and every
    invalidation completes before the next call. */
module UserDao {
  import opened Options

  type Id = nat
  type Email = nat

  /** The public projection of a user. */
  datatype PublicUser = PublicUser(id: Id, name: nat, email: Email, verified: bool, updatedAt: nat)

  datatype Secret = Secret(
    password: nat,
    verificationOtp: Option<nat>,
    resetOtp: Option<nat>,
    pendingEmail: Option<Email>)

  datatype Row = Row(user: PublicUser, secret: Secret)

  /** The fields an update may set. */
  datatype Changes = Changes(name: Option<nat>, email: Option<Email>, verified: Option<bool>, secret: Option<Secret>)

  datatype CacheKey = ById(id: Id) | ByEmail(email: Email)

  function Or<T>(o: Option<T>, default: T): T {
    if o.Some? then o.value else default
  }

  /** The row after an update at `now`; updatedAt is stamped by the database client. */
  function Updated(row: Row, c: Changes, now: nat): Row {
    var user := PublicUser(row.user.id, Or(c.name, row.user.name), Or(c.email, row.user.email),
                           Or(c.verified, row.user.verified), now);
    Row(user, Or(c.secret, row.secret))
  }

  /** The field has the value it was set to, or the one it had. */
  predicate Assigned<T(==)>(after: T, before: T, change: Option<T>) {
    (change.Some? ==> after == change.value) && (change.None? ==> after == before)
  }

  /** The row changed in the fields that are set, and in its stamp. */
  predicate Applied(before: Row, after: Row, c: Changes, now: nat) {
    && after.user.id == before.user.id && after.user.updatedAt == now
    && Assigned(after.user.name, before.user.name, c.name)
    && Assigned(after.user.email, before.user.email, c.email)
    && Assigned(after.user.verified, before.user.verified, c.verified)
    && Assigned(after.secret, before.secret, c.secret)
  }

  lemma UpdatedApplies(row: Row, c: Changes, now: nat)
    ensures Applied(row, Updated(row, c, now), c, now)
  {}

  // ---------------------------------------------------------------- what the caches promise

  ghost predicate Table(rows: map<Id, Row>) {
    && (forall id :: id in rows ==> rows[id].user.id == id)
    && (forall i, j :: i in rows && j in rows && rows[i].user.email == rows[j].user.email ==> i == j)
    && (forall i, j :: i in rows && j in rows && SamePending(rows[i], rows[j]) ==> i == j)
  }

  predicate SamePending(a: Row, b: Row) {
    a.secret.pendingEmail.Some? && a.secret.pendingEmail == b.secret.pendingEmail
  }

  /** No other row has this email, or this pending one; both columns are unique. */
  predicate EmailFree(rows: map<Id, Row>, id: Id, email: Option<Email>) {
    email.Some? ==> forall i :: i in rows && i != id ==> rows[i].user.email != email.value
  }

  predicate PendingFree(rows: map<Id, Row>, id: Id, pending: Option<Email>) {
    pending.Some? ==> forall i :: i in rows && i != id ==> rows[i].secret.pendingEmail != pending
  }

  function PendingOf(c: Changes): Option<Email> {
    if c.secret.Some? then c.secret.value.pendingEmail else None
  }

  /** Every entry under an id is that row's current projection. */
  ghost predicate IdsCurrent(rows: map<Id, Row>, tier: map<CacheKey, PublicUser>) {
    forall id :: ById(id) in tier ==> id in rows && tier[ById(id)] == rows[id].user
  }

  /** Every entry under an email names the user who owns that email now. */
  ghost predicate EmailsOwned(rows: map<Id, Row>, tier: map<CacheKey, PublicUser>) {
    forall e :: ByEmail(e) in tier ==> tier[ByEmail(e)].id in rows && rows[tier[ByEmail(e)].id].user.email == e
  }

  /** Every entry under an email is its owner's current projection. */
  ghost predicate EmailsCurrent(rows: map<Id, Row>, tier: map<CacheKey, PublicUser>) {
    forall e :: ByEmail(e) in tier ==>
      tier[ByEmail(e)].id in rows && rows[tier[ByEmail(e)].id].user.email == e
      && tier[ByEmail(e)] == rows[tier[ByEmail(e)].id].user
  }

  class Dao {
    var rows: map<Id, Row>
    var l1: map<CacheKey, PublicUser>
    var l2: map<CacheKey, PublicUser>

    ghost predicate Valid()
      reads this
    {
      Table(rows) && IdsCurrent(rows, l1) && IdsCurrent(rows, l2)
    }

    ghost predicate Owned()
      reads this
    {
      EmailsOwned(rows, l1) && EmailsOwned(rows, l2)
    }

    ghost predicate Current()
      reads this
    {
      EmailsCurrent(rows, l1) && EmailsCurrent(rows, l2)
    }

    predicate Cached(key: CacheKey)
      reads this
    {
      key in l1 || key in l2
    }

    constructor ()
      ensures Valid() && Owned() && Current() && rows == map[]
    {
      rows, l1, l2 := map[], map[], map[];
    }

    /** Expiry and eviction: any entry may be gone at any time. */
    method Forget(keys1: set<CacheKey>, keys2: set<CacheKey>)
      requires Valid()
      modifies this`l1, this`l2
      ensures Valid() && (old(Owned()) ==> Owned()) && (old(Current()) ==> Current())
      ensures l1 == old(l1) - keys1 && l2 == old(l2) - keys2
    {
      l1, l2 := l1 - keys1, l2 - keys2;
    }

    // ---------------------------------------------------------------- the orchestrator

    /** The unique-key query behind a read. */
    method Fetch(key: CacheKey) returns (r: Option<PublicUser>)
      requires Valid()
      ensures Answers(rows, key, r)
    {
      match key
      case ById(id) =>
        return if id in rows then Some(rows[id].user) else None;
      case ByEmail(e) =>
        if id :| id in rows && rows[id].user.email == e {
          return Some(rows[id].user);
        }
        return None;
    }

    /** L1, then L2, then the database; a miss everywhere is not cached. A read by id is as good as a
        query. A read by email finds the owner, and is as good as a query while the entries are current. */
    method Get(key: CacheKey) returns (r: Option<PublicUser>)
      requires Valid()
      modifies this`l1, this`l2
      ensures Valid() && (old(Owned()) ==> Owned()) && (old(Current()) ==> Current())
      ensures key.ById? || old(Current()) ==> Answers(rows, key, r)
      ensures old(Owned()) ==> exists q :: Answers(rows, key, q) && SameUser(q, r)
      ensures forall k :: k != key ==> (Cached(k) <==> old(Cached(k)))
      ensures if old(Cached(key))
              then r == Some(old(if key in l1 then l1[key] else l2[key])) && l2 == old(l2)
              else Answers(rows, key, r) && l2 == if r.Some? then old(l2)[key := r.value] else old(l2)
      ensures l1 == if r.Some? then old(l1)[key := r.value] else old(l1)
    {
      hide Table, IdsCurrent, EmailsOwned, EmailsCurrent, Answers;
      if key in l1 {
        EntryAnswers(rows, l1, key);
        r := Some(l1[key]);
      } else if key in l2 {
        EntryAnswers(rows, l2, key);
        CopyKeeps(rows, l2, l1, key);
        l1 := l1[key := l2[key]];
        r := Some(l2[key]);
      } else {
        r := Fetch(key);
        assert SameUser(r, r);
        if r.Some? {
          StoreKeeps(rows, l1, key, r.value);
          StoreKeeps(rows, l2, key, r.value);
          l2 := l2[key := r.value];
          l1 := l1[key := r.value];
        }
      }
    }

    method Invalidate(key: CacheKey)
      modifies this`l1, this`l2
      ensures l1 == old(l1) - {key} && l2 == old(l2) - {key}
    {
      l1 := l1 - {key};
      l2 := l2 - {key};
    }

    // ---------------------------------------------------------------- the DAO

    method Create(id: Id, name: nat, email: Email, verified: bool, secret: Secret, now: nat) returns (ok: bool)
      requires Valid() && id !in rows
      modifies this`rows
      ensures Valid() && (old(Owned()) ==> Owned()) && (old(Current()) ==> Current())
      ensures ok <==> EmailFree(old(rows), id, Some(email)) && PendingFree(old(rows), id, secret.pendingEmail)
      ensures rows == if ok then old(rows)[id := Row(PublicUser(id, name, email, verified, now), secret)] else old(rows)
    {
      if !EmailFree(rows, id, Some(email)) || !PendingFree(rows, id, secret.pendingEmail) { return false; }
      rows := rows[id := Row(PublicUser(id, name, email, verified, now), secret)];
      return true;
    }

    /** The filter answers first; a filter without wrong noes changes nothing. */
    method FindById(id: Id, mightExist: bool) returns (r: Option<PublicUser>)
      requires Valid()
      modifies this`l1, this`l2
      ensures Valid() && (old(Owned()) ==> Owned()) && (old(Current()) ==> Current())
      ensures if mightExist then Answers(rows, ById(id), r) else r == None
      ensures (id in rows ==> mightExist) ==> Answers(rows, ById(id), r)
      ensures l1 == if r.Some? then old(l1)[ById(id) := r.value] else old(l1)
      ensures l2 == if r.Some? && !old(Cached(ById(id))) then old(l2)[ById(id) := r.value] else old(l2)
      ensures forall k :: k != ById(id) ==> (Cached(k) <==> old(Cached(k)))
    {
      if !mightExist { return None; }
      r := Get(ById(id));
    }

    method FindByEmail(email: Email) returns (r: Option<PublicUser>)
      requires Valid()
      modifies this`l1, this`l2
      ensures Valid() && (old(Owned()) ==> Owned()) && (old(Current()) ==> Current())
      ensures old(Owned()) ==> exists q :: Answers(rows, ByEmail(email), q) && SameUser(q, r)
      ensures old(Current()) ==> Answers(rows, ByEmail(email), r)
      ensures old(ByEmail(email) in l1) ==> r == Some(old(l1)[ByEmail(email)])
      ensures l1 == if r.Some? then old(l1)[ByEmail(email) := r.value] else old(l1)
    {
      r := Get(ByEmail(email));
    }

    /** The row update of the database client: an unknown id fails, and an email or pending email that
        another row holds. */
    method Write(id: Id, c: Changes, now: nat) returns (ok: bool)
      requires Valid()
      modifies this`rows
      ensures Table(rows)
      ensures ok <==> id in old(rows) && EmailFree(old(rows), id, c.email) && PendingFree(old(rows), id, PendingOf(c))
      ensures rows == if ok then old(rows)[id := Updated(old(rows)[id], c, now)] else old(rows)
    {
      if id !in rows { return false; }
      if !EmailFree(rows, id, c.email) || !PendingFree(rows, id, PendingOf(c)) { return false; }
      rows := rows[id := Updated(rows[id], c, now)];
      return true;
    }

    /** A general update invalidates the id and the email the row now has. The emails stay owned, and
        current, exactly when the update leaves the email alone or the old email is not cached. */
    method Update(id: Id, c: Changes, now: nat) returns (ok: bool)
      requires Valid()
      modifies this
      ensures Valid()
      ensures ok <==> id in old(rows) && EmailFree(old(rows), id, c.email) && PendingFree(old(rows), id, PendingOf(c))
      ensures ok ==>
                && rows == old(rows)[id := Updated(old(rows)[id], c, now)]
                && l1 == old(l1) - {ById(id), ByEmail(rows[id].user.email)}
                && l2 == old(l2) - {ById(id), ByEmail(rows[id].user.email)}
      ensures ok ==> Applied(old(rows)[id], rows[id], c, now)
      ensures !ok ==> rows == old(rows) && l1 == old(l1) && l2 == old(l2)
      ensures ok && old(Owned()) ==> (Owned() <==> KeepsEmail(c, old(rows)[id]) || !old(EmailCached(id)))
      ensures ok && old(Current()) ==> (Current() <==> KeepsEmail(c, old(rows)[id]) || !old(EmailCached(id)))
    {
      if id in rows { UpdatedApplies(rows[id], c, now); }
      hide Applied, IdsCurrent, EmailsOwned, EmailsCurrent, Table, EmailFree, PendingFree;
      ok := Write(id, c, now);
      if ok {
        Invalidate(ById(id));
        Invalidate(ByEmail(rows[id].user.email));
        EmailMoved(old(rows), rows, old(l1), l1, id);
        EmailMoved(old(rows), rows, old(l2), l2, id);
      }
    }

    /** An update that invalidates the id only, which is what the two fixed updates below do. An entry
        under the email keeps naming its owner; it stays current exactly when there is none, or when the
        update leaves the public projection as it was. */
    method UpdateQuietly(id: Id, c: Changes, now: nat) returns (ok: bool)
      requires Valid() && c.email.None?
      modifies this
      ensures Valid() && (old(Owned()) ==> Owned())
      ensures ok ==> l1 == old(l1) - {ById(id)} && l2 == old(l2) - {ById(id)}
      ensures ok ==> id in old(rows) && rows == old(rows)[id := Updated(old(rows)[id], c, now)]
      ensures ok <==> id in old(rows) && PendingFree(old(rows), id, PendingOf(c))
      ensures !ok ==> rows == old(rows) && l1 == old(l1) && l2 == old(l2)
      ensures ok && old(Current()) ==> (Current() <==> KeepsPublic(c, old(rows)[id], now) || !old(EmailCached(id)))
    {
      ok := Write(id, c, now);
      if ok { Invalidate(ById(id)); }
    }

    method ResetPasswordAndClearOtp(id: Id, password: nat, now: nat) returns (ok: bool)
      requires Valid()
      modifies this
      ensures Valid() && (old(Owned()) ==> Owned())
      ensures ok <==> id in old(rows)
      ensures ok ==> rows == old(rows)[id := Row(old(rows)[id].user.(updatedAt := now),
                                                 old(rows)[id].secret.(password := password, resetOtp := None))]
      ensures ok && old(Current()) ==> (Current() <==> old(rows)[id].user.updatedAt == now || !old(EmailCached(id)))
    {
      if id !in rows { return false; }
      var secret := rows[id].secret.(password := password, resetOtp := None);
      ok := UpdateQuietly(id, Changes(None, None, None, Some(secret)), now);
    }

    method MarkVerifiedAndClearOtp(id: Id, now: nat) returns (ok: bool)
      requires Valid()
      modifies this
      ensures Valid() && (old(Owned()) ==> Owned())
      ensures ok <==> id in old(rows)
      ensures ok ==> l1 == old(l1) - {ById(id)} && l2 == old(l2) - {ById(id)}
      ensures ok ==> rows == old(rows)[id := Row(old(rows)[id].user.(verified := true, updatedAt := now),
                                                 old(rows)[id].secret.(verificationOtp := None))]
      ensures ok && old(Current()) ==> (Current() <==> Marked(old(rows)[id].user, now) || !old(EmailCached(id)))
    {
      if id !in rows { return false; }
      var secret := rows[id].secret.(verificationOtp := None);
      ok := UpdateQuietly(id, Changes(None, None, Some(true), Some(secret)), now);
    }

    /** The old email is learnt through the cached read, so it is the right one because entries under an
        id are current. Only a wrong no of the filter can leave the old email behind. */
    method CommitEmailChange(id: Id, newEmail: Email, now: nat, mightExist: bool) returns (ok: bool)
      requires Valid()
      modifies this
      ensures Valid()
      ensures ok ==> id in old(rows)
                     && rows == old(rows)[id := Row(old(rows)[id].user.(email := newEmail, updatedAt := now),
                                                    old(rows)[id].secret.(pendingEmail := None))]
      ensures !ok ==> rows == old(rows)
      ensures ok && old(Owned()) ==>
                (Owned() <==> mightExist || newEmail == old(rows)[id].user.email || !old(EmailCached(id)))
      ensures ok && old(Current()) ==>
                (Current() <==> mightExist || newEmail == old(rows)[id].user.email || !old(EmailCached(id)))
      ensures ok && mightExist ==> !Cached(ByEmail(old(rows)[id].user.email)) && !Cached(ByEmail(newEmail))
    {
      hide Answers, IdsCurrent, EmailsOwned, EmailsCurrent, Table;
      var before := FindById(id, mightExist);
      if mightExist { AnswerById(rows, id, before); }
      if id !in rows { return false; }
      var secret := rows[id].secret.(pendingEmail := None);
      ok := Write(id, Changes(None, Some(newEmail), None, Some(secret)), now);
      if !ok { return; }
      label written:
      Invalidate(ById(id));
      if before.Some? { Invalidate(ByEmail(before.value.email)); }
      Invalidate(ByEmail(newEmail));
      EmailMoved(old(rows), rows, old@written(l1), l1, id);
      EmailMoved(old(rows), rows, old@written(l2), l2, id);
    }

    predicate EmailCached(id: Id)
      reads this
    {
      id in rows && Cached(ByEmail(rows[id].user.email))
    }
  }

  /** The other half of the condition on quiet updates, in one reachable run: after a verification the
      cached read by email still says unverified. */
  method UnverifiedAfterVerification(id: Id, email: Email, secret: Secret) returns (dao: Dao, r: Option<PublicUser>)
    ensures dao.Valid() && dao.Owned() && !dao.Current()
    ensures id in dao.rows && dao.rows[id].user.verified && dao.rows[id].user.email == email
    ensures r.Some? && r.value.id == id && !r.value.verified
  {
    dao := new Dao();
    var created := dao.Create(id, 0, email, false, secret, 0);
    var first := dao.FindByEmail(email);
    var marked := dao.MarkVerifiedAndClearOtp(id, 1);
    r := dao.FindByEmail(email);
  }

  /** And the other half of the condition on updates, in a reachable run: after an update that changes the
      email, the cached read by the old one still finds the user, though nobody owns it any more. No caller
      in the repository passes an email to update. */
  method FoundByOldEmail(id: Id, email: Email, newEmail: Email, secret: Secret)
    returns (dao: Dao, r: Option<PublicUser>)
    requires email != newEmail
    ensures dao.Valid() && !dao.Owned() && id in dao.rows && dao.rows[id].user.email == newEmail
    ensures r.Some? && r.value.id == id
    ensures forall i :: i in dao.rows ==> dao.rows[i].user.email != email
  {
    dao := new Dao();
    var created := dao.Create(id, 0, email, false, secret, 0);
    var first := dao.FindByEmail(email);
    var changed := dao.Update(id, Changes(None, Some(newEmail), None, None), 1);
    r := dao.FindByEmail(email);
  }

  ghost predicate Answers(rows: map<Id, Row>, key: CacheKey, r: Option<PublicUser>) {
    match key
    case ById(id) => r == if id in rows then Some(rows[id].user) else None
    case ByEmail(e) =>
      && (r.Some? ==> r.value.id in rows && rows[r.value.id].user == r.value && r.value.email == e)
      && (r.None? ==> forall id :: id in rows ==> rows[id].user.email != e)
  }

  /** What an entry is worth as an answer, by what its tier promises. */
  lemma EntryAnswers(rows: map<Id, Row>, tier: map<CacheKey, PublicUser>, key: CacheKey)
    requires Table(rows) && IdsCurrent(rows, tier) && key in tier
    ensures key.ById? || EmailsCurrent(rows, tier) ==> Answers(rows, key, Some(tier[key]))
    ensures EmailsOwned(rows, tier) ==> exists q :: Answers(rows, key, q) && SameUser(q, Some(tier[key]))
  {
    if EmailsOwned(rows, tier) {
      var q := Some(rows[tier[key].id].user);
      assert Answers(rows, key, q) && SameUser(q, Some(tier[key]));
    }
  }

  lemma CopyKeeps(rows: map<Id, Row>, from: map<CacheKey, PublicUser>, into: map<CacheKey, PublicUser>, key: CacheKey)
    requires IdsCurrent(rows, from) && IdsCurrent(rows, into) && key in from
    ensures IdsCurrent(rows, into[key := from[key]])
    ensures EmailsOwned(rows, from) && EmailsOwned(rows, into) ==> EmailsOwned(rows, into[key := from[key]])
    ensures EmailsCurrent(rows, from) && EmailsCurrent(rows, into) ==> EmailsCurrent(rows, into[key := from[key]])
  {}

  lemma StoreKeeps(rows: map<Id, Row>, tier: map<CacheKey, PublicUser>, key: CacheKey, user: PublicUser)
    requires Table(rows) && IdsCurrent(rows, tier) && Answers(rows, key, Some(user))
    ensures IdsCurrent(rows, tier[key := user])
    ensures EmailsOwned(rows, tier) ==> EmailsOwned(rows, tier[key := user])
    ensures EmailsCurrent(rows, tier) ==> EmailsCurrent(rows, tier[key := user])
  {}

  lemma AnswerById(rows: map<Id, Row>, id: Id, r: Option<PublicUser>)
    requires Answers(rows, ById(id), r)
    ensures r == if id in rows then Some(rows[id].user) else None
  {}

  /** One row changes and the entries under its id and its new email go: what is left of a tier is right
      about the emails exactly when the row kept its email or the old one is gone too. */
  lemma EmailMoved(rows: map<Id, Row>, after: map<Id, Row>, tier: map<CacheKey, PublicUser>,
                   left: map<CacheKey, PublicUser>, id: Id)
    requires Table(rows) && id in rows && id in after && after == rows[id := after[id]] && after[id].user.id == id
    requires IdsCurrent(rows, tier)
    requires left.Keys <= tier.Keys && (forall k :: k in left ==> left[k] == tier[k])
    requires ById(id) !in left && ByEmail(after[id].user.email) !in left
    ensures IdsCurrent(after, left)
    ensures EmailsOwned(rows, tier) ==> (EmailsOwned(after, left) <==> ByEmail(rows[id].user.email) !in left)
    ensures EmailsCurrent(rows, tier) ==> (EmailsCurrent(after, left) <==> ByEmail(rows[id].user.email) !in left)
  {
    if EmailsOwned(rows, tier) && ByEmail(rows[id].user.email) in left {
      assert tier[ByEmail(rows[id].user.email)].id == id;
    }
    if EmailsCurrent(rows, tier) && ByEmail(rows[id].user.email) in left {
      assert tier[ByEmail(rows[id].user.email)].id == id;
    }
  }

  /** The update sets nothing public to a new value, and the stamp of the row is of this very moment. */
  predicate KeepsPublic(c: Changes, row: Row, now: nat) {
    && row.user.updatedAt == now
    && Or(c.name, row.user.name) == row.user.name
    && Or(c.email, row.user.email) == row.user.email
    && Or(c.verified, row.user.verified) == row.user.verified
  }

  predicate Marked(user: PublicUser, now: nat) {
    user.verified && user.updatedAt == now
  }

  predicate KeepsEmail(c: Changes, row: Row) {
    c.email.None? || c.email.value == row.user.email
  }

  predicate SameUser(q: Option<PublicUser>, r: Option<PublicUser>) {
    (q.Some? <==> r.Some?) && (q.Some? ==> q.value.id == r.value.id)
  }
}

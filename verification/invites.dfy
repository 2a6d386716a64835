/**
  Invitations and registration. An admin creates an invite for an email
  address; the invite is mailed with a random code and expires after a
  week; registering with the email and the code creates the account and
  spends the invite. The database is a pair of lists; the clock, the
  random code, the generated ids, the mail delivery and the password hash
  are inputs.
 */
module Invites {
  import opened Wrappers
  import Seqs

  /** Seven days in milliseconds. */
  const Week: int := 7 * 24 * 60 * 60 * 1000

  datatype Invite = Invite(
    id: string,
    email: string,
    code: string,
    used: bool,
    expiresAt: int,
    createdAt: int,
    createdById: string)

  /** An account; one made outside registration (the seeded admin) has no invite. */
  datatype User = User(id: string, name: Option<string>, email: string, password: string, inviteId: Option<string>)

  datatype Db = Db(invites: seq<Invite>, users: seq<User>)

  /** The signed-in user as the session reports it; `""` is a missing id. */
  datatype SessionUser = SessionUser(id: string, isAdmin: bool)

  /** A user as returned to the client: everything but the password. */
  datatype PublicUser = PublicUser(id: string, name: Option<string>, email: string, inviteId: Option<string>)

  /** The registered user shown next to an invite. */
  datatype Registrant = Registrant(name: Option<string>, email: string)

  datatype Row = Row(invite: Invite, user: Option<Registrant>)

  datatype Reply =
    | Failure(status: nat, error: string)
    | Created(invite: Invite)
    | Listed(rows: seq<Row>)
    | Registered(user: PublicUser)

  predicate IsAdminSession(session: Option<SessionUser>) {
    session.Some? && session.value.id != "" && session.value.isAdmin
  }

  /** An invite that can still be used by `email` at time `now`. */
  predicate Active(inv: Invite, email: string, now: int) {
    inv.email == email && !inv.used && inv.expiresAt > now
  }

  predicate HasActive(invites: seq<Invite>, email: string, now: int) {
    exists i :: 0 <= i < |invites| && Active(invites[i], email, now)
  }

  predicate FreshInviteId(db: Db, id: string) {
    forall i :: 0 <= i < |db.invites| ==> db.invites[i].id != id
  }

  predicate FreshUserId(db: Db, id: string) {
    forall i :: 0 <= i < |db.users| ==> db.users[i].id != id
  }

  // ---------------------------------------------------------------------
  // Creating an invite
  // ---------------------------------------------------------------------

  function NotId(id: string): Invite -> bool {
    (inv: Invite) => inv.id != id
  }

  /** Deleting the invite with id `id`. */
  function Delete(db: Db, id: string): (r: Db)
    ensures r.users == db.users
    ensures forall x :: x in r.invites <==> x in db.invites && x.id != id
  {
    db.(invites := Seqs.Filter(db.invites, NotId(id)))
  }

  /** Deleting a just-appended invite with a fresh id gives back the
      database as it was. */
  lemma DeleteUndoesAppend(db: Db, inv: Invite)
    requires FreshInviteId(db, inv.id)
    ensures Delete(db.(invites := db.invites + [inv]), inv.id) == db
  {
    Seqs.FilterConcat(db.invites, [inv], NotId(inv.id));
    Seqs.FilterAll(db.invites, NotId(inv.id));
    assert [inv][1..] == [];
  }

  /** The invite a successful creation stores. */
  function NewInvite(session: SessionUser, email: string, now: int, id: string, code: string): Invite {
    Invite(id, email, code, false, now + Week, now, session.id)
  }

  /** Creating an invite: only an admin, only with an email, only when no
      active invite exists for it; the invite is stored, and deleted again
      when the mail cannot be sent. */
  function CreateInvite(db: Db, session: Option<SessionUser>, email: string, now: int,
                        id: string, code: string, sent: bool): (r: (Db, Reply))
    requires FreshInviteId(db, id)
    ensures !IsAdminSession(session) ==> r == (db, Failure(401, "Unauthorized"))
    ensures IsAdminSession(session) && email == "" ==> r == (db, Failure(400, "Email is required"))
    ensures IsAdminSession(session) && email != "" && HasActive(db.invites, email, now) ==>
      r == (db, Failure(400, "An active invite already exists for this email"))
    ensures IsAdminSession(session) && email != "" && !HasActive(db.invites, email, now) && !sent ==>
      r == (db, Failure(500, "Failed to send invite email"))
    ensures r.1.Created? <==> IsAdminSession(session) && email != "" && !HasActive(db.invites, email, now) && sent
    ensures !r.1.Created? ==> r.0 == db
    ensures r.1.Created? ==>
      && r.1.invite == NewInvite(session.value, email, now, id, code)
      && r.0 == db.(invites := db.invites + [r.1.invite])
      && Active(r.1.invite, email, now)
  {
    if !IsAdminSession(session) then (db, Failure(401, "Unauthorized"))
    else if email == "" then (db, Failure(400, "Email is required"))
    else if HasActive(db.invites, email, now) then (db, Failure(400, "An active invite already exists for this email"))
    else
      var inv := NewInvite(session.value, email, now, id, code);
      var created := db.(invites := db.invites + [inv]);
      if !sent then
        DeleteUndoesAppend(db, inv);
        (Delete(created, id), Failure(500, "Failed to send invite email"))
      else (created, Created(inv))
  }

  /** No email has two invites that are both still usable at `now`. */
  predicate OneActivePerEmail(invites: seq<Invite>, now: int) {
    forall i, j :: 0 <= i < j < |invites| && Active(invites[i], invites[i].email, now) ==>
      !Active(invites[j], invites[i].email, now)
  }

  /** Creation never gives an email a second usable invite. */
  lemma CreateKeepsOneActive(db: Db, session: Option<SessionUser>, email: string, now: int,
                             id: string, code: string, sent: bool)
    requires FreshInviteId(db, id) && OneActivePerEmail(db.invites, now)
    ensures OneActivePerEmail(CreateInvite(db, session, email, now, id, code, sent).0.invites, now)
  {
    var (db1, reply) := CreateInvite(db, session, email, now, id, code, sent);
    if reply.Created? {
      var n := |db.invites|;
      forall i, j | 0 <= i < j < |db1.invites| && Active(db1.invites[i], db1.invites[i].email, now)
        ensures !Active(db1.invites[j], db1.invites[i].email, now)
      {
        if j == n {
          assert db1.invites[i] == db.invites[i];
          assert !Active(db.invites[i], email, now);
        }
      }
    }
  }

  // ---------------------------------------------------------------------
  // Listing invites
  // ---------------------------------------------------------------------

  function OfInvite(id: string): User -> bool {
    (u: User) => u.inviteId == Some(id)
  }

  /** The user registered with an invite, if any. */
  function RegistrantOf(users: seq<User>, inv: Invite): (r: Option<Registrant>)
    ensures r.Some? ==> exists u :: u in users && u.inviteId == Some(inv.id) && r.value == Registrant(u.name, u.email)
    ensures r.None? ==> forall u :: u in users ==> u.inviteId != Some(inv.id)
  {
    match Seqs.FirstIndex(users, OfInvite(inv.id))
    case None => None
    case Some(k) => Some(Registrant(users[k].name, users[k].email))
  }

  function NewestFirst(): (Row, Row) -> bool {
    (a: Row, b: Row) => a.invite.createdAt >= b.invite.createdAt
  }

  /** The listing: every invite once, newest first, each with its
      registered user; only for an admin. */
  function ListInvites(db: Db, session: Option<SessionUser>): (r: Reply)
    ensures !IsAdminSession(session) ==> r == Failure(401, "Unauthorized")
    ensures IsAdminSession(session) ==> r.Listed?
    ensures r.Listed? ==> |r.rows| == |db.invites|
    ensures r.Listed? ==> Seqs.SortedBy(r.rows, NewestFirst())
    ensures r.Listed? ==> forall x :: x in db.invites <==> exists row :: row in r.rows && row.invite == x
    ensures r.Listed? ==> forall row :: row in r.rows ==> row.user == RegistrantOf(db.users, row.invite)
  {
    if !IsAdminSession(session) then Failure(401, "Unauthorized")
    else
      var rows := seq(|db.invites|, i requires 0 <= i < |db.invites| => Row(db.invites[i], RegistrantOf(db.users, db.invites[i])));
      assert Seqs.TotalPreorder(NewestFirst());
      var sorted := Seqs.SortBy(rows, NewestFirst());
      assert |sorted| == |multiset(sorted)| == |multiset(rows)| == |rows|;
      forall x | x in db.invites ensures exists row :: row in sorted && row.invite == x {
        var i :| 0 <= i < |db.invites| && db.invites[i] == x;
        assert rows[i] in multiset(sorted);
      }
      forall row | row in sorted ensures row.invite in db.invites && row.user == RegistrantOf(db.users, row.invite) {
        assert row in multiset(rows);
      }
      Listed(sorted)
  }

  // ---------------------------------------------------------------------
  // Registering
  // ---------------------------------------------------------------------

  datatype Registration = Registration(name: Option<string>, email: string, password: string, inviteCode: string)

  /** An invite that lets `email` register with `code` at time `now`. */
  predicate Redeems(inv: Invite, email: string, code: string, now: int) {
    Active(inv, email, now) && inv.code == code
  }

  function Redeeming(email: string, code: string, now: int): Invite -> bool {
    (inv: Invite) => Redeems(inv, email, code, now)
  }

  predicate EmailTaken(users: seq<User>, email: string) {
    exists j :: 0 <= j < |users| && users[j].email == email
  }

  /** Marking every invite with id `id` as used; nothing else changes. */
  function MarkUsed(invites: seq<Invite>, id: string): (r: seq<Invite>)
    ensures |r| == |invites|
    ensures forall i :: 0 <= i < |r| ==> r[i] == if invites[i].id == id then invites[i].(used := true) else invites[i]
  {
    seq(|invites|, i requires 0 <= i < |invites| => if invites[i].id == id then invites[i].(used := true) else invites[i])
  }

  /** A registration's effect: the user is added and the invite `id` is spent. */
  function Apply(db: Db, user: User, id: string): (r: Db)
    ensures r.invites == MarkUsed(db.invites, id)
    ensures r.users == db.users + [user]
  {
    Db(MarkUsed(db.invites, id), db.users + [user])
  }

  function Public(u: User): PublicUser {
    PublicUser(u.id, u.name, u.email, u.inviteId)
  }

  /** Registration: all three of email, password and code are required;
      an unused, unexpired invite for that email and code must exist; the
      email must not belong to a user yet. Then, together, the user is
      created pointing at the invite and the invite is marked used. */
  function Register(db: Db, req: Registration, now: int, userId: string, hash: string -> string): (r: (Db, Reply))
    requires FreshUserId(db, userId)
    ensures req.email == "" || req.password == "" || req.inviteCode == "" ==>
      r == (db, Failure(400, "Email, password, and invite code are required"))
    ensures r.1.Registered? <==>
      && req.email != "" && req.password != "" && req.inviteCode != ""
      && (exists i :: 0 <= i < |db.invites| && Redeems(db.invites[i], req.email, req.inviteCode, now))
      && !EmailTaken(db.users, req.email)
    ensures !r.1.Registered? ==> r.0 == db && r.1.Failure? && r.1.status == 400
    ensures r.1.Registered? ==>
      && r.1.user.inviteId.Some?
      && (exists i :: 0 <= i < |db.invites| && Redeems(db.invites[i], req.email, req.inviteCode, now) && db.invites[i].id == r.1.user.inviteId.value)
      && r.1.user == Public(User(userId, req.name, req.email, hash(req.password), r.1.user.inviteId))
      && r.0 == Apply(db, User(userId, req.name, req.email, hash(req.password), r.1.user.inviteId), r.1.user.inviteId.value)
  {
    if req.email == "" || req.password == "" || req.inviteCode == "" then
      (db, Failure(400, "Email, password, and invite code are required"))
    else match Seqs.FirstIndex(db.invites, Redeeming(req.email, req.inviteCode, now))
      case None => (db, Failure(400, "Invalid or expired invite code"))
      case Some(k) =>
        if EmailTaken(db.users, req.email) then (db, Failure(400, "User already exists"))
        else
          var user := User(userId, req.name, req.email, hash(req.password), Some(db.invites[k].id));
          (Apply(db, user, db.invites[k].id), Registered(Public(user)))
  }

  /** After a registration, the invite it used is spent: no invite with
      that id redeems anything, and registering again with the same
      request fails and changes nothing. */
  lemma RegisterOnce(db: Db, req: Registration, now: int, userId: string, hash: string -> string,
                     later: int, otherId: string)
    requires FreshUserId(db, userId)
    requires Register(db, req, now, userId, hash).1.Registered?
    requires FreshUserId(Register(db, req, now, userId, hash).0, otherId)
    ensures var (db1, reply) := Register(db, req, now, userId, hash);
      && (forall i, e, c, t :: 0 <= i < |db1.invites| && db1.invites[i].id == reply.user.inviteId.value ==> !Redeems(db1.invites[i], e, c, t))
      && Register(db1, req, later, otherId, hash).0 == db1
      && Register(db1, req, later, otherId, hash).1.Failure?
  {
    var (db1, reply) := Register(db, req, now, userId, hash);
    assert db1.users[|db.users|].email == req.email;
    assert EmailTaken(db1.users, req.email);
  }

  // ---------------------------------------------------------------------
  // The store's invariant
  // ---------------------------------------------------------------------

  /** Ids are unique, each email has at most one account, and every
      account made with an invite has its own, which is spent. */
  predicate Valid(db: Db) {
    && (forall i, j :: 0 <= i < j < |db.invites| ==> db.invites[i].id != db.invites[j].id)
    && (forall i, j :: 0 <= i < j < |db.users| ==> db.users[i].id != db.users[j].id)
    && (forall i, j :: 0 <= i < j < |db.users| ==> db.users[i].email != db.users[j].email)
    && (forall i, j :: 0 <= i < j < |db.users| && db.users[i].inviteId.Some? ==> db.users[i].inviteId != db.users[j].inviteId)
    && (forall j :: 0 <= j < |db.users| && db.users[j].inviteId.Some? ==> SpentBy(db.invites, db.users[j].inviteId.value))
  }

  /** The store as the admin seed leaves it, one account made without an
      invite, is valid, so every store reached from it by the operations
      below is too. */
  lemma SeededAdminValid(admin: User)
    requires admin.inviteId.None?
    ensures Valid(Db([], [admin]))
  {
  }

  predicate SpentBy(invites: seq<Invite>, id: string) {
    exists i :: 0 <= i < |invites| && invites[i].id == id && invites[i].used
  }

  lemma CreateInviteKeepsValid(db: Db, session: Option<SessionUser>, email: string, now: int,
                               id: string, code: string, sent: bool)
    requires Valid(db) && FreshInviteId(db, id)
    ensures Valid(CreateInvite(db, session, email, now, id, code, sent).0)
  {
    var db1 := CreateInvite(db, session, email, now, id, code, sent).0;
    if db1 != db {
      forall j | 0 <= j < |db1.users| && db1.users[j].inviteId.Some? ensures SpentBy(db1.invites, db1.users[j].inviteId.value) {
        var i :| 0 <= i < |db.invites| && db.invites[i].id == db.users[j].inviteId.value && db.invites[i].used;
        assert db1.invites[i] == db.invites[i];
      }
    }
  }

  /** Adding an account for an email without one, made with an unspent
      invite, keeps the store valid. */
  lemma ApplyKeepsValid(db: Db, user: User, k: nat)
    requires Valid(db) && FreshUserId(db, user.id) && !EmailTaken(db.users, user.email)
    requires k < |db.invites| && user.inviteId == Some(db.invites[k].id) && !db.invites[k].used
    ensures Valid(Apply(db, user, db.invites[k].id))
  {
    var x, n := db.invites[k].id, |db.users|;
    var db1 := Apply(db, user, x);
    forall j | 0 <= j < n ensures db.users[j].inviteId != Some(x) {
      if db.users[j].inviteId.Some? {
        var i :| 0 <= i < |db.invites| && db.invites[i].id == db.users[j].inviteId.value && db.invites[i].used;
        assert i != k;
      }
    }
    forall j | 0 <= j < |db1.users| && db1.users[j].inviteId.Some? ensures SpentBy(db1.invites, db1.users[j].inviteId.value) {
      if j == n {
        assert db1.invites[k].id == x && db1.invites[k].used;
      } else {
        assert db1.users[j] == db.users[j];
        var i :| 0 <= i < |db.invites| && db.invites[i].id == db.users[j].inviteId.value && db.invites[i].used;
        assert db1.invites[i].id == db.invites[i].id && db1.invites[i].used;
      }
    }
    forall i, j | 0 <= i < j < |db1.users| ensures db1.users[i].email != db1.users[j].email {
      if j == n {
        assert db1.users[i] == db.users[i];
      }
    }
  }

  lemma RegisterKeepsValid(db: Db, req: Registration, now: int, userId: string, hash: string -> string)
    requires Valid(db) && FreshUserId(db, userId)
    ensures Valid(Register(db, req, now, userId, hash).0)
  {
    var (db1, reply) := Register(db, req, now, userId, hash);
    if reply.Registered? {
      var k :| 0 <= k < |db.invites| && Redeems(db.invites[k], req.email, req.inviteCode, now) && db.invites[k].id == reply.user.inviteId.value;
      ApplyKeepsValid(db, User(userId, req.name, req.email, hash(req.password), reply.user.inviteId), k);
    }
  }

  // ---------------------------------------------------------------------
  // The invites page
  // ---------------------------------------------------------------------

  datatype Status = Used | Expired | Pending

  /** The status shown for an invite at time `now`. */
  function StatusAt(inv: Invite, now: int): (s: Status)
    ensures s == Used <==> inv.used
    ensures s == Expired <==> !inv.used && inv.expiresAt < now
    ensures s == Pending <==> !inv.used && inv.expiresAt >= now
  {
    if inv.used then Used else if inv.expiresAt < now then Expired else Pending
  }

  /** An invite that can still be used shows as pending; the one pending
      invite that cannot is one expiring exactly now. */
  lemma PendingAndActive(inv: Invite, now: int)
    ensures Active(inv, inv.email, now) ==> StatusAt(inv, now) == Pending
    ensures StatusAt(inv, now) == Pending && !Active(inv, inv.email, now) <==> !inv.used && inv.expiresAt == now
  {
  }

  /** The registered-user cell: the name, else the email, else `-`. */
  function UserCell(user: Option<Registrant>): (r: string)
    ensures r != ""
    ensures user.Some? && user.value.name.Some? && user.value.name.value != "" ==> r == user.value.name.value
    ensures user.Some? && (user.value.name.None? || user.value.name.value == "") ==>
      r == (if user.value.email != "" then user.value.email else "-")
    ensures user.None? ==> r == "-"
  {
    match user
    case None => "-"
    case Some(u) =>
      if u.name.Some? && u.name.value != "" then u.name.value
      else if u.email != "" then u.email
      else "-"
  }

  /** The form after a submission: on success a confirmation and a
      cleared field, on failure the server's message or a default. */
  datatype Form = Form(email: string, error: string, success: string)

  function AfterSubmit(email: string, reply: Reply): (f: Form)
    ensures reply.Failure? ==> f.success == "" && f.error != "" && f.email == email
    ensures reply.Failure? && reply.error != "" ==> f.error == reply.error
    ensures !reply.Failure? ==> f == Form("", "", "Invite sent to " + email)
  {
    match reply
    case Failure(_, error) => Form(email, if error != "" then error else "Failed to create invite", "")
    case _ => Form("", "", "Invite sent to " + email)
  }
}

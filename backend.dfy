/**
 * The state the API handlers share: the database and the one session slot
 * (the cookie of the client making the calls), with the invariants that the
 * handlers keep when they are called one after another.
 */
module Backend {
  import opened Wrappers
  import opened Schema
  import opened Types

  /** Most notes a tenant on the free plan may create. */
  const FreeNoteLimit := 3

  /** Every note belongs to the tenant of its author. */
  ghost predicate NotesFollowAuthors(db: Db) {
    forall id :: id in db.notes && db.notes[id].authorId in db.users ==>
      db.notes[id].tenantId == db.users[db.notes[id].authorId].tenantId
  }

  /** No tenant on the free plan holds more than three notes. */
  ghost predicate FreeCapHolds(db: Db) {
    forall t :: t in db.tenants && db.tenants[t].plan == Free ==> NoteCount(db.notes, t) <= FreeNoteLimit
  }

  /**
   * The session user was issued by this database: its id was handed out, and
   * while that user row still exists the session agrees with it.
   */
  ghost predicate SessionSound(db: Db, session: Option<SessionUser>) {
    session.Some? ==>
      var u := session.value;
      && u.id < db.nextUserId
      && (u.id in db.users ==>
            db.users[u.id].email == u.email && db.users[u.id].role == u.role && db.users[u.id].tenantId == u.tenantId)
  }

  ghost predicate Consistent(db: Db, session: Option<SessionUser>) {
    Valid(db) && NotesFollowAuthors(db) && FreeCapHolds(db) && SessionSound(db, session)
  }

  class Server {
    var db: Db
    var session: Option<SessionUser>

    ghost predicate Valid() reads this {
      Consistent(db, session)
    }

    /** A fresh deployment: empty tables and a client without a cookie. */
    constructor ()
      ensures Valid() && db == Empty && session == None
    {
      db := Empty;
      session := None;
    }
  }

  /** A new tenant holds no notes, so it cannot break the free-plan cap. */
  lemma InsertTenantKeepsConsistent(db: Db, session: Option<SessionUser>, name: string, slug: string, plan: Option<Plan>)
    requires Consistent(db, session)
    requires InsertTenant(db, name, slug, plan).Some?
    ensures Consistent(InsertTenant(db, name, slug, plan).value, session)
  {
    var r := InsertTenant(db, name, slug, plan).value;
    var t := db.nextTenantId;
    assert TenantNotes(r.notes, t) == map[];
  }

  /** A new user has written nothing and has an id no session holds yet. */
  lemma InsertUserKeepsConsistent(db: Db, session: Option<SessionUser>, email: string, password: string, role: Option<Role>, tenantId: nat)
    requires Consistent(db, session)
    requires InsertUser(db, email, password, role, tenantId).Some?
    ensures Consistent(InsertUser(db, email, password, role, tenantId).value, session)
  {
  }

  /**
   * A note written by the session user into the session user's tenant keeps
   * every invariant, provided a free tenant had fewer than three notes.
   */
  lemma InsertNoteKeepsConsistent(db: Db, session: Option<SessionUser>, title: string, content: Option<string>)
    requires Consistent(db, session) && session.Some?
    requires InsertNote(db, title, content, session.value.tenantId, session.value.id).Some?
    requires db.tenants[session.value.tenantId].plan == Free ==>
      NoteCount(db.notes, session.value.tenantId) < FreeNoteLimit
    ensures Consistent(InsertNote(db, title, content, session.value.tenantId, session.value.id).value, session)
  {
    var u := session.value;
    var r := InsertNote(db, title, content, u.tenantId, u.id).value;
    var note := Note(title, content, u.tenantId, u.id);
    forall t | t in r.tenants && r.tenants[t].plan == Free
      ensures NoteCount(r.notes, t) <= FreeNoteLimit
    {
      AddNoteCount(db.notes, db.nextNoteId, note, t);
    }
  }

  /** A session set to an existing user row is sound. */
  lemma SignInSound(db: Db, id: nat, slug: Option<string>, plan: Option<Plan>)
    requires Valid(db) && id in db.users
    ensures var u := db.users[id];
      SessionSound(db, Some(SessionUser(id, u.email, u.role, u.tenantId, slug, plan)))
  {
  }

  /**
   * Deleting a tenant keeps every invariant; the session may then name a
   * tenant or user that no longer exists, which the note handler answers 404
   * and the database refuses respectively.
   */
  lemma DeleteTenantKeepsConsistent(db: Db, session: Option<SessionUser>, tenantId: nat)
    requires Consistent(db, session)
    ensures Consistent(DeleteTenant(db, tenantId), session)
  {
    var r := DeleteTenant(db, tenantId);
    forall t | t in r.tenants && r.tenants[t].plan == Free
      ensures NoteCount(r.notes, t) <= FreeNoteLimit
    {
      assert TenantNotes(r.notes, t).Keys <= TenantNotes(db.notes, t).Keys;
      SubsetCard(TenantNotes(r.notes, t).Keys, TenantNotes(db.notes, t).Keys);
    }
  }

  /** Deleting a user keeps every invariant. */
  lemma DeleteUserKeepsConsistent(db: Db, session: Option<SessionUser>, userId: nat)
    requires Consistent(db, session)
    ensures Consistent(DeleteUser(db, userId), session)
  {
    var r := DeleteUser(db, userId);
    forall t | t in r.tenants && r.tenants[t].plan == Free
      ensures NoteCount(r.notes, t) <= FreeNoteLimit
    {
      assert TenantNotes(r.notes, t).Keys <= TenantNotes(db.notes, t).Keys;
      SubsetCard(TenantNotes(r.notes, t).Keys, TenantNotes(db.notes, t).Keys);
    }
  }

  lemma SubsetCard(a: set<nat>, b: set<nat>)
    requires a <= b
    ensures |a| <= |b|
  {
    if a != {} {
      var x :| x in a;
      SubsetCard(a - {x}, b - {x});
    }
  }
}

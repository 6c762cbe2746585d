/**
 * The three MySQL tables of the application (tenants, users, notes), their
 * column types, unique indexes, enum defaults and foreign keys with
 * ON DELETE CASCADE. A table is a map from its auto-increment id to the row;
 * `next*Id` is the table's AUTO_INCREMENT counter, which starts at 1 and is
 * never reused.
 */
module Schema {
  import opened Wrappers

  /** Longest value a `varchar(255)` column accepts (MySQL strict mode refuses longer ones). */
  const VarcharMax := 255

  datatype Plan = Free | Pro
  datatype Role = Admin | Member

  datatype Tenant = Tenant(name: string, slug: string, plan: Plan)
  datatype User = User(email: string, password: string, role: Role, tenantId: nat)
  datatype Note = Note(title: string, content: Option<string>, tenantId: nat, authorId: nat)

  datatype Db = Db(
    tenants: map<nat, Tenant>,
    users: map<nat, User>,
    notes: map<nat, Note>,
    nextTenantId: nat,
    nextUserId: nat,
    nextNoteId: nat)

  /** A freshly created database. */
  const Empty := Db(map[], map[], map[], 1, 1, 1)

  // ---------------------------------------------------------------- constraints

  ghost predicate IdsIssued(db: Db) {
    && 1 <= db.nextTenantId && 1 <= db.nextUserId && 1 <= db.nextNoteId
    && (forall id :: id in db.tenants ==> 1 <= id < db.nextTenantId)
    && (forall id :: id in db.users ==> 1 <= id < db.nextUserId)
    && (forall id :: id in db.notes ==> 1 <= id < db.nextNoteId)
  }

  /** The unique index on tenants.slug. */
  ghost predicate SlugsUnique(tenants: map<nat, Tenant>) {
    forall a, b :: a in tenants && b in tenants && tenants[a].slug == tenants[b].slug ==> a == b
  }

  /** The unique index on users.email. */
  ghost predicate EmailsUnique(users: map<nat, User>) {
    forall a, b :: a in users && b in users && users[a].email == users[b].email ==> a == b
  }

  /** Every varchar(255) column holds at most 255 characters. */
  ghost predicate ColumnsFit(db: Db) {
    && (forall id :: id in db.tenants ==>
          |db.tenants[id].name| <= VarcharMax && |db.tenants[id].slug| <= VarcharMax)
    && (forall id :: id in db.users ==>
          |db.users[id].email| <= VarcharMax && |db.users[id].password| <= VarcharMax)
    && (forall id :: id in db.notes ==> |db.notes[id].title| <= VarcharMax)
  }

  /** The foreign keys users.tenant_id, notes.tenant_id and notes.author_id. */
  ghost predicate ReferencesExist(db: Db) {
    && (forall id :: id in db.users ==> db.users[id].tenantId in db.tenants)
    && (forall id :: id in db.notes ==>
          db.notes[id].tenantId in db.tenants && db.notes[id].authorId in db.users)
  }

  /** Everything the database itself enforces. */
  ghost predicate Valid(db: Db) {
    && IdsIssued(db)
    && SlugsUnique(db.tenants)
    && EmailsUnique(db.users)
    && ColumnsFit(db)
    && ReferencesExist(db)
  }

  lemma EmptyValid()
    ensures Valid(Empty)
  {
  }

  // ---------------------------------------------------------------- queries

  /**
   * `findFirst({ where: eq(users.email, email) })` finds a row. Under the unique
   * index that row is the only one, so which row is found does not matter.
   */
  predicate EmailTaken(db: Db, email: string)
    ensures EmailTaken(db, email) && EmailsUnique(db.users) ==>
      exists id :: id in db.users && db.users[id].email == email
        && forall other :: other in db.users && db.users[other].email == email ==> other == id
  {
    exists id :: id in db.users && db.users[id].email == email
  }

  /**
   * `findFirst({ where: eq(tenants.slug, slug) })` finds a row. Under the unique
   * index that row is the only one.
   */
  predicate SlugTaken(db: Db, slug: string)
    ensures SlugTaken(db, slug) && SlugsUnique(db.tenants) ==>
      exists id :: id in db.tenants && db.tenants[id].slug == slug
        && forall other :: other in db.tenants && db.tenants[other].slug == slug ==> other == id
  {
    exists id :: id in db.tenants && db.tenants[id].slug == slug
  }

  /** The rows of `notes` whose tenant_id is `tenantId`, keyed by note id. */
  function TenantNotes(notes: map<nat, Note>, tenantId: nat): (r: map<nat, Note>)
    ensures forall id :: id in r <==> id in notes && notes[id].tenantId == tenantId
    ensures forall id :: id in r ==> r[id] == notes[id]
  {
    map id | id in notes && notes[id].tenantId == tenantId :: notes[id]
  }

  /** `count()` of the notes of one tenant: zero exactly when no note belongs to it. */
  function NoteCount(notes: map<nat, Note>, tenantId: nat): (r: nat)
    ensures r == 0 <==> forall id :: id in notes ==> notes[id].tenantId != tenantId
  {
    var m := TenantNotes(notes, tenantId);
    assert (forall id :: id !in m) ==> m == map[];
    |m|
  }

  /** The lists of two different tenants share no note, and every note is in its own tenant's list. */
  lemma TenantNotesPartition(notes: map<nat, Note>, t1: nat, t2: nat)
    requires t1 != t2
    ensures TenantNotes(notes, t1).Keys !! TenantNotes(notes, t2).Keys
    ensures forall id :: id in notes ==> id in TenantNotes(notes, notes[id].tenantId)
  {
  }

  // ---------------------------------------------------------------- inserts

  /**
   * INSERT INTO tenants. The plan column defaults to free; the insert is refused
   * (None) when the slug is already used or a varchar column would overflow.
   */
  function InsertTenant(db: Db, name: string, slug: string, plan: Option<Plan>): (r: Option<Db>)
    ensures r.Some? <==> |name| <= VarcharMax && |slug| <= VarcharMax && !SlugTaken(db, slug)
    ensures r.Some? ==>
      && r.value.tenants == db.tenants[db.nextTenantId := Tenant(name, slug, plan.GetOr(Free))]
      && r.value.users == db.users && r.value.notes == db.notes
      && r.value.nextTenantId == db.nextTenantId + 1
      && r.value.nextUserId == db.nextUserId && r.value.nextNoteId == db.nextNoteId
    ensures r.Some? && plan.None? ==> r.value.tenants[db.nextTenantId].plan == Free
    ensures r.Some? && Valid(db) ==> Valid(r.value) && db.nextTenantId !in db.tenants
  {
    if |name| <= VarcharMax && |slug| <= VarcharMax && !SlugTaken(db, slug) then
      Some(db.(tenants := db.tenants[db.nextTenantId := Tenant(name, slug, plan.GetOr(Free))],
               nextTenantId := db.nextTenantId + 1))
    else
      None
  }

  /**
   * INSERT INTO users. The role column defaults to member; the insert is refused
   * when the email is already used, the tenant does not exist or a varchar
   * column would overflow.
   */
  function InsertUser(db: Db, email: string, password: string, role: Option<Role>, tenantId: nat): (r: Option<Db>)
    ensures r.Some? <==>
      |email| <= VarcharMax && |password| <= VarcharMax && !EmailTaken(db, email) && tenantId in db.tenants
    ensures r.Some? ==>
      && r.value.users == db.users[db.nextUserId := User(email, password, role.GetOr(Member), tenantId)]
      && r.value.tenants == db.tenants && r.value.notes == db.notes
      && r.value.nextUserId == db.nextUserId + 1
      && r.value.nextTenantId == db.nextTenantId && r.value.nextNoteId == db.nextNoteId
    ensures r.Some? && role.None? ==> r.value.users[db.nextUserId].role == Member
    ensures r.Some? && Valid(db) ==> Valid(r.value) && db.nextUserId !in db.users
  {
    if |email| <= VarcharMax && |password| <= VarcharMax && !EmailTaken(db, email) && tenantId in db.tenants then
      Some(db.(users := db.users[db.nextUserId := User(email, password, role.GetOr(Member), tenantId)],
               nextUserId := db.nextUserId + 1))
    else
      None
  }

  /**
   * INSERT INTO notes. Refused when the tenant or the author does not exist or
   * the title overflows its column.
   */
  function InsertNote(db: Db, title: string, content: Option<string>, tenantId: nat, authorId: nat): (r: Option<Db>)
    ensures r.Some? <==> |title| <= VarcharMax && tenantId in db.tenants && authorId in db.users
    ensures r.Some? ==>
      && r.value.notes == db.notes[db.nextNoteId := Note(title, content, tenantId, authorId)]
      && r.value.tenants == db.tenants && r.value.users == db.users
      && r.value.nextNoteId == db.nextNoteId + 1
      && r.value.nextTenantId == db.nextTenantId && r.value.nextUserId == db.nextUserId
    ensures r.Some? && Valid(db) ==> Valid(r.value) && db.nextNoteId !in db.notes
  {
    if |title| <= VarcharMax && tenantId in db.tenants && authorId in db.users then
      Some(db.(notes := db.notes[db.nextNoteId := Note(title, content, tenantId, authorId)],
               nextNoteId := db.nextNoteId + 1))
    else
      None
  }

  /** Adding a note under a fresh id adds one to its own tenant's count and nothing to any other's. */
  lemma AddNoteCount(notes: map<nat, Note>, id: nat, note: Note, t: nat)
    requires id !in notes
    ensures NoteCount(notes[id := note], t) == NoteCount(notes, t) + (if note.tenantId == t then 1 else 0)
  {
    var before := TenantNotes(notes, t).Keys;
    var now := TenantNotes(notes[id := note], t).Keys;
    if note.tenantId == t {
      assert now == before + {id};
    } else {
      assert now == before;
    }
  }

  // ---------------------------------------------------------------- cascading deletes

  /**
   * DELETE FROM users WHERE id = userId: the ON DELETE CASCADE of notes.author_id
   * removes every note the user wrote.
   */
  function DeleteUser(db: Db, userId: nat): (r: Db)
    ensures r.users.Keys == db.users.Keys - {userId}
    ensures forall id :: id in r.users ==> r.users[id] == db.users[id]
    ensures forall id :: id in r.notes <==> id in db.notes && db.notes[id].authorId != userId
    ensures forall id :: id in r.notes ==> r.notes[id] == db.notes[id]
    ensures r.tenants == db.tenants
    ensures Valid(db) ==> Valid(r)
  {
    db.(users := map id | id in db.users && id != userId :: db.users[id],
        notes := map id | id in db.notes && db.notes[id].authorId != userId :: db.notes[id])
  }

  /**
   * DELETE FROM tenants WHERE id = tenantId: the cascades of users.tenant_id and
   * notes.tenant_id remove the tenant's users and notes, and the cascade of
   * notes.author_id then removes every note written by a removed user.
   */
  function DeleteTenant(db: Db, tenantId: nat): (r: Db)
    ensures r.tenants.Keys == db.tenants.Keys - {tenantId}
    ensures forall id :: id in r.tenants ==> r.tenants[id] == db.tenants[id]
    ensures forall id :: id in r.users <==> id in db.users && db.users[id].tenantId != tenantId
    ensures forall id :: id in r.users ==> r.users[id] == db.users[id]
    ensures forall id :: id in r.notes <==>
      id in db.notes && db.notes[id].tenantId != tenantId && db.notes[id].authorId in r.users
    ensures forall id :: id in r.notes ==> r.notes[id] == db.notes[id]
    ensures Valid(db) ==> Valid(r)
  {
    var users := map id | id in db.users && db.users[id].tenantId != tenantId :: db.users[id];
    var notes := map id | id in db.notes && db.notes[id].tenantId != tenantId && db.notes[id].authorId in users
                        :: db.notes[id];
    db.(tenants := map id | id in db.tenants && id != tenantId :: db.tenants[id],
        users := users,
        notes := notes)
  }

  /** After a tenant is deleted, nothing in the database refers to it any more. */
  lemma DeleteTenantLeavesNoTrace(db: Db, tenantId: nat)
    requires Valid(db)
    ensures var r := DeleteTenant(db, tenantId);
      && tenantId !in r.tenants
      && (forall id :: id in r.users ==> r.users[id].tenantId != tenantId)
      && (forall id :: id in r.notes ==> r.notes[id].tenantId != tenantId)
      && NoteCount(r.notes, tenantId) == 0
  {
    var r := DeleteTenant(db, tenantId);
    assert TenantNotes(r.notes, tenantId) == map[];
  }
}

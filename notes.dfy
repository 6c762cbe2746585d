/**
 * GET and POST /api/notes, behind `withApiAuth`: list the caller's tenant's
 * notes, or create one subject to the free-plan limit.
 */
module Notes {
  import opened Wrappers
  import opened Schema
  import opened Types
  import opened Zod
  import opened Utils
  import opened AuthService
  import opened Backend

  datatype NoteFields = NoteFields(title: string, content: Option<string>)

  /** `createNoteSchema.safeParse(req.body)`: a non-empty title and an optional string content. */
  function ParseCreateNote(body: Body, z: Validator): (r: Parsed<NoteFields>)
    ensures r.Parsed? <==>
      && body.Object?
      && body.Get("title").Str? && |body.Get("title").s| >= 1
      && (body.Get("content").Str? || body.Get("content").Absent?)
    ensures r.Parsed? ==>
      && r.data.title == body.Get("title").s
      && r.data.content == (if body.Get("content").Str? then Some(body.Get("content").s) else None)
    ensures body.NotObject? ==> r == Invalid(NotAnObject(body.kind, z))
    ensures r.Invalid? && body.Object? ==>
      && r.error.formErrors == [] && r.error.fieldErrors.Some? && r.error.fieldErrors.value != []
      && DistinctKeys(r.error.fieldErrors.value)
      && Lists(r.error.fieldErrors.value, "title", StringIssues(body.Get("title"), [Min(1, None)], false, z))
      && Lists(r.error.fieldErrors.value, "content", StringIssues(body.Get("content"), [], true, z))
      && forall e :: e in r.error.fieldErrors.value ==> e.0 in ["title", "content"]
  {
    if body.NotObject? then Invalid(NotAnObject(body.kind, z))
    else
      var title := StringIssues(body.Get("title"), [Min(1, None)], false, z);
      var content := StringIssues(body.Get("content"), [], true, z);
      if title == [] && content == [] then
        var c := body.Get("content");
        Parsed(NoteFields(body.Get("title").s, if c.Str? then Some(c.s) else None))
      else
        var fields := [("title", title), ("content", content)];
        assert DistinctKeys(fields);
        FieldErrorsLists(fields, 0);
        FieldErrorsLists(fields, 1);
        FieldErrorsDistinct(fields);
        Invalid(Flattened([], Some(FieldErrors(fields))))
  }

  /** The GET answer: exactly the notes of the caller's tenant. */
  function List(db: Db, user: SessionUser): (r: Response)
    ensures r.status == 200 && r.body.Json? && r.body.envelope.Success? && r.body.envelope.data.NoteRows?
    ensures var rows := r.body.envelope.data.rows;
      && (forall id :: id in rows <==> id in db.notes && db.notes[id].tenantId == user.tenantId)
      && (forall id :: id in rows ==> rows[id] == db.notes[id])
  {
    Succeed(200, NoteRows(TenantNotes(db.notes, user.tenantId)))
  }

  /** What the quota check answers before an insert, or None when the insert may go ahead. */
  function QuotaCheck(tenant: Tenant, count: nat): (r: Option<Response>)
    ensures r.Some? <==> tenant.plan == Free && count >= FreeNoteLimit
    ensures r.Some? ==> r.value == Fail(403, "Free plan limit reached")
  {
    if tenant.plan == Free && count >= FreeNoteLimit then Some(Fail(403, "Free plan limit reached")) else None
  }

  /**
   * A note the quota check lets through keeps a free tenant at three notes or
   * fewer; run one call after another, creation never takes a free tenant past
   * the limit.
   */
  lemma CreateStaysWithinCap(db: Db, title: string, content: Option<string>, tenantId: nat, authorId: nat)
    requires Valid(db) && tenantId in db.tenants
    requires db.tenants[tenantId].plan == Free
    requires QuotaCheck(db.tenants[tenantId], NoteCount(db.notes, tenantId)).None?
    requires InsertNote(db, title, content, tenantId, authorId).Some?
    ensures NoteCount(InsertNote(db, title, content, tenantId, authorId).value.notes, tenantId) <= FreeNoteLimit
    ensures NoteCount(InsertNote(db, title, content, tenantId, authorId).value.notes, tenantId)
         == NoteCount(db.notes, tenantId) + 1
  {
    AddNoteCount(db.notes, db.nextNoteId, Note(title, content, tenantId, authorId), tenantId);
  }

  /**
   * The notes handler wrapped by `withApiAuth`. A new note always takes its
   * tenant and author from the session user, never from the body, and the plan
   * is read from the tenant row, not from the session.
   */
  method Handler(app: Server, req: Request, z: Validator) returns (resp: Response)
    requires app.Valid()
    modifies app
    ensures app.Valid()
    ensures app.session == old(app.session)
    ensures old(app.session).None? ==> resp == Unauthorized && app.db == old(app.db)
    ensures old(app.session).Some? ==>
      var user := old(app.session).value;
      var db := old(app.db);
      var parsed := ParseCreateNote(req.body, z);
      if req.httpMethod == "POST" then
        if parsed.Invalid? then
          resp == Rejected(ZodErrorToFormError(parsed.error)) && app.db == db
        else if user.tenantId !in db.tenants then
          resp == Fail(404, "Tenant not found") && app.db == db
        else if QuotaCheck(db.tenants[user.tenantId], NoteCount(db.notes, user.tenantId)).Some? then
          resp == Fail(403, "Free plan limit reached") && app.db == db
        else if InsertNote(db, parsed.data.title, parsed.data.content, user.tenantId, user.id).None? then
          resp == InternalError && app.db == db
        else
          && resp == Succeed(201, Message("Note created"))
          && app.db.notes == db.notes[db.nextNoteId := Note(parsed.data.title, parsed.data.content, user.tenantId, user.id)]
          && app.db.tenants == db.tenants && app.db.users == db.users
          && app.db.nextNoteId == db.nextNoteId + 1
          && app.db.nextTenantId == db.nextTenantId && app.db.nextUserId == db.nextUserId
      else if req.httpMethod == "GET" then
        resp == List(db, user) && app.db == db
      else
        && resp == Response(405, ["GET", "POST"], Text("Method " + req.httpMethod + " Not Allowed"))
        && app.db == db
    ensures forall t ::
      (t in old(app.db.tenants) && old(app.db.tenants)[t].plan == Free && NoteCount(old(app.db.notes), t) <= FreeNoteLimit)
      ==> NoteCount(app.db.notes, t) <= FreeNoteLimit
  {
    var gate := WithApiAuth(app.session);
    if gate.Deny? {
      return gate.response;
    }
    var user := gate.user;
    if req.httpMethod == "POST" {
      var parsed := ParseCreateNote(req.body, z);
      if parsed.Invalid? {
        return Rejected(ZodErrorToFormError(parsed.error));
      }
      var f := parsed.data;
      if user.tenantId !in app.db.tenants {
        return Fail(404, "Tenant not found");
      }
      var tenant := app.db.tenants[user.tenantId];
      var refused := QuotaCheck(tenant, NoteCount(app.db.notes, user.tenantId));
      if refused.Some? {
        return refused.value;
      }
      var inserted := InsertNote(app.db, f.title, f.content, user.tenantId, user.id);
      if inserted.None? {
        return InternalError;
      }
      InsertNoteKeepsConsistent(app.db, app.session, f.title, f.content);
      ghost var before := app.db;
      app.db := inserted.value;
      forall t | t in before.tenants && before.tenants[t].plan == Free
        ensures NoteCount(app.db.notes, t) == NoteCount(before.notes, t) + (if t == user.tenantId then 1 else 0)
      {
        AddNoteCount(before.notes, before.nextNoteId, Note(f.title, f.content, user.tenantId, user.id), t);
      }
      resp := Succeed(201, Message("Note created"));
    } else if req.httpMethod == "GET" {
      resp := List(app.db, user);
    } else {
      resp := Response(405, ["GET", "POST"], Text("Method " + req.httpMethod + " Not Allowed"));
    }
  }
}

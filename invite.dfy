/** POST /api/tenants/invite, behind `withApiAuth`: an admin adds a member to their tenant. */
module Invite {
  import opened Wrappers
  import opened Schema
  import opened Types
  import opened Zod
  import opened Utils
  import opened AuthService
  import opened Backend

  /** `inviteUserSchema.safeParse(req.body)`: an email. */
  function ParseInvite(body: Body, z: Validator): (r: Parsed<string>)
    ensures r.Parsed? <==> body.Object? && body.Get("email").Str? && z.isEmail(body.Get("email").s)
    ensures r.Parsed? ==> r.data == body.Get("email").s
    ensures body.NotObject? ==> r == Invalid(NotAnObject(body.kind, z))
    ensures r.Invalid? && body.Object? ==>
      r.error == Flattened([], Some([("email", StringIssues(body.Get("email"), [Email], false, z))]))
  {
    if body.NotObject? then Invalid(NotAnObject(body.kind, z))
    else
      var email := StringIssues(body.Get("email"), [Email], false, z);
      if email == [] then Parsed(body.Get("email").s)
      else
        var fields := [("email", email)];
        assert fields[1..] == [] && FieldErrors(fields[1..]) == [];
        assert FieldErrors(fields) == [fields[0]];
        Invalid(Flattened([], Some(FieldErrors(fields))))
  }

  /**
   * The invite handler wrapped by `withApiAuth`. `hashed` is what argon2 returned
   * for the fixed initial password "password". The role is checked, from the
   * session, before the body is looked at; only an admin ever adds a user, and
   * the new user is a member of the admin's tenant.
   */
  method Handler(app: Server, req: Request, z: Validator, hashed: string) returns (resp: Response)
    requires app.Valid()
    modifies app
    ensures app.Valid()
    ensures app.session == old(app.session)
    ensures app.db.tenants == old(app.db.tenants) && app.db.notes == old(app.db.notes)
    ensures old(app.session).None? ==> resp == Unauthorized && app.db == old(app.db)
    ensures old(app.session).Some? ==>
      var user := old(app.session).value;
      var db := old(app.db);
      var parsed := ParseInvite(req.body, z);
      if req.httpMethod != "POST" then
        resp == MethodNotAllowed && app.db == db
      else if user.role != Admin then
        resp == Fail(403, "Forbidden") && app.db == db
      else if parsed.Invalid? then
        resp == Rejected(ZodErrorToFormError(parsed.error)) && app.db == db
      else if EmailTaken(db, parsed.data) then
        resp == Fail(409, "User with this email already exists") && app.db == db
      else if InsertUser(db, parsed.data, hashed, Some(Member), user.tenantId).None? then
        resp == InternalError && app.db == db
      else
        && resp == Succeed(201, Message("User invited successfully"))
        && app.db.users == db.users[db.nextUserId := User(parsed.data, hashed, Member, user.tenantId)]
        && app.db.nextUserId == db.nextUserId + 1
        && app.db.nextTenantId == db.nextTenantId && app.db.nextNoteId == db.nextNoteId
    ensures app.db.users != old(app.db.users) ==>
      old(app.session).Some? && old(app.session).value.role == Admin && resp.status == 201
  {
    var gate := WithApiAuth(app.session);
    if gate.Deny? {
      return gate.response;
    }
    var user := gate.user;
    if req.httpMethod != "POST" {
      return MethodNotAllowed;
    }
    if user.role != Admin {
      return Fail(403, "Forbidden");
    }
    var parsed := ParseInvite(req.body, z);
    if parsed.Invalid? {
      return Rejected(ZodErrorToFormError(parsed.error));
    }
    var email := parsed.data;
    if EmailTaken(app.db, email) {
      return Fail(409, "User with this email already exists");
    }
    var inserted := InsertUser(app.db, email, hashed, Some(Member), user.tenantId);
    if inserted.None? {
      return InternalError;
    }
    InsertUserKeepsConsistent(app.db, app.session, email, hashed, Some(Member), user.tenantId);
    app.db := inserted.value;
    resp := Succeed(201, Message("User invited successfully"));
  }
}

/** POST /api/auth/login: checks the credentials and signs the user in. */
module Login {
  import opened Wrappers
  import opened Schema
  import opened Types
  import opened Zod
  import opened Utils
  import opened Backend

  datatype LoginFields = LoginFields(email: string, password: string)

  const PasswordRules := [Min(3, None), Max(100, None)]

  /**
   * `loginSchema.safeParse(req.body)`: an email and a password of 3 to 100
   * characters. A rejected object body reports each failing field with exactly
   * its own messages.
   */
  function ParseLogin(body: Body, z: Validator): (r: Parsed<LoginFields>)
    ensures r.Parsed? <==>
      && body.Object?
      && body.Get("email").Str? && z.isEmail(body.Get("email").s)
      && body.Get("password").Str? && 3 <= |body.Get("password").s| <= 100
    ensures r.Parsed? ==> r.data == LoginFields(body.Get("email").s, body.Get("password").s)
    ensures body.NotObject? ==> r == Invalid(NotAnObject(body.kind, z))
    ensures r.Invalid? && body.Object? ==>
      && r.error.formErrors == [] && r.error.fieldErrors.Some? && r.error.fieldErrors.value != []
      && DistinctKeys(r.error.fieldErrors.value)
      && Lists(r.error.fieldErrors.value, "email", StringIssues(body.Get("email"), [Email], false, z))
      && Lists(r.error.fieldErrors.value, "password", StringIssues(body.Get("password"), PasswordRules, false, z))
      && forall e :: e in r.error.fieldErrors.value ==> e.0 in ["email", "password"]
  {
    if body.NotObject? then Invalid(NotAnObject(body.kind, z))
    else
      var email := StringIssues(body.Get("email"), [Email], false, z);
      var rules := PasswordRules;
      var password := StringIssues(body.Get("password"), rules, false, z);
      assert password == [] <==> body.Get("password").Str? && Satisfies(body.Get("password").s, rules[0], z)
                                  && Satisfies(body.Get("password").s, rules[1], z);
      if email == [] && password == [] then
        Parsed(LoginFields(body.Get("email").s, body.Get("password").s))
      else
        var fields := [("email", email), ("password", password)];
        assert DistinctKeys(fields);
        FieldErrorsLists(fields, 0);
        FieldErrorsLists(fields, 1);
        FieldErrorsDistinct(fields);
        Invalid(Flattened([], Some(FieldErrors(fields))))
  }

  const InvalidCredentials := Fail(401, "Invalid credentials")

  /**
   * The login handler. `verify(hash, password)` is argon2's verification. An
   * unknown email and a wrong password get the same answer. The session user it
   * stores has no tenant slug and no plan. No table is ever changed.
   */
  method Handler(app: Server, req: Request, z: Validator, verify: (string, string) -> bool) returns (resp: Response)
    requires app.Valid()
    modifies app
    ensures app.Valid()
    ensures app.db == old(app.db)
    ensures req.httpMethod != "POST" ==> resp == MethodNotAllowed && app.session == old(app.session)
    ensures req.httpMethod == "POST" && ParseLogin(req.body, z).Invalid? ==>
      resp == Rejected(ZodErrorToFormError(ParseLogin(req.body, z).error)) && app.session == old(app.session)
    ensures req.httpMethod == "POST" && ParseLogin(req.body, z).Parsed? && !EmailTaken(app.db, ParseLogin(req.body, z).data.email) ==>
      resp == InvalidCredentials && app.session == old(app.session)
    ensures req.httpMethod == "POST" && ParseLogin(req.body, z).Parsed? ==>
      var f := ParseLogin(req.body, z).data;
      forall id :: id in app.db.users && app.db.users[id].email == f.email ==>
        var u := app.db.users[id];
        if verify(u.password, f.password) then
          resp == Succeed(200, Message("Logged in"))
          && app.session == Some(SessionUser(id, u.email, u.role, u.tenantId, None, None))
        else
          resp == InvalidCredentials && app.session == old(app.session)
  {
    if req.httpMethod != "POST" {
      return MethodNotAllowed;
    }
    var parsed := ParseLogin(req.body, z);
    if parsed.Invalid? {
      return Rejected(ZodErrorToFormError(parsed.error));
    }
    var f := parsed.data;
    if !EmailTaken(app.db, f.email) {
      return InvalidCredentials;
    }
    var id :| id in app.db.users && app.db.users[id].email == f.email;
    var user := app.db.users[id];
    if !verify(user.password, f.password) {
      return InvalidCredentials;
    }
    SignInSound(app.db, id, None, None);
    app.session := Some(SessionUser(id, user.email, user.role, user.tenantId, None, None));
    resp := Succeed(200, Message("Logged in"));
  }
}

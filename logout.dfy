/** POST /api/auth/logout: destroys the session. It is not behind `withApiAuth`. */
module Logout {
  import opened Wrappers
  import opened Types
  import opened Backend

  /**
   * The logout handler: any POST, signed in or not, ends with no session user
   * and the same answer, so a second logout behaves exactly like the first.
   */
  method Handler(app: Server, req: Request) returns (resp: Response)
    requires app.Valid()
    modifies app
    ensures app.Valid()
    ensures app.db == old(app.db)
    ensures req.httpMethod != "POST" ==> resp == MethodNotAllowed && app.session == old(app.session)
    ensures req.httpMethod == "POST" ==> resp == Succeed(200, Message("Logged out")) && app.session == None
  {
    if req.httpMethod != "POST" {
      return MethodNotAllowed;
    }
    app.session := None;
    resp := Succeed(200, Message("Logged out"));
  }
}

/** GET /api/auth/me: the signed-in user, behind `withApiAuth`. */
module Me {
  import opened Wrappers
  import opened Types
  import opened AuthService

  /**
   * The me handler wrapped by `withApiAuth`. It checks no HTTP method, so every
   * method gets the same answer, and it changes nothing.
   */
  function Handler(req: Request, session: Option<SessionUser>): (r: Response)
    ensures session.None? ==> r == Unauthorized
    ensures session.Some? ==> r == Succeed(200, Profile(session.value))
  {
    match WithApiAuth(session)
    case Deny(response) => response
    case Admit(_) => Succeed(200, Profile(session.value))
  }
}

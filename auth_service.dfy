/**
 * The session service: `withApiAuth`, the gate in front of the authenticated
 * API handlers. Reading the session (`getSession`) is the `session` field of
 * the server; the iron-session encryption of the cookie is not modelled.
 */
module AuthService {
  import opened Wrappers
  import opened Types

  /** What `withApiAuth` decides: answer at once, or run the inner handler for `user`. */
  datatype Gate = Deny(response: Response) | Admit(user: SessionUser)

  /**
   * `withApiAuth`: without a session user the request is answered 401 and the
   * inner handler never runs; with one, the inner handler runs with exactly that
   * user. The gate reads only the session and changes nothing.
   */
  function WithApiAuth(session: Option<SessionUser>): (g: Gate)
    ensures g.Deny? <==> session.None?
    ensures g.Deny? ==> g.response == Unauthorized
    ensures g.Admit? ==> g.user == session.value
  {
    match session
    case None => Deny(Unauthorized)
    case Some(user) => Admit(user)
  }

  /** The decision does not look at the user's role, plan or any other field. */
  lemma GateIgnoresUserFields(a: SessionUser, b: SessionUser)
    ensures WithApiAuth(Some(a)).Admit? && WithApiAuth(Some(b)).Admit?
    ensures WithApiAuth(Some(a)).user == a && WithApiAuth(Some(b)).user == b
  {
  }
}

/**
 * The route gate run before every matched request: a decision on the request
 * path and on whether the session holds a user.
 */
module Middleware {
  import opened Wrappers
  import opened Types

  /** `res` (let the request through), a redirect to a path, or an immediate response. */
  datatype Decision = Next | Redirect(location: string) | Respond(response: Response)

  /** `pathname.startsWith(prefix)`. */
  predicate StartsWith(pathname: string, prefix: string) {
    prefix <= pathname
  }

  const Forbidden := Fail(403, "Already authenticated")

  /** `middleware` as written: an "auth page" is a path that starts with "/auth". */
  function Middleware(pathname: string, session: Option<SessionUser>): (r: Decision)
    ensures r.Respond? <==> session.None? && StartsWith(pathname, "/api")
    ensures r.Respond? ==> r.response == Unauthorized
    ensures r.Redirect? ==>
      (session.Some? && r.location == "/notes") || (session.None? && r.location == "/auth/signin")
  {
    assert StartsWith(pathname, "/auth") ==> !StartsWith(pathname, "/api") by {
      if StartsWith(pathname, "/auth") {
        AuthPathIsNotApi(pathname);
      }
    }
    if StartsWith(pathname, "/auth") then
      if session.Some? then
        if pathname == "/api/auth/login" || pathname == "/api/auth/signup" then Respond(Forbidden)
        else if !StartsWith(pathname, "/api/auth") then Redirect("/notes")
        else Next
      else Next
    else if session.None? then
      if StartsWith(pathname, "/api") then Respond(Unauthorized) else Redirect("/auth/signin")
    else Next
  }

  /** No path that starts with "/auth" also starts with "/api". */
  lemma AuthPathIsNotApi(pathname: string)
    requires StartsWith(pathname, "/auth")
    ensures !StartsWith(pathname, "/api")
  {
    assert pathname[1] == "/auth"[1] == 'a';
    assert pathname[2] == "/auth"[2] == 'u';
    assert "/api"[2] == 'p';
  }

  /** A signed-in request for an auth page is sent to "/notes". */
  lemma SignedInAuthPageRedirects(pathname: string, user: SessionUser)
    requires StartsWith(pathname, "/auth")
    ensures Middleware(pathname, Some(user)) == Redirect("/notes")
  {
    AuthPathIsNotApi(pathname);
  }

  /** A signed-out request for an auth page passes through. */
  lemma SignedOutAuthPagePasses(pathname: string)
    requires StartsWith(pathname, "/auth")
    ensures Middleware(pathname, None) == Next
  {
  }

  /** A signed-out request for any other path is answered 401 under "/api" and redirected to sign-in elsewhere. */
  lemma SignedOutElsewhere(pathname: string)
    requires !StartsWith(pathname, "/auth")
    ensures StartsWith(pathname, "/api") ==> Middleware(pathname, None) == Respond(Unauthorized)
    ensures !StartsWith(pathname, "/api") ==> Middleware(pathname, None) == Redirect("/auth/signin")
  {
  }

  /** A signed-in request for any path outside "/auth" passes through. */
  lemma SignedInElsewherePasses(pathname: string, user: SessionUser)
    requires !StartsWith(pathname, "/auth")
    ensures Middleware(pathname, Some(user)) == Next
  {
  }

  /** The 403 "Already authenticated" branch is dead: no path ever gets it. */
  lemma NeverForbidden(pathname: string, session: Option<SessionUser>)
    ensures Middleware(pathname, session) != Respond(Forbidden)
  {
  }

  /** The decision depends on the session only through whether it holds a user. */
  lemma OnlyPresenceMatters(pathname: string, a: Option<SessionUser>, b: Option<SessionUser>)
    requires a.Some? == b.Some?
    ensures Middleware(pathname, a) == Middleware(pathname, b)
  {
  }

  /**
   * As written, a signed-out client calling the sign-in or sign-up API is
   * answered 401 before the handler runs, so nobody can sign in or sign up.
   * The same holds for the logout API, whose handler is therefore reached
   * only with a session user.
   */
  lemma SignInApiBlockedWhenSignedOut()
    ensures Middleware("/api/auth/login", None) == Respond(Unauthorized)
    ensures Middleware("/api/auth/signup", None) == Respond(Unauthorized)
    ensures Middleware("/api/auth/logout", None) == Respond(Unauthorized)
  {
    assert "/api/auth/login"[2] != "/auth"[2];
    assert "/api/auth/signup"[2] != "/auth"[2];
    assert "/api/auth/logout"[2] != "/auth"[2];
  }

  /**
   * The evidently intended gate: the auth API ("/api/auth...") counts as an auth
   * page too, so that its 403 branch and its pass-through for "/me" and
   * "/logout" are reachable.
   */
  function MiddlewareIntended(pathname: string, session: Option<SessionUser>): (r: Decision)
    ensures r == Respond(Forbidden) <==>
      session.Some? && (pathname == "/api/auth/login" || pathname == "/api/auth/signup")
    ensures r == Respond(Unauthorized) <==>
      session.None? && StartsWith(pathname, "/api") && !StartsWith(pathname, "/api/auth")
  {
    assert StartsWith(pathname, "/auth") ==> !StartsWith(pathname, "/api") by {
      if StartsWith(pathname, "/auth") {
        AuthPathIsNotApi(pathname);
      }
    }
    assert pathname == "/api/auth/login" || pathname == "/api/auth/signup" ==> StartsWith(pathname, "/api/auth") by {
      if pathname == "/api/auth/login" || pathname == "/api/auth/signup" {
        assert pathname[..9] == "/api/auth";
      }
    }
    if StartsWith(pathname, "/auth") || StartsWith(pathname, "/api/auth") then
      if session.Some? then
        if pathname == "/api/auth/login" || pathname == "/api/auth/signup" then Respond(Forbidden)
        else if !StartsWith(pathname, "/api/auth") then Redirect("/notes")
        else Next
      else Next
    else if session.None? then
      if StartsWith(pathname, "/api") then Respond(Unauthorized) else Redirect("/auth/signin")
    else Next
  }

  /**
   * The intended gate lets a signed-out client sign in and sign up, forbids a
   * signed-in one to do either, lets a signed-in client reach the rest of the
   * auth API, and agrees with the written gate on every other path.
   */
  lemma IntendedGateAdmitsSignIn(pathname: string, session: Option<SessionUser>)
    ensures (pathname == "/api/auth/login" || pathname == "/api/auth/signup") ==>
      MiddlewareIntended(pathname, None) == Next
      && (session.Some? ==> MiddlewareIntended(pathname, session) == Respond(Forbidden))
    ensures StartsWith(pathname, "/api/auth") && pathname != "/api/auth/login" && pathname != "/api/auth/signup" ==>
      MiddlewareIntended(pathname, session) == Next
    ensures !StartsWith(pathname, "/api/auth") ==> MiddlewareIntended(pathname, session) == Middleware(pathname, session)
  {
    if pathname == "/api/auth/login" || pathname == "/api/auth/signup" {
      assert StartsWith(pathname, "/api/auth") by { assert pathname[..9] == "/api/auth"; }
    }
  }
}

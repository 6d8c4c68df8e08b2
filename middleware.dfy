/** The route guard of middleware.ts: a request for a page under "/notes"
    that carries neither session cookie is redirected to "/login"; every
    other request passes through. */
module Middleware {
  import opened Common

  /** What the guard tells the framework to do with a request. */
  datatype Decision = Next | Redirect(location: string)

  const SessionCookie := "authjs.session-token"
  const SecureSessionCookie := "__Secure-authjs.session-token"
  const ProtectedPrefix := "/notes"
  const LoginPath := "/login"

  /** `request.cookies.get(name)` yields a cookie object, which is truthy
      whatever its value, exactly when a cookie of that name was sent. */
  predicate HasSessionCookie(cookies: map<string, string>)
  {
    SessionCookie in cookies || SecureSessionCookie in cookies
  }

  /** `middleware(request)`, on the request's pathname and its cookies
      (name to value). */
  function Guard(pathname: string, cookies: map<string, string>): (d: Decision)
    ensures d.Redirect? <==> && StartsWith(pathname, ProtectedPrefix)
                             && SessionCookie !in cookies && SecureSessionCookie !in cookies
    ensures d.Redirect? ==> d.location == LoginPath
  {
    if StartsWith(pathname, ProtectedPrefix) && !HasSessionCookie(cookies) then Redirect(LoginPath)
    else Next
  }

  /** Either cookie alone lets the request through. */
  lemma EitherCookieSuffices(pathname: string, cookies: map<string, string>, value: string)
    ensures Guard(pathname, cookies[SessionCookie := value]) == Next
    ensures Guard(pathname, cookies[SecureSessionCookie := value]) == Next
  {
  }

  /** Outside "/notes" the cookies do not matter. */
  lemma UnprotectedPathPasses(pathname: string, cookies: map<string, string>)
    requires !StartsWith(pathname, ProtectedPrefix)
    ensures Guard(pathname, cookies) == Next
  {
  }

  /** Only the names of the cookies are looked at, never their values. */
  lemma CookieValuesIgnored(pathname: string, a: map<string, string>, b: map<string, string>)
    requires a.Keys == b.Keys
    ensures Guard(pathname, a) == Guard(pathname, b)
  {
  }

  /** The prefix test is on raw characters: "/notesx" is guarded like
      "/notes/x", while "/note" and "/login" are not. */
  lemma RawPrefixExamples()
    ensures Guard("/notes", map[]) == Redirect(LoginPath)
    ensures Guard("/notes/x", map[]) == Redirect(LoginPath)
    ensures Guard("/notesx", map[]) == Redirect(LoginPath)
    ensures Guard("/note", map[]) == Next
    ensures Guard("/login", map[]) == Next
    ensures Guard("/notes", map[SessionCookie := ""]) == Next
  {
    assert "/login"[..6] != ProtectedPrefix by { assert "/login"[..6][1] != ProtectedPrefix[1]; }
  }
}

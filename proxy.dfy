/**
 * The edge guard `proxy` of proxy.ts: an early-return cascade over the
 * request path and its `access_token` cookie. The Next.js response is the
 * returned `Decision`; the cookie deletions it carries are part of it.
 */
module Proxy {
  import opened Wrappers
  import opened Text
  import opened Routes
  import opened Session
  import opened Cookies

  /** `NextResponse.next()`, or a redirect that also deletes the named cookies. */
  datatype Decision = Next | Redirect(target: string, deleteCookies: seq<string>)

  /**
   * The cascade after its first guard: public, no token, invalid session,
   * route not allowed, allow. `isPublic` is the result of the public-route
   * test and `token` the request's `access_token` value, if any.
   */
  function Cascade(isPublic: bool, path: string, token: Option<string>,
                   decode: string -> Option<Claims>, nowMs: int): (d: Decision)
    ensures d.Next? <==>
      isPublic || (token.Some? && token.value != "" && VerifySession(token.value, decode, nowMs).Some? && IsRouteAllowedForRole(path))
    ensures d.Redirect? ==> d.target == LOGIN || d.target == DASHBOARD
    ensures d.Redirect? && d.target == DASHBOARD <==>
      !isPublic && token.Some? && token.value != "" &&
      VerifySession(token.value, decode, nowMs).Some? && !IsRouteAllowedForRole(path)
    ensures d.Redirect? && d.deleteCookies != [] <==>
      !isPublic && token.Some? && token.value != "" && VerifySession(token.value, decode, nowMs).None?
    ensures d.Redirect? && d.deleteCookies != [] ==> d.target == LOGIN && d.deleteCookies == [TOKEN_COOKIE, USER_COOKIE]
  {
    if isPublic then Next
    else if token.None? || token.value == "" then Redirect(LOGIN, [])
    else if VerifySession(token.value, decode, nowMs).None? then Redirect(LOGIN, [TOKEN_COOKIE, USER_COOKIE])
    else if !IsRouteAllowedForRole(path) then Redirect(DASHBOARD, [])
    else Next
  }

  /**
   * `proxy(request)` as written, with the public-route test of the route
   * table: a request passes when its path starts with `/`, or when it carries
   * a verified token for a route of the role.
   */
  function ProxyAsWritten(path: string, token: Option<string>, decode: string -> Option<Claims>, nowMs: int): (d: Decision)
    ensures d.Next? <==>
      StartsWith(path, "/") ||
      (token.Some? && token.value != "" && VerifySession(token.value, decode, nowMs).Some? && IsRouteAllowedForRole(path))
  {
    Cascade(IsPublicRoute(path), path, token, decode, nowMs)
  }

  /**
   * `proxy(request)` with the intended public-route test: only `/` itself and
   * the login pages pass without a verified token for a route of the role.
   */
  function Proxy(path: string, token: Option<string>, decode: string -> Option<Claims>, nowMs: int): (d: Decision)
    ensures d.Next? <==>
      path == "/" || StartsWith(path, LOGIN) ||
      (token.Some? && token.value != "" && VerifySession(token.value, decode, nowMs).Some? && IsRouteAllowedForRole(path))
  {
    IntendedIff(path);
    Cascade(IsPublicRouteIntended(path), path, token, decode, nowMs)
  }

  /** A missing or empty token on a protected path goes to `/login` and deletes nothing. */
  lemma NoTokenToLogin(isPublic: bool, path: string, token: Option<string>, decode: string -> Option<Claims>, nowMs: int)
    requires !isPublic && (token.None? || token.value == "")
    ensures Cascade(isPublic, path, token, decode, nowMs) == Redirect(LOGIN, [])
  {
  }

  /** As written, every path beginning with `/` passes, with or without a cookie. */
  lemma RootedPathsPassAsWritten(path: string, token: Option<string>, decode: string -> Option<Claims>, nowMs: int)
    requires StartsWith(path, "/")
    ensures ProxyAsWritten(path, token, decode, nowMs) == Next
  {
  }

  /** As written, a dashboard page requested without a cookie is let through. */
  lemma DashboardWithoutCookieAsWritten(decode: string -> Option<Claims>, nowMs: int)
    ensures ProxyAsWritten("/dashboard/usuarios", None, decode, nowMs) == Next
  {
    RootedPathsPassAsWritten("/dashboard/usuarios", None, decode, nowMs);
  }

  /** With the intended test, a dashboard path without a token goes to `/login`. */
  lemma DashboardWithoutCookieIntended(path: string, token: Option<string>, decode: string -> Option<Claims>, nowMs: int)
    requires StartsWith(path, DASHBOARD) && (token.None? || token.value == "")
    ensures Proxy(path, token, decode, nowMs) == Redirect(LOGIN, [])
  {
    DashboardNotPublicIntended(path);
  }

  /** With the intended test, a dashboard path passes exactly when the session verifies. */
  lemma DashboardNeedsSession(path: string, token: Option<string>, decode: string -> Option<Claims>, nowMs: int)
    requires StartsWith(path, DASHBOARD)
    ensures Proxy(path, token, decode, nowMs).Next? <==>
      token.Some? && token.value != "" && VerifySession(token.value, decode, nowMs).Some?
  {
    DashboardNotPublicIntended(path);
    NormalizeText(path);
    // the part before '?' still starts with /dashboard, which holds no '?'
    var k := FirstIndexOf(path, '?');
    assert forall j :: 0 <= j < |DASHBOARD| ==> path[j] == DASHBOARD[j] && DASHBOARD[j] != '?';
    assert k >= |DASHBOARD|;
    assert Normalize(path)[..|DASHBOARD|] == path[..|DASHBOARD|];
  }
}

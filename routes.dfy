/**
 * The route tables of src/lib/constants/routes.ts and the two classifiers
 * over them: `isPublicRoute` (prefix match against the public routes) and
 * `isRouteAllowedForRole` (prefix match of the path without its query string
 * against the routes of the UNIVERSITAS role).
 */
module Routes {
  import opened Text

  const DASHBOARD: string := "/dashboard"
  const LOGIN: string := "/login"

  /** `PUBLIC_ROUTES`, in declaration order. */
  const PUBLIC_ROUTES: seq<string> := ["/login", "/"]

  /** `Object.values(ROLE_ROUTES.UNIVERSITAS)`, in declaration order. */
  const ROLE_ROUTES: seq<string> :=
    ["/dashboard", "/dashboard/contrataciones", "/dashboard/usuarios", "/dashboard/configuracion"]

  /** The `href` of every entry of the sidebar (src/config/sidebar-config.ts). */
  const SIDEBAR_HREFS: seq<string> :=
    ["/dashboard", "/dashboard/ente", "/dashboard/supervisor",
     "/dashboard/contrataciones", "/dashboard/usuarios", "/dashboard/configuracion"]

  /** `getDashboardRoute()`: the landing route of the role, which the role may visit. */
  function GetDashboardRoute(): (r: string)
    ensures r == "/dashboard"
    ensures StartsWith(r, DASHBOARD) && '?' !in r
  {
    DASHBOARD
  }

  /** `getRoleRoutes()`: every route of the role lies under the dashboard. */
  function GetRoleRoutes(): (routes: seq<string>)
    ensures |routes| == 4 && routes[0] == DASHBOARD
    ensures forall i :: 0 <= i < |routes| ==> StartsWith(routes[i], DASHBOARD) && '?' !in routes[i]
  {
    assert StartsWith(ROLE_ROUTES[1], DASHBOARD);
    assert StartsWith(ROLE_ROUTES[2], DASHBOARD);
    assert StartsWith(ROLE_ROUTES[3], DASHBOARD);
    ROLE_ROUTES
  }

  /** `path.split('?')[0]`: the path without its query string. */
  function Normalize(path: string): string {
    Split(path, "?")[0]
  }

  /**
   * `isRouteAllowedForRole(path)`: the path without its query starts with a
   * route of the role. Because the table begins with `/dashboard` and every
   * other entry lies below it, this is one prefix test.
   */
  predicate IsRouteAllowedForRole(path: string)
    ensures IsRouteAllowedForRole(path) <==> StartsWith(Normalize(path), DASHBOARD)
  {
    var routes := GetRoleRoutes();
    UnderFirstRoute(Normalize(path), routes);
    exists i :: 0 <= i < |routes| && StartsWith(Normalize(path), routes[i])
  }

  /** Prefix matching against a table headed by a route that prefixes all the others is matching that route. */
  lemma UnderFirstRoute(n: string, routes: seq<string>)
    requires |routes| >= 1 && forall i :: 0 <= i < |routes| ==> StartsWith(routes[i], routes[0])
    ensures (exists i :: 0 <= i < |routes| && StartsWith(n, routes[i])) <==> StartsWith(n, routes[0])
  {
    if exists i :: 0 <= i < |routes| && StartsWith(n, routes[i]) {
      var i :| 0 <= i < |routes| && StartsWith(n, routes[i]);
      StartsWithTrans(n, routes[i], routes[0]);
    }
  }

  /**
   * `isPublicRoute(path)`, as written: equal to, or starting with, a public
   * route. Since `/` is one of them, every path that starts with `/` is public.
   */
  predicate IsPublicRoute(path: string)
    ensures IsPublicRoute(path) <==> StartsWith(path, "/")
  {
    PublicTableRooted(path);
    exists i :: 0 <= i < |PUBLIC_ROUTES| && (path == PUBLIC_ROUTES[i] || StartsWith(path, PUBLIC_ROUTES[i]))
  }

  /** Matching the public table as written is the test for a leading `/`. */
  lemma PublicTableRooted(path: string)
    ensures (exists i :: 0 <= i < |PUBLIC_ROUTES| && (path == PUBLIC_ROUTES[i] || StartsWith(path, PUBLIC_ROUTES[i])))
      <==> StartsWith(path, "/")
  {
    if StartsWith(path, "/") {
      assert StartsWith(path, PUBLIC_ROUTES[1]);
    }
    if exists i :: 0 <= i < |PUBLIC_ROUTES| && (path == PUBLIC_ROUTES[i] || StartsWith(path, PUBLIC_ROUTES[i])) {
      var i :| 0 <= i < |PUBLIC_ROUTES| && (path == PUBLIC_ROUTES[i] || StartsWith(path, PUBLIC_ROUTES[i]));
      assert StartsWith(PUBLIC_ROUTES[i], "/");
      if path != PUBLIC_ROUTES[i] {
        StartsWithTrans(path, PUBLIC_ROUTES[i], "/");
      }
    }
  }

  /**
   * The classification the route table evidently intends: `/` is public only
   * as itself, `/login` together with everything below it.
   */
  predicate IsPublicRouteIntended(path: string) {
    exists i :: 0 <= i < |PUBLIC_ROUTES| &&
      (path == PUBLIC_ROUTES[i] || (PUBLIC_ROUTES[i] != "/" && StartsWith(path, PUBLIC_ROUTES[i])))
  }

  /** The normalized path is the text before the first `?`. */
  lemma NormalizeText(path: string)
    ensures Normalize(path) == path[..FirstIndexOf(path, '?')]
    ensures '?' !in Normalize(path)
  {
    assert "?" == ['?'];
    SplitHead(path, '?');
  }

  /** A path with no query string is its own normal form. */
  lemma NormalizeNoQuery(path: string)
    requires '?' !in path
    ensures Normalize(path) == path
  {
    NormalizeText(path);
    FirstIndexOfNone(path, '?');
  }

  /** Normalizing twice is normalizing once. */
  lemma NormalizeIdempotent(path: string)
    ensures Normalize(Normalize(path)) == Normalize(path)
  {
    NormalizeText(path);
    NormalizeNoQuery(Normalize(path));
  }

  /** The query string never affects whether a route is allowed. */
  lemma QueryIgnored(path: string)
    ensures IsRouteAllowedForRole(path) == IsRouteAllowedForRole(Normalize(path))
  {
    NormalizeIdempotent(path);
  }

  /** A path without a query string is allowed exactly when it lies under `/dashboard`. */
  lemma AllowedPlain(path: string)
    requires '?' !in path
    ensures IsRouteAllowedForRole(path) <==> StartsWith(path, DASHBOARD)
  {
    NormalizeNoQuery(path);
  }

  /** The dashboard route is always allowed. */
  lemma DashboardRouteAllowed()
    ensures IsRouteAllowedForRole(GetDashboardRoute())
  {
    AllowedPlain(GetDashboardRoute());
  }

  /** Every route of the role table is allowed for the role. */
  lemma RoleRoutesAllowed()
    ensures forall i :: 0 <= i < |GetRoleRoutes()| ==> IsRouteAllowedForRole(GetRoleRoutes()[i])
  {
    var routes := GetRoleRoutes();
    forall i | 0 <= i < |routes| ensures IsRouteAllowedForRole(routes[i]) {
      AllowedPlain(routes[i]);
    }
  }

  /**
   * Every sidebar link is allowed, including `/dashboard/ente` and
   * `/dashboard/supervisor`, which are not in the role table.
   */
  lemma SidebarAllowed()
    ensures forall i :: 0 <= i < |SIDEBAR_HREFS| ==> IsRouteAllowedForRole(SIDEBAR_HREFS[i])
    ensures SIDEBAR_HREFS[1] !in GetRoleRoutes() && SIDEBAR_HREFS[2] !in GetRoleRoutes()
  {
    forall i | 0 <= i < |SIDEBAR_HREFS| ensures IsRouteAllowedForRole(SIDEBAR_HREFS[i]) {
      LinkAllowed(SIDEBAR_HREFS[i]);
    }
    // The two extra links differ in length from every route of the table.
    var routes := GetRoleRoutes();
    assert routes == ROLE_ROUTES;
    assert |SIDEBAR_HREFS[1]| == 15 && |SIDEBAR_HREFS[2]| == 21;
    assert |routes[0]| == 10 && |routes[1]| == 25 && |routes[2]| == 19 && |routes[3]| == 24;
  }

  /** A sidebar link is a role route or one of the two pages below `/dashboard`. */
  lemma LinkAllowed(h: string)
    requires h in SIDEBAR_HREFS
    ensures IsRouteAllowedForRole(h)
  {
    if h in ROLE_ROUTES {
      RoleRoutesAllowed();
    } else {
      assert h == "/dashboard/ente" || h == "/dashboard/supervisor";
      assert h[..|DASHBOARD|] == DASHBOARD;
      AllowedPlain(h);
    }
  }

  /** Equal to, or starting with, `/login` or `/` makes a path public. */
  lemma PublicRoutesPublic(path: string)
    requires path == LOGIN || StartsWith(path, LOGIN) || path == "/" || StartsWith(path, "/")
    ensures IsPublicRoute(path)
  {
    if path == LOGIN || StartsWith(path, LOGIN) {
      assert path == PUBLIC_ROUTES[0] || StartsWith(path, PUBLIC_ROUTES[0]);
    } else {
      assert path == PUBLIC_ROUTES[1] || StartsWith(path, PUBLIC_ROUTES[1]);
    }
  }

  /** As written, a protected dashboard page counts as public. */
  lemma DashboardPublicAsWritten()
    ensures IsPublicRoute("/dashboard/usuarios")
  {
  }

  /** The intended classification: `/` itself, and `/login` with everything below it. */
  lemma IntendedIff(path: string)
    ensures IsPublicRouteIntended(path) <==> path == "/" || StartsWith(path, LOGIN)
  {
    if path == "/" {
      assert path == PUBLIC_ROUTES[1];
    }
    if StartsWith(path, LOGIN) {
      assert PUBLIC_ROUTES[0] != "/" && StartsWith(path, PUBLIC_ROUTES[0]);
    }
  }

  /** Under the intended classification nothing below `/dashboard` is public. */
  lemma DashboardNotPublicIntended(path: string)
    requires StartsWith(path, DASHBOARD)
    ensures !IsPublicRouteIntended(path)
  {
    IntendedIff(path);
    assert path[..|DASHBOARD|][1] == 'd';
    assert path[..|LOGIN|][1] == path[1];
    assert path != "/";
  }
}

/**
 * frontend/src/router/index.js: the route table of the doctor's front end and
 * the navigation guard that sends visitors without a token to the login page.
 * Route components (lazy imports) and page titles are not modelled.
 */
module Router {
  import opened Wrappers

  datatype RouteRecord = RouteRecord(
    path: string,
    name: Option<string>,
    redirect: Option<string>,
    requiresAuth: Option<bool>,   // meta.requiresAuth; None when the record has no meta
    children: seq<RouteRecord>)

  const LoginPath := "/login"
  const HomePath := "/patient-management"

  const RootRoute := RouteRecord("/", None, Some(HomePath), None, [])
  const LoginRoute := RouteRecord(LoginPath, Some("login"), None, Some(false), [])
  const PatientsRoute := RouteRecord(HomePath, Some("patientManagement"), None, Some(true), [])
  const PredictRoute := RouteRecord("/effect-prediction", Some("effectPrediction"), None, Some(true), [])
  const RecordsRoute := RouteRecord("/prediction-records", Some("predictionRecords"), None, Some(true), [])
  const ProfileRoute := RouteRecord("/doctor-profile", Some("doctorProfile"), None, Some(true), [])
  const DoctorHomeRoute := RouteRecord("/doctorHome", Some("doctorHome"), Some(HomePath), None,
                                       [PatientsRoute, PredictRoute, RecordsRoute, ProfileRoute])

  /** The `routers` table. */
  const Routes: seq<RouteRecord> := [RootRoute, LoginRoute, DoctorHomeRoute]

  /** The four pages under doctorHome. */
  const ProtectedPaths: set<string> :=
    {HomePath, "/effect-prediction", "/prediction-records", "/doctor-profile"}

  /** Every path the table names. */
  const KnownPaths: set<string> := {"/", LoginPath, "/doctorHome"} + ProtectedPaths

  /**
   * `to.matched` for a path: the chain of records from a top-level record down to the
   * one whose path is `path`, or [] when no record has it (static paths, matched exactly).
   */
  function MatchIn(rs: seq<RouteRecord>, path: string): (m: seq<RouteRecord>)
    ensures m != [] ==> m[|m| - 1].path == path
    decreases rs
  {
    if rs == [] then []
    else if rs[0].path == path then [rs[0]]
    else
      var below := MatchIn(rs[0].children, path);
      if below != [] then [rs[0]] + below else MatchIn(rs[1..], path)
  }

  /** The records a navigation to `path` ends on, after the table's own redirect is followed. */
  function Resolve(path: string): seq<RouteRecord> {
    var m := MatchIn(Routes, path);
    if m != [] && m[|m| - 1].redirect.Some? then MatchIn(Routes, m[|m| - 1].redirect.value) else m
  }

  /** `to.meta.requiresAuth`: the meta of the matched records merged, the deepest one that sets it winning. */
  function MergedRequiresAuth(m: seq<RouteRecord>): Option<bool> {
    if m == [] then None
    else if m[|m| - 1].requiresAuth.Some? then m[|m| - 1].requiresAuth
    else MergedRequiresAuth(m[..|m| - 1])
  }

  /** `localStorage.getItem('access_token')` is truthy: present and not empty. */
  predicate TokenPresent(token: Option<string>) {
    token.Some? && token.value != ""
  }

  datatype Decision = Proceed | RedirectTo(target: string)

  /** The beforeEach guard, over `to.matched`, `to.meta.requiresAuth` and the stored token. */
  function Guard(matched: seq<RouteRecord>, requiresAuth: Option<bool>, token: Option<string>): (d: Decision)
    ensures d == Proceed || d == RedirectTo(LoginPath)
    ensures |matched| == 0 ==> d == RedirectTo(LoginPath)
    ensures |matched| > 0 && requiresAuth == Some(true) ==> (d == Proceed <==> TokenPresent(token))
    ensures |matched| > 0 && requiresAuth != Some(true) ==> d == Proceed
  {
    if |matched| == 0 then RedirectTo(LoginPath)
    else if requiresAuth == Some(true) then
      if !TokenPresent(token) then RedirectTo(LoginPath) else Proceed
    else Proceed
  }

  /** What the guard decides for a navigation to `path`. */
  function Navigate(path: string, token: Option<string>): Decision {
    var m := Resolve(path);
    Guard(m, MergedRequiresAuth(m), token)
  }

  /** The child of doctorHome whose path is `path`, if any. */
  function ChildFor(path: string): seq<RouteRecord> {
    if path == HomePath then [PatientsRoute]
    else if path == "/effect-prediction" then [PredictRoute]
    else if path == "/prediction-records" then [RecordsRoute]
    else if path == "/doctor-profile" then [ProfileRoute]
    else []
  }

  lemma MatchChildren(path: string)
    ensures MatchIn(DoctorHomeRoute.children, path) == ChildFor(path)
  {
    var c0 := DoctorHomeRoute.children;
    var c1, c2, c3 := c0[1..], c0[2..], c0[3..];
    assert c1 == [PredictRoute, RecordsRoute, ProfileRoute] && c2 == c1[1..] && c3 == c2[1..] && c3[1..] == [];
    assert MatchIn(c3, path) == if path == ProfileRoute.path then [ProfileRoute] else [];
    assert MatchIn(c2, path) == if path == RecordsRoute.path then [RecordsRoute] else MatchIn(c3, path);
    assert MatchIn(c1, path) == if path == PredictRoute.path then [PredictRoute] else MatchIn(c2, path);
    assert MatchIn(c0, path) == if path == PatientsRoute.path then [PatientsRoute] else MatchIn(c1, path);
  }

  /** How the table matches each path. */
  lemma MatchRoutes(path: string)
    ensures MatchIn(Routes, path) ==
      if path == "/" then [RootRoute]
      else if path == LoginPath then [LoginRoute]
      else if path == "/doctorHome" then [DoctorHomeRoute]
      else if ChildFor(path) != [] then [DoctorHomeRoute] + ChildFor(path)
      else []
  {
    MatchChildren(path);
    var r1, r2 := Routes[1..], Routes[2..];
    assert r1 == [LoginRoute, DoctorHomeRoute] && r2 == r1[1..] && r2[1..] == [];
    assert MatchIn(r2, path) == if path == "/doctorHome" then [DoctorHomeRoute]
                                else if ChildFor(path) != [] then [DoctorHomeRoute] + ChildFor(path)
                                else [];
    assert MatchIn(r1, path) == if path == LoginPath then [LoginRoute] else MatchIn(r2, path);
  }

  lemma ChildForKnown(path: string)
    ensures ChildFor(path) != [] <==> path in ProtectedPaths
  {
  }

  /** A path that matches no record is sent to the login page. */
  lemma UnknownPathGoesToLogin(path: string, token: Option<string>)
    requires path !in KnownPaths
    ensures Navigate(path, token) == RedirectTo(LoginPath)
  {
    MatchRoutes(path);
    ChildForKnown(path);
  }

  /** The four doctor pages open with a token and send to the login page without one. */
  lemma ProtectedPageNeedsToken(path: string, token: Option<string>)
    requires path in ProtectedPaths
    ensures Navigate(path, token) == (if TokenPresent(token) then Proceed else RedirectTo(LoginPath))
  {
    MatchRoutes(path);
    ChildForKnown(path);
    var m := MatchIn(Routes, path);
    assert m[|m| - 1].requiresAuth == Some(true);
  }

  /** The login page opens with or without a token. */
  lemma LoginPageAlwaysOpens(token: Option<string>)
    ensures Navigate(LoginPath, token) == Proceed
  {
    MatchRoutes(LoginPath);
  }

  /** "/" and "/doctorHome" both land on the patient-management page. */
  lemma RedirectsLandOnHome(token: Option<string>)
    ensures Resolve("/") == Resolve("/doctorHome") == MatchIn(Routes, HomePath)
    ensures Navigate("/", token) == Navigate("/doctorHome", token) == Navigate(HomePath, token)
  {
    MatchRoutes("/");
    MatchRoutes("/doctorHome");
    MatchRoutes(HomePath);
  }

  /**
   * The whole guard in one statement: a navigation proceeds iff the path is in the table
   * and it is the login page or a token is stored; otherwise it goes to /login.
   */
  lemma NavigateIff(path: string, token: Option<string>)
    ensures Navigate(path, token) == Proceed <==> path in KnownPaths && (path == LoginPath || TokenPresent(token))
    ensures Navigate(path, token) != Proceed ==> Navigate(path, token) == RedirectTo(LoginPath)
  {
    if path !in KnownPaths {
      UnknownPathGoesToLogin(path, token);
    } else if path == LoginPath {
      LoginPageAlwaysOpens(token);
    } else if path in ProtectedPaths {
      ProtectedPageNeedsToken(path, token);
    } else {
      RedirectsLandOnHome(token);
      ProtectedPageNeedsToken(HomePath, token);
    }
  }

  /** The guard's redirect never loops: the page it sends to opens. */
  lemma RedirectSettles(path: string, token: Option<string>)
    ensures Navigate(path, token).RedirectTo? ==> Navigate(Navigate(path, token).target, token) == Proceed
  {
    NavigateIff(path, token);
    LoginPageAlwaysOpens(token);
  }
}

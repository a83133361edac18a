/** The client's route dispatch: from the path and the session state to the
    view rendered or the redirect issued. The first route that matches wins. */
module ClientApp {
  import opened Common
  import opened Models

  /** What the router renders for a path. */
  datatype View =
    | LoginPage
    | Redirect(to: seq<string>)
    | AdminDashboard
    | Dashboard
    | LeadPage
    | SalesPage
    | CourseDetailPage(id: string)
    | ProfileView

  /** The dashboard a logged-in user gets, by role; any role the chain does
      not name gets the sales page. */
  function DashboardFor(role: string): (r: View)
    ensures r.AdminDashboard? || r.Dashboard? || r.LeadPage? || r.SalesPage?
    ensures r.Dashboard? <==> role == "teacher" || role == "student"
  {
    if role == "admin" then AdminDashboard
    else if role == "teacher" then Dashboard
    else if role == "student" then Dashboard
    else if role == "lead" then LeadPage
    else SalesPage
  }

  /** The routes in order: "/", "/login", "/dashboard", "/courses/:id",
      "/profile/:id", "/profile/" and the catch-all. A path is given as its
      segments without the leading slash ("/" is [], "/courses/7" is
      ["courses", "7"]). */
  function Route(path: seq<string>, isLoggedIn: bool, currentUser: Option<UserResponse>): (r: View)
    ensures r.Redirect? ==> r.to == [] || r.to == ["dashboard"]
    ensures (r.AdminDashboard? || r.Dashboard? || r.LeadPage? || r.SalesPage?) <==>
              path == ["dashboard"] && isLoggedIn && currentUser.Some?
    ensures r.CourseDetailPage? <==>
              |path| == 2 && path[0] == "courses" && path[1] != "" && isLoggedIn && currentUser.Some?
    ensures r.CourseDetailPage? ==> r.id == path[1]
    ensures r.ProfileView? <==> path == ["profile"] || (|path| == 2 && path[0] == "profile" && path[1] != "")
    ensures r == LoginPage <==> path == ["login"] || (path == [] && !(isLoggedIn && currentUser.Some?))
  {
    if path == [] then
      if !isLoggedIn || currentUser.None? then LoginPage else Redirect(["dashboard"])
    else if path == ["login"] then LoginPage
    else if path == ["dashboard"] then
      if isLoggedIn && currentUser.Some? then DashboardFor(currentUser.value.role) else Redirect([])
    else if |path| == 2 && path[0] == "courses" && path[1] != "" then
      if isLoggedIn && currentUser.Some? then CourseDetailPage(path[1]) else Redirect([])
    else if |path| == 2 && path[0] == "profile" && path[1] != "" then ProfileView
    else if path == ["profile"] then ProfileView
    else Redirect(if isLoggedIn then ["dashboard"] else [])
  }

  /** The session store keeps isLoggedIn equal to "there is a current user". */
  predicate Consistent(isLoggedIn: bool, currentUser: Option<UserResponse>)
  {
    isLoggedIn <==> currentUser.Some?
  }

  /** Without a session user no page behind the login is rendered, whatever the path. */
  lemma GuardedPagesNeedSession(path: seq<string>, currentUser: Option<UserResponse>)
    requires Consistent(false, currentUser)
    ensures var v := Route(path, false, currentUser);
            !v.AdminDashboard? && !v.Dashboard? && !v.LeadPage? && !v.SalesPage? && !v.CourseDetailPage?
  {
  }

  /** A redirect is followed by exactly one more dispatch, which renders a
      page: the login page without a session, the role's dashboard with one. */
  lemma RedirectsSettle(path: seq<string>, isLoggedIn: bool, currentUser: Option<UserResponse>)
    requires Consistent(isLoggedIn, currentUser)
    requires Route(path, isLoggedIn, currentUser).Redirect?
    ensures var next := Route(Route(path, isLoggedIn, currentUser).to, isLoggedIn, currentUser);
            !next.Redirect? &&
            (!isLoggedIn ==> next == LoginPage) &&
            (isLoggedIn ==> next == DashboardFor(currentUser.value.role))
  {
    var to := Route(path, isLoggedIn, currentUser).to;
    assert to == [] || to == ["dashboard"];
    assert ["dashboard"] != ["login"];
  }

  /** Among the roles a user can be stored with, only "sales" reaches the
      sales page; each stored role has its own dashboard branch. */
  lemma SalesPageOnlyForSales(role: string)
    requires StorableRole(role)
    ensures DashboardFor(role) == SalesPage <==> role == "sales"
    ensures DashboardFor(role) == LeadPage <==> role == "lead"
    ensures DashboardFor(role) == AdminDashboard <==> role == "admin"
  {
  }

  /** The profile routes render whatever the session holds. */
  lemma ProfileIgnoresSession(id: string, isLoggedIn: bool, currentUser: Option<UserResponse>)
    requires id != ""
    ensures Route(["profile", id], isLoggedIn, currentUser) == ProfileView
    ensures Route(["profile"], isLoggedIn, currentUser) == ProfileView
  {
    assert ["profile", id] != ["login"] && ["profile", id] != ["dashboard"];
  }
}

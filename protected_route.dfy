/** The client's route guard (client/src/components/ProtectedRoute.jsx):
    render the protected page or redirect, from the session and the role the
    route requires. */
module ProtectedRoute {
  import opened Wrappers

  datatype Outcome = ShowChildren | Redirect(to: string)

  /** A `requiredRole` prop is truthy when given and not empty. */
  predicate Requires(requiredRole: Option<string>) {
    requiredRole.Some? && requiredRole.value != ""
  }

  /** The dashboard a user is sent to when the role does not fit; `userRole`
      is `user?.role`, None when there is no user object. */
  function DashboardFor(userRole: Option<string>): (path: string)
    ensures path == "/admin" <==> userRole == Some("admin")
    ensures path == "/seller" <==> userRole == Some("seller")
    ensures path == "/admin" || path == "/seller" || path == "/user"
  {
    if userRole == Some("admin") then "/admin"
    else if userRole == Some("seller") then "/seller"
    else "/user"
  }

  /** The guard. The page shows exactly for an authenticated session that
      either needs no role or has the required one; an anonymous visitor
      always goes to /login, and nobody authenticated ever does. */
  function Guard(isAuthenticated: bool, userRole: Option<string>, requiredRole: Option<string>): (r: Outcome)
    ensures r == ShowChildren <==>
      isAuthenticated && (!Requires(requiredRole) || userRole == requiredRole)
    ensures !isAuthenticated ==> r == Redirect("/login")
    ensures isAuthenticated ==> r != Redirect("/login")
    ensures isAuthenticated && Requires(requiredRole) && userRole != requiredRole ==>
      r == Redirect(DashboardFor(userRole))
  {
    if !isAuthenticated then Redirect("/login")
    else if Requires(requiredRole) && userRole != requiredRole then Redirect(DashboardFor(userRole))
    else ShowChildren
  }
}

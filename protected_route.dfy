/** The client route guard: what a protected route renders, decided from the
    authentication state, the requested path and the roles it admits. */
module ProtectedRoute {
  import opened Wrappers
  import opened Text

  /** What the guard renders: the loading screen, a replacing navigation
      (carrying the requested location when it goes to a login page), or the
      nested routes. */
  datatype View = LoadingView | Redirect(to: string, from: Option<string>) | Outlet

  const AdminPrefix: string := "/admin"
  const AdminLogin: string := "/admin/login"
  const Login: string := "/login"
  const Unauthorized: string := "/unauthorized"

  /** `allowedRoles.includes(role)`: a role that is not set matches nothing. */
  predicate RoleAllowed(allowed: seq<string>, role: Option<string>) {
    role.Some? && role.value in allowed
  }

  /** The guard. `allowedRoles` is optional; a given list, even an empty one,
      is truthy and so is checked. */
  function Guard(loading: bool, signedIn: bool, role: Option<string>, path: string,
                 allowedRoles: Option<seq<string>>): (v: View)
    ensures loading ==> v == LoadingView
    ensures !loading && !signedIn ==>
      v == Redirect(if StartsWith(path, AdminPrefix) then AdminLogin else Login, Some(path))
    ensures !loading && signedIn && allowedRoles.Some? && !RoleAllowed(allowedRoles.value, role) ==>
      v == Redirect(Unauthorized, None)
    ensures v == Outlet <==>
      !loading && signedIn && (allowedRoles.None? || RoleAllowed(allowedRoles.value, role))
  {
    if loading then LoadingView
    else if !signedIn then
      if StartsWith(path, AdminPrefix) then Redirect(AdminLogin, Some(path))
      else Redirect(Login, Some(path))
    else if allowedRoles.Some? && !RoleAllowed(allowedRoles.value, role) then Redirect(Unauthorized, None)
    else Outlet
  }

  /** Behind an admin-only route, the nested routes are shown only to a
      signed-in admin, and to every signed-in admin. */
  lemma AdminRouteAdmitsOnlyAdmins(loading: bool, signedIn: bool, role: Option<string>, path: string)
    ensures Guard(loading, signedIn, role, path, Some(["admin"])) == Outlet
        <==> !loading && signedIn && role == Some("admin")
  {
  }

  /** Only a signed-out visit to an admin path is sent to the admin login,
      and a login redirect always remembers the requested path. */
  lemma LoginRedirects(loading: bool, signedIn: bool, role: Option<string>, path: string,
                       allowedRoles: Option<seq<string>>)
    ensures Guard(loading, signedIn, role, path, allowedRoles).Redirect?
            && Guard(loading, signedIn, role, path, allowedRoles).to == AdminLogin
        <==> !loading && !signedIn && StartsWith(path, AdminPrefix)
    ensures Guard(loading, signedIn, role, path, allowedRoles).Redirect?
            && Guard(loading, signedIn, role, path, allowedRoles).to != Unauthorized
        ==> Guard(loading, signedIn, role, path, allowedRoles).from == Some(path)
  {
  }

  /** An empty list of admitted roles turns every signed-in visitor away. */
  lemma EmptyRolesAdmitNobody(loading: bool, signedIn: bool, role: Option<string>, path: string)
    ensures Guard(loading, signedIn, role, path, Some([])) != Outlet
  {
  }
}

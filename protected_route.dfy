/**
 * The route guard: it waits while the session is checked, sends a visitor
 * without a session to the login page, and lets a user through when the
 * route needs no role or the user holds one of the roles it names.
 */
module ProtectedRoute {
  import opened Js

  datatype User = User(roles: seq<string>)

  /** What the guard renders. */
  datatype Outcome = Spinner | Redirect(to: string) | Children

  /** `user?.roles.some(role => requiredRoles.includes(role))`. */
  predicate HasRequiredRole(user: Option<User>, requiredRoles: seq<string>) {
    user.Some? && exists i :: 0 <= i < |user.value.roles| && user.value.roles[i] in requiredRoles
  }

  /** `ProtectedRoute` for the auth state and the route's optional role list. */
  function Guard(isLoading: bool, isAuthenticated: bool, user: Option<User>, requiredRoles: Option<seq<string>>): (r: Outcome)
    ensures isLoading ==> r == Spinner
    ensures !isLoading && !isAuthenticated ==> r == Redirect("/login")
    ensures r == Children <==>
      !isLoading && isAuthenticated
      && (requiredRoles.None? || requiredRoles.value == [] || HasRequiredRole(user, requiredRoles.value))
    ensures r == Redirect("/unauthorized") <==>
      !isLoading && isAuthenticated
      && requiredRoles.Some? && requiredRoles.value != [] && !HasRequiredRole(user, requiredRoles.value)
  {
    if isLoading then Spinner
    else if !isAuthenticated then Redirect("/login")
    else if requiredRoles.Some? && |requiredRoles.value| > 0 && !HasRequiredRole(user, requiredRoles.value) then Redirect("/unauthorized")
    else Children
  }

  /** Granting more roles to a user never takes a route away from them. */
  lemma MoreRolesNeverHurt(isAuthenticated: bool, roles: seq<string>, extra: seq<string>, requiredRoles: Option<seq<string>>)
    requires Guard(false, isAuthenticated, Some(User(roles)), requiredRoles) == Children
    ensures Guard(false, isAuthenticated, Some(User(roles + extra)), requiredRoles) == Children
  {
    if requiredRoles.Some? && requiredRoles.value != [] {
      var i :| 0 <= i < |roles| && roles[i] in requiredRoles.value;
      assert (roles + extra)[i] == roles[i];
    }
  }

  /** A user without roles only reaches routes that require none. */
  lemma NoRolesOnlyOpenRoutes(requiredRoles: seq<string>)
    requires requiredRoles != []
    ensures Guard(false, true, Some(User([])), Some(requiredRoles)) == Redirect("/unauthorized")
    ensures Guard(false, true, None, Some(requiredRoles)) == Redirect("/unauthorized")
  {
  }
}

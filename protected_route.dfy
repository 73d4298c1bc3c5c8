/**
  The client route guard (frontend/src/components/ProtectedRoute.tsx): which
  page a visitor of a protected route sees.
 */
module ProtectedRoute {
  import opened Wrappers
  import opened Permissions
  import opened Views

  /** Where the guard sends the visitor. */
  datatype Decision = RedirectHome | RedirectNotAuthorized | ShowChildren

  /** The guard. `user` is the signed-in user's flags from the user response
      (None when no user is loaded); `instructorOrStaff` is the optional prop,
      which only takes effect when it is `true`. */
  function Guard(isAuthenticated: bool, user: Option<UserFlags>, instructorOrStaff: Option<bool>): (d: Decision)
    ensures !isAuthenticated ==> d == RedirectHome
    ensures isAuthenticated && instructorOrStaff == Some(true) ==>
      (d == ShowChildren <==> user.Some? && (user.value.isInstructor || user.value.isStaff))
    ensures isAuthenticated && instructorOrStaff == Some(true) ==> d != RedirectHome
    ensures isAuthenticated && instructorOrStaff != Some(true) ==> d == ShowChildren
  {
    if !isAuthenticated then RedirectHome
    else if instructorOrStaff == Some(true) &&
            !(user.Some? && (user.value.isInstructor || user.value.isStaff)) then RedirectNotAuthorized
    else ShowChildren
  }

  /** For a signed-in user whose flags came from the backend, an
      instructor-or-staff route shows its page exactly when the backend's
      staff-or-instructor permission admits that user. */
  lemma GuardAgreesWithPermission(u: User)
    ensures Guard(true, Some(UserData(u)), Some(true)) == ShowChildren <==> HasPermission(Some(u))
  {
  }
}

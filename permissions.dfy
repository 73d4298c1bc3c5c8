/**
  The backend's staff-or-instructor permission (main/permissions.py) and the
  user record it inspects.
 */
module Permissions {
  import opened Wrappers

  /** A signed-in user: id, staff flag and the names of its groups. */
  datatype User = User(id: nat, isStaff: bool, groups: set<string>)

  const InstructorsGroup: string := "Instructors"

  /** `user.groups.filter(name="Instructors").exists()`. */
  predicate IsInstructor(u: User) {
    InstructorsGroup in u.groups
  }

  /** `IsStaffOrIsInstructor.has_permission`: the request's user, when there
      is one, must be staff or belong to the "Instructors" group. */
  function HasPermission(user: Option<User>): (granted: bool)
    ensures user.None? ==> !granted
    ensures user.Some? && user.value.isStaff ==> granted
    ensures user.Some? && "Instructors" in user.value.groups ==> granted
    ensures user.Some? && !user.value.isStaff && "Instructors" !in user.value.groups ==> !granted
  {
    match user
    case None => false
    case Some(u) => u.isStaff || IsInstructor(u)
  }
}

/** The access decisions of the route decorators `role_required`,
    `permission_required` and `scope_check`: each either lets the view run
    or aborts with an HTTP status. */
module Decorators {
  import opened Wrappers
  import opened OrgModel
  import opened UserModel
  import opened OrganizationService

  /** What a decorated request comes to: the view runs, the request is
      aborted with a status, or the decorator itself fails (reading
      `role.role_name` of a user without a role raises, which the server
      turns into a 500). */
  datatype Outcome = Proceed | Abort(status: int) | Crash

  const Unauthorized: int := 401
  const Forbidden: int := 403
  const BadRequest: int := 400

  /** `role_required(*role_names)`: 401 when not signed in, then the role's
      own name must be one of `roleNames`. */
  function RoleRequired(user: AuthUser, roleNames: seq<string>): (r: Outcome)
    ensures r == Abort(Unauthorized) <==> !user.isAuthenticated
    ensures r == Crash <==> user.isAuthenticated && user.role.None?
    ensures r == Proceed <==> user.isAuthenticated && user.role.Some? && user.role.value.name in roleNames
    ensures r == Abort(Forbidden) <==> user.isAuthenticated && user.role.Some? && user.role.value.name !in roleNames
  {
    if !user.isAuthenticated then Abort(Unauthorized)
    else if user.role.None? then Crash
    else if user.role.value.name !in roleNames then Abort(Forbidden)
    else Proceed
  }

  /** For a signed-in user with a role, `role_required` admits exactly
      those `has_role` accepts; a user without a role is never admitted,
      even where `has_role` would accept the name "unknown". */
  lemma RoleRequiredMatchesHasRole(user: AuthUser, roleNames: seq<string>)
    requires user.isAuthenticated
    ensures user.role.Some? ==> (RoleRequired(user, roleNames) == Proceed <==> HasRole(user, roleNames))
    ensures user.role.None? ==> RoleRequired(user, roleNames) != Proceed
    ensures user.role.None? && "unknown" in roleNames ==> HasRole(user, roleNames)
  {
    HasRoleCases(user, roleNames);
  }

  /** `permission_required(permission_name)`: 401 when not signed in, 403
      unless `has_permission` holds. */
  function PermissionRequired(user: AuthUser, permission: string): (r: Outcome)
    ensures r != Crash
    ensures r == Abort(Unauthorized) <==> !user.isAuthenticated
    ensures r == Proceed <==> user.isAuthenticated && user.role.Some? && permission in user.role.value.permissions
  {
    if !user.isAuthenticated then Abort(Unauthorized)
    else if !HasPermission(user, permission) then Abort(Forbidden)
    else Proceed
  }

  /** `scope_check(entity_type, entity_id_kwarg)` on a request whose route
      arguments are `kwargs`: 401 when not signed in, 400 when the id
      argument is missing, org-scoped users pass, and otherwise only the
      `department` and `position` entity types are checked; every other
      type is denied. */
  function ScopeCheck(org: Org, user: AuthUser, entityType: string, idArg: string, kwargs: map<string, int>): (r: Outcome)
    ensures r != Crash
    ensures r == Abort(Unauthorized) <==> !user.isAuthenticated
    ensures r == Abort(BadRequest) <==> user.isAuthenticated && idArg !in kwargs
    ensures r in {Proceed, Abort(Unauthorized), Abort(BadRequest), Abort(Forbidden)}
    // Org-scoped users pass whatever the entity type.
    ensures user.isAuthenticated && idArg in kwargs && HasOrgScope(user) ==> r == Proceed
    // Otherwise a department or position passes exactly when its access
    // check does, and no other type (the documented `division` included)
    // passes at all.
    ensures user.isAuthenticated && idArg in kwargs && entityType == "department" ==>
      (r == Proceed <==> UserCanAccessDepartment(org, user, kwargs[idArg]))
    ensures user.isAuthenticated && idArg in kwargs && entityType == "position" ==>
      (r == Proceed <==> UserCanAccessPosition(org, user, kwargs[idArg]))
    ensures user.isAuthenticated && idArg in kwargs && entityType != "department" && entityType != "position" ==>
      (r == Proceed <==> HasOrgScope(user))
  {
    if !user.isAuthenticated then Abort(Unauthorized)
    else if idArg !in kwargs then Abort(BadRequest)
    else if HasOrgScope(user) then Proceed
    else
      var id := kwargs[idArg];
      var hasAccess :=
        if entityType == "department" then UserCanAccessDepartment(org, user, id)
        else if entityType == "position" then UserCanAccessPosition(org, user, id)
        else false;
      if hasAccess then Proceed else Abort(Forbidden)
  }
}

/** Users, their role and their organisational scopes (the `auth` schema),
    with the convenience checks the `User` model offers. */
module UserModel {
  import opened Wrappers

  /** A role with the names of the permissions its role-permission rows grant. */
  datatype Role = Role(id: int, name: string, permissions: seq<string>, isActive: bool)

  /** `scopeType` is "organization", "department" or "division"; the
      matching id column is set for the latter two. */
  datatype Scope = Scope(scopeType: string, departmentId: Option<int>, divisionId: Option<int>)

  /** The signed-in user as the access checks see it: the role it is joined
      to (None when the relationship is empty) and its scope rows in order. */
  datatype AuthUser = AuthUser(
    isAuthenticated: bool, firstName: string, lastName: string,
    role: Option<Role>, scopes: seq<Scope>)

  /** One row of `auth.user` together with its scope rows, as the
      provisioning code reads and writes it. `employeeId` is the employee
      link the HR sync maintains; times are plain integers. */
  datatype UserRow = UserRow(
    id: int, entraObjectId: Option<string>, email: string, firstName: string, lastName: string,
    roleId: int, employeeId: Option<int>, isActive: bool, scopes: seq<Scope>,
    provisionedBy: Option<int>, provisionedAt: Option<int>,
    firstLoginAt: Option<int>, lastLogin: Option<int>)

  const OrganizationScope: string := "organization"
  const DepartmentScope: string := "department"
  const DivisionScope: string := "division"

  /** `User.full_name`: first and last name joined by one space. */
  function FullName(u: AuthUser): (r: string)
    ensures |r| == |u.firstName| + 1 + |u.lastName|
    ensures r[..|u.firstName|] == u.firstName && r[|u.firstName|] == ' '
    ensures r[|u.firstName| + 1..] == u.lastName
  {
    u.firstName + " " + u.lastName
  }

  /** `User.role_name`: "unknown" when the user has no role. */
  function RoleName(u: AuthUser): (r: string)
    ensures u.role.Some? ==> r == u.role.value.name
    ensures u.role.None? ==> r == "unknown"
  {
    match u.role
    case Some(role) => role.name
    case None => "unknown"
  }

  /** `User.has_role(*names)`: a user without a role counts as "unknown". */
  predicate HasRole(u: AuthUser, names: seq<string>): (r: bool)
    ensures u.role.None? ==> (r <==> "unknown" in names)
    ensures u.role.Some? ==> (r <==> u.role.value.name in names)
  {
    RoleName(u) in names
  }

  /** A user without a role passes `has_role` exactly when "unknown" is one
      of the names asked for; with a role, exactly when its name is. */
  lemma HasRoleCases(u: AuthUser, names: seq<string>)
    ensures u.role.None? ==> (HasRole(u, names) <==> "unknown" in names)
    ensures u.role.Some? ==> (HasRole(u, names) <==> u.role.value.name in names)
  {
  }

  /** `User.has_permission(name)`: false without a role, otherwise whether
      one of the role's permissions has that name. */
  function HasPermission(u: AuthUser, permission: string): (r: bool)
    ensures r <==> u.role.Some? && permission in u.role.value.permissions
  {
    match u.role
    case None => false
    case Some(role) => exists k :: 0 <= k < |role.permissions| && role.permissions[k] == permission
  }

  /** `any(s.scope_type == t for s in scopes)` */
  predicate HasScopeType(scopes: seq<Scope>, t: string) {
    exists k :: 0 <= k < |scopes| && scopes[k].scopeType == t
  }

  /** `User.has_org_scope()` */
  function HasOrgScope(u: AuthUser): (r: bool)
    ensures r <==> exists s :: s in u.scopes && s.scopeType == OrganizationScope
  {
    exists k :: 0 <= k < |u.scopes| && u.scopes[k].scopeType == OrganizationScope
  }

  /** The department ids of the department scopes among `scopes`, in order. */
  function DepartmentIdsOf(scopes: seq<Scope>): (r: seq<int>)
    ensures |r| <= |scopes|
    ensures forall id :: id in r <==>
      exists s :: s in scopes && s.scopeType == DepartmentScope && s.departmentId == Some(id)
  {
    if scopes == [] then []
    else
      var s := scopes[|scopes| - 1];
      var front := DepartmentIdsOf(scopes[..|scopes| - 1]);
      assert forall t :: t in scopes <==> t in scopes[..|scopes| - 1] || t == s;
      if s.scopeType == DepartmentScope && s.departmentId.Some? then front + [s.departmentId.value]
      else front
  }

  /** The division ids of the division scopes among `scopes`, in order. */
  function DivisionIdsOf(scopes: seq<Scope>): (r: seq<int>)
    ensures |r| <= |scopes|
    ensures forall id :: id in r <==>
      exists s :: s in scopes && s.scopeType == DivisionScope && s.divisionId == Some(id)
  {
    if scopes == [] then []
    else
      var s := scopes[|scopes| - 1];
      var front := DivisionIdsOf(scopes[..|scopes| - 1]);
      assert forall t :: t in scopes <==> t in scopes[..|scopes| - 1] || t == s;
      if s.scopeType == DivisionScope && s.divisionId.Some? then front + [s.divisionId.value]
      else front
  }

  /** `User.scoped_department_ids()` */
  function ScopedDepartmentIds(u: AuthUser): seq<int> {
    DepartmentIdsOf(u.scopes)
  }

  /** `User.scoped_division_ids()` */
  function ScopedDivisionIds(u: AuthUser): seq<int> {
    DivisionIdsOf(u.scopes)
  }

  /** The scope lists keep the order of the scope rows: adding one scope row
      appends at most its own id. */
  lemma {:induction false} DepartmentIdsAppend(scopes: seq<Scope>, s: Scope)
    ensures DepartmentIdsOf(scopes + [s]) ==
      DepartmentIdsOf(scopes) + (if s.scopeType == DepartmentScope && s.departmentId.Some? then [s.departmentId.value] else [])
  {
    assert (scopes + [s])[..|scopes|] == scopes;
  }
}

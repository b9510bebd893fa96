/** Scope-aware reads of the organisation hierarchy: the department,
    division and position lists a user sees, the access checks behind the
    `scope_check` decorator, and the authorized-headcount aggregate. List
    order (by name or title) is not modelled: results keep table order. */
module OrganizationService {
  import opened Wrappers
  import opened OrgModel
  import opened UserModel
  import opened Seqs

  /** Every row of each table has its own id (primary keys). */
  predicate UniqueIds(org: Org) {
    && (forall i, j :: 0 <= i < j < |org.departments| ==> org.departments[i].id != org.departments[j].id)
    && (forall i, j :: 0 <= i < j < |org.divisions| ==> org.divisions[i].id != org.divisions[j].id)
    && (forall i, j :: 0 <= i < j < |org.positions| ==> org.positions[i].id != org.positions[j].id)
  }

  /** The department ids a scoped user's department list admits: the
      department scopes plus the parents of the scoped divisions. */
  predicate DepartmentInScope(org: Org, user: AuthUser, departmentId: int) {
    || departmentId in ScopedDepartmentIds(user)
    || exists div :: div in org.divisions && div.id in ScopedDivisionIds(user) && div.departmentId == departmentId
  }

  predicate DepartmentListed(org: Org, user: AuthUser, includeInactive: bool, d: Department) {
    && (includeInactive || d.isActive)
    && (HasOrgScope(user) || DepartmentInScope(org, user, d.id))
  }

  /** `get_departments(user, include_inactive)`: exactly the departments
      the user may open, active ones only unless inactive ones are asked
      for. */
  function GetDepartments(org: Org, user: AuthUser, includeInactive: bool): (r: seq<Department>)
    ensures forall d :: d in r <==>
      d in org.departments && (includeInactive || d.isActive) && UserCanAccessDepartment(org, user, d.id)
  {
    Filter(org.departments, d => DepartmentListed(org, user, includeInactive, d))
  }

  /** The scope filter of `get_divisions`: both kinds of scope combine with
      OR, a single kind filters alone, and no scope at all filters nothing. */
  predicate DivisionScopeFilter(user: AuthUser, div: Division) {
    var deptIds := ScopedDepartmentIds(user);
    var divIds := ScopedDivisionIds(user);
    if |deptIds| > 0 && |divIds| > 0 then div.departmentId in deptIds || div.id in divIds
    else if |deptIds| > 0 then div.departmentId in deptIds
    else if |divIds| > 0 then div.id in divIds
    else true
  }

  predicate DivisionListed(user: AuthUser, departmentId: Option<int>, includeInactive: bool, div: Division) {
    && (includeInactive || div.isActive)
    && (departmentId.None? || div.departmentId == departmentId.value)
    && (HasOrgScope(user) || DivisionScopeFilter(user, div))
  }

  /** `get_divisions(user, department_id, include_inactive)`. An org-scoped
      user and a user without any scope row both get every division that
      passes the department and activity filters; any other user gets
      those in a scoped department or scoped themselves, and may open
      each listed division's department. */
  function GetDivisions(org: Org, user: AuthUser, departmentId: Option<int>, includeInactive: bool): (r: seq<Division>)
    ensures forall div :: div in r ==>
      div in org.divisions && (includeInactive || div.isActive) && (departmentId.None? || div.departmentId == departmentId.value)
    ensures HasOrgScope(user) || Unscoped(user) ==>
      forall div :: (div in org.divisions && (includeInactive || div.isActive)
                     && (departmentId.None? || div.departmentId == departmentId.value)) ==> div in r
    ensures !HasOrgScope(user) && !Unscoped(user) ==>
      forall div :: div in r <==>
        && div in org.divisions && (includeInactive || div.isActive)
        && (departmentId.None? || div.departmentId == departmentId.value)
        && (div.departmentId in ScopedDepartmentIds(user) || div.id in ScopedDivisionIds(user))
    ensures !Unscoped(user) ==> forall div :: div in r ==> UserCanAccessDepartment(org, user, div.departmentId)
  {
    Filter(org.divisions, div => DivisionListed(user, departmentId, includeInactive, div))
  }

  /** Position `p` joined to its division belongs to department `departmentId`. */
  predicate InDepartment(org: Org, p: Position, departmentId: int) {
    exists div :: div in org.divisions && div.id == p.divisionId && div.departmentId == departmentId
  }

  /** Position `p` joined to its division passes the scope condition of
      `get_positions`: the division's department or the division is scoped. */
  predicate InUserScope(org: Org, user: AuthUser, p: Position) {
    exists div :: div in org.divisions && div.id == p.divisionId &&
      (div.departmentId in ScopedDepartmentIds(user) || div.id in ScopedDivisionIds(user))
  }

  /** The division / department filter shared by `get_positions` and
      `get_total_authorized_count`: the division filter wins. */
  predicate PlacementFilter(org: Org, divisionId: Option<int>, departmentId: Option<int>, p: Position) {
    if divisionId.Some? then p.divisionId == divisionId.value
    else if departmentId.Some? then InDepartment(org, p, departmentId.value)
    else true
  }

  predicate PositionListed(
    org: Org, user: AuthUser, divisionId: Option<int>, departmentId: Option<int>,
    includeInactive: bool, p: Position)
  {
    && (includeInactive || p.isActive)
    && PlacementFilter(org, divisionId, departmentId, p)
    && (|| HasOrgScope(user)
        || (|ScopedDepartmentIds(user)| == 0 && |ScopedDivisionIds(user)| == 0)
        || InUserScope(org, user, p))
  }

  /** `get_positions(user, division_id, department_id, include_inactive)`.
      An org-scoped user and a user without any scope row both get every
      position that passes the placement and activity filters; any other
      user gets those whose division, or the division's department, is
      scoped. */
  function GetPositions(
    org: Org, user: AuthUser, divisionId: Option<int>, departmentId: Option<int>,
    includeInactive: bool): (r: seq<Position>)
    ensures forall p :: p in r ==>
      p in org.positions && (includeInactive || p.isActive) && PlacementFilter(org, divisionId, departmentId, p)
    ensures HasOrgScope(user) || Unscoped(user) ==>
      forall p :: (p in org.positions && (includeInactive || p.isActive)
                   && PlacementFilter(org, divisionId, departmentId, p)) ==> p in r
    ensures !HasOrgScope(user) && !Unscoped(user) ==>
      forall p :: p in r <==>
        && p in org.positions && (includeInactive || p.isActive) && PlacementFilter(org, divisionId, departmentId, p)
        && exists div :: div in org.divisions && div.id == p.divisionId &&
             (div.departmentId in ScopedDepartmentIds(user) || div.id in ScopedDivisionIds(user))
  {
    Filter(org.positions, p => PositionListed(org, user, divisionId, departmentId, includeInactive, p))
  }

  /** `user_can_access_department(user, department_id)`: org scope, a
      department scope for it, or a scoped division that belongs to it. */
  function UserCanAccessDepartment(org: Org, user: AuthUser, departmentId: int): (r: bool)
    ensures r <==> HasOrgScope(user) || DepartmentInScope(org, user, departmentId)
  {
    if HasOrgScope(user) then true
    else if departmentId in ScopedDepartmentIds(user) then true
    else
      var divIds := ScopedDivisionIds(user);
      if |divIds| > 0 then
        exists div :: div in org.divisions && div.id in divIds && div.departmentId == departmentId
      else false
  }

  /** `user_can_access_position(user, position_id)`. The position's
      division always exists (foreign key); were it missing the model
      answers false. */
  function UserCanAccessPosition(org: Org, user: AuthUser, positionId: int): (r: bool)
    ensures HasOrgScope(user) ==> r
    ensures FindPosition(org.positions, positionId).None? ==> (r <==> HasOrgScope(user))
    // Otherwise a found position is open exactly when its division's
    // department or the division itself is scoped, active or not.
    ensures !HasOrgScope(user) && FindPosition(org.positions, positionId).Some? ==>
      (r <==> && FindDivision(org.divisions, FindPosition(org.positions, positionId).value.divisionId).Some?
              && var d := FindDivision(org.divisions, FindPosition(org.positions, positionId).value.divisionId).value;
                 d.departmentId in ScopedDepartmentIds(user) || d.id in ScopedDivisionIds(user))
  {
    if HasOrgScope(user) then true
    else
      match FindPosition(org.positions, positionId)
      case None => false
      case Some(position) =>
        match FindDivision(org.divisions, position.divisionId)
        case None => false
        case Some(division) =>
          if division.departmentId in ScopedDepartmentIds(user) then true
          else division.id in ScopedDivisionIds(user)
  }

  /** A user with no scope row that grants anything. */
  predicate Unscoped(user: AuthUser) {
    !HasOrgScope(user) && |ScopedDepartmentIds(user)| == 0 && |ScopedDivisionIds(user)| == 0
  }

  /** `get_total_authorized_count(department_id, division_id)`: the sum
      is coalesced to 0 when no active position matches, and is never
      negative when no headcount is. */
  function GetTotalAuthorizedCount(org: Org, departmentId: Option<int>, divisionId: Option<int>): (r: int)
    ensures (forall p :: p in org.positions && PlacementFilter(org, divisionId, departmentId, p) ==> !p.isActive) ==> r == 0
    ensures (forall p :: p in org.positions ==> p.authorizedCount >= 0) ==> r >= 0
  {
    var ps := Filter(org.positions, (p: Position) => p.isActive && PlacementFilter(org, divisionId, departmentId, p));
    assert ps != [] ==> ps[0] in ps;
    AuthorizedNonNegative(ps);
    SumInt(ps, AuthorizedOf)
  }

  lemma {:induction false} AuthorizedNonNegative(ps: seq<Position>)
    ensures (forall p :: p in ps ==> p.authorizedCount >= 0) ==> SumInt(ps, AuthorizedOf) >= 0
  {
    if ps != [] && forall p :: p in ps ==> p.authorizedCount >= 0 {
      AuthorizedNonNegative(ps[..|ps| - 1]);
      assert ps[|ps| - 1] in ps;
      assert forall p :: p in ps[..|ps| - 1] ==> p in ps;
    }
  }

  function AuthorizedOf(p: Position): int {
    p.authorizedCount
  }

  // ---------------------------------------------------------------- lemmas

  lemma {:induction false} FindPositionUnique(ps: seq<Position>, k: nat)
    requires k < |ps|
    requires forall i, j :: 0 <= i < j < |ps| ==> ps[i].id != ps[j].id
    ensures FindPosition(ps, ps[k].id) == Some(ps[k])
  {
    if k > 0 {
      FindPositionUnique(ps[1..], k - 1);
    }
  }

  lemma {:induction false} FindDivisionUnique(ds: seq<Division>, k: nat)
    requires k < |ds|
    requires forall i, j :: 0 <= i < j < |ds| ==> ds[i].id != ds[j].id
    ensures FindDivision(ds, ds[k].id) == Some(ds[k])
  {
    if k > 0 {
      FindDivisionUnique(ds[1..], k - 1);
    }
  }

  /** The department list agrees with the department access check: an active
      department is listed exactly when the user may open it. */
  lemma DepartmentListAgreesWithAccess(org: Org, user: AuthUser, d: Department)
    ensures d in GetDepartments(org, user, false) <==>
      d in org.departments && d.isActive && UserCanAccessDepartment(org, user, d.id)
  {
  }

  /** An org-scoped user can open every department and every position and
      lists every department. */
  lemma OrgScopeSeesAll(org: Org, user: AuthUser, departmentId: int, positionId: int)
    requires HasOrgScope(user)
    ensures UserCanAccessDepartment(org, user, departmentId)
    ensures UserCanAccessPosition(org, user, positionId)
    ensures GetDepartments(org, user, true) == org.departments
  {
    FilterAll(org.departments, d => DepartmentListed(org, user, true, d));
  }

  /** A user without any scope sees no department at all. */
  lemma UnscopedSeesNoDepartment(org: Org, user: AuthUser, includeInactive: bool)
    requires Unscoped(user)
    ensures GetDepartments(org, user, includeInactive) == []
  {
    FilterNone(org.departments, d => DepartmentListed(org, user, includeInactive, d));
  }

  /** ... while the division and position lists apply no scope filter to that
      user, and still no department or position can be opened. */
  lemma UnscopedListsEverythingButOpensNothing(org: Org, user: AuthUser, positionId: int, departmentId: int)
    requires Unscoped(user)
    ensures GetDivisions(org, user, None, true) == org.divisions
    ensures GetPositions(org, user, None, None, true) == org.positions
    ensures !UserCanAccessPosition(org, user, positionId)
    ensures !UserCanAccessDepartment(org, user, departmentId)
  {
    FilterAll(org.divisions, div => DivisionListed(user, None, true, div));
    FilterAll(org.positions, p => PositionListed(org, user, None, None, true, p));
  }

  /** For a user with some department or division scope, a division is
      listed exactly when it is in a scoped department or is itself scoped,
      and the department it belongs to is then accessible. */
  lemma ScopedDivisionList(org: Org, user: AuthUser, div: Division)
    requires !HasOrgScope(user) && !Unscoped(user)
    ensures div in GetDivisions(org, user, None, false) <==>
      div in org.divisions && div.isActive &&
      (div.departmentId in ScopedDepartmentIds(user) || div.id in ScopedDivisionIds(user))
    ensures div in GetDivisions(org, user, None, false) ==>
      UserCanAccessDepartment(org, user, div.departmentId)
  {
  }

  /** For a user with some department or division scope, the position list
      agrees with the position access check. */
  lemma PositionListAgreesWithAccess(org: Org, user: AuthUser, k: nat)
    requires UniqueIds(org) && k < |org.positions|
    requires !Unscoped(user)
    ensures org.positions[k] in GetPositions(org, user, None, None, false) <==>
      org.positions[k].isActive && UserCanAccessPosition(org, user, org.positions[k].id)
  {
    var p := org.positions[k];
    FindPositionUnique(org.positions, k);
    if !HasOrgScope(user) && InUserScope(org, user, p) {
      var div :| div in org.divisions && div.id == p.divisionId &&
        (div.departmentId in ScopedDepartmentIds(user) || div.id in ScopedDivisionIds(user));
      var j :| 0 <= j < |org.divisions| && org.divisions[j] == div;
      FindDivisionUnique(org.divisions, j);
    }
    if !HasOrgScope(user) && FindDivision(org.divisions, p.divisionId).Some? {
      var div := FindDivision(org.divisions, p.divisionId).value;
      assert div in org.divisions && div.id == p.divisionId;
    }
  }

  /** The authorized-count aggregate sums exactly what an org-scoped user's
      active position list for the same filter holds, and is 0 when nothing
      matches. */
  lemma TotalAuthorizedMatchesPositionList(
    org: Org, user: AuthUser, departmentId: Option<int>, divisionId: Option<int>)
    requires HasOrgScope(user)
    ensures GetTotalAuthorizedCount(org, departmentId, divisionId) ==
      SumInt(GetPositions(org, user, divisionId, departmentId, false), AuthorizedOf)
    ensures GetPositions(org, user, divisionId, departmentId, false) == [] ==>
      GetTotalAuthorizedCount(org, departmentId, divisionId) == 0
  {
    FilterSame(org.positions,
      (p: Position) => p.isActive && PlacementFilter(org, divisionId, departmentId, p),
      p => PositionListed(org, user, divisionId, departmentId, false, p));
  }

}

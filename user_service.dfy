/** `app/services/user_service.py`: provisioning users, changing their
    role, activation and scopes, and recording logins, on the user table. */
module UserService {
  import opened Wrappers
  import opened UserModel
  import opened HrSync
  import opened Text

  /** Why an operation raised instead of committing. */
  datatype UserError =
    | UserNotFound(userId: int)
    | RoleNotFound(roleName: string)
    | DuplicateUser          // the unique email or Entra object id column
    | MissingScopeType       // a scope dict without "scope_type"

  /** The roles that receive an organization-wide scope on provisioning. */
  const OrgWideRoles: seq<string> := ["admin", "it_staff", "budget_executive"]

  /** `db.session.get(User, user_id)`, as a table position. */
  function UserIndex(users: seq<UserRow>, id: int): (r: Option<nat>)
    ensures r.Some? ==> r.value < |users| && users[r.value].id == id
    ensures r.None? <==> forall i :: 0 <= i < |users| ==> users[i].id != id
  {
    if users == [] then None
    else
      match UserIndex(users[..|users| - 1], id)
      case Some(k) => Some(k)
      case None => if users[|users| - 1].id == id then Some(|users| - 1) else None
  }

  /** In a table with autoincrement ids, id `n` is found exactly when
      `1 <= n <= |users|`, at position `n - 1`. */
  lemma NumberedUserIndex(users: seq<UserRow>, id: int)
    requires Numbered(users, UserId)
    ensures UserIndex(users, id).Some? <==> 1 <= id <= |users|
    ensures UserIndex(users, id).Some? ==> UserIndex(users, id).value == id - 1
  {
    if 1 <= id <= |users| {
      assert users[id - 1].id == id;
    }
  }

  /** The email or the Entra object id is already taken. Both unique
      constraints compare under SQL Server's default case-insensitive
      collation, so a value differing only in letter case is taken too. */
  predicate Taken(users: seq<UserRow>, email: string, entraObjectId: Option<string>) {
    exists i :: 0 <= i < |users| &&
      (Lower(users[i].email) == Lower(email)
       || (entraObjectId.Some? && users[i].entraObjectId.Some? && Lower(users[i].entraObjectId.value) == Lower(entraObjectId.value)))
  }

  /** The row `provision_user` creates: active, not linked to an employee,
      never logged in, an organization scope for the org-wide roles, and a
      provisioning time only when `provisioned_by` is truthy (an id of 0 is
      not). */
  function NewUser(id: int, email: string, firstName: string, lastName: string, role: Role,
                   provisionedBy: Option<int>, entraObjectId: Option<string>, now: int): UserRow
  {
    UserRow(id, entraObjectId, email, firstName, lastName, role.id, None, true,
            if role.name in OrgWideRoles then [Scope(OrganizationScope, None, None)] else [],
            provisionedBy,
            if provisionedBy.Some? && provisionedBy.value != 0 then Some(now) else None,
            None, None)
  }

  /** A provisioned user is org-scoped exactly for the org-wide roles,
      carries a provisioning time exactly when a (non-zero) provisioner is
      given, and starts active with no login recorded. */
  lemma NewUserProperties(id: int, email: string, firstName: string, lastName: string, role: Role,
                          provisionedBy: Option<int>, entraObjectId: Option<string>, now: int)
    ensures var u := NewUser(id, email, firstName, lastName, role, provisionedBy, entraObjectId, now);
      && (HasScopeType(u.scopes, OrganizationScope) <==> role.name in OrgWideRoles)
      && (u.provisionedAt.Some? <==> provisionedBy.Some? && provisionedBy.value != 0)
      && (u.provisionedAt.Some? ==> u.provisionedAt.value == now)
      && u.isActive && u.firstLoginAt.None? && u.lastLogin.None? && u.employeeId.None?
      && u.roleId == role.id && u.email == email
  {
    var u := NewUser(id, email, firstName, lastName, role, provisionedBy, entraObjectId, now);
    if role.name in OrgWideRoles {
      assert u.scopes[0].scopeType == OrganizationScope;
    }
  }

  /** `record_login`: the first login time is set only once, the last
      login time every time. */
  function LoggedIn(u: UserRow, now: int): (r: UserRow)
    ensures r.lastLogin == Some(now)
    ensures u.firstLoginAt.Some? ==> r.firstLoginAt == u.firstLoginAt
    ensures u.firstLoginAt.None? ==> r.firstLoginAt == Some(now)
    ensures r.(firstLoginAt := u.firstLoginAt, lastLogin := u.lastLogin) == u
  {
    u.(firstLoginAt := if u.firstLoginAt.None? then Some(now) else u.firstLoginAt, lastLogin := Some(now))
  }

  /** Later logins never move the first login time: it stays the time of
      the first recorded login, while the last login follows the latest. */
  lemma {:induction false} FirstLoginKept(u: UserRow, times: seq<int>)
    requires |times| >= 1
    ensures LoginsRecorded(u, times).firstLoginAt == LoggedIn(u, times[0]).firstLoginAt
    ensures LoginsRecorded(u, times).lastLogin == Some(times[|times| - 1])
    decreases |times|
  {
    if |times| > 1 {
      FirstLoginKept(u, times[..|times| - 1]);
      assert times[..|times| - 1][0] == times[0];
    }
  }

  /** The user after a login at each of `times`, in order. */
  function LoginsRecorded(u: UserRow, times: seq<int>): UserRow {
    if times == [] then u else LoggedIn(LoginsRecorded(u, times[..|times| - 1]), times[|times| - 1])
  }

  /** One scope dict of `set_user_scopes`: `scope_type` is indexed (a
      missing key raises), the two ids are read with `.get`. */
  datatype ScopeRequest = ScopeRequest(scopeType: Option<string>, departmentId: Option<int>, divisionId: Option<int>)

  /** The scope rows the dicts become, or None when one has no type. */
  function ScopeRows(requests: seq<ScopeRequest>): (r: Option<seq<Scope>>)
    ensures r.None? <==> exists i :: 0 <= i < |requests| && requests[i].scopeType.None?
    ensures r.Some? ==> |r.value| == |requests|
    ensures r.Some? ==> forall i :: 0 <= i < |requests| ==>
      r.value[i] == Scope(requests[i].scopeType.value, requests[i].departmentId, requests[i].divisionId)
  {
    if requests == [] then Some([])
    else
      var q := requests[|requests| - 1];
      match ScopeRows(requests[..|requests| - 1])
      case None => None
      case Some(rows) =>
        if q.scopeType.None? then None
        else Some(rows + [Scope(q.scopeType.value, q.departmentId, q.divisionId)])
  }

  /** One more dict extends the rows by its own row. */
  lemma ScopeRowsSnoc(requests: seq<ScopeRequest>, i: int)
    requires 0 <= i < |requests|
    ensures ScopeRows(requests[..i + 1]) ==
      match ScopeRows(requests[..i])
      case None => None
      case Some(rows) =>
        if requests[i].scopeType.None? then None
        else Some(rows + [Scope(requests[i].scopeType.value, requests[i].departmentId, requests[i].divisionId)])
  {
    assert requests[..i + 1][..i] == requests[..i];
  }

  /** The user table and the roles `user_service` reads. */
  class UserStore {
    var users: seq<UserRow>
    var roles: seq<Role>

    /** User ids are autoincrement: nothing is ever deleted. */
    predicate Valid()
      reads this
    {
      Numbered(users, UserId)
    }

    constructor (roles: seq<Role>)
      ensures Valid() && users == [] && this.roles == roles
    {
      users := [];
      this.roles := roles;
    }

    /** `provision_user`: an unknown role raises and creates nothing; a
        taken email or Entra object id fails the unique constraint and
        creates nothing; otherwise one user is appended with the next id. */
    method ProvisionUser(email: string, firstName: string, lastName: string, roleName: string,
                         provisionedBy: Option<int>, entraObjectId: Option<string>, now: int)
      returns (r: Result<int, UserError>)
      requires Valid()
      modifies this
      ensures Valid() && roles == old(roles)
      ensures FirstWith(roles, roleName, NameOfRole).None? ==> r == Failure(RoleNotFound(roleName)) && users == old(users)
      ensures FirstWith(roles, roleName, NameOfRole).Some? && Taken(old(users), email, entraObjectId) ==>
        r == Failure(DuplicateUser) && users == old(users)
      ensures FirstWith(roles, roleName, NameOfRole).Some? && !Taken(old(users), email, entraObjectId) ==>
        var role := roles[FirstWith(roles, roleName, NameOfRole).value];
        && r == Success(|old(users)| + 1)
        && users == old(users) + [NewUser(|old(users)| + 1, email, firstName, lastName, role, provisionedBy, entraObjectId, now)]
    {
      var found := FirstWith(roles, roleName, NameOfRole);
      if found.None? {
        return Failure(RoleNotFound(roleName));
      }
      if Taken(users, email, entraObjectId) {
        return Failure(DuplicateUser);
      }
      var id := |users| + 1;
      users := users + [NewUser(id, email, firstName, lastName, roles[found.value], provisionedBy, entraObjectId, now)];
      r := Success(id);
    }

    /** `update_user_role`: the user, then the role must exist; only the
        user's role changes. */
    method UpdateUserRole(userId: int, newRoleName: string) returns (r: Result<(), UserError>)
      requires Valid()
      modifies this
      ensures Valid() && roles == old(roles) && |users| == |old(users)|
      ensures UserIndex(old(users), userId).None? ==> r == Failure(UserNotFound(userId)) && users == old(users)
      ensures UserIndex(old(users), userId).Some? && FirstWith(roles, newRoleName, NameOfRole).None? ==>
        r == Failure(RoleNotFound(newRoleName)) && users == old(users)
      ensures UserIndex(old(users), userId).Some? && FirstWith(roles, newRoleName, NameOfRole).Some? ==>
        var k := UserIndex(old(users), userId).value;
        && r == Success(())
        && users == old(users)[k := old(users)[k].(roleId := roles[FirstWith(roles, newRoleName, NameOfRole).value].id)]
    {
      var k := UserIndex(users, userId);
      if k.None? {
        return Failure(UserNotFound(userId));
      }
      var role := FirstWith(roles, newRoleName, NameOfRole);
      if role.None? {
        return Failure(RoleNotFound(newRoleName));
      }
      users := users[k.value := users[k.value].(roleId := roles[role.value].id)];
      r := Success(());
    }

    /** `deactivate_user`: only `is_active` changes, to false. */
    method DeactivateUser(userId: int) returns (r: Result<(), UserError>)
      requires Valid()
      modifies this
      ensures Valid() && roles == old(roles)
      ensures UserIndex(old(users), userId).None? ==> r == Failure(UserNotFound(userId)) && users == old(users)
      ensures UserIndex(old(users), userId).Some? ==>
        var k := UserIndex(old(users), userId).value;
        r == Success(()) && users == old(users)[k := old(users)[k].(isActive := false)]
    {
      var k := UserIndex(users, userId);
      if k.None? {
        return Failure(UserNotFound(userId));
      }
      users := users[k.value := users[k.value].(isActive := false)];
      r := Success(());
    }

    /** `reactivate_user`: only `is_active` changes, to true. */
    method ReactivateUser(userId: int) returns (r: Result<(), UserError>)
      requires Valid()
      modifies this
      ensures Valid() && roles == old(roles)
      ensures UserIndex(old(users), userId).None? ==> r == Failure(UserNotFound(userId)) && users == old(users)
      ensures UserIndex(old(users), userId).Some? ==>
        var k := UserIndex(old(users), userId).value;
        r == Success(()) && users == old(users)[k := old(users)[k].(isActive := true)]
    {
      var k := UserIndex(users, userId);
      if k.None? {
        return Failure(UserNotFound(userId));
      }
      users := users[k.value := users[k.value].(isActive := true)];
      r := Success(());
    }

    /** `set_user_scopes`: the user's scope rows are replaced by one row
        per dict, in order. A missing user raises first; a dict without
        `scope_type` raises inside the loop, and nothing is committed. */
    method SetUserScopes(userId: int, requests: seq<ScopeRequest>) returns (r: Result<seq<Scope>, UserError>)
      requires Valid()
      modifies this
      ensures Valid() && roles == old(roles)
      ensures UserIndex(old(users), userId).None? ==> r == Failure(UserNotFound(userId)) && users == old(users)
      ensures UserIndex(old(users), userId).Some? && ScopeRows(requests).None? ==>
        r == Failure(MissingScopeType) && users == old(users)
      ensures UserIndex(old(users), userId).Some? && ScopeRows(requests).Some? ==>
        var k := UserIndex(old(users), userId).value;
        r == Success(ScopeRows(requests).value) && users == old(users)[k := old(users)[k].(scopes := ScopeRows(requests).value)]
    {
      var k := UserIndex(users, userId);
      if k.None? {
        return Failure(UserNotFound(userId));
      }
      var records: seq<Scope> := [];
      var i := 0;
      while i < |requests|
        invariant 0 <= i <= |requests|
        invariant ScopeRows(requests[..i]) == Some(records)
        invariant users == old(users) && roles == old(roles)
      {
        ScopeRowsSnoc(requests, i);
        var q := requests[i];
        if q.scopeType.None? {
          ScopeRowsNone(requests, i + 1);
          return Failure(MissingScopeType);
        }
        records := records + [Scope(q.scopeType.value, q.departmentId, q.divisionId)];
        i := i + 1;
      }
      assert requests[..|requests|] == requests;
      users := users[k.value := users[k.value].(scopes := records)];
      r := Success(records);
    }

    /** `record_login(user)` for the user at table position `k`. */
    method RecordLogin(k: nat, now: int)
      requires Valid() && k < |users|
      modifies this
      ensures Valid() && roles == old(roles)
      ensures users == old(users)[k := LoggedIn(old(users)[k], now)]
    {
      var u := users[k];
      if u.firstLoginAt.None? {
        u := u.(firstLoginAt := Some(now));
      }
      u := u.(lastLogin := Some(now));
      users := users[k := u];
    }
  }

  /** A prefix that already fails makes the whole list fail. */
  lemma {:induction false} ScopeRowsNone(requests: seq<ScopeRequest>, i: int)
    requires 0 <= i <= |requests| && ScopeRows(requests[..i]).None?
    ensures ScopeRows(requests).None?
  {
    var j :| 0 <= j < i && requests[..i][j].scopeType.None?;
    assert requests[j].scopeType.None?;
  }
}

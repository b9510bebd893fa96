/** The HR sync run against the database: the four entity syncs update
    the organisation tables in place, user provisioning updates the user
    table, and `run_full_sync` composes them in dependency order. Each
    method is proved against the functions of `HrSync`. */
module HrSyncRun {
  import opened Wrappers
  import opened Seqs
  import opened OrgModel
  import opened UserModel
  import opened HrSync
  import opened NeoGov

  /** The role every auto-provisioned user receives. */
  const ReadOnlyRole: string := "read_only"

  /** Why a run fails: the user created for the employee at this table
      position repeats an existing user's email, and the unique
      constraint refuses it. */
  datatype SyncError = EmailInUse(employee: nat)

  /** `_provision_users` with no counter set. */
  const NoProvisionStats: ProvisionStats := ProvisionStats(0, 0, 0, 0, 0)

  /** `_sync_departments` on the department table `rows0`: one counted
      step per record, then the unreported departments retired. */
  method DepartmentRows(rows0: seq<Department>, recs: seq<DepartmentRecord>) returns (rows: seq<Department>, stats: Stats)
    ensures (rows, stats) == DepartmentSync(rows0, recs)
  {
    var codes: set<string>;
    rows, stats, codes := rows0, NoStats, {};
    for i := 0 to |recs|
      invariant (rows, stats) == DepartmentsSynced(rows0, recs[..i])
      invariant codes == DepartmentCodes(recs[..i])
    {
      DepartmentsSyncedSnoc(rows0, recs, i);
      DepartmentCodesSnoc(recs, i);
      var step := DepartmentStep(rows, recs[i]);
      rows := step.0;
      stats := Tally(stats, step.1);
      codes := codes + {recs[i].Code()};
    }
    assert recs[..|recs|] == recs;
    if codes != {} {
      var count;
      rows, count := RetireStale(rows, codes, DepartmentCode, DepartmentActive, RetireDepartment);
      stats := stats.(deactivated := count);
    }
  }

  /** `_sync_divisions` on the division table `rows0`: one counted step per
      record, then the unreported divisions retired. */
  method DivisionRows(ds: seq<Department>, rows0: seq<Division>, recs: seq<DivisionRecord>) returns (rows: seq<Division>, stats: Stats)
    ensures (rows, stats) == DivisionSync(ds, rows0, recs)
  {
    var codes: set<string>;
    rows, stats, codes := rows0, NoStats, {};
    for i := 0 to |recs|
      invariant (rows, stats) == DivisionsSynced(ds, rows0, recs[..i])
      invariant codes == DivisionCodes(recs[..i])
    {
      DivisionsSyncedSnoc(ds, rows0, recs, i);
      DivisionCodesSnoc(recs, i);
      var step := DivisionStep(ds, rows, recs[i]);
      rows := step.0;
      stats := Tally(stats, step.1);
      codes := codes + {recs[i].Code()};
    }
    assert recs[..|recs|] == recs;
    if codes != {} {
      var count;
      rows, count := RetireStale(rows, codes, DivisionCode, DivisionActive, RetireDivision);
      stats := stats.(deactivated := count);
    }
  }

  /** `_sync_positions` on the position table `rows0`: one counted step per
      record, then the unreported positions retired. */
  method PositionRows(vs: seq<Division>, rows0: seq<Position>, recs: seq<PositionRecord>) returns (rows: seq<Position>, stats: Stats)
    ensures (rows, stats) == PositionSync(vs, rows0, recs)
  {
    var codes: set<string>;
    rows, stats, codes := rows0, NoStats, {};
    for i := 0 to |recs|
      invariant (rows, stats) == PositionsSynced(vs, rows0, recs[..i])
      invariant codes == PositionCodes(recs[..i])
    {
      PositionsSyncedSnoc(vs, rows0, recs, i);
      PositionCodesSnoc(recs, i);
      var step := PositionStep(vs, rows, recs[i]);
      rows := step.0;
      stats := Tally(stats, step.1);
      codes := codes + {recs[i].Code()};
    }
    assert recs[..|recs|] == recs;
    if codes != {} {
      var count;
      rows, count := RetireStale(rows, codes, PositionCode, PositionActive, RetirePosition);
      stats := stats.(deactivated := count);
    }
  }

  /** `_sync_employees` on the employee table `rows0`: returns at once for
      an empty list, otherwise one counted step per record, then the
      unreported employees retired. */
  method EmployeeRows(ps: seq<Position>, rows0: seq<Employee>, recs: seq<EmployeeRecord>) returns (rows: seq<Employee>, stats: Stats)
    ensures (rows, stats) == EmployeeSync(ps, rows0, recs)
  {
    if recs == [] {
      return rows0, NoStats;
    }
    var codes: set<string>;
    rows, stats, codes := rows0, NoStats, {};
    for i := 0 to |recs|
      invariant (rows, stats) == EmployeesSynced(ps, rows0, recs[..i])
      invariant codes == EmployeeCodes(recs[..i])
    {
      EmployeesSyncedSnoc(ps, rows0, recs, i);
      EmployeeCodesSnoc(recs, i);
      var step := EmployeeStep(ps, rows, recs[i]);
      rows := step.0;
      stats := Tally(stats, step.1);
      codes := codes + {recs[i].Code()};
    }
    assert recs[..|recs|] == recs;
    if codes != {} {
      var count;
      rows, count := RetireStale(rows, codes, EmployeeCode, EmployeeActive, RetireEmployee);
      stats := stats.(deactivated := count);
    }
  }

  /** The organisation tables keep their autoincrement ids and hold one
      row per code (their unique code columns). */
  predicate OrganizationValid(ds: seq<Department>, vs: seq<Division>, ps: seq<Position>, es: seq<Employee>) {
    Numbered(ds, DepartmentId) && UniqueCodes(ds, DepartmentCode)
    && Numbered(vs, DivisionId) && UniqueCodes(vs, DivisionCode)
    && Numbered(ps, PositionId) && UniqueCodes(ps, PositionCode)
    && Numbered(es, EmployeeId) && UniqueCodes(es, EmployeeCode)
  }

  /** The four entity syncs of `run_full_sync` in dependency order, each
      resolving parents against the table the previous one produced; the
      counters are merged, and every record is processed once. The tables
      keep their ids and their one row per code. */
  method OrganizationRows(data: OrganizationData, ds0: seq<Department>, vs0: seq<Division>, ps0: seq<Position>, es0: seq<Employee>)
    returns (ds: seq<Department>, vs: seq<Division>, ps: seq<Position>, es: seq<Employee>, total: Stats)
    ensures ds == DepartmentSync(ds0, data.departments).0
    ensures vs == DivisionSync(ds, vs0, data.divisions).0
    ensures ps == PositionSync(vs, ps0, data.positions).0
    ensures es == EmployeeSync(ps, es0, data.employees).0
    ensures total == Merged([DepartmentSync(ds0, data.departments).1, DivisionSync(ds, vs0, data.divisions).1,
                             PositionSync(vs, ps0, data.positions).1, EmployeeSync(ps, es0, data.employees).1])
    ensures total.processed == |data.departments| + |data.divisions| + |data.positions| + |data.employees|
    ensures OrganizationValid(ds0, vs0, ps0, es0) ==> OrganizationValid(ds, vs, ps, es)
  {
    var deptStats, divStats, posStats, empStats;
    ds, deptStats := DepartmentRows(ds0, data.departments);
    vs, divStats := DivisionRows(ds, vs0, data.divisions);
    ps, posStats := PositionRows(vs, ps0, data.positions);
    es, empStats := EmployeeRows(ps, es0, data.employees);
    total := MergeStats([deptStats, divStats, posStats, empStats]);
    MergedProcessed(deptStats, divStats, posStats, empStats);
  }

  /** `_provision_users` on the user table `users0`: without a `read_only`
      role nothing happens and every counter is zero. Otherwise the active
      employees are provisioned in table order (the user table passing
      through the state `mid`), then every active user linked to an
      inactive employee is deactivated. When a new user's email is already
      an inactive user's, the failed flush leaves the session unusable and
      the function raises: the model reports the employee and returns the
      table unchanged. */
  method UserRows(employees: seq<Employee>, ps: seq<Position>, vs: seq<Division>, users0: seq<UserRow>, roles: seq<Role>,
                  provisionedBy: Option<int>, now: int)
    returns (users: seq<UserRow>, r: Result<ProvisionStats, SyncError>, ghost mid: seq<UserRow>)
    requires Numbered(employees, EmployeeId) && Numbered(users0, UserId)
    ensures Numbered(users, UserId)
    ensures FirstWith(roles, ReadOnlyRole, NameOfRole).None? ==> users == users0 && r == Success(NoProvisionStats)
    ensures r.Failure? ==>
      && users == users0 && FirstWith(roles, ReadOnlyRole, NameOfRole).Some?
      && r.error.employee < |employees|
      && Provisionable(employees[r.error.employee], ps, vs, LinkedEmployees(users0))
      && Collides(employees[r.error.employee], users0)
    ensures FirstWith(roles, ReadOnlyRole, NameOfRole).Some? && r.Success? ==> (
      var roleId := roles[FirstWith(roles, ReadOnlyRole, NameOfRole).value].id;
      var stats := r.value;
      Provisioned(users0, mid, employees, ps, vs, roleId, provisionedBy, now)
      && SettledUpTo(employees, |employees|, ps, vs, users0, mid)
      && users == OrphansRetired(mid, employees)
      && stats.created == |mid| - |users0| && stats.deactivated == OrphanCount(mid, employees) && stats.errors == 0
      && stats.created + stats.linked + stats.skipped == |Filter(employees, EmployeeActive)|)
  {
    mid := users0;
    var role := FirstWith(roles, ReadOnlyRole, NameOfRole);
    if role.None? {
      return users0, Success(NoProvisionStats), mid;
    }
    var roleId := roles[role.value].id;
    var provisioned, loopStats, failedAt := ProvisionActive(employees, ps, vs, users0, roleId, provisionedBy, now);
    if failedAt.Some? {
      return users0, Failure(EmailInUse(failedAt.value)), mid;
    }
    ProvisionedNumbered(users0, provisioned, employees, ps, vs, roleId, provisionedBy, now);
    mid := provisioned;
    var count;
    users, count := DeactivateOrphaned(provisioned, employees);
    r := Success(loopStats.(deactivated := count));
  }

  /** The tables the sync reads and writes. */
  class HrDatabase {
    var departments: seq<Department>
    var divisions: seq<Division>
    var positions: seq<Position>
    var employees: seq<Employee>
    var users: seq<UserRow>
    /** The role table, which the sync reads and never writes. */
    const roles: seq<Role>

    /** Every table keeps its autoincrement ids, and the organisation
        tables hold one row per code (their unique code columns). */
    predicate Valid()
      reads this
    {
      OrganizationValid(departments, divisions, positions, employees) && Numbered(users, UserId)
    }

    /** An empty database with the given roles. */
    constructor (roles: seq<Role>)
      ensures Valid()
      ensures departments == [] && divisions == [] && positions == [] && employees == [] && users == []
      ensures this.roles == roles
    {
      departments, divisions, positions, employees, users := [], [], [], [], [];
      this.roles := roles;
    }

    /** `_sync_departments`: the loop over the records, then the
        deactivation of unreported departments when any code was
        reported. Only the department table changes. */
    method SyncDepartments(recs: seq<DepartmentRecord>) returns (stats: Stats)
      modifies this
      ensures (departments, stats) == DepartmentSync(old(departments), recs)
      ensures divisions == old(divisions) && positions == old(positions) && employees == old(employees)
      ensures users == old(users)
    {
      departments, stats := DepartmentRows(departments, recs);
    }

    /** `_sync_divisions`, resolving parents against the department table.
        Only the division table changes. */
    method SyncDivisions(recs: seq<DivisionRecord>) returns (stats: Stats)
      modifies this
      ensures (divisions, stats) == DivisionSync(departments, old(divisions), recs)
      ensures departments == old(departments) && positions == old(positions) && employees == old(employees)
      ensures users == old(users)
    {
      divisions, stats := DivisionRows(departments, divisions, recs);
    }

    /** `_sync_positions`, resolving parents against the division table.
        Only the position table changes. */
    method SyncPositions(recs: seq<PositionRecord>) returns (stats: Stats)
      modifies this
      ensures (positions, stats) == PositionSync(divisions, old(positions), recs)
      ensures departments == old(departments) && divisions == old(divisions) && employees == old(employees)
      ensures users == old(users)
    {
      positions, stats := PositionRows(divisions, positions, recs);
    }

    /** `_sync_employees`: returns at once for an empty list, otherwise
        resolves positions against the position table. Only the employee
        table changes. */
    method SyncEmployees(recs: seq<EmployeeRecord>) returns (stats: Stats)
      modifies this
      ensures (employees, stats) == EmployeeSync(positions, old(employees), recs)
      ensures departments == old(departments) && divisions == old(divisions) && positions == old(positions)
      ensures users == old(users)
    {
      employees, stats := EmployeeRows(positions, employees, recs);
    }

    /** `_provision_users`: without a `read_only` role nothing happens and
        every counter is zero. Otherwise the active employees are
        provisioned in table order (the user table passing through the
        state `mid`), then every active user linked to an inactive
        employee is deactivated. Only the user table changes, and it keeps
        its ids. When a new user's email is already an inactive user's,
        the failed flush leaves the session unusable and the function
        raises: the model reports the employee and changes nothing. */
    method ProvisionUsers(provisionedBy: Option<int>, now: int) returns (r: Result<ProvisionStats, SyncError>, ghost mid: seq<UserRow>)
      requires Valid()
      modifies this
      ensures Valid()
      ensures departments == old(departments) && divisions == old(divisions) && positions == old(positions)
      ensures employees == old(employees)
      ensures FirstWith(roles, ReadOnlyRole, NameOfRole).None? ==> users == old(users) && r == Success(NoProvisionStats)
      ensures r.Failure? ==>
        && users == old(users) && FirstWith(roles, ReadOnlyRole, NameOfRole).Some?
        && r.error.employee < |employees|
        && Provisionable(employees[r.error.employee], positions, divisions, LinkedEmployees(old(users)))
        && Collides(employees[r.error.employee], old(users))
      ensures FirstWith(roles, ReadOnlyRole, NameOfRole).Some? && r.Success? ==> (
        var roleId := roles[FirstWith(roles, ReadOnlyRole, NameOfRole).value].id;
        var stats := r.value;
        Provisioned(old(users), mid, employees, positions, divisions, roleId, provisionedBy, now)
        && SettledUpTo(employees, |employees|, positions, divisions, old(users), mid)
        && users == OrphansRetired(mid, employees)
        && stats.created == |mid| - |old(users)| && stats.deactivated == OrphanCount(mid, employees) && stats.errors == 0
        && stats.created + stats.linked + stats.skipped == |Filter(employees, EmployeeActive)|)
    {
      users, r, mid := UserRows(employees, positions, divisions, users, roles, provisionedBy, now);
    }

    /** `run_full_sync` after a successful fetch: departments, divisions,
        positions and employees in dependency order, each resolving
        parents against the tables the previous step left, then user
        provisioning; the result holds the merged counters of the four
        entity syncs and, apart, the provisioning counters. When
        provisioning raises, the run is rolled back: every table is as it
        was and the run reports the failure. */
    method RunFullSync(data: OrganizationData, triggeredBy: Option<int>, now: int)
      returns (r: Result<(Stats, ProvisionStats), SyncError>, ghost mid: seq<UserRow>)
      requires Valid()
      modifies this
      ensures Valid()
      ensures r.Failure? ==>
        && departments == old(departments) && divisions == old(divisions) && positions == old(positions)
        && employees == old(employees) && users == old(users)
      ensures r.Failure? ==>
        var ds := DepartmentSync(old(departments), data.departments).0;
        var vs := DivisionSync(ds, old(divisions), data.divisions).0;
        var ps := PositionSync(vs, old(positions), data.positions).0;
        var es := EmployeeSync(ps, old(employees), data.employees).0;
        && FirstWith(roles, ReadOnlyRole, NameOfRole).Some?
        && r.error.employee < |es|
        && Provisionable(es[r.error.employee], ps, vs, LinkedEmployees(old(users)))
        && Collides(es[r.error.employee], old(users))
      ensures r.Success? ==>
        && departments == DepartmentSync(old(departments), data.departments).0
        && divisions == DivisionSync(departments, old(divisions), data.divisions).0
        && positions == PositionSync(divisions, old(positions), data.positions).0
        && employees == EmployeeSync(positions, old(employees), data.employees).0
        && r.value.0 == Merged([DepartmentSync(old(departments), data.departments).1,
                                DivisionSync(departments, old(divisions), data.divisions).1,
                                PositionSync(divisions, old(positions), data.positions).1,
                                EmployeeSync(positions, old(employees), data.employees).1])
        && r.value.0.processed == |data.departments| + |data.divisions| + |data.positions| + |data.employees|
      ensures FirstWith(roles, ReadOnlyRole, NameOfRole).None? ==>
        r.Success? && users == old(users) && r.value.1 == NoProvisionStats
      ensures FirstWith(roles, ReadOnlyRole, NameOfRole).Some? && r.Success? ==> (
        var roleId := roles[FirstWith(roles, ReadOnlyRole, NameOfRole).value].id;
        && Provisioned(old(users), mid, employees, positions, divisions, roleId, triggeredBy, now)
        && SettledUpTo(employees, |employees|, positions, divisions, old(users), mid)
        && users == OrphansRetired(mid, employees)
        && r.value.1.errors == 0
        && r.value.1.created + r.value.1.linked + r.value.1.skipped == |Filter(employees, EmployeeActive)|)
    {
      var departments0, divisions0, positions0, employees0, users0 := departments, divisions, positions, employees, users;
      var ds, vs, ps, es, total := OrganizationRows(data, departments0, divisions0, positions0, employees0);
      var us, userResult;
      us, userResult, mid := UserRows(es, ps, vs, users0, roles, triggeredBy, now);
      if userResult.Failure? {
        // `db.session.rollback()` in the handler of run_full_sync: every
        // table is as it was before the run.
        Store(departments0, divisions0, positions0, employees0, users0);
        return Failure(userResult.error), mid;
      }
      Store(ds, vs, ps, es, us);
      r := Success((total, userResult.value));
    }

    /** Writes the five tables of one session at once. */
    method Store(ds: seq<Department>, vs: seq<Division>, ps: seq<Position>, es: seq<Employee>, us: seq<UserRow>)
      requires OrganizationValid(ds, vs, ps, es) && Numbered(us, UserId)
      modifies this
      ensures Valid()
      ensures departments == ds && divisions == vs && positions == ps && employees == es && users == us
    {
      departments, divisions, positions, employees, users := ds, vs, ps, es, us;
    }
  }

  /** The merged `processed` counter of four syncs is their sum. */
  lemma MergedProcessed(a: Stats, b: Stats, c: Stats, d: Stats)
    ensures Merged([a, b, c, d]).processed == a.processed + b.processed + c.processed + d.processed
  {
    SumIntSnoc([], a, Processed);
    assert [] + [a] == [a];
    SumIntSnoc([a], b, Processed);
    assert [a] + [b] == [a, b];
    SumIntSnoc([a, b], c, Processed);
    assert [a, b] + [c] == [a, b, c];
    SumIntSnoc([a, b, c], d, Processed);
    assert [a, b, c] + [d] == [a, b, c, d];
  }
}

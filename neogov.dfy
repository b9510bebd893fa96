/** The record transformations of `app/services/neogov_client.py`: raw
    HR-system JSON records are normalized into the records the HR sync
    consumes, dropping excluded departments (and their divisions) and
    employees without an employee number. The HTTP transport that fetches
    the raw records is not part of this model: the raw records are
    parameters. */
module NeoGov {
  import opened Wrappers
  import opened Seqs
  import opened HrSync

  // ------------------------------------------------------------- raw records

  /** A department as the HR system returns it (`None`: key absent). */
  datatype RawDepartment = RawDepartment(code: Option<string>, name: Option<string>)

  /** The nested `{"code": ...}` object of a division or position. */
  datatype RawRef = RawRef(code: Option<string>)

  /** A division; `department` is `None` when the key is absent, null or an
      empty object, which `div.get("department") or {}` treats alike. */
  datatype RawDivision = RawDivision(code: Option<string>, name: Option<string>, department: Option<RawRef>)

  /** The `details` object of a position detail record. */
  datatype RawPositionDetails = RawPositionDetails(
    positionTitle: Option<string>, division: Option<RawRef>, authorizedFte: Option<real>)

  /** A position detail record; `details` is `None` when absent or null. */
  datatype RawPosition = RawPosition(code: Option<string>, status: Option<string>, details: Option<RawPositionDetails>)

  /** An employee detail record (PascalCase keys; `None`: absent or null). */
  datatype RawEmployee = RawEmployee(
    employeeNumber: Option<string>, firstName: Option<string>, lastName: Option<string>,
    workEmail: Option<string>, personalEmail: Option<string>, positionCode: Option<string>)

  /** The four raw lists the transport fetches. */
  datatype RawOrganizationData = RawOrganizationData(
    departments: seq<RawDepartment>, divisions: seq<RawDivision>,
    positions: seq<RawPosition>, employees: seq<RawEmployee>)

  /** What `fetch_all_organization_data` returns. */
  datatype OrganizationData = OrganizationData(
    departments: seq<DepartmentRecord>, divisions: seq<DivisionRecord>,
    positions: seq<PositionRecord>, employees: seq<EmployeeRecord>)

  const NoOrganizationData: OrganizationData := OrganizationData([], [], [], [])

  // ------------------------------------------------------------- departments

  /** `dept.get("code", "")` */
  function RawDepartmentCode(d: RawDepartment): string { d.code.GetOr("") }

  /** The department filter: its code is not excluded. */
  function DepartmentFilter(excluded: seq<string>): RawDepartment -> bool {
    d => RawDepartmentCode(d) !in excluded
  }

  /** The normalized department: its code, and its name defaulting to the
      code. */
  function NormalizeDepartment(d: RawDepartment): DepartmentRecord {
    DepartmentRecord(Some(RawDepartmentCode(d)), Some(d.name.GetOr(RawDepartmentCode(d))))
  }

  /** What `_transform_departments` returns. */
  function DepartmentsNormalized(raw: seq<RawDepartment>, excluded: seq<string>): (r: seq<DepartmentRecord>)
    ensures |r| <= |raw|
  {
    FilterMap(raw, DepartmentFilter(excluded), NormalizeDepartment)
  }

  /** No department in the output has an excluded code, and each has a
      name. */
  lemma DepartmentsExcluded(raw: seq<RawDepartment>, excluded: seq<string>, rec: DepartmentRecord)
    requires rec in DepartmentsNormalized(raw, excluded)
    ensures rec.code.Some? && rec.Code() !in excluded && rec.name.Some?
  {
    var _ := FilterMapSound(raw, DepartmentFilter(excluded), NormalizeDepartment, rec);
  }

  /** Every department whose code is not excluded is in the output, named
      after its code when it has no name. */
  lemma DepartmentsKept(raw: seq<RawDepartment>, excluded: seq<string>, d: RawDepartment)
    requires d in raw && RawDepartmentCode(d) !in excluded
    ensures NormalizeDepartment(d) in DepartmentsNormalized(raw, excluded)
    ensures d.name.None? ==>
      DepartmentRecord(Some(RawDepartmentCode(d)), Some(RawDepartmentCode(d))) in DepartmentsNormalized(raw, excluded)
  {
    FilterMapComplete(raw, DepartmentFilter(excluded), NormalizeDepartment, d);
  }

  // ------------------------------------------------------------- divisions

  /** `(div.get("department") or {}).get("code", "")` */
  function ParentDepartmentCode(v: RawDivision): string {
    match v.department
    case None => ""
    case Some(ref) => ref.code.GetOr("")
  }

  /** The division filter: its parent department is not excluded. */
  function DivisionFilter(excluded: seq<string>): RawDivision -> bool {
    v => ParentDepartmentCode(v) !in excluded
  }

  /** The normalized division: code and name default to "", the parent
      code is the nested department code. */
  function NormalizeDivision(v: RawDivision): DivisionRecord {
    DivisionRecord(Some(v.code.GetOr("")), Some(v.name.GetOr("")), Some(ParentDepartmentCode(v)))
  }

  /** What `_transform_divisions` returns. */
  function DivisionsNormalized(raw: seq<RawDivision>, excluded: seq<string>): (r: seq<DivisionRecord>)
    ensures |r| <= |raw|
  {
    FilterMap(raw, DivisionFilter(excluded), NormalizeDivision)
  }

  /** No division in the output belongs to an excluded department. */
  lemma DivisionsExcluded(raw: seq<RawDivision>, excluded: seq<string>, rec: DivisionRecord)
    requires rec in DivisionsNormalized(raw, excluded)
    ensures rec.departmentCode.Some? && rec.ParentCode() !in excluded
  {
    var _ := FilterMapSound(raw, DivisionFilter(excluded), NormalizeDivision, rec);
  }

  /** Every division of a department that is not excluded is in the
      output; one with no department object, or one without a code, is kept
      under parent code "" unless "" itself is excluded. */
  lemma DivisionsKept(raw: seq<RawDivision>, excluded: seq<string>, v: RawDivision)
    requires v in raw
    ensures ParentDepartmentCode(v) !in excluded ==> NormalizeDivision(v) in DivisionsNormalized(raw, excluded)
    ensures (v.department.None? || v.department.value.code.None?) && "" !in excluded ==>
      DivisionRecord(Some(v.code.GetOr("")), Some(v.name.GetOr("")), Some("")) in DivisionsNormalized(raw, excluded)
  {
    if ParentDepartmentCode(v) !in excluded {
      FilterMapComplete(raw, DivisionFilter(excluded), NormalizeDivision, v);
    }
  }

  // ------------------------------------------------------------- positions

  /** Python's `int(x)` on a float: truncation toward zero. */
  function Truncate(x: real): (n: int)
    ensures 0.0 <= x ==> n as real <= x < n as real + 1.0
    ensures x < 0.0 ==> n as real - 1.0 < x <= n as real
  {
    if 0.0 <= x then x.Floor else -((-x).Floor)
  }

  /** `int(raw_fte) if raw_fte is not None else 1` */
  function AuthorizedCount(fte: Option<real>): int {
    match fte
    case None => 1
    case Some(x) => Truncate(x)
  }

  /** Every position is kept. */
  function PositionFilter(p: RawPosition): bool { true }

  /** The normalized position: code, title and division code default to
      "", and the head count is the truncated FTE or 1. */
  function NormalizePosition(p: RawPosition): PositionRecord {
    match p.details
    case None => PositionRecord(Some(p.code.GetOr("")), Some(""), Some(""), Some(1))
    case Some(d) =>
      PositionRecord(Some(p.code.GetOr("")), Some(d.positionTitle.GetOr("")),
                     Some(match d.division case None => "" case Some(ref) => ref.code.GetOr("")),
                     Some(AuthorizedCount(d.authorizedFte)))
  }

  /** What `_transform_positions` returns: one record per input, in order,
      each with a head count, which is 1 when no FTE was given. */
  function PositionsNormalized(raw: seq<RawPosition>): (r: seq<PositionRecord>)
    ensures |r| == |raw|
    ensures forall i :: 0 <= i < |raw| ==> r[i] == NormalizePosition(raw[i]) && r[i].authorizedCount.Some?
    ensures forall i :: 0 <= i < |raw| && (raw[i].details.None? || raw[i].details.value.authorizedFte.None?) ==>
      r[i].Headcount() == 1
  {
    FilterMapAllKept(raw, PositionFilter, NormalizePosition);
    FilterMap(raw, PositionFilter, NormalizePosition)
  }

  // ------------------------------------------------------------- employees

  /** `if not employee_id: continue` */
  function EmployeeFilter(e: RawEmployee): bool {
    e.employeeNumber.Some? && e.employeeNumber.value != ""
  }

  /** `emp.get("WorkEmail") or emp.get("PersonalEmail")` */
  function EmailOf(e: RawEmployee): (r: Option<string>)
    ensures e.workEmail.Some? && e.workEmail.value != "" ==> r == e.workEmail
    ensures (e.workEmail.None? || e.workEmail.value == "") ==> r == e.personalEmail
  {
    match e.workEmail
    case Some(w) => if w != "" then Some(w) else e.personalEmail
    case None => e.personalEmail
  }

  /** The normalized employee; the email key is always present. */
  function NormalizeEmployee(e: RawEmployee): EmployeeRecord {
    EmployeeRecord(Some(e.employeeNumber.GetOr("")), Some(e.firstName.GetOr("")), Some(e.lastName.GetOr("")),
                   Some(EmailOf(e)), Some(e.positionCode.GetOr("")))
  }

  /** What `_transform_employees` returns. */
  function EmployeesNormalized(raw: seq<RawEmployee>): (r: seq<EmployeeRecord>)
    ensures |r| <= |raw|
  {
    FilterMap(raw, EmployeeFilter, NormalizeEmployee)
  }

  /** No employee in the output lacks an employee number, and each has an
      email key. */
  lemma EmployeesNumbered(raw: seq<RawEmployee>, rec: EmployeeRecord)
    requires rec in EmployeesNormalized(raw)
    ensures rec.code.Some? && rec.Code() != "" && rec.email.Some?
  {
    var _ := FilterMapSound(raw, EmployeeFilter, NormalizeEmployee, rec);
  }

  /** Every employee with a number is in the output, with the work email
      when it is non-empty and the personal one otherwise. */
  lemma EmployeesKept(raw: seq<RawEmployee>, e: RawEmployee)
    requires e in raw && e.employeeNumber.Some? && e.employeeNumber.value != ""
    ensures NormalizeEmployee(e) in EmployeesNormalized(raw)
    ensures NormalizeEmployee(e).email ==
      Some(if e.workEmail.Some? && e.workEmail.value != "" then e.workEmail else e.personalEmail)
  {
    FilterMapComplete(raw, EmployeeFilter, NormalizeEmployee, e);
  }

  // ------------------------------------------------------------- the client

  /** `NeoGovApiClient`: the API key and the excluded department codes are
      read from the configuration once, at construction. */
  class NeoGovClient {
    var apiKey: string
    var excludedDepartments: seq<string>

    constructor (apiKey: string, excludedDepartments: seq<string>)
      ensures this.apiKey == apiKey && this.excludedDepartments == excludedDepartments
    {
      this.apiKey := apiKey;
      this.excludedDepartments := excludedDepartments;
    }

    /** `_transform_departments` */
    method TransformDepartments(raw: seq<RawDepartment>) returns (normalized: seq<DepartmentRecord>)
      ensures normalized == DepartmentsNormalized(raw, excludedDepartments)
    {
      normalized := [];
      var i := 0;
      while i < |raw|
        invariant 0 <= i <= |raw|
        invariant normalized == FilterMap(raw[..i], DepartmentFilter(excludedDepartments), NormalizeDepartment)
      {
        FilterMapSnoc(raw, i, DepartmentFilter(excludedDepartments), NormalizeDepartment);
        var dept := raw[i];
        var code := dept.code.GetOr("");
        if code !in excludedDepartments {
          normalized := normalized + [DepartmentRecord(Some(code), Some(dept.name.GetOr(code)))];
        }
        i := i + 1;
      }
      assert raw[..|raw|] == raw;
    }

    /** `_transform_divisions` */
    method TransformDivisions(raw: seq<RawDivision>) returns (normalized: seq<DivisionRecord>)
      ensures normalized == DivisionsNormalized(raw, excludedDepartments)
    {
      normalized := [];
      var i := 0;
      while i < |raw|
        invariant 0 <= i <= |raw|
        invariant normalized == FilterMap(raw[..i], DivisionFilter(excludedDepartments), NormalizeDivision)
      {
        FilterMapSnoc(raw, i, DivisionFilter(excludedDepartments), NormalizeDivision);
        var div := raw[i];
        var deptCode := match div.department case None => "" case Some(ref) => ref.code.GetOr("");
        if deptCode !in excludedDepartments {
          normalized := normalized + [DivisionRecord(Some(div.code.GetOr("")), Some(div.name.GetOr("")), Some(deptCode))];
        }
        i := i + 1;
      }
      assert raw[..|raw|] == raw;
    }

    /** `_transform_positions` */
    method TransformPositions(raw: seq<RawPosition>) returns (normalized: seq<PositionRecord>)
      ensures normalized == PositionsNormalized(raw)
    {
      normalized := [];
      var i := 0;
      while i < |raw|
        invariant 0 <= i <= |raw|
        invariant normalized == FilterMap(raw[..i], PositionFilter, NormalizePosition)
      {
        FilterMapSnoc(raw, i, PositionFilter, NormalizePosition);
        var pos := raw[i];
        var details := pos.details.GetOr(RawPositionDetails(None, None, None));
        var divisionCode := match details.division case None => "" case Some(ref) => ref.code.GetOr("");
        var authorizedCount := match details.authorizedFte case None => 1 case Some(fte) => Truncate(fte);
        normalized := normalized + [PositionRecord(Some(pos.code.GetOr("")), Some(details.positionTitle.GetOr("")),
                                                   Some(divisionCode), Some(authorizedCount))];
        i := i + 1;
      }
      assert raw[..|raw|] == raw;
    }

    /** `_transform_employees` */
    method TransformEmployees(raw: seq<RawEmployee>) returns (normalized: seq<EmployeeRecord>)
      ensures normalized == EmployeesNormalized(raw)
    {
      normalized := [];
      var i := 0;
      while i < |raw|
        invariant 0 <= i <= |raw|
        invariant normalized == FilterMap(raw[..i], EmployeeFilter, NormalizeEmployee)
      {
        FilterMapSnoc(raw, i, EmployeeFilter, NormalizeEmployee);
        var emp := raw[i];
        var employeeId := emp.employeeNumber.GetOr("");
        var email := if emp.workEmail.Some? && emp.workEmail.value != "" then emp.workEmail else emp.personalEmail;
        if employeeId != "" {
          normalized := normalized + [EmployeeRecord(Some(employeeId), Some(emp.firstName.GetOr("")), Some(emp.lastName.GetOr("")),
                                                     Some(email), Some(emp.positionCode.GetOr("")))];
        }
        i := i + 1;
      }
      assert raw[..|raw|] == raw;
    }

    /** `fetch_all_organization_data`, given what the transport would
        fetch: with no API key nothing is fetched and all four lists are
        empty; otherwise each list is transformed. */
    method FetchAllOrganizationData(raw: RawOrganizationData) returns (data: OrganizationData)
      ensures apiKey == "" ==> data == NoOrganizationData
      ensures apiKey != "" ==> data == OrganizationData(
        DepartmentsNormalized(raw.departments, excludedDepartments),
        DivisionsNormalized(raw.divisions, excludedDepartments),
        PositionsNormalized(raw.positions), EmployeesNormalized(raw.employees))
      ensures |data.departments| <= |raw.departments| && |data.divisions| <= |raw.divisions|
      ensures |data.positions| <= |raw.positions| && |data.employees| <= |raw.employees|
    {
      if apiKey == "" {
        return NoOrganizationData;
      }
      var departments := TransformDepartments(raw.departments);
      var divisions := TransformDivisions(raw.divisions);
      var positions := TransformPositions(raw.positions);
      var employees := TransformEmployees(raw.employees);
      data := OrganizationData(departments, divisions, positions, employees);
    }
  }
}

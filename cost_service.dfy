/** The cost engine: prices one position from its hardware and software
    requirements, allocates tenant-licensed software over the headcount its
    coverage rows reach, and rolls position figures up to divisions and
    departments. Money is exact (`real`). */
module CostService {
  import opened Wrappers
  import opened Seqs
  import opened OrgModel
  import opened EquipmentModel
  import opened UserModel
  import OrganizationService

  /** The rows the cost queries read. */
  datatype Snapshot = Snapshot(
    org: Org, hardware: seq<Hardware>, software: seq<Software>, coverage: seq<Coverage>,
    hardwareReqs: seq<Requirement>, softwareReqs: seq<Requirement>)

  /** The part of the database's keys the cost queries rely on: unique
      primary keys, every requirement row names an existing item, and
      every position an existing division. A requirement's position and a
      division's department are not checked: no query here needs them. */
  predicate Consistent(s: Snapshot) {
    OrganizationService.UniqueIds(s.org) && ItemsExist(s) && DivisionsExist(s)
  }

  /** Every requirement row names an existing hardware item or product. */
  predicate ItemsExist(s: Snapshot) {
    && (forall r :: r in s.hardwareReqs ==> FindHardware(s.hardware, r.itemId).Some?)
    && (forall r :: r in s.softwareReqs ==> FindSoftware(s.software, r.itemId).Some?)
  }

  /** Every position's division exists. */
  predicate DivisionsExist(s: Snapshot) {
    forall p :: p in s.org.positions ==> FindDivision(s.org.divisions, p.divisionId).Some?
  }

  /** The ValueError the breakdowns raise for an unknown id. */
  datatype CostError = PositionNotFound(positionId: int) | DivisionNotFound(divisionId: int)

  datatype HardwareCostLine = HardwareCostLine(
    hardwareId: int, quantity: int, unitCost: real, lineTotal: real, positionTotal: real)

  datatype SoftwareCostLine = SoftwareCostLine(
    softwareId: int, licenseModel: LicenseModel, quantity: int,
    unitCost: real, lineTotal: real, positionTotal: real)

  datatype PositionCostSummary = PositionCostSummary(
    positionId: int, divisionId: int, departmentId: int, authorizedCount: int,
    hardwareLines: seq<HardwareCostLine>, softwareLines: seq<SoftwareCostLine>,
    hardwareTotalPerPerson: real, softwareTotalPerPerson: real, totalPerPerson: real,
    hardwareTotal: real, softwareTotal: real, grandTotal: real)

  datatype DivisionCostSummary = DivisionCostSummary(
    divisionId: int, departmentId: int, positionCount: nat, totalAuthorized: int,
    hardwareTotal: real, softwareTotal: real, grandTotal: real)

  datatype DepartmentCostSummary = DepartmentCostSummary(
    departmentId: int, divisionCount: nat, positionCount: int, totalAuthorized: int,
    hardwareTotal: real, softwareTotal: real, grandTotal: real)

  /** The organisation-wide record; nothing in the service computes it. */
  datatype OrganizationCostSummary = OrganizationCostSummary(
    departmentCount: nat, divisionCount: nat, positionCount: nat, totalAuthorized: int,
    hardwareTotal: real, softwareTotal: real, grandTotal: real)

  function HwLineTotal(l: HardwareCostLine): real { l.lineTotal }
  function HwPositionTotal(l: HardwareCostLine): real { l.positionTotal }
  function SwLineTotal(l: SoftwareCostLine): real { l.lineTotal }
  function SwPositionTotal(l: SoftwareCostLine): real { l.positionTotal }

  // ------------------------------------------------------------ headcount

  /** The coverage rows of one product. */
  function CoverageOf(s: Snapshot, softwareId: int): seq<Coverage> {
    Filter(s.coverage, (c: Coverage) => c.softwareId == softwareId)
  }

  /** Ids of the active positions of one division. */
  function ActivePositionIdsIn(positions: seq<Position>, divisionId: int): set<int> {
    set p | p in positions && p.isActive && p.divisionId == divisionId :: p.id
  }

  /** Ids of the active positions of the given divisions. */
  function PositionIdsUnder(positions: seq<Position>, divs: seq<Division>): set<int> {
    if divs == [] then {}
    else PositionIdsUnder(positions, divs[..|divs| - 1]) + ActivePositionIdsIn(positions, divs[|divs| - 1].id)
  }

  /** The active divisions of one department. */
  function ActiveDivisionsOf(divisions: seq<Division>, departmentId: int): seq<Division> {
    Filter(divisions, (d: Division) => d.departmentId == departmentId && d.isActive)
  }

  /** The position ids one coverage row reaches. A department row reaches the
      active positions of the department's active divisions; a division row
      the active positions of that division (whatever the division's own
      state); a position row that position if it is active. A row whose id
      column is null or 0, or whose type is unknown, reaches nothing. */
  function RuleIds(org: Org, cov: Coverage): set<int> {
    if cov.scopeType == "organization" then
      set p | p in org.positions && p.isActive :: p.id
    else if cov.scopeType == "department" && Truthy(cov.departmentId) then
      PositionIdsUnder(org.positions, ActiveDivisionsOf(org.divisions, cov.departmentId.value))
    else if cov.scopeType == "division" && Truthy(cov.divisionId) then
      ActivePositionIdsIn(org.positions, cov.divisionId.value)
    else if cov.scopeType == "position" && Truthy(cov.positionId) then
      set p | p in org.positions && p.isActive && p.id == cov.positionId.value :: p.id
    else {}
  }

  /** The union of what the rows reach. */
  function CoveredIds(org: Org, rows: seq<Coverage>): set<int> {
    if rows == [] then {} else CoveredIds(org, rows[..|rows| - 1]) + RuleIds(org, rows[|rows| - 1])
  }

  /** `SUM(authorized_count) WHERE id IN ids` (0 for no match). */
  function SumAuthorizedIn(positions: seq<Position>, ids: set<int>): int {
    if positions == [] then 0
    else
      var p := positions[|positions| - 1];
      SumAuthorizedIn(positions[..|positions| - 1], ids) + (if p.id in ids then p.authorizedCount else 0)
  }

  /** `_get_covered_headcount(software)` */
  function Headcount(s: Snapshot, softwareId: int): int {
    var rows := CoverageOf(s, softwareId);
    if rows == [] then 0
    else
      var ids := CoveredIds(s.org, rows);
      if ids == {} then 0 else SumAuthorizedIn(s.org.positions, ids)
  }

  /** `_calculate_tenant_share_for_position(software, position)`: the
      per-person share of the product's total cost. */
  function TenantShare(s: Snapshot, sw: Software): real {
    var totalCost := sw.totalCost.GetOr(0.0);
    if totalCost == 0.0 then 0.0
    else
      var headcount := Headcount(s, sw.id);
      if headcount == 0 then 0.0 else totalCost / headcount as real
  }

  /** The shares of a tenant product add back up to its total cost over the
      covered headcount; without a cost or without covered heads the share
      is 0. */
  lemma TenantShareAllocates(s: Snapshot, sw: Software)
    ensures sw.totalCost.GetOr(0.0) == 0.0 ==> TenantShare(s, sw) == 0.0
    ensures Headcount(s, sw.id) == 0 ==> TenantShare(s, sw) == 0.0
    ensures sw.totalCost.GetOr(0.0) != 0.0 && Headcount(s, sw.id) != 0 ==>
      TenantShare(s, sw) * Headcount(s, sw.id) as real == sw.totalCost.value
  {
  }

  // ------------------------------------------------------------ one position

  /** The hardware line of one requirement row. */
  function HardwareLine(hw: Hardware, req: Requirement, authorized: int): HardwareCostLine {
    var unitCost := hw.estimatedCost.GetOr(0.0);
    var lineTotal := req.quantity as real * unitCost;
    HardwareCostLine(hw.id, req.quantity, unitCost, lineTotal, lineTotal * authorized as real)
  }

  /** The software line of one requirement row: per-user products cost
      quantity times the licence price, tenant products the allocated share. */
  function SoftwareLine(s: Snapshot, sw: Software, req: Requirement, authorized: int): SoftwareCostLine {
    var unitCost := if sw.licenseModel == PerUser then sw.costPerLicense.GetOr(0.0) else TenantShare(s, sw);
    var lineTotal := if sw.licenseModel == PerUser then req.quantity as real * unitCost else unitCost;
    SoftwareCostLine(sw.id, sw.licenseModel, req.quantity, unitCost, lineTotal, lineTotal * authorized as real)
  }

  function HardwareLines(s: Snapshot, reqs: seq<Requirement>, authorized: int): (r: seq<HardwareCostLine>)
    requires forall q :: q in reqs ==> FindHardware(s.hardware, q.itemId).Some?
    ensures |r| == |reqs|
    ensures forall l :: l in r ==> l.positionTotal == l.lineTotal * authorized as real
  {
    if reqs == [] then []
    else
      var q := reqs[|reqs| - 1];
      HardwareLines(s, reqs[..|reqs| - 1], authorized) + [HardwareLine(FindHardware(s.hardware, q.itemId).value, q, authorized)]
  }

  function SoftwareLines(s: Snapshot, reqs: seq<Requirement>, authorized: int): (r: seq<SoftwareCostLine>)
    requires forall q :: q in reqs ==> FindSoftware(s.software, q.itemId).Some?
    ensures |r| == |reqs|
    ensures forall l :: l in r ==> l.positionTotal == l.lineTotal * authorized as real
  {
    if reqs == [] then []
    else
      var q := reqs[|reqs| - 1];
      SoftwareLines(s, reqs[..|reqs| - 1], authorized) + [SoftwareLine(s, FindSoftware(s.software, q.itemId).value, q, authorized)]
  }

  /** The requirement rows of one position (`filter_by(position_id=...)`). */
  function RowsOf(reqs: seq<Requirement>, positionId: int): seq<Requirement> {
    Filter(reqs, (q: Requirement) => q.positionId == positionId)
  }

  /** A position summary assembled from its priced lines: the per-person
      figures add up the line totals, the position figures the line totals
      times the headcount. */
  function Summarize(p: Position, departmentId: int, hw: seq<HardwareCostLine>, sw: seq<SoftwareCostLine>): PositionCostSummary {
    var hwPerPerson := SumReal(hw, HwLineTotal);
    var swPerPerson := SumReal(sw, SwLineTotal);
    var hwTotal := SumReal(hw, HwPositionTotal);
    var swTotal := SumReal(sw, SwPositionTotal);
    PositionCostSummary(
      p.id, p.divisionId, departmentId, p.authorizedCount, hw, sw,
      hwPerPerson, swPerPerson, hwPerPerson + swPerPerson, hwTotal, swTotal, hwTotal + swTotal)
  }

  /** The summary `calculate_position_cost` builds for an existing position. */
  function PositionCostOf(s: Snapshot, p: Position): PositionCostSummary
    requires Consistent(s) && p in s.org.positions
  {
    var division := FindDivision(s.org.divisions, p.divisionId).value;
    Summarize(p, division.departmentId,
      HardwareLines(s, RowsOf(s.hardwareReqs, p.id), p.authorizedCount),
      SoftwareLines(s, RowsOf(s.softwareReqs, p.id), p.authorizedCount))
  }

  /** `calculate_position_cost(position_id)` as a value: it fails exactly
      for an id no position has, and otherwise summarises that position. */
  function PositionCost(s: Snapshot, positionId: int): (r: Result<PositionCostSummary, CostError>)
    requires Consistent(s)
    ensures r.Failure? <==> forall p :: p in s.org.positions ==> p.id != positionId
    ensures r.Failure? ==> r.error == PositionNotFound(positionId)
    ensures r.Success? ==> exists p :: p in s.org.positions && p.id == positionId && r.value == PositionCostOf(s, p)
  {
    match FindPosition(s.org.positions, positionId)
    case None => Failure(PositionNotFound(positionId))
    case Some(p) => Success(PositionCostOf(s, p))
  }

  // ------------------------------------------------------------ roll-ups

  /** The active positions of a division (`filter_by(division_id, is_active)`). */
  function DivisionPositions(org: Org, divisionId: int): seq<Position> {
    Filter(org.positions, (p: Position) => p.divisionId == divisionId && p.isActive)
  }

  /** `calculate_position_cost` of each position, in order. */
  function PositionSummaries(s: Snapshot, ps: seq<Position>): (r: seq<PositionCostSummary>)
    requires Consistent(s) && forall p :: p in ps ==> p in s.org.positions
    ensures |r| == |ps|
  {
    if ps == [] then [] else PositionSummaries(s, ps[..|ps| - 1]) + [PositionCostOf(s, ps[|ps| - 1])]
  }

  function PositionHardwareTotal(c: PositionCostSummary): real { c.hardwareTotal }
  function PositionSoftwareTotal(c: PositionCostSummary): real { c.softwareTotal }
  function PositionGrandTotal(c: PositionCostSummary): real { c.grandTotal }

  /** The summary `get_division_cost_breakdown` builds for an existing division. */
  function DivisionCostOf(s: Snapshot, division: Division): DivisionCostSummary
    requires Consistent(s)
  {
    var ps := DivisionPositions(s.org, division.id);
    var costs := PositionSummaries(s, ps);
    var hw := SumReal(costs, PositionHardwareTotal);
    var sw := SumReal(costs, PositionSoftwareTotal);
    DivisionCostSummary(
      division.id, division.departmentId, |ps|, SumInt(ps, OrganizationService.AuthorizedOf), hw, sw, hw + sw)
  }

  /** `get_division_cost_breakdown(division_id)` as a value: it fails
      exactly for an id no division has, and otherwise summarises that
      division. */
  function DivisionCost(s: Snapshot, divisionId: int): (r: Result<DivisionCostSummary, CostError>)
    requires Consistent(s)
    ensures r.Failure? <==> forall d :: d in s.org.divisions ==> d.id != divisionId
    ensures r.Failure? ==> r.error == DivisionNotFound(divisionId)
    ensures r.Success? ==> exists d :: d in s.org.divisions && d.id == divisionId && r.value == DivisionCostOf(s, d)
  {
    match FindDivision(s.org.divisions, divisionId)
    case None => Failure(DivisionNotFound(divisionId))
    case Some(division) => Success(DivisionCostOf(s, division))
  }

  /** `get_division_cost_breakdown` of each division, in order. */
  function DivisionSummaries(s: Snapshot, divs: seq<Division>): (r: seq<DivisionCostSummary>)
    requires Consistent(s)
    ensures |r| == |divs|
  {
    if divs == [] then [] else DivisionSummaries(s, divs[..|divs| - 1]) + [DivisionCostOf(s, divs[|divs| - 1])]
  }

  function DivisionPositionCount(c: DivisionCostSummary): int { c.positionCount }
  function DivisionAuthorized(c: DivisionCostSummary): int { c.totalAuthorized }
  function DivisionHardwareTotal(c: DivisionCostSummary): real { c.hardwareTotal }
  function DivisionSoftwareTotal(c: DivisionCostSummary): real { c.softwareTotal }
  function DivisionGrandTotal(c: DivisionCostSummary): real { c.grandTotal }

  /** The summary `get_department_cost_breakdown` builds for one department:
      the sums of its active divisions' summaries. */
  function DepartmentCostOf(s: Snapshot, dept: Department): DepartmentCostSummary
    requires Consistent(s)
  {
    var divs := ActiveDivisionsOf(s.org.divisions, dept.id);
    var costs := DivisionSummaries(s, divs);
    var hw := SumReal(costs, DivisionHardwareTotal);
    var sw := SumReal(costs, DivisionSoftwareTotal);
    DepartmentCostSummary(
      dept.id, |divs|, SumInt(costs, DivisionPositionCount), SumInt(costs, DivisionAuthorized), hw, sw, hw + sw)
  }

  /** One department summary per department, in order. */
  function DepartmentSummaries(s: Snapshot, depts: seq<Department>): (r: seq<DepartmentCostSummary>)
    requires Consistent(s)
    ensures |r| == |depts|
  {
    if depts == [] then [] else DepartmentSummaries(s, depts[..|depts| - 1]) + [DepartmentCostOf(s, depts[|depts| - 1])]
  }

  /** `get_department_cost_breakdown(user)`: one summary per department in
      the user's active department list. */
  function DepartmentBreakdown(s: Snapshot, user: AuthUser): seq<DepartmentCostSummary>
    requires Consistent(s)
  {
    DepartmentSummaries(s, OrganizationService.GetDepartments(s.org, user, false))
  }

  // ------------------------------------------------------------ the service's loops

  /** `Position.query.filter_by(id=..., is_active=True).first()` */
  function FirstActivePosition(ps: seq<Position>, id: int): (r: Option<Position>)
    ensures r.Some? ==> r.value in ps && r.value.isActive && r.value.id == id
    ensures r.None? ==> forall p :: p in ps ==> !(p.isActive && p.id == id)
  {
    if ps == [] then None
    else if ps[0].isActive && ps[0].id == id then Some(ps[0])
    else FirstActivePosition(ps[1..], id)
  }

  /** `_get_covered_headcount(software)`: grows the covered id set one
      coverage row at a time, then sums the headcount of the set. */
  method CoveredHeadcount(s: Snapshot, softwareId: int) returns (count: int)
    ensures count == Headcount(s, softwareId)
  {
    var rows := CoverageOf(s, softwareId);
    if rows == [] {
      return 0;
    }
    var covered: set<int> := {};
    var i := 0;
    while i < |rows|
      invariant 0 <= i <= |rows|
      invariant covered == CoveredIds(s.org, rows[..i])
    {
      var cov := rows[i];
      if cov.scopeType == "organization" {
        covered := covered + (set p | p in s.org.positions && p.isActive :: p.id);
      } else if cov.scopeType == "department" && Truthy(cov.departmentId) {
        covered := CoverDepartment(s.org, covered, cov.departmentId.value);
      } else if cov.scopeType == "division" && Truthy(cov.divisionId) {
        covered := covered + ActivePositionIdsIn(s.org.positions, cov.divisionId.value);
      } else if cov.scopeType == "position" && Truthy(cov.positionId) {
        covered := CoverPosition(s.org, covered, cov.positionId.value);
      }
      assert rows[..i + 1][..i] == rows[..i];
      i := i + 1;
    }
    assert rows[..i] == rows;
    if covered == {} {
      return 0;
    }
    count := SumAuthorizedIn(s.org.positions, covered);
  }

  /** The department branch of the coverage loop: adds the active
      positions of each active division of the department. */
  method CoverDepartment(org: Org, covered: set<int>, departmentId: int) returns (covered': set<int>)
    ensures covered' == covered + PositionIdsUnder(org.positions, ActiveDivisionsOf(org.divisions, departmentId))
  {
    var divisions := ActiveDivisionsOf(org.divisions, departmentId);
    covered' := covered;
    var j := 0;
    while j < |divisions|
      invariant 0 <= j <= |divisions|
      invariant covered' == covered + PositionIdsUnder(org.positions, divisions[..j])
    {
      covered' := covered' + ActivePositionIdsIn(org.positions, divisions[j].id);
      assert divisions[..j + 1][..j] == divisions[..j];
      j := j + 1;
    }
    assert divisions[..j] == divisions;
  }

  /** The position branch of the coverage loop: adds the position if it is
      active. */
  method CoverPosition(org: Org, covered: set<int>, positionId: int) returns (covered': set<int>)
    ensures covered' == covered + set p | p in org.positions && p.isActive && p.id == positionId :: p.id
  {
    var position := FirstActivePosition(org.positions, positionId);
    ghost var reached := set p | p in org.positions && p.isActive && p.id == positionId :: p.id;
    if position.Some? {
      assert reached == {position.value.id};
      covered' := covered + {position.value.id};
    } else {
      assert reached == {};
      covered' := covered;
    }
  }

  /** `_calculate_tenant_share_for_position(software, position)` */
  method CalculateTenantShare(s: Snapshot, sw: Software) returns (share: real)
    ensures share == TenantShare(s, sw)
  {
    var totalCost := sw.totalCost.GetOr(0.0);
    if totalCost == 0.0 {
      return 0.0;
    }
    var headcount := CoveredHeadcount(s, sw.id);
    if headcount == 0 {
      return 0.0;
    }
    share := totalCost / headcount as real;
  }

  /** One more hardware row adds its line and its two totals. */
  lemma HardwareLinesStep(s: Snapshot, reqs: seq<Requirement>, i: nat, authorized: int, lines: seq<HardwareCostLine>)
    requires i < |reqs| && forall q :: q in reqs ==> FindHardware(s.hardware, q.itemId).Some?
    requires lines == HardwareLines(s, reqs[..i], authorized)
    ensures var line := HardwareLine(FindHardware(s.hardware, reqs[i].itemId).value, reqs[i], authorized);
      && HardwareLines(s, reqs[..i + 1], authorized) == lines + [line]
      && SumReal(lines + [line], HwLineTotal) == SumReal(lines, HwLineTotal) + line.lineTotal
      && SumReal(lines + [line], HwPositionTotal) == SumReal(lines, HwPositionTotal) + line.positionTotal
  {
    var line := HardwareLine(FindHardware(s.hardware, reqs[i].itemId).value, reqs[i], authorized);
    var next := reqs[..i + 1];
    assert next[..|next| - 1] == reqs[..i] && next[|next| - 1] == reqs[i];
    SumRealSnoc(lines, line, HwLineTotal);
    SumRealSnoc(lines, line, HwPositionTotal);
  }

  /** One more software row adds its line and its two totals. */
  lemma SoftwareLinesStep(s: Snapshot, reqs: seq<Requirement>, i: nat, authorized: int, lines: seq<SoftwareCostLine>)
    requires i < |reqs| && forall q :: q in reqs ==> FindSoftware(s.software, q.itemId).Some?
    requires lines == SoftwareLines(s, reqs[..i], authorized)
    ensures var line := SoftwareLine(s, FindSoftware(s.software, reqs[i].itemId).value, reqs[i], authorized);
      && SoftwareLines(s, reqs[..i + 1], authorized) == lines + [line]
      && SumReal(lines + [line], SwLineTotal) == SumReal(lines, SwLineTotal) + line.lineTotal
      && SumReal(lines + [line], SwPositionTotal) == SumReal(lines, SwPositionTotal) + line.positionTotal
  {
    var line := SoftwareLine(s, FindSoftware(s.software, reqs[i].itemId).value, reqs[i], authorized);
    var next := reqs[..i + 1];
    assert next[..|next| - 1] == reqs[..i] && next[|next| - 1] == reqs[i];
    SumRealSnoc(lines, line, SwLineTotal);
    SumRealSnoc(lines, line, SwPositionTotal);
  }

  /** The hardware loop of `calculate_position_cost`: one line per row,
      accumulated into the per-person and position totals. */
  method PriceHardware(s: Snapshot, reqs: seq<Requirement>, authorized: int)
    returns (lines: seq<HardwareCostLine>, perPerson: real, total: real)
    requires forall q :: q in reqs ==> FindHardware(s.hardware, q.itemId).Some?
    ensures lines == HardwareLines(s, reqs, authorized)
    ensures perPerson == SumReal(lines, HwLineTotal) && total == SumReal(lines, HwPositionTotal)
  {
    lines, perPerson, total := [], 0.0, 0.0;
    var i := 0;
    while i < |reqs|
      invariant 0 <= i <= |reqs|
      invariant lines == HardwareLines(s, reqs[..i], authorized)
      invariant perPerson == SumReal(lines, HwLineTotal)
      invariant total == SumReal(lines, HwPositionTotal)
    {
      var req := reqs[i];
      var hw := FindHardware(s.hardware, req.itemId).value;
      var line := PriceHardwareLine(hw, req, authorized);
      HardwareLinesStep(s, reqs, i, authorized, lines);
      lines := lines + [line];
      perPerson := perPerson + line.lineTotal;
      total := total + line.positionTotal;
      i := i + 1;
    }
    assert reqs[..i] == reqs;
  }

  /** The body of the hardware loop for one row: quantity times the
      estimated cost (0 when unset), and that times the headcount. */
  method PriceHardwareLine(hw: Hardware, req: Requirement, authorized: int) returns (line: HardwareCostLine)
    ensures line == HardwareLine(hw, req, authorized)
  {
    var unitCost := hw.estimatedCost.GetOr(0.0);
    var lineTotal := req.quantity as real * unitCost;
    var positionTotal := lineTotal * authorized as real;
    line := HardwareCostLine(hw.id, req.quantity, unitCost, lineTotal, positionTotal);
  }

  /** The software loop of `calculate_position_cost`. */
  method PriceSoftware(s: Snapshot, reqs: seq<Requirement>, authorized: int)
    returns (lines: seq<SoftwareCostLine>, perPerson: real, total: real)
    requires forall q :: q in reqs ==> FindSoftware(s.software, q.itemId).Some?
    ensures lines == SoftwareLines(s, reqs, authorized)
    ensures perPerson == SumReal(lines, SwLineTotal) && total == SumReal(lines, SwPositionTotal)
  {
    lines, perPerson, total := [], 0.0, 0.0;
    var i := 0;
    while i < |reqs|
      invariant 0 <= i <= |reqs|
      invariant lines == SoftwareLines(s, reqs[..i], authorized)
      invariant perPerson == SumReal(lines, SwLineTotal)
      invariant total == SumReal(lines, SwPositionTotal)
    {
      var req := reqs[i];
      var sw := FindSoftware(s.software, req.itemId).value;
      var line := PriceSoftwareLine(s, sw, req, authorized);
      SoftwareLinesStep(s, reqs, i, authorized, lines);
      lines := lines + [line];
      perPerson := perPerson + line.lineTotal;
      total := total + line.positionTotal;
      i := i + 1;
    }
    assert reqs[..i] == reqs;
  }

  /** The body of the software loop for one row: per-user products cost
      quantity times the licence price, tenant products the allocated share
      whatever the quantity. */
  method PriceSoftwareLine(s: Snapshot, sw: Software, req: Requirement, authorized: int)
    returns (line: SoftwareCostLine)
    ensures line == SoftwareLine(s, sw, req, authorized)
  {
    if sw.licenseModel == PerUser {
      var unitCost := sw.costPerLicense.GetOr(0.0);
      var lineTotal := req.quantity as real * unitCost;
      line := SoftwareCostLine(sw.id, sw.licenseModel, req.quantity, unitCost, lineTotal, lineTotal * authorized as real);
    } else {
      var share := CalculateTenantShare(s, sw);
      line := SoftwareCostLine(sw.id, sw.licenseModel, req.quantity, share, share, share * authorized as real);
    }
  }

  /** `calculate_position_cost(position_id)` */
  method CalculatePositionCost(s: Snapshot, positionId: int) returns (r: Result<PositionCostSummary, CostError>)
    requires Consistent(s)
    ensures r == PositionCost(s, positionId)
  {
    var found := FindPosition(s.org.positions, positionId);
    if found.None? {
      return Failure(PositionNotFound(positionId));
    }
    var position := found.value;
    var division := FindDivision(s.org.divisions, position.divisionId).value;
    var summary := PricePosition(s, position, division.departmentId);
    r := Success(summary);
  }

  /** The two requirement loops of `calculate_position_cost` and the totals
      they accumulate. */
  method PricePosition(s: Snapshot, position: Position, departmentId: int) returns (summary: PositionCostSummary)
    requires Consistent(s)
    ensures summary == Summarize(position, departmentId,
      HardwareLines(s, RowsOf(s.hardwareReqs, position.id), position.authorizedCount),
      SoftwareLines(s, RowsOf(s.softwareReqs, position.id), position.authorizedCount))
  {
    var hwReqs := RowsOf(s.hardwareReqs, position.id);
    var swReqs := RowsOf(s.softwareReqs, position.id);
    RequirementsPriced(s, position.id);
    var hwLines, hwPerPerson, hwTotal := PriceHardware(s, hwReqs, position.authorizedCount);
    var swLines, swPerPerson, swTotal := PriceSoftware(s, swReqs, position.authorizedCount);
    summary := PositionCostSummary(
      position.id, position.divisionId, departmentId, position.authorizedCount, hwLines, swLines,
      hwPerPerson, swPerPerson, hwPerPerson + swPerPerson, hwTotal, swTotal, hwTotal + swTotal);
  }

  /** Every requirement row of a position names an existing item. */
  lemma RequirementsPriced(s: Snapshot, positionId: int)
    requires Consistent(s)
    ensures forall q :: q in RowsOf(s.hardwareReqs, positionId) ==> FindHardware(s.hardware, q.itemId).Some?
    ensures forall q :: q in RowsOf(s.softwareReqs, positionId) ==> FindSoftware(s.software, q.itemId).Some?
  {
  }

  /** A position of the table is what `db.session.get` finds for its id,
      so its cost is its summary. */
  lemma PositionFound(s: Snapshot, p: Position)
    requires Consistent(s) && p in s.org.positions
    ensures FindPosition(s.org.positions, p.id) == Some(p)
    ensures PositionCost(s, p.id) == Success(PositionCostOf(s, p))
  {
    var k :| 0 <= k < |s.org.positions| && s.org.positions[k] == p;
    OrganizationService.FindPositionUnique(s.org.positions, k);
  }

  /** A division of the table is what `db.session.get` finds for its id,
      so its breakdown is its summary. */
  lemma DivisionFound(s: Snapshot, d: Division)
    requires Consistent(s) && d in s.org.divisions
    ensures FindDivision(s.org.divisions, d.id) == Some(d)
    ensures DivisionCost(s, d.id) == Success(DivisionCostOf(s, d))
  {
    var k :| 0 <= k < |s.org.divisions| && s.org.divisions[k] == d;
    OrganizationService.FindDivisionUnique(s.org.divisions, k);
  }

  /** `get_division_cost_breakdown(division_id)` */
  method GetDivisionCostBreakdown(s: Snapshot, divisionId: int) returns (r: Result<DivisionCostSummary, CostError>)
    requires Consistent(s)
    ensures r == DivisionCost(s, divisionId)
  {
    var found := FindDivision(s.org.divisions, divisionId);
    if found.None? {
      return Failure(DivisionNotFound(divisionId));
    }
    var summary := SummarizeDivision(s, found.value);
    r := Success(summary);
  }

  /** The summary of an existing division: its active positions, their
      headcount, and the priced totals. */
  method SummarizeDivision(s: Snapshot, division: Division) returns (summary: DivisionCostSummary)
    requires Consistent(s)
    ensures summary == DivisionCostOf(s, division)
  {
    var positions := DivisionPositions(s.org, division.id);
    var hw, sw := AddUpPositions(s, positions);
    summary := DivisionCostSummary(
      division.id, division.departmentId, |positions|, SumInt(positions, OrganizationService.AuthorizedOf),
      hw, sw, hw + sw);
  }

  /** The loop of `get_division_cost_breakdown`: prices each position and
      adds its hardware and software totals. */
  method AddUpPositions(s: Snapshot, ps: seq<Position>) returns (hw: real, sw: real)
    requires Consistent(s) && forall p :: p in ps ==> p in s.org.positions
    ensures hw == SumReal(PositionSummaries(s, ps), PositionHardwareTotal)
    ensures sw == SumReal(PositionSummaries(s, ps), PositionSoftwareTotal)
  {
    ghost var costs: seq<PositionCostSummary> := [];
    hw, sw := 0.0, 0.0;
    for i := 0 to |ps|
      invariant costs == PositionSummaries(s, ps[..i])
      invariant hw == SumReal(costs, PositionHardwareTotal)
      invariant sw == SumReal(costs, PositionSoftwareTotal)
    {
      costs, hw, sw := AddPosition(s, ps, i, costs, hw, sw);
    }
    assert ps[..|ps|] == ps;
  }

  /** One turn of the division loop: prices position `ps[i]` and adds its
      totals to the running sums. */
  method AddPosition(s: Snapshot, ps: seq<Position>, i: nat, ghost costs: seq<PositionCostSummary>, hw: real, sw: real)
    returns (ghost costs': seq<PositionCostSummary>, hw': real, sw': real)
    requires Consistent(s) && (forall p :: p in ps ==> p in s.org.positions) && i < |ps|
    requires costs == PositionSummaries(s, ps[..i])
    requires hw == SumReal(costs, PositionHardwareTotal) && sw == SumReal(costs, PositionSoftwareTotal)
    ensures costs' == PositionSummaries(s, ps[..i + 1])
    ensures hw' == SumReal(costs', PositionHardwareTotal) && sw' == SumReal(costs', PositionSoftwareTotal)
    ensures hw' == hw + PositionCostOf(s, ps[i]).hardwareTotal && sw' == sw + PositionCostOf(s, ps[i]).softwareTotal
  {
    PositionFound(s, ps[i]);
    var cost := CalculatePositionCost(s, ps[i].id);
    PositionSummariesStep(s, ps, i);
    SumRealSnoc(costs, cost.value, PositionHardwareTotal);
    SumRealSnoc(costs, cost.value, PositionSoftwareTotal);
    hw' := hw + cost.value.hardwareTotal;
    sw' := sw + cost.value.softwareTotal;
    costs' := costs + [cost.value];
  }

  lemma PositionSummariesStep(s: Snapshot, ps: seq<Position>, i: nat)
    requires Consistent(s) && (forall p :: p in ps ==> p in s.org.positions) && i < |ps|
    ensures PositionSummaries(s, ps[..i + 1]) == PositionSummaries(s, ps[..i]) + [PositionCostOf(s, ps[i])]
  {
    var next := ps[..i + 1];
    assert next[..|next| - 1] == ps[..i] && next[|next| - 1] == ps[i];
  }

  lemma DivisionSummariesStep(s: Snapshot, divs: seq<Division>, i: nat)
    requires Consistent(s) && i < |divs|
    ensures DivisionSummaries(s, divs[..i + 1]) == DivisionSummaries(s, divs[..i]) + [DivisionCostOf(s, divs[i])]
  {
    var next := divs[..i + 1];
    assert next[..|next| - 1] == divs[..i] && next[|next| - 1] == divs[i];
  }

  /** `get_department_cost_breakdown(user)` */
  method GetDepartmentCostBreakdown(s: Snapshot, user: AuthUser) returns (summaries: seq<DepartmentCostSummary>)
    requires Consistent(s)
    ensures summaries == DepartmentBreakdown(s, user)
  {
    var departments := OrganizationService.GetDepartments(s.org, user, false);
    summaries := [];
    for i := 0 to |departments|
      invariant summaries == DepartmentSummaries(s, departments[..i])
    {
      var summary := SummarizeDepartment(s, departments[i]);
      ghost var next := departments[..i + 1];
      assert next[..|next| - 1] == departments[..i] && next[|next| - 1] == departments[i];
      summaries := summaries + [summary];
    }
    assert departments[..|departments|] == departments;
  }

  /** The summary of one department: its active divisions and the sums of
      their breakdowns. */
  method SummarizeDepartment(s: Snapshot, dept: Department) returns (summary: DepartmentCostSummary)
    requires Consistent(s)
    ensures summary == DepartmentCostOf(s, dept)
  {
    var divisions := ActiveDivisionsOf(s.org.divisions, dept.id);
    var positionCount, totalAuthorized, hw, sw := AddUpDivisions(s, divisions);
    summary := DepartmentCostSummary(dept.id, |divisions|, positionCount, totalAuthorized, hw, sw, hw + sw);
  }

  /** The division loop of `get_department_cost_breakdown`. */
  method AddUpDivisions(s: Snapshot, divisions: seq<Division>)
    returns (positionCount: int, totalAuthorized: int, hw: real, sw: real)
    requires Consistent(s) && forall d :: d in divisions ==> d in s.org.divisions
    ensures positionCount == SumInt(DivisionSummaries(s, divisions), DivisionPositionCount)
    ensures totalAuthorized == SumInt(DivisionSummaries(s, divisions), DivisionAuthorized)
    ensures hw == SumReal(DivisionSummaries(s, divisions), DivisionHardwareTotal)
    ensures sw == SumReal(DivisionSummaries(s, divisions), DivisionSoftwareTotal)
  {
    ghost var costs: seq<DivisionCostSummary> := [];
    positionCount, totalAuthorized, hw, sw := 0, 0, 0.0, 0.0;
    for i := 0 to |divisions|
      invariant costs == DivisionSummaries(s, divisions[..i])
      invariant positionCount == SumInt(costs, DivisionPositionCount)
      invariant totalAuthorized == SumInt(costs, DivisionAuthorized)
      invariant hw == SumReal(costs, DivisionHardwareTotal)
      invariant sw == SumReal(costs, DivisionSoftwareTotal)
    {
      var divCost := BreakdownOf(s, divisions, i, costs);
      positionCount, totalAuthorized, hw, sw := AddDivision(costs, divCost, positionCount, totalAuthorized, hw, sw);
      costs := costs + [divCost];
    }
    assert divisions[..|divisions|] == divisions;
  }

  /** `get_division_cost_breakdown(div.id)` for the department loop's
      division `divisions[i]`. */
  method BreakdownOf(s: Snapshot, divisions: seq<Division>, i: nat, ghost costs: seq<DivisionCostSummary>)
    returns (c: DivisionCostSummary)
    requires Consistent(s) && (forall d :: d in divisions ==> d in s.org.divisions) && i < |divisions|
    requires costs == DivisionSummaries(s, divisions[..i])
    ensures costs + [c] == DivisionSummaries(s, divisions[..i + 1])
  {
    DivisionFound(s, divisions[i]);
    var r := GetDivisionCostBreakdown(s, divisions[i].id);
    DivisionSummariesStep(s, divisions, i);
    c := r.value;
  }

  /** The four running sums of the department loop, extended by one
      division's breakdown. */
  method AddDivision(ghost costs: seq<DivisionCostSummary>, c: DivisionCostSummary,
                     positionCount: int, totalAuthorized: int, hw: real, sw: real)
    returns (positionCount': int, totalAuthorized': int, hw': real, sw': real)
    requires positionCount == SumInt(costs, DivisionPositionCount)
    requires totalAuthorized == SumInt(costs, DivisionAuthorized)
    requires hw == SumReal(costs, DivisionHardwareTotal)
    requires sw == SumReal(costs, DivisionSoftwareTotal)
    ensures positionCount' == SumInt(costs + [c], DivisionPositionCount)
    ensures totalAuthorized' == SumInt(costs + [c], DivisionAuthorized)
    ensures hw' == SumReal(costs + [c], DivisionHardwareTotal)
    ensures sw' == SumReal(costs + [c], DivisionSoftwareTotal)
  {
    SumIntSnoc(costs, c, DivisionPositionCount);
    SumIntSnoc(costs, c, DivisionAuthorized);
    SumRealSnoc(costs, c, DivisionHardwareTotal);
    SumRealSnoc(costs, c, DivisionSoftwareTotal);
    positionCount' := positionCount + c.positionCount;
    totalAuthorized' := totalAuthorized + c.totalAuthorized;
    hw' := hw + c.hardwareTotal;
    sw' := sw + c.softwareTotal;
  }

  // ------------------------------------------------------------ properties

  /** An unknown position id is exactly what makes the position cost fail,
      and a found position's summary carries its id and headcount. */
  lemma PositionCostOutcome(s: Snapshot, positionId: int)
    requires Consistent(s)
    ensures PositionCost(s, positionId).Failure? <==> forall p :: p in s.org.positions ==> p.id != positionId
    ensures PositionCost(s, positionId).Success? ==>
      var c := PositionCost(s, positionId).value;
      c.positionId == positionId &&
      exists p :: p in s.org.positions && p.id == positionId && c.authorizedCount == p.authorizedCount
  {
    if PositionCost(s, positionId).Success? {
      var p := FindPosition(s.org.positions, positionId).value;
      assert p in s.org.positions && p.id == positionId;
    }
  }

  /** Line `k` of the hardware loop is the line of requirement row `k`. */
  lemma {:induction false} HardwareLinesAt(s: Snapshot, reqs: seq<Requirement>, authorized: int, k: nat)
    requires forall q :: q in reqs ==> FindHardware(s.hardware, q.itemId).Some?
    requires k < |reqs|
    ensures HardwareLines(s, reqs, authorized)[k] ==
      HardwareLine(FindHardware(s.hardware, reqs[k].itemId).value, reqs[k], authorized)
  {
    if k < |reqs| - 1 {
      HardwareLinesAt(s, reqs[..|reqs| - 1], authorized, k);
      assert reqs[..|reqs| - 1][k] == reqs[k];
    }
  }

  /** Line `k` of the software loop is the line of requirement row `k`. */
  lemma {:induction false} SoftwareLinesAt(s: Snapshot, reqs: seq<Requirement>, authorized: int, k: nat)
    requires forall q :: q in reqs ==> FindSoftware(s.software, q.itemId).Some?
    requires k < |reqs|
    ensures SoftwareLines(s, reqs, authorized)[k] ==
      SoftwareLine(s, FindSoftware(s.software, reqs[k].itemId).value, reqs[k], authorized)
  {
    if k < |reqs| - 1 {
      SoftwareLinesAt(s, reqs[..|reqs| - 1], authorized, k);
      assert reqs[..|reqs| - 1][k] == reqs[k];
    }
  }

  /** Hardware line `k` prices requirement row `k`: quantity times the
      item's estimated cost (0 when missing) per person, times the headcount
      for the position. */
  lemma HardwareLineAt(s: Snapshot, reqs: seq<Requirement>, authorized: int, k: nat)
    requires forall q :: q in reqs ==> FindHardware(s.hardware, q.itemId).Some?
    requires k < |reqs|
    ensures
      var l := HardwareLines(s, reqs, authorized)[k];
      var hw := FindHardware(s.hardware, reqs[k].itemId).value;
      && l.hardwareId == reqs[k].itemId && l.quantity == reqs[k].quantity
      && l.unitCost == hw.estimatedCost.GetOr(0.0)
      && l.lineTotal == reqs[k].quantity as real * l.unitCost
      && l.positionTotal == l.lineTotal * authorized as real
  {
    HardwareLinesAt(s, reqs, authorized, k);
  }

  /** What a software line charges: a per-user product costs quantity
      times its licence price per person; a tenant product costs its
      allocated share per person whatever the quantity. */
  lemma SoftwareLinePrice(s: Snapshot, sw: Software, req: Requirement, authorized: int)
    ensures
      var l := SoftwareLine(s, sw, req, authorized);
      && l.softwareId == sw.id && l.quantity == req.quantity && l.licenseModel == sw.licenseModel
      && (sw.licenseModel == PerUser ==>
            l.unitCost == sw.costPerLicense.GetOr(0.0) && l.lineTotal == req.quantity as real * l.unitCost)
      && (sw.licenseModel == Tenant ==> l.unitCost == TenantShare(s, sw) && l.lineTotal == l.unitCost)
      && l.positionTotal == l.lineTotal * authorized as real
  {
  }

  /** The shape of every position summary: each position figure is the
      per-person figure times the authorized headcount, and the totals are
      hardware plus software. */
  predicate Scaled(c: PositionCostSummary) {
    var n := c.authorizedCount as real;
    && c.hardwareTotal == c.hardwareTotalPerPerson * n
    && c.softwareTotal == c.softwareTotalPerPerson * n
    && c.totalPerPerson == c.hardwareTotalPerPerson + c.softwareTotalPerPerson
    && c.grandTotal == c.hardwareTotal + c.softwareTotal
    && c.grandTotal == c.totalPerPerson * n
  }

  /** Summing lines whose position totals are their per-person totals times
      the headcount gives a summary of that shape. */
  lemma SummarizeScales(p: Position, departmentId: int, hw: seq<HardwareCostLine>, sw: seq<SoftwareCostLine>)
    requires forall l :: l in hw ==> l.positionTotal == l.lineTotal * p.authorizedCount as real
    requires forall l :: l in sw ==> l.positionTotal == l.lineTotal * p.authorizedCount as real
    ensures Scaled(Summarize(p, departmentId, hw, sw))
  {
    var n := p.authorizedCount as real;
    SumRealScale(hw, HwLineTotal, HwPositionTotal, n);
    SumRealScale(sw, SwLineTotal, SwPositionTotal, n);
    var x, y := SumReal(hw, HwLineTotal), SumReal(sw, SwLineTotal);
    assert x * n + y * n == (x + y) * n;
  }

  /** Every position summary has that shape: the position figures are the
      per-person figures times the authorized headcount, and the grand total
      is hardware plus software. */
  lemma PositionTotalsScale(s: Snapshot, p: Position)
    requires Consistent(s) && p in s.org.positions
    ensures Scaled(PositionCostOf(s, p))
  {
    RequirementsPriced(s, p.id);
    var departmentId := FindDivision(s.org.divisions, p.divisionId).value.departmentId;
    var hw := HardwareLines(s, RowsOf(s.hardwareReqs, p.id), p.authorizedCount);
    var sw := SoftwareLines(s, RowsOf(s.softwareReqs, p.id), p.authorizedCount);
    SummarizeScales(p, departmentId, hw, sw);
  }

  /** A position without requirement rows has no lines and costs nothing. */
  lemma NoRequirementsCostNothing(s: Snapshot, p: Position)
    requires Consistent(s) && p in s.org.positions
    requires forall q :: q in s.hardwareReqs ==> q.positionId != p.id
    requires forall q :: q in s.softwareReqs ==> q.positionId != p.id
    ensures
      var c := PositionCostOf(s, p);
      && c.hardwareLines == [] && c.softwareLines == []
      && c.totalPerPerson == 0.0 && c.grandTotal == 0.0
      && c.authorizedCount == p.authorizedCount
  {
    FilterNone(s.hardwareReqs, (q: Requirement) => q.positionId == p.id);
    FilterNone(s.softwareReqs, (q: Requirement) => q.positionId == p.id);
  }

  // ------------------------------------------------------------ coverage

  /** A position id is covered exactly when some coverage row reaches it. */
  lemma {:induction false} CoveredIdsMembers(org: Org, rows: seq<Coverage>, id: int)
    ensures id in CoveredIds(org, rows) <==> exists k :: 0 <= k < |rows| && id in RuleIds(org, rows[k])
  {
    if rows != [] {
      var front := rows[..|rows| - 1];
      CoveredIdsMembers(org, front, id);
      if id in CoveredIds(org, front) {
        var k :| 0 <= k < |front| && id in RuleIds(org, front[k]);
        assert front[k] == rows[k];
      }
      if exists k :: 0 <= k < |rows| && id in RuleIds(org, rows[k]) {
        var k :| 0 <= k < |rows| && id in RuleIds(org, rows[k]);
        if k < |front| {
          assert front[k] == rows[k];
        }
      }
    }
  }

  lemma {:induction false} PositionIdsUnderActive(positions: seq<Position>, divs: seq<Division>, id: int)
    requires id in PositionIdsUnder(positions, divs)
    ensures exists p :: p in positions && p.isActive && p.id == id
  {
    if id !in ActivePositionIdsIn(positions, divs[|divs| - 1].id) {
      PositionIdsUnderActive(positions, divs[..|divs| - 1], id);
    }
  }

  /** Whatever its type, a coverage row reaches active positions only. */
  lemma RuleIdsActive(org: Org, c: Coverage, id: int)
    requires id in RuleIds(org, c)
    ensures exists p :: p in org.positions && p.isActive && p.id == id
  {
    if c.scopeType != "organization" && c.scopeType == "department" && Truthy(c.departmentId) {
      PositionIdsUnderActive(org.positions, ActiveDivisionsOf(org.divisions, c.departmentId.value), id);
    }
  }

  /** Adding a coverage row that reaches only positions already covered
      leaves the covered set, and so the headcount, unchanged: overlapping
      rows do not count a position twice. */
  lemma OverlappingRowAddsNothing(org: Org, rows: seq<Coverage>, c: Coverage)
    requires RuleIds(org, c) <= CoveredIds(org, rows)
    ensures CoveredIds(org, rows + [c]) == CoveredIds(org, rows)
  {
    assert (rows + [c])[..|rows|] == rows;
  }

  /** The headcount of a union of position sets counts the positions the
      two sets share once: inclusion-exclusion over `SumAuthorizedIn`. */
  lemma {:induction false} SumAuthorizedUnion(positions: seq<Position>, a: set<int>, b: set<int>)
    ensures SumAuthorizedIn(positions, a + b) + SumAuthorizedIn(positions, a * b)
         == SumAuthorizedIn(positions, a) + SumAuthorizedIn(positions, b)
  {
    if positions != [] {
      SumAuthorizedUnion(positions[..|positions| - 1], a, b);
    }
  }

  /** `SumAuthorizedIn` is the authorized count of the positions whose id is
      in the set. */
  lemma {:induction false} SumAuthorizedInFilter(positions: seq<Position>, ids: set<int>)
    ensures SumAuthorizedIn(positions, ids) ==
      SumInt(Filter(positions, (p: Position) => p.id in ids), OrganizationService.AuthorizedOf)
  {
    if positions != [] {
      var front := positions[..|positions| - 1];
      var p := positions[|positions| - 1];
      var keep := (p: Position) => p.id in ids;
      SumAuthorizedInFilter(front, ids);
      assert Filter(positions, keep) == Filter(front, keep) + (if keep(p) then [p] else []);
      if p.id in ids {
        SumIntSnoc(Filter(front, keep), p, OrganizationService.AuthorizedOf);
      } else {
        assert Filter(front, keep) + [] == Filter(front, keep);
      }
    }
  }

  /** Two positions of the table with the same id are the same row. */
  lemma SameIdSamePosition(org: Org, p: Position, q: Position)
    requires OrganizationService.UniqueIds(org)
    requires p in org.positions && q in org.positions && p.id == q.id
    ensures p == q
  {
    var i :| 0 <= i < |org.positions| && org.positions[i] == p;
    var j :| 0 <= j < |org.positions| && org.positions[j] == q;
    assert !(i < j) && !(j < i);
  }

  /** A product with an organization coverage row covers every active
      position: its headcount is the organisation's authorized total. */
  lemma OrganizationRowCoversAll(s: Snapshot, softwareId: int, k: nat)
    requires OrganizationService.UniqueIds(s.org)
    requires k < |s.coverage| && s.coverage[k].softwareId == softwareId
    requires s.coverage[k].scopeType == OrganizationScope
    ensures Headcount(s, softwareId) == OrganizationService.GetTotalAuthorizedCount(s.org, None, None)
  {
    var rows := CoverageOf(s, softwareId);
    var c := s.coverage[k];
    assert c in rows;
    var active := set p | p in s.org.positions && p.isActive :: p.id;
    forall id
      ensures id in CoveredIds(s.org, rows) <==> id in active
    {
      CoveredIdsMembers(s.org, rows, id);
      if id in CoveredIds(s.org, rows) {
        var j :| 0 <= j < |rows| && id in RuleIds(s.org, rows[j]);
        RuleIdsActive(s.org, rows[j], id);
      }
      if id in active {
        var j :| 0 <= j < |rows| && rows[j] == c;
      }
    }
    assert CoveredIds(s.org, rows) == active;
    forall p | p in s.org.positions
      ensures (p.id in active) == (p.isActive && OrganizationService.PlacementFilter(s.org, None, None, p))
    {
      if p.id in active {
        var q :| q in s.org.positions && q.isActive && q.id == p.id;
        SameIdSamePosition(s.org, p, q);
      }
    }
    FilterSame(s.org.positions, (p: Position) => p.id in active,
      (p: Position) => p.isActive && OrganizationService.PlacementFilter(s.org, None, None, p));
    SumAuthorizedInFilter(s.org.positions, active);
    if active == {} {
      FilterNone(s.org.positions, (p: Position) => p.id in active);
    }
  }

  // ------------------------------------------------------------ roll-up properties

  lemma {:induction false} PositionSummariesScaled(s: Snapshot, ps: seq<Position>)
    requires Consistent(s) && forall p :: p in ps ==> p in s.org.positions
    ensures forall c :: c in PositionSummaries(s, ps) ==> Scaled(c)
  {
    if ps != [] {
      PositionSummariesScaled(s, ps[..|ps| - 1]);
      PositionTotalsScale(s, ps[|ps| - 1]);
    }
  }

  /** A division's grand total is the sum of its active positions' grand
      totals, each of which is per-person cost times headcount. */
  lemma DivisionTotalIsSumOfPositions(s: Snapshot, d: Division)
    requires Consistent(s)
    ensures
      var costs := PositionSummaries(s, DivisionPositions(s.org, d.id));
      && DivisionCostOf(s, d).grandTotal == SumReal(costs, PositionGrandTotal)
      && forall c :: c in costs ==> Scaled(c)
  {
    var costs := PositionSummaries(s, DivisionPositions(s.org, d.id));
    PositionSummariesScaled(s, DivisionPositions(s.org, d.id));
    SumRealAdd(costs, PositionHardwareTotal, PositionSoftwareTotal, PositionGrandTotal);
  }

  /** A division's headcount is what the organisation service's
      authorized-count aggregate reports for that division. */
  lemma DivisionHeadcountAgrees(s: Snapshot, d: Division)
    requires Consistent(s)
    ensures DivisionCostOf(s, d).totalAuthorized == OrganizationService.GetTotalAuthorizedCount(s.org, None, Some(d.id))
    ensures DivisionCostOf(s, d).positionCount == |DivisionPositions(s.org, d.id)|
  {
    FilterSame(s.org.positions, (p: Position) => p.divisionId == d.id && p.isActive,
      (p: Position) => p.isActive && OrganizationService.PlacementFilter(s.org, Some(d.id), None, p));
  }

  /** An unknown division id is exactly what makes the division breakdown
      fail. */
  lemma DivisionCostOutcome(s: Snapshot, divisionId: int)
    requires Consistent(s)
    ensures DivisionCost(s, divisionId).Failure? <==> forall d :: d in s.org.divisions ==> d.id != divisionId
    ensures DivisionCost(s, divisionId).Success? ==> DivisionCost(s, divisionId).value.divisionId == divisionId
  {
  }

  lemma {:induction false} DivisionSummariesAdd(s: Snapshot, divs: seq<Division>)
    requires Consistent(s)
    ensures forall c :: c in DivisionSummaries(s, divs) ==> c.grandTotal == c.hardwareTotal + c.softwareTotal
  {
    if divs != [] {
      DivisionSummariesAdd(s, divs[..|divs| - 1]);
    }
  }

  /** A department's grand total is the sum of its active divisions' grand
      totals. */
  lemma DepartmentTotalIsSumOfDivisions(s: Snapshot, dept: Department)
    requires Consistent(s)
    ensures
      var costs := DivisionSummaries(s, ActiveDivisionsOf(s.org.divisions, dept.id));
      DepartmentCostOf(s, dept).grandTotal == SumReal(costs, DivisionGrandTotal)
  {
    var costs := DivisionSummaries(s, ActiveDivisionsOf(s.org.divisions, dept.id));
    DivisionSummariesAdd(s, ActiveDivisionsOf(s.org.divisions, dept.id));
    SumRealAdd(costs, DivisionHardwareTotal, DivisionSoftwareTotal, DivisionGrandTotal);
  }

  lemma {:induction false} DepartmentSummariesAt(s: Snapshot, depts: seq<Department>, k: nat)
    requires Consistent(s) && k < |depts|
    ensures DepartmentSummaries(s, depts)[k].departmentId == depts[k].id
  {
    if k < |depts| - 1 {
      DepartmentSummariesAt(s, depts[..|depts| - 1], k);
    }
  }

  /** `departmentId` is the id of an active department the user may open. */
  predicate OpenableDepartment(s: Snapshot, user: AuthUser, departmentId: int) {
    exists d :: d in s.org.departments && d.isActive && d.id == departmentId &&
      OrganizationService.UserCanAccessDepartment(s.org, user, d.id)
  }

  /** The department breakdown holds one summary for each active department
      the user may open, and nothing else. */
  lemma BreakdownMatchesAccess(s: Snapshot, user: AuthUser)
    requires Consistent(s)
    ensures forall x :: x in DepartmentBreakdown(s, user) ==> OpenableDepartment(s, user, x.departmentId)
    ensures forall d :: d in s.org.departments && d.isActive && OrganizationService.UserCanAccessDepartment(s.org, user, d.id) ==>
                          exists x :: x in DepartmentBreakdown(s, user) && x.departmentId == d.id
  {
    var depts := OrganizationService.GetDepartments(s.org, user, false);
    var r := DepartmentBreakdown(s, user);
    forall x | x in r
      ensures OpenableDepartment(s, user, x.departmentId)
    {
      var k :| 0 <= k < |r| && r[k] == x;
      DepartmentSummariesAt(s, depts, k);
      OrganizationService.DepartmentListAgreesWithAccess(s.org, user, depts[k]);
    }
    forall d | d in s.org.departments && d.isActive && OrganizationService.UserCanAccessDepartment(s.org, user, d.id)
      ensures exists x :: x in r && x.departmentId == d.id
    {
      OrganizationService.DepartmentListAgreesWithAccess(s.org, user, d);
      var k :| 0 <= k < |depts| && depts[k] == d;
      DepartmentSummariesAt(s, depts, k);
      assert r[k] in r;
    }
  }

  /** A user without any scope gets an empty breakdown. */
  lemma UnscopedUserGetsNoBreakdown(s: Snapshot, user: AuthUser)
    requires Consistent(s) && OrganizationService.Unscoped(user)
    ensures DepartmentBreakdown(s, user) == []
  {
    OrganizationService.UnscopedSeesNoDepartment(s.org, user, false);
  }

  /** With no one authorized the position totals are 0 while the per-person
      figures remain. */
  lemma ZeroHeadcountCostsNothing(s: Snapshot, p: Position)
    requires Consistent(s) && p in s.org.positions && p.authorizedCount == 0
    ensures
      var c := PositionCostOf(s, p);
      && c.hardwareTotal == 0.0 && c.softwareTotal == 0.0 && c.grandTotal == 0.0
      && c.totalPerPerson == c.hardwareTotalPerPerson + c.softwareTotalPerPerson
  {
    PositionTotalsScale(s, p);
  }

  // ------------------------------------------------------------ a worked example

  /** One department, one division, one position budgeted for three people,
      a 1200.00 laptop and a 200.00 per-user product. */
  function ExampleSnapshot(hardwareQuantity: int, softwareRows: seq<Requirement>): Snapshot {
    Snapshot(
      Org([Department(1, "TEST_DEPT", "Test Department", true)],
          [Division(1, "TEST_DIV", "Test Division", 1, true)],
          [Position(1, "TEST_POS", "Test Position", 1, 3, true)]),
      [Hardware(1, "Standard Test Laptop", 1, None, Some(1200.0), true, 0)],
      [Software(1, "Test Office Suite", 1, None, None, PerUser, None, Some(200.0), None, true, 0)],
      [],
      [Requirement(1, 1, 1, hardwareQuantity, None)],
      softwareRows)
  }

  /** One laptop and one licence per person for three people: 3600.00 of
      hardware, 600.00 of software, 4200.00 in all and 1400.00 per person. */
  lemma CombinedExample()
    ensures Consistent(ExampleSnapshot(1, [Requirement(2, 1, 1, 1, None)]))
    ensures
      var s := ExampleSnapshot(1, [Requirement(2, 1, 1, 1, None)]);
      var c := PositionCostOf(s, s.org.positions[0]);
      c.hardwareTotal == 3600.0 && c.softwareTotal == 600.0 && c.grandTotal == 4200.0 && c.totalPerPerson == 1400.0
  {
    var s := ExampleSnapshot(1, [Requirement(2, 1, 1, 1, None)]);
    var hwRow, swRow := s.hardwareReqs[0], s.softwareReqs[0];
    assert FindHardware(s.hardware, 1) == Some(s.hardware[0]);
    assert FindSoftware(s.software, 1) == Some(s.software[0]);
    assert FindDivision(s.org.divisions, 1) == Some(s.org.divisions[0]);
    assert RowsOf(s.hardwareReqs, 1) == [hwRow];
    assert RowsOf(s.softwareReqs, 1) == [swRow];
    var hw := HardwareLines(s, [hwRow], 3);
    var sw := SoftwareLines(s, [swRow], 3);
    assert hw == [HardwareCostLine(1, 1, 1200.0, 1200.0, 3600.0)] by {
      assert [hwRow][..0] == [];
    }
    assert sw == [SoftwareCostLine(1, PerUser, 1, 200.0, 200.0, 600.0)] by {
      assert [swRow][..0] == [];
    }
    assert SumReal(hw, HwLineTotal) == 1200.0 && SumReal(hw, HwPositionTotal) == 3600.0 by {
      assert hw[..0] == [];
    }
    assert SumReal(sw, SwLineTotal) == 200.0 && SumReal(sw, SwPositionTotal) == 600.0 by {
      assert sw[..0] == [];
    }
    assert PositionCostOf(s, s.org.positions[0]) == Summarize(s.org.positions[0], 1, hw, sw);
  }

  /** A 9000.00 tenant product with one organization coverage row over three
      positions budgeted for 10, 20 and 70 people: 100 covered heads, 90.00
      per head. */
  lemma TenantExample()
    ensures
      var s := TenantSnapshot();
      && Headcount(s, 1) == 100
      && TenantShare(s, TenantSuite()) == 90.0
      && SoftwareLine(s, TenantSuite(), Requirement(1, 2, 1, 1, None), 20).positionTotal == 1800.0
  {
    TenantShareExample();
    var line := SoftwareLine(TenantSnapshot(), TenantSuite(), Requirement(1, 2, 1, 1, None), 20);
    assert line.lineTotal == 90.0;
  }

  /** 9000.00 over 100 covered heads. */
  lemma TenantShareExample()
    ensures TenantShare(TenantSnapshot(), TenantSuite()) == 90.0
  {
    TenantHeadcountExample();
    ShareOfHeadcount(TenantSnapshot(), TenantSuite(), 9000.0, 100);
  }

  /** A priced product over a known nonzero headcount costs its price over
      that headcount per head. */
  lemma ShareOfHeadcount(s: Snapshot, sw: Software, cost: real, heads: int)
    requires sw.totalCost == Some(cost) && cost != 0.0
    requires heads > 0 && Headcount(s, sw.id) == heads
    ensures TenantShare(s, sw) == cost / heads as real
  {
  }

  /** The organization row covers all three positions: 10 + 20 + 70 heads. */
  lemma TenantHeadcountExample()
    ensures Headcount(TenantSnapshot(), 1) == 100
  {
    var s := TenantSnapshot();
    TenantRows();
    var ids := CoveredIds(s.org, s.coverage);
    TenantIds();
    TenantSum(ids);
  }

  /** The product's one coverage row is the only one. */
  lemma TenantRows()
    ensures CoverageOf(TenantSnapshot(), 1) == TenantSnapshot().coverage
  {
    assert TenantSnapshot().coverage[..0] == [];
  }

  /** The organization row reaches all three positions. */
  lemma TenantIds()
    ensures var s := TenantSnapshot(); 1 in CoveredIds(s.org, s.coverage) && 2 in CoveredIds(s.org, s.coverage) && 3 in CoveredIds(s.org, s.coverage)
  {
    var s := TenantSnapshot();
    assert s.coverage[..0] == [];
    var ps := s.org.positions;
    assert ps[0].id in RuleIds(s.org, s.coverage[0]);
    assert ps[1].id in RuleIds(s.org, s.coverage[0]);
    assert ps[2].id in RuleIds(s.org, s.coverage[0]);
  }

  /** Any id set holding the three positions sums to 100 heads. */
  lemma TenantSum(ids: set<int>)
    requires 1 in ids && 2 in ids && 3 in ids
    ensures SumAuthorizedIn(TenantSnapshot().org.positions, ids) == 100
  {
    var ps := TenantSnapshot().org.positions;
    assert ps[..2][..1] == ps[..1] && ps[..1][..0] == [];
    assert SumAuthorizedIn(ps[..1], ids) == 10;
    assert SumAuthorizedIn(ps[..2], ids) == 30;
  }

  function TenantSuite(): Software {
    Software(1, "Suite", 1, None, None, Tenant, None, None, Some(9000.0), true, 0)
  }

  function TenantSnapshot(): Snapshot {
    Snapshot(
      Org([Department(1, "D", "Department", true)],
          [Division(1, "V", "Division", 1, true)],
          [Position(1, "P1", "One", 1, 10, true), Position(2, "P2", "Two", 1, 20, true),
           Position(3, "P3", "Three", 1, 70, true)]),
      [],
      [TenantSuite()],
      [Coverage(1, OrganizationScope, None, None, None)],
      [], [])
  }
}

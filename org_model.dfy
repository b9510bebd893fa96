/** The organisation hierarchy (department > division > position > employee)
    as the rows of the `org` schema. */
module OrgModel {
  import opened Wrappers

  datatype Department = Department(id: int, code: string, name: string, isActive: bool)

  datatype Division = Division(id: int, code: string, name: string, departmentId: int, isActive: bool)

  /** `authorizedCount` is the number of people the position is budgeted for
      (column default 1). */
  datatype Position = Position(
    id: int, code: string, title: string, divisionId: int, authorizedCount: int, isActive: bool)

  /** `code` is the HR system's employee number. */
  datatype Employee = Employee(
    id: int, code: string, firstName: string, lastName: string,
    email: Option<string>, positionId: int, isActive: bool)

  /** The three tables the read services query together. */
  datatype Org = Org(departments: seq<Department>, divisions: seq<Division>, positions: seq<Position>)

  /** `db.session.get(Department, id)` */
  function FindDepartment(ds: seq<Department>, id: int): (r: Option<Department>)
    ensures r.Some? ==> r.value in ds && r.value.id == id
    ensures r.None? ==> forall d :: d in ds ==> d.id != id
  {
    if ds == [] then None else if ds[0].id == id then Some(ds[0]) else FindDepartment(ds[1..], id)
  }

  /** `db.session.get(Division, id)` */
  function FindDivision(ds: seq<Division>, id: int): (r: Option<Division>)
    ensures r.Some? ==> r.value in ds && r.value.id == id
    ensures r.None? ==> forall d :: d in ds ==> d.id != id
  {
    if ds == [] then None else if ds[0].id == id then Some(ds[0]) else FindDivision(ds[1..], id)
  }

  /** `db.session.get(Position, id)` */
  function FindPosition(ps: seq<Position>, id: int): (r: Option<Position>)
    ensures r.Some? ==> r.value in ps && r.value.id == id
    ensures r.None? ==> forall p :: p in ps ==> p.id != id
  {
    if ps == [] then None else if ps[0].id == id then Some(ps[0]) else FindPosition(ps[1..], id)
  }

  /** `db.session.get(Employee, id)` */
  function FindEmployee(es: seq<Employee>, id: int): (r: Option<Employee>)
    ensures r.Some? ==> r.value in es && r.value.id == id
    ensures r.None? ==> forall e :: e in es ==> e.id != id
  {
    if es == [] then None else if es[0].id == id then Some(es[0]) else FindEmployee(es[1..], id)
  }
}

/** The equipment catalog (hardware types, hardware items, software
    products and their tenant coverage) and the position requirement rows
    that reference it. Timestamps are integers supplied by the caller. */
module EquipmentModel {
  import opened Wrappers

  /** `maxSelections`: None or 0 means unlimited; the database refuses
      negative values. */
  datatype HardwareType = HardwareType(
    id: int, name: string, description: Option<string>, estimatedCost: real,
    maxSelections: Option<int>, isActive: bool, updatedAt: int)

  /** A specific hardware item inside a type; its cost may be missing. */
  datatype Hardware = Hardware(
    id: int, name: string, hardwareTypeId: int, description: Option<string>,
    estimatedCost: Option<real>, isActive: bool, updatedAt: int)

  /** The two licence models the database admits. */
  datatype LicenseModel = PerUser | Tenant

  datatype Software = Software(
    id: int, name: string, softwareTypeId: int, softwareFamilyId: Option<int>,
    description: Option<string>, licenseModel: LicenseModel, licenseTier: Option<string>,
    costPerLicense: Option<real>, totalCost: Option<real>, isActive: bool, updatedAt: int)

  /** Which positions a tenant product covers: `scopeType` is
      "organization", "department", "division" or "position", with the
      matching id column. */
  datatype Coverage = Coverage(
    softwareId: int, scopeType: string,
    departmentId: Option<int>, divisionId: Option<int>, positionId: Option<int>)

  /** A position-hardware or position-software row: `itemId` is the
      hardware or software id; the database keeps `quantity >= 1`. */
  datatype Requirement = Requirement(id: int, positionId: int, itemId: int, quantity: int, notes: Option<string>)

  /** Python truthiness of a nullable id column. */
  predicate Truthy(x: Option<int>) {
    x.Some? && x.value != 0
  }

  function FindHardwareType(ts: seq<HardwareType>, id: int): (r: Option<HardwareType>)
    ensures r.Some? ==> r.value in ts && r.value.id == id
    ensures r.None? ==> forall t :: t in ts ==> t.id != id
  {
    if ts == [] then None else if ts[0].id == id then Some(ts[0]) else FindHardwareType(ts[1..], id)
  }

  function FindHardware(hs: seq<Hardware>, id: int): (r: Option<Hardware>)
    ensures r.Some? ==> r.value in hs && r.value.id == id
    ensures r.None? ==> forall h :: h in hs ==> h.id != id
  {
    if hs == [] then None else if hs[0].id == id then Some(hs[0]) else FindHardware(hs[1..], id)
  }

  function FindSoftware(ss: seq<Software>, id: int): (r: Option<Software>)
    ensures r.Some? ==> r.value in ss && r.value.id == id
    ensures r.None? ==> forall s :: s in ss ==> s.id != id
  {
    if ss == [] then None else if ss[0].id == id then Some(ss[0]) else FindSoftware(ss[1..], id)
  }
}

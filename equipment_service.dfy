/** The catalog service of `app/services/equipment_service.py`: creation,
    update and soft deletion of hardware types, hardware items and software
    products, each cost change closing the item's open history row and
    recording a new one. The database tables are sequences held by one
    catalog object; ids are autoincrement (an item's id is its position +
    1, nothing is ever hard-deleted). Timestamps are passed in as `now`. */
module EquipmentService {
  import opened Wrappers
  import opened EquipmentModel
  import opened CostHistory
  import opened Text

  /** The two cost columns of a software product, as its history row
      stores them. */
  datatype SoftwareCost = SoftwareCost(costPerLicense: Option<real>, totalCost: Option<real>)

  /** The ValueError of an update or deactivation with an unknown id. */
  datatype EquipmentError =
    | HardwareTypeNotFound(hardwareTypeId: int)
    | HardwareNotFound(hardwareId: int)
    | SoftwareNotFound(softwareId: int)
    | DuplicateName(name: string)

  /** One keyword argument of `update_software(**kwargs)`: a column of the
      software record with its new value, or a keyword that names no
      attribute of the record. */
  datatype SoftwareField =
    | Name(name: string)
    | SoftwareTypeId(softwareTypeId: int)
    | SoftwareFamilyId(softwareFamilyId: Option<int>)
    | Description(description: Option<string>)
    | License(licenseModel: LicenseModel)
    | LicenseTier(licenseTier: Option<string>)
    | CostPerLicense(costPerLicense: Option<real>)
    | TotalCost(totalCost: Option<real>)
    | IsActive(isActive: bool)
    | NotAnAttribute(keyword: string)

  function Keyword(f: SoftwareField): string {
    match f
    case Name(_) => "name"
    case SoftwareTypeId(_) => "software_type_id"
    case SoftwareFamilyId(_) => "software_family_id"
    case Description(_) => "description"
    case License(_) => "license_model"
    case LicenseTier(_) => "license_tier"
    case CostPerLicense(_) => "cost_per_license"
    case TotalCost(_) => "total_cost"
    case IsActive(_) => "is_active"
    case NotAnAttribute(k) => k
  }

  /** `hasattr(sw, keyword)` for the columns above. */
  predicate IsAttribute(keyword: string) {
    keyword in {"name", "software_type_id", "software_family_id", "description", "license_model",
                "license_tier", "cost_per_license", "total_cost", "is_active"}
  }

  /** The key and timestamp columns, which `hasattr` also accepts. */
  const Bookkeeping: set<string> := {"id", "created_at", "updated_at"}

  /** A keyword that names no attribute really names none. Callers are
      taken not to pass the key or a timestamp column: `setattr` would
      overwrite them, and the model keeps both. */
  predicate WellFormedKwargs(kwargs: seq<SoftwareField>) {
    forall i :: 0 <= i < |kwargs| && kwargs[i].NotAnAttribute? ==>
      !IsAttribute(kwargs[i].keyword) && kwargs[i].keyword !in Bookkeeping
  }

  /** `kwargs[keyword]` (the last occurrence, as a later key of a Python
      dict overrides an earlier one). */
  function Lookup(kwargs: seq<SoftwareField>, keyword: string): (r: Option<SoftwareField>)
    ensures r.Some? ==> r.value in kwargs && Keyword(r.value) == keyword
    ensures r.None? <==> forall f :: f in kwargs ==> Keyword(f) != keyword
  {
    if kwargs == [] then None
    else if Keyword(kwargs[|kwargs| - 1]) == keyword then Some(kwargs[|kwargs| - 1])
    else Lookup(kwargs[..|kwargs| - 1], keyword)
  }

  /** `setattr(sw, name, value)` when `hasattr(sw, name)`. */
  function ApplyField(sw: Software, f: SoftwareField): Software {
    match f
    case Name(v) => sw.(name := v)
    case SoftwareTypeId(v) => sw.(softwareTypeId := v)
    case SoftwareFamilyId(v) => sw.(softwareFamilyId := v)
    case Description(v) => sw.(description := v)
    case License(v) => sw.(licenseModel := v)
    case LicenseTier(v) => sw.(licenseTier := v)
    case CostPerLicense(v) => sw.(costPerLicense := v)
    case TotalCost(v) => sw.(totalCost := v)
    case IsActive(v) => sw.(isActive := v)
    case NotAnAttribute(_) => sw
  }

  /** The record after every keyword argument has been applied in order. */
  function Applied(sw: Software, kwargs: seq<SoftwareField>): Software {
    if kwargs == [] then sw else ApplyField(Applied(sw, kwargs[..|kwargs| - 1]), kwargs[|kwargs| - 1])
  }

  /** `cost_changed` of `update_software`: a cost keyword is passed with a
      value other than the current one. */
  predicate SoftwareCostChanged(sw: Software, kwargs: seq<SoftwareField>) {
    (match Lookup(kwargs, "cost_per_license")
     case Some(CostPerLicense(c)) => c != sw.costPerLicense
     case _ => false)
    ||
    (match Lookup(kwargs, "total_cost")
     case Some(TotalCost(c)) => c != sw.totalCost
     case _ => false)
  }

  /** `cost_changed` of `update_hardware_type` and `update_hardware`. */
  predicate CostChanged<C(==)>(current: C, given: Option<C>) {
    given.Some? && given.value != current
  }

  function TypeCosts(ts: seq<HardwareType>): (r: seq<real>)
    ensures |r| == |ts| && forall i :: 0 <= i < |ts| ==> r[i] == ts[i].estimatedCost
  {
    seq(|ts|, i requires 0 <= i < |ts| => ts[i].estimatedCost)
  }

  function HardwareCosts(hs: seq<Hardware>): (r: seq<Option<real>>)
    ensures |r| == |hs| && forall i :: 0 <= i < |hs| ==> r[i] == hs[i].estimatedCost
  {
    seq(|hs|, i requires 0 <= i < |hs| => hs[i].estimatedCost)
  }

  function SoftwareCostOf(sw: Software): SoftwareCost {
    SoftwareCost(sw.costPerLicense, sw.totalCost)
  }

  function SoftwareCosts(ss: seq<Software>): (r: seq<SoftwareCost>)
    ensures |r| == |ss| && forall i :: 0 <= i < |ss| ==> r[i] == SoftwareCostOf(ss[i])
  {
    seq(|ss|, i requires 0 <= i < |ss| => SoftwareCostOf(ss[i]))
  }

  /** Appending a product numbered one past the table, with its first cost
      row, keeps the ids the row numbers and the history in step with the
      table, and the new row tells the product's cost. */
  lemma SoftwareCreated(ss: seq<Software>, h: seq<Row<SoftwareCost>>, sw: Software, now: int, userId: Option<int>)
    requires SoftwareIdsAreIndices(ss) && AtMostOneOpen(h) && Tracks(h, SoftwareCosts(ss))
    requires sw.id == |ss| + 1
    ensures var h' := Recorded(h, sw.id, SoftwareCostOf(sw), now, userId);
      && SoftwareIdsAreIndices(ss + [sw])
      && AtMostOneOpen(h') && Tracks(h', SoftwareCosts(ss + [sw]))
      && CurrentCost(h', sw.id) == Some(SoftwareCostOf(sw))
  {
    Opened(h, SoftwareCosts(ss), SoftwareCostOf(sw), now, userId);
    assert SoftwareCosts(ss + [sw]) == SoftwareCosts(ss) + [SoftwareCostOf(sw)];
  }

  predicate TypeIdsAreIndices(ts: seq<HardwareType>) {
    forall i :: 0 <= i < |ts| ==> ts[i].id == i + 1
  }

  predicate HardwareIdsAreIndices(hs: seq<Hardware>) {
    forall i :: 0 <= i < |hs| ==> hs[i].id == i + 1
  }

  predicate SoftwareIdsAreIndices(ss: seq<Software>) {
    forall i :: 0 <= i < |ss| ==> ss[i].id == i + 1
  }

  // ----------------------------------------------------------- unique names

  /** Some row other than row `except` has this name up to letter case.
      `type_name` of a hardware type and `name` of a software product
      (`UQ_software_name`) are unique columns, compared under SQL Server's
      default case-insensitive collation, so such a name is refused. */
  predicate NameTaken(names: seq<string>, name: string, except: int) {
    exists j :: 0 <= j < |names| && j != except && Lower(names[j]) == Lower(name)
  }

  /** What the unique constraint guarantees of a table's names. */
  predicate NamesDistinct(names: seq<string>) {
    forall i, j :: 0 <= i < j < |names| ==> Lower(names[i]) != Lower(names[j])
  }

  function TypeNames(ts: seq<HardwareType>): (r: seq<string>)
    ensures |r| == |ts| && forall i :: 0 <= i < |ts| ==> r[i] == ts[i].name
  {
    seq(|ts|, i requires 0 <= i < |ts| => ts[i].name)
  }

  function SoftwareNames(ss: seq<Software>): (r: seq<string>)
    ensures |r| == |ss| && forall i :: 0 <= i < |ss| ==> r[i] == ss[i].name
  {
    seq(|ss|, i requires 0 <= i < |ss| => ss[i].name)
  }

  /** A row keeps its own name free: no other row of a distinct table has it. */
  lemma OwnNameFree(names: seq<string>, k: nat)
    requires NamesDistinct(names) && k < |names|
    ensures !NameTaken(names, names[k], k)
  {
  }

  /** Inserting a name no row has keeps the names distinct. */
  lemma NameAppended(names: seq<string>, name: string)
    requires NamesDistinct(names) && !NameTaken(names, name, -1)
    ensures NamesDistinct(names + [name])
  {
    forall i, j | 0 <= i < j < |names| + 1
      ensures Lower((names + [name])[i]) != Lower((names + [name])[j])
    {
      if j == |names| {
        assert Lower(names[i]) != Lower(name);
      }
    }
  }

  /** Renaming row `k` to a name no other row has keeps the names distinct. */
  lemma NameReplaced(names: seq<string>, k: nat, name: string)
    requires NamesDistinct(names) && k < |names| && !NameTaken(names, name, k)
    ensures NamesDistinct(names[k := name])
  {
    var renamed := names[k := name];
    forall i, j | 0 <= i < j < |renamed|
      ensures Lower(renamed[i]) != Lower(renamed[j])
    {
      if i == k {
        assert Lower(names[j]) != Lower(name);
      } else if j == k {
        assert Lower(names[i]) != Lower(name);
      }
    }
  }

  /** Rewriting the history of item `id` for its cost `cost` keeps one
      open row per item and the history in step with the new costs. */
  lemma HistoryStored<C>(h: seq<Row<C>>, costs: seq<C>, id: int, cost: C, now: int, userId: Option<int>)
    requires AtMostOneOpen(h) && Tracks(h, costs) && 1 <= id <= |costs|
    ensures var h' := Rewritten(h, id, costs[id - 1], cost, now, userId);
      && AtMostOneOpen(h') && Tracks(h', costs[id - 1 := cost])
      && CurrentCost(h', id) == if cost != costs[id - 1] then Some(cost) else CurrentCost(h, id)
  {
    if cost != costs[id - 1] {
      Superseded(h, costs, id, cost, now, userId);
    } else {
      assert costs[id - 1 := cost] == costs;
    }
  }

  /** Writing back type `id` under a name no other type has, with its
      history rewritten, keeps the ids, the distinct names and the history
      invariant; the open row then tells the new cost if it changed. */
  lemma TypeStored(ts: seq<HardwareType>, h: seq<Row<real>>, id: int, u: HardwareType, now: int, userId: Option<int>)
    requires TypeIdsAreIndices(ts) && NamesDistinct(TypeNames(ts)) && AtMostOneOpen(h) && Tracks(h, TypeCosts(ts))
    requires 1 <= id <= |ts| && u.id == id && !NameTaken(TypeNames(ts), u.name, id - 1)
    ensures var ts' := ts[id - 1 := u];
      var h' := Rewritten(h, id, ts[id - 1].estimatedCost, u.estimatedCost, now, userId);
      && TypeIdsAreIndices(ts') && NamesDistinct(TypeNames(ts')) && AtMostOneOpen(h') && Tracks(h', TypeCosts(ts'))
      && CurrentCost(h', id) == if u.estimatedCost != ts[id - 1].estimatedCost then Some(u.estimatedCost) else CurrentCost(h, id)
  {
    HistoryStored(h, TypeCosts(ts), id, u.estimatedCost, now, userId);
    TypeReplaced(ts, id, u);
  }

  /** Replacing type `id` by a record numbered `id` under a free name. */
  lemma TypeReplaced(ts: seq<HardwareType>, id: int, u: HardwareType)
    requires TypeIdsAreIndices(ts) && NamesDistinct(TypeNames(ts))
    requires 1 <= id <= |ts| && u.id == id && !NameTaken(TypeNames(ts), u.name, id - 1)
    ensures TypeIdsAreIndices(ts[id - 1 := u]) && NamesDistinct(TypeNames(ts[id - 1 := u]))
    ensures TypeCosts(ts[id - 1 := u]) == TypeCosts(ts)[id - 1 := u.estimatedCost]
  {
    assert TypeCosts(ts[id - 1 := u]) == TypeCosts(ts)[id - 1 := u.estimatedCost];
    NameReplaced(TypeNames(ts), id - 1, u.name);
    assert TypeNames(ts[id - 1 := u]) == TypeNames(ts)[id - 1 := u.name];
  }

  /** The same for a software product and its two cost columns. */
  lemma SoftwareStored(ss: seq<Software>, h: seq<Row<SoftwareCost>>, id: int, u: Software, now: int, userId: Option<int>)
    requires SoftwareIdsAreIndices(ss) && NamesDistinct(SoftwareNames(ss)) && AtMostOneOpen(h) && Tracks(h, SoftwareCosts(ss))
    requires 1 <= id <= |ss| && u.id == id && !NameTaken(SoftwareNames(ss), u.name, id - 1)
    ensures var ss' := ss[id - 1 := u];
      var h' := Rewritten(h, id, SoftwareCostOf(ss[id - 1]), SoftwareCostOf(u), now, userId);
      && SoftwareIdsAreIndices(ss') && NamesDistinct(SoftwareNames(ss')) && AtMostOneOpen(h') && Tracks(h', SoftwareCosts(ss'))
      && CurrentCost(h', id) == if SoftwareCostOf(u) != SoftwareCostOf(ss[id - 1]) then Some(SoftwareCostOf(u)) else CurrentCost(h, id)
  {
    HistoryStored(h, SoftwareCosts(ss), id, SoftwareCostOf(u), now, userId);
    SoftwareReplaced(ss, id, u);
  }

  /** Replacing product `id` by a record numbered `id` under a free name. */
  lemma SoftwareReplaced(ss: seq<Software>, id: int, u: Software)
    requires SoftwareIdsAreIndices(ss) && NamesDistinct(SoftwareNames(ss))
    requires 1 <= id <= |ss| && u.id == id && !NameTaken(SoftwareNames(ss), u.name, id - 1)
    ensures SoftwareIdsAreIndices(ss[id - 1 := u]) && NamesDistinct(SoftwareNames(ss[id - 1 := u]))
    ensures SoftwareCosts(ss[id - 1 := u]) == SoftwareCosts(ss)[id - 1 := SoftwareCostOf(u)]
  {
    assert SoftwareCosts(ss[id - 1 := u]) == SoftwareCosts(ss)[id - 1 := SoftwareCostOf(u)];
    NameReplaced(SoftwareNames(ss), id - 1, u.name);
    assert SoftwareNames(ss[id - 1 := u]) == SoftwareNames(ss)[id - 1 := u.name];
  }

  // ------------------------------------------------------ keyword arguments

  /** The value of the attribute `keyword` of the record, as the keyword
      argument that would set it. */
  function Project(sw: Software, keyword: string): SoftwareField {
    match keyword
    case "name" => Name(sw.name)
    case "software_type_id" => SoftwareTypeId(sw.softwareTypeId)
    case "software_family_id" => SoftwareFamilyId(sw.softwareFamilyId)
    case "description" => Description(sw.description)
    case "license_model" => License(sw.licenseModel)
    case "license_tier" => LicenseTier(sw.licenseTier)
    case "cost_per_license" => CostPerLicense(sw.costPerLicense)
    case "total_cost" => TotalCost(sw.totalCost)
    case "is_active" => IsActive(sw.isActive)
    case _ => NotAnAttribute(keyword)
  }

  /** One `setattr` changes the attribute it names and no other. */
  lemma ApplyFieldProject(sw: Software, f: SoftwareField, keyword: string)
    requires IsAttribute(keyword)
    requires f.NotAnAttribute? ==> !IsAttribute(f.keyword)
    ensures Project(ApplyField(sw, f), keyword) == if Keyword(f) == keyword then f else Project(sw, keyword)
    ensures ApplyField(sw, f).id == sw.id && ApplyField(sw, f).updatedAt == sw.updatedAt
  {
  }

  /** Applying the keyword arguments sets every attribute they name to
      its (last) value and leaves every other attribute, the id and the
      update stamp as they were; a keyword that is no attribute has no
      effect. */
  lemma {:induction false} AppliedFields(sw: Software, kwargs: seq<SoftwareField>, keyword: string)
    requires WellFormedKwargs(kwargs) && IsAttribute(keyword)
    ensures Project(Applied(sw, kwargs), keyword) == match Lookup(kwargs, keyword) case Some(f) => f case None => Project(sw, keyword)
    ensures Applied(sw, kwargs).id == sw.id && Applied(sw, kwargs).updatedAt == sw.updatedAt
  {
    if kwargs != [] {
      var init := kwargs[..|kwargs| - 1];
      assert WellFormedKwargs(init) by {
        forall i | 0 <= i < |init| && init[i].NotAnAttribute?
          ensures !IsAttribute(init[i].keyword) && init[i].keyword !in Bookkeeping
        {
          assert init[i] == kwargs[i];
        }
      }
      AppliedFields(sw, init, keyword);
      ApplyFieldProject(Applied(sw, init), kwargs[|kwargs| - 1], keyword);
    }
  }

  /** A new history row is recorded exactly when the update really changes
      `cost_per_license` or `total_cost`. */
  lemma SoftwareCostChangeDetected(sw: Software, kwargs: seq<SoftwareField>)
    requires WellFormedKwargs(kwargs)
    ensures SoftwareCostChanged(sw, kwargs) <==> SoftwareCostOf(Applied(sw, kwargs)) != SoftwareCostOf(sw)
  {
    AppliedFields(sw, kwargs, "cost_per_license");
    AppliedFields(sw, kwargs, "total_cost");
  }

  /** The loop of `update_software` that applies the keyword arguments. */
  method ApplyKeywords(sw: Software, kwargs: seq<SoftwareField>) returns (r: Software)
    ensures r == Applied(sw, kwargs)
  {
    r := sw;
    for i := 0 to |kwargs|
      invariant r == Applied(sw, kwargs[..i])
    {
      assert kwargs[..i + 1][..i] == kwargs[..i];
      var f := kwargs[i];
      if !f.NotAnAttribute? {
        r := ApplyField(r, f);
      }
    }
    assert kwargs[..|kwargs|] == kwargs;
  }

  // ---------------------------------------------------------------- catalog

  /** The hardware type with the fields `update_hardware_type` was given. */
  function EditedType(t: HardwareType, typeName: Option<string>, estimatedCost: Option<real>,
                      description: Option<string>, now: int): (u: HardwareType)
    ensures u.id == t.id && u.maxSelections == t.maxSelections && u.isActive == t.isActive && u.updatedAt == now
    ensures u.name == (if typeName.Some? then typeName.value else t.name)
    ensures u.description == (if description.Some? then description else t.description)
    ensures estimatedCost.None? ==> u.estimatedCost == t.estimatedCost
    ensures u.estimatedCost != t.estimatedCost <==> CostChanged(t.estimatedCost, estimatedCost)
  {
    t.(name := typeName.GetOr(t.name), estimatedCost := estimatedCost.GetOr(t.estimatedCost),
       description := if description.Some? then description else t.description, updatedAt := now)
  }

  /** The hardware item with the fields `update_hardware` was given. */
  function EditedHardware(h: Hardware, name: Option<string>, hardwareTypeId: Option<int>, estimatedCost: Option<real>,
                          description: Option<string>, now: int): (u: Hardware)
    ensures u.id == h.id && u.isActive == h.isActive && u.updatedAt == now
    ensures u.name == (if name.Some? then name.value else h.name)
    ensures u.hardwareTypeId == (if hardwareTypeId.Some? then hardwareTypeId.value else h.hardwareTypeId)
    ensures u.description == (if description.Some? then description else h.description)
    ensures estimatedCost.None? ==> u.estimatedCost == h.estimatedCost
    ensures u.estimatedCost != h.estimatedCost <==> estimatedCost.Some? && Some(estimatedCost.value) != h.estimatedCost
  {
    h.(name := name.GetOr(h.name), hardwareTypeId := hardwareTypeId.GetOr(h.hardwareTypeId),
       estimatedCost := if estimatedCost.Some? then Some(estimatedCost.value) else h.estimatedCost,
       description := if description.Some? then description else h.description, updatedAt := now)
  }

  /** The history after writing back an item whose cost is now `cost`:
      unchanged when the cost is the same, otherwise the open row closed
      and a new one recorded. */
  function Rewritten<C(==)>(rows: seq<Row<C>>, id: int, before: C, cost: C, now: int, userId: Option<int>): seq<Row<C>> {
    if cost != before then Recorded(Closed(rows, id, now), id, cost, now, userId) else rows
  }

  class EquipmentCatalog {
    var hardwareTypes: seq<HardwareType>
    var hardware: seq<Hardware>
    var software: seq<Software>
    var typeHistory: seq<Row<real>>
    var hardwareHistory: seq<Row<Option<real>>>
    var softwareHistory: seq<Row<SoftwareCost>>

    /** Ids follow the autoincrement; no two types and no two products
        share a name; every item has at most one open cost row, and an
        open row states the item's current cost. */
    ghost predicate Valid()
      reads this
    {
      && TypeIdsAreIndices(hardwareTypes) && HardwareIdsAreIndices(hardware) && SoftwareIdsAreIndices(software)
      && NamesDistinct(TypeNames(hardwareTypes)) && NamesDistinct(SoftwareNames(software))
      && AtMostOneOpen(typeHistory) && Tracks(typeHistory, TypeCosts(hardwareTypes))
      && AtMostOneOpen(hardwareHistory) && Tracks(hardwareHistory, HardwareCosts(hardware))
      && AtMostOneOpen(softwareHistory) && Tracks(softwareHistory, SoftwareCosts(software))
    }

    constructor ()
      ensures Valid()
      ensures hardwareTypes == [] && hardware == [] && software == []
      ensures typeHistory == [] && hardwareHistory == [] && softwareHistory == []
    {
      hardwareTypes, hardware, software := [], [], [];
      typeHistory, hardwareHistory, softwareHistory := [], [], [];
    }

    // ------------------------------------------------------ hardware types

    /** `create_hardware_type`: a new active type and its first cost row,
        unless the name is taken, which fails the flush. */
    method CreateHardwareType(typeName: string, estimatedCost: real, description: Option<string>, userId: Option<int>, now: int)
      returns (r: Result<HardwareType, EquipmentError>)
      requires Valid()
      modifies this
      ensures Valid()
      ensures NameTaken(TypeNames(old(hardwareTypes)), typeName, -1) ==>
        r == Failure(DuplicateName(typeName)) && unchanged(this)
      ensures !NameTaken(TypeNames(old(hardwareTypes)), typeName, -1) ==>
        var t := HardwareType(|old(hardwareTypes)| + 1, typeName, description, estimatedCost, None, true, now);
        && r == Success(t)
        && hardwareTypes == old(hardwareTypes) + [t]
        && typeHistory == old(typeHistory) + [Row(t.id, estimatedCost, now, None, userId)]
        && CurrentCost(typeHistory, t.id) == Some(estimatedCost)
      ensures hardware == old(hardware) && software == old(software)
      ensures hardwareHistory == old(hardwareHistory) && softwareHistory == old(softwareHistory)
    {
      if NameTaken(TypeNames(hardwareTypes), typeName, -1) {
        return Failure(DuplicateName(typeName));
      }
      var t := HardwareType(|hardwareTypes| + 1, typeName, description, estimatedCost, None, true, now);
      Opened(typeHistory, TypeCosts(hardwareTypes), estimatedCost, now, userId);
      assert TypeCosts(hardwareTypes + [t]) == TypeCosts(hardwareTypes) + [estimatedCost];
      NameAppended(TypeNames(hardwareTypes), typeName);
      assert TypeNames(hardwareTypes + [t]) == TypeNames(hardwareTypes) + [typeName];
      hardwareTypes := hardwareTypes + [t];
      RecordTypeHistory(t.id, estimatedCost, userId, now);
      r := Success(t);
    }

    /** `update_hardware_type`: each field given (not None) replaces the
        old one; a cost that is given and differs from the current one
        closes the open history row and records a new one. A new name
        another type has fails the commit, and nothing changes. */
    method UpdateHardwareType(id: int, typeName: Option<string>, estimatedCost: Option<real>,
                              description: Option<string>, userId: Option<int>, now: int)
      returns (r: Result<HardwareType, EquipmentError>)
      requires Valid()
      modifies this
      ensures Valid()
      ensures !(1 <= id <= |old(hardwareTypes)|) ==> r == Failure(HardwareTypeNotFound(id)) && unchanged(this)
      ensures 1 <= id <= |old(hardwareTypes)| && typeName.Some? && NameTaken(TypeNames(old(hardwareTypes)), typeName.value, id - 1) ==>
        r == Failure(DuplicateName(typeName.value)) && unchanged(this)
      ensures 1 <= id <= |old(hardwareTypes)| && !(typeName.Some? && NameTaken(TypeNames(old(hardwareTypes)), typeName.value, id - 1)) ==>
        var t := old(hardwareTypes)[id - 1];
        var u := EditedType(t, typeName, estimatedCost, description, now);
        && r == Success(u)
        && hardwareTypes == old(hardwareTypes)[id - 1 := u]
        && typeHistory == (if CostChanged(t.estimatedCost, estimatedCost)
                           then Recorded(Closed(old(typeHistory), id, now), id, u.estimatedCost, now, userId)
                           else old(typeHistory))
        && CurrentCost(typeHistory, id) == (if CostChanged(t.estimatedCost, estimatedCost) then Some(u.estimatedCost)
                                            else CurrentCost(old(typeHistory), id))
      ensures hardware == old(hardware) && software == old(software)
      ensures hardwareHistory == old(hardwareHistory) && softwareHistory == old(softwareHistory)
    {
      if !(1 <= id <= |hardwareTypes|) {
        return Failure(HardwareTypeNotFound(id));
      }
      var t := hardwareTypes[id - 1];
      var u := t;
      if typeName.Some? {
        if NameTaken(TypeNames(hardwareTypes), typeName.value, id - 1) {
          return Failure(DuplicateName(typeName.value));
        }
        u := u.(name := typeName.value);
      } else {
        OwnNameFree(TypeNames(hardwareTypes), id - 1);
      }
      if estimatedCost.Some? {
        u := u.(estimatedCost := estimatedCost.value);
      }
      if description.Some? {
        u := u.(description := description);
      }
      u := u.(updatedAt := now);
      StoreType(id, u, userId, now);
      r := Success(u);
    }

    /** `deactivate_hardware_type`: only `is_active` (and the update
        stamp) change; the history is untouched. */
    method DeactivateHardwareType(id: int, now: int) returns (r: Result<HardwareType, EquipmentError>)
      requires Valid()
      modifies this
      ensures Valid()
      ensures !(1 <= id <= |old(hardwareTypes)|) ==> r == Failure(HardwareTypeNotFound(id)) && unchanged(this)
      ensures 1 <= id <= |old(hardwareTypes)| ==>
        var u := old(hardwareTypes)[id - 1].(isActive := false, updatedAt := now);
        r == Success(u) && hardwareTypes == old(hardwareTypes)[id - 1 := u]
      ensures typeHistory == old(typeHistory) && hardwareHistory == old(hardwareHistory) && softwareHistory == old(softwareHistory)
      ensures hardware == old(hardware) && software == old(software)
    {
      if !(1 <= id <= |hardwareTypes|) {
        return Failure(HardwareTypeNotFound(id));
      }
      var u := hardwareTypes[id - 1].(isActive := false, updatedAt := now);
      OwnNameFree(TypeNames(hardwareTypes), id - 1);
      StoreType(id, u, None, now);
      r := Success(u);
    }

    /** Writes back an edited type; a different cost closes the open row
        and records a new one (the `if cost_changed:` tail of the update). */
    method StoreType(id: int, u: HardwareType, userId: Option<int>, now: int)
      requires Valid() && 1 <= id <= |hardwareTypes| && u.id == id
      requires !NameTaken(TypeNames(hardwareTypes), u.name, id - 1)
      modifies this
      ensures Valid()
      ensures hardwareTypes == old(hardwareTypes)[id - 1 := u]
      ensures typeHistory == Rewritten(old(typeHistory), id, old(hardwareTypes)[id - 1].estimatedCost, u.estimatedCost, now, userId)
      ensures CurrentCost(typeHistory, id) == if u.estimatedCost != old(hardwareTypes)[id - 1].estimatedCost
                                             then Some(u.estimatedCost) else CurrentCost(old(typeHistory), id)
      ensures hardware == old(hardware) && software == old(software)
      ensures hardwareHistory == old(hardwareHistory) && softwareHistory == old(softwareHistory)
    {
      var changed := u.estimatedCost != hardwareTypes[id - 1].estimatedCost;
      TypeStored(hardwareTypes, typeHistory, id, u, now, userId);
      hardwareTypes := hardwareTypes[id - 1 := u];
      if changed {
        CloseTypeHistory(id, now);
        RecordTypeHistory(id, u.estimatedCost, userId, now);
      }
    }

    /** `_record_hardware_type_cost_history` */
    method RecordTypeHistory(id: int, cost: real, userId: Option<int>, now: int)
      modifies this
      ensures typeHistory == Recorded(old(typeHistory), id, cost, now, userId)
      ensures hardwareTypes == old(hardwareTypes) && hardware == old(hardware) && software == old(software)
      ensures hardwareHistory == old(hardwareHistory) && softwareHistory == old(softwareHistory)
    {
      typeHistory := typeHistory + [Row(id, cost, now, None, userId)];
    }

    /** `_close_hardware_type_cost_history` */
    method CloseTypeHistory(id: int, now: int)
      modifies this
      ensures typeHistory == Closed(old(typeHistory), id, now)
      ensures hardwareTypes == old(hardwareTypes) && hardware == old(hardware) && software == old(software)
      ensures hardwareHistory == old(hardwareHistory) && softwareHistory == old(softwareHistory)
    {
      var current := OpenIndex(typeHistory, id);
      if current.Some? {
        typeHistory := typeHistory[current.value := typeHistory[current.value].(endDate := Some(now))];
      }
    }

    // ------------------------------------------------------ hardware items

    /** `create_hardware`: a new active item and its first cost row. */
    method CreateHardware(name: string, hardwareTypeId: int, estimatedCost: real, description: Option<string>,
                          userId: Option<int>, now: int)
      returns (h: Hardware)
      requires Valid()
      modifies this
      ensures Valid()
      ensures h == Hardware(|old(hardware)| + 1, name, hardwareTypeId, description, Some(estimatedCost), true, now)
      ensures hardware == old(hardware) + [h]
      ensures hardwareHistory == old(hardwareHistory) + [Row(h.id, Some(estimatedCost), now, None, userId)]
      ensures CurrentCost(hardwareHistory, h.id) == Some(Some(estimatedCost))
      ensures hardwareTypes == old(hardwareTypes) && software == old(software)
      ensures typeHistory == old(typeHistory) && softwareHistory == old(softwareHistory)
    {
      h := Hardware(|hardware| + 1, name, hardwareTypeId, description, Some(estimatedCost), true, now);
      Opened(hardwareHistory, HardwareCosts(hardware), Some(estimatedCost), now, userId);
      assert HardwareCosts(hardware + [h]) == HardwareCosts(hardware) + [Some(estimatedCost)];
      hardware := hardware + [h];
      RecordHardwareHistory(h.id, Some(estimatedCost), userId, now);
    }

    /** `update_hardware`: as for types, with the parent type as one more
        optional field; the cost counts as changed only when it is given
        and differs from the current one. */
    method UpdateHardware(id: int, name: Option<string>, hardwareTypeId: Option<int>, estimatedCost: Option<real>,
                          description: Option<string>, userId: Option<int>, now: int)
      returns (r: Result<Hardware, EquipmentError>)
      requires Valid()
      modifies this
      ensures Valid()
      ensures !(1 <= id <= |old(hardware)|) ==> r == Failure(HardwareNotFound(id)) && unchanged(this)
      ensures 1 <= id <= |old(hardware)| ==>
        var h := old(hardware)[id - 1];
        var changed := estimatedCost.Some? && Some(estimatedCost.value) != h.estimatedCost;
        var u := EditedHardware(h, name, hardwareTypeId, estimatedCost, description, now);
        && r == Success(u)
        && hardware == old(hardware)[id - 1 := u]
        && hardwareHistory == (if changed then Recorded(Closed(old(hardwareHistory), id, now), id, u.estimatedCost, now, userId)
                               else old(hardwareHistory))
        && CurrentCost(hardwareHistory, id) == (if changed then Some(u.estimatedCost) else CurrentCost(old(hardwareHistory), id))
      ensures hardwareTypes == old(hardwareTypes) && software == old(software)
      ensures typeHistory == old(typeHistory) && softwareHistory == old(softwareHistory)
    {
      if !(1 <= id <= |hardware|) {
        return Failure(HardwareNotFound(id));
      }
      var u := hardware[id - 1];
      if name.Some? {
        u := u.(name := name.value);
      }
      if hardwareTypeId.Some? {
        u := u.(hardwareTypeId := hardwareTypeId.value);
      }
      if estimatedCost.Some? {
        u := u.(estimatedCost := Some(estimatedCost.value));
      }
      if description.Some? {
        u := u.(description := description);
      }
      u := u.(updatedAt := now);
      StoreHardware(id, u, userId, now);
      r := Success(u);
    }

    /** `deactivate_hardware` */
    method DeactivateHardware(id: int, now: int) returns (r: Result<Hardware, EquipmentError>)
      requires Valid()
      modifies this
      ensures Valid()
      ensures !(1 <= id <= |old(hardware)|) ==> r == Failure(HardwareNotFound(id)) && unchanged(this)
      ensures 1 <= id <= |old(hardware)| ==>
        var u := old(hardware)[id - 1].(isActive := false, updatedAt := now);
        r == Success(u) && hardware == old(hardware)[id - 1 := u]
      ensures typeHistory == old(typeHistory) && hardwareHistory == old(hardwareHistory) && softwareHistory == old(softwareHistory)
      ensures hardwareTypes == old(hardwareTypes) && software == old(software)
    {
      if !(1 <= id <= |hardware|) {
        return Failure(HardwareNotFound(id));
      }
      var u := hardware[id - 1].(isActive := false, updatedAt := now);
      StoreHardware(id, u, None, now);
      r := Success(u);
    }

    /** Writes back an edited hardware item, with the history tail of
        `update_hardware`. */
    method StoreHardware(id: int, u: Hardware, userId: Option<int>, now: int)
      requires Valid() && 1 <= id <= |hardware| && u.id == id
      modifies this
      ensures Valid()
      ensures hardware == old(hardware)[id - 1 := u]
      ensures hardwareHistory == Rewritten(old(hardwareHistory), id, old(hardware)[id - 1].estimatedCost, u.estimatedCost, now, userId)
      ensures CurrentCost(hardwareHistory, id) == if u.estimatedCost != old(hardware)[id - 1].estimatedCost
                                                 then Some(u.estimatedCost) else CurrentCost(old(hardwareHistory), id)
      ensures hardwareTypes == old(hardwareTypes) && software == old(software)
      ensures typeHistory == old(typeHistory) && softwareHistory == old(softwareHistory)
    {
      var changed := u.estimatedCost != hardware[id - 1].estimatedCost;
      HistoryStored(hardwareHistory, HardwareCosts(hardware), id, u.estimatedCost, now, userId);
      assert HardwareCosts(hardware[id - 1 := u]) == HardwareCosts(hardware)[id - 1 := u.estimatedCost];
      hardware := hardware[id - 1 := u];
      if changed {
        CloseHardwareHistory(id, now);
        RecordHardwareHistory(id, u.estimatedCost, userId, now);
      }
    }

    /** `_record_hardware_cost_history` */
    method RecordHardwareHistory(id: int, cost: Option<real>, userId: Option<int>, now: int)
      modifies this
      ensures hardwareHistory == Recorded(old(hardwareHistory), id, cost, now, userId)
      ensures hardwareTypes == old(hardwareTypes) && hardware == old(hardware) && software == old(software)
      ensures typeHistory == old(typeHistory) && softwareHistory == old(softwareHistory)
    {
      hardwareHistory := hardwareHistory + [Row(id, cost, now, None, userId)];
    }

    /** `_close_hardware_cost_history` */
    method CloseHardwareHistory(id: int, now: int)
      modifies this
      ensures hardwareHistory == Closed(old(hardwareHistory), id, now)
      ensures hardwareTypes == old(hardwareTypes) && hardware == old(hardware) && software == old(software)
      ensures typeHistory == old(typeHistory) && softwareHistory == old(softwareHistory)
    {
      var current := OpenIndex(hardwareHistory, id);
      if current.Some? {
        hardwareHistory := hardwareHistory[current.value := hardwareHistory[current.value].(endDate := Some(now))];
      }
    }

    // ---------------------------------------------------- software products

    /** `create_software`: a new active product and its first cost row,
        unless the name is taken, which fails the flush. */
    method CreateSoftware(name: string, softwareTypeId: int, licenseModel: LicenseModel,
                          costPerLicense: Option<real>, totalCost: Option<real>, licenseTier: Option<string>,
                          softwareFamilyId: Option<int>, description: Option<string>, userId: Option<int>, now: int)
      returns (r: Result<Software, EquipmentError>)
      requires Valid()
      modifies this
      ensures Valid()
      ensures NameTaken(SoftwareNames(old(software)), name, -1) ==> r == Failure(DuplicateName(name)) && unchanged(this)
      ensures !NameTaken(SoftwareNames(old(software)), name, -1) ==>
        var sw := Software(|old(software)| + 1, name, softwareTypeId, softwareFamilyId, description, licenseModel,
                           licenseTier, costPerLicense, totalCost, true, now);
        && r == Success(sw)
        && software == old(software) + [sw]
        && softwareHistory == old(softwareHistory) + [Row(sw.id, SoftwareCost(costPerLicense, totalCost), now, None, userId)]
        && CurrentCost(softwareHistory, sw.id) == Some(SoftwareCost(costPerLicense, totalCost))
      ensures hardwareTypes == old(hardwareTypes) && hardware == old(hardware)
      ensures typeHistory == old(typeHistory) && hardwareHistory == old(hardwareHistory)
    {
      if NameTaken(SoftwareNames(software), name, -1) {
        return Failure(DuplicateName(name));
      }
      var sw := Software(|software| + 1, name, softwareTypeId, softwareFamilyId, description, licenseModel,
                         licenseTier, costPerLicense, totalCost, true, now);
      SoftwareCreated(software, softwareHistory, sw, now, userId);
      NameAppended(SoftwareNames(software), name);
      assert SoftwareNames(software + [sw]) == SoftwareNames(software) + [name];
      software := software + [sw];
      RecordSoftwareHistory(sw.id, SoftwareCostOf(sw), userId, now);
      r := Success(sw);
    }

    /** `update_software(software_id, **kwargs)`: the keyword arguments
        are applied in order; a cost keyword whose value differs from the
        current one closes the open history row and records the new
        costs. A resulting name another product has fails the commit, and
        nothing changes. */
    method UpdateSoftware(id: int, kwargs: seq<SoftwareField>, userId: Option<int>, now: int)
      returns (r: Result<Software, EquipmentError>)
      requires Valid() && WellFormedKwargs(kwargs)
      modifies this
      ensures Valid()
      ensures !(1 <= id <= |old(software)|) ==> r == Failure(SoftwareNotFound(id)) && unchanged(this)
      ensures 1 <= id <= |old(software)| && NameTaken(SoftwareNames(old(software)), Applied(old(software)[id - 1], kwargs).name, id - 1) ==>
        r == Failure(DuplicateName(Applied(old(software)[id - 1], kwargs).name)) && unchanged(this)
      ensures 1 <= id <= |old(software)| && !NameTaken(SoftwareNames(old(software)), Applied(old(software)[id - 1], kwargs).name, id - 1) ==>
        var sw := old(software)[id - 1];
        var u := Applied(sw, kwargs).(updatedAt := now);
        && r == Success(u)
        && software == old(software)[id - 1 := u]
        && softwareHistory == (if SoftwareCostChanged(sw, kwargs)
                               then Recorded(Closed(old(softwareHistory), id, now), id, SoftwareCostOf(u), now, userId)
                               else old(softwareHistory))
        && CurrentCost(softwareHistory, id) == (if SoftwareCostChanged(sw, kwargs) then Some(SoftwareCostOf(u))
                                                else CurrentCost(old(softwareHistory), id))
      ensures hardwareTypes == old(hardwareTypes) && hardware == old(hardware)
      ensures typeHistory == old(typeHistory) && hardwareHistory == old(hardwareHistory)
    {
      if !(1 <= id <= |software|) {
        return Failure(SoftwareNotFound(id));
      }
      var sw := software[id - 1];
      var u := ApplyKeywords(sw, kwargs);
      if NameTaken(SoftwareNames(software), u.name, id - 1) {
        return Failure(DuplicateName(u.name));
      }
      u := u.(updatedAt := now);
      AppliedFields(sw, kwargs, "name");
      SoftwareCostChangeDetected(sw, kwargs);
      StoreSoftware(id, u, userId, now);
      r := Success(u);
    }

    /** `deactivate_software` */
    method DeactivateSoftware(id: int, now: int) returns (r: Result<Software, EquipmentError>)
      requires Valid()
      modifies this
      ensures Valid()
      ensures !(1 <= id <= |old(software)|) ==> r == Failure(SoftwareNotFound(id)) && unchanged(this)
      ensures 1 <= id <= |old(software)| ==>
        var u := old(software)[id - 1].(isActive := false, updatedAt := now);
        r == Success(u) && software == old(software)[id - 1 := u]
      ensures typeHistory == old(typeHistory) && hardwareHistory == old(hardwareHistory) && softwareHistory == old(softwareHistory)
      ensures hardwareTypes == old(hardwareTypes) && hardware == old(hardware)
    {
      if !(1 <= id <= |software|) {
        return Failure(SoftwareNotFound(id));
      }
      var u := software[id - 1].(isActive := false, updatedAt := now);
      OwnNameFree(SoftwareNames(software), id - 1);
      StoreSoftware(id, u, None, now);
      r := Success(u);
    }

    /** Writes back an edited software product, with the history tail of
        `update_software`. */
    method StoreSoftware(id: int, u: Software, userId: Option<int>, now: int)
      requires Valid() && 1 <= id <= |software| && u.id == id
      requires !NameTaken(SoftwareNames(software), u.name, id - 1)
      modifies this
      ensures Valid()
      ensures software == old(software)[id - 1 := u]
      ensures softwareHistory == Rewritten(old(softwareHistory), id, SoftwareCostOf(old(software)[id - 1]), SoftwareCostOf(u), now, userId)
      ensures CurrentCost(softwareHistory, id) == if SoftwareCostOf(u) != SoftwareCostOf(old(software)[id - 1])
                                                 then Some(SoftwareCostOf(u)) else CurrentCost(old(softwareHistory), id)
      ensures hardwareTypes == old(hardwareTypes) && hardware == old(hardware)
      ensures typeHistory == old(typeHistory) && hardwareHistory == old(hardwareHistory)
    {
      var cost := SoftwareCostOf(u);
      var changed := cost != SoftwareCostOf(software[id - 1]);
      SoftwareStored(software, softwareHistory, id, u, now, userId);
      software := software[id - 1 := u];
      if changed {
        CloseSoftwareHistory(id, now);
        RecordSoftwareHistory(id, cost, userId, now);
      }
    }

    /** `_record_software_cost_history` */
    method RecordSoftwareHistory(id: int, cost: SoftwareCost, userId: Option<int>, now: int)
      modifies this
      ensures softwareHistory == Recorded(old(softwareHistory), id, cost, now, userId)
      ensures hardwareTypes == old(hardwareTypes) && hardware == old(hardware) && software == old(software)
      ensures typeHistory == old(typeHistory) && hardwareHistory == old(hardwareHistory)
    {
      softwareHistory := softwareHistory + [Row(id, cost, now, None, userId)];
    }

    /** `_close_software_cost_history` */
    method CloseSoftwareHistory(id: int, now: int)
      modifies this
      ensures softwareHistory == Closed(old(softwareHistory), id, now)
      ensures hardwareTypes == old(hardwareTypes) && hardware == old(hardware) && software == old(software)
      ensures typeHistory == old(typeHistory) && hardwareHistory == old(hardwareHistory)
    {
      var current := OpenIndex(softwareHistory, id);
      if current.Some? {
        softwareHistory := softwareHistory[current.value := softwareHistory[current.value].(endDate := Some(now))];
      }
    }
  }
}

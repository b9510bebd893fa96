/** The requirement service of `app/services/requirement_service.py`: the
    position-hardware and position-software rows (what each position needs
    per person), their event history, the guided-selection bulk
    replacement with its `max_selections` check, copying between
    positions, the workflow status, and the usage aggregates. */
module RequirementService {
  import opened Wrappers
  import opened Seqs
  import opened OrgModel
  import opened EquipmentModel

  /** Which junction table a requirement lives in. */
  datatype ItemKind = HardwareItem | SoftwareItem

  /** `action_type` of a requirement history row. */
  datatype Action = Added | Modified | Removed

  /** One `budget.requirement_history` row. */
  datatype HistoryEntry = HistoryEntry(
    positionId: int, itemKind: ItemKind, itemId: int, action: Action, quantity: int, changedBy: Option<int>)

  /** One submitted selection (`{"hardware_id"/"software_id", "quantity",
      "notes"}`). */
  datatype Item = Item(itemId: int, quantity: int, notes: Option<string>)

  /** The ValueErrors of the service. */
  datatype RequirementError =
    | RequirementNotFound(kind: ItemKind, requirementId: int)
    | HardwareItemNotFound(hardwareId: int)
    | MaxSelectionsExceeded(hardwareTypeId: int, maxSelections: int, total: int)
    | NothingToCopy
    | InvalidStatus(status: Option<string>)
    | PositionNotFound(positionId: int)
    | ConstraintViolation

  /** The other junction table. */
  function Other(kind: ItemKind): ItemKind {
    if kind == HardwareItem then SoftwareItem else HardwareItem
  }

  function Quantity(item: Item): int {
    item.quantity
  }

  // ------------------------------------------------------ max selections

  /** The parent type of a selected hardware item; None when the item does
      not exist. */
  function TypeOfItem(hardware: seq<Hardware>, hardwareId: int): Option<int> {
    match FindHardware(hardware, hardwareId)
    case Some(h) => Some(h.hardwareTypeId)
    case None => None
  }

  /** The first selected hardware id that does not exist. */
  function FirstMissing(hardware: seq<Hardware>, items: seq<Item>): (r: Option<int>)
    ensures r.None? <==> forall i :: 0 <= i < |items| ==> TypeOfItem(hardware, items[i].itemId).Some?
    ensures r.Some? ==> exists i :: 0 <= i < |items| && items[i].itemId == r.value && TypeOfItem(hardware, r.value).None?
  {
    if items == [] then None
    else
      match FirstMissing(hardware, items[..|items| - 1])
      case Some(id) => Some(id)
      case None =>
        var last := items[|items| - 1];
        if TypeOfItem(hardware, last.itemId).None? then Some(last.itemId) else None
  }

  /** The keys of `items_by_type`, in the order the dict was filled (first
      appearance of each type among the selections). */
  function Groups(hardware: seq<Hardware>, items: seq<Item>): seq<int> {
    if items == [] then []
    else
      var g := Groups(hardware, items[..|items| - 1]);
      match TypeOfItem(hardware, items[|items| - 1].itemId)
      case Some(t) => if t in g then g else g + [t]
      case None => g
  }

  /** No element occurs twice. */
  predicate Distinct(xs: seq<int>) {
    forall j, k :: 0 <= j < k < |xs| ==> xs[j] != xs[k]
  }

  /** The groups are the types of the selected hardware, each once. */
  lemma {:induction false} GroupsMembers(hardware: seq<Hardware>, items: seq<Item>)
    ensures forall t :: t in Groups(hardware, items) <==> exists i :: 0 <= i < |items| && TypeOfItem(hardware, items[i].itemId) == Some(t)
    ensures Distinct(Groups(hardware, items))
  {
    if items != [] {
      var init := items[..|items| - 1];
      GroupsMembers(hardware, init);
      assert forall i :: 0 <= i < |init| ==> init[i] == items[i];
      var g := Groups(hardware, init);
      var ty := TypeOfItem(hardware, items[|items| - 1].itemId);
      var r := Groups(hardware, items);
      if ty.Some? && ty.value !in g {
        assert r == g + [ty.value];
        forall j, k | 0 <= j < k < |r|
          ensures r[j] != r[k]
        {
          assert r[j] == g[j] && g[j] in g;
          if k < |g| {
            assert r[k] == g[k];
          }
        }
      } else {
        assert r == g;
      }
    }
  }

  /** `items_by_type[t]`: the selections whose hardware has type `t`. */
  function GroupItems(hardware: seq<Hardware>, items: seq<Item>, t: int): seq<Item> {
    if items == [] then []
    else
      GroupItems(hardware, items[..|items| - 1], t)
      + (if TypeOfItem(hardware, items[|items| - 1].itemId) == Some(t) then [items[|items| - 1]] else [])
  }

  /** The total quantity selected within type `t`. */
  function GroupTotal(hardware: seq<Hardware>, items: seq<Item>, t: int): int {
    SumInt(GroupItems(hardware, items, t), Quantity)
  }

  /** A type's limit when it restricts anything: the type exists and its
      `max_selections` is neither None nor 0. */
  function Limit(types: seq<HardwareType>, t: int): (r: Option<int>)
    ensures r.Some? ==> r.value > 0
  {
    match FindHardwareType(types, t)
    case Some(ht) => if ht.maxSelections.Some? && ht.maxSelections.value > 0 then ht.maxSelections else None
    case None => None
  }

  predicate OverLimit(hardware: seq<Hardware>, types: seq<HardwareType>, items: seq<Item>, t: int) {
    Limit(types, t).Some? && GroupTotal(hardware, items, t) > Limit(types, t).value
  }

  /** The first group, in dict order, whose total exceeds its limit. */
  function FirstOverLimit(hardware: seq<Hardware>, types: seq<HardwareType>, items: seq<Item>, gs: seq<int>): (r: Option<int>)
    ensures r.Some? ==> exists k :: 0 <= k < |gs| && gs[k] == r.value && OverLimit(hardware, types, items, gs[k])
                                    && forall j :: 0 <= j < k ==> !OverLimit(hardware, types, items, gs[j])
    ensures r.None? <==> forall k :: 0 <= k < |gs| ==> !OverLimit(hardware, types, items, gs[k])
  {
    if gs == [] then None
    else if OverLimit(hardware, types, items, gs[0]) then Some(gs[0])
    else
      var r := FirstOverLimit(hardware, types, items, gs[1..]);
      assert forall k :: 1 <= k < |gs| ==> gs[k] == gs[1..][k - 1];
      r
  }

  /** The first group over its limit is the one a scan in order meets
      first. */
  lemma {:induction false} FirstOverLimitAt(hardware: seq<Hardware>, types: seq<HardwareType>, items: seq<Item>, gs: seq<int>, k: nat)
    requires k < |gs| && OverLimit(hardware, types, items, gs[k])
    requires forall j :: 0 <= j < k ==> !OverLimit(hardware, types, items, gs[j])
    ensures FirstOverLimit(hardware, types, items, gs) == Some(gs[k])
  {
    if k > 0 {
      assert forall j :: 0 <= j < k - 1 ==> gs[1..][j] == gs[j + 1];
      FirstOverLimitAt(hardware, types, items, gs[1..], k - 1);
    }
  }

  /** The evidently intended `_validate_max_selections`: nothing to check
      for an empty list; an unknown hardware id is an error; otherwise the
      first type group whose total quantity exceeds its limit is
      reported. */
  function MaxSelectionsCheck(hardware: seq<Hardware>, types: seq<HardwareType>, items: seq<Item>): Result<(), RequirementError> {
    if items == [] then Success(())
    else
      match FirstMissing(hardware, items)
      case Some(id) => Failure(HardwareItemNotFound(id))
      case None =>
        match FirstOverLimit(hardware, types, items, Groups(hardware, items))
        case Some(t) => Failure(MaxSelectionsExceeded(t, Limit(types, t).value, GroupTotal(hardware, items, t)))
        case None => Success(())
  }

  /** `_validate_max_selections` as written: once some group has a limit,
      the nested loop over `items_by_type` rebinds the type id and its
      items to each group in turn, so only the LAST group is compared with
      its limit. */
  function MaxSelectionsCheckAsWritten(hardware: seq<Hardware>, types: seq<HardwareType>, items: seq<Item>): Result<(), RequirementError> {
    if items == [] then Success(())
    else
      match FirstMissing(hardware, items)
      case Some(id) => Failure(HardwareItemNotFound(id))
      case None =>
        GroupsMembers(hardware, items);
        assert TypeOfItem(hardware, items[0].itemId).Some?;
        LastGroupVerdict(hardware, types, items, Groups(hardware, items))
  }

  /** The comparison the code as written makes once some group `gs` has a
      limit: the last group against the last group's limit. */
  function LastGroupVerdict(hardware: seq<Hardware>, types: seq<HardwareType>, items: seq<Item>, gs: seq<int>): Result<(), RequirementError>
    requires gs != []
  {
    var last := gs[|gs| - 1];
    if (exists t :: t in gs && Limit(types, t).Some?) && OverLimit(hardware, types, items, last)
    then Failure(MaxSelectionsExceeded(last, Limit(types, last).value, GroupTotal(hardware, items, last)))
    else Success(())
  }

  /** The intended check rejects exactly the selections in which some type
      with a limit (not None, not 0) is exceeded, and the empty list never. */
  lemma MaxSelectionsCheckRejectsOverLimit(hardware: seq<Hardware>, types: seq<HardwareType>, items: seq<Item>)
    requires FirstMissing(hardware, items).None?
    ensures MaxSelectionsCheck(hardware, types, items).Failure?
        <==> exists i :: 0 <= i < |items| && OverLimit(hardware, types, items, TypeOfItem(hardware, items[i].itemId).value)
    ensures MaxSelectionsCheck(hardware, types, items).Failure? ==> MaxSelectionsCheck(hardware, types, items).error.MaxSelectionsExceeded?
  {
    var gs := Groups(hardware, items);
    GroupsMembers(hardware, items);
    if exists i :: 0 <= i < |items| && OverLimit(hardware, types, items, TypeOfItem(hardware, items[i].itemId).value) {
      var i :| 0 <= i < |items| && OverLimit(hardware, types, items, TypeOfItem(hardware, items[i].itemId).value);
      var t := TypeOfItem(hardware, items[i].itemId).value;
      assert t in gs;
      var k :| 0 <= k < |gs| && gs[k] == t;
    }
    if FirstOverLimit(hardware, types, items, gs).Some? {
      var t := FirstOverLimit(hardware, types, items, gs).value;
      var i :| 0 <= i < |items| && TypeOfItem(hardware, items[i].itemId) == Some(t);
    }
  }

  /** What the code as written still promises: it rejects only a
      selection in which some limited type is exceeded. */
  lemma MaxSelectionsAsWrittenRejectsOnlyOverLimit(hardware: seq<Hardware>, types: seq<HardwareType>, items: seq<Item>)
    requires FirstMissing(hardware, items).None?
    ensures MaxSelectionsCheckAsWritten(hardware, types, items).Failure?
        ==> exists t :: t in Groups(hardware, items) && OverLimit(hardware, types, items, t)
  {
  }

  /** The shadowed loop variable lets an exceeded limit through: two
      laptops where the laptop type allows one, followed by a mouse of an
      unlimited type, pass the check as written; the intended check
      rejects them. */
  lemma OnlyLastGroupChecked()
    ensures
      var hardware := [Hardware(1, "Laptop", 1, None, Some(1000.0), true, 0), Hardware(2, "Mouse", 2, None, Some(20.0), true, 0)];
      var types := [HardwareType(1, "Laptop", None, 1000.0, Some(1), true, 0), HardwareType(2, "Mouse", None, 20.0, None, true, 0)];
      var items := [Item(1, 2, None), Item(2, 1, None)];
      && MaxSelectionsCheckAsWritten(hardware, types, items) == Success(())
      && MaxSelectionsCheck(hardware, types, items) == Failure(MaxSelectionsExceeded(1, 1, 2))
  {
    var hardware := [Hardware(1, "Laptop", 1, None, Some(1000.0), true, 0), Hardware(2, "Mouse", 2, None, Some(20.0), true, 0)];
    var types := [HardwareType(1, "Laptop", None, 1000.0, Some(1), true, 0), HardwareType(2, "Mouse", None, 20.0, None, true, 0)];
    var items := [Item(1, 2, None), Item(2, 1, None)];
    assert items[..1] == [Item(1, 2, None)] && items[..1][..0] == [];
    assert TypeOfItem(hardware, 1) == Some(1);
    assert TypeOfItem(hardware, 2) == Some(2);
    assert Groups(hardware, items[..1]) == [1];
    assert Groups(hardware, items) == [1, 2];
    assert GroupItems(hardware, items, 1) == [Item(1, 2, None)];
    assert [Item(1, 2, None)][..0] == [];
    assert GroupTotal(hardware, items, 1) == 2;
    assert Limit(types, 2) == None;
    assert OverLimit(hardware, types, items, 1);
  }

  /** The first missing id of a prefix is the first missing id of the
      whole selection. */
  lemma {:induction false} FirstMissingExtends(hardware: seq<Hardware>, items: seq<Item>, n: nat)
    requires n <= |items| && FirstMissing(hardware, items[..n]).Some?
    ensures FirstMissing(hardware, items) == FirstMissing(hardware, items[..n])
    decreases |items| - n
  {
    if n == |items| {
      assert items[..n] == items;
    } else {
      var init := items[..|items| - 1];
      assert init[..n] == items[..n];
      FirstMissingExtends(hardware, init, n);
    }
  }

  /** The first item whose hardware is missing decides the whole
      selection's error. */
  lemma MissingAt(hardware: seq<Hardware>, items: seq<Item>, i: nat)
    requires i < |items| && FirstMissing(hardware, items[..i]).None?
    requires TypeOfItem(hardware, items[i].itemId).None?
    ensures FirstMissing(hardware, items) == Some(items[i].itemId)
  {
    assert items[..i + 1][..i] == items[..i];
    FirstMissingExtends(hardware, items, i + 1);
  }

  /** Groups of the selections grown by one more item. */
  lemma GroupStep(hardware: seq<Hardware>, items: seq<Item>, i: nat, t: int)
    requires i < |items|
    ensures GroupItems(hardware, items[..i + 1], t)
         == GroupItems(hardware, items[..i], t) + (if TypeOfItem(hardware, items[i].itemId) == Some(t) then [items[i]] else [])
  {
    assert items[..i + 1][..i] == items[..i];
  }

  /** `order` and `byType` hold the groups of the selections `prefix`. */
  ghost predicate Grouped(hardware: seq<Hardware>, prefix: seq<Item>, order: seq<int>, byType: map<int, seq<Item>>) {
    && order == Groups(hardware, prefix)
    && (forall t :: t in byType <==> t in order)
    && (forall t :: t in byType ==> byType[t] == GroupItems(hardware, prefix, t))
    && (forall t :: t !in byType ==> GroupItems(hardware, prefix, t) == [])
  }

  lemma GroupedIntro(hardware: seq<Hardware>, prefix: seq<Item>, order: seq<int>, byType: map<int, seq<Item>>)
    requires order == Groups(hardware, prefix)
    requires forall t :: t in byType <==> t in order
    requires forall t :: t in byType ==> byType[t] == GroupItems(hardware, prefix, t)
    requires forall t :: t !in byType ==> GroupItems(hardware, prefix, t) == []
    ensures Grouped(hardware, prefix, order, byType)
  {
  }

  /** The group order and the first missing id of one more selection. */
  lemma PrefixStep(hardware: seq<Hardware>, items: seq<Item>, i: nat)
    requires i < |items|
    ensures Groups(hardware, items[..i + 1])
         == var g := Groups(hardware, items[..i]);
            match TypeOfItem(hardware, items[i].itemId)
            case Some(t) => if t in g then g else g + [t]
            case None => g
    ensures FirstMissing(hardware, items[..i]).None? && TypeOfItem(hardware, items[i].itemId).Some?
        ==> FirstMissing(hardware, items[..i + 1]).None?
  {
    assert items[..i + 1][..i] == items[..i];
  }

  /** Adding the next selection to its group keeps `Grouped`. */
  lemma GroupedStep(hardware: seq<Hardware>, items: seq<Item>, i: nat, order: seq<int>, byType: map<int, seq<Item>>)
    requires i < |items| && Grouped(hardware, items[..i], order, byType)
    requires FirstMissing(hardware, items[..i]).None? && TypeOfItem(hardware, items[i].itemId).Some?
    ensures var t := TypeOfItem(hardware, items[i].itemId).value;
      && FirstMissing(hardware, items[..i + 1]).None?
      && if t in byType then Grouped(hardware, items[..i + 1], order, byType[t := byType[t] + [items[i]]])
         else Grouped(hardware, items[..i + 1], order + [t], byType[t := [items[i]]])
  {
    PrefixStep(hardware, items, i);
    var t := TypeOfItem(hardware, items[i].itemId).value;
    var o := if t in byType then order else order + [t];
    var m := if t in byType then byType[t := byType[t] + [items[i]]] else byType[t := [items[i]]];
    assert o == Groups(hardware, items[..i + 1]);
    forall u
      ensures u in m <==> u in o
    {
    }
    forall u
      ensures u in m ==> m[u] == GroupItems(hardware, items[..i + 1], u)
      ensures u !in m ==> GroupItems(hardware, items[..i + 1], u) == []
    {
      GroupStep(hardware, items, i, u);
    }
    GroupedIntro(hardware, items[..i + 1], o, m);
    if t in byType {
      assert m == byType[t := byType[t] + [items[i]]];
    } else {
      assert o == order + [t];
    }
  }

  /** `items_by_type` filled by the first loop of `_validate_max_selections`:
      the groups in dict order, each with its selections; None when a
      selected hardware id does not exist (the first such id is
      reported). */
  method GroupByType(hardware: seq<Hardware>, items: seq<Item>) returns (r: Result<(seq<int>, map<int, seq<Item>>), RequirementError>)
    ensures FirstMissing(hardware, items).Some? ==> r == Failure(HardwareItemNotFound(FirstMissing(hardware, items).value))
    ensures FirstMissing(hardware, items).None? ==>
      && r.Success? && r.value.0 == Groups(hardware, items)
      && (forall t :: t in r.value.1 <==> t in r.value.0)
      && forall t :: t in r.value.1 ==> r.value.1[t] == GroupItems(hardware, items, t)
  {
    var order: seq<int> := [];
    var byType: map<int, seq<Item>> := map[];
    for i := 0 to |items|
      invariant FirstMissing(hardware, items[..i]).None?
      invariant Grouped(hardware, items[..i], order, byType)
    {
      var ty := TypeOfItem(hardware, items[i].itemId);
      if ty.None? {
        MissingAt(hardware, items, i);
        return Failure(HardwareItemNotFound(items[i].itemId));
      }
      GroupedStep(hardware, items, i, order, byType);
      var t := ty.value;
      if t in byType {
        byType := byType[t := byType[t] + [items[i]]];
      } else {
        order := order + [t];
        byType := byType[t := [items[i]]];
      }
    }
    assert items[..|items|] == items;
    r := Success((order, byType));
  }

  /** `_validate_max_selections` with every group compared with its own
      limit (the corrected check the bulk replacement uses). */
  method ValidateMaxSelections(hardware: seq<Hardware>, types: seq<HardwareType>, items: seq<Item>)
    returns (r: Result<(), RequirementError>)
    ensures r == MaxSelectionsCheck(hardware, types, items)
  {
    if items == [] {
      return Success(());
    }
    var grouped := GroupByType(hardware, items);
    if grouped.Failure? {
      return Failure(grouped.error);
    }
    var (order, byType) := grouped.value;
    r := CheckGroups(hardware, types, items, order, byType);
  }

  /** The second loop of the corrected `_validate_max_selections`: each
      group, in dict order, against its own limit. */
  method CheckGroups(hardware: seq<Hardware>, types: seq<HardwareType>, items: seq<Item>, order: seq<int>, byType: map<int, seq<Item>>)
    returns (r: Result<(), RequirementError>)
    requires forall t :: t in order ==> t in byType && byType[t] == GroupItems(hardware, items, t)
    ensures r == match FirstOverLimit(hardware, types, items, order)
                 case Some(t) => Failure(MaxSelectionsExceeded(t, Limit(types, t).value, GroupTotal(hardware, items, t)))
                 case None => Success(())
  {
    for k := 0 to |order|
      invariant forall j :: 0 <= j < k ==> !OverLimit(hardware, types, items, order[j])
    {
      var t := order[k];
      var limit := Limit(types, t);
      if limit.Some? {
        var total := SumInt(byType[t], Quantity);
        if total > limit.value {
          FirstOverLimitAt(hardware, types, items, order, k);
          return Failure(MaxSelectionsExceeded(t, limit.value, total));
        }
      }
    }
    r := Success(());
  }

  /** The inner loop of `_validate_max_selections` as written: it walks
      every group of `items_by_type`, leaving the loop variables bound to
      the last one. */
  method LastBinding(order: seq<int>, byType: map<int, seq<Item>>, t: int) returns (groupType: int, groupItems: seq<Item>)
    requires t in byType
    requires forall u :: u in order ==> u in byType
    ensures order == [] ==> groupType == t && groupItems == byType[t]
    ensures order != [] ==> groupType == order[|order| - 1] && groupItems == byType[order[|order| - 1]]
  {
    groupType, groupItems := t, byType[t];
    for m := 0 to |order|
      invariant m == 0 ==> groupType == t && groupItems == byType[t]
      invariant m > 0 ==> groupType == order[m - 1] && groupItems == byType[order[m - 1]]
    {
      groupType := order[m];
      groupItems := byType[order[m]];
    }
  }

  /** `_validate_max_selections` as written, nested loop included. */
  method ValidateMaxSelectionsAsWritten(hardware: seq<Hardware>, types: seq<HardwareType>, items: seq<Item>)
    returns (r: Result<(), RequirementError>)
    ensures r == MaxSelectionsCheckAsWritten(hardware, types, items)
  {
    if items == [] {
      return Success(());
    }
    var grouped := GroupByType(hardware, items);
    if grouped.Failure? {
      return Failure(grouped.error);
    }
    var (order, byType) := grouped.value;
    GroupsMembers(hardware, items);
    assert TypeOfItem(hardware, items[0].itemId).Some?;
    r := CheckGroupsAsWritten(hardware, types, items, order, byType);
  }

  /** The second loop of `_validate_max_selections` as written. */
  method CheckGroupsAsWritten(hardware: seq<Hardware>, types: seq<HardwareType>, items: seq<Item>, order: seq<int>, byType: map<int, seq<Item>>)
    returns (r: Result<(), RequirementError>)
    requires order != []
    requires forall t :: t in order ==> t in byType && byType[t] == GroupItems(hardware, items, t)
    ensures r == LastGroupVerdict(hardware, types, items, order)
  {
    ghost var last := order[|order| - 1];
    for k := 0 to |order|
      invariant forall j :: 0 <= j < k ==> Limit(types, order[j]).None? || !OverLimit(hardware, types, items, last)
    {
      var t := order[k];
      if Limit(types, t).Some? {
        var groupType, groupItems := LastBinding(order, byType, t);
        var limit := Limit(types, groupType);
        if limit.Some? {
          var total := SumInt(groupItems, Quantity);
          if total > limit.value {
            assert t in order;
            return Failure(MaxSelectionsExceeded(groupType, limit.value, total));
          }
        }
      }
    }
    r := Success(());
  }

  // ------------------------------------------------------- usage counts

  /** The items that occur in a requirement table. */
  function UsedItems(reqs: seq<Requirement>): set<int> {
    set r | r in reqs :: r.itemId
  }

  /** The distinct positions whose rows name the item. */
  function PositionsUsing(reqs: seq<Requirement>, itemId: int): set<int> {
    set r | r in reqs && r.itemId == itemId :: r.positionId
  }

  /** `get_hardware_usage_counts` / `get_software_usage_counts`:
      `COUNT(DISTINCT position_id)` grouped by item. */
  function UsageCounts(reqs: seq<Requirement>): (r: map<int, int>)
    ensures r.Keys == UsedItems(reqs)
    ensures forall i :: i in r ==> r[i] >= 1
  {
    var r := map i | i in UsedItems(reqs) :: |PositionsUsing(reqs, i)|;
    assert forall i :: i in r ==> r[i] >= 1 by {
      forall i | i in r
        ensures r[i] >= 1
      {
        var q :| q in reqs && q.itemId == i;
        assert q.positionId in PositionsUsing(reqs, i);
      }
    }
    r
  }

  /** The number of rows naming the item. */
  function RowCount(reqs: seq<Requirement>, itemId: int): nat {
    if reqs == [] then 0
    else RowCount(reqs[..|reqs| - 1], itemId) + (if reqs[|reqs| - 1].itemId == itemId then 1 else 0)
  }

  /** With one row per (position, item) pair, "used by N positions" is the
      number of the item's rows. */
  lemma {:induction false} UsageCountIsRowCount(reqs: seq<Requirement>, itemId: int)
    requires UniquePairs(reqs)
    ensures |PositionsUsing(reqs, itemId)| == RowCount(reqs, itemId)
    ensures itemId in UsageCounts(reqs) ==> UsageCounts(reqs)[itemId] == RowCount(reqs, itemId)
  {
    if reqs != [] {
      var init := reqs[..|reqs| - 1];
      assert UniquePairs(init);
      UsageCountIsRowCount(init, itemId);
      PositionsUsingSnoc(reqs, itemId);
    }
  }

  /** The last row adds its position to the item's users, and under
      unique pairs that position is new. */
  lemma PositionsUsingSnoc(reqs: seq<Requirement>, itemId: int)
    requires reqs != [] && UniquePairs(reqs)
    ensures var init, last := reqs[..|reqs| - 1], reqs[|reqs| - 1];
      && PositionsUsing(reqs, itemId) == PositionsUsing(init, itemId) + (if last.itemId == itemId then {last.positionId} else {})
      && (last.itemId == itemId ==> last.positionId !in PositionsUsing(init, itemId))
  {
    var init, last := reqs[..|reqs| - 1], reqs[|reqs| - 1];
    assert reqs == init + [last];
    forall y | y in init
      ensures y.positionId != last.positionId || y.itemId != last.itemId
    {
      var j :| 0 <= j < |init| && init[j] == y;
      assert reqs[j] == y;
    }
  }

  // ------------------------------------------------ division common items

  /** Python's `int()` on a float: truncation toward zero. */
  function Trunc(x: real): (r: int)
    ensures x >= 0.0 ==> r as real <= x < r as real + 1.0
    ensures x < 0.0 ==> r as real - 1.0 < x <= r as real
  {
    if x >= 0.0 then x.Floor else -((-x).Floor)
  }

  /** `max(1, int(configured_count * threshold))` */
  function MinPositions(configuredCount: int, threshold: real): (r: int)
    ensures r >= 1
  {
    var t := Trunc(configuredCount as real * threshold);
    if t > 1 then t else 1
  }

  /** A requirement row's position is an active position of the division
      (the join and filter of `get_division_common_*`). */
  predicate InDivision(positions: seq<Position>, positionId: int, divisionId: int) {
    exists p :: p in positions && p.id == positionId && p.divisionId == divisionId && p.isActive
  }

  /** The configured positions: distinct active positions of the division
      that have at least one row. */
  function ConfiguredPositions(positions: seq<Position>, reqs: seq<Requirement>, divisionId: int): set<int> {
    set r | r in reqs && InDivision(positions, r.positionId, divisionId) :: r.positionId
  }

  /** The distinct positions among `among` whose rows name the item. */
  function PositionsUsingAmong(reqs: seq<Requirement>, itemId: int, among: set<int>): set<int> {
    set r | r in reqs && r.itemId == itemId && r.positionId in among :: r.positionId
  }

  /** `get_division_common_hardware` / `get_division_common_software`:
      empty when no position of the division is configured; otherwise the
      items used by at least `MinPositions` of the configured positions. */
  function DivisionCommonItems(positions: seq<Position>, reqs: seq<Requirement>, divisionId: int, threshold: real): (r: set<int>)
    ensures ConfiguredPositions(positions, reqs, divisionId) == {} ==> r == {}
    ensures forall i :: i in r ==> exists q :: q in reqs && q.itemId == i && InDivision(positions, q.positionId, divisionId)
  {
    var configured := ConfiguredPositions(positions, reqs, divisionId);
    if |configured| == 0 then {}
    else
      var minPositions := MinPositions(|configured|, threshold);
      set i | i in UsedItems(reqs) && |PositionsUsingAmong(reqs, i, configured)| >= minPositions
  }

  /** An item qualifies iff at least max(1, int(count * threshold)) of the
      configured positions use it. */
  lemma DivisionCommonIff(positions: seq<Position>, reqs: seq<Requirement>, divisionId: int, threshold: real, itemId: int)
    requires ConfiguredPositions(positions, reqs, divisionId) != {}
    ensures var configured := ConfiguredPositions(positions, reqs, divisionId);
      itemId in DivisionCommonItems(positions, reqs, divisionId, threshold)
      <==> |PositionsUsingAmong(reqs, itemId, configured)| >= MinPositions(|configured|, threshold)
  {
    var configured := ConfiguredPositions(positions, reqs, divisionId);
    if |PositionsUsingAmong(reqs, itemId, configured)| >= MinPositions(|configured|, threshold) {
      var p :| p in PositionsUsingAmong(reqs, itemId, configured);
      var q :| q in reqs && q.itemId == itemId && q.positionId == p;
      assert itemId in UsedItems(reqs);
    }
  }

  /** Raising the threshold never adds an item. */
  lemma DivisionCommonMonotone(positions: seq<Position>, reqs: seq<Requirement>, divisionId: int, low: real, high: real)
    requires low <= high
    ensures DivisionCommonItems(positions, reqs, divisionId, high) <= DivisionCommonItems(positions, reqs, divisionId, low)
  {
    var configured := ConfiguredPositions(positions, reqs, divisionId);
    if |configured| != 0 {
      MinPositionsMonotone(|configured|, low, high);
      forall i | i in DivisionCommonItems(positions, reqs, divisionId, high)
        ensures i in DivisionCommonItems(positions, reqs, divisionId, low)
      {
        DivisionCommonIff(positions, reqs, divisionId, high, i);
        DivisionCommonIff(positions, reqs, divisionId, low, i);
      }
    }
  }

  /** A higher threshold never asks for fewer positions. */
  lemma MinPositionsMonotone(count: nat, low: real, high: real)
    requires low <= high
    ensures MinPositions(count, low) <= MinPositions(count, high)
  {
    var n := count as real;
    var d := high - low;
    assert n * high == n * low + n * d;
    assert n * d >= 0.0;
    TruncMonotone(n * low, n * high);
  }

  /** A subset is no larger, a proper subset smaller. */
  lemma SubsetCardinality(a: set<int>, b: set<int>)
    requires a <= b
    ensures |a| <= |b|
    ensures a != b ==> |a| < |b|
  {
    assert b == a + (b - a);
    assert a * (b - a) == {};
    if a != b {
      assert b - a != {};
    }
  }

  /** Truncation toward zero is monotone. */
  lemma TruncMonotone(x: real, y: real)
    requires x <= y
    ensures Trunc(x) <= Trunc(y)
  {
  }

  /** At full threshold an item qualifies iff every configured position
      uses it; at threshold 0 (or below) any use in the division
      suffices. */
  lemma DivisionCommonExtremes(positions: seq<Position>, reqs: seq<Requirement>, divisionId: int, itemId: int)
    requires ConfiguredPositions(positions, reqs, divisionId) != {}
    ensures var configured := ConfiguredPositions(positions, reqs, divisionId);
      itemId in DivisionCommonItems(positions, reqs, divisionId, 1.0)
      <==> PositionsUsingAmong(reqs, itemId, configured) == configured
    ensures itemId in DivisionCommonItems(positions, reqs, divisionId, 0.0)
      <==> exists q :: q in reqs && q.itemId == itemId && InDivision(positions, q.positionId, divisionId)
  {
    var configured := ConfiguredPositions(positions, reqs, divisionId);
    var using := PositionsUsingAmong(reqs, itemId, configured);
    DivisionCommonIff(positions, reqs, divisionId, 1.0, itemId);
    DivisionCommonIff(positions, reqs, divisionId, 0.0, itemId);
    assert MinPositions(|configured|, 1.0) == |configured|;
    assert using <= configured;
    if using != configured {
      SubsetCardinality(using, configured);
    }
    if q :| q in reqs && q.itemId == itemId && InDivision(positions, q.positionId, divisionId) {
      assert q.positionId in configured;
      assert q.positionId in using;
    }
  }

  // ------------------------------------------------------ table contents

  /** No (position, item) pair has two rows (`UQ_position_hardware_*`). */
  predicate UniquePairs(rows: seq<Requirement>) {
    forall i, j :: 0 <= i < j < |rows| ==> rows[i].positionId != rows[j].positionId || rows[i].itemId != rows[j].itemId
  }

  /** Autoincrement ids: increasing along the table and below the next id. */
  predicate IdsBelow(rows: seq<Requirement>, next: int) {
    && (forall i, j :: 0 <= i < j < |rows| ==> rows[i].id < rows[j].id)
    && (forall i :: 0 <= i < |rows| ==> rows[i].id < next)
  }

  /** `CK_pos_hw_qty` / `CK_pos_sw_qty`: `quantity >= 1`. */
  predicate QuantitiesPositive(rows: seq<Requirement>) {
    forall i :: 0 <= i < |rows| ==> rows[i].quantity >= 1
  }

  predicate WellFormedTable(rows: seq<Requirement>, next: int) {
    UniquePairs(rows) && IdsBelow(rows, next) && QuantitiesPositive(rows)
  }

  /** Selections the database accepts for one position: no item twice, no
      quantity below 1. */
  predicate AcceptableItems(items: seq<Item>) {
    && (forall i, j :: 0 <= i < j < |items| ==> items[i].itemId != items[j].itemId)
    && (forall i :: 0 <= i < |items| ==> items[i].quantity >= 1)
  }

  /** The rows whose position is (`same`) or is not (`!same`) the given
      one, in table order. */
  function Select(rows: seq<Requirement>, positionId: int, same: bool): (r: seq<Requirement>)
    ensures forall x :: x in r <==> x in rows && (x.positionId == positionId) == same
  {
    if rows == [] then []
    else
      var last := rows[|rows| - 1];
      Select(rows[..|rows| - 1], positionId, same) + (if (last.positionId == positionId) == same then [last] else [])
  }

  /** `get_*_requirements(position_id)`: the position's rows in id order. */
  function RowsOf(rows: seq<Requirement>, positionId: int): (r: seq<Requirement>)
    ensures forall x :: x in r <==> x in rows && x.positionId == positionId
  {
    Select(rows, positionId, true)
  }

  /** The table after `filter_by(position_id=...).delete()`. */
  function RowsNotOf(rows: seq<Requirement>, positionId: int): (r: seq<Requirement>)
    ensures forall x :: x in r <==> x in rows && x.positionId != positionId
  {
    Select(rows, positionId, false)
  }

  /** The rows as submitted selections (the dicts `copy_position_requirements`
      builds). */
  function AsItems(rows: seq<Requirement>): (r: seq<Item>)
    ensures |r| == |rows|
    ensures forall i :: 0 <= i < |rows| ==> r[i] == Item(rows[i].itemId, rows[i].quantity, rows[i].notes)
  {
    seq(|rows|, i requires 0 <= i < |rows| => Item(rows[i].itemId, rows[i].quantity, rows[i].notes))
  }

  /** The rows the insert loop of `set_position_*` creates, ids allocated
      from `firstId` on. */
  function NewRows(positionId: int, items: seq<Item>, firstId: int): (r: seq<Requirement>)
    ensures |r| == |items|
    ensures forall i :: 0 <= i < |items| ==> r[i] == Requirement(firstId + i, positionId, items[i].itemId, items[i].quantity, items[i].notes)
  {
    seq(|items|, i requires 0 <= i < |items| => Requirement(firstId + i, positionId, items[i].itemId, items[i].quantity, items[i].notes))
  }

  /** One more selection adds one row and one ADDED entry at the end. */
  lemma InsertedSnoc(positionId: int, kind: ItemKind, items: seq<Item>, i: nat, firstId: int, changedBy: Option<int>)
    requires i < |items|
    ensures NewRows(positionId, items[..i + 1], firstId) == NewRows(positionId, items[..i], firstId)
      + [Requirement(firstId + i, positionId, items[i].itemId, items[i].quantity, items[i].notes)]
    ensures AddedEntries(positionId, kind, items[..i + 1], changedBy) == AddedEntries(positionId, kind, items[..i], changedBy)
      + [HistoryEntry(positionId, kind, items[i].itemId, Added, items[i].quantity, changedBy)]
  {
  }

  /** One REMOVED history entry per row. */
  function RemovedEntries(rows: seq<Requirement>, kind: ItemKind, changedBy: Option<int>): (r: seq<HistoryEntry>)
    ensures |r| == |rows|
    ensures forall i :: 0 <= i < |rows| ==> r[i] == HistoryEntry(rows[i].positionId, kind, rows[i].itemId, Removed, rows[i].quantity, changedBy)
  {
    seq(|rows|, i requires 0 <= i < |rows| => HistoryEntry(rows[i].positionId, kind, rows[i].itemId, Removed, rows[i].quantity, changedBy))
  }

  /** One ADDED history entry per submitted selection. */
  function AddedEntries(positionId: int, kind: ItemKind, items: seq<Item>, changedBy: Option<int>): (r: seq<HistoryEntry>)
    ensures |r| == |items|
    ensures forall i :: 0 <= i < |items| ==> r[i] == HistoryEntry(positionId, kind, items[i].itemId, Added, items[i].quantity, changedBy)
  {
    seq(|items|, i requires 0 <= i < |items| => HistoryEntry(positionId, kind, items[i].itemId, Added, items[i].quantity, changedBy))
  }

  /** The row of a (position, item) pair: `filter_by(position_id, *_id).first()`. */
  function FindPair(rows: seq<Requirement>, positionId: int, itemId: int): (r: Option<nat>)
    ensures r.Some? ==> r.value < |rows| && rows[r.value].positionId == positionId && rows[r.value].itemId == itemId
    ensures r.None? <==> forall i :: 0 <= i < |rows| ==> rows[i].positionId != positionId || rows[i].itemId != itemId
  {
    if rows == [] then None
    else if rows[0].positionId == positionId && rows[0].itemId == itemId then Some(0)
    else
      var r := FindPair(rows[1..], positionId, itemId);
      assert forall i :: 1 <= i < |rows| ==> rows[i] == rows[1..][i - 1];
      if r.Some? then Some(r.value + 1) else None
  }

  /** The row with a primary key: `db.session.get(Position*, id)`. */
  function FindRow(rows: seq<Requirement>, id: int): (r: Option<nat>)
    ensures r.Some? ==> r.value < |rows| && rows[r.value].id == id
    ensures r.None? <==> forall i :: 0 <= i < |rows| ==> rows[i].id != id
  {
    if rows == [] then None
    else if rows[0].id == id then Some(0)
    else
      var r := FindRow(rows[1..], id);
      assert forall i :: 1 <= i < |rows| ==> rows[i] == rows[1..][i - 1];
      if r.Some? then Some(r.value + 1) else None
  }

  /** The quantity a position requires of an item (None: not required). */
  function PairQuantity(rows: seq<Requirement>, positionId: int, itemId: int): Option<int> {
    match FindPair(rows, positionId, itemId)
    case Some(k) => Some(rows[k].quantity)
    case None => None
  }

  /** With unique pairs, a row found by position and item is THE row. */
  lemma PairQuantityAt(rows: seq<Requirement>, k: nat)
    requires UniquePairs(rows) && k < |rows|
    ensures PairQuantity(rows, rows[k].positionId, rows[k].itemId) == Some(rows[k].quantity)
  {
  }

  /** Under unique pairs, the quantity of a pair is that of the one row
      holding the pair. */
  lemma PairQuantityIff(rows: seq<Requirement>, positionId: int, itemId: int)
    requires UniquePairs(rows)
    ensures PairQuantity(rows, positionId, itemId).None?
        <==> forall j :: 0 <= j < |rows| ==> rows[j].positionId != positionId || rows[j].itemId != itemId
    ensures forall j :: (0 <= j < |rows| && rows[j].positionId == positionId && rows[j].itemId == itemId) ==>
      PairQuantity(rows, positionId, itemId) == Some(rows[j].quantity)
  {
    forall j | 0 <= j < |rows| && rows[j].positionId == positionId && rows[j].itemId == itemId
      ensures PairQuantity(rows, positionId, itemId) == Some(rows[j].quantity)
    {
      PairQuantityAt(rows, j);
    }
  }

  // ------------------------------------------------ single-row operations

  /** `update_*_requirement`: a quantity or notes of None keeps the old
      value. */
  function Updated(rows: seq<Requirement>, k: nat, quantity: Option<int>, notes: Option<string>): (r: seq<Requirement>)
    requires k < |rows|
    ensures |r| == |rows|
  {
    rows[k := rows[k].(quantity := quantity.GetOr(rows[k].quantity), notes := if notes.Some? then notes else rows[k].notes)]
  }

  /** `add_*_requirement`: an existing (position, item) pair is updated
      through `update_*_requirement`; otherwise a row with the next id is
      appended. */
  function Upserted(rows: seq<Requirement>, next: int, positionId: int, itemId: int, quantity: int, notes: Option<string>): seq<Requirement> {
    match FindPair(rows, positionId, itemId)
    case Some(k) => Updated(rows, k, Some(quantity), notes)
    case None => rows + [Requirement(next, positionId, itemId, quantity, notes)]
  }

  /** `remove_*_requirement`: the hard delete of one row. */
  function Deleted(rows: seq<Requirement>, k: nat): (r: seq<Requirement>)
    requires k < |rows|
    ensures |r| == |rows| - 1
  {
    rows[..k] + rows[k + 1..]
  }

  /** `set_position_*`: the position's rows deleted, the submitted items
      inserted behind the remaining rows. */
  function Replaced(rows: seq<Requirement>, positionId: int, items: seq<Item>, next: int): seq<Requirement> {
    RowsNotOf(rows, positionId) + NewRows(positionId, items, next)
  }

  /** Updating a row keeps the table well formed, gives its pair the new
      quantity (or keeps the old one for None), and leaves every other
      pair's quantity as it was. */
  lemma UpdatedSpec(rows: seq<Requirement>, next: int, k: nat, quantity: Option<int>, notes: Option<string>)
    requires WellFormedTable(rows, next) && k < |rows| && (quantity.None? || quantity.value >= 1)
    ensures WellFormedTable(Updated(rows, k, quantity, notes), next)
    ensures PairQuantity(Updated(rows, k, quantity, notes), rows[k].positionId, rows[k].itemId) == Some(quantity.GetOr(rows[k].quantity))
    ensures forall p, i :: (p != rows[k].positionId || i != rows[k].itemId) ==>
      PairQuantity(Updated(rows, k, quantity, notes), p, i) == PairQuantity(rows, p, i)
  {
    var r := Updated(rows, k, quantity, notes);
    assert forall j :: 0 <= j < |rows| ==> r[j].positionId == rows[j].positionId && r[j].itemId == rows[j].itemId && r[j].id == rows[j].id;
    assert WellFormedTable(r, next);
    PairQuantityAt(r, k);
    forall p, i | p != rows[k].positionId || i != rows[k].itemId
      ensures PairQuantity(r, p, i) == PairQuantity(rows, p, i)
    {
      PairQuantityIff(rows, p, i);
      PairQuantityIff(r, p, i);
    }
  }

  /** Adding a requirement keeps each pair on at most one row (and the
      rest of the table well formed), gives the pair the new quantity and
      leaves the other pairs alone. */
  lemma UpsertedSpec(rows: seq<Requirement>, next: int, positionId: int, itemId: int, quantity: int, notes: Option<string>)
    requires WellFormedTable(rows, next) && quantity >= 1
    ensures var r := Upserted(rows, next, positionId, itemId, quantity, notes);
      && WellFormedTable(r, if FindPair(rows, positionId, itemId).Some? then next else next + 1)
      && PairQuantity(r, positionId, itemId) == Some(quantity)
      && forall p, i :: p != positionId || i != itemId ==> PairQuantity(r, p, i) == PairQuantity(rows, p, i)
  {
    match FindPair(rows, positionId, itemId)
    case Some(k) =>
      UpdatedSpec(rows, next, k, Some(quantity), notes);
    case None =>
      var r := rows + [Requirement(next, positionId, itemId, quantity, notes)];
      assert WellFormedTable(r, next + 1);
      PairQuantityAt(r, |rows|);
      forall p, i | p != positionId || i != itemId
        ensures PairQuantity(r, p, i) == PairQuantity(rows, p, i)
      {
        PairQuantityIff(rows, p, i);
        PairQuantityIff(r, p, i);
        if j :| 0 <= j < |rows| && rows[j].positionId == p && rows[j].itemId == i {
          assert r[j] == rows[j];
        } else {
          assert forall j :: 0 <= j < |r| ==> r[j].positionId != p || r[j].itemId != i;
        }
      }
  }

  /** Deleting a row keeps the table well formed, removes its pair and
      leaves every other pair's quantity as it was. */
  lemma DeletedSpec(rows: seq<Requirement>, next: int, k: nat)
    requires WellFormedTable(rows, next) && k < |rows|
    ensures WellFormedTable(Deleted(rows, k), next)
    ensures PairQuantity(Deleted(rows, k), rows[k].positionId, rows[k].itemId).None?
    ensures forall p, i :: (p != rows[k].positionId || i != rows[k].itemId) ==>
      PairQuantity(Deleted(rows, k), p, i) == PairQuantity(rows, p, i)
  {
    DeletedWellFormed(rows, next, k);
    PairQuantityIff(Deleted(rows, k), rows[k].positionId, rows[k].itemId);
    forall p, i | p != rows[k].positionId || i != rows[k].itemId
      ensures PairQuantity(Deleted(rows, k), p, i) == PairQuantity(rows, p, i)
    {
      DeletedOtherPair(rows, next, k, p, i);
    }
  }

  lemma DeletedWellFormed(rows: seq<Requirement>, next: int, k: nat)
    requires WellFormedTable(rows, next) && k < |rows|
    ensures WellFormedTable(Deleted(rows, k), next)
  {
    var r := Deleted(rows, k);
    assert forall j :: 0 <= j < k ==> r[j] == rows[j];
    assert forall j :: k <= j < |r| ==> r[j] == rows[j + 1];
  }

  lemma DeletedOtherPair(rows: seq<Requirement>, next: int, k: nat, p: int, i: int)
    requires WellFormedTable(rows, next) && k < |rows|
    requires p != rows[k].positionId || i != rows[k].itemId
    ensures PairQuantity(Deleted(rows, k), p, i) == PairQuantity(rows, p, i)
  {
    var r := Deleted(rows, k);
    DeletedWellFormed(rows, next, k);
    PairQuantityIff(rows, p, i);
    PairQuantityIff(r, p, i);
    if j :| 0 <= j < |rows| && rows[j].positionId == p && rows[j].itemId == i {
      var jr := if j < k then j else j - 1;
      assert r[jr] == rows[j];
    } else {
      assert forall j :: 0 <= j < |r| ==> r[j] == (if j < k then rows[j] else rows[j + 1]);
    }
  }

  // --------------------------------------------------- bulk replacement

  /** The rows of a position in a concatenation. */
  lemma {:induction false} RowsOfAppend(a: seq<Requirement>, b: seq<Requirement>, q: int)
    ensures RowsOf(a + b, q) == RowsOf(a, q) + RowsOf(b, q)
  {
    if b != [] {
      var b' := b[..|b| - 1];
      assert (a + b)[..|a + b| - 1] == a + b';
      RowsOfAppend(a, b', q);
    } else {
      assert a + b == a;
    }
  }

  /** After the bulk delete the position has no rows, and the others keep
      theirs. */
  lemma {:induction false} RowsOfNotOf(rows: seq<Requirement>, positionId: int, q: int)
    ensures RowsOf(RowsNotOf(rows, positionId), q) == if q == positionId then [] else RowsOf(rows, q)
  {
    if rows != [] {
      var init := rows[..|rows| - 1];
      var last := rows[|rows| - 1];
      RowsOfNotOf(init, positionId, q);
      RowsOfAppend(RowsNotOf(init, positionId), if last.positionId != positionId then [last] else [], q);
      assert [last][..0] == [];
    }
  }

  /** The inserted rows all belong to the position. */
  lemma {:induction false} RowsOfNew(positionId: int, items: seq<Item>, next: int, q: int)
    ensures RowsOf(NewRows(positionId, items, next), q) == if q == positionId then NewRows(positionId, items, next) else []
  {
    if items != [] {
      var init := items[..|items| - 1];
      var rows := NewRows(positionId, items, next);
      assert rows[..|rows| - 1] == NewRows(positionId, init, next);
      RowsOfNew(positionId, init, next, q);
      assert rows == NewRows(positionId, init, next) + [rows[|rows| - 1]];
    }
  }

  /** Keeping some positions' rows keeps the table well formed. */
  lemma {:induction false} SelectWellFormed(rows: seq<Requirement>, positionId: int, same: bool, next: int)
    requires WellFormedTable(rows, next)
    ensures WellFormedTable(Select(rows, positionId, same), next)
  {
    if rows != [] {
      var init := rows[..|rows| - 1];
      var last := rows[|rows| - 1];
      SelectWellFormed(init, positionId, same, next);
      var a := Select(init, positionId, same);
      if (last.positionId == positionId) == same {
        forall y | y in a
          ensures (y.positionId != last.positionId || y.itemId != last.itemId) && y.id < last.id
        {
          var j :| 0 <= j < |init| && init[j] == y;
          assert rows[j] == y;
        }
        WellFormedSnoc(a, last, next);
      }
    }
  }

  /** The rows of one position, as selections, are acceptable to submit
      again: no item twice, every quantity at least 1. */
  lemma RowItemsAcceptable(rows: seq<Requirement>, positionId: int, next: int)
    requires WellFormedTable(rows, next)
    ensures AcceptableItems(AsItems(RowsOf(rows, positionId)))
  {
    var r := RowsOf(rows, positionId);
    SelectWellFormed(rows, positionId, true, next);
    assert forall j :: 0 <= j < |r| ==> r[j] in r;
  }

  /** A row whose pair is new and whose id is the largest may be appended. */
  lemma WellFormedSnoc(a: seq<Requirement>, x: Requirement, next: int)
    requires WellFormedTable(a, next) && x.id < next && x.quantity >= 1
    requires forall y :: y in a ==> (y.positionId != x.positionId || y.itemId != x.itemId) && y.id < x.id
    ensures WellFormedTable(a + [x], next)
  {
    assert forall j :: 0 <= j < |a| ==> a[j] in a;
  }

  /** Inserting acceptable selections for a position that has no rows
      left keeps the table well formed. */
  lemma AppendNewWellFormed(a: seq<Requirement>, positionId: int, items: seq<Item>, next: int)
    requires WellFormedTable(a, next) && AcceptableItems(items)
    requires forall y :: y in a ==> y.positionId != positionId
    ensures WellFormedTable(a + NewRows(positionId, items, next), next + |items|)
  {
    var b := NewRows(positionId, items, next);
    var r := a + b;
    assert forall j :: 0 <= j < |a| ==> a[j] in a;
    assert UniquePairs(r) by {
      forall i, j | 0 <= i < j < |r|
        ensures r[i].positionId != r[j].positionId || r[i].itemId != r[j].itemId
      {
        if j < |a| {
        } else if i < |a| {
          assert r[i] == a[i] && r[j] == b[j - |a|];
        } else {
          assert r[i] == b[i - |a|] && r[j] == b[j - |a|];
        }
      }
    }
    assert IdsBelow(r, next + |items|) by {
      forall i, j | 0 <= i < j < |r|
        ensures r[i].id < r[j].id
      {
        if j < |a| {
        } else if i < |a| {
          assert r[i] == a[i] && r[j] == b[j - |a|];
        } else {
          assert r[i] == b[i - |a|] && r[j] == b[j - |a|];
        }
      }
    }
  }

  /** The bulk replacement keeps the table well formed (ids continue from
      the next id), makes the position's rows exactly the submitted items
      in order, and leaves every other position's rows as they were. */
  lemma ReplacedSpec(rows: seq<Requirement>, positionId: int, items: seq<Item>, next: int)
    requires WellFormedTable(rows, next) && AcceptableItems(items)
    ensures WellFormedTable(Replaced(rows, positionId, items, next), next + |items|)
    ensures RowsOf(Replaced(rows, positionId, items, next), positionId) == NewRows(positionId, items, next)
    ensures AsItems(RowsOf(Replaced(rows, positionId, items, next), positionId)) == items
    ensures forall q :: q != positionId ==> RowsOf(Replaced(rows, positionId, items, next), q) == RowsOf(rows, q)
  {
    var a := RowsNotOf(rows, positionId);
    var b := NewRows(positionId, items, next);
    SelectWellFormed(rows, positionId, false, next);
    AppendNewWellFormed(a, positionId, items, next);
    forall q
      ensures RowsOf(a + b, q) == if q == positionId then b else RowsOf(rows, q)
    {
      ReplacedRows(rows, positionId, items, next, q);
    }
    assert AsItems(b) == items;
  }

  /** The rows of one position after the bulk replacement. */
  lemma ReplacedRows(rows: seq<Requirement>, positionId: int, items: seq<Item>, next: int, q: int)
    ensures RowsOf(Replaced(rows, positionId, items, next), q)
         == if q == positionId then NewRows(positionId, items, next) else RowsOf(rows, q)
  {
    RowsOfAppend(RowsNotOf(rows, positionId), NewRows(positionId, items, next), q);
    RowsOfNotOf(rows, positionId, q);
    RowsOfNew(positionId, items, next, q);
  }

  // ------------------------------------------------------------- store

  /** `_VALID_STATUSES`: None (not started), draft, submitted, reviewed. */
  predicate ValidStatus(status: Option<string>) {
    status.None? || status.value in {"draft", "submitted", "reviewed"}
  }

  /** The two junction tables, their autoincrement counters, the
      requirement history, and each position's `requirements_status`
      (the keys of `statuses` are the positions that exist). */
  class RequirementStore {
    var hardwareReqs: seq<Requirement>
    var softwareReqs: seq<Requirement>
    var nextHardwareId: int
    var nextSoftwareId: int
    var history: seq<HistoryEntry>
    var statuses: map<int, Option<string>>

    function Table(kind: ItemKind): seq<Requirement>
      reads this
    {
      if kind == HardwareItem then hardwareReqs else softwareReqs
    }

    function NextId(kind: ItemKind): int
      reads this
    {
      if kind == HardwareItem then nextHardwareId else nextSoftwareId
    }

    predicate Valid()
      reads this
    {
      WellFormedTable(hardwareReqs, nextHardwareId) && WellFormedTable(softwareReqs, nextSoftwareId)
    }

    /** Empty requirement tables over the given positions. */
    constructor(statuses: map<int, Option<string>>)
      ensures Valid()
      ensures hardwareReqs == [] && softwareReqs == [] && history == [] && this.statuses == statuses
      ensures nextHardwareId == 1 && nextSoftwareId == 1
    {
      hardwareReqs, softwareReqs := [], [];
      nextHardwareId, nextSoftwareId := 1, 1;
      history := [];
      this.statuses := statuses;
    }

    /** Writes one table back; nothing else changes. */
    method SetTable(kind: ItemKind, rows: seq<Requirement>, next: int)
      modifies this
      ensures Table(kind) == rows && NextId(kind) == next
      ensures Table(Other(kind)) == old(Table(Other(kind))) && NextId(Other(kind)) == old(NextId(Other(kind)))
      ensures history == old(history) && statuses == old(statuses)
    {
      if kind == HardwareItem {
        hardwareReqs, nextHardwareId := rows, next;
      } else {
        softwareReqs, nextSoftwareId := rows, next;
      }
    }

    /** `_record_requirement_history`: one history row appended. */
    method Record(entry: HistoryEntry)
      modifies this
      ensures history == old(history) + [entry]
      ensures hardwareReqs == old(hardwareReqs) && softwareReqs == old(softwareReqs)
      ensures nextHardwareId == old(nextHardwareId) && nextSoftwareId == old(nextSoftwareId)
      ensures statuses == old(statuses)
    {
      history := history + [entry];
    }

    /** `add_hardware_requirement` / `add_software_requirement`. A quantity
        below 1 violates the table's CHECK constraint and nothing is
        stored. */
    method AddRequirement(kind: ItemKind, positionId: int, itemId: int, quantity: int, notes: Option<string>, userId: Option<int>)
      returns (r: Result<Requirement, RequirementError>)
      requires Valid()
      modifies this
      ensures Valid()
      ensures quantity < 1 ==> r == Failure(ConstraintViolation) && unchanged(this)
      ensures quantity >= 1 ==>
        && r.Success?
        && Table(kind) == Upserted(old(Table(kind)), old(NextId(kind)), positionId, itemId, quantity, notes)
        && PairQuantity(Table(kind), positionId, itemId) == Some(quantity)
        && (forall p, i :: (p != positionId || i != itemId) ==> PairQuantity(Table(kind), p, i) == old(PairQuantity(Table(kind), p, i)))
        && history == old(history) + [HistoryEntry(positionId, kind, itemId,
                                                   if old(FindPair(Table(kind), positionId, itemId)).Some? then Modified else Added,
                                                   quantity, userId)]
      ensures Table(Other(kind)) == old(Table(Other(kind))) && NextId(Other(kind)) == old(NextId(Other(kind)))
      ensures statuses == old(statuses)
    {
      if quantity < 1 {
        return Failure(ConstraintViolation);
      }
      var rows, next := Table(kind), NextId(kind);
      UpsertedSpec(rows, next, positionId, itemId, quantity, notes);
      match FindPair(rows, positionId, itemId)
      case Some(k) =>
        var row := rows[k].(quantity := quantity, notes := if notes.Some? then notes else rows[k].notes);
        SetTable(kind, rows[k := row], next);
        Record(HistoryEntry(positionId, kind, itemId, Modified, quantity, userId));
        r := Success(row);
      case None =>
        var row := Requirement(next, positionId, itemId, quantity, notes);
        SetTable(kind, rows + [row], next + 1);
        Record(HistoryEntry(positionId, kind, itemId, Added, quantity, userId));
        r := Success(row);
    }

    /** `update_hardware_requirement` / `update_software_requirement`: a
        missing id is an error; None keeps a field; the MODIFIED entry
        carries the row's resulting quantity. */
    method UpdateRequirement(kind: ItemKind, requirementId: int, quantity: Option<int>, notes: Option<string>, userId: Option<int>)
      returns (r: Result<Requirement, RequirementError>)
      requires Valid()
      modifies this
      ensures Valid()
      ensures old(FindRow(Table(kind), requirementId)).None? ==> r == Failure(RequirementNotFound(kind, requirementId)) && unchanged(this)
      ensures old(FindRow(Table(kind), requirementId)).Some? && quantity.Some? && quantity.value < 1 ==>
        r == Failure(ConstraintViolation) && unchanged(this)
      ensures r.Success? ==>
        && old(FindRow(Table(kind), requirementId)).Some?
        && var k := old(FindRow(Table(kind), requirementId)).value;
        && var before := old(Table(kind))[k];
        && Table(kind) == Updated(old(Table(kind)), k, quantity, notes)
        && r.value == Table(kind)[k]
        && r.value.quantity == quantity.GetOr(before.quantity)
        && PairQuantity(Table(kind), before.positionId, before.itemId) == Some(r.value.quantity)
        && history == old(history) + [HistoryEntry(before.positionId, kind, before.itemId, Modified, r.value.quantity, userId)]
        && NextId(kind) == old(NextId(kind))
      ensures r.Failure? ==> unchanged(this)
      ensures r.Success? <==> old(FindRow(Table(kind), requirementId)).Some? && (quantity.None? || quantity.value >= 1)
      ensures Table(Other(kind)) == old(Table(Other(kind))) && NextId(Other(kind)) == old(NextId(Other(kind)))
      ensures statuses == old(statuses)
    {
      var rows, next := Table(kind), NextId(kind);
      var found := FindRow(rows, requirementId);
      if found.None? {
        return Failure(RequirementNotFound(kind, requirementId));
      }
      if quantity.Some? && quantity.value < 1 {
        return Failure(ConstraintViolation);
      }
      var k := found.value;
      UpdatedSpec(rows, next, k, quantity, notes);
      var updated := Updated(rows, k, quantity, notes);
      SetTable(kind, updated, next);
      Record(HistoryEntry(rows[k].positionId, kind, rows[k].itemId, Modified, updated[k].quantity, userId));
      r := Success(updated[k]);
    }

    /** `remove_hardware_requirement` / `remove_software_requirement`: a
        REMOVED entry with the row's quantity, then the hard delete. */
    method RemoveRequirement(kind: ItemKind, requirementId: int, userId: Option<int>)
      returns (r: Result<(), RequirementError>)
      requires Valid()
      modifies this
      ensures Valid()
      ensures old(FindRow(Table(kind), requirementId)).None? <==> r == Failure(RequirementNotFound(kind, requirementId))
      ensures r.Failure? ==> unchanged(this)
      ensures r.Success? ==>
        && var k := old(FindRow(Table(kind), requirementId)).value;
        && var before := old(Table(kind))[k];
        && Table(kind) == Deleted(old(Table(kind)), k)
        && PairQuantity(Table(kind), before.positionId, before.itemId).None?
        && history == old(history) + [HistoryEntry(before.positionId, kind, before.itemId, Removed, before.quantity, userId)]
        && NextId(kind) == old(NextId(kind))
      ensures Table(Other(kind)) == old(Table(Other(kind))) && NextId(Other(kind)) == old(NextId(Other(kind)))
      ensures statuses == old(statuses)
    {
      var rows, next := Table(kind), NextId(kind);
      var found := FindRow(rows, requirementId);
      if found.None? {
        return Failure(RequirementNotFound(kind, requirementId));
      }
      var k := found.value;
      DeletedSpec(rows, next, k);
      Record(HistoryEntry(rows[k].positionId, kind, rows[k].itemId, Removed, rows[k].quantity, userId));
      SetTable(kind, Deleted(rows, k), next);
      r := Success(());
    }

    /** `set_position_hardware` / `set_position_software`: replace all of
        a position's rows. Hardware selections are validated first (by
        the corrected `_validate_max_selections`, every group against its
        own limit); then one REMOVED entry per existing row, the bulk
        delete, and one inserted row and ADDED entry per selection. Selections the database refuses (an item
        twice, a quantity below 1) roll the whole replacement back. */
    method SetPositionRequirements(kind: ItemKind, positionId: int, items: seq<Item>, userId: Option<int>,
                                   hardware: seq<Hardware>, types: seq<HardwareType>)
      returns (r: Result<seq<Requirement>, RequirementError>)
      requires Valid()
      modifies this
      ensures Valid()
      ensures kind == HardwareItem && MaxSelectionsCheck(hardware, types, items).Failure? ==>
        r == Failure(MaxSelectionsCheck(hardware, types, items).error)
      ensures r.Success? <==>
        (kind == SoftwareItem || MaxSelectionsCheck(hardware, types, items).Success?) && AcceptableItems(items)
      ensures r.Failure? ==> unchanged(this)
      ensures r.Success? ==>
        && Table(kind) == Replaced(old(Table(kind)), positionId, items, old(NextId(kind)))
        && NextId(kind) == old(NextId(kind)) + |items|
        && r.value == NewRows(positionId, items, old(NextId(kind)))
        && AsItems(RowsOf(Table(kind), positionId)) == items
        && (forall q :: q != positionId ==> RowsOf(Table(kind), q) == old(RowsOf(Table(kind), q)))
        && history == old(history) + RemovedEntries(old(RowsOf(Table(kind), positionId)), kind, userId)
                                   + AddedEntries(positionId, kind, items, userId)
      ensures Table(Other(kind)) == old(Table(Other(kind))) && NextId(Other(kind)) == old(NextId(Other(kind)))
      ensures statuses == old(statuses)
    {
      if kind == HardwareItem {
        var checked := ValidateMaxSelections(hardware, types, items);
        if checked.Failure? {
          return Failure(checked.error);
        }
      }
      if !AcceptableItems(items) {
        return Failure(ConstraintViolation);
      }
      ReplacedSpec(Table(kind), positionId, items, NextId(kind));
      var existing := RowsOf(Table(kind), positionId);
      RemoveAll(kind, positionId, existing, userId);
      r := InsertAll(kind, positionId, items, userId);
    }

    /** The first half of `set_position_*`: a REMOVED entry for each of the
        position's rows, then the bulk delete. */
    method RemoveAll(kind: ItemKind, positionId: int, existing: seq<Requirement>, userId: Option<int>)
      requires existing == RowsOf(Table(kind), positionId)
      modifies this
      ensures Table(kind) == RowsNotOf(old(Table(kind)), positionId) && NextId(kind) == old(NextId(kind))
      ensures history == old(history) + RemovedEntries(existing, kind, userId)
      ensures Table(Other(kind)) == old(Table(Other(kind))) && NextId(Other(kind)) == old(NextId(Other(kind)))
      ensures statuses == old(statuses)
    {
      for i := 0 to |existing|
        invariant history == old(history) + RemovedEntries(existing[..i], kind, userId)
        invariant hardwareReqs == old(hardwareReqs) && softwareReqs == old(softwareReqs)
        invariant nextHardwareId == old(nextHardwareId) && nextSoftwareId == old(nextSoftwareId)
        invariant statuses == old(statuses)
      {
        assert RemovedEntries(existing[..i + 1], kind, userId) == RemovedEntries(existing[..i], kind, userId)
          + [HistoryEntry(existing[i].positionId, kind, existing[i].itemId, Removed, existing[i].quantity, userId)];
        Record(HistoryEntry(existing[i].positionId, kind, existing[i].itemId, Removed, existing[i].quantity, userId));
      }
      assert existing[..|existing|] == existing;
      SetTable(kind, RowsNotOf(Table(kind), positionId), NextId(kind));
    }

    /** The second half of `set_position_*`: one row and one ADDED entry
        per selection, in order. */
    method InsertAll(kind: ItemKind, positionId: int, items: seq<Item>, userId: Option<int>)
      returns (r: Result<seq<Requirement>, RequirementError>)
      modifies this
      ensures r.Success? && r.value == NewRows(positionId, items, old(NextId(kind)))
      ensures Table(kind) == old(Table(kind)) + r.value && NextId(kind) == old(NextId(kind)) + |items|
      ensures history == old(history) + AddedEntries(positionId, kind, items, userId)
      ensures Table(Other(kind)) == old(Table(Other(kind))) && NextId(Other(kind)) == old(NextId(Other(kind)))
      ensures statuses == old(statuses)
    {
      var newRows: seq<Requirement> := [];
      for i := 0 to |items|
        invariant newRows == NewRows(positionId, items[..i], old(NextId(kind)))
        invariant Table(kind) == old(Table(kind)) + newRows && NextId(kind) == old(NextId(kind)) + i
        invariant history == old(history) + AddedEntries(positionId, kind, items[..i], userId)
        invariant Table(Other(kind)) == old(Table(Other(kind))) && NextId(Other(kind)) == old(NextId(Other(kind)))
        invariant statuses == old(statuses)
      {
        var row := Requirement(NextId(kind), positionId, items[i].itemId, items[i].quantity, items[i].notes);
        InsertedSnoc(positionId, kind, items, i, old(NextId(kind)), userId);
        SetTable(kind, Table(kind) + [row], NextId(kind) + 1);
        Record(HistoryEntry(positionId, kind, items[i].itemId, Added, items[i].quantity, userId));
        newRows := newRows + [row];
      }
      assert items[..|items|] == items;
      r := Success(newRows);
    }

    /** `copy_position_requirements`: nothing to copy is an error;
        otherwise the target's hardware, then its software, are replaced by
        the source's (through `set_position_*`). */
    method CopyPositionRequirements(sourceId: int, targetId: int, userId: Option<int>,
                                    hardware: seq<Hardware>, types: seq<HardwareType>)
      returns (r: Result<(), RequirementError>)
      requires Valid()
      modifies this
      ensures Valid()
      ensures old(RowsOf(hardwareReqs, sourceId)) == [] && old(RowsOf(softwareReqs, sourceId)) == [] ==> r == Failure(NothingToCopy)
      ensures r.Success? <==>
        && (old(RowsOf(hardwareReqs, sourceId)) != [] || old(RowsOf(softwareReqs, sourceId)) != [])
        && MaxSelectionsCheck(hardware, types, AsItems(old(RowsOf(hardwareReqs, sourceId)))).Success?
      ensures r.Failure? ==> unchanged(this)
      ensures r.Success? ==>
        && AsItems(RowsOf(hardwareReqs, targetId)) == AsItems(old(RowsOf(hardwareReqs, sourceId)))
        && AsItems(RowsOf(softwareReqs, targetId)) == AsItems(old(RowsOf(softwareReqs, sourceId)))
        && (forall q :: q != targetId ==> RowsOf(hardwareReqs, q) == old(RowsOf(hardwareReqs, q)))
        && (forall q :: q != targetId ==> RowsOf(softwareReqs, q) == old(RowsOf(softwareReqs, q)))
      ensures r.Success? ==>
        && hardwareReqs == Replaced(old(hardwareReqs), targetId, AsItems(old(RowsOf(hardwareReqs, sourceId))), old(nextHardwareId))
        && softwareReqs == Replaced(old(softwareReqs), targetId, AsItems(old(RowsOf(softwareReqs, sourceId))), old(nextSoftwareId))
        && nextHardwareId == old(nextHardwareId) + |old(RowsOf(hardwareReqs, sourceId))|
        && nextSoftwareId == old(nextSoftwareId) + |old(RowsOf(softwareReqs, sourceId))|
      // The history of the copy: the two replacements' entries, hardware first.
      ensures r.Success? ==>
        history == old(history)
          + RemovedEntries(old(RowsOf(hardwareReqs, targetId)), HardwareItem, userId)
          + AddedEntries(targetId, HardwareItem, AsItems(old(RowsOf(hardwareReqs, sourceId))), userId)
          + RemovedEntries(old(RowsOf(softwareReqs, targetId)), SoftwareItem, userId)
          + AddedEntries(targetId, SoftwareItem, AsItems(old(RowsOf(softwareReqs, sourceId))), userId)
      ensures statuses == old(statuses)
    {
      var sourceHardware := RowsOf(hardwareReqs, sourceId);
      var sourceSoftware := RowsOf(softwareReqs, sourceId);
      if sourceHardware == [] && sourceSoftware == [] {
        return Failure(NothingToCopy);
      }
      RowItemsAcceptable(hardwareReqs, sourceId, nextHardwareId);
      RowItemsAcceptable(softwareReqs, sourceId, nextSoftwareId);
      var copied := SetPositionRequirements(HardwareItem, targetId, AsItems(sourceHardware), userId, hardware, types);
      if copied.Failure? {
        return Failure(copied.error);
      }
      copied := SetPositionRequirements(SoftwareItem, targetId, AsItems(sourceSoftware), userId, hardware, types);
      r := Success(());
    }

    /** `update_requirements_status`: an invalid status is refused before
        the position is looked up; setting the current status changes
        nothing. */
    method UpdateRequirementsStatus(positionId: int, status: Option<string>)
      returns (r: Result<(), RequirementError>)
      modifies this
      ensures !ValidStatus(status) ==> r == Failure(InvalidStatus(status))
      ensures ValidStatus(status) && positionId !in old(statuses) ==> r == Failure(PositionNotFound(positionId))
      ensures r.Success? <==> ValidStatus(status) && positionId in old(statuses)
      ensures r.Failure? ==> unchanged(this)
      ensures r.Success? ==> statuses == old(statuses)[positionId := status] && RequirementsStatus(positionId) == status
      ensures r.Success? && old(statuses)[positionId] == status ==> unchanged(this)
      ensures hardwareReqs == old(hardwareReqs) && softwareReqs == old(softwareReqs) && history == old(history)
      ensures nextHardwareId == old(nextHardwareId) && nextSoftwareId == old(nextSoftwareId)
    {
      if !ValidStatus(status) {
        return Failure(InvalidStatus(status));
      }
      if positionId !in statuses {
        return Failure(PositionNotFound(positionId));
      }
      if statuses[positionId] == status {
        return Success(());
      }
      statuses := statuses[positionId := status];
      r := Success(());
    }

    /** `get_requirements_status`: None for an unknown position as for an
        unset status. */
    function RequirementsStatus(positionId: int): (r: Option<string>)
      reads this
      ensures r.Some? ==> positionId in statuses && statuses[positionId] == r
    {
      if positionId in statuses then statuses[positionId] else None
    }
  }
}

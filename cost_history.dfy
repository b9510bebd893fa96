/** The effective-dated cost history of the budget schema: every
    cost-affecting change of a catalog item closes the item's open row and
    opens a new one, so the costs in force at any date can be read back.
    One row type serves the three history tables; `C` is the cost
    column(s) of the table (a hardware type's `estimated_cost`, a hardware
    item's nullable `estimated_cost`, a software product's
    `cost_per_license` and `total_cost`). */
module CostHistory {
  import opened Wrappers

  /** One history row; `endDate` is None while the row is in force. */
  datatype Row<C> = Row(itemId: int, cost: C, effectiveDate: int, endDate: Option<int>, changedBy: Option<int>)

  /** The budget query for "the value at date x":
      `effective_date <= x AND (end_date IS NULL OR end_date > x)`. */
  predicate ValidAt<C>(r: Row<C>, x: int) {
    r.effectiveDate <= x && (r.endDate.None? || r.endDate.value > x)
  }

  /** `filter_by(<item>_id=itemId, end_date=None)` */
  predicate OpenFor<C>(r: Row<C>, itemId: int) {
    r.itemId == itemId && r.endDate.None?
  }

  /** No item has two open rows. */
  predicate AtMostOneOpen<C>(rows: seq<Row<C>>) {
    forall i, j :: 0 <= i < |rows| && 0 <= j < |rows| && OpenFor(rows[i], rows[j].itemId) && rows[j].endDate.None? ==> i == j
  }

  /** Every open row belongs to an item of the catalog table (ids are
      positions + 1) and carries that item's current cost. */
  predicate Tracks<C(==)>(rows: seq<Row<C>>, current: seq<C>) {
    forall i :: 0 <= i < |rows| && rows[i].endDate.None? ==>
      1 <= rows[i].itemId <= |current| && rows[i].cost == current[rows[i].itemId - 1]
  }

  /** `.first()` of the open-row query: the first open row of the item,
      if any. */
  function OpenIndex<C>(rows: seq<Row<C>>, itemId: int): (r: Option<nat>)
    ensures r.Some? ==> r.value < |rows| && OpenFor(rows[r.value], itemId)
    ensures r.Some? ==> forall i :: 0 <= i < r.value ==> !OpenFor(rows[i], itemId)
    ensures r.None? <==> forall i :: 0 <= i < |rows| ==> !OpenFor(rows[i], itemId)
  {
    if rows == [] then None
    else
      match OpenIndex(rows[..|rows| - 1], itemId)
      case Some(k) => Some(k)
      case None => if OpenFor(rows[|rows| - 1], itemId) then Some(|rows| - 1) else None
  }

  /** The cost the open row of the item states, if it has one. */
  function CurrentCost<C>(rows: seq<Row<C>>, itemId: int): Option<C> {
    match OpenIndex(rows, itemId)
    case Some(k) => Some(rows[k].cost)
    case None => None
  }

  /** `_close_*_cost_history(item)`: the item's open row ends at `now`.
      Only `endDate` of that one row changes; without an open row nothing
      changes. */
  function Closed<C(==)>(rows: seq<Row<C>>, itemId: int, now: int): (r: seq<Row<C>>)
    ensures |r| == |rows|
    ensures forall i :: 0 <= i < |rows| ==> r[i] == rows[i] || (OpenFor(rows[i], itemId) && r[i] == rows[i].(endDate := Some(now)))
    ensures forall i :: 0 <= i < |rows| && !OpenFor(rows[i], itemId) ==> r[i] == rows[i]
    ensures OpenIndex(rows, itemId).None? ==> r == rows
    ensures AtMostOneOpen(rows) ==> forall i :: 0 <= i < |rows| ==> !OpenFor(r[i], itemId)
  {
    match OpenIndex(rows, itemId)
    case None => rows
    case Some(k) => rows[k := rows[k].(endDate := Some(now))]
  }

  /** `_record_*_cost_history(item)`: a new open row from `now` on. */
  function Recorded<C>(rows: seq<Row<C>>, itemId: int, cost: C, now: int, changedBy: Option<int>): seq<Row<C>> {
    rows + [Row(itemId, cost, now, None, changedBy)]
  }

  // ---------------------------------------------------------------- lemmas

  /** Recording the first row of a new item (id one past the table) keeps
      one open row per item, and the open row tells the new item's cost. */
  lemma Opened<C>(rows: seq<Row<C>>, current: seq<C>, cost: C, now: int, changedBy: Option<int>)
    requires AtMostOneOpen(rows) && Tracks(rows, current)
    ensures var r := Recorded(rows, |current| + 1, cost, now, changedBy);
      && AtMostOneOpen(r) && Tracks(r, current + [cost])
      && CurrentCost(r, |current| + 1) == Some(cost)
  {
    var r := Recorded(rows, |current| + 1, cost, now, changedBy);
    assert r[..|rows|] == rows;
    assert OpenIndex(rows, |current| + 1).None? by {
      forall i | 0 <= i < |rows|
        ensures !OpenFor(rows[i], |current| + 1)
      {
      }
    }
  }

  /** Recording the first row of a new item leaves every other item's
      current cost as it was. */
  lemma OpenedLeavesOthers<C>(rows: seq<Row<C>>, current: seq<C>, cost: C, now: int, changedBy: Option<int>)
    requires AtMostOneOpen(rows) && Tracks(rows, current)
    ensures forall id :: id != |current| + 1 ==>
      CurrentCost(Recorded(rows, |current| + 1, cost, now, changedBy), id) == CurrentCost(rows, id)
  {
    var r := Recorded(rows, |current| + 1, cost, now, changedBy);
    assert r[..|rows|] == rows;
  }

  /** A cost change (close, then record) at `now`: afterwards the item's
      only open row is the new one, carrying the new cost, which is in
      force from `now` on; the row it replaced is not in force at any date
      from `now` on; the other items' open rows are untouched. */
  lemma Superseded<C>(rows: seq<Row<C>>, current: seq<C>, itemId: int, cost: C, now: int, changedBy: Option<int>)
    requires AtMostOneOpen(rows) && Tracks(rows, current) && 1 <= itemId <= |current|
    ensures var r := Recorded(Closed(rows, itemId, now), itemId, cost, now, changedBy);
      && AtMostOneOpen(r) && Tracks(r, current[itemId - 1 := cost])
      && CurrentCost(r, itemId) == Some(cost)
      && (forall x :: x >= now ==> ValidAt(r[|rows|], x))
      && (forall i, x :: 0 <= i < |rows| && OpenFor(rows[i], itemId) && x >= now ==> !ValidAt(r[i], x))
      && forall id :: id != itemId ==> CurrentCost(r, id) == CurrentCost(rows, id)
  {
    var c := Closed(rows, itemId, now);
    var r := Recorded(c, itemId, cost, now, changedBy);
    assert r[..|rows|] == c;
    forall id | id != itemId
      ensures CurrentCost(r, id) == CurrentCost(rows, id)
    {
      ClosedKeepsOthers(rows, itemId, id, now);
    }
  }

  /** Closing one item's row leaves every other item's open row where it
      was. */
  lemma ClosedKeepsOthers<C>(rows: seq<Row<C>>, itemId: int, other: int, now: int)
    requires other != itemId
    ensures OpenIndex(Closed(rows, itemId, now), other) == OpenIndex(rows, other)
    ensures CurrentCost(Closed(rows, itemId, now), other) == CurrentCost(rows, other)
  {
    var c := Closed(rows, itemId, now);
    assert forall i :: 0 <= i < |rows| ==> (OpenFor(c[i], other) <==> OpenFor(rows[i], other));
    match OpenIndex(rows, other)
    case None =>
    case Some(k) =>
      assert c[k] == rows[k];
  }
}

/** The HR reconciliation of `app/services/hr_sync_service.py`: the
    departments, divisions, positions and employees an HR system reports
    are diffed by code against the local tables (create what is new,
    update what changed or was inactive, deactivate what is no longer
    reported), and login accounts are then provisioned for the employees.
    Tables are sequences whose ids are positions + 1 (rows are only ever
    soft-deleted); the normalized API records are given as values, with
    `None` for a dictionary key that is absent. */
module HrSync {
  import opened Wrappers
  import opened Seqs
  import opened Text
  import opened OrgModel
  import opened UserModel

  // ------------------------------------------------------------ statistics

  /** The counters one entity sync returns. */
  datatype Stats = Stats(processed: int, created: int, updated: int, deactivated: int, errors: int)

  /** `_new_stats()` */
  const NoStats: Stats := Stats(0, 0, 0, 0, 0)

  /** What processing one API record did. */
  datatype Outcome = Created | Updated | Unchanged | Unresolved

  /** The counters after one more processed record. */
  function Tally(s: Stats, o: Outcome): Stats {
    var s := s.(processed := s.processed + 1);
    match o
    case Created => s.(created := s.created + 1)
    case Updated => s.(updated := s.updated + 1)
    case Unchanged => s
    case Unresolved => s.(errors := s.errors + 1)
  }

  // ------------------------------------------------------ tables keyed by code

  /** `Model.query.filter_by(<code column>=code).first()` */
  function FirstWith<T>(rows: seq<T>, code: string, codeOf: T -> string): (r: Option<nat>)
    ensures r.Some? ==> r.value < |rows| && codeOf(rows[r.value]) == code
    ensures r.Some? ==> forall i :: 0 <= i < r.value ==> codeOf(rows[i]) != code
    ensures r.None? <==> forall i :: 0 <= i < |rows| ==> codeOf(rows[i]) != code
  {
    if rows == [] then None
    else
      match FirstWith(rows[..|rows| - 1], code, codeOf)
      case Some(k) => Some(k)
      case None => if codeOf(rows[|rows| - 1]) == code then Some(|rows| - 1) else None
  }

  /** Two tables whose rows carry the same codes, position by position,
      answer every code lookup alike. */
  lemma {:induction false} FirstWithSameCodes<T>(a: seq<T>, b: seq<T>, code: string, codeOf: T -> string)
    requires |a| == |b| && forall i :: 0 <= i < |a| ==> codeOf(a[i]) == codeOf(b[i])
    ensures FirstWith(a, code, codeOf) == FirstWith(b, code, codeOf)
  {
    if a != [] {
      FirstWithSameCodes(a[..|a| - 1], b[..|b| - 1], code, codeOf);
    }
  }

  /** The unique constraint on the code column. */
  predicate UniqueCodes<T>(rows: seq<T>, codeOf: T -> string) {
    forall i, j :: 0 <= i < j < |rows| ==> codeOf(rows[i]) != codeOf(rows[j])
  }

  /** Replacing a row by one with the same code keeps the codes unique
      and leaves the code lookup of that code where it was. */
  lemma ReplaceRow<T>(rows: seq<T>, k: nat, row: T, codeOf: T -> string)
    requires k < |rows| && codeOf(row) == codeOf(rows[k])
    ensures UniqueCodes(rows, codeOf) ==> UniqueCodes(rows[k := row], codeOf)
    ensures FirstWith(rows[k := row], codeOf(row), codeOf) == FirstWith(rows, codeOf(row), codeOf)
  {
    FirstWithSameCodes(rows[k := row], rows, codeOf(row), codeOf);
  }

  /** Appending a row whose code is new keeps the codes unique and makes
      the appended row the one its code finds. */
  lemma AppendRow<T>(rows: seq<T>, row: T, codeOf: T -> string)
    requires FirstWith(rows, codeOf(row), codeOf).None?
    ensures UniqueCodes(rows, codeOf) ==> UniqueCodes(rows + [row], codeOf)
    ensures FirstWith(rows + [row], codeOf(row), codeOf) == Some(|rows|)
  {
    var r := rows + [row];
    assert r[..|r| - 1] == rows && r[|r| - 1] == row;
    forall i, j | 0 <= i < j < |r| && UniqueCodes(rows, codeOf)
      ensures codeOf(r[i]) != codeOf(r[j])
    {
      if j < |rows| {
        assert r[i] == rows[i] && r[j] == rows[j];
      } else {
        assert r[i] == rows[i];
      }
    }
  }

  /** Autoincrement ids of a table nothing is hard-deleted from. */
  predicate Numbered<T>(rows: seq<T>, idOf: T -> int) {
    forall i :: 0 <= i < |rows| ==> idOf(rows[i]) == i + 1
  }

  // ------------------------------------------------------------ deactivation

  /** An active local row whose code the API did not report. */
  predicate Stale<T>(row: T, codes: set<string>, codeOf: T -> string, activeOf: T -> bool) {
    activeOf(row) && codeOf(row) !in codes
  }

  /** The table after `is_active = False` on every stale row. */
  function Retired<T>(rows: seq<T>, codes: set<string>, codeOf: T -> string, activeOf: T -> bool, retire: T -> T): (r: seq<T>)
    ensures |r| == |rows|
  {
    seq(|rows|, i requires 0 <= i < |rows| =>
      if Stale(rows[i], codes, codeOf, activeOf) then retire(rows[i]) else rows[i])
  }

  /** How many rows are stale. */
  function StaleCount<T>(rows: seq<T>, codes: set<string>, codeOf: T -> string, activeOf: T -> bool): nat {
    if rows == [] then 0
    else
      StaleCount(rows[..|rows| - 1], codes, codeOf, activeOf)
      + if Stale(rows[|rows| - 1], codes, codeOf, activeOf) then 1 else 0
  }

  /** The deactivation loop of every entity sync: it visits the active
      rows and turns off those whose code was not reported, counting
      them. */
  method RetireStale<T>(rows: seq<T>, codes: set<string>, codeOf: T -> string, activeOf: T -> bool, retire: T -> T)
    returns (r: seq<T>, count: nat)
    ensures r == Retired(rows, codes, codeOf, activeOf, retire)
    ensures count == StaleCount(rows, codes, codeOf, activeOf)
  {
    r := rows;
    count := 0;
    var i := 0;
    while i < |rows|
      invariant 0 <= i <= |rows| && |r| == |rows|
      invariant forall k :: 0 <= k < i ==> r[k] == Retired(rows, codes, codeOf, activeOf, retire)[k]
      invariant forall k :: i <= k < |rows| ==> r[k] == rows[k]
      invariant count == StaleCount(rows[..i], codes, codeOf, activeOf)
    {
      assert rows[..i + 1][..i] == rows[..i];
      if Stale(r[i], codes, codeOf, activeOf) {
        r := r[i := retire(r[i])];
        count := count + 1;
      }
      i := i + 1;
    }
    assert rows[..|rows|] == rows;
  }

  /** What deactivation does to the rows an entity loop left alone: a row
      that was stale before the loop is turned off, and an active row
      afterwards carries a reported code. */
  lemma RetiredRule<T>(before: seq<T>, after: seq<T>, codes: set<string>, codeOf: T -> string, activeOf: T -> bool, retire: T -> T)
    requires forall x :: codeOf(retire(x)) == codeOf(x) && !activeOf(retire(x))
    requires |before| <= |after|
    requires forall i :: 0 <= i < |before| && codeOf(before[i]) !in codes ==> after[i] == before[i]
    ensures forall i :: 0 <= i < |before| && Stale(before[i], codes, codeOf, activeOf) ==>
      Retired(after, codes, codeOf, activeOf, retire)[i] == retire(before[i])
    ensures forall i :: 0 <= i < |after| ==> codeOf(Retired(after, codes, codeOf, activeOf, retire)[i]) == codeOf(after[i])
    ensures forall i :: 0 <= i < |after| && activeOf(Retired(after, codes, codeOf, activeOf, retire)[i]) ==> codeOf(after[i]) in codes
    ensures forall i :: 0 <= i < |after| && codeOf(after[i]) in codes ==> Retired(after, codes, codeOf, activeOf, retire)[i] == after[i]
  {
  }

  /** With no stale row, deactivation changes and counts nothing. */
  lemma {:induction false} NothingStale<T>(rows: seq<T>, codes: set<string>, codeOf: T -> string, activeOf: T -> bool, retire: T -> T)
    requires forall i :: 0 <= i < |rows| ==> !Stale(rows[i], codes, codeOf, activeOf)
    ensures Retired(rows, codes, codeOf, activeOf, retire) == rows
    ensures StaleCount(rows, codes, codeOf, activeOf) == 0
  {
    if rows != [] {
      NothingStale(rows[..|rows| - 1], codes, codeOf, activeOf, retire);
    }
  }

  /** Deactivation keeps the ids and the codes of every row, so the
      table stays numbered and its codes stay unique; the row a reported
      code finds is the one it found before. */
  lemma RetiredKeeps<T>(rows: seq<T>, codes: set<string>, codeOf: T -> string, activeOf: T -> bool, retire: T -> T, idOf: T -> int)
    requires forall x :: codeOf(retire(x)) == codeOf(x) && idOf(retire(x)) == idOf(x)
    ensures Numbered(rows, idOf) ==> Numbered(Retired(rows, codes, codeOf, activeOf, retire), idOf)
    ensures UniqueCodes(rows, codeOf) ==> UniqueCodes(Retired(rows, codes, codeOf, activeOf, retire), codeOf)
    ensures forall code :: code in codes ==>
      FirstWith(Retired(rows, codes, codeOf, activeOf, retire), code, codeOf) == FirstWith(rows, code, codeOf)
    ensures forall i :: 0 <= i < |rows| && codeOf(rows[i]) in codes ==> Retired(rows, codes, codeOf, activeOf, retire)[i] == rows[i]
  {
    var u := Retired(rows, codes, codeOf, activeOf, retire);
    assert forall i :: 0 <= i < |rows| ==> codeOf(u[i]) == codeOf(rows[i]) && idOf(u[i]) == idOf(rows[i]);
    forall code | code in codes
      ensures FirstWith(u, code, codeOf) == FirstWith(rows, code, codeOf)
    {
      FirstWithSameCodes(u, rows, code, codeOf);
    }
  }

  // ------------------------------------------------------------- departments

  /** A normalized department from the API client. */
  datatype DepartmentRecord = DepartmentRecord(code: Option<string>, name: Option<string>) {
    /** `dept_data.get("department_code", "")` */
    function Code(): string { code.GetOr("") }
  }

  function DepartmentCode(d: Department): string { d.code }
  function DepartmentActive(d: Department): bool { d.isActive }
  function DepartmentId(d: Department): int { d.id }
  function RetireDepartment(d: Department): Department { d.(isActive := false) }

  /** The codes a department list reports (`api_codes`). */
  function DepartmentCodes(recs: seq<DepartmentRecord>): set<string> {
    set rec | rec in recs :: rec.Code()
  }

  /** The code has an active department (the first row with the code). */
  predicate DepartmentPresent(ds: seq<Department>, code: string) {
    match FirstWith(ds, code, DepartmentCode)
    case None => false
    case Some(k) => ds[k].isActive
  }

  /** After the record was processed: its code has an active row, and
      that row carries the record's name when the record gives one. */
  predicate DepartmentSettled(ds: seq<Department>, rec: DepartmentRecord) {
    DepartmentPresent(ds, rec.Code())
    && (rec.name.Some? ==> ds[FirstWith(ds, rec.Code(), DepartmentCode).value].name == rec.name.value)
  }

  /** One iteration of the department loop: an unknown code is created
      (the name defaulting to the code); a known one is renamed and
      reactivated when its name differs or it is inactive. */
  function DepartmentStep(ds: seq<Department>, rec: DepartmentRecord): (r: (seq<Department>, Outcome))
    ensures r.1 != Unresolved
    ensures r.1 == Created <==> FirstWith(ds, rec.Code(), DepartmentCode).None?
    ensures r.1 == Created ==> r.0 == ds + [Department(|ds| + 1, rec.Code(), rec.name.GetOr(rec.Code()), true)]
    ensures r.1 != Created ==> |r.0| == |ds|
    ensures r.1 == Unchanged <==> r.0 == ds
    ensures forall i :: 0 <= i < |ds| ==> r.0[i].id == ds[i].id && r.0[i].code == ds[i].code
    ensures forall i :: 0 <= i < |ds| && ds[i].code != rec.Code() ==> r.0[i] == ds[i]
    ensures UniqueCodes(ds, DepartmentCode) ==> UniqueCodes(r.0, DepartmentCode)
    ensures DepartmentSettled(r.0, rec)
  {
    var code := rec.Code();
    match FirstWith(ds, code, DepartmentCode)
    case None =>
      var row := Department(|ds| + 1, code, rec.name.GetOr(code), true);
      AppendRow(ds, row, DepartmentCode);
      (ds + [row], Created)
    case Some(k) =>
      var name := rec.name.GetOr(ds[k].name);
      if ds[k].name != name || !ds[k].isActive then
        var row := ds[k].(name := name, isActive := true);
        ReplaceRow(ds, k, row, DepartmentCode);
        (ds[k := row], Updated)
      else (ds, Unchanged)
  }

  /** The department loop over the first records, with its counters. */
  function DepartmentsSynced(ds: seq<Department>, recs: seq<DepartmentRecord>): (r: (seq<Department>, Stats))
    ensures r.1.processed == |recs| && r.1.errors == 0 && r.1.deactivated == 0
    ensures |ds| <= |r.0| && r.1.created == |r.0| - |ds|
    ensures 0 <= r.1.updated && r.1.created + r.1.updated <= |recs|
    ensures Numbered(ds, DepartmentId) ==> Numbered(r.0, DepartmentId)
    ensures UniqueCodes(ds, DepartmentCode) ==> UniqueCodes(r.0, DepartmentCode)
  {
    if recs == [] then (ds, NoStats)
    else
      var front := DepartmentsSynced(ds, recs[..|recs| - 1]);
      var step := DepartmentStep(front.0, recs[|recs| - 1]);
      (step.0, Tally(front.1, step.1))
  }

  /** The loop over one more record is one more step. */
  lemma DepartmentsSyncedSnoc(ds: seq<Department>, recs: seq<DepartmentRecord>, i: int)
    requires 0 <= i < |recs|
    ensures DepartmentsSynced(ds, recs[..i + 1])
      == (DepartmentStep(DepartmentsSynced(ds, recs[..i]).0, recs[i]).0,
          Tally(DepartmentsSynced(ds, recs[..i]).1, DepartmentStep(DepartmentsSynced(ds, recs[..i]).0, recs[i]).1))
  {
    var xs := recs[..i + 1];
    assert xs[..|xs| - 1] == recs[..i] && xs[|xs| - 1] == recs[i];
  }

  /** The codes of one more record. */
  lemma DepartmentCodesSnoc(recs: seq<DepartmentRecord>, i: int)
    requires 0 <= i < |recs|
    ensures DepartmentCodes(recs[..i + 1]) == DepartmentCodes(recs[..i]) + {recs[i].Code()}
  {
    assert recs[..i + 1] == recs[..i] + [recs[i]];
  }

  /** Rows that existed before keep their id and code, and a row whose
      code no record reports is untouched. */
  lemma {:induction false} DepartmentsSyncedFrame(ds: seq<Department>, recs: seq<DepartmentRecord>)
    ensures forall i :: 0 <= i < |ds| ==> DepartmentsSynced(ds, recs).0[i].id == ds[i].id && DepartmentsSynced(ds, recs).0[i].code == ds[i].code
    ensures forall i :: 0 <= i < |ds| && ds[i].code !in DepartmentCodes(recs) ==> DepartmentsSynced(ds, recs).0[i] == ds[i]
  {
    if recs != [] {
      var front := recs[..|recs| - 1];
      DepartmentsSyncedFrame(ds, front);
      assert forall rec :: rec in front ==> rec in recs;
    }
  }

  /** `_sync_departments`: the loop, then (only when the API reported at
      least one code) the deactivation of every active department whose
      code was not reported. */
  function DepartmentSync(ds: seq<Department>, recs: seq<DepartmentRecord>): (r: (seq<Department>, Stats))
    ensures r.1.processed == |recs| && r.1.errors == 0
    ensures Numbered(ds, DepartmentId) ==> Numbered(r.0, DepartmentId)
    ensures UniqueCodes(ds, DepartmentCode) ==> UniqueCodes(r.0, DepartmentCode)
  {
    var (t, s) := DepartmentsSynced(ds, recs);
    var codes := DepartmentCodes(recs);
    if codes == {} then (t, s)
    else
      RetiredKeeps(t, codes, DepartmentCode, DepartmentActive, RetireDepartment, DepartmentId);
      (Retired(t, codes, DepartmentCode, DepartmentActive, RetireDepartment),
       s.(deactivated := StaleCount(t, codes, DepartmentCode, DepartmentActive)))
  }

  /** Processing a record leaves the row of every other code where it was. */
  lemma DepartmentStepKeeps(ds: seq<Department>, rec: DepartmentRecord, other: DepartmentRecord)
    requires other.Code() != rec.Code()
    ensures FirstWith(DepartmentStep(ds, rec).0, other.Code(), DepartmentCode) == FirstWith(ds, other.Code(), DepartmentCode)
    ensures DepartmentPresent(ds, other.Code()) ==> DepartmentPresent(DepartmentStep(ds, rec).0, other.Code())
    ensures DepartmentSettled(ds, other) ==> DepartmentSettled(DepartmentStep(ds, rec).0, other)
  {
    var r := DepartmentStep(ds, rec).0;
    if |r| == |ds| {
      FirstWithSameCodes(r, ds, other.Code(), DepartmentCode);
    } else {
      assert r[..|r| - 1] == ds;
    }
  }

  /** The record is the last one reporting its code. */
  predicate LastOfCode(recs: seq<DepartmentRecord>, j: int)
    requires 0 <= j < |recs|
  {
    forall k :: j < k < |recs| ==> recs[k].Code() != recs[j].Code()
  }

  /** Every reported code is present, and the last record of each code is
      settled. */
  predicate DepartmentsReflect(ds: seq<Department>, recs: seq<DepartmentRecord>) {
    (forall j :: 0 <= j < |recs| ==> DepartmentPresent(ds, recs[j].Code()))
    && forall j :: 0 <= j < |recs| && LastOfCode(recs, j) ==> DepartmentSettled(ds, recs[j])
  }

  /** One more iteration keeps the table reflecting the records so far. */
  lemma DepartmentStepReflects(ds: seq<Department>, recs: seq<DepartmentRecord>, rec: DepartmentRecord)
    requires DepartmentsReflect(ds, recs)
    ensures DepartmentsReflect(DepartmentStep(ds, rec).0, recs + [rec])
  {
    var t := DepartmentStep(ds, rec).0;
    var all := recs + [rec];
    forall j | 0 <= j < |all|
      ensures DepartmentPresent(t, all[j].Code())
    {
      if all[j].Code() != rec.Code() {
        DepartmentStepKeeps(ds, rec, all[j]);
      }
    }
    forall j | 0 <= j < |all| && LastOfCode(all, j)
      ensures DepartmentSettled(t, all[j])
    {
      if j < |recs| {
        assert all[|recs|] == rec && all[j] == recs[j];
        assert forall k :: j < k < |recs| ==> all[k] == recs[k];
        assert LastOfCode(recs, j);
        DepartmentStepKeeps(ds, rec, all[j]);
      }
    }
  }

  /** After the department loop every reported code has an active row,
      and the last record of each code has set its name. */
  lemma {:induction false} DepartmentsSyncedReflect(ds: seq<Department>, recs: seq<DepartmentRecord>)
    ensures DepartmentsReflect(DepartmentsSynced(ds, recs).0, recs)
  {
    if recs != [] {
      var n := |recs| - 1;
      DepartmentsSyncedReflect(ds, recs[..n]);
      DepartmentStepReflects(DepartmentsSynced(ds, recs[..n]).0, recs[..n], recs[n]);
      assert recs[..n] + [recs[n]] == recs;
    }
  }

  /** After `_sync_departments` every reported code has an active row, and
      the last record of each code has set its name. */
  lemma DepartmentSyncReflects(ds: seq<Department>, recs: seq<DepartmentRecord>)
    ensures DepartmentsReflect(DepartmentSync(ds, recs).0, recs)
  {
    DepartmentsSyncedReflect(ds, recs);
    var t := DepartmentsSynced(ds, recs).0;
    var codes := DepartmentCodes(recs);
    if codes != {} {
      RetiredKeeps(t, codes, DepartmentCode, DepartmentActive, RetireDepartment, DepartmentId);
      DepartmentRetiredReflects(t, recs, codes);
    }
  }

  /** Deactivating the unreported departments keeps every reported code
      present and settled. */
  lemma DepartmentRetiredReflects(t: seq<Department>, recs: seq<DepartmentRecord>, codes: set<string>)
    requires codes == DepartmentCodes(recs) && DepartmentsReflect(t, recs)
    requires forall code :: code in codes ==>
      FirstWith(Retired(t, codes, DepartmentCode, DepartmentActive, RetireDepartment), code, DepartmentCode) == FirstWith(t, code, DepartmentCode)
    requires forall i :: 0 <= i < |t| && t[i].code in codes ==> Retired(t, codes, DepartmentCode, DepartmentActive, RetireDepartment)[i] == t[i]
    ensures DepartmentsReflect(Retired(t, codes, DepartmentCode, DepartmentActive, RetireDepartment), recs)
  {
    var u := Retired(t, codes, DepartmentCode, DepartmentActive, RetireDepartment);
    forall j | 0 <= j < |recs|
      ensures DepartmentPresent(u, recs[j].Code())
      ensures LastOfCode(recs, j) ==> DepartmentSettled(u, recs[j])
    {
      assert recs[j].Code() in codes;
    }
  }

  /** Deactivation: with a non-empty department list every department
      that was active and is not reported ends inactive, and every
      department active afterwards is reported; an empty list changes
      nothing and counts nothing. */
  lemma DepartmentSyncDeactivates(ds: seq<Department>, recs: seq<DepartmentRecord>)
    ensures recs == [] ==> DepartmentSync(ds, recs) == (ds, NoStats)
    ensures recs != [] ==> forall i :: 0 <= i < |ds| && ds[i].isActive && ds[i].code !in DepartmentCodes(recs) ==>
      DepartmentSync(ds, recs).0[i] == ds[i].(isActive := false)
    ensures recs != [] ==> forall i :: 0 <= i < |DepartmentSync(ds, recs).0| && DepartmentSync(ds, recs).0[i].isActive ==>
      DepartmentSync(ds, recs).0[i].code in DepartmentCodes(recs)
  {
    var t := DepartmentsSynced(ds, recs).0;
    var codes := DepartmentCodes(recs);
    if recs != [] {
      assert recs[0].Code() in codes;
      DepartmentsSyncedFrame(ds, recs);
      RetiredRule(ds, t, codes, DepartmentCode, DepartmentActive, RetireDepartment);
    }
  }

  /** A table where every record is already settled goes through the loop
      unchanged, each record counting as processed and nothing else. */
  lemma {:induction false} DepartmentsSyncedSettled(ds: seq<Department>, recs: seq<DepartmentRecord>)
    requires forall j :: 0 <= j < |recs| ==> DepartmentSettled(ds, recs[j])
    ensures DepartmentsSynced(ds, recs) == (ds, Stats(|recs|, 0, 0, 0, 0))
  {
    if recs != [] {
      var n := |recs| - 1;
      DepartmentsSyncedSettled(ds, recs[..n]);
      assert DepartmentSettled(ds, recs[n]);
    }
  }

  /** Re-running `_sync_departments` on the same records (each code
      reported once) creates, updates and deactivates nothing. */
  lemma DepartmentSyncIdempotent(ds: seq<Department>, recs: seq<DepartmentRecord>)
    requires forall i, j :: 0 <= i < j < |recs| ==> recs[i].Code() != recs[j].Code()
    ensures DepartmentSync(DepartmentSync(ds, recs).0, recs) == (DepartmentSync(ds, recs).0, Stats(|recs|, 0, 0, 0, 0))
  {
    var t := DepartmentSync(ds, recs).0;
    DepartmentSyncReflects(ds, recs);
    assert forall j :: 0 <= j < |recs| ==> LastOfCode(recs, j);
    DepartmentsSyncedSettled(t, recs);
    DepartmentSyncDeactivates(ds, recs);
    var codes := DepartmentCodes(recs);
    if recs != [] {
      assert recs[0].Code() in codes;
      NothingStale(t, codes, DepartmentCode, DepartmentActive, RetireDepartment);
    }
  }

  // --------------------------------------------------------------- divisions

  /** A normalized division from the API client; `departmentCode` names
      its parent. */
  datatype DivisionRecord = DivisionRecord(code: Option<string>, name: Option<string>, departmentCode: Option<string>) {
    /** `div_data.get("division_code", "")` */
    function Code(): string { code.GetOr("") }
    /** `div_data.get("department_code", "")` */
    function ParentCode(): string { departmentCode.GetOr("") }
  }

  function DivisionCode(v: Division): string { v.code }
  function DivisionActive(v: Division): bool { v.isActive }
  function DivisionId(v: Division): int { v.id }
  function RetireDivision(v: Division): Division { v.(isActive := false) }

  function DivisionCodes(recs: seq<DivisionRecord>): set<string> {
    set rec | rec in recs :: rec.Code()
  }

  /** How many of the records name a parent department that does not
      exist. */
  function DivisionOrphans(ds: seq<Department>, recs: seq<DivisionRecord>): nat {
    if recs == [] then 0
    else
      DivisionOrphans(ds, recs[..|recs| - 1])
      + if FirstWith(ds, recs[|recs| - 1].ParentCode(), DepartmentCode).None? then 1 else 0
  }

  /** After a record with a resolvable parent was processed: its code has
      an active row under that parent, carrying the record's name when the
      record gives one. */
  predicate DivisionSettled(ds: seq<Department>, vs: seq<Division>, rec: DivisionRecord) {
    match FirstWith(ds, rec.ParentCode(), DepartmentCode)
    case None => true
    case Some(p) =>
      match FirstWith(vs, rec.Code(), DivisionCode)
      case None => false
      case Some(k) =>
        vs[k].isActive && vs[k].departmentId == ds[p].id && (rec.name.Some? ==> vs[k].name == rec.name.value)
  }

  /** One iteration of the division loop: a record whose parent department
      is unknown is skipped and counted as an error; otherwise an unknown
      code is created and a known one is updated when its name or parent
      differs or it is inactive. */
  function DivisionStep(ds: seq<Department>, vs: seq<Division>, rec: DivisionRecord): (r: (seq<Division>, Outcome))
    ensures r.1 == Unresolved <==> FirstWith(ds, rec.ParentCode(), DepartmentCode).None?
    ensures r.1 == Unresolved ==> r.0 == vs
    ensures r.1 == Created <==> r.1 != Unresolved && FirstWith(vs, rec.Code(), DivisionCode).None?
    ensures r.1 == Created ==> (
      r.0 == vs + [Division(|vs| + 1, rec.Code(), rec.name.GetOr(rec.Code()),
                            ds[FirstWith(ds, rec.ParentCode(), DepartmentCode).value].id, true)])
    ensures r.1 != Created ==> |r.0| == |vs|
    ensures r.1 == Unchanged ==> r.0 == vs
    ensures r.1 == Updated ==> r.0 != vs
    ensures forall i :: 0 <= i < |vs| ==> r.0[i].id == vs[i].id && r.0[i].code == vs[i].code
    ensures forall i :: 0 <= i < |vs| && vs[i].code != rec.Code() ==> r.0[i] == vs[i]
    ensures UniqueCodes(vs, DivisionCode) ==> UniqueCodes(r.0, DivisionCode)
    ensures DivisionSettled(ds, r.0, rec)
  {
    match FirstWith(ds, rec.ParentCode(), DepartmentCode)
    case None => (vs, Unresolved)
    case Some(p) =>
      var code := rec.Code();
      match FirstWith(vs, code, DivisionCode)
      case None =>
        var row := Division(|vs| + 1, code, rec.name.GetOr(code), ds[p].id, true);
        AppendRow(vs, row, DivisionCode);
        (vs + [row], Created)
      case Some(k) =>
        var name := rec.name.GetOr(vs[k].name);
        if vs[k].name != name || vs[k].departmentId != ds[p].id || !vs[k].isActive then
          var row := vs[k].(name := name, departmentId := ds[p].id, isActive := true);
          ReplaceRow(vs, k, row, DivisionCode);
          (vs[k := row], Updated)
        else (vs, Unchanged)
  }

  /** The division loop over the first records, with its counters. */
  function DivisionsSynced(ds: seq<Department>, vs: seq<Division>, recs: seq<DivisionRecord>): (r: (seq<Division>, Stats))
    ensures r.1.processed == |recs| && r.1.deactivated == 0
    ensures r.1.errors == DivisionOrphans(ds, recs)
    ensures |vs| <= |r.0| && r.1.created == |r.0| - |vs|
    ensures 0 <= r.1.updated && r.1.created + r.1.updated + r.1.errors <= |recs|
    ensures Numbered(vs, DivisionId) ==> Numbered(r.0, DivisionId)
    ensures UniqueCodes(vs, DivisionCode) ==> UniqueCodes(r.0, DivisionCode)
  {
    if recs == [] then (vs, NoStats)
    else
      var front := DivisionsSynced(ds, vs, recs[..|recs| - 1]);
      var step := DivisionStep(ds, front.0, recs[|recs| - 1]);
      (step.0, Tally(front.1, step.1))
  }

  /** The loop over one more record is one more step. */
  lemma DivisionsSyncedSnoc(ds: seq<Department>, vs: seq<Division>, recs: seq<DivisionRecord>, i: int)
    requires 0 <= i < |recs|
    ensures DivisionsSynced(ds, vs, recs[..i + 1])
      == (DivisionStep(ds, DivisionsSynced(ds, vs, recs[..i]).0, recs[i]).0,
          Tally(DivisionsSynced(ds, vs, recs[..i]).1, DivisionStep(ds, DivisionsSynced(ds, vs, recs[..i]).0, recs[i]).1))
  {
    var xs := recs[..i + 1];
    assert xs[..|xs| - 1] == recs[..i] && xs[|xs| - 1] == recs[i];
  }

  /** The codes of one more record. */
  lemma DivisionCodesSnoc(recs: seq<DivisionRecord>, i: int)
    requires 0 <= i < |recs|
    ensures DivisionCodes(recs[..i + 1]) == DivisionCodes(recs[..i]) + {recs[i].Code()}
  {
    assert recs[..i + 1] == recs[..i] + [recs[i]];
  }

  /** Rows that existed before keep their id and code, and a row whose
      code no record reports is untouched. */
  lemma {:induction false} DivisionsSyncedFrame(ds: seq<Department>, vs: seq<Division>, recs: seq<DivisionRecord>)
    ensures forall i :: 0 <= i < |vs| ==> DivisionsSynced(ds, vs, recs).0[i].id == vs[i].id && DivisionsSynced(ds, vs, recs).0[i].code == vs[i].code
    ensures forall i :: 0 <= i < |vs| && vs[i].code !in DivisionCodes(recs) ==> DivisionsSynced(ds, vs, recs).0[i] == vs[i]
  {
    if recs != [] {
      var front := recs[..|recs| - 1];
      DivisionsSyncedFrame(ds, vs, front);
      assert forall rec :: rec in front ==> rec in recs;
    }
  }

  /** `_sync_divisions`: the loop, then (only when the API reported at
      least one code) the deactivation of every active division whose code
      was not reported, whether or not its record could be resolved. */
  function DivisionSync(ds: seq<Department>, vs: seq<Division>, recs: seq<DivisionRecord>): (r: (seq<Division>, Stats))
    ensures r.1.processed == |recs| && r.1.errors == DivisionOrphans(ds, recs)
    ensures Numbered(vs, DivisionId) ==> Numbered(r.0, DivisionId)
    ensures UniqueCodes(vs, DivisionCode) ==> UniqueCodes(r.0, DivisionCode)
  {
    var (t, s) := DivisionsSynced(ds, vs, recs);
    var codes := DivisionCodes(recs);
    if codes == {} then (t, s)
    else
      RetiredKeeps(t, codes, DivisionCode, DivisionActive, RetireDivision, DivisionId);
      (Retired(t, codes, DivisionCode, DivisionActive, RetireDivision),
       s.(deactivated := StaleCount(t, codes, DivisionCode, DivisionActive)))
  }

  /** Deactivation of divisions, as for departments: with a non-empty list
      every unreported active division ends inactive and every active one
      is reported; an empty list changes and counts nothing. */
  lemma DivisionSyncDeactivates(ds: seq<Department>, vs: seq<Division>, recs: seq<DivisionRecord>)
    ensures recs == [] ==> DivisionSync(ds, vs, recs) == (vs, NoStats)
    ensures recs != [] ==> forall i :: 0 <= i < |vs| && vs[i].isActive && vs[i].code !in DivisionCodes(recs) ==>
      DivisionSync(ds, vs, recs).0[i] == vs[i].(isActive := false)
    ensures recs != [] ==> forall i :: 0 <= i < |DivisionSync(ds, vs, recs).0| && DivisionSync(ds, vs, recs).0[i].isActive ==>
      DivisionSync(ds, vs, recs).0[i].code in DivisionCodes(recs)
  {
    var t := DivisionsSynced(ds, vs, recs).0;
    var codes := DivisionCodes(recs);
    if recs != [] {
      assert recs[0].Code() in codes;
      DivisionsSyncedFrame(ds, vs, recs);
      RetiredRule(vs, t, codes, DivisionCode, DivisionActive, RetireDivision);
    }
  }

  // --------------------------------------------------------------- positions

  /** A normalized position from the API client; `divisionCode` names its
      parent. */
  datatype PositionRecord = PositionRecord(
    code: Option<string>, title: Option<string>, divisionCode: Option<string>, authorizedCount: Option<int>)
  {
    /** `pos_data.get("position_code", "")` */
    function Code(): string { code.GetOr("") }
    /** `pos_data.get("division_code", "")` */
    function ParentCode(): string { divisionCode.GetOr("") }
    /** `pos_data.get("authorized_count", 1)` */
    function Headcount(): int { authorizedCount.GetOr(1) }
  }

  function PositionCode(p: Position): string { p.code }
  function PositionActive(p: Position): bool { p.isActive }
  function PositionId(p: Position): int { p.id }
  function RetirePosition(p: Position): Position { p.(isActive := false) }

  function PositionCodes(recs: seq<PositionRecord>): set<string> {
    set rec | rec in recs :: rec.Code()
  }

  /** How many of the records name a parent division that does not exist. */
  function PositionOrphans(vs: seq<Division>, recs: seq<PositionRecord>): nat {
    if recs == [] then 0
    else
      PositionOrphans(vs, recs[..|recs| - 1])
      + if FirstWith(vs, recs[|recs| - 1].ParentCode(), DivisionCode).None? then 1 else 0
  }

  /** After a record with a resolvable parent was processed: its code has
      an active row under that parent with the record's headcount, and the
      record's title when it gives one. */
  predicate PositionSettled(vs: seq<Division>, ps: seq<Position>, rec: PositionRecord) {
    match FirstWith(vs, rec.ParentCode(), DivisionCode)
    case None => true
    case Some(p) =>
      match FirstWith(ps, rec.Code(), PositionCode)
      case None => false
      case Some(k) =>
        ps[k].isActive && ps[k].divisionId == vs[p].id && ps[k].authorizedCount == rec.Headcount()
        && (rec.title.Some? ==> ps[k].title == rec.title.value)
  }

  /** One iteration of the position loop: a record whose parent division
      is unknown is skipped and counted as an error; otherwise an unknown
      code is created (headcount 1 when the record gives none) and a known
      one is updated when its title, parent or headcount differs or it is
      inactive. */
  function PositionStep(vs: seq<Division>, ps: seq<Position>, rec: PositionRecord): (r: (seq<Position>, Outcome))
    ensures r.1 == Unresolved <==> FirstWith(vs, rec.ParentCode(), DivisionCode).None?
    ensures r.1 == Unresolved ==> r.0 == ps
    ensures r.1 == Created <==> r.1 != Unresolved && FirstWith(ps, rec.Code(), PositionCode).None?
    ensures r.1 == Created ==> (
      r.0 == ps + [Position(|ps| + 1, rec.Code(), rec.title.GetOr(rec.Code()),
                            vs[FirstWith(vs, rec.ParentCode(), DivisionCode).value].id, rec.Headcount(), true)])
    ensures r.1 != Created ==> |r.0| == |ps|
    ensures r.1 == Unchanged ==> r.0 == ps
    ensures r.1 == Updated ==> r.0 != ps
    ensures forall i :: 0 <= i < |ps| ==> r.0[i].id == ps[i].id && r.0[i].code == ps[i].code
    ensures forall i :: 0 <= i < |ps| && ps[i].code != rec.Code() ==> r.0[i] == ps[i]
    ensures UniqueCodes(ps, PositionCode) ==> UniqueCodes(r.0, PositionCode)
    ensures PositionSettled(vs, r.0, rec)
  {
    match FirstWith(vs, rec.ParentCode(), DivisionCode)
    case None => (ps, Unresolved)
    case Some(p) =>
      var code := rec.Code();
      var count := rec.Headcount();
      match FirstWith(ps, code, PositionCode)
      case None =>
        var row := Position(|ps| + 1, code, rec.title.GetOr(code), vs[p].id, count, true);
        AppendRow(ps, row, PositionCode);
        (ps + [row], Created)
      case Some(k) =>
        var title := rec.title.GetOr(ps[k].title);
        if ps[k].title != title || ps[k].divisionId != vs[p].id || ps[k].authorizedCount != count || !ps[k].isActive then
          var row := ps[k].(title := title, divisionId := vs[p].id, authorizedCount := count, isActive := true);
          ReplaceRow(ps, k, row, PositionCode);
          (ps[k := row], Updated)
        else (ps, Unchanged)
  }

  /** The position loop over the first records, with its counters. */
  function PositionsSynced(vs: seq<Division>, ps: seq<Position>, recs: seq<PositionRecord>): (r: (seq<Position>, Stats))
    ensures r.1.processed == |recs| && r.1.deactivated == 0
    ensures r.1.errors == PositionOrphans(vs, recs)
    ensures |ps| <= |r.0| && r.1.created == |r.0| - |ps|
    ensures 0 <= r.1.updated && r.1.created + r.1.updated + r.1.errors <= |recs|
    ensures Numbered(ps, PositionId) ==> Numbered(r.0, PositionId)
    ensures UniqueCodes(ps, PositionCode) ==> UniqueCodes(r.0, PositionCode)
  {
    if recs == [] then (ps, NoStats)
    else
      var front := PositionsSynced(vs, ps, recs[..|recs| - 1]);
      var step := PositionStep(vs, front.0, recs[|recs| - 1]);
      (step.0, Tally(front.1, step.1))
  }

  /** The loop over one more record is one more step. */
  lemma PositionsSyncedSnoc(vs: seq<Division>, ps: seq<Position>, recs: seq<PositionRecord>, i: int)
    requires 0 <= i < |recs|
    ensures PositionsSynced(vs, ps, recs[..i + 1])
      == (PositionStep(vs, PositionsSynced(vs, ps, recs[..i]).0, recs[i]).0,
          Tally(PositionsSynced(vs, ps, recs[..i]).1, PositionStep(vs, PositionsSynced(vs, ps, recs[..i]).0, recs[i]).1))
  {
    var xs := recs[..i + 1];
    assert xs[..|xs| - 1] == recs[..i] && xs[|xs| - 1] == recs[i];
  }

  /** The codes of one more record. */
  lemma PositionCodesSnoc(recs: seq<PositionRecord>, i: int)
    requires 0 <= i < |recs|
    ensures PositionCodes(recs[..i + 1]) == PositionCodes(recs[..i]) + {recs[i].Code()}
  {
    assert recs[..i + 1] == recs[..i] + [recs[i]];
  }

  /** Rows that existed before keep their id and code, and a row whose
      code no record reports is untouched. */
  lemma {:induction false} PositionsSyncedFrame(vs: seq<Division>, ps: seq<Position>, recs: seq<PositionRecord>)
    ensures forall i :: 0 <= i < |ps| ==> PositionsSynced(vs, ps, recs).0[i].id == ps[i].id && PositionsSynced(vs, ps, recs).0[i].code == ps[i].code
    ensures forall i :: 0 <= i < |ps| && ps[i].code !in PositionCodes(recs) ==> PositionsSynced(vs, ps, recs).0[i] == ps[i]
  {
    if recs != [] {
      var front := recs[..|recs| - 1];
      PositionsSyncedFrame(vs, ps, front);
      assert forall rec :: rec in front ==> rec in recs;
    }
  }

  /** `_sync_positions`: the loop, then (only when the API reported at
      least one code) the deactivation of every active position whose code
      was not reported. */
  function PositionSync(vs: seq<Division>, ps: seq<Position>, recs: seq<PositionRecord>): (r: (seq<Position>, Stats))
    ensures r.1.processed == |recs| && r.1.errors == PositionOrphans(vs, recs)
    ensures Numbered(ps, PositionId) ==> Numbered(r.0, PositionId)
    ensures UniqueCodes(ps, PositionCode) ==> UniqueCodes(r.0, PositionCode)
  {
    var (t, s) := PositionsSynced(vs, ps, recs);
    var codes := PositionCodes(recs);
    if codes == {} then (t, s)
    else
      RetiredKeeps(t, codes, PositionCode, PositionActive, RetirePosition, PositionId);
      (Retired(t, codes, PositionCode, PositionActive, RetirePosition),
       s.(deactivated := StaleCount(t, codes, PositionCode, PositionActive)))
  }

  /** Deactivation of positions, as for departments. */
  lemma PositionSyncDeactivates(vs: seq<Division>, ps: seq<Position>, recs: seq<PositionRecord>)
    ensures recs == [] ==> PositionSync(vs, ps, recs) == (ps, NoStats)
    ensures recs != [] ==> forall i :: 0 <= i < |ps| && ps[i].isActive && ps[i].code !in PositionCodes(recs) ==>
      PositionSync(vs, ps, recs).0[i] == ps[i].(isActive := false)
    ensures recs != [] ==> forall i :: 0 <= i < |PositionSync(vs, ps, recs).0| && PositionSync(vs, ps, recs).0[i].isActive ==>
      PositionSync(vs, ps, recs).0[i].code in PositionCodes(recs)
  {
    var t := PositionsSynced(vs, ps, recs).0;
    var codes := PositionCodes(recs);
    if recs != [] {
      assert recs[0].Code() in codes;
      PositionsSyncedFrame(vs, ps, recs);
      RetiredRule(ps, t, codes, PositionCode, PositionActive, RetirePosition);
    }
  }

  // --------------------------------------------------------------- employees

  /** A normalized employee from the API client: the HR employee number,
      the names, the email (the outer `None` when the key is absent, the
      inner one when its value is null) and the code of the position. */
  datatype EmployeeRecord = EmployeeRecord(
    code: Option<string>, firstName: Option<string>, lastName: Option<string>,
    email: Option<Option<string>>, positionCode: Option<string>)
  {
    /** `emp_data.get("employee_id", "")` */
    function Code(): string { code.GetOr("") }
    /** `emp_data.get("position_code", "")` */
    function ParentCode(): string { positionCode.GetOr("") }
  }

  function EmployeeCode(e: Employee): string { e.code }
  function EmployeeActive(e: Employee): bool { e.isActive }
  function EmployeeId(e: Employee): int { e.id }
  function RetireEmployee(e: Employee): Employee { e.(isActive := false) }

  function EmployeeCodes(recs: seq<EmployeeRecord>): set<string> {
    set rec | rec in recs :: rec.Code()
  }

  /** How many of the records name a position that does not exist. */
  function EmployeeOrphans(ps: seq<Position>, recs: seq<EmployeeRecord>): nat {
    if recs == [] then 0
    else
      EmployeeOrphans(ps, recs[..|recs| - 1])
      + if FirstWith(ps, recs[|recs| - 1].ParentCode(), PositionCode).None? then 1 else 0
  }

  /** After a record with a resolvable position was processed: its code
      has an active row in that position, carrying the record's names when
      the record gives them. */
  predicate EmployeeSettled(ps: seq<Position>, es: seq<Employee>, rec: EmployeeRecord) {
    match FirstWith(ps, rec.ParentCode(), PositionCode)
    case None => true
    case Some(p) =>
      match FirstWith(es, rec.Code(), EmployeeCode)
      case None => false
      case Some(k) =>
        es[k].isActive && es[k].positionId == ps[p].id
        && (rec.firstName.Some? ==> es[k].firstName == rec.firstName.value)
        && (rec.lastName.Some? ==> es[k].lastName == rec.lastName.value)
  }

  /** One iteration of the employee loop: a record whose position is
      unknown is skipped and counted as an error; otherwise an unknown code
      is created and a known one is updated when a name or the position
      differs or it is inactive. The update also writes the email, but a
      changed email alone does not cause one. */
  function EmployeeStep(ps: seq<Position>, es: seq<Employee>, rec: EmployeeRecord): (r: (seq<Employee>, Outcome))
    ensures r.1 == Unresolved <==> FirstWith(ps, rec.ParentCode(), PositionCode).None?
    ensures r.1 == Unresolved ==> r.0 == es
    ensures r.1 == Created <==> r.1 != Unresolved && FirstWith(es, rec.Code(), EmployeeCode).None?
    ensures r.1 == Created ==> (
      r.0 == es + [Employee(|es| + 1, rec.Code(), rec.firstName.GetOr(""), rec.lastName.GetOr(""), rec.email.GetOr(None),
                            ps[FirstWith(ps, rec.ParentCode(), PositionCode).value].id, true)])
    ensures r.1 != Created ==> |r.0| == |es|
    ensures r.1 == Unchanged ==> r.0 == es
    ensures r.1 == Updated ==> r.0 != es
    ensures forall i :: 0 <= i < |es| ==> r.0[i].id == es[i].id && r.0[i].code == es[i].code
    ensures forall i :: 0 <= i < |es| && es[i].code != rec.Code() ==> r.0[i] == es[i]
    ensures UniqueCodes(es, EmployeeCode) ==> UniqueCodes(r.0, EmployeeCode)
    ensures EmployeeSettled(ps, r.0, rec)
  {
    match FirstWith(ps, rec.ParentCode(), PositionCode)
    case None => (es, Unresolved)
    case Some(p) =>
      var code := rec.Code();
      match FirstWith(es, code, EmployeeCode)
      case None =>
        var row := Employee(|es| + 1, code, rec.firstName.GetOr(""), rec.lastName.GetOr(""), rec.email.GetOr(None), ps[p].id, true);
        AppendRow(es, row, EmployeeCode);
        (es + [row], Created)
      case Some(k) =>
        var e := es[k];
        if e.firstName != rec.firstName.GetOr(e.firstName) || e.lastName != rec.lastName.GetOr(e.lastName)
           || e.positionId != ps[p].id || !e.isActive
        then
          var row := e.(firstName := rec.firstName.GetOr(e.firstName), lastName := rec.lastName.GetOr(e.lastName),
                        email := rec.email.GetOr(e.email), positionId := ps[p].id, isActive := true);
          ReplaceRow(es, k, row, EmployeeCode);
          (es[k := row], Updated)
        else (es, Unchanged)
  }

  /** The employee loop over the first records, with its counters. */
  function EmployeesSynced(ps: seq<Position>, es: seq<Employee>, recs: seq<EmployeeRecord>): (r: (seq<Employee>, Stats))
    ensures r.1.processed == |recs| && r.1.deactivated == 0
    ensures r.1.errors == EmployeeOrphans(ps, recs)
    ensures |es| <= |r.0| && r.1.created == |r.0| - |es|
    ensures 0 <= r.1.updated && r.1.created + r.1.updated + r.1.errors <= |recs|
    ensures Numbered(es, EmployeeId) ==> Numbered(r.0, EmployeeId)
    ensures UniqueCodes(es, EmployeeCode) ==> UniqueCodes(r.0, EmployeeCode)
  {
    if recs == [] then (es, NoStats)
    else
      var front := EmployeesSynced(ps, es, recs[..|recs| - 1]);
      var step := EmployeeStep(ps, front.0, recs[|recs| - 1]);
      (step.0, Tally(front.1, step.1))
  }

  /** The loop over one more record is one more step. */
  lemma EmployeesSyncedSnoc(ps: seq<Position>, es: seq<Employee>, recs: seq<EmployeeRecord>, i: int)
    requires 0 <= i < |recs|
    ensures EmployeesSynced(ps, es, recs[..i + 1])
      == (EmployeeStep(ps, EmployeesSynced(ps, es, recs[..i]).0, recs[i]).0,
          Tally(EmployeesSynced(ps, es, recs[..i]).1, EmployeeStep(ps, EmployeesSynced(ps, es, recs[..i]).0, recs[i]).1))
  {
    var xs := recs[..i + 1];
    assert xs[..|xs| - 1] == recs[..i] && xs[|xs| - 1] == recs[i];
  }

  /** The codes of one more record. */
  lemma EmployeeCodesSnoc(recs: seq<EmployeeRecord>, i: int)
    requires 0 <= i < |recs|
    ensures EmployeeCodes(recs[..i + 1]) == EmployeeCodes(recs[..i]) + {recs[i].Code()}
  {
    assert recs[..i + 1] == recs[..i] + [recs[i]];
  }

  /** Rows that existed before keep their id and code, and a row whose
      code no record reports is untouched. */
  lemma {:induction false} EmployeesSyncedFrame(ps: seq<Position>, es: seq<Employee>, recs: seq<EmployeeRecord>)
    ensures forall i :: 0 <= i < |es| ==> EmployeesSynced(ps, es, recs).0[i].id == es[i].id && EmployeesSynced(ps, es, recs).0[i].code == es[i].code
    ensures forall i :: 0 <= i < |es| && es[i].code !in EmployeeCodes(recs) ==> EmployeesSynced(ps, es, recs).0[i] == es[i]
  {
    if recs != [] {
      var front := recs[..|recs| - 1];
      EmployeesSyncedFrame(ps, es, front);
      assert forall rec :: rec in front ==> rec in recs;
    }
  }

  /** `_sync_employees`: nothing at all for an empty list; otherwise the
      loop, then the deactivation of every active employee whose number was
      not reported. */
  function EmployeeSync(ps: seq<Position>, es: seq<Employee>, recs: seq<EmployeeRecord>): (r: (seq<Employee>, Stats))
    ensures r.1.processed == |recs| && r.1.errors == EmployeeOrphans(ps, recs)
    ensures Numbered(es, EmployeeId) ==> Numbered(r.0, EmployeeId)
    ensures UniqueCodes(es, EmployeeCode) ==> UniqueCodes(r.0, EmployeeCode)
  {
    if recs == [] then (es, NoStats)
    else
      var (t, s) := EmployeesSynced(ps, es, recs);
      var codes := EmployeeCodes(recs);
      if codes == {} then (t, s)
      else
        RetiredKeeps(t, codes, EmployeeCode, EmployeeActive, RetireEmployee, EmployeeId);
        (Retired(t, codes, EmployeeCode, EmployeeActive, RetireEmployee),
         s.(deactivated := StaleCount(t, codes, EmployeeCode, EmployeeActive)))
  }

  /** Deactivation of employees, as for departments; an empty list returns
      at once with zero counters. */
  lemma EmployeeSyncDeactivates(ps: seq<Position>, es: seq<Employee>, recs: seq<EmployeeRecord>)
    ensures recs == [] ==> EmployeeSync(ps, es, recs) == (es, NoStats)
    ensures recs != [] ==> forall i :: 0 <= i < |es| && es[i].isActive && es[i].code !in EmployeeCodes(recs) ==>
      EmployeeSync(ps, es, recs).0[i] == es[i].(isActive := false)
    ensures recs != [] ==> forall i :: 0 <= i < |EmployeeSync(ps, es, recs).0| && EmployeeSync(ps, es, recs).0[i].isActive ==>
      EmployeeSync(ps, es, recs).0[i].code in EmployeeCodes(recs)
  {
    var t := EmployeesSynced(ps, es, recs).0;
    var codes := EmployeeCodes(recs);
    if recs != [] {
      assert recs[0].Code() in codes;
      EmployeesSyncedFrame(ps, es, recs);
      RetiredRule(es, t, codes, EmployeeCode, EmployeeActive, RetireEmployee);
    }
  }

  /** The change test leaves the email out: an active employee whose
      record repeats its names and position is left as it is, the stored
      email included, whatever email the record reports. */
  lemma EmployeeEmailAloneIgnored(ps: seq<Position>, es: seq<Employee>, rec: EmployeeRecord, k: nat)
    requires FirstWith(ps, rec.ParentCode(), PositionCode).Some?
    requires FirstWith(es, rec.Code(), EmployeeCode) == Some(k)
    requires es[k].isActive && es[k].positionId == ps[FirstWith(ps, rec.ParentCode(), PositionCode).value].id
    requires rec.firstName.GetOr(es[k].firstName) == es[k].firstName && rec.lastName.GetOr(es[k].lastName) == es[k].lastName
    ensures EmployeeStep(ps, es, rec) == (es, Unchanged)
  {
  }

  // -------------------------------------------------------- user provisioning

  /** The counters `_provision_users` returns. */
  datatype ProvisionStats = ProvisionStats(created: int, linked: int, deactivated: int, skipped: int, errors: int)

  function NameOfRole(r: Role): string { r.name }

  /** The employees some user is linked to (`linked_employee_ids`). */
  function LinkedEmployees(users: seq<UserRow>): set<int> {
    set u | u in users && u.employeeId.Some? :: u.employeeId.value
  }

  /** `{u.email.lower(): u for u in active users}`, users as table
      positions; of two active users with the same lower-cased email the
      later one wins. */
  function EmailIndex(users: seq<UserRow>): (r: map<string, nat>)
    ensures EmailIndexed(users, r)
  {
    if users == [] then map[]
    else
      var front := EmailIndex(users[..|users| - 1]);
      var u := users[|users| - 1];
      EmailIndexedSnoc(users[..|users| - 1], u, front);
      assert users[..|users| - 1] + [u] == users;
      if u.isActive then front[Lower(u.email) := |users| - 1] else front
  }

  /** One more user keeps the lookup map exact once its own email is
      entered (when active). */
  lemma EmailIndexedSnoc(users: seq<UserRow>, u: UserRow, byEmail: map<string, nat>)
    requires EmailIndexed(users, byEmail)
    ensures EmailIndexed(users + [u], if u.isActive then byEmail[Lower(u.email) := |users|] else byEmail)
  {
    var r := users + [u];
    var m := if u.isActive then byEmail[Lower(u.email) := |users|] else byEmail;
    forall key | key in m
      ensures m[key] < |r| && r[m[key]].isActive && Lower(r[m[key]].email) == key
    {
      if !(u.isActive && key == Lower(u.email)) {
        assert r[byEmail[key]] == users[byEmail[key]];
      }
    }
    forall j | 0 <= j < |r| && r[j].isActive
      ensures Lower(r[j].email) in m
    {
      if j < |users| {
        assert r[j] == users[j];
      }
    }
  }

  /** The lookup map names exactly the lower-cased emails of the active
      users, each with an active user that has it. */
  predicate EmailIndexed(users: seq<UserRow>, byEmail: map<string, nat>) {
    (forall key :: key in byEmail ==>
      byEmail[key] < |users| && users[byEmail[key]].isActive && Lower(users[byEmail[key]].email) == key)
    && forall j :: 0 <= j < |users| && users[j].isActive ==> Lower(users[j].email) in byEmail
  }

  /** `if not emp.email` fails for a null or empty email. */
  predicate HasEmail(e: Employee) {
    e.email.Some? && e.email.value != ""
  }

  /** `emp.position.division_id` when the chain position, division is
      intact. */
  function DivisionOf(e: Employee, ps: seq<Position>, vs: seq<Division>): Option<int> {
    match FindPosition(ps, e.positionId)
    case None => None
    case Some(p) =>
      match FindDivision(vs, p.divisionId)
      case None => None
      case Some(_) => Some(p.divisionId)
  }

  /** An employee the loop provisions (links or creates a user for): active,
      not linked before the run, with an email and an intact position
      chain. */
  predicate Provisionable(e: Employee, ps: seq<Position>, vs: seq<Division>, linked0: set<int>) {
    e.isActive && e.id !in linked0 && HasEmail(e) && DivisionOf(e, ps, vs).Some?
  }

  function DivisionScopeOf(divisionId: int): Scope {
    Scope(DivisionScope, None, Some(divisionId))
  }

  /** The employee the user row links to, when the table has it. */
  predicate LinksTo(u: UserRow, employees: seq<Employee>) {
    u.employeeId.Some? && 1 <= u.employeeId.value <= |employees|
  }

  /** An existing user the run linked: it had no employee, now has a
      provisionable one, and gained a division scope iff it had no scope. */
  predicate LinkedFrom(before: UserRow, after: UserRow, employees: seq<Employee>, ps: seq<Position>, vs: seq<Division>, linked0: set<int>) {
    before.employeeId.None? && LinksTo(after, employees)
    && var e := employees[after.employeeId.value - 1];
    Provisionable(e, ps, vs, linked0)
    && after == LinkedRow(before, e, DivisionOf(e, ps, vs).value)
  }

  /** `existing_user.employee_id = emp.id`, plus a division scope for a user
      without any scope. */
  function LinkedRow(u: UserRow, e: Employee, divisionId: int): UserRow {
    u.(employeeId := Some(e.id), scopes := if u.scopes == [] then [DivisionScopeOf(divisionId)] else u.scopes)
  }

  /** The user `_provision_users` creates for an employee: the stripped
      email and the names, the read-only role, the link to the employee,
      one division scope and the provisioning stamp. */
  function NewUserRow(id: int, e: Employee, divisionId: int, roleId: int, provisionedBy: Option<int>, now: int): UserRow
    requires HasEmail(e)
  {
    UserRow(id, None, Strip(e.email.value), e.firstName, e.lastName, roleId, Some(e.id), true,
            [DivisionScopeOf(divisionId)], provisionedBy, Some(now), None, None)
  }

  /** `email_lower`, the key of `existing_users_by_email` an employee is
      looked up under. */
  function EmailKey(e: Employee): string
    requires HasEmail(e)
  {
    Lower(Strip(e.email.value))
  }

  /** A user the run created, at table position `j`: the stripped email and
      names of a provisionable employee, the read-only role, a link to the
      employee, one division scope and the provisioning stamp. */
  predicate CreatedFor(u: UserRow, j: int, employees: seq<Employee>, ps: seq<Position>, vs: seq<Division>, linked0: set<int>,
                       roleId: int, provisionedBy: Option<int>, now: int) {
    LinksTo(u, employees)
    && var e := employees[u.employeeId.value - 1];
    Provisionable(e, ps, vs, linked0)
    && u == NewUserRow(j + 1, e, DivisionOf(e, ps, vs).value, roleId, provisionedBy, now)
  }

  /** Every row that existed before the run is as it was, or was linked. */
  predicate OldRowsKept(users0: seq<UserRow>, users: seq<UserRow>, employees: seq<Employee>, ps: seq<Position>, vs: seq<Division>) {
    |users0| <= |users|
    && forall j :: 0 <= j < |users0| ==>
      users[j] == users0[j] || LinkedFrom(users0[j], users[j], employees, ps, vs, LinkedEmployees(users0))
  }

  /** Every row past the old table was created for a provisionable employee. */
  predicate NewRowsCreated(users0: seq<UserRow>, users: seq<UserRow>, employees: seq<Employee>, ps: seq<Position>, vs: seq<Division>,
                           roleId: int, provisionedBy: Option<int>, now: int) {
    forall j :: |users0| <= j < |users| ==>
      CreatedFor(users[j], j, employees, ps, vs, LinkedEmployees(users0), roleId, provisionedBy, now)
  }

  /** Two users share an employee only if both rows are untouched. */
  predicate NoSecondLink(users0: seq<UserRow>, users: seq<UserRow>) {
    forall i, j :: 0 <= i < j < |users| && users[i].employeeId.Some? && users[i].employeeId == users[j].employeeId ==>
      j < |users0| && users[i] == users0[i] && users[j] == users0[j]
  }

  /** No active user shares its lower-cased email with a created user. */
  predicate NewEmailsDistinct(users0: seq<UserRow>, users: seq<UserRow>) {
    forall j, m :: |users0| <= j < |users| && 0 <= m < |users| && m != j && users[m].isActive ==>
      Lower(users[m].email) != Lower(users[j].email)
  }

  /** What the provisioning loop has done to the user table so far. */
  predicate Provisioned(users0: seq<UserRow>, users: seq<UserRow>, employees: seq<Employee>, ps: seq<Position>, vs: seq<Division>,
                        roleId: int, provisionedBy: Option<int>, now: int) {
    OldRowsKept(users0, users, employees, ps, vs)
    && NewRowsCreated(users0, users, employees, ps, vs, roleId, provisionedBy, now)
    && NoSecondLink(users0, users)
    && NewEmailsDistinct(users0, users)
  }

  /** Rows are only ever linked, never unlinked: every employee linked
      before the run still is. */
  lemma LinkedGrows(users0: seq<UserRow>, users: seq<UserRow>, employees: seq<Employee>, ps: seq<Position>, vs: seq<Division>,
                    roleId: int, provisionedBy: Option<int>, now: int)
    requires Provisioned(users0, users, employees, ps, vs, roleId, provisionedBy, now)
    ensures LinkedEmployees(users0) <= LinkedEmployees(users)
  {
    forall id | id in LinkedEmployees(users0)
      ensures id in LinkedEmployees(users)
    {
      var j :| 0 <= j < |users0| && users0[j].employeeId == Some(id);
      assert users[j] in users;
    }
  }

  /** What one iteration of the provisioning loop did. */
  datatype ProvisionOutcome = UserCreated | UserLinked | UserSkipped | UserFailed

  /** Some user already holds this email up to letter case: the unique
      constraint on the email column compares under SQL Server's default
      case-insensitive collation, so it refuses a second one. */
  predicate EmailTaken(users: seq<UserRow>, email: string) {
    exists j :: 0 <= j < |users| && Lower(users[j].email) == Lower(email)
  }

  /** The employee's email (lower-cased) belongs to an active user linked
      to another employee, so the loop skips the employee. */
  predicate Blocked(e: Employee, users: seq<UserRow>) {
    HasEmail(e)
    && exists j :: 0 <= j < |users| && users[j].isActive && Lower(users[j].email) == EmailKey(e)
                   && users[j].employeeId.Some? && users[j].employeeId != Some(e.id)
  }

  /** Where the loop leaves a provisionable employee: linked to a user, or
      blocked by a user linked elsewhere. */
  predicate Settled(e: Employee, users: seq<UserRow>) {
    e.id in LinkedEmployees(users) || Blocked(e, users)
  }

  /** An employee whose new user would repeat, up to letter case, the
      email of an inactive user of the table: the inactive user is not in
      the email map, so the loop tries to create a user and the flush
      fails. */
  predicate Collides(e: Employee, users0: seq<UserRow>) {
    HasEmail(e)
    && exists j :: 0 <= j < |users0| && !users0[j].isActive && Lower(users0[j].email) == EmailKey(e)
  }

  /** Rows are only appended, emails and active flags never change, and a
      user's employee, once set, stays. */
  predicate LinksKept(users: seq<UserRow>, users': seq<UserRow>) {
    |users| <= |users'|
    && forall j :: 0 <= j < |users| ==>
         users'[j].email == users[j].email && users'[j].isActive == users[j].isActive
         && (users[j].employeeId.Some? ==> users'[j].employeeId == users[j].employeeId)
  }

  /** Linking, appending and leaving the table alone all keep the links. */
  lemma LinksKeptRefl(users: seq<UserRow>)
    ensures LinksKept(users, users)
  {
  }

  lemma LinksKeptLink(users: seq<UserRow>, k: nat, row: UserRow)
    requires k < |users| && users[k].employeeId.None?
    requires row.email == users[k].email && row.isActive == users[k].isActive
    ensures LinksKept(users, users[k := row])
  {
  }

  lemma LinksKeptAppend(users: seq<UserRow>, row: UserRow)
    ensures LinksKept(users, users + [row])
  {
  }

  /** A table with the same rows' emails and flags keeps its index. */
  lemma IndexKept(users: seq<UserRow>, users': seq<UserRow>, byEmail: map<string, nat>)
    requires EmailIndexed(users, byEmail) && LinksKept(users, users') && |users'| == |users|
    ensures EmailIndexed(users', byEmail)
  {
  }

  /** A settled employee stays settled. */
  lemma SettledKept(e: Employee, users: seq<UserRow>, users': seq<UserRow>)
    requires LinksKept(users, users') && Settled(e, users)
    ensures Settled(e, users')
  {
    if e.id in LinkedEmployees(users) {
      var u :| u in users && u.employeeId == Some(e.id);
      var j :| 0 <= j < |users| && users[j] == u;
      assert users'[j] in users';
    } else {
      var j :| 0 <= j < |users| && users[j].isActive && Lower(users[j].email) == EmailKey(e)
                && users[j].employeeId.Some? && users[j].employeeId != Some(e.id);
      assert users'[j].isActive && Lower(users'[j].email) == EmailKey(e);
    }
  }

  /** The loop only tries to create a user with a taken email when that
      email is an inactive user's of the table before the run. */
  lemma CollisionWitness(e: Employee, employees: seq<Employee>, ps: seq<Position>, vs: seq<Division>,
                         users0: seq<UserRow>, users: seq<UserRow>, byEmail: map<string, nat>,
                         roleId: int, provisionedBy: Option<int>, now: int)
    requires Provisioned(users0, users, employees, ps, vs, roleId, provisionedBy, now) && EmailIndexed(users, byEmail)
    requires HasEmail(e) && EmailKey(e) !in byEmail && EmailTaken(users, Strip(e.email.value))
    ensures Collides(e, users0)
  {
    var j :| 0 <= j < |users| && Lower(users[j].email) == EmailKey(e);
    assert !users[j].isActive;
    NewRowsActive(users0, users, employees, ps, vs, roleId, provisionedBy, now);
    assert j < |users0|;
    assert users[j] == users0[j] || LinkedFrom(users0[j], users[j], employees, ps, vs, LinkedEmployees(users0));
    assert !users0[j].isActive && Lower(users0[j].email) == EmailKey(e);
  }

  /** Every user the run created is active. */
  lemma NewRowsActive(users0: seq<UserRow>, users: seq<UserRow>, employees: seq<Employee>, ps: seq<Position>, vs: seq<Division>,
                      roleId: int, provisionedBy: Option<int>, now: int)
    requires NewRowsCreated(users0, users, employees, ps, vs, roleId, provisionedBy, now)
    ensures forall j :: |users0| <= j < |users| ==> users[j].isActive
  {
    forall j | |users0| <= j < |users|
      ensures users[j].isActive
    {
      assert CreatedFor(users[j], j, employees, ps, vs, LinkedEmployees(users0), roleId, provisionedBy, now);
    }
  }

  /** One iteration of the provisioning loop, for an active employee, with
      the cases in the order the source tests them: skip an employee
      already linked, one without an email or one whose position chain is
      broken; link the active user the email map gives when it has no
      employee yet (giving it a division scope when it has none), or skip
      when it is linked elsewhere; otherwise create a read-only user. When
      some (inactive) user already holds the stripped email, up to case, the
      creation fails the unique constraint (UserFailed), which fails the
      whole run. */
  method ProvisionEmployee(e: Employee, employees: seq<Employee>, ps: seq<Position>, vs: seq<Division>,
                           users0: seq<UserRow>, roleId: int, provisionedBy: Option<int>, now: int,
                           users: seq<UserRow>, linked: set<int>, byEmail: map<string, nat>)
    returns (users': seq<UserRow>, linked': set<int>, byEmail': map<string, nat>, outcome: ProvisionOutcome)
    requires Numbered(employees, EmployeeId) && e in employees && e.isActive
    requires Provisioned(users0, users, employees, ps, vs, roleId, provisionedBy, now)
    requires linked == LinkedEmployees(users) && EmailIndexed(users, byEmail)
    ensures Provisioned(users0, users', employees, ps, vs, roleId, provisionedBy, now)
    ensures linked' == LinkedEmployees(users') && EmailIndexed(users', byEmail')
    ensures LinksKept(users, users')
    ensures e.id in LinkedEmployees(users) || !HasEmail(e) || DivisionOf(e, ps, vs).None? ==>
      outcome == UserSkipped && users' == users
    ensures e.id !in LinkedEmployees(users) && HasEmail(e) && DivisionOf(e, ps, vs).Some? && EmailKey(e) in byEmail ==>
      var k := byEmail[EmailKey(e)];
      if users[k].employeeId.None? then
        outcome == UserLinked && users' == users[k := LinkedRow(users[k], e, DivisionOf(e, ps, vs).value)]
      else outcome == UserSkipped && users' == users
    ensures e.id !in LinkedEmployees(users) && HasEmail(e) && DivisionOf(e, ps, vs).Some? && EmailKey(e) !in byEmail ==>
      if EmailTaken(users, Strip(e.email.value)) then outcome == UserFailed && users' == users
      else outcome == UserCreated
           && users' == users + [NewUserRow(|users| + 1, e, DivisionOf(e, ps, vs).value, roleId, provisionedBy, now)]
    ensures outcome != UserFailed && Provisionable(e, ps, vs, LinkedEmployees(users0)) ==> Settled(e, users')
    ensures outcome == UserFailed ==> Provisionable(e, ps, vs, LinkedEmployees(users0)) && Collides(e, users0)
  {
    users', linked', byEmail' := users, linked, byEmail;
    LinksKeptRefl(users);
    if e.id in linked {
      return users', linked', byEmail', UserSkipped;
    }
    if !HasEmail(e) {
      return users', linked', byEmail', UserSkipped;
    }
    var division := DivisionOf(e, ps, vs);
    if division.None? {
      return users', linked', byEmail', UserSkipped;
    }
    LinkedGrows(users0, users, employees, ps, vs, roleId, provisionedBy, now);
    assert e == employees[e.id - 1];
    var key := EmailKey(e);
    if key in byEmail {
      var k := byEmail[key];
      if users[k].employeeId.None? {
        users' := LinkUser(users0, users, k, e, employees, ps, vs, roleId, provisionedBy, now);
        LinksKeptLink(users, k, users'[k]);
        IndexKept(users, users', byEmail);
        linked' := linked + {e.id};
        outcome := UserLinked;
      } else {
        assert users[k] in users;
        assert Blocked(e, users);
        outcome := UserSkipped;
      }
    } else {
      var email := Strip(e.email.value);
      if EmailTaken(users, email) {
        CollisionWitness(e, employees, ps, vs, users0, users, byEmail, roleId, provisionedBy, now);
        outcome := UserFailed;
      } else {
        var user := NewUserRow(|users| + 1, e, division.value, roleId, provisionedBy, now);
        users' := AddUser(users0, users, user, e, byEmail, key, employees, ps, vs, roleId, provisionedBy, now);
        LinksKeptAppend(users, user);
        linked' := linked + {e.id};
        byEmail' := byEmail[key := |users|];
        outcome := UserCreated;
      }
    }
  }

  /** `existing_user.employee_id = emp.id`, plus the default scope. */
  method LinkUser(users0: seq<UserRow>, users: seq<UserRow>, k: nat, e: Employee,
                  employees: seq<Employee>, ps: seq<Position>, vs: seq<Division>,
                  roleId: int, provisionedBy: Option<int>, now: int)
    returns (users': seq<UserRow>)
    requires Provisioned(users0, users, employees, ps, vs, roleId, provisionedBy, now)
    requires k < |users| && users[k].employeeId.None?
    requires Numbered(employees, EmployeeId) && e in employees && e == employees[e.id - 1]
    requires Provisionable(e, ps, vs, LinkedEmployees(users0)) && e.id !in LinkedEmployees(users)
    ensures users' == users[k := LinkedRow(users[k], e, DivisionOf(e, ps, vs).value)]
    ensures Provisioned(users0, users', employees, ps, vs, roleId, provisionedBy, now)
    ensures LinkedEmployees(users') == LinkedEmployees(users) + {e.id}
  {
    users' := users[k := LinkedRow(users[k], e, DivisionOf(e, ps, vs).value)];
    assert k < |users0| && users[k] == users0[k];
    assert LinkedFrom(users0[k], users'[k], employees, ps, vs, LinkedEmployees(users0));
    forall j | 0 <= j < |users|
      ensures users[j].employeeId != Some(e.id)
    {
      assert users[j] in users;
    }
    LinkKeepsOldRows(users0, users, k, users'[k], employees, ps, vs);
    LinkKeepsNewRows(users0, users, k, users'[k], employees, ps, vs, roleId, provisionedBy, now);
    LinkKeepsOneLink(users0, users, k, users'[k], e.id);
    LinkKeepsEmails(users0, users, k, users'[k]);
    LinkedAfterUpdate(users, k, users'[k], e.id);
  }

  lemma LinkKeepsOldRows(users0: seq<UserRow>, users: seq<UserRow>, k: nat, row: UserRow,
                         employees: seq<Employee>, ps: seq<Position>, vs: seq<Division>)
    requires OldRowsKept(users0, users, employees, ps, vs)
    requires k < |users0| && LinkedFrom(users0[k], row, employees, ps, vs, LinkedEmployees(users0))
    ensures OldRowsKept(users0, users[k := row], employees, ps, vs)
  {
  }

  lemma LinkKeepsNewRows(users0: seq<UserRow>, users: seq<UserRow>, k: nat, row: UserRow,
                         employees: seq<Employee>, ps: seq<Position>, vs: seq<Division>,
                         roleId: int, provisionedBy: Option<int>, now: int)
    requires NewRowsCreated(users0, users, employees, ps, vs, roleId, provisionedBy, now)
    requires k < |users0| <= |users|
    ensures NewRowsCreated(users0, users[k := row], employees, ps, vs, roleId, provisionedBy, now)
  {
  }

  lemma LinkKeepsOneLink(users0: seq<UserRow>, users: seq<UserRow>, k: nat, row: UserRow, id: int)
    requires NoSecondLink(users0, users)
    requires k < |users| && row.employeeId == Some(id)
    requires forall j :: 0 <= j < |users| ==> users[j].employeeId != Some(id)
    ensures NoSecondLink(users0, users[k := row])
  {
  }

  lemma LinkKeepsEmails(users0: seq<UserRow>, users: seq<UserRow>, k: nat, row: UserRow)
    requires NewEmailsDistinct(users0, users)
    requires k < |users| && row.email == users[k].email && row.isActive == users[k].isActive
    ensures NewEmailsDistinct(users0, users[k := row])
  {
    var r := users[k := row];
    assert forall j :: 0 <= j < |r| ==> r[j].email == users[j].email && r[j].isActive == users[j].isActive;
  }

  /** Setting the employee of one user who had none adds exactly that
      employee to the linked set. */
  lemma LinkedAfterUpdate(users: seq<UserRow>, k: nat, row: UserRow, id: int)
    requires k < |users| && users[k].employeeId.None? && row.employeeId == Some(id)
    ensures LinkedEmployees(users[k := row]) == LinkedEmployees(users) + {id}
  {
    var r := users[k := row];
    assert r[k] in r;
    forall x | x in LinkedEmployees(r)
      ensures x in LinkedEmployees(users) + {id}
    {
      var u :| u in r && u.employeeId == Some(x);
      var j :| 0 <= j < |r| && r[j] == u;
      if j != k {
        assert users[j] in users;
      }
    }
    forall x | x in LinkedEmployees(users)
      ensures x in LinkedEmployees(r)
    {
      var j :| 0 <= j < |users| && users[j].employeeId == Some(x);
      assert r[j] in r;
    }
  }

  /** `db.session.add(new_user)` for a user whose lower-cased email no
      active user has. */
  method AddUser(users0: seq<UserRow>, users: seq<UserRow>, user: UserRow, e: Employee,
                 byEmail: map<string, nat>, key: string,
                 employees: seq<Employee>, ps: seq<Position>, vs: seq<Division>,
                 roleId: int, provisionedBy: Option<int>, now: int)
    returns (users': seq<UserRow>)
    requires Provisioned(users0, users, employees, ps, vs, roleId, provisionedBy, now) && EmailIndexed(users, byEmail)
    requires Numbered(employees, EmployeeId) && e in employees && e == employees[e.id - 1]
    requires Provisionable(e, ps, vs, LinkedEmployees(users0)) && e.id !in LinkedEmployees(users)
    requires key == EmailKey(e) && key !in byEmail
    requires user == NewUserRow(|users| + 1, e, DivisionOf(e, ps, vs).value, roleId, provisionedBy, now)
    ensures users' == users + [user]
    ensures Provisioned(users0, users', employees, ps, vs, roleId, provisionedBy, now)
    ensures LinkedEmployees(users') == LinkedEmployees(users) + {e.id}
    ensures EmailIndexed(users', byEmail[key := |users|])
  {
    users' := users + [user];
    AddedProvisioned(users0, users, user, e, byEmail, key, employees, ps, vs, roleId, provisionedBy, now);
    AddedIndexed(users, user, byEmail, key);
    LinkedAfterAdd(users, user, e.id);
  }

  /** Appending the new user of a provisionable, unlinked employee whose
      email no active user has keeps the table a provisioned state. */
  lemma AddedProvisioned(users0: seq<UserRow>, users: seq<UserRow>, user: UserRow, e: Employee,
                         byEmail: map<string, nat>, key: string,
                         employees: seq<Employee>, ps: seq<Position>, vs: seq<Division>,
                         roleId: int, provisionedBy: Option<int>, now: int)
    requires Provisioned(users0, users, employees, ps, vs, roleId, provisionedBy, now) && EmailIndexed(users, byEmail)
    requires Numbered(employees, EmployeeId) && e in employees && e == employees[e.id - 1]
    requires Provisionable(e, ps, vs, LinkedEmployees(users0)) && e.id !in LinkedEmployees(users)
    requires key == EmailKey(e) && key !in byEmail
    requires user == NewUserRow(|users| + 1, e, DivisionOf(e, ps, vs).value, roleId, provisionedBy, now)
    ensures Provisioned(users0, users + [user], employees, ps, vs, roleId, provisionedBy, now)
  {
    assert CreatedFor(user, |users|, employees, ps, vs, LinkedEmployees(users0), roleId, provisionedBy, now);
    forall j | 0 <= j < |users|
      ensures users[j].employeeId != Some(e.id)
      ensures users[j].isActive ==> Lower(users[j].email) != key
    {
      assert users[j] in users;
    }
    AddKeepsNewRows(users0, users, user, employees, ps, vs, roleId, provisionedBy, now);
    AddKeepsOneLink(users0, users, user, e.id);
    AddKeepsEmails(users0, users, user);
  }

  /** The index learns the new active user's lower-cased email. */
  lemma AddedIndexed(users: seq<UserRow>, user: UserRow, byEmail: map<string, nat>, key: string)
    requires EmailIndexed(users, byEmail) && key !in byEmail
    requires user.isActive && Lower(user.email) == key
    ensures EmailIndexed(users + [user], byEmail[key := |users|])
  {
  }

  lemma AddKeepsNewRows(users0: seq<UserRow>, users: seq<UserRow>, user: UserRow,
                        employees: seq<Employee>, ps: seq<Position>, vs: seq<Division>,
                        roleId: int, provisionedBy: Option<int>, now: int)
    requires NewRowsCreated(users0, users, employees, ps, vs, roleId, provisionedBy, now) && |users0| <= |users|
    requires CreatedFor(user, |users|, employees, ps, vs, LinkedEmployees(users0), roleId, provisionedBy, now)
    ensures NewRowsCreated(users0, users + [user], employees, ps, vs, roleId, provisionedBy, now)
  {
  }

  lemma AddKeepsOneLink(users0: seq<UserRow>, users: seq<UserRow>, user: UserRow, id: int)
    requires NoSecondLink(users0, users) && user.employeeId == Some(id)
    requires forall j :: 0 <= j < |users| ==> users[j].employeeId != Some(id)
    ensures NoSecondLink(users0, users + [user])
  {
  }

  lemma AddKeepsEmails(users0: seq<UserRow>, users: seq<UserRow>, user: UserRow)
    requires NewEmailsDistinct(users0, users) && user.isActive
    requires forall j :: |users0| <= j < |users| ==> users[j].isActive
    requires forall j :: 0 <= j < |users| && users[j].isActive ==> Lower(users[j].email) != Lower(user.email)
    ensures NewEmailsDistinct(users0, users + [user])
  {
  }

  lemma LinkedAfterAdd(users: seq<UserRow>, user: UserRow, id: int)
    requires user.employeeId == Some(id)
    ensures LinkedEmployees(users + [user]) == LinkedEmployees(users) + {id}
  {
    var r := users + [user];
    assert r[|users|] in r;
    forall x | x in LinkedEmployees(r)
      ensures x in LinkedEmployees(users) + {id}
    {
      var u :| u in r && u.employeeId == Some(x);
      if u != user {
        assert u in users;
      }
    }
    forall x | x in LinkedEmployees(users)
      ensures x in LinkedEmployees(r)
    {
      var u :| u in users && u.employeeId == Some(x);
      assert u in r;
    }
  }

  function UserId(u: UserRow): int { u.id }

  /** The table before the run is trivially a provisioned state of itself. */
  lemma ProvisionedStart(users0: seq<UserRow>, employees: seq<Employee>, ps: seq<Position>, vs: seq<Division>,
                         roleId: int, provisionedBy: Option<int>, now: int)
    ensures Provisioned(users0, users0, employees, ps, vs, roleId, provisionedBy, now)
  {
  }

  /** Every provisionable employee among the first `n` is settled. */
  predicate SettledUpTo(employees: seq<Employee>, n: nat, ps: seq<Position>, vs: seq<Division>,
                        users0: seq<UserRow>, users: seq<UserRow>)
    requires n <= |employees|
  {
    forall k :: 0 <= k < n && Provisionable(employees[k], ps, vs, LinkedEmployees(users0)) ==> Settled(employees[k], users)
  }

  /** The provisioning loop over the active employees, in table order.
      Either some employee's new user hits the unique email constraint,
      which aborts the run (the table is then reported as it was), or
      every active employee is created, linked or skipped exactly once,
      no error is counted, and every provisionable employee ends linked
      to a user unless its email belongs to an active user linked to
      another employee. */
  method ProvisionActive(employees: seq<Employee>, ps: seq<Position>, vs: seq<Division>, users0: seq<UserRow>,
                         roleId: int, provisionedBy: Option<int>, now: int)
    returns (users: seq<UserRow>, stats: ProvisionStats, failedAt: Option<nat>)
    requires Numbered(employees, EmployeeId)
    ensures failedAt.Some? ==>
      && users == users0 && failedAt.value < |employees|
      && Provisionable(employees[failedAt.value], ps, vs, LinkedEmployees(users0))
      && Collides(employees[failedAt.value], users0)
    ensures failedAt.None? ==>
      && Provisioned(users0, users, employees, ps, vs, roleId, provisionedBy, now)
      && SettledUpTo(employees, |employees|, ps, vs, users0, users)
      && stats.deactivated == 0 && stats.errors == 0 && stats.created == |users| - |users0|
      && stats.linked >= 0 && stats.skipped >= 0
      && stats.created + stats.linked + stats.skipped == |Filter(employees, EmployeeActive)|
  {
    stats := ProvisionStats(0, 0, 0, 0, 0);
    users := users0;
    failedAt := None;
    var linked := LinkedEmployees(users0);
    var byEmail := EmailIndex(users0);
    ProvisionedStart(users0, employees, ps, vs, roleId, provisionedBy, now);
    var i := 0;
    while i < |employees|
      invariant 0 <= i <= |employees|
      invariant ProvisionLoop(employees, i, ps, vs, users0, roleId, provisionedBy, now, users, linked, byEmail, stats)
    {
      var users1, linked1, byEmail1, stats1, failed :=
        ProvisionStep(employees, i, ps, vs, users0, roleId, provisionedBy, now, users, linked, byEmail, stats);
      if failed {
        return users0, stats, Some(i);
      }
      users, linked, byEmail, stats := users1, linked1, byEmail1, stats1;
      i := i + 1;
    }
    assert employees[..|employees|] == employees;
  }

  /** The invariant of the provisioning loop after the first `i` employees. */
  predicate ProvisionLoop(employees: seq<Employee>, i: nat, ps: seq<Position>, vs: seq<Division>,
                          users0: seq<UserRow>, roleId: int, provisionedBy: Option<int>, now: int,
                          users: seq<UserRow>, linked: set<int>, byEmail: map<string, nat>, stats: ProvisionStats)
    requires i <= |employees|
  {
    && Provisioned(users0, users, employees, ps, vs, roleId, provisionedBy, now)
    && SettledUpTo(employees, i, ps, vs, users0, users)
    && linked == LinkedEmployees(users) && EmailIndexed(users, byEmail)
    && stats.deactivated == 0 && stats.errors == 0 && stats.created == |users| - |users0|
    && stats.linked >= 0 && stats.skipped >= 0
    && stats.created + stats.linked + stats.skipped == |Filter(employees[..i], EmployeeActive)|
  }

  /** One pass of the provisioning loop: employee `i`, when active, is
      provisioned and counted once, or its new user's email collides and
      the run fails. */
  method ProvisionStep(employees: seq<Employee>, i: nat, ps: seq<Position>, vs: seq<Division>,
                       users0: seq<UserRow>, roleId: int, provisionedBy: Option<int>, now: int,
                       users: seq<UserRow>, linked: set<int>, byEmail: map<string, nat>, stats: ProvisionStats)
    returns (users': seq<UserRow>, linked': set<int>, byEmail': map<string, nat>, stats': ProvisionStats, failed: bool)
    requires Numbered(employees, EmployeeId) && i < |employees|
    requires ProvisionLoop(employees, i, ps, vs, users0, roleId, provisionedBy, now, users, linked, byEmail, stats)
    ensures !failed ==> ProvisionLoop(employees, i + 1, ps, vs, users0, roleId, provisionedBy, now, users', linked', byEmail', stats')
    ensures failed ==> Provisionable(employees[i], ps, vs, LinkedEmployees(users0)) && Collides(employees[i], users0)
  {
    FilterPrefixCount(employees, i, EmployeeActive);
    var e := employees[i];
    failed := false;
    if e.isActive {
      var outcome;
      users', linked', byEmail', stats', outcome :=
        ProvisionCounted(e, employees, ps, vs, users0, roleId, provisionedBy, now, users, linked, byEmail, stats);
      if outcome == UserFailed {
        return users', linked', byEmail', stats', true;
      }
      forall k | 0 <= k < i && Provisionable(employees[k], ps, vs, LinkedEmployees(users0))
        ensures Settled(employees[k], users')
      {
        SettledKept(employees[k], users, users');
      }
    } else {
      users', linked', byEmail', stats' := users, linked, byEmail, stats;
    }
  }

  /** One iteration of the provisioning loop with its counter; a failed
      creation is not counted, since it ends the run. */
  method ProvisionCounted(e: Employee, employees: seq<Employee>, ps: seq<Position>, vs: seq<Division>,
                          users0: seq<UserRow>, roleId: int, provisionedBy: Option<int>, now: int,
                          users: seq<UserRow>, linked: set<int>, byEmail: map<string, nat>, stats: ProvisionStats)
    returns (users': seq<UserRow>, linked': set<int>, byEmail': map<string, nat>, stats': ProvisionStats, outcome: ProvisionOutcome)
    requires Numbered(employees, EmployeeId) && e in employees && e.isActive
    requires Provisioned(users0, users, employees, ps, vs, roleId, provisionedBy, now)
    requires linked == LinkedEmployees(users) && EmailIndexed(users, byEmail)
    requires stats.created == |users| - |users0|
    ensures outcome == UserFailed ==> Provisionable(e, ps, vs, LinkedEmployees(users0)) && Collides(e, users0)
    ensures outcome != UserFailed ==>
      && Provisioned(users0, users', employees, ps, vs, roleId, provisionedBy, now)
      && linked' == LinkedEmployees(users') && EmailIndexed(users', byEmail')
      && LinksKept(users, users')
      && (Provisionable(e, ps, vs, LinkedEmployees(users0)) ==> Settled(e, users'))
      && stats'.created == |users'| - |users0| && stats'.deactivated == stats.deactivated && stats'.errors == stats.errors
      && stats'.linked >= stats.linked && stats'.skipped >= stats.skipped
      && stats'.created + stats'.linked + stats'.skipped == stats.created + stats.linked + stats.skipped + 1
  {
    users', linked', byEmail', outcome :=
      ProvisionEmployee(e, employees, ps, vs, users0, roleId, provisionedBy, now, users, linked, byEmail);
    match outcome
    case UserCreated => stats' := stats.(created := stats.created + 1);
    case UserLinked => stats' := stats.(linked := stats.linked + 1);
    case UserSkipped => stats' := stats.(skipped := stats.skipped + 1);
    case UserFailed => stats' := stats;
  }

  /** An active user linked to an employee who is no longer active. */
  predicate Orphaned(u: UserRow, employees: seq<Employee>) {
    u.isActive && u.employeeId.Some?
    && match FindEmployee(employees, u.employeeId.value)
       case None => false
       case Some(e) => !e.isActive
  }

  /** The user table after deactivating every orphaned user: afterwards
      no active user is linked to an inactive employee, and nothing but
      those users' flags changed. */
  function OrphansRetired(users: seq<UserRow>, employees: seq<Employee>): (r: seq<UserRow>)
    ensures |r| == |users|
    ensures forall j :: 0 <= j < |users| ==> !Orphaned(r[j], employees)
    ensures forall j :: 0 <= j < |users| && !Orphaned(users[j], employees) ==> r[j] == users[j]
    ensures forall j :: 0 <= j < |users| && Orphaned(users[j], employees) ==> r[j] == users[j].(isActive := false)
  {
    seq(|users|, j requires 0 <= j < |users| =>
      if Orphaned(users[j], employees) then users[j].(isActive := false) else users[j])
  }

  /** How many users are orphaned. */
  function OrphanCount(users: seq<UserRow>, employees: seq<Employee>): nat {
    if users == [] then 0
    else OrphanCount(users[..|users| - 1], employees) + if Orphaned(users[|users| - 1], employees) then 1 else 0
  }

  /** The closing loop of `_provision_users`: every active user linked to
      an inactive employee is deactivated and counted. */
  method DeactivateOrphaned(users: seq<UserRow>, employees: seq<Employee>) returns (r: seq<UserRow>, count: nat)
    ensures r == OrphansRetired(users, employees)
    ensures count == OrphanCount(users, employees)
  {
    r := users;
    count := 0;
    var j := 0;
    while j < |users|
      invariant 0 <= j <= |users| && |r| == |users|
      invariant forall k :: 0 <= k < j ==> r[k] == OrphansRetired(users, employees)[k]
      invariant forall k :: j <= k < |users| ==> r[k] == users[k]
      invariant count == OrphanCount(users[..j], employees)
    {
      assert users[..j + 1][..j] == users[..j];
      if Orphaned(r[j], employees) {
        r := r[j := r[j].(isActive := false)];
        count := count + 1;
      }
      j := j + 1;
    }
    assert users[..|users|] == users;
  }

  /** A provisioned table keeps its autoincrement ids, and deactivating
      orphans keeps them too. */
  lemma ProvisionedNumbered(users0: seq<UserRow>, users: seq<UserRow>, employees: seq<Employee>, ps: seq<Position>, vs: seq<Division>,
                            roleId: int, provisionedBy: Option<int>, now: int)
    requires Numbered(users0, UserId)
    requires Provisioned(users0, users, employees, ps, vs, roleId, provisionedBy, now)
    ensures Numbered(users, UserId) && Numbered(OrphansRetired(users, employees), UserId)
  {
    assert forall j :: 0 <= j < |users0| ==> users[j].id == users0[j].id;
  }

  /** After the whole run (linking and creation, then deactivation) no
      active user shares its lower-cased email with a user the run
      created, so the run never makes two active users of one email. */
  lemma ProvisionedEmailsDistinct(users0: seq<UserRow>, users: seq<UserRow>, employees: seq<Employee>, ps: seq<Position>, vs: seq<Division>,
                                  roleId: int, provisionedBy: Option<int>, now: int)
    requires Provisioned(users0, users, employees, ps, vs, roleId, provisionedBy, now)
    ensures NewEmailsDistinct(users0, OrphansRetired(users, employees))
  {
    var r := OrphansRetired(users, employees);
    assert forall j :: 0 <= j < |r| ==> r[j].email == users[j].email && (r[j].isActive ==> users[j].isActive);
  }

  /** A row the run created links to a provisionable employee. */
  lemma NewRowOrigin(users0: seq<UserRow>, users: seq<UserRow>, j: int, employees: seq<Employee>, ps: seq<Position>, vs: seq<Division>,
                     roleId: int, provisionedBy: Option<int>, now: int)
    requires Provisioned(users0, users, employees, ps, vs, roleId, provisionedBy, now)
    requires |users0| <= j < |users|
    ensures LinksTo(users[j], employees)
    ensures Provisionable(employees[users[j].employeeId.value - 1], ps, vs, LinkedEmployees(users0))
  {
  }

  /** Idempotence: when every active employee with an email and an intact
      position chain already has a linked user, the loop changes no user. */
  lemma ProvisionedAllLinked(users0: seq<UserRow>, users: seq<UserRow>, employees: seq<Employee>, ps: seq<Position>, vs: seq<Division>,
                             roleId: int, provisionedBy: Option<int>, now: int)
    requires Numbered(employees, EmployeeId)
    requires forall i :: 0 <= i < |employees| && employees[i].isActive && HasEmail(employees[i]) && DivisionOf(employees[i], ps, vs).Some? ==>
      employees[i].id in LinkedEmployees(users0)
    requires Provisioned(users0, users, employees, ps, vs, roleId, provisionedBy, now)
    ensures users == users0
  {
    if |users| > |users0| {
      NewRowOrigin(users0, users, |users0|, employees, ps, vs, roleId, provisionedBy, now);
      assert false;
    }
    forall j | 0 <= j < |users0|
      ensures users[j] == users0[j]
    {
      if users[j] != users0[j] {
        assert false;
      }
    }
  }

  /** After a completed run in which no employee was blocked, every active
      employee with an email and a position chain is linked, also once
      orphaned users are deactivated: the premise of
      `ProvisionedAllLinked`, so a second run changes no user. */
  lemma ProvisionedLinksEveryone(users0: seq<UserRow>, users: seq<UserRow>, employees: seq<Employee>, ps: seq<Position>, vs: seq<Division>,
                                 roleId: int, provisionedBy: Option<int>, now: int)
    requires Provisioned(users0, users, employees, ps, vs, roleId, provisionedBy, now)
    requires SettledUpTo(employees, |employees|, ps, vs, users0, users)
    requires forall k :: 0 <= k < |employees| ==> !Blocked(employees[k], users)
    ensures forall k :: 0 <= k < |employees| && employees[k].isActive && HasEmail(employees[k]) && DivisionOf(employees[k], ps, vs).Some? ==>
      employees[k].id in LinkedEmployees(OrphansRetired(users, employees))
  {
    LinkedGrows(users0, users, employees, ps, vs, roleId, provisionedBy, now);
    var r := OrphansRetired(users, employees);
    forall k | 0 <= k < |employees| && employees[k].isActive && HasEmail(employees[k]) && DivisionOf(employees[k], ps, vs).Some?
      ensures employees[k].id in LinkedEmployees(r)
    {
      var id := employees[k].id;
      assert id in LinkedEmployees(users);
      var u :| u in users && u.employeeId == Some(id);
      var j :| 0 <= j < |users| && users[j] == u;
      assert r[j].employeeId == Some(id) && r[j] in r;
    }
  }

  // ------------------------------------------------------------- merging

  function Processed(s: Stats): int { s.processed }
  function CreatedCount(s: Stats): int { s.created }
  function UpdatedCount(s: Stats): int { s.updated }
  function DeactivatedCount(s: Stats): int { s.deactivated }
  function ErrorCount(s: Stats): int { s.errors }

  /** Per-key sums of the counters. */
  function Merged(list: seq<Stats>): Stats {
    Stats(SumInt(list, Processed), SumInt(list, CreatedCount), SumInt(list, UpdatedCount),
          SumInt(list, DeactivatedCount), SumInt(list, ErrorCount))
  }

  /** `_merge_stats`: starts from zero counters and adds every key of every
      input. */
  method MergeStats(list: seq<Stats>) returns (merged: Stats)
    ensures merged == Merged(list)
  {
    merged := NoStats;
    var i := 0;
    while i < |list|
      invariant 0 <= i <= |list|
      invariant merged == Merged(list[..i])
    {
      var s := list[i];
      assert list[..i + 1] == list[..i] + [s];
      SumIntSnoc(list[..i], s, Processed);
      SumIntSnoc(list[..i], s, CreatedCount);
      SumIntSnoc(list[..i], s, UpdatedCount);
      SumIntSnoc(list[..i], s, DeactivatedCount);
      SumIntSnoc(list[..i], s, ErrorCount);
      merged := Stats(merged.processed + s.processed, merged.created + s.created, merged.updated + s.updated,
                      merged.deactivated + s.deactivated, merged.errors + s.errors);
      i := i + 1;
    }
    assert list[..|list|] == list;
  }

  /** Counter-wise sum of two stats. */
  function Plus(a: Stats, b: Stats): Stats {
    Stats(a.processed + b.processed, a.created + b.created, a.updated + b.updated,
          a.deactivated + b.deactivated, a.errors + b.errors)
  }

  /** Merging is additive: merging two lists one after the other gives the
      sum of their merges. */
  lemma {:induction false} MergedAppend(a: seq<Stats>, b: seq<Stats>)
    ensures Merged(a + b) == Plus(Merged(a), Merged(b))
  {
    if b == [] {
      assert a + b == a;
    } else {
      var n := |b| - 1;
      MergedAppend(a, b[..n]);
      assert a + b == (a + b[..n]) + [b[n]];
      SumIntSnoc(a + b[..n], b[n], Processed);
      SumIntSnoc(a + b[..n], b[n], CreatedCount);
      SumIntSnoc(a + b[..n], b[n], UpdatedCount);
      SumIntSnoc(a + b[..n], b[n], DeactivatedCount);
      SumIntSnoc(a + b[..n], b[n], ErrorCount);
    }
  }
}

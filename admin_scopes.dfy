/** The scope handling of the admin blueprint: which scope type the edit
    form pre-selects for a user (`_get_current_scope_type`), and the list of
    scope dicts `update_user_scopes` builds from the submitted form before
    handing it to `set_user_scopes`. */
module AdminScopes {
  import opened Wrappers
  import opened Seqs
  import opened Text
  import opened UserModel
  import opened UserService

  /** The value pre-selected when a user has no scope rows, or none of a
      known type. */
  const NoScope: string := "none"

  /** `_get_current_scope_type`: organization wins over department, and
      department over division. */
  function CurrentScopeType(scopes: seq<Scope>): (r: string)
    ensures r == OrganizationScope || r == DepartmentScope || r == DivisionScope || r == NoScope
    ensures scopes == [] ==> r == NoScope
    ensures r == OrganizationScope <==> HasScopeType(scopes, OrganizationScope)
    ensures r == DepartmentScope <==> !HasScopeType(scopes, OrganizationScope) && HasScopeType(scopes, DepartmentScope)
    ensures r == DivisionScope <==>
      !HasScopeType(scopes, OrganizationScope) && !HasScopeType(scopes, DepartmentScope) && HasScopeType(scopes, DivisionScope)
    ensures r == NoScope <==>
      !HasScopeType(scopes, OrganizationScope) && !HasScopeType(scopes, DepartmentScope) && !HasScopeType(scopes, DivisionScope)
  {
    if scopes == [] then NoScope
    else if HasScopeType(scopes, OrganizationScope) then OrganizationScope
    else if HasScopeType(scopes, DepartmentScope) then DepartmentScope
    else if HasScopeType(scopes, DivisionScope) then DivisionScope
    else NoScope
  }

  /** The precedence `_get_current_scope_type` applies, as a number. */
  function Rank(scopeType: string): nat {
    if scopeType == OrganizationScope then 3
    else if scopeType == DepartmentScope then 2
    else if scopeType == DivisionScope then 1
    else 0
  }

  lemma HasScopeTypeAppend(a: seq<Scope>, b: seq<Scope>, t: string)
    ensures HasScopeType(a + b, t) <==> HasScopeType(a, t) || HasScopeType(b, t)
  {
    if HasScopeType(a + b, t) {
      var k :| 0 <= k < |a + b| && (a + b)[k].scopeType == t;
      if k >= |a| {
        assert b[k - |a|].scopeType == t;
      }
    }
    if HasScopeType(b, t) {
      var k :| 0 <= k < |b| && b[k].scopeType == t;
      assert (a + b)[|a| + k].scopeType == t;
    }
    if HasScopeType(a, t) {
      var k :| 0 <= k < |a| && a[k].scopeType == t;
      assert (a + b)[k].scopeType == t;
    }
  }

  /** Combining two scope lists pre-selects whichever of their two types
      ranks higher: adding scopes can only raise the pre-selected type. */
  lemma CurrentScopeTypeCombine(a: seq<Scope>, b: seq<Scope>)
    ensures Rank(CurrentScopeType(a + b)) == if Rank(CurrentScopeType(a)) >= Rank(CurrentScopeType(b))
      then Rank(CurrentScopeType(a)) else Rank(CurrentScopeType(b))
  {
    HasScopeTypeAppend(a, b, OrganizationScope);
    HasScopeTypeAppend(a, b, DepartmentScope);
    HasScopeTypeAppend(a, b, DivisionScope);
  }

  /** The fields of the submitted edit form: the `scope_type` radio value
      (absent when not sent) and the raw `department_ids` and
      `division_ids` checkbox values. */
  datatype ScopeForm = ScopeForm(scopeType: Option<string>, departmentIds: seq<string>, divisionIds: seq<string>)

  /** `request.form.get("scope_type", "organization")` */
  function ChosenType(form: ScopeForm): string {
    form.scopeType.GetOr(OrganizationScope)
  }

  predicate Parses(raw: string) {
    ParseInt(raw).Some?
  }

  function ParsedValue(raw: string): int {
    ParseInt(raw).GetOr(0)
  }

  /** `request.form.getlist(name, type=int)`: every value `int()` accepts,
      in order; the others are silently dropped. */
  function IntIds(raw: seq<string>): (r: seq<int>)
    ensures |r| <= |raw|
  {
    FilterMap(raw, Parses, ParsedValue)
  }

  /** Every id comes from a submitted value, and every value that parses
      contributes its id. */
  lemma IntIdsExact(raw: seq<string>, id: int)
    ensures id in IntIds(raw) <==> exists s :: s in raw && ParseInt(s) == Some(id)
  {
    if id in IntIds(raw) {
      var s := FilterMapSound(raw, Parses, ParsedValue, id);
      assert ParseInt(s) == Some(id);
    }
    if exists s :: s in raw && ParseInt(s) == Some(id) {
      var s :| s in raw && ParseInt(s) == Some(id);
      FilterMapComplete(raw, Parses, ParsedValue, s);
    }
  }

  /** Checkboxes carrying the decimal strings of ids give back exactly
      those ids, in order. */
  lemma IntIdsRoundTrip(ids: seq<int>)
    ensures IntIds(seq(|ids|, i requires 0 <= i < |ids| => IntToString(ids[i]))) == ids
  {
    var raw := seq(|ids|, i requires 0 <= i < |ids| => IntToString(ids[i]));
    forall s | s in raw
      ensures Parses(s)
    {
      var i :| 0 <= i < |raw| && raw[i] == s;
      ParseIntToString(ids[i]);
    }
    FilterMapAllKept(raw, Parses, ParsedValue);
    forall i | 0 <= i < |ids|
      ensures IntIds(raw)[i] == ids[i]
    {
      ParseIntToString(ids[i]);
    }
  }

  /** The scope dict for one checked id of a department or division. */
  function ScopeFor(scopeType: string, id: int): (r: ScopeRequest)
    ensures scopeType == DepartmentScope ==> r == ScopeRequest(Some(DepartmentScope), Some(id), None)
    ensures scopeType != DepartmentScope ==> r == ScopeRequest(Some(DivisionScope), None, Some(id))
  {
    if scopeType == DepartmentScope then ScopeRequest(Some(DepartmentScope), Some(id), None)
    else ScopeRequest(Some(DivisionScope), None, Some(id))
  }

  /** The ids checked for the chosen type: `department_ids` for a
      department choice, `division_ids` otherwise. */
  function CheckedIds(form: ScopeForm): seq<int> {
    IntIds(if ChosenType(form) == DepartmentScope then form.departmentIds else form.divisionIds)
  }

  /** The scope list `update_user_scopes` passes on, or None when it
      redirects without calling `set_user_scopes` (department or division
      chosen but no id parsed). Every dict carries a type, so
      `set_user_scopes` never fails on a missing `scope_type`. */
  function ScopeList(form: ScopeForm): (r: Option<seq<ScopeRequest>>)
    ensures r.Some? ==> ScopeRows(r.value).Some?
  {
    var t := ChosenType(form);
    if t == OrganizationScope then Some([ScopeRequest(Some(OrganizationScope), None, None)])
    else if t == DepartmentScope || t == DivisionScope then
      var ids := CheckedIds(form);
      if ids == [] then None
      else
        var l := seq(|ids|, i requires 0 <= i < |ids| => ScopeFor(t, ids[i]));
        assert forall i :: 0 <= i < |l| ==> l[i].scopeType.Some?;
        Some(l)
    else Some([])
  }

  /** The scope-list construction of `update_user_scopes`, appending one
      dict per parsed id. */
  method BuildScopes(form: ScopeForm) returns (r: Option<seq<ScopeRequest>>)
    ensures r == ScopeList(form)
  {
    var t := ChosenType(form);
    if t == OrganizationScope {
      return Some([ScopeRequest(Some(OrganizationScope), None, None)]);
    }
    if t != DepartmentScope && t != DivisionScope {
      return Some([]);
    }
    var ids := CheckedIds(form);
    if ids == [] {
      return None;
    }
    var scopes: seq<ScopeRequest> := [];
    for i := 0 to |ids|
      invariant |scopes| == i
      invariant forall j :: 0 <= j < i ==> scopes[j] == ScopeFor(t, ids[j])
    {
      scopes := scopes + [ScopeFor(t, ids[i])];
    }
    assert scopes == seq(|ids|, i requires 0 <= i < |ids| => ScopeFor(t, ids[i]));
    r := Some(scopes);
  }

  /** An organization choice is one organization scope, and any choice
      the form does not know clears the scopes. */
  lemma ScopeListFixed(form: ScopeForm)
    ensures ChosenType(form) == OrganizationScope ==>
      ScopeList(form) == Some([ScopeRequest(Some(OrganizationScope), None, None)])
    ensures ChosenType(form) !in {OrganizationScope, DepartmentScope, DivisionScope} ==> ScopeList(form) == Some([])
  {
  }

  /** A department or division choice redirects exactly when none of its
      checkbox values parses, and otherwise is one scope of that type per
      parsed id, in order. */
  lemma ScopeListPerId(form: ScopeForm)
    requires ChosenType(form) == DepartmentScope || ChosenType(form) == DivisionScope
    ensures ScopeList(form).None? <==> CheckedIds(form) == []
    ensures ScopeList(form).Some? ==> |ScopeList(form).value| == |CheckedIds(form)|
    ensures ScopeList(form).Some? && ChosenType(form) == DepartmentScope ==>
      forall i :: 0 <= i < |CheckedIds(form)| ==>
        ScopeList(form).value[i] == ScopeRequest(Some(DepartmentScope), Some(CheckedIds(form)[i]), None)
    ensures ScopeList(form).Some? && ChosenType(form) == DivisionScope ==>
      forall i :: 0 <= i < |CheckedIds(form)| ==>
        ScopeList(form).value[i] == ScopeRequest(Some(DivisionScope), None, Some(CheckedIds(form)[i]))
  {
  }

  /** Saving the form and reopening it pre-selects the type that was
      chosen; a type the form does not know clears the scopes and reopens
      as "none". */
  lemma ScopeTypeRoundTrip(form: ScopeForm)
    requires ScopeList(form).Some?
    ensures ScopeRows(ScopeList(form).value).Some?
    ensures var t := ChosenType(form);
      CurrentScopeType(ScopeRows(ScopeList(form).value).value) ==
        if t in {OrganizationScope, DepartmentScope, DivisionScope} then t else NoScope
  {
    var l := ScopeList(form).value;
    var rows := ScopeRows(l).value;
    var t := ChosenType(form);
    if t in {OrganizationScope, DepartmentScope, DivisionScope} {
      assert rows[0].scopeType == t;
      forall k | 0 <= k < |rows|
        ensures rows[k].scopeType == t
      {
      }
    } else {
      assert rows == [];
    }
  }

  /** `update_user_scopes` as a whole: a redirect without a list changes
      nothing; otherwise the user's scopes become the built list, or the
      missing user is reported. */
  method UpdateUserScopes(store: UserStore, userId: int, form: ScopeForm) returns (r: Option<Result<seq<Scope>, UserError>>)
    requires store.Valid()
    modifies store
    ensures store.Valid() && store.roles == old(store.roles)
    ensures ScopeList(form).None? ==> r.None? && store.users == old(store.users)
    ensures ScopeList(form).Some? && UserIndex(old(store.users), userId).None? ==>
      r == Some(Failure(UserNotFound(userId))) && store.users == old(store.users)
    ensures ScopeList(form).Some? && UserIndex(old(store.users), userId).Some? ==>
      var k := UserIndex(old(store.users), userId).value;
      var rows := ScopeRows(ScopeList(form).value).value;
      && CurrentScopeType(rows) == (if ChosenType(form) in {OrganizationScope, DepartmentScope, DivisionScope} then ChosenType(form) else NoScope)
      && r == Some(Success(rows))
      && store.users == old(store.users)[k := old(store.users)[k].(scopes := rows)]
  {
    var scopes := BuildScopes(form);
    if scopes.None? {
      return None;
    }
    ScopeTypeRoundTrip(form);
    var res := store.SetUserScopes(userId, scopes.value);
    r := Some(res);
  }
}

/** The form parsers of `app/blueprints/requirements/routes.py`: the
    hardware and software selection pages post one `<prefix><id>_selected`
    checkbox per chosen item, with optional `<prefix><id>_quantity` and
    `<prefix><id>_notes` fields, and the parsers turn them into the item
    lists the requirement service stores. */
module RequirementForms {
  import opened Wrappers
  import opened Seqs
  import opened Text
  import opened RequirementService

  /** A submitted form: its keys in iteration order, and the (first) value
      of each. */
  datatype Form = Form(keys: seq<string>, values: map<string, string>)

  /** Iterating a submitted form yields each key once. The parsers do not
      depend on it; the round trip below assumes it of the form it builds. */
  predicate DistinctKeys(form: Form) {
    NoRepeats(form.keys)
  }

  /** No key occurs twice. */
  predicate NoRepeats(keys: seq<string>) {
    |keys| == 0 || (keys[0] !in keys[1..] && NoRepeats(keys[1..]))
  }

  /** `form.get(key, default)` */
  function Get(form: Form, key: string, default: string): string {
    if key in form.values then form.values[key] else default
  }

  const HardwarePrefix: string := "hw_"
  const SoftwarePrefix: string := "sw_"
  const SelectedSuffix: string := "_selected"
  const QuantitySuffix: string := "_quantity"
  const NotesSuffix: string := "_notes"

  /** The two field prefixes the parsers use. */
  predicate ItemPrefix(prefix: string) {
    prefix == HardwarePrefix || prefix == SoftwarePrefix
  }

  /** The item id a form key selects: the key must end with `_selected` and
      start with the prefix; every occurrence of either is removed and the
      rest must parse as an integer. */
  function SelectedId(key: string, prefix: string): (r: Option<int>)
    ensures r.Some? ==> StartsWith(key, prefix) && EndsWith(key, SelectedSuffix)
  {
    if EndsWith(key, SelectedSuffix) && StartsWith(key, prefix) then
      // Replacing an empty pattern by "" leaves a string unchanged.
      var rest := if prefix == "" then key else ReplaceAll(key, prefix, "");
      ParseInt(ReplaceAll(rest, SelectedSuffix, ""))
    else None
  }

  /** `max(1, int(text))`, or 1 when the text is not an integer. */
  function Quantity(text: string): (q: int)
    ensures q >= 1
    ensures ParseInt(text).None? ==> q == 1
    ensures ParseInt(text).Some? ==> q >= ParseInt(text).value
    ensures ParseInt(text).Some? && ParseInt(text).value >= 1 ==> q == ParseInt(text).value
  {
    match ParseInt(text)
    case None => 1
    case Some(n) => if n < 1 then 1 else n
  }

  /** `text.strip() or None` */
  function Notes(text: string): (n: Option<string>)
    ensures n.None? <==> Strip(text) == ""
    ensures n.Some? ==> n.value == Strip(text)
  {
    var t := Strip(text);
    if t == "" then None else Some(t)
  }

  /** What the parsers accept as stored notes: none, or non-blank text
      without surrounding whitespace. */
  predicate CanonicalNotes(notes: Option<string>) {
    notes.Some? ==> notes.value != "" && Strip(notes.value) == notes.value
  }

  /** Parsed notes are canonical, and canonical notes parse to themselves. */
  lemma NotesCanonical(text: string, notes: Option<string>)
    requires CanonicalNotes(notes)
    ensures CanonicalNotes(Notes(text))
    ensures Notes(notes.GetOr("")) == notes
  {
    StripIdempotent(text);
    if notes.None? {
      assert Strip("") == "";
    }
  }

  function SelectedKey(prefix: string, id: int): string { prefix + IntToString(id) + SelectedSuffix }
  function QuantityKey(prefix: string, id: int): string { prefix + IntToString(id) + QuantitySuffix }
  function NotesKey(prefix: string, id: int): string { prefix + IntToString(id) + NotesSuffix }

  /** The item for a selected id: the quantity field defaults to "1" and
      the notes field to "". */
  function ItemFor(form: Form, prefix: string, id: int): (it: Item)
    ensures it.itemId == id && it.quantity >= 1 && CanonicalNotes(it.notes)
  {
    var notes := Get(form, NotesKey(prefix, id), "");
    NotesCanonical(notes, None);
    Item(id, Quantity(Get(form, QuantityKey(prefix, id), "1")), Notes(notes))
  }

  /** A key the parser turns into an item. */
  function Selected(prefix: string): string -> bool
  {
    key => SelectedId(key, prefix).Some?
  }

  /** The item a selected key gives. */
  function KeyItem(form: Form, prefix: string): string -> Item
  {
    key => ItemFor(form, prefix, SelectedId(key, prefix).GetOr(0))
  }

  /** What `_parse_hardware_form` (prefix `hw_`) and `_parse_software_form`
      (prefix `sw_`) return: the item of every selected key, in key order. */
  function ItemsParsed(form: Form, prefix: string): (r: seq<Item>)
    ensures |r| <= |form.keys|
  {
    FilterMap(form.keys, Selected(prefix), KeyItem(form, prefix))
  }

  /** Exactly one item per selected key. */
  lemma ItemsParsedCount(form: Form, prefix: string)
    ensures |ItemsParsed(form, prefix)| == |Filter(form.keys, Selected(prefix))|
  {
    FilterMapLength(form.keys, Selected(prefix), KeyItem(form, prefix));
  }

  /** The key an item of the parse comes from. */
  lemma ItemKey(form: Form, prefix: string, it: Item) returns (key: string)
    requires it in ItemsParsed(form, prefix)
    ensures key in form.keys && SelectedId(key, prefix).Some?
    ensures it == ItemFor(form, prefix, SelectedId(key, prefix).value)
  {
    key := FilterMapSound(form.keys, Selected(prefix), KeyItem(form, prefix), it);
  }

  /** Every item comes from a key with the prefix and the `_selected`
      suffix whose id it carries, and has a quantity of at least 1 and
      canonical notes. */
  lemma ItemsParsedSound(form: Form, prefix: string, it: Item)
    requires it in ItemsParsed(form, prefix)
    ensures it.quantity >= 1 && CanonicalNotes(it.notes)
    ensures exists key :: key in form.keys && StartsWith(key, prefix) && EndsWith(key, SelectedSuffix)
                          && SelectedId(key, prefix) == Some(it.itemId)
  {
    var key := ItemKey(form, prefix, it);
  }

  /** Every selected key contributes its item. */
  lemma ItemsParsedComplete(form: Form, prefix: string, key: string)
    requires key in form.keys && SelectedId(key, prefix).Some?
    ensures ItemFor(form, prefix, SelectedId(key, prefix).value) in ItemsParsed(form, prefix)
  {
    assert Selected(prefix)(key);
    FilterMapComplete(form.keys, Selected(prefix), KeyItem(form, prefix), key);
  }

  /** The parse loop shared by both pages. */
  method ParseItems(form: Form, prefix: string) returns (items: seq<Item>)
    ensures items == ItemsParsed(form, prefix)
  {
    items := [];
    var i := 0;
    while i < |form.keys|
      invariant 0 <= i <= |form.keys|
      invariant items == FilterMap(form.keys[..i], Selected(prefix), KeyItem(form, prefix))
    {
      FilterMapSnoc(form.keys, i, Selected(prefix), KeyItem(form, prefix));
      var key := form.keys[i];
      var id := SelectedId(key, prefix);
      if id.Some? {
        items := items + [ItemFor(form, prefix, id.value)];
      }
      i := i + 1;
    }
    assert form.keys[..|form.keys|] == form.keys;
  }

  /** `_parse_hardware_form` */
  method ParseHardwareForm(form: Form) returns (items: seq<Item>)
    ensures items == ItemsParsed(form, HardwarePrefix)
  {
    items := ParseItems(form, HardwarePrefix);
  }

  /** `_parse_software_form` */
  method ParseSoftwareForm(form: Form) returns (items: seq<Item>)
    ensures items == ItemsParsed(form, SoftwarePrefix)
  {
    items := ParseItems(form, SoftwarePrefix);
  }

  // ------------------------------------------------------------- round trip

  /** The text of `str(id)` followed by the `_selected` suffix holds no
      occurrence of a field prefix. */
  lemma NoPrefixInTail(prefix: string, id: int)
    requires ItemPrefix(prefix)
    ensures Absent(IntToString(id) + SelectedSuffix, prefix)
  {
    var d := IntToString(id);
    var t := d + SelectedSuffix;
    IntToStringChars(id);
    assert |prefix| == 3 && prefix[2] == '_' && (prefix[0] == 'h' || prefix[0] == 's');
    assert SelectedSuffix[1..] == "selected";
    forall i: nat | i <= |t|
      ensures !OccursAt(t, prefix, i)
    {
      if i + 3 <= |t| {
        var w := t[i..i + 3];
        if i < |d| {
          assert w[0] == d[i] && d[i] in d;
        } else {
          assert w[2] == SelectedSuffix[i + 2 - |d|] && SelectedSuffix[i + 2 - |d|] in SelectedSuffix[1..];
        }
      }
    }
  }

  /** The `_selected` suffix is an underscore and lower-case letters. */
  lemma SuffixLetters()
    ensures forall c :: c in SelectedSuffix ==> c == '_' || 'a' <= c <= 'z'
  {
    assert SelectedSuffix == ['_', 's', 'e', 'l', 'e', 'c', 't', 'e', 'd'];
  }

  /** The checkbox key of an id parses back to that id. */
  lemma SelectedKeyParses(prefix: string, id: int)
    requires ItemPrefix(prefix)
    ensures SelectedId(SelectedKey(prefix, id), prefix) == Some(id)
  {
    var d := IntToString(id);
    var key := SelectedKey(prefix, id);
    assert key == prefix + (d + SelectedSuffix);
    assert key[..|prefix|] == prefix;
    assert key[|key| - |SelectedSuffix|..] == SelectedSuffix;
    ReplaceFront(prefix, d + SelectedSuffix, "");
    NoPrefixInTail(prefix, id);
    ReplaceNone(d + SelectedSuffix, prefix, "");
    assert ReplaceAll(key, prefix, "") == d + SelectedSuffix;
    IntToStringChars(id);
    SuffixLetters();
    ReplaceBack(d, SelectedSuffix, "");
    assert d + "" == d;
    ParseIntToString(id);
  }

  /** An item the parsers could have produced. */
  predicate CanonicalItem(it: Item) {
    it.quantity >= 1 && CanonicalNotes(it.notes)
  }

  /** A form posting `it` under the prefix: the checkbox, the quantity as
      `str(quantity)` and the notes (empty when there are none). */
  predicate Posts(form: Form, prefix: string, it: Item) {
    && QuantityKey(prefix, it.itemId) in form.values
    && form.values[QuantityKey(prefix, it.itemId)] == IntToString(it.quantity)
    && NotesKey(prefix, it.itemId) in form.values
    && form.values[NotesKey(prefix, it.itemId)] == it.notes.GetOr("")
  }

  /** Posting a canonical item and parsing its checkbox gives the item
      back. */
  lemma ItemRoundTrip(form: Form, prefix: string, it: Item)
    requires ItemPrefix(prefix) && CanonicalItem(it) && Posts(form, prefix, it)
    ensures KeyItem(form, prefix)(SelectedKey(prefix, it.itemId)) == it
  {
    SelectedKeyParses(prefix, it.itemId);
    ParseIntToString(it.quantity);
    NotesCanonical("", it.notes);
  }

  /** Every checkbox key of an item is one the parsers select. */
  lemma KeysSelected(form: Form, prefix: string, items: seq<Item>)
    requires ItemPrefix(prefix)
    requires |form.keys| == |items|
    requires forall i :: 0 <= i < |items| ==> form.keys[i] == SelectedKey(prefix, items[i].itemId)
    ensures forall key :: key in form.keys ==> Selected(prefix)(key)
  {
    forall key | key in form.keys
      ensures Selected(prefix)(key)
    {
      var i :| 0 <= i < |form.keys| && form.keys[i] == key;
      SelectedKeyParses(prefix, items[i].itemId);
    }
  }

  /** A form whose keys are the checkboxes of canonical items, each key
      once and each item posted, parses to exactly those items, in order. */
  lemma {:induction false} FormRoundTrip(form: Form, prefix: string, items: seq<Item>)
    requires ItemPrefix(prefix) && DistinctKeys(form)
    requires |form.keys| == |items|
    requires forall i :: 0 <= i < |items| ==> form.keys[i] == SelectedKey(prefix, items[i].itemId)
    requires forall i :: 0 <= i < |items| ==> CanonicalItem(items[i]) && Posts(form, prefix, items[i])
    ensures ItemsParsed(form, prefix) == items
  {
    KeysSelected(form, prefix, items);
    FilterMapAllKept(form.keys, Selected(prefix), KeyItem(form, prefix));
    forall i | 0 <= i < |items|
      ensures ItemsParsed(form, prefix)[i] == items[i]
    {
      ItemRoundTrip(form, prefix, items[i]);
    }
  }

  /** A selected key without quantity or notes fields gives quantity 1 and
      no notes. */
  lemma MissingFieldsDefault(form: Form, prefix: string, id: int)
    requires ItemPrefix(prefix)
    requires QuantityKey(prefix, id) !in form.values && NotesKey(prefix, id) !in form.values
    ensures ItemFor(form, prefix, id) == Item(id, 1, None)
  {
    ParseIntToString(1);
    assert IntToString(1) == "1";
    assert Strip("") == "";
  }
}

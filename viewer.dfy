/**
 * The non-UI helpers of the catalogue viewer: the next field to fill, the missing-field summary,
 * the advanced search, the schema check and the regional colour themes.
 */
module Viewer {
  import opened Wrappers
  import opened Strings
  import opened Values
  import opened Seqs

  /** A catalogue entry as a dict in insertion order: its items. */
  type Entry = seq<(string, Value)>

  // ---- get_next_field ----------------------------------------------------------------------

  /** `not str(v).strip()`: the value prints as blank. */
  predicate Blank(v: Value) {
    Strip(Repr(v)) == ""
  }

  /** The key of the first blank item, in insertion order. */
  function FirstBlank(entry: Entry): Option<string> {
    if entry == [] then None
    else if Blank(entry[0].1) then Some(entry[0].0)
    else FirstBlank(entry[1..])
  }

  /** Item `i` is blank and no earlier item is. */
  predicate FirstBlankAt(entry: Entry, i: int) {
    0 <= i < |entry| && Blank(entry[i].1) && forall j :: 0 <= j < i ==> !Blank(entry[j].1)
  }

  /** `FirstBlank` is `None` exactly when no item is blank, and otherwise the key of the first blank item. */
  lemma {:induction false} FirstBlankIsFirst(entry: Entry)
    ensures FirstBlank(entry).None? <==> forall i :: 0 <= i < |entry| ==> !Blank(entry[i].1)
    ensures FirstBlank(entry).Some? ==> exists i :: FirstBlankAt(entry, i) && entry[i].0 == FirstBlank(entry).value
  {
    if entry != [] && !Blank(entry[0].1) {
      var rest := entry[1..];
      FirstBlankIsFirst(rest);
      assert forall i :: 1 <= i < |entry| ==> entry[i] == rest[i - 1];
      if FirstBlank(rest).Some? {
        var i :| FirstBlankAt(rest, i) && rest[i].0 == FirstBlank(rest).value;
        assert FirstBlankAt(entry, i + 1);
      }
    } else if entry != [] {
      assert FirstBlankAt(entry, 0);
    }
  }

  /** `get_next_field`: the loop over the items with an early return. */
  method GetNextField(entry: Entry) returns (r: Option<string>)
    ensures r == FirstBlank(entry)
  {
    for i := 0 to |entry|
      invariant FirstBlank(entry[i..]) == FirstBlank(entry)
    {
      var (k, v) := entry[i];
      assert entry[i..][1..] == entry[i + 1..];
      if Strip(Repr(v)) == "" {
        return Some(k);
      }
    }
    assert entry[|entry|..] == [];
    return None;
  }

  // ---- calculate_summary -------------------------------------------------------------------

  /** The keys of the items, in insertion order. */
  function Keys(items: Entry): (ks: seq<string>)
    ensures |ks| == |items| && forall i :: 0 <= i < |items| ==> ks[i] == items[i].0
  {
    if items == [] then [] else [items[0].0] + Keys(items[1..])
  }

  predicate FalsyItem(item: (string, Value)) {
    !Truthy(item.1)
  }

  /** `[k for k, v in entry.items() if not v]`. */
  function MissingFields(entry: Entry): (r: seq<string>)
    ensures |r| <= |entry|
    ensures forall i :: 0 <= i < |r| ==> exists j :: 0 <= j < |entry| && entry[j].0 == r[i] && !Truthy(entry[j].1)
  {
    if entry == [] then []
    else (if Truthy(entry[0].1) then [] else [entry[0].0]) + MissingFields(entry[1..])
  }

  /**
   * The missing fields are the keys of the falsy items, each as often as it occurs and in
   * insertion order, so they form a subsequence of the keys.
   */
  lemma {:induction false} MissingFieldsInOrder(entry: Entry)
    ensures MissingFields(entry) == Keys(Filter(entry, FalsyItem))
    ensures IsSubseq(MissingFields(entry), Keys(entry))
  {
    if entry != [] {
      var rest := MissingFields(entry[1..]);
      MissingFieldsInOrder(entry[1..]);
      KeysCons(entry[0], entry[1..]);
      assert [entry[0]] + entry[1..] == entry;
      if Truthy(entry[0].1) {
        SubseqCons(rest, Keys(entry));
      } else {
        KeysCons(entry[0], Filter(entry[1..], FalsyItem));
        SubseqBoth(entry[0].0, rest, Keys(entry[1..]));
      }
    }
  }

  lemma KeysCons(item: (string, Value), items: Entry)
    ensures Keys([item] + items) == [item.0] + Keys(items)
  {
    assert ([item] + items)[1..] == items;
  }

  /** `sum(1 for v in entry.values() if v)`. */
  function CompletedCount(entry: Entry): (n: nat)
    ensures n <= |entry|
    ensures n == |entry| <==> forall j :: 0 <= j < |entry| ==> Truthy(entry[j].1)
  {
    if entry == [] then 0
    else (if Truthy(entry[0].1) then 1 else 0) + CompletedCount(entry[1..])
  }

  /** Every item is either completed or missing: completed + missing = total. */
  lemma {:induction false} CompletedPlusMissing(entry: Entry)
    ensures CompletedCount(entry) + |MissingFields(entry)| == |entry|
  {
    if entry != [] {
      CompletedPlusMissing(entry[1..]);
    }
  }

  /** A key is reported missing exactly when some item with that key has a falsy value. */
  lemma {:induction false} MissingFieldsIff(entry: Entry, k: string)
    ensures k in MissingFields(entry) <==> exists i :: 0 <= i < |entry| && entry[i].0 == k && !Truthy(entry[i].1)
  {
    if entry != [] {
      MissingFieldsIff(entry[1..], k);
      var rest := entry[1..];
      assert forall i :: 1 <= i < |entry| ==> entry[i] == rest[i - 1];
      if exists i :: 1 <= i < |entry| && entry[i].0 == k && !Truthy(entry[i].1) {
        var i :| 1 <= i < |entry| && entry[i].0 == k && !Truthy(entry[i].1);
        assert rest[i - 1].0 == k && !Truthy(rest[i - 1].1);
      }
    }
  }

  /** A non-string value never prints as blank (`None`, `True`, `False`, digits). */
  lemma ReprNotBlank(v: Value)
    requires !v.Str?
    ensures !Blank(v)
  {
    var r := Repr(v);
    StripProperties(r);
    if v.Int? {
      if v.i >= 0 {
        assert '0' <= r[0] <= '9';
      } else {
        assert r[0] == '-';
      }
    }
    assert !IsSpace(r[0]);
  }

  /**
   * The two notions of "unfilled" disagree exactly on a non-empty all-whitespace string (blank
   * but truthy) and on a falsy non-string such as `0` (falsy but not blank).
   */
  lemma BlankVersusFalsy(v: Value)
    ensures Blank(v) != !Truthy(v) <==> (v.Str? && v.s != "" && AllSpace(v.s)) || (!v.Str? && !Truthy(v))
  {
    if v.Str? {
      StripProperties(v.s);
    } else {
      ReprNotBlank(v);
    }
  }

  /** An item holding only spaces is the next field to fill, yet the summary does not count it missing. */
  lemma SpacesAreNextNotMissing()
    ensures FirstBlank([("region", Str("  "))]) == Some("region")
    ensures MissingFields([("region", Str("  "))]) == []
  {
    assert Blank(Str("  ")) by {
      StripProperties("  ");
    }
  }

  /** An item holding `0` is counted missing, yet it is never the next field to fill. */
  lemma ZeroIsMissingNotNext()
    ensures FirstBlank([("estimated_speakers", Int(0))]) == None
    ensures MissingFields([("estimated_speakers", Int(0))]) == ["estimated_speakers"]
  {
    ReprNotBlank(Int(0));
  }

  // ---- advanced_search ---------------------------------------------------------------------

  const CultureNameKey: string := "culture_name"

  /** `entry.get(key, "")` as text; `None` where it is not a string and `.lower()` would raise. */
  function FieldText(e: Record, key: string): Option<string> {
    if key !in e then Some("")
    else if e[key].Str? then Some(e[key].s)
    else None
  }

  /** Every field the search looks at in `e` is text (the query's and each non-empty filter's). */
  predicate Inspectable(e: Record, query: string, filters: seq<(string, string)>) {
    (query != "" ==> FieldText(e, CultureNameKey).Some?)
    && forall j :: 0 <= j < |filters| && filters[j].1 != "" ==> FieldText(e, filters[j].0).Some?
  }

  /** `text` contains `needle`, ignoring ASCII case. */
  predicate ContainsFolded(text: string, needle: string) {
    Contains(Lower(text), Lower(needle))
  }

  /** The entry passes the query and every non-empty filter. */
  predicate Matches(e: Record, query: string, filters: seq<(string, string)>)
    requires Inspectable(e, query, filters)
  {
    (query != "" ==> ContainsFolded(FieldText(e, CultureNameKey).value, query))
    && forall j :: 0 <= j < |filters| && filters[j].1 != "" ==> ContainsFolded(FieldText(e, filters[j].0).value, filters[j].1)
  }

  function Keeps(query: string, filters: seq<(string, string)>): Record -> bool {
    e => Inspectable(e, query, filters) && Matches(e, query, filters)
  }

  predicate AllInspectable(entries: seq<Record>, query: string, filters: seq<(string, string)>) {
    forall i :: 0 <= i < |entries| ==> Inspectable(entries[i], query, filters)
  }

  lemma AllInspectableSnoc(entries: seq<Record>, i: nat, query: string, filters: seq<(string, string)>)
    requires i < |entries| && AllInspectable(entries[..i], query, filters) && Inspectable(entries[i], query, filters)
    ensures AllInspectable(entries[..i + 1], query, filters)
  {
    assert forall j :: 0 <= j < i ==> entries[..i + 1][j] == entries[..i][j];
  }

  /** The search result: the matching entries in order; `None` if some inspected field is not text. */
  function SearchResult(entries: seq<Record>, query: string, filters: seq<(string, string)>): Option<seq<Record>> {
    if AllInspectable(entries, query, filters) then
      Some(Filter(entries, Keeps(query, filters)))
    else None
  }

  /** The filter loop for one entry (the `match` flag of `advanced_search`). */
  method FiltersMatch(entry: Record, filters: seq<(string, string)>, matched: bool) returns (r: Option<bool>)
    ensures r.Some? <==> forall j :: 0 <= j < |filters| && filters[j].1 != "" ==> FieldText(entry, filters[j].0).Some?
    ensures r.Some? ==> r.value == (matched && forall j :: 0 <= j < |filters| && filters[j].1 != "" ==>
      ContainsFolded(FieldText(entry, filters[j].0).value, filters[j].1))
  {
    var m := matched;
    for i := 0 to |filters|
      invariant forall j :: 0 <= j < i && filters[j].1 != "" ==> FieldText(entry, filters[j].0).Some?
      invariant m == (matched && forall j :: 0 <= j < i && filters[j].1 != "" ==>
        ContainsFolded(FieldText(entry, filters[j].0).value, filters[j].1))
    {
      var (key, value) := filters[i];
      if value != "" {
        var text := FieldText(entry, key);
        if text.None? {
          return None;
        }
        if !Contains(Lower(text.value), Lower(value)) {
          m := false;
        }
      }
    }
    return Some(m);
  }

  /** Whether one entry is kept: `None` where `.lower()` would raise. */
  method EntryMatches(entry: Record, query: string, filters: seq<(string, string)>) returns (r: Option<bool>)
    ensures r.Some? <==> Inspectable(entry, query, filters)
    ensures r.Some? ==> r.value == Matches(entry, query, filters)
  {
    var m := true;
    if query != "" {
      var name := FieldText(entry, CultureNameKey);
      if name.None? {
        return None;
      }
      if !Contains(Lower(name.value), Lower(query)) {
        m := false;
      }
    }
    r := FiltersMatch(entry, filters, m);
  }

  /** `advanced_search`: the entries that pass, in order. */
  method AdvancedSearch(entries: seq<Record>, query: string, filters: seq<(string, string)>)
    returns (r: Option<seq<Record>>)
    ensures r == SearchResult(entries, query, filters)
  {
    var filtered: seq<Record> := [];
    ghost var keep := Keeps(query, filters);
    for i := 0 to |entries|
      invariant AllInspectable(entries[..i], query, filters)
      invariant filtered == Filter(entries[..i], keep)
    {
      var entry := entries[i];
      var m := EntryMatches(entry, query, filters);
      if m.None? {
        return None;
      }
      AllInspectableSnoc(entries, i, query, filters);
      FilterPrefixSnoc(entries, i, keep);
      assert keep(entry) == m.value;
      if m.value {
        filtered := filtered + [entry];
      }
    }
    assert entries[..|entries|] == entries;
    return Some(filtered);
  }

  /** The result keeps the input order, and holds exactly the entries that match. */
  lemma SearchKeepsMatchesInOrder(entries: seq<Record>, query: string, filters: seq<(string, string)>)
    requires SearchResult(entries, query, filters).Some?
    ensures IsSubseq(SearchResult(entries, query, filters).value, entries)
    ensures forall e :: e in SearchResult(entries, query, filters).value <==>
      e in entries && Inspectable(e, query, filters) && Matches(e, query, filters)
  {
  }

  /** An empty query with only empty filter values returns every entry. */
  lemma EmptySearchKeepsAll(entries: seq<Record>, filters: seq<(string, string)>)
    requires forall j :: 0 <= j < |filters| ==> filters[j].1 == ""
    ensures SearchResult(entries, "", filters) == Some(entries)
  {
    FilterAll(entries, Keeps("", filters));
  }

  // ---- validate_schema ---------------------------------------------------------------------

  /** The Python types a schema names. */
  datatype FieldType = StrType | IntType | BoolType | NoneType

  /** `field_type.__name__`. */
  function TypeName(t: FieldType): string {
    match t
    case StrType => "str"
    case IntType => "int"
    case BoolType => "bool"
    case NoneType => "NoneType"
  }

  /** `isinstance(v, t)`; `bool` is a subclass of `int`, so flags pass as integers. */
  predicate IsInstance(v: Value, t: FieldType) {
    match t
    case StrType => v.Str?
    case IntType => v.Int? || v.Flag?
    case BoolType => v.Flag?
    case NoneType => v.Null?
  }

  /** `default_schema`. */
  const DefaultSchema: seq<(string, FieldType)> :=
    [("culture_name", StrType), ("language_tag", StrType), ("estimated_speakers", IntType), ("primary_regions", StrType)]

  /** The error for one schema field, if any. */
  function FieldError(entry: Record, field: string, t: FieldType): seq<string> {
    if field !in entry then ["Missing field: " + field]
    else if !IsInstance(entry[field], t) then ["Field " + field + " should be of type " + TypeName(t)]
    else []
  }

  /** The errors of the schema fields, in schema order. */
  function SchemaErrors(entry: Record, schema: seq<(string, FieldType)>): seq<string> {
    if schema == [] then []
    else
      var n := |schema| - 1;
      SchemaErrors(entry, schema[..n]) + FieldError(entry, schema[n].0, schema[n].1)
  }

  /** The entry has every schema field, each of the named type. */
  predicate Conforms(entry: Record, schema: seq<(string, FieldType)>) {
    forall j :: 0 <= j < |schema| ==> schema[j].0 in entry && IsInstance(entry[schema[j].0], schema[j].1)
  }

  /** `validate_schema`: the loop over the schema appending errors. */
  method ValidateSchema(entry: Record, schema: seq<(string, FieldType)>) returns (errors: seq<string>)
    ensures errors == SchemaErrors(entry, schema)
  {
    errors := [];
    for i := 0 to |schema|
      invariant errors == SchemaErrors(entry, schema[..i])
    {
      var (field, fieldType) := schema[i];
      assert schema[..i + 1][..i] == schema[..i];
      if field !in entry {
        errors := errors + ["Missing field: " + field];
      } else if !IsInstance(entry[field], fieldType) {
        errors := errors + ["Field " + field + " should be of type " + TypeName(fieldType)];
      }
    }
    assert schema[..|schema|] == schema;
  }

  /** No errors exactly when the entry conforms; at most one error per schema field. */
  lemma {:induction false} NoErrorsIffConforms(entry: Record, schema: seq<(string, FieldType)>)
    ensures SchemaErrors(entry, schema) == [] <==> Conforms(entry, schema)
    ensures |SchemaErrors(entry, schema)| <= |schema|
  {
    if schema != [] {
      var n := |schema| - 1;
      NoErrorsIffConforms(entry, schema[..n]);
      assert forall j :: 0 <= j < n ==> schema[..n][j] == schema[j];
      if SchemaErrors(entry, schema[..n]) != [] {
        var j :| 0 <= j < n && !(schema[..n][j].0 in entry && IsInstance(entry[schema[..n][j].0], schema[..n][j].1));
        assert !(schema[j].0 in entry && IsInstance(entry[schema[j].0], schema[j].1));
      }
    }
  }

  /** A flag passes where an integer is required, as `isinstance(True, int)` holds. */
  lemma FlagPassesAsInteger(entry: Record)
    requires "estimated_speakers" in entry && entry["estimated_speakers"] == Flag(true)
    requires "culture_name" in entry && "language_tag" in entry && "primary_regions" in entry
    requires entry["culture_name"].Str? && entry["language_tag"].Str? && entry["primary_regions"].Str?
    ensures SchemaErrors(entry, DefaultSchema) == []
  {
    NoErrorsIffConforms(entry, DefaultSchema);
  }

  // ---- get_theme_colors --------------------------------------------------------------------

  datatype Theme = Theme(background: string, accent: string)

  const DefaultTheme: Theme := Theme("#FFFFFF", "#000000")

  /** The `themes` table. */
  const Themes: map<string, Theme> := map[
    "Asia" := Theme("#FFEBEE", "#D32F2F"),
    "Europe" := Theme("#E3F2FD", "#1976D2"),
    "Africa" := Theme("#FFF3E0", "#F57C00"),
    "Oceania" := Theme("#E8F5E9", "#388E3C"),
    "North America" := Theme("#F3E5F5", "#7B1FA2"),
    "South America" := Theme("#FFFDE7", "#FBC02D")
  ]

  /** `get_theme_colors`: the region's palette, white and black for any other region. */
  function GetThemeColors(region: string): (r: Theme)
    ensures r == DefaultTheme <==> region !in Themes
    ensures region in Themes ==> r == Themes[region]
  {
    assert forall t :: t in Themes ==> Themes[t].background != DefaultTheme.background;
    if region in Themes then Themes[region] else DefaultTheme
  }

  /** The default palette is returned exactly for a region outside the six listed. */
  lemma DefaultThemeIff(region: string)
    ensures GetThemeColors(region) == DefaultTheme <==> region !in Themes
    ensures Themes.Keys == {"Asia", "Europe", "Africa", "Oceania", "North America", "South America"}
  {
    assert forall r :: r in Themes ==> Themes[r].background != DefaultTheme.background;
  }
}

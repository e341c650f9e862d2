/**
 * The validators of the catalogue-ingestion tool: which required fields an entry lacks, which
 * of them get a suggestion, and the normalisation of one CSV row into an entry.
 */
module CatalogPopulation {
  import opened Wrappers
  import opened Strings
  import opened Values
  import opened Seqs

  const CultureNameKey: string := "culture_name"
  const RegionKey: string := "region"
  const LanguageTagsKey: string := "language_tags"

  /** `REQUIRED_FIELDS`, in order. */
  const RequiredFields: seq<string> := [CultureNameKey, RegionKey, LanguageTagsKey]

  const LanguageTagsQuestion: string := "What languages are spoken in this culture's region?"
  const RegionQuestion: string := "What is the primary country or region for this culture?"

  lemma RequiredFieldsDistinct()
    ensures CultureNameKey != RegionKey && CultureNameKey != LanguageTagsKey && RegionKey != LanguageTagsKey
  {
    assert CultureNameKey[0] != RegionKey[0] && CultureNameKey[0] != LanguageTagsKey[0];
    assert RegionKey[0] != LanguageTagsKey[0];
  }

  /** `validate_entry`: the required fields whose value is missing or falsy, in `REQUIRED_FIELDS` order. */
  function ValidateEntry(entry: Record): (missing: seq<string>)
    ensures IsSubseq(missing, RequiredFields)
    ensures forall f :: f in missing <==> f in RequiredFields && !TruthyField(entry, f)
  {
    Filter(RequiredFields, f => !TruthyField(entry, f))
  }

  /** Nothing is reported exactly when all three required fields are present and truthy. */
  lemma ValidEntryIff(entry: Record)
    ensures ValidateEntry(entry) == []
      <==> TruthyField(entry, CultureNameKey) && TruthyField(entry, RegionKey) && TruthyField(entry, LanguageTagsKey)
  {
    var missing := ValidateEntry(entry);
    assert RequiredFields[0] == CultureNameKey && RequiredFields[1] == RegionKey && RequiredFields[2] == LanguageTagsKey;
    if missing == [] {
      assert CultureNameKey !in missing && RegionKey !in missing && LanguageTagsKey !in missing;
    } else {
      assert missing[0] in missing;
    }
  }

  /** `suggest_missing_fields`: a question for each of `language_tags` and `region` that is missing or falsy. */
  function SuggestMissingFields(entry: Record): (suggestions: map<string, string>)
    ensures LanguageTagsKey in suggestions <==> !TruthyField(entry, LanguageTagsKey)
    ensures RegionKey in suggestions <==> !TruthyField(entry, RegionKey)
    ensures forall k :: k in suggestions ==> k == LanguageTagsKey || k == RegionKey
  {
    RequiredFieldsDistinct();
    var s: map<string, string> := map[];
    var s := if !TruthyField(entry, LanguageTagsKey) then s[LanguageTagsKey := LanguageTagsQuestion] else s;
    if !TruthyField(entry, RegionKey) then s[RegionKey := RegionQuestion] else s
  }

  /** Each suggestion is for a field `validate_entry` reports, and carries that field's question. */
  lemma SuggestionsAreReported(entry: Record)
    ensures forall k :: k in SuggestMissingFields(entry) ==> k in ValidateEntry(entry)
    ensures forall k :: k in SuggestMissingFields(entry) ==>
      SuggestMissingFields(entry)[k] == (if k == RegionKey then RegionQuestion else LanguageTagsQuestion)
  {
    RequiredFieldsDistinct();
    assert RegionKey in RequiredFields && LanguageTagsKey in RequiredFields;
  }

  /** A CSV cell as `csv.DictReader` yields it: text, or `None` for a column the row is short of. */
  type Row = map<string, Option<string>>

  /** `row.get(field, "")`: `None` for a short row's missing cell, `""` for an absent column. */
  function Cell(row: Row, field: string): Option<string> {
    if field in row then row[field] else Some("")
  }

  /**
   * The per-row normalisation in `csv_entries`: the three required fields, each trimmed, with
   * `""` for an absent column; `None` where `.strip()` would be called on a short row's `None`.
   */
  function NormalizeRow(row: Row): (r: Option<Record>)
    ensures r.None? <==> exists f :: f in RequiredFields && Cell(row, f).None?
    ensures r.Some? ==> r.value.Keys == {CultureNameKey, RegionKey, LanguageTagsKey}
  {
    if Cell(row, CultureNameKey).None? || Cell(row, RegionKey).None? || Cell(row, LanguageTagsKey).None? then None
    else
      Some(map f | f in RequiredFields :: Str(Strip(Cell(row, f).value)))
  }

  /** Every normalised value is the trimmed cell text, and is its own strip. */
  lemma NormalizedValuesTrimmed(row: Row, f: string)
    requires NormalizeRow(row).Some? && f in RequiredFields
    ensures var e := NormalizeRow(row).value;
      f in e && e[f] == Str(Strip(Cell(row, f).value)) && Strip(e[f].s) == e[f].s
  {
    var t := Strip(Cell(row, f).value);
    StripProperties(Cell(row, f).value);
    StripUnchanged(t);
  }

  /** A normalised row is reported missing exactly the fields whose trimmed cell is empty. */
  lemma NormalizedMissingIff(row: Row, f: string)
    requires NormalizeRow(row).Some?
    ensures f in ValidateEntry(NormalizeRow(row).value) <==> f in RequiredFields && Strip(Cell(row, f).value) == ""
  {
  }
}

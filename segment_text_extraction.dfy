/**
 * The row-based segmenter of scripts/segment_text_extraction.py: rows of extracted text are
 * read in order; culture headings and section titles update the current culture and section,
 * blank rows are skipped, and every other row becomes one record.
 */
module SegmentTextExtraction {
  import opened Wrappers
  import opened Strings
  import opened Seqs
  import opened Values

  /** The section headings recognised by exact text. */
  const SectionTitles: seq<string> := [
    "Orientation", "History and Cultural Relations", "Settlements",
    "Economy", "Kinship", "Marriage and Family", "Sociopolitical Organization",
    "Religion and Expressive Culture", "Bibliography", "See also"
  ]

  /**
   * One input row: `str()` of its "Content" cell (`""` when the column is missing) and the four
   * file columns copied into each record (`Null` when absent). An empty cell, or one pandas reads
   * as a missing value (`N/A`, `NA`, `null`, `None` and the like), is NaN, so its text is `"nan"`.
   */
  datatype SourceRow = SourceRow(content: string, fileName: Value, fileType: Value,
                                 filePath: Value, extractedAt: Value)

  /** One output record. */
  datatype Extracted = Extracted(cultureName: Option<string>, section: Option<string>, content: string,
                                 sourceFile: Value, fileType: Value, filePath: Value, extractedAt: Value,
                                 inferredTags: string, summary: string, notes: string)

  /**
   * `is_all_caps`: upper-case text of at most four words. For ASCII text, `isupper()` holds
   * exactly when upper-casing changes nothing and lower-casing changes something.
   */
  predicate IsAllCaps(text: string)
    ensures IsAllCaps(text) <==> Upper(text) == text && Lower(text) != text && WordCount(text) <= 4
  {
    IsUpperCased(text) && WordCount(text) <= 4
  }

  /** `re.match(r"^Culture of ", text, re.IGNORECASE)`. */
  predicate StartsCultureOf(text: string) {
    StartsWith(Lower(text), "culture of ")
  }

  datatype RowKind = Blank | Heading | SectionTitle | Body

  /** How the loop treats a row, by its stripped text; the heading test comes first. */
  function Classify(text: string): RowKind {
    if text == "" then Blank
    else if IsAllCaps(text) || StartsCultureOf(text) then Heading
    else if text in SectionTitles then SectionTitle
    else Body
  }

  function TextOfRow(row: SourceRow): string {
    Strip(row.content)
  }

  function KindOf(row: SourceRow): RowKind {
    Classify(TextOfRow(row))
  }

  predicate IsBodyRow(row: SourceRow) {
    KindOf(row) == Body
  }

  /** The loop's variables: the records so far, the current culture and the current section. */
  datatype ExtractState = ExtractState(records: seq<Extracted>, culture: Option<string>, section: Option<string>)

  const InitialExtractState: ExtractState := ExtractState([], None, None)

  function MakeRecord(row: SourceRow, culture: Option<string>, section: Option<string>): Extracted {
    Extracted(culture, section, TextOfRow(row), row.fileName, row.fileType, row.filePath, row.extractedAt, "", "", "")
  }

  /**
   * One iteration of the loop, for a row classified by `kind`; the lemmas below hold for any
   * classification, and the loop uses `KindOf`.
   */
  function Step(st: ExtractState, row: SourceRow, kind: SourceRow -> RowKind): ExtractState {
    match kind(row)
    case Blank => st
    case Heading => st.(culture := Some(TextOfRow(row)), section := None)
    case SectionTitle => st.(section := Some(TextOfRow(row)))
    case Body => st.(records := st.records + [MakeRecord(row, st.culture, st.section)])
  }

  /** The state after the loop has read `rows`. */
  function FoldBy(rows: seq<SourceRow>, kind: SourceRow -> RowKind): ExtractState {
    if rows == [] then InitialExtractState else Step(FoldBy(rows[..|rows| - 1], kind), rows[|rows| - 1], kind)
  }

  function Fold(rows: seq<SourceRow>): ExtractState {
    FoldBy(rows, KindOf)
  }

  lemma FoldSnoc(rows: seq<SourceRow>, row: SourceRow, kind: SourceRow -> RowKind)
    ensures FoldBy(rows + [row], kind) == Step(FoldBy(rows, kind), row, kind)
  {
    assert (rows + [row])[..|rows|] == rows;
  }

  lemma FoldAt(rows: seq<SourceRow>, i: nat, kind: SourceRow -> RowKind)
    requires i < |rows|
    ensures FoldBy(rows[..i + 1], kind) == Step(FoldBy(rows[..i], kind), rows[i], kind)
  {
    assert rows[..i + 1][..i] == rows[..i];
  }

  /** `segment_rows`: the loop over the rows. */
  method SegmentRows(rows: seq<SourceRow>) returns (segmented: seq<Extracted>)
    ensures segmented == Fold(rows).records
  {
    segmented := [];
    var currentCulture: Option<string> := None;
    var currentSection: Option<string> := None;
    for i := 0 to |rows|
      invariant ExtractState(segmented, currentCulture, currentSection) == Fold(rows[..i])
    {
      FoldAt(rows, i, KindOf);
      var text := Strip(rows[i].content);
      if text == "" {
      } else if IsAllCaps(text) || StartsCultureOf(text) {
        currentCulture := Some(text);
        currentSection := None;
      } else if text in SectionTitles {
        currentSection := Some(text);
      } else {
        segmented := segmented + [Extracted(currentCulture, currentSection, text, rows[i].fileName,
          rows[i].fileType, rows[i].filePath, rows[i].extractedAt, "", "", "")];
      }
    }
    assert rows[..|rows|] == rows;
  }

  /** Appending the same row to two prefixes with equal states keeps them equal. */
  lemma SnocBoth(x: seq<SourceRow>, y: seq<SourceRow>, init: seq<SourceRow>, last: SourceRow, kind: SourceRow -> RowKind)
    requires FoldBy(x + init, kind) == FoldBy(y + init, kind)
    ensures FoldBy(x + (init + [last]), kind) == FoldBy(y + (init + [last]), kind)
  {
    assert x + (init + [last]) == (x + init) + [last];
    assert y + (init + [last]) == (y + init) + [last];
    FoldSnoc(x + init, last, kind);
    FoldSnoc(y + init, last, kind);
  }

  /** A blank row, wherever it stands, changes neither the records nor the current culture or section. */
  lemma {:induction false} BlankRowIgnored(before: seq<SourceRow>, blank: SourceRow, after: seq<SourceRow>,
                                           kind: SourceRow -> RowKind)
    requires kind(blank) == Blank
    ensures FoldBy(before + [blank] + after, kind) == FoldBy(before + after, kind)
    decreases |after|
  {
    if after == [] {
      assert before + [blank] + after == before + [blank];
      assert before + after == before;
      FoldSnoc(before, blank, kind);
    } else {
      var init := after[..|after| - 1];
      var last := after[|after| - 1];
      BlankRowIgnored(before, blank, init, kind);
      SnocBoth(before + [blank], before, init, last, kind);
      assert after == init + [last];
    }
  }

  /** Blank rows of the extracted text are skipped. */
  lemma BlankRowSkipped(before: seq<SourceRow>, blank: SourceRow, after: seq<SourceRow>)
    requires TextOfRow(blank) == ""
    ensures Fold(before + [blank] + after) == Fold(before + after)
  {
    BlankRowIgnored(before, blank, after, KindOf);
  }

  /** `body` holds exactly of the rows `kind` classifies as body text. */
  ghost predicate BodyOf(kind: SourceRow -> RowKind, body: SourceRow -> bool) {
    forall row :: body(row) <==> kind(row) == Body
  }

  /** `records[k]` holds the stripped text and the file name of `bodyRows[k]`, for every `k`. */
  predicate RecordsFrom(records: seq<Extracted>, bodyRows: seq<SourceRow>) {
    |records| == |bodyRows|
    && forall k :: 0 <= k < |records| ==>
         records[k].content == TextOfRow(bodyRows[k]) && records[k].sourceFile == bodyRows[k].fileName
  }

  lemma RecordsStep(st: ExtractState, row: SourceRow, kind: SourceRow -> RowKind, body: SourceRow -> bool,
                    bodyRows: seq<SourceRow>)
    requires BodyOf(kind, body) && RecordsFrom(st.records, bodyRows)
    ensures RecordsFrom(Step(st, row, kind).records, bodyRows + if body(row) then [row] else [])
  {
    if !body(row) {
      assert bodyRows + [] == bodyRows;
    }
  }

  /** One record per body row, in order: rows that are blank, headings or section titles emit nothing. */
  lemma {:induction false} RecordPerBodyRowBy(rows: seq<SourceRow>, kind: SourceRow -> RowKind, body: SourceRow -> bool)
    requires BodyOf(kind, body)
    ensures RecordsFrom(FoldBy(rows, kind).records, Filter(rows, body))
  {
    if rows != [] {
      var init := rows[..|rows| - 1];
      var last := rows[|rows| - 1];
      RecordPerBodyRowBy(init, kind, body);
      FilterSnoc(rows, body);
      RecordsStep(FoldBy(init, kind), last, kind, body, Filter(init, body));
    }
  }

  lemma RecordPerBodyRow(rows: seq<SourceRow>)
    ensures RecordsFrom(Fold(rows).records, Filter(rows, IsBodyRow))
  {
    RecordPerBodyRowBy(rows, KindOf, IsBodyRow);
  }

  /** The positions of the rows that `body` accepts, in increasing order. */
  function BodyPositions(rows: seq<SourceRow>, body: SourceRow -> bool): (r: seq<nat>)
    ensures forall k :: 0 <= k < |r| ==> r[k] < |rows| && body(rows[r[k]])
    ensures forall k :: 0 <= k < |r| - 1 ==> r[k] < r[k + 1]
    ensures forall i :: 0 <= i < |rows| && body(rows[i]) ==> i in r
  {
    if rows == [] then []
    else
      var init := rows[..|rows| - 1];
      var r := BodyPositions(init, body) + if body(rows[|rows| - 1]) then [|rows| - 1] else [];
      assert forall i :: 0 <= i < |init| ==> rows[i] == init[i];
      r
  }

  /** The record made at row `i`: that row's text and file columns, with the culture and section read before it. */
  function RecordAt(rows: seq<SourceRow>, i: nat, kind: SourceRow -> RowKind): Extracted
    requires i < |rows|
  {
    var st := FoldBy(rows[..i], kind);
    MakeRecord(rows[i], st.culture, st.section)
  }

  /** `records[k]` is the record made at the `k`-th position of `pos`. */
  predicate RecordsAt(records: seq<Extracted>, rows: seq<SourceRow>, pos: seq<nat>, kind: SourceRow -> RowKind) {
    |records| == |pos|
    && forall k :: 0 <= k < |records| ==> pos[k] < |rows| && records[k] == RecordAt(rows, pos[k], kind)
  }

  /** The record made at a row does not depend on the rows after it. */
  lemma RecordAtPrefix(rows: seq<SourceRow>, i: nat, j: nat, kind: SourceRow -> RowKind)
    requires i < j <= |rows|
    ensures RecordAt(rows[..j], i, kind) == RecordAt(rows, i, kind)
  {
    assert rows[..j][..i] == rows[..i];
  }

  lemma RecordsAtStep(rows: seq<SourceRow>, kind: SourceRow -> RowKind, body: SourceRow -> bool)
    requires BodyOf(kind, body) && rows != []
    requires RecordsAt(FoldBy(rows[..|rows| - 1], kind).records, rows[..|rows| - 1],
                       BodyPositions(rows[..|rows| - 1], body), kind)
    ensures RecordsAt(FoldBy(rows, kind).records, rows, BodyPositions(rows, body), kind)
  {
    var init := rows[..|rows| - 1];
    var last := rows[|rows| - 1];
    var st := FoldBy(init, kind);
    var pos0 := BodyPositions(init, body);
    if body(last) {
      assert FoldBy(rows, kind).records == st.records + [RecordAt(rows, |rows| - 1, kind)];
      assert BodyPositions(rows, body) == pos0 + [|rows| - 1];
      RecordsAtGrow(st.records, rows, pos0, kind, true);
    } else {
      assert FoldBy(rows, kind).records == st.records;
      assert BodyPositions(rows, body) == pos0;
      RecordsAtGrow(st.records, rows, pos0, kind, false);
    }
  }

  /** Records made before the last row stay as they were once that row is read, and that row may add one. */
  lemma RecordsAtGrow(records: seq<Extracted>, rows: seq<SourceRow>, pos: seq<nat>, kind: SourceRow -> RowKind, emit: bool)
    requires rows != [] && RecordsAt(records, rows[..|rows| - 1], pos, kind)
    ensures emit ==> RecordsAt(records + [RecordAt(rows, |rows| - 1, kind)], rows, pos + [|rows| - 1], kind)
    ensures !emit ==> RecordsAt(records, rows, pos, kind)
  {
    var n := |rows| - 1;
    forall k | 0 <= k < |pos|
      ensures RecordAt(rows, pos[k], kind) == records[k]
    {
      RecordAtPrefix(rows, pos[k], n, kind);
    }
    var recs := records + [RecordAt(rows, n, kind)];
    var ps := pos + [n];
    assert forall k :: 0 <= k < |pos| ==> recs[k] == records[k] && ps[k] == pos[k];
  }

  /**
   * Record `k` is made at the `k`-th body row: its text and file columns are that row's, and
   * its culture and section are the ones read before that row.
   */
  lemma {:induction false} RecordContextBy(rows: seq<SourceRow>, kind: SourceRow -> RowKind, body: SourceRow -> bool)
    requires BodyOf(kind, body)
    ensures RecordsAt(FoldBy(rows, kind).records, rows, BodyPositions(rows, body), kind)
  {
    if rows != [] {
      RecordContextBy(rows[..|rows| - 1], kind, body);
      RecordsAtStep(rows, kind, body);
    }
  }

  lemma RecordContext(rows: seq<SourceRow>)
    ensures RecordsAt(Fold(rows).records, rows, BodyPositions(rows, IsBodyRow), KindOf)
  {
    RecordContextBy(rows, KindOf, IsBodyRow);
  }

  predicate NoHeadingIn(rows: seq<SourceRow>, kind: SourceRow -> RowKind) {
    forall k :: 0 <= k < |rows| ==> kind(rows[k]) != Heading
  }

  /** `rows[j]` is a heading and no heading follows it. */
  predicate LastHeadingAt(rows: seq<SourceRow>, kind: SourceRow -> RowKind, j: int) {
    0 <= j < |rows| && kind(rows[j]) == Heading && NoHeadingIn(rows[j + 1..], kind)
  }

  /**
   * The current culture is `None` until the first heading row, and afterwards the stripped
   * text of the last heading row read.
   */
  lemma {:induction false} CultureIsLastHeadingBy(rows: seq<SourceRow>, kind: SourceRow -> RowKind)
    ensures FoldBy(rows, kind).culture.None? <==> NoHeadingIn(rows, kind)
    ensures FoldBy(rows, kind).culture.Some? ==>
      exists j :: LastHeadingAt(rows, kind, j) && FoldBy(rows, kind).culture.value == TextOfRow(rows[j])
  {
    if rows != [] {
      var init := rows[..|rows| - 1];
      var last := rows[|rows| - 1];
      CultureIsLastHeadingBy(init, kind);
      assert rows == init + [last];
      if kind(last) == Heading {
        assert rows[|rows|..] == [];
        assert LastHeadingAt(rows, kind, |rows| - 1);
      } else {
        if FoldBy(rows, kind).culture.Some? {
          var j :| LastHeadingAt(init, kind, j) && FoldBy(init, kind).culture.value == TextOfRow(init[j]);
          assert rows[j + 1..] == init[j + 1..] + [last];
          assert LastHeadingAt(rows, kind, j);
        } else {
          assert forall k :: 0 <= k < |init| ==> rows[k] == init[k];
        }
      }
    }
  }

  lemma CultureIsLastHeading(rows: seq<SourceRow>)
    ensures Fold(rows).culture.None? <==> NoHeadingIn(rows, KindOf)
    ensures Fold(rows).culture.Some? ==>
      exists j :: LastHeadingAt(rows, KindOf, j) && Fold(rows).culture.value == TextOfRow(rows[j])
  {
    CultureIsLastHeadingBy(rows, KindOf);
  }

  predicate IsMarker(kind: SourceRow -> RowKind, row: SourceRow) {
    kind(row) == Heading || kind(row) == SectionTitle
  }

  /** The index of the last heading or section title in `rows`, or -1 when there is none. */
  function LastMarker(rows: seq<SourceRow>, kind: SourceRow -> RowKind): (m: int)
    ensures -1 <= m < |rows|
    ensures m >= 0 ==> IsMarker(kind, rows[m])
    ensures forall k :: m < k < |rows| ==> !IsMarker(kind, rows[k])
  {
    if rows == [] then -1
    else if IsMarker(kind, rows[|rows| - 1]) then |rows| - 1
    else
      var m := LastMarker(rows[..|rows| - 1], kind);
      assert forall k :: m < k < |rows| - 1 ==> rows[k] == rows[..|rows| - 1][k];
      m
  }

  /**
   * The current section is the text of the last heading or section title read when that row is
   * a section title, and `None` when it is a heading or there is none.
   */
  lemma {:induction false} SectionIsLastTitleBy(rows: seq<SourceRow>, kind: SourceRow -> RowKind)
    ensures var m := LastMarker(rows, kind);
      FoldBy(rows, kind).section == if m >= 0 && kind(rows[m]) == SectionTitle then Some(TextOfRow(rows[m])) else None
  {
    if rows != [] {
      var init := rows[..|rows| - 1];
      SectionIsLastTitleBy(init, kind);
      var m := LastMarker(init, kind);
      if m >= 0 {
        assert rows[m] == init[m];
      }
    }
  }

  lemma SectionIsLastTitle(rows: seq<SourceRow>)
    ensures var m := LastMarker(rows, KindOf);
      Fold(rows).section == if m >= 0 && KindOf(rows[m]) == SectionTitle then Some(TextOfRow(rows[m])) else None
  {
    SectionIsLastTitleBy(rows, KindOf);
  }

  /**
   * The culture of record `k` is `None` when no heading precedes its row, and otherwise the text
   * of the last heading before that row; its section is the last heading or section title
   * before that row when that one is a section title, and `None` otherwise.
   */
  lemma RecordCultureAndSection(rows: seq<SourceRow>, k: nat)
    requires k < |Fold(rows).records| && k < |BodyPositions(rows, IsBodyRow)|
    ensures var i := BodyPositions(rows, IsBodyRow)[k];
      var rec := Fold(rows).records[k];
      var m := LastMarker(rows[..i], KindOf);
      && (rec.cultureName.None? <==> NoHeadingIn(rows[..i], KindOf))
      && (rec.cultureName.Some? ==> exists j :: LastHeadingAt(rows[..i], KindOf, j) && rec.cultureName.value == TextOfRow(rows[j]))
      && rec.section == (if m >= 0 && KindOf(rows[m]) == SectionTitle then Some(TextOfRow(rows[m])) else None)
  {
    RecordContext(rows);
    var i := BodyPositions(rows, IsBodyRow)[k];
    CultureIsLastHeading(rows[..i]);
    SectionIsLastTitle(rows[..i]);
    var m := LastMarker(rows[..i], KindOf);
    if m >= 0 {
      assert rows[..i][m] == rows[m];
    }
    if Fold(rows).records[k].cultureName.Some? {
      var j :| LastHeadingAt(rows[..i], KindOf, j) && Fold(rows[..i]).culture.value == TextOfRow(rows[..i][j]);
      assert rows[..i][j] == rows[j];
    }
  }

  /** Reading a heading row resets the section, and records after it carry no section until a title row. */
  lemma HeadingResetsSection(rows: seq<SourceRow>, heading: SourceRow)
    requires KindOf(heading) == Heading
    ensures Fold(rows + [heading]).section == None
    ensures Fold(rows + [heading]).culture == Some(TextOfRow(heading))
    ensures Fold(rows + [heading]).records == Fold(rows).records
  {
    FoldSnoc(rows, heading, KindOf);
  }

  /** No listed section title counts as a culture heading, so each one sets the section. */
  lemma SectionTitlesAreNotHeadings()
    ensures forall k :: 0 <= k < |SectionTitles| ==> Classify(SectionTitles[k]) == SectionTitle
  {
    forall k | 0 <= k < |SectionTitles|
      ensures Classify(SectionTitles[k]) == SectionTitle
    {
      var t := SectionTitles[k];
      assert IsAsciiLower(t[1]);
      assert !StartsCultureOf(t) by {
        if |t| >= 11 {
          assert Lower(t)[0] == LowerChar(t[0]);
          assert LowerChar(t[0]) != 'c';
        }
      }
    }
  }
}

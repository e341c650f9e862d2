/**
 * The segment post-processing of core.py: file names, metadata stamping, the confidence
 * tier and attention flag, duplicate detection, search and flag filters, the Markdown
 * rendering with front matter and the repository merge.
 *
 * A segment is a `Record` (a dictionary of `Value`s). The source mutates the dictionaries
 * in place; here each operation returns the updated records.
 */
module Core {
  import opened Wrappers
  import opened Strings
  import opened Seqs
  import opened Values

  // ---------------------------------------------------------------------------------------
  // File names
  // ---------------------------------------------------------------------------------------

  /** The characters `safe_filename` replaces: backslash, slash, `*`, `?`, `:`, `"`, `<`, `>` and `|`. */
  predicate UnsafeFilenameChar(c: char) {
    c == '\\' || c == '/' || c == '*' || c == '?' || c == ':' || c == '"' || c == '<' || c == '>' || c == '|'
  }

  function SanitizeChar(c: char): (r: char)
    ensures !UnsafeFilenameChar(r)
  {
    if UnsafeFilenameChar(c) then '_' else c
  }

  /** Every unsafe character of the title replaced by an underscore. */
  function SanitizeTitle(title: string): (r: string)
    ensures |r| == |title|
    ensures forall i :: 0 <= i < |title| ==> !UnsafeFilenameChar(r[i])
    ensures forall i :: 0 <= i < |title| && !UnsafeFilenameChar(title[i]) ==> r[i] == title[i]
    ensures forall i :: 0 <= i < |title| && UnsafeFilenameChar(title[i]) ==> r[i] == '_'
  {
    seq(|title|, i requires 0 <= i < |title| => SanitizeChar(title[i]))
  }

  function Min(a: int, b: int): int {
    if a <= b then a else b
  }

  /** The part after the title: the first six characters of a non-empty id, and the extension. */
  function FilenameSuffix(segmentId: string): string {
    if segmentId != "" then "_" + segmentId[..Min(6, |segmentId|)] + ".md" else ".md"
  }

  /** `safe_filename`: the sanitized title followed by the id prefix and ".md". */
  function SafeFilename(title: string, segmentId: string): (r: string)
    ensures |r| == |title| + |FilenameSuffix(segmentId)|
    ensures r[|title|..] == FilenameSuffix(segmentId)
    ensures forall i :: 0 <= i < |title| ==> !UnsafeFilenameChar(r[i])
    ensures forall i :: 0 <= i < |title| ==> r[i] == (if UnsafeFilenameChar(title[i]) then '_' else title[i])
    ensures EndsWith(r, ".md")
  {
    SanitizeTitle(title) + FilenameSuffix(segmentId)
  }

  /** Sanitizing is idempotent: a sanitized title yields the same file name. */
  lemma SafeFilenameIdempotent(title: string, segmentId: string)
    ensures SafeFilename(SanitizeTitle(title), segmentId) == SafeFilename(title, segmentId)
  {
    assert SanitizeTitle(SanitizeTitle(title)) == SanitizeTitle(title);
  }

  // ---------------------------------------------------------------------------------------
  // Metadata
  // ---------------------------------------------------------------------------------------

  const SourceFileKey: string := "source_file"
  const RunIdKey: string := "run_id"
  const SegmentIdKey: string := "segment_id"
  const ScoreKey: string := "summary_quality_score"
  const ConfidenceKey: string := "confidence_score"
  const AttentionKey: string := "needs_attention"

  /** The field names the post-processing writes and reads are pairwise different. */
  lemma FieldNamesDistinct()
    ensures SourceFileKey != RunIdKey && SourceFileKey != SegmentIdKey && RunIdKey != SegmentIdKey
    ensures SegmentIdKey != ConfidenceKey && SegmentIdKey != AttentionKey && ConfidenceKey != AttentionKey
    ensures ScoreKey != SegmentIdKey && ScoreKey != ConfidenceKey && ScoreKey != AttentionKey
    ensures "summary" != SegmentIdKey && "summary" != ConfidenceKey && "summary" != AttentionKey
    ensures "content" != SegmentIdKey && "content" != ConfidenceKey && "content" != AttentionKey
    ensures "tags" != SegmentIdKey && "tags" != ConfidenceKey && "tags" != AttentionKey
  {
    assert |SourceFileKey| == 11 && |RunIdKey| == 6 && |SegmentIdKey| == 10;
    assert |ScoreKey| == 21 && |ConfidenceKey| == 16 && |AttentionKey| == 15;
    assert |"summary"| == 7 && |"content"| == 7 && |"tags"| == 4;
  }

  /** The position just after the last '/' of `path` (0 when there is none). */
  function AfterLastSlash(path: string): (r: nat)
    ensures r <= |path|
    ensures r > 0 ==> path[r - 1] == '/'
    ensures forall k :: r <= k < |path| ==> path[k] != '/'
  {
    if path == [] then 0
    else if path[|path| - 1] == '/' then |path|
    else AfterLastSlash(path[..|path| - 1])
  }

  /** `os.path.basename`: the text after the last '/'. */
  function Basename(path: string): (r: string)
    ensures '/' !in r
  {
    path[AfterLastSlash(path)..]
  }

  /** The base name is the longest slash-free suffix of the path. */
  lemma BasenameIsLastComponent(path: string)
    ensures EndsWith(path, Basename(path))
    ensures |Basename(path)| < |path| ==> path[|path| - |Basename(path)| - 1] == '/'
  {
  }

  /** A base name is its own base name. */
  lemma BasenameIdempotent(path: string)
    ensures Basename(Basename(path)) == Basename(path)
  {
    var r := Basename(path);
    BasenameOfSlashFree(r);
  }

  lemma BasenameOfSlashFree(s: string)
    requires forall k :: 0 <= k < |s| ==> s[k] != '/'
    ensures Basename(s) == s
  {
  }

  /**
   * `enrich_metadata`: stamp the base name of the source file, the run timestamp and a fresh
   * id (the `uuid4` the source draws) on a segment; `segment_id` is always overwritten.
   */
  function EnrichMetadata(seg: Record, filepath: string, ts: string, freshId: string): (r: Record)
    ensures r.Keys == seg.Keys + {SourceFileKey, RunIdKey, SegmentIdKey}
    ensures r[SourceFileKey] == Str(Basename(filepath)) && r[RunIdKey] == Str(ts)
    ensures r[SegmentIdKey] == Str(freshId)
    ensures forall k :: k in seg && k != SourceFileKey && k != RunIdKey && k != SegmentIdKey ==> r[k] == seg[k]
  {
    FieldNamesDistinct();
    seg[SourceFileKey := Str(Basename(filepath))][RunIdKey := Str(ts)][SegmentIdKey := Str(freshId)]
  }

  // ---------------------------------------------------------------------------------------
  // Confidence and attention
  // ---------------------------------------------------------------------------------------

  /** A summary that is short or trails off. */
  predicate WeakSummary(summary: string) {
    |summary| < 100 || EndsWith(summary, "...")
  }

  /** The confidence rule can be evaluated: without a score, the summary is text (or absent). */
  predicate ScoreComputable(seg: Record) {
    ScoreKey in seg || TextOrAbsent(seg, "summary")
  }

  /** The confidence `postprocess_segments` assigns. */
  function AssignedConfidence(seg: Record): (c: Value)
    requires ScoreComputable(seg)
    ensures ScoreKey in seg ==> c == seg[ScoreKey]
    ensures ScoreKey !in seg ==> (c == Str("medium") <==> WeakSummary(TextOf(seg, "summary")))
    ensures ScoreKey !in seg ==> (c == Str("high") <==> !WeakSummary(TextOf(seg, "summary")))
  {
    if ScoreKey in seg then seg[ScoreKey]
    else if WeakSummary(TextOf(seg, "summary")) then Str("medium")
    else Str("high")
  }

  predicate LowOrMedium(v: Value) {
    v == Str("low") || v == Str("medium")
  }

  /**
   * The attention rule can be evaluated: `len(content)` is reached only when the confidence
   * is neither "low" nor "medium", and then the content is text (or absent).
   */
  predicate AttentionComputable(seg: Record) {
    (ConfidenceKey in seg && LowOrMedium(seg[ConfidenceKey])) || TextOrAbsent(seg, "content")
  }

  /** The `needs_attention` rule on a segment that already carries its confidence. */
  predicate NeedsAttention(seg: Record)
    requires AttentionComputable(seg)
  {
    (ConfidenceKey in seg && LowOrMedium(seg[ConfidenceKey]))
    || |TextOf(seg, "content")| < 200
    || !TruthyField(seg, "tags")
  }

  /** The source raises no exception on this segment. */
  predicate Postprocessable(seg: Record) {
    ScoreComputable(seg) && (LowOrMedium(AssignedConfidence(seg)) || TextOrAbsent(seg, "content"))
  }

  /** The segment with an id: the existing one, else the fresh one. */
  function WithId(seg: Record, freshId: string): (r: Record)
    ensures r.Keys == seg.Keys + {SegmentIdKey}
    ensures SegmentIdKey in seg ==> r == seg
    ensures forall k :: k in seg && k != SegmentIdKey ==> r[k] == seg[k]
  {
    if SegmentIdKey in seg then seg else seg[SegmentIdKey := Str(freshId)]
  }

  /** One iteration of `postprocess_segments`. */
  function PostprocessOne(seg: Record, freshId: string): (r: Record)
    requires Postprocessable(seg)
    ensures r.Keys == seg.Keys + {SegmentIdKey, ConfidenceKey, AttentionKey}
    ensures forall k :: k in seg && k != SegmentIdKey && k != ConfidenceKey && k != AttentionKey ==> r[k] == seg[k]
    ensures r[SegmentIdKey] == if SegmentIdKey in seg then seg[SegmentIdKey] else Str(freshId)
    ensures r[ConfidenceKey] == AssignedConfidence(seg)
    ensures r[ConfidenceKey] == Str("low") ==> ScoreKey in seg && seg[ScoreKey] == Str("low")
    ensures AttentionComputable(r)
    ensures r[AttentionKey] == Flag(NeedsAttention(r))
    ensures NeedsAttention(r) <==>
      LowOrMedium(AssignedConfidence(seg)) || |TextOf(seg, "content")| < 200 || !TruthyField(seg, "tags")
  {
    FieldNamesDistinct();
    var withId := WithId(seg, freshId);
    var scored := withId[ConfidenceKey := AssignedConfidence(withId)];
    scored[AttentionKey := Flag(NeedsAttention(scored))]
  }

  /** Post-processing a post-processed segment changes nothing, whatever id is on offer. */
  lemma PostprocessIdempotent(seg: Record, freshId: string, otherId: string)
    requires Postprocessable(seg)
    ensures Postprocessable(PostprocessOne(seg, freshId))
    ensures PostprocessOne(PostprocessOne(seg, freshId), otherId) == PostprocessOne(seg, freshId)
  {
    var r := PostprocessOne(seg, freshId);
    assert TextOf(r, "summary") == TextOf(seg, "summary");
    assert AssignedConfidence(r) == AssignedConfidence(seg);
    var r2 := PostprocessOne(r, otherId);
    assert r2.Keys == r.Keys;
    assert forall k :: k in r ==> r2[k] == r[k];
  }

  /** The segment id from `enrich_metadata` survives post-processing. */
  lemma PostprocessKeepsStampedId(seg: Record, filepath: string, ts: string, stampId: string, freshId: string)
    requires Postprocessable(EnrichMetadata(seg, filepath, ts, stampId))
    ensures PostprocessOne(EnrichMetadata(seg, filepath, ts, stampId), freshId)[SegmentIdKey] == Str(stampId)
  {
  }

  /** `postprocess_segments`: every segment is updated in place, in list order. */
  method PostprocessSegments(segments: seq<Record>, freshIds: seq<string>) returns (result: seq<Record>)
    requires |freshIds| == |segments|
    requires forall i :: 0 <= i < |segments| ==> Postprocessable(segments[i])
    ensures |result| == |segments|
    ensures forall i :: 0 <= i < |segments| ==> result[i] == PostprocessOne(segments[i], freshIds[i])
  {
    result := segments;
    for i := 0 to |segments|
      invariant |result| == |segments|
      invariant forall k :: 0 <= k < i ==> result[k] == PostprocessOne(segments[k], freshIds[k])
      invariant forall k :: i <= k < |segments| ==> result[k] == segments[k]
    {
      result := result[i := PostprocessOne(result[i], freshIds[i])];
    }
  }

  // ---------------------------------------------------------------------------------------
  // Duplicates, search and flags
  // ---------------------------------------------------------------------------------------

  predicate HasTitles(segments: seq<Record>) {
    forall i :: 0 <= i < |segments| ==> "title" in segments[i]
  }

  function Titles(segments: seq<Record>): (titles: seq<Value>)
    requires HasTitles(segments)
    ensures |titles| == |segments| && forall i :: 0 <= i < |segments| ==> titles[i] == segments[i]["title"]
  {
    seq(|segments|, i requires 0 <= i < |segments| => segments[i]["title"])
  }

  /** `detect_duplicates`: the titles whose count is above one. */
  function DetectDuplicates(segments: seq<Record>): (dups: set<Value>)
    requires HasTitles(segments)
    ensures forall t :: t in dups <==> t in Titles(segments) && Count(Titles(segments), t) > 1
  {
    var titles := Titles(segments);
    set t | t in titles && Count(titles, t) > 1
  }

  /** The duplicates are exactly the titles carried by two different segments. */
  lemma DuplicatesAreRepeatedTitles(segments: seq<Record>, t: Value)
    requires HasTitles(segments)
    ensures t in DetectDuplicates(segments) <==>
      exists i, j :: 0 <= i < j < |segments| && segments[i]["title"] == t && segments[j]["title"] == t
  {
    var titles := Titles(segments);
    CountAtLeastTwo(titles, t);
    TitlesRepeated(segments, t);
  }

  lemma TitlesRepeated(segments: seq<Record>, t: Value)
    requires HasTitles(segments)
    ensures (exists i, j :: 0 <= i < j < |Titles(segments)| && Titles(segments)[i] == t && Titles(segments)[j] == t)
        <==> (exists i, j :: 0 <= i < j < |segments| && segments[i]["title"] == t && segments[j]["title"] == t)
  {
    var titles := Titles(segments);
    if exists i, j :: 0 <= i < j < |segments| && segments[i]["title"] == t && segments[j]["title"] == t {
      var i, j :| 0 <= i < j < |segments| && segments[i]["title"] == t && segments[j]["title"] == t;
      assert titles[i] == t && titles[j] == t;
    }
    if exists i, j :: 0 <= i < j < |titles| && titles[i] == t && titles[j] == t {
      var i, j :| 0 <= i < j < |titles| && titles[i] == t && titles[j] == t;
      assert segments[i]["title"] == t && segments[j]["title"] == t;
    }
  }

  /** The search text occurs, ignoring case, in the title or the content (missing fields read as ""). */
  predicate SearchMatches(seg: Record, search: string) {
    Contains(Lower(TextOf(seg, "title")), Lower(search))
    || Contains(Lower(TextOf(seg, "content")), Lower(search))
  }

  function SearchFilter(search: string): Record -> bool {
    seg => SearchMatches(seg, search)
  }

  /** `s['title'].lower()` succeeds and, when the title does not match, so does `s['content'].lower()`. */
  predicate CoreSearchable(seg: Record, search: string) {
    "title" in seg && seg["title"].Str?
    && (Contains(Lower(seg["title"].s), Lower(search)) || ("content" in seg && seg["content"].Str?))
  }

  /** `filter_segments` of core.py. */
  function FilterSegments(segments: seq<Record>, search: string): (r: seq<Record>)
    requires search != "" ==> forall i :: 0 <= i < |segments| ==> CoreSearchable(segments[i], search)
    ensures search == "" ==> r == segments
    ensures search != "" ==> r == Filter(segments, SearchFilter(search))
  {
    if search == "" then segments else Filter(segments, SearchFilter(search))
  }

  /** The result is an ordered subsequence holding exactly the matching segments. */
  lemma FilterSegmentsKeepsMatches(segments: seq<Record>, search: string)
    requires search != "" ==> forall i :: 0 <= i < |segments| ==> CoreSearchable(segments[i], search)
    ensures IsSubseq(FilterSegments(segments, search), segments)
    ensures forall s :: s in FilterSegments(segments, search) <==>
      s in segments && (search == "" || SearchMatches(s, search))
  {
    if search == "" {
      SubseqRefl(segments);
    }
  }

  predicate IsFlagged(seg: Record) {
    TruthyField(seg, AttentionKey)
  }

  /** `get_flagged_segments`. */
  function GetFlaggedSegments(segments: seq<Record>): (r: seq<Record>)
    ensures IsSubseq(r, segments)
    ensures forall s :: s in r <==> s in segments && TruthyField(s, AttentionKey)
    ensures forall s :: multiset(r)[s] == if TruthyField(s, AttentionKey) then multiset(segments)[s] else 0
  {
    FilterMultiset(segments, IsFlagged);
    Filter(segments, IsFlagged)
  }

  /** After post-processing, the flagged segments are exactly those that need attention. */
  lemma FlaggedAfterPostprocess(seg: Record, freshId: string)
    requires Postprocessable(seg)
    ensures IsFlagged(PostprocessOne(seg, freshId)) <==> NeedsAttention(PostprocessOne(seg, freshId))
  {
  }

  // ---------------------------------------------------------------------------------------
  // Markdown
  // ---------------------------------------------------------------------------------------

  /** `str(seg.get(key, default))`. */
  function FieldText(seg: Record, key: string, default: string): string {
    if key in seg then Repr(seg[key]) else default
  }

  /** The lines of the YAML front matter, without their newlines. */
  function FrontmatterLines(seg: Record): seq<string>
    requires "title" in seg
  {
    ["---",
     "title: \"" + Repr(seg["title"]) + "\"",
     "tags: " + FieldText(seg, "tags", ""),
     "lang: " + FieldText(seg, "title_lang", "und"),
     "confidence: " + FieldText(seg, ConfidenceKey, ""),
     "run_id: " + FieldText(seg, RunIdKey, ""),
     "---"]
  }

  /** Lines opening with `---` and a quoted title line: the text opens with both. */
  lemma FramedHead(ls: seq<string>, title: string, body: string)
    requires |ls| >= 2 && ls[0] == "---" && ls[1] == "title: \"" + title + "\""
    ensures StartsWith(Unlines(ls) + body, "---\ntitle: \"" + title + "\"\n")
  {
    UnlinesTwo(ls, body);
    PrefixOfConcat(ls[0] + "\n" + ls[1] + "\n", Unlines(ls[2..]) + body);
    HeadLiteral(title);
  }

  lemma HeadLiteral(title: string)
    ensures "---" + "\n" + ("title: \"" + title + "\"") + "\n" == "---\ntitle: \"" + title + "\"\n"
  {
  }

  /** Lines closing with `---`, then a blank line and a body: the text closes with all three. */
  lemma FramedTail(ls: seq<string>, body: string)
    requires |ls| >= 2 && ls[|ls| - 1] == "---"
    ensures EndsWith(Unlines(ls + [""]) + body, "\n---\n\n" + body)
  {
    var pre := ls[..|ls| - 2];
    var last := ls[|ls| - 2];
    assert ls == pre + [last] + ["---"];
    UnlinesSnoc(ls, "");
    UnlinesSnoc(pre + [last], "---");
    UnlinesSnoc(pre, last);
    TailRegroup(Unlines(pre), last, body);
    SuffixOfConcat(Unlines(pre) + last, "\n---\n\n" + body);
  }

  lemma TailRegroup(u: string, last: string, body: string)
    ensures (u + last + "\n") + "---" + "\n" + "" + "\n" + body == (u + last) + ("\n---\n\n" + body)
  {
  }

  /** `markdown_with_frontmatter`: the front matter, a blank line, the content and a newline. */
  function MarkdownWithFrontmatter(seg: Record): (md: string)
    requires "title" in seg && "content" in seg
    ensures StartsWith(md, "---\ntitle: \"" + Repr(seg["title"]) + "\"\n")
    ensures EndsWith(md, "\n---\n\n" + Repr(seg["content"]) + "\n")
  {
    var ls := FrontmatterLines(seg);
    var body := Repr(seg["content"]) + "\n";
    FramedHead(ls + [""], Repr(seg["title"]), body);
    FramedTail(ls, body);
    Unlines(ls + [""]) + body
  }

  /**
   * When no front-matter field renders with a newline, splitting the Markdown at newlines gives
   * back the seven front-matter lines, a blank line, and then the lines of the content.
   */
  lemma FrontmatterReadsBack(seg: Record)
    requires "title" in seg && "content" in seg
    requires forall k :: 0 <= k < 7 ==> '\n' !in FrontmatterLines(seg)[k]
    ensures var parts := SplitChar(MarkdownWithFrontmatter(seg), '\n');
      |parts| >= 8 && parts[..7] == FrontmatterLines(seg) && parts[7] == ""
      && parts[8..] == SplitChar(Repr(seg["content"]) + "\n", '\n')
  {
    var ls := FrontmatterLines(seg) + [""];
    var rest := Repr(seg["content"]) + "\n";
    assert MarkdownWithFrontmatter(seg) == Unlines(ls) + rest;
    SplitUnlines(ls, rest);
  }

  // ---------------------------------------------------------------------------------------
  // Repository merge
  // ---------------------------------------------------------------------------------------

  /**
   * The row list `update_repo_csv` writes: with an existing repository, the repo rows followed by
   * the new ones with exact duplicate rows dropped (first copy kept); without one, the batch as is.
   */
  function MergeRepo<T(==,!new)>(existing: Option<seq<T>>, batch: seq<T>): (rows: seq<T>)
    ensures existing.None? ==> rows == batch
    ensures existing.Some? ==> NoDup(rows)
    ensures existing.Some? ==> forall x :: x in rows <==> x in existing.value || x in batch
  {
    match existing
    case None => batch
    case Some(repo) => Dedup(repo + batch)
  }

  /** Every distinct row of the repo repository and the batch is kept exactly once. */
  lemma MergeKeepsOneCopy<T(!new)>(repo: seq<T>, batch: seq<T>, x: T)
    ensures Count(MergeRepo(Some(repo), batch), x) == if x in repo || x in batch then 1 else 0
  {
    DedupCount(repo + batch, x);
  }

  /** A duplicate-free repository stays a prefix of the merged rows, in its own order. */
  lemma MergeKeepsOldRows<T(!new)>(repo: seq<T>, batch: seq<T>)
    requires NoDup(repo)
    ensures |repo| <= |MergeRepo(Some(repo), batch)| && MergeRepo(Some(repo), batch)[..|repo|] == repo
  {
    DedupPrefix(repo, batch);
    DedupIdentity(repo);
  }

  /** A batch of rows already in a duplicate-free repository leaves it unchanged. */
  lemma MergeKnownRows<T(!new)>(repo: seq<T>, batch: seq<T>)
    requires NoDup(repo) && forall x :: x in batch ==> x in repo
    ensures MergeRepo(Some(repo), batch) == repo
  {
    DedupAbsorb(repo, batch);
    DedupIdentity(repo);
  }

  /**
   * `drop_duplicates` keeps the first copy of each row, in the order of those first copies in
   * the repository rows followed by the batch.
   */
  lemma MergeKeepsFirstOrder<T(!new)>(repo: seq<T>, batch: seq<T>)
    ensures var rows := MergeRepo(Some(repo), batch);
      forall i, j :: 0 <= i < j < |rows| ==> FirstIndex(repo + batch, rows[i]) < FirstIndex(repo + batch, rows[j])
  {
    DedupKeepsFirst(repo + batch);
  }
}

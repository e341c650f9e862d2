/**
 * The helpers of ui_utils.py used by the web front end: metadata stamping, the search
 * filter and the repository append.
 */
module UiUtils {
  import opened Wrappers
  import opened Strings
  import opened Seqs
  import opened Values
  import Core

  /** The two fields `assign_metadata` writes on one segment. */
  function Stamp(seg: Record, baseName: string, runId: string): (r: Record)
    ensures r.Keys == seg.Keys + {Core.SourceFileKey, Core.RunIdKey}
    ensures r[Core.SourceFileKey] == Str(baseName) && r[Core.RunIdKey] == Str(runId)
    ensures forall k :: k in seg && k != Core.SourceFileKey && k != Core.RunIdKey ==> r[k] == seg[k]
  {
    Core.FieldNamesDistinct();
    seg[Core.SourceFileKey := Str(baseName)][Core.RunIdKey := Str(runId)]
  }

  /** Stamping twice with the same values is stamping once. */
  lemma StampIdempotent(seg: Record, baseName: string, runId: string)
    ensures Stamp(Stamp(seg, baseName, runId), baseName, runId) == Stamp(seg, baseName, runId)
  {
    var once := Stamp(seg, baseName, runId);
    var twice := Stamp(once, baseName, runId);
    assert twice.Keys == once.Keys;
    assert forall k :: k in once ==> twice[k] == once[k];
  }

  /**
   * `assign_metadata`: every segment gets the base name of the source file and one run id,
   * the given one or, when it is `None`, the timestamp `now` taken once before the loop.
   */
  method AssignMetadata(segments: seq<Record>, sourceFile: string, runId: Option<string>, now: string)
    returns (result: seq<Record>)
    ensures |result| == |segments|
    ensures forall i :: 0 <= i < |segments| ==>
      result[i] == Stamp(segments[i], Core.Basename(sourceFile), runId.GetOr(now))
  {
    var run := if runId.None? then now else runId.value;
    result := segments;
    for i := 0 to |segments|
      invariant |result| == |segments|
      invariant forall k :: 0 <= k < i ==> result[k] == Stamp(segments[k], Core.Basename(sourceFile), run)
      invariant forall k :: i <= k < |segments| ==> result[k] == segments[k]
    {
      result := result[i := Stamp(result[i], Core.Basename(sourceFile), run)];
    }
  }

  /**
   * `s.get('title','').lower()` succeeds and, when the title does not match,
   * so does `s.get('content','').lower()`.
   */
  predicate UiSearchable(seg: Record, search: string) {
    TextOrAbsent(seg, "title")
    && (Contains(Lower(TextOf(seg, "title")), Lower(search)) || TextOrAbsent(seg, "content"))
  }

  /** `filter_segments` of ui_utils.py: like core's, with missing fields read as "". */
  function FilterSegments(segments: seq<Record>, search: string): (r: seq<Record>)
    requires search != "" ==> forall i :: 0 <= i < |segments| ==> UiSearchable(segments[i], search)
    ensures IsSubseq(r, segments)
    ensures forall s :: s in r <==> s in segments && (search == "" || Core.SearchMatches(s, search))
    ensures forall s :: multiset(r)[s] == if search == "" || Core.SearchMatches(s, search) then multiset(segments)[s] else 0
  {
    if search == "" then
      SubseqRefl(segments);
      segments
    else
      FilterMultiset(segments, Core.SearchFilter(search));
      Filter(segments, Core.SearchFilter(search))
  }

  /** On segments that all carry a text title (and content where needed), the two filters agree. */
  lemma FiltersAgree(segments: seq<Record>, search: string)
    requires search != "" ==> forall i :: 0 <= i < |segments| ==> Core.CoreSearchable(segments[i], search)
    ensures search != "" ==> forall i :: 0 <= i < |segments| ==> UiSearchable(segments[i], search)
    ensures FilterSegments(segments, search) == Core.FilterSegments(segments, search)
  {
  }

  /**
   * The merge of `append_to_repo`: the same rows as core's `update_repo_csv` writes, and the
   * number of rows returned is the length of the written list.
   */
  function AppendToRepo<T(==,!new)>(existing: Option<seq<T>>, batch: seq<T>): (r: (seq<T>, nat))
    ensures r.0 == Core.MergeRepo(existing, batch)
    ensures r.1 == |r.0|
  {
    var rows := Core.MergeRepo(existing, batch);
    (rows, |rows|)
  }
}

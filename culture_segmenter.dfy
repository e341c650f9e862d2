/**
 * The culture segmenter of utils.py: a line-level title classifier and the state machine
 * that cuts a document into (title, content) segments.
 *
 * Three views of the segmenter live here:
 *  - `SegmentCultures`, the index loop itself (imperative, as written);
 *  - `SegmentFold`, the same state machine as a function, exact for every input;
 *  - `Segmentation`, a declarative description: an optional leading "Overview" block,
 *    then one segment per maximal run of title lines together with the non-title lines
 *    that follow it.
 * The loop computes the fold, and the fold equals the declarative description whenever
 * the empty string is not a known culture (the loader of the known set never yields it).
 */
module CultureSegmenter {
  import opened Wrappers
  import opened Strings
  import opened Seqs

  /** The title of the synthetic segment that holds text before the first title. */
  const OverviewTitle: string := "Overview"

  /** The character budget of `truncate_for_gpt` when no tokenizer is available. */
  const GptCharLimit: nat := 6000

  datatype RawSegment = RawSegment(title: string, content: string)

  /** One character of the class `[A-Z\s\-]`. */
  predicate TitlePatternChar(c: char) {
    IsAsciiUpper(c) || IsSpace(c) || c == '-'
  }

  /** `re.match(r'^[A-Z][A-Z\s\-]{2,}$', clean)` on a string without a trailing newline. */
  predicate MatchesTitlePattern(clean: string) {
    |clean| >= 3 && IsAsciiUpper(clean[0])
    && forall i :: 1 <= i < |clean| ==> TitlePatternChar(clean[i])
  }

  /**
   * `is_culture_title`: the stripped, upper-cased line is a known culture or matches the
   * pattern. A known culture is always a title; any other title is longer than 3 characters
   * and starts with an ASCII letter.
   */
  predicate IsCultureTitle(line: string, known: set<string>)
    ensures Upper(Strip(line)) in known ==> IsCultureTitle(line, known)
    ensures IsCultureTitle(line, known) && Upper(Strip(line)) !in known ==>
      |Strip(line)| > 3 && IsAsciiLetter(Strip(line)[0])
  {
    var clean := Upper(Strip(line));
    (MatchesTitlePattern(clean) && |clean| > 3) || clean in known
  }

  /**
   * Because the line is upper-cased before the pattern is applied, every line whose stripped
   * form is longer than 3 characters, starts with an ASCII letter of either case and holds only
   * ASCII letters, whitespace and hyphens is a title; an unknown line is a title only then.
   */
  lemma {:induction false} TitleIgnoresCase(line: string, known: set<string>)
    ensures var s := Strip(line);
      (|s| > 3 && IsAsciiLetter(s[0]) && forall i :: 0 <= i < |s| ==> IsAsciiLetter(s[i]) || IsSpace(s[i]) || s[i] == '-')
      ==> IsCultureTitle(line, known)
    ensures var s := Strip(line);
      IsCultureTitle(line, known) && Upper(s) !in known
      ==> |s| > 3 && IsAsciiLetter(s[0]) && forall i :: 0 <= i < |s| ==> IsAsciiLetter(s[i]) || IsSpace(s[i]) || s[i] == '-'
  {
    var s := Strip(line);
    var clean := Upper(s);
    assert forall i :: 0 <= i < |s| ==> (IsAsciiLetter(s[i]) <==> IsAsciiUpper(clean[i]));
    assert forall i :: 0 <= i < |s| ==> (IsSpace(s[i]) <==> IsSpace(clean[i]));
    assert forall i :: 0 <= i < |s| ==> (s[i] == '-' <==> clean[i] == '-');
  }

  /** A line with a title's shape in lower case is a title all the same. */
  lemma {:induction false} LowerCasePhraseIsTitle()
    ensures IsCultureTitle("not a title", {"JAPANESE", "FRENCH"})
  {
    var s := "not a title";
    StripUnchanged(s);
    TitleIgnoresCase(s, {"JAPANESE", "FRENCH"});
  }

  /** A section word such as "Orientation" matches the heading pattern once upper-cased, so it joins a title run. */
  lemma {:induction false} SectionWordIsTitle()
    ensures IsCultureTitle("Orientation", {"JAPANESE"})
  {
    var s := "Orientation";
    StripUnchanged(s);
    TitleIgnoresCase(s, {"JAPANESE"});
  }

  /** When "" is not a known culture, a title line never strips to the empty string. */
  lemma {:induction false} TitleNotBlank(line: string, known: set<string>)
    requires "" !in known && IsCultureTitle(line, known)
    ensures Strip(line) != ""
  {
  }

  /** `truncate_for_gpt(text, enc=None)`: the first `min(6000, len(text))` characters. */
  function TruncateForGpt(text: string): (r: string)
    ensures |r| == if |text| < GptCharLimit then |text| else GptCharLimit
    ensures r == text[..|r|]
  {
    if |text| <= GptCharLimit then text else text[..GptCharLimit]
  }

  /**
   * What the segmenter needs to know about lines: which lines are titles, and how a run of
   * title lines is merged into one title.
   */
  datatype TitleRules = TitleRules(isTitle: string -> bool, merge: seq<string> -> string)

  /** `' '.join(title_lines)` where each title line is stripped. */
  function JoinTitle(run: seq<string>): string {
    Join(" ", StripAll(run))
  }

  function StripAll(lines: seq<string>): (r: seq<string>)
    ensures |r| == |lines|
  {
    seq(|lines|, i requires 0 <= i < |lines| => Strip(lines[i]))
  }

  /** The rules of `segment_cultures`: `is_culture_title` over the known cultures, and `JoinTitle`. */
  function CultureRules(known: set<string>): (rules: TitleRules)
    ensures forall line :: rules.isTitle(line) == IsCultureTitle(line, known)
    ensures forall run :: rules.merge(run) == JoinTitle(run)
  {
    TitleRules(line => IsCultureTitle(line, known), run => JoinTitle(run))
  }

  /** Every run that starts with a title line merges into a non-empty (truthy) title. */
  ghost predicate TruthyTitles(rules: TitleRules) {
    forall run: seq<string> {:trigger rules.merge(run)} :: run != [] && rules.isTitle(run[0]) ==> rules.merge(run) != ""
  }

  lemma {:induction false} JoinNotEmpty(sep: string, parts: seq<string>)
    requires parts != [] && parts[0] != ""
    ensures Join(sep, parts) != ""
  {
    if |parts| > 1 {
      assert Join(sep, parts) == parts[0] + sep + Join(sep, parts[1..]);
    }
  }

  /** When "" is not a known culture, every merged title of `segment_cultures` is truthy. */
  lemma {:induction false} CultureRulesTruthy(known: set<string>)
    requires "" !in known
    ensures TruthyTitles(CultureRules(known))
  {
    var rules := CultureRules(known);
    forall run: seq<string> | run != [] && rules.isTitle(run[0])
      ensures rules.merge(run) != ""
    {
      TitleNotBlank(run[0], known);
      JoinNotEmpty(" ", StripAll(run));
    }
  }

  // ---------------------------------------------------------------------------------------
  // The declarative description, for any line classifier
  // ---------------------------------------------------------------------------------------

  /** The longest prefix of `lines` made of non-title lines. */
  function TakeBody(lines: seq<string>, rules: TitleRules): (r: seq<string>)
    ensures |r| <= |lines| && r == lines[..|r|]
    ensures |r| < |lines| ==> rules.isTitle(lines[|r|])
  {
    if lines == [] || rules.isTitle(lines[0]) then []
    else [lines[0]] + TakeBody(lines[1..], rules)
  }

  /** No line of the body is a title line. */
  lemma {:induction false} TakeBodyHasNoTitle(lines: seq<string>, rules: TitleRules)
    ensures forall i :: 0 <= i < |TakeBody(lines, rules)| ==> !rules.isTitle(lines[i])
  {
    if lines != [] && !rules.isTitle(lines[0]) {
      TakeBodyHasNoTitle(lines[1..], rules);
    }
  }

  /** The longest prefix of `lines` made of title lines. */
  function TakeRun(lines: seq<string>, rules: TitleRules): (r: seq<string>)
    ensures |r| <= |lines| && r == lines[..|r|]
    ensures |r| < |lines| ==> !rules.isTitle(lines[|r|])
    ensures lines != [] && rules.isTitle(lines[0]) ==> r != []
  {
    if lines == [] || !rules.isTitle(lines[0]) then []
    else [lines[0]] + TakeRun(lines[1..], rules)
  }

  /** Every line of the run is a title line. */
  lemma {:induction false} TakeRunAllTitles(lines: seq<string>, rules: TitleRules)
    ensures forall i :: 0 <= i < |TakeRun(lines, rules)| ==> rules.isTitle(lines[i])
  {
    if lines != [] && rules.isTitle(lines[0]) {
      TakeRunAllTitles(lines[1..], rules);
    }
  }

  /** A maximal run of title lines and the non-title lines that follow it. */
  datatype Block = Block(run: seq<string>, body: seq<string>)

  /** The blocks of a line list that is empty or starts with a title line. */
  function Blocks(lines: seq<string>, rules: TitleRules): seq<Block>
    requires lines == [] || rules.isTitle(lines[0])
    decreases |lines|
  {
    if lines == [] then []
    else
      var run := TakeRun(lines, rules);
      var rest := lines[|run|..];
      var body := TakeBody(rest, rules);
      [Block(run, body)] + Blocks(rest[|body|..], rules)
  }

  function Render(rules: TitleRules, b: Block): RawSegment {
    RawSegment(rules.merge(b.run), Join("\n", b.body))
  }

  function RenderAll(rules: TitleRules, bs: seq<Block>): (r: seq<RawSegment>)
    ensures |r| == |bs|
  {
    if bs == [] then [] else [Render(rules, bs[0])] + RenderAll(rules, bs[1..])
  }

  lemma {:induction false} RenderAllCons(rules: TitleRules, b: Block, bs: seq<Block>)
    ensures RenderAll(rules, [b] + bs) == [Render(rules, b)] + RenderAll(rules, bs)
  {
    assert ([b] + bs)[1..] == bs;
  }

  /** The "Overview" segment for leading text, present only when there is such text. */
  function OverviewPart(lead: seq<string>): seq<RawSegment> {
    if lead == [] then [] else [RawSegment(OverviewTitle, Join("\n", lead))]
  }

  /** The leading non-title lines and the blocks after them. */
  function Segmentation(lines: seq<string>, rules: TitleRules): seq<RawSegment> {
    var lead := TakeBody(lines, rules);
    OverviewPart(lead) + RenderAll(rules, Blocks(lines[|lead|..], rules))
  }

  /** The lines of the blocks, in order. */
  function Unblock(bs: seq<Block>): seq<string> {
    if bs == [] then [] else bs[0].run + bs[0].body + Unblock(bs[1..])
  }

  predicate AllTitles(run: seq<string>, rules: TitleRules) {
    forall i :: 0 <= i < |run| ==> rules.isTitle(run[i])
  }

  predicate NoTitles(body: seq<string>, rules: TitleRules) {
    forall i :: 0 <= i < |body| ==> !rules.isTitle(body[i])
  }

  /**
   * The blocks cut the lines into maximal runs: each run is a non-empty list of title lines,
   * each body holds non-title lines only, and only the last body may be empty (so no two runs
   * touch).
   */
  predicate MaximalRuns(bs: seq<Block>, rules: TitleRules) {
    bs == []
    || (&& bs[0].run != [] && AllTitles(bs[0].run, rules) && NoTitles(bs[0].body, rules)
        && (|bs| > 1 ==> bs[0].body != [])
        && MaximalRuns(bs[1..], rules))
  }

  /** The first block of a line list that starts with a title. */
  lemma {:induction false} FirstBlock(lines: seq<string>, rules: TitleRules)
    requires lines != [] && rules.isTitle(lines[0])
    ensures var run := TakeRun(lines, rules);
      var rest := lines[|run|..];
      var body := TakeBody(rest, rules);
      run != [] && AllTitles(run, rules) && NoTitles(body, rules)
      && run + body + rest[|body|..] == lines
      && Blocks(lines, rules) == [Block(run, body)] + Blocks(rest[|body|..], rules)
  {
    var run := TakeRun(lines, rules);
    var rest := lines[|run|..];
    var body := TakeBody(rest, rules);
    var after := rest[|body|..];
    TakeRunAllTitles(lines, rules);
    TakeBodyHasNoTitle(rest, rules);
    assert body + after == rest;
    assert run + rest == lines;
    ConcatAssoc(run, body, after);
  }

  /** The blocks give back the lines they were cut from, and they are maximal runs. */
  lemma {:induction false} BlocksPartition(lines: seq<string>, rules: TitleRules)
    requires lines == [] || rules.isTitle(lines[0])
    ensures Unblock(Blocks(lines, rules)) == lines
    ensures MaximalRuns(Blocks(lines, rules), rules)
    decreases |lines|
  {
    if lines != [] {
      FirstBlock(lines, rules);
      var run := TakeRun(lines, rules);
      var rest := lines[|run|..];
      var body := TakeBody(rest, rules);
      var after := rest[|body|..];
      BlocksPartition(after, rules);
      var bs := Blocks(lines, rules);
      assert bs[0] == Block(run, body);
      assert bs[1..] == Blocks(after, rules);
      assert after != [] ==> body != [];
    }
  }

  /** Every line of the text lands in exactly one place: the lead or one block. */
  lemma {:induction false} SegmentationPartition(lines: seq<string>, rules: TitleRules)
    ensures var lead := TakeBody(lines, rules);
      var bs := Blocks(lines[|lead|..], rules);
      lead + Unblock(bs) == lines && NoTitles(lead, rules) && MaximalRuns(bs, rules)
      && |Segmentation(lines, rules)| == (if lead == [] then 0 else 1) + |bs|
  {
    var lead := TakeBody(lines, rules);
    TakeBodyHasNoTitle(lines, rules);
    BlocksPartition(lines[|lead|..], rules);
    assert lead + lines[|lead|..] == lines;
  }

  // ---------------------------------------------------------------------------------------
  // The state machine as a function: exactly the loop of utils.py, for every input
  // ---------------------------------------------------------------------------------------

  datatype ScanState = ScanState(
    segments: seq<RawSegment>,
    currentTitle: Option<string>,
    currentContent: seq<string>,
    overview: seq<string>,
    foundFirstCulture: bool)

  const InitialState := ScanState([], None, [], [], false)

  /** Python truthiness of `current_title`: neither `None` nor the empty string. */
  predicate Truthy(t: Option<string>) {
    t.Some? && t.value != ""
  }

  /** Where the inner loop stops: the last line of the run of title lines at `i`. */
  function RunEnd(lines: seq<string>, rules: TitleRules, i: nat): (j: nat)
    requires i < |lines|
    ensures i <= j < |lines|
    ensures j + 1 == |lines| || !rules.isTitle(lines[j + 1])
    decreases |lines| - i
  {
    if i + 1 < |lines| && rules.isTitle(lines[i + 1]) then RunEnd(lines, rules, i + 1) else i
  }

  /** The state change on meeting a (merged) title. */
  function AtTitle(st: ScanState, title: string): ScanState {
    var st1 :=
      if !st.foundFirstCulture && st.currentContent != [] then
        st.(overview := st.currentContent, currentContent := [], foundFirstCulture := true)
      else st;
    var segs :=
      if Truthy(st1.currentTitle) then st1.segments + [RawSegment(st1.currentTitle.value, Join("\n", st1.currentContent))]
      else st1.segments;
    st1.(segments := segs, currentTitle := Some(title), currentContent := [], foundFirstCulture := true)
  }

  function Scan(lines: seq<string>, rules: TitleRules, idx: nat, st: ScanState): ScanState
    requires idx <= |lines|
    decreases |lines| - idx
  {
    if idx == |lines| then st
    else if rules.isTitle(lines[idx]) then
      var j := RunEnd(lines, rules, idx);
      Scan(lines, rules, j + 1, AtTitle(st, rules.merge(lines[idx..j + 1])))
    else
      Scan(lines, rules, idx + 1, st.(currentContent := st.currentContent + [lines[idx]]))
  }

  /** What the code does after the loop: close the open segment, then put the overview first. */
  function Finish(st: ScanState): seq<RawSegment> {
    var segs :=
      if Truthy(st.currentTitle) then st.segments + [RawSegment(st.currentTitle.value, Join("\n", st.currentContent))]
      else if st.currentContent != [] && st.segments != [] then
        var last := st.segments[|st.segments| - 1];
        st.segments[..|st.segments| - 1] + [last.(content := last.content + "\n" + Join("\n", st.currentContent))]
      else st.segments;
    var overview :=
      if !Truthy(st.currentTitle) && st.currentContent != [] && st.segments == [] then st.currentContent
      else st.overview;
    if overview != [] then [RawSegment(OverviewTitle, Join("\n", overview))] + segs else segs
  }

  function SegmentFold(lines: seq<string>, rules: TitleRules): seq<RawSegment> {
    Finish(Scan(lines, rules, 0, InitialState))
  }

  // ---------------------------------------------------------------------------------------
  // The loop
  // ---------------------------------------------------------------------------------------

  /** `segment_cultures(text, known_cultures)`. */
  method SegmentCultures(text: string, known: set<string>) returns (segments: seq<RawSegment>)
    ensures segments == SegmentFold(SplitLines(text), CultureRules(known))
    ensures "" !in known ==> segments == Segmentation(SplitLines(text), CultureRules(known))
  {
    var lines := SplitLines(text);
    segments := SegmentLines(lines, CultureRules(known));
    if "" !in known {
      CultureRulesTruthy(known);
      FoldIsSegmentation(lines, CultureRules(known));
    }
  }

  /**
   * The inner loop of `segment_cultures`: from the title line at `start`, take the following
   * title lines too, and merge the stripped lines of the run into one title.
   */
  method TakeTitleRun(lines: seq<string>, rules: TitleRules, start: nat) returns (last: nat, title: string)
    requires forall run {:trigger JoinTitle(run)} :: rules.merge(run) == JoinTitle(run)
    requires start < |lines|
    ensures last == RunEnd(lines, rules, start)
    ensures title == rules.merge(lines[start..last + 1])
  {
    last := start;
    var titleLines := [Strip(lines[start])];
    while last + 1 < |lines| && rules.isTitle(lines[last + 1])
      invariant start <= last < |lines|
      invariant titleLines == StripAll(lines[start..last + 1])
      invariant RunEnd(lines, rules, start) == RunEnd(lines, rules, last)
    {
      RunEndStep(lines, rules, last);
      StripAllSnoc(lines, start, last + 1);
      last := last + 1;
      titleLines := titleLines + [Strip(lines[last])];
    }
    RunEndStop(lines, rules, last);
    title := Join(" ", titleLines);
    assert title == JoinTitle(lines[start..last + 1]);
  }

  /**
   * The loop of `segment_cultures` over the lines of the text, with the line classifier
   * `rules.isTitle` (for `segment_cultures` itself, `is_culture_title` over the known cultures).
   * Title lines are stripped and joined with spaces, which is what `rules.merge` must mean.
   */
  method SegmentLines(lines: seq<string>, rules: TitleRules) returns (segments: seq<RawSegment>)
    requires forall run {:trigger JoinTitle(run)} :: rules.merge(run) == JoinTitle(run)
    ensures segments == SegmentFold(lines, rules)
  {
    segments := [];
    var currentTitle: Option<string> := None;
    var currentContent: seq<string> := [];
    var overview: seq<string> := [];
    var foundFirstCulture := false;
    var idx := 0;
    while idx < |lines|
      invariant 0 <= idx <= |lines|
      invariant Scan(lines, rules, idx, ScanState(segments, currentTitle, currentContent, overview, foundFirstCulture))
             == Scan(lines, rules, 0, InitialState)
    {
      ghost var st := ScanState(segments, currentTitle, currentContent, overview, foundFirstCulture);
      var line := lines[idx];
      if rules.isTitle(line) {
        var start := idx;
        var title;
        idx, title := TakeTitleRun(lines, rules, start);
        ScanTitleStep(lines, rules, start, st);
        if !foundFirstCulture && currentContent != [] {
          overview := currentContent;
          currentContent := [];
          foundFirstCulture := true;
        }
        if Truthy(currentTitle) {
          segments := segments + [RawSegment(currentTitle.value, Join("\n", currentContent))];
        }
        currentTitle := Some(title);
        currentContent := [];
        foundFirstCulture := true;
        assert ScanState(segments, currentTitle, currentContent, overview, foundFirstCulture) == AtTitle(st, title);
        idx := idx + 1;
        continue;
      }
      ScanLineStep(lines, rules, idx, st);
      currentContent := currentContent + [line];
      idx := idx + 1;
    }
    ghost var final := ScanState(segments, currentTitle, currentContent, overview, foundFirstCulture);
    if Truthy(currentTitle) {
      segments := segments + [RawSegment(currentTitle.value, Join("\n", currentContent))];
    } else if currentContent != [] {
      if segments != [] {
        // Orphaned text after the last title: only a title that strips to "" leads here.
        var last := segments[|segments| - 1];
        segments := segments[..|segments| - 1] + [last.(content := last.content + "\n" + Join("\n", currentContent))];
      } else {
        overview := currentContent;
      }
    }
    if overview != [] {
      segments := [RawSegment(OverviewTitle, Join("\n", overview))] + segments;
    }
    assert segments == Finish(final);
  }

  // ---------------------------------------------------------------------------------------
  // The fold agrees with the declarative description
  // ---------------------------------------------------------------------------------------

  /** The run of title lines starting at `i` ends where the inner loop stops. */
  lemma {:induction false} RunEndIsTakeRun(lines: seq<string>, rules: TitleRules, i: nat)
    requires i < |lines| && rules.isTitle(lines[i])
    ensures TakeRun(lines[i..], rules) == lines[i..RunEnd(lines, rules, i) + 1]
    decreases |lines| - i
  {
    assert lines[i..][1..] == lines[i + 1..];
    if i + 1 < |lines| && rules.isTitle(lines[i + 1]) {
      RunEndIsTakeRun(lines, rules, i + 1);
      assert [lines[i]] + lines[i + 1..RunEnd(lines, rules, i) + 1] == lines[i..RunEnd(lines, rules, i) + 1];
    } else {
      assert TakeRun(lines[i + 1..], rules) == [];
    }
  }

  /** When `i` is past leading non-title lines and `lines[i]` is a title, those lines are the lead. */
  lemma {:induction false} TakeBodyStopsAtTitle(lines: seq<string>, rules: TitleRules, i: nat)
    requires i < |lines| && rules.isTitle(lines[i])
    requires forall k :: 0 <= k < i ==> !rules.isTitle(lines[k])
    ensures TakeBody(lines, rules) == lines[..i]
  {
    if i > 0 {
      assert !rules.isTitle(lines[0]);
      assert forall k :: 0 <= k < i - 1 ==> lines[1..][k] == lines[k + 1];
      TakeBodyStopsAtTitle(lines[1..], rules, i - 1);
      assert [lines[0]] + lines[1..][..i - 1] == lines[..i];
    }
  }

  /** A non-title line at `i` is the first line of the body taken from `i`. */
  lemma {:induction false} TakeBodyStep(lines: seq<string>, rules: TitleRules, i: nat)
    requires i < |lines| && !rules.isTitle(lines[i])
    ensures TakeBody(lines[i..], rules) == [lines[i]] + TakeBody(lines[i + 1..], rules)
  {
    assert lines[i..][1..] == lines[i + 1..];
  }

  /** The blocks from a title line at `i`: its run, the body after it, then the rest. */
  lemma {:induction false} BlocksStep(lines: seq<string>, rules: TitleRules, i: nat)
    requires i < |lines| && rules.isTitle(lines[i])
    ensures var j := RunEnd(lines, rules, i);
      var rest := lines[j + 1..];
      var body := TakeBody(rest, rules);
      Blocks(lines[i..], rules) == [Block(lines[i..j + 1], body)] + Blocks(rest[|body|..], rules)
  {
    var j := RunEnd(lines, rules, i);
    RunEndIsTakeRun(lines, rules, i);
    var suffix := lines[i..];
    var run := TakeRun(suffix, rules);
    assert |run| == j + 1 - i;
    var rest := suffix[|run|..];
    assert rest == lines[j + 1..];
    var body := TakeBody(rest, rules);
    var after := rest[|body|..];
    assert Blocks(suffix, rules) == [Block(run, body)] + Blocks(after, rules);
  }

  /** The rendered blocks from a title line at `idx`: its own segment, then the rest. */
  lemma {:induction false} RenderBlocksStep(lines: seq<string>, rules: TitleRules, idx: nat)
    requires idx < |lines| && rules.isTitle(lines[idx])
    ensures var j := RunEnd(lines, rules, idx);
      var rest := lines[j + 1..];
      var body := TakeBody(rest, rules);
      RenderAll(rules, Blocks(lines[idx..], rules))
      == [RawSegment(rules.merge(lines[idx..j + 1]), Join("\n", body))] + RenderAll(rules, Blocks(rest[|body|..], rules))
  {
    var j := RunEnd(lines, rules, idx);
    var rest := lines[j + 1..];
    var body := TakeBody(rest, rules);
    BlocksStep(lines, rules, idx);
    RenderAllCons(rules, Block(lines[idx..j + 1], body), Blocks(rest[|body|..], rules));
  }

  /** One step of the fold at a title line: the whole run of titles is consumed at once. */
  lemma {:induction false} ScanTitleStep(lines: seq<string>, rules: TitleRules, idx: nat, st: ScanState)
    requires idx < |lines| && rules.isTitle(lines[idx])
    ensures var j := RunEnd(lines, rules, idx);
      Scan(lines, rules, idx, st) == Scan(lines, rules, j + 1, AtTitle(st, rules.merge(lines[idx..j + 1])))
  {
  }

  lemma {:induction false} RunEndStep(lines: seq<string>, rules: TitleRules, i: nat)
    requires i + 1 < |lines| && rules.isTitle(lines[i + 1])
    ensures RunEnd(lines, rules, i) == RunEnd(lines, rules, i + 1)
  {
  }

  lemma {:induction false} RunEndStop(lines: seq<string>, rules: TitleRules, i: nat)
    requires i < |lines| && (i + 1 == |lines| || !rules.isTitle(lines[i + 1]))
    ensures RunEnd(lines, rules, i) == i
  {
  }

  lemma {:induction false} StripAllSnoc(lines: seq<string>, start: nat, end: nat)
    requires start < end < |lines|
    ensures StripAll(lines[start..end + 1]) == StripAll(lines[start..end]) + [Strip(lines[end])]
  {
    assert StripAll(lines[start..end + 1])[end - start] == Strip(lines[end]);
  }

  /** One step of the fold at a line that is not a title: it joins the current content. */
  lemma {:induction false} ScanLineStep(lines: seq<string>, rules: TitleRules, idx: nat, st: ScanState)
    requires idx < |lines| && !rules.isTitle(lines[idx])
    ensures Scan(lines, rules, idx, st) == Scan(lines, rules, idx + 1, st.(currentContent := st.currentContent + [lines[idx]]))
  {
  }

  /** The merged title of the run at a title line is truthy. */
  lemma {:induction false} RunTitleTruthy(lines: seq<string>, rules: TitleRules, idx: nat)
    requires TruthyTitles(rules) && idx < |lines| && rules.isTitle(lines[idx])
    ensures rules.merge(lines[idx..RunEnd(lines, rules, idx) + 1]) != ""
  {
    var run := lines[idx..RunEnd(lines, rules, idx) + 1];
    assert run[0] == lines[idx];
  }

  /** From an open segment, the fold produces that segment's rest and then the remaining blocks. */
  lemma {:induction false} ScanOpen(lines: seq<string>, rules: TitleRules, idx: nat, st: ScanState)
    requires TruthyTitles(rules)
    requires idx <= |lines|
    requires st.foundFirstCulture && Truthy(st.currentTitle)
    ensures var rest := lines[idx..];
      var body := TakeBody(rest, rules);
      Finish(Scan(lines, rules, idx, st))
      == OverviewPart(st.overview) + st.segments
         + [RawSegment(st.currentTitle.value, Join("\n", st.currentContent + body))]
         + RenderAll(rules, Blocks(rest[|body|..], rules))
    decreases |lines| - idx, 6
  {
    var rest := lines[idx..];
    if idx == |lines| {
      assert rest == [];
      assert st.currentContent + [] == st.currentContent;
    } else if rules.isTitle(lines[idx]) {
      ScanOpenAtTitle(lines, rules, idx, st);
    } else {
      ScanOpenAtLine(lines, rules, idx, st);
    }
  }

  /** `ScanOpen` at a non-title line: the line joins the open segment. */
  lemma {:induction false} ScanOpenAtLine(lines: seq<string>, rules: TitleRules, idx: nat, st: ScanState)
    requires TruthyTitles(rules)
    requires idx < |lines| && !rules.isTitle(lines[idx])
    requires st.foundFirstCulture && Truthy(st.currentTitle)
    ensures var rest := lines[idx..];
      var body := TakeBody(rest, rules);
      Finish(Scan(lines, rules, idx, st))
      == OverviewPart(st.overview) + st.segments
         + [RawSegment(st.currentTitle.value, Join("\n", st.currentContent + body))]
         + RenderAll(rules, Blocks(rest[|body|..], rules))
    decreases |lines| - idx, 0
  {
    var st1 := st.(currentContent := st.currentContent + [lines[idx]]);
    ScanLineStep(lines, rules, idx, st);
    ScanOpen(lines, rules, idx + 1, st1);
    OpenLineBody(lines, rules, idx, st.currentContent);
  }

  /** A non-title line moves from the rest of the text into the open segment's content. */
  lemma {:induction false} OpenLineBody(lines: seq<string>, rules: TitleRules, idx: nat, content: seq<string>)
    requires idx < |lines| && !rules.isTitle(lines[idx])
    ensures var rest := lines[idx..];
      var body := TakeBody(rest, rules);
      var rest1 := lines[idx + 1..];
      var body1 := TakeBody(rest1, rules);
      (content + [lines[idx]]) + body1 == content + body && rest[|body|..] == rest1[|body1|..]
  {
    TakeBodyStep(lines, rules, idx);
    var rest := lines[idx..];
    var rest1 := lines[idx + 1..];
    var body1 := TakeBody(rest1, rules);
    var body := TakeBody(rest, rules);
    assert (content + [lines[idx]]) + body1 == content + body;
    assert rest[|body|..] == rest1[|body1|..];
  }

  /** `ScanOpen` at a title line: the open segment is closed and the title's own segment opens. */
  lemma {:induction false} ScanOpenAtTitle(lines: seq<string>, rules: TitleRules, idx: nat, st: ScanState)
    requires TruthyTitles(rules)
    requires idx < |lines| && rules.isTitle(lines[idx])
    requires st.foundFirstCulture && Truthy(st.currentTitle)
    ensures var rest := lines[idx..];
      var body := TakeBody(rest, rules);
      Finish(Scan(lines, rules, idx, st))
      == OverviewPart(st.overview) + st.segments
         + [RawSegment(st.currentTitle.value, Join("\n", st.currentContent + body))]
         + RenderAll(rules, Blocks(rest[|body|..], rules))
    decreases |lines| - idx, 5
  {
    ScanOpenClosed(lines, rules, idx, st);
    TitleHasNoBody(lines, rules, idx, st.currentContent);
  }

  /** `ScanOpenAtTitle` before the empty body at the title line is accounted for. */
  lemma {:induction false} ScanOpenClosed(lines: seq<string>, rules: TitleRules, idx: nat, st: ScanState)
    requires TruthyTitles(rules)
    requires idx < |lines| && rules.isTitle(lines[idx])
    requires st.foundFirstCulture && Truthy(st.currentTitle)
    ensures Finish(Scan(lines, rules, idx, st))
      == OverviewPart(st.overview) + st.segments + [RawSegment(st.currentTitle.value, Join("\n", st.currentContent))]
         + RenderAll(rules, Blocks(lines[idx..], rules))
    decreases |lines| - idx, 4
  {
    ScanOpenRegrouped(lines, rules, idx, st);
    RenderBlocksStep(lines, rules, idx);
  }

  /** `ScanOpenAfterRun` with the title's segment grouped with the blocks after it. */
  lemma {:induction false} ScanOpenRegrouped(lines: seq<string>, rules: TitleRules, idx: nat, st: ScanState)
    requires TruthyTitles(rules)
    requires idx < |lines| && rules.isTitle(lines[idx])
    requires st.foundFirstCulture && Truthy(st.currentTitle)
    ensures var j := RunEnd(lines, rules, idx);
      var rest1 := lines[j + 1..];
      var body1 := TakeBody(rest1, rules);
      Finish(Scan(lines, rules, idx, st))
      == OverviewPart(st.overview) + st.segments + [RawSegment(st.currentTitle.value, Join("\n", st.currentContent))]
         + ([RawSegment(rules.merge(lines[idx..j + 1]), Join("\n", body1))]
            + RenderAll(rules, Blocks(rest1[|body1|..], rules)))
    decreases |lines| - idx, 3
  {
    ScanOpenAfterRun(lines, rules, idx, st);
  }

  /** After the run of titles at `idx`, the closed segment is followed by the title's own open segment. */
  lemma {:induction false} ScanOpenAfterRun(lines: seq<string>, rules: TitleRules, idx: nat, st: ScanState)
    requires TruthyTitles(rules)
    requires idx < |lines| && rules.isTitle(lines[idx])
    requires st.foundFirstCulture && Truthy(st.currentTitle)
    ensures var j := RunEnd(lines, rules, idx);
      var rest1 := lines[j + 1..];
      var body1 := TakeBody(rest1, rules);
      Finish(Scan(lines, rules, idx, st))
      == OverviewPart(st.overview) + (st.segments + [RawSegment(st.currentTitle.value, Join("\n", st.currentContent))])
         + [RawSegment(rules.merge(lines[idx..j + 1]), Join("\n", body1))]
         + RenderAll(rules, Blocks(rest1[|body1|..], rules))
    decreases |lines| - idx, 2
  {
    ScanAtTitleOpen(lines, rules, idx, st);
    ScanOpenAfterTitles(lines, rules, idx, st.segments + [RawSegment(st.currentTitle.value, Join("\n", st.currentContent))],
                        st.overview);
  }

  /** `ScanOpenFresh` after the run of titles at `idx`, with the run's merged title. */
  lemma {:induction false} ScanOpenAfterTitles(lines: seq<string>, rules: TitleRules, idx: nat,
                                               segments: seq<RawSegment>, overview: seq<string>)
    requires TruthyTitles(rules)
    requires idx < |lines| && rules.isTitle(lines[idx])
    ensures var j := RunEnd(lines, rules, idx);
      var title := rules.merge(lines[idx..j + 1]);
      var rest1 := lines[j + 1..];
      var body1 := TakeBody(rest1, rules);
      Finish(Scan(lines, rules, j + 1, ScanState(segments, Some(title), [], overview, true)))
      == OverviewPart(overview) + segments + [RawSegment(title, Join("\n", body1))]
         + RenderAll(rules, Blocks(rest1[|body1|..], rules))
    decreases |lines| - idx, 1
  {
    RunTitleTruthy(lines, rules, idx);
    ScanOpenFresh(lines, rules, RunEnd(lines, rules, idx) + 1, rules.merge(lines[idx..RunEnd(lines, rules, idx) + 1]),
                  segments, overview);
  }

  /** `ScanOpen` for a segment that has just been opened by a title: its content is all body. */
  lemma {:induction false} ScanOpenFresh(lines: seq<string>, rules: TitleRules, idx: nat, title: string,
                                         segments: seq<RawSegment>, overview: seq<string>)
    requires TruthyTitles(rules)
    requires idx <= |lines| && title != ""
    ensures var rest := lines[idx..];
      var body := TakeBody(rest, rules);
      Finish(Scan(lines, rules, idx, ScanState(segments, Some(title), [], overview, true)))
      == OverviewPart(overview) + segments + [RawSegment(title, Join("\n", body))]
         + RenderAll(rules, Blocks(rest[|body|..], rules))
    decreases |lines| - idx, 7
  {
    ScanOpen(lines, rules, idx, ScanState(segments, Some(title), [], overview, true));
    EmptyPrefix(TakeBody(lines[idx..], rules));
  }

  /** The fold at a title line while a segment is open: that segment is closed, the title's one opens. */
  lemma {:induction false} ScanAtTitleOpen(lines: seq<string>, rules: TitleRules, idx: nat, st: ScanState)
    requires idx < |lines| && rules.isTitle(lines[idx])
    requires st.foundFirstCulture && Truthy(st.currentTitle)
    ensures var j := RunEnd(lines, rules, idx);
      Scan(lines, rules, idx, st)
      == Scan(lines, rules, j + 1,
              ScanState(st.segments + [RawSegment(st.currentTitle.value, Join("\n", st.currentContent))],
                        Some(rules.merge(lines[idx..j + 1])), [], st.overview, true))
  {
    var j := RunEnd(lines, rules, idx);
    AtTitleOpen(st, rules.merge(lines[idx..j + 1]));
    ScanTitleStep(lines, rules, idx, st);
  }

  /** A title met while a segment is open closes that segment and opens the title's one. */
  lemma {:induction false} AtTitleOpen(st: ScanState, title: string)
    requires st.foundFirstCulture && Truthy(st.currentTitle)
    ensures AtTitle(st, title)
         == ScanState(st.segments + [RawSegment(st.currentTitle.value, Join("\n", st.currentContent))], Some(title), [],
                      st.overview, true)
  {
  }

  lemma {:induction false} EmptyPrefix<T>(s: seq<T>)
    ensures [] + s == s
  {
  }

  /** At a title line the body before the next title is empty. */
  lemma {:induction false} TitleHasNoBody(lines: seq<string>, rules: TitleRules, idx: nat, content: seq<string>)
    requires idx < |lines| && rules.isTitle(lines[idx])
    ensures var rest := lines[idx..];
      var body := TakeBody(rest, rules);
      body == [] && rest[|body|..] == rest && content + body == content
  {
    var rest := lines[idx..];
    assert rest[0] == lines[idx];
    assert rest[0..] == rest;
    assert content + [] == content;
  }

  /** Before the first title, the fold produces the whole declarative segmentation. */
  lemma {:induction false} ScanLeading(lines: seq<string>, rules: TitleRules, idx: nat)
    requires TruthyTitles(rules)
    requires idx <= |lines|
    requires forall k :: 0 <= k < idx ==> !rules.isTitle(lines[k])
    ensures Finish(Scan(lines, rules, idx, ScanState([], None, lines[..idx], [], false)))
         == Segmentation(lines, rules)
    decreases |lines| - idx
  {
    if idx == |lines| {
      assert lines[..idx] == lines;
      assert TakeBody(lines, rules) == lines;
      assert lines[|lines|..] == [];
    } else if rules.isTitle(lines[idx]) {
      ScanLeadingAtTitle(lines, rules, idx);
    } else {
      var st := ScanState([], None, lines[..idx], [], false);
      var st1 := ScanState([], None, lines[..idx + 1], [], false);
      assert lines[..idx] + [lines[idx]] == lines[..idx + 1];
      assert Scan(lines, rules, idx, st) == Scan(lines, rules, idx + 1, st1);
      ScanLeading(lines, rules, idx + 1);
    }
  }

  /** `ScanLeading` at the first title: the lead becomes the overview and the first segment opens. */
  lemma {:induction false} ScanLeadingAtTitle(lines: seq<string>, rules: TitleRules, idx: nat)
    requires TruthyTitles(rules)
    requires idx < |lines| && rules.isTitle(lines[idx])
    requires forall k :: 0 <= k < idx ==> !rules.isTitle(lines[k])
    ensures Finish(Scan(lines, rules, idx, ScanState([], None, lines[..idx], [], false)))
         == Segmentation(lines, rules)
  {
    var j := RunEnd(lines, rules, idx);
    var rest1 := lines[j + 1..];
    var body1 := TakeBody(rest1, rules);
    var seg1 := RawSegment(rules.merge(lines[idx..j + 1]), Join("\n", body1));
    var tail := RenderAll(rules, Blocks(rest1[|body1|..], rules));
    SegmentationAtFirstTitle(lines, rules, idx);
    RenderBlocksStep(lines, rules, idx);
    LeadingFoldAtTitle(lines, rules, idx);
    ConcatAssoc(OverviewPart(lines[..idx]), [seg1], tail);
  }

  /** With the first title at `idx`, the lead is everything before it. */
  lemma {:induction false} SegmentationAtFirstTitle(lines: seq<string>, rules: TitleRules, idx: nat)
    requires idx < |lines| && rules.isTitle(lines[idx])
    requires forall k :: 0 <= k < idx ==> !rules.isTitle(lines[k])
    ensures Segmentation(lines, rules) == OverviewPart(lines[..idx]) + RenderAll(rules, Blocks(lines[idx..], rules))
  {
    TakeBodyStopsAtTitle(lines, rules, idx);
  }

  /** The fold at the first title: the lead is kept as the overview, then the open segment runs on. */
  lemma {:induction false} LeadingFoldAtTitle(lines: seq<string>, rules: TitleRules, idx: nat)
    requires TruthyTitles(rules)
    requires idx < |lines| && rules.isTitle(lines[idx])
    ensures var j := RunEnd(lines, rules, idx);
      var rest1 := lines[j + 1..];
      var body1 := TakeBody(rest1, rules);
      Finish(Scan(lines, rules, idx, ScanState([], None, lines[..idx], [], false)))
      == OverviewPart(lines[..idx]) + [RawSegment(rules.merge(lines[idx..j + 1]), Join("\n", body1))]
         + RenderAll(rules, Blocks(rest1[|body1|..], rules))
  {
    ScanAtFirstTitle(lines, rules, idx);
    ScanOpenAfterTitles(lines, rules, idx, [], lines[..idx]);
    AppendEmpty(OverviewPart(lines[..idx]));
  }

  /** The fold at the first title: the lines before it become the overview. */
  lemma {:induction false} ScanAtFirstTitle(lines: seq<string>, rules: TitleRules, idx: nat)
    requires idx < |lines| && rules.isTitle(lines[idx])
    ensures var j := RunEnd(lines, rules, idx);
      Scan(lines, rules, idx, ScanState([], None, lines[..idx], [], false))
      == Scan(lines, rules, j + 1, ScanState([], Some(rules.merge(lines[idx..j + 1])), [], lines[..idx], true))
  {
    var j := RunEnd(lines, rules, idx);
    AtFirstTitle(lines[..idx], rules.merge(lines[idx..j + 1]));
    ScanTitleStep(lines, rules, idx, ScanState([], None, lines[..idx], [], false));
  }

  /** Meeting the first title moves the content gathered so far into the overview. */
  lemma {:induction false} AtFirstTitle(lead: seq<string>, title: string)
    ensures AtTitle(ScanState([], None, lead, [], false), title) == ScanState([], Some(title), [], lead, true)
  {
  }

  lemma {:induction false} AppendEmpty<T>(s: seq<T>)
    ensures s + [] == s
  {
  }

  /** The exact state machine agrees with the declarative segmentation. */
  lemma {:induction false} FoldIsSegmentation(lines: seq<string>, rules: TitleRules)
    requires TruthyTitles(rules)
    ensures SegmentFold(lines, rules) == Segmentation(lines, rules)
  {
    assert lines[..0] == [];
    ScanLeading(lines, rules, 0);
  }

  /** Text without any title line becomes a single "Overview" segment (nothing at all when empty). */
  lemma {:induction false} ScanNoTitles(lines: seq<string>, rules: TitleRules, idx: nat, content: seq<string>)
    requires idx <= |lines|
    requires forall k :: idx <= k < |lines| ==> !rules.isTitle(lines[k])
    ensures Scan(lines, rules, idx, ScanState([], None, content, [], false))
         == ScanState([], None, content + lines[idx..], [], false)
    decreases |lines| - idx
  {
    if idx == |lines| {
      assert content + lines[idx..] == content;
    } else {
      ScanNoTitles(lines, rules, idx + 1, content + [lines[idx]]);
      assert content + [lines[idx]] + lines[idx + 1..] == content + lines[idx..];
    }
  }

  lemma {:induction false} NoTitlesOneOverview(lines: seq<string>, rules: TitleRules)
    requires forall k :: 0 <= k < |lines| ==> !rules.isTitle(lines[k])
    ensures SegmentFold(lines, rules)
         == if lines == [] then [] else [RawSegment(OverviewTitle, Join("\n", lines))]
  {
    ScanNoTitles(lines, rules, 0, []);
    assert [] + lines[0..] == lines;
    var st := ScanState([], None, lines, [], false);
    assert Scan(lines, rules, 0, InitialState) == st;
    assert SegmentFold(lines, rules) == Finish(st);
  }

  // ---------------------------------------------------------------------------------------
  // The orphan-append branch
  // ---------------------------------------------------------------------------------------

  /** Some segment is emitted only while a truthy title is open. */
  ghost predicate OpenOrEmpty(st: ScanState) {
    Truthy(st.currentTitle) || st.segments == []
  }

  lemma {:induction false} ScanKeepsOpenOrEmpty(lines: seq<string>, rules: TitleRules, idx: nat, st: ScanState)
    requires TruthyTitles(rules)
    requires idx <= |lines| && OpenOrEmpty(st)
    ensures OpenOrEmpty(Scan(lines, rules, idx, st))
    decreases |lines| - idx
  {
    if idx < |lines| {
      if rules.isTitle(lines[idx]) {
        var j := RunEnd(lines, rules, idx);
        RunTitleTruthy(lines, rules, idx);
        ScanTitleStep(lines, rules, idx, st);
        ScanKeepsOpenOrEmpty(lines, rules, j + 1, AtTitle(st, rules.merge(lines[idx..j + 1])));
      } else {
        ScanKeepsOpenOrEmpty(lines, rules, idx + 1, st.(currentContent := st.currentContent + [lines[idx]]));
      }
    }
  }

  /**
   * Text after the last title is appended to the previous segment only when no title is open
   * while segments exist, which needs a title line that strips to "".
   */
  lemma {:induction false} OrphanNeedsBlankTitle(lines: seq<string>, rules: TitleRules)
    requires TruthyTitles(rules)
    ensures var st := Scan(lines, rules, 0, InitialState);
      Truthy(st.currentTitle) || st.segments == []
  {
    ScanKeepsOpenOrEmpty(lines, rules, 0, InitialState);
  }
}

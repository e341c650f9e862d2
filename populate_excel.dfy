/**
 * The profile parser of populate_excel.py: a text of `**Key:** value` profiles separated by
 * `"\n\n---\n\n"` becomes one dictionary per profile, with every value cleaned to a single line.
 * The search of the `re.findall` pattern and the three substitutions are written out as functions.
 */
module PopulateExcel {
  import opened Wrappers
  import opened Strings
  import Seqs

  /** The separator between two profiles. */
  const ProfileSeparator: string := "\n\n---\n\n"

  /** The profiles: the stripped input split at the separator. */
  function Chunks(text: string): (r: seq<string>)
    ensures |r| >= 1 && Join(ProfileSeparator, r) == Strip(text)
  {
    SplitOn(Strip(text), ProfileSeparator)
  }

  /**
   * The profiles are cut at the leftmost occurrences of the separator: no profile holds the
   * separator, and none ends in a prefix that the separator after it would complete earlier.
   */
  lemma ChunksLeftmost(text: string)
    ensures PiecesFree(Chunks(text), ProfileSeparator)
    ensures CutsLeftmost(Chunks(text), ProfileSeparator)
  {
    SplitOnLeftmost(Strip(text), ProfileSeparator);
  }

  // ----- `re.findall(r'\*\*(.*?):\*\*\s*(.*?)(?=\n\n\*\*|\Z)', text, re.DOTALL)` -----

  /** The end of the run of whitespace starting at `i`: how far `\s*` reaches. */
  function RunEnd(s: string, i: nat): (j: nat)
    requires i <= |s|
    ensures i <= j <= |s|
    ensures forall k :: i <= k < j ==> IsSpace(s[k])
    ensures j == |s| || !IsSpace(s[j])
    decreases |s| - i
  {
    if i < |s| && IsSpace(s[i]) then RunEnd(s, i + 1) else i
  }

  /** Positions of one match: `**` at `start`, `:**` at `keyEnd`, the value in `[valueStart, valueEnd)`. */
  datatype Span = Span(start: nat, keyEnd: nat, valueStart: nat, valueEnd: nat)

  /**
   * `m` is a match of the pattern in `s`: the key is the shortest text after `**` that is
   * followed by `:**`, the whitespace after `:**` is skipped, and the value is the shortest
   * text that is followed by `"\n\n**"` or the end of the text.
   */
  predicate IsField(s: string, m: Span) {
    OccursAt(s, "**", m.start) && m.start + 2 <= m.keyEnd && OccursAt(s, ":**", m.keyEnd)
    && (forall k :: m.start + 2 <= k < m.keyEnd ==> !OccursAt(s, ":**", k))
    && m.valueStart == RunEnd(s, m.keyEnd + 3) && m.valueStart <= m.valueEnd <= |s|
    && (m.valueEnd == |s| || OccursAt(s, "\n\n**", m.valueEnd))
    && (forall k :: m.valueStart <= k < m.valueEnd ==> !OccursAt(s, "\n\n**", k))
  }

  /**
   * The leftmost match starting at or after `from`. Once no `:**` follows the first `**`, no
   * later `**` can be followed by one either, so the search ends there.
   */
  function NextField(s: string, from: nat): (r: Option<Span>)
    requires from <= |s|
    ensures r.None? ==>
      forall p, k :: from <= p && p + 2 <= k && OccursAt(s, "**", p) ==> !OccursAt(s, ":**", k)
    ensures r.Some? ==>
      (IsField(s, r.value) && from <= r.value.start
       && forall p :: from <= p < r.value.start ==> !OccursAt(s, "**", p))
  {
    var p := FindFrom(s, "**", from);
    if p == -1 then None
    else
      var k := FindFrom(s, ":**", p + 2);
      if k == -1 then None
      else
        var v := RunEnd(s, k + 3);
        var e := FindFrom(s, "\n\n**", v);
        Some(Span(p, k, v, if e == -1 then |s| else e))
  }

  /** All matches from `from` on, each search resuming where the previous match ended. */
  function FindFields(s: string, from: nat): (r: seq<Span>)
    requires from <= |s|
    ensures forall i :: 0 <= i < |r| ==> IsField(s, r[i]) && from <= r[i].start
    ensures forall i :: 0 <= i < |r| - 1 ==> r[i].valueEnd <= r[i + 1].start
    decreases |s| - from
  {
    match NextField(s, from)
    case None => []
    case Some(m) => [m] + FindFields(s, m.valueEnd)
  }

  /**
   * `r` is what repeated searching yields: the first search from `from`, every later one from
   * the end of the match before it, and the search after the last match finds nothing.
   */
  predicate SearchChain(s: string, from: nat, r: seq<Span>)
    requires from <= |s|
    requires forall i :: 0 <= i < |r| ==> r[i].valueEnd <= |s|
  {
    (r == [] <==> NextField(s, from).None?)
    && (r != [] ==> NextField(s, from) == Some(r[0]) && NextField(s, r[|r| - 1].valueEnd).None?)
    && forall i :: 0 <= i < |r| - 1 ==> NextField(s, r[i].valueEnd) == Some(r[i + 1])
  }

  /** The matches of `re.findall` are exactly the chain of leftmost searches. */
  lemma {:induction false} FindFieldsChain(s: string, from: nat)
    requires from <= |s|
    ensures SearchChain(s, from, FindFields(s, from))
    decreases |s| - from
  {
    var r := FindFields(s, from);
    match NextField(s, from)
    case None =>
    case Some(m) =>
      var rest := FindFields(s, m.valueEnd);
      FindFieldsChain(s, m.valueEnd);
      assert r == [m] + rest;
      forall i | 0 <= i < |r| - 1
        ensures NextField(s, r[i].valueEnd) == Some(r[i + 1])
      {
        if i > 0 {
          assert r[i] == rest[i - 1] && r[i + 1] == rest[i];
        }
      }
      if rest != [] {
        assert r[|r| - 1] == rest[|rest| - 1];
      }
  }

  function RawKey(s: string, m: Span): string
    requires IsField(s, m)
  {
    s[m.start + 2..m.keyEnd]
  }

  function RawValue(s: string, m: Span): string
    requires IsField(s, m)
  {
    s[m.valueStart..m.valueEnd]
  }

  // ----- `re.sub(r'^- ', '', value, flags=re.MULTILINE)` -----

  function DropDash(line: string): (r: string)
    ensures StartsWith(line, "- ") ==> line == "- " + r
    ensures !StartsWith(line, "- ") ==> r == line
  {
    if StartsWith(line, "- ") then line[2..] else line
  }

  /** Drop a leading `"- "` from every line. */
  function DropListMarkers(v: string): string {
    var lines := SplitChar(v, '\n');
    Join("\n", seq(|lines|, i requires 0 <= i < |lines| => DropDash(lines[i])))
  }

  /** The lines of the result are the input's lines, each without its leading `"- "`. */
  lemma DropListMarkersLines(v: string)
    ensures var lines := SplitChar(v, '\n');
      var out := SplitChar(DropListMarkers(v), '\n');
      |out| == |lines| && forall i :: 0 <= i < |lines| ==> out[i] == DropDash(lines[i])
  {
    var lines := SplitChar(v, '\n');
    var dropped := seq(|lines|, i requires 0 <= i < |lines| => DropDash(lines[i]));
    forall i | 0 <= i < |dropped|
      ensures '\n' !in dropped[i]
    {
      assert '\n' !in lines[i];
    }
    SplitJoin(dropped, '\n');
  }

  // ----- `re.sub(r'\n\s*\n', '\n', value)` -----

  /** The last newline in `s[lo..hi]`, or -1. */
  function LastNewline(s: string, lo: nat, hi: nat): (q: int)
    requires lo <= hi <= |s|
    ensures q == -1 || (lo <= q < hi && s[q] == '\n')
    ensures forall k :: (if q == -1 then lo else q + 1) <= k < hi ==> s[k] != '\n'
    decreases hi
  {
    if hi == lo then -1
    else if s[hi - 1] == '\n' then hi - 1
    else LastNewline(s, lo, hi - 1)
  }

  /**
   * Each match runs from a newline through the last newline of the whitespace run after it
   * (the greedy `\s*` backs off to that newline) and becomes a single newline.
   */
  function CollapseBlankLines(s: string): (r: string)
    ensures s == [] <==> r == []
    ensures s != [] ==> r[0] == s[0]
    decreases |s|
  {
    if s == [] then []
    else if s[0] != '\n' then [s[0]] + CollapseBlankLines(s[1..])
    else
      var q := LastNewline(s, 1, RunEnd(s, 1));
      if q == -1 then "\n" + CollapseBlankLines(s[1..])
      else "\n" + CollapseBlankLines(s[q + 1..])
  }

  /** Between any two newlines of `t` stands a character that is not whitespace. */
  predicate NoBlankLine(t: string) {
    forall i, j :: 0 <= i < j < |t| && t[i] == '\n' && t[j] == '\n' ==> exists k :: i < k < j && !IsSpace(t[k])
  }

  /** Every newline of `t` comes after a character that is not whitespace. */
  predicate LedByText(t: string) {
    forall j :: 0 <= j < |t| && t[j] == '\n' ==> exists k :: 0 <= k < j && !IsSpace(t[k])
  }

  lemma LedByTextCons(c: char, t: string)
    requires IsSpace(c) && LedByText([c] + t)
    ensures LedByText(t)
  {
    forall j | 0 <= j < |t| && t[j] == '\n'
      ensures exists k :: 0 <= k < j && !IsSpace(t[k])
    {
      var s := [c] + t;
      assert s[j + 1] == '\n';
      var k :| 0 <= k < j + 1 && !IsSpace(s[k]);
      assert t[k - 1] == s[k];
    }
  }

  /** Collapsing keeps text in front of the first newline. */
  lemma {:induction false} CollapseKeepsLead(s: string)
    requires LedByText(s)
    ensures LedByText(CollapseBlankLines(s))
    decreases |s|
  {
    var r := CollapseBlankLines(s);
    if s != [] {
      if s[0] == '\n' {
        assert false;
      } else if !IsSpace(s[0]) {
        assert r[0] == s[0];
      } else {
        assert s == [s[0]] + s[1..];
        LedByTextCons(s[0], s[1..]);
        CollapseKeepsLead(s[1..]);
        var rest := CollapseBlankLines(s[1..]);
        assert r == [s[0]] + rest;
        forall j | 0 <= j < |r| && r[j] == '\n'
          ensures exists k :: 0 <= k < j && !IsSpace(r[k])
        {
          assert rest[j - 1] == '\n';
          var k :| 0 <= k < j - 1 && !IsSpace(rest[k]);
          assert r[k + 1] == rest[k];
        }
      }
    }
  }

  /** A newline followed by text whose newlines come after non-whitespace starts no blank line. */
  lemma NoBlankLineAfterNewline(rest: string)
    requires NoBlankLine(rest) && LedByText(rest)
    ensures NoBlankLine("\n" + rest)
  {
    var r := "\n" + rest;
    forall i, j | 0 <= i < j < |r| && r[i] == '\n' && r[j] == '\n'
      ensures exists k :: i < k < j && !IsSpace(r[k])
    {
      assert rest[j - 1] == '\n';
      if i == 0 {
        var k :| 0 <= k < j - 1 && !IsSpace(rest[k]);
        assert r[k + 1] == rest[k];
      } else {
        assert rest[i - 1] == '\n';
        var k :| i - 1 < k < j - 1 && !IsSpace(rest[k]);
        assert r[k + 1] == rest[k];
      }
    }
  }

  lemma NoBlankLineAfterChar(c: char, rest: string)
    requires c != '\n' && NoBlankLine(rest)
    ensures NoBlankLine([c] + rest)
  {
    var r := [c] + rest;
    forall i, j | 0 <= i < j < |r| && r[i] == '\n' && r[j] == '\n'
      ensures exists k :: i < k < j && !IsSpace(r[k])
    {
      assert rest[i - 1] == '\n' && rest[j - 1] == '\n';
      var k :| i - 1 < k < j - 1 && !IsSpace(rest[k]);
      assert r[k + 1] == rest[k];
    }
  }

  /** What follows a collapsed newline starts with whitespace free of newlines, then text. */
  lemma LedAfterRun(s: string, from: nat)
    requires s != [] && 1 <= from <= RunEnd(s, 1)
    requires forall k :: from <= k < RunEnd(s, 1) ==> s[k] != '\n'
    ensures LedByText(s[from..])
  {
    var t := s[from..];
    var e := RunEnd(s, 1);
    forall j | 0 <= j < |t| && t[j] == '\n'
      ensures exists k :: 0 <= k < j && !IsSpace(t[k])
    {
      assert s[from + j] == '\n';
      assert from + j > e;
      assert t[e - from] == s[e];
    }
  }

  /** After collapsing, no line between two newlines is blank. */
  lemma {:induction false} CollapseLeavesNoBlankLine(s: string)
    ensures NoBlankLine(CollapseBlankLines(s))
    decreases |s|
  {
    if s != [] {
      if s[0] != '\n' {
        CollapseLeavesNoBlankLine(s[1..]);
        NoBlankLineAfterChar(s[0], CollapseBlankLines(s[1..]));
      } else {
        var e := RunEnd(s, 1);
        var q := LastNewline(s, 1, e);
        var from := if q == -1 then 1 else q + 1;
        CollapseLeavesNoBlankLine(s[from..]);
        LedAfterRun(s, from);
        CollapseKeepsLead(s[from..]);
        NoBlankLineAfterNewline(CollapseBlankLines(s[from..]));
      }
    }
  }

  /** The characters of `t` that are not whitespace, in order. */
  function Visible(t: string): string
    decreases |t|
  {
    if t == [] then [] else (if IsSpace(t[0]) then [] else [t[0]]) + Visible(t[1..])
  }

  lemma {:induction false} VisibleSkipsSpace(s: string, i: nat, j: nat)
    requires i <= j <= |s|
    requires forall k :: i <= k < j ==> IsSpace(s[k])
    ensures Visible(s[i..]) == Visible(s[j..])
    decreases j - i
  {
    if i < j {
      assert s[i..][1..] == s[i + 1..];
      VisibleSkipsSpace(s, i + 1, j);
    }
  }

  /** Collapsing removes whitespace only: the result is a subsequence with the same visible text. */
  lemma {:induction false} CollapseRemovesOnlySpace(s: string)
    ensures Seqs.IsSubseq(CollapseBlankLines(s), s)
    ensures Visible(CollapseBlankLines(s)) == Visible(s)
    decreases |s|
  {
    if s != [] {
      var r := CollapseBlankLines(s);
      var from := if s[0] != '\n' then 1 else
        var q := LastNewline(s, 1, RunEnd(s, 1)); if q == -1 then 1 else q + 1;
      var rest := CollapseBlankLines(s[from..]);
      CollapseRemovesOnlySpace(s[from..]);
      assert r == [s[0]] + rest && r[1..] == rest;
      Seqs.SubseqDrop(rest, s[1..], from - 1);
      assert s[1..][from - 1..] == s[from..];
      assert s[1..] == s[..][1..];
      VisibleSkipsSpace(s, 1, from);
    }
  }

  lemma NoBlankLineSuffix(s: string, j: nat)
    requires j <= |s| && NoBlankLine(s)
    ensures NoBlankLine(s[j..])
  {
    var t := s[j..];
    forall a, b | 0 <= a < b < |t| && t[a] == '\n' && t[b] == '\n'
      ensures exists k :: a < k < b && !IsSpace(t[k])
    {
      assert s[j + a] == '\n' && s[j + b] == '\n';
      var k :| j + a < k < j + b && !IsSpace(s[k]);
      assert t[k - j] == s[k];
    }
  }

  /** A newline followed by whitespace and another newline is a blank line. */
  lemma NoRunToNewline(s: string)
    requires s != [] && s[0] == '\n' && NoBlankLine(s)
    ensures LastNewline(s, 1, RunEnd(s, 1)) == -1
  {
  }

  /** Text without a blank line (no match of `\n\s*\n`) is left unchanged. */
  lemma {:induction false} CollapseUnchanged(s: string)
    requires NoBlankLine(s)
    ensures CollapseBlankLines(s) == s
    decreases |s|
  {
    if s != [] {
      NoBlankLineSuffix(s, 1);
      CollapseUnchanged(s[1..]);
      if s[0] == '\n' {
        NoRunToNewline(s);
      }
      assert s == [s[0]] + s[1..];
    }
  }

  /** Collapsing twice is collapsing once. */
  lemma CollapseIdempotent(s: string)
    ensures CollapseBlankLines(CollapseBlankLines(s)) == CollapseBlankLines(s)
  {
    CollapseLeavesNoBlankLine(s);
    CollapseUnchanged(CollapseBlankLines(s));
  }

  // ----- `value.replace('\n', '\\n')` -----

  /** Every newline becomes the two characters backslash and `n`. */
  function EscapeNewlines(s: string): (r: string)
    ensures '\n' !in r
  {
    if s == [] then []
    else (if s[0] == '\n' then "\\n" else [s[0]]) + EscapeNewlines(s[1..])
  }

  /** Reading backslash-`n` as a newline. */
  function UnescapeNewlines(t: string): string
    decreases |t|
  {
    if t == [] then []
    else if |t| >= 2 && t[0] == '\\' && t[1] == 'n' then "\n" + UnescapeNewlines(t[2..])
    else [t[0]] + UnescapeNewlines(t[1..])
  }

  /** Escaping loses nothing when the text holds no backslash. */
  lemma {:induction false} EscapeRoundTrip(s: string)
    requires '\\' !in s
    ensures UnescapeNewlines(EscapeNewlines(s)) == s
  {
    if s != [] {
      var t := EscapeNewlines(s);
      assert '\\' !in s[1..];
      EscapeRoundTrip(s[1..]);
      if s[0] == '\n' {
        assert t[2..] == EscapeNewlines(s[1..]);
      } else {
        assert t[1..] == EscapeNewlines(s[1..]);
      }
      assert s == [s[0]] + s[1..];
    }
  }

  // ----- One profile -----

  /** The cleaned value: stripped, list markers dropped, blank lines collapsed, newlines escaped. */
  function CleanValue(raw: string): (r: string)
    ensures '\n' !in r
  {
    EscapeNewlines(CollapseBlankLines(DropListMarkers(Strip(raw))))
  }

  /** The (key, value) pairs of one profile, in match order. */
  function Fields(chunk: string, spans: seq<Span>): (r: seq<(string, string)>)
    requires forall i :: 0 <= i < |spans| ==> IsField(chunk, spans[i])
    ensures |r| == |spans|
    ensures forall i :: 0 <= i < |r| ==>
      r[i] == (Strip(RawKey(chunk, spans[i])), CleanValue(RawValue(chunk, spans[i])))
  {
    seq(|spans|, i requires 0 <= i < |spans| =>
      (Strip(RawKey(chunk, spans[i])), CleanValue(RawValue(chunk, spans[i]))))
  }

  function FieldsOf(chunk: string): seq<(string, string)> {
    Fields(chunk, FindFields(chunk, 0))
  }

  /** The dictionary filled pair by pair, so that a later pair with the same key replaces an earlier one. */
  function BuildProfile(fields: seq<(string, string)>): (r: map<string, string>)
    ensures forall k :: k in r ==> exists i :: 0 <= i < |fields| && fields[i] == (k, r[k])
  {
    if fields == [] then map[]
    else
      var init := fields[..|fields| - 1];
      var last := fields[|fields| - 1];
      var r := BuildProfile(init)[last.0 := last.1];
      assert forall i :: 0 <= i < |init| ==> init[i] == fields[i];
      r
  }

  function ProfileOf(chunk: string): map<string, string> {
    BuildProfile(FieldsOf(chunk))
  }

  lemma BuildProfileAt(fields: seq<(string, string)>, j: nat)
    requires j < |fields|
    ensures BuildProfile(fields[..j + 1]) == BuildProfile(fields[..j])[fields[j].0 := fields[j].1]
  {
    assert fields[..j + 1][..j] == fields[..j];
  }

  /** The body of the outer loop of `parse_profile_text`: one profile's dictionary. */
  method ParseProfile(profileText: string) returns (profile: map<string, string>)
    ensures profile == ProfileOf(profileText)
  {
    profile := map[];
    var matches := FindFields(profileText, 0);
    ghost var fields := Fields(profileText, matches);
    for j := 0 to |matches|
      invariant profile == BuildProfile(fields[..j])
    {
      BuildProfileAt(fields, j);
      var key := Strip(profileText[matches[j].start + 2..matches[j].keyEnd]);
      var value := Strip(profileText[matches[j].valueStart..matches[j].valueEnd]);
      value := DropListMarkers(value);
      value := CollapseBlankLines(value);
      value := EscapeNewlines(value);
      assert (key, value) == fields[j];
      profile := profile[key := value];
    }
    assert fields[..|matches|] == fields;
  }

  /** `parse_profile_text`: one dictionary per profile, in order. */
  method ParseProfileText(textContent: string) returns (parsedData: seq<map<string, string>>)
    ensures |parsedData| == |Chunks(textContent)|
    ensures forall i :: 0 <= i < |parsedData| ==> parsedData[i] == ProfileOf(Chunks(textContent)[i])
  {
    var profiles := Chunks(textContent);
    parsedData := [];
    for i := 0 to |profiles|
      invariant |parsedData| == i
      invariant forall j :: 0 <= j < i ==> parsedData[j] == ProfileOf(profiles[j])
    {
      var profile := ParseProfile(profiles[i]);
      parsedData := parsedData + [profile];
    }
  }

  // ----- Properties -----

  /** A key names the value of its last occurrence in the profile. */
  lemma {:induction false} LastKeyWins(fields: seq<(string, string)>, i: nat)
    requires i < |fields|
    requires forall j :: i < j < |fields| ==> fields[j].0 != fields[i].0
    ensures fields[i].0 in BuildProfile(fields) && BuildProfile(fields)[fields[i].0] == fields[i].1
  {
    if i < |fields| - 1 {
      var init := fields[..|fields| - 1];
      assert init[i] == fields[i];
      LastKeyWins(init, i);
    }
  }

  /** Every key of a field is in the profile. */
  lemma {:induction false} FieldKeysKept(fields: seq<(string, string)>)
    ensures forall i :: 0 <= i < |fields| ==> fields[i].0 in BuildProfile(fields)
  {
    if fields != [] {
      var init := fields[..|fields| - 1];
      FieldKeysKept(init);
      assert forall i :: 0 <= i < |init| ==> init[i] == fields[i];
    }
  }

  /** No value of a parsed profile spans more than one line. */
  lemma ProfileValuesSingleLine(chunk: string)
    ensures forall k :: k in ProfileOf(chunk) ==> '\n' !in ProfileOf(chunk)[k]
  {
    var fields := FieldsOf(chunk);
    forall k | k in ProfileOf(chunk)
      ensures '\n' !in ProfileOf(chunk)[k]
    {
      var i :| 0 <= i < |fields| && fields[i] == (k, ProfileOf(chunk)[k]);
    }
  }

  /** A profile without `**` yields the empty dictionary. */
  lemma NoMarkupNoFields(chunk: string)
    requires forall p :: 0 <= p ==> !OccursAt(chunk, "**", p)
    ensures ProfileOf(chunk) == map[]
  {
  }

  /** Text without the separator is one profile. */
  lemma OneChunkWithoutSeparator(text: string)
    requires !Contains(Strip(text), ProfileSeparator)
    ensures Chunks(text) == [Strip(text)]
  {
    var r := Chunks(text);
    if |r| > 1 {
      JoinSeparatorOccurs(r);
    }
  }

  /** Joining two or more parts puts the separator in the text. */
  lemma JoinSeparatorOccurs(parts: seq<string>)
    requires |parts| >= 2
    ensures OccursAt(Join(ProfileSeparator, parts), ProfileSeparator, |parts[0]|)
  {
    var t := Join(ProfileSeparator, parts);
    assert t == parts[0] + ProfileSeparator + Join(ProfileSeparator, parts[1..]);
    assert t[|parts[0]|..|parts[0]| + |ProfileSeparator|] == ProfileSeparator;
  }
}

/**
 * The Python `str` operations the pipeline relies on, over `seq<char>`.
 * Case mapping is ASCII-only; `SplitLines` breaks at `\n` only.
 */
module Strings {

  /** The characters for which Python's `str.isspace()` holds (and which `\s` matches). */
  predicate IsSpace(c: char) {
    c == ' ' || c == '\t' || c == '\n' || c == '\r' || c == '\U{B}' || c == '\U{C}'
    || ('\U{1C}' <= c <= '\U{1F}') || c == '\U{85}' || c == '\U{A0}' || c == '\U{1680}'
    || ('\U{2000}' <= c <= '\U{200A}') || c == '\U{2028}' || c == '\U{2029}' || c == '\U{202F}'
    || c == '\U{205F}' || c == '\U{3000}'
  }

  predicate AllSpace(s: string) {
    forall i :: 0 <= i < |s| ==> IsSpace(s[i])
  }

  predicate IsAsciiUpper(c: char) { 'A' <= c <= 'Z' }

  predicate IsAsciiLower(c: char) { 'a' <= c <= 'z' }

  predicate IsAsciiLetter(c: char) { IsAsciiUpper(c) || IsAsciiLower(c) }

  /** `str.lstrip()`: drop the leading whitespace. */
  function TrimStart(s: string): (r: string)
    ensures |r| <= |s|
  {
    if s != [] && IsSpace(s[0]) then TrimStart(s[1..]) else s
  }

  /** `str.rstrip()`: drop the trailing whitespace. */
  function TrimEnd(s: string): (r: string)
    ensures |r| <= |s|
  {
    if s != [] && IsSpace(s[|s| - 1]) then TrimEnd(s[..|s| - 1]) else s
  }

  /** `str.strip()`. */
  function Strip(s: string): (r: string)
    ensures |r| <= |s|
  {
    TrimEnd(TrimStart(s))
  }

  /** `lstrip` removes exactly the leading whitespace. */
  lemma {:induction false} TrimStartProperties(s: string)
    ensures var r := TrimStart(s);
      r == s[|s| - |r|..] && AllSpace(s[..|s| - |r|]) && (r != [] ==> !IsSpace(r[0]))
  {
    if s != [] && IsSpace(s[0]) {
      TrimStartProperties(s[1..]);
      var r := TrimStart(s);
      assert s[..|s| - |r|] == [s[0]] + s[1..][..|s| - 1 - |r|];
    }
  }

  /** `rstrip` removes exactly the trailing whitespace. */
  lemma {:induction false} TrimEndProperties(s: string)
    ensures var r := TrimEnd(s);
      r == s[..|r|] && AllSpace(s[|r|..]) && (r != [] ==> !IsSpace(r[|r| - 1]))
  {
    if s != [] && IsSpace(s[|s| - 1]) {
      TrimEndProperties(s[..|s| - 1]);
      var r := TrimEnd(s);
      assert s[|r|..] == s[..|s| - 1][|r|..] + [s[|s| - 1]];
    }
  }

  /** The strip has no surrounding whitespace, and it is empty exactly for all-whitespace text. */
  lemma StripProperties(s: string)
    ensures var r := Strip(s);
      (r != [] ==> !IsSpace(r[0]) && !IsSpace(r[|r| - 1]))
      && (r == [] <==> AllSpace(s))
  {
    var t := TrimStart(s);
    TrimStartProperties(s);
    TrimEndProperties(t);
    assert s[..|s|] == s;
    assert t != [] ==> t[0] == s[|s| - |t|];
    assert t != [] ==> TrimEnd(t)[0] == t[0];
  }

  /** A string with no surrounding whitespace is its own strip. */
  lemma StripUnchanged(s: string)
    requires s != [] ==> !IsSpace(s[0]) && !IsSpace(s[|s| - 1])
    ensures Strip(s) == s
  {
  }

  function UpperChar(c: char): (r: char)
    ensures IsAsciiLower(c) ==> IsAsciiUpper(r) && r as int == c as int - 32
    ensures !IsAsciiLower(c) ==> r == c
  {
    if IsAsciiLower(c) then (c as int - 32) as char else c
  }

  function LowerChar(c: char): (r: char)
    ensures IsAsciiUpper(c) ==> IsAsciiLower(r) && r as int == c as int + 32
    ensures !IsAsciiUpper(c) ==> r == c
  {
    if IsAsciiUpper(c) then (c as int + 32) as char else c
  }

  /** `str.upper()`, ASCII letters only. */
  function Upper(s: string): (r: string)
    ensures |r| == |s| && forall i :: 0 <= i < |s| ==> r[i] == UpperChar(s[i])
  {
    seq(|s|, i requires 0 <= i < |s| => UpperChar(s[i]))
  }

  /** `str.lower()`, ASCII letters only. */
  function Lower(s: string): (r: string)
    ensures |r| == |s| && forall i :: 0 <= i < |s| ==> r[i] == LowerChar(s[i])
  {
    seq(|s|, i requires 0 <= i < |s| => LowerChar(s[i]))
  }

  /** Lower-casing forgets an earlier upper-casing: `s.upper().lower() == s.lower()`. */
  lemma LowerOfUpper(s: string)
    ensures Lower(Upper(s)) == Lower(s)
  {
    assert forall i :: 0 <= i < |s| ==> LowerChar(UpperChar(s[i])) == LowerChar(s[i]);
  }

  /** `s.lower().lower() == s.lower()`. */
  lemma LowerIdempotent(s: string)
    ensures Lower(Lower(s)) == Lower(s)
  {
    assert forall i :: 0 <= i < |s| ==> LowerChar(LowerChar(s[i])) == LowerChar(s[i]);
  }

  /**
   * `str.istitle()` for ASCII text: some letter is present, every upper-case letter follows a
   * non-letter (or starts the text), and every lower-case letter follows a letter.
   */
  predicate IsTitleCased(s: string) {
    (exists i :: 0 <= i < |s| && IsAsciiLetter(s[i]))
    && (forall i :: 0 <= i < |s| && IsAsciiUpper(s[i]) ==> i == 0 || !IsAsciiLetter(s[i - 1]))
    && (forall i :: 0 <= i < |s| && IsAsciiLower(s[i]) ==> i > 0 && IsAsciiLetter(s[i - 1]))
  }

  /** A title-cased text has an upper-case letter: its first letter. */
  lemma TitleCasedHasUpper(s: string)
    ensures IsTitleCased(s) ==> exists i :: 0 <= i < |s| && IsAsciiUpper(s[i])
  {
    if IsTitleCased(s) {
      var i :| 0 <= i < |s| && IsAsciiLetter(s[i]);
      UpperAtOrBefore(s, i);
    }
  }

  lemma {:induction false} UpperAtOrBefore(s: string, i: nat)
    requires IsTitleCased(s) && i < |s| && IsAsciiLetter(s[i])
    ensures exists j :: 0 <= j <= i && IsAsciiUpper(s[j])
    decreases i
  {
    if !IsAsciiUpper(s[i]) {
      UpperAtOrBefore(s, i - 1);
    }
  }

  /** `str.isupper()` for ASCII text: some letter is present and no letter is lower-case. */
  predicate IsUpperCased(s: string) {
    (exists i :: 0 <= i < |s| && IsAsciiLetter(s[i]))
    && forall i :: 0 <= i < |s| ==> !IsAsciiLower(s[i])
  }

  /** `sep.join(parts)`. */
  function Join(sep: string, parts: seq<string>): string {
    if |parts| == 0 then ""
    else if |parts| == 1 then parts[0]
    else parts[0] + sep + Join(sep, parts[1..])
  }

  lemma {:induction false} JoinAppend(sep: string, parts: seq<string>, last: string)
    requires parts != []
    ensures Join(sep, parts + [last]) == Join(sep, parts) + sep + last
  {
    if |parts| > 1 {
      assert (parts + [last])[1..] == parts[1..] + [last];
      JoinAppend(sep, parts[1..], last);
    }
  }

  /** Prefixing the first part prefixes the joined string. */
  lemma {:induction false} JoinPrepend(sep: string, x: string, parts: seq<string>)
    requires parts != []
    ensures Join(sep, [x + parts[0]] + parts[1..]) == x + Join(sep, parts)
  {
    var q := [x + parts[0]] + parts[1..];
    assert q[1..] == parts[1..];
  }

  /** An empty first part contributes just the separator. */
  lemma {:induction false} JoinEmptyHead(sep: string, parts: seq<string>)
    requires parts != []
    ensures Join(sep, [""] + parts) == sep + Join(sep, parts)
  {
    assert ([""] + parts)[1..] == parts;
  }

  /** `s.split(c)` for a one-character separator. */
  function SplitChar(s: string, c: char): (r: seq<string>)
    ensures |r| >= 1 && (|r| == 1 <==> c !in s)
    ensures forall i :: 0 <= i < |r| ==> c !in r[i]
    ensures Join([c], r) == s
  {
    if s == [] then [[]]
    else
      var rest := SplitChar(s[1..], c);
      assert s == [s[0]] + s[1..];
      if s[0] == c then
        JoinEmptyHead([c], rest);
        [[]] + rest
      else
        JoinPrepend([c], [s[0]], rest);
        [[s[0]] + rest[0]] + rest[1..]
  }

  /** Splitting text that starts with a separator-free piece and a separator. */
  lemma {:induction false} SplitCharConcat(a: string, b: string, c: char)
    requires c !in a
    ensures SplitChar(a + [c] + b, c) == [a] + SplitChar(b, c)
  {
    var s := a + [c] + b;
    if a == [] {
      assert s == [c] + b;
      assert s[1..] == b;
    } else {
      assert s[1..] == a[1..] + [c] + b;
      SplitCharConcat(a[1..], b, c);
      assert [a[0]] + a[1..] == a;
    }
  }

  /** Splitting at `c` undoes joining `c`-free parts with `c`. */
  lemma {:induction false} SplitJoin(parts: seq<string>, c: char)
    requires parts != []
    requires forall k :: 0 <= k < |parts| ==> c !in parts[k]
    ensures SplitChar(Join([c], parts), c) == parts
  {
    if |parts| == 1 {
      var r := SplitChar(parts[0], c);
      assert |r| == 1;
    } else {
      SplitJoin(parts[1..], c);
      SplitCharConcat(parts[0], Join([c], parts[1..]), c);
      assert [parts[0]] + parts[1..] == parts;
    }
  }

  /** Each line followed by a newline. */
  function Unlines(lines: seq<string>): string {
    if lines == [] then "" else lines[0] + "\n" + Unlines(lines[1..])
  }

  lemma UnlinesCons(lines: seq<string>, rest: string)
    requires lines != []
    ensures Unlines(lines) + rest == lines[0] + "\n" + (Unlines(lines[1..]) + rest)
  {
  }

  /** Appending a line to the list appends it, with its newline, to the text. */
  lemma {:induction false} UnlinesSnoc(lines: seq<string>, x: string)
    ensures Unlines(lines + [x]) == Unlines(lines) + x + "\n"
  {
    if lines != [] {
      assert (lines + [x])[1..] == lines[1..] + [x];
      UnlinesSnoc(lines[1..], x);
    }
  }

  /** The first two lines of a text written out with `Unlines`, then the rest. */
  lemma UnlinesTwo(ls: seq<string>, rest: string)
    requires |ls| >= 2
    ensures Unlines(ls) + rest == (ls[0] + "\n" + ls[1] + "\n") + (Unlines(ls[2..]) + rest)
  {
    assert ls[1..][1..] == ls[2..];
    ConcatRegroup(ls[0], "\n", ls[1], Unlines(ls[2..]), rest);
  }

  lemma ConcatRegroup(a: string, n: string, b: string, u: string, rest: string)
    ensures (a + n + (b + n + u)) + rest == (a + n + b + n) + (u + rest)
  {
  }

  lemma PrefixOfConcat(a: string, b: string)
    ensures StartsWith(a + b, a)
  {
    assert (a + b)[..|a|] == a;
  }

  lemma SuffixOfConcat(a: string, b: string)
    ensures EndsWith(a + b, b)
  {
    assert (a + b)[|a|..] == b;
  }

  /** Newline-free lines written out with `Unlines` are read back by splitting at newlines. */
  lemma {:induction false} SplitUnlines(lines: seq<string>, rest: string)
    requires forall k :: 0 <= k < |lines| ==> '\n' !in lines[k]
    ensures SplitChar(Unlines(lines) + rest, '\n') == lines + SplitChar(rest, '\n')
  {
    if lines == [] {
      assert Unlines(lines) + rest == rest;
    } else {
      var tail := Unlines(lines[1..]) + rest;
      UnlinesCons(lines, rest);
      SplitCharConcat(lines[0], tail, '\n');
      SplitUnlines(lines[1..], rest);
      ConsSplit(lines, SplitChar(rest, '\n'));
    }
  }

  lemma ConsSplit(lines: seq<string>, more: seq<string>)
    requires lines != []
    ensures [lines[0]] + (lines[1..] + more) == lines + more
  {
    assert lines == [lines[0]] + lines[1..];
  }

  /**
   * `s.splitlines()` for text whose only line terminator is `\n`:
   * no final empty line after a trailing `\n`, and `[]` for the empty text.
   */
  function SplitLines(s: string): (r: seq<string>)
    ensures forall i :: 0 <= i < |r| ==> '\n' !in r[i]
    ensures s == [] <==> r == []
  {
    if s == [] then []
    else
      var parts := SplitChar(s, '\n');
      if s[|s| - 1] == '\n' then
        assert s[|s| - 1] in s;
        parts[..|parts| - 1]
      else parts
  }

  /** `s.split(sep)` for a non-empty separator: leftmost, non-overlapping occurrences. */
  function SplitOn(s: string, sep: string): (r: seq<string>)
    requires sep != []
    ensures |r| >= 1
    ensures Join(sep, r) == s
    decreases |s|
  {
    if |sep| <= |s| && s[..|sep|] == sep then
      var rest := SplitOn(s[|sep|..], sep);
      assert s == sep + s[|sep|..];
      JoinEmptyHead(sep, rest);
      [[]] + rest
    else if s == [] then [[]]
    else
      var rest := SplitOn(s[1..], sep);
      assert s == [s[0]] + s[1..];
      JoinPrepend(sep, [s[0]], rest);
      [[s[0]] + rest[0]] + rest[1..]
  }

  /** The first piece of a join stands at its start, followed by the separator when more pieces follow. */
  lemma JoinHead(sep: string, parts: seq<string>)
    requires parts != []
    ensures StartsWith(Join(sep, parts), parts[0])
    ensures |parts| > 1 ==> StartsWith(Join(sep, parts), parts[0] + sep)
  {
  }

  /** A match past the first character of `[c] + t` is a match in `t`. */
  lemma OccursAtCons(c: char, t: string, sub: string, k: int)
    requires k > 0
    ensures OccursAt([c] + t, sub, k) <==> OccursAt(t, sub, k - 1)
  {
    if 0 <= k - 1 <= |t| - |sub| {
      assert ([c] + t)[k..k + |sub|] == t[k - 1..k - 1 + |sub|];
    }
  }

  /** No piece of `r` holds the separator. */
  predicate PiecesFree(r: seq<string>, sep: string) {
    forall i :: 0 <= i < |r| ==> !Contains(r[i], sep)
  }

  /** In front of every cut between pieces of `r`, the first occurrence of `sep` is the one at the cut. */
  predicate CutsLeftmost(r: seq<string>, sep: string) {
    forall i, k :: 0 <= i < |r| - 1 && 0 <= k < |r[i]| ==> !OccursAt(r[i] + sep, sep, k)
  }

  /** The cuts of `s.split(sep)` are the leftmost occurrences of the separator. */
  lemma {:induction false} SplitOnLeftmost(s: string, sep: string)
    requires sep != []
    ensures PiecesFree(SplitOn(s, sep), sep)
    ensures CutsLeftmost(SplitOn(s, sep), sep)
    decreases |s|
  {
    var r := SplitOn(s, sep);
    if |sep| <= |s| && s[..|sep|] == sep {
      var rest := SplitOn(s[|sep|..], sep);
      SplitOnLeftmost(s[|sep|..], sep);
      assert r == [[]] + rest;
      assert forall i :: 1 <= i < |r| ==> r[i] == rest[i - 1];
    } else if s != [] {
      var rest := SplitOn(s[1..], sep);
      SplitOnLeftmost(s[1..], sep);
      var p0 := [s[0]] + rest[0];
      assert r == [p0] + rest[1..];
      assert forall i :: 1 <= i < |r| ==> r[i] == rest[i];
      JoinHead(sep, r);
      assert !Contains(rest[0], sep);
      forall k | 0 <= k <= |p0| - |sep|
        ensures !OccursAt(p0, sep, k)
      {
        if k == 0 {
          assert p0[..|sep|] == s[..|sep|];
        } else {
          OccursAtCons(s[0], rest[0], sep, k);
        }
      }
      if |r| > 1 {
        forall k | 0 <= k < |p0|
          ensures !OccursAt(p0 + sep, sep, k)
        {
          if k == 0 {
            assert (p0 + sep)[..|sep|] == s[..|sep|];
          } else {
            assert p0 + sep == [s[0]] + (rest[0] + sep);
            OccursAtCons(s[0], rest[0] + sep, sep, k);
          }
        }
      }
    }
  }

  /** Python's `sub in s`. */
  predicate Contains(s: string, sub: string) {
    exists i :: 0 <= i <= |s| - |sub| && OccursAt(s, sub, i)
  }

  /** `sub` occurs in `s` starting at position `i`. */
  predicate OccursAt(s: string, sub: string, i: int) {
    0 <= i <= |s| - |sub| && s[i..i + |sub|] == sub
  }

  predicate StartsWith(s: string, prefix: string) {
    |prefix| <= |s| && s[..|prefix|] == prefix
  }

  predicate EndsWith(s: string, suffix: string) {
    |suffix| <= |s| && s[|s| - |suffix|..] == suffix
  }

  /** `len(s.split())`: the number of maximal runs of non-whitespace characters. */
  function WordCount(s: string): nat {
    WordsAfter(s, true)
  }

  function WordsAfter(s: string, afterSpace: bool): nat {
    if s == [] then 0
    else (if !IsSpace(s[0]) && afterSpace then 1 else 0) + WordsAfter(s[1..], IsSpace(s[0]))
  }

  /** The first position at or after `from` where `pat` occurs in `s`, if any. */
  function FindFrom(s: string, pat: string, from: nat): (r: int)
    requires from <= |s|
    ensures r == -1 || (from <= r && OccursAt(s, pat, r))
    ensures forall k :: from <= k < (if r == -1 then |s| - |pat| + 1 else r) ==> !OccursAt(s, pat, k)
    decreases |s| - from
  {
    if from + |pat| > |s| then -1
    else if s[from..from + |pat|] == pat then from
    else FindFrom(s, pat, from + 1)
  }
}

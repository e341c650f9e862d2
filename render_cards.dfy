/**
 * The flag encoder of the card renderer: a two-letter region code becomes the pair of regional
 * indicator symbols that Unicode Technical Standard #51 (Annex B, "Flags") displays as that
 * region's flag.
 */
module RenderCards {
  import opened Wrappers
  import opened Strings
  import opened Values

  /** `ord('🇦') - ord('A')`: the distance from an ASCII capital to its regional indicator symbol. */
  const RegionalIndicatorOffset: int := 127397

  /** REGIONAL INDICATOR SYMBOL LETTER A and Z. */
  const IndicatorA: int := 0x1F1E6
  const IndicatorZ: int := 0x1F1FF

  /** `chr(127397 + ord(c))`; `None` where `chr` raises because the sum is past U+10FFFF. */
  function Indicator(c: char): (r: Option<char>)
    ensures r.Some? <==> c as int + RegionalIndicatorOffset < 0x11_0000
    ensures r.Some? ==> r.value as int == c as int + RegionalIndicatorOffset
  {
    var x := c as int + RegionalIndicatorOffset;
    if x < 0x11_0000 then Some(x as char) else None
  }

  /** Upper-casing `c` and shifting it by the offset passes U+10FFFF, so `chr` raises. */
  predicate NoIndicator(c: char) {
    UpperChar(c) as int + RegionalIndicatorOffset >= 0x11_0000
  }

  /** The indicators of the upper-cased code, joined; `None` if any character has none. */
  function Indicators(s: string): (r: Option<string>)
    ensures r.None? <==> exists i :: 0 <= i < |s| && NoIndicator(s[i])
    ensures r.Some? ==> |r.value| == |s|
    ensures r.Some? ==> forall i :: 0 <= i < |s| ==> r.value[i] as int == UpperChar(s[i]) as int + RegionalIndicatorOffset
  {
    if s == [] then Some("")
    else
      match (Indicator(UpperChar(s[0])), Indicators(s[1..]))
      case (Some(c), Some(rest)) => Some([c] + rest)
      case _ => None
  }

  /**
   * `iso_to_flag(code)`: `""` unless the code is a truthy value of length 2; `None` where `len`
   * or `chr` raises (a truthy number or flag, a character past U+F0E5A).
   */
  function IsoToFlag(code: Value): (r: Option<string>)
    ensures !Truthy(code) ==> r == Some("")
    ensures r.None? <==>
      Truthy(code) && (!code.Str? || (|code.s| == 2 && (NoIndicator(code.s[0]) || NoIndicator(code.s[1]))))
    ensures r.Some? && r.value != "" ==> code.Str? && |code.s| == 2 && |r.value| == 2
  {
    if !Truthy(code) then Some("")
    else if !code.Str? then None
    else if |code.s| != 2 then Some("")
    else Indicators(code.s)
  }

  predicate IsAsciiUpperCode(s: string) {
    |s| == 2 && IsAsciiUpper(s[0]) && IsAsciiUpper(s[1])
  }

  /** A falsy code, or a text code of any length but 2, gives the empty flag. */
  lemma EmptyUnlessTwoCharacters(code: Value)
    requires !Truthy(code) || (code.Str? && |code.s| != 2)
    ensures IsoToFlag(code) == Some("")
  {
  }

  /** Two ASCII letters give two regional indicators, A-Z onto U+1F1E6-U+1F1FF in order. */
  lemma AsciiLettersGiveIndicators(s: string)
    requires |s| == 2 && IsAsciiLetter(s[0]) && IsAsciiLetter(s[1])
    ensures var r := IsoToFlag(Str(s));
      r.Some? && |r.value| == 2
      && forall i :: 0 <= i < 2 ==>
        IndicatorA <= r.value[i] as int <= IndicatorZ
        && r.value[i] as int - IndicatorA == UpperChar(s[i]) as int - 'A' as int
  {
    assert IsAsciiUpper(UpperChar(s[0])) && IsAsciiUpper(UpperChar(s[1]));
    var tail := s[1..];
    assert tail[1..] == [] && tail[0] == s[1];
    assert Indicators(tail[1..]) == Some("");
    assert Indicators(tail).Some?;
    assert Indicators(s).Some?;
  }

  /** The flag does not depend on the case of the code. */
  lemma CaseInsensitive(s: string)
    ensures IsoToFlag(Str(s)) == IsoToFlag(Str(Upper(s)))
  {
    assert Upper(s) != [] <==> s != [];
    assert forall i :: 0 <= i < |s| ==> UpperChar(UpperChar(s[i])) == UpperChar(s[i]);
    UpperCharsSameIndicators(s, Upper(s));
  }

  lemma {:induction false} UpperCharsSameIndicators(a: string, b: string)
    requires |a| == |b| && forall i :: 0 <= i < |a| ==> UpperChar(a[i]) == UpperChar(b[i])
    ensures Indicators(a) == Indicators(b)
  {
    if a != [] {
      UpperCharsSameIndicators(a[1..], b[1..]);
    }
  }

  /** Reading a flag back: subtract the offset from each symbol. */
  function FlagToCode(flag: string): (r: string)
    requires forall i :: 0 <= i < |flag| ==> IndicatorA <= flag[i] as int <= IndicatorZ
    ensures |r| == |flag|
  {
    seq(|flag|, i requires 0 <= i < |flag| => (flag[i] as int - RegionalIndicatorOffset) as char)
  }

  /** Subtracting the offset recovers the upper-cased code. */
  lemma FlagRoundTrip(s: string)
    requires |s| == 2 && IsAsciiLetter(s[0]) && IsAsciiLetter(s[1])
    ensures IsoToFlag(Str(s)).Some?
    ensures var r := IsoToFlag(Str(s)).value;
      (forall i :: 0 <= i < |r| ==> IndicatorA <= r[i] as int <= IndicatorZ) && FlagToCode(r) == Upper(s)
  {
    AsciiLettersGiveIndicators(s);
  }

  /** Distinct upper-case codes give distinct flags. */
  lemma Injective(a: string, b: string)
    requires IsAsciiUpperCode(a) && IsAsciiUpperCode(b)
    requires IsoToFlag(Str(a)) == IsoToFlag(Str(b))
    ensures a == b
  {
    FlagRoundTrip(a);
    FlagRoundTrip(b);
    assert Upper(a) == a && Upper(b) == b;
  }
}

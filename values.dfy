/**
 * The dynamically typed values stored in the pipeline's dictionaries (segments, catalogue
 * entries), with Python's truthiness and `str()` rendering.
 */
module Values {

  /** A dictionary value: a string, an integer, a boolean or `None`. */
  datatype Value = Str(s: string) | Int(i: int) | Flag(b: bool) | Null

  /** A segment or catalogue entry: a dictionary from field names to values. */
  type Record = map<string, Value>

  /** Python truthiness: non-empty strings, non-zero integers and `True`. */
  predicate Truthy(v: Value) {
    match v
    case Str(s) => s != ""
    case Int(i) => i != 0
    case Flag(b) => b
    case Null => false
  }

  /** `d.get(key)` is truthy. */
  predicate TruthyField(d: Record, key: string) {
    key in d && Truthy(d[key])
  }

  /** The text of a string field, `""` when the field is absent or not a string. */
  function TextOf(d: Record, key: string): string {
    if key in d && d[key].Str? then d[key].s else ""
  }

  /** The field is absent or holds a string, so `d.get(key, '')` is a string. */
  predicate TextOrAbsent(d: Record, key: string) {
    key !in d || d[key].Str?
  }

  function DigitChar(d: nat): (c: char)
    requires d < 10
    ensures '0' <= c <= '9' && (c as int) - ('0' as int) == d
  {
    ('0' as int + d) as char
  }

  predicate AllDigits(s: string) {
    forall i :: 0 <= i < |s| ==> '0' <= s[i] <= '9'
  }

  /** The decimal digits of `n`, most significant first, without leading zeros. */
  function NatToString(n: nat): (r: string)
    ensures r != [] && AllDigits(r)
    ensures |r| > 1 ==> r[0] != '0'
    decreases n
  {
    if n < 10 then [DigitChar(n)] else NatToString(n / 10) + [DigitChar(n % 10)]
  }

  /** The value of a string of decimal digits. */
  function DigitsValue(s: string): nat
    requires AllDigits(s)
  {
    if s == [] then 0
    else DigitsValue(s[..|s| - 1]) * 10 + ((s[|s| - 1] as int) - ('0' as int))
  }

  /** Reading the decimal digits back gives the number. */
  lemma {:induction false} DigitsRoundTrip(n: nat)
    ensures DigitsValue(NatToString(n)) == n
    decreases n
  {
    var r := NatToString(n);
    if n >= 10 {
      DigitsRoundTrip(n / 10);
      assert r[..|r| - 1] == NatToString(n / 10);
    }
  }

  /** `str(i)` for an integer. */
  function IntToString(i: int): (r: string)
    ensures r != []
    ensures i >= 0 ==> r == NatToString(i)
    ensures i < 0 ==> r == "-" + NatToString(-i)
  {
    if i >= 0 then NatToString(i) else "-" + NatToString(-i)
  }

  /** `str(v)`, as an f-string renders a value. */
  function Repr(v: Value): (r: string)
    ensures v.Str? ==> r == v.s
    ensures v.Null? ==> r == "None"
    ensures v.Flag? ==> r == (if v.b then "True" else "False")
  {
    match v
    case Str(s) => s
    case Int(i) => IntToString(i)
    case Flag(b) => if b then "True" else "False"
    case Null => "None"
  }

  /** The rendering of a non-string value is never blank. */
  lemma ReprOfNonStringNotBlank(v: Value)
    requires !v.Str?
    ensures Repr(v) != [] && Repr(v)[0] != ' '
  {
  }
}

/**
 * Untyped values as the form engine sees them: the entries of the value
 * store, the comparison values of visibility predicates and the cells of
 * submitted records. JavaScript's `any` is narrowed to the five shapes
 * the engine distinguishes, so that strict equality (`===`), truthiness
 * and `typeof v === 'string'` are decidable.
 */
module Values {

  datatype Option<+T> = None | Some(value: T) {
    function GetOr(default: T): T {
      match this
      case Some(v) => v
      case None => default
    }
  }

  /** A JavaScript value. Numbers are integers; NaN and fractions are not modelled. */
  datatype Value = Str(s: string) | Num(n: int) | Bool(b: bool) | Null | Undef

  /** `m[k]` on a JavaScript record: a missing key reads as `undefined`. */
  function Lookup(m: map<string, Value>, k: string): (v: Value)
    ensures k !in m ==> v == Undef
    ensures k in m ==> v == m[k]
  {
    if k in m then m[k] else Undef
  }

  /** `!v` is false: everything except "", 0, false, null and undefined. */
  predicate Truthy(v: Value) {
    match v
    case Str(s) => s != ""
    case Num(n) => n != 0
    case Bool(b) => b
    case Null => false
    case Undef => false
  }

  /** `v === undefined || v === null || v === ''`: the required-field test. */
  predicate IsBlank(v: Value) {
    v == Undef || v == Null || v == Str("")
  }

  lemma BlankIsFalsy(v: Value)
    ensures IsBlank(v) ==> !Truthy(v)
    ensures !Truthy(v) && !IsBlank(v) <==> v == Num(0) || v == Bool(false)
  {
  }

  // ---------------------------------------------------------------------------
  // Decimal text of integers, as JavaScript's `String(n)` and `Number(s)`
  // ---------------------------------------------------------------------------

  predicate IsDigit(c: char) {
    '0' <= c <= '9'
  }

  function DigitChar(d: nat): (c: char)
    requires d < 10
    ensures IsDigit(c)
  {
    ['0', '1', '2', '3', '4', '5', '6', '7', '8', '9'][d]
  }

  function DigitValue(c: char): (d: nat)
    requires IsDigit(c)
    ensures d < 10
  {
    (c as int - '0' as int) as nat
  }

  lemma DigitRoundTrip(d: nat)
    requires d < 10
    ensures DigitValue(DigitChar(d)) == d
  {
  }

  /** Decimal digits of `n`, most significant first, without leading zeros. */
  function NatToString(n: nat): (s: string)
    ensures |s| > 0 && forall i :: 0 <= i < |s| ==> IsDigit(s[i])
    ensures |s| > 1 ==> s[0] != '0'
    decreases n
  {
    if n < 10 then [DigitChar(n)] else NatToString(n / 10) + [DigitChar(n % 10)]
  }

  /** `String(n)` for an integer `n`. */
  function IntToString(n: int): (s: string)
    ensures |s| > 0
    ensures n < 0 <==> s[0] == '-'
  {
    if n < 0 then "-" + NatToString(-n) else NatToString(n)
  }

  /** The value of a string of decimal digits; read from the last digit backwards. */
  function DigitsValue(s: string): (n: nat)
    requires forall i :: 0 <= i < |s| ==> IsDigit(s[i])
  {
    if s == [] then 0 else DigitsValue(s[..|s| - 1]) * 10 + DigitValue(s[|s| - 1])
  }

  predicate AllDigits(s: string) {
    |s| > 0 && forall i :: 0 <= i < |s| ==> IsDigit(s[i])
  }

  /**
   * The integers JavaScript's `Number(s)` reads exactly: an optional minus
   * sign followed by decimal digits. Every other text reads as NaN (None).
   */
  function ParseInt(s: string): (r: Option<int>)
    ensures r.Some? <==> AllDigits(s) || (|s| > 1 && s[0] == '-' && AllDigits(s[1..]))
  {
    if AllDigits(s) then Some(DigitsValue(s) as int)
    else if |s| > 1 && s[0] == '-' && AllDigits(s[1..]) then Some(0 - DigitsValue(s[1..]))
    else None
  }

  lemma {:induction false} NatToStringRoundTrip(n: nat)
    ensures DigitsValue(NatToString(n)) == n
    decreases n
  {
    var s := NatToString(n);
    if n < 10 {
      DigitRoundTrip(n);
    } else {
      NatToStringRoundTrip(n / 10);
      assert s[..|s| - 1] == NatToString(n / 10);
      DigitRoundTrip(n % 10);
    }
  }

  /** Reading back the decimal text of any integer yields that integer. */
  lemma IntToStringRoundTrip(n: int)
    ensures ParseInt(IntToString(n)) == Some(n)
  {
    var s := IntToString(n);
    if n < 0 {
      assert !IsDigit(s[0]);
      assert s[1..] == NatToString(-n);
      NatToStringRoundTrip(-n);
    } else {
      assert AllDigits(s);
      NatToStringRoundTrip(n);
    }
  }

  /** `String(v)`: the text a value is coerced to by template strings, `regex.test` and `String()`. */
  function ToJsString(v: Value): (s: string)
    ensures v.Str? ==> s == v.s
    ensures v.Num? ==> ParseInt(s) == Some(v.n)
  {
    match v
    case Str(t) => t
    case Num(n) => IntToStringRoundTrip(n); IntToString(n)
    case Bool(b) => if b then "true" else "false"
    case Null => "null"
    case Undef => "undefined"
  }

  /** `Number(v)`; None stands for NaN. */
  function ToNumber(v: Value): (r: Option<int>)
    ensures v.Num? ==> r == Some(v.n)
    ensures v == Null || v == Str("") || v == Bool(false) ==> r == Some(0)
    ensures v == Undef ==> r == None
    ensures v.Str? && v.s != "" ==> r == ParseInt(v.s)
  {
    match v
    case Str(t) => if t == "" then Some(0) else ParseInt(t)
    case Num(n) => Some(n)
    case Bool(b) => Some(if b then 1 else 0)
    case Null => Some(0)
    case Undef => None
  }

  /** `s.includes(t)`: `t` occurs in `s` as a contiguous block. */
  predicate Includes(s: string, t: string) {
    exists i | 0 <= i <= |s| :: OccursAt(s, t, i)
  }

  predicate OccursAt(s: string, t: string, i: int) {
    0 <= i <= |s| - |t| && s[i..i + |t|] == t
  }
}

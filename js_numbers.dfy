/**
 * The two conversions between numbers and decimal strings the program relies
 * on: unary `+` on a string and `toString()` on a non-negative integer.
 */
module JsNumbers {
  /** A JavaScript number as far as this model needs it: an integer or `NaN`. */
  datatype JsNumber = Num(value: int) | NaN

  predicate IsDigit(c: char) {
    '0' <= c <= '9'
  }

  function DigitOf(c: char): (v: nat)
    requires IsDigit(c)
    ensures v < 10
  {
    c as int - '0' as int
  }

  /** The number a string of decimal digits spells. */
  function DecimalValue(s: string): nat
    requires forall i :: 0 <= i < |s| ==> IsDigit(s[i])
  {
    if |s| == 0 then 0 else DecimalValue(s[..|s| - 1]) * 10 + DigitOf(s[|s| - 1])
  }

  /**
   * Unary `+` on a string: the empty string is 0, a string of decimal digits
   * is its value, anything else is `NaN`.
   */
  function ToNumber(s: string): (n: JsNumber)
    ensures s == "" ==> n == Num(0)
    ensures n.Num? ==> n.value >= 0
    ensures n.NaN? <==> exists i :: 0 <= i < |s| && !IsDigit(s[i])
  {
    if forall i :: 0 <= i < |s| ==> IsDigit(s[i]) then Num(DecimalValue(s)) else NaN
  }

  /** `n.toString()` for a non-negative integer. */
  function DecimalString(n: nat): (s: string)
    ensures |s| >= 1 && forall i :: 0 <= i < |s| ==> IsDigit(s[i])
    ensures n > 0 ==> s[0] != '0'
  {
    if n < 10 then [('0' as int + n) as char] else DecimalString(n / 10) + [('0' as int + n % 10) as char]
  }

  /** A day number printed and read back with unary `+` is the same number. */
  lemma {:induction false} ToNumberRoundTrip(n: nat)
    ensures ToNumber(DecimalString(n)) == Num(n)
  {
    DecimalRoundTrip(n);
  }

  lemma {:induction false} DecimalRoundTrip(n: nat)
    ensures DecimalValue(DecimalString(n)) == n
  {
    var s := DecimalString(n);
    if n >= 10 {
      DecimalRoundTrip(n / 10);
      assert s[..|s| - 1] == DecimalString(n / 10);
    } else {
      assert s[..0] == [];
    }
  }

}

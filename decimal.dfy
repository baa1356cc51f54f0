/** Decimal rendering of non-negative integers, as JavaScript's `Number.prototype.toString()`
    and template-literal interpolation produce it for integral values, together with
    `String.prototype.padStart` and the inverse reading of a digit string. */
module Decimal {
  import opened Base

  predicate IsDigit(c: char) {
    '0' <= c <= '9'
  }

  predicate AllDigits(s: string) {
    forall i :: 0 <= i < |s| ==> IsDigit(s[i])
  }

  function DigitValue(c: char): (d: nat)
    requires IsDigit(c)
    ensures d < 10
  {
    c as int - '0' as int
  }

  function DigitChar(d: nat): (c: char)
    requires d < 10
    ensures IsDigit(c) && DigitValue(c) == d
  {
    (d + '0' as int) as char
  }

  /** `${n}` for an integral `n >= 0`: the decimal numeral of `n`, most significant
      digit first. */
  function NatToString(n: nat): (s: string)
    ensures |s| >= 1 && AllDigits(s)
  {
    if n < 10 then [DigitChar(n)] else NatToString(n / 10) + [DigitChar(n % 10)]
  }

  /** The numeral is the shortest one: a single digit exactly below ten, and a
      leading zero only for zero itself. */
  lemma {:induction false} NatToStringShape(n: nat)
    ensures (|NatToString(n)| == 1) == (n < 10)
    ensures (NatToString(n)[0] == '0') == (n == 0)
  {
    if n >= 10 {
      NatToStringShape(n / 10);
      assert NatToString(n)[0] == NatToString(n / 10)[0];
    }
  }

  /** The number a digit string denotes, read most significant digit first. */
  function DigitsValue(s: string): (v: nat)
    requires AllDigits(s)
  {
    if s == [] then 0 else DigitsValue(s[..|s| - 1]) * 10 + DigitValue(s[|s| - 1])
  }

  /** Reading a non-empty digit string; anything else is not a number. */
  function ParseDecimal(s: string): (r: Option<nat>) {
    if |s| >= 1 && AllDigits(s) then Some(DigitsValue(s)) else None
  }

  /** `s.padStart(width, fill)` for a one-character `fill`: `s` itself when it is already
      `width` long or longer, otherwise `s` preceded by enough copies of `fill`. */
  function PadStart(s: string, width: nat, fill: char): (r: string)
    ensures |r| == if |s| >= width then |s| else width
    ensures r[|r| - |s|..] == s
    ensures forall i :: 0 <= i < |r| - |s| ==> r[i] == fill
  {
    if |s| >= width then s else seq(width - |s|, _ => fill) + s
  }

  /** Reading back the numeral of `n` gives `n`. */
  lemma {:induction false} NatToStringRoundTrip(n: nat)
    ensures ParseDecimal(NatToString(n)) == Some(n)
  {
    var s := NatToString(n);
    if n >= 10 {
      NatToStringRoundTrip(n / 10);
      assert s[..|s| - 1] == NatToString(n / 10);
      assert DigitValue(s[|s| - 1]) == n % 10;
      assert DigitsValue(s) == (n / 10) * 10 + n % 10;
    }
  }

  /** Two-digit numerals: numbers below 100 and at least 10 are written with two digits. */
  lemma TwoDigitNumeral(n: nat)
    requires 10 <= n < 100
    ensures |NatToString(n)| == 2
  {
    NatToStringShape(n / 10);
  }
}

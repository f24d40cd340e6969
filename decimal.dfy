/** The decimal rendering of a natural number that Python's
    `str.format` produces for `{}` with an `int` argument. */
module Decimal {

  predicate IsDigit(c: char) {
    '0' <= c <= '9'
  }

  function DigitValue(c: char): nat
    requires IsDigit(c)
  {
    assert '0' as int <= c as int;
    c as int - '0' as int
  }

  function DigitChar(d: nat): (c: char)
    requires d < 10
    ensures IsDigit(c) && DigitValue(c) == d
  {
    ('0' as int + d) as char
  }

  /** The numeric value of a string of decimal digits, most significant first. */
  function DigitsValue(s: string): nat
    requires forall i :: 0 <= i < |s| ==> IsDigit(s[i])
  {
    if s == [] then 0
    else DigitsValue(s[..|s| - 1]) * 10 + DigitValue(s[|s| - 1])
  }

  /** `n` written in base ten without leading zeros. */
  function NatToDecimal(n: nat): (s: string)
    ensures |s| >= 1
    ensures forall i :: 0 <= i < |s| ==> IsDigit(s[i])
    ensures s[0] == '0' <==> n == 0
    ensures s[0] == '0' ==> |s| == 1
  {
    if n < 10 then [DigitChar(n)]
    else NatToDecimal(n / 10) + [DigitChar(n % 10)]
  }

  /** Reading the rendering back gives the number it was made from. */
  lemma {:induction false} DecimalRoundTrip(n: nat)
    ensures DigitsValue(NatToDecimal(n)) == n
  {
    var s := NatToDecimal(n);
    if n < 10 {
      assert s[..|s| - 1] == [];
    } else {
      DecimalRoundTrip(n / 10);
      assert s[..|s| - 1] == NatToDecimal(n / 10);
    }
  }

  /** A digit string whose first digit is not zero has a value of at least 1. */
  lemma {:induction false} LeadingDigitPositive(s: string)
    requires |s| >= 1 && s[0] != '0'
    requires forall i :: 0 <= i < |s| ==> IsDigit(s[i])
    ensures DigitsValue(s) >= 1
  {
    if |s| > 1 {
      LeadingDigitPositive(s[..|s| - 1]);
    }
  }

  /** The rendering is the only way to write `n` in base ten without
      leading zeros: any such digit string of value `n` is NatToDecimal(n). */
  lemma {:induction false} DecimalUnique(s: string, n: nat)
    requires |s| >= 1 && (s[0] != '0' || |s| == 1)
    requires forall i :: 0 <= i < |s| ==> IsDigit(s[i])
    requires DigitsValue(s) == n
    ensures s == NatToDecimal(n)
  {
    var last := s[|s| - 1];
    if |s| == 1 {
      assert s[..0] == [];
      assert DigitChar(DigitValue(last)) == last;
    } else {
      var init := s[..|s| - 1];
      LeadingDigitPositive(init);
      var v := DigitsValue(init);
      assert n == v * 10 + DigitValue(last);
      assert n / 10 == v && n % 10 == DigitValue(last);
      DecimalUnique(init, v);
      assert DigitChar(DigitValue(last)) == last;
      assert s == init + [last];
    }
  }
}

/**
 * Decimal text for integers, as Python's `str(n)` writes it and `int(s)`
 * reads it back. Used for the numeric VK user id (`int(self.id)`) and for
 * the like count that starts every uploaded file name (`f"{likes}.jpg"`).
 */
module Decimal {

  predicate IsDigit(c: char) {
    '0' <= c <= '9'
  }

  /** `str.isdigit` restricted to ASCII: non-empty and every character a digit. */
  predicate IsDigits(s: string)
    ensures IsDigits(s) ==> |s| > 0 && IsNumeral(s) && s[0] != '-'
  {
    |s| > 0 && forall i :: 0 <= i < |s| ==> IsDigit(s[i])
  }

  /** A character that can appear in `str(n)` for an integer `n`. */
  predicate IsNumeralChar(c: char) {
    IsDigit(c) || c == '-'
  }

  predicate IsNumeral(s: string) {
    forall i :: 0 <= i < |s| ==> IsNumeralChar(s[i])
  }

  function DigitValue(c: char): (d: nat)
    requires IsDigit(c)
    ensures d < 10
  {
    (c as int - '0' as int) as nat
  }

  function DigitChar(d: nat): (c: char)
    requires d < 10
    ensures IsDigit(c) && DigitValue(c) == d
  {
    ('0' as int + d) as char
  }

  /**
   * The value `int(s)` gives for a string of decimal digits (leading zeros
   * allowed). A numeral without a leading zero is exactly what `str` writes
   * for that value.
   */
  function DecimalValue(s: string): (v: nat)
    requires forall i :: 0 <= i < |s| ==> IsDigit(s[i])
    ensures |s| > 0 && s[0] != '0' ==> NatToDecimal(v) == s
  {
    if |s| == 0 then 0
    else
      var prefix := s[..|s| - 1];
      var v := 10 * DecimalValue(prefix) + DigitValue(s[|s| - 1]);
      assert |prefix| > 0 && s[0] != '0' ==> v / 10 == DecimalValue(prefix) && v % 10 == DigitValue(s[|s| - 1]) && v >= 10;
      v
  }

  /** `str(n)` for a natural number: the shortest decimal numeral. */
  function NatToDecimal(n: nat): (s: string)
    ensures IsDigits(s)
    ensures |s| > 1 ==> s[0] != '0'
  {
    if n < 10 then [DigitChar(n)] else NatToDecimal(n / 10) + [DigitChar(n % 10)]
  }

  /** `str(n)` for any integer: a minus sign in front of a negative value. */
  function IntToDecimal(n: int): (s: string)
    ensures |s| > 0 && IsNumeral(s)
    ensures s[0] == '-' <==> n < 0
    ensures n >= 0 && |s| > 1 ==> s[0] != '0'
    ensures n < 0 ==> |s| > 1 && s[1] != '0'
  {
    if n < 0 then "-" + NatToDecimal(-n) else NatToDecimal(n)
  }

  /** Reading back what `NatToDecimal` writes gives the number again. */
  lemma {:induction false} DecimalRoundTrip(n: nat)
    ensures DecimalValue(NatToDecimal(n)) == n
  {
    if n >= 10 {
      var s := NatToDecimal(n);
      assert s[..|s| - 1] == NatToDecimal(n / 10);
      DecimalRoundTrip(n / 10);
    }
  }

  /** The text `str(n)` writes reads back as `n`: the digits after a minus sign as `-n`. */
  lemma IntToDecimalRoundTrip(n: int)
    ensures n < 0 ==> IsDigits(IntToDecimal(n)[1..]) && DecimalValue(IntToDecimal(n)[1..]) == -n
    ensures n >= 0 ==> IsDigits(IntToDecimal(n)) && DecimalValue(IntToDecimal(n)) == n
  {
    if n < 0 {
      var digits := NatToDecimal(-n);
      assert IntToDecimal(n) == "-" + digits;
      assert ("-" + digits)[1..] == digits;
      DecimalRoundTrip(-n);
    } else {
      DecimalRoundTrip(n);
    }
  }

  /** Leading zeros do not change the value `int(s)` reads: `int("0123") == 123`. */
  lemma {:induction false} LeadingZero(s: string)
    requires forall i :: 0 <= i < |s| ==> IsDigit(s[i])
    ensures DecimalValue("0" + s) == DecimalValue(s)
  {
    if |s| > 0 {
      assert ("0" + s)[..|"0" + s| - 1] == "0" + s[..|s| - 1];
      LeadingZero(s[..|s| - 1]);
    }
  }

  /** Two integers with the same decimal text are equal. */
  lemma IntToDecimalInjective(a: int, b: int)
    requires IntToDecimal(a) == IntToDecimal(b)
    ensures a == b
  {
    IntToDecimalRoundTrip(a);
    IntToDecimalRoundTrip(b);
  }

  /**
   * A numeral followed by a text that starts with a non-numeral character
   * splits in only one way: the separator tells where the numeral ends.
   */
  lemma SplitAtSeparator(a: string, x: string, b: string, y: string)
    requires IsNumeral(a) && IsNumeral(b)
    requires |x| > 0 && !IsNumeralChar(x[0])
    requires |y| > 0 && !IsNumeralChar(y[0])
    requires a + x == b + y
    ensures a == b && x == y
  {
    assert a == (a + x)[..|a|];
    assert b == (b + y)[..|b|];
    assert x == (a + x)[|a|..];
    assert y == (b + y)[|b|..];
  }
}

/**
 * `parseInt(s, 10)` and the decimal rendering of integers that it inverts.
 * Numbers are mathematical integers here; the rounding of very long digit
 * strings to a double is not modelled.
 */
module JsNumbers {
  import opened Wrappers
  import opened JsText

  predicate IsDigit(c: char) {
    '0' <= c <= '9'
  }

  predicate AllDigits(s: string) {
    forall i :: 0 <= i < |s| ==> IsDigit(s[i])
  }

  function DigitValue(c: char): (d: nat)
    requires IsDigit(c)
    ensures d < 10
  {
    (c as int) - ('0' as int)
  }

  function DigitChar(d: nat): (c: char)
    requires d < 10
    ensures IsDigit(c) && DigitValue(c) == d
  {
    (('0' as int) + d) as char
  }

  /** The longest prefix of `s` made of decimal digits. */
  function LeadingDigits(s: string): (z: string)
    ensures |z| <= |s| && z == s[..|z|]
    ensures AllDigits(z)
    ensures |z| < |s| ==> !IsDigit(s[|z|])
  {
    if s != [] && IsDigit(s[0]) then [s[0]] + LeadingDigits(s[1..]) else []
  }

  /** The value of a digit string read most significant digit first. */
  function DigitsValue(z: string): nat
    requires AllDigits(z)
  {
    if z == [] then 0 else DigitsValue(z[..|z| - 1]) * 10 + DigitValue(z[|z| - 1])
  }

  /**
   * `parseInt(s, 10)`: skip leading white space, take an optional sign, then
   * the longest run of decimal digits; no digits at all gives NaN (None).
   * A negative zero becomes 0.
   */
  function ParseInt(s: string): (r: Option<int>)
    ensures Blank(s) ==> r.None?
    ensures s != [] && AllDigits(s) ==> r == Some(DigitsValue(s))
  {
    ParseSigned(TrimStart(s))
  }

  /** A string whose first character is a decimal digit. */
  predicate StartsWithDigit(u: string) {
    u != [] && IsDigit(u[0])
  }

  /**
   * The part of `parseInt` after the leading white space is gone: NaN exactly
   * when no digit follows the optional sign; the sign decides the sign of
   * the result; a plain digit string reads as its value.
   */
  function ParseSigned(u: string): (r: Option<int>)
    ensures r.None? <==>
              !StartsWithDigit(u) && !(u != [] && (u[0] == '+' || u[0] == '-') && StartsWithDigit(u[1..]))
    ensures r.Some? && u[0] != '-' ==> r.value >= 0
    ensures r.Some? && u[0] == '-' ==> r.value <= 0
    ensures u != [] && AllDigits(u) ==> r == Some(DigitsValue(u))
  {
    LeadingDigitsOfAllDigits(u);
    var negative := u != [] && u[0] == '-';
    var unsigned := if u != [] && (u[0] == '+' || u[0] == '-') then u[1..] else u;
    var z := LeadingDigits(unsigned);
    var magnitude: int := if z == [] then 0 else DigitsValue(z);
    if z == [] then None
    else if negative then Some(-magnitude)
    else Some(magnitude)
  }

  /** Decimal digits of a natural number, without leading zeros. */
  function NatDecimal(n: nat): (s: string)
    ensures s != [] && AllDigits(s)
  {
    if n < 10 then [DigitChar(n)] else NatDecimal(n / 10) + [DigitChar(n % 10)]
  }

  /** `String(n)` for an integer `n`. */
  function Decimal(n: int): (s: string)
    ensures s != [] && !IsWhitespace(s[0])
  {
    if n < 0 then "-" + NatDecimal(-n) else NatDecimal(n)
  }

  lemma {:induction false} NatDecimalValue(n: nat)
    ensures DigitsValue(NatDecimal(n)) == n
  {
    var s := NatDecimal(n);
    if n >= 10 {
      assert s[..|s| - 1] == NatDecimal(n / 10);
      NatDecimalValue(n / 10);
    }
  }

  lemma {:induction false} LeadingDigitsOfDigits(z: string, rest: string)
    requires AllDigits(z)
    requires rest == [] || !IsDigit(rest[0])
    ensures LeadingDigits(z + rest) == z
  {
    if z != [] {
      assert (z + rest)[1..] == z[1..] + rest;
      LeadingDigitsOfDigits(z[1..], rest);
    } else {
      assert z + rest == rest;
    }
  }

  lemma LeadingDigitsOfAllDigits(z: string)
    ensures AllDigits(z) ==> LeadingDigits(z) == z
  {
    if AllDigits(z) {
      assert z + [] == z;
      LeadingDigitsOfDigits(z, []);
    }
  }

  /**
   * `parseInt` reads back the decimal rendering of any integer, after any
   * leading white space and before any suffix that does not start with a digit.
   */
  lemma ParseIntOfDecimal(pad: string, n: int, rest: string)
    requires Blank(pad)
    requires rest == [] || !IsDigit(rest[0])
    ensures ParseInt(pad + Decimal(n) + rest) == Some(n)
  {
    var u := Decimal(n) + rest;
    assert pad + Decimal(n) + rest == pad + u;
    TrimStartAfterPadding(pad, u);
    ParseSignedOfDecimal(n, rest);
  }

  lemma ParseSignedOfDecimal(n: int, rest: string)
    requires rest == [] || !IsDigit(rest[0])
    ensures ParseSigned(Decimal(n) + rest) == Some(n)
  {
    if n < 0 {
      ParseSignedOfNegative(-n, rest);
    } else {
      ParseSignedOfNatural(n, rest);
    }
  }

  lemma ParseSignedOfNatural(m: nat, rest: string)
    requires rest == [] || !IsDigit(rest[0])
    ensures ParseSigned(NatDecimal(m) + rest) == Some(m)
  {
    var digits := NatDecimal(m);
    var u := digits + rest;
    LeadingDigitsOfDigits(digits, rest);
    NatDecimalValue(m);
    assert IsDigit(u[0]);
  }

  lemma ParseSignedOfNegative(m: nat, rest: string)
    requires m > 0
    requires rest == [] || !IsDigit(rest[0])
    ensures ParseSigned("-" + NatDecimal(m) + rest) == Some(-(m as int))
  {
    var digits := NatDecimal(m);
    var u := "-" + digits + rest;
    LeadingDigitsOfDigits(digits, rest);
    NatDecimalValue(m);
    assert u[1..] == digits + rest;
  }
}

/**
 * Rust's fixed-width integers as they appear in this model, the decimal
 * parser `u32::from_str` (that is, `u32::from_str_radix(s, 10)`) and the
 * decimal rendering `Display` gives integers.
 */
module Decimal {
  import opened Wrappers

  const U32_MAX: int := 0xFFFF_FFFF

  newtype u32 = x: int | 0 <= x <= 0xFFFF_FFFF
  newtype i32 = x: int | -0x8000_0000 <= x <= 0x7FFF_FFFF

  predicate IsDigit(c: char)
  {
    '0' <= c <= '9'
  }

  predicate AllDigits(s: string)
  {
    forall i :: 0 <= i < |s| ==> IsDigit(s[i])
  }

  function DigitValue(c: char): (d: nat)
    requires IsDigit(c)
    ensures d < 10
  {
    c as int - '0' as int
  }

  function DigitChar(d: nat): (c: char)
    requires d < 10
    ensures IsDigit(c) && DigitValue(c) == d
  {
    ('0' as int + d) as char
  }

  /** The value of a string of decimal digits, read most significant first. */
  function DigitsValue(s: string): nat
    requires AllDigits(s)
  {
    if s == [] then 0 else DigitsValue(s[..|s| - 1]) * 10 + DigitValue(s[|s| - 1])
  }

  /**
   * What `u32::from_str` accepts: one optional leading `+`, then at least
   * one ASCII digit and nothing else, of value at most `u32::MAX`.
   */
  predicate IsU32Literal(s: string)
  {
    var digits := if s != [] && s[0] == '+' then s[1..] else s;
    digits != [] && AllDigits(digits) && DigitsValue(digits) <= U32_MAX
  }

  /**
   * `u32::from_str_radix(s, 10)`: the empty string, a lone sign, a `-`
   * (an unsigned type takes it as a digit, and it is not one), any other
   * non-digit and any value past `u32::MAX` are errors.
   */
  function ParseU32(s: string): (r: Option<u32>)
    ensures r.Some? <==> IsU32Literal(s)
    ensures r.Some? ==> r.value as int == DigitsValue(if s[0] == '+' then s[1..] else s)
  {
    if s == [] then None
    else if (s[0] == '+' || s[0] == '-') && |s| == 1 then None
    else
      var digits := if s[0] == '+' then s[1..] else s;
      if AllDigits(digits) && DigitsValue(digits) <= U32_MAX then Some(DigitsValue(digits) as u32)
      else None
  }

  /** The decimal digits of `n`, without leading zeros. */
  function NatToDecimal(n: nat): string
  {
    if n < 10 then [DigitChar(n)] else NatToDecimal(n / 10) + [DigitChar(n % 10)]
  }

  /**
   * The rendering is a non-empty string of digits whose value is `n`, and
   * it starts with `0` only for zero itself.
   */
  lemma {:induction false} NatToDecimalDigits(n: nat)
    ensures NatToDecimal(n) != [] && AllDigits(NatToDecimal(n))
    ensures DigitsValue(NatToDecimal(n)) == n
    ensures NatToDecimal(n)[0] == '0' ==> n == 0
  {
    if n >= 10 {
      NatToDecimalDigits(n / 10);
      var s := NatToDecimal(n);
      assert s[..|s| - 1] == NatToDecimal(n / 10);
    }
  }

  /** `Display` of a signed integer: a `-` before the digits of a negative value. */
  function IntToDecimal(i: int): string
  {
    if i < 0 then "-" + NatToDecimal(-i) else NatToDecimal(i)
  }

  /** Rendering a `u32` in decimal and parsing it back, with or without a `+`, gives it back. */
  lemma ParseU32OfDecimal(n: u32)
    ensures ParseU32(NatToDecimal(n as int)) == Some(n)
    ensures ParseU32("+" + NatToDecimal(n as int)) == Some(n)
  {
    var d := NatToDecimal(n as int);
    NatToDecimalDigits(n as int);
    assert ("+" + d)[1..] == d;
  }

  /** Values past `u32::MAX` are refused rather than wrapped. */
  lemma ParseU32Overflow(n: nat)
    requires n > U32_MAX
    ensures ParseU32(NatToDecimal(n)) == None
  {
    NatToDecimalDigits(n);
  }

  /** Distinct numbers have distinct decimal renderings. */
  lemma NatToDecimalInjective(a: nat, b: nat)
    requires NatToDecimal(a) == NatToDecimal(b)
    ensures a == b
  {
    NatToDecimalDigits(a);
    NatToDecimalDigits(b);
  }

  /** Distinct integers have distinct `Display` renderings. */
  lemma IntToDecimalInjective(a: int, b: int)
    requires IntToDecimal(a) == IntToDecimal(b)
    ensures a == b
  {
    NatToDecimalDigits(if a < 0 then -a else a);
    NatToDecimalDigits(if b < 0 then -b else b);
    if a < 0 && b < 0 {
      assert IntToDecimal(a)[1..] == NatToDecimal(-a);
      assert IntToDecimal(b)[1..] == NatToDecimal(-b);
    }
  }
}

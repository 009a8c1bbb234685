/** Decimal text of integers as Rust writes and reads it: `to_string()` on
    integer types, and `str::parse::<T>()` for the integer types the program
    parses (`u8`, `u32`, `i32`). */
module Decimal {
  import opened Common

  predicate IsDigit(c: char) {
    '0' <= c <= '9'
  }

  predicate AllDigits(s: string) {
    forall i :: 0 <= i < |s| ==> IsDigit(s[i])
  }

  function DigitValue(c: char): (d: nat)
    requires IsDigit(c)
    ensures d < 10
  {
    c as int - '0' as int
  }

  function DigitChar(d: nat): (c: char)
    requires d < 10
    ensures IsDigit(c) && DigitValue(c) == d
  {
    ('0' as int + d) as char
  }

  /** The value of a string of decimal digits, most significant first. */
  function DigitsValue(s: string): nat
    requires AllDigits(s)
  {
    if |s| == 0 then 0 else DigitsValue(s[..|s| - 1]) * 10 + DigitValue(s[|s| - 1])
  }

  /** Rust's integer `FromStr`: an optional sign, then one or more ASCII
      digits (leading zeros allowed), and a value within `[min, max]`.
      A lone sign, an empty string, any other character or an out-of-range
      value is an error. A `-` is a sign only for signed types; for an
      unsigned type it is an invalid digit. */
  function ParseInteger(s: string, signed: bool, min: int, max: int): (r: Option<int>)
    ensures r.Some? ==> min <= r.value <= max
    ensures r.Some? ==> |s| > 0 && (IsDigit(s[0]) || s[0] == '+' || (signed && s[0] == '-'))
  {
    if |s| == 0 then None
    else if (s[0] == '+' || s[0] == '-') && |s| == 1 then None
    else
      var negative := signed && s[0] == '-';
      var digits := if s[0] == '+' || negative then s[1..] else s;
      if !AllDigits(digits) then None
      else
        var magnitude: int := DigitsValue(digits);
        var v := if negative then -magnitude else magnitude;
        if min <= v <= max then Some(v) else None
  }

  function ParseU8(s: string): (r: Option<u8>)
    ensures r.Some? <==> ParseInteger(s, false, 0, 255).Some?
  {
    match ParseInteger(s, false, 0, 255)
    case Some(v) => Some(v)
    case None => None
  }

  function ParseU32(s: string): (r: Option<u32>)
    ensures r.Some? <==> ParseInteger(s, false, 0, U32_MAX).Some?
  {
    match ParseInteger(s, false, 0, U32_MAX)
    case Some(v) => Some(v)
    case None => None
  }

  function ParseI32(s: string): (r: Option<i32>)
    ensures r.Some? <==> ParseInteger(s, true, I32_MIN, I32_MAX).Some?
  {
    match ParseInteger(s, true, I32_MIN, I32_MAX)
    case Some(v) => Some(v)
    case None => None
  }

  /** The decimal text of a natural number, without leading zeros. */
  function NatToString(n: nat): (s: string)
    ensures |s| >= 1 && AllDigits(s)
    ensures s[0] == '0' ==> n == 0
  {
    if n < 10 then [DigitChar(n)] else NatToString(n / 10) + [DigitChar(n % 10)]
  }

  /** Rust's `to_string()` on an integer: a `-` before the magnitude when negative. */
  function IntToString(i: int): (s: string)
    ensures |s| >= 1
    ensures i < 0 <==> s[0] == '-'
  {
    if i < 0 then "-" + NatToString(-i) else NatToString(i)
  }

  /** The digits written for `n` have value `n`. */
  lemma {:induction false} NatToStringValue(n: nat)
    ensures DigitsValue(NatToString(n)) == n
  {
    var s := NatToString(n);
    if n >= 10 {
      var p := NatToString(n / 10);
      NatToStringValue(n / 10);
      assert s[..|s| - 1] == p;
    }
  }

  /** Printing a natural number and parsing it back gives the number, for
      every range that contains it. */
  lemma ParseNatToString(n: nat, signed: bool, min: int, max: int)
    requires min <= n <= max
    ensures ParseInteger(NatToString(n), signed, min, max) == Some(n)
  {
    NatToStringValue(n);
  }

  /** Printing a signed integer and parsing it back as a signed type gives
      the integer back. */
  lemma ParseIntToString(i: int, min: int, max: int)
    requires min <= i <= max
    ensures ParseInteger(IntToString(i), true, min, max) == Some(i)
  {
    if i < 0 {
      var s := IntToString(i);
      var digits := NatToString(-i);
      NatToStringValue(-i);
      assert s == "-" + digits && |s| >= 2;
      assert s[1..] == digits;
      assert AllDigits(s[1..]) && DigitsValue(s[1..]) == -i;
    } else {
      NatToStringValue(i);
    }
  }

  /** `i32` values survive a print/parse round trip. */
  lemma I32RoundTrip(i: i32)
    ensures ParseI32(IntToString(i)) == Some(i)
  {
    ParseIntToString(i, I32_MIN, I32_MAX);
  }

  /** `u32` values survive a print/parse round trip. */
  lemma U32RoundTrip(n: u32)
    ensures ParseU32(NatToString(n)) == Some(n)
  {
    ParseNatToString(n, false, 0, U32_MAX);
  }
}

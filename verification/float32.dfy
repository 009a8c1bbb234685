/** Single-precision floats (IEEE 754 binary32) kept as their 32-bit
    patterns. Only the operations the program applies to them without
    rounding are interpreted: equality, the zero test and the saturating
    conversion `as i32`. Text formatting and arithmetic stay uninterpreted. */
module Float {
  import opened Common

  /** An `f32`, held as its bit pattern. */
  datatype F32 = F32(bits: u32) {
    function Sign(): nat {
      bits / 0x8000_0000
    }

    function Exponent(): (e: nat)
      ensures e < 256
    {
      (bits / 0x80_0000) % 256
    }

    function Mantissa(): (m: nat)
      ensures m < 0x80_0000
    {
      bits % 0x80_0000
    }

    predicate IsNaN() {
      Exponent() == 255 && Mantissa() != 0
    }

    predicate IsInfinite() {
      Exponent() == 255 && Mantissa() == 0
    }

    /** Positive or negative zero. */
    predicate IsZero() {
      Exponent() == 0 && Mantissa() == 0
    }
  }

  const PositiveZero: F32 := F32(0)

  /** Rust's `==` on `f32`: NaN equals nothing, the two zeros are equal,
      and otherwise equal values have equal bit patterns. */
  predicate Eq(a: F32, b: F32) {
    !a.IsNaN() && !b.IsNaN() && (a.bits == b.bits || (a.IsZero() && b.IsZero()))
  }

  lemma EqIsSymmetric(a: F32, b: F32)
    ensures Eq(a, b) <==> Eq(b, a)
  {
  }

  /** Equality is reflexive except on NaN, and both zeros compare equal. */
  lemma EqReflexiveExceptNaN(a: F32)
    ensures Eq(a, a) <==> !a.IsNaN()
    ensures a.IsZero() ==> Eq(a, PositiveZero)
  {
  }

  /** The integer part of the absolute value of a finite float with the
      given biased exponent and mantissa field. */
  function TruncatedMagnitude(exponent: nat, mantissa: nat): nat
  {
    var significand := 0x80_0000 + mantissa;
    if exponent < 127 then 0
    else if exponent <= 150 then ShiftRight(significand, 150 - exponent)
    else ShiftLeft(significand, exponent - 150)
  }

  /** `m` divided by 2 to the power `k`, rounded down. */
  function ShiftRight(m: nat, k: nat): nat
  {
    if k == 0 then m else ShiftRight(m / 2, k - 1)
  }

  /** `m` times 2 to the power `k`. */
  function ShiftLeft(m: nat, k: nat): (r: nat)
    ensures m > 0 ==> r >= m
  {
    if k == 0 then m else 2 * ShiftLeft(m, k - 1)
  }

  /** Rust's `f as i32`: rounds toward zero, saturates at the bounds of
      `i32`, and maps NaN to 0. */
  function ToI32(f: F32): (r: i32)
    ensures f.IsNaN() ==> r == 0
    ensures !f.IsNaN() && f.Exponent() < 127 ==> r == 0
    ensures !f.IsNaN() && f.Sign() == 0 ==> r >= 0
    ensures f.Sign() == 1 ==> r <= 0
    ensures f.IsInfinite() ==> r == (if f.Sign() == 1 then I32_MIN else I32_MAX)
  {
    if f.IsNaN() then 0
    else if f.IsInfinite() then (if f.Sign() == 1 then I32_MIN else I32_MAX)
    else
      var m: int := TruncatedMagnitude(f.Exponent(), f.Mantissa());
      if f.Sign() == 1 then (if -m < I32_MIN then I32_MIN else -m)
      else (if m > I32_MAX then I32_MAX else m)
  }
}

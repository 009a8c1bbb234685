/** Bitwise `&` and `|` on non-negative integers, defined bit by bit from
    the least significant end, with the laws the flag sets rely on. */
module Bits {

  function Pow2(k: nat): (r: nat)
    ensures r >= 1
  {
    if k == 0 then 1 else 2 * Pow2(k - 1)
  }

  lemma Pow2Values()
    ensures Pow2(30) == 0x4000_0000 && Pow2(32) == 0x1_0000_0000
  {
    assert Pow2(10) == 0x400;
    assert Pow2(20) == 0x10_0000;
  }

  /** The value of one bit position: 1 when both or either bit is set. */
  function AndBit(a: nat, b: nat): nat {
    if a % 2 == 1 && b % 2 == 1 then 1 else 0
  }

  function OrBit(a: nat, b: nat): nat {
    if a % 2 == 1 || b % 2 == 1 then 1 else 0
  }

  /** Bitwise AND. */
  function BitAnd(x: nat, y: nat): nat
    decreases x
  {
    if x == 0 || y == 0 then 0 else AndBit(x, y) + 2 * BitAnd(x / 2, y / 2)
  }

  /** Bitwise OR. */
  function BitOr(x: nat, y: nat): nat
    decreases x + y
  {
    if x == 0 then y
    else if y == 0 then x
    else OrBit(x, y) + 2 * BitOr(x / 2, y / 2)
  }

  /** Both operations split into a lowest bit and the rest, for every input. */
  lemma Step(x: nat, y: nat)
    ensures BitAnd(x, y) == AndBit(x, y) + 2 * BitAnd(x / 2, y / 2)
    ensures BitOr(x, y) == OrBit(x, y) + 2 * BitOr(x / 2, y / 2)
  {
    if x == 0 {
      assert BitAnd(x / 2, y / 2) == 0;
      assert BitOr(x / 2, y / 2) == y / 2;
    } else if y == 0 {
      assert BitAnd(x / 2, y / 2) == 0;
      assert BitOr(x / 2, y / 2) == x / 2;
    }
  }

  /** A value is fixed by its lowest bit and the rest. */
  lemma SameBits(x: nat, y: nat)
    requires x % 2 == y % 2 && x / 2 == y / 2
    ensures x == y
  {
  }

  lemma {:induction false} OrCommutes(x: nat, y: nat)
    ensures BitOr(x, y) == BitOr(y, x)
    decreases x + y
  {
    if x != 0 && y != 0 {
      OrCommutes(x / 2, y / 2);
    }
  }

  lemma {:induction false} AndCommutes(x: nat, y: nat)
    ensures BitAnd(x, y) == BitAnd(y, x)
    decreases x
  {
    if x != 0 && y != 0 {
      AndCommutes(x / 2, y / 2);
    }
  }

  lemma {:induction false} OrAssociates(x: nat, y: nat, z: nat)
    ensures BitOr(BitOr(x, y), z) == BitOr(x, BitOr(y, z))
    decreases x + y + z
  {
    if x != 0 || y != 0 || z != 0 {
      var l, r := BitOr(x, y), BitOr(y, z);
      OrParts(x, y);
      OrParts(y, z);
      OrParts(l, z);
      OrParts(x, r);
      OrAssociates(x / 2, y / 2, z / 2);
      SameBits(BitOr(l, z), BitOr(x, r));
    }
  }

  /** The lowest bit and the rest of an OR. */
  lemma OrParts(x: nat, y: nat)
    ensures BitOr(x, y) % 2 == OrBit(x, y)
    ensures BitOr(x, y) / 2 == BitOr(x / 2, y / 2)
  {
    Step(x, y);
  }

  lemma {:induction false} OrIdempotent(x: nat)
    ensures BitOr(x, x) == x && BitOr(x, 0) == x
    decreases x
  {
    if x != 0 {
      OrIdempotent(x / 2);
    }
  }

  /** `x | y` keeps every bit of `x`. */
  lemma {:induction false} OrCovers(x: nat, y: nat)
    ensures BitAnd(BitOr(x, y), x) == x
    decreases x + y
  {
    if x != 0 {
      Step(x, y);
      Step(BitOr(x, y), x);
      OrCovers(x / 2, y / 2);
    }
  }

  /** `x & y == y` exactly when `x | y == x`: both say every bit of `y` is
      set in `x`. */
  lemma {:induction false} AndIffOr(x: nat, y: nat)
    ensures BitAnd(x, y) == y <==> BitOr(x, y) == x
    decreases x + y
  {
    if x != 0 || y != 0 {
      Step(x, y);
      AndIffOr(x / 2, y / 2);
    }
  }

  /** Either operation stays below a power of two both operands are below. */
  lemma {:induction false} Bounded(x: nat, y: nat, k: nat)
    requires x < Pow2(k) && y < Pow2(k)
    ensures BitOr(x, y) < Pow2(k) && BitAnd(x, y) <= x
    decreases k
  {
    Step(x, y);
    if k > 0 {
      Bounded(x / 2, y / 2, k - 1);
    } else {
      assert x == 0 && y == 0;
    }
  }

  /** AND with all ones below bit `k` keeps a value below `Pow2(k)`. */
  lemma {:induction false} AndOnes(x: nat, k: nat)
    requires x < Pow2(k)
    ensures BitAnd(x, Pow2(k) - 1) == x
    decreases k
  {
    if k > 0 {
      Step(x, Pow2(k) - 1);
      assert (Pow2(k) - 1) / 2 == Pow2(k - 1) - 1;
      AndOnes(x / 2, k - 1);
    }
  }
}

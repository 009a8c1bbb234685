/** Little-endian unsigned integers of a fixed byte width, as written by
    Rust's `to_le_bytes` and read back by `from_le_bytes`. */
module LittleEndian {
  import opened Common

  /** 256 to the power `width`: one more than the largest value `width` bytes hold. */
  function Pow256(width: nat): (p: nat)
    ensures p >= 1
  {
    if width == 0 then 1 else 256 * Pow256(width - 1)
  }

  /** The value of a little-endian byte sequence: byte 0 is least significant. */
  function FromLe(b: bytes): (n: nat)
    ensures n < Pow256(|b|)
  {
    if |b| == 0 then 0 else b[0] + 256 * FromLe(b[1..])
  }

  /** The `width` low-order bytes of `n`, least significant first. Values that
      do not fit are truncated to their low bytes, as a narrowing cast would. */
  function ToLe(n: nat, width: nat): (b: bytes)
    ensures |b| == width
    ensures width > 0 ==> b[0] == n % 256
  {
    if width == 0 then [] else [n % 256] + ToLe(n / 256, width - 1)
  }

  /** Reading back a written value gives the value modulo the width's range. */
  lemma {:induction false} FromLeToLe(n: nat, width: nat)
    ensures FromLe(ToLe(n, width)) == n % Pow256(width)
  {
    if width > 0 {
      var b := ToLe(n, width);
      assert b[1..] == ToLe(n / 256, width - 1);
      FromLeToLe(n / 256, width - 1);
      DivModStep(n, Pow256(width - 1));
    }
  }

  /** n mod 256p is its low byte plus 256 times (n / 256) mod p. */
  lemma DivModStep(n: nat, p: nat)
    requires p >= 1
    ensures n % (256 * p) == n % 256 + 256 * ((n / 256) % p)
  {
    var q := n / 256;
    var r := n % 256;
    var a := q / p;
    var c := q % p;
    assert q == a * p + c;
    assert n == (a * p + c) * 256 + r;
    assert n == a * (256 * p) + (c * 256 + r);
    assert 0 <= c * 256 + r < 256 * p;
    DivModUnique(n, 256 * p, a, c * 256 + r);
  }

  lemma DivModUnique(n: int, d: int, q: int, r: int)
    requires d > 0 && 0 <= r < d && n == q * d + r
    ensures n % d == r && n / d == q
  {
    var q' := n / d;
    var r' := n % d;
    assert n == q' * d + r';
    assert (q - q') * d == r' - r;
    if q > q' {
      MulAtLeast(q - q', d);
    } else if q < q' {
      MulAtLeast(q' - q, d);
    }
  }

  lemma MulAtLeast(a: int, d: int)
    requires a >= 1 && d > 0
    ensures a * d >= d
  {
    assert a * d == (a - 1) * d + d;
    assert (a - 1) * d >= 0;
  }

  /** Round trip for values that fit: decoding the encoding gives the value back. */
  lemma DecodeEncode(n: nat, width: nat)
    requires n < Pow256(width)
    ensures FromLe(ToLe(n, width)) == n
  {
    FromLeToLe(n, width);
  }

  /** Round trip the other way: every byte sequence is the encoding of its value. */
  lemma {:induction false} EncodeDecode(b: bytes)
    ensures ToLe(FromLe(b), |b|) == b
  {
    if |b| > 0 {
      var n := FromLe(b);
      assert n % 256 == b[0] && n / 256 == FromLe(b[1..]) by {
        DivModUnique(n, 256, FromLe(b[1..]), b[0]);
      }
      EncodeDecode(b[1..]);
    }
  }
}

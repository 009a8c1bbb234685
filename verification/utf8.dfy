/** UTF-8 as Rust's `String::from_utf8` accepts it: the well-formed byte
    sequences of the Unicode Standard, Table 3-7 (no overlong forms, no
    surrogates, nothing above U+10FFFF). `Encode` is the matching writer. */
module Utf8 {
  import opened Common

  predicate IsContinuation(b: byte) {
    0x80 <= b <= 0xBF
  }

  /** Length of the well-formed sequence that starts `s`, or 0 when `s`
      does not start with one. */
  function SequenceLength(s: bytes): (n: nat)
    ensures n <= 4 && n <= |s|
  {
    if |s| == 0 then 0
    else
      var b0 := s[0];
      if b0 <= 0x7F then 1
      else if 0xC2 <= b0 <= 0xDF then
        if |s| >= 2 && IsContinuation(s[1]) then 2 else 0
      else if 0xE0 <= b0 <= 0xEF then
        var secondOk :=
          if b0 == 0xE0 then 0xA0 <= s[1 % |s|] <= 0xBF
          else if b0 == 0xED then 0x80 <= s[1 % |s|] <= 0x9F
          else IsContinuation(s[1 % |s|]);
        if |s| >= 3 && secondOk && IsContinuation(s[2]) then 3 else 0
      else if 0xF0 <= b0 <= 0xF4 then
        var secondOk :=
          if b0 == 0xF0 then 0x90 <= s[1 % |s|] <= 0xBF
          else if b0 == 0xF4 then 0x80 <= s[1 % |s|] <= 0x8F
          else IsContinuation(s[1 % |s|]);
        if |s| >= 4 && secondOk && IsContinuation(s[2]) && IsContinuation(s[3]) then 4 else 0
      else 0
  }

  /** Whether `v` is a Unicode scalar value, i.e. a valid `char`. */
  predicate IsScalar(v: int) {
    0 <= v < 0xD800 || 0xE000 <= v < 0x11_0000
  }

  /** The scalar value encoded by the well-formed sequence that starts `s`. */
  function ScalarAt(s: bytes): (v: int)
    requires SequenceLength(s) > 0
    ensures IsScalar(v)
  {
    var n := SequenceLength(s);
    var b0: int := s[0];
    if n == 1 then b0
    else
      var b1: int := s[1];
      if n == 2 then (b0 - 0xC0) * 64 + (b1 - 0x80)
      else
        var b2: int := s[2];
        if n == 3 then (b0 - 0xE0) * 4096 + (b1 - 0x80) * 64 + (b2 - 0x80)
        else
          var b3: int := s[3];
          (b0 - 0xF0) * 262144 + (b1 - 0x80) * 4096 + (b2 - 0x80) * 64 + (b3 - 0x80)
  }

  /** Decodes `s`, or `None` when any part of it is not well-formed UTF-8. */
  function Decode(s: bytes): (r: Option<string>)
    ensures r.Some? ==> |r.value| <= |s|
    decreases |s|
  {
    if |s| == 0 then Some([])
    else
      var n := SequenceLength(s);
      if n == 0 then None
      else
        match Decode(s[n..])
        case None => None
        case Some(tail) => Some([ScalarAt(s) as char] + tail)
  }

  /** The UTF-8 encoding of one character (one to four bytes). */
  function EncodeChar(c: char): (b: bytes)
    ensures 1 <= |b| <= 4
  {
    var v := c as int;
    if v < 0x80 then [v]
    else if v < 0x800 then [0xC0 + v / 64, 0x80 + v % 64]
    else if v < 0x1_0000 then [0xE0 + v / 4096, 0x80 + (v / 64) % 64, 0x80 + v % 64]
    else [0xF0 + v / 262144, 0x80 + (v / 4096) % 64, 0x80 + (v / 64) % 64, 0x80 + v % 64]
  }

  /** The UTF-8 encoding of a string. */
  function Encode(s: string): (b: bytes)
    ensures |s| <= |b|
  {
    if |s| == 0 then [] else EncodeChar(s[0]) + Encode(s[1..])
  }

  /** The encoding of a character is read back as exactly that character,
      whatever bytes follow it. */
  lemma EncodeCharDecodes(c: char, rest: bytes)
    ensures SequenceLength(EncodeChar(c) + rest) == |EncodeChar(c)|
    ensures ScalarAt(EncodeChar(c) + rest) == c as int
  {
    var v := c as int;
    if v < 0x80 {
    } else if v < 0x800 {
      TwoByteDecodes(v, rest);
    } else if v < 0x1_0000 {
      ThreeByteDecodes(v, rest);
    } else {
      FourByteDecodes(v, rest);
    }
  }

  lemma TwoByteDecodes(v: int, rest: bytes)
    requires 0x80 <= v < 0x800
    ensures var s := [0xC0 + v / 64, 0x80 + v % 64] + rest;
      SequenceLength(s) == 2 && ScalarAt(s) == v
  {
    assert 2 <= v / 64 < 32;
  }

  lemma ThreeByteDecodes(v: int, rest: bytes)
    requires 0x800 <= v < 0x1_0000 && IsScalar(v)
    ensures var s := [0xE0 + v / 4096, 0x80 + (v / 64) % 64, 0x80 + v % 64] + rest;
      SequenceLength(s) == 3 && ScalarAt(s) == v
  {
    var hi, mid, lo := v / 4096, (v / 64) % 64, v % 64;
    assert v / 64 == hi * 64 + mid;
    assert v == hi * 4096 + mid * 64 + lo;
    assert hi == 0 ==> mid >= 32;
    assert hi == 13 ==> mid < 32;
  }

  lemma FourByteDecodes(v: int, rest: bytes)
    requires 0x1_0000 <= v < 0x11_0000
    ensures var s := [0xF0 + v / 262144, 0x80 + (v / 4096) % 64, 0x80 + (v / 64) % 64, 0x80 + v % 64] + rest;
      SequenceLength(s) == 4 && ScalarAt(s) == v
  {
    var top, hi, mid, lo := v / 262144, (v / 4096) % 64, (v / 64) % 64, v % 64;
    assert v / 4096 == top * 64 + hi;
    assert v / 64 == (v / 4096) * 64 + mid;
    assert v == top * 262144 + hi * 4096 + mid * 64 + lo;
    assert top <= 4;
    assert top == 0 ==> hi >= 16;
    assert top == 4 ==> hi < 16;
  }

  /** Encoding then decoding a string gives the string back. */
  lemma {:induction false} DecodeEncode(s: string)
    ensures Decode(Encode(s)) == Some(s)
  {
    if |s| > 0 {
      var e := EncodeChar(s[0]);
      var t := Encode(s[1..]);
      EncodeCharDecodes(s[0], t);
      assert (e + t)[|e|..] == t;
      DecodeEncode(s[1..]);
      assert Encode(s) == e + t;
      assert ScalarAt(e + t) as char == s[0];
      assert Decode(e + t) == Some([s[0]] + s[1..]);
      assert [s[0]] + s[1..] == s;
    }
  }

  /** Only the NUL character encodes to a byte 0: every byte of a multi-byte
      sequence is at least 0x80. */
  lemma {:induction false} EncodeHasNoNul(s: string)
    requires forall i :: 0 <= i < |s| ==> s[i] != '\0'
    ensures forall i :: 0 <= i < |Encode(s)| ==> Encode(s)[i] != 0
  {
    if |s| > 0 {
      EncodeHasNoNul(s[1..]);
      var e := EncodeChar(s[0]);
      assert forall i :: 0 <= i < |e| ==> e[i] != 0;
      assert Encode(s) == e + Encode(s[1..]);
    }
  }
}

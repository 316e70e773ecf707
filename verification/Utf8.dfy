/**
 Which byte strings proto.Marshal and proto.Unmarshal take for text: the bytes of valid UTF-8, decided
 byte by byte, are exactly the encodings of sequences of Unicode scalar values.
 */
module Utf8 {
  import opened Frames

  predicate Tail(b: seq<byte>, i: nat) { i < |b| && 0x80 <= b[i] <= 0xBF }

  /** utf8.Valid. */
  predicate ValidUtf8(b: seq<byte>)
    decreases |b|
  {
    if b == [] then true
    else if b[0] < 0x80 then ValidUtf8(b[1..])
    else if 0xC2 <= b[0] <= 0xDF then Tail(b, 1) && ValidUtf8(b[2..])
    else if 0xE0 <= b[0] <= 0xEF then
      && Tail(b, 1) && Tail(b, 2)
      && (b[0] == 0xE0 ==> b[1] >= 0xA0) && (b[0] == 0xED ==> b[1] <= 0x9F)
      && ValidUtf8(b[3..])
    else if 0xF0 <= b[0] <= 0xF4 then
      && Tail(b, 1) && Tail(b, 2) && Tail(b, 3)
      && (b[0] == 0xF0 ==> b[1] >= 0x90) && (b[0] == 0xF4 ==> b[1] <= 0x8F)
      && ValidUtf8(b[4..])
    else false
  }

  // ----- The specification ----------------------------------------------------------------------

  /** A Unicode scalar value: a code point that is not a surrogate. */
  predicate Scalar(c: int) { 0 <= c < 0xD800 || 0xE000 <= c <= 0x10FFFF }

  /** The UTF-8 form of a scalar value, by its number of significant bits. */
  function EncodeRune(c: int): (r: seq<byte>)
    requires Scalar(c)
    ensures r != []
  {
    if c < 0x80 then [c]
    else if c < 0x800 then [0xC0 + c / 0x40, 0x80 + c % 0x40]
    else if c < 0x10000 then [0xE0 + c / 0x1000, 0x80 + c / 0x40 % 0x40, 0x80 + c % 0x40]
    else [0xF0 + c / 0x40000, 0x80 + c / 0x1000 % 0x40, 0x80 + c / 0x40 % 0x40, 0x80 + c % 0x40]
  }

  predicate AllScalar(cs: seq<int>) { forall i :: 0 <= i < |cs| ==> Scalar(cs[i]) }

  function Encoded(cs: seq<int>): seq<byte>
    requires AllScalar(cs)
  {
    if cs == [] then [] else EncodeRune(cs[0]) + Encoded(cs[1..])
  }

  // ----- The two agree --------------------------------------------------------------------------

  lemma ShortRune(c: int, rest: seq<byte>)
    requires Scalar(c) && c < 0x800
    ensures ValidUtf8(EncodeRune(c) + rest) == ValidUtf8(rest)
  {
    var b := EncodeRune(c) + rest;
    if c < 0x80 {
      assert b[1..] == rest;
    } else {
      assert 0xC2 <= b[0] <= 0xDF && Tail(b, 1) && b[2..] == rest;
    }
  }

  lemma LongRune(c: int, rest: seq<byte>)
    requires Scalar(c) && 0x800 <= c
    ensures ValidUtf8(EncodeRune(c) + rest) == ValidUtf8(rest)
  {
    var b := EncodeRune(c) + rest;
    if c < 0x10000 {
      assert 0xE0 <= b[0] <= 0xEF && Tail(b, 1) && Tail(b, 2) && b[3..] == rest;
      assert b[0] == 0xE0 ==> b[1] >= 0xA0;
      assert b[0] == 0xED ==> b[1] <= 0x9F;
    } else {
      assert 0xF0 <= b[0] <= 0xF4 && Tail(b, 1) && Tail(b, 2) && Tail(b, 3) && b[4..] == rest;
      assert b[0] == 0xF0 ==> b[1] >= 0x90;
      assert b[0] == 0xF4 ==> b[1] <= 0x8F;
    }
  }

  lemma RuneValid(c: int, rest: seq<byte>)
    requires Scalar(c)
    ensures ValidUtf8(EncodeRune(c) + rest) == ValidUtf8(rest)
  {
    if c < 0x800 { ShortRune(c, rest); } else { LongRune(c, rest); }
  }

  /** A valid string starts with the form of a scalar value. */
  lemma FirstRune(b: seq<byte>) returns (c: int, k: nat)
    requires ValidUtf8(b) && b != []
    ensures Scalar(c) && 0 < k <= |b| && b[..k] == EncodeRune(c) && ValidUtf8(b[k..])
  {
    if b[0] < 0x80 {
      c, k := b[0], 1;
    } else if b[0] <= 0xDF {
      c := TwoBytes(b[0] - 0xC0, b[1] - 0x80);
      k := 2;
    } else if b[0] <= 0xEF {
      c := ThreeBytes(b[0] - 0xE0, b[1] - 0x80, b[2] - 0x80);
      k := 3;
    } else {
      c := FourBytes(b[0] - 0xF0, b[1] - 0x80, b[2] - 0x80, b[3] - 0x80);
      k := 4;
    }
  }

  lemma TwoBytes(x: int, y: int) returns (c: int)
    requires 2 <= x < 32 && 0 <= y < 0x40
    ensures Scalar(c) && EncodeRune(c) == [0xC0 + x, 0x80 + y]
  {
    c := x * 0x40 + y;
    assert c / 0x40 == x && c % 0x40 == y;
  }

  lemma ThreeBytes(x: int, y: int, z: int) returns (c: int)
    requires 0 <= x < 16 && 0 <= y < 0x40 && 0 <= z < 0x40
    requires (x == 0 ==> y >= 0x20) && (x == 0xD ==> y < 0x20)
    ensures Scalar(c) && EncodeRune(c) == [0xE0 + x, 0x80 + y, 0x80 + z]
  {
    c := x * 0x1000 + y * 0x40 + z;
    assert c / 0x1000 == x && c / 0x40 == x * 0x40 + y && c / 0x40 % 0x40 == y && c % 0x40 == z;
  }

  lemma FourBytes(x: int, y: int, z: int, u: int) returns (c: int)
    requires 0 <= x <= 4 && 0 <= y < 0x40 && 0 <= z < 0x40 && 0 <= u < 0x40
    requires (x == 0 ==> y >= 0x10) && (x == 4 ==> y < 0x10)
    ensures Scalar(c) && EncodeRune(c) == [0xF0 + x, 0x80 + y, 0x80 + z, 0x80 + u]
  {
    c := x * 0x40000 + y * 0x1000 + z * 0x40 + u;
    assert c / 0x40000 == x && c / 0x1000 == x * 0x40 + y && c / 0x1000 % 0x40 == y;
    assert c / 0x40 == (x * 0x40 + y) * 0x40 + z && c / 0x40 % 0x40 == z && c % 0x40 == u;
  }

  /** The encoding of scalar values is valid. */
  lemma {:induction false} EncodedIsValid(cs: seq<int>)
    requires AllScalar(cs)
    ensures ValidUtf8(Encoded(cs))
  {
    if cs != [] {
      EncodedIsValid(cs[1..]);
      RuneValid(cs[0], Encoded(cs[1..]));
    }
  }

  /** A valid string is the encoding of some scalar values. */
  lemma {:induction false} ValidIsEncoded(b: seq<byte>) returns (cs: seq<int>)
    requires ValidUtf8(b)
    ensures AllScalar(cs) && Encoded(cs) == b
    decreases |b|
  {
    cs := [];
    if b != [] {
      var c, k := FirstRune(b);
      hide ValidUtf8, EncodeRune;
      var rest := ValidIsEncoded(b[k..]);
      cs := [c] + rest;
      assert cs[1..] == rest && b == b[..k] + b[k..];
    }
  }

  ghost predicate IsEncoding(b: seq<byte>) { exists cs :: AllScalar(cs) && Encoded(cs) == b }

  /** The check accepts exactly the encodings of sequences of scalar values. */
  lemma ValidExactly(b: seq<byte>)
    ensures ValidUtf8(b) <==> IsEncoding(b)
  {
    if ValidUtf8(b) {
      var cs := ValidIsEncoded(b);
    }
    if IsEncoding(b) {
      var cs :| AllScalar(cs) && Encoded(cs) == b;
      EncodedIsValid(cs);
    }
  }

  /** Valid strings can be joined. */
  lemma {:induction false} ValidConcat(a: seq<byte>, b: seq<byte>)
    requires ValidUtf8(a) && ValidUtf8(b)
    ensures ValidUtf8(a + b)
    decreases |a|
  {
    if a == [] {
      assert a + b == b;
    } else {
      var c, k := FirstRune(a);
      hide ValidUtf8, EncodeRune;
      ValidConcat(a[k..], b);
      RuneValid(c, a[k..] + b);
      assert a + b == a[..k] + (a[k..] + b);
    }
  }

  /** Every ASCII string is valid. */
  lemma {:induction false} AsciiValid(b: seq<byte>)
    requires forall i :: 0 <= i < |b| ==> b[i] < 0x80
    ensures ValidUtf8(b)
  {
    if b != [] {
      AsciiValid(b[1..]);
    }
  }
}

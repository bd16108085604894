/**
 * UTF-8, as Python's `str.encode('utf-8')` writes it and as its strict
 * decoder reads it: every Unicode scalar value takes one to four bytes, and
 * only the well-formed byte sequences of Table 3-7 of the Unicode Standard
 * (no overlong forms, no surrogates, nothing above U+10FFFF) decode.
 */
module Utf8 {
  import opened Wrappers
  import opened Bytes

  /** The UTF-8 bytes of one scalar value. */
  function EncodeChar(c: char): (b: seq<Byte>)
    ensures 1 <= |b| <= 4
    ensures c as int < 0x80 <==> |b| == 1
    ensures |b| == 1 ==> b[0] == c as int
    ensures |b| > 1 ==> forall i :: 0 <= i < |b| ==> b[i] >= 0x80
  {
    var cp := c as int;
    if cp < 0x80 then
      [cp]
    else if cp < 0x800 then
      [0xC0 + cp / 64, 0x80 + cp % 64]
    else if cp < 0x1_0000 then
      [0xE0 + cp / 64 / 64, 0x80 + cp / 64 % 64, 0x80 + cp % 64]
    else
      [0xF0 + cp / 64 / 64 / 64, 0x80 + cp / 64 / 64 % 64, 0x80 + cp / 64 % 64, 0x80 + cp % 64]
  }

  /** The UTF-8 bytes of a string: the encodings of its characters, in order. */
  function Encode(s: string): (b: seq<Byte>)
    ensures |b| >= |s|
  {
    if s == [] then [] else EncodeChar(s[0]) + Encode(s[1..])
  }

  predicate IsContinuation(b: Byte) {
    0x80 <= b < 0xC0
  }

  /** The allowed second bytes of a three-byte sequence led by b0 (no overlong forms, no surrogates). */
  predicate SecondOfThree(b0: Byte, b1: Byte) {
    if b0 == 0xE0 then 0xA0 <= b1 < 0xC0
    else if b0 == 0xED then 0x80 <= b1 < 0xA0
    else IsContinuation(b1)
  }

  /** The allowed second bytes of a four-byte sequence led by b0 (no overlong forms, nothing above U+10FFFF). */
  predicate SecondOfFour(b0: Byte, b1: Byte) {
    if b0 == 0xF0 then 0x90 <= b1 < 0xC0
    else if b0 == 0xF4 then 0x80 <= b1 < 0x90
    else IsContinuation(b1)
  }

  /**
   * The scalar value that b starts with and the number of bytes it takes,
   * or None when b does not start with a well-formed UTF-8 sequence.
   */
  function DecodeFirst(b: seq<Byte>): (r: Option<(char, nat)>)
    ensures r.Some? ==> 1 <= r.value.1 <= |b| && r.value.1 <= 4
  {
    if |b| == 0 then None
    else if b[0] < 0x80 then Some((b[0] as char, 1))
    else if 0xC2 <= b[0] < 0xE0 then
      if |b| >= 2 && IsContinuation(b[1]) then
        Some((((b[0] as int - 0xC0) * 64 + (b[1] as int - 0x80)) as char, 2))
      else None
    else if 0xE0 <= b[0] < 0xF0 then
      if |b| >= 3 && SecondOfThree(b[0], b[1]) && IsContinuation(b[2]) then
        Some((((b[0] as int - 0xE0) * 4096 + (b[1] as int - 0x80) * 64 + (b[2] as int - 0x80)) as char, 3))
      else None
    else if 0xF0 <= b[0] < 0xF5 then
      if |b| >= 4 && SecondOfFour(b[0], b[1]) && IsContinuation(b[2]) && IsContinuation(b[3]) then
        Some((((b[0] as int - 0xF0) * 262144 + (b[1] as int - 0x80) * 4096 + (b[2] as int - 0x80) * 64 + (b[3] as int - 0x80)) as char, 4))
      else None
    else None
  }

  /** Strict decoding: the string whose UTF-8 bytes are b, or None if b is not well-formed. */
  function Decode(b: seq<Byte>): (r: Option<string>)
    decreases |b|
  {
    if b == [] then Some("")
    else match DecodeFirst(b)
      case None => None
      case Some((c, n)) =>
        match Decode(b[n..])
        case None => None
        case Some(s) => Some([c] + s)
  }

  /** Decoding the encoding of c, whatever follows it, reads back c and exactly its bytes. */
  lemma DecodeFirstOfEncodeChar(c: char, rest: seq<Byte>)
    ensures DecodeFirst(EncodeChar(c) + rest) == Some((c, |EncodeChar(c)|))
  {
    var cp := c as int;
    var b := EncodeChar(c) + rest;
    if cp < 0x80 {
    } else if cp < 0x800 {
      assert b[0] == 0xC0 + cp / 64 && b[1] == 0x80 + cp % 64;
      assert (b[0] as int - 0xC0) * 64 + (b[1] as int - 0x80) == cp;
    } else if cp < 0x1_0000 {
      var q1 := cp / 64;
      var q2 := q1 / 64;
      assert b[0] == 0xE0 + q2 && b[1] == 0x80 + q1 % 64 && b[2] == 0x80 + cp % 64;
      assert (b[0] as int - 0xE0) * 4096 + (b[1] as int - 0x80) * 64 + (b[2] as int - 0x80) == cp;
    } else {
      var q1 := cp / 64;
      var q2 := q1 / 64;
      var q3 := q2 / 64;
      assert b[0] == 0xF0 + q3 && b[1] == 0x80 + q2 % 64 && b[2] == 0x80 + q1 % 64 && b[3] == 0x80 + cp % 64;
      assert (b[0] as int - 0xF0) * 262144 + (b[1] as int - 0x80) * 4096 + (b[2] as int - 0x80) * 64 + (b[3] as int - 0x80) == cp;
    }
  }

  /** Splitting off the low six bits of x * 64 + y gives back x and y. */
  lemma SixBits(x: int, y: int)
    requires x >= 0 && 0 <= y < 64
    ensures (x * 64 + y) / 64 == x && (x * 64 + y) % 64 == y
  {
  }

  /** A well-formed sequence decoded by DecodeFirst is exactly the encoding of the character it yields. */
  lemma EncodeCharOfDecodeFirst(b: seq<Byte>)
    requires DecodeFirst(b).Some?
    ensures EncodeChar(DecodeFirst(b).value.0) == b[..DecodeFirst(b).value.1]
  {
    var n := DecodeFirst(b).value.1;
    if n == 2 {
      EncodeTwo(b);
    } else if n == 3 {
      EncodeThree(b);
    } else if n == 4 {
      EncodeFour(b);
    }
  }

  lemma EncodeTwo(b: seq<Byte>)
    requires DecodeFirst(b).Some? && DecodeFirst(b).value.1 == 2
    ensures EncodeChar(DecodeFirst(b).value.0) == b[..2]
  {
    var cp := DecodeFirst(b).value.0 as int;
    var p0, p1 := b[0] as int - 0xC0, b[1] as int - 0x80;
    assert cp == p0 * 64 + p1;
    SixBits(p0, p1);
  }

  lemma EncodeThree(b: seq<Byte>)
    requires DecodeFirst(b).Some? && DecodeFirst(b).value.1 == 3
    ensures EncodeChar(DecodeFirst(b).value.0) == b[..3]
  {
    var cp := DecodeFirst(b).value.0 as int;
    var p0, p1, p2 := b[0] as int - 0xE0, b[1] as int - 0x80, b[2] as int - 0x80;
    assert cp == (p0 * 64 + p1) * 64 + p2;
    SixBits(p0 * 64 + p1, p2);
    SixBits(p0, p1);
  }

  lemma EncodeFour(b: seq<Byte>)
    requires DecodeFirst(b).Some? && DecodeFirst(b).value.1 == 4
    ensures EncodeChar(DecodeFirst(b).value.0) == b[..4]
  {
    var cp := DecodeFirst(b).value.0 as int;
    var p0, p1, p2, p3 := b[0] as int - 0xF0, b[1] as int - 0x80, b[2] as int - 0x80, b[3] as int - 0x80;
    assert cp == ((p0 * 64 + p1) * 64 + p2) * 64 + p3;
    SixBits((p0 * 64 + p1) * 64 + p2, p3);
    SixBits(p0 * 64 + p1, p2);
    SixBits(p0, p1);
  }

  /** Round trip: strict decoding reads back every string's UTF-8 encoding. */
  lemma {:induction false} DecodeEncode(s: string)
    ensures Decode(Encode(s)) == Some(s)
  {
    if s != [] {
      var e := EncodeChar(s[0]);
      var rest := Encode(s[1..]);
      assert Encode(s) == e + rest;
      DecodeFirstOfEncodeChar(s[0], rest);
      assert (e + rest)[|e|..] == rest;
      DecodeEncode(s[1..]);
      assert [s[0]] + s[1..] == s;
    }
  }

  /** Round trip the other way: bytes that decode are the encoding of what they decode to. */
  lemma {:induction false} EncodeDecode(b: seq<Byte>)
    requires Decode(b).Some?
    ensures Encode(Decode(b).value) == b
    decreases |b|
  {
    if b != [] {
      var (c, n) := DecodeFirst(b).value;
      var s := Decode(b[n..]).value;
      assert Decode(b).value == [c] + s;
      EncodeCharOfDecodeFirst(b);
      EncodeDecode(b[n..]);
      assert ([c] + s)[0] == c && ([c] + s)[1..] == s;
      assert b[..n] + b[n..] == b;
    }
  }

  /** An ASCII character occurs in a string exactly when its byte occurs in the string's encoding. */
  lemma {:induction false} AsciiByteOfChar(s: string, c: char)
    requires c as int < 0x80
    ensures c in s <==> c as int in Encode(s)
  {
    if s != [] {
      AsciiByteOfChar(s[1..], c);
      assert Encode(s) == EncodeChar(s[0]) + Encode(s[1..]);
      assert s == [s[0]] + s[1..];
    }
  }
}

/**
 * Base 64 encoding as defined in section 4 of RFC 4648 (the alphabet
 * A-Z a-z 0-9 + /, with "=" padding), which is what Python's
 * `base64.b64encode` produces, together with a strict decoder: it accepts
 * only complete four-character quanta, padding only in the last one, and
 * zero pad bits (the canonical encoding of section 3.5 of RFC 4648).
 */
module Base64 {
  import opened Wrappers
  import opened Bytes

  const Pad: char := '='

  /** The character that stands for the six-bit value d. */
  function Digit(d: int): char
    requires 0 <= d < 64
  {
    if d < 26 then ('A' as int + d) as char
    else if d < 52 then ('a' as int + (d - 26)) as char
    else if d < 62 then ('0' as int + (d - 52)) as char
    else if d == 62 then '+'
    else '/'
  }

  /** The six-bit value an alphabet character stands for; None for every other character, padding included. */
  function DigitValue(c: char): (r: Option<int>)
    ensures r.Some? ==> 0 <= r.value < 64 && Digit(r.value) == c
    ensures c == Pad ==> r.None?
  {
    if 'A' <= c <= 'Z' then Some(c as int - 'A' as int)
    else if 'a' <= c <= 'z' then Some(c as int - 'a' as int + 26)
    else if '0' <= c <= '9' then Some(c as int - '0' as int + 52)
    else if c == '+' then Some(62)
    else if c == '/' then Some(63)
    else None
  }

  predicate IsDigit(c: char) {
    DigitValue(c).Some?
  }

  /** Every six-bit value is read back from its character, so the alphabet has no repeats. */
  lemma DigitValueOfDigit(d: int)
    requires 0 <= d < 64
    ensures DigitValue(Digit(d)) == Some(d)
  {
  }

  /** Three bytes (24 bits) as four characters of six bits each. */
  function EncodeBlock(b0: Byte, b1: Byte, b2: Byte): string {
    [Digit(b0 / 4), Digit(b0 % 4 * 16 + b1 / 16), Digit(b1 % 16 * 4 + b2 / 64), Digit(b2 % 64)]
  }

  /** The encoding of b: whole blocks of three bytes, then one or two leftover bytes padded to four characters. */
  function Encode(b: seq<Byte>): (s: string)
    ensures |s| == 4 * ((|b| + 2) / 3)
    ensures forall i :: 0 <= i < |s| ==> IsDigit(s[i]) || s[i] == Pad
    decreases |b|
  {
    if |b| == 0 then ""
    else if |b| == 1 then [Digit(b[0] / 4), Digit(b[0] % 4 * 16), Pad, Pad]
    else if |b| == 2 then [Digit(b[0] / 4), Digit(b[0] % 4 * 16 + b[1] / 16), Digit(b[1] % 16 * 4), Pad]
    else EncodeBlock(b[0], b[1], b[2]) + Encode(b[3..])
  }

  /** Four alphabet characters as three bytes. */
  function DecodeBlock(c0: char, c1: char, c2: char, c3: char): Option<seq<Byte>> {
    if IsDigit(c0) && IsDigit(c1) && IsDigit(c2) && IsDigit(c3) then
      var d0, d1, d2, d3 := DigitValue(c0).value, DigitValue(c1).value, DigitValue(c2).value, DigitValue(c3).value;
      Some([d0 * 4 + d1 / 16, d1 % 16 * 16 + d2 / 4, d2 % 4 * 64 + d3])
    else None
  }

  /** The last quantum: "xx==" carries one byte, "xxx=" two, "xxxx" three; pad bits must be zero. */
  function DecodeLast(c0: char, c1: char, c2: char, c3: char): Option<seq<Byte>> {
    if c2 == Pad && c3 == Pad then
      if IsDigit(c0) && IsDigit(c1) && DigitValue(c1).value % 16 == 0 then
        Some([DigitValue(c0).value * 4 + DigitValue(c1).value / 16])
      else None
    else if c3 == Pad then
      if IsDigit(c0) && IsDigit(c1) && IsDigit(c2) && DigitValue(c2).value % 4 == 0 then
        var d0, d1, d2 := DigitValue(c0).value, DigitValue(c1).value, DigitValue(c2).value;
        Some([d0 * 4 + d1 / 16, d1 % 16 * 16 + d2 / 4])
      else None
    else DecodeBlock(c0, c1, c2, c3)
  }

  /** The bytes whose encoding is s, or None when s is not a canonical encoding. */
  function Decode(s: string): (r: Option<seq<Byte>>)
    decreases |s|
  {
    if |s| == 0 then Some([])
    else if |s| < 4 then None
    else if |s| == 4 then DecodeLast(s[0], s[1], s[2], s[3])
    else match DecodeBlock(s[0], s[1], s[2], s[3])
      case None => None
      case Some(head) =>
        match Decode(s[4..])
        case None => None
        case Some(tail) => Some(head + tail)
  }

  lemma Split(x: int, y: int, k: int)
    requires k == 4 || k == 16 || k == 64
    requires x >= 0 && 0 <= y < k
    ensures (x * k + y) / k == x && (x * k + y) % k == y
  {
  }

  /** A block of three bytes decodes from its four characters. */
  lemma DecodeEncodeBlock(b0: Byte, b1: Byte, b2: Byte)
    ensures var e := EncodeBlock(b0, b1, b2); DecodeBlock(e[0], e[1], e[2], e[3]) == Some([b0, b1, b2])
  {
    var d0, d1, d2, d3 := b0 / 4, b0 % 4 * 16 + b1 / 16, b1 % 16 * 4 + b2 / 64, b2 % 64;
    DigitValueOfDigit(d0);
    DigitValueOfDigit(d1);
    DigitValueOfDigit(d2);
    DigitValueOfDigit(d3);
    Split(b0 % 4, b1 / 16, 16);
    Split(b1 % 16, b2 / 64, 4);
  }

  /** One leftover byte decodes from its padded quantum. */
  lemma DecodeEncodeOne(b0: Byte)
    ensures Decode(Encode([b0])) == Some([b0])
  {
    DigitValueOfDigit(b0 / 4);
    DigitValueOfDigit(b0 % 4 * 16);
    Split(b0 % 4, 0, 16);
  }

  /** Two leftover bytes decode from their padded quantum. */
  lemma DecodeEncodeTwo(b0: Byte, b1: Byte)
    ensures Decode(Encode([b0, b1])) == Some([b0, b1])
  {
    var s := Encode([b0, b1]);
    DigitValueOfDigit(b0 / 4);
    DigitValueOfDigit(b0 % 4 * 16 + b1 / 16);
    DigitValueOfDigit(b1 % 16 * 4);
    Split(b0 % 4, b1 / 16, 16);
    Split(b1 % 16, 0, 4);
    assert DecodeLast(s[0], s[1], s[2], s[3]) == Some([b0, b1]);
  }

  /** Round trip: decoding the encoding of any byte sequence gives it back. */
  lemma {:induction false} DecodeEncode(b: seq<Byte>)
    ensures Decode(Encode(b)) == Some(b)
    decreases |b|
  {
    if |b| == 1 {
      DecodeEncodeOne(b[0]);
      assert [b[0]] == b;
    } else if |b| == 2 {
      DecodeEncodeTwo(b[0], b[1]);
      assert [b[0], b[1]] == b;
    } else if |b| >= 3 {
      var s := Encode(b);
      var rest := Encode(b[3..]);
      EncodePrefix([b[0], b[1], b[2]], b[3..]);
      assert [b[0], b[1], b[2]] + b[3..] == b;
      assert s == EncodeBlock(b[0], b[1], b[2]) + rest;
      DecodeEncodeBlock(b[0], b[1], b[2]);
      assert DecodeBlock(s[0], s[1], s[2], s[3]) == Some([b[0], b[1], b[2]]);
      if |b| > 3 {
        assert s[4..] == rest;
        DecodeEncode(b[3..]);
      } else {
        DigitValueOfDigit(b[2] % 64);
        assert s == EncodeBlock(b[0], b[1], b[2]);
        assert Decode(s) == DecodeLast(s[0], s[1], s[2], s[3]);
        assert b == [b[0], b[1], b[2]];
      }
    }
  }

  /** Encoding works block by block from the front. */
  lemma EncodePrefix(head: seq<Byte>, tail: seq<Byte>)
    requires |head| == 3
    ensures Encode(head + tail) == EncodeBlock(head[0], head[1], head[2]) + Encode(tail)
  {
    assert (head + tail)[3..] == tail;
  }

  /** Re-encoding the three bytes of a decoded block gives back its four six-bit values. */
  lemma BlockDigits(d0: int, d1: int, d2: int, d3: int)
    requires 0 <= d0 < 64 && 0 <= d1 < 64 && 0 <= d2 < 64 && 0 <= d3 < 64
    ensures var b0, b1, b2 := d0 * 4 + d1 / 16, d1 % 16 * 16 + d2 / 4, d2 % 4 * 64 + d3;
      b0 / 4 == d0 && b0 % 4 * 16 + b1 / 16 == d1 && b1 % 16 * 4 + b2 / 64 == d2 && b2 % 64 == d3
  {
    Split(d0, d1 / 16, 4);
    Split(d1 % 16, d2 / 4, 16);
    Split(d2 % 4, d3, 64);
  }

  /** A decodable block is the encoding of the three bytes it decodes to. */
  lemma DecodeBlockEncodes(c0: char, c1: char, c2: char, c3: char)
    requires DecodeBlock(c0, c1, c2, c3).Some?
    ensures var b := DecodeBlock(c0, c1, c2, c3).value; EncodeBlock(b[0], b[1], b[2]) == [c0, c1, c2, c3]
  {
    BlockDigits(DigitValue(c0).value, DigitValue(c1).value, DigitValue(c2).value, DigitValue(c3).value);
  }

  /** A decodable last quantum is the encoding of the bytes it decodes to. */
  lemma EncodeDecodeLast(c0: char, c1: char, c2: char, c3: char)
    requires DecodeLast(c0, c1, c2, c3).Some?
    ensures Encode(DecodeLast(c0, c1, c2, c3).value) == [c0, c1, c2, c3]
  {
    var b := DecodeLast(c0, c1, c2, c3).value;
    if c2 == Pad && c3 == Pad {
      BlockDigits(DigitValue(c0).value, DigitValue(c1).value, 0, 0);
    } else if c3 == Pad {
      BlockDigits(DigitValue(c0).value, DigitValue(c1).value, DigitValue(c2).value, 0);
    } else {
      DecodeBlockEncodes(c0, c1, c2, c3);
      assert b[3..] == [];
    }
  }

  /** A leading block in front of a re-encodable remainder re-encodes too. */
  lemma EncodeDecodeStep(s: string)
    requires |s| > 4 && Decode(s).Some?
    requires Encode(Decode(s[4..]).value) == s[4..]
    ensures Encode(Decode(s).value) == s
  {
    var head := DecodeBlock(s[0], s[1], s[2], s[3]).value;
    var tail := Decode(s[4..]).value;
    assert Decode(s).value == head + tail;
    DecodeBlockEncodes(s[0], s[1], s[2], s[3]);
    EncodePrefix(head, tail);
    assert s == [s[0], s[1], s[2], s[3]] + s[4..];
  }

  /** Round trip the other way: a string that decodes is the encoding of what it decodes to. */
  lemma {:induction false} EncodeDecode(s: string)
    requires Decode(s).Some?
    ensures Encode(Decode(s).value) == s
    decreases |s|
  {
    if |s| == 4 {
      EncodeDecodeLast(s[0], s[1], s[2], s[3]);
      assert [s[0], s[1], s[2], s[3]] == s;
    } else if |s| > 4 {
      EncodeDecode(s[4..]);
      EncodeDecodeStep(s);
    }
  }
}

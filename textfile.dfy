/**
 * Reading a file the way `open(path, 'r').read()` does under a UTF-8
 * locale: the bytes are decoded strictly as UTF-8 (a malformed file raises
 * UnicodeDecodeError) and universal-newline translation turns every "\r\n"
 * and every lone "\r" into "\n".
 */
module TextFile {
  import opened Wrappers
  import opened Bytes
  import Utf8

  /** Universal newlines: "\r\n" and "\r" both become "\n"; nothing else changes. */
  function TranslateNewlines(s: string): (r: string)
    ensures '\r' !in r
    ensures |r| <= |s|
    ensures '\r' !in s ==> r == s
  {
    if s == [] then ""
    else if s[0] == '\r' && |s| > 1 && s[1] == '\n' then "\n" + TranslateNewlines(s[2..])
    else if s[0] == '\r' then "\n" + TranslateNewlines(s[1..])
    else [s[0]] + TranslateNewlines(s[1..])
  }

  /** The first pass of the reference reading: s.replace("\r\n", "\n"), scanning left to right. */
  function ReplaceCrLf(s: string): (r: string)
    ensures |r| <= |s|
  {
    if s == [] then ""
    else if s[0] == '\r' && |s| > 1 && s[1] == '\n' then "\n" + ReplaceCrLf(s[2..])
    else [s[0]] + ReplaceCrLf(s[1..])
  }

  /** The second pass: s.replace("\r", "\n"), character by character. */
  function CrToLf(s: string): (r: string)
    ensures |r| == |s| && '\r' !in r
    ensures forall i :: 0 <= i < |s| ==> r[i] == (if s[i] == '\r' then '\n' else s[i])
  {
    if s == [] then "" else [if s[0] == '\r' then '\n' else s[0]] + CrToLf(s[1..])
  }

  /** Universal newlines agree with replacing "\r\n" by "\n" and then every remaining "\r" by "\n". */
  lemma {:induction false} TranslateIsReplace(s: string)
    ensures TranslateNewlines(s) == CrToLf(ReplaceCrLf(s))
  {
    if s == [] {
    } else if s[0] == '\r' && |s| > 1 && s[1] == '\n' {
      TranslateIsReplace(s[2..]);
      var rest := ReplaceCrLf(s[2..]);
      assert ("\n" + rest)[0] == '\n' && ("\n" + rest)[1..] == rest;
    } else {
      TranslateIsReplace(s[1..]);
      var rest := ReplaceCrLf(s[1..]);
      assert ([s[0]] + rest)[0] == s[0] && ([s[0]] + rest)[1..] == rest;
    }
  }

  /** The characters of s other than line breaks, in order. */
  function Plain(s: string): string {
    if s == [] then ""
    else if s[0] == '\r' || s[0] == '\n' then Plain(s[1..])
    else [s[0]] + Plain(s[1..])
  }

  /** The number of "\r" in s that are not followed by "\n". */
  function LoneCr(s: string): nat {
    if s == [] then 0
    else (if s[0] == '\r' && !(|s| > 1 && s[1] == '\n') then 1 else 0) + LoneCr(s[1..])
  }

  /** Translation keeps every character that is not a line break, in order. */
  lemma {:induction false} TranslateKeepsText(s: string)
    ensures Plain(TranslateNewlines(s)) == Plain(s)
  {
    if s == [] {
    } else if s[0] == '\r' && |s| > 1 && s[1] == '\n' {
      TranslateKeepsText(s[2..]);
      var rest := TranslateNewlines(s[2..]);
      assert ("\n" + rest)[0] == '\n' && ("\n" + rest)[1..] == rest;
      assert s[1..][0] == '\n' && s[1..][1..] == s[2..];
    } else {
      TranslateKeepsText(s[1..]);
      var rest := TranslateNewlines(s[1..]);
      var c := if s[0] == '\r' then '\n' else s[0];
      assert TranslateNewlines(s) == [c] + rest;
      assert ([c] + rest)[0] == c && ([c] + rest)[1..] == rest;
    }
  }

  /** Translation adds one "\n" for each lone "\r" to the "\n" already there; "\r\n" counts once. */
  lemma {:induction false} TranslateCountsNewlines(s: string)
    ensures multiset(TranslateNewlines(s))['\n'] == multiset(s)['\n'] + LoneCr(s)
  {
    if s == [] {
    } else if s[0] == '\r' && |s| > 1 && s[1] == '\n' {
      TranslateCountsNewlines(s[2..]);
      assert s[1..][0] == '\n' && s[1..][1..] == s[2..];
      assert LoneCr(s) == LoneCr(s[2..]);
      assert s == [s[0], s[1]] + s[2..];
    } else {
      TranslateCountsNewlines(s[1..]);
      var c := if s[0] == '\r' then '\n' else s[0];
      assert TranslateNewlines(s) == [c] + TranslateNewlines(s[1..]);
      assert s == [s[0]] + s[1..];
    }
  }

  /** The text that reading the file with contents raw yields, or None when reading raises. */
  function ReadText(raw: seq<Byte>): Option<string>
  {
    match Utf8.Decode(raw)
    case None => None
    case Some(s) => Some(TranslateNewlines(s))
  }

  /** A well-formed UTF-8 file without carriage returns reads as text whose UTF-8 encoding is the file itself. */
  lemma ReadTextPreservesBytes(raw: seq<Byte>)
    requires Utf8.Decode(raw).Some?
    requires 13 !in raw
    ensures ReadText(raw).Some? && Utf8.Encode(ReadText(raw).value) == raw
  {
    var s := Utf8.Decode(raw).value;
    Utf8.EncodeDecode(raw);
    if '\r' in s {
      Utf8.AsciiByteOfChar(s, '\r');
    }
  }

  /** A file holding a carriage return never reads back as its own bytes: the text has none to re-encode. */
  lemma ReadTextChangesCrFiles(raw: seq<Byte>)
    requires ReadText(raw).Some?
    requires 13 in raw
    ensures Utf8.Encode(ReadText(raw).value) != raw
  {
    Utf8.AsciiByteOfChar(ReadText(raw).value, '\r');
  }

  /** Reading raises exactly when the file is not well-formed UTF-8. */
  lemma ReadTextFails(raw: seq<Byte>)
    ensures ReadText(raw).None? <==> Utf8.Decode(raw).None?
  {
  }

  /** A CRLF line ending does not survive the read: the bytes "\r\n" come back as "\n". */
  lemma CrLfIsTranslated()
    ensures ReadText([13, 10]) == Some("\n")
    ensures Utf8.Encode(ReadText([13, 10]).value) == [10]
  {
    assert Utf8.DecodeFirst([13, 10]) == Some(('\r', 1));
    assert Utf8.DecodeFirst([10]) == Some(('\n', 1));
    assert [13, 10][1..] == [10];
    assert [10][1..] == [];
    assert Utf8.Decode([]) == Some("");
    assert ['\n'] + "" == "\n";
    assert Utf8.Decode([10]) == Some("\n");
  }
}

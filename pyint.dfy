/**
 * The JSON values a request body can carry, and what Python's `int(x)`
 * makes of each: integers stay as they are, booleans are 0 or 1, strings
 * are read as base-10 integer literals, and null, arrays and objects raise
 * TypeError.
 */
module PyInt {
  import opened Wrappers

  /** A JSON value as Python's json module delivers it (numbers restricted to integers). */
  datatype Json =
    | JNull
    | JBool(b: bool)
    | JInt(i: int)
    | JString(s: string)
    | JArray(items: seq<Json>)
    | JObject(fields: map<string, Json>)

  /** The characters str.isspace() accepts, which int() ignores at both ends of a string. */
  predicate IsSpace(c: char) {
    || c == ' '
    || '\t' <= c <= '\r'
    || '\U{1C}' <= c <= '\U{1F}'
    || c == '\U{85}' || c == '\U{A0}' || c == '\U{1680}'
    || '\U{2000}' <= c <= '\U{200A}'
    || c == '\U{2028}' || c == '\U{2029}' || c == '\U{202F}' || c == '\U{205F}' || c == '\U{3000}'
  }

  function TrimStart(s: string): (r: string)
    ensures |r| <= |s| && r == s[|s| - |r|..]
    ensures r == [] || !IsSpace(r[0])
  {
    if s != [] && IsSpace(s[0]) then TrimStart(s[1..]) else s
  }

  function TrimEnd(s: string): (r: string)
    ensures |r| <= |s| && r == s[..|r|]
    ensures r == [] || !IsSpace(r[|r| - 1])
  {
    if s != [] && IsSpace(s[|s| - 1]) then TrimEnd(s[..|s| - 1]) else s
  }

  /** str.strip(): s without the whitespace at either end. */
  function Strip(s: string): string {
    TrimEnd(TrimStart(s))
  }

  predicate IsDecimal(c: char) {
    '0' <= c <= '9'
  }

  /** Decimal digits with single underscores between them: the body of a base-10 integer literal. */
  predicate IsDigitRun(t: string) {
    && |t| > 0
    && IsDecimal(t[0])
    && IsDecimal(t[|t| - 1])
    && forall i :: 0 <= i < |t| ==> IsDecimal(t[i]) || (t[i] == '_' && i + 1 < |t| && IsDecimal(t[i + 1]))
  }

  /** The number the decimal digits of t spell; anything else in t (the underscores of a digit run) is skipped. */
  function DigitsValue(t: string): nat
    decreases |t|
  {
    if t == [] then 0
    else if IsDecimal(t[|t| - 1]) then DigitsValue(t[..|t| - 1]) * 10 + (t[|t| - 1] as int - '0' as int)
    else DigitsValue(t[..|t| - 1])
  }

  /** int(s) for a string s: an optional sign and a digit run, with whitespace around; None where int raises ValueError. */
  function ParseInt(s: string): Option<int> {
    var t := Strip(s);
    if |t| > 0 && (t[0] == '+' || t[0] == '-') then
      if IsDigitRun(t[1..]) then
        Some(if t[0] == '-' then -(DigitsValue(t[1..]) as int) else DigitsValue(t[1..]))
      else None
    else if IsDigitRun(t) then Some(DigitsValue(t))
    else None
  }

  /** int(v) for a JSON value v; None where int raises. */
  function IntOf(v: Json): Option<int> {
    match v
    case JInt(i) => Some(i)
    case JBool(b) => Some(if b then 1 else 0)
    case JString(s) => ParseInt(s)
    case JNull => None
    case JArray(_) => None
    case JObject(_) => None
  }

  /** The decimal digits of n, most significant first, without leading zeros. */
  function ShowNat(n: nat): (s: string)
    ensures |s| > 0
    ensures forall i :: 0 <= i < |s| ==> IsDecimal(s[i])
  {
    if n < 10 then [('0' as int + n) as char]
    else ShowNat(n / 10) + [('0' as int + n % 10) as char]
  }

  /** n in decimal, with a leading "-" when negative: what str(n) gives. */
  function Show(n: int): string {
    if n < 0 then "-" + ShowNat(-n) else ShowNat(n)
  }

  /** The digits ShowNat writes spell n again. */
  lemma {:induction false} DigitsValueOfShowNat(n: nat)
    ensures DigitsValue(ShowNat(n)) == n
  {
    if n >= 10 {
      var s := ShowNat(n);
      assert s[..|s| - 1] == ShowNat(n / 10);
      DigitsValueOfShowNat(n / 10);
    }
  }

  /** int(str(n)) == n: reading back the decimal notation of any integer gives the integer. */
  lemma ParseShow(n: int)
    ensures ParseInt(Show(n)) == Some(n)
  {
    var s := Show(n);
    var digits := ShowNat(if n < 0 then -n else n);
    assert !IsSpace(s[0]) && !IsSpace(s[|s| - 1]);
    assert Strip(s) == s;
    DigitsValueOfShowNat(if n < 0 then -n else n);
    if n < 0 {
      assert s[1..] == digits;
    } else {
      assert s[0] != '+' && s[0] != '-';
    }
  }

  /** What int() makes of each kind of JSON value a client may send as a number of seconds. */
  lemma IntOfJson(n: int)
    ensures IntOf(JInt(n)) == Some(n)
    ensures IntOf(JString(Show(n))) == Some(n)
    ensures IntOf(JBool(true)) == Some(1) && IntOf(JBool(false)) == Some(0)
    ensures IntOf(JNull) == None && IntOf(JString("")) == None
  {
    ParseShow(n);
  }
}

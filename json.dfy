/**
 * The part of `JSON.stringify` the report exporter uses: a string becomes a
 * JSON string literal (section 7 of RFC 8259, with the escapes ECMAScript's
 * QuoteJSONString chooses), a non-negative integer becomes its decimal
 * digits, and `null` becomes the word `null`. Beside it, a reader for the
 * same three kinds of literal, proved to undo the writer.
 */
module Json {
  import opened Common

  /** The field values a suggestion row can hold. */
  datatype Value = Null | Num(n: nat) | Str(s: string)

  /** One lower-case hexadecimal digit, as ECMAScript's UnicodeEscape writes it. */
  function HexDigit(n: nat): char
    requires n < 16
  {
    if n < 10 then ('0' as int + n) as char else ('a' as int + n - 10) as char
  }

  /** The value of one hexadecimal digit of either case. */
  function HexValue(c: char): (r: Option<nat>)
    ensures r.Some? ==> r.value < 16
  {
    if '0' <= c <= '9' then Some(c as int - '0' as int)
    else if 'a' <= c <= 'f' then Some(c as int - 'a' as int + 10)
    else if 'A' <= c <= 'F' then Some(c as int - 'A' as int + 10)
    else None
  }

  /** How QuoteJSONString writes one character of a string. */
  function EscapeChar(c: char): (r: string)
    ensures |r| >= 1
    ensures r[0] == '\\' <==> c < ' ' || c == '"' || c == '\\'
    ensures r[0] != '\\' ==> r == [c]
  {
    if c == '\U{0008}' then "\\b"
    else if c == '\t' then "\\t"
    else if c == '\n' then "\\n"
    else if c == '\U{000C}' then "\\f"
    else if c == '\r' then "\\r"
    else if c == '"' then "\\\""
    else if c == '\\' then "\\\\"
    else if c < ' ' then "\\u00" + [HexDigit(c as int / 16), HexDigit(c as int % 16)]
    else [c]
  }

  /** Every character of a string, escaped. */
  function Escape(s: string): string
    decreases |s|
  {
    if s == [] then [] else EscapeChar(s[0]) + Escape(s[1..])
  }

  /** `JSON.stringify(s)` for a string `s`. */
  function Quote(s: string): string {
    "\"" + Escape(s) + "\""
  }

  predicate IsDigit(c: char) {
    '0' <= c <= '9'
  }

  function DigitChar(d: nat): char
    requires d < 10
  {
    ('0' as int + d) as char
  }

  /** `JSON.stringify(n)` for a non-negative integer `n`: its decimal digits, with no leading zero. */
  function Decimal(n: nat): (r: string)
    ensures |r| >= 1
    ensures r[0] != '0' || n == 0
    decreases n
  {
    if n < 10 then [DigitChar(n)] else Decimal(n / 10) + [DigitChar(n % 10)]
  }

  /** `JSON.stringify(v)`. */
  function Stringify(v: Value): string {
    match v
    case Null => "null"
    case Num(n) => Decimal(n)
    case Str(s) => Quote(s)
  }

  // ---------------------------------------------------------------------------
  // The reader

  /**
   * Decodes the escape sequence that follows a backslash: the character it
   * stands for and how many characters it takes. A `\u` escape naming a
   * surrogate code unit is refused, since a character here is a Unicode
   * scalar value.
   */
  function Unescape(u: string): (r: Option<(char, nat)>)
    ensures r.Some? ==> 1 <= r.value.1 <= |u|
  {
    if u == [] then None
    else if u[0] == '"' || u[0] == '\\' || u[0] == '/' then Some((u[0], 1))
    else if u[0] == 'b' then Some(('\U{0008}', 1))
    else if u[0] == 't' then Some(('\t', 1))
    else if u[0] == 'n' then Some(('\n', 1))
    else if u[0] == 'f' then Some(('\U{000C}', 1))
    else if u[0] == 'r' then Some(('\r', 1))
    else if u[0] == 'u' && |u| >= 5 then
      match (HexValue(u[1]), HexValue(u[2]), HexValue(u[3]), HexValue(u[4]))
      case (Some(a), Some(b), Some(c), Some(d)) =>
        var v := ((a * 16 + b) * 16 + c) * 16 + d;
        if 0xD800 <= v < 0xE000 then None else Some((v as char, 5))
      case _ => None
    else None
  }

  /**
   * Reads the characters of a string literal whose opening quote has been
   * consumed, up to and including the closing quote; yields the decoded text
   * and what follows the literal. A raw control character is refused.
   */
  function ParseChars(t: string): (r: Option<(string, string)>)
    ensures r.Some? ==> |r.value.1| < |t|
    decreases |t|
  {
    if t == [] then None
    else if t[0] == '"' then Some(([], t[1..]))
    else if t[0] == '\\' then
      match Unescape(t[1..])
      case None => None
      case Some((c, n)) =>
        match ParseChars(t[1 + n..])
        case None => None
        case Some((s, rest)) => Some(([c] + s, rest))
    else if t[0] < ' ' then None
    else
      match ParseChars(t[1..])
      case None => None
      case Some((s, rest)) => Some(([t[0]] + s, rest))
  }

  /** The length of the run of digits that starts `t`. */
  function DigitRun(t: string): (k: nat)
    ensures k <= |t|
    ensures forall i :: 0 <= i < k ==> IsDigit(t[i])
    ensures k < |t| ==> !IsDigit(t[k])
    decreases |t|
  {
    if t != [] && IsDigit(t[0]) then 1 + DigitRun(t[1..]) else 0
  }

  /** The number a run of decimal digits denotes. */
  function DigitsValue(d: string): nat
    requires forall i :: 0 <= i < |d| ==> IsDigit(d[i])
    decreases |d|
  {
    if d == [] then 0
    else
      assert IsDigit(d[|d| - 1]);
      DigitsValue(d[..|d| - 1]) * 10 + (d[|d| - 1] as int - '0' as int)
  }

  /** Reads one JSON literal of the three kinds `Stringify` writes; yields it and what follows it. */
  function ParseValue(t: string): (r: Option<(Value, string)>)
    ensures r.Some? ==> |r.value.1| < |t|
  {
    if |t| >= 4 && t[..4] == "null" then Some((Null, t[4..]))
    else if t != [] && t[0] == '"' then
      match ParseChars(t[1..])
      case None => None
      case Some((s, rest)) => Some((Str(s), rest))
    else
      var k := DigitRun(t);
      if k == 0 then None else Some((Num(DigitsValue(t[..k])), t[k..]))
  }

  // ---------------------------------------------------------------------------
  // What the writer produces, and that the reader undoes it

  /** An escaped string holds no control character, so in particular no raw line feed. */
  lemma {:induction false} EscapeHasNoControl(s: string)
    ensures forall i :: 0 <= i < |Escape(s)| ==> Escape(s)[i] >= ' '
    decreases |s|
  {
    if s != [] {
      EscapeHasNoControl(s[1..]);
      var e := EscapeChar(s[0]);
      assert forall i :: 0 <= i < |e| ==> e[i] >= ' ';
      assert Escape(s) == e + Escape(s[1..]);
    }
  }

  /** A stringified value holds no control character and no line feed. */
  lemma StringifyHasNoControl(v: Value)
    ensures forall i :: 0 <= i < |Stringify(v)| ==> Stringify(v)[i] >= ' '
    ensures '\n' !in Stringify(v)
  {
    match v
    case Null =>
    case Num(n) => DecimalDigits(n);
    case Str(s) => EscapeHasNoControl(s);
  }

  lemma HexRoundTrip(n: nat)
    requires n < 16
    ensures HexValue(HexDigit(n)) == Some(n)
  {
  }

  /** Reading an escape sequence `e` followed by `t`, when the part after the backslash decodes to `c`. */
  lemma ParseEscaped(e: string, c: char, t: string)
    requires |e| >= 2 && e[0] == '\\'
    requires Unescape(e[1..] + t) == Some((c, |e| - 1))
    ensures ParseChars(e + t) ==
      match ParseChars(t)
      case None => None
      case Some((s, rest)) => Some(([c] + s, rest))
  {
    assert (e + t)[0] == '\\';
    assert (e + t)[1..] == e[1..] + t;
    assert (e + t)[1 + (|e| - 1)..] == t;
  }

  /** Reading an escaped character followed by more text yields that character in front of what the rest yields. */
  lemma EscapeCharThenParse(c: char, t: string)
    ensures ParseChars(EscapeChar(c) + t) ==
      match ParseChars(t)
      case None => None
      case Some((s, rest)) => Some(([c] + s, rest))
  {
    var e := EscapeChar(c);
    if c == '\U{0008}' || c == '\t' || c == '\n' || c == '\U{000C}' || c == '\r' || c == '"' || c == '\\' {
      assert |e| == 2 && e[0] == '\\';
      assert e[1..] + t == [e[1]] + t;
      ParseEscaped(e, c, t);
    } else if c < ' ' {
      var hi, lo := c as int / 16, c as int % 16;
      HexRoundTrip(hi);
      HexRoundTrip(lo);
      var u := e[1..] + t;
      assert u[..5] == ['u', '0', '0', HexDigit(hi), HexDigit(lo)];
      assert Unescape(u) == Some((c, 5));
      ParseEscaped(e, c, t);
    } else {
      assert e == [c];
      assert (e + t)[1..] == t;
    }
  }

  /** The reader recovers an escaped string and the text after its closing quote. */
  lemma {:induction false} EscapeThenParse(s: string, rest: string)
    ensures ParseChars(Escape(s) + "\"" + rest) == Some((s, rest))
    decreases |s|
  {
    if s == [] {
      assert Escape(s) + "\"" + rest == "\"" + rest;
      assert ("\"" + rest)[1..] == rest;
    } else {
      var tail := Escape(s[1..]) + "\"" + rest;
      assert Escape(s) + "\"" + rest == EscapeChar(s[0]) + tail;
      EscapeThenParse(s[1..], rest);
      EscapeCharThenParse(s[0], tail);
      assert [s[0]] + s[1..] == s;
    }
  }

  /** `Decimal(n)` is a non-empty run of digits denoting `n`. */
  lemma {:induction false} DecimalDigits(n: nat)
    ensures |Decimal(n)| >= 1
    ensures forall i :: 0 <= i < |Decimal(n)| ==> IsDigit(Decimal(n)[i])
    ensures DigitsValue(Decimal(n)) == n
    decreases n
  {
    if n >= 10 {
      DecimalDigits(n / 10);
      var d := Decimal(n);
      assert d[..|d| - 1] == Decimal(n / 10);
    }
  }

  /** The run of digits that starts `d + rest` is `d` itself when `rest` does not start with a digit. */
  lemma DigitRunOfDigits(d: string, rest: string)
    requires forall i :: 0 <= i < |d| ==> IsDigit(d[i])
    requires rest == [] || !IsDigit(rest[0])
    ensures DigitRun(d + rest) == |d|
  {
    var k := DigitRun(d + rest);
    assert forall i :: 0 <= i < |d| ==> (d + rest)[i] == d[i];
    assert rest != [] ==> (d + rest)[|d|] == rest[0];
  }

  /** The reader recovers a quoted string and the text after it. */
  lemma QuoteRoundTrip(s: string, rest: string)
    ensures ParseValue(Quote(s) + rest) == Some((Str(s), rest))
  {
    var t := Quote(s) + rest;
    assert t[0] == '"';
    assert !(|t| >= 4 && t[..4] == "null") by { assert |t| >= 4 ==> t[..4][0] == '"'; }
    assert t[1..] == Escape(s) + "\"" + rest;
    EscapeThenParse(s, rest);
  }

  /** The reader recovers a decimal number when the text after it does not continue it. */
  lemma DecimalRoundTrip(n: nat, rest: string)
    requires rest == [] || !IsDigit(rest[0])
    ensures ParseValue(Decimal(n) + rest) == Some((Num(n), rest))
  {
    DecimalDigits(n);
    var d := Decimal(n);
    var t := d + rest;
    DigitRunOfDigits(d, rest);
    assert t[..|d|] == d && t[|d|..] == rest;
    assert IsDigit(t[0]);
    assert !(|t| >= 4 && t[..4] == "null") by { assert |t| >= 4 ==> t[..4][0] == t[0]; }
  }

  /** Reading back what `Stringify` wrote yields the same value and leaves the text after it, when that text does not continue a number. */
  lemma StringifyRoundTrip(v: Value, rest: string)
    requires rest == [] || !IsDigit(rest[0])
    ensures ParseValue(Stringify(v) + rest) == Some((v, rest))
  {
    match v
    case Null =>
      var t := Stringify(v) + rest;
      assert t[..4] == "null" && t[4..] == rest;
    case Str(s) => QuoteRoundTrip(s, rest);
    case Num(n) => DecimalRoundTrip(n, rest);
  }
}

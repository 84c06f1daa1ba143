/** The part of `JSON.stringify` the pipeline relies on: how a string value
    is quoted and escaped. A decoder for quoted strings is the encoder's
    partner and shows that the encoding loses nothing. */
module Json {
  import opened Wrappers
  import opened Text

  function HexDigit(d: nat): char
    requires d < 16
  {
    "0123456789abcdef"[d]
  }

  predicate IsHex(c: char) {
    '0' <= c <= '9' || 'a' <= c <= 'f' || 'A' <= c <= 'F'
  }

  function HexValue(c: char): (d: nat)
    requires IsHex(c)
    ensures d < 16
  {
    if '0' <= c <= '9' then c as int - '0' as int
    else if 'a' <= c <= 'f' then c as int - 'a' as int + 10
    else c as int - 'A' as int + 10
  }

  lemma HexValueOfDigit(d: nat)
    requires d < 16
    ensures IsHex(HexDigit(d)) && HexValue(HexDigit(d)) == d
  {
  }

  /** A character that `JSON.stringify` copies unchanged into a string
      literal. */
  predicate IsPlain(c: char) {
    c != '"' && c != '\\' && c as int >= 0x20
  }

  /** The escape sequence `JSON.stringify` writes for one character: the
      quote and the backslash are backslash-escaped, the five named control
      characters use their short form, every other control character below
      U+0020 uses `\u00` and two lower-case hex digits, and everything else
      is copied. */
  function EscapeChar(c: char): (r: string)
    ensures IsPlain(c) <==> r == [c]
    ensures '\n' !in r
  {
    if c == '"' then "\\\""
    else if c == '\\' then "\\\\"
    else if c == '\n' then "\\n"
    else if c == '\r' then "\\r"
    else if c == '\t' then "\\t"
    else if c as int == 0x08 then "\\b"
    else if c as int == 0x0C then "\\f"
    else if c as int < 0x20 then "\\u00" + [HexDigit(c as int / 16), HexDigit(c as int % 16)]
    else [c]
  }

  /** The body of a JSON string literal for `s`, without the quotes. */
  function Escape(s: string): string
    decreases |s|
  {
    if |s| == 0 then "" else EscapeChar(s[0]) + Escape(s[1..])
  }

  /** `s` as a JSON string literal, quotes included. */
  function Quote(s: string): string {
    "\"" + Escape(s) + "\""
  }

  /** Decodes the escape sequence at the start of `s`, giving the character
      it denotes and how many characters it spans. */
  function DecodeEscape(s: string): (r: Option<(char, nat)>)
    ensures r.Some? ==> 2 <= r.value.1 <= |s|
  {
    if |s| < 2 || s[0] != '\\' then None
    else if s[1] == '"' then Some(('"', 2))
    else if s[1] == '\\' then Some(('\\', 2))
    else if s[1] == '/' then Some(('/', 2))
    else if s[1] == 'n' then Some(('\n', 2))
    else if s[1] == 'r' then Some(('\r', 2))
    else if s[1] == 't' then Some(('\t', 2))
    else if s[1] == 'b' then Some((0x08 as char, 2))
    else if s[1] == 'f' then Some((0x0C as char, 2))
    else if s[1] == 'u' && |s| >= 6 && IsHex(s[2]) && IsHex(s[3]) && IsHex(s[4]) && IsHex(s[5]) then
      var v := HexValue(s[2]) * 0x1000 + HexValue(s[3]) * 0x100 + HexValue(s[4]) * 0x10 + HexValue(s[5]);
      if 0xD800 <= v < 0xE000 then None else Some((v as char, 6))
    else None
  }

  function Prepend(c: char, r: Option<(string, string)>): Option<(string, string)> {
    match r
    case None => None
    case Some((body, rest)) => Some(([c] + body, rest))
  }

  /** Reads a JSON string literal whose opening quote has already been
      consumed: the decoded contents and what follows the closing quote. */
  function ParseStringContent(s: string): (r: Option<(string, string)>)
    decreases |s|
  {
    if |s| == 0 then None
    else if s[0] == '"' then Some(("", s[1..]))
    else if s[0] == '\\' then
      match DecodeEscape(s)
      case None => None
      case Some((c, n)) => Prepend(c, ParseStringContent(s[n..]))
    else if s[0] as int < 0x20 then None
    else Prepend(s[0], ParseStringContent(s[1..]))
  }

  /** Once the escape sequence `e` at the front decodes to `c`, decoding
      carries on right after it. */
  lemma ParseAfterEscape(e: string, t: string, c: char)
    requires |e| >= 2 && e[0] == '\\' && DecodeEscape(e + t) == Some((c, |e|))
    ensures ParseStringContent(e + t) == Prepend(c, ParseStringContent(t))
  {
    assert (e + t)[|e|..] == t;
  }

  lemma ParseHexEscape(c: char, t: string)
    requires c as int < 0x20 && c != '\n' && c != '\r' && c != '\t' && c as int != 0x08 && c as int != 0x0C
    ensures ParseStringContent(EscapeChar(c) + t) == Prepend(c, ParseStringContent(t))
  {
    var e := EscapeChar(c);
    var s := e + t;
    var hi, lo := c as int / 16, c as int % 16;
    HexValueOfDigit(hi);
    HexValueOfDigit(lo);
    assert s[..6] == e;
    assert DecodeEscape(s) == Some((c, 6));
    ParseAfterEscape(e, t, c);
  }

  lemma ParseEscapedChar(c: char, t: string)
    ensures ParseStringContent(EscapeChar(c) + t) == Prepend(c, ParseStringContent(t))
  {
    var e := EscapeChar(c);
    var s := e + t;
    if IsPlain(c) {
      assert s[1..] == t;
    } else if c as int < 0x20 && c != '\n' && c != '\r' && c != '\t' && c as int != 0x08 && c as int != 0x0C {
      ParseHexEscape(c, t);
    } else {
      assert |e| == 2 && e[0] == '\\' && s[..2] == e;
      assert DecodeEscape(s) == Some((c, 2));
      ParseAfterEscape(e, t, c);
    }
  }

  /** Decoding an encoded string gives back exactly the string, and the
      decoder stops right after the closing quote. */
  lemma {:induction false} ParseQuoted(x: string, rest: string)
    ensures ParseStringContent(Escape(x) + "\"" + rest) == Some((x, rest))
    decreases |x|
  {
    if |x| == 0 {
      assert Escape(x) + "\"" + rest == "\"" + rest;
      assert ("\"" + rest)[1..] == rest;
    } else {
      var tail := Escape(x[1..]) + "\"" + rest;
      assert Escape(x) + "\"" + rest == EscapeChar(x[0]) + tail;
      ParseEscapedChar(x[0], tail);
      ParseQuoted(x[1..], rest);
      assert [x[0]] + x[1..] == x;
    }
  }

  /** Distinct strings have distinct encodings. */
  lemma QuoteInjective(x: string, y: string)
    requires Quote(x) == Quote(y)
    ensures x == y
  {
    QuoteDecodes(x);
    QuoteDecodes(y);
  }

  lemma QuoteDecodes(x: string)
    ensures |Quote(x)| > 0 && ParseStringContent(Quote(x)[1..]) == Some((x, ""))
  {
    ParseQuoted(x, "");
    assert Escape(x) + "\"" + "" == Quote(x)[1..];
  }

  /** An encoded string never contains a raw line feed, so it can sit on
      one line of a JSONL text. */
  lemma {:induction false} EscapeHasNoLineFeed(s: string)
    ensures '\n' !in Escape(s)
    decreases |s|
  {
    if |s| > 0 {
      EscapeHasNoLineFeed(s[1..]);
    }
  }

  /** A string made only of plain characters is copied verbatim. */
  lemma {:induction false} EscapePlain(s: string)
    requires forall i :: 0 <= i < |s| ==> IsPlain(s[i])
    ensures Escape(s) == s
    decreases |s|
  {
    if |s| > 0 {
      EscapePlain(s[1..]);
      assert [s[0]] + s[1..] == s;
    }
  }

  /** Reads the field that starts `s` with key text `key` (which ends with
      the value's opening quote): its decoded value and what follows. */
  function ReadField(s: string, key: string): Option<(string, string)> {
    if StartsWith(s, key) then ParseStringContent(s[|key|..]) else None
  }

  /** A key text followed by an encoded string value and its closing quote. */
  function WriteField(key: string, x: string): string {
    key + Escape(x) + "\""
  }

  lemma ReadWrittenField(key: string, x: string, rest: string)
    ensures ReadField(WriteField(key, x) + rest, key) == Some((x, rest))
  {
    var s := WriteField(key, x) + rest;
    assert s[..|key|] == key;
    assert s[|key|..] == Escape(x) + "\"" + rest;
    ParseQuoted(x, rest);
  }

  lemma WriteFieldIsOneLine(key: string, x: string)
    requires '\n' !in key
    ensures '\n' !in WriteField(key, x)
  {
    EscapeHasNoLineFeed(x);
    assert forall ch :: ch in WriteField(key, x) ==> ch in key || ch in Escape(x) || ch == '"';
  }

  /** A value that needs no escaping appears verbatim in its field. */
  lemma WriteFieldShowsPlainValue(key: string, x: string, rest: string)
    requires forall i :: 0 <= i < |x| ==> IsPlain(x[i])
    ensures IsInfix(x, WriteField(key, x) + rest)
  {
    EscapePlain(x);
    InfixOfSandwich(key, x, "\"" + rest);
    assert key + x + ("\"" + rest) == WriteField(key, x) + rest;
  }
}

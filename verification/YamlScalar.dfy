/**
 YAML double-quoted scalars: the writer the renderer uses, and an independent reader after YAML 1.2.2
 (double-quoted style of section 7.3.1, escapes of section 5.7). A char is a Unicode code point.
 */
module YamlScalar {
  import opened Text

  // ---- writing ----

  function HexDigit(n: int): char
    requires 0 <= n < 16
  {
    "0123456789abcdef"[n]
  }

  function Hex2(n: int): string
    requires 0 <= n < 256
  {
    [HexDigit(n / 16), HexDigit(n % 16)]
  }

  predicate Separator(c: char) { c == '\U{2028}' || c == '\U{2029}' }

  predicate Control(c: char) { c as int < 0x20 || c as int == 0x7f || c as int == 0x85 }

  /** What must never appear literally in a rendered line. */
  predicate YamlControl(c: char) { Control(c) || Separator(c) }

  function Escape(c: char): string {
    if c == '"' then "\\\""
    else if c == '\\' then "\\\\"
    else if c == '\n' then "\\n"
    else if c == '\r' then "\\r"
    else if c == '\t' then "\\t"
    else if Separator(c) then "\\u" + Hex2(c as int / 256) + Hex2(c as int % 256)
    else if Control(c) then "\\x" + Hex2(c as int)
    else [c]
  }

  function EscapeAll(v: string): string {
    if v == "" then "" else Escape(v[0]) + EscapeAll(v[1..])
  }

  function Quoted(v: string): string { "\"" + EscapeAll(v) + "\"" }

  lemma {:induction false} EscapeAppend(v: string, c: char)
    ensures EscapeAll(v + [c]) == EscapeAll(v) + Escape(c)
  {
    if v == "" {
      assert v + [c] == [c];
      assert EscapeAll([c][1..]) == "";
    } else {
      assert (v + [c])[1..] == v[1..] + [c];
      EscapeAppend(v[1..], c);
      Associate(Escape(v[0]), EscapeAll(v[1..]), Escape(c));
    }
  }

  /** `quoteYAML`. */
  method QuoteYaml(v: string) returns (out: string)
    ensures out == Quoted(v)
  {
    out := "\"";
    for i := 0 to |v|
      invariant out == "\"" + EscapeAll(v[..i])
    {
      var r := v[i];
      assert v[..i + 1] == v[..i] + [r];
      EscapeAppend(v[..i], r);
      Associate("\"", EscapeAll(v[..i]), Escape(r));
      if r == '"' {
        out := out + "\\\"";
      } else if r == '\\' {
        out := out + "\\\\";
      } else if r == '\n' {
        out := out + "\\n";
      } else if r == '\r' {
        out := out + "\\r";
      } else if r == '\t' {
        out := out + "\\t";
      } else if Separator(r) {
        out := out + ("\\u" + Hex2(r as int / 256) + Hex2(r as int % 256));
      } else if Control(r) {
        out := out + ("\\x" + Hex2(r as int));
      } else {
        out := out + [r];
      }
    }
    assert v[..|v|] == v;
    out := out + "\"";
  }

  // ---- reading ----

  datatype Reading = Read(value: string, rest: string) | Malformed

  /** The value of a hexadecimal digit, or -1. */
  function HexValue(c: char): (n: int)
    ensures -1 <= n < 16
  {
    if '0' <= c <= '9' then c as int - '0' as int
    else if 'a' <= c <= 'f' then c as int - 'a' as int + 10
    else if 'A' <= c <= 'F' then c as int - 'A' as int + 10
    else -1
  }

  /** The number that the digits of a string denote, or -1. */
  function HexNumber(s: string): (n: int)
    ensures n >= -1
    decreases |s|
  {
    if s == "" then 0
    else
      var front, last := HexNumber(s[..|s| - 1]), HexValue(s[|s| - 1]);
      if front < 0 || last < 0 then -1 else front * 16 + last
  }

  /** Code points are what is not a surrogate, up to 10FFFF. */
  predicate CodePoint(n: int) { 0 <= n < 0xD800 || 0xE000 <= n < 0x11_0000 }

  /** A literal character of a double-quoted line: a tab or anything from the space up, but no quote or backslash. */
  predicate Literal(c: char) { (c == '\t' || c as int >= 0x20) && c != '"' && c != '\\' }

  /** The one-letter escapes. */
  function Simple(c: char): (code: int)
    ensures code == -1 || CodePoint(code)
  {
    match c
    case '0' => 0x00
    case 'a' => 0x07
    case 'b' => 0x08
    case 't' => 0x09
    case '\t' => 0x09
    case 'n' => 0x0A
    case 'v' => 0x0B
    case 'f' => 0x0C
    case 'r' => 0x0D
    case 'e' => 0x1B
    case ' ' => 0x20
    case '"' => 0x22
    case '/' => 0x2F
    case '\\' => 0x5C
    case 'N' => 0x85
    case '_' => 0xA0
    case 'L' => 0x2028
    case 'P' => 0x2029
    case _ => -1
  }

  /** How many hexadecimal digits an escape letter announces. */
  function Width(c: char): nat {
    if c == 'x' then 2 else if c == 'u' then 4 else if c == 'U' then 8 else 0
  }

  /** One character in front of a reading. */
  function Prepend(code: int, tail: Reading): Reading
    requires CodePoint(code)
  {
    match tail
    case Malformed => Malformed
    case Read(value, rest) => Read([code as char] + value, rest)
  }

  /** The body of a double-quoted line up to its closing quote. */
  function ReadBody(s: string): Reading
    decreases |s|
  {
    if s == "" then Malformed
    else if s[0] == '"' then Read("", s[1..])
    else if s[0] == '\\' then
      if |s| < 2 then Malformed
      else if Simple(s[1]) >= 0 then Prepend(Simple(s[1]), ReadBody(s[2..]))
      else
        var width := Width(s[1]);
        if width == 0 || |s| < 2 + width then Malformed
        else
          var code := HexNumber(s[2..2 + width]);
          if CodePoint(code) then Prepend(code, ReadBody(s[2 + width..])) else Malformed
    else if Literal(s[0]) then Prepend(s[0] as int, ReadBody(s[1..]))
    else Malformed
  }

  function ReadScalar(s: string): Reading {
    if s != "" && s[0] == '"' then ReadBody(s[1..]) else Malformed
  }

  // ---- the round trip ----

  lemma HexRoundTrip(n: int)
    requires 0 <= n < 256
    ensures HexNumber(Hex2(n)) == n
  {
    var s := Hex2(n);
    assert HexValue(HexDigit(n / 16)) == n / 16 && HexValue(HexDigit(n % 16)) == n % 16;
    assert s[..1] == [s[0]] && s[..1][..0] == "";
    assert HexNumber(s[..1]) == HexNumber("") * 16 + n / 16;
  }

  lemma HexAppend(s: string, n: int)
    requires HexNumber(s) >= 0 && 0 <= n < 16
    ensures HexNumber(s + [HexDigit(n)]) == HexNumber(s) * 16 + n
  {
    var t := s + [HexDigit(n)];
    assert t[..|t| - 1] == s && HexValue(HexDigit(n)) == n;
  }

  lemma HexFour(a: int, b: int)
    requires 0 <= a < 256 && 0 <= b < 256
    ensures HexNumber(Hex2(a) + Hex2(b)) == a * 256 + b
  {
    HexRoundTrip(a);
    HexAppend(Hex2(a), b / 16);
    HexAppend(Hex2(a) + [HexDigit(b / 16)], b % 16);
    assert Hex2(a) + Hex2(b) == Hex2(a) + [HexDigit(b / 16)] + [HexDigit(b % 16)];
  }

  /** A four-digit escape. */
  lemma ReadUnicode(digits: string, rest: string)
    requires |digits| == 4 && CodePoint(HexNumber(digits))
    ensures ReadBody("\\u" + digits + rest) == Prepend(HexNumber(digits), ReadBody(rest))
  {
    var s := "\\u" + digits + rest;
    assert s[2..6] == digits && s[6..] == rest;
    assert Simple('u') == -1 && Width('u') == 4;
  }

  lemma ReadWide(c: char, rest: string)
    requires Separator(c)
    ensures ReadBody(Escape(c) + rest) == Prepend(c as int, ReadBody(rest))
  {
    var a, b := c as int / 256, c as int % 256;
    HexFour(a, b);
    assert Escape(c) == "\\u" + (Hex2(a) + Hex2(b));
    ReadUnicode(Hex2(a) + Hex2(b), rest);
  }

  lemma ReadNarrow(c: char, rest: string)
    requires Control(c) && c != '\n' && c != '\r' && c != '\t'
    ensures ReadBody(Escape(c) + rest) == Prepend(c as int, ReadBody(rest))
  {
    var s := Escape(c) + rest;
    HexRoundTrip(c as int);
    assert s[2..4] == Hex2(c as int) && s[4..] == rest;
  }

  /** Reading one escaped character gives the character back and goes on behind it. */
  lemma ReadEscape(c: char, rest: string)
    ensures ReadBody(Escape(c) + rest) == Prepend(c as int, ReadBody(rest))
  {
    var s := Escape(c) + rest;
    if Separator(c) {
      ReadWide(c, rest);
    } else if Control(c) && c != '\n' && c != '\r' && c != '\t' {
      ReadNarrow(c, rest);
    } else if |Escape(c)| == 2 {
      assert s[2..] == rest;
    } else {
      assert s[1..] == rest;
    }
  }

  lemma {:induction false} BodyRoundTrip(v: string, rest: string)
    ensures ReadBody(EscapeAll(v) + "\"" + rest) == Read(v, rest)
  {
    if v == "" {
      assert EscapeAll(v) + "\"" + rest == "\"" + rest;
    } else {
      BodyRoundTrip(v[1..], rest);
      Regroup(Escape(v[0]), EscapeAll(v[1..]), "\"", rest);
      ReadEscape(v[0], EscapeAll(v[1..]) + "\"" + rest);
      assert v == [v[0]] + v[1..];
    }
  }

  /** For every text and every continuation, the reader gives back exactly the text and leaves exactly the rest. */
  lemma QuoteRoundTrip(v: string, rest: string)
    ensures ReadScalar(Quoted(v) + rest) == Read(v, rest)
  {
    BodyRoundTrip(v, rest);
    assert (Quoted(v) + rest)[1..] == EscapeAll(v) + "\"" + rest;
  }

  // ---- what a quoted scalar holds ----

  lemma EscapeOneLine(c: char, i: nat)
    requires i < |Escape(c)|
    ensures !YamlControl(Escape(c)[i])
  {
    var s := Escape(c);
    if Separator(c) {
      HexIsPlain(c as int / 256);
      HexIsPlain(c as int % 256);
    } else if Control(c) && |s| == 4 {
      HexIsPlain(c as int);
    }
  }

  lemma HexIsPlain(n: int)
    requires 0 <= n < 256
    ensures forall i :: 0 <= i < 2 ==> '0' <= Hex2(n)[i] <= '9' || 'a' <= Hex2(n)[i] <= 'f'
  {
  }

  /** The scalar stays on one line and holds no control character. */
  lemma {:induction false} EscapedOneLine(v: string, i: nat)
    requires i < |EscapeAll(v)|
    ensures !YamlControl(EscapeAll(v)[i])
  {
    var n := |Escape(v[0])|;
    if i < n {
      EscapeOneLine(v[0], i);
    } else {
      EscapedOneLine(v[1..], i - n);
    }
  }

  lemma QuotedOneLine(v: string, i: nat)
    requires i < |Quoted(v)|
    ensures !YamlControl(Quoted(v)[i])
  {
    if 0 < i < |Quoted(v)| - 1 {
      EscapedOneLine(v, i - 1);
    }
  }
}

/** How string values are written out as text: the string literals of
    encoding/json (the schema compiler marshals its result with them) and
    strconv.Quote (what fmt's %q verb writes into the system instruction).
    Each comes with the decoder that reads it back, and the proof that
    decoding undoes encoding. */
module Escaping {
  import opened Wrappers

  function Prepend(c: char, o: Option<string>): Option<string> {
    match o
    case None => None
    case Some(s) => Some([c] + s)
  }

  // ---------------------------------------------------------------------
  // Hexadecimal digits

  function Pow16(n: nat): (p: nat)
    ensures p >= 1
  {
    if n == 0 then 1 else 16 * Pow16(n - 1)
  }

  lemma Pow16Values()
    ensures Pow16(2) == 0x100 && Pow16(4) == 0x1_0000
  {
    assert Pow16(1) == 16;
    assert Pow16(3) == 0x1000;
  }

  /** A lower-case hexadecimal digit, as both packages write them. */
  function HexDigit(d: nat): char
    requires d < 16
  {
    if d < 10 then (d + '0' as int) as char else (d - 10 + 'a' as int) as char
  }

  /** The value of one hexadecimal digit of either case. */
  function HexValue(c: char): (v: Option<nat>)
    ensures v.Some? ==> v.value < 16
  {
    if '0' <= c <= '9' then Some(c as int - '0' as int)
    else if 'a' <= c <= 'f' then Some(c as int - 'a' as int + 10)
    else if 'A' <= c <= 'F' then Some(c as int - 'A' as int + 10)
    else None
  }

  /** The value of a run of hexadecimal digits, most significant first. */
  function ParseHex(s: string): (v: Option<nat>)
    ensures v.Some? ==> v.value < Pow16(|s|)
  {
    if s == [] then Some(0)
    else
      match (ParseHex(s[..|s| - 1]), HexValue(s[|s| - 1]))
      case (Some(h), Some(d)) => Some(h * 16 + d)
      case _ => None
  }

  /** `n` written as exactly `width` lower-case hexadecimal digits. */
  function Hex(n: nat, width: nat): (s: string)
    ensures |s| == width
  {
    if width == 0 then [] else Hex(n / 16, width - 1) + [HexDigit(n % 16)]
  }

  /** Reading back `width` digits gives the number written. */
  lemma {:induction false} ParseHexOfHex(n: nat, width: nat)
    requires n < Pow16(width)
    ensures ParseHex(Hex(n, width)) == Some(n)
  {
    if width > 0 {
      var q, d := DigitSplit(n, width);
      ParseHexOfHex(q, width - 1);
      var s := Hex(n, width);
      assert s[..|s| - 1] == Hex(q, width - 1);
      assert s[|s| - 1] == HexDigit(d);
      assert HexValue(HexDigit(d)) == Some(d);
    }
  }

  /** The leading digits and the last digit of a number of `width` digits. */
  lemma DigitSplit(n: nat, width: nat) returns (q: nat, d: nat)
    requires 0 < width && n < Pow16(width)
    ensures q == n / 16 && d == n % 16 && q * 16 + d == n && q < Pow16(width - 1) && d < 16
  {
    q, d := n / 16, n % 16;
    assert Pow16(width) == 16 * Pow16(width - 1);
  }

  // ---------------------------------------------------------------------
  // encoding/json string literals

  /** What encoding/json writes for one character inside a string literal,
      with HTML escaping on, as json.Marshal has it: the quote and the
      backslash are backslashed, five control characters get short escapes,
      the other control characters, `<`, `>`, `&`, U+2028 and U+2029 are
      written as a \u escape of four lower-case hexadecimal digits, and
      everything else stands for itself. */
  function JsonEscapeChar(c: char): string {
    if c == '"' || c == '\\' then ['\\', c]
    else if c == '\U{0008}' then "\\b"
    else if c == '\U{000C}' then "\\f"
    else if c == '\n' then "\\n"
    else if c == '\r' then "\\r"
    else if c == '\t' then "\\t"
    else if c < ' ' || c == '<' || c == '>' || c == '&' || c == '\U{2028}' || c == '\U{2029}' then
      "\\u" + Hex(c as nat, 4)
    else [c]
  }

  function JsonEscape(s: string): string {
    if s == [] then [] else JsonEscapeChar(s[0]) + JsonEscape(s[1..])
  }

  /** A JSON string literal, quotes included, as json.Marshal writes it. */
  function JsonString(s: string): string {
    "\"" + JsonEscape(s) + "\""
  }

  /** A character json.Marshal writes as itself. */
  predicate JsonAsItself(c: char) {
    ' ' <= c && c != '"' && c != '\\' && c != '<' && c != '>' && c != '&'
    && c != '\U{2028}' && c != '\U{2029}'
  }

  /** A string with nothing to escape becomes a literal by adding quotes. */
  lemma {:induction false} JsonStringPlain(s: string)
    requires forall i :: 0 <= i < |s| ==> JsonAsItself(s[i])
    ensures JsonEscape(s) == s
    ensures JsonString(s) == "\"" + s + "\""
  {
    if s != [] {
      JsonStringPlain(s[1..]);
      assert s == [s[0]] + s[1..];
    }
  }

  /** The character a one-letter JSON escape stands for. */
  function JsonShortEscape(e: char): Option<char> {
    if e == '"' || e == '\\' || e == '/' then Some(e)
    else if e == 'b' then Some('\U{0008}')
    else if e == 'f' then Some('\U{000C}')
    else if e == 'n' then Some('\n')
    else if e == 'r' then Some('\r')
    else if e == 't' then Some('\t')
    else None
  }

  /** The characters the body of a JSON string literal stands for, as a JSON
      decoder reads them; None when the body is malformed (a bare quote or
      control character, or a broken escape). Surrogate-pair escapes are
      not decoded. */
  function JsonUnescape(t: string): Option<string>
    decreases |t|
  {
    if t == [] then Some([])
    else if t[0] == '\\' then
      if |t| < 2 then None
      else if t[1] == 'u' then
        if |t| < 6 then None
        else
          match ParseHex(t[2..6])
          case None => None
          case Some(v) =>
            Pow16Values();
            if 0xD800 <= v < 0xE000 then None
            else Prepend(v as char, JsonUnescape(t[6..]))
      else
        match JsonShortEscape(t[1])
        case None => None
        case Some(c) => Prepend(c, JsonUnescape(t[2..]))
    else if t[0] == '"' || t[0] < ' ' then None
    else Prepend(t[0], JsonUnescape(t[1..]))
  }

  lemma JsonUnescapeChar(c: char, rest: string)
    ensures JsonUnescape(JsonEscapeChar(c) + rest) == Prepend(c, JsonUnescape(rest))
  {
    var t := JsonEscapeChar(c) + rest;
    if c < ' ' || c == '<' || c == '>' || c == '&' || c == '\U{2028}' || c == '\U{2029}' {
      if !(c == '\U{0008}' || c == '\U{000C}' || c == '\n' || c == '\r' || c == '\t') {
        assert t[2..6] == Hex(c as nat, 4);
        ParseHexOfHex(c as nat, 4);
        assert t[6..] == rest;
      }
    }
  }

  /** Decoding a literal's body gives back exactly the string encoded. */
  lemma {:induction false} JsonUnescapeEscape(s: string)
    ensures JsonUnescape(JsonEscape(s)) == Some(s)
  {
    if s != [] {
      calc {
        JsonUnescape(JsonEscape(s));
        JsonUnescape(JsonEscapeChar(s[0]) + JsonEscape(s[1..]));
        { JsonUnescapeChar(s[0], JsonEscape(s[1..])); }
        Prepend(s[0], JsonUnescape(JsonEscape(s[1..])));
        { JsonUnescapeEscape(s[1..]); }
        Prepend(s[0], Some(s[1..]));
        { assert s == [s[0]] + s[1..]; }
        Some(s);
      }
    }
  }

  /** Distinct strings give distinct JSON literals. */
  lemma JsonStringInjective(s: string, t: string)
    requires JsonString(s) == JsonString(t)
    ensures s == t
  {
    var a, b := JsonString(s), JsonString(t);
    assert JsonEscape(s) == a[1..|a| - 1];
    assert JsonEscape(t) == b[1..|b| - 1];
    JsonUnescapeEscape(s);
    JsonUnescapeEscape(t);
  }

  // ---------------------------------------------------------------------
  // strconv.Quote, the %q verb of fmt

  /** strconv.IsPrint, exact on ASCII and Latin-1 (only U+00AD and the C1
      controls are unprintable there); every code point above U+00FF is
      taken as printable. */
  predicate IsPrint(c: char) {
    (' ' <= c <= '~') || ('\U{00A1}' <= c && c != '\U{00AD}')
  }

  /** What strconv.Quote writes for one character between its quotes. */
  function QuoteChar(c: char): string {
    if c == '"' || c == '\\' then ['\\', c]
    else if IsPrint(c) then [c]
    else if c == '\U{0007}' then "\\a"
    else if c == '\U{0008}' then "\\b"
    else if c == '\U{000C}' then "\\f"
    else if c == '\n' then "\\n"
    else if c == '\r' then "\\r"
    else if c == '\t' then "\\t"
    else if c == '\U{000B}' then "\\v"
    else if c < ' ' || c == '\U{007F}' then "\\x" + Hex(c as nat, 2)
    else "\\u" + Hex(c as nat, 4)
  }

  function QuoteBody(s: string): string {
    if s == [] then [] else QuoteChar(s[0]) + QuoteBody(s[1..])
  }

  /** strconv.Quote: a double-quoted Go string literal. */
  function Quote(s: string): string {
    "\"" + QuoteBody(s) + "\""
  }

  function QuoteShortEscape(e: char): Option<char> {
    if e == '"' || e == '\\' then Some(e)
    else if e == 'a' then Some('\U{0007}')
    else if e == 'b' then Some('\U{0008}')
    else if e == 'f' then Some('\U{000C}')
    else if e == 'n' then Some('\n')
    else if e == 'r' then Some('\r')
    else if e == 't' then Some('\t')
    else if e == 'v' then Some('\U{000B}')
    else None
  }

  /** The characters the body of a double-quoted Go literal stands for, as
      strconv.Unquote reads the escapes Quote writes; None when malformed. */
  function Unquote(t: string): Option<string>
    decreases |t|
  {
    if t == [] then Some([])
    else if t[0] == '\\' then
      if |t| < 2 then None
      else if t[1] == 'x' then
        if |t| < 4 then None
        else
          match ParseHex(t[2..4])
          case None => None
          case Some(v) => if v < 0x80 then Prepend(v as char, Unquote(t[4..])) else None
      else if t[1] == 'u' then
        if |t| < 6 then None
        else
          match ParseHex(t[2..6])
          case None => None
          case Some(v) =>
            Pow16Values();
            if 0xD800 <= v < 0xE000 then None
            else Prepend(v as char, Unquote(t[6..]))
      else
        match QuoteShortEscape(t[1])
        case None => None
        case Some(c) => Prepend(c, Unquote(t[2..]))
    else if t[0] == '"' || t[0] == '\n' then None
    else Prepend(t[0], Unquote(t[1..]))
  }

  lemma UnquoteChar(c: char, rest: string)
    ensures Unquote(QuoteChar(c) + rest) == Prepend(c, Unquote(rest))
  {
    var t := QuoteChar(c) + rest;
    if !(c == '"' || c == '\\' || IsPrint(c)) {
      if c < ' ' || c == '\U{007F}' {
        if !(c == '\U{0007}' || c == '\U{0008}' || c == '\U{000C}' || c == '\n'
             || c == '\r' || c == '\t' || c == '\U{000B}') {
          assert t[2..4] == Hex(c as nat, 2);
          ParseHexOfHex(c as nat, 2);
          assert t[4..] == rest;
        }
      } else {
        assert t[2..6] == Hex(c as nat, 4);
        ParseHexOfHex(c as nat, 4);
        assert t[6..] == rest;
      }
    }
  }

  /** Unquoting what Quote wrote between its quotes gives back the string. */
  lemma {:induction false} UnquoteQuote(s: string)
    ensures Unquote(QuoteBody(s)) == Some(s)
  {
    if s != [] {
      UnquoteQuote(s[1..]);
      UnquoteChar(s[0], QuoteBody(s[1..]));
      assert s == [s[0]] + s[1..];
    }
  }

  /** A character Quote writes as itself. */
  predicate QuotesAsItself(c: char) {
    IsPrint(c) && c != '"' && c != '\\'
  }

  /** A string with nothing to escape is quoted by just adding quotes. */
  lemma {:induction false} QuotePlain(s: string)
    requires forall i :: 0 <= i < |s| ==> QuotesAsItself(s[i])
    ensures QuoteBody(s) == s
    ensures Quote(s) == "\"" + s + "\""
  {
    if s != [] {
      QuotePlain(s[1..]);
      assert s == [s[0]] + s[1..];
    }
  }
}

/** The escapers for generated string literals: escape_string_literal and escape_attr_value
    (aot_string_transformer.rs) and json_quote (jsx_transformer.rs), each a chain of replacements over the whole text.
    Their partner is a reader of string literals after section 12.9.4 of ECMA-262. */
module JsString {
  import opened Common

  /** Replacing a character everywhere. */
  function ReplaceAll(s: string, c: char, rep: string): string {
    if s == "" then "" else (if s[0] == c then rep else [s[0]]) + ReplaceAll(s[1..], c, rep)
  }

  function EscapeStringLiteral(text: string): string {
    var a := ReplaceAll(text, '\\', "\\\\");
    var b := ReplaceAll(a, '\'', "\\'");
    var c := ReplaceAll(b, '\n', "\\n");
    ReplaceAll(c, '\r', "\\r")
  }

  function EscapeAttrValue(value: string): string {
    var a := ReplaceAll(value, '\\', "\\\\");
    var b := ReplaceAll(a, '\'', "\\'");
    ReplaceAll(b, '\n', "\\n")
  }

  function EscapeJson(s: string): string {
    var a := ReplaceAll(s, '\\', "\\\\");
    var b := ReplaceAll(a, '"', "\\\"");
    var c := ReplaceAll(b, '\n', "\\n");
    var d := ReplaceAll(c, '\r', "\\r");
    ReplaceAll(d, '\t', "\\t")
  }

  function JsonQuote(s: string): string {
    "\"" + EscapeJson(s) + "\""
  }

  // ------------------------------------------------------------------------------------------
  // A chain of replacements is one map over the characters
  // ------------------------------------------------------------------------------------------

  ghost function PerChar(s: string, f: char -> string): string {
    if s == "" then "" else f(s[0]) + PerChar(s[1..], f)
  }

  lemma {:induction false} ReplaceAllConcat(a: string, b: string, c: char, rep: string)
    ensures ReplaceAll(a + b, c, rep) == ReplaceAll(a, c, rep) + ReplaceAll(b, c, rep)
  {
    if a == "" {
      assert a + b == b;
    } else {
      assert (a + b)[1..] == a[1..] + b;
      ReplaceAllConcat(a[1..], b, c, rep);
    }
  }

  /** Replacing after a map over the characters is a map over the characters. */
  lemma {:induction false} ReplaceAfterMap(s: string, f: char -> string, g: char -> string, c: char, rep: string)
    requires forall x :: g(x) == ReplaceAll(f(x), c, rep)
    ensures ReplaceAll(PerChar(s, f), c, rep) == PerChar(s, g)
  {
    if s != "" {
      ReplaceAllConcat(f(s[0]), PerChar(s[1..], f), c, rep);
      ReplaceAfterMap(s[1..], f, g, c, rep);
    }
  }

  lemma {:induction false} ReplaceIsMap(s: string, g: char -> string, c: char, rep: string)
    requires forall x :: g(x) == if x == c then rep else [x]
    ensures ReplaceAll(s, c, rep) == PerChar(s, g)
  {
    if s != "" { ReplaceIsMap(s[1..], g, c, rep); }
  }

  function LiteralChar(c: char): string {
    if c == '\\' then "\\\\" else if c == '\'' then "\\'" else if c == '\n' then "\\n" else if c == '\r' then "\\r" else [c]
  }

  function AttrChar(c: char): string {
    if c == '\\' then "\\\\" else if c == '\'' then "\\'" else if c == '\n' then "\\n" else [c]
  }

  function JsonChar(c: char): string {
    if c == '\\' then "\\\\" else if c == '"' then "\\\"" else if c == '\n' then "\\n"
    else if c == '\r' then "\\r" else if c == '\t' then "\\t" else [c]
  }

  function Backslash(c: char): string { if c == '\\' then "\\\\" else [c] }

  lemma OneReplaced(x: char, c: char, rep: string)
    ensures ReplaceAll([x], c, rep) == if x == c then rep else [x]
  {
    assert [x][1..] == "";
  }

  lemma TwoReplaced(x: char, y: char, c: char, rep: string)
    requires x != c && y != c
    ensures ReplaceAll([x, y], c, rep) == [x, y]
  {
    assert [x, y][1..] == [y];
    OneReplaced(y, c, rep);
  }

  /** One more link of a chain: where the map so far gives a single character it is replaced, an escape is left alone. */
  lemma Link(s: string, f: char -> string, g: char -> string, c: char, rep: string)
    requires forall x :: |f(x)| == 1 || (|f(x)| == 2 && f(x)[0] != c && f(x)[1] != c)
    requires forall x :: g(x) == if f(x) == [c] then rep else f(x)
    ensures ReplaceAll(PerChar(s, f), c, rep) == PerChar(s, g)
  {
    forall x ensures g(x) == ReplaceAll(f(x), c, rep) {
      if |f(x)| == 1 {
        assert f(x) == [f(x)[0]];
        OneReplaced(f(x)[0], c, rep);
      } else {
        assert f(x) == [f(x)[0], f(x)[1]];
        TwoReplaced(f(x)[0], f(x)[1], c, rep);
      }
    }
    ReplaceAfterMap(s, f, g, c, rep);
  }

  lemma EscapeAttrValueIsMap(value: string)
    ensures EscapeAttrValue(value) == PerChar(value, AttrChar)
  {
    var quote := c => if c == '\'' then "\\'" else Backslash(c);
    ReplaceIsMap(value, Backslash, '\\', "\\\\");
    Link(value, Backslash, quote, '\'', "\\'");
    Link(value, quote, AttrChar, '\n', "\\n");
  }

  lemma EscapeStringLiteralIsMap(text: string)
    ensures EscapeStringLiteral(text) == PerChar(text, LiteralChar)
  {
    EscapeAttrValueIsMap(text);
    Link(text, AttrChar, LiteralChar, '\r', "\\r");
  }

  lemma EscapeJsonIsMap(s: string)
    ensures EscapeJson(s) == PerChar(s, JsonChar)
  {
    JsonFirstLinks(s);
    Link(s, JsonNewlineChar, JsonReturnChar, '\r', "\\r");
    Link(s, JsonReturnChar, JsonChar, '\t', "\\t");
  }

  function JsonQuoteChar(c: char): string { if c == '"' then "\\\"" else Backslash(c) }

  function JsonNewlineChar(c: char): string { if c == '\n' then "\\n" else JsonQuoteChar(c) }

  function JsonReturnChar(c: char): string { if c == '\r' then "\\r" else JsonNewlineChar(c) }

  lemma JsonFirstLinks(s: string)
    ensures ReplaceAll(ReplaceAll(ReplaceAll(s, '\\', "\\\\"), '"', "\\\""), '\n', "\\n") == PerChar(s, JsonNewlineChar)
  {
    ReplaceIsMap(s, Backslash, '\\', "\\\\");
    Link(s, Backslash, JsonQuoteChar, '"', "\\\"");
    Link(s, JsonQuoteChar, JsonNewlineChar, '\n', "\\n");
  }

  // ------------------------------------------------------------------------------------------
  // Reading a literal back
  // ------------------------------------------------------------------------------------------

  /** A single character escape. Hexadecimal, unicode and digit escapes, which no escaper writes, are not read. */
  function Unescape(c: char): Option<char> {
    if c == 'n' then Some('\n') else if c == 'r' then Some('\r') else if c == 't' then Some('\t')
    else if c == 'b' then Some(8 as char) else if c == 'v' then Some(11 as char) else if c == 'f' then Some(12 as char)
    else if c == 'x' || c == 'u' || '0' <= c <= '9' || c == '\n' || c == '\r' then None
    else Some(c)
  }

  /** The value of the text between the quotes; none where the text breaks off the literal or is no literal at all. */
  function Read(body: string, quote: char): Option<string> {
    if body == "" then Some("")
    else if body[0] == quote || body[0] == '\n' || body[0] == '\r' then None
    else if body[0] == '\\' then
      if |body| < 2 || Unescape(body[1]).None? then None
      else
        var rest := Read(body[2..], quote);
        if rest.None? then None else Some([Unescape(body[1]).value] + rest.value)
    else
      var rest := Read(body[1..], quote);
      if rest.None? then None else Some([body[0]] + rest.value)
  }

  /** A piece that reads as one character leaves the rest to be read. */
  lemma ReadPiece(piece: string, c: char, rest: string, quote: char)
    requires || (piece == [c] && c != quote && c != '\\' && c != '\n' && c != '\r')
             || (|piece| == 2 && piece[0] == '\\' && quote != '\\' && Unescape(piece[1]) == Some(c))
    ensures Read(piece + rest, quote) == if Read(rest, quote).None? then None else Some([c] + Read(rest, quote).value)
  {
    assert (piece + rest)[|piece|..] == rest;
  }

  lemma {:induction false} LiteralReads(text: string)
    ensures Read(PerChar(text, LiteralChar), '\'') == Some(text)
  {
    if text != "" {
      LiteralReads(text[1..]);
      assert text == [text[0]] + text[1..];
      ReadPiece(LiteralChar(text[0]), text[0], PerChar(text[1..], LiteralChar), '\'');
    }
  }

  lemma {:induction false} JsonReads(text: string)
    ensures Read(PerChar(text, JsonChar), '"') == Some(text)
  {
    if text != "" {
      JsonReads(text[1..]);
      assert text == [text[0]] + text[1..];
      ReadPiece(JsonChar(text[0]), text[0], PerChar(text[1..], JsonChar), '"');
    }
  }

  lemma {:induction false} AttrReads(text: string)
    ensures Read(PerChar(text, AttrChar), '\'') == if '\r' in text then None else Some(text)
  {
    if text != "" {
      AttrReads(text[1..]);
      assert text == [text[0]] + text[1..];
      if text[0] == '\r' {
        assert PerChar(text, AttrChar)[0] == '\r';
      } else {
        ReadPiece(AttrChar(text[0]), text[0], PerChar(text[1..], AttrChar), '\'');
      }
    }
  }

  /** Every text survives escape_string_literal between single quotes. */
  lemma StringLiteralRoundTrip(text: string)
    ensures Read(EscapeStringLiteral(text), '\'') == Some(text)
  {
    EscapeStringLiteralIsMap(text);
    LiteralReads(text);
  }

  /** Every text survives json_quote. */
  lemma JsonQuoteRoundTrip(s: string)
    ensures |JsonQuote(s)| >= 2 && JsonQuote(s)[0] == '"' == JsonQuote(s)[|JsonQuote(s)|-1]
    ensures Read(JsonQuote(s)[1..|JsonQuote(s)|-1], '"') == Some(s)
  {
    EscapeJsonIsMap(s);
    JsonReads(s);
    assert JsonQuote(s)[1..|JsonQuote(s)|-1] == EscapeJson(s);
  }

  /** escape_attr_value has no case for the carriage return: the value survives exactly if it holds none,
      and otherwise what is written is no string literal. */
  lemma AttrValueRoundTrip(value: string)
    ensures Read(EscapeAttrValue(value), '\'') == Some(value) <==> '\r' !in value
    ensures '\r' in value ==> Read(EscapeAttrValue(value), '\'') == None
  {
    EscapeAttrValueIsMap(value);
    AttrReads(value);
  }
}

/** A reader of HTML after section 13.2.5 of the HTML standard: tags with their attributes, comments, the text of elements
    that have no markup in them, and characters. What the string generator writes is read back with it. */
module SsrTokens {
  import opened Common
  import opened Ssr

  /** Names are given as they are written, and character references are left in place. */
  datatype Token = Open(tag: string, attrs: seq<HtmlAttr>) | Close(tag: string) | Remark(text: string) | Char(c: char)

  predicate IsLetter(c: char) { 'a' <= c <= 'z' || 'A' <= c <= 'Z' }

  predicate IsSpace(c: char) { c == ' ' || c == '\t' || c == '\n' || c == '\U{000C}' || c == '\r' }

  // ------------------------------------------------------------------------------------------
  // A tag
  // ------------------------------------------------------------------------------------------

  predicate EndsTagName(c: char) { IsSpace(c) || c == '/' || c == '>' }

  predicate EndsAttrName(c: char) { EndsTagName(c) || c == '=' }

  /** The characters before the first that ends what is read. */
  function Upto(s: string, ends: char -> bool): (n: nat)
    ensures n <= |s|
  {
    if s == "" || ends(s[0]) then 0 else 1 + Upto(s[1..], ends)
  }

  /** The value behind an equals sign, and the text after it. */
  function ReadValue(s: string): Option<(string, string)> {
    if s != "" && (s[0] == '"' || s[0] == '\'') then
      var n := Upto(s[1..], c => c == s[0]);
      if n == |s| - 1 then None else Some((s[1..1+n], s[n+2..]))
    else
      var n := Upto(s, c => IsSpace(c) || c == '>');
      Some((s[..n], s[n..]))
  }

  lemma ValueIsShorter(s: string)
    ensures ReadValue(s).Some? ==> |ReadValue(s).value.1| <= |s|
  {
  }

  /** The attributes up to the end of the tag, and the text after it; none where the tag does not end. The first
      character of a name may be any. */
  function ReadAttrs(s: string): Option<(seq<HtmlAttr>, string)>
    decreases |s|
  {
    if s == "" then None
    else if s[0] == '>' then Some(([], s[1..]))
    else if IsSpace(s[0]) || s[0] == '/' then ReadAttrs(s[1..])
    else
      var n := 1 + Upto(s[1..], c => EndsAttrName(c));
      if n < |s| && s[n] == '=' then
        ValueIsShorter(s[n+1..]);
        var v := ReadValue(s[n+1..]);
        if v.None? then None else WithAttr(HtmlAttr(s[..n], Some(v.value.0)), ReadAttrs(v.value.1))
      else WithAttr(HtmlAttr(s[..n], None), ReadAttrs(s[n..]))
  }

  function WithAttr(a: HtmlAttr, rest: Option<(seq<HtmlAttr>, string)>): Option<(seq<HtmlAttr>, string)> {
    if rest.None? then None else Some(([a] + rest.value.0, rest.value.1))
  }

  lemma {:induction false} AttrsAreShorter(s: string)
    ensures ReadAttrs(s).Some? ==> |ReadAttrs(s).value.1| < |s|
    decreases |s|
  {
    if s != "" && s[0] != '>' {
      if IsSpace(s[0]) || s[0] == '/' {
        AttrsAreShorter(s[1..]);
      } else {
        var n := 1 + Upto(s[1..], c => EndsAttrName(c));
        if n < |s| && s[n] == '=' {
          ValueIsShorter(s[n+1..]);
          if ReadValue(s[n+1..]).Some? { AttrsAreShorter(ReadValue(s[n+1..]).value.1); }
        } else {
          AttrsAreShorter(s[n..]);
        }
      }
    }
  }

  // ------------------------------------------------------------------------------------------
  // A text
  // ------------------------------------------------------------------------------------------

  /** Elements whose content is text: in a title and a textarea with character references, in the others without. */
  predicate HasReferences(tag: string) { Lower(tag) in {"title", "textarea"} }

  predicate IsTextElement(tag: string) {
    HasReferences(tag) || Lower(tag) in {"script", "style", "iframe", "noembed", "noframes", "noscript", "xmp"}
  }

  /** An end tag of the name: it may have attributes. */
  predicate EndsRaw(s: string, tag: string) {
    |s| > |tag| + 2 && s[0] == '<' && s[1] == '/' && Lower(s[2..|tag|+2]) == Lower(tag) && EndsTagName(s[|tag|+2])
  }

  function RawLength(s: string, tag: string): (n: nat)
    ensures n <= |s|
  {
    if s == "" || EndsRaw(s, tag) then 0 else 1 + RawLength(s[1..], tag)
  }

  function Chars(s: string): seq<Token> {
    if s == "" then [] else [Char(s[0])] + Chars(s[1..])
  }

  /** Where the next --> begins, or the end. */
  function CloserAt(s: string): (n: nat)
    ensures n <= |s|
  {
    if s == "" || (|s| >= 3 && s[0] == '-' && s[1] == '-' && s[2] == '>') then 0 else 1 + CloserAt(s[1..])
  }

  predicate OpensRemark(s: string) { |s| >= 4 && s[0] == '<' && s[1] == '!' && s[2] == '-' && s[3] == '-' }

  predicate OpensEnd(s: string) { |s| >= 2 && s[0] == '<' && s[1] == '/' }

  predicate OpensTag(s: string) { |s| >= 2 && s[0] == '<' && IsLetter(s[1]) }

  function Tokens(s: string): seq<Token>
    decreases |s|, 1
  {
    if s == "" then []
    else if OpensRemark(s) then
      var n := CloserAt(s[2..]);
      var text := if n < 2 then "" else s[4..n+2];
      [Remark(text)] + if n + 5 <= |s| then Tokens(s[n+5..]) else []
    else if OpensEnd(s) then
      var n := Upto(s[2..], c => c == '>');
      if n + 2 == |s| then [] else [Close(s[2..n+2])] + Tokens(s[n+3..])
    else if OpensTag(s) then TagTokens(s)
    else [Char(s[0])] + Tokens(s[1..])
  }

  /** A text element is read without regard to markup, up to its end tag. */
  function TagTokens(s: string): seq<Token>
    requires OpensTag(s)
    decreases |s|, 0
  {
    var n := 1 + Upto(s[1..], c => EndsTagName(c));
    var tag, attrs := s[1..n], ReadAttrs(s[n..]);
    AttrsAreShorter(s[n..]);
    if attrs.None? then []
    else
      var rest := attrs.value.1;
      [Open(tag, attrs.value.0)]
      + if IsTextElement(tag) then Chars(rest[..RawLength(rest, tag)]) + Tokens(rest[RawLength(rest, tag)..]) else Tokens(rest)
  }

  // ------------------------------------------------------------------------------------------
  // How what is read composes
  // ------------------------------------------------------------------------------------------

  /** Whatever follows, the text is read as doc and what follows is read on its own. */
  ghost predicate Reads(s: string, doc: seq<Token>) {
    forall rest :: ReadsBefore(s, doc, rest)
  }

  ghost predicate ReadsBefore(s: string, doc: seq<Token>, rest: string) { Tokens(s + rest) == doc + Tokens(rest) }

  /** Whatever follows, the text is read as something that does not begin with doc. */
  ghost predicate Diverges(s: string, doc: seq<Token>) {
    forall rest, more :: DivergesBefore(s, doc, rest, more)
  }

  ghost predicate DivergesBefore(s: string, doc: seq<Token>, rest: string, more: seq<Token>) { Tokens(s + rest) != doc + more }

  lemma NoTokens()
    ensures Tokens("") == []
  {
  }

  lemma NothingReads()
    ensures Reads("", [])
  {
    forall rest ensures ReadsBefore("", [], rest) {
      NoPrefix(rest);
      NoPrefix(Tokens(rest));
    }
  }

  lemma ReadsConcat(a: string, da: seq<Token>, b: string, db: seq<Token>)
    requires Reads(a, da) && Reads(b, db)
    ensures Reads(a + b, da + db)
  {
    hide Tokens;
    forall rest ensures ReadsBefore(a + b, da + db, rest) {
      Regroup(a, b, rest);
      assert ReadsBefore(a, da, b + rest) && ReadsBefore(b, db, rest);
      Regroup(da, db, Tokens(rest));
    }
  }

  lemma DivergesLater(a: string, da: seq<Token>, b: string, db: seq<Token>)
    requires Reads(a, da) && Diverges(b, db)
    ensures Diverges(a + b, da + db)
  {
    hide Tokens;
    forall rest, more ensures DivergesBefore(a + b, da + db, rest, more) {
      Regroup(a, b, rest);
      assert ReadsBefore(a, da, b + rest) && DivergesBefore(b, db, rest, more);
      Regroup(da, db, more);
      SamePrefix(da, Tokens(b + rest), db + more);
    }
  }

  lemma DivergesAtOnce(a: string, da: seq<Token>, b: string, db: seq<Token>)
    requires Diverges(a, da)
    ensures Diverges(a + b, da + db)
  {
    hide Tokens;
    forall rest, more ensures DivergesBefore(a + b, da + db, rest, more) {
      Regroup(a, b, rest);
      Regroup(da, db, more);
      assert DivergesBefore(a, da, b + rest, db + more);
    }
  }

  lemma ReadsAlone(s: string, doc: seq<Token>)
    ensures Reads(s, doc) ==> Tokens(s) == doc
    ensures Diverges(s, doc) ==> Tokens(s) != doc
  {
    hide Tokens;
    assert s + "" == s && doc + [] == doc;
    NoTokens();
    if Reads(s, doc) { assert ReadsBefore(s, doc, ""); }
    if Diverges(s, doc) { assert DivergesBefore(s, doc, "", []); }
  }

  // ------------------------------------------------------------------------------------------
  // Characters, comments and end tags
  // ------------------------------------------------------------------------------------------

  lemma {:induction false} CharsRead(s: string)
    requires '<' !in s
    ensures Reads(s, Chars(s))
  {
    if s == "" {
      NothingReads();
    } else {
      CharsRead(s[1..]);
      CharReads(s[0]);
      ReadsConcat([s[0]], [Char(s[0])], s[1..], Chars(s[1..]));
      assert s == [s[0]] + s[1..];
    }
  }

  lemma CharReads(c: char)
    requires c != '<'
    ensures Reads([c], [Char(c)])
  {
    forall rest ensures ReadsBefore([c], [Char(c)], rest) { assert ([c] + rest)[1..] == rest; }
  }

  lemma {:induction false} UptoStops(a: string, b: string, ends: char -> bool)
    requires forall i | 0 <= i < |a| :: !ends(a[i])
    requires b != "" && ends(b[0])
    ensures Upto(a + b, ends) == |a|
  {
    if a == "" {
      assert a + b == b;
    } else {
      assert (a + b)[1..] == a[1..] + b;
      UptoStops(a[1..], b, ends);
    }
  }

  lemma {:induction false} CloserSkips(m: string, after: string)
    requires '-' !in m
    ensures CloserAt(m + "-->" + after) == |m|
  {
    var s := m + "-->" + after;
    if m != "" {
      assert s[0] == m[0];
      CloserSkips(m[1..], after);
      assert s[1..] == m[1..] + "-->" + after;
    } else {
      assert s[0] == '-' && s[1] == '-' && s[2] == '>';
    }
  }

  lemma RemarkReads(m: string)
    requires m != "" && '-' !in m && m[0] != '>'
    ensures Reads("<!--" + m + "-->", [Remark(m)])
  {
    hide CloserAt;
    forall rest ensures ReadsBefore("<!--" + m + "-->", [Remark(m)], rest) {
      var s := "<!--" + m + "-->" + rest;
      var inside := "--" + m + "-->" + rest;
      assert s[2..] == inside && s[4..4+|m|] == m && s[|m|+7..] == rest;
      CloserBehind(m, rest);
      assert OpensRemark(s);
    }
  }

  lemma CloserBehind(m: string, rest: string)
    requires m != "" && '-' !in m && m[0] != '>'
    ensures CloserAt("--" + m + "-->" + rest) == |m| + 2
  {
    var tail := m + "-->" + rest;
    var s := "--" + m + "-->" + rest;
    CloserSkips(m, rest);
    assert s == "--" + tail && s[1..] == "-" + tail && s[1..][1..] == tail;
    assert s[2] == m[0] && s[1..][1] == m[0];
  }

  lemma CloseReads(tag: string)
    requires '>' !in tag
    ensures Reads("</" + tag + ">", [Close(tag)])
  {
    hide Upto;
    forall rest ensures ReadsBefore("</" + tag + ">", [Close(tag)], rest) {
      var s := "</" + tag + ">" + rest;
      assert s[2..] == tag + (">" + rest) && s[2..|tag|+2] == tag && s[|tag|+3..] == rest;
      UptoStops(tag, ">" + rest, c => c == '>');
      assert OpensEnd(s) && !OpensRemark(s);
    }
  }

  // ------------------------------------------------------------------------------------------
  // An opening tag
  // ------------------------------------------------------------------------------------------

  predicate IsAttrName(name: string) { name != "" && forall i | 0 <= i < |name| :: !EndsAttrName(name[i]) }

  predicate IsTagName(tag: string) { tag != "" && IsLetter(tag[0]) && forall i | 0 <= i < |tag| :: !EndsTagName(tag[i]) }

  ghost predicate AttrNames(attrs: seq<HtmlAttr>) { forall a <- attrs :: IsAttrName(a.name) }

  /** A value is written between double quotes as it is. */
  predicate IsQuotable(a: HtmlAttr) { a.value.Some? ==> '"' !in a.value.value }

  ghost predicate AllQuotable(attrs: seq<HtmlAttr>) { forall a <- attrs :: IsQuotable(a) }

  predicate GoesOn(tail: string) { tail != "" && (tail[0] == ' ' || tail[0] == '>') }

  lemma NameReads(name: string, tail: string)
    requires IsAttrName(name) && tail != "" && EndsAttrName(tail[0])
    ensures var s := name + tail;
      !IsSpace(s[0]) && s[0] != '/' && s[0] != '>' && 1 + Upto(s[1..], c => EndsAttrName(c)) == |name|
  {
    assert (name + tail)[1..] == name[1..] + tail;
    assert forall i | 0 <= i < |name[1..]| :: name[1..][i] == name[i+1];
    UptoStops(name[1..], tail, c => EndsAttrName(c));
  }

  lemma BareNameReads(name: string, tail: string)
    requires IsAttrName(name) && GoesOn(tail)
    ensures ReadAttrs(" " + name + tail) == WithAttr(HtmlAttr(name, None), ReadAttrs(tail))
  {
    hide Upto;
    var s := name + tail;
    assert (" " + name + tail)[1..] == s;
    NameReads(name, tail);
    assert s[..|name|] == name && s[|name|..] == tail && s[|name|] == tail[0];
  }

  lemma ValuedNameReads(name: string, behind: string)
    requires IsAttrName(name)
    ensures ReadAttrs(" " + name + "=" + behind)
         == if ReadValue(behind).None? then None
            else WithAttr(HtmlAttr(name, Some(ReadValue(behind).value.0)), ReadAttrs(ReadValue(behind).value.1))
  {
    hide Upto, ReadValue;
    var tail := "=" + behind;
    var s := name + tail;
    ValueIsShorter(behind);
    assert (" " + name + "=" + behind)[1..] == s;
    NameReads(name, tail);
    assert s[..|name|] == name && s[|name|] == '=' && s[|name|+1..] == behind;
  }

  lemma {:induction false} QuoteStops(v: string, tail: string)
    ensures var n := Upto(v + "\"" + tail, c => c == '"');
      n <= |v| && (n == |v| <==> '"' !in v)
  {
    var s := v + "\"" + tail;
    if v != "" {
      assert s[0] == v[0] && s[1..] == v[1..] + "\"" + tail;
      QuoteStops(v[1..], tail);
    } else {
      assert s[0] == '"';
    }
  }

  lemma QuotedReads(v: string, tail: string)
    ensures var r := ReadValue("\"" + v + "\"" + tail);
      r.Some? && if '"' !in v then r.value == (v, tail) else r.value.0 != v
  {
    hide Upto;
    var s := "\"" + v + "\"" + tail;
    assert s[0] == '"' && s[1..] == v + "\"" + tail;
    QuoteStops(v, tail);
    var n := Upto(s[1..], c => c == s[0]);
    assert n == Upto(v + "\"" + tail, c => c == '"') by { SameUpto(s[1..], s[0]); }
    assert '"' !in v ==> s[1..1+|v|] == v && s[|v|+2..] == tail;
  }

  lemma {:induction false} SameUpto(s: string, q: char)
    requires q == '"'
    ensures Upto(s, c => c == q) == Upto(s, c => c == '"')
  {
    if s != "" { SameUpto(s[1..], q); }
  }

  /** One attribute: it is read back exactly if no double quote is in its value; else another one is read, or none. */
  lemma OneAttrReads(a: HtmlAttr, tail: string)
    requires IsAttrName(a.name) && GoesOn(tail)
    ensures var r := ReadAttrs(" " + a.name + (if a.value.Some? then "=\"" + a.value.value + "\"" else "") + tail);
      if IsQuotable(a) then r == WithAttr(a, ReadAttrs(tail)) else r.None? || (r.value.0 != [] && r.value.0[0] != a)
  {
    hide ReadAttrs, ReadValue;
    if a.value.Some? {
      var behind := "\"" + a.value.value + "\"" + tail;
      assert " " + a.name + ("=\"" + a.value.value + "\"") + tail == " " + a.name + "=" + behind;
      ValuedNameReads(a.name, behind);
      QuotedReads(a.value.value, tail);
    } else {
      assert " " + a.name + "" + tail == " " + a.name + tail;
      BareNameReads(a.name, tail);
    }
  }

  lemma AttrsGoOn(attrs: seq<HtmlAttr>, rest: string)
    ensures GoesOn(WriteAttrs(attrs) + ">" + rest)
  {
  }

  lemma WriteFirst(attrs: seq<HtmlAttr>, rest: string)
    requires attrs != []
    ensures WriteAttrs(attrs) + ">" + rest
         == " " + attrs[0].name + (if attrs[0].value.Some? then "=\"" + attrs[0].value.value + "\"" else "")
            + (WriteAttrs(attrs[1..]) + ">" + rest)
  {
  }

  /** The written attributes are read back exactly if no value holds a double quote. */
  lemma {:induction false} WrittenAttrsRead(attrs: seq<HtmlAttr>, rest: string)
    requires AttrNames(attrs)
    ensures var r := ReadAttrs(WriteAttrs(attrs) + ">" + rest);
      if AllQuotable(attrs) then r == Some((attrs, rest)) else r.None? || r.value.0 != attrs
    decreases |attrs|
  {
    hide ReadAttrs, WriteAttrs, IsQuotable, IsAttrName;
    if attrs == [] {
      NoAttrsRead(rest);
    } else {
      var tail := WriteAttrs(attrs[1..]) + ">" + rest;
      WriteFirst(attrs, rest);
      AttrsGoOn(attrs[1..], rest);
      OneAttrReads(attrs[0], tail);
      WrittenAttrsRead(attrs[1..], rest);
      assert AllQuotable(attrs) <==> IsQuotable(attrs[0]) && AllQuotable(attrs[1..]);
      assert attrs == [attrs[0]] + attrs[1..];
      if IsQuotable(attrs[0]) && ReadAttrs(tail).Some? {
        ConsEqual(attrs[0], ReadAttrs(tail).value.0, attrs[0], attrs[1..]);
      }
    }
  }

  lemma NoAttrsRead(rest: string)
    ensures ReadAttrs(WriteAttrs([]) + ">" + rest) == Some(([], rest))
  {
    var s := WriteAttrs([]) + ">" + rest;
    assert s[0] == '>' && s[1..] == rest;
  }

  lemma TagReads(tag: string, behind: string)
    requires IsTagName(tag) && GoesOn(behind)
    ensures var s := "<" + tag + behind;
      OpensTag(s) && !OpensRemark(s) && !OpensEnd(s)
      && s[1..1 + Upto(s[1..], c => EndsTagName(c))] == tag && s[1 + Upto(s[1..], c => EndsTagName(c))..] == behind
  {
    hide Upto;
    var s := "<" + tag + behind;
    assert s[1..] == tag + behind;
    UptoStops(tag, behind, c => EndsTagName(c));
    assert s[1] == tag[0] && s[1..|tag|+1] == tag && s[|tag|+1..] == behind;
  }

  /** A tag that is not for text. */
  lemma OpenReads(tag: string, attrs: seq<HtmlAttr>)
    requires IsTagName(tag) && AttrNames(attrs) && !IsTextElement(tag)
    ensures var s := "<" + tag + WriteAttrs(attrs) + ">";
      if AllQuotable(attrs) then Reads(s, [Open(tag, attrs)]) else Diverges(s, [Open(tag, attrs)])
  {
    hide WriteAttrs, AllQuotable, Tokens;
    var s, doc := "<" + tag + WriteAttrs(attrs) + ">", [Open(tag, attrs)];
    if AllQuotable(attrs) {
      forall rest ensures ReadsBefore(s, doc, rest) { OpenIsRead(tag, attrs, rest); }
    } else {
      forall rest, more ensures DivergesBefore(s, doc, rest, more) {
        OpenIsRead(tag, attrs, rest);
        assert (doc + more)[0] == Open(tag, attrs);
      }
    }
  }

  lemma OpenIsRead(tag: string, attrs: seq<HtmlAttr>, rest: string)
    requires IsTagName(tag) && AttrNames(attrs) && !IsTextElement(tag)
    ensures var t := Tokens("<" + tag + WriteAttrs(attrs) + ">" + rest);
      if AllQuotable(attrs) then t == [Open(tag, attrs)] + Tokens(rest) else t == [] || t[0] != Open(tag, attrs)
  {
    hide ReadAttrs, WriteAttrs, Upto, AllQuotable;
    var behind := WriteAttrs(attrs) + ">" + rest;
    assert "<" + tag + WriteAttrs(attrs) + ">" + rest == "<" + tag + behind;
    AttrsGoOn(attrs, rest);
    TagReads(tag, behind);
    WrittenAttrsRead(attrs, rest);
  }

  lemma OpenIsFirst(tag: string, attrs: seq<HtmlAttr>, rest: string)
    requires IsTagName(tag) && AttrNames(attrs) && AllQuotable(attrs)
    ensures var t := Tokens("<" + tag + WriteAttrs(attrs) + ">" + rest); t != [] && t[0] == Open(tag, attrs)
  {
    hide ReadAttrs, WriteAttrs, Upto, AllQuotable, RawLength, IsTextElement;
    var behind := WriteAttrs(attrs) + ">" + rest;
    assert "<" + tag + WriteAttrs(attrs) + ">" + rest == "<" + tag + behind;
    AttrsGoOn(attrs, rest);
    TagReads(tag, behind);
    WrittenAttrsRead(attrs, rest);
  }

  // ------------------------------------------------------------------------------------------
  // A text element
  // ------------------------------------------------------------------------------------------

  /** Nothing in the text ends the element. */
  predicate IsQuiet(x: string, tag: string) { RawLength(x, tag) == |x| }

  lemma TextElementLetters(tag: string)
    requires IsTextElement(tag)
    ensures tag != "" && forall i | 0 <= i < |tag| :: 'a' <= LowerChar(tag[i]) <= 'z'
  {
    var low := Lower(tag);
    assert forall i | 0 <= i < |tag| :: low[i] == LowerChar(tag[i]);
  }

  lemma TextElementName(tag: string)
    requires IsTextElement(tag)
    ensures IsTagName(tag) && '<' !in tag && '>' !in tag
  {
    hide IsTextElement;
    TextElementLetters(tag);
  }

  lemma NoEndAcross(x: string, tag: string, rest: string)
    requires IsTextElement(tag) && x != ""
    ensures EndsRaw(x + ("</" + tag + ">" + rest), tag) <==> EndsRaw(x, tag)
  {
    var e := "</" + tag + ">" + rest;
    var s, n := x + e, |tag| + 2;
    hide IsTextElement;
    TextElementLetters(tag);
    if |x| > n {
      assert s[2..n] == x[2..n];
    } else {
      assert s[|x|] == '<';
      if 2 <= |x| < n {
        assert s[2..n][|x|-2] == '<' && Lower(s[2..n])[|x|-2] == LowerChar('<') == '<';
        assert Lower(tag)[|x|-2] == LowerChar(tag[|x|-2]);
      }
    }
  }

  lemma {:induction false} RawLengthStays(x: string, tag: string, rest: string)
    requires IsTextElement(tag)
    ensures RawLength(x + ("</" + tag + ">" + rest), tag) == RawLength(x, tag)
  {
    hide EndsRaw;
    var e := "</" + tag + ">" + rest;
    if x == "" {
      EndTagEnds(tag, rest);
      assert x + e == e;
    } else {
      NoEndAcross(x, tag, rest);
      RawLengthStays(x[1..], tag, rest);
      assert (x + e)[1..] == x[1..] + e;
    }
  }

  lemma EndTagEnds(tag: string, rest: string)
    requires IsTextElement(tag)
    ensures EndsRaw("</" + tag + ">" + rest, tag)
  {
    var e := "</" + tag + ">" + rest;
    assert e[2..|tag|+2] == tag && e[|tag|+2] == '>';
  }

  lemma {:induction false} RawLengthEnds(x: string, tag: string)
    requires RawLength(x, tag) < |x|
    ensures EndsRaw(x[RawLength(x, tag)..], tag)
  {
    if !EndsRaw(x, tag) { RawLengthEnds(x[1..], tag); }
  }

  lemma {:induction false} CharsAre(s: string)
    ensures |Chars(s)| == |s| && forall i | 0 <= i < |s| :: Chars(s)[i] == Char(s[i])
  {
    if s != "" { CharsAre(s[1..]); }
  }

  /** What begins with an end tag is not read as a character. */
  lemma EndIsNoChar(s: string)
    requires OpensEnd(s)
    ensures Tokens(s) != [] ==> Tokens(s)[0].Close?
  {
  }

  lemma RawElementReads(tag: string, attrs: seq<HtmlAttr>, x: string)
    requires IsTextElement(tag) && AttrNames(attrs)
    ensures var s := "<" + tag + WriteAttrs(attrs) + ">" + x + ("</" + tag + ">");
      var doc := [Open(tag, attrs)] + Chars(x) + [Close(tag)];
      if AllQuotable(attrs) && IsQuiet(x, tag) then Reads(s, doc) else Diverges(s, doc)
  {
    hide ReadAttrs, WriteAttrs, Upto, AllQuotable, RawLength, Tokens, Chars, IsTextElement, IsTagName;
    var s := "<" + tag + WriteAttrs(attrs) + ">" + x + ("</" + tag + ">");
    var doc := [Open(tag, attrs)] + Chars(x) + [Close(tag)];
    if AllQuotable(attrs) && IsQuiet(x, tag) {
      forall rest ensures ReadsBefore(s, doc, rest) {
        RawTextReads(tag, attrs, x, rest);
        Regroup4([Open(tag, attrs)], Chars(x), [Close(tag)], Tokens(rest));
        Regroup(Chars(x), [Close(tag)], Tokens(rest));
      }
    } else {
      forall rest, more ensures DivergesBefore(s, doc, rest, more) {
        RawTextReads(tag, attrs, x, rest);
        if AllQuotable(attrs) {
          EndsEarly(tag, attrs, x, rest, more);
        } else {
          assert (doc + more)[0] == Open(tag, attrs);
        }
      }
    }
  }

  lemma RawTextReads(tag: string, attrs: seq<HtmlAttr>, x: string, rest: string)
    requires IsTextElement(tag) && AttrNames(attrs)
    ensures var t := Tokens("<" + tag + WriteAttrs(attrs) + ">" + x + ("</" + tag + ">") + rest);
      if AllQuotable(attrs) then
        var n := RawLength(x, tag);
        t == [Open(tag, attrs)] + (Chars(x[..n]) + Tokens(x[n..] + ("</" + tag + ">" + rest)))
        && (n == |x| ==> t == [Open(tag, attrs)] + (Chars(x) + ([Close(tag)] + Tokens(rest))))
      else t == [] || t[0] != Open(tag, attrs)
  {
    hide ReadAttrs, WriteAttrs, Upto, AllQuotable, RawLength, Chars, IsTagName, IsTextElement, ReadsBefore, Reads, OpensTag, OpensRemark, OpensEnd;
    var e := "</" + tag + ">" + rest;
    var behind := WriteAttrs(attrs) + ">" + (x + e);
    RawTextParts(tag, WriteAttrs(attrs), x, rest);
    TextElementName(tag);
    AttrsGoOn(attrs, x + e);
    TagReads(tag, behind);
    WrittenAttrsRead(attrs, x + e);
    if AllQuotable(attrs) {
      RawLengthStays(x, tag, rest);
      var n := RawLength(x, tag);
      assert (x + e)[..n] == x[..n] && (x + e)[n..] == x[n..] + e;
      QuietEnds(tag, x, rest);
    }
  }

  lemma RawTextParts(tag: string, attrs: string, x: string, rest: string)
    ensures "<" + tag + attrs + ">" + x + ("</" + tag + ">") + rest == "<" + tag + (attrs + ">" + (x + ("</" + tag + ">" + rest)))
  {
  }

  lemma QuietEnds(tag: string, x: string, rest: string)
    requires '>' !in tag
    ensures x[..|x|] == x && Tokens(x[|x|..] + ("</" + tag + ">" + rest)) == [Close(tag)] + Tokens(rest)
  {
    hide Tokens, Reads;
    CloseReads(tag);
    assert x[|x|..] == "";
    NoPrefix("</" + tag + ">" + rest);
    ReadsThere("</" + tag + ">", [Close(tag)], rest);
  }

  lemma ReadsThere(s: string, doc: seq<Token>, rest: string)
    ensures Reads(s, doc) ==> ReadsBefore(s, doc, rest)
  {
  }

  lemma EndsEarly(tag: string, attrs: seq<HtmlAttr>, x: string, rest: string, more: seq<Token>)
    requires IsTextElement(tag) && AttrNames(attrs) && AllQuotable(attrs) && !IsQuiet(x, tag)
    ensures DivergesBefore("<" + tag + WriteAttrs(attrs) + ">" + x + ("</" + tag + ">"), [Open(tag, attrs)] + Chars(x) + [Close(tag)], rest, more)
  {
    hide ReadAttrs, WriteAttrs, Upto, AllQuotable, RawLength, Tokens, Chars, IsTextElement, IsTagName, Lower;
    var n, e := RawLength(x, tag), "</" + tag + ">" + rest;
    var doc := [Open(tag, attrs)] + Chars(x) + [Close(tag)];
    RawTextReads(tag, attrs, x, rest);
    RawLengthEnds(x, tag);
    CharsAre(x);
    CharsAre(x[..n]);
    assert OpensEnd(x[n..] + e);
    EndIsNoChar(x[n..] + e);
    var t := Tokens(x[n..] + e);
    var read := [Open(tag, attrs)] + (Chars(x[..n]) + t);
    assert (doc + more)[n+1] == Chars(x)[n];
    assert t != [] ==> read[n+1] == t[0];
    assert |doc + more| > n + 1;
  }
}

/** clean_jsx_text, which the string generator (aot_string_transformer.rs) and the DOM generator (jsx_transformer.rs)
    each have in a version of their own: they differ in what they take for a line break. */
module JsxText {
  import opened Common

  /** The characters with the White_Space property. */
  predicate IsWhite(c: char) {
    9 as char <= c <= 13 as char || c == ' ' || c == 0x85 as char || c == 0xA0 as char || c == 0x1680 as char
    || 0x2000 as char <= c <= 0x200A as char || c == 0x2028 as char || c == 0x2029 as char || c == 0x202F as char
    || c == 0x205F as char || c == 0x3000 as char
  }

  function TrimStart(s: string): string {
    if s != "" && IsWhite(s[0]) then TrimStart(s[1..]) else s
  }

  function TrimEnd(s: string): string {
    if s != "" && IsWhite(s[|s|-1]) then TrimEnd(s[..|s|-1]) else s
  }

  function Detab(s: string): string {
    if s == "" then "" else [if s[0] == '\t' then ' ' else s[0]] + Detab(s[1..])
  }

  /** The pieces between line feeds. */
  function Split(s: string): (lines: seq<string>)
    ensures lines != []
  {
    if s == "" then [""]
    else
      var rest := Split(s[1..]);
      if s[0] == '\n' then [""] + rest else [[s[0]] + rest[0]] + rest[1..]
  }

  /** One line: tabs become spaces, and the edges that are not edges of the whole text are trimmed. */
  function CleanLine(line: string, first: bool, last: bool): string {
    var s := Detab(line);
    var s' := if first then s else TrimStart(s);
    if last then s' else TrimEnd(s')
  }

  function CleanLines(lines: seq<string>, first: bool): seq<string> {
    if lines == [] then []
    else
      var s := CleanLine(lines[0], first, |lines| == 1);
      (if s == "" then [] else [s]) + CleanLines(lines[1..], false)
  }

  function Join(parts: seq<string>): string {
    if parts == [] then "" else if |parts| == 1 then parts[0] else parts[0] + " " + Join(parts[1..])
  }

  /** Every \r\n becomes \n. */
  function JoinCrLf(s: string): string {
    if s == "" then ""
    else if |s| >= 2 && s[0] == '\r' && s[1] == '\n' then "\n" + JoinCrLf(s[2..])
    else [s[0]] + JoinCrLf(s[1..])
  }

  function CrToLf(s: string): string {
    if s == "" then "" else [if s[0] == '\r' then '\n' else s[0]] + CrToLf(s[1..])
  }

  function Normalize(s: string): string {
    CrToLf(JoinCrLf(s))
  }

  predicate HasBreak(s: string) { '\n' in s || '\r' in s }

  function ServerClean(raw: string): string {
    if !HasBreak(raw) then raw else Join(CleanLines(Split(raw), true))
  }

  function ClientClean(raw: string): string {
    if !HasBreak(raw) then raw else Join(CleanLines(Split(Normalize(raw)), true))
  }

  /** The loop both versions run over their lines. */
  method CleanAll(lines: seq<string>) returns (cleaned: seq<string>)
    ensures cleaned == CleanLines(lines, true)
  {
    hide CleanLines, TrimStart, TrimEnd, Detab;
    cleaned := [];
    assert lines[0..] == lines && lines[|lines|..] == [];
    for i := 0 to |lines|
      invariant cleaned + CleanLines(lines[i..], i == 0) == CleanLines(lines, true)
    {
      ghost var before := cleaned;
      CleanNext(lines, i);
      var s := Detab(lines[i]);
      if i > 0 {
        s := TrimStart(s);
      }
      if i < |lines| - 1 {
        s := TrimEnd(s);
      }
      if s != "" {
        cleaned := cleaned + [s];
      }
      assert before + ((if s == "" then [] else [s]) + CleanLines(lines[i+1..], false)) == cleaned + CleanLines(lines[i+1..], false);
    }
    NoLines();
  }

  lemma NoLines()
    ensures forall first :: CleanLines([], first) == []
  {
  }

  lemma CleanNext(lines: seq<string>, i: nat)
    requires i < |lines|
    ensures var s := CleanLine(lines[i], i == 0, i == |lines| - 1);
      CleanLines(lines[i..], i == 0) == (if s == "" then [] else [s]) + CleanLines(lines[i+1..], false)
  {
    assert lines[i..][1..] == lines[i+1..];
  }

  method CleanOnServer(raw: string) returns (text: string)
    ensures text == ServerClean(raw)
  {
    if '\n' !in raw && '\r' !in raw {
      return raw;
    }
    var cleaned := CleanAll(Split(raw));
    text := Join(cleaned);
  }

  method CleanOnClient(raw: string) returns (text: string)
    ensures text == ClientClean(raw)
  {
    if '\n' !in raw && '\r' !in raw {
      return raw;
    }
    var cleaned := CleanAll(Split(Normalize(raw)));
    text := Join(cleaned);
  }

  // ------------------------------------------------------------------------------------------
  // What a line comes to
  // ------------------------------------------------------------------------------------------

  ghost predicate AllWhite(s: string) { forall c <- s :: IsWhite(c) }

  /** line[a..b] is what is left where the white space at both edges goes, but for the edges of the whole text. */
  ghost predicate IsTrimmed(line: string, first: bool, last: bool, a: nat, b: nat) {
    && a <= b <= |line| && AllWhite(line[..a]) && AllWhite(line[b..])
    && (if first then a == 0 else a < b ==> !IsWhite(line[a]))
    && (if last then b == |line| else a < b ==> !IsWhite(line[b-1]))
  }

  lemma {:induction false} TrimStartIs(s: string) returns (a: nat)
    ensures a <= |s| && AllWhite(s[..a]) && (a < |s| ==> !IsWhite(s[a])) && TrimStart(s) == s[a..]
  {
    if s != "" && IsWhite(s[0]) {
      var n := TrimStartIs(s[1..]);
      a := n + 1;
      assert s[..a] == [s[0]] + s[1..][..n] && s[1..][n..] == s[a..];
    } else {
      a := 0;
    }
  }

  lemma {:induction false} TrimEndIs(s: string) returns (b: nat)
    ensures b <= |s| && AllWhite(s[b..]) && (b > 0 ==> !IsWhite(s[b-1])) && TrimEnd(s) == s[..b]
  {
    if s != "" && IsWhite(s[|s|-1]) {
      b := TrimEndIs(s[..|s|-1]);
      assert s[b..] == s[..|s|-1][b..] + [s[|s|-1]] && s[..|s|-1][..b] == s[..b];
    } else {
      b := |s|;
      assert s[..b] == s;
    }
  }

  lemma {:induction false} DetabIs(s: string)
    ensures |Detab(s)| == |s| && forall i | 0 <= i < |s| :: Detab(s)[i] == if s[i] == '\t' then ' ' else s[i]
  {
    if s != "" { DetabIs(s[1..]); }
  }

  lemma EdgesAreTrimmed(s: string, first: bool, last: bool) returns (a: nat, b: nat)
    ensures IsTrimmed(s, first, last, a, b)
    ensures var s' := if first then s else TrimStart(s); (if last then s' else TrimEnd(s')) == s[a..b]
  {
    hide IsWhite, TrimStart, TrimEnd;
    a := 0;
    if !first { a := TrimStartIs(s); }
    var s' := s[a..];
    assert s[0..] == s;
    var n := |s'|;
    if !last { n := TrimEndIs(s'); }
    b := a + n;
    assert s'[..n] == s[a..b] && s'[n..] == s[b..];
    assert s'[..|s'|] == s';
    if !last && a < b { assert s'[n-1] == s[b-1]; }
  }

  lemma SameEdges(line: string, s: string, first: bool, last: bool, a: nat, b: nat)
    requires |s| == |line| && (forall i | 0 <= i < |s| :: IsWhite(s[i]) <==> IsWhite(line[i])) && IsTrimmed(s, first, last, a, b)
    ensures IsTrimmed(line, first, last, a, b)
  {
    hide IsWhite;
    forall c | c in line[..a] ensures IsWhite(c) {
      var i :| 0 <= i < a && line[i] == c;
      assert s[..a][i] == s[i] && s[i] in s[..a];
    }
    forall c | c in line[b..] ensures IsWhite(c) {
      var i :| b <= i < |line| && line[i] == c;
      assert s[b..][i-b] == s[i] && s[i] in s[b..];
    }
  }

  /** A cleaned line is the line without the white space at its edges, with a space for each tab. */
  lemma LineIsTrimmed(line: string, first: bool, last: bool) returns (a: nat, b: nat)
    ensures IsTrimmed(line, first, last, a, b) && |CleanLine(line, first, last)| == b - a
    ensures forall i | 0 <= i < b - a :: CleanLine(line, first, last)[i] == if line[a+i] == '\t' then ' ' else line[a+i]
  {
    hide Detab, TrimStart, TrimEnd, IsTrimmed;
    var s := Detab(line);
    DetabIs(line);
    a, b := EdgesAreTrimmed(s, first, last);
    SameEdges(line, s, first, last, a, b);
    TrimmedFits(s, first, last, a, b);
  }

  lemma TrimmedFits(s: string, first: bool, last: bool, a: nat, b: nat)
    requires IsTrimmed(s, first, last, a, b)
    ensures a <= b <= |s|
  {
  }

  function Unsplit(lines: seq<string>): string
    requires lines != []
  {
    if |lines| == 1 then lines[0] else lines[0] + "\n" + Unsplit(lines[1..])
  }

  /** The lines, put together with line feeds, are the text, and none has one. */
  lemma {:induction false} LinesAreTheText(s: string)
    ensures Unsplit(Split(s)) == s && forall line <- Split(s) :: '\n' !in line
  {
    if s != "" {
      var rest := Split(s[1..]);
      LinesAreTheText(s[1..]);
      if s[0] == '\n' {
        assert Split(s)[1..] == rest;
      } else {
        assert Split(s) == [[s[0]] + rest[0]] + rest[1..];
        assert forall line | line in Split(s) :: line == [s[0]] + rest[0] || line in rest;
        if |rest| > 1 { assert Split(s)[1..] == rest[1..]; }
      }
    }
  }

  lemma {:induction false} NoReturnsLeft(s: string)
    ensures '\r' !in CrToLf(s) && (forall i | 0 <= i < |s| :: |CrToLf(s)| == |s| && CrToLf(s)[i] == if s[i] == '\r' then '\n' else s[i])
  {
    if s != "" { NoReturnsLeft(s[1..]); }
  }

  // ------------------------------------------------------------------------------------------
  // The two versions agree
  // ------------------------------------------------------------------------------------------

  /** Every carriage return is followed by a line feed. */
  predicate PairedReturns(s: string) {
    forall i | 0 <= i < |s| && s[i] == '\r' :: i + 1 < |s| && s[i+1] == '\n'
  }

  /** A line and the same line with the carriage return that its break began with. */
  ghost predicate SameLines(a: seq<string>, b: seq<string>) {
    |a| == |b| && forall i | 0 <= i < |a| :: a[i] == b[i] || (i < |a| - 1 && a[i] == b[i] + "\r")
  }

  lemma {:induction false} SplitSame(s: string)
    requires PairedReturns(s)
    ensures SameLines(Split(s), Split(Normalize(s)))
    decreases |s|
  {
    if s != "" {
      forall i | 0 <= i < |s[1..]| && s[1..][i] == '\r' ensures i + 1 < |s[1..]| && s[1..][i+1] == '\n' {
        assert s[i+1] == '\r';
      }
      if s[0] == '\r' {
        assert s[1] == '\n';
        forall i | 0 <= i < |s[2..]| && s[2..][i] == '\r' ensures i + 1 < |s[2..]| && s[2..][i+1] == '\n' {
          assert s[i+2] == '\r';
        }
        SplitSame(s[2..]);
        assert s[1..][1..] == s[2..];
        assert Normalize(s) == "\n" + Normalize(s[2..]);
        assert Normalize(s)[1..] == Normalize(s[2..]);
        assert Split(s[1..]) == [""] + Split(s[2..]);
        SplitGlues(s);
        assert "\r" + "" == "\r";
      } else {
        SplitSame(s[1..]);
        assert Normalize(s) == [s[0]] + Normalize(s[1..]);
        assert Normalize(s)[1..] == Normalize(s[1..]);
        if s[0] != '\n' {
          SplitGlues(s);
          SplitGlues(Normalize(s));
        }
      }
    }
  }

  lemma SplitGlues(s: string)
    requires s != "" && s[0] != '\n'
    ensures |Split(s)| == |Split(s[1..])| && Split(s)[0] == [s[0]] + Split(s[1..])[0]
    ensures forall i | 1 <= i < |Split(s)| :: Split(s)[i] == Split(s[1..])[i]
    ensures Split(s)[1..] == Split(s[1..])[1..]
  {
  }

  lemma {:induction false} DetabConcat(a: string, b: string)
    ensures Detab(a + b) == Detab(a) + Detab(b)
  {
    if a == "" {
      assert a + b == b;
    } else {
      assert (a + b)[1..] == a[1..] + b;
      DetabConcat(a[1..], b);
    }
  }

  /** White space at the end of a line goes, whether or not the start was trimmed before. */
  lemma {:induction false} TrailingWhiteGoes(s: string, c: char)
    requires IsWhite(c)
    ensures TrimEnd(s + [c]) == TrimEnd(s)
    ensures TrimEnd(TrimStart(s + [c])) == TrimEnd(TrimStart(s))
  {
    assert (s + [c])[..|s|] == s;
    if s != "" && IsWhite(s[0]) {
      assert (s + [c])[1..] == s[1..] + [c];
      TrailingWhiteGoes(s[1..], c);
    } else if s != "" {
      assert TrimStart(s + [c]) == s + [c];
    } else {
      assert [c][1..] == "" && "" + [c] == [c];
    }
  }

  lemma CleanLineSame(a: string, b: string, first: bool)
    requires a == b || a == b + "\r"
    ensures CleanLine(a, first, false) == CleanLine(b, first, false)
  {
    if a != b {
      DetabConcat(b, "\r");
      assert Detab("\r") == "\r" by { assert "\r"[1..] == ""; }
      TrailingWhiteGoes(Detab(b), '\r');
    }
  }

  lemma {:induction false} CleanLinesSame(a: seq<string>, b: seq<string>, first: bool)
    requires SameLines(a, b)
    ensures CleanLines(a, first) == CleanLines(b, first)
  {
    if a != [] {
      if |a| > 1 { CleanLineSame(a[0], b[0], first); }
      forall i | 0 <= i < |a[1..]| ensures a[1..][i] == b[1..][i] || (i < |a[1..]| - 1 && a[1..][i] == b[1..][i] + "\r") {
        assert a[i+1] == b[i+1] || a[i+1] == b[i+1] + "\r";
      }
      CleanLinesSame(a[1..], b[1..], false);
    }
  }

  /** On a text whose carriage returns all begin a line break, the server and the client render the same text. */
  lemma ServerAndClientAgree(raw: string)
    requires PairedReturns(raw)
    ensures ServerClean(raw) == ClientClean(raw)
  {
    if HasBreak(raw) {
      SplitSame(raw);
      CleanLinesSame(Split(raw), Split(Normalize(raw)), true);
    }
  }

  /** A carriage return of its own is a line break to the client only. */
  lemma LoneReturnDiffers()
    ensures ServerClean("a\rb") == "a\rb" && ClientClean("a\rb") == "a b"
  {
    hide Split, CleanLines, Normalize, Join;
    assert '\r' in "a\rb" by { assert "a\rb"[1] == '\r'; }
    SplitOneLine("a\rb");
    LoneReturnOneLine();
    LoneReturnTwoLines();
    JoinTwo();
  }

  lemma JoinTwo()
    ensures Join(["a\rb"]) == "a\rb" && Join(["a", "b"]) == "a b"
  {
    assert ["a", "b"][1..] == ["b"];
  }

  lemma LoneReturnOneLine()
    ensures CleanLines(["a\rb"], true) == ["a\rb"]
  {
    assert "a\rb"[1..] == "\rb" && "\rb"[1..] == "b" && "b"[1..] == "";
    assert Detab("a\rb") == "a\rb";
    assert ["a\rb"][1..] == [];
  }

  lemma LoneReturnTwoLines()
    ensures CleanLines(Split(Normalize("a\rb")), true) == ["a", "b"]
  {
    hide Join, Split, Normalize;
    LoneReturnSplits();
    assert CleanLines(["b"], false) == ["b"] by { assert Detab("b") == "b"; assert ["b"][1..] == []; }
    assert CleanLines(["a", "b"], true) == ["a", "b"] by { assert Detab("a") == "a" && "a"[1..] == ""; assert ["a", "b"][1..] == ["b"]; }
  }

  lemma LoneReturnSplits()
    ensures Split(Normalize("a\rb")) == ["a", "b"]
  {
    hide Join, CleanLines;
    var s := "a\rb";
    assert s[1..] == "\rb" && "\rb"[1..] == "b" && "b"[1..] == "";
    assert Normalize(s) == "a\nb" by { assert JoinCrLf(s) == s && CrToLf(s) == "a\nb"; }
    assert "a\nb"[1..] == "\nb" && "\nb"[1..] == "b";
    SplitOneLine("b");
    assert Split("\nb") == ["", "b"];
    SplitGlues("a\nb");
    assert "a" + "" == "a";
  }

  // ------------------------------------------------------------------------------------------
  // Neither version loses visible text
  // ------------------------------------------------------------------------------------------

  ghost function Visible(s: string): string {
    if s == "" then "" else (if IsWhite(s[0]) then "" else [s[0]]) + Visible(s[1..])
  }

  lemma {:induction false} VisibleConcat(a: string, b: string)
    ensures Visible(a + b) == Visible(a) + Visible(b)
  {
    if a == "" {
      assert a + b == b;
    } else {
      assert (a + b)[1..] == a[1..] + b;
      VisibleConcat(a[1..], b);
    }
  }

  lemma {:induction false} TrimStartVisible(s: string)
    ensures Visible(TrimStart(s)) == Visible(s)
  {
    if s != "" && IsWhite(s[0]) { TrimStartVisible(s[1..]); }
  }

  lemma {:induction false} TrimEndVisible(s: string)
    ensures Visible(TrimEnd(s)) == Visible(s)
  {
    if s != "" && IsWhite(s[|s|-1]) {
      TrimEndVisible(s[..|s|-1]);
      VisibleConcat(s[..|s|-1], [s[|s|-1]]);
      assert s[..|s|-1] + [s[|s|-1]] == s;
      assert [s[|s|-1]][1..] == "";
    }
  }

  lemma {:induction false} DetabVisible(s: string)
    ensures Visible(Detab(s)) == Visible(s)
  {
    if s != "" {
      DetabVisible(s[1..]);
      assert Detab(s)[1..] == Detab(s[1..]);
    }
  }

  lemma CleanLineVisible(line: string, first: bool, last: bool)
    ensures Visible(CleanLine(line, first, last)) == Visible(line)
  {
    DetabVisible(line);
    TrimStartVisible(Detab(line));
    TrimEndVisible(Detab(line));
    TrimEndVisible(TrimStart(Detab(line)));
  }

  ghost function VisibleLines(lines: seq<string>): string {
    if lines == [] then "" else Visible(lines[0]) + VisibleLines(lines[1..])
  }

  lemma {:induction false} CleanLinesVisible(lines: seq<string>, first: bool)
    ensures VisibleLines(CleanLines(lines, first)) == VisibleLines(lines)
  {
    if lines != [] {
      CleanLineVisible(lines[0], first, |lines| == 1);
      CleanLinesVisible(lines[1..], false);
      var s, rest := CleanLine(lines[0], first, |lines| == 1), CleanLines(lines[1..], false);
      assert ([s] + rest)[1..] == rest;
      assert [] + rest == rest;
    }
  }

  lemma {:induction false} JoinVisible(parts: seq<string>)
    ensures Visible(Join(parts)) == VisibleLines(parts)
  {
    if |parts| == 1 {
      assert parts[1..] == [];
    } else if parts != [] {
      hide Visible;
      JoinVisible(parts[1..]);
      VisibleConcat(parts[0] + " ", Join(parts[1..]));
      VisibleConcat(parts[0], " ");
      assert Visible(parts[0]) + "" == Visible(parts[0]);
    }
  }

  lemma {:induction false} SplitVisible(s: string)
    ensures VisibleLines(Split(s)) == Visible(s)
  {
    if s == "" {
      assert [""][1..] == [];
    } else {
      hide Visible, Split;
      var rest := Split(s[1..]);
      SplitVisible(s[1..]);
      VisibleConcat([s[0]], s[1..]);
      assert [s[0]] + s[1..] == s;
      if s[0] == '\n' {
        assert ([""] + rest)[1..] == rest;
      } else {
        VisibleConcat([s[0]], rest[0]);
        SplitGlues(s);
        Regroup(Visible([s[0]]), Visible(rest[0]), VisibleLines(rest[1..]));
      }
    }
  }

  lemma {:induction false} NormalizeVisible(s: string)
    ensures Visible(Normalize(s)) == Visible(s)
    decreases |s|
  {
    if s != "" {
      if |s| >= 2 && s[0] == '\r' && s[1] == '\n' {
        NormalizeVisible(s[2..]);
        assert Normalize(s) == "\n" + Normalize(s[2..]);
        assert Normalize(s)[1..] == Normalize(s[2..]);
        assert s[1..][1..] == s[2..];
      } else {
        NormalizeVisible(s[1..]);
        assert Normalize(s)[1..] == Normalize(s[1..]);
      }
    }
  }

  /** Only white space is ever dropped, added or changed. */
  lemma CleaningKeepsVisibleText(raw: string)
    ensures Visible(ServerClean(raw)) == Visible(raw)
    ensures Visible(ClientClean(raw)) == Visible(raw)
  {
    JoinVisible(CleanLines(Split(raw), true));
    CleanLinesVisible(Split(raw), true);
    SplitVisible(raw);
    JoinVisible(CleanLines(Split(Normalize(raw)), true));
    CleanLinesVisible(Split(Normalize(raw)), true);
    SplitVisible(Normalize(raw));
    NormalizeVisible(raw);
  }

  // ------------------------------------------------------------------------------------------
  // Neither version has anything left to do
  // ------------------------------------------------------------------------------------------

  lemma {:induction false} TrimFree(s: string, c: char)
    requires c !in s
    ensures c !in TrimStart(s) && c !in TrimEnd(s)
    decreases |s|
  {
    if s != "" {
      TrimFree(s[1..], c);
      TrimFree(s[..|s|-1], c);
    }
  }

  lemma {:induction false} DetabFree(s: string, c: char)
    requires c !in s && c != ' '
    ensures c !in Detab(s) && '\t' !in Detab(s)
  {
    if s != "" { DetabFree(s[1..], c); }
  }

  lemma CleanLineFree(line: string, first: bool, last: bool, c: char)
    requires c !in line && c != ' '
    ensures c !in CleanLine(line, first, last) && '\t' !in CleanLine(line, first, last)
  {
    DetabFree(line, c);
    var s := Detab(line);
    TrimFree(s, c);
    TrimFree(s, '\t');
    TrimFree(TrimStart(s), c);
    TrimFree(TrimStart(s), '\t');
  }

  lemma {:induction false} CleanFree(lines: seq<string>, first: bool, c: char)
    requires (forall i | 0 <= i < |lines| :: c !in lines[i]) && c != ' '
    ensures forall i | 0 <= i < |CleanLines(lines, first)| :: c !in CleanLines(lines, first)[i] && '\t' !in CleanLines(lines, first)[i]
  {
    if lines != [] {
      CleanLineFree(lines[0], first, |lines| == 1, c);
      CleanFree(lines[1..], false, c);
    }
  }

  lemma {:induction false} JoinFree(parts: seq<string>, c: char)
    requires (forall i | 0 <= i < |parts| :: c !in parts[i]) && c != ' '
    ensures c !in Join(parts)
  {
    if parts != [] { JoinFree(parts[1..], c); }
  }

  lemma {:induction false} SplitFree(s: string, c: char)
    requires c == '\n' || c !in s
    ensures forall i | 0 <= i < |Split(s)| :: c !in Split(s)[i]
  {
    if s != "" {
      SplitFree(s[1..], c);
    }
  }

  lemma {:induction false} NormalizeFree(s: string)
    ensures '\r' !in Normalize(s)
    decreases |s|
  {
    if s != "" {
      if |s| >= 2 && s[0] == '\r' && s[1] == '\n' {
        NormalizeFree(s[2..]);
        assert Normalize(s) == "\n" + Normalize(s[2..]);
      } else {
        NormalizeFree(s[1..]);
        assert Normalize(s) == [if s[0] == '\r' then '\n' else s[0]] + Normalize(s[1..]);
      }
    }
  }

  lemma {:induction false} SplitOneLine(s: string)
    requires '\n' !in s
    ensures Split(s) == [s]
  {
    if s != "" {
      SplitOneLine(s[1..]);
      SplitGlues(s);
      assert [s[0]] + s[1..] == s;
    }
  }

  lemma {:induction false} DetabNothing(s: string)
    requires '\t' !in s
    ensures Detab(s) == s
  {
    if s != "" { DetabNothing(s[1..]); }
  }

  /** The client's text holds no line break at all, so a second pass returns it as it is. */
  lemma ClientCleanIsIdempotent(raw: string)
    ensures ClientClean(ClientClean(raw)) == ClientClean(raw)
  {
    if HasBreak(raw) {
      var n := Normalize(raw);
      NormalizeFree(raw);
      SplitFree(n, '\n');
      SplitFree(n, '\r');
      CleanFree(Split(n), true, '\n');
      CleanFree(Split(n), true, '\r');
      JoinFree(CleanLines(Split(n), true), '\n');
      JoinFree(CleanLines(Split(n), true), '\r');
    }
  }

  /** The server's text may hold a carriage return, but then it is one line without tabs. */
  lemma ServerCleanIsIdempotent(raw: string)
    ensures ServerClean(ServerClean(raw)) == ServerClean(raw)
  {
    if HasBreak(raw) {
      var parts := CleanLines(Split(raw), true);
      var t := Join(parts);
      SplitFree(raw, '\n');
      CleanFree(Split(raw), true, '\n');
      JoinFree(parts, '\n');
      JoinFree(parts, '\t');
      SplitOneLine(t);
      DetabNothing(t);
      assert CleanLines([t], true) == (if t == "" then [] else [t]) by { assert [t][1..] == []; }
    }
  }
}

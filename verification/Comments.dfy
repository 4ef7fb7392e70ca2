/** strip_comments (import_injection.rs): the scan that removes comments from generated code before helper names are
    looked up in it. The partner of the loop is a lexer that cuts the text into characters, string literals and
    comments; stripping keeps the first two kinds. */
module Comments {

  datatype Token = Plain(c: char) | Literal(text: string) | Comment(text: string)

  predicate IsQuote(c: char) { c == '\'' || c == '"' || c == '`' }

  predicate OpensLine(s: string) { |s| >= 2 && s[0] == '/' && s[1] == '/' }

  predicate OpensBlock(s: string) { |s| >= 2 && s[0] == '/' && s[1] == '*' }

  /** Up to the end of the line; the line break stays. */
  function LineLength(s: string): (n: nat)
    ensures n <= |s|
  {
    if s == [] || s[0] == '\n' then 0 else 1 + LineLength(s[1..])
  }

  /** From behind the opener to behind the closer. With no closer the scan stops one character before the end. */
  function BlockLength(s: string): (n: nat)
    ensures n <= |s|
  {
    if |s| < 2 then 0
    else if s[0] == '*' && s[1] == '/' then 2
    else 1 + BlockLength(s[1..])
  }

  /** From behind the opening quote to behind the closing one, or to the end of the text. */
  function LiteralLength(s: string, quote: char): (n: nat)
    ensures n <= |s|
  {
    if s == [] then 0
    else if s[0] == quote then 1
    else if s[0] == '\\' && |s| >= 2 then 2 + LiteralLength(s[2..], quote)
    else 1 + LiteralLength(s[1..], quote)
  }

  /** The first token of a text. */
  function First(s: string): (n: nat)
    requires s != []
    ensures 1 <= n <= |s|
  {
    if OpensLine(s) then 2 + LineLength(s[2..])
    else if OpensBlock(s) then 2 + BlockLength(s[2..])
    else if IsQuote(s[0]) then 1 + LiteralLength(s[1..], s[0])
    else 1
  }

  function FirstToken(s: string): Token
    requires s != []
  {
    if OpensLine(s) || OpensBlock(s) then Comment(s[..First(s)])
    else if IsQuote(s[0]) then Literal(s[..First(s)])
    else Plain(s[0])
  }

  function Lex(s: string): seq<Token> {
    if s == [] then [] else [FirstToken(s)] + Lex(s[First(s)..])
  }

  function Kept(tokens: seq<Token>): seq<Token> {
    if tokens == [] then [] else (if tokens[0].Comment? then [] else [tokens[0]]) + Kept(tokens[1..])
  }

  function Text(t: Token): string {
    match t
    case Plain(c) => [c]
    case Literal(text) => text
    case Comment(text) => text
  }

  function Print(tokens: seq<Token>): string {
    if tokens == [] then "" else Text(tokens[0]) + Print(tokens[1..])
  }

  /** What the scan is for: the text without its comments. */
  function Strip(s: string): string {
    Print(Kept(Lex(s)))
  }

  // ------------------------------------------------------------------------------------------
  // The scan
  // ------------------------------------------------------------------------------------------

  method StripComments(code: string) returns (result: string)
    ensures result == Strip(code)
  {
    hide Strip, LineLength, BlockLength, LiteralLength;
    result := "";
    var i := 0;
    assert code[0..] == code;
    StripNothing();
    while i < |code|
      invariant 0 <= i <= |code|
      invariant result + Strip(code[i..]) == Strip(code)
    {
      ghost var before := result;
      StripNext(code[i..]);
      ghost var n := First(code[i..]);
      assert code[i..][n..] == code[i+n..];
      if i + 1 < |code| && code[i] == '/' && code[i+1] == '/' {
        i := SkipLine(code, i);
      } else if i + 1 < |code| && code[i] == '/' && code[i+1] == '*' {
        i := SkipBlock(code, i);
      } else if code[i] == '\'' || code[i] == '"' || code[i] == '`' {
        var text;
        text, i := CopyLiteral(code, i);
        result := result + text;
      } else {
        result := result + [code[i]];
        i := i + 1;
      }
    }
    assert code[i..] == "" && result + "" == result;
  }

  method SkipLine(code: string, start: nat) returns (i: nat)
    requires start < |code| && OpensLine(code[start..])
    ensures i == start + First(code[start..])
  {
    i := start;
    assert code[start..][1..][1..] == code[start..][2..];
    while i < |code| && code[i] != '\n'
      invariant start <= i <= |code|
      invariant i + LineLength(code[i..]) == start + First(code[start..])
    {
      assert code[i..][1..] == code[i+1..];
      i := i + 1;
    }
  }

  method SkipBlock(code: string, start: nat) returns (i: nat)
    requires start < |code| && OpensBlock(code[start..])
    ensures i == start + First(code[start..])
  {
    i := start + 2;
    assert code[start..][2..] == code[i..];
    while i + 1 < |code| && !(code[i] == '*' && code[i+1] == '/')
      invariant start + 2 <= i <= |code|
      invariant i + BlockLength(code[i..]) == start + First(code[start..])
    {
      assert code[i..][1..] == code[i+1..];
      i := i + 1;
    }
    if i + 1 < |code| {
      i := i + 2;
    }
  }

  method CopyLiteral(code: string, start: nat) returns (text: string, i: nat)
    requires start < |code| && IsQuote(code[start])
    ensures i == start + First(code[start..])
    ensures text == code[start..][..First(code[start..])]
  {
    hide First, LiteralLength;
    var quote := code[start];
    text := [quote];
    i := start + 1;
    LiteralOpens(code, start);
    while i < |code| && code[i] != quote
      invariant start + 1 <= i <= |code|
      invariant i + LiteralLength(code[i..], quote) == start + First(code[start..])
      invariant text == code[start..i]
    {
      LiteralStep(code, i, quote);
      Extend(code, start, i);
      if code[i] == '\\' && i + 1 < |code| {
        text := text + [code[i]];
        i := i + 1;
        Extend(code, start, i);
      }
      text := text + [code[i]];
      i := i + 1;
    }
    LiteralEnds(code, i, quote);
    if i < |code| {
      Extend(code, start, i);
      text := text + [code[i]];
      i := i + 1;
    }
    assert code[start..][..First(code[start..])] == code[start..i];
  }

  lemma LiteralOpens(code: string, start: nat)
    requires start < |code| && IsQuote(code[start])
    ensures First(code[start..]) == 1 + LiteralLength(code[start+1..], code[start])
  {
    assert code[start..][1..] == code[start+1..];
  }

  lemma LiteralEnds(code: string, i: nat, quote: char)
    requires i <= |code| && (i < |code| ==> code[i] == quote)
    ensures LiteralLength(code[i..], quote) == if i < |code| then 1 else 0
  {
  }

  lemma Extend(code: string, start: nat, i: nat)
    requires start <= i < |code|
    ensures code[start..i] + [code[i]] == code[start..i+1]
  {
  }

  lemma LiteralStep(code: string, i: nat, quote: char)
    requires i < |code| && code[i] != quote
    ensures var n := if code[i] == '\\' && i + 1 < |code| then 2 else 1;
            LiteralLength(code[i..], quote) == n + LiteralLength(code[i+n..], quote)
  {
    assert code[i..][1..] == code[i+1..];
    if i + 1 < |code| { assert code[i..][2..] == code[i+2..]; }
  }

  /** The text a token leaves behind. */
  function Left(t: Token): string {
    if t.Comment? then "" else Text(t)
  }

  lemma StripNothing()
    ensures Strip("") == ""
  {
  }

  lemma StripNext(s: string)
    requires s != []
    ensures Strip(s) == Left(FirstToken(s)) + Strip(s[First(s)..])
  {
    var t, rest := FirstToken(s), Lex(s[First(s)..]);
    assert ([t] + rest)[1..] == rest;
    assert ([t] + Kept(rest))[1..] == Kept(rest);
    assert [] + Kept(rest) == Kept(rest);
  }

  // ------------------------------------------------------------------------------------------
  // What stripping does to a text
  // ------------------------------------------------------------------------------------------

  ghost predicate Subsequence(a: string, b: string) {
    if a == "" then true
    else if b == "" then false
    else if a[0] == b[0] then Subsequence(a[1..], b[1..]) || Subsequence(a, b[1..])
    else Subsequence(a, b[1..])
  }

  lemma {:induction false} SubsequenceSkips(a: string, skip: string, b: string)
    requires Subsequence(a, b)
    ensures Subsequence(a, skip + b)
  {
    if skip == "" {
      assert skip + b == b;
    } else {
      SubsequenceSkips(a, skip[1..], b);
      assert (skip + b)[1..] == skip[1..] + b;
    }
  }

  lemma {:induction false} SubsequenceKeeps(keep: string, a: string, b: string)
    requires Subsequence(a, b)
    ensures Subsequence(keep + a, keep + b)
  {
    if keep == "" {
      assert keep + a == a && keep + b == b;
    } else {
      SubsequenceKeeps(keep[1..], a, b);
      assert (keep + a)[1..] == keep[1..] + a && (keep + b)[1..] == keep[1..] + b;
    }
  }

  /** Nothing is reordered and nothing is added. */
  lemma {:induction false} StripIsSubsequence(s: string)
    ensures Subsequence(Strip(s), s)
    decreases |s|
  {
    hide Strip, First, FirstToken;
    if s == "" {
      StripNothing();
    } else {
      var n := First(s);
      StripNext(s);
      StripIsSubsequence(s[n..]);
      assert s == s[..n] + s[n..];
      if FirstToken(s).Comment? {
        SubsequenceSkips(Strip(s[n..]), s[..n], s[n..]);
        assert "" + Strip(s[n..]) == Strip(s[n..]);
      } else {
        FirstTokenText(s);
        SubsequenceKeeps(s[..n], Strip(s[n..]), s[n..]);
      }
    }
  }

  lemma FirstTokenText(s: string)
    requires s != ""
    ensures Text(FirstToken(s)) == s[..First(s)]
  {
  }

  /** Cutting a text into tokens loses nothing. */
  lemma {:induction false} LexPrints(s: string)
    ensures Print(Lex(s)) == s
    decreases |s|
  {
    hide First, FirstToken;
    if s != "" {
      var n := First(s);
      FirstTokenText(s);
      LexPrints(s[n..]);
      assert ([FirstToken(s)] + Lex(s[n..]))[1..] == Lex(s[n..]);
      assert s == s[..n] + s[n..];
    }
  }

  /** A literal ends where it did, whatever follows it; one that runs to the end of the text must stay last. */
  lemma {:induction false} LiteralStays(s: string, quote: char, after: string)
    requires LiteralLength(s, quote) < |s| || after == ""
    ensures LiteralLength(s[..LiteralLength(s, quote)] + after, quote) == LiteralLength(s, quote)
    decreases |s|
  {
    hide LiteralLength;
    var n := LiteralLength(s, quote);
    var t := s[..n] + after;
    if after == "" && n == |s| {
      assert t == s;
    } else {
      LiteralUnfolds(s, quote);
      LiteralUnfolds(t, quote);
      if s[0] != quote {
        var m := if s[0] == '\\' && |s| >= 2 then 2 else 1;
        LiteralStays(s[m..], quote, after);
        assert t[m..] == s[m..][..n-m] + after;
      }
    }
  }

  lemma LiteralUnfolds(s: string, quote: char)
    requires s != ""
    ensures LiteralLength(s, quote) ==
      if s[0] == quote then 1
      else if s[0] == '\\' && |s| >= 2 then 2 + LiteralLength(s[2..], quote)
      else 1 + LiteralLength(s[1..], quote)
  {
  }

  /** What is left of the text behind the first token begins with what the token was followed by,
      unless a comment followed. */
  lemma StripBegins(s: string)
    requires s != "" && !OpensLine(s) && !OpensBlock(s)
    ensures Strip(s) != "" && Strip(s)[0] == s[0]
  {
    StripNext(s);
  }

  /** A kept token is still the first token once the text behind it has been stripped. */
  lemma FirstTokenStays(s: string)
    requires s != "" && !FirstToken(s).Comment?
    ensures var n := First(s);
            var t := s[..n] + Strip(s[n..]);
            First(t) == n && FirstToken(t) == FirstToken(s) && t[n..] == Strip(s[n..])
  {
    hide Strip;
    var n := First(s);
    var rest := Strip(s[n..]);
    var t := s[..n] + rest;
    assert t[..n] == s[..n] && t[n..] == rest;
    if IsQuote(s[0]) {
      if n == |s| { StripNothing(); }
      LiteralStays(s[1..], s[0], rest);
      assert t[1..] == s[1..][..n-1] + rest;
    } else {
      if s[0] == '/' && |s| > 1 { StripBegins(s[1..]); }
      if |s| == 1 { StripNothing(); }
    }
  }

  /** Stripping leaves the kept tokens as they were: it makes no new comment opener, and no string literal begins,
      ends or disappears. */
  lemma {:induction false} StripKeepsTokens(s: string)
    ensures Lex(Strip(s)) == Kept(Lex(s))
    decreases |s|
  {
    hide Strip, First, FirstToken;
    if s == "" {
      StripNothing();
    } else {
      var n := First(s);
      StripNext(s);
      StripKeepsTokens(s[n..]);
      assert ([FirstToken(s)] + Lex(s[n..]))[1..] == Lex(s[n..]);
      if FirstToken(s).Comment? {
        assert "" + Strip(s[n..]) == Strip(s[n..]);
      } else {
        FirstTokenText(s);
        FirstTokenStays(s);
      }
    }
  }

  ghost predicate NoComment(tokens: seq<Token>) {
    forall k | 0 <= k < |tokens| :: !tokens[k].Comment?
  }

  lemma {:induction false} KeptHasNoComment(tokens: seq<Token>)
    ensures NoComment(Kept(tokens))
  {
    if tokens != [] { KeptHasNoComment(tokens[1..]); }
  }

  lemma {:induction false} KeptKeeps(tokens: seq<Token>)
    requires NoComment(tokens)
    ensures Kept(tokens) == tokens
  {
    if tokens != [] { KeptKeeps(tokens[1..]); }
  }

  /** A second pass finds nothing to do. */
  lemma StripIsIdempotent(s: string)
    ensures Strip(Strip(s)) == Strip(s)
  {
    StripKeepsTokens(s);
    KeptHasNoComment(Lex(s));
    KeptKeeps(Kept(Lex(s)));
  }

  /** A text comes through unchanged exactly when it holds no comment. */
  lemma StripFixesExactlyCommentFree(s: string)
    ensures Strip(s) == s <==> NoComment(Lex(s))
  {
    if Strip(s) == s {
      StripKeepsTokens(s);
      KeptHasNoComment(Lex(s));
    } else {
      LexPrints(s);
      if NoComment(Lex(s)) { KeptKeeps(Lex(s)); }
    }
  }

  ghost predicate HasCloser(s: string) {
    exists k :: 0 <= k < |s| - 1 && s[k] == '*' && s[k+1] == '/'
  }

  lemma {:induction false} BlockWithoutCloser(s: string)
    requires !HasCloser(s)
    ensures BlockLength(s) == if |s| < 2 then 0 else |s| - 1
  {
    if |s| >= 2 {
      assert !(s[0] == '*' && s[0+1] == '/');
      forall k | 0 <= k < |s[1..]| - 1 ensures !(s[1..][k] == '*' && s[1..][k+1] == '/') {
        assert s[1..][k] == s[k+1] && s[1..][k+1] == s[k+1+1];
      }
      BlockWithoutCloser(s[1..]);
    }
  }

  /** A block comment that is never closed is not removed whole: its last character stays. */
  lemma UnclosedBlockKeepsItsLast(body: string)
    requires !HasCloser(body)
    ensures Strip("/*" + body) == if body == "" then "" else [body[|body|-1]]
  {
    var s := "/*" + body;
    assert s[2..] == body;
    BlockWithoutCloser(body);
    StripNext(s);
    var left := s[First(s)..];
    assert "" + Strip(left) == Strip(left);
    if body != "" {
      assert left == [body[|body|-1]];
      StripNext(left);
      FirstTokenText(left);
      assert left[First(left)..] == "";
    }
  }
}

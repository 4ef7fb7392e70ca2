/** The boundary-aware replacers: word_boundary_replace and apply_inline_subs (jsx_transformer.rs) and
    replace_with_boundary (mutation_transformer.rs). Both search for an occurrence, look at the characters around it,
    and jump over it whole, whether they replaced it or not. */
module Words {
  import opened Common

  // ------------------------------------------------------------------------------------------
  // Finding an occurrence
  // ------------------------------------------------------------------------------------------

  predicate OccursAt(text: string, pattern: string, i: nat) {
    i + |pattern| <= |text| && text[i..i+|pattern|] == pattern
  }

  /** The library search: the first occurrence from a position on. */
  method Find(text: string, pattern: string, start: nat) returns (found: bool, pos: nat)
    requires start <= |text|
    ensures found ==> start <= pos && OccursAt(text, pattern, pos)
    ensures found ==> forall i | start <= i < pos :: !OccursAt(text, pattern, i)
    ensures !found ==> forall i | start <= i :: !OccursAt(text, pattern, i)
  {
    pos := start;
    while pos + |pattern| <= |text|
      invariant start <= pos
      invariant forall i | start <= i < pos :: !OccursAt(text, pattern, i)
      decreases |text| - pos
    {
      if text[pos..pos+|pattern|] == pattern {
        return true, pos;
      }
      pos := pos + 1;
    }
    found := false;
  }

  // ------------------------------------------------------------------------------------------
  // Replacing, one character at a time
  // ------------------------------------------------------------------------------------------

  /** What is replaced: a text, the identifier characters, and whether the text must also end at a boundary. */
  datatype Target = Target(search: string, ident: char -> bool, whole: bool)
  {
    /** All but the last character belong to an identifier. */
    ghost predicate Valid() {
      search != "" && forall i | 0 <= i < |search| - 1 :: ident(search[i])
    }

    predicate Hit(s: string, prev: bool) {
      !prev && search <= s && (whole ==> |s| == |search| || !ident(s[|search|]))
    }

    function Last(): bool
      requires search != ""
    {
      ident(search[|search|-1])
    }
  }

  /** Every hit is replaced and every other character is kept; prev says that an identifier character came before. */
  ghost function Replaced(t: Target, rep: string, s: string, prev: bool): string
    requires t.search != ""
    decreases |s|
  {
    if s == "" then ""
    else if t.Hit(s, prev) then rep + Replaced(t, rep, s[|t.search|..], t.Last())
    else [s[0]] + Replaced(t, rep, s[1..], t.ident(s[0]))
  }

  /** Whether the character before i in the text belongs to an identifier. */
  ghost function Prev(t: Target, text: string, i: nat): bool
    requires i <= |text|
  {
    i > 0 && t.ident(text[i-1])
  }

  lemma {:induction false} NoOccurrence(t: Target, rep: string, text: string, i: nat, j: nat)
    requires t.search != "" && i <= j <= |text|
    requires forall k | i <= k < j :: !OccursAt(text, t.search, k)
    ensures Replaced(t, rep, text[i..], Prev(t, text, i)) == text[i..j] + Replaced(t, rep, text[j..], Prev(t, text, j))
    decreases j - i
  {
    if i < j {
      NoOccurrence(t, rep, text, i + 1, j);
      var s := text[i..];
      if t.search <= s {
        assert text[i..i+|t.search|] == s[..|t.search|];
        assert OccursAt(text, t.search, i);
      }
      assert s[1..] == text[i+1..];
      assert text[i..j] == [text[i]] + text[i+1..j];
    } else {
      assert text[i..j] == "";
    }
  }

  /** No hit can begin inside an occurrence: the character before it belongs to an identifier. */
  lemma {:induction false} InsideOccurrence(t: Target, rep: string, text: string, i: nat, k: nat)
    requires t.Valid() && OccursAt(text, t.search, i) && 0 < k <= |t.search|
    ensures Replaced(t, rep, text[i+k..], Prev(t, text, i + k))
         == text[i+k..i+|t.search|] + Replaced(t, rep, text[i+|t.search|..], t.Last())
    decreases |t.search| - k
  {
    hide Replaced, OccursAt, Prev;
    var n := |t.search|;
    OccurrenceIsPrefix(t, text, i);
    var rest := Replaced(t, rep, text[i+n..], t.Last());
    if k < n {
      InsideOccurrence(t, rep, text, i, k + 1);
      InsideIsNoHit(t, text, i, k);
      ReplacedMiss(t, rep, text, i + k);
      assert text[i+k..i+n] == [text[i+k]] + text[i+k+1..i+n];
      Regroup([text[i+k]], text[i+k+1..i+n], rest);
    } else {
      assert text[i+k..i+n] + rest == rest;
    }
  }

  lemma InsideIsNoHit(t: Target, text: string, i: nat, k: nat)
    requires t.Valid() && OccursAt(text, t.search, i) && 0 < k < |t.search|
    ensures !t.Hit(text[i+k..], Prev(t, text, i + k))
  {
    InOccurrence(t, text, i, k - 1);
  }

  lemma InOccurrence(t: Target, text: string, i: nat, k: nat)
    requires OccursAt(text, t.search, i) && k < |t.search|
    ensures text[i+k] == t.search[k]
  {
    assert text[i..i+|t.search|][k] == t.search[k];
  }

  lemma ReplacedMiss(t: Target, rep: string, text: string, i: nat)
    requires t.search != "" && i < |text| && !t.Hit(text[i..], Prev(t, text, i))
    ensures Replaced(t, rep, text[i..], Prev(t, text, i)) == [text[i]] + Replaced(t, rep, text[i+1..], Prev(t, text, i + 1))
  {
    assert text[i..][1..] == text[i+1..];
  }

  /** From start, the next occurrence is at pos and is a hit. */
  lemma HitReplaced(t: Target, rep: string, text: string, start: nat, pos: nat)
    requires t.Valid() && start <= pos && OccursAt(text, t.search, pos) && t.Hit(text[pos..], Prev(t, text, pos))
    requires forall k | start <= k < pos :: !OccursAt(text, t.search, k)
    ensures Replaced(t, rep, text[start..], Prev(t, text, start))
         == (text[start..pos] + rep) + Replaced(t, rep, text[pos+|t.search|..], Prev(t, text, pos + |t.search|))
  {
    NoOccurrence(t, rep, text, start, pos);
    OccurrenceIsPrefix(t, text, pos);
    assert text[pos..][|t.search|..] == text[pos+|t.search|..];
  }

  /** From start, the next occurrence is at pos and is no hit: the scan may jump over it whole. */
  lemma MissKept(t: Target, rep: string, text: string, start: nat, pos: nat)
    requires t.Valid() && start <= pos && OccursAt(text, t.search, pos) && !t.Hit(text[pos..], Prev(t, text, pos))
    requires forall k | start <= k < pos :: !OccursAt(text, t.search, k)
    ensures Replaced(t, rep, text[start..], Prev(t, text, start))
         == text[start..pos+|t.search|] + Replaced(t, rep, text[pos+|t.search|..], Prev(t, text, pos + |t.search|))
  {
    hide Replaced, Prev;
    var n := |t.search|;
    OccurrenceIsPrefix(t, text, pos);
    NoOccurrence(t, rep, text, start, pos);
    ReplacedMiss(t, rep, text, pos);
    InsideOccurrence(t, rep, text, pos, 1);
    OccurrenceText(text, start, pos, n);
    var rest := Replaced(t, rep, text[pos+n..], t.Last());
    Regroup([text[pos]], text[pos+1..pos+n], rest);
    Regroup(text[start..pos], [text[pos]] + text[pos+1..pos+n], rest);
  }

  lemma OccurrenceText(text: string, start: nat, pos: nat, n: nat)
    requires start <= pos < pos + n <= |text|
    ensures text[start..pos+n] == text[start..pos] + ([text[pos]] + text[pos+1..pos+n])
  {
  }

  lemma NoneLeft(t: Target, rep: string, text: string, start: nat)
    requires t.search != "" && start <= |text|
    requires forall k | start <= k :: !OccursAt(text, t.search, k)
    ensures Replaced(t, rep, text[start..], Prev(t, text, start)) == text[start..]
  {
    NoOccurrence(t, rep, text, start, |text|);
    assert text[start..|text|] + "" == text[start..];
  }

  lemma PrefixChars(a: string, b: string)
    requires a <= b
    ensures forall i | 0 <= i < |a| :: a[i] == b[i]
  {
  }

  lemma OccurrenceIsPrefix(t: Target, text: string, i: nat)
    requires OccursAt(text, t.search, i)
    ensures t.search <= text[i..] && i + |t.search| <= |text|
    ensures i + |t.search| < |text| ==> text[i..][|t.search|] == text[i+|t.search|]
    ensures t.search != "" ==> Prev(t, text, i + |t.search|) == t.Last()
  {
    assert text[i..][..|t.search|] == text[i..i+|t.search|];
    if t.search != "" { assert text[i..i+|t.search|][|t.search|-1] == t.search[|t.search|-1]; }
  }

  // ------------------------------------------------------------------------------------------
  // The two scanners
  // ------------------------------------------------------------------------------------------

  predicate IsWordChar(c: char) {
    'a' <= c <= 'z' || 'A' <= c <= 'Z' || '0' <= c <= '9' || c == '_' || c == '$'
  }

  predicate IsWord(s: string) {
    s != "" && forall i | 0 <= i < |s| :: IsWordChar(s[i])
  }

  function WordTarget(pattern: string): Target {
    Target(pattern, c => IsWordChar(c), true)
  }

  method WordBoundaryReplace(text: string, pattern: string, replacement: string) returns (result: string)
    requires IsWord(pattern)
    ensures result == Substituted(text, map[pattern := replacement])
  {
    hide Replaced, Substituted, OccursAt;
    var t := WordTarget(pattern);
    ReplacedIsSubstituted(pattern, replacement, text);
    assert text[0..] == text;
    var found, pos := Find(text, pattern, 0);
    if !found {
      NoneLeft(t, replacement, text, 0);
      return text;
    }
    result := "";
    var start: nat := 0;
    ghost var wanted := Replaced(t, replacement, text, false);
    while start < |text|
      invariant 0 <= start <= |text|
      invariant result + Replaced(t, replacement, text[start..], Prev(t, text, start)) == wanted
    {
      ghost var before := result;
      found, pos := Find(text, pattern, start);
      if !found {
        NoneLeft(t, replacement, text, start);
        result := result + text[start..];
        return;
      }
      OccurrenceIsPrefix(t, text, pos);
      var beforeOk := true;
      if pos > 0 {
        var prev := text[pos-1];
        beforeOk := !IsAsciiAlphanumeric(prev) && prev != '_' && prev != '$';
      }
      var after := pos + |pattern|;
      var afterOk := true;
      if after < |text| {
        var next := text[after];
        afterOk := !IsAsciiAlphanumeric(next) && next != '_' && next != '$';
      }
      var piece;
      if beforeOk && afterOk {
        HitReplaced(t, replacement, text, start, pos);
        piece := text[start..pos] + replacement;
      } else {
        MissKept(t, replacement, text, start, pos);
        piece := text[start..after];
      }
      result := result + piece;
      start := after;
      Regroup(before, piece, Replaced(t, replacement, text[start..], Prev(t, text, start)));
    }
    assert text[start..] == "";
    ReplacedNothing(t, replacement);
  }

  lemma ReplacedNothing(t: Target, rep: string)
    requires t.search != ""
    ensures forall p :: Replaced(t, rep, "", p) == ""
  {
  }

  /** The search text is a name followed by a suffix that ends it; the identifier characters are the caller's. */
  method ReplaceWithBoundary(text: string, name: string, suffix: char, replacement: string, ident: char -> bool)
      returns (result: string)
    requires forall i | 0 <= i < |name| :: ident(name[i])
    requires !ident(suffix)
    ensures result == Replaced(Target(name + [suffix], ident, false), replacement, text, false)
  {
    hide Replaced, OccursAt;
    var search := name + [suffix];
    var t := Target(search, ident, false);
    result := "";
    var remaining := text;
    ghost var wanted := Replaced(t, replacement, text, false);
    while true
      invariant result + Replaced(t, replacement, remaining, false) == wanted
      decreases |remaining|
    {
      ghost var before := result;
      assert remaining[0..] == remaining;
      var found, pos := Find(remaining, search, 0);
      if !found {
        NoneLeft(t, replacement, remaining, 0);
        break;
      }
      OccurrenceIsPrefix(t, remaining, pos);
      var piece;
      if pos > 0 && ident(remaining[pos-1]) {
        MissKept(t, replacement, remaining, 0, pos);
        piece := remaining[..pos+|search|];
      } else {
        HitReplaced(t, replacement, remaining, 0, pos);
        piece := remaining[..pos] + replacement;
      }
      result := result + piece;
      remaining := remaining[pos+|search|..];
      Regroup(before, piece, Replaced(t, replacement, remaining, false));
    }
    result := result + remaining;
  }

  // ------------------------------------------------------------------------------------------
  // Substituting whole words
  // ------------------------------------------------------------------------------------------

  function WordLength(s: string): (n: nat)
    ensures n <= |s|
    ensures forall i | 0 <= i < n :: IsWordChar(s[i])
    ensures n < |s| ==> !IsWordChar(s[n])
  {
    if s == "" || !IsWordChar(s[0]) then 0 else 1 + WordLength(s[1..])
  }

  /** The maximal runs of identifier characters. */
  ghost function WordsOf(s: string): set<string>
    decreases |s|
  {
    if s == "" then {}
    else if IsWordChar(s[0]) then {s[..WordLength(s)]} + WordsOf(s[WordLength(s)..])
    else WordsOf(s[1..])
  }

  /** Simultaneous substitution: each maximal run that is a key is replaced by its value, once. */
  ghost function Substituted(s: string, m: map<string, string>): string
    decreases |s|
  {
    if s == "" then ""
    else if IsWordChar(s[0]) then
      var w := s[..WordLength(s)];
      (if w in m then m[w] else w) + Substituted(s[WordLength(s)..], m)
    else [s[0]] + Substituted(s[1..], m)
  }

  lemma {:induction false} AfterWordChar(pattern: string, rep: string, s: string)
    requires IsWord(pattern)
    ensures Replaced(WordTarget(pattern), rep, s, true)
         == s[..WordLength(s)] + Replaced(WordTarget(pattern), rep, s[WordLength(s)..], true)
    decreases |s|
  {
    var t := WordTarget(pattern);
    if s != "" && IsWordChar(s[0]) {
      AfterWordChar(pattern, rep, s[1..]);
      var n := WordLength(s);
      assert s[..n] == [s[0]] + s[1..][..n-1];
      assert s[n..] == s[1..][n-1..];
    } else {
      assert s[..0] == "" && s[0..] == s;
    }
  }

  /** The scan of characters finds the pattern exactly where it is a whole word. */
  lemma {:induction false} ReplacedIsSubstituted(pattern: string, rep: string, s: string)
    requires IsWord(pattern)
    ensures Replaced(WordTarget(pattern), rep, s, false) == Substituted(s, map[pattern := rep])
    decreases |s|
  {
    var t := WordTarget(pattern);
    if s != "" {
      var n := WordLength(s);
      if IsWordChar(s[0]) {
        ReplacedIsSubstituted(pattern, rep, s[n..]);
        WordReplaced(pattern, rep, s);
      } else {
        ReplacedIsSubstituted(pattern, rep, s[1..]);
        if t.search <= s { PrefixChars(t.search, s); assert false; }
      }
    }
  }

  lemma WordReplaced(pattern: string, rep: string, s: string)
    requires IsWord(pattern) && s != "" && IsWordChar(s[0])
    ensures Replaced(WordTarget(pattern), rep, s, false)
         == (if s[..WordLength(s)] == pattern then rep else s[..WordLength(s)])
            + Replaced(WordTarget(pattern), rep, s[WordLength(s)..], true)
  {
    hide Replaced, WordLength;
    var t, n := WordTarget(pattern), WordLength(s);
    ReplacedNext(t, rep, s, false);
    WordStarts(s);
    if s[..n] == pattern {
      assert t.Hit(s, false) && t.Last();
    } else {
      if t.Hit(s, false) { WordIsWhole(s, pattern); assert false; }
      var w := s[1..][..n-1];
      AfterWordChar(pattern, rep, s[1..]);
      Regroup([s[0]], w, Replaced(t, rep, s[n..], true));
    }
  }

  lemma WordStarts(s: string)
    requires s != "" && IsWordChar(s[0])
    ensures var n := WordLength(s);
      n == 1 + WordLength(s[1..]) && s[..n] == [s[0]] + s[1..][..n-1] && s[n..] == s[1..][n-1..]
  {
    hide WordLength, IsWordChar;
    WordUnfolds(s);
  }

  lemma ReplacedNext(t: Target, rep: string, s: string, prev: bool)
    requires t.search != "" && s != ""
    ensures Replaced(t, rep, s, prev) ==
      if t.Hit(s, prev) then rep + Replaced(t, rep, s[|t.search|..], t.Last()) else [s[0]] + Replaced(t, rep, s[1..], t.ident(s[0]))
  {
  }

  lemma WordIsWhole(s: string, pattern: string)
    requires IsWord(pattern) && pattern <= s && (|pattern| < |s| ==> !IsWordChar(s[|pattern|]))
    ensures s[..WordLength(s)] == pattern
  {
    var n := WordLength(s);
    if n < |pattern| { PrefixChars(pattern, s); assert false; }
    assert s[..|pattern|] == pattern;
  }

  // ------------------------------------------------------------------------------------------
  // One substitution after another
  // ------------------------------------------------------------------------------------------

  ghost predicate Boundary(a: string, b: string) {
    a == "" || b == "" || !IsWordChar(a[|a|-1]) || !IsWordChar(b[0])
  }

  lemma {:induction false} SubstitutedConcat(a: string, b: string, m: map<string, string>)
    requires Boundary(a, b)
    ensures Substituted(a + b, m) == Substituted(a, m) + Substituted(b, m)
    ensures WordsOf(a + b) == WordsOf(a) + WordsOf(b)
    decreases |a|
  {
    hide Substituted, WordsOf;
    var s := a + b;
    if a == "" {
      assert s == b;
      NothingSubstituted(m);
    } else {
      var n := if IsWordChar(a[0]) then WordLength(a) else 1;
      if IsWordChar(a[0]) { WordLengthConcat(a, b); }
      SubstitutedStep(s, m);
      SubstitutedStep(a, m);
      assert s[..n] == a[..n] && s[n..] == a[n..] + b;
      SubstitutedConcat(a[n..], b, m);
      Regroup(if IsWordChar(a[0]) && a[..n] in m then m[a[..n]] else a[..n], Substituted(a[n..], m), Substituted(b, m));
    }
  }

  lemma NothingSubstituted(m: map<string, string>)
    ensures Substituted("", m) == "" && WordsOf("") == {}
  {
  }

  lemma SubstitutedStep(s: string, m: map<string, string>)
    requires s != ""
    ensures var n := if IsWordChar(s[0]) then WordLength(s) else 1;
      && Substituted(s, m) == (if IsWordChar(s[0]) && s[..n] in m then m[s[..n]] else s[..n]) + Substituted(s[n..], m)
      && WordsOf(s) == (if IsWordChar(s[0]) then {s[..n]} else {}) + WordsOf(s[n..])
  {
  }

  lemma {:induction false} WordLengthConcat(a: string, b: string)
    requires Boundary(a, b) && a != ""
    ensures WordLength(a + b) == WordLength(a)
  {
    hide WordLength, IsWordChar;
    assert (a + b)[1..] == a[1..] + b;
    WordUnfolds(a + b);
    WordUnfolds(a);
    if IsWordChar(a[0]) {
      if |a| > 1 {
        WordLengthConcat(a[1..], b);
      } else {
        assert a[1..] + b == b && a[1..] == "";
        if b != "" { WordUnfolds(b); }
      }
    }
  }

  lemma WordUnfolds(s: string)
    requires s != ""
    ensures WordLength(s) == (if IsWordChar(s[0]) then 1 + WordLength(s[1..]) else 0) && WordLength("") == 0
  {
  }

  lemma {:induction false} NothingToSubstitute(s: string, m: map<string, string>)
    requires forall w | w in WordsOf(s) :: w !in m
    ensures Substituted(s, m) == s
    decreases |s|
  {
    if s != "" {
      if IsWordChar(s[0]) {
        NothingToSubstitute(s[WordLength(s)..], m);
      } else {
        NothingToSubstitute(s[1..], m);
      }
    }
  }

  /** A value in parentheses keeps clear of the words around it. */
  ghost predicate Fenced(v: string) {
    |v| >= 2 && !IsWordChar(v[0]) && !IsWordChar(v[|v|-1])
  }

  /** What is left of the text behind a word does not run into it. */
  lemma SubstitutedBegins(s: string, m: map<string, string>)
    requires s != "" ==> !IsWordChar(s[0])
    ensures Substituted(s, m) == "" || !IsWordChar(Substituted(s, m)[0])
  {
  }

  lemma {:induction false} OneMore(s: string, m: map<string, string>, n: string, v: string)
    requires n !in m && forall k | k in m :: Fenced(m[k]) && n !in WordsOf(m[k])
    ensures Substituted(Substituted(s, m), map[n := v]) == Substituted(s, m[n := v])
    decreases |s|
  {
    var one := map[n := v];
    if s == "" {
    } else if IsWordChar(s[0]) {
      var w, rest := s[..WordLength(s)], s[WordLength(s)..];
      OneMore(rest, m, n, v);
      SubstitutedBegins(rest, m);
      var head := if w in m then m[w] else w;
      SubstitutedConcat(head, Substituted(rest, m), one);
      if w in m {
        NothingToSubstitute(m[w], one);
      } else {
        WordAlone(w, one);
      }
    } else {
      OneMore(s[1..], m, n, v);
      var rest := Substituted(s[1..], m);
      assert ([s[0]] + rest)[1..] == rest;
    }
  }

  lemma WordAlone(w: string, m: map<string, string>)
    requires IsWord(w)
    ensures Substituted(w, m) == if w in m then m[w] else w
    ensures WordsOf(w) == {w}
  {
    WordIsWhole(w, w);
    var n := WordLength(w);
    assert w[n..] == "" && w[..n] == w;
  }

  function Wrap(locals: map<string, string>): map<string, string> {
    map k | k in locals :: "(" + locals[k] + ")"
  }

  /** Every name in the order, once; the source walks a hash map, so any order may come. */
  ghost predicate IsOrder(order: seq<string>, names: set<string>) {
    && (forall n :: n in order <==> n in names)
    && forall i, j | 0 <= i < j < |order| :: order[i] != order[j]
  }

  ghost function InTurn(s: string, locals: map<string, string>, order: seq<string>): string
    requires forall n | n in order :: n in locals
    decreases |order|
  {
    if order == [] then s
    else InTurn(Substituted(s, map[order[0] := "(" + locals[order[0]] + ")"]), locals, order[1..])
  }

  method ApplyInlineSubs(text: string, locals: map<string, string>) returns (result: string)
    requires forall n | n in locals :: IsWord(n)
    ensures exists order :: IsOrder(order, locals.Keys) && result == InTurn(text, locals, order)
  {
    result := text;
    ghost var order: seq<string> := [];
    var todo := locals.Keys;
    while todo != {}
      invariant todo <= locals.Keys && IsOrder(order, locals.Keys - todo)
      invariant result == InTurn(text, locals, order)
    {
      var name :| name in todo;
      todo := todo - {name};
      InTurnLast(text, locals, order, name);
      result := WordBoundaryReplace(result, name, "(" + locals[name] + ")");
      order := order + [name];
    }
  }

  lemma {:induction false} InTurnLast(s: string, locals: map<string, string>, order: seq<string>, name: string)
    requires name in locals && forall n | n in order :: n in locals
    ensures forall n | n in order + [name] :: n in locals
    ensures InTurn(s, locals, order + [name])
         == Substituted(InTurn(s, locals, order), map[name := "(" + locals[name] + ")"])
    decreases |order|
  {
    if order == [] {
      assert order + [name] == [name];
    } else {
      assert (order + [name])[1..] == order[1..] + [name];
      InTurnLast(Substituted(s, map[order[0] := "(" + locals[order[0]] + ")"]), locals, order[1..], name);
    }
  }

  /** No replacement text mentions another inlined name as a whole word. */
  ghost predicate Independent(locals: map<string, string>) {
    forall x, y | x in locals && y in locals && x != y :: y !in WordsOf(locals[x])
  }

  lemma WrapWords(r: string)
    ensures Fenced("(" + r + ")") && WordsOf("(" + r + ")") == WordsOf(r)
  {
    SubstitutedConcat(r, ")", map[]);
    SubstitutedConcat("(", r + ")", map[]);
    assert "(" + r + ")" == "(" + (r + ")");
    assert ")"[1..] == "" && "("[1..] == "";
  }

  lemma {:induction false} InTurnIsSimultaneous(s: string, locals: map<string, string>, order: seq<string>, done: map<string, string>)
    requires Independent(locals) && (forall n | n in order :: n in locals && n !in done)
    requires forall i, j | 0 <= i < j < |order| :: order[i] != order[j]
    requires forall k | k in done :: k in locals && done[k] == "(" + locals[k] + ")"
    ensures InTurn(Substituted(s, done), locals, order)
         == Substituted(s, done + map k | k in order :: "(" + locals[k] + ")")
    decreases |order|
  {
    hide Substituted, WordsOf, Fenced;
    WrapMore(locals, order, done);
    if order != [] {
      var n := order[0];
      var v := "(" + locals[n] + ")";
      forall k | k in done ensures Fenced(done[k]) && n !in WordsOf(done[k]) { WrapWords(locals[k]); }
      OneMore(s, done, n, v);
      InTurnIsSimultaneous(s, locals, order[1..], done[n := v]);
    }
  }

  lemma WrapMore(locals: map<string, string>, order: seq<string>, done: map<string, string>)
    requires forall n | n in order :: n in locals && n !in done
    requires forall i, j | 0 <= i < j < |order| :: order[i] != order[j]
    ensures order == [] ==> done + (map k | k in order :: "(" + locals[k] + ")") == done
    ensures order != [] ==>
      done[order[0] := "(" + locals[order[0]] + ")"] + (map k | k in order[1..] :: "(" + locals[k] + ")")
      == done + map k | k in order :: "(" + locals[k] + ")"
  {
  }

  // ------------------------------------------------------------------------------------------
  // When the order shows
  // ------------------------------------------------------------------------------------------

  ghost function Parens(s: string): nat {
    if s == "" then 0 else (if s[0] == '(' then 1 else 0) + Parens(s[1..])
  }

  lemma {:induction false} ParensConcat(a: string, b: string)
    ensures Parens(a + b) == Parens(a) + Parens(b)
  {
    if a == "" {
      assert a + b == b;
    } else {
      assert (a + b)[1..] == a[1..] + b;
      ParensConcat(a[1..], b);
    }
  }

  lemma {:induction false} WordHasNoParens(w: string)
    requires forall i | 0 <= i < |w| :: IsWordChar(w[i])
    ensures Parens(w) == 0
  {
    if w != "" { WordHasNoParens(w[1..]); }
  }

  /** Putting a name in parentheses shows: each place adds a parenthesis and none is lost. */
  lemma {:induction false} SubstitutedAddsParens(s: string, n: string, r: string)
    ensures Parens(Substituted(s, map[n := "(" + r + ")"])) >= Parens(s) + if n in WordsOf(s) then 1 else 0
    decreases |s|
  {
    var m := map[n := "(" + r + ")"];
    if s == "" {
    } else if IsWordChar(s[0]) {
      var w, rest := s[..WordLength(s)], s[WordLength(s)..];
      SubstitutedAddsParens(rest, n, r);
      assert s == w + rest;
      ParensConcat(w, rest);
      ParensConcat(if w in m then m[w] else w, Substituted(rest, m));
      WordHasNoParens(w);
    } else {
      SubstitutedAddsParens(s[1..], n, r);
      var rest := Substituted(s[1..], m);
      assert ([s[0]] + rest)[1..] == rest;
    }
  }

  lemma {:induction false} InTurnKeepsParens(s: string, locals: map<string, string>, order: seq<string>)
    requires forall n | n in order :: n in locals
    ensures Parens(InTurn(s, locals, order)) >= Parens(s)
    decreases |order|
  {
    if order != [] {
      SubstitutedAddsParens(s, order[0], locals[order[0]]);
      InTurnKeepsParens(Substituted(s, map[order[0] := "(" + locals[order[0]] + ")"]), locals, order[1..]);
    }
  }

  lemma {:induction false} InTurnSkips(x: string, locals: map<string, string>, order: seq<string>)
    requires IsWord(x) && forall n | n in order :: n in locals && n != x
    ensures InTurn(x, locals, order) == x
    decreases |order|
  {
    if order != [] {
      WordAlone(x, map[order[0] := "(" + locals[order[0]] + ")"]);
      InTurnSkips(x, locals, order[1..]);
    }
  }

  lemma {:induction false} SomeOrder(names: set<string>) returns (order: seq<string>)
    ensures IsOrder(order, names)
    decreases names
  {
    if names == {} {
      order := [];
    } else {
      var n :| n in names;
      order := SomeOrder(names - {n});
      order := order + [n];
    }
  }

  /** Where one replacement mentions another name, two orders give two texts. */
  lemma OrderShows(locals: map<string, string>, x: string, y: string)
    requires forall n | n in locals :: IsWord(n)
    requires x in locals && y in locals && x != y && y in WordsOf(locals[x])
    ensures exists o1, o2 :: IsOrder(o1, locals.Keys) && IsOrder(o2, locals.Keys) && InTurn(x, locals, o1) != InTurn(x, locals, o2)
  {
    hide InTurn, IsOrder, WordsOf;
    var rest := SomeOrder(locals.Keys - {x, y});
    assert forall n | n in rest :: n in locals && n != x by { OrdersAreOrders(locals.Keys, x, y, rest); }
    OneFirst(locals, x, y, rest);
    OneLast(locals, x, y, rest);
    OrdersAreOrders(locals.Keys, x, y, rest);
  }

  /** x first, then y: the replacement of x is itself searched for y. */
  lemma OneFirst(locals: map<string, string>, x: string, y: string, rest: seq<string>)
    requires IsWord(x) && x in locals && y in locals && y in WordsOf(locals[x]) && forall n | n in rest :: n in locals
    ensures Parens(InTurn(x, locals, [x, y] + rest)) > Parens("(" + locals[x] + ")")
  {
    hide Substituted, WordsOf, Parens;
    var o1, rx := [x, y] + rest, "(" + locals[x] + ")";
    WrapWords(locals[x]);
    WordAlone(x, map[x := rx]);
    assert o1[1..] == [y] + rest && ([y] + rest)[1..] == rest;
    SubstitutedAddsParens(rx, y, locals[y]);
    InTurnKeepsParens(Substituted(rx, map[y := "(" + locals[y] + ")"]), locals, rest);
    assert InTurn(x, locals, o1) == InTurn(rx, locals, [y] + rest);
  }

  /** x last: nothing searches its replacement. */
  lemma OneLast(locals: map<string, string>, x: string, y: string, rest: seq<string>)
    requires IsWord(x) && x in locals && y in locals && x != y && forall n | n in rest :: n in locals && n != x
    ensures InTurn(x, locals, [y] + rest + [x]) == "(" + locals[x] + ")"
  {
    hide Substituted, WordsOf;
    WordAlone(x, map[x := "(" + locals[x] + ")"]);
    InTurnSkips(x, locals, [y] + rest);
    InTurnLast(x, locals, [y] + rest, x);
  }

  lemma OrdersAreOrders(names: set<string>, x: string, y: string, rest: seq<string>)
    requires x in names && y in names && x != y && IsOrder(rest, names - {x, y})
    ensures IsOrder([x, y] + rest, names) && IsOrder([y] + rest + [x], names)
    ensures forall n | n in rest :: n in names && n != x
  {
    var o1, o2 := [x, y] + rest, [y] + rest + [x];
    forall n ensures (n in o1 <==> n in names) && (n in o2 <==> n in names) {
      assert n in o1 <==> n == x || n == y || n in rest;
      assert n in o2 <==> n == x || n == y || n in rest;
    }
    assert forall i | 0 <= i < |rest| :: rest[i] in rest;
  }

  /** Inlining gives every text the same result in every order, and then it is simultaneous substitution,
      exactly when no replacement mentions another inlined name. */
  lemma InliningIsSimultaneous(locals: map<string, string>)
    requires forall n | n in locals :: IsWord(n)
    ensures Independent(locals) <==>
      forall text, order | IsOrder(order, locals.Keys) :: InTurn(text, locals, order) == Substituted(text, Wrap(locals))
    ensures Independent(locals) <==>
      forall text, o1, o2 | IsOrder(o1, locals.Keys) && IsOrder(o2, locals.Keys) :: InTurn(text, locals, o1) == InTurn(text, locals, o2)
  {
    hide InTurn, Substituted, Independent, Wrap;
    if Independent(locals) {
      forall text, order | IsOrder(order, locals.Keys) ensures InTurn(text, locals, order) == Substituted(text, Wrap(locals)) {
        AnyOrderIsSimultaneous(text, locals, order);
      }
    } else {
      DependenceShows(locals);
    }
  }

  lemma AnyOrderIsSimultaneous(text: string, locals: map<string, string>, order: seq<string>)
    requires forall n | n in locals :: IsWord(n)
    requires Independent(locals) && IsOrder(order, locals.Keys)
    ensures InTurn(text, locals, order) == Substituted(text, Wrap(locals))
  {
    hide InTurn, Substituted, IsWord;
    NothingToSubstitute(text, map[]);
    InTurnIsSimultaneous(text, locals, order, map[]);
    assert map[] + (map k | k in order :: "(" + locals[k] + ")") == Wrap(locals);
  }

  lemma DependenceShows(locals: map<string, string>)
    requires forall n | n in locals :: IsWord(n)
    requires !Independent(locals)
    ensures exists text, o1, o2 | IsOrder(o1, locals.Keys) && IsOrder(o2, locals.Keys) ::
      InTurn(text, locals, o1) != InTurn(text, locals, o2)
  {
    hide InTurn, IsWord;
    var x, y :| x in locals && y in locals && x != y && y in WordsOf(locals[x]);
    OrderShows(locals, x, y);
  }
}

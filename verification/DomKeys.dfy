/** The key of a list's rows, as the DOM generator prints it (jsx_transformer.rs): the text of a name or of names joined by
    dots, and whether it refers to the index of the callback. */
module DomKeys {
  import opened Common
  import Words

  /** An expression, as far as the generator or a reader of its text looks into it. Tight is any other one that may stand
      before a dot at the start of a statement, and Loose all that is left. */
  datatype Shape = Name(name: Identifier) | Member(owner: Shape, field: Identifier) | Tight | Loose

  type Identifier = s: string | s != "" && '.' !in s witness "x"

  function FormatExprText(e: Shape): string {
    match e
    case Name(name) => name
    case Member(owner, field) => FormatExprText(owner) + "." + field
    case _ => ""
  }

  /** The names of a dotted expression, the first one first. */
  ghost function NamesIn(e: Shape): seq<string> {
    match e
    case Name(name) => [name]
    case Member(owner, field) => NamesIn(owner) + [field]
    case _ => []
  }

  ghost function Dotted(names: seq<string>): string {
    if names == [] then "" else if |names| == 1 then names[0] else names[0] + "." + Dotted(names[1..])
  }

  lemma {:induction false} DottedAppends(names: seq<string>, last: string)
    requires names != []
    ensures Dotted(names + [last]) == Dotted(names) + "." + last
  {
    if |names| == 1 {
      assert (names + [last])[1..] == [last];
    } else {
      assert (names + [last])[1..] == names[1..] + [last];
      DottedAppends(names[1..], last);
    }
  }

  /** The key's text is all of its names, joined by dots. */
  lemma {:induction false} TextIsTheNames(e: Shape)
    requires IsDotted(e)
    ensures NamesIn(e) != [] && FormatExprText(e) == Dotted(NamesIn(e))
  {
    if e.Member? {
      TextIsTheNames(e.owner);
      DottedAppends(NamesIn(e.owner), e.field);
    }
  }

  /** A name, or names joined by dots. */
  predicate IsDotted(e: Shape) { e.Name? || (e.Member? && IsDotted(e.owner)) }

  /** A property of it can be assigned to. */
  predicate IsTarget(e: Shape) { if e.Member? then IsTarget(e.owner) else !e.Loose? }

  function Root(e: Shape): Identifier
    requires IsDotted(e)
  {
    if e.Name? then e.name else Root(e.owner)
  }

  /** What an arrow function can return: its text is there, and begins with a name. */
  predicate HasText(text: string) { text != "" && text[0] != '.' }

  lemma {:induction false} HasTextIffDotted(e: Shape)
    ensures HasText(FormatExprText(e)) <==> IsDotted(e)
    ensures !IsDotted(e) && FormatExprText(e) != "" ==> FormatExprText(e)[0] == '.'
  {
    if e.Member? { HasTextIffDotted(e.owner); }
  }

  /** The name that a dotted text begins with. */
  function FirstName(text: string): string {
    if text == "" || text[0] == '.' then "" else [text[0]] + FirstName(text[1..])
  }

  lemma {:induction false} FirstNameIs(name: string, rest: string)
    requires '.' !in name && (rest == "" || rest[0] == '.')
    ensures FirstName(name + rest) == name
  {
    if name == "" {
      assert name + rest == rest;
    } else {
      assert (name + rest)[1..] == name[1..] + rest;
      FirstNameIs(name[1..], rest);
    }
  }

  lemma {:induction false} RootIsFirstName(e: Shape)
    requires IsDotted(e)
    ensures FirstName(FormatExprText(e)) == Root(e)
  {
    RootIsFirst(e);
    var text, root := FormatExprText(e), Root(e);
    assert text == root + text[|root|..];
    FirstNameIs(root, text[|root|..]);
  }

  // ------------------------------------------------------------------------------------------
  // The search for the index
  // ------------------------------------------------------------------------------------------

  predicate IsNameChar(c: char) { 'a' <= c <= 'z' || 'A' <= c <= 'Z' || '0' <= c <= '9' || c == '_' || c == '$' }

  /** The name stands at i, not as a part of a longer one, and not as a property. */
  predicate StandsAt(key: string, name: string, i: nat) {
    Words.OccursAt(key, name, i)
    && (i > 0 ==> !IsNameChar(key[i-1]) && key[i-1] != '.')
    && (i + |name| < |key| ==> !IsNameChar(key[i+|name|]))
  }

  predicate References(key: string, name: string) { exists i | 0 <= i <= |key| :: StandsAt(key, name, i) }

  method KeyReferencesIndex(key: string, name: string) returns (found: bool)
    requires name != ""
    ensures found <==> References(key, name)
  {
    var start := 0;
    while true
      invariant start <= |key|
      invariant forall i | 0 <= i < start :: !StandsAt(key, name, i)
      decreases |key| - start
    {
      var occurs, pos := Words.Find(key, name, start);
      if !occurs {
        return false;
      }
      var okBefore := true;
      if pos > 0 {
        var prev := key[pos-1];
        okBefore := !IsAsciiAlphanumeric(prev) && prev != '_' && prev != '$' && prev != '.';
      }
      var okAfter := true;
      if pos + |name| < |key| {
        var next := key[pos+|name|];
        okAfter := !IsAsciiAlphanumeric(next) && next != '_' && next != '$';
      }
      if okBefore && okAfter {
        assert StandsAt(key, name, pos);
        return true;
      }
      start := pos + 1;
    }
  }

  predicate IsName(s: string) { s != "" && forall c <- s :: IsNameChar(c) }

  predicate HasNames(e: Shape) {
    match e
    case Name(name) => IsName(name)
    case Member(owner, field) => HasNames(owner) && IsName(field)
    case _ => false
  }

  /** The text of a dotted expression is its root, and what follows begins with a dot. */
  lemma {:induction false} RootIsFirst(e: Shape)
    requires IsDotted(e)
    ensures Root(e) <= FormatExprText(e)
    ensures |Root(e)| < |FormatExprText(e)| ==> FormatExprText(e)[|Root(e)|] == '.'
  {
    if e.Member? { RootIsFirst(e.owner); }
  }

  lemma RootIsReferenced(e: Shape)
    requires IsDotted(e)
    ensures References(FormatExprText(e), Root(e))
  {
    RootIsFirst(e);
    assert StandsAt(FormatExprText(e), Root(e), 0);
  }

  lemma {:induction false} HasNameChars(e: Shape)
    requires HasNames(e)
    ensures IsDotted(e) && IsName(Root(e))
    ensures forall c <- FormatExprText(e) :: IsNameChar(c) || c == '.'
  {
    if e.Member? { HasNameChars(e.owner); }
  }

  /** The search finds the index exactly if the key begins with it: `i.id` refers to i, `x.i` and `it.i.i` do not. */
  lemma ReferencesIffRoot(e: Shape, name: string)
    requires HasNames(e) && IsName(name)
    ensures IsDotted(e) && (References(FormatExprText(e), name) <==> Root(e) == name)
  {
    HasNameChars(e);
    RootIsFirst(e);
    RootIsReferenced(e);
    var key, root := FormatExprText(e), Root(e);
    if References(key, name) {
      var i :| 0 <= i <= |key| && StandsAt(key, name, i);
      assert i == 0;
      assert name == key[..|name|] && root == key[..|root|];
      assert |name| == |root|;
    }
  }
}

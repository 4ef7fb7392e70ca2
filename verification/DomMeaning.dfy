/** What the program of the DOM generator builds, and when it is the tree that was written. */
module DomMeaning {
  import opened Common
  import opened JsString
  import JsxText
  import opened DomKeys
  import opened Dom
  import opened DomRuns
  import opened DomParses

  // ------------------------------------------------------------------------------------------
  // The names that a tree uses
  // ------------------------------------------------------------------------------------------

  ghost function AttrsFree(attrs: seq<Attr>): set<string>
    decreases attrs, 0
  {
    if attrs == [] then {} else AttrFree(attrs[0]) + AttrsFree(attrs[1..])
  }

  ghost function AttrFree(a: Attr): set<string>
    decreases a, 0
  {
    match a
    case Expression(name, js, _, _, _) => if name == "key" then {} else js.free + HoldsFree(js.holds)
    case Spread(js) => js.free
    case Markup(_, n) => Free(n)
    case _ => {}
  }

  ghost function HoldsFree(holds: seq<Held>): set<string>
    decreases holds, 0
  {
    if holds == [] then {} else HeldFree(holds[0]) + HoldsFree(holds[1..])
  }

  ghost function HeldFree(h: Held): set<string>
    decreases h, 0
  {
    Free(h.node)
  }

  ghost function Free(n: Node): set<string>
    decreases n, 0
  {
    match n
    case Element(_, attrs, children) => AttrsFree(attrs) + FreeAll(children)
    case Component(_, attrs, children) => AttrsFree(attrs) + FreeAll(children)
    case Fragment(children) => FreeAll(children)
    case Braces(e) => FreeExpr(e)
    case _ => {}
  }

  ghost function FreeAll(children: seq<Node>): set<string>
    decreases children, 0
  {
    if children == [] then {} else Free(children[0]) + FreeAll(children[1..])
  }

  ghost function Names(xs: seq<string>): set<string> { set x | x in xs }

  ghost function FreeExpr(e: Expr): set<string>
    decreases e, 0
  {
    match e
    case Plain(js, _, _) => js.free
    case Cond(test, yes, no) => test.free + FreeBranch(yes) + FreeBranch(no)
    case And(test, yes) => test.free + FreeBranch(yes)
    case Mapped(list, item, others, _, body) => list.free + (FreeBody(body) + KeyFree(body) - {item} - Names(others))
  }

  ghost function FreeBody(body: Body): set<string>
    decreases body, 0
  {
    match body
    case Whole(n) => Free(n)
    case Block(js, locals, _, n) => js.free + (Free(n) - Names(locals))
    case Buried(js, locals, _, _, n) => js.free + (Free(n) - Names(locals))
    case Without(js) => js.free
  }

  function Locals(body: Body): seq<string> { if body.Block? || body.Buried? then body.locals else [] }

  ghost function KeyFree(body: Body): set<string> {
    if BodyKey(body).Some? then BodyKey(body).value.js.free - Names(Locals(body)) else {}
  }

  ghost function FreeBranch(b: Branch): set<string>
    decreases b, 0
  {
    match b
    case Jsx(n) => Free(n)
    case Other(js) => js.free
    case Inner(test, yes, no) => test.free + FreeBranch(yes) + FreeBranch(no)
    case Around(js, _, _, test, yes, no) => js.free + test.free + FreeBranch(yes) + FreeBranch(no)
  }

  lemma CloseAgrees(js: Js, a: Scope, b: Scope)
    requires Agree(a, b, js.free)
    ensures Close(js, a) == Close(js, b)
  {
    RestrictAgrees(a, b, js.free);
  }

  lemma WithinAgrees(js: Js, locals: seq<string>, a: Scope, b: Scope, w: World, used: set<string>)
    requires Agree(a, b, js.free + (used - Names(locals)))
    ensures Agree(Within(a, Close(js, a), locals, w), Within(b, Close(js, b), locals, w), used)
  {
    CloseAgrees(js, a, b);
    assert forall x | x in locals :: x in Names(locals);
  }

  lemma {:induction false} AttrsAgree(tag: string, attrs: seq<Attr>, a: Scope, b: Scope, w: World)
    requires Agree(a, b, AttrsFree(attrs))
    ensures Wanted(tag, attrs, a, w) == Wanted(tag, attrs, b, w)
  {
    hide Close, Guarded, HoldsFree;
    if attrs != [] {
      if (attrs[0].Expression? && attrs[0].name != "key") || attrs[0].Spread? { CloseAgrees(attrs[0].js, a, b); }
      AttrsAgree(tag, attrs[1..], a, b, w);
    }
  }

  lemma {:induction false} PropsAgree(attrs: seq<Attr>, a: Scope, b: Scope, w: World)
    requires Agree(a, b, AttrsFree(attrs))
    ensures MeantProps(attrs, a, w) == MeantProps(attrs, b, w)
    decreases attrs, 0
  {
    hide AttrFree, MeantProp;
    if attrs != [] {
      PropAgrees(attrs[0], a, b, w);
      PropsAgree(attrs[1..], a, b, w);
    }
  }

  lemma {:induction false} PropAgrees(p: Attr, a: Scope, b: Scope, w: World)
    requires Agree(a, b, AttrFree(p))
    ensures MeantProp(p, a, w) == MeantProp(p, b, w)
    decreases p, 0
  {
    hide Close, HoldsFree, MeantParts;
    if (p.Expression? && p.name != "key") || p.Spread? { CloseAgrees(p.js, a, b); }
    if p.Expression? && p.name != "key" { PartsAgree(p.js.holds, a, b, w); }
    if p.Markup? { MeantAgrees(p.node, a, b, w); }
  }

  lemma {:induction false} PartsAgree(holds: seq<Held>, a: Scope, b: Scope, w: World)
    requires Agree(a, b, HoldsFree(holds))
    ensures MeantParts(holds, a, w) == MeantParts(holds, b, w)
    decreases holds, 0
  {
    hide HeldFree, MeantPart;
    if holds != [] {
      PartAgrees(holds[0], a, b, w);
      PartsAgree(holds[1..], a, b, w);
    }
  }

  lemma {:induction false} PartAgrees(h: Held, a: Scope, b: Scope, w: World)
    requires Agree(a, b, HeldFree(h))
    ensures MeantPart(h, a, w) == MeantPart(h, b, w)
    decreases h, 0
  {
    MeantAgrees(h.node, a, b, w);
  }

  /** A tree depends on what callbacks have bound only through the names it uses. */
  lemma {:induction false} MeantAgrees(n: Node, a: Scope, b: Scope, w: World)
    requires Agree(a, b, Free(n))
    ensures Meant(n, a, w) == Meant(n, b, w)
    decreases n, 0
  {
    hide Close, Wanted, MeantProps, MeantInside, MeantValues;
    match n
    case Element(tag, attrs, children) => AttrsAgree(tag, attrs, a, b, w); InsideAgrees(children, a, b, w);
    case Component(_, attrs, children) => PropsAgree(attrs, a, b, w); InsideAgrees(children, a, b, w);
    case Fragment(children) => InsideAgrees(children, a, b, w);
    case Braces(e) => ExprAgrees(e, a, b, w);
    case _ =>
  }

  lemma {:induction false} InsideAgrees(children: seq<Node>, a: Scope, b: Scope, w: World)
    requires Agree(a, b, FreeAll(children))
    ensures MeantInside(children, a, w) == MeantInside(children, b, w)
    ensures MeantValues(children, a, w) == MeantValues(children, b, w)
    decreases children, 0
  {
    hide Close, Absent;
    if children != [] {
      MeantAgrees(children[0], a, b, w);
      if children[0].Fragment? { InsideAgrees(children[0].children, a, b, w); }
      InsideAgrees(children[1..], a, b, w);
    }
  }

  lemma {:induction false} ExprAgrees(e: Expr, a: Scope, b: Scope, w: World)
    requires Agree(a, b, FreeExpr(e))
    ensures MeantExpr(e, a, w) == MeantExpr(e, b, w)
    decreases e, 0
  {
    hide Close, MeantRows, MeantKeys, MeantBranch;
    match e
    case Plain(js, _, _) => CloseAgrees(js, a, b);
    case Cond(test, yes, no) => CloseAgrees(test, a, b); BranchAgrees(yes, a, b, w); BranchAgrees(no, a, b, w);
    case And(test, yes) => CloseAgrees(test, a, b); BranchAgrees(yes, a, b, w);
    case Mapped(list, item, others, _, body) =>
      CloseAgrees(list, a, b);
      KeysAgree(body, item, others, w.items(Close(list, a)), 0, a, b, w);
      RowsAgree(body, item, others, w.items(Close(list, a)), 0, a, b, w);
  }

  lemma {:induction false} KeysAgree(body: Body, item: string, others: seq<string>, items: seq<int>, i: nat, a: Scope, b: Scope, w: World)
    requires Agree(a, b, FreeBody(body) + KeyFree(body) - {item} - Names(others))
    ensures MeantKeys(body, item, others, items, i, a, w) == MeantKeys(body, item, others, items, i, b, w)
    decreases |items|
  {
    hide ScopeIn, FreeBody, KeyFree, Close;
    if BodyKey(body).Some? && items != [] {
      var inA, inB := Inside(item, others, items[0], i, a, w), Inside(item, others, items[0], i, b, w);
      var js := BodyKey(body).value.js;
      ScopeInAgrees(body, inA, inB, w);
      CloseAgrees(js, ScopeIn(body, inA, w), ScopeIn(body, inB, w));
      KeysAgree(body, item, others, items[1..], i + 1, a, b, w);
    }
  }

  lemma ScopeInAgrees(body: Body, a: Scope, b: Scope, w: World)
    requires Agree(a, b, FreeBody(body) + KeyFree(body)) && BodyKey(body).Some?
    ensures Agree(ScopeIn(body, a, w), ScopeIn(body, b, w), BodyKey(body).value.js.free)
  {
    hide Close, Within;
    var used := BodyKey(body).value.js.free;
    match body
    case Block(js, locals, _, _) => WithinAgrees(js, locals, a, b, w, used);
    case Buried(js, locals, _, _, _) => WithinAgrees(js, locals, a, b, w, used);
    case _ =>
  }

  lemma {:induction false} RowsAgree(body: Body, item: string, others: seq<string>, items: seq<int>, i: nat, a: Scope, b: Scope, w: World)
    requires Agree(a, b, FreeBody(body) - {item} - Names(others))
    ensures MeantRows(body, item, others, items, i, a, w) == MeantRows(body, item, others, items, i, b, w)
    decreases body, 1, |items|
  {
    hide MeantBody, FreeBody;
    if items != [] {
      BodyAgrees(body, Inside(item, others, items[0], i, a, w), Inside(item, others, items[0], i, b, w), w);
      RowsAgree(body, item, others, items[1..], i + 1, a, b, w);
    }
  }

  lemma {:induction false} BodyAgrees(body: Body, a: Scope, b: Scope, w: World)
    requires Agree(a, b, FreeBody(body))
    ensures MeantBody(body, a, w) == MeantBody(body, b, w)
    decreases body, 0
  {
    hide Close, Meant, Within;
    match body
    case Whole(n) => MeantAgrees(n, a, b, w);
    case Block(js, locals, _, n) =>
      WithinAgrees(js, locals, a, b, w, Free(n));
      MeantAgrees(n, Within(a, Close(js, a), locals, w), Within(b, Close(js, b), locals, w), w);
    case Buried(js, locals, _, _, n) =>
      CloseAgrees(js, a, b);
      WithinAgrees(js, locals, a, b, w, Free(n));
      MeantAgrees(n, Within(a, Close(js, a), locals, w), Within(b, Close(js, b), locals, w), w);
    case Without(js) => CloseAgrees(js, a, b);
  }

  lemma {:induction false} BranchAgrees(br: Branch, a: Scope, b: Scope, w: World)
    requires Agree(a, b, FreeBranch(br))
    ensures MeantBranch(br, a, w) == MeantBranch(br, b, w)
    decreases br, 0
  {
    hide Close, Meant;
    match br
    case Jsx(n) => MeantAgrees(n, a, b, w);
    case Other(js) => CloseAgrees(js, a, b);
    case Inner(test, yes, no) => CloseAgrees(test, a, b); BranchAgrees(yes, a, b, w); BranchAgrees(no, a, b, w);
    case Around(js, _, _, _, _, _) => CloseAgrees(js, a, b);
  }

  // ------------------------------------------------------------------------------------------
  // When the built tree is the one that was written
  // ------------------------------------------------------------------------------------------

  predicate IsJsx(n: Node) { n.Element? || n.Component? || n.Fragment? }

  /** No callback uses a name that the emitted one loses: a parameter but the first, and what is declared around its JSX
      where no constant keeps the text; in a key, whatever is declared around the JSX. What is found in a callback is JSX. */
  ghost predicate Handled(n: Node)
    decreases n, 0
  {
    match n
    case Element(_, _, children) => HandledAll(children)
    case Component(_, attrs, children) => HandledProps(attrs) && HandledAll(children)
    case Fragment(children) => HandledAll(children)
    case Braces(e) => HandledExpr(e)
    case _ => true
  }

  ghost predicate HandledAll(children: seq<Node>)
    decreases children, 0
  {
    children == [] || (Handled(children[0]) && HandledAll(children[1..]))
  }

  ghost predicate HandledProps(attrs: seq<Attr>)
    decreases attrs, 0
  {
    attrs == [] || (HandledProp(attrs[0]) && HandledProps(attrs[1..]))
  }

  ghost predicate HandledProp(a: Attr)
    decreases a, 0
  {
    a.Expression? ==> HandledHolds(a.js.holds)
  }

  ghost predicate HandledHolds(holds: seq<Held>)
    decreases holds, 0
  {
    holds == [] || (HandledHeld(holds[0]) && HandledHolds(holds[1..]))
  }

  ghost predicate HandledHeld(h: Held)
    decreases h, 0
  {
    Handled(h.node)
  }

  ghost predicate HandledExpr(e: Expr)
    decreases e, 0
  {
    match e
    case Plain(_, _, _) => true
    case Cond(_, yes, no) => HandledBranch(yes) && HandledBranch(no)
    case And(_, yes) => HandledBranch(yes)
    case Mapped(_, _, others, index, body) =>
      HandledBody(body) && Names(others) !! FreeBody(body) && HandledKey(BodyKey(body), Locals(body), others, index)
  }

  ghost predicate HandledBody(body: Body)
    decreases body, 0
  {
    match body
    case Whole(n) => Handled(n)
    case Block(_, locals, kept, n) => Handled(n) && (kept || Names(locals) !! Free(n))
    case Buried(_, _, _, _, n) => IsJsx(n) && Handled(n)
    case Without(_) => true
  }

  /** The key function has the index for a parameter where the key begins with it. A dotted text uses its first name. */
  ghost predicate HandledKey(key: Option<Key>, locals: seq<string>, others: seq<Identifier>, index: bool) {
    key.Some? && IsDotted(key.value.shape) ==>
      var root := Root(key.value.shape);
      root !in locals && (root in others ==> index && root == others[0])
      && (IsAsWritten(key.value) ==> key.value.js.free == {root})
  }

  /** Nothing in the key has been rewritten. */
  predicate IsAsWritten(key: Key) { key.js.text == FormatExprText(key.shape) }

  ghost predicate HandledBranch(b: Branch)
    decreases b, 0
  {
    match b
    case Jsx(n) => Handled(n)
    case Other(_) => true
    case Inner(_, yes, no) => HandledBranch(yes) && HandledBranch(no)
    case Around(_, _, _, _, yes, no) => HandledBranch(yes) && HandledBranch(no)
  }

  /** What is shown is whole: no branch that is taken has its conditional buried inside a larger expression, no callback of
      map that is called has its JSX buried so without a constant that keeps the text, the key of no row has been rewritten,
      no attribute has JSX without braces, and where the text of the tree is lost there is no expression. */
  ghost predicate Keeps(n: Node, mode: Mode, sc: Scope, w: World)
    decreases n, 0
  {
    match n
    case Element(_, attrs, children) => KeepsAttrs(attrs, mode) && KeepsAll(children, mode, sc, w)
    case Fragment(children) => KeepsAll(children, mode, sc, w)
    case Component(_, attrs, children) => KeepsProps(attrs, mode, sc, w) && KeepsAll(children, mode, sc, w)
    case Braces(e) => KeepsExpr(e, mode, sc, w)
    case _ => true
  }

  predicate KeepsAttrs(attrs: seq<Attr>, mode: Mode) { forall a <- attrs :: KeepsAttr(a, mode) }

  predicate KeepsAttr(a: Attr, mode: Mode) {
    match a
    case Markup(name, _) => name == "key"
    case Spread(_) => !mode.Blanked?
    case Expression(name, _, _, _, _) => mode.Blanked? ==> name == "key"
    case _ => true
  }

  ghost predicate KeepsAll(children: seq<Node>, mode: Mode, sc: Scope, w: World)
    decreases children, 0
  {
    children == [] || (Keeps(children[0], ChildMode(children[0], mode), sc, w) && KeepsAll(children[1..], mode, sc, w))
  }

  ghost predicate KeepsProps(attrs: seq<Attr>, mode: Mode, sc: Scope, w: World)
    decreases attrs, 0
  {
    attrs == [] || (KeepsProp(attrs[0], mode, sc, w) && KeepsProps(attrs[1..], mode, sc, w))
  }

  ghost predicate KeepsProp(a: Attr, mode: Mode, sc: Scope, w: World)
    decreases a, 0
  {
    match a
    case Expression(name, js, _, _, _) => name == "key" || (!mode.Blanked? && KeepsHolds(js.holds, mode, sc, w))
    case Markup(name, _) => name == "key"
    case _ => true
  }

  ghost predicate KeepsHolds(holds: seq<Held>, mode: Mode, sc: Scope, w: World)
    decreases holds, 0
  {
    holds == [] || (KeepsHeld(holds[0], mode, sc, w) && KeepsHolds(holds[1..], mode, sc, w))
  }

  ghost predicate KeepsHeld(h: Held, mode: Mode, sc: Scope, w: World)
    decreases h, 0
  {
    Keeps(h.node, HeldMode(h, mode), sc, w)
  }

  ghost predicate KeepsExpr(e: Expr, mode: Mode, sc: Scope, w: World)
    decreases e, 0
  {
    match e
    case Plain(_, _, _) => !mode.Blanked?
    case Cond(test, yes, no) =>
      if w.truth(Close(test, sc)) then KeepsBranch(yes, mode, Deeper(mode), sc, w) else KeepsBranch(no, mode, Deeper(mode), sc, w)
    case And(test, yes) => w.truth(Close(test, sc)) ==> KeepsBranch(yes, mode, Deeper(mode), sc, w)
    case Mapped(list, item, _, _, body) =>
      var items := w.items(Close(list, sc));
      KeepsKey(BodyKey(body), items) && KeepsRows(body, item, items, mode, sc, w)
  }

  ghost predicate KeepsRows(body: Body, item: string, items: seq<int>, mode: Mode, sc: Scope, w: World)
    decreases body, 1, |items|
  {
    items == [] || (KeepsBody(body, mode, sc[item := items[0]], w) && KeepsRows(body, item, items[1..], mode, sc, w))
  }

  predicate KeepsKey(key: Option<Key>, items: seq<int>) { items != [] && key.Some? ==> IsAsWritten(key.value) }

  ghost predicate KeepsBody(body: Body, mode: Mode, sc: Scope, w: World)
    decreases body, 0
  {
    match body
    case Whole(n) => Keeps(n, Deeper(mode), sc, w)
    case Block(_, _, kept, n) => Keeps(n, Deeper(mode), if kept then ScopeIn(body, sc, w) else sc, w)
    case Buried(_, _, kept, _, n) => kept && Keeps(n, Deeper(mode), ScopeIn(body, sc, w), w)
    case Without(_) => true
  }

  ghost predicate KeepsBranch(b: Branch, mode: Mode, jsx: Mode, sc: Scope, w: World)
    decreases b, 0
  {
    match b
    case Jsx(n) => Keeps(n, jsx, sc, w)
    case Other(_) => true
    case Inner(test, yes, no) =>
      if w.truth(Close(test, sc)) then KeepsBranch(yes, mode, jsx, sc, w) else KeepsBranch(no, mode, jsx, sc, w)
    case Around(_, _, _, _, _, _) => false
  }

  lemma {:induction false} EraseConcat(a: seq<Tree>, b: seq<Tree>)
    ensures EraseAll(a + b) == EraseAll(a) + EraseAll(b) && |EraseAll(a)| == |a|
  {
    hide Erase;
    if a == [] {
      assert a + b == b;
    } else {
      assert (a + b)[1..] == a[1..] + b;
      EraseConcat(a[1..], b);
      Regroup([Erase(a[0])], EraseAll(a[1..]), EraseAll(b));
    }
  }

  lemma EraseOne(t: Tree)
    ensures EraseAll([t]) == [Erase(t)]
  {
  }

  lemma {:induction false} EraseTwoProps(a: seq<Passed<Tree>>, b: seq<Passed<Tree>>)
    ensures EraseProps(a + b) == EraseProps(a) + EraseProps(b) && |EraseProps(a)| == |a|
  {
    hide EraseProp;
    if a == [] {
      assert a + b == b;
    } else {
      assert (a + b)[1..] == a[1..] + b;
      EraseTwoProps(a[1..], b);
      Regroup([EraseProp(a[0])], EraseProps(a[1..]), EraseProps(b));
    }
  }

  lemma PartsEqual<T>(a: seq<T>, b: seq<T>, x: seq<T>, y: seq<T>)
    requires |a| <= |x| && |b| <= |y|
    ensures a + b == x + y <==> a == x && b == y
  {
    if a + b == x + y {
      assert |a + b| == |x + y|;
      assert a == (a + b)[..|a|] && b == (a + b)[|a|..];
    }
  }

  lemma {:induction false} AttrsAreMeant(tag: string, attrs: seq<Attr>, mode: Mode, sc: Scope, w: World)
    requires CompilesAttrs(tag, attrs, mode)
    ensures |Meanings(tag, attrs, mode.Blanked?, sc, w)| <= |Wanted(tag, attrs, sc, w)|
    ensures Meanings(tag, attrs, mode.Blanked?, sc, w) == Wanted(tag, attrs, sc, w) <==> KeepsAttrs(attrs, mode)
  {
    hide Meaning, WantedBy, CompilesAttr, KeepsAttr;
    if attrs != [] {
      AttrIsMeant(tag, attrs[0], mode, sc, w);
      AttrsAreMeant(tag, attrs[1..], mode, sc, w);
      PartsEqual(Meaning(tag, attrs[0], mode.Blanked?, sc, w), Meanings(tag, attrs[1..], mode.Blanked?, sc, w),
                 WantedBy(tag, attrs[0], sc, w), Wanted(tag, attrs[1..], sc, w));
      assert forall a | a in attrs :: a == attrs[0] || a in attrs[1..];
    }
  }

  /** What is lost and yet compiles is a listener, a spread or JSX without braces. */
  lemma AttrIsMeant(tag: string, a: Attr, mode: Mode, sc: Scope, w: World)
    requires CompilesAttr(tag, a, mode)
    ensures |Meaning(tag, a, mode.Blanked?, sc, w)| <= |WantedBy(tag, a, sc, w)|
    ensures Meaning(tag, a, mode.Blanked?, sc, w) == WantedBy(tag, a, sc, w) <==> KeepsAttr(a, mode)
  {
    hide Guarded, Close, DomName, WantedBy, IsProperty;
    if a.Expression? || a.Spread? { SeenDiffers(a.js, sc); }
    if a.Markup? { MarkupIsWanted(tag, a, sc, w); } else { SettingIsWanted(tag, a, sc, w); }
  }

  lemma MarkupIsWanted(tag: string, a: Attr, sc: Scope, w: World)
    requires a.Markup?
    ensures |WantedBy(tag, a, sc, w)| == if a.name == "key" then 0 else 1
  {
  }

  /** The settings that are made are those that the attribute's name and value ask for. */
  lemma SettingIsWanted(tag: string, a: Attr, sc: Scope, w: World)
    requires !a.Markup?
    ensures Meaning(tag, a, false, sc, w) == WantedBy(tag, a, sc, w)
  {
    hide Close;
    if !a.Spread? { SettingNames(tag, a.name); }
  }

  lemma SettingNames(tag: string, name: string)
    ensures DomName(name) == if name == "className" then "class" else name
    ensures IsProperty(tag, DomName(name)) <==> (tag in {"input", "select", "textarea"} && name == "value") || (tag == "input" && name == "checked")
    ensures IsListener(DomName(name)) <==> |name| > 2 && name[0] == 'o' && name[1] == 'n'
  {
    assert "class"[0] != 'o' && "className"[0] != 'o';
    if |name| >= 2 { assert name[..2] == [name[0], name[1]] && "on" == ['o', 'n']; }
  }

  lemma SeenDiffers(js: Js, sc: Scope)
    ensures Seen(js, true, sc) != Seen(js, false, sc)
  {
  }

  /** Braces around a lost expression may stand where something may be missing. */
  predicate Shows(n: Node, mode: Mode) { Compiles(n, mode) || (n.Braces? && n.expr.Plain?) }

  lemma {:induction false} BuiltIsMeant(n: Node, c: nat, mode: Mode, top: Option<nat>, sc: Scope, w: World)
    requires Handled(n) && Shows(n, mode)
    ensures Erase(Built(n, c, mode, top, sc, w)) == Meant(n, sc, w) <==> Keeps(n, mode, sc, w)
    decreases n, 0
  {
    hide BuiltInside, BuiltValues, BuiltBranch, Meanings, Wanted, BuiltProps, MeantProps, MeantInside, MeantValues, KeepsAll, KeepsProps, KeepsAttrs,
      CompilesAttrs, CompilesInside, CompilesProps, CompilesValues, HandledAll, HandledProps, EraseAll, EraseProps, Present;
    match n
    case Element(tag, attrs, children) =>
      AttrsAreMeant(tag, attrs, mode, sc, w);
      InsideIsMeant(children, c + 1, mode, Some(c), sc, w);
    case Fragment(children) => InsideIsMeant(children, c + 1, mode, top, sc, w);
    case Component(_, attrs, children) =>
      PropsAreMeant(attrs, c, mode, top, sc, w);
      ValuesAreMeant(children, c + PropVars(attrs), mode, Present(children) == 1, top, sc, w);
    case Braces(e) => ExprIsMeant(e, c, mode, top, sc, w);
    case _ =>
  }

  lemma {:induction false} PropsAreMeant(attrs: seq<Attr>, c: nat, mode: Mode, top: Option<nat>, sc: Scope, w: World)
    requires HandledProps(attrs) && CompilesProps(attrs, mode)
    ensures |EraseProps(BuiltProps(attrs, c, mode, top, sc, w))| <= |MeantProps(attrs, sc, w)|
    ensures EraseProps(BuiltProps(attrs, c, mode, top, sc, w)) == MeantProps(attrs, sc, w) <==> KeepsProps(attrs, mode, sc, w)
    decreases attrs, 0
  {
    hide BuiltProp, MeantProp, KeepsProp, HandledProp, CompilesProp, EraseProp;
    if attrs != [] {
      var next := c + OnePropVars(attrs[0]);
      var first, rest := BuiltProp(attrs[0], c, mode, top, sc, w), BuiltProps(attrs[1..], next, mode, top, sc, w);
      PropIsMeant(attrs[0], c, mode, top, sc, w);
      PropsAreMeant(attrs[1..], next, mode, top, sc, w);
      EraseTwoProps(first, rest);
      PartsEqual(EraseProps(first), EraseProps(rest), MeantProp(attrs[0], sc, w), MeantProps(attrs[1..], sc, w));
    }
  }

  lemma {:induction false} PropIsMeant(a: Attr, c: nat, mode: Mode, top: Option<nat>, sc: Scope, w: World)
    requires HandledProp(a) && CompilesProp(a, mode)
    ensures var erased := EraseProps(BuiltProp(a, c, mode, top, sc, w));
      |erased| <= |MeantProp(a, sc, w)| && (erased == MeantProp(a, sc, w) <==> KeepsProp(a, mode, sc, w))
    decreases a, 0
  {
    hide Close, BuiltParts, MeantParts, KeepsHolds, HandledHolds, CompilesHolds, EraseAll;
    var built := BuiltProp(a, c, mode, top, sc, w);
    if built != [] {
      Solo(built[0]);
      assert EraseProps(built) == [EraseProp(built[0])] + EraseProps([]) == [EraseProp(built[0])];
    }
    if a.Expression? && a.name != "key" {
      PartsAreMeant(a.js.holds, c, mode, top, sc, w);
      SeenDiffers(a.js, sc);
    }
  }

  lemma {:induction false} PartsAreMeant(holds: seq<Held>, c: nat, mode: Mode, top: Option<nat>, sc: Scope, w: World)
    requires HandledHolds(holds) && CompilesHolds(holds, mode)
    ensures EraseAll(BuiltParts(holds, c, mode, top, sc, w)) == MeantParts(holds, sc, w) <==> KeepsHolds(holds, mode, sc, w)
    decreases holds, 0
  {
    hide BuiltPart, MeantPart, KeepsHeld, HandledHeld, CompilesHeld, Erase;
    if holds != [] {
      var next := c + Vars(holds[0].node);
      var first, rest := BuiltPart(holds[0], c, mode, top, sc, w), BuiltParts(holds[1..], next, mode, top, sc, w);
      PartIsMeant(holds[0], c, mode, top, sc, w);
      PartsAreMeant(holds[1..], next, mode, top, sc, w);
      ConsEqual(first, rest, first, rest);
      ConsEqual(Erase(first), EraseAll(rest), MeantPart(holds[0], sc, w), MeantParts(holds[1..], sc, w));
    }
  }

  lemma {:induction false} PartIsMeant(h: Held, c: nat, mode: Mode, top: Option<nat>, sc: Scope, w: World)
    requires HandledHeld(h) && CompilesHeld(h, mode)
    ensures Erase(BuiltPart(h, c, mode, top, sc, w)) == MeantPart(h, sc, w) <==> KeepsHeld(h, mode, sc, w)
    decreases h, 0
  {
    BuiltIsMeant(h.node, c, HeldMode(h, mode), top, sc, w);
  }

  lemma {:induction false} ExprIsMeant(e: Expr, c: nat, mode: Mode, top: Option<nat>, sc: Scope, w: World)
    requires HandledExpr(e) && (CompilesExpr(e, mode) || e.Plain?)
    ensures Erase(BuiltExpr(e, c, mode, top, sc, w)) == MeantExpr(e, sc, w) <==> KeepsExpr(e, mode, sc, w)
    decreases e, 0
  {
    hide Close, BuiltRows, MeantRows, RunKeys, MeantKeys, KeepsKey, KeepsRows, BuiltBranch, MeantBranch, KeepsBranch, FreeBody, CompilesBranch,
      CompilesBody, EraseAll;
    match e
    case Plain(js, _, _) => SeenDiffers(js, sc);
    case Cond(_, yes, no) =>
      BranchIsMeant(yes, c, mode, Deeper(mode), top, sc, w);
      BranchIsMeant(no, c + BranchVars(yes), mode, Deeper(mode), top, sc, w);
    case And(_, yes) => BranchIsMeant(yes, c, mode, Deeper(mode), top, sc, w);
    case Mapped(list, item, others, index, body) =>
      KeysAreMeant(body, item, others, index, w.items(Close(list, sc)), 0, sc, w);
      RowsAreMeant(body, item, others, w.items(Close(list, sc)), 0, c, mode, top, sc, w);
  }

  lemma {:induction false} RowsAreMeant(body: Body, item: string, others: seq<string>, items: seq<int>, i: nat,
                                        c: nat, mode: Mode, top: Option<nat>, sc: Scope, w: World)
    requires HandledBody(body) && CompilesBody(body, mode) && !mode.Blanked? && Names(others) !! FreeBody(body)
    ensures EraseAll(BuiltRows(body, item, items, c, mode, top, sc, w)) == MeantRows(body, item, others, items, i, sc, w)
      <==> KeepsRows(body, item, items, mode, sc, w)
    decreases body, 1, |items|
  {
    hide BuiltBody, MeantBody, KeepsBody, Erase, FreeBody, HandledBody, CompilesBody;
    if items != [] {
      var row, full := sc[item := items[0]], Inside(item, others, items[0], i, sc, w);
      var built, rest := BuiltBody(body, c, mode, top, row, w), BuiltRows(body, item, items[1..], c, mode, top, sc, w);
      BodyIsMeant(body, c, mode, top, row, w);
      assert Agree(row, full, FreeBody(body)) by { RowAgrees(item, others, items[0], i, sc, w, FreeBody(body)); }
      BodyAgrees(body, row, full, w);
      RowsAreMeant(body, item, others, items[1..], i + 1, c, mode, top, sc, w);
      ConsEqual(built, rest, built, rest);
      ConsEqual(Erase(built), EraseAll(rest), MeantBody(body, full, w), MeantRows(body, item, others, items[1..], i + 1, sc, w));
    }
  }

  lemma {:induction false} KeysAreMeant(body: Body, item: string, others: seq<Identifier>, index: bool, items: seq<int>, i: nat, sc: Scope, w: World)
    requires var key := BodyKey(body); CompilesKey(key) && HandledKey(key, Locals(body), others, index)
    ensures RunKeys(EmitKey(BodyKey(body), IndexOf(others, index)), item, items, i, sc, w) == MeantKeys(body, item, others, items, i, sc, w)
       <==> KeepsKey(BodyKey(body), items)
  {
    hide RunKey, ScopeIn, Close, HandledKey, BodyKey, EmitKey, IsAsWritten, Inside;
    var key := BodyKey(body);
    if key.Some? && items != [] {
      var f := EmitKey(key, IndexOf(others, index));
      KeyIsMeant(body, item, others, index, items[0], i, sc, w);
      KeysAreMeant(body, item, others, index, items[1..], i + 1, sc, w);
      ConsEqual(RunKey(f.value, item, items[0], i, sc, w), RunKeys(f, item, items[1..], i + 1, sc, w),
                Close(key.value.js, ScopeIn(body, Inside(item, others, items[0], i, sc, w), w)), MeantKeys(body, item, others, items[1..], i + 1, sc, w));
    } else {
      NoKey(IndexOf(others, index));
    }
  }

  lemma NoKey(index: Option<Identifier>)
    ensures EmitKey(None, index) == None
  {
  }

  lemma KeyIsMeant(body: Body, item: string, others: seq<Identifier>, index: bool, v: int, i: nat, sc: Scope, w: World)
    requires var key := BodyKey(body); key.Some? && CompilesKey(key) && HandledKey(key, Locals(body), others, index)
    ensures var key, f := BodyKey(body), EmitKey(BodyKey(body), IndexOf(others, index));
      f.Some? && (RunKey(f.value, item, v, i, sc, w) == Close(key.value.js, ScopeIn(body, Inside(item, others, v, i, sc, w), w))
                  <==> IsAsWritten(key.value))
  {
    hide References, FormatExprText, FirstName, BodyKey;
    var key := BodyKey(body);
    RootIsFirstName(key.value.shape);
    RootIsReferenced(key.value.shape);
  }

  lemma RowAgrees(item: string, others: seq<string>, v: int, i: nat, sc: Scope, w: World, used: set<string>)
    requires Names(others) !! used
    ensures Agree(sc[item := v], Inside(item, others, v, i, sc, w), used)
  {
    assert forall x | x in others :: x in Names(others);
  }

  lemma JsxIsNotKept(n: Node, c: nat, mode: Mode, top: Option<nat>, sc: Scope, w: World)
    requires IsJsx(n)
    ensures !Erase(Built(n, c, mode, top, sc, w)).Kept?
  {
  }

  lemma WithinHides(sc: Scope, statements: Closed, locals: seq<string>, used: set<string>, w: World)
    requires Names(locals) !! used
    ensures Agree(sc, Within(sc, statements, locals, w), used)
  {
    assert forall x | x in locals :: x in Names(locals);
  }

  lemma {:induction false} BodyIsMeant(body: Body, c: nat, mode: Mode, top: Option<nat>, sc: Scope, w: World)
    requires HandledBody(body) && CompilesBody(body, mode) && !mode.Blanked?
    ensures Erase(BuiltBody(body, c, mode, top, sc, w)) == MeantBody(body, sc, w) <==> KeepsBody(body, mode, sc, w)
    decreases body, 0
  {
    hide Close, Within, Built, Meant, Keeps, Compiles;
    match body
    case Whole(n) => BuiltIsMeant(n, c, Deeper(mode), top, sc, w);
    case Block(js, locals, kept, n) =>
      var inner := Within(sc, Close(js, sc), locals, w);
      if kept {
        BuiltIsMeant(n, c, Deeper(mode), top, inner, w);
      } else {
        BuiltIsMeant(n, c, Deeper(mode), top, sc, w);
        WithinHides(sc, Close(js, sc), locals, Free(n), w);
        MeantAgrees(n, sc, inner, w);
      }
    case Buried(js, locals, kept, _, n) =>
      JsxIsNotKept(n, c, Deeper(mode), top, sc, w);
      if kept { BuiltIsMeant(n, c, Deeper(mode), top, Within(sc, Close(js, sc), locals, w), w); }
    case Without(_) =>
  }

  lemma {:induction false} InsideIsMeant(children: seq<Node>, c: nat, mode: Mode, top: Option<nat>, sc: Scope, w: World)
    requires HandledAll(children) && CompilesInside(children, mode)
    ensures |BuiltInside(children, c, mode, top, sc, w)| == |MeantInside(children, sc, w)|
    ensures EraseAll(BuiltInside(children, c, mode, top, sc, w)) == MeantInside(children, sc, w) <==> KeepsAll(children, mode, sc, w)
    decreases children, 1
  {
    hide Built, Meant, Keeps, Erase, Absent, Handled, CompilesChild;
    if children != [] {
      var n, next := children[0], c + Vars(children[0]);
      var head := if Absent(n) then [] else Spliced(Built(n, c, ChildMode(n, mode), top, sc, w));
      var rest := BuiltInside(children[1..], next, mode, top, sc, w);
      HeadIsMeant(n, c, mode, top, sc, w);
      InsideIsMeant(children[1..], next, mode, top, sc, w);
      EraseConcat(head, rest);
      EraseConcat(rest, []);
      NoPrefix(MeantInside(children[1..], sc, w));
      assert MeantInside(children, sc, w) == MeantHead(n, sc, w) + MeantInside(children[1..], sc, w);
      PartsEqual(EraseAll(head), EraseAll(rest), MeantHead(n, sc, w), MeantInside(children[1..], sc, w));
    }
  }

  lemma {:induction false} HeadIsMeant(n: Node, c: nat, mode: Mode, top: Option<nat>, sc: Scope, w: World)
    requires Handled(n) && CompilesChild(n, mode)
    ensures var head := if Absent(n) then [] else Spliced(Built(n, c, ChildMode(n, mode), top, sc, w));
      |head| == |MeantHead(n, sc, w)| && (EraseAll(head) == MeantHead(n, sc, w) <==> Keeps(n, ChildMode(n, mode), sc, w))
    decreases n, 1
  {
    hide BuiltInside, BuiltValues, BuiltBranch, MeantInside, MeantValues, MeantBranch, Meanings, Wanted, BuiltProps, MeantProps, Erase, EraseAll,
      KeepsAll, KeepsBranch, KeepsProps, CompilesAttrs, CompilesProps, CompilesInside, CompilesValues, CompilesExpr;
    if Absent(n) {
      EraseConcat([], []);
      AbsentIsKept(n, ChildMode(n, mode), sc, w);
    } else if n.Fragment? {
      InsideIsMeant(n.children, c + 1, Deeper(mode), top, sc, w);
      FragmentIsErased(n, c, Deeper(mode), top, sc, w);
    } else {
      BuiltIsMeant(n, c, ChildMode(n, mode), top, sc, w);
      EraseOne(Built(n, c, ChildMode(n, mode), top, sc, w));
    }
  }

  lemma FragmentIsErased(n: Node, c: nat, mode: Mode, top: Option<nat>, sc: Scope, w: World)
    requires n.Fragment?
    ensures Spliced(Built(n, c, mode, top, sc, w)) == BuiltInside(n.children, c + 1, mode, top, sc, w)
    ensures Keeps(n, mode, sc, w) <==> KeepsAll(n.children, mode, sc, w)
  {
  }

  lemma {:induction false} ValuesAreMeant(children: seq<Node>, c: nat, mode: Mode, alone: bool, top: Option<nat>, sc: Scope, w: World)
    requires HandledAll(children) && CompilesValues(children, mode, alone)
    ensures |EraseAll(BuiltValues(children, c, mode, top, sc, w))| == |MeantValues(children, sc, w)|
    ensures EraseAll(BuiltValues(children, c, mode, top, sc, w)) == MeantValues(children, sc, w) <==> KeepsAll(children, mode, sc, w)
    decreases children, 1
  {
    hide Built, Meant, Keeps, Erase, Absent, Handled, Compiles;
    if children != [] {
      var n, next := children[0], c + Vars(children[0]);
      var head := if Absent(n) then [] else [Built(n, c, ChildMode(n, mode), top, sc, w)];
      var meant := if Absent(n) then [] else [Meant(n, sc, w)];
      ValueIsMeant(n, sc, w);
      var rest := BuiltValues(children[1..], next, mode, top, sc, w);
      ValuesAreMeant(children[1..], next, mode, alone, top, sc, w);
      EraseConcat(head, rest);
      PartsEqual(EraseAll(head), EraseAll(rest), meant, MeantValues(children[1..], sc, w));
      if Absent(n) {
        AbsentIsKept(n, ChildMode(n, mode), sc, w);
      } else {
        BuiltIsMeant(n, c, ChildMode(n, mode), top, sc, w);
        EraseOne(Built(n, c, ChildMode(n, mode), top, sc, w));
      }
    }
  }

  lemma ValueIsMeant(n: Node, sc: Scope, w: World)
    ensures MeantValue(n, sc, w) == if Absent(n) then [] else [Meant(n, sc, w)]
  {
  }

  lemma AbsentIsKept(n: Node, mode: Mode, sc: Scope, w: World)
    requires Absent(n)
    ensures Keeps(n, mode, sc, w)
  {
  }

  lemma {:induction false} BranchIsMeant(b: Branch, c: nat, mode: Mode, jsx: Mode, top: Option<nat>, sc: Scope, w: World)
    requires HandledBranch(b) && CompilesBranch(b, mode, jsx) && !mode.Blanked?
    ensures Erase(BuiltBranch(b, c, mode, jsx, top, sc, w)) == MeantBranch(b, sc, w) <==> KeepsBranch(b, mode, jsx, sc, w)
    decreases b, 0
  {
    hide Built, Meant, Keeps, Compiles, Close, BuriedMode, Copies;
    match b
    case Jsx(n) => BuiltIsMeant(n, c, jsx, top, sc, w);
    case Other(_) =>
    case Inner(_, yes, no) =>
      BranchIsMeant(yes, c, mode, jsx, top, sc, w);
      BranchIsMeant(no, c + BranchVars(yes), mode, jsx, top, sc, w);
    case Around(_, _, _, _, _, _) =>
  }

  lemma {:induction false} BuiltIsNested(n: Node, c: nat, mode: Mode, top: Option<nat>, sc: Scope, w: World)
    ensures Nested(Built(n, c, mode, top, sc, w), top)
    decreases n, 0
  {
    hide BuiltInside, BuiltValues, BuiltBranch, BuiltProps;
    match n
    case Element(_, _, children) => InsideIsNested(children, c + 1, mode, Some(c), sc, w);
    case Fragment(children) => InsideIsNested(children, c + 1, mode, top, sc, w);
    case Component(_, attrs, children) =>
      PropsAreNested(attrs, c, mode, top, sc, w);
      ValuesAreNested(children, c + PropVars(attrs), mode, top, sc, w);
    case Braces(e) => ExprIsNested(e, c, mode, top, sc, w);
    case _ =>
  }

  lemma {:induction false} PropsAreNested(attrs: seq<Attr>, c: nat, mode: Mode, top: Option<nat>, sc: Scope, w: World)
    ensures PropsNested(BuiltProps(attrs, c, mode, top, sc, w), top)
    decreases attrs, 0
  {
    hide BuiltProp, PropNested;
    if attrs != [] {
      PropIsNested(attrs[0], c, mode, top, sc, w);
      PropsAreNested(attrs[1..], c + OnePropVars(attrs[0]), mode, top, sc, w);
    }
  }

  lemma {:induction false} PropIsNested(a: Attr, c: nat, mode: Mode, top: Option<nat>, sc: Scope, w: World)
    ensures PropsNested(BuiltProp(a, c, mode, top, sc, w), top)
    decreases a, 0
  {
    hide BuiltParts, Close;
    if a.Expression? { PartsAreNested(a.js.holds, c, mode, top, sc, w); }
  }

  lemma {:induction false} PartsAreNested(holds: seq<Held>, c: nat, mode: Mode, top: Option<nat>, sc: Scope, w: World)
    ensures AllNested(BuiltParts(holds, c, mode, top, sc, w), top)
    decreases holds, 0
  {
    hide BuiltPart, Nested;
    if holds != [] {
      PartIsNested(holds[0], c, mode, top, sc, w);
      PartsAreNested(holds[1..], c + Vars(holds[0].node), mode, top, sc, w);
    }
  }

  lemma {:induction false} PartIsNested(h: Held, c: nat, mode: Mode, top: Option<nat>, sc: Scope, w: World)
    ensures Nested(BuiltPart(h, c, mode, top, sc, w), top)
    decreases h, 0
  {
    BuiltIsNested(h.node, c, HeldMode(h, mode), top, sc, w);
  }

  lemma {:induction false} ExprIsNested(e: Expr, c: nat, mode: Mode, top: Option<nat>, sc: Scope, w: World)
    ensures Nested(BuiltExpr(e, c, mode, top, sc, w), top)
    decreases e, 0
  {
    hide BuiltRows, BuiltBranch;
    match e
    case Plain(_, _, _) =>
    case Cond(_, yes, no) =>
      BranchIsNested(yes, c, mode, Deeper(mode), top, sc, w);
      BranchIsNested(no, c + BranchVars(yes), mode, Deeper(mode), top, sc, w);
    case And(_, yes) => BranchIsNested(yes, c, mode, Deeper(mode), top, sc, w);
    case Mapped(list, item, _, _, body) => RowsAreNested(body, item, w.items(Seen(list, mode.Blanked?, sc)), c, mode, top, sc, w);
  }

  lemma {:induction false} RowsAreNested(body: Body, item: string, items: seq<int>, c: nat, mode: Mode, top: Option<nat>, sc: Scope, w: World)
    ensures AllNested(BuiltRows(body, item, items, c, mode, top, sc, w), top)
    decreases body, 1, |items|
  {
    hide BuiltBody;
    if items != [] {
      BodyIsNested(body, c, mode, top, sc[item := items[0]], w);
      RowsAreNested(body, item, items[1..], c, mode, top, sc, w);
    }
  }

  lemma {:induction false} BodyIsNested(body: Body, c: nat, mode: Mode, top: Option<nat>, sc: Scope, w: World)
    ensures Nested(BuiltBody(body, c, mode, top, sc, w), top)
    decreases body, 0
  {
    hide Built, Within, Seen;
    match body
    case Whole(n) => BuiltIsNested(n, c, Deeper(mode), top, sc, w);
    case Without(_) =>
    case _ =>
      BuiltIsNested(body.node, c, Deeper(mode), top, sc, w);
      BuiltIsNested(body.node, c, Deeper(mode), top, Within(sc, Seen(body.js, mode.Blanked?, sc), body.locals, w), w);
  }

  lemma {:induction false} InsideIsNested(children: seq<Node>, c: nat, mode: Mode, top: Option<nat>, sc: Scope, w: World)
    ensures AllNested(BuiltInside(children, c, mode, top, sc, w), top)
    decreases children, 0
  {
    hide Absent, Built;
    if children != [] {
      BuiltIsNested(children[0], c, ChildMode(children[0], mode), top, sc, w);
      InsideIsNested(children[1..], c + Vars(children[0]), mode, top, sc, w);
    }
  }

  lemma {:induction false} ValuesAreNested(children: seq<Node>, c: nat, mode: Mode, top: Option<nat>, sc: Scope, w: World)
    ensures AllNested(BuiltValues(children, c, mode, top, sc, w), top)
    decreases children, 0
  {
    hide Absent, Built;
    if children != [] {
      BuiltIsNested(children[0], c, ChildMode(children[0], mode), top, sc, w);
      ValuesAreNested(children[1..], c + Vars(children[0]), mode, top, sc, w);
    }
  }

  lemma {:induction false} BranchIsNested(b: Branch, c: nat, mode: Mode, jsx: Mode, top: Option<nat>, sc: Scope, w: World)
    ensures Nested(BuiltBranch(b, c, mode, jsx, top, sc, w), top)
    decreases b, 0
  {
    hide Built, BuriedMode;
    match b
    case Jsx(n) => BuiltIsNested(n, c, jsx, top, sc, w);
    case Other(_) =>
    case Inner(_, yes, no) =>
      BranchIsNested(yes, c, mode, jsx, top, sc, w);
      BranchIsNested(no, c + BranchVars(yes), mode, jsx, top, sc, w);
    case Around(_, inCallback, inJsx, _, yes, no) =>
      var jsx' := BuriedMode(inCallback, mode, jsx);
      var mode' := if inJsx then jsx' else mode;
      BranchIsNested(yes, c, mode', jsx', top, sc, w);
      BranchIsNested(no, c + BranchVars(yes), mode', jsx', top, sc, w);
  }

  /** Only what is JavaScript as a whole is run. */
  ghost function Load(code: Code, m: Machine, w: World): Option<Result> { if Parses(code) then Run(code, m, w) else None }

  /** The emitted program runs exactly if the tree compiles, and then without an error wherever the variables in scope are
      numbered below its own. It leaves the children stack as it found it, and every part was made under the element that
      encloses it. If no callback uses a name that the emitted one loses, the tree is the one that was written, with the
      keys of its rows, exactly when what is shown is whole. */
  lemma ProgramBuildsTheTree(n: Node, c: nat, mode: Mode, m: Machine, w: World)
    requires forall v <- m.vars :: v < c
    ensures var r := Load(Emit(n, c, mode), m, w);
      (r.Some? <==> Compiles(n, mode))
      && (r.Some? ==>
            r.value.stack == m.stack && Nested(r.value.tree, m.Top())
            && (Handled(n) ==> (Erase(r.value.tree) == Meant(n, m.scope, w) <==> Keeps(n, mode, m.scope, w))))
  {
    hide Run, Emit, Built, Nested, Erase, Meant, Keeps, Handled, Parses, Compiles;
    CompilesIffParses(n, c, mode);
    EmitRuns(n, c, mode, m, w);
    if Handled(n) && Compiles(n, mode) { BuiltIsMeant(n, c, mode, m.Top(), m.scope, w); }
    BuiltIsNested(n, c, mode, m.Top(), m.scope, w);
  }

  const START := Machine(map[], map[], [])

  /** What a program shows that is started with nothing. */
  ghost function Shown(n: Node, w: World): Option<View> {
    var r := Load(Emit(n, 0, Collecting), START, w);
    if r.Some? then Some(Erase(r.value.tree)) else None
  }

  lemma ShownIsBuilt(n: Node, w: World)
    ensures Shown(n, w) == if Compiles(n, Collecting) then Some(Erase(Built(n, 0, Collecting, None, map[], w))) else None
  {
    hide Run, Emit, Built, Erase, Parses, Compiles;
    CompilesIffParses(n, 0, Collecting);
    EmitRuns(n, 0, Collecting, START, w);
  }

  // What a single expression between braces, and a single row, come to.

  lemma SlotCompiles(js: Js, literal: bool, reactive: bool, mode: Mode)
    ensures CompilesInside([Braces(Plain(js, literal, reactive))], mode) <==>
      MayBeLost(js, mode) && (IsLive(literal, reactive, mode) ==> !BeginsWithBrace(js.text))
  {
    hide Copies, BeginsWithBrace;
    var slot := Braces(Plain(js, literal, reactive));
    assert [slot][1..] == [] && CompilesInside([], mode);
    assert ChildMode(slot, mode) == mode && (Compiles(slot, mode) <==> CompilesExpr(slot.expr, mode));
  }

  lemma BracesArePresent(e: Expr)
    ensures !Absent(Braces(e)) && Free(Braces(e)) == FreeExpr(e)
  {
  }

  lemma SlotBuilds(js: Js, literal: bool, reactive: bool, c: nat, mode: Mode, top: Option<nat>, sc: Scope, w: World)
    ensures BuiltInside([Braces(Plain(js, literal, reactive))], c, mode, top, sc, w) == [Hole(Seen(js, mode.Blanked?, sc), IsLive(literal, reactive, mode), top)]
  {
    hide Seen;
    var slot, hole := Braces(Plain(js, literal, reactive)), Hole(Seen(js, mode.Blanked?, sc), IsLive(literal, reactive, mode), top);
    Solo(slot);
    Solo(hole);
    BracesArePresent(slot.expr);
    assert Built(slot, c, mode, top, sc, w) == hole;
    assert BuiltInside([], c + Vars(slot), mode, top, sc, w) == [];
  }

  lemma SlotMeans(js: Js, literal: bool, reactive: bool, sc: Scope, w: World)
    ensures MeantInside([Braces(Plain(js, literal, reactive))], sc, w) == [Slot(Close(js, sc), reactive && !literal)]
  {
    hide Close;
    var slot := Braces(Plain(js, literal, reactive));
    Solo(slot);
    Solo(Slot(Close(js, sc), reactive && !literal));
    BracesArePresent(slot.expr);
    assert Meant(slot, sc, w) == Slot(Close(js, sc), reactive && !literal);
    assert MeantInside([], sc, w) == [];
  }

  /** A list with one item. */
  lemma OneRowBuilds(list: Js, item: string, others: seq<Identifier>, index: bool, body: Body, v: int, sc: Scope, w: World)
    requires w.items(Close(list, sc)) == [v]
    ensures var key := EmitKey(BodyKey(body), IndexOf(others, index));
      Erase(Built(Braces(Mapped(list, item, others, index, body)), 0, Collecting, None, sc, w))
      == Lines(if key.None? then [] else [RunKey(key.value, item, v, 0, sc, w)], [Erase(BuiltBody(body, 0, Collecting, None, sc[item := v], w))])
  {
    hide BuiltBody, Erase, RunKey, BodyKey, EmitKey;
    var key := EmitKey(BodyKey(body), IndexOf(others, index));
    var row := BuiltBody(body, 0, Collecting, None, sc[item := v], w);
    Solo(v);
    Solo(row);
    EraseOne(row);
    assert BuiltRows(body, item, [], 0, Collecting, None, sc, w) == [] && RunKeys(key, item, [], 1, sc, w) == [];
    assert BuiltRows(body, item, [v], 0, Collecting, None, sc, w) == [row];
    if key.Some? { Solo(RunKey(key.value, item, v, 0, sc, w)); }
    RowsErase(RunKeys(key, item, [v], 0, sc, w), [row], None);
  }

  lemma RowsErase(keys: seq<Closed>, rows: seq<Tree>, under: Option<nat>)
    ensures Erase(Rows(keys, rows, under)) == Lines(keys, EraseAll(rows))
  {
  }

  lemma OneRowMeans(list: Js, item: string, others: seq<Identifier>, index: bool, body: Body, v: int, sc: Scope, w: World)
    requires w.items(Close(list, sc)) == [v]
    ensures var key, row := BodyKey(body), Inside(item, others, v, 0, sc, w);
      Meant(Braces(Mapped(list, item, others, index, body)), sc, w)
      == Lines(if key.None? then [] else [Close(key.value.js, ScopeIn(body, row, w))], [MeantBody(body, row, w)])
  {
    hide MeantBody, BodyKey, Close, ScopeIn, Inside;
    var row := Inside(item, others, v, 0, sc, w);
    Solo(v);
    Solo(MeantBody(body, row, w));
    assert MeantRows(body, item, others, [], 1, sc, w) == [] && MeantKeys(body, item, others, [], 1, sc, w) == [];
    assert MeantRows(body, item, others, [v], 0, sc, w) == [MeantBody(body, row, w)];
    if BodyKey(body).Some? { Solo(Close(BodyKey(body).value.js, ScopeIn(body, row, w))); }
    assert Meant(Braces(Mapped(list, item, others, index, body)), sc, w)
        == Lines(MeantKeys(body, item, others, [v], 0, sc, w), MeantRows(body, item, others, [v], 0, sc, w));
  }

  /** {ok ? items.map(x => <li/>) : null}, {items.map(({id}) => <li>{id}</li>)} and {x || <A/>}, alone or in an element:
      the JSX is in no callback that the collector enters, so it stays in the text, which is no JavaScript. */
  lemma LeftJsxIsNoJavaScript(tag: string, c: nat, mode: Mode)
    requires !mode.Blanked?
    ensures var branch := Other(Js("items.map(x => <li/>)", {"items"}, [Held(Element("li", [], []), false)]));
      var n := Braces(Cond(Js("ok", {"ok"}, []), branch, Other(Js("null", {}, []))));
      !Parses(Emit(n, c, mode)) && !Parses(Emit(Element(tag, [], [n]), c, mode))
    ensures var li := Element("li", [], [Braces(Plain(Js("id", {"id"}, []), false, false))]);
      var n := Braces(Plain(Js("items.map(({id}) => <li>{id}</li>)", {"items"}, [Held(li, false)]), false, false));
      !Parses(Emit(n, c, mode)) && !Parses(Emit(Element(tag, [], [n]), c, mode))
    ensures var n := Braces(Plain(Js("x || <A/>", {"x"}, [Held(Component("A", [], []), false)]), false, false));
      !Parses(Emit(n, c, mode)) && !Parses(Emit(Element(tag, [], [n]), c, mode))
  {
    hide Parses, Emit;
    var branch := Js("items.map(x => <li/>)", {"items"}, [Held(Element("li", [], []), false)]);
    var li := Element("li", [], [Braces(Plain(Js("id", {"id"}, []), false, false))]);
    LeftBranch(Js("ok", {"ok"}, []), branch, Other(Js("null", {}, [])), tag, c, mode);
    LeftExpression(Js("items.map(({id}) => <li>{id}</li>)", {"items"}, [Held(li, false)]), tag, c, mode);
    LeftExpression(Js("x || <A/>", {"x"}, [Held(Component("A", [], []), false)]), tag, c, mode);
  }

  /** <div>{Array.from(rows, () => <span/>)}</div> is fine; one element further in, the collector does not come by. */
  lemma NestedCallbackIsLeft(tag: string, inner: string, c: nat)
    ensures var n := Braces(Plain(Js("Array.from(rows, () => <span/>)", {"rows"}, [Held(Element("span", [], []), true)]), false, false));
      Parses(Emit(Element(tag, [], [n]), c, Collecting)) && !Parses(Emit(Element(tag, [], [Element(inner, [], [n])]), c, Collecting))
  {
    hide Parses, Emit;
    var js := Js("Array.from(rows, () => <span/>)", {"rows"}, [Held(Element("span", [], []), true)]);
    var n := Braces(Plain(js, false, false));
    var within := Element(inner, [], [n]);
    CompilesIffParses(Element(tag, [], [n]), c, Collecting);
    CompilesIffParses(Element(tag, [], [within]), c, Collecting);
    SlotCompiles(js, false, false, Collecting);
    SlotCompiles(js, false, false, Copying);
    assert CompilesAttrs(tag, [], Collecting);
    assert !Compiles(within, Copying);
    assert !CompilesChild([within][0], Collecting);
  }

  lemma LeftBranch(test: Js, js: Js, no: Branch, tag: string, c: nat, mode: Mode)
    requires js.holds != [] && !js.holds[0].inCallback
    ensures var n := Braces(Cond(test, Other(js), no)); !Parses(Emit(n, c, mode)) && !Parses(Emit(Element(tag, [], [n]), c, mode))
  {
    hide Parses, Emit, Copies;
    var n := Braces(Cond(test, Other(js), no));
    NotEntered(js, mode);
    CompilesIffParses(n, c, mode);
    CompilesIffParses(Element(tag, [], [n]), c, mode);
    assert !CompilesBranch(Other(js), mode, Deeper(mode));
    assert !CompilesExpr(n.expr, mode);
    assert !CompilesChild([n][0], mode);
  }

  lemma LeftExpression(js: Js, tag: string, c: nat, mode: Mode)
    requires js.holds != [] && !js.holds[0].inCallback && !mode.Blanked?
    ensures var n := Braces(Plain(js, false, false)); !Parses(Emit(n, c, mode)) && !Parses(Emit(Element(tag, [], [n]), c, mode))
  {
    hide Parses, Emit, Copies;
    var n := Braces(Plain(js, false, false));
    NotEntered(js, mode);
    CompilesIffParses(n, c, mode);
    CompilesIffParses(Element(tag, [], [n]), c, mode);
    assert !CompilesExpr(n.expr, mode);
    SlotCompiles(js, false, false, mode);
  }

  lemma NotEntered(js: Js, mode: Mode)
    requires js.holds != [] && !js.holds[0].inCallback
    ensures !Copies(js, mode)
  {
    assert js.holds[0] in js.holds;
  }

  /** <Layout header={() => <h1>{title}</h1>}/>: the heading has been replaced by its own program when its text is read for
      the property, so that nothing is inserted in it. */
  lemma CallbackOfAPropertyIsBlank(reactive: bool, w: World)
    ensures var h1 := Element("h1", [], [Braces(Plain(Js("title", {"title"}, []), false, reactive))]);
      var header := Js("() => <h1>{title}</h1>", {"title"}, [Held(h1, true)]);
      var n := Component("Layout", [Expression("header", header, false, reactive, Loose)], []);
      Meant(n, map[], w) == LayoutWith(header.text, Closed("title", map[]), reactive)
      && Shown(n, w) == Some(LayoutWith(header.text, Gone, false))
  {
    hide Run, Emit, Built, Erase, Parses, Compiles, Meant;
    var h1 := Element("h1", [], [Braces(Plain(Js("title", {"title"}, []), false, reactive))]);
    var header := Js("() => <h1>{title}</h1>", {"title"}, [Held(h1, true)]);
    var n := Component("Layout", [Expression("header", header, false, reactive, Loose)], []);
    ShownIsBuilt(n, w);
    HeadingCompiles(h1, header, reactive);
    HeadingMeans(h1, header, reactive, w);
    HeadingIsBlank(h1, header, reactive, w);
  }

  function LayoutWith(text: string, shown: Closed, live: bool): View {
    Use("Layout", [PassedCode("header", Closed(text, map[]), true, [Tag("h1", [], [Slot(shown, live)])])], [])
  }

  lemma HeadingCompiles(h1: Node, header: Js, reactive: bool)
    requires h1 == Element("h1", [], [Braces(Plain(Js("title", {"title"}, []), false, reactive))])
    requires header == Js("() => <h1>{title}</h1>", {"title"}, [Held(h1, true)])
    ensures Compiles(Component("Layout", [Expression("header", header, false, reactive, Loose)], []), Collecting)
  {
    var attr := Expression("header", header, false, reactive, Loose);
    Solo(attr);
    Solo(Held(h1, true));
    SlotCompiles(Js("title", {"title"}, []), false, reactive, Blanked);
    assert CompilesHeld(Held(h1, true), Collecting);
    assert CompilesHolds(header.holds, Collecting);
    assert CompilesProp(attr, Collecting);
    assert CompilesProps([attr], Collecting);
    assert IsCallee("Layout");
  }

  lemma HeadingMeans(h1: Node, header: Js, reactive: bool, w: World)
    requires h1 == Element("h1", [], [Braces(Plain(Js("title", {"title"}, []), false, reactive))])
    requires header == Js("() => <h1>{title}</h1>", {"title"}, [Held(h1, true)])
    ensures Meant(Component("Layout", [Expression("header", header, false, reactive, Loose)], []), map[], w)
         == LayoutWith(header.text, Closed("title", map[]), reactive)
  {
    var none: Scope := map[];
    var attr := Expression("header", header, false, reactive, Loose);
    assert Restrict(none, {"title"}) == none;
    Solo(attr);
    Solo(Held(h1, true));
    SlotMeans(Js("title", {"title"}, []), false, reactive, none, w);
    var heading := Tag("h1", [], [Slot(Closed("title", none), reactive)]);
    assert Wanted("h1", [], none, w) == [] && Meant(h1, none, w) == heading;
    assert MeantPart(Held(h1, true), none, w) == heading;
    assert MeantParts(header.holds, none, w) == [heading] + [] == [heading];
    var passed: Passed<View> := PassedCode("header", Closed(header.text, none), true, MeantParts(header.holds, none, w));
    assert MeantProp(attr, none, w) == [passed];
    assert MeantProps([attr], none, w) == [passed] + [] == [passed];
    assert MeantValues([], none, w) == [];
  }

  lemma HeadingIsBlank(h1: Node, header: Js, reactive: bool, w: World)
    requires h1 == Element("h1", [], [Braces(Plain(Js("title", {"title"}, []), false, reactive))])
    requires header == Js("() => <h1>{title}</h1>", {"title"}, [Held(h1, true)])
    ensures Erase(Built(Component("Layout", [Expression("header", header, false, reactive, Loose)], []), 0, Collecting, None, map[], w))
         == LayoutWith(header.text, Gone, false)
  {
    var none: Scope := map[];
    var attr := Expression("header", header, false, reactive, Loose);
    assert Restrict(none, {"title"}) == none;
    Solo(attr);
    Solo(Held(h1, true));
    var hole := Hole(Gone, false, Some(0));
    SlotBuilds(Js("title", {"title"}, []), false, reactive, 1, Blanked, Some(0), none, w);
    var el := Elem(0, "h1", [], [hole], None);
    assert BuiltPart(Held(h1, true), 0, Collecting, None, none, w) == el;
    assert BuiltParts(header.holds, 0, Collecting, None, none, w) == [el] + [] == [el];
    var passed := PassedCode("header", Closed(header.text, none), true, [el]);
    assert BuiltProps([attr], 0, Collecting, None, none, w) == [passed] + [] == [passed];
    EraseOne(hole);
    EraseOne(el);
    assert EraseProps([passed]) == [EraseProp(passed)] + [];
  }

  /** With an attribute that has an expression, the program is no JavaScript. */
  lemma BlankAttributeIsNoJavaScript(name: string, js: Js, literal: bool, reactive: bool, shape: Shape, text: string, free: set<string>, c: nat)
    requires name != "key" && !IsListener(DomName(name))
    ensures var h1 := Element("h1", [Expression(name, js, literal, reactive, shape)], []);
      !Parses(Emit(Component("Layout", [Expression("header", Js(text, free, [Held(h1, true)]), false, false, Loose)], []), c, Collecting))
  {
    hide Parses, Emit, DomName, IsListener;
    var attr := Expression(name, js, literal, reactive, shape);
    var h1 := Element("h1", [attr], []);
    var prop := Expression("header", Js(text, free, [Held(h1, true)]), false, false, Loose);
    CompilesIffParses(Component("Layout", [prop], []), c, Collecting);
    assert !CompilesAttr("h1", attr, Blanked);
    assert !CompilesAttrs("h1", [attr], Blanked);
    assert !CompilesHeld(Held(h1, true), Collecting);
    assert !CompilesHolds([Held(h1, true)], Collecting);
    assert !CompilesProp(prop, Collecting);
  }

  /** ok && String(a ? x : y): the generated code shows x or y without the call around them. */
  lemma BuriedConditionalIsUnwrapped(ok: Js, a: Js, x: Js, y: Js, whole: Js, w: World)
    requires w.truth(Close(ok, map[])) && w.truth(Close(a, map[]))
    requires forall js <- [ok, a, x, y] :: js.holds == [] && !BeginsWithBrace(js.text)
    ensures var n := Braces(And(ok, Around(whole, false, false, a, Other(x), Other(y))));
      Meant(n, map[], w) == Switch(Slot(Close(whole, map[]), false)) && Shown(n, w) == Some(Switch(Switch(Slot(Close(x, map[]), false))))
  {
    hide Close, Run, Emit;
    var none: Scope := map[];
    var b := Around(whole, false, false, a, Other(x), Other(y));
    var e := And(ok, b);
    ShownIsBuilt(Braces(e), w);
    assert ok in [ok, a, x, y] && a in [ok, a, x, y] && x in [ok, a, x, y] && y in [ok, a, x, y];
    assert CompilesBranch(b, Collecting, Copying);
    var inner := Region(Hole(Close(x, none), false, None), None);
    assert BuiltBranch(b, 0, Collecting, Copying, None, none, w) == inner;
    assert BuiltExpr(e, 0, Collecting, None, none, w) == Region(inner, None);
    assert Erase(inner) == Switch(Slot(Close(x, none), false)) && Erase(Region(inner, None)) == Switch(Erase(inner));
    assert MeantBranch(b, none, w) == Slot(Close(whole, none), false);
    assert MeantExpr(e, none, w) == Switch(MeantBranch(b, none, w));
  }

  /** items.map(x => cond ? <a/> : <b/>): every row shows the first JSX of the callback. */
  lemma BuriedJsxIsUnwrapped(list: Js, item: string, around: Js, tag: string, v: int, w: World)
    requires w.items(Close(list, map[])) == [v] && list.holds == [] && !BeginsWithBrace(list.text)
    ensures var n := Braces(Mapped(list, item, [], false, Buried(around, [], false, None, Element(tag, [], []))));
      Meant(n, map[], w) == Lines([], [Kept(Close(around, map[item := v]), Tag(tag, [], []))])
      && Shown(n, w) == Some(Lines([], [Tag(tag, [], [])]))
  {
    hide Close, Run, Emit;
    var el := Element(tag, [], []);
    var body := Buried(around, [], false, None, el);
    var n := Braces(Mapped(list, item, [], false, body));
    var none: Scope := map[];
    var row := none[item := v];
    ShownIsBuilt(n, w);
    assert CompilesInside([], Copying) && Compiles(el, Copying);
    OneRowBuilds(list, item, [], false, body, v, none, w);
    OneRowMeans(list, item, [], false, body, v, none, w);
    assert Meanings(tag, [], false, row, w) == [] && BuiltInside([], 1, Copying, Some(0), row, w) == [];
    assert Inside(item, [], v, 0, none, w) == row == ScopeIn(body, row, w);
    assert CompilesExpr(n.expr, Collecting);
    assert Erase(BuiltBody(body, 0, Collecting, None, row, w)) == Tag(tag, [], EraseAll([])) == Tag(tag, [], []);
    assert MeantBody(body, row, w) == Kept(Close(around, row), Meant(el, row, w));
    assert Meant(el, row, w) == Tag(tag, Wanted(tag, [], row, w), MeantInside([], row, w)) == Tag(tag, [], []);
  }

  /** items.map((x, i) => i): the emitted callback does not bind i. */
  lemma IndexIsLost(list: Js, item: string, i: Identifier, index: bool, v: int, w: World)
    requires w.items(Close(list, map[])) == [v] && item != i && list.holds == [] && !BeginsWithBrace(list.text)
    ensures var n := Braces(Mapped(list, item, [i], index, Without(Js(i, {i}, []))));
      Meant(n, map[], w) == Lines([], [Slot(Closed(i, map[i := w.given(0, i)]), false)])
      && Shown(n, w) == Some(Lines([], [Slot(Closed(i, map[]), false)]))
  {
    hide Run, Emit;
    var js := Js(i, {i}, []);
    var n := Braces(Mapped(list, item, [i], index, Without(js)));
    var none: Scope := map[];
    ShownIsBuilt(n, w);
    OneRowBuilds(list, item, [i], index, Without(js), v, none, w);
    OneRowMeans(list, item, [i], index, Without(js), v, none, w);
    assert Restrict(none[item := v], {i}) == none;
    assert Restrict(Inside(item, [i], v, 0, none, w), {i}) == map[i := w.given(0, i)];
    assert CompilesExpr(n.expr, Collecting) by { assert Copies(list, Collecting) && Copies(js, Collecting); }
    assert Erase(BuiltBody(Without(js), 0, Collecting, None, none[item := v], w)) == Slot(Close(js, none[item := v]), false);
  }

  // ------------------------------------------------------------------------------------------
  // What rows lose
  // ------------------------------------------------------------------------------------------

  /** Three ways to render one expression in a row: bare, in an element, and in an element behind declarations. */
  datatype RowOf = Bare | Tagged(tag: string) | Behind(tag: string, around: Js, locals: seq<string>, kept: bool)

  function BodyOf(row: RowOf, slot: Js, literal: bool, reactive: bool): Body {
    var children := [Braces(Plain(slot, literal, reactive))];
    match row
    case Bare => Without(slot)
    case Tagged(tag) => Whole(Element(tag, [], children))
    case Behind(tag, around, locals, kept) => Block(around, locals, kept, Element(tag, [], children))
  }

  /** Every list has one item, and what statements make of a name tells whether they see what the callback is given. */
  ghost function Telling(others: seq<string>): World {
    World(_ => Nil, _ => true, _ => [0], (i, x) => 0, (s: Closed, x) => if s.Closed? && exists o :: o in others && o in s.seen then 1 else 2,
          _ => "", _ => "")
  }

  ghost predicate LosesNothing(others: seq<string>, row: RowOf, slot: Js) {
    Names(others) !! slot.free
    && (row.Behind? ==> Names(row.locals) !! slot.free || (row.kept && Names(others) !! row.around.free))
  }

  /** Nothing in the row stands in the way of compiling it. */
  predicate IsClean(list: Js, row: RowOf, slot: Js) {
    list.holds == slot.holds == [] && !BeginsWithBrace(list.text) && !BeginsWithBrace(slot.text)
    && (row.Behind? ==> row.around.holds == [])
  }

  lemma RowCompiles(list: Js, item: string, others: seq<Identifier>, index: bool, row: RowOf, slot: Js, literal: bool, reactive: bool)
    requires IsClean(list, row, slot)
    ensures Compiles(Braces(Mapped(list, item, others, index, BodyOf(row, slot, literal, reactive))), Collecting)
  {
    hide BeginsWithBrace;
    SlotCompiles(slot, literal, reactive, Copying);
    assert Returns(list, Collecting) && Copies(slot, Collecting) && Copies(slot, Copying);
    var body := BodyOf(row, slot, literal, reactive);
    assert CompilesBody(body, Collecting) by {
      if !row.Bare? { assert CompilesAttrs(row.tag, [], Copying); }
    }
    assert KeyIn([]) == None;
  }

  /** What the expression of a row sees, in the program and in the source. */
  ghost function BuiltScope(row: RowOf, sc: Scope, w: World): Scope {
    if row.Behind? && row.kept then Within(sc, Close(row.around, sc), row.locals, w) else sc
  }

  ghost function MeantScope(row: RowOf, sc: Scope, w: World): Scope {
    if row.Behind? then Within(sc, Close(row.around, sc), row.locals, w) else sc
  }

  function RowView(row: RowOf, shown: Closed, live: bool): View {
    if row.Bare? then Slot(shown, false) else Tag(row.tag, [], [Slot(shown, live)])
  }

  lemma RowShows(row: RowOf, slot: Js, literal: bool, reactive: bool, a: Scope, b: Scope, w: World)
    ensures var body := BodyOf(row, slot, literal, reactive);
      Erase(BuiltBody(body, 0, Collecting, None, a, w)) == RowView(row, Close(slot, BuiltScope(row, a, w)), reactive && !literal)
      && MeantBody(body, b, w) == RowView(row, Close(slot, MeantScope(row, b, w)), reactive && !literal)
  {
    hide Close, Within, Built, Meant;
    if row.Bare? {
      assert Erase(Hole(Close(slot, a), false, None)) == Slot(Close(slot, a), false);
    } else {
      SlotShows(row.tag, slot, literal, reactive, BuiltScope(row, a, w), MeantScope(row, b, w), w);
    }
  }

  lemma RowsHaveNoKey(row: RowOf, slot: Js, literal: bool, reactive: bool)
    ensures BodyKey(BodyOf(row, slot, literal, reactive)) == None
  {
    assert KeyIn([]) == None;
  }

  /** The row's expression sees in the program what it sees in the source. */
  lemma RowSeesAll(item: string, others: seq<string>, row: RowOf, slot: Js, v: int, i: nat, w: World)
    requires LosesNothing(others, row, slot)
    ensures Close(slot, BuiltScope(row, map[item := v], w)) == Close(slot, MeantScope(row, Inside(item, others, v, i, map[], w), w))
  {
    var built, meant := map[item := v], Inside(item, others, v, i, map[], w);
    RowAgrees(item, others, v, i, map[], w, slot.free);
    if row.Behind? {
      if Names(row.locals) !! slot.free {
        WithinHides(built, Close(row.around, built), row.locals, slot.free, w);
        WithinHides(meant, Close(row.around, meant), row.locals, slot.free, w);
      } else {
        RowAgrees(item, others, v, i, map[], w, row.around.free + slot.free);
        WithinAgrees(row.around, row.locals, built, meant, w, slot.free);
      }
    }
    RestrictAgrees(BuiltScope(row, built, w), MeantScope(row, meant, w), slot.free);
  }

  lemma {:induction false} RowsAreSame(item: string, others: seq<string>, row: RowOf, slot: Js, literal: bool, reactive: bool,
                                       items: seq<int>, i: nat, w: World)
    requires LosesNothing(others, row, slot)
    ensures var body := BodyOf(row, slot, literal, reactive);
      EraseAll(BuiltRows(body, item, items, 0, Collecting, None, map[], w)) == MeantRows(body, item, others, items, i, map[], w)
    decreases |items|
  {
    hide LosesNothing, BuiltBody, MeantBody, Close, Inside, BuiltScope, MeantScope, Erase;
    if items != [] {
      var body, none: Scope := BodyOf(row, slot, literal, reactive), map[];
      RowShows(row, slot, literal, reactive, none[item := items[0]], Inside(item, others, items[0], i, none, w), w);
      RowSeesAll(item, others, row, slot, items[0], i, w);
      RowsAreSame(item, others, row, slot, literal, reactive, items[1..], i + 1, w);
      var first, rest := BuiltBody(body, 0, Collecting, None, none[item := items[0]], w), BuiltRows(body, item, items[1..], 0, Collecting, None, none, w);
      ConsEqual(first, rest, first, rest);
    }
  }

  lemma RowsMatch(list: Js, item: string, others: seq<Identifier>, index: bool, row: RowOf, slot: Js, literal: bool, reactive: bool, w: World)
    requires LosesNothing(others, row, slot)
    ensures var n := Braces(Mapped(list, item, others, index, BodyOf(row, slot, literal, reactive)));
      Erase(Built(n, 0, Collecting, None, map[], w)) == Meant(n, map[], w)
  {
    hide LosesNothing, BuiltRows, MeantRows, Close, BodyOf, BodyKey;
    var body, items := BodyOf(row, slot, literal, reactive), w.items(Close(list, map[]));
    RowsHaveNoKey(row, slot, literal, reactive);
    RowsAreSame(item, others, row, slot, literal, reactive, items, 0, w);
    RowsErase([], BuiltRows(body, item, items, 0, Collecting, None, map[], w), None);
  }

  lemma RowDiffers(list: Js, item: string, others: seq<Identifier>, index: bool, row: RowOf, slot: Js, literal: bool, reactive: bool, w: World)
    requires w == Telling(others) && !LosesNothing(others, row, slot) && item !in others
    requires row.Behind? ==> item !in row.locals && Names(others) !! Names(row.locals)
    ensures var n := Braces(Mapped(list, item, others, index, BodyOf(row, slot, literal, reactive)));
      Erase(Built(n, 0, Collecting, None, map[], w)) != Meant(n, map[], w)
  {
    hide LosesNothing, Close, BodyOf, BuiltBody, MeantBody, Inside, BuiltScope, MeantScope, Built, Meant, Erase, BodyKey;
    var body, none: Scope := BodyOf(row, slot, literal, reactive), map[];
    RowsHaveNoKey(row, slot, literal, reactive);
    OneRowBuilds(list, item, others, index, body, 0, none, w);
    OneRowMeans(list, item, others, index, body, 0, none, w);
    RowShows(row, slot, literal, reactive, none[item := 0], Inside(item, others, 0, 0, none, w), w);
    SomethingIsLost(item, others, row, slot, w);
  }

  lemma SomethingIsLost(item: string, others: seq<Identifier>, row: RowOf, slot: Js, w: World)
    requires w == Telling(others) && !LosesNothing(others, row, slot) && item !in others
    requires row.Behind? ==> item !in row.locals && Names(others) !! Names(row.locals)
    ensures Close(slot, BuiltScope(row, map[item := 0], w)) != Close(slot, MeantScope(row, Inside(item, others, 0, 0, map[], w), w))
  {
    var built, meant: Scope := map[item := 0], Inside(item, others, 0, 0, map[], w);
    var a, b := Close(slot, BuiltScope(row, built, w)), Close(slot, MeantScope(row, meant, w));
    if x :| x in others && x in slot.free {
      assert x in Names(others);
      assert x in b.seen && x !in a.seen;
    } else {
      var x :| x in row.locals && x in slot.free;
      if row.kept {
        var o :| o in others && o in row.around.free;
        assert o in Close(row.around, meant).seen;
        assert forall p | p in others :: p !in built;
        assert b.seen[x] == 1 && a.seen[x] == 2;
      } else {
        assert x in b.seen && x !in a.seen;
      }
    }
  }

  /** What the row's expression and tags come to. */
  lemma SlotShows(tag: string, slot: Js, literal: bool, reactive: bool, a: Scope, b: Scope, w: World)
    ensures var el := Element(tag, [], [Braces(Plain(slot, literal, reactive))]);
      Erase(Built(el, 0, Copying, None, a, w)) == Tag(tag, [], [Slot(Close(slot, a), reactive && !literal)])
      && Meant(el, b, w) == Tag(tag, [], [Slot(Close(slot, b), reactive && !literal)])
  {
    hide Close;
    SlotBuilds(slot, literal, reactive, 1, Copying, Some(0), a, w);
    SlotMeans(slot, literal, reactive, b, w);
    EraseOne(Hole(Close(slot, a), reactive && !literal, Some(0)));
    assert Meanings(tag, [], false, a, w) == [] && Wanted(tag, [], b, w) == [];
  }

  /** items.map((x, i, ..) => e), items.map((x, i, ..) => <tag>{e}</tag>) and
      items.map((x, i, ..) => { declarations; return <tag>{e}</tag>; }): the rows are right in every world exactly if no
      name that e uses, or that a kept declaration of a name that e uses uses, is lost. */
  lemma LostNamesShow(list: Js, item: string, others: seq<Identifier>, index: bool, row: RowOf, slot: Js, literal: bool, reactive: bool)
    requires IsClean(list, row, slot) && item !in others
    requires row.Behind? ==> item !in row.locals && Names(others) !! Names(row.locals)
    ensures var n := Braces(Mapped(list, item, others, index, BodyOf(row, slot, literal, reactive)));
      (forall w :: Shown(n, w) == Some(Meant(n, map[], w))) <==> LosesNothing(others, row, slot)
  {
    hide Run, Emit, Built, Erase, Parses, Compiles, Meant, Shown;
    var n := Braces(Mapped(list, item, others, index, BodyOf(row, slot, literal, reactive)));
    RowCompiles(list, item, others, index, row, slot, literal, reactive);
    if LosesNothing(others, row, slot) {
      forall w ensures Shown(n, w) == Some(Meant(n, map[], w)) {
        ShownIsBuilt(n, w);
        RowsMatch(list, item, others, index, row, slot, literal, reactive, w);
      }
    } else {
      var w := Telling(others);
      ShownIsBuilt(n, w);
      RowDiffers(list, item, others, index, row, slot, literal, reactive, w);
    }
  }
  /** <ul>{items.map(item => { const { name } = item; return <li>{name}</li>; })}</ul>: the declaration is dropped. */
  lemma DestructuredNameIsLost(v: int, w: World)
    requires w.items(Closed("items", map[])) == [v]
    ensures var around := Js("{ const { name } = item; return ; }", {"item"}, []);
      var n := Braces(Mapped(Js("items", {"items"}, []), "item", [], false, BodyOf(Behind("li", around, ["name"], false), Js("name", {"name"}, []), false, false)));
      Shown(n, w) == Some(Lines([], [Tag("li", [], [Slot(Closed("name", map[]), false)])]))
      && Meant(n, map[], w) == Lines([], [Tag("li", [], [Slot(Closed("name", map["name" := w.local(Closed(around.text, map["item" := v]), "name")]), false)])])
  {
    hide Run, Emit, Built, Erase, Parses, Compiles, Meant, Shown, BodyOf, BuiltBody, MeantBody, BodyKey;
    var list, slot := Js("items", {"items"}, []), Js("name", {"name"}, []);
    var around := Js("{ const { name } = item; return ; }", {"item"}, []);
    var row, none: Scope := Behind("li", around, ["name"], false), map[];
    var body := BodyOf(row, slot, false, false);
    assert Restrict(none, {"items"}) == none;
    RowCompiles(list, "item", [], false, row, slot, false, false);
    ShownIsBuilt(Braces(Mapped(list, "item", [], false, body)), w);
    RowsHaveNoKey(row, slot, false, false);
    OneRowBuilds(list, "item", [], false, body, v, none, w);
    OneRowMeans(list, "item", [], false, body, v, none, w);
    RowShows(row, slot, false, false, none["item" := v], Inside("item", [], v, 0, none, w), w);
    DestructuredRow(around, v, w);
  }

  lemma DestructuredRow(around: Js, v: int, w: World)
    requires around.free == {"item"}
    ensures var row, slot := Behind("li", around, ["name"], false), Js("name", {"name"}, []);
      var none: Scope := map[];
      Close(slot, BuiltScope(row, none["item" := v], w)) == Closed("name", map[])
      && Close(slot, MeantScope(row, Inside("item", [], v, 0, none, w), w))
         == Closed("name", map["name" := w.local(Closed(around.text, map["item" := v]), "name")])
  {
    var none: Scope := map[];
    assert Inside("item", [], v, 0, none, w) == none["item" := v];
    assert Restrict(none["item" := v], {"item"}) == none["item" := v];
    assert Restrict(none["item" := v], {"name"}) == none;
  }

  // ------------------------------------------------------------------------------------------
  // The keys of rows
  // ------------------------------------------------------------------------------------------

  /** The body { declarations; return <tag key={..}/>; }. */
  function KeyedBody(tag: string, key: Key, literal: bool, reactive: bool, around: Js, locals: seq<string>, kept: bool): Body {
    Block(around, locals, kept, Element(tag, [Expression("key", key.js, literal, reactive, key.shape)], []))
  }

  /** The name is bound in the key function as it is in the callback. */
  predicate IsInKey(root: Identifier, others: seq<Identifier>, index: bool, locals: seq<string>) {
    root !in locals && (root in others ==> index && root == others[0])
  }

  /** items.map(x => <li key={`row-${x.id}`}/>), {1}, {f(x)}, {f(x).id}: a key that is no name and no names joined by dots
      leaves the key function without a body. */
  lemma KeyWithoutTextIsNoJavaScript(list: Js, item: string, others: seq<Identifier>, index: bool, tag: string, key: Key, literal: bool,
                                     reactive: bool, outer: string, c: nat, mode: Mode)
    requires !IsDotted(key.shape)
    ensures var li := Element(tag, [Expression("key", key.js, literal, reactive, key.shape)], []);
      var n := Braces(Mapped(list, item, others, index, Whole(li)));
      !Parses(Emit(n, c, mode)) && !Parses(Emit(Element(outer, [], [n]), c, mode))
  {
    hide Parses, Emit;
    var li := Element(tag, [Expression("key", key.js, literal, reactive, key.shape)], []);
    var n := Braces(Mapped(list, item, others, index, Whole(li)));
    CompilesIffParses(n, c, mode);
    CompilesIffParses(Element(outer, [], [n]), c, mode);
    assert BodyKey(Whole(li)) == Some(key);
    assert !CompilesExpr(n.expr, mode);
    assert !CompilesChild([n][0], mode);
  }

  /** items.map((x, i, ..) => { declarations; return <tag key={a.b.c}/>; }): the rows are right in every world exactly if
      nothing in the key has been rewritten, and the name that it begins with is the item, the index, or declared outside
      of the callback. */
  lemma LostKeyShows(list: Js, item: string, others: seq<Identifier>, index: bool, tag: string, key: Key, literal: bool, reactive: bool,
                     around: Js, locals: seq<string>, kept: bool)
    requires IsDotted(key.shape) && (IsAsWritten(key) ==> key.js.free == {Root(key.shape)})
    requires list.holds == around.holds == [] && !BeginsWithBrace(list.text)
    requires item !in others && item !in locals && Names(others) !! Names(locals)
    ensures var n := Braces(Mapped(list, item, others, index, KeyedBody(tag, key, literal, reactive, around, locals, kept)));
      (forall w :: Shown(n, w) == Some(Meant(n, map[], w))) <==> IsAsWritten(key) && IsInKey(Root(key.shape), others, index, locals)
  {
    hide Run, Emit, Built, Erase, Parses, Compiles, Meant, Shown, KeyedBody, IsAsWritten, IsInKey;
    var body := KeyedBody(tag, key, literal, reactive, around, locals, kept);
    var n := Braces(Mapped(list, item, others, index, body));
    KeyedCompiles(list, item, others, index, tag, key, literal, reactive, around, locals, kept);
    if IsAsWritten(key) && IsInKey(Root(key.shape), others, index, locals) {
      forall w ensures Shown(n, w) == Some(Meant(n, map[], w)) {
        ShownIsBuilt(n, w);
        KeyedMatch(list, item, others, index, tag, key, literal, reactive, around, locals, kept, w);
      }
    } else {
      var w := Telling(others);
      ShownIsBuilt(n, w);
      KeyedDiffers(list, item, others, index, tag, key, literal, reactive, around, locals, kept, w);
    }
  }

  lemma KeyedHas(tag: string, key: Key, literal: bool, reactive: bool, around: Js, locals: seq<string>, kept: bool)
    ensures var body := KeyedBody(tag, key, literal, reactive, around, locals, kept); BodyKey(body) == Some(key) && Locals(body) == locals
  {
  }

  lemma KeyedCompiles(list: Js, item: string, others: seq<Identifier>, index: bool, tag: string, key: Key, literal: bool, reactive: bool,
                      around: Js, locals: seq<string>, kept: bool)
    requires IsDotted(key.shape) && list.holds == around.holds == [] && !BeginsWithBrace(list.text)
    ensures Compiles(Braces(Mapped(list, item, others, index, KeyedBody(tag, key, literal, reactive, around, locals, kept))), Collecting)
  {
    KeyedHas(tag, key, literal, reactive, around, locals, kept);
    var attr := Expression("key", key.js, literal, reactive, key.shape);
    assert CompilesAttr(tag, attr, Copying) && CompilesAttrs(tag, [], Copying);
    Solo(attr);
    assert CompilesAttrs(tag, [attr], Copying) && CompilesInside([], Copying);
    assert Compiles(Element(tag, [attr], []), Copying);
    assert Returns(list, Collecting) && Copies(around, Collecting);
    assert CompilesBody(KeyedBody(tag, key, literal, reactive, around, locals, kept), Collecting);
  }

  lemma {:induction false} KeyedRowsAreSame(item: string, others: seq<string>, tag: string, key: Key, literal: bool, reactive: bool, around: Js,
                                            locals: seq<string>, kept: bool, items: seq<int>, i: nat, w: World)
    ensures var body := KeyedBody(tag, key, literal, reactive, around, locals, kept);
      EraseAll(BuiltRows(body, item, items, 0, Collecting, None, map[], w)) == MeantRows(body, item, others, items, i, map[], w)
    decreases |items|
  {
    hide BuiltBody, MeantBody, Inside, Erase, KeyedBody;
    if items != [] {
      var body, none: Scope := KeyedBody(tag, key, literal, reactive, around, locals, kept), map[];
      KeyedRow(tag, key, literal, reactive, around, locals, kept, none[item := items[0]], Inside(item, others, items[0], i, none, w), w);
      KeyedRowsAreSame(item, others, tag, key, literal, reactive, around, locals, kept, items[1..], i + 1, w);
      var first, rest := BuiltBody(body, 0, Collecting, None, none[item := items[0]], w), BuiltRows(body, item, items[1..], 0, Collecting, None, none, w);
      ConsEqual(first, rest, first, rest);
    }
  }

  /** A row without its key. */
  lemma KeyedRow(tag: string, key: Key, literal: bool, reactive: bool, around: Js, locals: seq<string>, kept: bool, a: Scope, b: Scope, w: World)
    ensures var body := KeyedBody(tag, key, literal, reactive, around, locals, kept);
      Erase(BuiltBody(body, 0, Collecting, None, a, w)) == Tag(tag, [], []) == MeantBody(body, b, w)
  {
    hide Close, Within;
    var attr := Expression("key", key.js, literal, reactive, key.shape);
    forall sc ensures Meanings(tag, [attr], false, sc, w) == [] == Wanted(tag, [attr], sc, w) {
      Solo(attr);
      assert Meaning(tag, attr, false, sc, w) == [] == WantedBy(tag, attr, sc, w);
      assert Meanings(tag, [], false, sc, w) == [] == Wanted(tag, [], sc, w);
    }
    forall sc ensures BuiltInside([], 1, Copying, Some(0), sc, w) == [] && MeantInside([], sc, w) == [] {
    }
    assert EraseAll([]) == [];
    var el := Element(tag, [attr], []);
    forall sc ensures Erase(Built(el, 0, Copying, None, sc, w)) == Tag(tag, [], []) && Meant(el, sc, w) == Tag(tag, [], []) {
      assert Built(el, 0, Copying, None, sc, w) == Elem(0, tag, [], [], None);
    }
  }

  lemma KeyedMatch(list: Js, item: string, others: seq<Identifier>, index: bool, tag: string, key: Key, literal: bool, reactive: bool,
                   around: Js, locals: seq<string>, kept: bool, w: World)
    requires IsDotted(key.shape) && IsAsWritten(key) && key.js.free == {Root(key.shape)} && IsInKey(Root(key.shape), others, index, locals)
    ensures var n := Braces(Mapped(list, item, others, index, KeyedBody(tag, key, literal, reactive, around, locals, kept)));
      Erase(Built(n, 0, Collecting, None, map[], w)) == Meant(n, map[], w)
  {
    hide BuiltRows, MeantRows, Close, KeyedBody, BodyKey, RunKeys, MeantKeys, EmitKey;
    var body, items := KeyedBody(tag, key, literal, reactive, around, locals, kept), w.items(Close(list, map[]));
    KeyedHas(tag, key, literal, reactive, around, locals, kept);
    KeysAreMeant(body, item, others, index, items, 0, map[], w);
    KeyedRowsAreSame(item, others, tag, key, literal, reactive, around, locals, kept, items, 0, w);
    RowsErase(RunKeys(EmitKey(BodyKey(body), IndexOf(others, index)), item, items, 0, map[], w),
              BuiltRows(body, item, items, 0, Collecting, None, map[], w), None);
  }

  lemma KeyedDiffers(list: Js, item: string, others: seq<Identifier>, index: bool, tag: string, key: Key, literal: bool, reactive: bool,
                     around: Js, locals: seq<string>, kept: bool, w: World)
    requires w == Telling(others) && IsDotted(key.shape) && (IsAsWritten(key) ==> key.js.free == {Root(key.shape)})
    requires item !in others && item !in locals && Names(others) !! Names(locals)
    requires !(IsAsWritten(key) && IsInKey(Root(key.shape), others, index, locals))
    ensures var n := Braces(Mapped(list, item, others, index, KeyedBody(tag, key, literal, reactive, around, locals, kept)));
      Erase(Built(n, 0, Collecting, None, map[], w)) != Meant(n, map[], w)
  {
    hide Close, KeyedBody, BodyKey, EmitKey, RunKey, BuiltBody, MeantBody, Built, Meant, Erase, ScopeIn, Inside;
    var body, none: Scope := KeyedBody(tag, key, literal, reactive, around, locals, kept), map[];
    KeyedHas(tag, key, literal, reactive, around, locals, kept);
    OneRowBuilds(list, item, others, index, body, 0, none, w);
    OneRowMeans(list, item, others, index, body, 0, none, w);
    KeyDiffers(item, others, index, tag, key, literal, reactive, around, locals, kept, w);
  }

  lemma KeyDiffers(item: string, others: seq<Identifier>, index: bool, tag: string, key: Key, literal: bool, reactive: bool, around: Js,
                   locals: seq<string>, kept: bool, w: World)
    requires w == Telling(others) && IsDotted(key.shape) && (IsAsWritten(key) ==> key.js.free == {Root(key.shape)})
    requires item !in others && item !in locals && Names(others) !! Names(locals)
    requires !(IsAsWritten(key) && IsInKey(Root(key.shape), others, index, locals))
    ensures var body, f := KeyedBody(tag, key, literal, reactive, around, locals, kept), EmitKey(Some(key), IndexOf(others, index));
      f.Some? && RunKey(f.value, item, 0, 0, map[], w) != Close(key.js, ScopeIn(body, Inside(item, others, 0, 0, map[], w), w))
  {
    hide References, FormatExprText, FirstName;
    var root, none: Scope := Root(key.shape), map[];
    var body, f := KeyedBody(tag, key, literal, reactive, around, locals, kept), EmitKey(Some(key), IndexOf(others, index)).value;
    var built, meant := RunKey(f, item, 0, 0, none, w), Close(key.js, ScopeIn(body, Inside(item, others, 0, 0, none, w), w));
    RootIsFirstName(key.shape);
    if IsAsWritten(key) {
      if root in locals {
        assert meant.seen[root] != 0;
        assert root in built.seen ==> built.seen[root] == 0;
      } else {
        assert root in Names(others) && root in meant.seen && root !in built.seen;
      }
    }
  }

  /** <Card>{{a: 1, b: 2}}</Card>: the only child is what a function returns, and its brace opens a block; anything else that
      holds no JSX may stand there. */
  lemma BraceOpensABlock(js: Js, reactive: bool, c: nat)
    requires js.holds == []
    ensures Parses(Emit(Component("Card", [], [Braces(Plain(js, false, reactive))]), c, Collecting)) <==> !(js.text != "" && js.text[0] == '{')
  {
    hide Parses, Emit;
    var n := Braces(Plain(js, false, reactive));
    CompilesIffParses(Component("Card", [], [n]), c, Collecting);
    Solo(n);
    BracesArePresent(n.expr);
    assert Present([]) == 0 && Present([n]) == 1 && CompilesProps([], Collecting) && CompilesValues([], Collecting, true);
    assert Compiles(n, Collecting) <==> CompilesExpr(n.expr, Collecting);
    assert CompilesValue(n, Collecting, true) <==> !(js.text != "" && js.text[0] == '{');
  }

  /** <A/> is read as a call exactly if the name has no colon and no hyphen. */
  lemma HyphenatedIsNoCall(tag: string, c: nat)
    ensures Parses(Emit(Component(tag, [], []), c, Collecting)) <==> ':' !in tag && '-' !in tag
  {
    hide Parses, Emit;
    CompilesIffParses(Component(tag, [], []), c, Collecting);
    assert CompilesProps([], Collecting) && CompilesValues([], Collecting, false);
  }

  /** <div ref={el => keep(el)}/>: the generated text assigns to a property of what the function returns. Behind a name, a
      property of something that may stand before a dot, or such a thing, it is an assignment. */
  lemma ReferenceNeedsATarget(tag: string, js: Js, literal: bool, reactive: bool, name: Identifier, field: Identifier, c: nat)
    requires js.holds == []
    ensures forall shape | shape in {Loose, Member(Loose, field)} ::
      !Parses(Emit(Element(tag, [Expression("ref", js, literal, reactive, shape)], []), c, Collecting))
    ensures forall shape | shape in {Name(name), Tight, Member(Name(name), field), Member(Tight, field)} ::
      Parses(Emit(Element(tag, [Expression("ref", js, literal, reactive, shape)], []), c, Collecting))
  {
    hide Parses, Emit;
    forall shape | shape in {Loose, Member(Loose, field)}
      ensures !Parses(Emit(Element(tag, [Expression("ref", js, literal, reactive, shape)], []), c, Collecting))
    {
      ReferenceParses(tag, js, literal, reactive, shape, c);
    }
    forall shape | shape in {Name(name), Tight, Member(Name(name), field), Member(Tight, field)}
      ensures Parses(Emit(Element(tag, [Expression("ref", js, literal, reactive, shape)], []), c, Collecting))
    {
      ReferenceParses(tag, js, literal, reactive, shape, c);
    }
  }

  lemma ReferenceParses(tag: string, js: Js, literal: bool, reactive: bool, shape: Shape, c: nat)
    requires js.holds == []
    ensures Parses(Emit(Element(tag, [Expression("ref", js, literal, reactive, shape)], []), c, Collecting)) <==> IsTarget(shape)
  {
    hide Parses, Emit, IsTarget;
    var attr := Expression("ref", js, literal, reactive, shape);
    Solo(attr);
    CompilesIffParses(Element(tag, [attr], []), c, Collecting);
    assert !IsListener("ref") by { assert "ref"[0] != "on"[0]; }
    assert DomName("ref") == "ref" && CompilesAttrs(tag, [], Collecting) && CompilesInside([], Collecting);
    assert CompilesAttr(tag, attr, Collecting) <==> IsTarget(shape);
    assert CompilesAttrs(tag, [attr], Collecting) <==> IsTarget(shape);
  }

  /** <Card icon=<b/>/>: the card is not given its icon. */
  lemma MarkupValueIsDropped(tag: string, name: string, node: Node, w: World)
    requires name != "key" && IsCallee(tag)
    ensures var n := Component(tag, [Markup(name, node)], []);
      Meant(n, map[], w) == Use(tag, [PassedMarkup(name, Meant(node, map[], w))], []) && Shown(n, w) == Some(Use(tag, [], []))
  {
    hide Run, Emit;
    var a := Markup(name, node);
    var n := Component(tag, [a], []);
    Solo(a);
    ShownIsBuilt(n, w);
    assert CompilesProps([a], Collecting) by { assert CompilesProp(a, Collecting) && CompilesProps([], Collecting); }
    assert CompilesValues([], Collecting, false);
    assert MeantProps([a], map[], w) == MeantProp(a, map[], w) + MeantProps([], map[], w);
    assert BuiltProps([a], 0, Collecting, None, map[], w) == [];
    assert BuiltValues([], 0, Collecting, None, map[], w) == [] && MeantValues([], map[], w) == [];
    assert EraseProps([]) == [] && EraseAll([]) == [];
  }

  // ------------------------------------------------------------------------------------------
  // Declarations
  // ------------------------------------------------------------------------------------------

  /** The variables a piece of code declares, in the order of its text. */
  function Declared(code: Code): seq<nat>
    decreases code, 0
  {
    match code
    case Closure(body, _) => DeclaredIn(body)
    case Conditional(_, yes, no) => Declared(yes) + Declared(no)
    case ListValue(_, _, _, render) => Declared(render)
    case Keeping(_, _, _, part) => Declared(part)
    case Call(_, props, children) => DeclaredInProps(props) + DeclaredAll(children)
    case _ => []
  }

  function DeclaredInProps(props: seq<Prop>): seq<nat>
    decreases props, 0
  {
    if props == [] then [] else DeclaredInProp(props[0]) + DeclaredInProps(props[1..])
  }

  function DeclaredInProp(p: Prop): seq<nat>
    decreases p, 0
  {
    if p.PropCode? then DeclaredAll(p.parts) else []
  }

  function DeclaredAll(codes: seq<Code>): seq<nat>
    decreases codes, 0
  {
    if codes == [] then [] else Declared(codes[0]) + DeclaredAll(codes[1..])
  }

  function DeclaredIn(body: seq<Stmt>): seq<nat>
    decreases body, 0
  {
    if body == [] then [] else DeclaredBy(body[0]) + DeclaredIn(body[1..])
  }

  function DeclaredBy(s: Stmt): seq<nat>
    decreases s, 0
  {
    match s
    case NewElement(v, _) => [v]
    case NewFragment(v) => [v]
    case Append(_, code) => Declared(code)
    case ListInto(_, _, _, _, render) => Declared(render)
    case _ => []
  }

  function Range(c: nat, k: nat): seq<nat> { seq(k, i => c + i) }

  lemma RangeSplits(c: nat, a: nat, b: nat)
    ensures Range(c, a) + Range(c + a, b) == Range(c, a + b) && Range(c, 0) == [] && Range(c, 1) == [c]
  {
  }

  lemma {:induction false} DeclaredConcat(a: seq<Stmt>, b: seq<Stmt>)
    ensures DeclaredIn(a + b) == DeclaredIn(a) + DeclaredIn(b)
  {
    hide Declared;
    if a == [] {
      assert a + b == b;
    } else {
      assert (a + b)[1..] == a[1..] + b;
      DeclaredConcat(a[1..], b);
    }
  }

  lemma {:induction false} AttrsDeclareNothing(v: nat, tag: string, attrs: seq<Attr>, mode: Mode)
    ensures DeclaredIn(EmitAttrs(v, tag, attrs, mode)) == []
  {
    hide EmitAttr;
    if attrs != [] {
      AttrsDeclareNothing(v, tag, attrs[1..], mode);
      var first := EmitAttr(tag, attrs[0], mode);
      var head := if first.Some? then [Set(v, first.value)] else [];
      DeclaredConcat(head, EmitAttrs(v, tag, attrs[1..], mode));
      if first.Some? { assert head[1..] == []; }
    }
  }

  lemma DeclaresOne(s: Stmt)
    ensures DeclaredIn([s]) == DeclaredBy(s)
  {
    hide Declared;
    assert [s][1..] == [];
  }

  /** Every generated variable is declared, once, and they are numbered in the order of the text: those in the properties
      of a component before those in its children. */
  lemma {:induction false} EachVariableOnce(n: Node, c: nat, mode: Mode)
    ensures Declared(Emit(n, c, mode)) == Range(c, Vars(n))
    decreases n, 0
  {
    hide EmitChildren, EmitValues, EmitAttrs, EmitProps, JsonQuote, DeclaredIn, DeclaredAll, DeclaredInProps, Range;
    RangeSplits(c, 0, 0);
    match n
    case Text(_) =>
    case Element(tag, attrs, children) => ElementDeclares(tag, attrs, children, c, mode);
    case Fragment(children) =>
      DeclaresOne(NewFragment(c));
      DeclaredConcat([NewFragment(c)], EmitChildren(children, c, c + 1, mode));
      ChildrenDeclare(children, c, c + 1, mode);
      RangeSplits(c, 1, VarsOf(children));
    case Component(_, attrs, children) =>
      PropsDeclare(attrs, c, mode);
      ValuesDeclare(children, c + PropVars(attrs), mode);
      RangeSplits(c, PropVars(attrs), VarsOf(children));
    case Braces(e) => ExprDeclares(e, c, mode);
    case Nothing =>
  }

  lemma {:induction false} PropsDeclare(attrs: seq<Attr>, c: nat, mode: Mode)
    ensures DeclaredInProps(EmitProps(attrs, c, mode)) == Range(c, PropVars(attrs))
    decreases attrs, 0
  {
    hide EmitProp, DeclaredInProp, OnePropVars, Range;
    RangeSplits(c, 0, 0);
    if attrs != [] {
      var next := c + OnePropVars(attrs[0]);
      PropDeclares(attrs[0], c, mode);
      PropsDeclare(attrs[1..], next, mode);
      PropsDeclareBoth(EmitProp(attrs[0], c, mode), EmitProps(attrs[1..], next, mode));
      RangeSplits(c, OnePropVars(attrs[0]), PropVars(attrs[1..]));
    }
  }

  lemma {:induction false} PropsDeclareBoth(a: seq<Prop>, b: seq<Prop>)
    ensures DeclaredInProps(a + b) == DeclaredInProps(a) + DeclaredInProps(b)
  {
    hide DeclaredInProp;
    if a == [] {
      assert a + b == b;
    } else {
      assert (a + b)[1..] == a[1..] + b;
      PropsDeclareBoth(a[1..], b);
    }
  }

  lemma {:induction false} PropDeclares(a: Attr, c: nat, mode: Mode)
    ensures DeclaredInProps(EmitProp(a, c, mode)) == Range(c, OnePropVars(a))
    decreases a, 0
  {
    hide EmitParts, HeldVars, DeclaredAll, Range;
    RangeSplits(c, 0, 0);
    var props := EmitProp(a, c, mode);
    if props != [] { Solo(props[0]); }
    if a.Expression? { PartsDeclare(a.js.holds, c, mode); }
  }

  lemma {:induction false} PartsDeclare(holds: seq<Held>, c: nat, mode: Mode)
    ensures DeclaredAll(EmitParts(holds, c, mode)) == Range(c, HeldVars(holds))
    decreases holds, 0
  {
    hide EmitPart, Declared, Vars, Range;
    RangeSplits(c, 0, 0);
    if holds != [] {
      var next := c + Vars(holds[0].node);
      PartDeclares(holds[0], c, mode);
      PartsDeclare(holds[1..], next, mode);
      ConsEqual(EmitPart(holds[0], c, mode), EmitParts(holds[1..], next, mode), EmitPart(holds[0], c, mode), EmitParts(holds[1..], next, mode));
      RangeSplits(c, Vars(holds[0].node), HeldVars(holds[1..]));
    }
  }

  lemma {:induction false} PartDeclares(h: Held, c: nat, mode: Mode)
    ensures Declared(EmitPart(h, c, mode)) == Range(c, Vars(h.node))
    decreases h, 0
  {
    EachVariableOnce(h.node, c, HeldMode(h, mode));
  }

  lemma {:induction false} ExprDeclares(e: Expr, c: nat, mode: Mode)
    ensures Declared(EmitExpr(e, c, mode)) == Range(c, ExprVars(e))
    decreases e, 0
  {
    hide EmitBranch, EmitBody, Range;
    RangeSplits(c, 0, 0);
    match e
    case Plain(_, _, _) =>
    case Cond(_, yes, no) =>
      BranchDeclares(yes, c, mode, Deeper(mode));
      BranchDeclares(no, c + BranchVars(yes), mode, Deeper(mode));
      RangeSplits(c, BranchVars(yes), BranchVars(no));
    case And(_, yes) => BranchDeclares(yes, c, mode, Deeper(mode)); Regroup(Range(c, BranchVars(yes)), [], []);
    case Mapped(_, _, _, _, body) => BodyDeclares(body, c, mode);
  }

  lemma {:induction false} BodyDeclares(body: Body, c: nat, mode: Mode)
    ensures Declared(EmitBody(body, c, mode)) == Range(c, BodyVars(body))
    decreases body, 0
  {
    hide Emit, Range;
    RangeSplits(c, 0, 0);
    if !body.Without? { EachVariableOnce(body.node, c, Deeper(mode)); }
  }

  lemma {:induction false} ElementDeclares(tag: string, attrs: seq<Attr>, children: seq<Node>, c: nat, mode: Mode)
    ensures Declared(Emit(Element(tag, attrs, children), c, mode)) == Range(c, 1 + VarsOf(children))
    decreases children, 1
  {
    hide EmitChildren, EmitAttrs, DeclaredIn, Range;
    var head, inside := [NewElement(c, JsonQuote(tag))], EmitChildren(children, c, c + 1, mode);
    var tail := if AllAbsent(children) then [] else [Enter(c)] + inside + [Exit];
    DeclaresOne(NewElement(c, JsonQuote(tag)));
    AttrsDeclareNothing(c, tag, attrs, mode);
    DeclaredConcat(head, EmitAttrs(c, tag, attrs, mode));
    DeclaredConcat(head + EmitAttrs(c, tag, attrs, mode), tail);
    ChildrenDeclare(children, c, c + 1, mode);
    if AllAbsent(children) {
      NothingToDo(children, c, c + 1, mode);
    } else {
      DeclaresOne(Enter(c));
      DeclaresOne(Exit);
      DeclaredConcat([Enter(c)], inside);
      DeclaredConcat([Enter(c)] + inside, [Exit]);
    }
    assert DeclaredIn(tail) == Range(c + 1, VarsOf(children));
    RangeSplits(c, 1, VarsOf(children));
  }

  lemma {:induction false} ChildrenDeclare(children: seq<Node>, parent: nat, c: nat, mode: Mode)
    ensures DeclaredIn(EmitChildren(children, parent, c, mode)) == Range(c, VarsOf(children))
    decreases children, 0
  {
    hide EmitChild, Declared, Vars, Range;
    RangeSplits(c, 0, 0);
    if children != [] {
      var n, next := children[0], c + Vars(children[0]);
      ChildDeclares(n, parent, c, mode);
      ChildrenDeclare(children[1..], parent, next, mode);
      DeclaredConcat(EmitChild(n, parent, c, mode), EmitChildren(children[1..], parent, next, mode));
      RangeSplits(c, Vars(n), VarsOf(children[1..]));
    }
  }

  lemma {:induction false} ChildDeclares(n: Node, parent: nat, c: nat, mode: Mode)
    ensures DeclaredIn(EmitChild(n, parent, c, mode)) == Range(c, Vars(n))
    decreases n, 1
  {
    hide Emit, EmitBody, Declared, Range;
    RangeSplits(c, 0, 0);
    EachVariableOnce(n, c, ChildMode(n, mode));
    if n.Braces? && n.expr.Mapped? { BodyDeclares(n.expr.body, c, mode); }
    if Absent(n) {
      AbsentTakesNothing(n);
    } else {
      DeclaresOne(EmitChild(n, parent, c, mode)[0]);
    }
  }

  lemma {:induction false} ValuesDeclare(children: seq<Node>, c: nat, mode: Mode)
    ensures DeclaredAll(EmitValues(children, c, mode)) == Range(c, VarsOf(children))
    decreases children, 0
  {
    hide Emit, Declared, Range, Absent, Vars;
    RangeSplits(c, 0, 0);
    if children != [] {
      var n, next := children[0], c + Vars(children[0]);
      EachVariableOnce(n, c, ChildMode(n, mode));
      ValuesDeclare(children[1..], next, mode);
      RangeSplits(c, Vars(n), VarsOf(children[1..]));
      if Absent(n) {
        AbsentTakesNothing(n);
        NoPrefix(EmitValues(children[1..], next, mode));
      } else {
        assert EmitValues(children, c, mode)[1..] == EmitValues(children[1..], next, mode);
      }
    }
  }

  lemma {:induction false} BranchDeclares(b: Branch, c: nat, mode: Mode, jsx: Mode)
    ensures Declared(EmitBranch(b, c, mode, jsx)) == Range(c, BranchVars(b))
    decreases b, 0
  {
    hide Emit, Range, BuriedMode;
    RangeSplits(c, 0, 0);
    match b
    case Jsx(n) => EachVariableOnce(n, c, jsx);
    case Other(_) =>
    case Inner(_, yes, no) =>
      BranchDeclares(yes, c, mode, jsx);
      BranchDeclares(no, c + BranchVars(yes), mode, jsx);
      RangeSplits(c, BranchVars(yes), BranchVars(no));
    case Around(_, inCallback, inJsx, _, yes, no) =>
      var jsx' := BuriedMode(inCallback, mode, jsx);
      var mode' := if inJsx then jsx' else mode;
      BranchDeclares(yes, c, mode', jsx');
      BranchDeclares(no, c + BranchVars(yes), mode', jsx');
      RangeSplits(c, BranchVars(yes), BranchVars(no));
  }
}

/** Which texts of the DOM generator are read as the program that was meant: those in which no JSX is left, no expression is
    missing where one must stand, and none stands where it is read as something else. */
module DomParses {
  import opened Common
  import opened JsString
  import opened DomKeys
  import opened Dom

  // ------------------------------------------------------------------------------------------
  // The generated text
  // ------------------------------------------------------------------------------------------

  predicate IsWhole(copy: Copy) { copy.Copy? && copy.clean }

  /** The last argument of a call may be missing, and what a getter returns. */
  predicate MayBeMissing(copy: Copy) { copy.Lost? || copy.clean }

  /** A name, or names joined by dots: `My-card({})` is a subtraction. */
  predicate IsCallee(tag: string) { ':' !in tag && '-' !in tag }

  /** After the arrow of a function a brace opens a block. */
  predicate BeginsWithBrace(text: string) { text != "" && text[0] == '{' }

  predicate IsReturned(copy: Copy) { IsWhole(copy) && !BeginsWithBrace(copy.js.text) }

  predicate OpensBlock(code: Code) { code.Raw? && code.js.Copy? && BeginsWithBrace(code.js.js.text) }

  /** The text is JavaScript, and is read as the code. */
  predicate Parses(code: Code)
    decreases code, 0
  {
    match code
    case Closure(body, _) => ParsesBody(body)
    case StaticText(_) => true
    case Child(js) => IsReturned(js)
    case Conditional(test, yes, no) => IsReturned(test) && Parses(yes) && Parses(no) && !OpensBlock(yes) && !OpensBlock(no)
    case ListValue(list, key, _, render) => IsReturned(list) && ParsesKey(key) && Parses(render)
    case Keeping(js, _, _, part) => MayBeMissing(js) && Parses(part)
    case Raw(js) => IsWhole(js)
    case Null => true
    case Call(tag, props, children) => IsCallee(tag) && ParsesProps(props) && ParsesValues(children, |children| == 1)
  }

  /** A key without a text leaves a function without a body. */
  predicate ParsesKey(key: Option<KeyFn>) { key.Some? ==> HasText(key.value.text) }

  predicate ParsesBody(body: seq<Stmt>)
    decreases body, 0
  {
    body == [] || (ParsesStmt(body[0]) && ParsesBody(body[1..]))
  }

  predicate ParsesStmt(s: Stmt)
    decreases s, 0
  {
    match s
    case Set(_, setting) => ParsesSetting(setting)
    case Append(_, code) => Parses(code)
    case Insert(_, js) => MayBeMissing(js)
    case ListInto(_, list, key, _, render) => IsReturned(list) && ParsesKey(key) && Parses(render)
    case _ => true
  }

  predicate ParsesSetting(setting: AttrCode) {
    match setting
    case AssignReference(js, shape) => IsWhole(js) && IsTarget(shape)
    case On(_, js) => MayBeMissing(js)
    case LiveAttribute(_, js) => IsWhole(js)
    case LiveProperty(_, js) => IsWhole(js)
    case GuardedStyle(js) => IsWhole(js)
    case GuardedProperty(_, js) => IsWhole(js)
    case GuardedAttribute(_, js) => IsWhole(js)
    case SpreadInto(js) => MayBeMissing(js)
    case _ => true
  }

  /** Several values stand in an array, where one may be missing; one alone is what a function returns. */
  predicate ParsesValues(codes: seq<Code>, alone: bool)
    decreases codes, 0
  {
    codes == [] || ((if alone then Parses(codes[0]) && !OpensBlock(codes[0]) else Parses(codes[0]) || codes[0] == Raw(Lost)) && ParsesValues(codes[1..], alone))
  }

  predicate ParsesProps(props: seq<Prop>)
    decreases props, 0
  {
    props == [] || (ParsesProp(props[0]) && ParsesProps(props[1..]))
  }

  /** Without the text around them programs stand side by side, where only one that begins with a parenthesis may follow
      another. */
  predicate ParsesProp(p: Prop)
    decreases p, 0
  {
    match p
    case PropCode(_, js, getter, parts) =>
      MayBeMissing(js) && ParsesAll(parts)
      && (js.Lost? ==> getter && forall i | 0 < i < |parts| :: parts[i].Closure?)
    case PropSpread(js) => IsWhole(js)
    case _ => true
  }

  predicate ParsesAll(codes: seq<Code>)
    decreases codes, 0
  {
    codes == [] || (Parses(codes[0]) && ParsesAll(codes[1..]))
  }

  // ------------------------------------------------------------------------------------------
  // The tree
  // ------------------------------------------------------------------------------------------

  /** The text is copied, and all JSX in it is in callbacks that the collector entered. */
  predicate Copies(js: Js, mode: Mode) {
    match mode
    case Collecting => forall h <- js.holds :: h.inCallback
    case Copying => js.holds == []
    case Blanked => false
  }

  predicate Returns(js: Js, mode: Mode) { Copies(js, mode) && !BeginsWithBrace(js.text) }

  predicate MayBeLost(js: Js, mode: Mode) { mode.Blanked? || Copies(js, mode) }

  predicate Compiles(n: Node, mode: Mode)
    decreases n, 0
  {
    match n
    case Element(tag, attrs, children) => CompilesAttrs(tag, attrs, mode) && CompilesInside(children, mode)
    case Fragment(children) => CompilesInside(children, mode)
    case Component(tag, attrs, children) =>
      IsCallee(tag) && CompilesProps(attrs, mode) && CompilesValues(children, mode, Present(children) == 1)
    case Braces(e) => CompilesExpr(e, mode)
    case _ => true
  }

  predicate CompilesAttrs(tag: string, attrs: seq<Attr>, mode: Mode) {
    attrs == [] || (CompilesAttr(tag, attrs[0], mode) && CompilesAttrs(tag, attrs[1..], mode))
  }

  predicate CompilesAttr(tag: string, a: Attr, mode: Mode) {
    match a
    case Spread(js) => MayBeLost(js, mode)
    case Expression(name, js, _, _, shape) =>
      name == "key" || (if IsListener(DomName(name)) then MayBeLost(js, mode) else Copies(js, mode) && (name == "ref" ==> IsTarget(shape)))
    case _ => true
  }

  predicate CompilesProps(attrs: seq<Attr>, mode: Mode)
    decreases attrs, 0
  {
    attrs == [] || (CompilesProp(attrs[0], mode) && CompilesProps(attrs[1..], mode))
  }

  /** In the value of a component's property all JSX is generated, wherever it stands. */
  predicate CompilesProp(a: Attr, mode: Mode)
    decreases a, 0
  {
    match a
    case Spread(js) => Copies(js, mode)
    case Expression(name, js, literal, _, _) =>
      name == "key" || (CompilesHolds(js.holds, mode) && (mode.Blanked? ==> !literal && ElementsFollow(js.holds)))
    case _ => true
  }

  predicate ElementsFollow(holds: seq<Held>) {
    forall i | 0 < i < |holds| :: holds[i].node.Element? || holds[i].node.Fragment?
  }

  predicate CompilesHolds(holds: seq<Held>, mode: Mode)
    decreases holds, 0
  {
    holds == [] || (CompilesHeld(holds[0], mode) && CompilesHolds(holds[1..], mode))
  }

  predicate CompilesHeld(h: Held, mode: Mode)
    decreases h, 0
  {
    Compiles(h.node, HeldMode(h, mode))
  }

  predicate CompilesInside(children: seq<Node>, mode: Mode)
    decreases children, 0
  {
    children == [] || (CompilesChild(children[0], mode) && CompilesInside(children[1..], mode))
  }

  predicate CompilesChild(n: Node, mode: Mode)
    decreases n, 1
  {
    if IsInserted(n, mode) then MayBeLost(n.expr.js, mode) else Compiles(n, ChildMode(n, mode))
  }

  function Present(children: seq<Node>): nat {
    if children == [] then 0 else (if Absent(children[0]) then 0 else 1) + Present(children[1..])
  }

  predicate IsLostValue(n: Node, mode: Mode) { n.Braces? && n.expr.Plain? && mode.Blanked? }

  /** The node is an expression that is read as a block after an arrow. */
  predicate IsBraced(n: Node, mode: Mode) {
    n.Braces? && n.expr.Plain? && !mode.Blanked? && !IsLive(n.expr.literal, n.expr.reactive, mode) && BeginsWithBrace(n.expr.js.text)
  }

  predicate CompilesValue(n: Node, mode: Mode, alone: bool)
    decreases n, 1
  {
    if alone then Compiles(n, mode) && !IsBraced(n, mode) else Compiles(n, mode) || IsLostValue(n, mode)
  }

  predicate CompilesValues(children: seq<Node>, mode: Mode, alone: bool)
    decreases children, 0
  {
    children == []
    || (CompilesValue(children[0], ChildMode(children[0], mode), alone) && CompilesValues(children[1..], mode, alone))
  }

  predicate CompilesExpr(e: Expr, mode: Mode)
    decreases e, 0
  {
    match e
    case Plain(js, literal, reactive) => if IsLive(literal, reactive, mode) then Returns(js, mode) else Copies(js, mode)
    case Cond(test, yes, no) =>
      Returns(test, mode) && CompilesBranch(yes, mode, Deeper(mode)) && CompilesBranch(no, mode, Deeper(mode))
    case And(test, yes) => Returns(test, mode) && CompilesBranch(yes, mode, Deeper(mode))
    case Mapped(list, _, _, _, body) => Returns(list, mode) && CompilesKey(BodyKey(body)) && CompilesBody(body, mode)
  }

  predicate CompilesKey(key: Option<Key>) { key.Some? ==> IsDotted(key.value.shape) }

  predicate CompilesBody(body: Body, mode: Mode)
    decreases body, 0
  {
    match body
    case Whole(n) => Compiles(n, Deeper(mode))
    case Block(js, _, kept, n) => (kept ==> MayBeLost(js, mode)) && Compiles(n, Deeper(mode))
    case Buried(js, _, kept, _, n) => (kept ==> MayBeLost(js, mode)) && Compiles(n, Deeper(mode))
    case Without(js) => Copies(js, mode)
  }

  predicate CompilesBranch(b: Branch, mode: Mode, jsx: Mode)
    decreases b, 0
  {
    match b
    case Jsx(n) => CompilesValue(n, jsx, true)
    case Other(js) => Returns(js, mode)
    case Inner(test, yes, no) => Returns(test, mode) && CompilesBranch(yes, mode, jsx) && CompilesBranch(no, mode, jsx)
    case Around(_, inCallback, inJsx, test, yes, no) =>
      var jsx' := BuriedMode(inCallback, mode, jsx);
      var mode' := if inJsx then jsx' else mode;
      Returns(test, mode') && CompilesBranch(yes, mode', jsx') && CompilesBranch(no, mode', jsx')
  }

  // ------------------------------------------------------------------------------------------
  // The program of a tree is read as it exactly if the tree compiles
  // ------------------------------------------------------------------------------------------

  lemma CopyParses(js: Js, mode: Mode)
    ensures IsWhole(CopyOf(js, mode)) <==> Copies(js, mode)
    ensures IsReturned(CopyOf(js, mode)) <==> Returns(js, mode)
    ensures MayBeMissing(CopyOf(js, mode)) <==> MayBeLost(js, mode)
  {
  }

  lemma KeyParses(key: Option<Key>, index: Option<Identifier>)
    ensures ParsesKey(EmitKey(key, index)) <==> CompilesKey(key)
  {
    hide References, FormatExprText, HasText, IsDotted;
    if key.Some? { HasTextIffDotted(key.value.shape); }
  }

  lemma {:induction false} BodyConcat(a: seq<Stmt>, b: seq<Stmt>)
    ensures ParsesBody(a + b) <==> ParsesBody(a) && ParsesBody(b)
  {
    hide ParsesStmt;
    if a == [] {
      assert a + b == b;
    } else {
      assert (a + b)[1..] == a[1..] + b;
      BodyConcat(a[1..], b);
    }
  }

  lemma OneParses(s: Stmt)
    ensures ParsesBody([s]) <==> ParsesStmt(s)
  {
    hide ParsesStmt;
    Solo(s);
  }

  lemma AttrParses(v: nat, tag: string, a: Attr, mode: Mode)
    ensures CompilesAttr(tag, a, mode)
       <==> (EmitAttr(tag, a, mode).Some? ==> ParsesStmt(Set(v, EmitAttr(tag, a, mode).value)))
  {
    hide JsonQuote, CopyOf, Copies, MayBeLost, IsWhole, MayBeMissing, IsProperty;
    if a.Expression? || a.Spread? { CopyParses(a.js, mode); }
    assert !IsListener("ref") by { assert "ref"[0] != "on"[0]; }
  }

  lemma {:induction false} AttrsParse(v: nat, tag: string, attrs: seq<Attr>, mode: Mode)
    ensures ParsesBody(EmitAttrs(v, tag, attrs, mode)) <==> CompilesAttrs(tag, attrs, mode)
  {
    hide EmitAttr, CompilesAttr, ParsesStmt;
    if attrs != [] {
      AttrParses(v, tag, attrs[0], mode);
      AttrsParse(v, tag, attrs[1..], mode);
      var first := EmitAttr(tag, attrs[0], mode);
      if first.Some? {
        BodyConcat([Set(v, first.value)], EmitAttrs(v, tag, attrs[1..], mode));
        OneParses(Set(v, first.value));
      } else {
        NoPrefix(EmitAttrs(v, tag, attrs[1..], mode));
      }
    }
  }

  lemma {:induction false} CompilesIffParses(n: Node, c: nat, mode: Mode)
    ensures Parses(Emit(n, c, mode)) <==> Compiles(n, mode)
    decreases n, 0
  {
    hide EmitChildren, EmitAttrs, EmitProps, EmitValues, CompilesAttrs, CompilesInside, CompilesProps, CompilesValues,
      ParsesBody, ParsesProps, ParsesValues, JsonQuote, Present;
    match n
    case Element(tag, attrs, children) => ElementParses(tag, attrs, children, c, mode);
    case Fragment(children) =>
      InsideParses(children, c, c + 1, mode);
      BodyConcat([NewFragment(c)], EmitChildren(children, c, c + 1, mode));
      OneParses(NewFragment(c));
    case Component(_, attrs, children) =>
      PropsParse(attrs, c, mode);
      ValuesParse(children, c + PropVars(attrs), mode, Present(children) == 1);
    case Braces(e) => ExprParses(e, c, mode);
    case _ =>
  }

  lemma {:induction false} ElementParses(tag: string, attrs: seq<Attr>, children: seq<Node>, c: nat, mode: Mode)
    ensures Parses(Emit(Element(tag, attrs, children), c, mode))
       <==> CompilesAttrs(tag, attrs, mode) && CompilesInside(children, mode)
    decreases children, 1
  {
    hide EmitChildren, EmitAttrs, CompilesAttrs, CompilesInside, ParsesBody;
    var head, inside := [NewElement(c, JsonQuote(tag))], EmitChildren(children, c, c + 1, mode);
    var tail := if AllAbsent(children) then [] else [Enter(c)] + inside + [Exit];
    AttrsParse(c, tag, attrs, mode);
    InsideParses(children, c, c + 1, mode);
    OneParses(NewElement(c, JsonQuote(tag)));
    BodyConcat(head, EmitAttrs(c, tag, attrs, mode));
    BodyConcat(head + EmitAttrs(c, tag, attrs, mode), tail);
    if AllAbsent(children) {
      NothingToDo(children, c, c + 1, mode);
    } else {
      OneParses(Enter(c));
      OneParses(Exit);
      BodyConcat([Enter(c)], inside);
      BodyConcat([Enter(c)] + inside, [Exit]);
    }
  }

  lemma {:induction false} InsideParses(children: seq<Node>, parent: nat, c: nat, mode: Mode)
    ensures ParsesBody(EmitChildren(children, parent, c, mode)) <==> CompilesInside(children, mode)
    ensures ParsesBody([])
    decreases children, 0
  {
    hide EmitChild, CompilesChild, ParsesStmt;
    if children != [] {
      var next := c + Vars(children[0]);
      ChildParses(children[0], parent, c, mode);
      InsideParses(children[1..], parent, next, mode);
      BodyConcat(EmitChild(children[0], parent, c, mode), EmitChildren(children[1..], parent, next, mode));
    }
  }

  lemma {:induction false} ChildParses(n: Node, parent: nat, c: nat, mode: Mode)
    ensures ParsesBody(EmitChild(n, parent, c, mode)) <==> CompilesChild(n, mode)
    decreases n, 1
  {
    hide Parses, Compiles, CompilesBody, CopyOf, Copies, MayBeLost, IsWhole, MayBeMissing, Emit, EmitBody;
    if Absent(n) {
      AbsentCompiles(n, mode);
    } else {
      OneParses(EmitChild(n, parent, c, mode)[0]);
      if IsInserted(n, mode) {
        CopyParses(n.expr.js, mode);
      } else if n.Braces? && n.expr.Mapped? {
        CopyParses(n.expr.list, mode);
        KeyParses(BodyKey(n.expr.body), IndexOf(n.expr.others, n.expr.index));
        BodyParses(n.expr.body, c, mode);
        MappedCompiles(n, mode);
      } else {
        CompilesIffParses(n, c, ChildMode(n, mode));
      }
    }
  }

  lemma AbsentCompiles(n: Node, mode: Mode)
    requires Absent(n)
    ensures CompilesChild(n, mode) && Compiles(n, mode) && !IsBraced(n, mode)
  {
  }

  lemma MappedCompiles(n: Node, mode: Mode)
    requires n.Braces? && n.expr.Mapped?
    ensures Compiles(n, mode) <==> Returns(n.expr.list, mode) && CompilesKey(BodyKey(n.expr.body)) && CompilesBody(n.expr.body, mode)
  {
  }

  lemma {:induction false} ValuesParse(children: seq<Node>, c: nat, mode: Mode, alone: bool)
    ensures |EmitValues(children, c, mode)| == Present(children)
    ensures ParsesValues(EmitValues(children, c, mode), alone) <==> CompilesValues(children, mode, alone)
    decreases children, 0
  {
    hide Parses, Compiles, Emit, Absent;
    if children != [] {
      var n, next := children[0], c + Vars(children[0]);
      var rest := EmitValues(children[1..], next, mode);
      ValuesParse(children[1..], next, mode, alone);
      if Absent(n) {
        AbsentCompiles(n, ChildMode(n, mode));
        NoPrefix(rest);
      } else {
        ValueParses(n, c, ChildMode(n, mode), alone);
        ConsEqual(Emit(n, c, ChildMode(n, mode)), rest, Emit(n, c, ChildMode(n, mode)), rest);
      }
    }
  }

  lemma {:induction false} ValueParses(n: Node, c: nat, mode: Mode, alone: bool)
    ensures CompilesValue(n, mode, alone)
       <==> if alone then Parses(Emit(n, c, mode)) && !OpensBlock(Emit(n, c, mode)) else Parses(Emit(n, c, mode)) || Emit(n, c, mode) == Raw(Lost)
    decreases n, 1
  {
    hide Parses, Compiles;
    CompilesIffParses(n, c, mode);
    RawValue(n, c, mode);
  }

  lemma RawParses(js: Js, mode: Mode)
    ensures Parses(Raw(CopyOf(js, mode))) && !OpensBlock(Raw(CopyOf(js, mode))) <==> Returns(js, mode)
  {
    CopyParses(js, mode);
  }

  lemma RawValue(n: Node, c: nat, mode: Mode)
    ensures Emit(n, c, mode) == Raw(Lost) <==> IsLostValue(n, mode)
    ensures OpensBlock(Emit(n, c, mode)) <==> IsBraced(n, mode)
  {
  }

  lemma {:induction false} PropsParse(attrs: seq<Attr>, c: nat, mode: Mode)
    ensures ParsesProps(EmitProps(attrs, c, mode)) <==> CompilesProps(attrs, mode)
    decreases attrs, 0
  {
    hide EmitProp, CompilesProp, ParsesProp;
    if attrs != [] {
      var next := c + OnePropVars(attrs[0]);
      PropParses(attrs[0], c, mode);
      PropsParse(attrs[1..], next, mode);
      PropsConcat(EmitProp(attrs[0], c, mode), EmitProps(attrs[1..], next, mode));
    }
  }

  lemma {:induction false} PropsConcat(a: seq<Prop>, b: seq<Prop>)
    ensures ParsesProps(a + b) <==> ParsesProps(a) && ParsesProps(b)
  {
    hide ParsesProp;
    if a == [] {
      assert a + b == b;
    } else {
      assert (a + b)[1..] == a[1..] + b;
      PropsConcat(a[1..], b);
    }
  }

  lemma {:induction false} PropParses(a: Attr, c: nat, mode: Mode)
    ensures ParsesProps(EmitProp(a, c, mode)) <==> CompilesProp(a, mode)
    decreases a, 0
  {
    hide EmitParts, CompilesHolds, ParsesAll, CopyOf, Copies, IsWhole;
    var props := EmitProp(a, c, mode);
    if props != [] { Solo(props[0]); }
    if a.Spread? { CopyParses(a.js, mode); }
    if a.Expression? { PartsParse(a.js.holds, c, mode); }
  }

  lemma {:induction false} PartsParse(holds: seq<Held>, c: nat, mode: Mode)
    ensures ParsesAll(EmitParts(holds, c, mode)) <==> CompilesHolds(holds, mode)
    ensures |EmitParts(holds, c, mode)| == |holds|
    ensures forall i | 0 <= i < |holds| ::
      EmitParts(holds, c, mode)[i].Closure? <==> holds[i].node.Element? || holds[i].node.Fragment?
    decreases holds, 0
  {
    hide Parses, Compiles, Emit;
    if holds != [] {
      var rest := EmitParts(holds[1..], c + Vars(holds[0].node), mode);
      PartParses(holds[0], c, mode);
      PartsParse(holds[1..], c + Vars(holds[0].node), mode);
      ConsEqual(EmitPart(holds[0], c, mode), rest, EmitPart(holds[0], c, mode), rest);
    }
  }

  lemma {:induction false} PartParses(h: Held, c: nat, mode: Mode)
    ensures Parses(EmitPart(h, c, mode)) <==> CompilesHeld(h, mode)
    ensures EmitPart(h, c, mode).Closure? <==> h.node.Element? || h.node.Fragment?
    decreases h, 0
  {
    CompilesIffParses(h.node, c, HeldMode(h, mode));
  }

  lemma {:induction false} ExprParses(e: Expr, c: nat, mode: Mode)
    ensures Parses(EmitExpr(e, c, mode)) <==> CompilesExpr(e, mode)
    decreases e, 0
  {
    hide CopyOf, Copies, IsWhole, EmitBranch, EmitBody, CompilesBranch, CompilesBody;
    match e
    case Plain(js, _, _) => CopyParses(js, mode);
    case Cond(test, yes, no) =>
      CopyParses(test, mode);
      BranchParses(yes, c, mode, Deeper(mode));
      BranchParses(no, c + BranchVars(yes), mode, Deeper(mode));
    case And(test, yes) => CopyParses(test, mode); BranchParses(yes, c, mode, Deeper(mode));
    case Mapped(list, _, others, index, body) =>
      CopyParses(list, mode);
      KeyParses(BodyKey(body), IndexOf(others, index));
      BodyParses(body, c, mode);
  }

  lemma {:induction false} BodyParses(body: Body, c: nat, mode: Mode)
    ensures Parses(EmitBody(body, c, mode)) <==> CompilesBody(body, mode)
    decreases body, 0
  {
    hide CopyOf, Copies, IsWhole, Emit, Compiles;
    match body
    case Whole(n) => CompilesIffParses(n, c, Deeper(mode));
    case Block(js, _, _, n) => CopyParses(js, mode); CompilesIffParses(n, c, Deeper(mode));
    case Buried(js, _, _, _, n) => CopyParses(js, mode); CompilesIffParses(n, c, Deeper(mode));
    case Without(js) => CopyParses(js, mode);
  }

  lemma {:induction false} BranchParses(b: Branch, c: nat, mode: Mode, jsx: Mode)
    ensures Parses(EmitBranch(b, c, mode, jsx)) && !OpensBlock(EmitBranch(b, c, mode, jsx)) <==> CompilesBranch(b, mode, jsx)
    decreases b, 0
  {
    hide CopyOf, Copies, IsWhole, Emit, Compiles, BuriedMode;
    match b
    case Jsx(n) => ValueParses(n, c, jsx, true);
    case Other(js) => RawParses(js, mode);
    case Inner(test, yes, no) =>
      CopyParses(test, mode);
      BranchParses(yes, c, mode, jsx);
      BranchParses(no, c + BranchVars(yes), mode, jsx);
    case Around(_, inCallback, inJsx, test, yes, no) =>
      var jsx' := BuriedMode(inCallback, mode, jsx);
      var mode' := if inJsx then jsx' else mode;
      CopyParses(test, mode');
      BranchParses(yes, c, mode', jsx');
      BranchParses(no, c + BranchVars(yes), mode', jsx');
  }
}

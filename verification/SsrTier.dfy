/** Tier classification (aot_string_transformer.rs) walks the tree on its own, apart from the generation of the string;
    this module shows that the two walks agree on what is static. */
module SsrTier {
  import opened Common
  import JsString
  import opened Ssr

  datatype Tier = StaticTier | DataDriven | Conditional

  predicate HasAttrExprs(attrs: seq<Attr>) {
    exists i | 0 <= i < |attrs| :: attrs[i].value.ExprValue? || (attrs[i].value.OtherValue? && attrs[i].value.braces)
  }

  function ElementTier(node: Node, hasReactive: bool): Tier
    requires node.Element?
    decreases node, 0
  {
    var childrenTier := ChildrenTier(node.children, hasReactive);
    if childrenTier == Conditional then Conditional
    else if !HasAttrExprs(node.attrs) && childrenTier == StaticTier && !hasReactive then StaticTier
    else if childrenTier == DataDriven || HasAttrExprs(node.attrs) then DataDriven
    else StaticTier
  }

  function ChildrenTier(children: seq<Node>, hasReactive: bool): Tier
    decreases children, 1
  {
    ScanChildren(children, hasReactive, false)
  }

  /** The loop over the children; it ends at once where a child is conditional. */
  function ScanChildren(children: seq<Node>, hasReactive: bool, hasExpressions: bool): Tier
    decreases children, 0
  {
    if children == [] then if hasExpressions || hasReactive then DataDriven else StaticTier
    else
      match children[0]
      case Container(e) =>
        if e.Cond? || e.And? || e.MapCall? || Whole(e).form.Or? then Conditional else ScanChildren(children[1..], hasReactive, true)
      case Nothing(braces) => ScanChildren(children[1..], hasReactive, hasExpressions || braces)
      case Element(_, _, _) =>
        var t := ElementTier(children[0], hasReactive);
        if t == Conditional then Conditional else ScanChildren(children[1..], hasReactive, hasExpressions || t == DataDriven)
      case Fragment(inner) =>
        var t := ChildrenTier(inner, hasReactive);
        if t == Conditional then Conditional else ScanChildren(children[1..], hasReactive, hasExpressions || t == DataDriven)
      case Text(_) => ScanChildren(children[1..], hasReactive, hasExpressions)
  }

  function RootTier(node: Node, hasReactive: bool): Tier {
    match node
    case Element(_, _, _) => ElementTier(node, hasReactive)
    case Fragment(children) => ChildrenTier(children, hasReactive)
    case _ => DataDriven
  }

  // ------------------------------------------------------------------------------------------
  // What decides the tier
  // ------------------------------------------------------------------------------------------

  /** A conditional, a list, or an || or ?? stands among the children, in elements and fragments at any depth. */
  ghost predicate Branches(node: Node)
    decreases node, 0
  {
    match node
    case Element(_, _, children) => BranchesAmong(children)
    case Fragment(children) => BranchesAmong(children)
    case Container(Plain(js)) => js.form.Or?
    case Container(Jsx(whole, _)) => whole.form.Or?
    case Container(_) => true
    case _ => false
  }

  ghost predicate BranchesAmong(children: seq<Node>)
    decreases children, 1
  {
    exists i | 0 <= i < |children| :: Branches(children[i])
  }

  /** Braces stand in an attribute or among the children. */
  ghost predicate HasBraces(node: Node)
    decreases node, 0
  {
    match node
    case Element(_, attrs, children) =>
      (exists i | 0 <= i < |attrs| :: attrs[i].value.ExprValue? || attrs[i].value == OtherValue(true)) || BracesAmong(children)
    case Fragment(children) => BracesAmong(children)
    case Container(_) => true
    case Nothing(braces) => braces
    case Text(_) => false
  }

  ghost predicate BracesAmong(children: seq<Node>)
    decreases children, 1
  {
    exists i | 0 <= i < |children| :: HasBraces(children[i])
  }

  lemma {:induction false} ElementTierIs(node: Node, hasReactive: bool)
    requires node.Element?
    ensures ElementTier(node, hasReactive).Conditional? <==> Branches(node)
    ensures ElementTier(node, hasReactive).StaticTier? <==> !Branches(node) && !HasBraces(node) && !hasReactive
    decreases node, 0
  {
    ScanIs(node.children, hasReactive, false);
  }

  lemma {:induction false} ScanIs(children: seq<Node>, hasReactive: bool, hasExpressions: bool)
    ensures ScanChildren(children, hasReactive, hasExpressions).Conditional? <==> BranchesAmong(children)
    ensures ScanChildren(children, hasReactive, hasExpressions).StaticTier?
       <==> !BranchesAmong(children) && !BracesAmong(children) && !hasReactive && !hasExpressions
    decreases children, 1
  {
    hide HasAttrExprs;
    if children != [] {
      var n, rest := children[0], children[1..];
      assert BranchesAmong(children) <==> Branches(n) || BranchesAmong(rest) by { AmongCons(children); }
      assert BracesAmong(children) <==> HasBraces(n) || BracesAmong(rest) by { AmongCons(children); }
      ScanIs(rest, hasReactive, hasExpressions);
      ScanIs(rest, hasReactive, true);
      if n.Element? { ElementTierIs(n, hasReactive); }
      if n.Fragment? { ScanIs(n.children, hasReactive, false); }
    }
  }

  lemma AmongCons(children: seq<Node>)
    requires children != []
    ensures BranchesAmong(children) <==> Branches(children[0]) || BranchesAmong(children[1..])
    ensures BracesAmong(children) <==> HasBraces(children[0]) || BracesAmong(children[1..])
  {
    hide Branches, HasBraces;
    assert forall i | 0 < i < |children| :: children[i] == children[1..][i-1];
    assert forall i | 0 <= i < |children[1..]| :: children[1..][i] == children[i+1];
  }

  /** A tree is conditional exactly if it branches, and static exactly if it neither branches nor has braces nor stands in a
      component with something reactive. */
  lemma TierIsDecided(node: Node, hasReactive: bool)
    requires node.Element? || node.Fragment?
    ensures RootTier(node, hasReactive).Conditional? <==> Branches(node)
    ensures RootTier(node, hasReactive).StaticTier? <==> !Branches(node) && !HasBraces(node) && !hasReactive
  {
    if node.Element? { ElementTierIs(node, hasReactive); } else { ScanIs(node.children, hasReactive, false); }
  }

  /** The components a tree calls, collected along the generation; those among a component's children are not. */
  function Holes(node: Node): set<string>
    decreases node, 1
  {
    match node
    case Element(tag, _, children) => if IsComponent(tag) then {tag} else if IsVoid(tag) then {} else HolesAll(children)
    case Fragment(children) => HolesAll(children)
    case Container(e) => HolesExpr(e)
    case _ => {}
  }

  function HolesAll(nodes: seq<Node>): set<string>
    decreases nodes, 2
  {
    if nodes == [] then {} else Holes(nodes[0]) + HolesAll(nodes[1..])
  }

  function HolesExpr(e: Expr): set<string>
    decreases e, 1
  {
    match e
    case MapCall(_, _, _, body) => if body.Some? then Holes(body.value) else {}
    case Jsx(_, _) => {}
    case _ => HolesBranch(e)
  }

  function HolesBranch(e: Expr): set<string>
    decreases e, 0
  {
    match e
    case Jsx(_, node) => Holes(node)
    case Cond(_, yes, no) => HolesBranch(yes) + HolesBranch(no)
    case And(_, right) => HolesBranch(right)
    case _ => {}
  }

  /** The components that an expression calls, but for those that are called for the properties of another. */
  ghost function Called(e: Out): set<string>
    decreases e, 0
  {
    match e
    case Template(pieces) => CalledIn(pieces)
    case Plus(parts) => CalledAll(parts)
    case Choice(_, yes, no) => Called(yes) + Called(no)
    case MapJoin(_, _, body) => Called(body)
    case Call(tag, _) => {tag}
    case _ => {}
  }

  ghost function CalledIn(pieces: seq<Piece>): set<string>
    decreases pieces, 1
  {
    if pieces == [] then {} else CalledBy(pieces[0]) + CalledIn(pieces[1..])
  }

  ghost function CalledBy(p: Piece): set<string>
    decreases p, 0
  {
    if p.Splice? then Called(p.e) else {}
  }

  ghost function CalledAll(parts: seq<Out>): set<string>
    decreases parts, 1
  {
    if parts == [] then {} else Called(parts[0]) + CalledAll(parts[1..])
  }

  lemma {:induction false} CalledConcat(a: seq<Piece>, b: seq<Piece>)
    ensures CalledIn(a + b) == CalledIn(a) + CalledIn(b)
  {
    hide Called;
    if a == [] {
      assert a + b == b;
    } else {
      assert (a + b)[1..] == a[1..] + b;
      CalledConcat(a[1..], b);
    }
  }

  lemma OnePiece(p: Piece)
    ensures CalledIn([p]) == CalledBy(p)
  {
    hide Called;
    assert [p][1..] == [];
  }

  lemma AttrCallsNothing(a: Attr)
    ensures EmitAttr(a).Some? ==> CalledIn([EmitAttr(a).value]) == {}
  {
    hide IsBoolean, IsEventHandler, IsSkipped, JsString.EscapeAttrValue, CalledIn;
    if EmitAttr(a).Some? {
      OnePiece(EmitAttr(a).value);
      EmptyCallsNothing();
      assert Called(Lit(" " + HtmlName(a.name))) == {};
      if a.value.ExprValue? {
        ThreePieces("style=\"", Style(a.value.js), "\"");
        ThreePieces(HtmlName(a.name) + "=\"", EscAttr(a.value.js), "\"");
      }
    }
  }

  lemma ThreePieces(a: string, mid: Out, b: string)
    ensures Called(Template([Raw(a), Splice(mid), Raw(b)])) == Called(mid)
  {
    hide CalledIn;
    OnePiece(Raw(a));
    OnePiece(Splice(mid));
    OnePiece(Raw(b));
    CalledConcat([Raw(a)], [Splice(mid)]);
    CalledConcat([Raw(a)] + [Splice(mid)], [Raw(b)]);
    assert [Raw(a)] + [Splice(mid)] + [Raw(b)] == [Raw(a), Splice(mid), Raw(b)];
  }

  lemma {:induction false} AttrsCallNothing(attrs: seq<Attr>)
    ensures CalledIn(Static(attrs)) == {} && CalledIn(Late(attrs)) == {}
  {
    hide EmitAttr, IsLate, CalledIn;
    NoPieces();
    if attrs != [] {
      AttrCallsNothing(attrs[0]);
      AttrsCallNothing(attrs[1..]);
      var p := EmitAttr(attrs[0]);
      CalledConcat(if p.Some? && !IsLate(attrs[0]) then [p.value] else [], Static(attrs[1..]));
      CalledConcat(if p.Some? && IsLate(attrs[0]) then [p.value] else [], Late(attrs[1..]));
    }
  }

  lemma NoPieces()
    ensures CalledIn([]) == {} && CalledAll([]) == {}
  {
  }

  lemma {:induction false} SpacedCalls(pieces: seq<Piece>)
    ensures CalledIn(Spaced(pieces)) == CalledIn(pieces)
  {
    hide Called;
    if pieces != [] {
      SpacedCalls(pieces[1..]);
      CalledConcat([Raw(" "), pieces[0]], Spaced(pieces[1..]));
      OnePiece(pieces[0]);
      assert [Raw(" "), pieces[0]][1..] == [pieces[0]];
    }
  }

  lemma TagCallsNothing(tag: string, attrs: seq<Attr>, hydration: string)
    ensures Called(Template([Raw("<" + tag)] + EmitAttrs(attrs, hydration) + [Raw(">")])) == {}
  {
    hide CalledIn, Static, Late, Spaced;
    AttrsCallNothing(attrs);
    SpacedCalls(Static(attrs));
    var tail := if hydration == "" then [] else [Raw(" data-v-id=\"" + hydration + "\"")];
    NoPieces();
    if tail != [] { OnePiece(tail[0]); }
    CalledConcat(Spaced(Static(attrs)), Late(attrs));
    CalledConcat(Spaced(Static(attrs)) + Late(attrs), tail);
    OnePiece(Raw("<" + tag));
    OnePiece(Raw(">"));
    CalledConcat([Raw("<" + tag)], EmitAttrs(attrs, hydration));
    CalledConcat([Raw("<" + tag)] + EmitAttrs(attrs, hydration), [Raw(">")]);
  }

  lemma ThreeCall(a: Out, b: Out, c: Out)
    ensures Called(Plus([a, b, c])) == Called(a) + Called(b) + Called(c)
  {
    assert [a, b, c][1..] == [b, c] && [b, c][1..] == [c] && [c][1..] == [];
    assert CalledAll([c]) == Called(c) + {} && CalledAll([b, c]) == Called(b) + CalledAll([c]);
  }

  /** What is collected is what the emitted expression calls. */
  lemma {:induction false} HolesAreCalled(node: Node, reactive: set<string>, raw: bool, hydration: string)
    ensures Holes(node) == Called(Emit(node, reactive, raw, hydration))
    decreases node, 1
  {
    hide EmitAttrs, EmitAll, EmitProps, IsRawText, IsComponent, IsVoid, HolesAll, HolesExpr, CalledIn, CalledAll;
    NoPieces();
    match node
    case Element(tag, attrs, children) =>
      if !IsComponent(tag) {
        TagCallsNothing(tag, attrs, hydration);
        if !IsVoid(tag) {
          var open := Template([Raw("<" + tag)] + EmitAttrs(attrs, hydration) + [Raw(">")]);
          AllAreCalled(children, reactive, IsRawText(tag));
          ThreeCall(open, Joined(EmitAll(children, reactive, IsRawText(tag))), Lit("</" + tag + ">"));
        }
      }
    case Fragment(children) => AllAreCalled(children, reactive, false);
    case Container(e) => ExprIsCalled(e, reactive, raw);
    case _ =>
  }

  lemma {:induction false} AllAreCalled(nodes: seq<Node>, reactive: set<string>, raw: bool)
    ensures HolesAll(nodes) == CalledAll(EmitAll(nodes, reactive, raw))
    decreases nodes, 2
  {
    hide Emit, Holes, Called;
    if nodes != [] {
      HolesAreCalled(nodes[0], reactive, raw, "");
      AllAreCalled(nodes[1..], reactive, raw);
      var first, rest := Emit(nodes[0], reactive, raw, ""), EmitAll(nodes[1..], reactive, raw);
      EmptyCallsNothing();
      if first == EMPTY { NoPrefix(rest); } else { ConsEqual(first, rest, first, rest); }
    }
  }

  lemma EmptyCallsNothing()
    ensures Called(EMPTY) == {}
  {
  }

  lemma {:induction false} ExprIsCalled(e: Expr, reactive: set<string>, raw: bool)
    ensures HolesExpr(e) == Called(EmitExpr(e, reactive, raw))
    decreases e, 1
  {
    hide Emit, Holes, EmitBranch, HolesBranch, IsReactive, CalledAll;
    match e
    case Cond(_, _, _) => BranchIsCalled(e, reactive);
    case And(_, _) => BranchIsCalled(e, reactive);
    case MapCall(_, list, params, body) =>
      if body.Some? {
        HolesAreCalled(body.value, reactive, false, "");
        ThreeCall(Lit("<!--list-->"), MapJoin(list, ParamName(params), Emit(body.value, reactive, false, "")), Lit("<!--/list-->"));
      }
    case Plain(js) => ThreeCall(Lit("<!--child-->"), Esc(js), Lit("<!--/child-->")); HolesOfPlain(e);
    case Jsx(whole, _) => ThreeCall(Lit("<!--child-->"), Esc(whole), Lit("<!--/child-->"));
  }

  lemma HolesOfPlain(e: Expr)
    requires e.Plain?
    ensures HolesBranch(e) == {}
  {
  }

  lemma {:induction false} BranchIsCalled(e: Expr, reactive: set<string>)
    ensures HolesBranch(e) == Called(EmitBranch(e, reactive))
    decreases e, 0
  {
    hide Emit, Holes, CalledAll;
    match e
    case Jsx(_, node) => HolesAreCalled(node, reactive, false, "");
    case Cond(test, yes, no) =>
      BranchIsCalled(yes, reactive);
      BranchIsCalled(no, reactive);
      ThreeCall(Lit("<!--conditional-->"), Choice(test, EmitBranch(yes, reactive), EmitBranch(no, reactive)), Lit("<!--/conditional-->"));
    case And(left, right) =>
      BranchIsCalled(right, reactive);
      EmptyCallsNothing();
      ThreeCall(Lit("<!--conditional-->"), Choice(left, EmitBranch(right, reactive), EMPTY), Lit("<!--/conditional-->"));
    case _ =>
  }

  // ------------------------------------------------------------------------------------------
  // Static means constant
  // ------------------------------------------------------------------------------------------

  /** An expression made of literals alone. */
  ghost predicate Constant(e: Out)
    decreases e, 0
  {
    match e
    case Lit(_) => true
    case Template(pieces) => forall i | 0 <= i < |pieces| :: pieces[i].Raw?
    case Plus(parts) => forall i | 0 <= i < |parts| :: Constant(parts[i])
    case _ => false
  }

  lemma {:induction false} ConstantPieces(I: Interp, J: Interp, pieces: seq<Piece>, a: Env, b: Env)
    requires forall i | 0 <= i < |pieces| :: pieces[i].Raw?
    ensures EvalPieces(I, pieces, a) == EvalPieces(J, pieces, b)
  {
    if pieces != [] {
      assert pieces[0].Raw?;
      ConstantPieces(I, J, pieces[1..], a, b);
    }
  }

  lemma {:induction false} ConstantEvaluates(I: Interp, J: Interp, e: Out, a: Env, b: Env)
    requires Constant(e)
    ensures Eval(I, e, a) == Eval(J, e, b)
    decreases e, 0
  {
    match e {
      case Template(pieces) => ConstantPieces(I, J, pieces, a, b);
      case Plus(parts) => ConstantAll(I, J, parts, a, b);
      case _ =>
    }
  }

  lemma {:induction false} ConstantAll(I: Interp, J: Interp, parts: seq<Out>, a: Env, b: Env)
    requires forall i | 0 <= i < |parts| :: Constant(parts[i])
    ensures EvalAll(I, parts, a) == EvalAll(J, parts, b)
    decreases parts, 1
  {
    if parts != [] {
      ConstantEvaluates(I, J, parts[0], a, b);
      ConstantAll(I, J, parts[1..], a, b);
    }
  }

  /** Raising the flag never makes the rest static. */
  lemma {:induction false} ScanStatic(children: seq<Node>, hasReactive: bool, hasExpressions: bool)
    requires ScanChildren(children, hasReactive, hasExpressions) == StaticTier
    ensures !hasExpressions && !hasReactive
    ensures forall i | 0 <= i < |children| :: StaticChild(children[i], hasReactive)
  {
    if children != [] {
      var next := match children[0]
        case Container(_) => true
        case Nothing(braces) => hasExpressions || braces
        case Element(_, _, _) => hasExpressions || ElementTier(children[0], hasReactive) == DataDriven
        case Fragment(inner) => hasExpressions || ChildrenTier(inner, hasReactive) == DataDriven
        case Text(_) => hasExpressions;
      ScanStatic(children[1..], hasReactive, next);
      assert forall i | 1 <= i < |children| :: children[i] == children[1..][i-1];
    }
  }

  ghost predicate StaticChild(node: Node, hasReactive: bool) {
    match node
    case Text(_) => true
    case Nothing(braces) => !braces
    case Element(_, _, _) => ElementTier(node, hasReactive) == StaticTier
    case Fragment(inner) => ChildrenTier(inner, hasReactive) == StaticTier
    case Container(_) => false
  }

  lemma {:induction false} NoExprsAllRaw(attrs: seq<Attr>)
    requires !HasAttrExprs(attrs)
    ensures forall i | 0 <= i < |Static(attrs)| :: Static(attrs)[i].Raw?
    ensures Late(attrs) == []
  {
    if attrs != [] {
      assert !attrs[0].value.ExprValue?;
      assert forall i | 0 <= i < |attrs[1..]| :: attrs[1..][i] == attrs[i+1];
      NoExprsAllRaw(attrs[1..]);
    }
  }

  lemma {:induction false} SpacedRaw(pieces: seq<Piece>)
    requires forall i | 0 <= i < |pieces| :: pieces[i].Raw?
    ensures forall i | 0 <= i < |Spaced(pieces)| :: Spaced(pieces)[i].Raw?
  {
    if pieces != [] { SpacedRaw(pieces[1..]); }
  }

  lemma HolesOf(node: Node)
    requires Holes(node) == {}
    ensures node.Fragment? ==> HolesAll(node.children) == {}
    ensures node.Element? ==> !IsComponent(node.tag) && (!IsVoid(node.tag) ==> HolesAll(node.children) == {})
  {
  }

  lemma {:induction false} StaticIsConstant(node: Node, reactive: set<string>, raw: bool, hydration: string, hasReactive: bool)
    requires StaticChild(node, hasReactive) && Holes(node) == {}
    ensures Constant(Emit(node, reactive, raw, hydration))
    decreases node, 1
  {
    hide EmitAll, ScanChildren, IsRawText, IsBoolean, Static, Late, Spaced, Holes, HolesAll;
    HolesOf(node);
    match node {
      case Element(tag, attrs, children) =>
        NoExprsAllRaw(attrs);
        SpacedRaw(Static(attrs));
        assert ChildrenTier(children, hasReactive) == StaticTier;
        if !IsVoid(tag) {
          ScanStatic(children, hasReactive, false);
          AllConstant(children, reactive, IsRawText(tag), hasReactive);
        }
      case Fragment(children) =>
        ScanStatic(children, hasReactive, false);
        AllConstant(children, reactive, false, hasReactive);
      case _ =>
    }
  }

  lemma {:induction false} AllConstant(children: seq<Node>, reactive: set<string>, raw: bool, hasReactive: bool)
    requires forall i | 0 <= i < |children| :: StaticChild(children[i], hasReactive)
    requires HolesAll(children) == {}
    ensures forall i | 0 <= i < |EmitAll(children, reactive, raw)| :: Constant(EmitAll(children, reactive, raw)[i])
    decreases children, 2
  {
    if children != [] {
      StaticIsConstant(children[0], reactive, raw, "", hasReactive);
      AllConstant(children[1..], reactive, raw, hasReactive);
    }
  }

  /** A tree that is classified static and calls no component renders the same in every environment and with every
      runtime. */
  lemma StaticTierIsConstant(node: Node, reactive: set<string>, hydration: string)
    requires RootTier(node, reactive != {}) == StaticTier && Holes(node) == {}
    ensures forall I, J, a, b ::
      Eval(I, Emit(node, reactive, false, hydration), a) == Eval(J, Emit(node, reactive, false, hydration), b)
  {
    StaticIsConstant(node, reactive, false, hydration, reactive != {});
    forall I, J, a, b ensures
      Eval(I, Emit(node, reactive, false, hydration), a) == Eval(J, Emit(node, reactive, false, hydration), b)
    {
      ConstantEvaluates(I, J, Emit(node, reactive, false, hydration), a, b);
    }
  }
}

/** The generated expression evaluates to the HTML of the tree, in every environment and whatever the runtime does. */
module SsrMeaning {
  import opened Common
  import opened JsString
  import opened Ssr
  import opened SsrCorrect
  import JsxText

  // ------------------------------------------------------------------------------------------
  // The names a tree depends on
  // ------------------------------------------------------------------------------------------

  ghost function BoundBy(p: Param): set<string> {
    match p
    case Name(n) => {n}
    case Pattern(names) => set n | n in names
  }

  /** The names a call of the callback binds; it is called with the item, its place and the list. */
  ghost function BoundNames(params: seq<Param>): set<string> {
    if params == [] then {}
    else BoundBy(params[0]) + (if |params| > 1 then BoundBy(params[1]) else {}) + (if |params| > 2 then BoundBy(params[2]) else {})
  }

  ghost function AttrFree(a: Attr, component: bool): set<string> {
    if a.value.ExprValue? && (component || (!IsEventHandler(a.name) && !IsSkipped(a.name))) then a.value.js.free else {}
  }

  ghost function AttrsFree(attrs: seq<Attr>, component: bool): set<string> {
    if attrs == [] then {} else AttrFree(attrs[0], component) + AttrsFree(attrs[1..], component)
  }

  /** The names free in what a tree renders; the handlers of an element are not rendered. */
  ghost function Free(node: Node): set<string>
    decreases node, 1
  {
    match node
    case Element(tag, attrs, children) =>
      AttrsFree(attrs, IsComponent(tag)) + (if !IsComponent(tag) && IsVoid(tag) then {} else FreeAll(children))
    case Fragment(children) => FreeAll(children)
    case Container(e) => FreeExpr(e)
    case _ => {}
  }

  ghost function FreeAll(nodes: seq<Node>): set<string>
    decreases nodes, 2
  {
    if nodes == [] then {} else Free(nodes[0]) + FreeAll(nodes[1..])
  }

  ghost function FreeExpr(e: Expr): set<string>
    decreases e, 1
  {
    match e
    case MapCall(whole, list, params, body) =>
      if body.None? then whole.free else list.free + (Free(body.value) - BoundNames(params))
    case Cond(_, _, _) => FreeBranch(e)
    case And(_, _) => FreeBranch(e)
    case _ => Whole(e).free
  }

  ghost function FreeBranch(e: Expr): set<string>
    decreases e, 0
  {
    match e
    case Jsx(_, node) => Free(node)
    case Cond(test, yes, no) => test.free + FreeBranch(yes) + FreeBranch(no)
    case And(left, right) => left.free + FreeBranch(right)
    case _ => Whole(e).free
  }

  // ------------------------------------------------------------------------------------------
  // Where the generated callback binds what the source binds
  // ------------------------------------------------------------------------------------------

  /** The names that the one parameter of the generated callback does not bind as the source does. */
  ghost function LostNames(params: seq<Param>): set<string> {
    if params != [] && params[0].Name? then BoundNames(params) - {params[0].name} else BoundNames(params) + {"_item"}
  }

  /** A first name that a later parameter binds again is lost as well. */
  ghost predicate Distinct(params: seq<Param>) {
    params != [] && params[0].Name? ==>
      forall k | 1 <= k < |params| && k < 3 :: params[0].name !in BoundBy(params[k])
  }

  /** No callback renders anything from a name that the generated one loses. */
  ghost predicate Kept(node: Node)
    decreases node, 1
  {
    match node
    case Element(_, _, children) => KeptAll(children)
    case Fragment(children) => KeptAll(children)
    case Container(e) => KeptExpr(e)
    case _ => true
  }

  ghost predicate KeptAll(nodes: seq<Node>)
    decreases nodes, 2
  {
    forall i | 0 <= i < |nodes| :: Kept(nodes[i])
  }

  ghost predicate KeptExpr(e: Expr)
    decreases e, 0
  {
    match e
    case MapCall(_, _, params, body) =>
      body.Some? ==> Distinct(params) && LostNames(params) !! Free(body.value) && Kept(body.value)
    case Cond(_, yes, no) => KeptExpr(yes) && KeptExpr(no)
    case And(_, right) => KeptExpr(right)
    case Jsx(_, node) => Kept(node)
    case Plain(_) => true
  }

  // ------------------------------------------------------------------------------------------
  // The HTML depends only on the free names
  // ------------------------------------------------------------------------------------------

  lemma ValueAgrees(I: Interp, js: Js, a: Env, b: Env)
    requires Agree(a, b, js.free)
    ensures Value(I, js, a) == Value(I, js, b)
  {
    RestrictAgrees(a, b, js.free);
  }

  lemma {:induction false} AttrsAgree(I: Interp, attrs: seq<Attr>, a: Env, b: Env)
    requires Agree(a, b, AttrsFree(attrs, false))
    ensures AttrsOf(I, attrs, a) == AttrsOf(I, attrs, b)
  {
    hide AttrOf, AttrFree;
    if attrs != [] {
      AttrAgrees(I, attrs[0], a, b);
      AttrsAgree(I, attrs[1..], a, b);
    }
  }

  lemma AttrAgrees(I: Interp, attr: Attr, a: Env, b: Env)
    requires Agree(a, b, AttrFree(attr, false))
    ensures AttrOf(I, attr, a) == AttrOf(I, attr, b)
  {
    hide Value, IsBoolean, IsEventHandler, IsSkipped;
    if attr.value.ExprValue? && !IsEventHandler(attr.name) && !IsSkipped(attr.name) { ValueAgrees(I, attr.value.js, a, b); }
  }

  lemma {:induction false} OnlyFree(attrs: seq<Attr>, late: bool)
    ensures AttrsFree(Only(attrs, late), false) <= AttrsFree(attrs, false)
  {
    if attrs != [] {
      OnlyFree(attrs[1..], late);
      var rest := Only(attrs[1..], late);
      assert ([attrs[0]] + rest)[1..] == rest;
      assert [] + rest == rest;
    }
  }

  lemma {:induction false} PropsAgree(I: Interp, attrs: seq<Attr>, a: Env, b: Env)
    requires Agree(a, b, AttrsFree(attrs, true))
    ensures PropsOf(I, attrs, a) == PropsOf(I, attrs, b)
  {
    if attrs != [] {
      PropsAgree(I, attrs[1..], a, b);
      if attrs[0].value.ExprValue? { ValueAgrees(I, attrs[0].value.js, a, b); }
    }
  }

  lemma BindingsBind(I: Interp, params: seq<Param>, item: Val, i: nat, list: Val)
    ensures Bindings(I, params, item, i, list).Keys == BoundNames(params)
  {
  }

  lemma {:induction false} HtmlAgrees(I: Interp, node: Node, reactive: set<string>, raw: bool, hydration: string, a: Env, b: Env)
    requires Agree(a, b, Free(node))
    ensures Html(I, node, reactive, raw, hydration, a) == Html(I, node, reactive, raw, hydration, b)
    decreases node, 1
  {
    match node {
      case Element(tag, attrs, children) =>
        if IsComponent(tag) {
          PropsAgree(I, attrs, a, b);
          HtmlAllAgrees(I, children, {}, false, a, b);
        } else {
          OnlyFree(attrs, false);
          OnlyFree(attrs, true);
          AttrsAgree(I, Only(attrs, false), a, b);
          AttrsAgree(I, Only(attrs, true), a, b);
          if !IsVoid(tag) { HtmlAllAgrees(I, children, reactive, IsRawText(tag), a, b); }
        }
      case Fragment(children) => HtmlAllAgrees(I, children, reactive, false, a, b);
      case Container(e) => HtmlExprAgrees(I, e, reactive, raw, a, b);
      case _ =>
    }
  }

  lemma {:induction false} HtmlAllAgrees(I: Interp, nodes: seq<Node>, reactive: set<string>, raw: bool, a: Env, b: Env)
    requires Agree(a, b, FreeAll(nodes))
    ensures HtmlAll(I, nodes, reactive, raw, a) == HtmlAll(I, nodes, reactive, raw, b)
    decreases nodes, 2
  {
    if nodes != [] {
      HtmlAgrees(I, nodes[0], reactive, raw, "", a, b);
      HtmlAllAgrees(I, nodes[1..], reactive, raw, a, b);
    }
  }

  lemma {:induction false} HtmlExprAgrees(I: Interp, e: Expr, reactive: set<string>, raw: bool, a: Env, b: Env)
    requires Agree(a, b, FreeExpr(e))
    ensures HtmlExpr(I, e, reactive, raw, a) == HtmlExpr(I, e, reactive, raw, b)
    decreases e, 1
  {
    match e {
      case Cond(_, _, _) => HtmlBranchAgrees(I, e, reactive, a, b);
      case And(_, _) => HtmlBranchAgrees(I, e, reactive, a, b);
      case MapCall(whole, list, params, body) =>
        if body.None? {
          ValueAgrees(I, whole, a, b);
        } else {
          ValueAgrees(I, list, a, b);
          HtmlItemsAgree(I, body.value, reactive, params, Value(I, list, a), I.items(Value(I, list, a)), 0, a, b);
        }
      case _ => ValueAgrees(I, Whole(e), a, b);
    }
  }

  lemma {:induction false} HtmlItemsAgree(I: Interp, body: Node, reactive: set<string>, params: seq<Param>, list: Val,
                                          items: seq<Val>, i: nat, a: Env, b: Env)
    requires Agree(a, b, Free(body) - BoundNames(params))
    ensures HtmlItems(I, body, reactive, params, list, items, i, a) == HtmlItems(I, body, reactive, params, list, items, i, b)
    decreases body, 2, items
  {
    if items != [] {
      BindingsBind(I, params, items[0], i, list);
      var m := Bindings(I, params, items[0], i, list);
      HtmlAgrees(I, body, reactive, false, "", a + m, b + m);
      HtmlItemsAgree(I, body, reactive, params, list, items[1..], i + 1, a, b);
    }
  }

  lemma {:induction false} HtmlBranchAgrees(I: Interp, e: Expr, reactive: set<string>, a: Env, b: Env)
    requires Agree(a, b, FreeBranch(e))
    ensures HtmlBranch(I, e, reactive, a) == HtmlBranch(I, e, reactive, b)
    decreases e, 0
  {
    match e {
      case Jsx(_, node) => HtmlAgrees(I, node, reactive, false, "", a, b);
      case Cond(test, yes, no) =>
        ValueAgrees(I, test, a, b);
        HtmlBranchAgrees(I, yes, reactive, a, b);
        HtmlBranchAgrees(I, no, reactive, a, b);
      case And(left, right) =>
        ValueAgrees(I, left, a, b);
        HtmlBranchAgrees(I, right, reactive, a, b);
      case _ => ValueAgrees(I, Whole(e), a, b);
    }
  }

  // ------------------------------------------------------------------------------------------
  // Evaluation meets the HTML
  // ------------------------------------------------------------------------------------------

  lemma Plus3(I: Interp, x: Out, y: Out, z: Out, env: Env)
    ensures Eval(I, Plus([x, y, z]), env) == Eval(I, x, env) + Eval(I, y, env) + Eval(I, z, env)
  {
    assert [x, y, z][1..] == [y, z] && [y, z][1..] == [z] && [z][1..] == [];
    assert EvalAll(I, [z], env) == Eval(I, z, env) + "";
    assert EvalAll(I, [y, z], env) == Eval(I, y, env) + EvalAll(I, [z], env);
  }

  lemma Marked(I: Interp, before: string, e: Out, after: string, env: Env)
    requires IsBare(before) && IsBare(after)
    ensures Eval(I, Plus([Lit(before), e, Lit(after)]), env) == before + Eval(I, e, env) + after
  {
    Plus3(I, Lit(before), e, Lit(after), env);
    RawReads(before);
    RawReads(after);
  }

  lemma {:induction false} PiecesConcat(I: Interp, a: seq<Piece>, b: seq<Piece>, env: Env)
    ensures EvalPieces(I, a + b, env) == EvalPieces(I, a, env) + EvalPieces(I, b, env)
  {
    if a == [] {
      assert a + b == b;
    } else {
      assert (a + b)[1..] == a[1..] + b;
      PiecesConcat(I, a[1..], b, env);
    }
  }

  lemma PiecesOne(I: Interp, p: Piece, env: Env)
    ensures EvalPieces(I, [p], env) == EvalPiece(I, p, env)
  {
    assert [p][1..] == [];
  }

  lemma Quoted(I: Interp, before: string, e: Out, after: string, env: Env)
    requires IsBare(before) && IsBare(after)
    ensures Eval(I, Template([Raw(before), Splice(e), Raw(after)]), env) == before + Eval(I, e, env) + after
  {
    RawReads(before);
    RawReads(after);
    assert [Raw(before), Splice(e), Raw(after)] == [Raw(before)] + [Splice(e)] + [Raw(after)];
    PiecesConcat(I, [Raw(before)] + [Splice(e)], [Raw(after)], env);
    PiecesConcat(I, [Raw(before)], [Splice(e)], env);
    PiecesOne(I, Raw(before), env);
    PiecesOne(I, Splice(e), env);
    PiecesOne(I, Raw(after), env);
  }

  ghost function WriteAttr(a: HtmlAttr): string {
    a.name + if a.value.Some? then "=\"" + a.value.value + "\"" else ""
  }

  /** An attribute that is not late prints itself. */
  lemma StaticAttrEvaluates(I: Interp, a: Attr, env: Env)
    requires IsBare(a.name) && Prints(a) && !IsLate(a)
    ensures EmitAttr(a).Some? == AttrOf(I, a, env).Some?
    ensures EmitAttr(a).Some? ==> EvalPiece(I, EmitAttr(a).value, env) == WriteAttr(AttrOf(I, a, env).value)
  {
    hide Eval, EscapeAttrValue, IsBoolean, IsEventHandler, IsSkipped;
    var name := HtmlName(a.name);
    if EmitAttr(a).Some? {
      match a.value {
        case StringValue(v) => StringAttrReads(name, v);
        case ExprValue(js) => ExprAttrEvaluates(I, name, js, env);
        case NoValue => RawReads(name);
        case OtherValue(_) =>
      }
    }
  }

  lemma ExprAttrEvaluates(I: Interp, name: string, js: Js, env: Env)
    requires IsBare(name)
    ensures Eval(I, Template([Raw("style=\""), Splice(Style(js)), Raw("\"")]), env) == "style=\"" + I.style(Value(I, js, env)) + "\""
    ensures Eval(I, Template([Raw(name + "=\""), Splice(EscAttr(js)), Raw("\"")]), env)
      == name + "=\"" + I.escAttr(Value(I, js, env)) + "\""
  {
    assert IsBare(name + "=\"") && IsBare("style=\"") && IsBare("\"");
    Quoted(I, "style=\"", Style(js), "\"", env);
    Quoted(I, name + "=\"", EscAttr(js), "\"", env);
  }

  lemma {:induction false} WriteConcat(a: seq<HtmlAttr>, b: seq<HtmlAttr>)
    ensures WriteAttrs(a + b) == WriteAttrs(a) + WriteAttrs(b)
  {
    if a == [] {
      assert a + b == b;
    } else {
      assert (a + b)[1..] == a[1..] + b;
      WriteConcat(a[1..], b);
    }
  }

  lemma WriteOne(a: HtmlAttr)
    ensures WriteAttrs([a]) == " " + WriteAttr(a)
  {
    assert [a][1..] == [];
  }

  lemma {:induction false} StaticEvaluates(I: Interp, attrs: seq<Attr>, env: Env)
    requires forall i | 0 <= i < |attrs| :: IsBare(attrs[i].name) && Prints(attrs[i])
    ensures EvalPieces(I, Spaced(Static(attrs)), env) == WriteAttrs(AttrsOf(I, Only(attrs, false), env))
  {
    if attrs != [] {
      StaticEvaluates(I, attrs[1..], env);
      var a := attrs[0];
      var rest := Only(attrs[1..], false);
      assert [] + rest == rest && [] + Static(attrs[1..]) == Static(attrs[1..]);
      if !IsLate(a) {
        StaticAttrEvaluates(I, a, env);
        assert ([a] + rest)[1..] == rest;
        var p := EmitAttr(a);
        if p.Some? {
          var pieces := [p.value] + Static(attrs[1..]);
          assert pieces[1..] == Static(attrs[1..]);
          SpacedOne(I, pieces, env);
          WriteConcat([AttrOf(I, a, env).value], AttrsOf(I, rest, env));
          WriteOne(AttrOf(I, a, env).value);
        } else {
          assert [] + AttrsOf(I, rest, env) == AttrsOf(I, rest, env);
        }
      }
    }
  }

  lemma SpacedOne(I: Interp, pieces: seq<Piece>, env: Env)
    requires pieces != []
    ensures EvalPieces(I, Spaced(pieces), env) == " " + EvalPiece(I, pieces[0], env) + EvalPieces(I, Spaced(pieces[1..]), env)
  {
    PiecesConcat(I, [Raw(" "), pieces[0]], Spaced(pieces[1..]), env);
    assert [Raw(" "), pieces[0]] == [Raw(" ")] + [pieces[0]];
    PiecesConcat(I, [Raw(" ")], [pieces[0]], env);
    PiecesOne(I, Raw(" "), env);
    PiecesOne(I, pieces[0], env);
    assert IsBare(" ");
    RawReads(" ");
  }

  /** A late attribute brings its own space, and prints nothing where its value is falsy. */
  lemma LateAttrEvaluates(I: Interp, a: Attr, env: Env)
    requires IsBare(a.name) && IsLate(a)
    ensures EmitAttr(a).Some?
    ensures EvalPiece(I, EmitAttr(a).value, env) == WriteAttrs(AttrsOf(I, [a], env))
  {
    hide Value, IsBoolean, IsEventHandler, IsSkipped, HtmlName, AttrsOf, Read;
    var name := HtmlName(a.name);
    assert IsBare(name) by { HtmlNameIsBare(a.name); }
    BooleanEvaluates(I, name, a.value.js, env);
    AttrOne(I, a, env);
    WriteOne(HtmlAttr(name, None));
    assert name + "" == name;
    assert EmitAttr(a) == Some(Splice(Choice(a.value.js, Lit(" " + name), EMPTY)));
  }

  lemma HtmlNameIsBare(name: string)
    requires IsBare(name)
    ensures IsBare(HtmlName(name))
  {
  }

  lemma BooleanEvaluates(I: Interp, name: string, js: Js, env: Env)
    requires IsBare(name)
    ensures EvalPiece(I, Splice(Choice(js, Lit(" " + name), EMPTY)), env) == if I.truthy(Value(I, js, env)) then " " + name else ""
  {
    hide Value;
    assert IsBare(" " + name);
    RawReads(" " + name);
    EmptyReads();
    assert Eval(I, Lit(" " + name), env) == " " + name && Eval(I, EMPTY, env) == "";
  }

  lemma {:induction false} AttrsConcat(I: Interp, a: seq<Attr>, b: seq<Attr>, env: Env)
    ensures AttrsOf(I, a + b, env) == AttrsOf(I, a, env) + AttrsOf(I, b, env)
  {
    hide AttrOf;
    if a == [] {
      assert a + b == b;
    } else {
      assert (a + b)[1..] == a[1..] + b;
      AttrsConcat(I, a[1..], b, env);
    }
  }

  lemma {:induction false} LateEvaluates(I: Interp, attrs: seq<Attr>, env: Env)
    requires forall i | 0 <= i < |attrs| :: IsBare(attrs[i].name)
    ensures EvalPieces(I, Late(attrs), env) == WriteAttrs(AttrsOf(I, Only(attrs, true), env))
  {
    if attrs != [] {
      hide AttrsOf, WriteAttrs, EvalPieces, EvalPiece, EmitAttr, IsLate;
      LateEvaluates(I, attrs[1..], env);
      var a, rest := attrs[0], Only(attrs[1..], true);
      assert [] + rest == rest && [] + Late(attrs[1..]) == Late(attrs[1..]);
      if IsLate(a) {
        LateAttrEvaluates(I, a, env);
        PiecesConcat(I, [EmitAttr(a).value], Late(attrs[1..]), env);
        PiecesOne(I, EmitAttr(a).value, env);
        AttrsConcat(I, [a], rest, env);
        WriteConcat(AttrsOf(I, [a], env), AttrsOf(I, rest, env));
      }
    }
  }

  ghost function Hydration(hydration: string): string {
    if hydration == "" then "" else " data-v-id=\"" + hydration + "\""
  }

  lemma OpenTagEvaluates(I: Interp, tag: string, attrs: seq<Attr>, hydration: string, env: Env)
    requires IsBare(tag) && IsBare(hydration)
    requires forall i | 0 <= i < |attrs| :: IsBare(attrs[i].name) && Prints(attrs[i])
    ensures Eval(I, Template([Raw("<" + tag)] + EmitAttrs(attrs, hydration) + [Raw(">")]), env)
         == "<" + tag + WriteAttrs(WrittenAttrs(I, attrs, env)) + Hydration(hydration) + ">"
  {
    hide WriteAttrs, AttrsOf, Spaced, Static, Late, Only, EvalPieces, EvalPiece, Read;
    var pieces := EmitAttrs(attrs, hydration);
    BorderEvaluates(I, "<" + tag, pieces, env);
    AttrPiecesEvaluate(I, attrs, hydration, env);
    Regroup("<" + tag, WriteAttrs(WrittenAttrs(I, attrs, env)), Hydration(hydration));
  }

  lemma BorderEvaluates(I: Interp, before: string, pieces: seq<Piece>, env: Env)
    requires IsBare(before)
    ensures Eval(I, Template([Raw(before)] + pieces + [Raw(">")]), env) == before + EvalPieces(I, pieces, env) + ">"
  {
    assert IsBare(">");
    RawReads(before);
    RawReads(">");
    PiecesConcat(I, [Raw(before)], pieces, env);
    PiecesConcat(I, [Raw(before)] + pieces, [Raw(">")], env);
    PiecesOne(I, Raw(before), env);
    PiecesOne(I, Raw(">"), env);
  }

  lemma AttrPiecesEvaluate(I: Interp, attrs: seq<Attr>, hydration: string, env: Env)
    requires IsBare(hydration)
    requires forall i | 0 <= i < |attrs| :: IsBare(attrs[i].name) && Prints(attrs[i])
    ensures EvalPieces(I, EmitAttrs(attrs, hydration), env)
         == WriteAttrs(WrittenAttrs(I, attrs, env)) + Hydration(hydration)
  {
    hide WriteAttrs, AttrsOf, Spaced, Static, Late, Only, Read;
    var hyd := if hydration == "" then [] else [Raw(" data-v-id=\"" + hydration + "\"")];
    var st, la := Spaced(Static(attrs)), Late(attrs);
    StaticEvaluates(I, attrs, env);
    LateEvaluates(I, attrs, env);
    WriteConcat(AttrsOf(I, Only(attrs, false), env), AttrsOf(I, Only(attrs, true), env));
    PiecesConcat(I, st, la, env);
    PiecesConcat(I, st + la, hyd, env);
    if hydration != "" {
      assert IsBare(" data-v-id=\"" + hydration + "\"");
      RawReads(" data-v-id=\"" + hydration + "\"");
      PiecesOne(I, hyd[0], env);
    }
  }

  lemma {:induction false} EvalPropsConcat(I: Interp, a: seq<Prop>, b: seq<Prop>, env: Env)
    ensures EvalProps(I, a + b, env) == EvalProps(I, a, env) + EvalProps(I, b, env)
  {
    if a == [] {
      assert a + b == b;
    } else {
      hide EvalProp;
      assert (a + b)[1..] == a[1..] + b;
      EvalPropsConcat(I, a[1..], b, env);
    }
  }

  lemma PropEvaluates(I: Interp, a: Attr, env: Env)
    ensures EvalProps(I, EmitProp(a), env) == PropOf(I, a, env)
  {
    if a.value.StringValue? { StringLiteralRoundTrip(a.value.value); }
    if EmitProp(a) != [] { assert EmitProp(a)[1..] == []; }
  }

  lemma {:induction false} PropsEvaluate(I: Interp, attrs: seq<Attr>, env: Env)
    ensures EvalProps(I, EmitProps(attrs), env) == PropsOf(I, attrs, env)
  {
    if attrs != [] {
      hide EmitProp, PropOf, EvalProps;
      PropsEvaluate(I, attrs[1..], env);
      PropEvaluates(I, attrs[0], env);
      EvalPropsConcat(I, EmitProp(attrs[0]), EmitProps(attrs[1..]), env);
    }
  }

  lemma {:induction false} AllConcat(I: Interp, a: seq<Out>, b: seq<Out>, env: Env)
    ensures EvalAll(I, a + b, env) == EvalAll(I, a, env) + EvalAll(I, b, env)
  {
    if a == [] {
      assert a + b == b;
    } else {
      assert (a + b)[1..] == a[1..] + b;
      AllConcat(I, a[1..], b, env);
    }
  }

  lemma JoinedEvaluates(I: Interp, parts: seq<Out>, env: Env)
    ensures Eval(I, Joined(parts), env) == EvalAll(I, parts, env)
  {
    EmptyReads();
  }

  /** A part is dropped exactly where the tree can never render anything. */
  lemma {:induction false} DroppedNeverRenders(node: Node, reactive: set<string>, raw: bool)
    ensures Emit(node, reactive, raw, "") == EMPTY <==> NeverRenders(node)
    decreases node, 1
  {
    match node {
      case Text(t) => StringLiteralRoundTrip(JsxText.ServerClean(t)); EmptyReads();
      case Fragment(children) => AllDropped(children, reactive, false);
      case Container(e) => ExprIsNotDropped(e, reactive, raw);
      case _ =>
    }
  }

  lemma ExprIsNotDropped(e: Expr, reactive: set<string>, raw: bool)
    ensures EmitExpr(e, reactive, raw) != EMPTY
  {
  }

  lemma {:induction false} AllDropped(children: seq<Node>, reactive: set<string>, raw: bool)
    ensures EmitAll(children, reactive, raw) == [] <==> RendersNothing(children)
    decreases children, 2
  {
    if children != [] {
      DroppedNeverRenders(children[0], reactive, raw);
      AllDropped(children[1..], reactive, raw);
      assert RendersNothing(children) <==> NeverRenders(children[0]) && RendersNothing(children[1..]) by {
        assert forall i | 1 <= i < |children| :: children[i] == children[1..][i-1];
      }
    }
  }

  ghost predicate Fine(node: Node) {
    Bare(node) && Parsable(node) && Kept(node)
  }

  ghost predicate FineAll(nodes: seq<Node>) {
    BareAll(nodes) && ParsableAll(nodes) && KeptAll(nodes)
  }

  lemma FineSplit(nodes: seq<Node>)
    requires FineAll(nodes) && nodes != []
    ensures Fine(nodes[0]) && FineAll(nodes[1..])
  {
  }

  /** The generated expression is the HTML of the tree. */
  lemma {:induction false} EmitEvaluates(I: Interp, node: Node, reactive: set<string>, raw: bool, hydration: string, env: Env)
    requires Fine(node) && IsBare(hydration)
    ensures Eval(I, Emit(node, reactive, raw, hydration), env) == Html(I, node, reactive, raw, hydration, env)
    decreases node, 1
  {
    hide Fine, FineAll, EmitAttrs, WrittenAttrs, EvalAll, EvalPieces, HtmlAll, EmitAll;
    match node {
      case Text(t) => EmptyReads(); StringLiteralRoundTrip(JsxText.ServerClean(t));
      case Element(tag, attrs, children) =>
        FineElement(node);
        if IsComponent(tag) {
          EmitAllEvaluates(I, children, {}, false, env);
          ComponentEvaluates(I, tag, attrs, children, env);
        } else {
          if !IsVoid(tag) { EmitAllEvaluates(I, children, reactive, IsRawText(tag), env); }
          ElementEvaluates(I, tag, attrs, children, reactive, hydration, env);
        }
      case Fragment(children) =>
        FineParts(node);
        EmitAllEvaluates(I, children, reactive, false, env);
        JoinedEvaluates(I, EmitAll(children, reactive, false), env);
      case Container(e) => FineParts(node); EmitExprEvaluates(I, e, reactive, raw, env);
      case Nothing(_) => EmptyReads();
    }
  }

  lemma FineParts(node: Node)
    requires Fine(node)
    ensures node.Fragment? ==> FineAll(node.children)
    ensures node.Container? ==> BareExpr(node.expr) && ParsableExpr(node.expr) && KeptExpr(node.expr)
  {
  }

  lemma FineElement(node: Node)
    requires Fine(node) && node.Element?
    ensures IsBare(node.tag)
    ensures IsComponent(node.tag) || !IsVoid(node.tag) ==> FineAll(node.children)
    ensures !IsComponent(node.tag) ==> forall i | 0 <= i < |node.attrs| :: IsBare(node.attrs[i].name) && Prints(node.attrs[i])
  {
  }

  lemma ComponentEvaluates(I: Interp, tag: string, attrs: seq<Attr>, children: seq<Node>, env: Env)
    requires EvalAll(I, EmitAll(children, {}, false), env) == HtmlAll(I, children, {}, false, env)
    ensures EvalProps(I, EmitProps(attrs) + ChildrenProp(EmitAll(children, {}, false)), env)
         == PropsOf(I, attrs, env)
            + if RendersNothing(children) then [] else [("children", I.literal(HtmlAll(I, children, {}, false, env)))]
  {
    var parts := EmitAll(children, {}, false);
    PropsEvaluate(I, attrs, env);
    EvalPropsConcat(I, EmitProps(attrs), ChildrenProp(parts), env);
    AllDropped(children, {}, false);
    if parts != [] {
      var p := Prop("children", PropHtml(Plus(parts)));
      assert [p][1..] == [];
      assert EvalProp(I, p, env) == ("children", I.literal(Eval(I, Plus(parts), env)));
      assert Eval(I, Plus(parts), env) == EvalAll(I, parts, env);
      assert EvalProps(I, [p], env) == [EvalProp(I, p, env)] + EvalProps(I, [], env);
    }
  }

  lemma ElementEvaluates(I: Interp, tag: string, attrs: seq<Attr>, children: seq<Node>, reactive: set<string>, hydration: string, env: Env)
    requires IsBare(tag) && IsBare(hydration) && !IsComponent(tag)
    requires forall i | 0 <= i < |attrs| :: IsBare(attrs[i].name) && Prints(attrs[i])
    requires !IsVoid(tag) ==>
      EvalAll(I, EmitAll(children, reactive, IsRawText(tag)), env) == HtmlAll(I, children, reactive, IsRawText(tag), env)
    ensures Eval(I, Emit(Element(tag, attrs, children), reactive, false, hydration), env)
         == Html(I, Element(tag, attrs, children), reactive, false, hydration, env)
  {
    hide WrittenAttrs, WriteAttrs, EmitAttrs, EmitAll, HtmlAll, EvalPieces, EvalAll, Joined, Read, IsVoid, IsRawText, IsComponent, Eval;
    OpenTagEvaluates(I, tag, attrs, hydration, env);
    if !IsVoid(tag) {
      var open := Template([Raw("<" + tag)] + EmitAttrs(attrs, hydration) + [Raw(">")]);
      var mid := EmitAll(children, reactive, IsRawText(tag));
      Plus3(I, open, Joined(mid), Lit("</" + tag + ">"), env);
      JoinedEvaluates(I, mid, env);
      EndTagEvaluates(I, tag, env);
      Regroup(Eval(I, open, env), HtmlAll(I, children, reactive, IsRawText(tag), env), "</" + tag + ">");
      TailText(HtmlAll(I, children, reactive, IsRawText(tag), env), tag);
    }
  }

  lemma EndTagEvaluates(I: Interp, tag: string, env: Env)
    requires IsBare(tag)
    ensures Eval(I, Lit("</" + tag + ">"), env) == "</" + tag + ">"
  {
    assert IsBare("</" + tag + ">");
    RawReads("</" + tag + ">");
  }

  lemma TailText(inside: string, tag: string)
    ensures inside + "</" + tag + ">" == inside + ("</" + tag + ">")
  {
  }

  lemma {:induction false} EmitAllEvaluates(I: Interp, children: seq<Node>, reactive: set<string>, raw: bool, env: Env)
    requires FineAll(children)
    ensures EvalAll(I, EmitAll(children, reactive, raw), env) == HtmlAll(I, children, reactive, raw, env)
    decreases children, 2
  {
    if children != [] {
      FineSplit(children);
      EmitEvaluates(I, children[0], reactive, raw, "", env);
      EmitAllEvaluates(I, children[1..], reactive, raw, env);
      var first, rest := Emit(children[0], reactive, raw, ""), EmitAll(children[1..], reactive, raw);
      EmptyReads();
      AllConcat(I, [first], rest, env);
      assert [first][1..] == [];
      assert [] + rest == rest;
    }
  }

  lemma {:induction false} EmitExprEvaluates(I: Interp, e: Expr, reactive: set<string>, raw: bool, env: Env)
    requires BareExpr(e) && ParsableExpr(e) && KeptExpr(e)
    ensures Eval(I, EmitExpr(e, reactive, raw), env) == HtmlExpr(I, e, reactive, raw, env)
    decreases e, 1
  {
    hide EvalAll, Html, Emit, Free, Bare, Parsable, Kept, Read;
    match e {
      case Cond(_, _, _) => EmitBranchEvaluates(I, e, reactive, env);
      case And(_, _) => EmitBranchEvaluates(I, e, reactive, env);
      case MapCall(whole, list, params, body) =>
        if body.Some? {
          var v := Value(I, list, env);
          EmitItemsEvaluate(I, body.value, reactive, params, v, I.items(v), 0, env);
          MapEvaluates(I, e, reactive, raw, env);
        }
      case Plain(_) => PlainEvaluates(I, e, reactive, raw, env);
      case Jsx(_, _) => PlainEvaluates(I, e, reactive, raw, env);
    }
  }

  lemma PlainEvaluates(I: Interp, e: Expr, reactive: set<string>, raw: bool, env: Env)
    requires e.Plain? || e.Jsx?
    ensures Eval(I, EmitExpr(e, reactive, raw), env) == HtmlExpr(I, e, reactive, raw, env)
  {
    Marked(I, "<!--child-->", Esc(Whole(e)), "<!--/child-->", env);
  }

  lemma MapEvaluates(I: Interp, e: Expr, reactive: set<string>, raw: bool, env: Env)
    requires e.MapCall? && e.body.Some?
    requires var v := Value(I, e.list, env);
      EvalMap(I, Emit(e.body.value, reactive, false, ""), ParamName(e.params), I.items(v), env)
      == HtmlItems(I, e.body.value, reactive, e.params, v, I.items(v), 0, env)
    ensures Eval(I, EmitExpr(e, reactive, raw), env) == HtmlExpr(I, e, reactive, raw, env)
  {
    hide Html, Emit, EvalMap, HtmlItems, Read;
    var join := MapJoin(e.list, ParamName(e.params), Emit(e.body.value, reactive, false, ""));
    Marked(I, "<!--list-->", join, "<!--/list-->", env);
  }

  /** The generated callback has one parameter; the item it renders is the one the source renders, because what the
      body uses of the environment is bound alike in both. */
  lemma {:induction false} EmitItemsEvaluate(I: Interp, body: Node, reactive: set<string>, params: seq<Param>, list: Val,
                                             items: seq<Val>, i: nat, env: Env)
    requires Fine(body) && Distinct(params) && LostNames(params) !! Free(body)
    ensures EvalMap(I, Emit(body, reactive, false, ""), ParamName(params), items, env)
         == HtmlItems(I, body, reactive, params, list, items, i, env)
    decreases body, 2, items
  {
    if items != [] {
      var one := env[ParamName(params) := items[0]];
      var full := env + Bindings(I, params, items[0], i, list);
      EmitEvaluates(I, body, reactive, false, "", one);
      BindingsAgree(I, params, items[0], i, list, env, Free(body));
      HtmlAgrees(I, body, reactive, false, "", one, full);
      EmitItemsEvaluate(I, body, reactive, params, list, items[1..], i + 1, env);
    }
  }

  lemma BindingsAgree(I: Interp, params: seq<Param>, item: Val, i: nat, list: Val, env: Env, names: set<string>)
    requires Distinct(params) && LostNames(params) !! names
    ensures Agree(env[ParamName(params) := item], env + Bindings(I, params, item, i, list), names)
  {
    BindingsBind(I, params, item, i, list);
    var m := Bindings(I, params, item, i, list);
    if params != [] && params[0].Name? {
      assert m[params[0].name] == item;
      forall n | n in names && n != params[0].name ensures n !in m {}
    } else {
      forall n | n in names ensures n !in m && n != "_item" {}
    }
  }

  lemma {:induction false} EmitBranchEvaluates(I: Interp, e: Expr, reactive: set<string>, env: Env)
    requires BareExpr(e) && ParsableBranch(e) && KeptExpr(e)
    ensures Eval(I, EmitBranch(e, reactive), env) == HtmlBranch(I, e, reactive, env)
    decreases e, 0
  {
    hide Emit, Html, Bare, Parsable, Kept, Value, Eval;
    match e {
      case Jsx(_, node) => EmitEvaluates(I, node, reactive, false, "", env);
      case Cond(test, yes, no) =>
        EmitBranchEvaluates(I, yes, reactive, env);
        EmitBranchEvaluates(I, no, reactive, env);
        ChoiceEvaluates(I, test, EmitBranch(yes, reactive), EmitBranch(no, reactive), env);
        Marked(I, "<!--conditional-->", Choice(test, EmitBranch(yes, reactive), EmitBranch(no, reactive)), "<!--/conditional-->", env);
      case And(left, right) =>
        EmitBranchEvaluates(I, right, reactive, env);
        ChoiceEvaluates(I, left, EmitBranch(right, reactive), EMPTY, env);
        Marked(I, "<!--conditional-->", Choice(left, EmitBranch(right, reactive), EMPTY), "<!--/conditional-->", env);
      case _ => EscEvaluates(I, Whole(e), env);
    }
  }

  lemma ChoiceEvaluates(I: Interp, test: Js, yes: Out, no: Out, env: Env)
    ensures Eval(I, Choice(test, yes, no), env) == if I.truthy(Value(I, test, env)) then Eval(I, yes, env) else Eval(I, no, env)
    ensures Eval(I, EMPTY, env) == ""
  {
    EmptyReads();
  }

  lemma EscEvaluates(I: Interp, js: Js, env: Env)
    ensures Eval(I, Esc(js), env) == I.esc(Value(I, js, env))
  {
  }

  /** Where every callback keeps the names it renders from: the generated module parses exactly if no string attribute
      that is written holds a carriage return, and then its value is the HTML of the tree. */
  lemma GeneratedExpressionIsFaithful(node: Node, reactive: set<string>, hydration: string)
    requires Bare(node) && IsBare(hydration) && Kept(node)
    ensures Readable(Emit(node, reactive, false, hydration)) <==> Parsable(node)
    ensures Parsable(node) ==> forall I, env ::
      Eval(I, Emit(node, reactive, false, hydration), env) == Html(I, node, reactive, false, hydration, env)
  {
    EmitReadable(node, reactive, false, hydration);
    if Parsable(node) {
      forall I, env ensures Eval(I, Emit(node, reactive, false, hydration), env) == Html(I, node, reactive, false, hydration, env) {
        EmitEvaluates(I, node, reactive, false, hydration, env);
      }
    }
  }

  // ------------------------------------------------------------------------------------------
  // The order of the attributes
  // ------------------------------------------------------------------------------------------

  /** What a browser reads: of several attributes with one name, the first. */
  ghost function Lookup(attrs: seq<HtmlAttr>, name: string): Option<Option<string>> {
    if attrs == [] then None else if attrs[0].name == name then Some(attrs[0].value) else Lookup(attrs[1..], name)
  }

  lemma {:induction false} LookupConcat(a: seq<HtmlAttr>, b: seq<HtmlAttr>, name: string)
    ensures Lookup(a + b, name) == if Lookup(a, name).Some? then Lookup(a, name) else Lookup(b, name)
  {
    if a == [] {
      assert a + b == b;
    } else {
      assert (a + b)[1..] == a[1..] + b;
      LookupConcat(a[1..], b, name);
    }
  }

  /** A boolean attribute with an expression shares its name with no other attribute. */
  ghost predicate LateNamesUnique(attrs: seq<Attr>) {
    forall i, j | 0 <= i < j < |attrs| && (IsLate(attrs[i]) || IsLate(attrs[j])) ::
      HtmlName(attrs[i].name) != HtmlName(attrs[j].name)
  }

  lemma {:induction false} NotNamed(I: Interp, attrs: seq<Attr>, late: bool, name: string, env: Env)
    requires forall i | 0 <= i < |attrs| :: HtmlName(attrs[i].name) != name
    ensures Lookup(AttrsOf(I, Only(attrs, late), env), name) == None
  {
    if attrs != [] {
      NotNamed(I, attrs[1..], late, name, env);
      var rest := Only(attrs[1..], late);
      assert [] + rest == rest;
      if IsLate(attrs[0]) == late {
        assert Only(attrs, late) == [attrs[0]] + rest;
        AttrsConcat(I, [attrs[0]], rest, env);
        LookupConcat(AttrsOf(I, [attrs[0]], env), AttrsOf(I, rest, env), name);
        AttrOne(I, attrs[0], env);
      }
    }
  }

  lemma AttrOne(I: Interp, a: Attr, env: Env)
    ensures var v := AttrOf(I, a, env);
      AttrsOf(I, [a], env) == (if v.Some? then [v.value] else []) && (v.Some? ==> v.value.name == HtmlName(a.name))
  {
    assert [a][1..] == [];
    var v := AttrOf(I, a, env);
    assert (if v.Some? then [v.value] else []) + [] == if v.Some? then [v.value] else [];
  }

  /** Writing the boolean attributes last changes no attribute of the element. */
  lemma {:induction false} WrittenLast(I: Interp, attrs: seq<Attr>, env: Env, name: string)
    requires LateNamesUnique(attrs)
    ensures Lookup(WrittenAttrs(I, attrs, env), name) == Lookup(AttrsOf(I, attrs, env), name)
    ensures multiset(WrittenAttrs(I, attrs, env)) == multiset(AttrsOf(I, attrs, env))
  {
    if attrs != [] {
      hide AttrsOf, Lookup, IsLate;
      var a, rest := attrs[0], attrs[1..];
      WrittenLast(I, rest, env, name);
      assert attrs == [a] + rest;
      AttrsConcat(I, [a], rest, env);
      var one := AttrsOf(I, [a], env);
      var st, la := AttrsOf(I, Only(rest, false), env), AttrsOf(I, Only(rest, true), env);
      LookupConcat(one, st + la, name);
      LookupConcat(one, AttrsOf(I, rest, env), name);
      WrittenStep(I, a, rest, env);
      if IsLate(a) {
        LookupMoves(I, a, rest, env, name);
        MultisetMoves(one, st, la);
      }
    }
  }

  lemma MultisetMoves(one: seq<HtmlAttr>, st: seq<HtmlAttr>, la: seq<HtmlAttr>)
    ensures multiset(st + (one + la)) == multiset(one + (st + la))
  {
  }

  lemma WrittenStep(I: Interp, a: Attr, rest: seq<Attr>, env: Env)
    ensures var one, st, la := AttrsOf(I, [a], env), AttrsOf(I, Only(rest, false), env), AttrsOf(I, Only(rest, true), env);
      WrittenAttrs(I, [a] + rest, env) == if IsLate(a) then st + (one + la) else one + (st + la)
  {
    hide AttrsOf, IsLate;
    var attrs := [a] + rest;
    assert attrs[1..] == rest;
    assert [] + Only(rest, false) == Only(rest, false) && [] + Only(rest, true) == Only(rest, true);
    AttrsConcat(I, [a], Only(rest, IsLate(a)), env);
    var one, st, la := AttrsOf(I, [a], env), AttrsOf(I, Only(rest, false), env), AttrsOf(I, Only(rest, true), env);
    assert (one + st) + la == one + (st + la);
  }

  lemma LookupMoves(I: Interp, a: Attr, rest: seq<Attr>, env: Env, name: string)
    requires IsLate(a) && LateNamesUnique([a] + rest)
    ensures var one, st, la := AttrsOf(I, [a], env), AttrsOf(I, Only(rest, false), env), AttrsOf(I, Only(rest, true), env);
      Lookup(st + (one + la), name) == Lookup(one + (st + la), name)
  {
    hide AttrsOf, IsLate;
    var one, st, la := AttrsOf(I, [a], env), AttrsOf(I, Only(rest, false), env), AttrsOf(I, Only(rest, true), env);
    LookupConcat(st, one + la, name);
    LookupConcat(one, la, name);
    LookupConcat(one, st + la, name);
    LookupConcat(st, la, name);
    AttrOne(I, a, env);
    if HtmlName(a.name) == name {
      var attrs := [a] + rest;
      forall i | 0 <= i < |rest| ensures HtmlName(rest[i].name) != name { assert attrs[0] == a && attrs[i+1] == rest[i]; }
      NotNamed(I, rest, false, name, env);
    }
  }

  // ------------------------------------------------------------------------------------------
  // The parameters of a callback
  // ------------------------------------------------------------------------------------------

  lemma ItemHtml(I: Interp, tag: string, js: Js, env: Env)
    requires !IsComponent(tag) && !IsVoid(tag) && !IsRawText(tag)
    ensures Html(I, Element(tag, [], [Container(Plain(js))]), {}, false, "", env)
         == "<" + tag + ">" + I.esc(Value(I, js, env)) + ("</" + tag + ">")
  {
    hide Value, IsVoid, IsRawText, IsComponent;
    var children := [Container(Plain(js))];
    assert children[1..] == [];
    var here := I.esc(Value(I, js, env));
    assert !IsReactive(js, {});
    assert HtmlExpr(I, Plain(js), {}, false, env) == here;
    assert Html(I, children[0], {}, false, "", env) == here;
    assert HtmlAll(I, [], {}, false, env) == "";
    assert HtmlAll(I, children, {}, false, env) == here + "";
    assert here + "" == here;
    assert WrittenAttrs(I, [], env) == [];
  }

  lemma OneItem(I: Interp, list: Js, params: seq<Param>, tag: string, js: Js, env: Env)
    requires IsBare(tag) && !IsComponent(tag) && !IsVoid(tag) && !IsRawText(tag)
    requires |I.items(Value(I, list, env))| == 1
    ensures var item := I.items(Value(I, list, env))[0];
            var body := Element(tag, [], [Container(Plain(js))]);
            var call := MapCall(list, list, params, Some(body));
            && Eval(I, EmitExpr(call, {}, false), env)
               == "<!--list-->" + Html(I, body, {}, false, "", env[ParamName(params) := item]) + "<!--/list-->"
            && HtmlExpr(I, call, {}, false, env)
               == "<!--list-->" + Html(I, body, {}, false, "", env + Bindings(I, params, item, 0, Value(I, list, env))) + "<!--/list-->"
  {
    hide Html, Emit, Bindings, IsVoid, IsRawText, IsComponent;
    var items := I.items(Value(I, list, env));
    var body := Element(tag, [], [Container(Plain(js))]);
    var one := env[ParamName(params) := items[0]];
    assert items[1..] == [];
    BodyIsFine(tag, js);
    EmitEvaluates(I, body, {}, false, "", one);
    var join := MapJoin(list, ParamName(params), Emit(body, {}, false, ""));
    Marked(I, "<!--list-->", join, "<!--/list-->", env);
    var here := Html(I, body, {}, false, "", one);
    EvalMapOne(I, Emit(body, {}, false, ""), ParamName(params), items, env);
    var full := Html(I, body, {}, false, "", env + Bindings(I, params, items[0], 0, Value(I, list, env)));
    assert full + "" == full;
    assert HtmlItems(I, body, {}, params, Value(I, list, env), items, 0, env) == full + "";
  }

  lemma EvalMapOne(I: Interp, body: Out, param: string, items: seq<Val>, env: Env)
    requires |items| == 1
    ensures EvalMap(I, body, param, items, env) == Eval(I, body, env[param := items[0]])
  {
    assert items[1..] == [];
    assert EvalMap(I, body, param, [], env) == "";
    var here := Eval(I, body, env[param := items[0]]);
    assert EvalMap(I, body, param, items, env) == here + EvalMap(I, body, param, items[1..], env);
    assert here + "" == here;
  }

  lemma BodyIsFine(tag: string, js: Js)
    requires IsBare(tag) && !IsComponent(tag)
    ensures Fine(Element(tag, [], [Container(Plain(js))]))
  {
    var children := [Container(Plain(js))];
    assert Bare(children[0]) && Parsable(children[0]) && Kept(children[0]);
  }

  /** Whatever a callback loses is lost for good: for the simplest callback that renders an expression, the output is
      right in every environment exactly when the expression uses no name beyond the first parameter. */
  lemma LostNamesShow(list: Js, params: seq<Param>, tag: string, js: Js)
    requires IsBare(tag) && !IsComponent(tag) && !IsVoid(tag) && !IsRawText(tag) && Distinct(params)
    ensures var call := MapCall(list, list, params, Some(Element(tag, [], [Container(Plain(js))])));
      LostNames(params) !! js.free <==>
        forall I, env :: Eval(I, EmitExpr(call, {}, false), env) == HtmlExpr(I, call, {}, false, env)
  {
    hide Eval, EmitExpr, HtmlExpr, LostNames, Distinct;
    if LostNames(params) !! js.free {
      NothingLost(list, params, tag, js);
    } else {
      var n :| n in LostNames(params) && n in js.free;
      OneLost(n, list, params, tag, js);
    }
  }

  lemma NothingLost(list: Js, params: seq<Param>, tag: string, js: Js)
    requires IsBare(tag) && !IsComponent(tag) && !IsVoid(tag) && !IsRawText(tag) && Distinct(params)
    requires LostNames(params) !! js.free
    ensures var call := MapCall(list, list, params, Some(Element(tag, [], [Container(Plain(js))])));
      forall I, env :: Eval(I, EmitExpr(call, {}, false), env) == HtmlExpr(I, call, {}, false, env)
  {
    hide Eval, EmitExpr, HtmlExpr;
    var call := MapCall(list, list, params, Some(Element(tag, [], [Container(Plain(js))])));
    BodyIsFine(tag, js);
    BodyFree(tag, js);
    forall I, env ensures Eval(I, EmitExpr(call, {}, false), env) == HtmlExpr(I, call, {}, false, env) {
      EmitExprEvaluates(I, call, {}, false, env);
    }
  }

  lemma OneLost(n: string, list: Js, params: seq<Param>, tag: string, js: Js)
    requires IsBare(tag) && !IsComponent(tag) && !IsVoid(tag) && !IsRawText(tag) && Distinct(params)
    requires n in LostNames(params) && n in js.free
    ensures var call := MapCall(list, list, params, Some(Element(tag, [], [Container(Plain(js))])));
      Eval(Telling(n), EmitExpr(call, {}, false), map[n := 3]) != HtmlExpr(Telling(n), call, {}, false, map[n := 3])
  {
    hide Eval, EmitExpr, HtmlExpr, Html, LostNames, Distinct, Bindings, IsBare;
    var body := Element(tag, [], [Container(Plain(js))]);
    var I, env := Telling(n), map[n := 3];
    var v := Value(I, list, env);
    var code, full := env[ParamName(params) := 1], env + Bindings(I, params, 1, 0, v);
    TellingDiffers(n, list, params, js);
    OneItem(I, list, params, tag, js, env);
    ItemHtml(I, tag, js, code);
    ItemHtml(I, tag, js, full);
    assert |Html(I, body, {}, false, "", code)| != |Html(I, body, {}, false, "", full)|;
  }

  lemma BodyFree(tag: string, js: Js)
    requires !IsComponent(tag)
    ensures Free(Element(tag, [], [Container(Plain(js))])) <= js.free
  {
    var children := [Container(Plain(js))];
    assert children[1..] == [];
    assert FreeExpr(Plain(js)) == js.free;
    assert Free(children[0]) == js.free;
    assert FreeAll([]) == {};
    assert FreeAll(children) == Free(children[0]) + FreeAll(children[1..]);
  }

  /** A runtime that shows the value of one name. */
  ghost function Telling(n: string): Interp {
    Interp((t: string, m: Env) => if n in m then m[n] + 1 else 7, v => true, v => [1],
           v => if v == 2 then "" else if v == 4 then "x" else "xx", v => "", v => "", v => "", s => 0, 0, i => 5,
           (names: seq<string>, v) => map x | x in names :: 9, (t, props) => "")
  }

  lemma TellingDiffers(n: string, list: Js, params: seq<Param>, js: Js)
    requires n in LostNames(params) && n in js.free && Distinct(params)
    ensures var I, env := Telling(n), map[n := 3];
      |I.esc(Value(I, js, env[ParamName(params) := 1]))|
      != |I.esc(Value(I, js, env + Bindings(I, params, 1, 0, Value(I, list, env))))|
  {
    hide Bindings, BoundBy;
    var I, env := Telling(n), map[n := 3];
    var lv := Value(I, list, env);
    var code, m := env[ParamName(params) := 1], Bindings(I, params, 1, 0, lv);
    TellingValue(n, js, code);
    TellingValue(n, js, env + m);
    assert lv == 4 || lv == 7;
    assert code[n] == 1 || code[n] == 3;
    BindingsBind(I, params, 1, 0, lv);
    if n in m { TellingBinds(n, params, lv); }
  }

  lemma TellingValue(n: string, js: Js, env: Env)
    requires n in js.free && n in env
    ensures Value(Telling(n), js, env) == env[n] + 1
  {
    assert n in Restrict(env, js.free);
  }

  /** The source binds a lost name to a component of the item, to the place, or to the list. */
  lemma TellingBinds(n: string, params: seq<Param>, list: Val)
    requires n in LostNames(params) && Distinct(params) && (list == 4 || list == 7)
    requires n in Bindings(Telling(n), params, 1, 0, list)
    ensures Bindings(Telling(n), params, 1, 0, list)[n] in {9, 5, 4, 7}
  {
    hide Bind, BoundBy;
    TellingBind(n, params[0], 1);
    if |params| > 1 { TellingBind(n, params[1], 5); }
    if |params| > 2 { TellingBind(n, params[2], list); }
  }

  lemma TellingBind(n: string, p: Param, v: Val)
    ensures n in Bind(Telling(n), p, v) <==> n in BoundBy(p)
    ensures n in BoundBy(p) ==> Bind(Telling(n), p, v)[n] == if p.Name? then v else 9
    ensures p.Name? && n in BoundBy(p) ==> n == p.name
  {
  }
}

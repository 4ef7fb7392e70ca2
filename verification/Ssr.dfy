/** The string generator (aot_string_transformer.rs): a JSX tree becomes a JavaScript expression that builds its HTML.
    The generated expression is a datatype, down to the raw text between the quotes of its literals; it is evaluated
    against a direct reading of the tree. */
module Ssr {
  import opened Common
  import opened JsString
  import JsxText

  // ------------------------------------------------------------------------------------------
  // The tree
  // ------------------------------------------------------------------------------------------

  /** A JavaScript expression the generator copies: its text, the names it depends on, the names that the reactivity
      detector sees in it, and the form of its outermost operator. */
  datatype Js = Js(text: string, free: set<string>, mentions: set<string>, form: Form)

  /** Or is || or ??; Loose is a conditional, an assignment or an arrow function, which may not stand before a ? without
      parentheses. */
  datatype Form = Simple | Or | Loose

  /** Other values print nothing: JSX as a value, and empty braces. */
  datatype AttrValue = NoValue | StringValue(value: string) | ExprValue(js: Js) | OtherValue(braces: bool)

  datatype Attr = Attr(name: string, value: AttrValue)

  /** A parameter of a callback: a plain name, or a pattern that binds several. */
  datatype Param = Name(name: string) | Pattern(names: seq<string>)

  datatype Node =
    | Text(raw: string)
    | Element(tag: string, attrs: seq<Attr>, children: seq<Node>)
    | Fragment(children: seq<Node>)
    | Container(expr: Expr)
    | Nothing(braces: bool)     // empty braces, or a spread child

  /** An expression in braces. A call of map has a body only where the generator finds the JSX its callback returns. */
  datatype Expr =
    | Plain(js: Js)
    | Cond(test: Js, yes: Expr, no: Expr)
    | And(left: Js, right: Expr)
    | MapCall(whole: Js, list: Js, params: seq<Param>, body: Option<Node>)
    | Jsx(whole: Js, node: Node)

  function Whole(e: Expr): Js {
    match e
    case Plain(js) => js
    case Cond(t, _, _) => t
    case And(l, _) => l
    case MapCall(w, _, _, _) => w
    case Jsx(w, _) => w
  }

  predicate IsVoid(tag: string) {
    tag in {"area", "base", "br", "col", "embed", "hr", "img", "input", "link", "meta", "param", "source", "track", "wbr"}
  }

  predicate IsRawText(tag: string) { tag == "script" || tag == "style" }

  predicate IsUpper(c: char) { 'A' <= c <= 'Z' }

  function Lower(s: string): string { seq(|s|, i requires 0 <= i < |s| => LowerChar(s[i])) }

  predicate IsBoolean(name: string) {
    Lower(name) in {"allowfullscreen", "async", "autofocus", "autoplay", "checked", "controls", "default", "defer",
                    "disabled", "formnovalidate", "hidden", "inert", "ismap", "itemscope", "loop", "multiple", "muted",
                    "nomodule", "novalidate", "open", "playsinline", "readonly", "required", "reversed", "selected"}
  }

  predicate IsSkipped(name: string) { name == "key" || name == "ref" || name == "dangerouslySetInnerHTML" }

  predicate IsComponent(tag: string) { tag != "" && IsUpper(tag[0]) }

  predicate IsEventHandler(name: string) { |name| > 2 && name[..2] == "on" && IsUpper(name[2]) }

  function HtmlName(name: string): string {
    if name == "className" then "class" else if name == "htmlFor" then "for" else name
  }

  // ------------------------------------------------------------------------------------------
  // The generated expression
  // ------------------------------------------------------------------------------------------

  /** A piece of a quoted literal: text between the quotes, or an expression spliced in by closing and reopening them. */
  datatype Piece = Raw(text: string) | Splice(e: Out)

  datatype Prop = Prop(name: string, value: PropValue)

  datatype PropValue = PropString(raw: string) | PropCode(js: Js) | PropTrue | PropHtml(e: Out)

  datatype Out =
    | Lit(raw: string)
    | Template(pieces: seq<Piece>)
    | Plus(parts: seq<Out>)
    | Esc(js: Js)
    | EscAttr(js: Js)
    | ToText(js: Js)
    | Style(js: Js)
    | Choice(test: Js, yes: Out, no: Out)
    | MapJoin(list: Js, param: string, body: Out)
    | Call(tag: string, props: seq<Prop>)

  const EMPTY := Lit("")

  function ParamName(params: seq<Param>): string {
    if params != [] && params[0].Name? then params[0].name else "_item"
  }

  /** One attribute, or none where it prints nothing. */
  function EmitAttr(a: Attr): Option<Piece> {
    if IsEventHandler(a.name) || IsSkipped(a.name) then None
    else
      var name := HtmlName(a.name);
      match a.value
      case StringValue(v) => Some(Raw(name + "=\"" + EscapeAttrValue(v) + "\""))
      case ExprValue(js) =>
        if name == "style" then Some(Splice(Template([Raw("style=\""), Splice(Style(js)), Raw("\"")])))
        else if IsBoolean(name) then Some(Splice(Choice(js, Lit(" " + name), EMPTY)))
        else Some(Splice(Template([Raw(name + "=\""), Splice(EscAttr(js)), Raw("\"")])))
      case NoValue => Some(Raw(name))
      case OtherValue(_) => None
  }

  /** The text of the attribute opens with a splice: it is a boolean attribute with an expression. */
  predicate IsLate(a: Attr) {
    !IsEventHandler(a.name) && !IsSkipped(a.name) && a.value.ExprValue?
    && HtmlName(a.name) != "style" && IsBoolean(HtmlName(a.name))
  }

  function Static(attrs: seq<Attr>): seq<Piece> {
    if attrs == [] then []
    else
      var p := EmitAttr(attrs[0]);
      (if p.Some? && !IsLate(attrs[0]) then [p.value] else []) + Static(attrs[1..])
  }

  function Late(attrs: seq<Attr>): seq<Piece> {
    if attrs == [] then []
    else
      var p := EmitAttr(attrs[0]);
      (if p.Some? && IsLate(attrs[0]) then [p.value] else []) + Late(attrs[1..])
  }

  /** Each piece with a space before it: a space for the whole list, and the spaces that join it. */
  function Spaced(pieces: seq<Piece>): seq<Piece> {
    if pieces == [] then [] else [Raw(" "), pieces[0]] + Spaced(pieces[1..])
  }

  function EmitAttrs(attrs: seq<Attr>, hydration: string): seq<Piece> {
    Spaced(Static(attrs)) + Late(attrs) + if hydration == "" then [] else [Raw(" data-v-id=\"" + hydration + "\"")]
  }

  /** The loop that assembles them: a piece goes to one of two lists, by whether its text opens with a splice. */
  method AttrsToPieces(attrs: seq<Attr>, hydration: string) returns (pieces: seq<Piece>)
    ensures pieces == EmitAttrs(attrs, hydration)
  {
    hide Static, Late, EmitAttr, IsLate, Spaced;
    var staticParts: seq<Piece>, dynamicSuffix: seq<Piece> := [], [];
    assert attrs[0..] == attrs;
    for i := 0 to |attrs|
      invariant staticParts + Static(attrs[i..]) == Static(attrs)
      invariant dynamicSuffix + Late(attrs[i..]) == Late(attrs)
    {
      AttrsStep(attrs, i);
      var result := EmitAttr(attrs[i]);
      if result.Some? {
        if IsLate(attrs[i]) {
          dynamicSuffix := dynamicSuffix + [result.value];
        } else {
          staticParts := staticParts + [result.value];
        }
      }
    }
    AttrsNone();
    assert attrs[|attrs|..] == [];
    assert staticParts == Static(attrs) && dynamicSuffix == Late(attrs);
    pieces := Spaced(staticParts) + dynamicSuffix;
    if hydration != "" {
      pieces := pieces + [Raw(" data-v-id=\"" + hydration + "\"")];
    }
  }

  lemma AttrsStep(attrs: seq<Attr>, i: nat)
    requires i < |attrs|
    ensures var p := EmitAttr(attrs[i]);
      && Static(attrs[i..]) == (if p.Some? && !IsLate(attrs[i]) then [p.value] else []) + Static(attrs[i+1..])
      && Late(attrs[i..]) == (if p.Some? && IsLate(attrs[i]) then [p.value] else []) + Late(attrs[i+1..])
  {
    assert attrs[i..][1..] == attrs[i+1..];
  }

  lemma AttrsNone()
    ensures Static([]) == [] && Late([]) == []
  {
  }

  predicate IsReactive(js: Js, reactive: set<string>) {
    exists n | n in js.mentions :: n in reactive
  }

  function Emit(node: Node, reactive: set<string>, raw: bool, hydration: string): Out
    decreases node, 1
  {
    match node
    case Text(t) => (
      var cleaned := JsxText.ServerClean(t);
      if cleaned == "" then EMPTY else Lit(EscapeStringLiteral(cleaned)))
    case Element(tag, attrs, children) =>
      if IsComponent(tag) then Call(tag, EmitProps(attrs) + ChildrenProp(EmitAll(children, {}, false)))
      else
        var open := Template([Raw("<" + tag)] + EmitAttrs(attrs, hydration) + [Raw(">")]);
        if IsVoid(tag) then open
        else Plus([open, Joined(EmitAll(children, reactive, IsRawText(tag))), Lit("</" + tag + ">")])
    case Fragment(children) => Joined(EmitAll(children, reactive, false))
    case Container(e) => EmitExpr(e, reactive, raw)
    case Nothing(_) => EMPTY
  }

  /** The parts of a list of children; empty literals are dropped. */
  function EmitAll(children: seq<Node>, reactive: set<string>, raw: bool): seq<Out>
    decreases children, 2
  {
    if children == [] then []
    else
      var first := Emit(children[0], reactive, raw, "");
      (if first == EMPTY then [] else [first]) + EmitAll(children[1..], reactive, raw)
  }

  function Joined(parts: seq<Out>): Out {
    if parts == [] then EMPTY else Plus(parts)
  }

  function ChildrenProp(parts: seq<Out>): seq<Prop> {
    if parts == [] then [] else [Prop("children", PropHtml(Plus(parts)))]
  }

  function EmitProp(a: Attr): seq<Prop> {
    match a.value
    case StringValue(v) => [Prop(a.name, PropString(EscapeStringLiteral(v)))]
    case ExprValue(js) => [Prop(a.name, PropCode(js))]
    case NoValue => [Prop(a.name, PropTrue)]
    case OtherValue(_) => []
  }

  function EmitProps(attrs: seq<Attr>): seq<Prop> {
    if attrs == [] then [] else EmitProp(attrs[0]) + EmitProps(attrs[1..])
  }

  /** An expression as a child. */
  function EmitExpr(e: Expr, reactive: set<string>, raw: bool): Out
    decreases e, 1
  {
    match e
    case Cond(_, _, _) => EmitBranch(e, reactive)
    case And(_, _) => EmitBranch(e, reactive)
    case MapCall(whole, list, params, body) =>
      if body.None? then Esc(whole)
      else Plus([Lit("<!--list-->"), MapJoin(list, ParamName(params), Emit(body.value, reactive, false, "")), Lit("<!--/list-->")])
    case _ =>
      var js := Whole(e);
      if raw then ToText(js)
      else if IsReactive(js, reactive) then Plus([Lit("<!--child-->"), Esc(js), Lit("<!--/child-->")])
      else Esc(js)
  }

  /** An expression as the branch of a conditional; a conditional is the same in both places. */
  function EmitBranch(e: Expr, reactive: set<string>): Out
    decreases e, 0
  {
    match e
    case Jsx(_, node) => Emit(node, reactive, false, "")
    case Cond(test, yes, no) =>
      Plus([Lit("<!--conditional-->"), Choice(test, EmitBranch(yes, reactive), EmitBranch(no, reactive)), Lit("<!--/conditional-->")])
    case And(left, right) =>
      Plus([Lit("<!--conditional-->"), Choice(left, EmitBranch(right, reactive), EMPTY), Lit("<!--/conditional-->")])
    case _ => Esc(Whole(e))
  }

  // ------------------------------------------------------------------------------------------
  // Evaluating the generated expression
  // ------------------------------------------------------------------------------------------

  type Val = int

  type Env = map<string, Val>

  /** Everything JavaScript, the runtime helpers and the other components decide; nothing is assumed of it, except
      that an expression depends only on the names free in it. */
  datatype Interp = Interp(
    eval: (string, Env) -> Val,
    truthy: Val -> bool,
    items: Val -> seq<Val>,
    esc: Val -> string,
    escAttr: Val -> string,
    text: Val -> string,
    style: Val -> string,
    literal: string -> Val,
    yes: Val,
    index: nat -> Val,
    destructure: (seq<string>, Val) -> Env,
    call: (string, seq<(string, Val)>) -> string)

  ghost function Value(I: Interp, js: Js, env: Env): Val {
    I.eval(js.text, Restrict(env, js.free))
  }

  /** A character of a name; other letters than those of ASCII count. */
  predicate IsNameChar(c: char) {
    'a' <= c <= 'z' || 'A' <= c <= 'Z' || '0' <= c <= '9' || c == '_' || c == '$' || c >= '\U{0080}'
  }

  /** A key that may stand before a colon without quotes. */
  predicate IsKey(name: string) {
    name != "" && !('0' <= name[0] <= '9') && forall i | 0 <= i < |name| :: IsNameChar(name[i])
  }

  /** What may follow __ssr_ in the name of a function: names, joined by dots. */
  predicate IsCallee(tag: string) { forall i | 0 <= i < |tag| :: IsNameChar(tag[i]) || tag[i] == '.' }

  /** Whether the generated text is read as the expression: every literal can be read, every key is a name, and so is
      what is called, and every test may stand before a ? without parentheses. */
  predicate Readable(e: Out)
    decreases e, 0
  {
    match e
    case Lit(raw) => Read(raw, '\'').Some?
    case Template(pieces) => forall i | 0 <= i < |pieces| :: ReadablePiece(pieces[i])
    case Plus(parts) => forall i | 0 <= i < |parts| :: Readable(parts[i])
    case Choice(test, yes, no) => !test.form.Loose? && Readable(yes) && Readable(no)
    case MapJoin(_, _, body) => Readable(body)
    case Call(tag, props) => IsCallee(tag) && forall i | 0 <= i < |props| :: ReadableProp(props[i])
    case _ => true
  }

  predicate ReadablePiece(p: Piece)
    decreases p, 0
  {
    match p
    case Raw(text) => Read(text, '\'').Some?
    case Splice(e) => Readable(e)
  }

  predicate ReadableProp(p: Prop)
    decreases p, 0
  {
    IsKey(p.name) &&
    match p.value
    case PropString(raw) => Read(raw, '\'').Some?
    case PropHtml(e) => Readable(e)
    case _ => true
  }

  ghost function Cooked(raw: string): string {
    var r := Read(raw, '\'');
    if r.Some? then r.value else ""
  }

  ghost function Eval(I: Interp, e: Out, env: Env): string
    decreases e, 0
  {
    match e
    case Lit(raw) => Cooked(raw)
    case Template(pieces) => EvalPieces(I, pieces, env)
    case Plus(parts) => EvalAll(I, parts, env)
    case Esc(js) => I.esc(Value(I, js, env))
    case EscAttr(js) => I.escAttr(Value(I, js, env))
    case ToText(js) => I.text(Value(I, js, env))
    case Style(js) => I.style(Value(I, js, env))
    case Choice(test, yes, no) => if I.truthy(Value(I, test, env)) then Eval(I, yes, env) else Eval(I, no, env)
    case MapJoin(list, param, body) => EvalMap(I, body, param, I.items(Value(I, list, env)), env)
    case Call(tag, props) => I.call(tag, EvalProps(I, props, env))
  }

  ghost function EvalPieces(I: Interp, pieces: seq<Piece>, env: Env): string
    decreases pieces, 1
  {
    if pieces == [] then "" else EvalPiece(I, pieces[0], env) + EvalPieces(I, pieces[1..], env)
  }

  ghost function EvalPiece(I: Interp, p: Piece, env: Env): string
    decreases p, 0
  {
    match p
    case Raw(text) => Cooked(text)
    case Splice(e) => Eval(I, e, env)
  }

  ghost function EvalAll(I: Interp, parts: seq<Out>, env: Env): string
    decreases parts, 1
  {
    if parts == [] then "" else Eval(I, parts[0], env) + EvalAll(I, parts[1..], env)
  }

  ghost function EvalProps(I: Interp, props: seq<Prop>, env: Env): seq<(string, Val)>
    decreases props, 1
  {
    if props == [] then [] else [EvalProp(I, props[0], env)] + EvalProps(I, props[1..], env)
  }

  ghost function EvalProp(I: Interp, p: Prop, env: Env): (string, Val)
    decreases p, 0
  {
    (p.name,
     match p.value
     case PropString(raw) => I.literal(Cooked(raw))
     case PropCode(js) => Value(I, js, env)
     case PropTrue => I.yes
     case PropHtml(e) => I.literal(Eval(I, e, env)))
  }

  ghost function EvalMap(I: Interp, body: Out, param: string, items: seq<Val>, env: Env): string
    decreases body, 1, items
  {
    if items == [] then "" else Eval(I, body, env[param := items[0]]) + EvalMap(I, body, param, items[1..], env)
  }

  // ------------------------------------------------------------------------------------------
  // The HTML of the tree
  // ------------------------------------------------------------------------------------------

  /** An attribute of the HTML: present without a value, or with one. */
  datatype HtmlAttr = HtmlAttr(name: string, value: Option<string>)

  /** The attribute a JSX attribute stands for, if any. */
  ghost function AttrOf(I: Interp, a: Attr, env: Env): Option<HtmlAttr> {
    if IsEventHandler(a.name) || IsSkipped(a.name) then None
    else
      var name := HtmlName(a.name);
      match a.value
      case StringValue(v) => Some(HtmlAttr(name, Some(v)))
      case ExprValue(js) =>
        if name == "style" then Some(HtmlAttr(name, Some(I.style(Value(I, js, env)))))
        else if IsBoolean(name) then if I.truthy(Value(I, js, env)) then Some(HtmlAttr(name, None)) else None
        else Some(HtmlAttr(name, Some(I.escAttr(Value(I, js, env)))))
      case NoValue => Some(HtmlAttr(name, None))
      case OtherValue(_) => None
  }

  /** The attributes in source order. */
  ghost function AttrsOf(I: Interp, attrs: seq<Attr>, env: Env): seq<HtmlAttr> {
    if attrs == [] then []
    else
      var a := AttrOf(I, attrs[0], env);
      (if a.Some? then [a.value] else []) + AttrsOf(I, attrs[1..], env)
  }

  /** The attributes in the order they are written: the boolean ones with an expression go last. */
  ghost function WrittenAttrs(I: Interp, attrs: seq<Attr>, env: Env): seq<HtmlAttr> {
    AttrsOf(I, Only(attrs, false), env) + AttrsOf(I, Only(attrs, true), env)
  }

  ghost function Only(attrs: seq<Attr>, late: bool): seq<Attr> {
    if attrs == [] then [] else (if IsLate(attrs[0]) == late then [attrs[0]] else []) + Only(attrs[1..], late)
  }

  ghost function WriteAttrs(attrs: seq<HtmlAttr>): string {
    if attrs == [] then ""
    else
      " " + attrs[0].name + (if attrs[0].value.Some? then "=\"" + attrs[0].value.value + "\"" else "") + WriteAttrs(attrs[1..])
  }

  /** What a call of the callback binds for one item. */
  ghost function Bindings(I: Interp, params: seq<Param>, item: Val, i: nat, list: Val): Env {
    if params == [] then map[]
    else if |params| == 1 then Bind(I, params[0], item)
    else if |params| == 2 then Bind(I, params[0], item) + Bind(I, params[1], I.index(i))
    else Bind(I, params[0], item) + Bind(I, params[1], I.index(i)) + Bind(I, params[2], list)
  }

  ghost function Bind(I: Interp, p: Param, v: Val): Env {
    match p
    case Name(n) => map[n := v]
    case Pattern(names) =>
      var m := I.destructure(names, v);
      map n | n in names :: if n in m then m[n] else v
  }

  ghost function Html(I: Interp, node: Node, reactive: set<string>, raw: bool, hydration: string, env: Env): string
    decreases node, 1
  {
    match node
    case Text(t) => JsxText.ServerClean(t)
    case Element(tag, attrs, children) =>
      if IsComponent(tag) then
        I.call(tag, PropsOf(I, attrs, env) +
          if RendersNothing(children) then [] else [("children", I.literal(HtmlAll(I, children, {}, false, env)))])
      else
        "<" + tag + WriteAttrs(WrittenAttrs(I, attrs, env))
        + (if hydration == "" then "" else " data-v-id=\"" + hydration + "\"") + ">"
        + if IsVoid(tag) then "" else HtmlAll(I, children, reactive, IsRawText(tag), env) + "</" + tag + ">"
    case Fragment(children) => HtmlAll(I, children, reactive, false, env)
    case Container(e) => HtmlExpr(I, e, reactive, raw, env)
    case Nothing(_) => ""
  }

  ghost function HtmlAll(I: Interp, children: seq<Node>, reactive: set<string>, raw: bool, env: Env): string
    decreases children, 2
  {
    if children == [] then ""
    else Html(I, children[0], reactive, raw, "", env) + HtmlAll(I, children[1..], reactive, raw, env)
  }

  /** No child leaves anything to render, whatever the environment. */
  ghost predicate RendersNothing(children: seq<Node>)
    decreases children, 2
  {
    forall i | 0 <= i < |children| :: NeverRenders(children[i])
  }

  ghost predicate NeverRenders(node: Node)
    decreases node, 1
  {
    match node
    case Text(t) => JsxText.ServerClean(t) == ""
    case Element(_, _, _) => false
    case Fragment(children) => RendersNothing(children)
    case Container(e) => false
    case Nothing(_) => true
  }

  ghost function PropOf(I: Interp, a: Attr, env: Env): seq<(string, Val)> {
    match a.value
    case StringValue(v) => [(a.name, I.literal(v))]
    case ExprValue(js) => [(a.name, Value(I, js, env))]
    case NoValue => [(a.name, I.yes)]
    case OtherValue(_) => []
  }

  ghost function PropsOf(I: Interp, attrs: seq<Attr>, env: Env): seq<(string, Val)> {
    if attrs == [] then [] else PropOf(I, attrs[0], env) + PropsOf(I, attrs[1..], env)
  }

  ghost function HtmlExpr(I: Interp, e: Expr, reactive: set<string>, raw: bool, env: Env): string
    decreases e, 1
  {
    match e
    case Cond(_, _, _) => HtmlBranch(I, e, reactive, env)
    case And(_, _) => HtmlBranch(I, e, reactive, env)
    case MapCall(whole, list, params, body) =>
      if body.None? then I.esc(Value(I, whole, env))
      else
        "<!--list-->" + HtmlItems(I, body.value, reactive, params, Value(I, list, env), I.items(Value(I, list, env)), 0, env)
        + "<!--/list-->"
    case Plain(js) => HtmlValue(I, js, reactive, raw, env)
    case Jsx(whole, _) => HtmlValue(I, whole, reactive, raw, env)
  }

  ghost function HtmlValue(I: Interp, js: Js, reactive: set<string>, raw: bool, env: Env): string {
    var v := Value(I, js, env);
    if raw then I.text(v)
    else if js.mentions !! reactive then I.esc(v)
    else "<!--child-->" + I.esc(v) + "<!--/child-->"
  }

  /** The items from the given place on, each rendered with all the parameters of the callback bound. */
  ghost function HtmlItems(I: Interp, body: Node, reactive: set<string>, params: seq<Param>, list: Val,
                           items: seq<Val>, i: nat, env: Env): string
    decreases body, 2, items
  {
    if items == [] then ""
    else
      Html(I, body, reactive, false, "", env + Bindings(I, params, items[0], i, list))
      + HtmlItems(I, body, reactive, params, list, items[1..], i + 1, env)
  }

  ghost function HtmlBranch(I: Interp, e: Expr, reactive: set<string>, env: Env): string
    decreases e, 0
  {
    match e
    case Jsx(_, node) => Html(I, node, reactive, false, "", env)
    case Cond(test, yes, no) =>
      "<!--conditional-->"
      + (if I.truthy(Value(I, test, env)) then HtmlBranch(I, yes, reactive, env) else HtmlBranch(I, no, reactive, env))
      + "<!--/conditional-->"
    case And(left, right) =>
      "<!--conditional-->" + (if I.truthy(Value(I, left, env)) then HtmlBranch(I, right, reactive, env) else "")
      + "<!--/conditional-->"
    case MapCall(whole, _, _, _) => I.esc(Value(I, whole, env))
    case Plain(js) => I.esc(Value(I, js, env))
  }
}

/** The DOM generator (jsx_transformer.rs): a JSX tree becomes a program that builds it, with variables from a counter.
    The program is a datatype; running it is compared with a direct reading of the tree. */
module Dom {
  import opened Common
  import opened JsString
  import JsxText
  import opened DomKeys

  // ------------------------------------------------------------------------------------------
  // The tree
  // ------------------------------------------------------------------------------------------

  /** An expression that the generator copies: its text, the names it uses, and the outermost JSX in it, in the order of
      the text. */
  datatype Js = Js(text: string, free: set<string>, holds: seq<Held>)

  /** inCallback: a function encloses it that is not inside a call of map. The collector takes such JSX for a root of its
      own if it comes by; it does not enter JSX that is inside other JSX. */
  datatype Held = Held(node: Node, inCallback: bool)

  /** literal and reactive are what the generator finds out about an expression by looking at its text. Markup is JSX that
      stands for a value without braces around it. */
  datatype Attr =
    | Static(name: string, value: string)
    | Expression(name: string, js: Js, literal: bool, reactive: bool, shape: Shape)
    | Shorthand(name: string)
    | Spread(js: Js)
    | Markup(name: string, node: Node)

  datatype Node =
    | Text(raw: string)
    | Element(tag: string, attrs: seq<Attr>, children: seq<Node>)
    | Component(tag: string, attrs: seq<Attr>, children: seq<Node>)
    | Fragment(children: seq<Node>)
    | Braces(expr: Expr)
    | Nothing                    // empty braces, or a spread child

  /** Mapped is a call of map with an arrow function whose first parameter is a plain name; others are the names that its
      further parameters bind, and index says that the second is a plain name: the first of the others. */
  datatype Expr =
    | Plain(js: Js, literal: bool, reactive: bool)
    | Cond(test: Js, yes: Branch, no: Branch)
    | And(test: Js, yes: Branch)
    | Mapped(list: Js, item: string, others: seq<Identifier>, index: bool, body: Body)

  /** What stands beside a ? : or &&. Around is an expression with a conditional somewhere inside it: perhaps in a callback
      as above, perhaps in JSX. */
  datatype Branch =
    | Jsx(node: Node)
    | Other(js: Js)
    | Inner(test: Js, yes: Branch, no: Branch)
    | Around(js: Js, inCallback: bool, inJsx: bool, test: Js, yes: Branch, no: Branch)

  /** What a callback of map has for a body. Block declares the names in locals and returns its node; js is the text around
      the node. Buried is an expression, or other statements, with JSX somewhere inside: node is the first, and js the text
      around it. kept says that a statement of the body is a const with a plain name and a value. The key of Buried is that
      of the first element that is the expression or is returned, if it has one. */
  datatype Body =
    | Whole(node: Node)
    | Block(js: Js, locals: seq<string>, kept: bool, node: Node)
    | Buried(js: Js, locals: seq<string>, kept: bool, key: Option<Key>, node: Node)
    | Without(js: Js)

  /** An attribute's expression, copied and as it is written. */
  datatype Key = Key(js: Js, shape: Shape)

  predicate Absent(n: Node) { n.Nothing? || (n.Text? && JsxText.ClientClean(n.raw) == "") }

  predicate AllAbsent(children: seq<Node>) { forall i | 0 <= i < |children| :: Absent(children[i]) }

  // ------------------------------------------------------------------------------------------
  // The generated program
  // ------------------------------------------------------------------------------------------

  /** What is left of an expression in the generated text; clean says that no JSX is left in it. */
  datatype Copy = Copy(js: Js, clean: bool) | Lost

  /** A setting of an attribute; the literals are quoted text. */
  datatype AttrCode =
    | SetAttribute(name: string, value: string)
    | AssignProperty(name: string, flag: bool)          // el.name = true, or = ""
    | AssignReference(js: Copy, shape: Shape)
    | On(event: string, js: Copy)
    | LiveAttribute(name: string, js: Copy)
    | LiveProperty(name: string, js: Copy)
    | GuardedStyle(js: Copy)
    | GuardedProperty(name: string, js: Copy)
    | GuardedAttribute(name: string, js: Copy)
    | SpreadInto(js: Copy)

  /** parts are the programs that stand in the text for the JSX of the expression. */
  datatype Prop = PropText(name: string, value: string) | PropCode(name: string, js: Copy, getter: bool, parts: seq<Code>)
                | PropTrue(name: string) | PropSpread(js: Copy)

  datatype Code =
    | Closure(body: seq<Stmt>, result: nat)
    | StaticText(text: string)
    | Child(js: Copy)
    | Conditional(test: Copy, yes: Code, no: Code)
    | ListValue(list: Copy, key: Option<KeyFn>, item: string, render: Code)      // the render function has one parameter
    | Keeping(js: Copy, locals: seq<string>, only: bool, part: Code)              // a body's text with part for its first JSX
    | Raw(js: Copy)
    | Null
    | Call(tag: string, props: seq<Prop>, children: seq<Code>)     // no children: no such property

  /** The key function of a list: its parameters are the item and perhaps the index. */
  datatype KeyFn = KeyFn(index: Option<Identifier>, text: string)

  datatype Stmt =
    | NewElement(v: nat, tag: string)
    | NewFragment(v: nat)
    | Set(v: nat, setting: AttrCode)
    | Enter(v: nat)
    | Exit
    | Append(v: nat, code: Code)
    | Insert(v: nat, js: Copy)
    | ListInto(v: nat, list: Copy, key: Option<KeyFn>, item: string, render: Code)

  // ------------------------------------------------------------------------------------------
  // The generator
  // ------------------------------------------------------------------------------------------

  function DomName(name: string): string { if name == "className" then "class" else name }

  predicate IsProperty(tag: string, name: string) {
    if tag == "input" then name == "value" || name == "checked"
    else if tag == "select" || tag == "textarea" then name == "value"
    else false
  }

  predicate IsListener(name: string) { |name| > 2 && name[..2] == "on" }

  function EventName(name: string): string
    requires IsListener(name)
  {
    [LowerChar(name[2])] + name[3..]
  }

  /** How the text of a piece of the tree is copied. Collecting: it belongs to a root, and the JSX in callbacks has been
      replaced by its own program. Copying: the collector did not enter it. Blanked: it has itself been replaced by its
      own program as a root, and reading a part of its text gives nothing: see MagicString.OverwrittenSliceIsEmpty. */
  datatype Mode = Collecting | Copying | Blanked

  function Deeper(mode: Mode): Mode { if mode.Collecting? then Copying else mode }

  /** JSX in the value of a component's property is generated anew, after its own program has replaced it. */
  function HeldMode(h: Held, mode: Mode): Mode { if mode.Collecting? && h.inCallback then Blanked else Deeper(mode) }

  function ChildMode(n: Node, mode: Mode): Mode { if n.Braces? then mode else Deeper(mode) }

  function CopyOf(js: Js, mode: Mode): Copy {
    match mode
    case Collecting => Copy(js, forall h <- js.holds :: h.inCallback)
    case Copying => Copy(js, js.holds == [])
    case Blanked => Lost
  }

  function EmitAttr(tag: string, a: Attr, mode: Mode): Option<AttrCode> {
    match a
    case Spread(js) => Some(SpreadInto(CopyOf(js, mode)))
    case Static(raw, value) =>
      if raw == "key" then None else Some(SetAttribute(JsonQuote(DomName(raw)), JsonQuote(value)))
    case Markup(_, _) => None
    case Shorthand(raw) =>
      if raw == "key" then None
      else
        var name := DomName(raw);
        if IsProperty(tag, name) then Some(AssignProperty(name, name == "checked"))
        else Some(SetAttribute(JsonQuote(name), JsonQuote("")))
    case Expression(raw, js, literal, reactive, shape) =>
      var name, copy := DomName(raw), CopyOf(js, mode);
      if raw == "key" then None
      else if name == "ref" then Some(AssignReference(copy, shape))
      else if IsListener(name) then Some(On(JsonQuote(EventName(name)), copy))
      else if IsLive(literal, reactive, mode) then
        Some(if IsProperty(tag, name) then LiveProperty(JsonQuote(name), copy) else LiveAttribute(JsonQuote(name), copy))
      else if name == "style" then Some(GuardedStyle(copy))
      else if IsProperty(tag, name) then Some(GuardedProperty(name, copy))
      else Some(GuardedAttribute(JsonQuote(name), copy))
  }

  /** A text that is lost does not look reactive. */
  predicate IsLive(literal: bool, reactive: bool, mode: Mode) { !literal && reactive && !mode.Blanked? }

  function EmitAttrs(v: nat, tag: string, attrs: seq<Attr>, mode: Mode): seq<Stmt> {
    if attrs == [] then []
    else
      var first := EmitAttr(tag, attrs[0], mode);
      (if first.Some? then [Set(v, first.value)] else []) + EmitAttrs(v, tag, attrs[1..], mode)
  }

  /** The variables a piece of the tree takes from the counter. */
  function Vars(n: Node): nat {
    match n
    case Element(_, _, children) => 1 + VarsOf(children)
    case Fragment(children) => 1 + VarsOf(children)
    case Component(_, attrs, children) => PropVars(attrs) + VarsOf(children)
    case Braces(e) => ExprVars(e)
    case _ => 0
  }

  function VarsOf(children: seq<Node>): nat {
    if children == [] then 0 else Vars(children[0]) + VarsOf(children[1..])
  }

  function PropVars(attrs: seq<Attr>): nat {
    if attrs == [] then 0 else OnePropVars(attrs[0]) + PropVars(attrs[1..])
  }

  function OnePropVars(a: Attr): nat {
    match a
    case Expression(name, js, _, _, _) => if name == "key" then 0 else HeldVars(js.holds)
    case _ => 0
  }

  function HeldVars(holds: seq<Held>): nat {
    if holds == [] then 0 else OneHeldVars(holds[0]) + HeldVars(holds[1..])
  }

  function OneHeldVars(h: Held): nat { Vars(h.node) }

  function ExprVars(e: Expr): nat {
    match e
    case Plain(_, _, _) => 0
    case Cond(_, yes, no) => BranchVars(yes) + BranchVars(no)
    case And(_, yes) => BranchVars(yes)
    case Mapped(_, _, _, _, body) => BodyVars(body)
  }

  function BodyVars(body: Body): nat {
    match body
    case Whole(n) => Vars(n)
    case Block(_, _, _, n) => Vars(n)
    case Buried(_, _, _, _, n) => Vars(n)
    case Without(_) => 0
  }

  function BranchVars(b: Branch): nat {
    match b
    case Jsx(n) => Vars(n)
    case Other(_) => 0
    case Inner(_, yes, no) => BranchVars(yes) + BranchVars(no)
    case Around(_, _, _, _, yes, no) => BranchVars(yes) + BranchVars(no)
  }

  /** The code whose value is the node, with its variables numbered from c. */
  function Emit(n: Node, c: nat, mode: Mode): Code
    decreases n, 0
  {
    match n
    case Text(raw) => StaticText(JsonQuote(JsxText.ClientClean(raw)))
    case Element(tag, attrs, children) =>
      var inside := EmitChildren(children, c, c + 1, mode);
      Closure([NewElement(c, JsonQuote(tag))] + EmitAttrs(c, tag, attrs, mode)
              + (if AllAbsent(children) then [] else [Enter(c)] + inside + [Exit]), c)
    case Fragment(children) => Closure([NewFragment(c)] + EmitChildren(children, c, c + 1, mode), c)
    case Component(tag, attrs, children) =>
      Call(tag, EmitProps(attrs, c, mode), EmitValues(children, c + PropVars(attrs), mode))
    case Braces(e) => EmitExpr(e, c, mode)
    case Nothing => Null
  }

  function EmitProps(attrs: seq<Attr>, c: nat, mode: Mode): seq<Prop>
    decreases attrs, 0
  {
    if attrs == [] then [] else EmitProp(attrs[0], c, mode) + EmitProps(attrs[1..], c + OnePropVars(attrs[0]), mode)
  }

  function EmitProp(a: Attr, c: nat, mode: Mode): seq<Prop>
    decreases a, 0
  {
    match a
    case Spread(js) => [PropSpread(CopyOf(js, mode))]
    case Markup(_, _) => []
    case Static(name, value) => if name == "key" then [] else [PropText(name, JsonQuote(value))]
    case Shorthand(name) => if name == "key" then [] else [PropTrue(name)]
    case Expression(name, js, literal, _, _) =>
      if name == "key" then [] else [PropCode(name, Gaps(js, mode), !literal, EmitParts(js.holds, c, mode))]
  }

  /** The text around the JSX of a property's value. */
  function Gaps(js: Js, mode: Mode): Copy { if mode.Blanked? then Lost else Copy(js, true) }

  function EmitParts(holds: seq<Held>, c: nat, mode: Mode): seq<Code>
    decreases holds, 0
  {
    if holds == [] then []
    else [EmitPart(holds[0], c, mode)] + EmitParts(holds[1..], c + Vars(holds[0].node), mode)
  }

  function EmitPart(h: Held, c: nat, mode: Mode): Code
    decreases h, 0
  {
    Emit(h.node, c, HeldMode(h, mode))
  }

  /** A component's children are values, not statements. */
  function EmitValues(children: seq<Node>, c: nat, mode: Mode): seq<Code>
    decreases children, 0
  {
    if children == [] then []
    else (if Absent(children[0]) then [] else [Emit(children[0], c, ChildMode(children[0], mode))])
         + EmitValues(children[1..], c + Vars(children[0]), mode)
  }

  function EmitChildren(children: seq<Node>, parent: nat, c: nat, mode: Mode): seq<Stmt>
    decreases children, 0
  {
    if children == [] then []
    else EmitChild(children[0], parent, c, mode) + EmitChildren(children[1..], parent, c + Vars(children[0]), mode)
  }

  predicate IsInserted(n: Node, mode: Mode) { n.Braces? && n.expr.Plain? && !IsLive(n.expr.literal, n.expr.reactive, mode) }

  function EmitChild(n: Node, parent: nat, c: nat, mode: Mode): seq<Stmt>
    decreases n, 1
  {
    if Absent(n) then []
    else if IsInserted(n, mode) then [Insert(parent, CopyOf(n.expr.js, mode))]
    else if n.Braces? && n.expr.Mapped? then
      var key := EmitKey(BodyKey(n.expr.body), IndexOf(n.expr.others, n.expr.index));
      [ListInto(parent, CopyOf(n.expr.list, mode), key, n.expr.item, EmitBody(n.expr.body, c, mode))]
    else [Append(parent, Emit(n, c, ChildMode(n, mode)))]
  }

  function EmitExpr(e: Expr, c: nat, mode: Mode): Code
    decreases e, 0
  {
    match e
    case Plain(js, literal, reactive) => if IsLive(literal, reactive, mode) then Child(CopyOf(js, mode)) else Raw(CopyOf(js, mode))
    case Cond(test, yes, no) =>
      Conditional(CopyOf(test, mode), EmitBranch(yes, c, mode, Deeper(mode)), EmitBranch(no, c + BranchVars(yes), mode, Deeper(mode)))
    case And(test, yes) => Conditional(CopyOf(test, mode), EmitBranch(yes, c, mode, Deeper(mode)), Null)
    case Mapped(list, item, others, index, body) =>
      ListValue(CopyOf(list, mode), EmitKey(BodyKey(body), IndexOf(others, index)), item, EmitBody(body, c, mode))
  }

  // The key of the rows

  function IndexOf(others: seq<Identifier>, index: bool): Option<Identifier> {
    if index && others != [] then Some(others[0]) else None
  }

  /** The first attribute of that name that has an expression. */
  function KeyIn(attrs: seq<Attr>): Option<Key> {
    if attrs == [] then None
    else if attrs[0].Expression? && attrs[0].name == "key" then Some(Key(attrs[0].js, attrs[0].shape))
    else KeyIn(attrs[1..])
  }

  function BodyKey(body: Body): Option<Key> {
    match body
    case Whole(n) => NodeKey(n)
    case Block(_, _, _, n) => NodeKey(n)
    case Buried(_, _, _, key, _) => key
    case Without(_) => None
  }

  function NodeKey(n: Node): Option<Key> { if n.Element? || n.Component? then KeyIn(n.attrs) else None }

  /** The key is printed as it is written. */
  function EmitKey(key: Option<Key>, index: Option<Identifier>): Option<KeyFn> {
    if key.None? then None
    else
      var text := FormatExprText(key.value.shape);
      Some(KeyFn(if index.Some? && References(text, index.value) then index else None, text))
  }

  /** The first JSX in the callback is all that is rendered, unless a constant with a plain name is declared around it. */
  function EmitBody(body: Body, c: nat, mode: Mode): Code
    decreases body, 0
  {
    match body
    case Whole(n) => Emit(n, c, Deeper(mode))
    case Block(js, locals, kept, n) =>
      var part := Emit(n, c, Deeper(mode)); if kept then Keeping(CopyOf(js, mode), locals, true, part) else part
    case Buried(js, locals, kept, _, n) =>
      var part := Emit(n, c, Deeper(mode)); if kept then Keeping(CopyOf(js, mode), locals, false, part) else part
    case Without(js) => Raw(CopyOf(js, mode))
  }

  /** jsx is the mode of the JSX in the branch. */
  function EmitBranch(b: Branch, c: nat, mode: Mode, jsx: Mode): Code
    decreases b, 0
  {
    match b
    case Jsx(n) => Emit(n, c, jsx)
    case Other(js) => Raw(CopyOf(js, mode))
    case Inner(test, yes, no) =>
      Conditional(CopyOf(test, mode), EmitBranch(yes, c, mode, jsx), EmitBranch(no, c + BranchVars(yes), mode, jsx))
    case Around(_, inCallback, inJsx, test, yes, no) =>
      var jsx' := BuriedMode(inCallback, mode, jsx);
      var mode' := if inJsx then jsx' else mode;
      Conditional(CopyOf(test, mode'), EmitBranch(yes, c, mode', jsx'), EmitBranch(no, c + BranchVars(yes), mode', jsx'))
  }

  /** JSX in a callback has been replaced by its own program before the branch is generated. */
  function BuriedMode(inCallback: bool, mode: Mode, jsx: Mode): Mode { if mode.Collecting? && inCallback then Blanked else jsx }

  /** The generator's state: the counter that every call of it draws from. */
  class Generator {
    var counter: nat

    constructor ()
      ensures counter == 0
    {
      counter := 0;
    }

    method GenVar() returns (v: nat)
      modifies this
      ensures v == old(counter) && counter == old(counter) + 1
    {
      v := counter;
      counter := counter + 1;
    }

    method TransformElement(n: Node, mode: Mode) returns (code: Code)
      requires n.Element?
      modifies this
      ensures code == Emit(n, old(counter), mode) && counter == old(counter) + Vars(n)
      decreases n, 0
    {
      hide EmitAttr, EmitChildren, EmitProps, EmitValues, EmitExpr, VarsOf, PropVars, ExprVars, Absent, JsonQuote;
      var v := GenVar();
      var stmts := [NewElement(v, JsonQuote(n.tag))];
      assert n.attrs[0..] == n.attrs;
      for i := 0 to |n.attrs|
        invariant counter == v + 1
        invariant stmts + EmitAttrs(v, n.tag, n.attrs[i..], mode)
               == [NewElement(v, JsonQuote(n.tag))] + EmitAttrs(v, n.tag, n.attrs, mode)
      {
        var code := EmitAttr(n.tag, n.attrs[i], mode);
        assert n.attrs[i..][1..] == n.attrs[i+1..];
        Regroup(stmts, if code.Some? then [Set(v, code.value)] else [], EmitAttrs(v, n.tag, n.attrs[i+1..], mode));
        if code.Some? {
          stmts := stmts + [Set(v, code.value)];
        }
      }
      ghost var head := stmts;
      var hasChildren := !AllAbsent(n.children);
      if hasChildren {
        stmts := stmts + [Enter(v)];
      }
      var inside := TransformChildren(n.children, v, mode);
      stmts := stmts + inside;
      if hasChildren {
        stmts := stmts + [Exit];
        Regroup4(head, [Enter(v)], inside, [Exit]);
      } else {
        NothingToDo(n.children, v, v + 1, mode);
      }
      code := Closure(stmts, v);
    }

    method TransformFragment(n: Node, mode: Mode) returns (code: Code)
      requires n.Fragment?
      modifies this
      ensures code == Emit(n, old(counter), mode) && counter == old(counter) + Vars(n)
      decreases n, 0
    {
      var v := GenVar();
      var stmts := [NewFragment(v)];
      var inside := TransformChildren(n.children, v, mode);
      code := Closure(stmts + inside, v);
    }

    /** The loop over the children of an element or a fragment. */
    method TransformChildren(children: seq<Node>, parent: nat, mode: Mode) returns (stmts: seq<Stmt>)
      modifies this
      ensures stmts == EmitChildren(children, parent, old(counter), mode) && counter == old(counter) + VarsOf(children)
      decreases children, 0
    {
      hide EmitChildren, EmitChild, VarsOf, Vars;
      stmts := [];
      ghost var c0 := counter;
      assert children[0..] == children && children[|children|..] == [];
      for i := 0 to |children|
        invariant counter >= c0 && counter + VarsOf(children[i..]) == c0 + VarsOf(children)
        invariant stmts + EmitChildren(children[i..], parent, counter, mode) == EmitChildren(children, parent, c0, mode)
      {
        ghost var c := counter;
        ChildrenStep(children, parent, i, c, mode);
        var stmt := TransformChild(children[i], parent, mode);
        Regroup(stmts, stmt, EmitChildren(children[i+1..], parent, counter, mode));
        stmts := stmts + stmt;
      }
      NoChildren(parent, counter, mode);
    }

    method TransformComponent(n: Node, mode: Mode) returns (code: Code)
      requires n.Component?
      modifies this
      ensures code == Emit(n, old(counter), mode) && counter == old(counter) + Vars(n)
      decreases n, 0
    {
      hide EmitProps, EmitProp, EmitValues, PropVars, OnePropVars, VarsOf;
      var props := [];
      ghost var c0 := counter;
      assert n.attrs[0..] == n.attrs && n.attrs[|n.attrs|..] == [];
      for i := 0 to |n.attrs|
        invariant counter >= c0 && counter + PropVars(n.attrs[i..]) == c0 + PropVars(n.attrs)
        invariant props + EmitProps(n.attrs[i..], counter, mode) == EmitProps(n.attrs, c0, mode)
      {
        PropsStep(n.attrs, i, counter, mode);
        ghost var c := counter;
        var prop := TransformProp(n.attrs[i], mode);
        Regroup(props, prop, EmitProps(n.attrs[i+1..], counter, mode));
        props := props + prop;
      }
      NoProps(counter, mode);
      var values := BuildChildrenThunk(n.children, mode);
      code := Call(n.tag, props, values);
    }

    method TransformProp(a: Attr, mode: Mode) returns (prop: seq<Prop>)
      modifies this
      ensures prop == EmitProp(a, old(counter), mode) && counter == old(counter) + OnePropVars(a)
      decreases a, 0
    {
      match a
      case Spread(js) => prop := [PropSpread(CopyOf(js, mode))];
      case Markup(_, _) => prop := [];
      case Static(name, value) => prop := if name == "key" then [] else [PropText(name, JsonQuote(value))];
      case Shorthand(name) => prop := if name == "key" then [] else [PropTrue(name)];
      case Expression(name, js, literal, _, _) =>
        if name == "key" {
          return [];
        }
        var parts := SliceWithTransformedJsx(js, mode);
        prop := [PropCode(name, Gaps(js, mode), !literal, parts)];
    }

    /** The JSX in the value of a property, each with its code, in the order of the text. */
    method SliceWithTransformedJsx(js: Js, mode: Mode) returns (parts: seq<Code>)
      modifies this
      ensures parts == EmitParts(js.holds, old(counter), mode) && counter == old(counter) + HeldVars(js.holds)
      decreases js, 0
    {
      hide EmitParts, HeldVars, Emit, Vars;
      parts := [];
      ghost var c0 := counter;
      assert js.holds[0..] == js.holds && js.holds[|js.holds|..] == [];
      for i := 0 to |js.holds|
        invariant counter >= c0 && counter + HeldVars(js.holds[i..]) == c0 + HeldVars(js.holds)
        invariant parts + EmitParts(js.holds[i..], counter, mode) == EmitParts(js.holds, c0, mode)
      {
        PartsStep(js.holds, i, counter, mode);
        var part := TransformValue(js.holds[i].node, HeldMode(js.holds[i], mode));
        Regroup(parts, [part], EmitParts(js.holds[i+1..], counter, mode));
        parts := parts + [part];
      }
      NoParts(counter, mode);
    }

    /** The values that a component's children property computes. */
    method BuildChildrenThunk(children: seq<Node>, mode: Mode) returns (values: seq<Code>)
      modifies this
      ensures values == EmitValues(children, old(counter), mode) && counter == old(counter) + VarsOf(children)
      decreases children, 0
    {
      hide EmitValues, Emit, VarsOf, Vars;
      values := [];
      ghost var c0 := counter;
      assert children[0..] == children && children[|children|..] == [];
      for i := 0 to |children|
        invariant counter >= c0 && counter + VarsOf(children[i..]) == c0 + VarsOf(children)
        invariant values + EmitValues(children[i..], counter, mode) == EmitValues(children, c0, mode)
      {
        ValuesStep(children, i, counter, mode);
        ghost var was, c := values, counter;
        if Absent(children[i]) {
          AbsentTakesNothing(children[i]);
        } else {
          var value := TransformValue(children[i], ChildMode(children[i], mode));
          values := values + [value];
        }
        Regroup(was, if Absent(children[i]) then [] else [Emit(children[i], c, ChildMode(children[i], mode))],
                EmitValues(children[i+1..], counter, mode));
      }
      NoChildren(0, counter, mode);
    }

    method TransformChild(n: Node, parent: nat, mode: Mode) returns (stmt: seq<Stmt>)
      modifies this
      ensures stmt == EmitChild(n, parent, old(counter), mode) && counter == old(counter) + Vars(n)
      decreases n, 2
    {
      if Absent(n) {
        return [];
      }
      if n.Braces? && n.expr.Plain? && !IsLive(n.expr.literal, n.expr.reactive, mode) {
        return [Insert(parent, CopyOf(n.expr.js, mode))];
      }
      if n.Braces? && n.expr.Mapped? {
        var key := BuildKeyFn(BodyKey(n.expr.body), IndexOf(n.expr.others, n.expr.index));
        var render := TransformBody(n.expr.body, mode);
        return [ListInto(parent, CopyOf(n.expr.list, mode), key, n.expr.item, render)];
      }
      var code := TransformValue(n, ChildMode(n, mode));
      stmt := [Append(parent, code)];
    }

    method TransformValue(n: Node, mode: Mode) returns (code: Code)
      modifies this
      ensures code == Emit(n, old(counter), mode) && counter == old(counter) + Vars(n)
      decreases n, 1
    {
      match n
      case Text(raw) => code := StaticText(JsonQuote(JsxText.ClientClean(raw)));
      case Element(_, _, _) => code := TransformElement(n, mode);
      case Component(_, _, _) => code := TransformComponent(n, mode);
      case Fragment(_) => code := TransformFragment(n, mode);
      case Braces(Plain(js, literal, reactive)) =>
        code := if IsLive(literal, reactive, mode) then Child(CopyOf(js, mode)) else Raw(CopyOf(js, mode));
      case Braces(Cond(test, yes, no)) =>
        var whenTrue := TransformBranch(yes, mode, Deeper(mode));
        var whenFalse := TransformBranch(no, mode, Deeper(mode));
        code := Conditional(CopyOf(test, mode), whenTrue, whenFalse);
      case Braces(And(test, yes)) =>
        var whenTrue := TransformBranch(yes, mode, Deeper(mode));
        code := Conditional(CopyOf(test, mode), whenTrue, Null);
      case Braces(Mapped(list, item, others, index, body)) =>
        var key := BuildKeyFn(BodyKey(body), IndexOf(others, index));
        var render := TransformBody(body, mode);
        code := ListValue(CopyOf(list, mode), key, item, render);
      case Nothing => code := Null;
    }

    method BuildKeyFn(key: Option<Key>, index: Option<Identifier>) returns (f: Option<KeyFn>)
      ensures f == EmitKey(key, index)
    {
      if key.None? {
        return None;
      }
      var text := FormatExprText(key.value.shape);
      if index.Some? {
        var found := KeyReferencesIndex(text, index.value);
        if found {
          return Some(KeyFn(index, text));
        }
      }
      f := Some(KeyFn(None, text));
    }

    method TransformBody(body: Body, mode: Mode) returns (code: Code)
      modifies this
      ensures code == EmitBody(body, old(counter), mode) && counter == old(counter) + BodyVars(body)
      decreases body, 0
    {
      match body
      case Whole(n) => code := TransformValue(n, Deeper(mode));
      case Block(js, locals, kept, n) =>
        var part := TransformValue(n, Deeper(mode));
        code := if kept then Keeping(CopyOf(js, mode), locals, true, part) else part;
      case Buried(js, locals, kept, _, n) =>
        var part := TransformValue(n, Deeper(mode));
        code := if kept then Keeping(CopyOf(js, mode), locals, false, part) else part;
      case Without(js) => code := Raw(CopyOf(js, mode));
    }

    method TransformBranch(b: Branch, mode: Mode, jsx: Mode) returns (code: Code)
      modifies this
      ensures code == EmitBranch(b, old(counter), mode, jsx) && counter == old(counter) + BranchVars(b)
      decreases b, 0
    {
      match b
      case Jsx(n) => code := TransformValue(n, jsx);
      case Other(js) => code := Raw(CopyOf(js, mode));
      case Inner(test, yes, no) =>
        var whenTrue := TransformBranch(yes, mode, jsx);
        var whenFalse := TransformBranch(no, mode, jsx);
        code := Conditional(CopyOf(test, mode), whenTrue, whenFalse);
      case Around(_, inCallback, inJsx, test, yes, no) =>
        var jsx' := BuriedMode(inCallback, mode, jsx);
        var mode' := if inJsx then jsx' else mode;
        var whenTrue := TransformBranch(yes, mode', jsx');
        var whenFalse := TransformBranch(no, mode', jsx');
        code := Conditional(CopyOf(test, mode'), whenTrue, whenFalse);
    }
  }

  lemma ChildrenStep(children: seq<Node>, parent: nat, i: nat, c: nat, mode: Mode)
    requires i < |children|
    ensures VarsOf(children[i..]) == Vars(children[i]) + VarsOf(children[i+1..])
    ensures EmitChildren(children[i..], parent, c, mode)
         == EmitChild(children[i], parent, c, mode) + EmitChildren(children[i+1..], parent, c + Vars(children[i]), mode)
  {
    hide Vars, Emit, EmitChild;
    assert children[i..][1..] == children[i+1..];
  }

  lemma NoChildren(parent: nat, c: nat, mode: Mode)
    ensures VarsOf([]) == 0 && EmitChildren([], parent, c, mode) == [] && EmitValues([], c, mode) == []
  {
  }

  lemma AbsentTakesNothing(n: Node)
    requires Absent(n)
    ensures Vars(n) == 0
  {
  }

  lemma ValuesStep(children: seq<Node>, i: nat, c: nat, mode: Mode)
    requires i < |children|
    ensures VarsOf(children[i..]) == Vars(children[i]) + VarsOf(children[i+1..])
    ensures EmitValues(children[i..], c, mode)
         == (if Absent(children[i]) then [] else [Emit(children[i], c, ChildMode(children[i], mode))])
            + EmitValues(children[i+1..], c + Vars(children[i]), mode)
  {
    hide Vars, Emit, EmitChild;
    assert children[i..][1..] == children[i+1..];
  }

  lemma PropsStep(attrs: seq<Attr>, i: nat, c: nat, mode: Mode)
    requires i < |attrs|
    ensures PropVars(attrs[i..]) == OnePropVars(attrs[i]) + PropVars(attrs[i+1..])
    ensures EmitProps(attrs[i..], c, mode)
         == EmitProp(attrs[i], c, mode) + EmitProps(attrs[i+1..], c + OnePropVars(attrs[i]), mode)
  {
    hide OnePropVars, EmitProp;
    assert attrs[i..][1..] == attrs[i+1..];
  }

  lemma NoProps(c: nat, mode: Mode)
    ensures PropVars([]) == 0 && EmitProps([], c, mode) == []
  {
  }

  lemma PartsStep(holds: seq<Held>, i: nat, c: nat, mode: Mode)
    requires i < |holds|
    ensures HeldVars(holds[i..]) == Vars(holds[i].node) + HeldVars(holds[i+1..])
    ensures EmitParts(holds[i..], c, mode)
         == [EmitPart(holds[i], c, mode)] + EmitParts(holds[i+1..], c + Vars(holds[i].node), mode)
  {
    hide Vars, Emit;
    assert holds[i..][1..] == holds[i+1..];
  }

  lemma NoParts(c: nat, mode: Mode)
    ensures HeldVars([]) == 0 && EmitParts([], c, mode) == []
  {
  }

  lemma {:induction false} NothingToDo(children: seq<Node>, parent: nat, c: nat, mode: Mode)
    requires AllAbsent(children)
    ensures EmitChildren(children, parent, c, mode) == []
  {
    if children != [] { NothingToDo(children[1..], parent, c + Vars(children[0]), mode); }
  }
}

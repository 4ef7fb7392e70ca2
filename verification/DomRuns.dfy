/** Running the program of the DOM generator, and the tree that it builds.

    A program runs against variables, the names that callbacks have bound, and the stack of elements whose children are
    being made. The tree it builds keeps the identity of each element and the element that was on top of the stack when
    a part was made. */
module DomRuns {
  import opened Common
  import opened JsString
  import JsxText
  import opened DomKeys
  import opened Dom

  // ------------------------------------------------------------------------------------------
  // Running the program
  // ------------------------------------------------------------------------------------------

  datatype Value = Nil | False | True | Object(id: int) | Printed(text: string)

  /** The names that callbacks bind, and an expression with what it sees of them. */
  type Scope = map<string, int>

  /** Gone is where an expression should be. */
  datatype Closed = Closed(text: string, seen: Scope) | Gone

  ghost function Close(js: Js, sc: Scope): Closed { Closed(js.text, Restrict(sc, js.free)) }

  ghost function See(copy: Copy, sc: Scope): Closed { if copy.Lost? then Gone else Close(copy.js, sc) }

  /** What the expressions of the source evaluate to, whether the tests hold, the items of a list, what a callback is given
      besides its item in a row of the list, what statements give the names they declare, and how an object prints. */
  datatype World = World(value: Closed -> Value, truth: Closed -> bool, items: Closed -> seq<int>, given: (nat, string) -> int,
                         local: (Closed, string) -> int, style: int -> string, textOf: int -> string)

  /** What is seen behind statements that declare names. */
  ghost function Within(sc: Scope, statements: Closed, locals: seq<string>, w: World): Scope {
    sc + (map x | x in locals :: w.local(statements, x))
  }

  datatype Setting =
    | Attribute(name: string, text: string)
    | Property(name: string, value: Value)
    | Listener(event: string, js: Closed)
    | Reference(js: Closed)
    | Bound(name: string, property: bool, js: Closed)
    | SpreadOf(js: Closed)
    | HoldsMarkup(name: string)

  /** A property of a component; a live one is computed anew at each use. parts is what the JSX in its value shows when it is made where the component is made. */
  datatype Passed<T> = PassedText(name: string, text: string) | PassedCode(name: string, js: Closed, live: bool, parts: seq<T>)
                     | PassedTrue(name: string) | PassedSpread(js: Closed) | PassedMarkup(name: string, shown: T)

  /** What a program builds. An element carries the variable it was bound to; under is the element on top of the
      children stack when a thing was made. */
  datatype Tree =
    | Elem(id: nat, tag: string, settings: seq<Setting>, children: seq<Tree>, under: Option<nat>)
    | Frag(children: seq<Tree>)
    | Words(text: string, under: Option<nat>)
    | Hole(js: Closed, live: bool, under: Option<nat>)      // live: it follows what it depends on
    | Region(shown: Tree, under: Option<nat>)
    | Rows(keys: seq<Closed>, rows: seq<Tree>, under: Option<nat>)      // no keys without a key function
    | Holding(js: Closed, part: Tree, under: Option<nat>)
    | Made(tag: string, props: seq<Passed<Tree>>, children: seq<Tree>, under: Option<nat>)
    | Blank

  /** The variables in scope, what callbacks have bound, and the children stack. */
  datatype Machine = Machine(vars: map<nat, Tree>, scope: Scope, stack: seq<nat>) {
    function Top(): Option<nat> { if stack == [] then None else Some(stack[|stack|-1]) }
  }

  datatype Result = Result(tree: Tree, stack: seq<nat>)

  /** A quoted literal, read by section 12.9.4 of ECMA-262. */
  function ReadQuoted(q: string): Option<string> {
    if |q| >= 2 && q[0] == '"' && q[|q|-1] == '"' then Read(q[1..|q|-1], '"') else None
  }

  /** An assignment that null and false leave undone. */
  function Guarded(name: string, v: Value, asText: int -> string): seq<Setting> {
    match v
    case Nil => []
    case False => []
    case True => [Attribute(name, "")]
    case Object(id) => [Attribute(name, asText(id))]
    case Printed(text) => [Attribute(name, text)]
  }

  ghost function Settings(code: AttrCode, sc: Scope, w: World): Option<seq<Setting>> {
    match code
    case SetAttribute(q, value) =>
      var name, text := ReadQuoted(q), ReadQuoted(value);
      if name.Some? && text.Some? then Some([Attribute(name.value, text.value)]) else None
    case AssignProperty(name, flag) => Some([Property(name, if flag then True else Printed(""))])
    case AssignReference(js, _) => Some([Reference(See(js, sc))])
    case On(q, js) => if ReadQuoted(q).Some? then Some([Listener(ReadQuoted(q).value, See(js, sc))]) else None
    case LiveAttribute(q, js) => if ReadQuoted(q).Some? then Some([Bound(ReadQuoted(q).value, false, See(js, sc))]) else None
    case LiveProperty(q, js) => if ReadQuoted(q).Some? then Some([Bound(ReadQuoted(q).value, true, See(js, sc))]) else None
    case GuardedStyle(js) => Some(Guarded("style", w.value(See(js, sc)), w.style))
    case GuardedProperty(name, js) => Some(if w.value(See(js, sc)).Nil? then [] else [Property(name, w.value(See(js, sc)))])
    case GuardedAttribute(q, js) =>
      if ReadQuoted(q).Some? then Some(Guarded(ReadQuoted(q).value, w.value(See(js, sc)), w.textOf)) else None
    case SpreadInto(js) => Some([SpreadOf(See(js, sc))])
  }

  ghost function Pass(p: Prop, m: Machine, w: World): Option<Passed<Tree>>
    decreases p, 0
  {
    match p
    case PropText(name, q) => if ReadQuoted(q).Some? then Some(PassedText(name, ReadQuoted(q).value)) else None
    case PropCode(name, js, getter, parts) =>
      var trees := RunAll(parts, m, w);
      if trees.Some? then Some(PassedCode(name, See(js, m.scope), getter, trees.value)) else None
    case PropTrue(name) => Some(PassedTrue(name))
    case PropSpread(js) => Some(PassedSpread(See(js, m.scope)))
  }

  ghost function PassAll(props: seq<Prop>, m: Machine, w: World): Option<seq<Passed<Tree>>>
    decreases props, 0
  {
    if props == [] then Some([])
    else
      var first, rest := Pass(props[0], m, w), PassAll(props[1..], m, w);
      if first.Some? && rest.Some? then Some([first.value] + rest.value) else None
  }

  /** Appending a fragment moves its children. */
  function Spliced(t: Tree): seq<Tree> { if t.Frag? then t.children else [t] }

  function Adopt(parent: Tree, more: seq<Tree>): Tree {
    match parent
    case Elem(id, tag, settings, children, under) => Elem(id, tag, settings, children + more, under)
    case Frag(children) => Frag(children + more)
    case _ => parent
  }

  /** The value of a piece of code, and the children stack after it; none where it would throw. */
  ghost function Run(code: Code, m: Machine, w: World): Option<Result>
    decreases code, 0
  {
    match code
    case Closure(body, v) =>
      var done := Exec(body, m, w);
      if done.Some? && v in done.value.vars then Some(Result(done.value.vars[v], done.value.stack)) else None
    case StaticText(q) =>
      var text := ReadQuoted(q);
      if text.Some? then Some(Result(Words(text.value, m.Top()), m.stack)) else None
    case Child(js) => Some(Result(Hole(See(js, m.scope), true, m.Top()), m.stack))
    case Keeping(js, locals, only, part) =>
      var t := Run(part, m.(scope := Within(m.scope, See(js, m.scope), locals, w)), w);
      if t.None? then None
      else if only then t
      else Some(Result(Holding(See(js, m.scope), t.value.tree, m.Top()), t.value.stack))
    case Raw(js) => Some(Result(Hole(See(js, m.scope), false, m.Top()), m.stack))
    case Null => Some(Result(Blank, m.stack))
    case Conditional(test, yes, no) =>
      var shown := Run(if w.truth(See(test, m.scope)) then yes else no, m, w);
      if shown.Some? then Some(Result(Region(shown.value.tree, m.Top()), shown.value.stack)) else None
    case ListValue(list, key, item, render) =>
      var items := w.items(See(list, m.scope));
      var rows := RunRows(render, item, items, m, w);
      if rows.Some? then Some(Result(Rows(RunKeys(key, item, items, 0, m.scope, w), rows.value, m.Top()), m.stack)) else None
    case Call(tag, props, children) =>
      var passed := PassAll(props, m, w);
      var trees := RunAll(children, m, w);
      if passed.Some? && trees.Some? then Some(Result(Made(tag, passed.value, trees.value, m.Top()), m.stack)) else None
  }

  /** The key function, called with each item and its place in the list. It stands outside of the callback. */
  ghost function RunKeys(key: Option<KeyFn>, item: string, items: seq<int>, i: nat, sc: Scope, w: World): seq<Closed> {
    if key.None? || items == [] then []
    else [RunKey(key.value, item, items[0], i, sc, w)] + RunKeys(key, item, items[1..], i + 1, sc, w)
  }

  ghost function RunKey(key: KeyFn, item: string, v: int, i: nat, sc: Scope, w: World): Closed {
    var inner := if key.index.None? then sc[item := v] else sc[item := v][key.index.value := w.given(i, key.index.value)];
    Closed(key.text, Restrict(inner, {FirstName(key.text)}))
  }

  /** The render function, called with each item in turn. */
  ghost function RunRows(render: Code, item: string, items: seq<int>, m: Machine, w: World): Option<seq<Tree>>
    decreases render, 1, |items|
  {
    if items == [] then Some([])
    else
      var first := Run(render, m.(scope := m.scope[item := items[0]]), w);
      var rest := RunRows(render, item, items[1..], m, w);
      if first.Some? && rest.Some? && first.value.stack == m.stack then Some([first.value.tree] + rest.value) else None
  }

  /** The children of a component, each of which must leave the stack as it found it. */
  ghost function RunAll(codes: seq<Code>, m: Machine, w: World): Option<seq<Tree>>
    decreases codes, 0
  {
    if codes == [] then Some([])
    else
      var first, rest := Run(codes[0], m, w), RunAll(codes[1..], m, w);
      if first.Some? && rest.Some? && first.value.stack == m.stack then Some([first.value.tree] + rest.value) else None
  }

  ghost function Exec(body: seq<Stmt>, m: Machine, w: World): Option<Machine>
    decreases body, 0
  {
    if body == [] then Some(m)
    else
      var next := Step(body[0], m, w);
      if next.Some? then Exec(body[1..], next.value, w) else None
  }

  /** A constant may be declared once; a name must be declared before it is used. What is appended must be a node. */
  ghost function Step(s: Stmt, m: Machine, w: World): Option<Machine>
    decreases s, 0
  {
    match s
    case NewElement(v, q) =>
      var tag := ReadQuoted(q);
      if v in m.vars || tag.None? then None else Some(m.(vars := m.vars[v := Elem(v, tag.value, [], [], m.Top())]))
    case NewFragment(v) =>
      if v in m.vars then None else Some(m.(vars := m.vars[v := Frag([])]))
    case Set(v, code) =>
      var more := Settings(code, m.scope, w);
      if v in m.vars && m.vars[v].Elem? && more.Some? then
        Some(m.(vars := m.vars[v := m.vars[v].(settings := m.vars[v].settings + more.value)]))
      else None
    case Enter(v) => if v in m.vars then Some(m.(stack := m.stack + [v])) else None
    case Exit => if m.stack == [] then None else Some(m.(stack := m.stack[..|m.stack|-1]))
    case Append(v, code) =>
      var t := Run(code, m, w);
      if v in m.vars && t.Some? && !code.Raw? then
        Some(Machine(m.vars[v := Adopt(m.vars[v], Spliced(t.value.tree))], m.scope, t.value.stack))
      else None
    case Insert(v, js) =>
      if v in m.vars then Some(m.(vars := m.vars[v := Adopt(m.vars[v], [Hole(See(js, m.scope), false, m.Top())])])) else None
    case ListInto(v, list, key, item, render) =>
      var items := w.items(See(list, m.scope));
      var rows := RunRows(render, item, items, m, w);
      if v in m.vars && rows.Some? then
        Some(m.(vars := m.vars[v := Adopt(m.vars[v], [Rows(RunKeys(key, item, items, 0, m.scope, w), rows.value, m.Top())])]))
      else None
  }

  // ------------------------------------------------------------------------------------------
  // The tree as it is written
  // ------------------------------------------------------------------------------------------

  /** The built tree without the identities of its elements and the record of the stack. */
  datatype View =
    | Tag(tag: string, settings: seq<Setting>, children: seq<View>)
    | Group(children: seq<View>)
    | Letters(text: string)
    | Slot(js: Closed, live: bool)
    | Switch(shown: View)
    | Lines(keys: seq<Closed>, rows: seq<View>)
    | Kept(js: Closed, part: View)
    | Use(tag: string, props: seq<Passed<View>>, children: seq<View>)
    | Empty

  function Erase(t: Tree): View
    decreases t, 0
  {
    match t
    case Elem(_, tag, settings, children, _) => Tag(tag, settings, EraseAll(children))
    case Frag(children) => Group(EraseAll(children))
    case Words(text, _) => Letters(text)
    case Hole(js, live, _) => Slot(js, live)
    case Region(shown, _) => Switch(Erase(shown))
    case Rows(keys, rows, _) => Lines(keys, EraseAll(rows))
    case Holding(js, part, _) => Kept(js, Erase(part))
    case Made(tag, props, children, _) => Use(tag, EraseProps(props), EraseAll(children))
    case Blank => Empty
  }

  function EraseAll(ts: seq<Tree>): seq<View>
    decreases ts, 0
  {
    if ts == [] then [] else [Erase(ts[0])] + EraseAll(ts[1..])
  }

  function EraseProp(p: Passed<Tree>): Passed<View>
    decreases p, 0
  {
    match p
    case PassedText(name, text) => PassedText(name, text)
    case PassedCode(name, js, live, parts) => PassedCode(name, js, live, EraseAll(parts))
    case PassedTrue(name) => PassedTrue(name)
    case PassedSpread(js) => PassedSpread(js)
    case PassedMarkup(name, shown) => PassedMarkup(name, Erase(shown))
  }

  function EraseProps(props: seq<Passed<Tree>>): seq<Passed<View>>
    decreases props, 0
  {
    if props == [] then [] else [EraseProp(props[0])] + EraseProps(props[1..])
  }

  ghost function Seen(js: Js, gone: bool, sc: Scope): Closed { if gone then Gone else Close(js, sc) }

  /** What one attribute asks for; gone where the text of its expression is lost. */
  ghost function Meaning(tag: string, a: Attr, gone: bool, sc: Scope, w: World): seq<Setting> {
    if !a.Spread? && a.name == "key" then [] else
    match a
    case Markup(_, _) => []
    case Static(name, value) => [Attribute(DomName(name), value)]
    case Shorthand(raw) =>
      var name := DomName(raw);
      if IsProperty(tag, name) then [Property(name, if name == "checked" then True else Printed(""))] else [Attribute(name, "")]
    case Spread(js) => [SpreadOf(Seen(js, gone, sc))]
    case Expression(raw, js, literal, reactive, _) =>
      var name, seen := DomName(raw), Seen(js, gone, sc);
      if name == "ref" then [Reference(seen)]
      else if IsListener(name) then [Listener(EventName(name), seen)]
      else if reactive && !literal && !gone then [Bound(name, IsProperty(tag, name), seen)]
      else if IsProperty(tag, name) then (if w.value(seen).Nil? then [] else [Property(name, w.value(seen))])
      else Guarded(name, w.value(seen), if name == "style" then w.style else w.textOf)
  }

  ghost function Meanings(tag: string, attrs: seq<Attr>, gone: bool, sc: Scope, w: World): seq<Setting> {
    if attrs == [] then [] else Meaning(tag, attrs[0], gone, sc, w) + Meanings(tag, attrs[1..], gone, sc, w)
  }

  /** What the attributes of the source ask for. */
  ghost function Wanted(tag: string, attrs: seq<Attr>, sc: Scope, w: World): seq<Setting> {
    if attrs == [] then [] else WantedBy(tag, attrs[0], sc, w) + Wanted(tag, attrs[1..], sc, w)
  }

  ghost function WantedBy(tag: string, a: Attr, sc: Scope, w: World): seq<Setting> {
    match a
    case Spread(js) => [SpreadOf(Close(js, sc))]
    case Static(name, value) => if name == "key" then [] else [Attribute(if name == "className" then "class" else name, value)]
    case Markup(name, _) => if name == "key" then [] else [HoldsMarkup(if name == "className" then "class" else name)]
    case Shorthand(name) =>
      if name == "key" then []
      else if tag == "input" && name == "checked" then [Property("checked", True)]
      else if tag in {"input", "select", "textarea"} && name == "value" then [Property("value", Printed(""))]
      else [Attribute(if name == "className" then "class" else name, "")]
    case Expression(name, js, literal, reactive, _) =>
      var e := Close(js, sc);
      var property := (tag in {"input", "select", "textarea"} && name == "value") || (tag == "input" && name == "checked");
      if name == "key" then []
      else if name == "ref" then [Reference(e)]
      else if |name| > 2 && name[0] == 'o' && name[1] == 'n' then [Listener([LowerChar(name[2])] + name[3..], e)]
      else if reactive && !literal then [Bound(if name == "className" then "class" else name, property, e)]
      else if property then (if w.value(e) == Nil then [] else [Property(name, w.value(e))])
      else Written(if name == "className" then "class" else name, w.value(e), if name == "style" then w.style else w.textOf)
  }

  /** Null and false set nothing, and true sets the empty text. */
  ghost function Written(name: string, v: Value, asText: int -> string): seq<Setting> {
    match v
    case Nil => []
    case False => []
    case True => [Attribute(name, "")]
    case Printed(text) => [Attribute(name, text)]
    case Object(id) => [Attribute(name, asText(id))]
  }

  ghost function Meant(n: Node, sc: Scope, w: World): View
    decreases n, 0
  {
    match n
    case Text(raw) => Letters(JsxText.ClientClean(raw))
    case Element(tag, attrs, children) => Tag(tag, Wanted(tag, attrs, sc, w), MeantInside(children, sc, w))
    case Fragment(children) => Group(MeantInside(children, sc, w))
    case Component(tag, attrs, children) => Use(tag, MeantProps(attrs, sc, w), MeantValues(children, sc, w))
    case Braces(e) => MeantExpr(e, sc, w)
    case Nothing => Empty
  }

  ghost function MeantProps(attrs: seq<Attr>, sc: Scope, w: World): seq<Passed<View>>
    decreases attrs, 0
  {
    if attrs == [] then [] else MeantProp(attrs[0], sc, w) + MeantProps(attrs[1..], sc, w)
  }

  ghost function MeantProp(a: Attr, sc: Scope, w: World): seq<Passed<View>>
    decreases a, 0
  {
    match a
    case Spread(js) => [PassedSpread(Close(js, sc))]
    case Static(name, value) => if name == "key" then [] else [PassedText(name, value)]
    case Shorthand(name) => if name == "key" then [] else [PassedTrue(name)]
    case Markup(name, n) => if name == "key" then [] else [PassedMarkup(name, Meant(n, sc, w))]
    case Expression(name, js, literal, _, _) => if name == "key" then [] else [PassedCode(name, Close(js, sc), !literal, MeantParts(js.holds, sc, w))]
  }

  ghost function MeantParts(holds: seq<Held>, sc: Scope, w: World): seq<View>
    decreases holds, 0
  {
    if holds == [] then [] else [MeantPart(holds[0], sc, w)] + MeantParts(holds[1..], sc, w)
  }

  ghost function MeantPart(h: Held, sc: Scope, w: World): View
    decreases h, 0
  {
    Meant(h.node, sc, w)
  }

  ghost function MeantExpr(e: Expr, sc: Scope, w: World): View
    decreases e, 0
  {
    match e
    case Plain(js, literal, reactive) => Slot(Close(js, sc), reactive && !literal)
    case Cond(test, yes, no) => Switch(if w.truth(Close(test, sc)) then MeantBranch(yes, sc, w) else MeantBranch(no, sc, w))
    case And(test, yes) => Switch(if w.truth(Close(test, sc)) then MeantBranch(yes, sc, w) else Empty)
    case Mapped(list, item, others, _, body) =>
      var items := w.items(Close(list, sc));
      Lines(MeantKeys(body, item, others, items, 0, sc, w), MeantRows(body, item, others, items, 0, sc, w))
  }

  /** A callback sees its item and what else it is given. */
  ghost function Inside(item: string, others: seq<string>, v: int, i: nat, sc: Scope, w: World): Scope {
    sc[item := v] + (map x | x in others :: w.given(i, x))
  }

  ghost function MeantRows(body: Body, item: string, others: seq<string>, items: seq<int>, i: nat, sc: Scope, w: World): seq<View>
    decreases body, 1, |items|
  {
    if items == [] then []
    else [MeantBody(body, Inside(item, others, items[0], i, sc, w), w)] + MeantRows(body, item, others, items[1..], i + 1, sc, w)
  }

  /** A key is an expression of the callback: it sees what the callback declares. */
  ghost function MeantKeys(body: Body, item: string, others: seq<string>, items: seq<int>, i: nat, sc: Scope, w: World): seq<Closed>
    decreases |items|
  {
    if BodyKey(body).None? || items == [] then []
    else [Close(BodyKey(body).value.js, ScopeIn(body, Inside(item, others, items[0], i, sc, w), w))]
         + MeantKeys(body, item, others, items[1..], i + 1, sc, w)
  }

  ghost function ScopeIn(body: Body, sc: Scope, w: World): Scope {
    match body
    case Block(js, locals, _, _) => Within(sc, Close(js, sc), locals, w)
    case Buried(js, locals, _, _, _) => Within(sc, Close(js, sc), locals, w)
    case _ => sc
  }

  ghost function MeantBody(body: Body, sc: Scope, w: World): View
    decreases body, 0
  {
    match body
    case Whole(n) => Meant(n, sc, w)
    case Block(_, _, _, n) => Meant(n, ScopeIn(body, sc, w), w)
    case Buried(js, _, _, _, n) => Kept(Close(js, sc), Meant(n, ScopeIn(body, sc, w), w))
    case Without(js) => Slot(Close(js, sc), false)
  }

  /** Children in order, with the children of a fragment in its place. */
  ghost function MeantInside(children: seq<Node>, sc: Scope, w: World): seq<View>
    decreases children, 0
  {
    if children == [] then [] else MeantHead(children[0], sc, w) + MeantInside(children[1..], sc, w)
  }

  /** What a child contributes to its parent. Only empty braces and a text of which cleaning leaves nothing are nothing. */
  ghost function MeantHead(n: Node, sc: Scope, w: World): seq<View>
    decreases n, 1
  {
    match n
    case Text(raw) => if JsxText.ClientClean(raw) == "" then [] else [Letters(JsxText.ClientClean(raw))]
    case Nothing => []
    case Fragment(children) => MeantInside(children, sc, w)
    case _ => [Meant(n, sc, w)]
  }

  ghost function MeantValues(children: seq<Node>, sc: Scope, w: World): seq<View>
    decreases children, 0
  {
    if children == [] then [] else MeantValue(children[0], sc, w) + MeantValues(children[1..], sc, w)
  }

  ghost function MeantValue(n: Node, sc: Scope, w: World): seq<View>
    decreases n, 1
  {
    match n
    case Text(raw) => if JsxText.ClientClean(raw) == "" then [] else [Letters(JsxText.ClientClean(raw))]
    case Nothing => []
    case _ => [Meant(n, sc, w)]
  }

  ghost function MeantBranch(b: Branch, sc: Scope, w: World): View
    decreases b, 0
  {
    match b
    case Jsx(n) => Meant(n, sc, w)
    case Other(js) => Slot(Close(js, sc), false)
    case Inner(test, yes, no) => Switch(if w.truth(Close(test, sc)) then MeantBranch(yes, sc, w) else MeantBranch(no, sc, w))
    case Around(js, _, _, _, _, _) => Slot(Close(js, sc), false)
  }

  /** Every part was made while the element that encloses it was on top of the children stack. */
  ghost predicate Nested(t: Tree, top: Option<nat>)
    decreases t, 0
  {
    match t
    case Elem(id, _, _, children, under) => under == top && AllNested(children, Some(id))
    case Frag(children) => AllNested(children, top)
    case Words(_, under) => under == top
    case Hole(_, _, under) => under == top
    case Region(shown, under) => under == top && Nested(shown, top)
    case Rows(_, rows, under) => under == top && AllNested(rows, top)
    case Holding(_, part, under) => under == top && Nested(part, top)
    case Made(_, props, children, under) => under == top && PropsNested(props, top) && AllNested(children, top)
    case Blank => true
  }

  ghost predicate AllNested(ts: seq<Tree>, top: Option<nat>)
    decreases ts, 0
  {
    forall t <- ts :: Nested(t, top)
  }

  ghost predicate PropNested(p: Passed<Tree>, top: Option<nat>)
    decreases p, 0
  {
    p.PassedCode? ==> AllNested(p.parts, top)
  }

  ghost predicate PropsNested(props: seq<Passed<Tree>>, top: Option<nat>)
    decreases props, 0
  {
    forall p <- props :: PropNested(p, top)
  }

  // ------------------------------------------------------------------------------------------
  // What the emitted program builds, with identities and the stack
  // ------------------------------------------------------------------------------------------

  ghost function Built(n: Node, c: nat, mode: Mode, top: Option<nat>, sc: Scope, w: World): Tree
    decreases n, 0
  {
    match n
    case Text(raw) => Words(JsxText.ClientClean(raw), top)
    case Element(tag, attrs, children) =>
      Elem(c, tag, Meanings(tag, attrs, mode.Blanked?, sc, w), BuiltInside(children, c + 1, mode, Some(c), sc, w), top)
    case Fragment(children) => Frag(BuiltInside(children, c + 1, mode, top, sc, w))
    case Component(tag, attrs, children) =>
      Made(tag, BuiltProps(attrs, c, mode, top, sc, w), BuiltValues(children, c + PropVars(attrs), mode, top, sc, w), top)
    case Braces(e) => BuiltExpr(e, c, mode, top, sc, w)
    case Nothing => Blank
  }

  ghost function BuiltProps(attrs: seq<Attr>, c: nat, mode: Mode, top: Option<nat>, sc: Scope, w: World): seq<Passed<Tree>>
    decreases attrs, 0
  {
    if attrs == [] then []
    else BuiltProp(attrs[0], c, mode, top, sc, w) + BuiltProps(attrs[1..], c + OnePropVars(attrs[0]), mode, top, sc, w)
  }

  ghost function BuiltProp(a: Attr, c: nat, mode: Mode, top: Option<nat>, sc: Scope, w: World): seq<Passed<Tree>>
    decreases a, 0
  {
    match a
    case Spread(js) => [PassedSpread(Seen(js, mode.Blanked?, sc))]
    case Static(name, value) => if name == "key" then [] else [PassedText(name, value)]
    case Shorthand(name) => if name == "key" then [] else [PassedTrue(name)]
    case Markup(_, _) => []
    case Expression(name, js, literal, _, _) =>
      if name == "key" then [] else [PassedCode(name, Seen(js, mode.Blanked?, sc), !literal, BuiltParts(js.holds, c, mode, top, sc, w))]
  }

  ghost function BuiltParts(holds: seq<Held>, c: nat, mode: Mode, top: Option<nat>, sc: Scope, w: World): seq<Tree>
    decreases holds, 0
  {
    if holds == [] then []
    else [BuiltPart(holds[0], c, mode, top, sc, w)] + BuiltParts(holds[1..], c + Vars(holds[0].node), mode, top, sc, w)
  }

  ghost function BuiltPart(h: Held, c: nat, mode: Mode, top: Option<nat>, sc: Scope, w: World): Tree
    decreases h, 0
  {
    Built(h.node, c, HeldMode(h, mode), top, sc, w)
  }

  ghost function BuiltExpr(e: Expr, c: nat, mode: Mode, top: Option<nat>, sc: Scope, w: World): Tree
    decreases e, 0
  {
    match e
    case Plain(js, literal, reactive) => Hole(Seen(js, mode.Blanked?, sc), !mode.Blanked? && !literal && reactive, top)
    case Cond(test, yes, no) =>
      Region(if w.truth(Seen(test, mode.Blanked?, sc)) then BuiltBranch(yes, c, mode, Deeper(mode), top, sc, w)
             else BuiltBranch(no, c + BranchVars(yes), mode, Deeper(mode), top, sc, w), top)
    case And(test, yes) =>
      Region(if w.truth(Seen(test, mode.Blanked?, sc)) then BuiltBranch(yes, c, mode, Deeper(mode), top, sc, w) else Blank, top)
    case Mapped(list, item, others, index, body) =>
      var items := w.items(Seen(list, mode.Blanked?, sc));
      var key := EmitKey(BodyKey(body), IndexOf(others, index));
      Rows(RunKeys(key, item, items, 0, sc, w), BuiltRows(body, item, items, c, mode, top, sc, w), top)
  }

  /** The emitted callback binds the item only. */
  ghost function BuiltRows(body: Body, item: string, items: seq<int>, c: nat, mode: Mode, top: Option<nat>, sc: Scope, w: World): seq<Tree>
    decreases body, 1, |items|
  {
    if items == [] then []
    else [BuiltBody(body, c, mode, top, sc[item := items[0]], w)] + BuiltRows(body, item, items[1..], c, mode, top, sc, w)
  }

  ghost function BuiltBody(body: Body, c: nat, mode: Mode, top: Option<nat>, sc: Scope, w: World): Tree
    decreases body, 0
  {
    match body
    case Whole(n) => Built(n, c, Deeper(mode), top, sc, w)
    case Block(js, locals, kept, n) => Built(n, c, Deeper(mode), top, if kept then Within(sc, Seen(js, mode.Blanked?, sc), locals, w) else sc, w)
    case Buried(js, locals, kept, _, n) =>
      if kept then
        var seen := Seen(js, mode.Blanked?, sc);
        Holding(seen, Built(n, c, Deeper(mode), top, Within(sc, seen, locals, w), w), top)
      else Built(n, c, Deeper(mode), top, sc, w)
    case Without(js) => Hole(Seen(js, mode.Blanked?, sc), false, top)
  }

  ghost function BuiltInside(children: seq<Node>, c: nat, mode: Mode, top: Option<nat>, sc: Scope, w: World): seq<Tree>
    decreases children, 0
  {
    if children == [] then []
    else (if Absent(children[0]) then [] else Spliced(Built(children[0], c, ChildMode(children[0], mode), top, sc, w)))
         + BuiltInside(children[1..], c + Vars(children[0]), mode, top, sc, w)
  }

  ghost function BuiltValues(children: seq<Node>, c: nat, mode: Mode, top: Option<nat>, sc: Scope, w: World): seq<Tree>
    decreases children, 0
  {
    if children == [] then []
    else (if Absent(children[0]) then [] else [Built(children[0], c, ChildMode(children[0], mode), top, sc, w)])
         + BuiltValues(children[1..], c + Vars(children[0]), mode, top, sc, w)
  }

  ghost function BuiltBranch(b: Branch, c: nat, mode: Mode, jsx: Mode, top: Option<nat>, sc: Scope, w: World): Tree
    decreases b, 0
  {
    match b
    case Jsx(n) => Built(n, c, jsx, top, sc, w)
    case Other(js) => Hole(Seen(js, mode.Blanked?, sc), false, top)
    case Inner(test, yes, no) =>
      Region(if w.truth(Seen(test, mode.Blanked?, sc)) then BuiltBranch(yes, c, mode, jsx, top, sc, w)
             else BuiltBranch(no, c + BranchVars(yes), mode, jsx, top, sc, w), top)
    case Around(_, inCallback, inJsx, test, yes, no) =>
      var jsx' := BuriedMode(inCallback, mode, jsx);
      var mode' := if inJsx then jsx' else mode;
      Region(if w.truth(Seen(test, mode'.Blanked?, sc)) then BuiltBranch(yes, c, mode', jsx', top, sc, w)
             else BuiltBranch(no, c + BranchVars(yes), mode', jsx', top, sc, w), top)
  }

  ghost predicate Below(m: Machine, c: nat) { forall v <- m.vars :: v < c }

  ghost predicate CanAdopt(m: Machine, parent: nat) {
    parent in m.vars && (m.vars[parent].Elem? || m.vars[parent].Frag?)
  }

  ghost function Adopted(m: Machine, parent: nat, more: seq<Tree>): Machine
    requires parent in m.vars
  {
    m.(vars := m.vars[parent := Adopt(m.vars[parent], more)])
  }

  lemma ReadsBack(s: string)
    ensures ReadQuoted(JsonQuote(s)) == Some(s)
  {
    JsonQuoteRoundTrip(s);
  }

  lemma CopySeen(js: Js, mode: Mode, sc: Scope)
    ensures See(CopyOf(js, mode), sc) == Seen(js, mode.Blanked?, sc)
  {
  }

  lemma SettingMeans(tag: string, a: Attr, mode: Mode, sc: Scope, w: World)
    ensures match EmitAttr(tag, a, mode)
      case None => Meaning(tag, a, mode.Blanked?, sc, w) == []
      case Some(code) => Settings(code, sc, w) == Some(Meaning(tag, a, mode.Blanked?, sc, w))
  {
    hide ReadQuoted, JsonQuote, Guarded, CopyOf, See, Seen;
    match a
    case Static(raw, value) => ReadsBack(DomName(raw)); ReadsBack(value);
    case Shorthand(raw) => ReadsBack(DomName(raw)); ReadsBack("");
    case Spread(js) => CopySeen(js, mode, sc);
    case Markup(_, _) =>
    case Expression(raw, _, _, _, _) => if raw != "key" { ExpressionMeans(tag, a, mode, sc, w); }
  }

  lemma ExpressionMeans(tag: string, a: Attr, mode: Mode, sc: Scope, w: World)
    requires a.Expression? && a.name != "key"
    ensures EmitAttr(tag, a, mode).Some?
    ensures Settings(EmitAttr(tag, a, mode).value, sc, w) == Some(Meaning(tag, a, mode.Blanked?, sc, w))
  {
    hide ReadQuoted, JsonQuote, Guarded, CopyOf, See, Seen;
    CopySeen(a.js, mode, sc);
    var name := DomName(a.name);
    ReadsBack(name);
    if IsListener(name) { ReadsBack(EventName(name)); }
  }

  lemma ExecCons(s: Stmt, rest: seq<Stmt>, m: Machine, w: World)
    ensures Exec([s] + rest, m, w) == if Step(s, m, w).Some? then Exec(rest, Step(s, m, w).value, w) else None
  {
    hide Step;
    assert ([s] + rest)[1..] == rest;
  }

  lemma {:induction false} ExecConcat(a: seq<Stmt>, b: seq<Stmt>, m: Machine, w: World)
    ensures Exec(a + b, m, w) == if Exec(a, m, w).Some? then Exec(b, Exec(a, m, w).value, w) else None
  {
    hide Step;
    if a == [] {
      assert a + b == b;
    } else {
      assert a + b == [a[0]] + (a[1..] + b) && a == [a[0]] + a[1..];
      ExecCons(a[0], a[1..] + b, m, w);
      if Step(a[0], m, w).Some? { ExecConcat(a[1..], b, Step(a[0], m, w).value, w); }
    }
  }

  lemma {:induction false} AttrsRun(v: nat, tag: string, attrs: seq<Attr>, mode: Mode, m: Machine, w: World)
    requires v in m.vars && m.vars[v].Elem?
    ensures Exec(EmitAttrs(v, tag, attrs, mode), m, w)
         == Some(m.(vars := m.vars[v := m.vars[v].(settings := m.vars[v].settings + Meanings(tag, attrs, mode.Blanked?, m.scope, w))]))
  {
    hide EmitAttr, Meaning, Settings;
    if attrs == [] {
      assert m.vars[v := m.vars[v]] == m.vars && m.vars[v].settings + [] == m.vars[v].settings;
    } else {
      var code := EmitAttr(tag, attrs[0], mode);
      SettingMeans(tag, attrs[0], mode, m.scope, w);
      Regroup(m.vars[v].settings, Meaning(tag, attrs[0], mode.Blanked?, m.scope, w), Meanings(tag, attrs[1..], mode.Blanked?, m.scope, w));
      if code.None? {
        AttrsRun(v, tag, attrs[1..], mode, m, w);
        NoPrefix(EmitAttrs(v, tag, attrs[1..], mode));
        NoPrefix(Meanings(tag, attrs[1..], mode.Blanked?, m.scope, w));
      } else {
        ExecCons(Set(v, code.value), EmitAttrs(v, tag, attrs[1..], mode), m, w);
        var el := m.vars[v].(settings := m.vars[v].settings + Meaning(tag, attrs[0], mode.Blanked?, m.scope, w));
        AttrsRun(v, tag, attrs[1..], mode, m.(vars := m.vars[v := el]), w);
        var end := el.(settings := el.settings + Meanings(tag, attrs[1..], mode.Blanked?, m.scope, w));
        assert m.vars[v := el][v := end] == m.vars[v := end];
      }
    }
  }

  lemma AdoptTwice(m: Machine, parent: nat, a: seq<Tree>, b: seq<Tree>)
    requires parent in m.vars
    ensures Adopted(Adopted(m, parent, a), parent, b) == Adopted(m, parent, a + b)
    ensures m.vars[parent].Elem? || m.vars[parent].Frag? ==> Adopted(m, parent, []) == m
  {
    var t := m.vars[parent];
    if t.Elem? || t.Frag? {
      Regroup(t.children, a, b);
      assert t.children + [] == t.children;
      assert m.vars[parent := t] == m.vars;
    }
  }

  lemma {:induction false} NothingBuilt(children: seq<Node>, c: nat, mode: Mode, top: Option<nat>, sc: Scope, w: World)
    requires AllAbsent(children)
    ensures BuiltInside(children, c, mode, top, sc, w) == []
  {
    if children != [] { NothingBuilt(children[1..], c + Vars(children[0]), mode, top, sc, w); }
  }

  lemma {:induction false} EmitRuns(n: Node, c: nat, mode: Mode, m: Machine, w: World)
    requires Below(m, c)
    ensures Run(Emit(n, c, mode), m, w) == Some(Result(Built(n, c, mode, m.Top(), m.scope, w), m.stack))
    decreases n, 1
  {
    hide EmitChildren, EmitValues, BuiltInside, BuiltValues, Exec, ReadQuoted, JsonQuote, EmitAttrs, Meanings, PassAll, EmitProps, BuiltProps;
    match n
    case Text(raw) => ReadsBack(JsxText.ClientClean(raw));
    case Element(_, _, _) => ElementRuns(n, c, mode, m, w);
    case Fragment(_) => FragmentRuns(n, c, mode, m, w);
    case Component(tag, attrs, children) => PropsRun(attrs, c, mode, m, w); ValuesRun(children, c + PropVars(attrs), mode, m, w);
    case Braces(e) => ExprRuns(e, c, mode, m, w);
    case Nothing =>
  }

  lemma {:induction false} ExprRuns(e: Expr, c: nat, mode: Mode, m: Machine, w: World)
    requires Below(m, c)
    ensures Run(EmitExpr(e, c, mode), m, w) == Some(Result(BuiltExpr(e, c, mode, m.Top(), m.scope, w), m.stack))
    decreases e, 1
  {
    hide RunRows, BuiltRows, EmitBody, EmitBranch, BuiltBranch, Close;
    match e
    case Plain(_, _, _) =>
    case Cond(test, yes, no) =>
      BranchRuns(yes, c, mode, Deeper(mode), m, w);
      BranchRuns(no, c + BranchVars(yes), mode, Deeper(mode), m, w);
      ForkRuns(test, yes, no, c, mode, Deeper(mode), m, w);
    case And(_, yes) => BranchRuns(yes, c, mode, Deeper(mode), m, w);
    case Mapped(list, item, _, _, body) => RowsRun(body, item, w.items(Seen(list, mode.Blanked?, m.scope)), c, mode, m, w);
  }

  lemma {:induction false} RowsRun(body: Body, item: string, items: seq<int>, c: nat, mode: Mode, m: Machine, w: World)
    requires Below(m, c)
    ensures RunRows(EmitBody(body, c, mode), item, items, m, w) == Some(BuiltRows(body, item, items, c, mode, m.Top(), m.scope, w))
    decreases body, 2, |items|
  {
    hide EmitBody, BuiltBody, Run;
    if items != [] {
      BodyRuns(body, c, mode, m.(scope := m.scope[item := items[0]]), w);
      RowsRun(body, item, items[1..], c, mode, m, w);
    }
  }

  lemma {:induction false} BodyRuns(body: Body, c: nat, mode: Mode, m: Machine, w: World)
    requires Below(m, c)
    ensures Run(EmitBody(body, c, mode), m, w) == Some(Result(BuiltBody(body, c, mode, m.Top(), m.scope, w), m.stack))
    decreases body, 1
  {
    hide Emit, Built, Exec;
    match body
    case Whole(n) => EmitRuns(n, c, Deeper(mode), m, w);
    case Block(js, locals, kept, n) => KeptRuns(js, locals, kept, n, c, mode, m, w);
    case Buried(js, locals, kept, _, n) => KeptRuns(js, locals, kept, n, c, mode, m, w);
    case Without(_) =>
  }

  /** The first JSX of a body, where the text around it is kept and where it is not. */
  lemma {:induction false} KeptRuns(js: Js, locals: seq<string>, kept: bool, n: Node, c: nat, mode: Mode, m: Machine, w: World)
    requires Below(m, c)
    ensures See(CopyOf(js, mode), m.scope) == Seen(js, mode.Blanked?, m.scope)
    ensures var inner := if kept then Within(m.scope, Seen(js, mode.Blanked?, m.scope), locals, w) else m.scope;
      Run(Emit(n, c, Deeper(mode)), m.(scope := inner), w) == Some(Result(Built(n, c, Deeper(mode), m.Top(), inner, w), m.stack))
    decreases n, 2
  {
    hide Emit, Built, Run, Within;
    CopySeen(js, mode, m.scope);
    var inner := if kept then Within(m.scope, Seen(js, mode.Blanked?, m.scope), locals, w) else m.scope;
    EmitRuns(n, c, Deeper(mode), m.(scope := inner), w);
  }

  lemma {:induction false} ElementRuns(n: Node, c: nat, mode: Mode, m: Machine, w: World)
    requires Below(m, c) && n.Element?
    ensures Run(Emit(n, c, mode), m, w) == Some(Result(Built(n, c, mode, m.Top(), m.scope, w), m.stack))
    decreases n, 0
  {
    hide EmitChildren, EmitAttrs, BuiltInside, Exec, ReadQuoted, JsonQuote, Meanings;
    ReadsBack(n.tag);
    var made := m.(vars := m.vars[c := Elem(c, n.tag, [], [], m.Top())]);
    var attrs := EmitAttrs(c, n.tag, n.attrs, mode);
    var inside := EmitChildren(n.children, c, c + 1, mode);
    var tail := if AllAbsent(n.children) then [] else [Enter(c)] + inside + [Exit];
    ExecCons(NewElement(c, JsonQuote(n.tag)), attrs + tail, m, w);
    Regroup([NewElement(c, JsonQuote(n.tag))], attrs, tail);
    ExecConcat(attrs, tail, made, w);
    AttrsRun(c, n.tag, n.attrs, mode, made, w);
    var done := Exec(attrs, made, w).value;
    assert done.vars[c] == Elem(c, n.tag, Meanings(n.tag, n.attrs, mode.Blanked?, m.scope, w), [], m.Top()) by {
      NoPrefix(Meanings(n.tag, n.attrs, mode.Blanked?, m.scope, w));
    }
    TailRuns(n.children, c, mode, done, w);
    NoPrefix(BuiltInside(n.children, c + 1, mode, Some(c), m.scope, w));
  }

  /** Entering an element, building its children and leaving it. */
  lemma {:induction false} TailRuns(children: seq<Node>, c: nat, mode: Mode, m: Machine, w: World)
    requires Below(m, c + 1) && CanAdopt(m, c)
    ensures var tail := if AllAbsent(children) then [] else [Enter(c)] + EmitChildren(children, c, c + 1, mode) + [Exit];
      Exec(tail, m, w) == Some(Adopted(m, c, BuiltInside(children, c + 1, mode, Some(c), m.scope, w)))
    decreases children, 1
  {
    hide EmitChildren, BuiltInside;
    if AllAbsent(children) {
      NothingBuilt(children, c + 1, mode, Some(c), m.scope, w);
      AdoptTwice(m, c, [], []);
    } else {
      var inside := EmitChildren(children, c, c + 1, mode);
      var entered := m.(stack := m.stack + [c]);
      Regroup([Enter(c)], inside, [Exit]);
      ExecCons(Enter(c), inside + [Exit], m, w);
      ExecConcat(inside, [Exit], entered, w);
      ChildrenRun(children, c, c + 1, mode, entered, w);
      ExecCons(Exit, [], Adopted(entered, c, BuiltInside(children, c + 1, mode, Some(c), m.scope, w)), w);
      assert [Exit] + [] == [Exit];
      assert (m.stack + [c])[..|m.stack|] == m.stack;
    }
  }

  lemma {:induction false} FragmentRuns(n: Node, c: nat, mode: Mode, m: Machine, w: World)
    requires Below(m, c) && n.Fragment?
    ensures Run(Emit(n, c, mode), m, w) == Some(Result(Built(n, c, mode, m.Top(), m.scope, w), m.stack))
    decreases n, 0
  {
    hide EmitChildren, BuiltInside, Exec;
    var made := m.(vars := m.vars[c := Frag([])]);
    ExecCons(NewFragment(c), EmitChildren(n.children, c, c + 1, mode), m, w);
    ChildrenRun(n.children, c, c + 1, mode, made, w);
    NoPrefix(BuiltInside(n.children, c + 1, mode, m.Top(), m.scope, w));
  }

  lemma {:induction false} ChildrenRun(children: seq<Node>, parent: nat, c: nat, mode: Mode, m: Machine, w: World)
    requires Below(m, c) && CanAdopt(m, parent)
    ensures Exec(EmitChildren(children, parent, c, mode), m, w) == Some(Adopted(m, parent, BuiltInside(children, c, mode, m.Top(), m.scope, w)))
    decreases children, 0
  {
    hide EmitChild, Built, Step, Spliced, Absent;
    AdoptTwice(m, parent, [], []);
    if children != [] {
      var first := if Absent(children[0]) then [] else Spliced(Built(children[0], c, ChildMode(children[0], mode), m.Top(), m.scope, w));
      var next := c + Vars(children[0]);
      ChildRuns(children[0], parent, c, mode, m, w);
      ExecConcat(EmitChild(children[0], parent, c, mode), EmitChildren(children[1..], parent, next, mode), m, w);
      AdoptTwice(m, parent, first, BuiltInside(children[1..], next, mode, m.Top(), m.scope, w));
      ChildrenRun(children[1..], parent, next, mode, Adopted(m, parent, first), w);
    }
  }

  lemma {:induction false} ChildRuns(n: Node, parent: nat, c: nat, mode: Mode, m: Machine, w: World)
    requires Below(m, c) && CanAdopt(m, parent)
    ensures Exec(EmitChild(n, parent, c, mode), m, w)
         == Some(Adopted(m, parent, if Absent(n) then [] else Spliced(Built(n, c, ChildMode(n, mode), m.Top(), m.scope, w))))
    decreases n, 2
  {
    hide Absent, Run, Close;
    AdoptTwice(m, parent, [], []);
    if !Absent(n) {
      var s := EmitChild(n, parent, c, mode)[0];
      assert EmitChild(n, parent, c, mode) == [s] + [];
      ExecCons(s, [], m, w);
      if !IsInserted(n, mode) {
        if n.Braces? && n.expr.Mapped? {
          RowsRun(n.expr.body, n.expr.item, w.items(Seen(n.expr.list, mode.Blanked?, m.scope)), c, mode, m, w);
        } else {
          EmitRuns(n, c, ChildMode(n, mode), m, w);
        }
      }
    }
  }

  lemma {:induction false} ValuesRun(children: seq<Node>, c: nat, mode: Mode, m: Machine, w: World)
    requires Below(m, c)
    ensures RunAll(EmitValues(children, c, mode), m, w) == Some(BuiltValues(children, c, mode, m.Top(), m.scope, w))
    decreases children, 0
  {
    hide Emit, Built, Run, Absent;
    if children != [] {
      var rest := EmitValues(children[1..], c + Vars(children[0]), mode);
      ValuesRun(children[1..], c + Vars(children[0]), mode, m, w);
      if Absent(children[0]) {
        NoPrefix(rest);
        NoPrefix(BuiltValues(children[1..], c + Vars(children[0]), mode, m.Top(), m.scope, w));
      } else {
        EmitRuns(children[0], c, ChildMode(children[0], mode), m, w);
        assert EmitValues(children, c, mode)[1..] == rest;
      }
    }
  }

  lemma {:induction false} PartsRun(holds: seq<Held>, c: nat, mode: Mode, m: Machine, w: World)
    requires Below(m, c)
    ensures RunAll(EmitParts(holds, c, mode), m, w) == Some(BuiltParts(holds, c, mode, m.Top(), m.scope, w))
    decreases holds, 0
  {
    hide Emit, Built, Run;
    if holds != [] {
      var rest := EmitParts(holds[1..], c + Vars(holds[0].node), mode);
      PartRuns(holds[0], c, mode, m, w);
      PartsRun(holds[1..], c + Vars(holds[0].node), mode, m, w);
      assert EmitParts(holds, c, mode)[1..] == rest;
    }
  }

  lemma {:induction false} PartRuns(h: Held, c: nat, mode: Mode, m: Machine, w: World)
    requires Below(m, c)
    ensures Run(EmitPart(h, c, mode), m, w) == Some(Result(BuiltPart(h, c, mode, m.Top(), m.scope, w), m.stack))
    decreases h, 0
  {
    EmitRuns(h.node, c, HeldMode(h, mode), m, w);
  }

  lemma {:induction false} PropRuns(a: Attr, c: nat, mode: Mode, m: Machine, w: World)
    requires Below(m, c)
    ensures PassAll(EmitProp(a, c, mode), m, w) == Some(BuiltProp(a, c, mode, m.Top(), m.scope, w))
    decreases a, 0
  {
    hide ReadQuoted, JsonQuote, Close;
    if a.Static? { ReadsBack(a.value); }
    if a.Expression? { PartsRun(a.js.holds, c, mode, m, w); }
    var props := EmitProp(a, c, mode);
    if props != [] {
      Solo(props[0]);
      assert PassAll([], m, w) == Some([]);
      assert Pass(props[0], m, w).Some? ==> [Pass(props[0], m, w).value] + [] == [Pass(props[0], m, w).value];
    }
  }

  lemma {:induction false} PropsRun(attrs: seq<Attr>, c: nat, mode: Mode, m: Machine, w: World)
    requires Below(m, c)
    ensures PassAll(EmitProps(attrs, c, mode), m, w) == Some(BuiltProps(attrs, c, mode, m.Top(), m.scope, w))
    decreases attrs, 0
  {
    hide EmitProp, BuiltProp, OnePropVars, PassAll;
    NothingPassed(m, w);
    if attrs != [] {
      var next := c + OnePropVars(attrs[0]);
      PropRuns(attrs[0], c, mode, m, w);
      PropsRun(attrs[1..], next, mode, m, w);
      PassConcat(EmitProp(attrs[0], c, mode), EmitProps(attrs[1..], next, mode), m, w);
    }
  }

  lemma NothingPassed(m: Machine, w: World)
    ensures PassAll([], m, w) == Some([])
  {
  }

  lemma {:induction false} PassConcat(a: seq<Prop>, b: seq<Prop>, m: Machine, w: World)
    requires PassAll(a, m, w).Some? && PassAll(b, m, w).Some?
    ensures PassAll(a + b, m, w) == Some(PassAll(a, m, w).value + PassAll(b, m, w).value)
  {
    hide Pass;
    if a == [] {
      assert a + b == b;
      NoPrefix(PassAll(b, m, w).value);
    } else {
      assert (a + b)[1..] == a[1..] + b;
      PassConcat(a[1..], b, m, w);
      Regroup([Pass(a[0], m, w).value], PassAll(a[1..], m, w).value, PassAll(b, m, w).value);
    }
  }

  lemma {:induction false} BranchRuns(b: Branch, c: nat, mode: Mode, jsx: Mode, m: Machine, w: World)
    requires Below(m, c)
    ensures Run(EmitBranch(b, c, mode, jsx), m, w) == Some(Result(BuiltBranch(b, c, mode, jsx, m.Top(), m.scope, w), m.stack))
    decreases b, 1
  {
    hide Emit, Built, Run, BuriedMode;
    match b
    case Jsx(n) => EmitRuns(n, c, jsx, m, w);
    case Other(js) => RawRuns(js, mode, m, w);
    case Inner(test, yes, no) =>
      BranchRuns(yes, c, mode, jsx, m, w);
      BranchRuns(no, c + BranchVars(yes), mode, jsx, m, w);
      ForkRuns(test, yes, no, c, mode, jsx, m, w);
    case Around(_, inCallback, inJsx, test, yes, no) =>
      var jsx' := BuriedMode(inCallback, mode, jsx);
      var mode' := if inJsx then jsx' else mode;
      BranchRuns(yes, c, mode', jsx', m, w);
      BranchRuns(no, c + BranchVars(yes), mode', jsx', m, w);
      ForkRuns(test, yes, no, c, mode', jsx', m, w);
  }

  lemma RawRuns(js: Js, mode: Mode, m: Machine, w: World)
    ensures Run(Raw(CopyOf(js, mode)), m, w) == Some(Result(Hole(Seen(js, mode.Blanked?, m.scope), false, m.Top()), m.stack))
  {
  }

  ghost predicate RunsTo(code: Code, t: Tree, m: Machine, w: World) { Run(code, m, w) == Some(Result(t, m.stack)) }

  lemma ForkRuns(test: Js, yes: Branch, no: Branch, c: nat, mode: Mode, jsx: Mode, m: Machine, w: World)
    requires RunsTo(EmitBranch(yes, c, mode, jsx), BuiltBranch(yes, c, mode, jsx, m.Top(), m.scope, w), m, w)
    requires var next := c + BranchVars(yes);
      RunsTo(EmitBranch(no, next, mode, jsx), BuiltBranch(no, next, mode, jsx, m.Top(), m.scope, w), m, w)
    ensures RunsTo(Conditional(CopyOf(test, mode), EmitBranch(yes, c, mode, jsx), EmitBranch(no, c + BranchVars(yes), mode, jsx)),
      Region(if w.truth(Seen(test, mode.Blanked?, m.scope)) then BuiltBranch(yes, c, mode, jsx, m.Top(), m.scope, w)
             else BuiltBranch(no, c + BranchVars(yes), mode, jsx, m.Top(), m.scope, w), m.Top()), m, w)
  {
    hide EmitBranch, BuiltBranch, CopyOf, See, Seen;
    CopySeen(test, mode, m.scope);
  }
}

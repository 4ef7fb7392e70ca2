/** A small JavaScript for the scope-aware rewrites: objects with shorthand properties, member access, ?? , closures,
    and function bodies of constants, if, blocks and return. A constant exists from the start of its block and may not
    be read before its declaration has run. */
module Js {
  import opened Common

  // ------------------------------------------------------------------------------------------
  // Syntax
  // ------------------------------------------------------------------------------------------

  /** Host is a value from outside the program, a function among them. */
  datatype Prim = Undefined | Null | Bool(b: bool) | Num(n: int) | Str(s: string) | Host(id: nat)

  datatype Expr =
    | Lit(p: Prim)
    | Var(name: string)
    | Get(of: Expr, field: string)
    | OrElse(left: Expr, right: Expr)                 // left ?? right
    | Obj(props: seq<Prop>)
    | Fun(params: seq<string>, body: seq<Stmt>)
    | Call(callee: Expr, args: seq<Expr>)

  datatype Prop = Pair(key: string, value: Expr) | Short(name: string)

  datatype Stmt =
    | Decl(name: string, init: Expr)
    | Do(e: Expr)
    | Return(e: Expr)
    | If(test: Expr, yes: seq<Stmt>, no: seq<Stmt>)
    | Block(body: seq<Stmt>)

  /** The constants declared directly in a list of statements. */
  function Decls(stmts: seq<Stmt>): seq<string> {
    if stmts == [] then [] else (if stmts[0].Decl? then [stmts[0].name] else []) + Decls(stmts[1..])
  }

  function ToSet(names: seq<string>): set<string> { set x | x in names }

  function Free(e: Expr): set<string>
    decreases e, 0
  {
    match e
    case Lit(_) => {}
    case Var(x) => {x}
    case Get(of, _) => Free(of)
    case OrElse(left, right) => Free(left) + Free(right)
    case Obj(props) => FreeProps(props)
    case Fun(params, body) => FreeBlock(body) - ToSet(params)
    case Call(callee, args) => Free(callee) + FreeAll(args)
  }

  function FreeAll(es: seq<Expr>): set<string>
    decreases es, 0
  {
    if es == [] then {} else Free(es[0]) + FreeAll(es[1..])
  }

  function FreeProps(props: seq<Prop>): set<string>
    decreases props, 0
  {
    if props == [] then {} else FreeProp(props[0]) + FreeProps(props[1..])
  }

  function FreeProp(p: Prop): set<string>
    decreases p, 0
  {
    match p
    case Pair(_, e) => Free(e)
    case Short(x) => {x}
  }

  /** The names that statements use, counting those that the list itself declares. */
  function FreeStmts(stmts: seq<Stmt>): set<string>
    decreases stmts, 0
  {
    if stmts == [] then {} else FreeStmt(stmts[0]) + FreeStmts(stmts[1..])
  }

  function FreeStmt(s: Stmt): set<string>
    decreases s, 0
  {
    match s
    case Decl(_, e) => Free(e)
    case Do(e) => Free(e)
    case Return(e) => Free(e)
    case If(test, yes, no) => Free(test) + FreeBlock(yes) + FreeBlock(no)
    case Block(body) => FreeBlock(body)
  }

  function FreeBlock(stmts: seq<Stmt>): set<string>
    decreases stmts, 1
  {
    FreeStmts(stmts) - ToSet(Decls(stmts))
  }

  // ------------------------------------------------------------------------------------------
  // Values
  // ------------------------------------------------------------------------------------------

  datatype Value = P(p: Prim) | Rec(fields: seq<Field>) | Clo(params: seq<string>, body: seq<Stmt>, env: Env)

  datatype Field = Field(key: string, value: Value)

  /** A parameter holds its value; a constant is a cell of the store. */
  datatype Slot = Now(value: Value) | Cell(at: nat)

  datatype Env = Base | Bind(name: string, slot: Slot, rest: Env)

  /** What can be seen of a value: all of it, except the code of its functions. */
  datatype Shape = Plain(p: Prim) | Fields(fields: seq<ShapeField>) | Function

  datatype ShapeField = ShapeField(key: string, value: Shape)

  function ShapeOf(v: Value): Shape {
    match v
    case P(p) => Plain(p)
    case Rec(fields) => Fields(ShapeFields(fields))
    case Clo(_, _, _) => Function
  }

  function ShapeFields(fields: seq<Field>): seq<ShapeField> {
    if fields == [] then [] else [ShapeField(fields[0].key, ShapeOf(fields[0].value))] + ShapeFields(fields[1..])
  }

  function ShapesOf(vs: seq<Value>): seq<Shape> {
    if vs == [] then [] else [ShapeOf(vs[0])] + ShapesOf(vs[1..])
  }

  /** A value with no function of the program in it. */
  predicate IsData(v: Value) {
    match v
    case P(_) => true
    case Rec(fields) => AreData(fields)
    case Clo(_, _, _) => false
  }

  predicate AreData(fields: seq<Field>) {
    fields == [] || (IsData(fields[0].value) && AreData(fields[1..]))
  }

  /** A call of a function of the host: it sees the shapes of its arguments. */
  datatype HostCall = HostCall(id: nat, args: seq<Shape>)

  /** The cells of all constants, and the calls of the host so far. */
  datatype Store = Store(cells: seq<Option<Value>>, calls: seq<HostCall>)

  /** The names outside every function, and the functions of the host: what a call gives back, or that it throws, may
      depend on all calls up to it. */
  datatype World = World(top: map<string, Value>, host: seq<HostCall> -> Option<Prim>)

  function Lookup(env: Env, x: string): Option<Slot> {
    match env
    case Base => None
    case Bind(y, slot, rest) => if x == y then Some(slot) else Lookup(rest, x)
  }

  function Names(env: Env): set<string> {
    match env
    case Base => {}
    case Bind(x, _, rest) => {x} + Names(rest)
  }

  // ------------------------------------------------------------------------------------------
  // Evaluation
  // ------------------------------------------------------------------------------------------

  datatype Outcome<T> = Timeout | Throws(calls: seq<HostCall>) | Ok(value: T, st: Store)

  function ReadVar(x: string, env: Env, st: Store, w: World): Option<Value> {
    match Lookup(env, x)
    case None => if x in w.top then Some(w.top[x]) else None
    case Some(Now(v)) => Some(v)
    case Some(Cell(at)) => if at < |st.cells| then st.cells[at] else None
  }

  /** The last property with the key; undefined where there is none. */
  function FieldOf(fields: seq<Field>, key: string): Value {
    if fields == [] then P(Undefined)
    else if fields[|fields|-1].key == key then fields[|fields|-1].value
    else FieldOf(fields[..|fields|-1], key)
  }

  predicate IsNullish(v: Value) { v == P(Undefined) || v == P(Null) }

  predicate IsTruthy(v: Value) {
    !(v.P? && (v.p.Undefined? || v.p.Null? || v.p == Bool(false) || v.p == Num(0) || v.p == Str("")))
  }

  function GetField(v: Value, key: string): Option<Value> {
    match v
    case P(p) => if p.Undefined? || p.Null? then None else Some(P(Undefined))
    case Rec(fields) => Some(FieldOf(fields, key))
    case Clo(_, _, _) => Some(P(Undefined))
  }

  /** Parameters without an argument are undefined. */
  function BindParams(params: seq<string>, args: seq<Value>, env: Env): Env {
    if params == [] then env
    else if args == [] then BindParams(params[1..], [], Bind(params[0], Now(P(Undefined)), env))
    else BindParams(params[1..], args[1..], Bind(params[0], Now(args[0]), env))
  }

  function BindCells(names: seq<string>, at: nat, env: Env): Env {
    if names == [] then env else BindCells(names[1..], at + 1, Bind(names[0], Cell(at), env))
  }

  function Fresh(n: nat): seq<Option<Value>> { seq(n, _ => None) }

  function Eval(e: Expr, env: Env, st: Store, w: World, fuel: nat): Outcome<Value>
    decreases fuel, 1, e, 0
  {
    match e
    case Lit(p) => Ok(P(p), st)
    case Var(x) =>
      var v := ReadVar(x, env, st, w);
      if v.Some? then Ok(v.value, st) else Throws(st.calls)
    case Get(of, key) =>
      (match Eval(of, env, st, w, fuel)
       case Ok(v, st1) => if GetField(v, key).Some? then Ok(GetField(v, key).value, st1) else Throws(st1.calls)
       case stop => stop)
    case OrElse(left, right) =>
      (match Eval(left, env, st, w, fuel)
       case Ok(v, st1) => if IsNullish(v) then Eval(right, env, st1, w, fuel) else Ok(v, st1)
       case stop => stop)
    case Obj(props) =>
      (match EvalProps(props, env, st, w, fuel)
       case Ok(fields, st1) => Ok(Rec(fields), st1)
       case Throws(calls) => Throws(calls)
       case Timeout => Timeout)
    case Fun(params, body) => Ok(Clo(params, body, env), st)
    case Call(callee, args) =>
      (match Eval(callee, env, st, w, fuel)
       case Ok(f, st1) =>
         (match EvalAll(args, env, st1, w, fuel)
          case Ok(vs, st2) => Apply(f, vs, st2, w, fuel)
          case Throws(calls) => Throws(calls)
          case Timeout => Timeout)
       case stop => stop)
  }

  function EvalAll(es: seq<Expr>, env: Env, st: Store, w: World, fuel: nat): Outcome<seq<Value>>
    decreases fuel, 1, es, 0
  {
    if es == [] then Ok([], st)
    else
      match Eval(es[0], env, st, w, fuel)
      case Ok(v, st1) =>
        (match EvalAll(es[1..], env, st1, w, fuel)
         case Ok(vs, st2) => Ok([v] + vs, st2)
         case stop => stop)
      case Throws(calls) => Throws(calls)
      case Timeout => Timeout
  }

  function EvalProp(p: Prop, env: Env, st: Store, w: World, fuel: nat): Outcome<Value>
    decreases fuel, 1, p, 0
  {
    match p
    case Pair(_, e) => Eval(e, env, st, w, fuel)
    case Short(x) => if ReadVar(x, env, st, w).Some? then Ok(ReadVar(x, env, st, w).value, st) else Throws(st.calls)
  }

  function KeyOf(p: Prop): string { match p case Pair(key, _) => key case Short(x) => x }

  function EvalProps(props: seq<Prop>, env: Env, st: Store, w: World, fuel: nat): Outcome<seq<Field>>
    decreases fuel, 1, props, 0
  {
    if props == [] then Ok([], st)
    else
      match EvalProp(props[0], env, st, w, fuel)
      case Ok(v, st1) =>
        (match EvalProps(props[1..], env, st1, w, fuel)
         case Ok(fields, st2) => Ok([Field(KeyOf(props[0]), v)] + fields, st2)
         case stop => stop)
      case Throws(calls) => Throws(calls)
      case Timeout => Timeout
  }

  function Apply(f: Value, args: seq<Value>, st: Store, w: World, fuel: nat): Outcome<Value>
    decreases fuel, 0
  {
    match f
    case Clo(params, body, env) =>
      if fuel == 0 then Timeout
      else
        (match ExecBlock(body, BindParams(params, args, env), st, w, fuel - 1)
         case Ok(result, st1) => Ok(if result.Some? then result.value else P(Undefined), st1)
         case Throws(calls) => Throws(calls)
         case Timeout => Timeout)
    case P(Host(id)) =>
      var calls := st.calls + [HostCall(id, ShapesOf(args))];
      var result := w.host(calls);
      if result.Some? then Ok(P(result.value), st.(calls := calls)) else Throws(calls)
    case _ => Throws(st.calls)
  }

  /** A block makes the cells of its constants before its first statement. */
  function ExecBlock(stmts: seq<Stmt>, env: Env, st: Store, w: World, fuel: nat): Outcome<Option<Value>>
    decreases fuel, 1, stmts, 1
  {
    var names := Decls(stmts);
    Exec(stmts, BindCells(names, |st.cells|, env), st.(cells := st.cells + Fresh(|names|)), w, fuel)
  }

  /** The value that a return statement gave, or none where the end was reached. */
  function Exec(stmts: seq<Stmt>, env: Env, st: Store, w: World, fuel: nat): Outcome<Option<Value>>
    decreases fuel, 1, stmts, 0
  {
    if stmts == [] then Ok(None, st)
    else
      match ExecOne(stmts[0], env, st, w, fuel)
      case Ok(None, st1) => Exec(stmts[1..], env, st1, w, fuel)
      case stop => stop
  }

  function ExecOne(s: Stmt, env: Env, st: Store, w: World, fuel: nat): Outcome<Option<Value>>
    decreases fuel, 1, s, 0
  {
    match s
    case Decl(x, e) =>
      (match Eval(e, env, st, w, fuel)
       case Ok(v, st1) =>
         var slot := Lookup(env, x);
         if slot.Some? && slot.value.Cell? && slot.value.at < |st1.cells| then
           Ok(None, st1.(cells := st1.cells[slot.value.at := Some(v)]))
         else Throws(st1.calls)
       case Throws(calls) => Throws(calls)
       case Timeout => Timeout)
    case Do(e) =>
      (match Eval(e, env, st, w, fuel)
       case Ok(_, st1) => Ok(None, st1)
       case Throws(calls) => Throws(calls)
       case Timeout => Timeout)
    case Return(e) =>
      (match Eval(e, env, st, w, fuel)
       case Ok(v, st1) => Ok(Some(v), st1)
       case Throws(calls) => Throws(calls)
       case Timeout => Timeout)
    case If(test, yes, no) =>
      (match Eval(test, env, st, w, fuel)
       case Ok(v, st1) => ExecBlock(if IsTruthy(v) then yes else no, env, st1, w, fuel)
       case Throws(calls) => Throws(calls)
       case Timeout => Timeout)
    case Block(body) => ExecBlock(body, env, st, w, fuel)
  }

  // ------------------------------------------------------------------------------------------
  // Looking at a result
  // ------------------------------------------------------------------------------------------

  /** A step of whoever uses a value: reading a property, or calling it with values of the host. */
  datatype Probe = ReadField(key: string) | CallWith(args: seq<Prim>)

  function Prims(args: seq<Prim>): seq<Value> {
    if args == [] then [] else [P(args[0])] + Prims(args[1..])
  }

  function Look(v: Value, probe: Probe, st: Store, w: World, fuel: nat): Outcome<Value> {
    match probe
    case ReadField(key) => if GetField(v, key).Some? then Ok(GetField(v, key).value, st) else Throws(st.calls)
    case CallWith(args) => Apply(v, Prims(args), st, w, fuel)
  }

  /** What is seen of a value after any number of steps. */
  function Observe(v: Value, probes: seq<Probe>, st: Store, w: World, fuel: nat): Outcome<Shape>
    decreases |probes|
  {
    if probes == [] then Ok(ShapeOf(v), st)
    else
      match Look(v, probes[0], st, w, fuel)
      case Ok(next, st1) => Observe(next, probes[1..], st1, w, fuel)
      case Throws(calls) => Throws(calls)
      case Timeout => Timeout
  }
}

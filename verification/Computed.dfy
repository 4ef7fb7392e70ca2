/** Constants become lazy computeds (computed_transformer.rs): a declaration is wrapped in computed(() => ...), and the
    reads of its name become reads of .value. computed makes a thunk; .value forces it, each time anew. */
module Computed {
  import opened Common
  import Js

  // ------------------------------------------------------------------------------------------
  // Programs
  // ------------------------------------------------------------------------------------------

  /** Lazy is computed(() => e) and Force is e.value; a source has neither. */
  datatype Expr =
    | Lit(p: Js.Prim)
    | Var(name: string)
    | Get(of: Expr, field: string)
    | Cond(test: Expr, yes: Expr, no: Expr)
    | Obj(props: seq<Prop>)
    | Fun(params: seq<string>, decls: seq<Decl>, result: Expr)
    | Call(callee: Expr, args: seq<Expr>)
    | Lazy(e: Expr)
    | Force(e: Expr)

  datatype Prop = Pair(key: string, value: Expr) | Short(name: string)

  /** const, or let without an assignment. */
  datatype Decl = Decl(name: string, init: Expr, constant: bool)

  predicate Plain(e: Expr) {
    match e
    case Lit(_) => true
    case Var(_) => true
    case Get(of, _) => Plain(of)
    case Cond(test, yes, no) => Plain(test) && Plain(yes) && Plain(no)
    case Obj(props) => PlainProps(props)
    case Fun(_, decls, result) => PlainDecls(decls) && Plain(result)
    case Call(callee, args) => Plain(callee) && PlainAll(args)
    case Lazy(_) => false
    case Force(_) => false
  }

  predicate PlainAll(es: seq<Expr>) { es == [] || (Plain(es[0]) && PlainAll(es[1..])) }

  predicate PlainProps(props: seq<Prop>) {
    props == [] || ((props[0].Pair? ==> Plain(props[0].value)) && PlainProps(props[1..]))
  }

  predicate PlainDecls(decls: seq<Decl>) { decls == [] || (Plain(decls[0].init) && PlainDecls(decls[1..])) }

  // ------------------------------------------------------------------------------------------
  // The transform
  // ------------------------------------------------------------------------------------------

  /** The first pass: reads of a computed's name that no parameter shadows, and every shorthand property with such a
      name. */
  function Reads(e: Expr, c: set<string>, s: set<string>): Expr {
    match e
    case Lit(_) => e
    case Var(x) => if x in c && x !in s then Force(e) else e
    case Get(of, key) => Get(Reads(of, c, s), key)
    case Cond(test, yes, no) => Cond(Reads(test, c, s), Reads(yes, c, s), Reads(no, c, s))
    case Obj(props) => Obj(ReadsProps(props, c, s))
    case Fun(params, decls, result) =>
      var s' := s + Js.ToSet(params);
      Fun(params, ReadsDecls(decls, c, s'), Reads(result, c, s'))
    case Call(callee, args) => Call(Reads(callee, c, s), ReadsAll(args, c, s))
    case Lazy(e1) => Lazy(Reads(e1, c, s))
    case Force(e1) => Force(Reads(e1, c, s))
  }

  function ReadsAll(es: seq<Expr>, c: set<string>, s: set<string>): seq<Expr> {
    if es == [] then [] else [Reads(es[0], c, s)] + ReadsAll(es[1..], c, s)
  }

  function ReadsProp(p: Prop, c: set<string>, s: set<string>): Prop {
    match p
    case Pair(key, e) => Pair(key, Reads(e, c, s))
    case Short(x) => if x in c then Pair(x, Force(Var(x))) else p
  }

  function ReadsProps(props: seq<Prop>, c: set<string>, s: set<string>): seq<Prop> {
    if props == [] then [] else [ReadsProp(props[0], c, s)] + ReadsProps(props[1..], c, s)
  }

  function ReadsDecls(decls: seq<Decl>, c: set<string>, s: set<string>): seq<Decl> {
    if decls == [] then []
    else [Decl(decls[0].name, Reads(decls[0].init, c, s), decls[0].constant)] + ReadsDecls(decls[1..], c, s)
  }

  predicate IsWrapped(d: Decl, c: set<string>) { d.constant && d.name in c }

  /** The second pass wraps consts with a computed's name. It does not look inside the initializer of any declaration,
      so a const in there is left as it is. */
  function Wraps(e: Expr, c: set<string>): Expr {
    match e
    case Lit(_) => e
    case Var(_) => e
    case Get(of, key) => Get(Wraps(of, c), key)
    case Cond(test, yes, no) => Cond(Wraps(test, c), Wraps(yes, c), Wraps(no, c))
    case Obj(props) => Obj(WrapsProps(props, c))
    case Fun(params, decls, result) => Fun(params, WrapsDecls(decls, c), Wraps(result, c))
    case Call(callee, args) => Call(Wraps(callee, c), WrapsAll(args, c))
    case Lazy(e1) => Lazy(Wraps(e1, c))
    case Force(e1) => Force(Wraps(e1, c))
  }

  function WrapsAll(es: seq<Expr>, c: set<string>): seq<Expr> {
    if es == [] then [] else [Wraps(es[0], c)] + WrapsAll(es[1..], c)
  }

  function WrapsProp(p: Prop, c: set<string>): Prop {
    match p
    case Pair(key, e) => Pair(key, Wraps(e, c))
    case Short(_) => p
  }

  function WrapsProps(props: seq<Prop>, c: set<string>): seq<Prop> {
    if props == [] then [] else [WrapsProp(props[0], c)] + WrapsProps(props[1..], c)
  }

  function WrapsDecls(decls: seq<Decl>, c: set<string>): seq<Decl> {
    if decls == [] then []
    else
      var d := decls[0];
      [Decl(d.name, if IsWrapped(d, c) then Lazy(d.init) else d.init, d.constant)] + WrapsDecls(decls[1..], c)
  }

  // ------------------------------------------------------------------------------------------
  // The first pass as it is run
  // ------------------------------------------------------------------------------------------

  /** ComputedReadTransformer, with the text it would write given as a tree. */
  class ReadTransformer {
    const computeds: set<string>
    var shadowedStack: seq<set<string>>

    constructor (computeds: set<string>)
      ensures this.computeds == computeds && shadowedStack == []
    {
      this.computeds := computeds;
      shadowedStack := [];
    }

    method IsShadowed(x: string) returns (found: bool)
      ensures found <==> x in Shadowed(shadowedStack)
    {
      ShadowedHas(shadowedStack, x);
      found := exists i | 0 <= i < |shadowedStack| :: x in shadowedStack[i];
    }

    method VisitExpression(e: Expr) returns (r: Expr)
      modifies this
      ensures shadowedStack == old(shadowedStack)
      ensures r == Reads(e, computeds, Shadowed(shadowedStack))
      decreases e, 0
    {
      match e
      case Lit(_) => r := e;
      case Var(x) =>
        if x !in computeds { return e; }
        var shadowed := IsShadowed(x);
        r := if shadowed then e else Force(e);
      case Get(of, key) =>
        var of' := VisitExpression(of);
        r := Get(of', key);
      case Cond(test, yes, no) =>
        var test' := VisitExpression(test);
        var yes' := VisitExpression(yes);
        var no' := VisitExpression(no);
        r := Cond(test', yes', no');
      case Obj(props) =>
        var props' := VisitProperties(props);
        r := Obj(props');
      case Fun(params, decls, result) =>
        ShadowedPush(shadowedStack, Js.ToSet(params));
        shadowedStack := shadowedStack + [Js.ToSet(params)];
        var decls' := VisitDeclarations(decls);
        var result' := VisitExpression(result);
        shadowedStack := shadowedStack[..|shadowedStack|-1];
        r := Fun(params, decls', result');
      case Call(callee, args) =>
        var callee' := VisitExpression(callee);
        var args' := VisitExpressions(args);
        r := Call(callee', args');
      case Lazy(e1) =>
        var e' := VisitExpression(e1);
        r := Lazy(e');
      case Force(e1) =>
        var e' := VisitExpression(e1);
        r := Force(e');
    }

    method VisitExpressions(es: seq<Expr>) returns (r: seq<Expr>)
      modifies this
      ensures shadowedStack == old(shadowedStack)
      ensures r == ReadsAll(es, computeds, Shadowed(shadowedStack))
      decreases es, 0
    {
      if es == [] { return []; }
      var first := VisitExpression(es[0]);
      var rest := VisitExpressions(es[1..]);
      r := [first] + rest;
    }

    method VisitProperties(props: seq<Prop>) returns (r: seq<Prop>)
      modifies this
      ensures shadowedStack == old(shadowedStack)
      ensures r == ReadsProps(props, computeds, Shadowed(shadowedStack))
      decreases props, 0
    {
      if props == [] { return []; }
      var first := VisitObjectProperty(props[0]);
      var rest := VisitProperties(props[1..]);
      r := [first] + rest;
    }

    /** A shorthand property is expanded without a look at the stack. */
    method VisitObjectProperty(p: Prop) returns (r: Prop)
      modifies this
      ensures shadowedStack == old(shadowedStack)
      ensures r == ReadsProp(p, computeds, Shadowed(shadowedStack))
      decreases p, 0
    {
      match p
      case Short(x) => r := if x in computeds then Pair(x, Force(Var(x))) else p;
      case Pair(key, e) =>
        var e' := VisitExpression(e);
        r := Pair(key, e');
    }

    method VisitDeclarations(decls: seq<Decl>) returns (r: seq<Decl>)
      modifies this
      ensures shadowedStack == old(shadowedStack)
      ensures r == ReadsDecls(decls, computeds, Shadowed(shadowedStack))
      decreases decls, 0
    {
      if decls == [] { return []; }
      var init := VisitExpression(decls[0].init);
      var rest := VisitDeclarations(decls[1..]);
      r := [Decl(decls[0].name, init, decls[0].constant)] + rest;
    }
  }

  // ------------------------------------------------------------------------------------------
  // The rewrite that follows each name to its declaration
  // ------------------------------------------------------------------------------------------

  /** What the names mean after a declaration: l has those that are bound to a computed. */
  function Declare(l: set<string>, d: Decl, c: set<string>): set<string> {
    if IsWrapped(d, c) then l + {d.name} else l - {d.name}
  }

  function DeclareAll(decls: seq<Decl>, l: set<string>, c: set<string>): set<string> {
    if decls == [] then l else DeclareAll(decls[1..], Declare(l, decls[0], c), c)
  }

  /** Wrapping the consts that the second pass wraps, and forcing exactly the reads of what is wrapped: c has the names
      that the pass wraps here, which inside an initializer are none. */
  function Rw(e: Expr, c: set<string>, l: set<string>): Expr
    decreases e, 0
  {
    match e
    case Lit(_) => e
    case Var(x) => if x in l then Force(e) else e
    case Get(of, key) => Get(Rw(of, c, l), key)
    case Cond(test, yes, no) => Cond(Rw(test, c, l), Rw(yes, c, l), Rw(no, c, l))
    case Obj(props) => Obj(RwProps(props, c, l))
    case Fun(params, decls, result) =>
      var inside := DeclareAll(decls, l - Js.ToSet(params), c);
      Fun(params, RwDecls(decls, c, inside), Rw(result, c, DeclareAll(decls, inside, c)))
    case Call(callee, args) => Call(Rw(callee, c, l), RwAll(args, c, l))
    case Lazy(e1) => Lazy(Rw(e1, c, l))
    case Force(e1) => Force(Rw(e1, c, l))
  }

  function RwAll(es: seq<Expr>, c: set<string>, l: set<string>): seq<Expr>
    decreases es, 0
  {
    if es == [] then [] else [Rw(es[0], c, l)] + RwAll(es[1..], c, l)
  }

  function RwProp(p: Prop, c: set<string>, l: set<string>): Prop
    decreases p, 0
  {
    match p
    case Pair(key, e) => Pair(key, Rw(e, c, l))
    case Short(x) => if x in l then Pair(x, Force(Var(x))) else p
  }

  function RwProps(props: seq<Prop>, c: set<string>, l: set<string>): seq<Prop>
    decreases props, 0
  {
    if props == [] then [] else [RwProp(props[0], c, l)] + RwProps(props[1..], c, l)
  }

  function RwDecl(d: Decl, c: set<string>, l: set<string>): Decl
    decreases d, 0
  {
    Decl(d.name, if IsWrapped(d, c) then Lazy(Rw(d.init, {}, l)) else Rw(d.init, {}, l), d.constant)
  }

  function RwDecls(decls: seq<Decl>, c: set<string>, l: set<string>): seq<Decl>
    decreases decls, 0
  {
    if decls == [] then [] else [RwDecl(decls[0], c, l)] + RwDecls(decls[1..], c, Declare(l, decls[0], c))
  }

  /** The names that the passes misjudge somewhere: the stack of parameters s and the scopes l do not agree on whether
      the name is a computed there, or the name is a shorthand property and not one. c has the computeds, k those of
      them that the second pass wraps here. */
  function Misjudged(e: Expr, c: set<string>, k: set<string>, s: set<string>, l: set<string>): set<string>
    decreases e, 0
  {
    match e
    case Lit(_) => {}
    case Var(x) => if (x in c && x !in s) == (x in l) then {} else {x}
    case Get(of, _) => Misjudged(of, c, k, s, l)
    case Cond(test, yes, no) => Misjudged(test, c, k, s, l) + Misjudged(yes, c, k, s, l) + Misjudged(no, c, k, s, l)
    case Obj(props) => MisjudgedProps(props, c, k, s, l)
    case Fun(params, decls, result) =>
      var s' := s + Js.ToSet(params);
      var inside := DeclareAll(decls, l - Js.ToSet(params), k);
      MisjudgedDecls(decls, c, k, s', inside) + Misjudged(result, c, k, s', DeclareAll(decls, inside, k))
    case Call(callee, args) => Misjudged(callee, c, k, s, l) + MisjudgedAll(args, c, k, s, l)
    case Lazy(e1) => Misjudged(e1, c, k, s, l)
    case Force(e1) => Misjudged(e1, c, k, s, l)
  }

  function MisjudgedAll(es: seq<Expr>, c: set<string>, k: set<string>, s: set<string>, l: set<string>): set<string>
    decreases es, 0
  {
    if es == [] then {} else Misjudged(es[0], c, k, s, l) + MisjudgedAll(es[1..], c, k, s, l)
  }

  function MisjudgedProp(p: Prop, c: set<string>, k: set<string>, s: set<string>, l: set<string>): set<string>
    decreases p, 0
  {
    match p
    case Pair(_, e) => Misjudged(e, c, k, s, l)
    case Short(x) => if (x in c) == (x in l) then {} else {x}
  }

  function MisjudgedProps(props: seq<Prop>, c: set<string>, k: set<string>, s: set<string>, l: set<string>): set<string>
    decreases props, 0
  {
    if props == [] then {} else MisjudgedProp(props[0], c, k, s, l) + MisjudgedProps(props[1..], c, k, s, l)
  }

  function MisjudgedDecls(decls: seq<Decl>, c: set<string>, k: set<string>, s: set<string>, l: set<string>): set<string>
    decreases decls, 0
  {
    if decls == [] then {} else Misjudged(decls[0].init, c, {}, s, l) + MisjudgedDecls(decls[1..], c, k, s, Declare(l, decls[0], k))
  }

  lemma {:induction false} WrapsNothing(e: Expr)
    ensures Wraps(e, {}) == e
    decreases e, 0
  {
    match e
    case Lit(_) =>
    case Var(_) =>
    case Get(of, _) => WrapsNothing(of);
    case Cond(test, yes, no) => WrapsNothing(test); WrapsNothing(yes); WrapsNothing(no);
    case Obj(props) => WrapsNothingInProps(props);
    case Fun(_, decls, result) => WrapsNothingInDecls(decls); WrapsNothing(result);
    case Call(callee, args) => WrapsNothing(callee); WrapsNothingInAll(args);
    case Lazy(e1) => WrapsNothing(e1);
    case Force(e1) => WrapsNothing(e1);
  }

  lemma {:induction false} WrapsNothingInAll(es: seq<Expr>)
    ensures WrapsAll(es, {}) == es
    decreases es, 0
  {
    if es != [] { WrapsNothing(es[0]); WrapsNothingInAll(es[1..]); }
  }

  lemma {:induction false} WrapsNothingInProps(props: seq<Prop>)
    ensures WrapsProps(props, {}) == props
    decreases props, 0
  {
    if props != [] {
      if props[0].Pair? { WrapsNothing(props[0].value); }
      WrapsNothingInProps(props[1..]);
    }
  }

  lemma {:induction false} WrapsNothingInDecls(decls: seq<Decl>)
    ensures WrapsDecls(decls, {}) == decls
    decreases decls, 0
  {
    if decls != [] { WrapsNothingInDecls(decls[1..]); }
  }

  lemma {:induction false} PassesFollowScopes(e: Expr, c: set<string>, k: set<string>, s: set<string>, l: set<string>)
    ensures Wraps(Reads(e, c, s), k) == Rw(e, k, l) <==> Misjudged(e, c, k, s, l) == {}
    decreases e, 0
  {
    match e
    case Lit(_) =>
    case Var(x) =>
    case Get(of, _) => PassesFollowScopes(of, c, k, s, l);
    case Cond(test, yes, no) =>
      PassesFollowScopes(test, c, k, s, l); PassesFollowScopes(yes, c, k, s, l); PassesFollowScopes(no, c, k, s, l);
    case Obj(props) => PassesOnProps(props, c, k, s, l);
    case Fun(params, decls, result) =>
      var s' := s + Js.ToSet(params);
      var inside := DeclareAll(decls, l - Js.ToSet(params), k);
      PassesOnDecls(decls, c, k, s', inside);
      PassesFollowScopes(result, c, k, s', DeclareAll(decls, inside, k));
    case Call(callee, args) => PassesFollowScopes(callee, c, k, s, l); PassesOnAll(args, c, k, s, l);
    case Lazy(e1) => PassesFollowScopes(e1, c, k, s, l);
    case Force(e1) => PassesFollowScopes(e1, c, k, s, l);
  }

  lemma {:induction false} PassesOnAll(es: seq<Expr>, c: set<string>, k: set<string>, s: set<string>, l: set<string>)
    ensures WrapsAll(ReadsAll(es, c, s), k) == RwAll(es, k, l) <==> MisjudgedAll(es, c, k, s, l) == {}
    decreases es, 0
  {
    hide Reads, Wraps, Rw, Misjudged;
    if es != [] {
      var first, rest := Reads(es[0], c, s), ReadsAll(es[1..], c, s);
      PassesFollowScopes(es[0], c, k, s, l);
      PassesOnAll(es[1..], c, k, s, l);
      ConsEqual(first, rest, first, rest);
      ConsEqual(Wraps(first, k), WrapsAll(rest, k), Rw(es[0], k, l), RwAll(es[1..], k, l));
    }
  }

  lemma {:induction false} PassesOnProp(p: Prop, c: set<string>, k: set<string>, s: set<string>, l: set<string>)
    ensures WrapsProp(ReadsProp(p, c, s), k) == RwProp(p, k, l) <==> MisjudgedProp(p, c, k, s, l) == {}
    decreases p, 0
  {
    match p
    case Pair(_, e) => PassesFollowScopes(e, c, k, s, l);
    case Short(x) =>
      assert Wraps(Var(x), k) == Var(x);
      assert Wraps(Force(Var(x)), k) == Force(Var(x));
      assert (x in c) != (x in l) ==> x in MisjudgedProp(p, c, k, s, l);
  }

  lemma {:induction false} PassesOnProps(props: seq<Prop>, c: set<string>, k: set<string>, s: set<string>, l: set<string>)
    ensures WrapsProps(ReadsProps(props, c, s), k) == RwProps(props, k, l) <==> MisjudgedProps(props, c, k, s, l) == {}
    decreases props, 0
  {
    hide ReadsProp, WrapsProp, RwProp, MisjudgedProp;
    if props != [] {
      var first, rest := ReadsProp(props[0], c, s), ReadsProps(props[1..], c, s);
      PassesOnProp(props[0], c, k, s, l);
      PassesOnProps(props[1..], c, k, s, l);
      ConsEqual(first, rest, first, rest);
      ConsEqual(WrapsProp(first, k), WrapsProps(rest, k), RwProp(props[0], k, l), RwProps(props[1..], k, l));
    }
  }

  lemma {:induction false} PassesOnDecls(decls: seq<Decl>, c: set<string>, k: set<string>, s: set<string>, l: set<string>)
    ensures WrapsDecls(ReadsDecls(decls, c, s), k) == RwDecls(decls, k, l) <==> MisjudgedDecls(decls, c, k, s, l) == {}
    decreases decls, 0
  {
    hide Reads, Wraps, Rw, Misjudged, Declare;
    if decls != [] {
      var d := decls[0];
      var first, rest := Decl(d.name, Reads(d.init, c, s), d.constant), ReadsDecls(decls[1..], c, s);
      var wrapped := Decl(d.name, if IsWrapped(d, k) then Lazy(first.init) else first.init, d.constant);
      PassesFollowScopes(d.init, c, {}, s, l);
      WrapsNothing(first.init);
      PassesOnDecls(decls[1..], c, k, s, Declare(l, d, k));
      ConsEqual(first, rest, first, rest);
      ConsEqual(wrapped, WrapsDecls(rest, k), RwDecl(d, k, l), RwDecls(decls[1..], k, Declare(l, d, k)));
    }
  }

  // ------------------------------------------------------------------------------------------
  // Evaluation
  // ------------------------------------------------------------------------------------------

  datatype Value =
    | P(p: Js.Prim)
    | Rec(fields: seq<Field>)
    | Clo(params: seq<string>, decls: seq<Decl>, result: Expr, env: Env)
    | Thunk(e: Expr, env: Env)

  datatype Field = Field(key: string, value: Value)

  /** A name whose declaration has not run is Unset; whether it declares a computed is known from the start. */
  datatype Slot = Unset(computed: bool) | Now(value: Value)

  datatype Env = Base | Bind(name: string, slot: Slot, rest: Env)

  /** The primitive values of the names outside the component, and the functions of the host. */
  datatype World = World(top: map<string, Js.Prim>, host: (nat, seq<Js.Shape>) -> Option<Js.Prim>)

  datatype Outcome<T> = Timeout | Throws | Ok(value: T)

  function ShapeOf(v: Value): Js.Shape {
    match v
    case P(p) => Js.Plain(p)
    case Rec(fields) => Js.Fields(ShapeFields(fields))
    case Clo(_, _, _, _) => Js.Function
    case Thunk(_, _) => Js.Function
  }

  function ShapeFields(fields: seq<Field>): seq<Js.ShapeField> {
    if fields == [] then [] else [Js.ShapeField(fields[0].key, ShapeOf(fields[0].value))] + ShapeFields(fields[1..])
  }

  function ShapesOf(vs: seq<Value>): seq<Js.Shape> {
    if vs == [] then [] else [ShapeOf(vs[0])] + ShapesOf(vs[1..])
  }

  function Lookup(env: Env, x: string): Option<Slot> {
    match env
    case Base => None
    case Bind(y, slot, rest) => if x == y then Some(slot) else Lookup(rest, x)
  }

  function ReadVar(x: string, env: Env, w: World): Outcome<Value> {
    match Lookup(env, x)
    case None => if x in w.top then Ok(P(w.top[x])) else Throws
    case Some(Unset(_)) => Throws
    case Some(Now(v)) => Ok(v)
  }

  function FieldOf(fields: seq<Field>, key: string): Value {
    if fields == [] then P(Js.Undefined)
    else if fields[|fields|-1].key == key then fields[|fields|-1].value
    else FieldOf(fields[..|fields|-1], key)
  }

  function GetField(v: Value, key: string): Outcome<Value> {
    match v
    case P(p) => if p.Undefined? || p.Null? then Throws else Ok(P(Js.Undefined))
    case Rec(fields) => Ok(FieldOf(fields, key))
    case _ => Ok(P(Js.Undefined))
  }

  predicate IsTruthy(v: Value) {
    !(v.P? && (v.p.Undefined? || v.p.Null? || v.p == Js.Bool(false) || v.p == Js.Num(0) || v.p == Js.Str("")))
  }

  function BindParams(params: seq<string>, args: seq<Value>, env: Env): Env {
    if params == [] then env
    else if args == [] then BindParams(params[1..], [], Bind(params[0], Now(P(Js.Undefined)), env))
    else BindParams(params[1..], args[1..], Bind(params[0], Now(args[0]), env))
  }

  /** A block hides what its declarations name from its first statement on. */
  function Enter(decls: seq<Decl>, env: Env): Env {
    if decls == [] then env else Enter(decls[1..], Bind(decls[0].name, Unset(decls[0].init.Lazy?), env))
  }

  function KeyOf(p: Prop): string { match p case Pair(key, _) => key case Short(x) => x }

  function Eval(e: Expr, env: Env, w: World, fuel: nat): Outcome<Value>
    decreases fuel, 1, e, 0
  {
    match e
    case Lit(p) => Ok(P(p))
    case Var(x) => ReadVar(x, env, w)
    case Get(of, key) =>
      (match Eval(of, env, w, fuel)
       case Ok(v) => GetField(v, key)
       case stop => stop)
    case Cond(test, yes, no) =>
      (match Eval(test, env, w, fuel)
       case Ok(v) => if IsTruthy(v) then Eval(yes, env, w, fuel) else Eval(no, env, w, fuel)
       case stop => stop)
    case Obj(props) =>
      (match EvalProps(props, env, w, fuel)
       case Ok(fields) => Ok(Rec(fields))
       case Throws => Throws
       case Timeout => Timeout)
    case Fun(params, decls, result) => Ok(Clo(params, decls, result, env))
    case Call(callee, args) =>
      (match Eval(callee, env, w, fuel)
       case Ok(f) =>
         (match EvalAll(args, env, w, fuel)
          case Ok(vs) => Apply(f, vs, w, fuel)
          case Throws => Throws
          case Timeout => Timeout)
       case stop => stop)
    case Lazy(e1) => Ok(Thunk(e1, env))
    case Force(e1) =>
      (match Eval(e1, env, w, fuel)
       case Ok(v) => ForceValue(v, w, fuel)
       case stop => stop)
  }

  function EvalAll(es: seq<Expr>, env: Env, w: World, fuel: nat): Outcome<seq<Value>>
    decreases fuel, 1, es, 0
  {
    if es == [] then Ok([])
    else
      match Eval(es[0], env, w, fuel)
      case Ok(v) =>
        (match EvalAll(es[1..], env, w, fuel)
         case Ok(vs) => Ok([v] + vs)
         case stop => stop)
      case Throws => Throws
      case Timeout => Timeout
  }

  function EvalProp(p: Prop, env: Env, w: World, fuel: nat): Outcome<Value>
    decreases fuel, 1, p, 0
  {
    match p
    case Pair(_, e) => Eval(e, env, w, fuel)
    case Short(x) => ReadVar(x, env, w)
  }

  function EvalProps(props: seq<Prop>, env: Env, w: World, fuel: nat): Outcome<seq<Field>>
    decreases fuel, 1, props, 0
  {
    if props == [] then Ok([])
    else
      match EvalProp(props[0], env, w, fuel)
      case Ok(v) =>
        (match EvalProps(props[1..], env, w, fuel)
         case Ok(fields) => Ok([Field(KeyOf(props[0]), v)] + fields)
         case stop => stop)
      case Throws => Throws
      case Timeout => Timeout
  }

  function Apply(f: Value, args: seq<Value>, w: World, fuel: nat): Outcome<Value>
    decreases fuel, 0
  {
    match f
    case Clo(params, decls, result, env) =>
      if fuel == 0 then Timeout else RunBlock(decls, result, BindParams(params, args, env), w, fuel - 1)
    case P(Host(id)) =>
      var r := w.host(id, ShapesOf(args));
      if r.Some? then Ok(P(r.value)) else Throws
    case _ => Throws
  }

  /** Reading .value. */
  function ForceValue(v: Value, w: World, fuel: nat): Outcome<Value>
    decreases fuel, 0
  {
    match v
    case Thunk(e, env) => if fuel == 0 then Timeout else Eval(e, env, w, fuel - 1)
    case _ => GetField(v, "value")
  }

  function RunBlock(decls: seq<Decl>, result: Expr, env: Env, w: World, fuel: nat): Outcome<Value>
    decreases fuel, 3
  {
    RunDecls(decls, result, Enter(decls, env), w, fuel)
  }

  function RunDecls(decls: seq<Decl>, result: Expr, env: Env, w: World, fuel: nat): Outcome<Value>
    decreases fuel, 2, decls
  {
    if decls == [] then Eval(result, env, w, fuel)
    else
      match Eval(decls[0].init, env, w, fuel)
      case Ok(v) => RunDecls(decls[1..], result, Bind(decls[0].name, Now(v), env), w, fuel)
      case stop => stop
  }

  // ------------------------------------------------------------------------------------------
  // Looking at a result
  // ------------------------------------------------------------------------------------------

  function Prims(args: seq<Js.Prim>): seq<Value> {
    if args == [] then [] else [P(args[0])] + Prims(args[1..])
  }

  /** What is seen of a value after any number of steps. */
  function Observe(v: Value, probes: seq<Js.Probe>, w: World, fuel: nat): Outcome<Js.Shape>
    decreases |probes|
  {
    if probes == [] then Ok(ShapeOf(v))
    else
      match (match probes[0] case ReadField(key) => GetField(v, key) case CallWith(args) => Apply(v, Prims(args), w, fuel))
      case Ok(next) => Observe(next, probes[1..], w, fuel)
      case Throws => Throws
      case Timeout => Timeout
  }
}

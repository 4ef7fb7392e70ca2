/** Destructured props become reads of __props (props_transformer.rs). The replacer walks the body with a stack of
    shadowing scopes: parameters, and the constants declared directly in a function's body. */
module Props {
  import opened Common
  import opened Js

  /** One entry of the pattern { key: binding = default }. An entry with a quoted key is skipped by the transform. loose
      says that the default is an arrow function, or has an operator that may not follow ?? without parentheses. */
  datatype Entry = Entry(key: string, binding: string, default: Option<Expr>, quoted: bool, loose: bool)

  /** A body of statements; or, of an arrow function, JSX or another expression: then the body is its return. */
  datatype Form = Statements | Markup | Expression

  datatype Component = Component(pattern: seq<Entry>, rest: Option<string>, form: Form, body: seq<Stmt>)

  datatype Binding = Binding(prop: string, default: Option<Expr>)

  const PROPS := "__props"

  // ------------------------------------------------------------------------------------------
  // The transform
  // ------------------------------------------------------------------------------------------

  function Bindings(pattern: seq<Entry>): map<string, Binding> {
    if pattern == [] then map[]
    else
      var last := pattern[|pattern|-1];
      var before := Bindings(pattern[..|pattern|-1]);
      if last.quoted then before else before[last.binding := Binding(last.key, last.default)]
  }

  function Replacement(p: Binding): Expr {
    var read := Get(Var(PROPS), p.prop);
    if p.default.Some? then OrElse(read, p.default.value) else read
  }

  /** Replacing the references to bindings that nothing in s shadows. A block's own constants join s where blocks is
      set; the transform leaves them out. */
  function Rw(e: Expr, b: map<string, Binding>, s: set<string>, blocks: bool): Expr
    decreases e, 0
  {
    match e
    case Lit(_) => e
    case Var(x) => if x in b && x !in s then Replacement(b[x]) else e
    case Get(of, key) => Get(Rw(of, b, s, blocks), key)
    case OrElse(left, right) => OrElse(Rw(left, b, s, blocks), Rw(right, b, s, blocks))
    case Obj(props) => Obj(RwProps(props, b, s, blocks))
    case Fun(params, body) => Fun(params, RwBody(body, b, s + ToSet(params), blocks))
    case Call(callee, args) => Call(Rw(callee, b, s, blocks), RwAll(args, b, s, blocks))
  }

  function RwAll(es: seq<Expr>, b: map<string, Binding>, s: set<string>, blocks: bool): seq<Expr>
    decreases es, 0
  {
    if es == [] then [] else [Rw(es[0], b, s, blocks)] + RwAll(es[1..], b, s, blocks)
  }

  function RwProp(p: Prop, b: map<string, Binding>, s: set<string>, blocks: bool): Prop
    decreases p, 0
  {
    match p
    case Pair(key, e) => Pair(key, Rw(e, b, s, blocks))
    case Short(x) => if x in b && x !in s then Pair(x, Replacement(b[x])) else p
  }

  function RwProps(props: seq<Prop>, b: map<string, Binding>, s: set<string>, blocks: bool): seq<Prop>
    decreases props, 0
  {
    if props == [] then [] else [RwProp(props[0], b, s, blocks)] + RwProps(props[1..], b, s, blocks)
  }

  function RwBody(body: seq<Stmt>, b: map<string, Binding>, s: set<string>, blocks: bool): seq<Stmt>
    decreases body, 1
  {
    RwStmts(body, b, s + ToSet(Decls(body)), blocks)
  }

  function RwBlock(body: seq<Stmt>, b: map<string, Binding>, s: set<string>, blocks: bool): seq<Stmt>
    decreases body, 1
  {
    RwStmts(body, b, if blocks then s + ToSet(Decls(body)) else s, blocks)
  }

  function RwStmts(stmts: seq<Stmt>, b: map<string, Binding>, s: set<string>, blocks: bool): seq<Stmt>
    decreases stmts, 0
  {
    if stmts == [] then [] else [RwStmt(stmts[0], b, s, blocks)] + RwStmts(stmts[1..], b, s, blocks)
  }

  /** The initializer of a constant with a binding's name is walked with that name shadowed. */
  function RwStmt(t: Stmt, b: map<string, Binding>, s: set<string>, blocks: bool): Stmt
    decreases t, 0
  {
    match t
    case Decl(x, e) => Decl(x, Rw(e, b, if x in b then s + {x} else s, blocks))
    case Do(e) => Do(Rw(e, b, s, blocks))
    case Return(e) => Return(Rw(e, b, s, blocks))
    case If(test, yes, no) => If(Rw(test, b, s, blocks), RwBlock(yes, b, s, blocks), RwBlock(no, b, s, blocks))
    case Block(body) => Block(RwBlock(body, b, s, blocks))
  }

  // ------------------------------------------------------------------------------------------
  // The replacer
  // ------------------------------------------------------------------------------------------

  method CollectBlockVarNames(body: seq<Stmt>, names: set<string>) returns (all: set<string>)
    ensures all == names + ToSet(Decls(body))
  {
    all := names;
    assert body[0..] == body;
    for i := 0 to |body|
      invariant all + ToSet(Decls(body[i..])) == names + ToSet(Decls(body))
    {
      assert body[i..][1..] == body[i+1..];
      if body[i].Decl? {
        all := all + {body[i].name};
      }
    }
  }

  /** PropsRefReplacer: the visitor, with the text it would write given as a tree. */
  class Replacer {
    const bindings: map<string, Binding>
    var shadowedStack: seq<set<string>>

    constructor (bindings: map<string, Binding>)
      ensures this.bindings == bindings && shadowedStack == []
    {
      this.bindings := bindings;
      shadowedStack := [];
    }

    method IsShadowed(x: string) returns (found: bool)
      ensures found <==> x in Shadowed(shadowedStack)
    {
      ShadowedHas(shadowedStack, x);
      found := exists i | 0 <= i < |shadowedStack| :: x in shadowedStack[i];
    }

    method VisitExpression(e: Expr) returns (r: Expr)
      modifies this
      ensures shadowedStack == old(shadowedStack)
      ensures r == Rw(e, bindings, Shadowed(shadowedStack), false)
      decreases e, 0
    {
      match e
      case Lit(_) => r := e;
      case Var(x) =>
        var shadowed := IsShadowed(x);
        r := if x in bindings && !shadowed then Replacement(bindings[x]) else e;
      case Get(of, key) =>
        var of' := VisitExpression(of);
        r := Get(of', key);
      case OrElse(left, right) =>
        var left' := VisitExpression(left);
        var right' := VisitExpression(right);
        r := OrElse(left', right');
      case Obj(props) =>
        var props' := VisitProperties(props);
        r := Obj(props');
      case Fun(params, body) =>
        var shadows := CollectBlockVarNames(body, ToSet(params));
        ShadowedPush(shadowedStack, shadows);
        assert Shadowed(shadowedStack) + shadows == Shadowed(shadowedStack) + ToSet(params) + ToSet(Decls(body));
        shadowedStack := shadowedStack + [shadows];
        var body' := VisitStatements(body);
        shadowedStack := shadowedStack[..|shadowedStack|-1];
        r := Fun(params, body');
      case Call(callee, args) =>
        var callee' := VisitExpression(callee);
        var args' := VisitExpressions(args);
        r := Call(callee', args');
    }

    method VisitExpressions(es: seq<Expr>) returns (r: seq<Expr>)
      modifies this
      ensures shadowedStack == old(shadowedStack)
      ensures r == RwAll(es, bindings, Shadowed(shadowedStack), false)
      decreases es, 0
    {
      if es == [] { return []; }
      var first := VisitExpression(es[0]);
      var rest := VisitExpressions(es[1..]);
      r := [first] + rest;
    }

    method VisitProperties(props: seq<Prop>) returns (r: seq<Prop>)
      modifies this
      ensures shadowedStack == old(shadowedStack)
      ensures r == RwProps(props, bindings, Shadowed(shadowedStack), false)
      decreases props, 0
    {
      if props == [] { return []; }
      var first := VisitObjectProperty(props[0]);
      var rest := VisitProperties(props[1..]);
      r := [first] + rest;
    }

    method VisitObjectProperty(p: Prop) returns (r: Prop)
      modifies this
      ensures shadowedStack == old(shadowedStack)
      ensures r == RwProp(p, bindings, Shadowed(shadowedStack), false)
      decreases p, 0
    {
      match p
      case Short(x) =>
        var shadowed := IsShadowed(x);
        r := if x in bindings && !shadowed then Pair(x, Replacement(bindings[x])) else p;
      case Pair(key, e) =>
        var e' := VisitExpression(e);
        r := Pair(key, e');
    }

    method VisitStatements(stmts: seq<Stmt>) returns (r: seq<Stmt>)
      modifies this
      ensures shadowedStack == old(shadowedStack)
      ensures r == RwStmts(stmts, bindings, Shadowed(shadowedStack), false)
      decreases stmts, 0
    {
      if stmts == [] { return []; }
      var first := VisitStatement(stmts[0]);
      var rest := VisitStatements(stmts[1..]);
      r := [first] + rest;
    }

    method VisitStatement(t: Stmt) returns (r: Stmt)
      modifies this
      ensures shadowedStack == old(shadowedStack)
      ensures r == RwStmt(t, bindings, Shadowed(shadowedStack), false)
      decreases t, 0
    {
      match t
      case Decl(x, e) =>
        if x in bindings {
          ShadowedPush(shadowedStack, {x});
          shadowedStack := shadowedStack + [{x}];
          var e' := VisitExpression(e);
          shadowedStack := shadowedStack[..|shadowedStack|-1];
          r := Decl(x, e');
        } else {
          var e' := VisitExpression(e);
          r := Decl(x, e');
        }
      case Do(e) =>
        var e' := VisitExpression(e);
        r := Do(e');
      case Return(e) =>
        var e' := VisitExpression(e);
        r := Return(e');
      case If(test, yes, no) =>
        var test' := VisitExpression(test);
        var yes' := VisitStatements(yes);
        var no' := VisitStatements(no);
        r := If(test', yes', no');
      case Block(body) =>
        var body' := VisitStatements(body);
        r := Block(body');
    }
  }

  // ------------------------------------------------------------------------------------------
  // When the transform respects every scope
  // ------------------------------------------------------------------------------------------

  /** The bindings that the replacer replaces although a block declares the name: c holds the constants of the
      enclosing blocks, s what the stack shadows. */
  function Caught(e: Expr, b: map<string, Binding>, c: set<string>, s: set<string>): set<string>
    decreases e, 0
  {
    match e
    case Lit(_) => {}
    case Var(x) => if x in b && x !in s && x in c then {x} else {}
    case Get(of, _) => Caught(of, b, c, s)
    case OrElse(left, right) => Caught(left, b, c, s) + Caught(right, b, c, s)
    case Obj(props) => CaughtProps(props, b, c, s)
    case Fun(params, body) => CaughtStmts(body, b, c, s + ToSet(params) + ToSet(Decls(body)))
    case Call(callee, args) => Caught(callee, b, c, s) + CaughtAll(args, b, c, s)
  }

  function CaughtAll(es: seq<Expr>, b: map<string, Binding>, c: set<string>, s: set<string>): set<string>
    decreases es, 0
  {
    if es == [] then {} else Caught(es[0], b, c, s) + CaughtAll(es[1..], b, c, s)
  }

  function CaughtProp(p: Prop, b: map<string, Binding>, c: set<string>, s: set<string>): set<string>
    decreases p, 0
  {
    match p
    case Pair(_, e) => Caught(e, b, c, s)
    case Short(x) => if x in b && x !in s && x in c then {x} else {}
  }

  function CaughtProps(props: seq<Prop>, b: map<string, Binding>, c: set<string>, s: set<string>): set<string>
    decreases props, 0
  {
    if props == [] then {} else CaughtProp(props[0], b, c, s) + CaughtProps(props[1..], b, c, s)
  }

  function CaughtStmts(stmts: seq<Stmt>, b: map<string, Binding>, c: set<string>, s: set<string>): set<string>
    decreases stmts, 0
  {
    if stmts == [] then {} else CaughtStmt(stmts[0], b, c, s) + CaughtStmts(stmts[1..], b, c, s)
  }

  function CaughtStmt(t: Stmt, b: map<string, Binding>, c: set<string>, s: set<string>): set<string>
    decreases t, 0
  {
    match t
    case Decl(x, e) => Caught(e, b, c, if x in b then s + {x} else s)
    case Do(e) => Caught(e, b, c, s)
    case Return(e) => Caught(e, b, c, s)
    case If(test, yes, no) =>
      Caught(test, b, c, s) + CaughtStmts(yes, b, c + ToSet(Decls(yes)), s) + CaughtStmts(no, b, c + ToSet(Decls(no)), s)
    case Block(body) => CaughtStmts(body, b, c + ToSet(Decls(body)), s)
  }

  lemma {:induction false} ProperIffUncaught(e: Expr, b: map<string, Binding>, c: set<string>, s: set<string>)
    ensures Rw(e, b, s, false) == Rw(e, b, s + c, true) <==> Caught(e, b, c, s) == {}
    decreases e, 0
  {
    match e
    case Lit(_) =>
    case Var(x) =>
    case Get(of, _) => ProperIffUncaught(of, b, c, s);
    case OrElse(left, right) => ProperIffUncaught(left, b, c, s); ProperIffUncaught(right, b, c, s);
    case Obj(props) => PropsProper(props, b, c, s);
    case Fun(params, body) =>
      var s' := s + ToSet(params) + ToSet(Decls(body));
      StmtsProper(body, b, c, s');
      assert s' + c == s + c + ToSet(params) + ToSet(Decls(body));
    case Call(callee, args) => ProperIffUncaught(callee, b, c, s); AllProper(args, b, c, s);
  }

  lemma {:induction false} AllProper(es: seq<Expr>, b: map<string, Binding>, c: set<string>, s: set<string>)
    ensures RwAll(es, b, s, false) == RwAll(es, b, s + c, true) <==> CaughtAll(es, b, c, s) == {}
    decreases es, 0
  {
    hide Rw, Caught;
    if es != [] {
      ProperIffUncaught(es[0], b, c, s);
      AllProper(es[1..], b, c, s);
      ConsEqual(Rw(es[0], b, s, false), RwAll(es[1..], b, s, false), Rw(es[0], b, s + c, true), RwAll(es[1..], b, s + c, true));
    }
  }

  lemma {:induction false} PropProper(p: Prop, b: map<string, Binding>, c: set<string>, s: set<string>)
    ensures RwProp(p, b, s, false) == RwProp(p, b, s + c, true) <==> CaughtProp(p, b, c, s) == {}
    decreases p, 0
  {
    hide Rw, Caught;
    match p
    case Pair(_, e) => ProperIffUncaught(e, b, c, s);
    case Short(x) =>
  }

  lemma {:induction false} PropsProper(props: seq<Prop>, b: map<string, Binding>, c: set<string>, s: set<string>)
    ensures RwProps(props, b, s, false) == RwProps(props, b, s + c, true) <==> CaughtProps(props, b, c, s) == {}
    decreases props, 0
  {
    hide RwProp, CaughtProp;
    if props != [] {
      PropProper(props[0], b, c, s);
      PropsProper(props[1..], b, c, s);
      ConsEqual(RwProp(props[0], b, s, false), RwProps(props[1..], b, s, false),
                RwProp(props[0], b, s + c, true), RwProps(props[1..], b, s + c, true));
    }
  }

  lemma {:induction false} StmtsProper(stmts: seq<Stmt>, b: map<string, Binding>, c: set<string>, s: set<string>)
    ensures RwStmts(stmts, b, s, false) == RwStmts(stmts, b, s + c, true) <==> CaughtStmts(stmts, b, c, s) == {}
    decreases stmts, 0
  {
    hide RwStmt, CaughtStmt;
    if stmts != [] {
      StmtProper(stmts[0], b, c, s);
      StmtsProper(stmts[1..], b, c, s);
      ConsEqual(RwStmt(stmts[0], b, s, false), RwStmts(stmts[1..], b, s, false),
                RwStmt(stmts[0], b, s + c, true), RwStmts(stmts[1..], b, s + c, true));
    }
  }

  lemma {:induction false} StmtProper(t: Stmt, b: map<string, Binding>, c: set<string>, s: set<string>)
    ensures RwStmt(t, b, s, false) == RwStmt(t, b, s + c, true) <==> CaughtStmt(t, b, c, s) == {}
    decreases t, 0
  {
    hide Rw, Caught, RwStmts, CaughtStmts;
    match t
    case Decl(x, e) =>
      var s' := if x in b then s + {x} else s;
      ProperIffUncaught(e, b, c, s');
      assert s' + c == if x in b then s + c + {x} else s + c;
    case Do(e) => ProperIffUncaught(e, b, c, s);
    case Return(e) => ProperIffUncaught(e, b, c, s);
    case If(test, yes, no) =>
      ProperIffUncaught(test, b, c, s);
      BlockProper(yes, b, c, s);
      BlockProper(no, b, c, s);
    case Block(body) => BlockProper(body, b, c, s);
  }

  lemma {:induction false} BlockProper(body: seq<Stmt>, b: map<string, Binding>, c: set<string>, s: set<string>)
    ensures RwBlock(body, b, s, false) == RwBlock(body, b, s + c, true)
        <==> CaughtStmts(body, b, c + ToSet(Decls(body)), s) == {}
    decreases body, 1
  {
    StmtsProper(body, b, c + ToSet(Decls(body)), s);
    assert s + (c + ToSet(Decls(body))) == s + c + ToSet(Decls(body));
  }
}

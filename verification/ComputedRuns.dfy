/** The run of a component and the run of the one with lazy computeds.

    The source evaluates a declaration once, where it stands; the rewritten program keeps the expression and the
    environment, and evaluates it at each read. A name of the source holds a value; in its place may stand a thunk that
    gives a corresponding value with some amount of fuel. */
module ComputedRuns {
  import opened Common
  import Js
  import opened Computed

  // ------------------------------------------------------------------------------------------
  // More fuel changes nothing
  // ------------------------------------------------------------------------------------------

  lemma {:induction false} MoreFuel(e: Expr, env: Env, w: World, fuel: nat, more: nat)
    requires Eval(e, env, w, fuel).Ok? && fuel <= more
    ensures Eval(e, env, w, more) == Eval(e, env, w, fuel)
    decreases fuel, 1, e, 0
  {
    hide EvalAll, EvalProps, Apply, ForceValue;
    match e
    case Lit(_) =>
    case Var(_) =>
    case Get(of, _) => MoreFuel(of, env, w, fuel, more);
    case Cond(test, yes, no) =>
      MoreFuel(test, env, w, fuel, more);
      if IsTruthy(Eval(test, env, w, fuel).value) { MoreFuel(yes, env, w, fuel, more); } else { MoreFuel(no, env, w, fuel, more); }
    case Obj(props) => MoreFuelProps(props, env, w, fuel, more);
    case Fun(_, _, _) =>
    case Call(callee, args) =>
      MoreFuel(callee, env, w, fuel, more);
      MoreFuelAll(args, env, w, fuel, more);
      MoreFuelApply(Eval(callee, env, w, fuel).value, EvalAll(args, env, w, fuel).value, w, fuel, more);
    case Lazy(_) =>
    case Force(e1) =>
      MoreFuel(e1, env, w, fuel, more);
      MoreFuelForce(Eval(e1, env, w, fuel).value, w, fuel, more);
  }

  lemma {:induction false} MoreFuelAll(es: seq<Expr>, env: Env, w: World, fuel: nat, more: nat)
    requires EvalAll(es, env, w, fuel).Ok? && fuel <= more
    ensures EvalAll(es, env, w, more) == EvalAll(es, env, w, fuel)
    decreases fuel, 1, es, 0
  {
    hide Eval;
    if es != [] { MoreFuel(es[0], env, w, fuel, more); MoreFuelAll(es[1..], env, w, fuel, more); }
  }

  lemma {:induction false} MoreFuelProps(props: seq<Prop>, env: Env, w: World, fuel: nat, more: nat)
    requires EvalProps(props, env, w, fuel).Ok? && fuel <= more
    ensures EvalProps(props, env, w, more) == EvalProps(props, env, w, fuel)
    decreases fuel, 1, props, 0
  {
    hide Eval, KeyOf;
    if props != [] {
      if props[0].Pair? { MoreFuel(props[0].value, env, w, fuel, more); }
      MoreFuelProps(props[1..], env, w, fuel, more);
    }
  }

  lemma {:induction false} MoreFuelApply(f: Value, args: seq<Value>, w: World, fuel: nat, more: nat)
    requires Apply(f, args, w, fuel).Ok? && fuel <= more
    ensures Apply(f, args, w, more) == Apply(f, args, w, fuel)
    decreases fuel, 0
  {
    if f.Clo? { MoreFuelDecls(f.decls, f.result, Enter(f.decls, BindParams(f.params, args, f.env)), w, fuel - 1, more - 1); }
  }

  lemma {:induction false} MoreFuelForce(v: Value, w: World, fuel: nat, more: nat)
    requires ForceValue(v, w, fuel).Ok? && fuel <= more
    ensures ForceValue(v, w, more) == ForceValue(v, w, fuel)
    decreases fuel, 0
  {
    if v.Thunk? { MoreFuel(v.e, v.env, w, fuel - 1, more - 1); }
  }

  lemma {:induction false} MoreFuelDecls(decls: seq<Decl>, result: Expr, env: Env, w: World, fuel: nat, more: nat)
    requires RunDecls(decls, result, env, w, fuel).Ok? && fuel <= more
    ensures RunDecls(decls, result, env, w, more) == RunDecls(decls, result, env, w, fuel)
    decreases fuel, 2, decls
  {
    hide Eval;
    if decls == [] {
      MoreFuel(result, env, w, fuel, more);
    } else {
      MoreFuel(decls[0].init, env, w, fuel, more);
      MoreFuelDecls(decls[1..], result, Bind(decls[0].name, Now(Eval(decls[0].init, env, w, fuel).value), env), w, fuel, more);
    }
  }

  // ------------------------------------------------------------------------------------------
  // Values of the two programs
  // ------------------------------------------------------------------------------------------

  /** The names whose nearest binding is a computed. */
  function LazyNames(env: Env): set<string> {
    match env
    case Base => {}
    case Bind(x, slot, rest) =>
      if (slot.Unset? && slot.computed) || (slot.Now? && slot.value.Thunk?) then LazyNames(rest) + {x} else LazyNames(rest) - {x}
  }

  /** A value of the source and the value of the rewritten program in its place: the same, but for the code of functions. */
  ghost predicate Rel(w: World, v: Value, v': Value)
    decreases v, 0
  {
    match v
    case P(_) => v' == v
    case Rec(fields) => v'.Rec? && RelFields(w, fields, v'.fields)
    case Clo(params, decls, result, env) =>
      v'.Clo? && v'.params == params && PlainDecls(decls) && Plain(result) && RelEnv(w, env, v'.env)
      && exists c: set<string> :: RelCode(c, decls, result, v')
    case Thunk(_, _) => false
  }

  /** The code of a function is rewritten with what the second pass wraps at its place. */
  ghost predicate RelCode(c: set<string>, decls: seq<Decl>, result: Expr, v': Value)
    requires v'.Clo?
  {
    var inside := DeclareAll(decls, LazyNames(v'.env) - Js.ToSet(v'.params), c);
    v'.decls == RwDecls(decls, c, inside) && v'.result == Rw(result, c, DeclareAll(decls, inside, c))
  }

  ghost predicate RelFields(w: World, fields: seq<Field>, fields': seq<Field>)
    decreases fields, 0
  {
    if fields == [] then fields' == []
    else fields' != [] && fields'[0].key == fields[0].key && Rel(w, fields[0].value, fields'[0].value)
         && RelFields(w, fields[1..], fields'[1..])
  }

  /** What a name holds: a value in its place, or a computed that gives one whenever it is forced. */
  ghost predicate RelHeld(w: World, v: Value, v': Value)
    decreases v, 2
  {
    if v'.Thunk? then exists n: nat :: Forces(w, v, v', n) else Rel(w, v, v')
  }

  ghost predicate Forces(w: World, v: Value, v': Value, n: nat)
    requires v'.Thunk?
    decreases v, 1
  {
    Eval(v'.e, v'.env, w, n).Ok? && Rel(w, v, Eval(v'.e, v'.env, w, n).value)
  }

  ghost predicate RelSlot(w: World, slot: Slot, slot': Slot)
    decreases slot, 3
  {
    match slot
    case Unset(_) => slot'.Unset?
    case Now(v) => slot'.Now? && RelHeld(w, v, slot'.value)
  }

  ghost predicate RelEnv(w: World, env: Env, env': Env)
    decreases env, 0
  {
    match env
    case Base => env'.Base?
    case Bind(x, slot, rest) => env'.Bind? && env'.name == x && RelSlot(w, slot, env'.slot) && RelEnv(w, rest, env'.rest)
  }

  ghost predicate RelAll(w: World, vs: seq<Value>, vs': seq<Value>) {
    if vs == [] then vs' == [] else vs' != [] && Rel(w, vs[0], vs'[0]) && RelAll(w, vs[1..], vs'[1..])
  }

  lemma RelIsValue(w: World, v: Value, v': Value)
    requires Rel(w, v, v')
    ensures !v'.Thunk? && RelHeld(w, v, v') && IsTruthy(v) == IsTruthy(v')
  {
  }

  lemma {:induction false} RelShape(w: World, v: Value, v': Value)
    requires Rel(w, v, v')
    ensures ShapeOf(v) == ShapeOf(v')
    decreases v, 0
  {
    if v.Rec? { RelShapeFields(w, v.fields, v'.fields); }
  }

  lemma {:induction false} RelShapeFields(w: World, fields: seq<Field>, fields': seq<Field>)
    requires RelFields(w, fields, fields')
    ensures ShapeFields(fields) == ShapeFields(fields')
    decreases fields, 0
  {
    hide Rel, ShapeOf;
    if fields != [] {
      RelShape(w, fields[0].value, fields'[0].value);
      RelShapeFields(w, fields[1..], fields'[1..]);
    }
  }

  lemma {:induction false} RelShapes(w: World, vs: seq<Value>, vs': seq<Value>)
    requires RelAll(w, vs, vs')
    ensures ShapesOf(vs) == ShapesOf(vs')
  {
    hide Rel, ShapeOf;
    if vs != [] {
      RelShape(w, vs[0], vs'[0]);
      RelShapes(w, vs[1..], vs'[1..]);
    }
  }

  lemma {:induction false} RelLength(w: World, fields: seq<Field>, fields': seq<Field>)
    requires RelFields(w, fields, fields')
    ensures |fields| == |fields'|
    ensures forall i | 0 <= i < |fields| :: fields[i].key == fields'[i].key && Rel(w, fields[i].value, fields'[i].value)
  {
    hide Rel;
    if fields != [] { RelLength(w, fields[1..], fields'[1..]); }
  }

  lemma {:induction false} RelFieldOf(w: World, fields: seq<Field>, fields': seq<Field>, key: string)
    requires |fields| == |fields'|
    requires forall i | 0 <= i < |fields| :: fields[i].key == fields'[i].key && Rel(w, fields[i].value, fields'[i].value)
    ensures Rel(w, FieldOf(fields, key), FieldOf(fields', key))
  {
    if fields != [] { RelFieldOf(w, fields[..|fields|-1], fields'[..|fields|-1], key); }
  }

  lemma RelGet(w: World, v: Value, v': Value, key: string)
    requires Rel(w, v, v') && GetField(v, key).Ok?
    ensures GetField(v', key).Ok? && Rel(w, GetField(v, key).value, GetField(v', key).value)
  {
    if v.Rec? {
      RelLength(w, v.fields, v'.fields);
      RelFieldOf(w, v.fields, v'.fields, key);
    }
  }

  lemma {:induction false} RelLookup(w: World, env: Env, env': Env, x: string)
    requires RelEnv(w, env, env')
    ensures match Lookup(env, x)
      case None => Lookup(env', x).None? && x !in LazyNames(env')
      case Some(slot) =>
        Lookup(env', x).Some? && RelSlot(w, slot, Lookup(env', x).value)
        && (Lookup(env', x).value.Now? ==> (x in LazyNames(env') <==> Lookup(env', x).value.value.Thunk?))
  {
    hide RelSlot;
    if env.Bind? && env.name != x { RelLookup(w, env.rest, env'.rest, x); }
  }

  /** Parameters hold values, so a parameter ends the computed of its name. */
  lemma {:induction false} RelParams(w: World, params: seq<string>, vs: seq<Value>, vs': seq<Value>, env: Env, env': Env)
    requires RelEnv(w, env, env') && RelAll(w, vs, vs')
    ensures RelEnv(w, BindParams(params, vs, env), BindParams(params, vs', env'))
    ensures LazyNames(BindParams(params, vs', env')) == LazyNames(env') - Js.ToSet(params)
    decreases |params|
  {
    hide Rel, RelHeld;
    if params == [] {
      assert LazyNames(env') - Js.ToSet(params) == LazyNames(env');
    } else {
      var v := if vs == [] then P(Js.Undefined) else vs[0];
      var v' := if vs == [] then P(Js.Undefined) else vs'[0];
      RelIsValue(w, v, v');
      RelParams(w, params[1..], if vs == [] then [] else vs[1..], if vs == [] then [] else vs'[1..],
        Bind(params[0], Now(v), env), Bind(params[0], Now(v'), env'));
      assert LazyNames(env') - Js.ToSet(params) == LazyNames(env') - {params[0]} - Js.ToSet(params[1..]);
    }
  }

  lemma RwNotLazy(e: Expr, c: set<string>, l: set<string>)
    requires Plain(e)
    ensures !e.Lazy? && !Rw(e, c, l).Lazy?
  {
  }

  lemma {:induction false} RelEnter(c: set<string>, w: World, decls: seq<Decl>, l: set<string>, env: Env, env': Env)
    requires RelEnv(w, env, env') && PlainDecls(decls)
    ensures RelEnv(w, Enter(decls, env), Enter(RwDecls(decls, c, l), env'))
    ensures LazyNames(Enter(RwDecls(decls, c, l), env')) == DeclareAll(decls, LazyNames(env'), c)
    decreases |decls|
  {
    hide Rw, Plain, RelHeld;
    if decls != [] {
      var d, d' := decls[0], RwDecl(decls[0], c, l);
      RwNotLazy(d.init, {}, l);
      var rest := RwDecls(decls[1..], c, Declare(l, d, c));
      ConsEqual(d', rest, d', rest);
      RelEnter(c, w, decls[1..], Declare(l, d, c), Bind(d.name, Unset(d.init.Lazy?), env), Bind(d.name, Unset(d'.init.Lazy?), env'));
    }
  }

  // ------------------------------------------------------------------------------------------
  // The rewritten program gives what the source gives
  // ------------------------------------------------------------------------------------------

  lemma {:induction false} VarFollows(c: set<string>, w: World, x: string, env: Env, env': Env) returns (m: nat, v': Value)
    requires RelEnv(w, env, env') && ReadVar(x, env, w).Ok?
    ensures Eval(Rw(Var(x), c, LazyNames(env')), env', w, m) == Ok(v') && Rel(w, ReadVar(x, env, w).value, v')
  {
    RelLookup(w, env, env', x);
    if x in LazyNames(env') {
      var v, thunk := ReadVar(x, env, w).value, Lookup(env', x).value.value;
      assert RelHeld(w, v, thunk);
      var n: nat :| Forces(w, v, thunk, n);
      m, v' := n + 1, Eval(thunk.e, thunk.env, w, n).value;
      assert Eval(Var(x), env', w, m) == Ok(thunk);
      assert ForceValue(thunk, w, m) == Eval(thunk.e, thunk.env, w, n);
    } else {
      m, v' := 0, ReadVar(x, env', w).value;
      if Lookup(env, x).Some? {
        assert RelHeld(w, ReadVar(x, env, w).value, v');
      }
    }
  }

  lemma {:induction false} EvalFollows(c: set<string>, w: World, e: Expr, env: Env, env': Env, fuel: nat) returns (m: nat, v': Value)
    requires Plain(e) && RelEnv(w, env, env') && Eval(e, env, w, fuel).Ok?
    ensures Eval(Rw(e, c, LazyNames(env')), env', w, m) == Ok(v') && Rel(w, Eval(e, env, w, fuel).value, v')
    decreases fuel, 1, e, 1
  {
    hide RelEnv, EvalAll, EvalProps, Apply, ForceValue, ReadVar, RwAll, RwProps;
    var l := LazyNames(env');
    match e
    case Lit(p) => m, v' := 0, P(p);
    case Var(x) => m, v' := VarFollows(c, w, x, env, env');
    case Get(of, key) =>
      var u': Value;
      m, u' := EvalFollows(c, w, of, env, env', fuel);
      RelGet(w, Eval(of, env, w, fuel).value, u', key);
      v' := GetField(u', key).value;
    case Cond(test, yes, no) => m, v' := CondFollows(c, w, test, yes, no, env, env', fuel);
    case Obj(props) =>
      var fields': seq<Field>;
      m, fields' := PropsFollow(c, w, props, env, env', fuel);
      v' := Rec(fields');
    case Fun(params, decls, result) =>
      var inside := DeclareAll(decls, l - Js.ToSet(params), c);
      m, v' := 0, Clo(params, RwDecls(decls, c, inside), Rw(result, c, DeclareAll(decls, inside, c)), env');
      assert RelCode(c, decls, result, v');
    case Call(callee, args) => m, v' := CallFollows(c, w, callee, args, env, env', fuel);
    case _ => assert false;
  }

  lemma {:induction false} CondFollows(c: set<string>, w: World, test: Expr, yes: Expr, no: Expr, env: Env, env': Env, fuel: nat)
      returns (m: nat, v': Value)
    requires Plain(Cond(test, yes, no)) && RelEnv(w, env, env') && Eval(Cond(test, yes, no), env, w, fuel).Ok?
    ensures Eval(Rw(Cond(test, yes, no), c, LazyNames(env')), env', w, m) == Ok(v')
    ensures Rel(w, Eval(Cond(test, yes, no), env, w, fuel).value, v')
    decreases fuel, 1, Cond(test, yes, no), 0
  {
    hide Rel, RelEnv;
    var l := LazyNames(env');
    var m1, t' := EvalFollows(c, w, test, env, env', fuel);
    var t := Eval(test, env, w, fuel).value;
    RelIsValue(w, t, t');
    var branch := if IsTruthy(t) then yes else no;
    var m2: nat;
    m2, v' := EvalFollows(c, w, branch, env, env', fuel);
    m := Max(m1, m2);
    MoreFuel(Rw(test, c, l), env', w, m1, m);
    MoreFuel(Rw(branch, c, l), env', w, m2, m);
  }

  lemma {:induction false} CallFollows(c: set<string>, w: World, callee: Expr, args: seq<Expr>, env: Env, env': Env, fuel: nat)
      returns (m: nat, v': Value)
    requires Plain(Call(callee, args)) && RelEnv(w, env, env') && Eval(Call(callee, args), env, w, fuel).Ok?
    ensures Eval(Rw(Call(callee, args), c, LazyNames(env')), env', w, m) == Ok(v')
    ensures Rel(w, Eval(Call(callee, args), env, w, fuel).value, v')
    decreases fuel, 1, Call(callee, args), 0
  {
    hide Rel, RelEnv, RelAll, Apply, EvalAll, RwAll;
    var l := LazyNames(env');
    var m1, f' := EvalFollows(c, w, callee, env, env', fuel);
    var m2, vs' := AllFollow(c, w, args, env, env', fuel);
    var m3: nat;
    m3, v' := ApplyFollows(w, Eval(callee, env, w, fuel).value, f', EvalAll(args, env, w, fuel).value, vs', fuel);
    m := Max(m1, Max(m2, m3));
    MoreFuel(Rw(callee, c, l), env', w, m1, m);
    MoreFuelAll(RwAll(args, c, l), env', w, m2, m);
    MoreFuelApply(f', vs', w, m3, m);
  }

  lemma {:induction false} AllFollow(c: set<string>, w: World, es: seq<Expr>, env: Env, env': Env, fuel: nat) returns (m: nat, vs': seq<Value>)
    requires PlainAll(es) && RelEnv(w, env, env') && EvalAll(es, env, w, fuel).Ok?
    ensures EvalAll(RwAll(es, c, LazyNames(env')), env', w, m) == Ok(vs') && RelAll(w, EvalAll(es, env, w, fuel).value, vs')
    decreases fuel, 1, es, 0
  {
    hide Rel, RelEnv, Eval, Rw;
    if es == [] {
      m, vs' := 0, [];
    } else {
      var l := LazyNames(env');
      var m1, v' := EvalFollows(c, w, es[0], env, env', fuel);
      var m2, rest' := AllFollow(c, w, es[1..], env, env', fuel);
      m, vs' := Max(m1, m2), [v'] + rest';
      MoreFuel(Rw(es[0], c, l), env', w, m1, m);
      MoreFuelAll(RwAll(es[1..], c, l), env', w, m2, m);
    }
  }

  lemma {:induction false} PropFollows(c: set<string>, w: World, p: Prop, env: Env, env': Env, fuel: nat) returns (m: nat, v': Value)
    requires (p.Pair? ==> Plain(p.value)) && RelEnv(w, env, env') && EvalProp(p, env, w, fuel).Ok?
    ensures EvalProp(RwProp(p, c, LazyNames(env')), env', w, m) == Ok(v') && Rel(w, EvalProp(p, env, w, fuel).value, v')
    ensures KeyOf(RwProp(p, c, LazyNames(env'))) == KeyOf(p)
    decreases fuel, 1, p, 0
  {
    hide Rel, RelEnv;
    match p
    case Pair(_, e) => m, v' := EvalFollows(c, w, e, env, env', fuel);
    case Short(x) => m, v' := VarFollows(c, w, x, env, env');
  }

  lemma {:induction false} PropsFollow(c: set<string>, w: World, props: seq<Prop>, env: Env, env': Env, fuel: nat)
      returns (m: nat, fields': seq<Field>)
    requires PlainProps(props) && RelEnv(w, env, env') && EvalProps(props, env, w, fuel).Ok?
    ensures EvalProps(RwProps(props, c, LazyNames(env')), env', w, m) == Ok(fields')
    ensures RelFields(w, EvalProps(props, env, w, fuel).value, fields')
    decreases fuel, 1, props, 0
  {
    hide Rel, RelEnv, EvalProp, RwProp, KeyOf;
    if props == [] {
      m, fields' := 0, [];
    } else {
      var l := LazyNames(env');
      var m1, v' := PropFollows(c, w, props[0], env, env', fuel);
      var m2, rest' := PropsFollow(c, w, props[1..], env, env', fuel);
      m, fields' := Max(m1, m2), [Field(KeyOf(props[0]), v')] + rest';
      MoreFuelProp(RwProp(props[0], c, l), env', w, m1, m);
      MoreFuelProps(RwProps(props[1..], c, l), env', w, m2, m);
    }
  }

  lemma MoreFuelProp(p: Prop, env: Env, w: World, fuel: nat, more: nat)
    requires EvalProp(p, env, w, fuel).Ok? && fuel <= more
    ensures EvalProp(p, env, w, more) == EvalProp(p, env, w, fuel)
  {
    if p.Pair? { MoreFuel(p.value, env, w, fuel, more); }
  }

  lemma {:induction false} ApplyFollows(w: World, f: Value, f': Value, vs: seq<Value>, vs': seq<Value>, fuel: nat)
      returns (m: nat, v': Value)
    requires Rel(w, f, f') && RelAll(w, vs, vs') && Apply(f, vs, w, fuel).Ok?
    ensures Apply(f', vs', w, m) == Ok(v') && Rel(w, Apply(f, vs, w, fuel).value, v')
    decreases fuel, 0
  {
    hide RelEnv, RelAll, RunBlock, RwDecls, DeclareAll, Rw;
    match f
    case P(_) =>
      RelShapes(w, vs, vs');
      m, v' := fuel, Apply(f, vs, w, fuel).value;
    case Clo(params, decls, result, env) =>
      RelParams(w, params, vs, vs', env, f'.env);
      var c: set<string> :| RelCode(c, decls, result, f');
      var m1: nat;
      m1, v' := BlockFollows(c, w, decls, result, BindParams(params, vs, env), BindParams(params, vs', f'.env), fuel - 1);
      m := m1 + 1;
    case _ => assert false;
  }

  lemma {:induction false} BlockFollows(c: set<string>, w: World, decls: seq<Decl>, result: Expr, env: Env, env': Env, fuel: nat)
      returns (m: nat, v': Value)
    requires PlainDecls(decls) && Plain(result) && RelEnv(w, env, env') && RunBlock(decls, result, env, w, fuel).Ok?
    ensures var inside := DeclareAll(decls, LazyNames(env'), c);
      RunBlock(RwDecls(decls, c, inside), Rw(result, c, DeclareAll(decls, inside, c)), env', w, m) == Ok(v')
      && Rel(w, RunBlock(decls, result, env, w, fuel).value, v')
    decreases fuel, 3
  {
    hide Rel, RelEnv, RwDecls, Rw, RunDecls, DeclareAll, LazyNames;
    var inside := DeclareAll(decls, LazyNames(env'), c);
    RelEnter(c, w, decls, inside, env, env');
    m, v' := DeclsFollow(c, w, decls, result, Enter(decls, env), Enter(RwDecls(decls, c, inside), env'), fuel);
  }

  /** The value a declaration gives its name on the two sides. */
  lemma {:induction false} DeclHeld(c: set<string>, w: World, d: Decl, v: Value, u': Value, env': Env, m: nat)
    requires Eval(Rw(d.init, {}, LazyNames(env')), env', w, m) == Ok(u') && Rel(w, v, u')
    ensures var o := Eval(RwDecl(d, c, LazyNames(env')).init, env', w, m);
      o.Ok? && RelHeld(w, v, o.value) && LazyNames(Bind(d.name, Now(o.value), env')) == Declare(LazyNames(env'), d, c)
  {
    hide Rel, Rw;
    RelIsValue(w, v, u');
    if IsWrapped(d, c) {
      var thunk := Thunk(Rw(d.init, {}, LazyNames(env')), env');
      assert Forces(w, v, thunk, m);
    }
  }

  lemma {:induction false} DeclsFollow(c: set<string>, w: World, decls: seq<Decl>, result: Expr, env: Env, env': Env, fuel: nat)
      returns (m: nat, v': Value)
    requires PlainDecls(decls) && Plain(result) && RelEnv(w, env, env') && RunDecls(decls, result, env, w, fuel).Ok?
    ensures var l := LazyNames(env');
      RunDecls(RwDecls(decls, c, l), Rw(result, c, DeclareAll(decls, l, c)), env', w, m) == Ok(v')
      && Rel(w, RunDecls(decls, result, env, w, fuel).value, v')
    decreases fuel, 2, decls
  {
    hide Rel, RelHeld, Eval, Rw, Plain, LazyNames, Declare, RwDecl;
    var l := LazyNames(env');
    if decls == [] {
      m, v' := EvalFollows(c, w, result, env, env', fuel);
    } else {
      var d, d' := decls[0], RwDecl(decls[0], c, l);
      var v := Eval(d.init, env, w, fuel).value;
      var m1, u' := EvalFollows({}, w, d.init, env, env', fuel);
      DeclHeld(c, w, d, v, u', env', m1);
      var held := Eval(d'.init, env', w, m1).value;
      var m2: nat;
      m2, v' := DeclsFollow(c, w, decls[1..], result, Bind(d.name, Now(v), env), Bind(d.name, Now(held), env'), fuel);
      m := Max(m1, m2);
      var rest := RwDecls(decls[1..], c, Declare(l, d, c));
      var last := Rw(result, c, DeclareAll(decls, l, c));
      MoreFuel(d'.init, env', w, m1, m);
      MoreFuelDecls(rest, last, Bind(d.name, Now(held), env'), w, m2, m);
      DeclName(d, c, l);
      ConsEqual(d', rest, d', rest);
      assert RwDecls(decls, c, l) == [d'] + rest;
    }
  }

  lemma DeclName(d: Decl, c: set<string>, l: set<string>)
    ensures RwDecl(d, c, l).name == d.name
  {
  }

  // ------------------------------------------------------------------------------------------
  // Looking at the results
  // ------------------------------------------------------------------------------------------

  lemma {:induction false} PrimsRel(w: World, args: seq<Js.Prim>)
    ensures RelAll(w, Prims(args), Prims(args))
  {
    if args != [] { PrimsRel(w, args[1..]); }
  }

  lemma {:induction false} MoreFuelObserve(v: Value, probes: seq<Js.Probe>, w: World, fuel: nat, more: nat)
    requires Observe(v, probes, w, fuel).Ok? && fuel <= more
    ensures Observe(v, probes, w, more) == Observe(v, probes, w, fuel)
    decreases |probes|
  {
    hide Apply, GetField;
    if probes != [] {
      match probes[0]
      case ReadField(key) => MoreFuelObserve(GetField(v, key).value, probes[1..], w, fuel, more);
      case CallWith(args) =>
        MoreFuelApply(v, Prims(args), w, fuel, more);
        MoreFuelObserve(Apply(v, Prims(args), w, fuel).value, probes[1..], w, fuel, more);
    }
  }

  /** Corresponding values look the same, functions that they hold called as often as one likes. */
  lemma {:induction false} ObserveFollows(w: World, v: Value, v': Value, probes: seq<Js.Probe>, fuel: nat) returns (m: nat)
    requires Rel(w, v, v') && Observe(v, probes, w, fuel).Ok?
    ensures Observe(v', probes, w, m) == Observe(v, probes, w, fuel)
    decreases |probes|
  {
    hide Apply, GetField, Rel, RelAll, ShapeOf;
    if probes == [] {
      RelShape(w, v, v');
      m := 0;
    } else {
      match probes[0]
      case ReadField(key) =>
        RelGet(w, v, v', key);
        m := ObserveFollows(w, GetField(v, key).value, GetField(v', key).value, probes[1..], fuel);
      case CallWith(args) =>
        PrimsRel(w, args);
        var m1, u' := ApplyFollows(w, v, v', Prims(args), Prims(args), fuel);
        var m2 := ObserveFollows(w, Apply(v, Prims(args), w, fuel).value, u', probes[1..], fuel);
        m := Max(m1, m2);
        MoreFuelApply(v', Prims(args), w, m1, m);
        MoreFuelObserve(u', probes[1..], w, m2, m);
    }
  }
}

/** The run of a component and the run of the rewritten one correspond step by step.

    The two evaluate related programs in related environments over related stores. A function of the source and the
    function in its place have different code and need agree only on the names that the code uses: a default value that
    is a function is made outside the component on one side and wherever it is needed on the other. */
module PropsRuns {
  import opened Common
  import opened Js
  import opened Props

  // ------------------------------------------------------------------------------------------
  // Values of the two runs
  // ------------------------------------------------------------------------------------------

  /** __props is nowhere a name of the program. */
  predicate Clean(e: Expr)
    decreases e, 0
  {
    match e
    case Lit(_) => true
    case Var(x) => x != PROPS
    case Get(of, _) => Clean(of)
    case OrElse(left, right) => Clean(left) && Clean(right)
    case Obj(props) => CleanProps(props)
    case Fun(params, body) => PROPS !in params && CleanStmts(body)
    case Call(callee, args) => Clean(callee) && CleanAll(args)
  }

  predicate CleanAll(es: seq<Expr>)
    decreases es, 0
  {
    es == [] || (Clean(es[0]) && CleanAll(es[1..]))
  }

  predicate CleanProp(p: Prop)
    decreases p, 0
  {
    match p
    case Pair(_, e) => Clean(e)
    case Short(x) => x != PROPS
  }

  predicate CleanProps(props: seq<Prop>)
    decreases props, 0
  {
    props == [] || (CleanProp(props[0]) && CleanProps(props[1..]))
  }

  predicate CleanStmts(stmts: seq<Stmt>)
    decreases stmts, 0
  {
    stmts == [] || (CleanStmt(stmts[0]) && CleanStmts(stmts[1..]))
  }

  predicate CleanStmt(t: Stmt)
    decreases t, 0
  {
    match t
    case Decl(x, e) => x != PROPS && Clean(e)
    case Do(e) => Clean(e)
    case Return(e) => Clean(e)
    case If(test, yes, no) => Clean(test) && CleanStmts(yes) && CleanStmts(no)
    case Block(body) => CleanStmts(body)
  }

  /** A default that is a value as it stands: a literal, an object of such, or a function that uses nothing around it. */
  predicate IsClosedValue(d: Expr) {
    match d
    case Lit(_) => true
    case Obj(props) => AreClosedValues(props)
    case Fun(params, body) => FreeBlock(body) <= ToSet(params) && Clean(d)
    case _ => false
  }

  predicate AreClosedValues(props: seq<Prop>) {
    props == [] || (props[0].Pair? && IsClosedValue(props[0].value) && AreClosedValues(props[1..]))
  }

  function ClosedValue(d: Expr, env: Env): Value
    requires IsClosedValue(d)
  {
    match d
    case Lit(p) => P(p)
    case Obj(props) => Rec(ClosedFields(props, env))
    case Fun(params, body) => Clo(params, body, env)
  }

  function ClosedFields(props: seq<Prop>, env: Env): seq<Field>
    requires AreClosedValues(props)
  {
    if props == [] then [] else [Field(props[0].key, ClosedValue(props[0].value, env))] + ClosedFields(props[1..], env)
  }

  /** The bindings that are replaced, and the names that only the source has outside the component. */
  datatype Frame = Frame(b: map<string, Binding>, hidden: set<string>)

  /** A value of the source program and the value of the rewritten one in its place: the same, but for the code of
      functions, where what the code uses around it must again correspond. */
  ghost predicate Rel(r: Frame, v: Value, v': Value) {
    match v
    case P(_) => v' == v
    case Rec(fields) => v'.Rec? && RelFields(r, fields, v'.fields)
    case Clo(params, body, env) =>
      v'.Clo? && v'.params == params && PROPS !in params && CleanStmts(body)
      && v'.body == RwBody(body, r.b, Names(env) + ToSet(params), true)
      && RelEnv(r, env, v'.env, FreeBlock(body) - ToSet(params))
  }

  ghost predicate RelFields(r: Frame, fields: seq<Field>, fields': seq<Field>) {
    if fields == [] then fields' == []
    else fields' != [] && fields'[0].key == fields[0].key && Rel(r, fields[0].value, fields'[0].value)
         && RelFields(r, fields[1..], fields'[1..])
  }

  ghost predicate RelSlot(r: Frame, slot: Slot, slot': Slot) {
    match slot
    case Now(v) => slot'.Now? && Rel(r, v, slot'.value)
    case Cell(_) => slot' == slot
  }

  /** The two environments give corresponding meanings to the names in use. */
  ghost predicate RelEnv(r: Frame, env: Env, env': Env, used: set<string>) {
    used == {} ||
    match env
    case Base => env'.Base? && used !! r.hidden
    case Bind(x, slot, rest) =>
      env'.Bind? && env'.name == x && x != PROPS && (x in used ==> RelSlot(r, slot, env'.slot))
      && RelEnv(r, rest, env'.rest, used - {x})
  }

  ghost predicate RelCell(r: Frame, c: Option<Value>, c': Option<Value>) {
    match c
    case None => c'.None?
    case Some(v) => c'.Some? && Rel(r, v, c'.value)
  }

  ghost predicate RelStore(r: Frame, st: Store, st': Store) {
    |st.cells| == |st'.cells| && (forall i | 0 <= i < |st.cells| :: RelCell(r, st.cells[i], st'.cells[i])) && st.calls == st'.calls
  }

  ghost predicate RelAll(r: Frame, vs: seq<Value>, vs': seq<Value>) {
    if vs == [] then vs' == [] else vs' != [] && Rel(r, vs[0], vs'[0]) && RelAll(r, vs[1..], vs'[1..])
  }

  ghost predicate RelOutcome(r: Frame, o: Outcome<Value>, o': Outcome<Value>) {
    match o
    case Timeout => o'.Timeout?
    case Throws(calls) => o' == Throws(calls)
    case Ok(v, st) => o'.Ok? && Rel(r, v, o'.value) && RelStore(r, st, o'.st)
  }

  ghost predicate RelOutcomes(r: Frame, o: Outcome<seq<Value>>, o': Outcome<seq<Value>>) {
    match o
    case Timeout => o'.Timeout?
    case Throws(calls) => o' == Throws(calls)
    case Ok(vs, st) => o'.Ok? && RelAll(r, vs, o'.value) && RelStore(r, st, o'.st)
  }

  ghost predicate RelRecord(r: Frame, o: Outcome<seq<Field>>, o': Outcome<seq<Field>>) {
    match o
    case Timeout => o'.Timeout?
    case Throws(calls) => o' == Throws(calls)
    case Ok(fields, st) => o'.Ok? && RelFields(r, fields, o'.value) && RelStore(r, st, o'.st)
  }

  ghost predicate RelFlow(r: Frame, o: Outcome<Option<Value>>, o': Outcome<Option<Value>>) {
    match o
    case Timeout => o'.Timeout?
    case Throws(calls) => o' == Throws(calls)
    case Ok(result, st) => o'.Ok? && RelCell(r, result, o'.value) && RelStore(r, st, o'.st)
  }

  /** The two runs: the bindings, the fields of the props object, and the names outside the component on each side. */
  datatype Sides = Sides(r: Frame, fields: seq<Field>, w: World, w': World)

  /** What a binding starts with. */
  function Initial(fields: seq<Field>, p: Binding): Value
    requires p.default.Some? ==> IsClosedValue(p.default.value)
  {
    var v := FieldOf(fields, p.prop);
    if v == P(Undefined) && p.default.Some? then ClosedValue(p.default.value, Base) else v
  }

  ghost predicate RelWorld(k: Sides) {
    && k.w.host == k.w'.host
    && AreData(k.fields)
    && PROPS in k.w'.top && k.w'.top[PROPS] == Rec(k.fields)
    && PROPS !in k.r.b
    && (forall x | x in k.r.b :: x in k.w.top && BindingFits(k, x))
    && (forall x | x !in k.r.b && x !in k.r.hidden && x != PROPS :: x in k.w.top <==> x in k.w'.top)
    && (forall x | x !in k.r.b && x !in k.r.hidden && x != PROPS && x in k.w.top :: SameData(k, x))
  }

  ghost predicate BindingFits(k: Sides, x: string)
    requires x in k.r.b && x in k.w.top
  {
    var p := k.r.b[x];
    (p.default.Some? ==> IsClosedValue(p.default.value) && FieldOf(k.fields, p.prop) != P(Null))
    && k.w.top[x] == Initial(k.fields, p)
  }

  ghost predicate SameData(k: Sides, x: string)
    requires x in k.w.top && x in k.w'.top
  {
    IsData(k.w.top[x]) && k.w'.top[x] == k.w.top[x]
  }

  // ------------------------------------------------------------------------------------------
  // Small facts about corresponding values
  // ------------------------------------------------------------------------------------------

  lemma {:induction false} DataRel(r: Frame, v: Value)
    requires IsData(v)
    ensures Rel(r, v, v)
    decreases v, 0
  {
    if v.Rec? { DataRelFields(r, v.fields); }
  }

  lemma {:induction false} DataRelFields(r: Frame, fields: seq<Field>)
    requires AreData(fields)
    ensures RelFields(r, fields, fields)
    decreases fields, 0
  {
    if fields != [] {
      DataRel(r, fields[0].value);
      DataRelFields(r, fields[1..]);
    }
  }

  lemma {:induction false} DataField(fields: seq<Field>, key: string)
    requires AreData(fields)
    ensures IsData(FieldOf(fields, key))
  {
    if fields != [] {
      DataPrefix(fields);
      DataField(fields[..|fields|-1], key);
    }
  }

  lemma {:induction false} DataPrefix(fields: seq<Field>)
    requires AreData(fields) && fields != []
    ensures AreData(fields[..|fields|-1]) && IsData(fields[|fields|-1].value)
  {
    if |fields| > 1 {
      DataPrefix(fields[1..]);
      assert fields[..|fields|-1] == [fields[0]] + fields[1..][..|fields|-2];
      assert fields[..|fields|-1][1..] == fields[1..][..|fields|-2];
    }
  }

  lemma {:induction false} RelLength(r: Frame, fields: seq<Field>, fields': seq<Field>)
    requires RelFields(r, fields, fields')
    ensures |fields| == |fields'|
    ensures forall i | 0 <= i < |fields| :: fields[i].key == fields'[i].key && Rel(r, fields[i].value, fields'[i].value)
  {
    hide Rel;
    if fields != [] { RelLength(r, fields[1..], fields'[1..]); }
  }

  lemma {:induction false} RelFieldOf(r: Frame, fields: seq<Field>, fields': seq<Field>, key: string)
    requires |fields| == |fields'|
    requires forall i | 0 <= i < |fields| :: fields[i].key == fields'[i].key && Rel(r, fields[i].value, fields'[i].value)
    ensures Rel(r, FieldOf(fields, key), FieldOf(fields', key))
  {
    if fields != [] { RelFieldOf(r, fields[..|fields|-1], fields'[..|fields|-1], key); }
  }

  lemma RelGet(r: Frame, v: Value, v': Value, key: string)
    requires Rel(r, v, v')
    ensures RelCell(r, GetField(v, key), GetField(v', key))
  {
    if v.Rec? {
      RelLength(r, v.fields, v'.fields);
      RelFieldOf(r, v.fields, v'.fields, key);
    }
  }

  lemma {:induction false} RelShape(r: Frame, v: Value, v': Value)
    requires Rel(r, v, v')
    ensures ShapeOf(v) == ShapeOf(v') && IsNullish(v) == IsNullish(v') && IsTruthy(v) == IsTruthy(v')
    decreases v, 0
  {
    if v.Rec? { RelShapeFields(r, v.fields, v'.fields); }
  }

  lemma {:induction false} RelShapeFields(r: Frame, fields: seq<Field>, fields': seq<Field>)
    requires RelFields(r, fields, fields')
    ensures ShapeFields(fields) == ShapeFields(fields')
    decreases fields, 0
  {
    hide Rel, ShapeOf;
    if fields != [] {
      RelShape(r, fields[0].value, fields'[0].value);
      RelShapeFields(r, fields[1..], fields'[1..]);
    }
  }

  lemma {:induction false} RelShapes(r: Frame, vs: seq<Value>, vs': seq<Value>)
    requires RelAll(r, vs, vs')
    ensures ShapesOf(vs) == ShapesOf(vs')
  {
    hide Rel, ShapeOf;
    if vs != [] {
      RelShape(r, vs[0], vs'[0]);
      RelShapes(r, vs[1..], vs'[1..]);
    }
  }

  lemma {:induction false} RelEnvLess(r: Frame, env: Env, env': Env, used: set<string>, less: set<string>)
    requires RelEnv(r, env, env', used) && less <= used
    ensures RelEnv(r, env, env', less)
  {
    hide RelSlot;
    if env.Bind? && less != {} { RelEnvLess(r, env.rest, env'.rest, used - {env.name}, less - {env.name}); }
  }

  lemma {:induction false} RelLookup(r: Frame, env: Env, env': Env, used: set<string>, x: string)
    requires RelEnv(r, env, env', used) && x in used && x != PROPS
    ensures Lookup(env, x).Some? <==> x in Names(env)
    ensures match Lookup(env, x)
      case None => Lookup(env', x).None? && Lookup(env', PROPS).None? && x !in r.hidden
      case Some(slot) => Lookup(env', x).Some? && RelSlot(r, slot, Lookup(env', x).value)
  {
    hide RelSlot;
    if env.Bind? && env.name != x { RelLookup(r, env.rest, env'.rest, used - {env.name}, x); }
  }

  lemma RelBind(r: Frame, x: string, slot: Slot, slot': Slot, env: Env, env': Env, used: set<string>)
    requires RelEnv(r, env, env', used - {x}) && RelSlot(r, slot, slot') && x != PROPS
    ensures RelEnv(r, Bind(x, slot, env), Bind(x, slot', env'), used)
  {
  }

  lemma {:induction false} RelParams(r: Frame, params: seq<string>, vs: seq<Value>, vs': seq<Value>,
      env: Env, env': Env, used: set<string>)
    requires RelEnv(r, env, env', used - ToSet(params)) && RelAll(r, vs, vs') && PROPS !in params
    ensures RelEnv(r, BindParams(params, vs, env), BindParams(params, vs', env'), used)
    ensures Names(BindParams(params, vs, env)) == Names(env) + ToSet(params)
    decreases |params|
  {
    hide Rel, RelSlot, RelEnv;
    if params == [] {
      assert used - ToSet(params) == used && Names(env) + ToSet(params) == Names(env);
    } else {
      var x := params[0];
      var v := Now(if vs == [] then P(Undefined) else vs[0]);
      var v' := Now(if vs == [] then P(Undefined) else vs'[0]);
      assert used - ToSet(params) == used - ToSet(params[1..]) - {x};
      RelArgument(r, vs, vs');
      RelBind(r, x, v, v', env, env', used - ToSet(params[1..]));
      RelParams(r, params[1..], if vs == [] then [] else vs[1..], if vs == [] then [] else vs'[1..],
        Bind(x, v, env), Bind(x, v', env'), used);
      assert Names(env) + ToSet(params) == {x} + Names(env) + ToSet(params[1..]);
    }
  }

  lemma RelArgument(r: Frame, vs: seq<Value>, vs': seq<Value>)
    requires RelAll(r, vs, vs')
    ensures vs == [] <==> vs' == []
    ensures RelSlot(r, Now(if vs == [] then P(Undefined) else vs[0]), Now(if vs == [] then P(Undefined) else vs'[0]))
  {
  }

  lemma {:induction false} RelCells(r: Frame, names: seq<string>, at: nat, env: Env, env': Env, used: set<string>)
    requires RelEnv(r, env, env', used - ToSet(names)) && PROPS !in names
    ensures RelEnv(r, BindCells(names, at, env), BindCells(names, at, env'), used)
    ensures Names(BindCells(names, at, env)) == Names(env) + ToSet(names)
    decreases |names|
  {
    hide RelEnv;
    if names == [] {
      assert used - ToSet(names) == used && Names(env) + ToSet(names) == Names(env);
    } else {
      var x := names[0];
      assert used - ToSet(names) == used - ToSet(names[1..]) - {x};
      RelBind(r, x, Cell(at), Cell(at), env, env', used - ToSet(names[1..]));
      RelCells(r, names[1..], at + 1, Bind(x, Cell(at), env), Bind(x, Cell(at), env'), used);
      assert Names(env) + ToSet(names) == {x} + Names(env) + ToSet(names[1..]);
    }
  }

  // ------------------------------------------------------------------------------------------
  // Closed values
  // ------------------------------------------------------------------------------------------

  lemma {:induction false} ClosedEvals(d: Expr, env: Env, st: Store, w: World, fuel: nat)
    requires IsClosedValue(d)
    ensures Eval(d, env, st, w, fuel) == Ok(ClosedValue(d, env), st)
    decreases d, 0
  {
    hide EvalProps;
    if d.Obj? { ClosedFieldsEval(d.props, env, st, w, fuel); }
  }

  lemma {:induction false} ClosedFieldsEval(props: seq<Prop>, env: Env, st: Store, w: World, fuel: nat)
    requires AreClosedValues(props)
    ensures EvalProps(props, env, st, w, fuel) == Ok(ClosedFields(props, env), st)
    decreases props, 0
  {
    hide Eval, ClosedValue;
    if props != [] {
      ClosedEvals(props[0].value, env, st, w, fuel);
      ClosedFieldsEval(props[1..], env, st, w, fuel);
    }
  }

  /** A function that uses nothing around it is the same after the rewrite. */
  lemma {:induction false} NothingToReplace(e: Expr, b: map<string, Binding>, s: set<string>)
    requires Free(e) <= s
    ensures Rw(e, b, s, true) == e
    decreases e, 0
  {
    match e
    case Lit(_) =>
    case Var(_) =>
    case Get(of, _) => NothingToReplace(of, b, s);
    case OrElse(left, right) => NothingToReplace(left, b, s); NothingToReplace(right, b, s);
    case Obj(props) => NothingInProps(props, b, s);
    case Fun(params, body) => NothingInStmts(body, b, s + ToSet(params) + ToSet(Decls(body)));
    case Call(callee, args) => NothingToReplace(callee, b, s); NothingInAll(args, b, s);
  }

  lemma {:induction false} NothingInAll(es: seq<Expr>, b: map<string, Binding>, s: set<string>)
    requires FreeAll(es) <= s
    ensures RwAll(es, b, s, true) == es
    decreases es, 0
  {
    hide Rw, Free;
    if es != [] { NothingToReplace(es[0], b, s); NothingInAll(es[1..], b, s); }
  }

  lemma {:induction false} NothingInProps(props: seq<Prop>, b: map<string, Binding>, s: set<string>)
    requires FreeProps(props) <= s
    ensures RwProps(props, b, s, true) == props
    decreases props, 0
  {
    hide Rw, Free;
    if props != [] {
      if props[0].Pair? { NothingToReplace(props[0].value, b, s); }
      NothingInProps(props[1..], b, s);
    }
  }

  lemma {:induction false} NothingInStmts(stmts: seq<Stmt>, b: map<string, Binding>, s: set<string>)
    requires FreeStmts(stmts) <= s
    ensures RwStmts(stmts, b, s, true) == stmts
    decreases stmts, 0
  {
    hide RwStmt, FreeStmt;
    if stmts != [] { NothingInStmt(stmts[0], b, s); NothingInStmts(stmts[1..], b, s); }
  }

  lemma {:induction false} NothingInStmt(t: Stmt, b: map<string, Binding>, s: set<string>)
    requires FreeStmt(t) <= s
    ensures RwStmt(t, b, s, true) == t
    decreases t, 0
  {
    hide Rw, Free, RwStmts, FreeStmts;
    match t
    case Decl(x, e) => NothingToReplace(e, b, if x in b then s + {x} else s);
    case Do(e) => NothingToReplace(e, b, s);
    case Return(e) => NothingToReplace(e, b, s);
    case If(test, yes, no) =>
      NothingToReplace(test, b, s);
      NothingInStmts(yes, b, s + ToSet(Decls(yes)));
      NothingInStmts(no, b, s + ToSet(Decls(no)));
    case Block(body) => NothingInStmts(body, b, s + ToSet(Decls(body)));
  }

  /** A closed value made outside the component and the one made where it is needed. */
  lemma {:induction false} ClosedRel(r: Frame, d: Expr, env': Env)
    requires IsClosedValue(d)
    ensures Rel(r, ClosedValue(d, Base), ClosedValue(d, env'))
    decreases d, 0
  {
    hide RwStmts;
    match d
    case Lit(_) =>
    case Obj(props) => ClosedRelFields(r, props, env');
    case Fun(params, body) =>
      NothingInStmts(body, r.b, Names(Base) + ToSet(params) + ToSet(Decls(body)));
      assert FreeBlock(body) - ToSet(params) == {};
    case _ =>
  }

  lemma {:induction false} ClosedRelFields(r: Frame, props: seq<Prop>, env': Env)
    requires AreClosedValues(props)
    ensures RelFields(r, ClosedFields(props, Base), ClosedFields(props, env'))
    decreases props, 0
  {
    hide Rel, ClosedValue;
    if props != [] {
      ClosedRel(r, props[0].value, env');
      ClosedRelFields(r, props[1..], env');
    }
  }

  // ------------------------------------------------------------------------------------------
  // The runs correspond step by step
  // ------------------------------------------------------------------------------------------

  /** Reading a name, and evaluating what the rewrite puts in its place. */
  lemma VarCorresponds(k: Sides, x: string, env: Env, env': Env, st: Store, st': Store, fuel: nat)
    requires RelWorld(k) && RelEnv(k.r, env, env', {x}) && RelStore(k.r, st, st') && x != PROPS
    ensures RelOutcome(k.r, Eval(Var(x), env, st, k.w, fuel), Eval(Rw(Var(x), k.r.b, Names(env), true), env', st', k.w', fuel))
  {
    hide Rel, RelEnv;
    RelLookup(k.r, env, env', {x}, x);
    if x in Names(env) {
      if Lookup(env, x).value.Cell? && Lookup(env, x).value.at < |st.cells| {
        assert RelCell(k.r, st.cells[Lookup(env, x).value.at], st'.cells[Lookup(env, x).value.at]);
      }
    } else if x in k.r.b {
      ReplacementCorresponds(k, x, env', st', fuel);
    } else if x in k.w.top {
      assert SameData(k, x);
      DataRel(k.r, k.w.top[x]);
    }
  }

  lemma ReplacementCorresponds(k: Sides, x: string, env': Env, st': Store, fuel: nat)
    requires RelWorld(k) && x in k.r.b && x in k.w.top && Lookup(env', PROPS).None?
    ensures var o := Eval(Replacement(k.r.b[x]), env', st', k.w', fuel);
      o.Ok? && o.st == st' && Rel(k.r, k.w.top[x], o.value)
  {
    hide Rel;
    var p := k.r.b[x];
    assert BindingFits(k, x);
    assert Eval(Var(PROPS), env', st', k.w', fuel) == Ok(Rec(k.fields), st');
    assert Eval(Get(Var(PROPS), p.prop), env', st', k.w', fuel) == Ok(FieldOf(k.fields, p.prop), st');
    DataField(k.fields, p.prop);
    DataRel(k.r, FieldOf(k.fields, p.prop));
    if p.default.Some? {
      ClosedEvals(p.default.value, env', st', k.w', fuel);
      ClosedRel(k.r, p.default.value, env');
    }
  }

  lemma {:induction false} EvalCorresponds(k: Sides, e: Expr, env: Env, env': Env, st: Store, st': Store, fuel: nat)
    requires RelWorld(k) && Clean(e) && RelEnv(k.r, env, env', Free(e)) && RelStore(k.r, st, st')
    ensures RelOutcome(k.r, Eval(e, env, st, k.w, fuel), Eval(Rw(e, k.r.b, Names(env), true), env', st', k.w', fuel))
    decreases fuel, 1, e, 1
  {
    match e
    case Lit(_) =>
    case Var(x) => VarCorresponds(k, x, env, env', st, st', fuel);
    case Get(of, key) => GetCorresponds(k, of, key, env, env', st, st', fuel);
    case OrElse(left, right) => OrElseCorresponds(k, left, right, env, env', st, st', fuel);
    case Obj(props) => PropsCorrespond(k, props, env, env', st, st', fuel);
    case Fun(params, body) =>
      assert Names(env) + ToSet(params) + ToSet(Decls(body)) == (Names(env) + ToSet(params)) + ToSet(Decls(body));
    case Call(callee, args) => CallCorresponds(k, callee, args, env, env', st, st', fuel);
  }

  lemma {:induction false} GetCorresponds(k: Sides, of: Expr, key: string, env: Env, env': Env, st: Store, st': Store, fuel: nat)
    requires RelWorld(k) && Clean(of) && RelEnv(k.r, env, env', Free(of)) && RelStore(k.r, st, st')
    ensures RelOutcome(k.r, Eval(Get(of, key), env, st, k.w, fuel),
                       Eval(Rw(Get(of, key), k.r.b, Names(env), true), env', st', k.w', fuel))
    decreases fuel, 1, of, 2
  {
    hide Rel, RelEnv, RelStore, GetField, Clean, Free;
    EvalCorresponds(k, of, env, env', st, st', fuel);
    var o := Eval(of, env, st, k.w, fuel);
    if o.Ok? {
      var o' := Eval(Rw(of, k.r.b, Names(env), true), env', st', k.w', fuel);
      RelGet(k.r, o.value, o'.value, key);
      StoreSize(k.r, o.st, o'.st);
    }
  }

  lemma {:induction false} OrElseCorresponds(k: Sides, left: Expr, right: Expr, env: Env, env': Env, st: Store, st': Store, fuel: nat)
    requires RelWorld(k) && Clean(left) && Clean(right) && RelEnv(k.r, env, env', Free(left) + Free(right)) && RelStore(k.r, st, st')
    ensures RelOutcome(k.r, Eval(OrElse(left, right), env, st, k.w, fuel),
                       Eval(Rw(OrElse(left, right), k.r.b, Names(env), true), env', st', k.w', fuel))
    decreases fuel, 1, OrElse(left, right), 0
  {
    hide Rel, RelEnv, RelStore, Clean, Free;
    RelEnvLess(k.r, env, env', Free(left) + Free(right), Free(left));
    RelEnvLess(k.r, env, env', Free(left) + Free(right), Free(right));
    EvalCorresponds(k, left, env, env', st, st', fuel);
    var o, o' := Eval(left, env, st, k.w, fuel), Eval(Rw(left, k.r.b, Names(env), true), env', st', k.w', fuel);
    if o.Ok? {
      RelShape(k.r, o.value, o'.value);
      EvalCorresponds(k, right, env, env', o.st, o'.st, fuel);
    }
  }

  lemma {:induction false} CallCorresponds(k: Sides, callee: Expr, args: seq<Expr>, env: Env, env': Env, st: Store, st': Store, fuel: nat)
    requires RelWorld(k) && Clean(callee) && CleanAll(args) && RelEnv(k.r, env, env', Free(callee) + FreeAll(args)) && RelStore(k.r, st, st')
    ensures RelOutcome(k.r, Eval(Call(callee, args), env, st, k.w, fuel),
                       Eval(Rw(Call(callee, args), k.r.b, Names(env), true), env', st', k.w', fuel))
    decreases fuel, 1, Call(callee, args), 0
  {
    hide Rel, RelEnv, RelStore, RelAll, Clean, Free, CleanAll, FreeAll, Apply, EvalAll, RwAll;
    RelEnvLess(k.r, env, env', Free(callee) + FreeAll(args), Free(callee));
    RelEnvLess(k.r, env, env', Free(callee) + FreeAll(args), FreeAll(args));
    EvalCorresponds(k, callee, env, env', st, st', fuel);
    var o, o' := Eval(callee, env, st, k.w, fuel), Eval(Rw(callee, k.r.b, Names(env), true), env', st', k.w', fuel);
    if o.Ok? {
      AllCorrespond(k, args, env, env', o.st, o'.st, fuel);
      var a, a' := EvalAll(args, env, o.st, k.w, fuel), EvalAll(RwAll(args, k.r.b, Names(env), true), env', o'.st, k.w', fuel);
      if a.Ok? { ApplyCorresponds(k, o.value, o'.value, a.value, a'.value, a.st, a'.st, fuel); }
    }
  }

  lemma {:induction false} AllCorrespond(k: Sides, es: seq<Expr>, env: Env, env': Env, st: Store, st': Store, fuel: nat)
    requires RelWorld(k) && CleanAll(es) && RelEnv(k.r, env, env', FreeAll(es)) && RelStore(k.r, st, st')
    ensures RelOutcomes(k.r, EvalAll(es, env, st, k.w, fuel), EvalAll(RwAll(es, k.r.b, Names(env), true), env', st', k.w', fuel))
    decreases fuel, 1, es, 0
  {
    hide Rel, RelEnv, RelStore, Clean, Free, Eval, Rw;
    if es != [] {
      RelEnvLess(k.r, env, env', FreeAll(es), Free(es[0]));
      RelEnvLess(k.r, env, env', FreeAll(es), FreeAll(es[1..]));
      EvalCorresponds(k, es[0], env, env', st, st', fuel);
      var o, o' := Eval(es[0], env, st, k.w, fuel), Eval(Rw(es[0], k.r.b, Names(env), true), env', st', k.w', fuel);
      if o.Ok? { AllCorrespond(k, es[1..], env, env', o.st, o'.st, fuel); }
    }
  }

  lemma {:induction false} PropCorresponds(k: Sides, p: Prop, env: Env, env': Env, st: Store, st': Store, fuel: nat)
    requires RelWorld(k) && CleanProp(p) && RelEnv(k.r, env, env', FreeProp(p)) && RelStore(k.r, st, st')
    ensures RelOutcome(k.r, EvalProp(p, env, st, k.w, fuel), EvalProp(RwProp(p, k.r.b, Names(env), true), env', st', k.w', fuel))
    ensures KeyOf(p) == KeyOf(RwProp(p, k.r.b, Names(env), true))
    decreases fuel, 1, p, 0
  {
    hide Rel, RelEnv, RelStore;
    match p
    case Pair(_, e) => EvalCorresponds(k, e, env, env', st, st', fuel);
    case Short(x) => VarCorresponds(k, x, env, env', st, st', fuel);
  }

  lemma {:induction false} PropsCorrespond(k: Sides, props: seq<Prop>, env: Env, env': Env, st: Store, st': Store, fuel: nat)
    requires RelWorld(k) && CleanProps(props) && RelEnv(k.r, env, env', FreeProps(props)) && RelStore(k.r, st, st')
    ensures RelRecord(k.r, EvalProps(props, env, st, k.w, fuel), EvalProps(RwProps(props, k.r.b, Names(env), true), env', st', k.w', fuel))
    decreases fuel, 1, props, 0
  {
    hide Rel, RelEnv, RelStore, CleanProp, FreeProp, EvalProp, RwProp, KeyOf;
    if props != [] {
      RelEnvLess(k.r, env, env', FreeProps(props), FreeProp(props[0]));
      RelEnvLess(k.r, env, env', FreeProps(props), FreeProps(props[1..]));
      PropCorresponds(k, props[0], env, env', st, st', fuel);
      var o, o' := EvalProp(props[0], env, st, k.w, fuel), EvalProp(RwProp(props[0], k.r.b, Names(env), true), env', st', k.w', fuel);
      if o.Ok? { PropsCorrespond(k, props[1..], env, env', o.st, o'.st, fuel); }
    }
  }

  lemma {:induction false} ApplyCorresponds(k: Sides, f: Value, f': Value, vs: seq<Value>, vs': seq<Value>, st: Store, st': Store, fuel: nat)
    requires RelWorld(k) && Rel(k.r, f, f') && RelAll(k.r, vs, vs') && RelStore(k.r, st, st')
    ensures RelOutcome(k.r, Apply(f, vs, st, k.w, fuel), Apply(f', vs', st', k.w', fuel))
    decreases fuel, 0
  {
    hide RelEnv, RelStore, RelAll, ExecBlock, RwStmts, FreeBlock;
    StoreSize(k.r, st, st');
    match f
    case P(p) =>
      RelShapes(k.r, vs, vs');
      if p.Host? { CalledStore(k.r, st, st', st.calls + [HostCall(p.id, ShapesOf(vs))]); }
    case Rec(_) =>
    case Clo(params, body, env) =>
      if fuel > 0 {
        RelParams(k.r, params, vs, vs', env, f'.env, FreeBlock(body));
        BlockCorresponds(k, body, BindParams(params, vs, env), BindParams(params, vs', f'.env), st, st', fuel - 1);
      }
  }

  lemma {:induction false} RwDecls(stmts: seq<Stmt>, b: map<string, Binding>, s: set<string>)
    ensures Decls(RwStmts(stmts, b, s, true)) == Decls(stmts)
  {
    hide Rw, RwBlock;
    if stmts != [] {
      RwDecls(stmts[1..], b, s);
      var rest := RwStmts(stmts[1..], b, s, true);
      assert RwStmts(stmts, b, s, true)[1..] == rest;
    }
  }

  lemma FreshStore(r: Frame, st: Store, st': Store, n: nat)
    requires RelStore(r, st, st')
    ensures RelStore(r, st.(cells := st.cells + Fresh(n)), st'.(cells := st'.cells + Fresh(n)))
  {
  }

  lemma {:induction false} CleanDecls(stmts: seq<Stmt>)
    requires CleanStmts(stmts)
    ensures PROPS !in Decls(stmts)
  {
    if stmts != [] { CleanDecls(stmts[1..]); }
  }

  lemma {:induction false} BlockCorresponds(k: Sides, body: seq<Stmt>, env: Env, env': Env, st: Store, st': Store, fuel: nat)
    requires RelWorld(k) && CleanStmts(body) && RelEnv(k.r, env, env', FreeBlock(body)) && RelStore(k.r, st, st')
    ensures RelFlow(k.r, ExecBlock(body, env, st, k.w, fuel),
                    ExecBlock(RwStmts(body, k.r.b, Names(env) + ToSet(Decls(body)), true), env', st', k.w', fuel))
    decreases fuel, 1, body, 1
  {
    hide Rel, RelEnv, RelStore, RelFlow, Exec, RwStmts, Decls, FreeStmts, CleanStmts;
    var names := Decls(body);
    RwDecls(body, k.r.b, Names(env) + ToSet(names));
    CleanDecls(body);
    FreshStore(k.r, st, st', |names|);
    assert |st.cells| == |st'.cells| by { StoreSize(k.r, st, st'); }
    assert FreeStmts(body) + ToSet(names) - ToSet(names) == FreeBlock(body);
    RelCells(k.r, names, |st.cells|, env, env', FreeStmts(body) + ToSet(names));
    StmtsCorrespond(k, body, BindCells(names, |st.cells|, env), BindCells(names, |st.cells|, env'),
      st.(cells := st.cells + Fresh(|names|)), st'.(cells := st'.cells + Fresh(|names|)), fuel);
  }

  lemma StoreSize(r: Frame, st: Store, st': Store)
    requires RelStore(r, st, st')
    ensures |st.cells| == |st'.cells| && st.calls == st'.calls
  {
  }

  lemma CalledStore(r: Frame, st: Store, st': Store, calls: seq<HostCall>)
    requires RelStore(r, st, st')
    ensures RelStore(r, st.(calls := calls), st'.(calls := calls))
  {
  }

  lemma {:induction false} StmtsCorrespond(k: Sides, stmts: seq<Stmt>, env: Env, env': Env, st: Store, st': Store, fuel: nat)
    requires RelWorld(k) && CleanStmts(stmts) && RelStore(k.r, st, st') && ToSet(Decls(stmts)) <= Names(env)
    requires RelEnv(k.r, env, env', FreeStmts(stmts) + ToSet(Decls(stmts)))
    ensures RelFlow(k.r, Exec(stmts, env, st, k.w, fuel), Exec(RwStmts(stmts, k.r.b, Names(env), true), env', st', k.w', fuel))
    decreases fuel, 1, stmts, 0
  {
    hide Rel, RelEnv, RelStore, CleanStmt, FreeStmt, ExecOne, RwStmt;
    if stmts != [] {
      var used := FreeStmts(stmts) + ToSet(Decls(stmts));
      var own := if stmts[0].Decl? then {stmts[0].name} else {};
      RelEnvLess(k.r, env, env', used, FreeStmt(stmts[0]) + own);
      RelEnvLess(k.r, env, env', used, FreeStmts(stmts[1..]) + ToSet(Decls(stmts[1..])));
      StmtCorresponds(k, stmts[0], env, env', st, st', fuel);
      var o, o' := ExecOne(stmts[0], env, st, k.w, fuel), ExecOne(RwStmt(stmts[0], k.r.b, Names(env), true), env', st', k.w', fuel);
      if o.Ok? && o.value.None? { StmtsCorrespond(k, stmts[1..], env, env', o.st, o'.st, fuel); }
    }
  }

  lemma {:induction false} StmtCorresponds(k: Sides, t: Stmt, env: Env, env': Env, st: Store, st': Store, fuel: nat)
    requires RelWorld(k) && CleanStmt(t) && RelStore(k.r, st, st') && (t.Decl? ==> t.name in Names(env))
    requires RelEnv(k.r, env, env', FreeStmt(t) + if t.Decl? then {t.name} else {})
    ensures RelFlow(k.r, ExecOne(t, env, st, k.w, fuel), ExecOne(RwStmt(t, k.r.b, Names(env), true), env', st', k.w', fuel))
    decreases fuel, 1, t, 0
  {
    hide Rel, RelEnv, RelStore, Eval, Rw, Clean, Free, ExecBlock, RwStmts, FreeStmts, Decls;
    var used := FreeStmt(t) + if t.Decl? then {t.name} else {};
    match t
    case Decl(x, e) => DeclCorresponds(k, x, e, env, env', st, st', fuel);
    case Do(e) => RelEnvLess(k.r, env, env', used, Free(e)); EvalCorresponds(k, e, env, env', st, st', fuel);
    case Return(e) => RelEnvLess(k.r, env, env', used, Free(e)); EvalCorresponds(k, e, env, env', st, st', fuel);
    case If(test, yes, no) =>
      RelEnvLess(k.r, env, env', used, Free(test));
      RelEnvLess(k.r, env, env', used, FreeBlock(yes));
      RelEnvLess(k.r, env, env', used, FreeBlock(no));
      EvalCorresponds(k, test, env, env', st, st', fuel);
      var o, o' := Eval(test, env, st, k.w, fuel), Eval(Rw(test, k.r.b, Names(env), true), env', st', k.w', fuel);
      if o.Ok? {
        RelShape(k.r, o.value, o'.value);
        BlockCorresponds(k, if IsTruthy(o.value) then yes else no, env, env', o.st, o'.st, fuel);
      }
    case Block(body) => RelEnvLess(k.r, env, env', used, FreeBlock(body)); BlockCorresponds(k, body, env, env', st, st', fuel);
  }

  lemma {:induction false} DeclCorresponds(k: Sides, x: string, e: Expr, env: Env, env': Env, st: Store, st': Store, fuel: nat)
    requires RelWorld(k) && Clean(e) && x != PROPS && RelStore(k.r, st, st') && x in Names(env)
    requires RelEnv(k.r, env, env', Free(e) + {x})
    ensures RelFlow(k.r, ExecOne(Decl(x, e), env, st, k.w, fuel), ExecOne(RwStmt(Decl(x, e), k.r.b, Names(env), true), env', st', k.w', fuel))
    decreases fuel, 1, e, 2
  {
    hide Rel, RelEnv, Eval, Rw, Clean, Free;
    assert Names(env) + {x} == Names(env);
    RelEnvLess(k.r, env, env', Free(e) + {x}, Free(e));
    EvalCorresponds(k, e, env, env', st, st', fuel);
    RelLookup(k.r, env, env', Free(e) + {x}, x);
  }

  // ------------------------------------------------------------------------------------------
  // Looking at the results
  // ------------------------------------------------------------------------------------------

  lemma {:induction false} PrimsRel(r: Frame, args: seq<Prim>)
    ensures RelAll(r, Prims(args), Prims(args))
  {
    if args != [] { PrimsRel(r, args[1..]); }
  }

  /** The same is seen, and the host has been called in the same way. */
  predicate SeenAlike(o: Outcome<Shape>, o': Outcome<Shape>) {
    match o
    case Timeout => o'.Timeout?
    case Throws(calls) => o' == Throws(calls)
    case Ok(shape, st) => o'.Ok? && o'.value == shape && o'.st.calls == st.calls
  }

  /** Corresponding values look the same, functions that they hold called as often as one likes. */
  lemma {:induction false} ObserveCorresponds(k: Sides, v: Value, v': Value, probes: seq<Probe>, st: Store, st': Store, fuel: nat)
    requires RelWorld(k) && Rel(k.r, v, v') && RelStore(k.r, st, st')
    ensures SeenAlike(Observe(v, probes, st, k.w, fuel), Observe(v', probes, st', k.w', fuel))
    decreases |probes|
  {
    hide Rel, RelAll, RelWorld, Apply, GetField, ShapeOf;
    RelShape(k.r, v, v');
    if probes != [] {
      match probes[0]
      case ReadField(key) =>
        RelGet(k.r, v, v', key);
        if GetField(v, key).Some? {
          ObserveCorresponds(k, GetField(v, key).value, GetField(v', key).value, probes[1..], st, st', fuel);
        }
      case CallWith(args) =>
        PrimsRel(k.r, args);
        ApplyCorresponds(k, v, v', Prims(args), Prims(args), st, st', fuel);
        var o, o' := Apply(v, Prims(args), st, k.w, fuel), Apply(v', Prims(args), st', k.w', fuel);
        if o.Ok? { ObserveCorresponds(k, o.value, o'.value, probes[1..], o.st, o'.st, fuel); }
    }
  }
}

/** What the props transform does to a component: the rewritten one gives the same result, and where it does not. */
module PropsMeaning {
  import opened Common
  import opened Js
  import opened Props
  import opened PropsRuns

  // ------------------------------------------------------------------------------------------
  // The component before and after
  // ------------------------------------------------------------------------------------------

  /** The fields that object rest leaves. */
  function Remaining(fields: seq<Field>, taken: set<string>): seq<Field> {
    if fields == [] then []
    else (if fields[0].key in taken then [] else [fields[0]]) + Remaining(fields[1..], taken)
  }

  function Keys(pattern: seq<Entry>): set<string> { set e | e in pattern :: e.key }

  /** Binding the entries of a pattern in order; a default is evaluated where the field is undefined. */
  function Destructure(pattern: seq<Entry>, fields: seq<Field>, w: World, st: Store, fuel: nat): Outcome<World> {
    if pattern == [] then Ok(w, st)
    else
      var e := pattern[0];
      var v := FieldOf(fields, e.key);
      if v == P(Undefined) && e.default.Some? then
        (match Eval(e.default.value, Base, st, w, fuel)
         case Ok(d, st1) => Destructure(pattern[1..], fields, w.(top := w.top[e.binding := d]), st1, fuel)
         case Throws(calls) => Throws(calls)
         case Timeout => Timeout)
      else Destructure(pattern[1..], fields, w.(top := w.top[e.binding := v]), st, fuel)
  }

  function WithRest(rest: Option<string>, left: seq<Field>, w: World): World {
    if rest.Some? then w.(top := w.top[rest.value := Rec(left)]) else w
  }

  function ResultOf(result: Option<Value>): Value { if result.Some? then result.value else P(Undefined) }

  /** What is seen of the value that a body returns. */
  function See(body: seq<Stmt>, probes: seq<Probe>, w: World, st: Store, fuel: nat): Outcome<Shape> {
    match ExecBlock(body, Base, st, w, fuel)
    case Ok(result, st1) => Observe(ResultOf(result), probes, st1, w, fuel)
    case Throws(calls) => Throws(calls)
    case Timeout => Timeout
  }

  function SeeSource(c: Component, fields: seq<Field>, probes: seq<Probe>, w: World, fuel: nat): Outcome<Shape> {
    match Destructure(c.pattern, fields, w, Store([], []), fuel)
    case Ok(bound, st) => See(c.body, probes, WithRest(c.rest, Remaining(fields, Keys(c.pattern)), bound), st, fuel)
    case Throws(calls) => Throws(calls)
    case Timeout => Timeout
  }

  /** The rewritten component: the properties that the inserted const { drops, ...rest } = __props leaves out, the names that
      are replaced with a default that needs parentheses, and the body. The statement is inserted behind the first character
      of the body. JSX is replaced as a whole afterwards, and the statement with it: see MagicString.OverwrittenSliceIsEmpty. */
  datatype Rewritten = Rewritten(drops: seq<string>, rest: Option<string>, form: Form, torn: set<string>, body: seq<Stmt>) {
    /** The text is read as the component. With nothing to drop the statement would begin with a comma. */
    predicate Parses() {
      torn == {} && (rest.Some? ==> form.Markup? || (form.Statements? && drops != []))
    }

    function Declared(): Option<string> { if form.Statements? then rest else None }
  }

  /** Replacing the entry's binding alone changes the body. */
  predicate IsUsed(e: Entry, body: seq<Stmt>) { RwBody(body, map[e.binding := Binding(e.key, e.default)], {}, false) != body }

  function Torn(c: Component): set<string> {
    set e | e in c.pattern && !e.quoted && e.default.Some? && e.loose && IsUsed(e, c.body) :: e.binding
  }

  function DropsOf(pattern: seq<Entry>): seq<string> {
    if pattern == [] then [] else (if pattern[0].quoted then [] else [pattern[0].key]) + DropsOf(pattern[1..])
  }

  /** None where the transform leaves the source as it is: exactly where there is neither a rest nor an entry with an
      identifier for a key. */
  function Transform(c: Component): (r: Option<Rewritten>)
    ensures r.Some? <==> c.rest.Some? || exists e | e in c.pattern :: !e.quoted
  {
    NothingBound(c.pattern);
    var b := Bindings(c.pattern);
    if b == map[] && c.rest.None? then None
    else Some(Rewritten(DropsOf(c.pattern), c.rest, c.form, Torn(c), RwBody(c.body, b, {}, false)))
  }

  lemma {:induction false} NothingBound(pattern: seq<Entry>)
    ensures Bindings(pattern) == map[] <==> forall e | e in pattern :: e.quoted
  {
    if pattern != [] {
      var n := |pattern| - 1;
      NothingBound(pattern[..n]);
      assert pattern == pattern[..n] + [pattern[n]];
      if !pattern[n].quoted { assert pattern[n].binding in Bindings(pattern); }
    }
  }

  /** The names outside the rewritten body: __props, and what is left of it. */
  function RewrittenWorld(r: Rewritten, fields: seq<Field>, w: World): World {
    WithRest(r.Declared(), Remaining(fields, ToSet(r.drops)), w.(top := w.top[PROPS := Rec(fields)]))
  }

  function SeeRewritten(r: Rewritten, fields: seq<Field>, probes: seq<Probe>, w: World, fuel: nat): Outcome<Shape>
    requires r.Parses()
  {
    See(r.body, probes, RewrittenWorld(r, fields, w), Store([], []), fuel)
  }

  /** What the language demands of a pattern, and __props free. */
  ghost predicate WellFormed(c: Component) {
    && (forall i, j | 0 <= i < j < |c.pattern| :: c.pattern[i].binding != c.pattern[j].binding)
    && (forall e | e in c.pattern :: e.binding != PROPS && Some(e.binding) != c.rest)
    && c.rest != Some(PROPS)
    && CleanStmts(c.body)
    && (c.form.Statements? || (|c.body| == 1 && c.body[0].Return?))
  }

  ghost predicate DefaultsClosed(pattern: seq<Entry>) {
    forall e | e in pattern && e.default.Some? :: IsClosedValue(e.default.value)
  }

  ghost predicate NoNulls(pattern: seq<Entry>, fields: seq<Field>) {
    forall e | e in pattern && !e.quoted && e.default.Some? :: FieldOf(fields, e.key) != P(Null)
  }

  /** The names that the rewritten component lacks: the bindings of entries with a quoted key, and the rest where it
      keeps a property that such an entry takes, or where the body is JSX alone. */
  function Lost(c: Component, fields: seq<Field>): set<string> {
    (set e | e in c.pattern && e.quoted :: e.binding)
    + if c.rest.Some? && (!c.form.Statements? || Remaining(fields, Keys(c.pattern)) != Remaining(fields, ToSet(DropsOf(c.pattern))))
      then {c.rest.value} else {}
  }

  lemma {:induction false} BindingsHas(pattern: seq<Entry>, x: string)
    requires forall i, j | 0 <= i < j < |pattern| :: pattern[i].binding != pattern[j].binding
    ensures x in Bindings(pattern) <==> exists e | e in pattern :: e.binding == x && !e.quoted
    ensures forall e | e in pattern && e.binding == x && !e.quoted :: Bindings(pattern)[x] == Binding(e.key, e.default)
  {
    if pattern != [] {
      var n := |pattern| - 1;
      BindingsHas(pattern[..n], x);
      assert pattern == pattern[..n] + [pattern[n]];
    }
  }

  /** What destructuring binds, entry by entry. */
  lemma {:induction false} Destructured(pattern: seq<Entry>, fields: seq<Field>, w: World, st: Store, fuel: nat)
    requires DefaultsClosed(pattern)
    requires forall i, j | 0 <= i < j < |pattern| :: pattern[i].binding != pattern[j].binding
    ensures var d := Destructure(pattern, fields, w, st, fuel);
      d.Ok? && d.st == st && d.value.host == w.host
      && (forall e | e in pattern :: e.binding in d.value.top && d.value.top[e.binding] == Initial(fields, Binding(e.key, e.default)))
      && (forall x | (forall e | e in pattern :: e.binding != x) ::
            (x in d.value.top <==> x in w.top) && (x in w.top ==> d.value.top[x] == w.top[x]))
  {
    hide Initial, Destructure, IsClosedValue;
    DestructureStep(pattern, fields, w, st, fuel);
    if pattern != [] {
      var e := pattern[0];
      assert forall f | f in pattern[1..] :: f in pattern && f.binding != e.binding;
      var w1 := w.(top := w.top[e.binding := Initial(fields, Binding(e.key, e.default))]);
      Destructured(pattern[1..], fields, w1, st, fuel);
      assert forall f | f in pattern :: f == e || f in pattern[1..];
    }
  }

  lemma DestructureStep(pattern: seq<Entry>, fields: seq<Field>, w: World, st: Store, fuel: nat)
    requires DefaultsClosed(pattern)
    ensures Destructure(pattern, fields, w, st, fuel) ==
      if pattern == [] then Ok(w, st)
      else
        var e := pattern[0];
        Destructure(pattern[1..], fields, w.(top := w.top[e.binding := Initial(fields, Binding(e.key, e.default))]), st, fuel)
  {
    hide FieldOf, Eval, IsClosedValue, ClosedValue;
    if pattern != [] && pattern[0].default.Some? { ClosedEvals(pattern[0].default.value, Base, st, w, fuel); }
  }

  lemma {:induction false} RemainingData(fields: seq<Field>, taken: set<string>)
    requires AreData(fields)
    ensures AreData(Remaining(fields, taken))
  {
    if fields != [] {
      RemainingData(fields[1..], taken);
      var rest := Remaining(fields[1..], taken);
      if fields[0].key in taken {
        assert Remaining(fields, taken) == [] + rest == rest;
      } else {
        assert Remaining(fields, taken)[1..] == rest;
      }
    }
  }

  /** The two runs of a component, as far as the names outside it go. */
  function SidesOf(c: Component, r: Rewritten, fields: seq<Field>, bound: World, w: World): Sides {
    Sides(Frame(Bindings(c.pattern), Lost(c, fields)), fields,
          WithRest(c.rest, Remaining(fields, Keys(c.pattern)), bound), RewrittenWorld(r, fields, w))
  }

  lemma WorldsCorrespond(c: Component, fields: seq<Field>, w: World, fuel: nat)
    requires WellFormed(c) && DefaultsClosed(c.pattern) && NoNulls(c.pattern, fields) && Transform(c).Some?
    requires AreData(fields) && forall x | x in w.top :: IsData(w.top[x])
    ensures var d := Destructure(c.pattern, fields, w, Store([], []), fuel);
      d.Ok? && d.st == Store([], []) && RelWorld(SidesOf(c, Transform(c).value, fields, d.value, w))
  {
    hide FieldOf, IsClosedValue, ClosedValue, Bindings, Destructure, CleanStmts, Remaining, DropsOf, Initial, AreData, RwStmts,
      Lost, BindingFits, SameData;
    Destructured(c.pattern, fields, w, Store([], []), fuel);
    var d := Destructure(c.pattern, fields, w, Store([], []), fuel).value;
    var k := SidesOf(c, Transform(c).value, fields, d, w);
    BindingsHas(c.pattern, PROPS);
    forall x | x in k.r.b ensures x in k.w.top && BindingFits(k, x) { BoundFits(c, fields, d, w, fuel, x); }
    forall x | x !in k.r.b && x !in k.r.hidden && x != PROPS
      ensures x in k.w.top <==> x in k.w'.top
      ensures x in k.w.top ==> SameData(k, x)
    {
      OtherNamesStay(c, fields, d, w, fuel, x);
    }
  }

  lemma BoundFits(c: Component, fields: seq<Field>, d: World, w: World, fuel: nat, x: string)
    requires WellFormed(c) && DefaultsClosed(c.pattern) && NoNulls(c.pattern, fields) && Transform(c).Some?
    requires Destructure(c.pattern, fields, w, Store([], []), fuel) == Ok(d, Store([], []))
    requires x in Bindings(c.pattern)
    ensures var k := SidesOf(c, Transform(c).value, fields, d, w); x in k.w.top && BindingFits(k, x)
  {
    hide FieldOf, IsClosedValue, ClosedValue, Bindings, Destructure, CleanStmts, Remaining, DropsOf, RwStmts, Lost;
    Destructured(c.pattern, fields, w, Store([], []), fuel);
    BindingsHas(c.pattern, x);
    var e :| e in c.pattern && e.binding == x && !e.quoted;
    assert Some(e.binding) != c.rest;
  }

  lemma OtherNamesStay(c: Component, fields: seq<Field>, d: World, w: World, fuel: nat, x: string)
    requires WellFormed(c) && DefaultsClosed(c.pattern) && Transform(c).Some?
    requires AreData(fields) && forall x | x in w.top :: IsData(w.top[x])
    requires Destructure(c.pattern, fields, w, Store([], []), fuel) == Ok(d, Store([], []))
    requires x !in Bindings(c.pattern) && x !in Lost(c, fields) && x != PROPS
    ensures var k := SidesOf(c, Transform(c).value, fields, d, w);
      (x in k.w.top <==> x in k.w'.top) && (x in k.w.top ==> SameData(k, x))
  {
    hide FieldOf, IsClosedValue, ClosedValue, Bindings, Destructure, CleanStmts, Remaining, DropsOf, Initial, AreData, RwStmts;
    Destructured(c.pattern, fields, w, Store([], []), fuel);
    BindingsHas(c.pattern, x);
    RemainingData(fields, Keys(c.pattern));
    assert forall e | e in c.pattern :: e.binding != x;
  }

  /** Whoever uses what the component returns, calling the functions in it as often as he likes, sees the same, and the
      host is called in the same way: for a body in which no block declares a binding's name around a use of it that no
      function shadows, and which uses none of the lost names. */
  lemma RewritePreservesMeaning(c: Component, fields: seq<Field>, probes: seq<Probe>, w: World, fuel: nat)
    requires WellFormed(c) && DefaultsClosed(c.pattern) && NoNulls(c.pattern, fields)
    requires AreData(fields) && forall x | x in w.top :: IsData(w.top[x])
    requires c.rest.Some? || exists e | e in c.pattern :: !e.quoted
    requires Transform(c).value.Parses()
    requires CaughtStmts(c.body, Bindings(c.pattern), {}, ToSet(Decls(c.body))) == {}
    requires FreeBlock(c.body) !! Lost(c, fields)
    ensures SeenAlike(SeeSource(c, fields, probes, w, fuel), SeeRewritten(Transform(c).value, fields, probes, w, fuel))
  {
    hide Bindings, Destructure, CaughtStmts, CleanStmts, ExecBlock, RelWorld, NoNulls, DefaultsClosed, RwStmts, Remaining,
      FreeBlock, RelCell, Observe, Rel, WithRest, Keys, Lost;
    var b := Bindings(c.pattern);
    var s := {} + ToSet(Decls(c.body));
    assert s == ToSet(Decls(c.body)) == s + {};
    StmtsProper(c.body, b, {}, s);
    WorldsCorrespond(c, fields, w, fuel);
    var st := Store([], []);
    var k := SidesOf(c, Transform(c).value, fields, Destructure(c.pattern, fields, w, st, fuel).value, w);
    BlockCorresponds(k, c.body, Base, Base, st, st, fuel);
    assert Names(Base) + ToSet(Decls(c.body)) == s;
    var o, o' := ExecBlock(c.body, Base, st, k.w, fuel), ExecBlock(RwStmts(c.body, b, s, true), Base, st, k.w', fuel);
    if o.Ok? {
      ResultsCorrespond(k.r, o.value, o'.value);
      ObserveCorresponds(k, ResultOf(o.value), ResultOf(o'.value), probes, o.st, o'.st, fuel);
    }
  }

  /** function Card({ title = "x", body }) { const t = title; return { t, body }; } */
  const CARD := Component([Entry("title", "title", Some(Lit(Str("x"))), false, false), Entry("body", "body", None, false, false)], None, Statements,
                          [Decl("t", Var("title")), Return(Obj([Short("t"), Short("body")]))])

  /** function Card(__props) { const t = (__props.title ?? "x"); return { t, body: __props.body }; } */
  const REWRITTEN_CARD := Rewritten(["title", "body"], None, Statements, {},
    [Decl("t", OrElse(Get(Var(PROPS), "title"), Lit(Str("x")))), Return(Obj([Short("t"), Pair("body", Get(Var(PROPS), "body"))]))])

  /** The card is rewritten as shown, and nobody sees a difference who gives it no null for a title. */
  lemma CardIsPreserved(fields: seq<Field>, probes: seq<Probe>, w: World, fuel: nat)
    requires AreData(fields) && FieldOf(fields, "title") != P(Null) && forall x | x in w.top :: IsData(w.top[x])
    ensures Transform(CARD) == Some(REWRITTEN_CARD)
    ensures SeenAlike(SeeSource(CARD, fields, probes, w, fuel), SeeRewritten(REWRITTEN_CARD, fields, probes, w, fuel))
  {
    hide SeenAlike, SeeSource, SeeRewritten, AreData, FieldOf, IsData, Bindings, RwBody, CaughtStmts, FreeBlock, Remaining;
    CardIsRewritten();
    CardIsCaughtNowhere();
    CardLosesNothing(fields);
    RewritePreservesMeaning(CARD, fields, probes, w, fuel);
  }

  function CardBindings(): map<string, Binding> {
    map["title" := Binding("title", Some(Lit(Str("x")))), "body" := Binding("body", None)]
  }

  lemma CardBinds()
    ensures Bindings(CARD.pattern) == CardBindings()
  {
    var p := CARD.pattern;
    assert p[..1][..0] == [] && p[..1] == [p[0]];
    assert Bindings(p[..1]) == map["title" := Binding("title", Some(Lit(Str("x"))))];
  }

  lemma CardIsRewritten()
    ensures Transform(CARD) == Some(REWRITTEN_CARD) && Decls(CARD.body) == ["t"]
  {
    CardBinds();
    var b, body := CardBindings(), CARD.body;
    assert body[1..] == [body[1]] && body[1..][1..] == [];
    assert Decls(body[1..]) == [] && Decls(body) == ["t"] + [] == ["t"];
    var s := {} + ToSet(["t"]);
    assert s == {"t"};
    var props := [Short("t"), Short("body")];
    assert props[1..] == [Short("body")] && props[1..][1..] == [];
    assert RwProps([Short("body")], b, s, false) == [Pair("body", Get(Var(PROPS), "body"))];
    assert RwProps(props, b, s, false) == [Short("t"), Pair("body", Get(Var(PROPS), "body"))];
    assert RwStmts(body[1..], b, s, false) == [REWRITTEN_CARD.body[1]];
    assert RwStmt(body[0], b, s, false) == REWRITTEN_CARD.body[0];
    assert RwStmts(body, b, s, false) == REWRITTEN_CARD.body;
    assert CARD.pattern[1..][1..] == [] && DropsOf(CARD.pattern[1..]) == ["body"];
    assert DropsOf(CARD.pattern) == ["title", "body"];
    assert Torn(CARD) == {};
  }

  lemma CardIsCaughtNowhere()
    ensures CaughtStmts(CARD.body, Bindings(CARD.pattern), {}, ToSet(Decls(CARD.body))) == {}
  {
    var b, body, s := Bindings(CARD.pattern), CARD.body, ToSet(Decls(CARD.body));
    var props := [Short("t"), Short("body")];
    assert body[1..] == [body[1]] && body[1..][1..] == [] && props[1..] == [Short("body")] && props[1..][1..] == [];
    assert CaughtProps([Short("body")], b, {}, s) == {} && CaughtProps(props, b, {}, s) == {};
    assert CaughtStmts(body[1..], b, {}, s) == {} && CaughtStmt(body[0], b, {}, s) == {};
  }

  lemma CardLosesNothing(fields: seq<Field>)
    requires FieldOf(fields, "title") != P(Null)
    ensures WellFormed(CARD) && DefaultsClosed(CARD.pattern) && NoNulls(CARD.pattern, fields) && Lost(CARD, fields) == {}
  {
    hide FieldOf, Remaining;
    var body := CARD.body;
    var props := [Short("t"), Short("body")];
    assert body[1..] == [body[1]] && body[1..][1..] == [] && props[1..] == [Short("body")] && props[1..][1..] == [];
    assert CleanProps([Short("body")]) && CleanProps(props);
    assert CleanStmt(body[1]) && CleanStmts([]);
    assert CleanStmts(body[1..]);
    assert CleanStmt(body[0]);
    assert CleanStmts(body);
  }

  lemma ResultsCorrespond(r: Frame, o: Option<Value>, o': Option<Value>)
    requires RelCell(r, o, o')
    ensures Rel(r, ResultOf(o), ResultOf(o'))
  {
  }

  /** The transform's own walk, which leaves out what blocks declare, is the one that respects every scope exactly when
      it catches no name that a block declares. */
  lemma CaptureAvoidingIffUncaught(body: seq<Stmt>, b: map<string, Binding>)
    ensures RwBody(body, b, {}, false) == RwBody(body, b, {}, true) <==> CaughtStmts(body, b, {}, ToSet(Decls(body))) == {}
  {
    var s := {} + ToSet(Decls(body));
    assert s == ToSet(Decls(body)) == s + {};
    StmtsProper(body, b, {}, s);
  }

  /** One read of a prop: ?? and a default in a pattern differ exactly on null. */
  lemma DefaultsDifferOnNull(p: Binding, fields: seq<Field>, env: Env, st: Store, w: World, fuel: nat)
    requires p.default.Some? && IsClosedValue(p.default.value) && ShapeOf(ClosedValue(p.default.value, Base)) != Plain(Null)
    requires Lookup(env, PROPS).None? && PROPS in w.top && w.top[PROPS] == Rec(fields)
    ensures var o := Eval(Replacement(p), env, st, w, fuel);
      o.Ok? && (ShapeOf(o.value) == ShapeOf(Initial(fields, p)) <==> FieldOf(fields, p.prop) != P(Null))
  {
    var v := FieldOf(fields, p.prop);
    assert Eval(Var(PROPS), env, st, w, fuel) == Ok(Rec(fields), st);
    assert Eval(Get(Var(PROPS), p.prop), env, st, w, fuel) == Ok(v, st);
    ClosedEvals(p.default.value, env, st, w, fuel);
    var r := Frame(map[], {});
    ClosedRel(r, p.default.value, env);
    RelShape(r, ClosedValue(p.default.value, Base), ClosedValue(p.default.value, env));
  }

  /** The rewritten text is read as the component exactly if no default that needs parentheses is put in the place of a use,
      and the rest element, if there is one, stands before a body of statements and beside an entry with an identifier for
      a key, or before JSX, with which its statement is lost. */
  lemma RewriteParsesIff(c: Component)
    requires c.rest.Some? || exists e | e in c.pattern :: !e.quoted
    ensures Transform(c).value.Parses() <==>
      && (forall e | e in c.pattern && !e.quoted && e.default.Some? && e.loose ::
            RwBody(c.body, map[e.binding := Binding(e.key, e.default)], {}, false) == c.body)
      && (c.rest.Some? ==> c.form.Markup? || (c.form.Statements? && exists e | e in c.pattern :: !e.quoted))
  {
    hide Bindings, RwBody;
    DropsAre(c.pattern);
    if e :| e in c.pattern && !e.quoted && e.default.Some? && e.loose && IsUsed(e, c.body) { assert e.binding in Torn(c); }
  }

  /** const B = ({ label, ...rest }) => <button {...rest}>{label}</button>: the rest is not declared. */
  lemma RestOfAnArrowIsUnbound(prop: string, rest: string, fields: seq<Field>, w: World, fuel: nat)
    requires prop != rest && prop != PROPS && rest != PROPS && rest !in w.top
    ensures var c := Component([Entry(prop, prop, None, false, false)], Some(rest), Markup, [Return(Var(rest))]);
      Transform(c).Some? && Transform(c).value.Parses()
      && SeeSource(c, fields, [], w, fuel) == Ok(ShapeOf(Rec(Remaining(fields, {prop}))), Store([], []))
      && SeeRewritten(Transform(c).value, fields, [], w, fuel) == Throws([])
  {
    hide Bindings, Remaining, ExecBlock;
    var e := Entry(prop, prop, None, false, false);
    var c := Component([e], Some(rest), Markup, [Return(Var(rest))]);
    assert Torn(c) == {};
    assert [e][1..] == [];
    assert Keys([e]) == {prop};
    var bound := w.(top := w.top[prop := FieldOf(fields, prop)]);
    assert Destructure([e], fields, w, Store([], []), fuel) == Destructure([], fields, bound, Store([], []), fuel) == Ok(bound, Store([], []));
    BindingsHas([e], rest);
    ReturnIsPlain(rest, Bindings([e]));
    ReturnRuns(rest, WithRest(Some(rest), Remaining(fields, {prop}), bound), fuel);
    ReturnRuns(rest, RewrittenWorld(Transform(c).value, fields, w), fuel);
  }

  /** function C({ f = () => 1 }) { return f; }: the text (__props.f ?? () => 1) is no expression. */
  lemma FunctionDefaultDoesNotParse(f: string, default: Expr)
    ensures var c := Component([Entry(f, f, Some(default), false, true)], None, Statements, [Return(Var(f))]);
      Transform(c).Some? && !Transform(c).value.Parses()
  {
    var e := Entry(f, f, Some(default), false, true);
    var c := Component([e], None, Statements, [Return(Var(f))]);
    var b := map[f := Binding(f, Some(default))];
    var body := [Return(Var(f))];
    assert body[1..] == [] && ToSet(Decls(body)) == {};
    assert RwStmt(body[0], b, {}, false) == Return(Replacement(b[f])) && RwStmts([], b, {}, false) == [];
    assert RwStmts(body, b, {}, false) == [Return(Replacement(b[f]))];
    assert {} + ToSet(Decls(body)) == {};
    assert IsUsed(e, body) && e in c.pattern;
    assert e.binding in Torn(c);
  }

  lemma {:induction false} DropsAre(pattern: seq<Entry>)
    ensures DropsOf(pattern) == [] <==> forall e | e in pattern :: e.quoted
    ensures ToSet(DropsOf(pattern)) == set e | e in pattern && !e.quoted :: e.key
  {
    if pattern != [] {
      var e, rest := pattern[0], DropsOf(pattern[1..]);
      DropsAre(pattern[1..]);
      assert ToSet(DropsOf(pattern)) == (if e.quoted then {} else {e.key}) + ToSet(rest);
      assert forall f | f in pattern :: f == e || f in pattern[1..];
    }
  }

  /** function C({ t }) { { const t = 1; return t; } }: the block's t is taken for the prop. */
  lemma BlockShadowIsReplaced(w: World)
    ensures var c := Component([Entry("t", "t", None, false, false)], None, Statements, [Block([Decl("t", Lit(Num(1))), Return(Var("t"))])]);
      Transform(c).Some? && Transform(c).value.body == [Block([Decl("t", Lit(Num(1))), Return(Get(Var(PROPS), "t"))])]
      && CaughtStmts(c.body, Bindings(c.pattern), {}, {}) == {"t"}
  {
    var body := [Decl("t", Lit(Num(1))), Return(Var("t"))];
    var b := map["t" := Binding("t", None)];
    var c := Component([Entry("t", "t", None, false, false)], None, Statements, [Block(body)]);
    assert Bindings(c.pattern[..0]) == map[];
    assert Bindings(c.pattern) == b;
    assert body[1..] == [Return(Var("t"))] && body[1..][1..] == [];
    assert Decls(body[1..]) == [] && Decls(body) == ["t"] + Decls(body[1..]) == ["t"] && Decls([Block(body)]) == [];
    assert RwStmts(body[1..], b, {}, false) == [Return(Get(Var(PROPS), "t"))];
    assert RwStmts(body, b, {}, false) == [Decl("t", Lit(Num(1))), Return(Get(Var(PROPS), "t"))];
    assert [Block(body)][1..] == [];
    assert RwStmts([Block(body)], b, {}, false) == [Block([Decl("t", Lit(Num(1))), Return(Get(Var(PROPS), "t"))])];
    assert {} + ToSet(Decls([Block(body)])) == {};
    assert CaughtStmts(body[1..], b, {"t"}, {}) == {"t"};
    assert CaughtStmts(body, b, {"t"}, {}) == {"t"};
    assert {} + ToSet(Decls(body)) == {"t"};
    assert CaughtStmts([Block(body)], b, {}, {}) == {"t"};
  }

  /** Run with t = 2, it returned 1 and returns 2. */
  lemma BlockShadowChangesMeaning(w: World, fuel: nat)
    ensures var c := Component([Entry("t", "t", None, false, false)], None, Statements, [Block([Decl("t", Lit(Num(1))), Return(Var("t"))])]);
      var fields := [Field("t", P(Num(2)))];
      var st := Store([Some(P(Num(1)))], []);
      SeeSource(c, fields, [], w, fuel) == Ok(Plain(Num(1)), st)
      && Transform(c).Some? && Transform(c).value.Parses()
      && SeeRewritten(Transform(c).value, fields, [], w, fuel) == Ok(Plain(Num(2)), st)
  {
    var c := Component([Entry("t", "t", None, false, false)], None, Statements, [Block([Decl("t", Lit(Num(1))), Return(Var("t"))])]);
    var fields := [Field("t", P(Num(2)))];
    var st := Store([Some(P(Num(1)))], []);
    BlockShadowIsReplaced(w);
    var w1 := w.(top := w.top["t" := P(Num(2))]);
    assert Destructure(c.pattern, fields, w, Store([], []), fuel) == Destructure(c.pattern[1..], fields, w1, Store([], []), fuel)
      == Ok(w1, Store([], []));
    BlockRuns(Var("t"), w1, P(Num(1)), fuel);
    var w2 := w.(top := w.top[PROPS := Rec(fields)]);
    assert Eval(Var(PROPS), Bind("t", Cell(0), Base), st, w2, fuel) == Ok(Rec(fields), st);
    BlockRuns(Get(Var(PROPS), "t"), w2, P(Num(2)), fuel);
  }

  lemma BlockRuns(e: Expr, w: World, v: Value, fuel: nat)
    requires Eval(e, Bind("t", Cell(0), Base), Store([Some(P(Num(1)))], []), w, fuel) == Ok(v, Store([Some(P(Num(1)))], []))
    ensures ExecBlock([Block([Decl("t", Lit(Num(1))), Return(e)])], Base, Store([], []), w, fuel)
         == Ok(Some(v), Store([Some(P(Num(1)))], []))
  {
    var body := [Decl("t", Lit(Num(1))), Return(e)];
    var env := Bind("t", Cell(0), Base);
    var empty, unset, st := Store([], []), Store([None], []), Store([Some(P(Num(1)))], []);
    assert body[1..] == [Return(e)] && Decls(body[1..]) == [] && Decls(body) == ["t"] + Decls(body[1..]) == ["t"];
    assert empty.cells + Fresh(1) == unset.cells && unset.cells[0 := Some(P(Num(1)))] == st.cells;
    assert ["t"][1..] == [];
    assert BindCells(["t"], 0, Base) == env;
    assert Exec(body[1..], env, st, w, fuel) == Ok(Some(v), st);
    assert ExecOne(body[0], env, unset, w, fuel) == Ok(None, st);
    assert Exec(body, env, unset, w, fuel) == Ok(Some(v), st);
    assert ExecBlock(body, Base, empty, w, fuel) == Ok(Some(v), st);
    NoCells(empty);
    assert [Block(body)][1..] == [] && Decls([Block(body)]) == [];
    assert ExecOne(Block(body), Base, empty, w, fuel) == Ok(Some(v), st);
  }

  /** A component that returns a name shows what it shows in the source exactly if the name is not lost. */
  lemma LostNamesShow(c: Component, x: string, fields: seq<Field>, w: World, fuel: nat)
    requires WellFormed(c) && DefaultsClosed(c.pattern) && NoNulls(c.pattern, fields)
    requires AreData(fields) && forall x | x in w.top :: IsData(w.top[x])
    requires c.rest.Some? || exists e | e in c.pattern :: !e.quoted
    requires Transform(c).value.Parses()
    requires c.body == [Return(Var(x))] && x !in w.top
    ensures SeenAlike(SeeSource(c, fields, [], w, fuel), SeeRewritten(Transform(c).value, fields, [], w, fuel))
        <==> x !in Lost(c, fields)
  {
    hide FieldOf, IsClosedValue, ClosedValue, Destructure, Remaining, ExecBlock, Bindings, DropsOf, CleanStmts, AreData, NoNulls;
    ReturnIsPlain(x, Bindings(c.pattern));
    var b := Bindings(c.pattern);
    if x !in Lost(c, fields) {
      RewritePreservesMeaning(c, fields, [], w, fuel);
    } else {
      LostIsNotReplaced(c, x, fields);
      var st := Store([], []);
      Destructured(c.pattern, fields, w, st, fuel);
      var r := Transform(c).value;
      ReturnRuns(x, WithRest(c.rest, Remaining(fields, Keys(c.pattern)), Destructure(c.pattern, fields, w, st, fuel).value), fuel);
      ReturnRuns(x, RewrittenWorld(r, fields, w), fuel);
      if Some(x) == c.rest {
        assert forall e | e in c.pattern :: e.binding != x;
        if c.form.Statements? { RestsDiffer(c.pattern, fields); }
      }
    }
  }

  /** The binding of an entry with a quoted key is gone with the pattern. */
  lemma QuotedBindingIsUnbound(c: Component, e: Entry, fields: seq<Field>, w: World, fuel: nat)
    requires WellFormed(c) && DefaultsClosed(c.pattern) && e in c.pattern && e.quoted
    requires e.binding !in w.top && c.body == [Return(Var(e.binding))]
    requires c.rest.Some? || exists other | other in c.pattern :: !other.quoted
    requires Transform(c).value.Parses()
    ensures SeeSource(c, fields, [], w, fuel) == Ok(ShapeOf(Initial(fields, Binding(e.key, e.default))), Store([], []))
    ensures SeeRewritten(Transform(c).value, fields, [], w, fuel) == Throws([])
  {
    hide FieldOf, IsClosedValue, ClosedValue, Destructure, Remaining, ExecBlock, Bindings, DropsOf, CleanStmts;
    var x, st := e.binding, Store([], []);
    BindingsHas(c.pattern, x);
    ReturnIsPlain(x, Bindings(c.pattern));
    Destructured(c.pattern, fields, w, st, fuel);
    ReturnRuns(x, WithRest(c.rest, Remaining(fields, Keys(c.pattern)), Destructure(c.pattern, fields, w, st, fuel).value), fuel);
    ReturnRuns(x, RewrittenWorld(Transform(c).value, fields, w), fuel);
  }

  lemma ReturnIsPlain(x: string, b: map<string, Binding>)
    ensures var body := [Return(Var(x))];
      FreeBlock(body) == {x} && ToSet(Decls(body)) == {} && CaughtStmts(body, b, {}, ToSet(Decls(body))) == {}
      && (x !in b ==> RwBody(body, b, {}, false) == body)
  {
    var body := [Return(Var(x))];
    assert body[1..] == [] && Decls(body) == [] && {} + ToSet(Decls(body)) == {};
    assert FreeStmts(body) == FreeStmt(body[0]) + {} == {x};
    assert CaughtStmts(body, b, {}, {}) == CaughtStmt(body[0], b, {}, {}) + {} == {};
    assert x !in b ==> RwStmts(body, b, {}, false) == [RwStmt(body[0], b, {}, false)] + [] == body;
  }

  lemma LostIsNotReplaced(c: Component, x: string, fields: seq<Field>)
    requires WellFormed(c) && x in Lost(c, fields)
    ensures x !in Bindings(c.pattern) && x != PROPS && (Some(x) != c.rest ==> exists e | e in c.pattern :: e.binding == x)
  {
    hide Bindings, Remaining, DropsOf, CleanStmts;
    BindingsHas(c.pattern, x);
  }

  lemma {:induction false} RemainingLess(fields: seq<Field>, taken: set<string>, less: set<string>)
    requires less <= taken
    ensures |Remaining(fields, taken)| <= |Remaining(fields, less)|
    ensures |Remaining(fields, taken)| == |Remaining(fields, less)| ==> Remaining(fields, taken) == Remaining(fields, less)
  {
    if fields != [] { RemainingLess(fields[1..], taken, less); }
  }

  lemma {:induction false} ShapeLength(fields: seq<Field>)
    ensures |ShapeFields(fields)| == |fields|
  {
    if fields != [] { ShapeLength(fields[1..]); }
  }

  lemma RestsDiffer(pattern: seq<Entry>, fields: seq<Field>)
    requires Remaining(fields, Keys(pattern)) != Remaining(fields, ToSet(DropsOf(pattern)))
    ensures ShapeOf(Rec(Remaining(fields, Keys(pattern)))) != ShapeOf(Rec(Remaining(fields, ToSet(DropsOf(pattern)))))
  {
    DropsAre(pattern);
    RemainingLess(fields, Keys(pattern), ToSet(DropsOf(pattern)));
    ShapeLength(Remaining(fields, Keys(pattern)));
    ShapeLength(Remaining(fields, ToSet(DropsOf(pattern))));
  }

  /** The rest keeps too much exactly if a property is there that only entries with a quoted key take. */
  lemma RestKeepsTaken(pattern: seq<Entry>, fields: seq<Field>)
    ensures Remaining(fields, Keys(pattern)) == Remaining(fields, ToSet(DropsOf(pattern)))
       <==> forall f | f in fields && f.key in Keys(pattern) :: exists e | e in pattern :: e.key == f.key && !e.quoted
  {
    DropsAre(pattern);
    RemainingAgree(fields, Keys(pattern), ToSet(DropsOf(pattern)));
  }

  lemma {:induction false} RemainingAgree(fields: seq<Field>, taken: set<string>, less: set<string>)
    requires less <= taken
    ensures Remaining(fields, taken) == Remaining(fields, less) <==> forall f | f in fields && f.key in taken :: f.key in less
  {
    if fields != [] {
      var f := fields[0];
      RemainingAgree(fields[1..], taken, less);
      RemainingLess(fields[1..], taken, less);
      assert forall g | g in fields :: g == f || g in fields[1..];
    }
  }

  lemma NoCells(st: Store)
    ensures st.(cells := st.cells + Fresh(0)) == st
  {
    assert st.cells + Fresh(0) == st.cells;
  }

  lemma ReturnRuns(x: string, w: World, fuel: nat)
    ensures ExecBlock([Return(Var(x))], Base, Store([], []), w, fuel)
         == if x in w.top then Ok(Some(w.top[x]), Store([], [])) else Throws([])
  {
    var body := [Return(Var(x))];
    var st := Store([], []);
    NoCells(st);
    assert body[1..] == [] && Decls(body) == [];
    assert ReadVar(x, Base, st, w) == if x in w.top then Some(w.top[x]) else None;
    assert ExecOne(body[0], Base, st, w, fuel) == if x in w.top then Ok(Some(w.top[x]), st) else Throws([]);
  }
}

/** What the computed transform does to a component: it returns what the source returned, and where it does not. */
module ComputedMeaning {
  import opened Common
  import Js
  import opened Computed
  import opened ComputedRuns

  // ------------------------------------------------------------------------------------------
  // The transform
  // ------------------------------------------------------------------------------------------

  /** function C() { ... }, or const C = () => { ... } and the like. */
  datatype Form = Declared | Assigned

  /** A component: how it is written, its straight line of declarations, and what it returns. */
  datatype Component = Component(form: Form, decls: seq<Decl>, result: Expr) {
    predicate IsSource() { PlainDecls(decls) && Plain(result) }

    function Run(w: World, fuel: nat): Outcome<Value> { RunBlock(decls, result, Base, w, fuel) }

    /** What is seen of the result after some steps. */
    function See(probes: seq<Js.Probe>, w: World, fuel: nat): Outcome<Js.Shape> {
      match Run(w, fuel)
      case Ok(v) => Observe(v, probes, w, fuel)
      case Throws => Throws
      case Timeout => Timeout
    }
  }

  /** What the second pass wraps: it leaves at the declaration that the component is assigned in, which begins before
      the body, and does not come to the body at all. */
  function Wrapped(p: Component, c: set<string>): set<string> { if p.form.Declared? then c else {} }

  /** The two passes. */
  function Transform(p: Component, c: set<string>): Component {
    var k := Wrapped(p, c);
    Component(p.form, WrapsDecls(ReadsDecls(p.decls, c, {}), k), Wraps(Reads(p.result, c, {}), k))
  }

  /** The computeds that the component's own declarations make. */
  function Own(p: Component, c: set<string>): set<string> { DeclareAll(p.decls, {}, Wrapped(p, c)) }

  function Wrong(p: Component, c: set<string>): set<string> {
    var k := Wrapped(p, c);
    MisjudgedDecls(p.decls, c, k, {}, Own(p, c)) + Misjudged(p.result, c, k, {}, DeclareAll(p.decls, Own(p, c), k))
  }

  /** The rewrite that wraps what the second pass wraps and forces exactly the reads of that. */
  function Followed(p: Component, c: set<string>): Component {
    var k := Wrapped(p, c);
    Component(p.form, RwDecls(p.decls, k, Own(p, c)), Rw(p.result, k, DeclareAll(p.decls, Own(p, c), k)))
  }

  /** Whatever set of names is made lazy, whatever is seen of the component's result, by calling the functions in it as
      well, is seen of the transformed component's, provided the passes misjudge no name. */
  lemma ComputedsPreserveMeaning(p: Component, c: set<string>, probes: seq<Js.Probe>, w: World, fuel: nat)
    requires p.IsSource() && p.See(probes, w, fuel).Ok? && Wrong(p, c) == {}
    ensures exists more: nat :: Transform(p, c).See(probes, w, more) == p.See(probes, w, fuel)
  {
    hide RunBlock, RwDecls, DeclareAll, Rel, MisjudgedDecls, Misjudged, PlainDecls, Plain, Reads, Wraps, ReadsDecls, WrapsDecls, Observe;
    TransformFollowsScopes(p, c);
    var k, v := Wrapped(p, c), p.Run(w, fuel).value;
    var m1, v' := BlockFollows(k, w, p.decls, p.result, Base, Base, fuel);
    var m2 := ObserveFollows(w, v, v', probes, fuel);
    var m := Max(m1, m2);
    MoreFuelBlock(Transform(p, c), w, m1, m);
    MoreFuelObserve(v', probes, w, m2, m);
    assert Transform(p, c).See(probes, w, m) == p.See(probes, w, fuel);
  }

  lemma MoreFuelBlock(p: Component, w: World, fuel: nat, more: nat)
    requires p.Run(w, fuel).Ok? && fuel <= more
    ensures p.Run(w, more) == p.Run(w, fuel)
  {
    MoreFuelDecls(p.decls, p.result, Enter(p.decls, Base), w, fuel, more);
  }

  /** The transform follows every name to its declaration exactly when the passes misjudge none. */
  lemma TransformFollowsScopes(p: Component, c: set<string>)
    ensures Transform(p, c) == Followed(p, c) <==> Wrong(p, c) == {}
  {
    hide RwDecls, Rw, DeclareAll, MisjudgedDecls, Misjudged, Reads, Wraps, ReadsDecls, WrapsDecls;
    var k := Wrapped(p, c);
    PassesOnDecls(p.decls, c, k, {}, Own(p, c));
    PassesFollowScopes(p.result, c, k, {}, DeclareAll(p.decls, Own(p, c), k));
  }

  // ------------------------------------------------------------------------------------------
  // What becomes lazy
  // ------------------------------------------------------------------------------------------

  /** Of a function's declarations those become lazy that are consts with a computed's name, whatever they are set to. */
  ghost predicate LazyAre(decls: seq<Decl>, rewritten: seq<Decl>, k: set<string>) {
    |rewritten| == |decls|
    && forall i | 0 <= i < |decls| ::
      && rewritten[i].name == decls[i].name && rewritten[i].constant == decls[i].constant
      && (rewritten[i].init.Lazy? <==> decls[i].constant && decls[i].name in k)
  }

  lemma {:induction false} DeclsBecomeLazy(decls: seq<Decl>, c: set<string>, k: set<string>, s: set<string>)
    requires PlainDecls(decls)
    ensures LazyAre(decls, WrapsDecls(ReadsDecls(decls, c, s), k), k)
  {
    hide Reads;
    if decls != [] {
      var rest := WrapsDecls(ReadsDecls(decls[1..], c, s), k);
      DeclsBecomeLazy(decls[1..], c, k, s);
      NotLazy(decls[0].init, c, s);
      var r := ReadsDecls(decls, c, s);
      assert r[1..] == ReadsDecls(decls[1..], c, s);
      assert WrapsDecls(r, k)[1..] == rest;
      forall i | 0 < i < |decls| ensures decls[i] == decls[1..][i-1] && WrapsDecls(r, k)[i] == rest[i-1] {}
    }
  }

  lemma NotLazy(e: Expr, c: set<string>, s: set<string>)
    requires Plain(e)
    ensures !Reads(e, c, s).Lazy?
  {
  }

  /** A component keeps its declarations in order. Exactly its consts with a computed's name become lazy where it is a
      function declaration, and none where it is assigned; the same holds of the functions that the passes come to. */
  lemma ConstsBecomeLazy(p: Component, c: set<string>)
    requires p.IsSource()
    ensures var t := Transform(p, c).decls;
      |t| == |p.decls|
      && forall i | 0 <= i < |t| ::
        t[i].name == p.decls[i].name && (t[i].init.Lazy? <==> p.form.Declared? && p.decls[i].constant && p.decls[i].name in c)
    ensures forall params, decls, result, s | PlainDecls(decls) ::
      var f := Wraps(Reads(Fun(params, decls, result), c, s), c);
      f.Fun? && f.params == params && LazyAre(decls, f.decls, c)
  {
    hide ReadsDecls, WrapsDecls;
    DeclsBecomeLazy(p.decls, c, Wrapped(p, c), {});
    forall params, decls, result, s | PlainDecls(decls)
      ensures var f := Wraps(Reads(Fun(params, decls, result), c, s), c); f.Fun? && f.params == params && LazyAre(decls, f.decls, c)
    {
      DeclsBecomeLazy(decls, c, c, s + Js.ToSet(params));
    }
  }

  // ------------------------------------------------------------------------------------------
  // Names that are nowhere used again
  // ------------------------------------------------------------------------------------------

  /** No parameter has the name of a computed, and only a const that the second pass wraps is declared with one: k has
      the names it wraps here. */
  predicate Unshadowed(e: Expr, c: set<string>, k: set<string>) {
    match e
    case Lit(_) => true
    case Var(_) => true
    case Get(of, _) => Unshadowed(of, c, k)
    case Cond(test, yes, no) => Unshadowed(test, c, k) && Unshadowed(yes, c, k) && Unshadowed(no, c, k)
    case Obj(props) => UnshadowedProps(props, c, k)
    case Fun(params, decls, result) => Js.ToSet(params) !! c && UnshadowedDecls(decls, c, k) && Unshadowed(result, c, k)
    case Call(callee, args) => Unshadowed(callee, c, k) && UnshadowedAll(args, c, k)
    case Lazy(e1) => Unshadowed(e1, c, k)
    case Force(e1) => Unshadowed(e1, c, k)
  }

  predicate UnshadowedAll(es: seq<Expr>, c: set<string>, k: set<string>) {
    es == [] || (Unshadowed(es[0], c, k) && UnshadowedAll(es[1..], c, k))
  }

  predicate UnshadowedProps(props: seq<Prop>, c: set<string>, k: set<string>) {
    props == [] || ((props[0].Pair? ==> Unshadowed(props[0].value, c, k)) && UnshadowedProps(props[1..], c, k))
  }

  predicate UnshadowedDecls(decls: seq<Decl>, c: set<string>, k: set<string>) {
    decls == [] || ((decls[0].name in c ==> decls[0].constant && decls[0].name in k) && Unshadowed(decls[0].init, c, {}) && UnshadowedDecls(decls[1..], c, k))
  }

  lemma {:induction false} DeclareUnshadowed(decls: seq<Decl>, c: set<string>, k: set<string>, l: set<string>)
    requires UnshadowedDecls(decls, c, k) && l <= c && k <= c
    ensures DeclareAll(decls, l, k) == l + (set d | d in decls && d.name in c :: d.name)
    decreases |decls|
  {
    hide Unshadowed;
    if decls != [] {
      var d := decls[0];
      DeclareUnshadowed(decls[1..], c, k, Declare(l, d, k));
      assert d.name !in c ==> d.name !in l;
      assert Declare(l, d, k) == l + if d.name in c then {d.name} else {};
      assert forall x | x in decls :: x == d || x in decls[1..];
      assert (set x | x in decls && x.name in c :: x.name)
          == (if d.name in c then {d.name} else {}) + (set x | x in decls[1..] && x.name in c :: x.name);
    }
  }

  lemma {:induction false} UnshadowedIsJudged(e: Expr, c: set<string>, k: set<string>, s: set<string>)
    requires Unshadowed(e, c, k) && s !! c && k <= c
    ensures Misjudged(e, c, k, s, c) == {}
    decreases e, 0
  {
    match e
    case Lit(_) =>
    case Var(_) =>
    case Get(of, _) => UnshadowedIsJudged(of, c, k, s);
    case Cond(test, yes, no) => UnshadowedIsJudged(test, c, k, s); UnshadowedIsJudged(yes, c, k, s); UnshadowedIsJudged(no, c, k, s);
    case Obj(props) => UnshadowedPropsJudged(props, c, k, s);
    case Fun(params, decls, result) =>
      assert c - Js.ToSet(params) == c;
      DeclareUnshadowed(decls, c, k, c);
      assert DeclareAll(decls, c, k) == c;
      UnshadowedDeclsJudged(decls, c, k, s + Js.ToSet(params));
      UnshadowedIsJudged(result, c, k, s + Js.ToSet(params));
    case Call(callee, args) => UnshadowedIsJudged(callee, c, k, s); UnshadowedAllJudged(args, c, k, s);
    case Lazy(e1) => UnshadowedIsJudged(e1, c, k, s);
    case Force(e1) => UnshadowedIsJudged(e1, c, k, s);
  }

  lemma {:induction false} UnshadowedAllJudged(es: seq<Expr>, c: set<string>, k: set<string>, s: set<string>)
    requires UnshadowedAll(es, c, k) && s !! c && k <= c
    ensures MisjudgedAll(es, c, k, s, c) == {}
    decreases es, 0
  {
    if es != [] { UnshadowedIsJudged(es[0], c, k, s); UnshadowedAllJudged(es[1..], c, k, s); }
  }

  lemma {:induction false} UnshadowedPropsJudged(props: seq<Prop>, c: set<string>, k: set<string>, s: set<string>)
    requires UnshadowedProps(props, c, k) && s !! c && k <= c
    ensures MisjudgedProps(props, c, k, s, c) == {}
    decreases props, 0
  {
    if props != [] {
      if props[0].Pair? { UnshadowedIsJudged(props[0].value, c, k, s); }
      UnshadowedPropsJudged(props[1..], c, k, s);
    }
  }

  lemma {:induction false} UnshadowedDeclsJudged(decls: seq<Decl>, c: set<string>, k: set<string>, s: set<string>)
    requires UnshadowedDecls(decls, c, k) && s !! c && k <= c
    ensures MisjudgedDecls(decls, c, k, s, c) == {}
    decreases decls, 0
  {
    if decls != [] {
      UnshadowedIsJudged(decls[0].init, c, {}, s);
      assert decls[0].name !in c ==> c - {decls[0].name} == c;
      assert decls[0].name in c ==> c + {decls[0].name} == c;
      UnshadowedDeclsJudged(decls[1..], c, k, s);
    }
  }

  /** Where the component is a function declaration that declares every computed, and nothing else has a computed's name
      but a const outside all initializers, all is well: through computeds that read computeds, in closures and in
      shorthand properties. */
  lemma UnshadowedComputedsPreserveMeaning(p: Component, c: set<string>, probes: seq<Js.Probe>, w: World, fuel: nat)
    requires p.form.Declared? && p.IsSource() && p.See(probes, w, fuel).Ok?
    requires UnshadowedDecls(p.decls, c, c) && Unshadowed(p.result, c, c)
    requires forall x | x in c :: exists d | d in p.decls :: d.name == x
    ensures exists more: nat :: Transform(p, c).See(probes, w, more) == p.See(probes, w, fuel)
  {
    hide Transform, Plain, PlainDecls, RunBlock, Unshadowed, UnshadowedDecls, Misjudged, MisjudgedDecls, Observe;
    DeclareUnshadowed(p.decls, c, c, {});
    DeclareUnshadowed(p.decls, c, c, c);
    assert Own(p, c) == c;
    assert DeclareAll(p.decls, c, c) == c;
    UnshadowedDeclsJudged(p.decls, c, c, {});
    UnshadowedIsJudged(p.result, c, c, {});
    ComputedsPreserveMeaning(p, c, probes, w, fuel);
  }

  /** function C() { const a = n; const b = a; return { a, b }; } */
  const CHAIN := Component(Declared, [Decl("a", Var("n"), true), Decl("b", Var("a"), true)], Obj([Short("a"), Short("b")]))

  /** const a = computed(() => n), b = computed(() => a.value); return { a: a.value, b: b.value }; */
  const LAZY_CHAIN := Component(Declared, [Decl("a", Lazy(Var("n")), true), Decl("b", Lazy(Force(Var("a"))), true)],
                                Obj([Pair("a", Force(Var("a"))), Pair("b", Force(Var("b")))]))

  /** With a and b computed the chain becomes the lazy one, and what is seen of it stays. */
  lemma ChainIsPreserved(probes: seq<Js.Probe>, w: World, fuel: nat)
    ensures Transform(CHAIN, {"a", "b"}) == LAZY_CHAIN
    ensures CHAIN.See(probes, w, fuel).Ok? ==> exists more: nat :: LAZY_CHAIN.See(probes, w, more) == CHAIN.See(probes, w, fuel)
  {
    hide Observe, RunBlock;
    var c := {"a", "b"};
    ChainIsLazy();
    if CHAIN.See(probes, w, fuel).Ok? {
      var d, e := Decl("a", Var("n"), true), Decl("b", Var("a"), true);
      Solo(Short("b"));
      assert CHAIN.decls[1..] == [e] && CHAIN.decls[1..][1..] == [] && CHAIN.result.props[1..] == [Short("b")];
      assert PlainDecls([e]) && PlainDecls([d, e]) && PlainProps([Short("b")]);
      assert UnshadowedDecls([e], c, c) && UnshadowedDecls([d, e], c, c) && UnshadowedProps([Short("b")], c, c);
      assert d in CHAIN.decls && e in CHAIN.decls;
      UnshadowedComputedsPreserveMeaning(CHAIN, c, probes, w, fuel);
    }
  }

  lemma ChainIsLazy()
    ensures Transform(CHAIN, {"a", "b"}) == LAZY_CHAIN
  {
    var c := {"a", "b"};
    var d, e := Decl("a", Var("n"), true), Decl("b", Var("a"), true);
    var e' := Decl("b", Force(Var("a")), true);
    assert [d, e][1..] == [e] && [e][1..] == [] && [d, e'][1..] == [e'] && [e'][1..] == [];
    assert ReadsDecls([], c, {}) == [] && ReadsDecls([e], c, {}) == [e'] && ReadsDecls([d, e], c, {}) == [d, e'];
    assert WrapsDecls([], c) == [] && WrapsDecls([e'], c) == [Decl("b", Lazy(Force(Var("a"))), true)];
    assert WrapsDecls([d, e'], c) == LAZY_CHAIN.decls;
    var a, b := Pair("a", Force(Var("a"))), Pair("b", Force(Var("b")));
    var props := [Short("a"), Short("b")];
    assert props[1..] == [Short("b")] && props[1..][1..] == [] && [a, b][1..] == [b] && [b][1..] == [];
    assert ReadsProps([], c, {}) == [] && ReadsProps([Short("b")], c, {}) == [b] && ReadsProps(props, c, {}) == [a, b];
    assert Wraps(Force(Var("a")), c) == Force(Var("a")) && Wraps(Force(Var("b")), c) == Force(Var("b"));
    assert WrapsProps([], c) == [] && WrapsProps([b], c) == [b] && WrapsProps([a, b], c) == [a, b];
  }

  // ------------------------------------------------------------------------------------------
  // Where the transform goes wrong
  // ------------------------------------------------------------------------------------------

  /** In a component that is assigned to a const nothing is wrapped: the source comes out as it was exactly when it has
      no use of a computed's name that the first pass would mark. */
  lemma AssignedIsKeptIffUnmarked(p: Component, c: set<string>)
    requires p.form.Assigned?
    ensures Transform(p, c) == p <==> Wrong(p, c) == {}
    ensures Own(p, c) == {}
  {
    NothingDeclared(p.decls);
    NothingFollowedInDecls(p.decls);
    NothingFollowed(p.result);
    TransformFollowsScopes(p, c);
  }

  lemma {:induction false} NothingDeclared(decls: seq<Decl>)
    ensures DeclareAll(decls, {}, {}) == {}
    decreases |decls|
  {
    if decls != [] {
      assert Declare({}, decls[0], {}) == {};
      NothingDeclared(decls[1..]);
    }
  }

  lemma {:induction false} NothingFollowed(e: Expr)
    ensures Rw(e, {}, {}) == e
    decreases e, 0
  {
    match e
    case Lit(_) =>
    case Var(_) =>
    case Get(of, _) => NothingFollowed(of);
    case Cond(test, yes, no) => NothingFollowed(test); NothingFollowed(yes); NothingFollowed(no);
    case Obj(props) => NothingFollowedInProps(props);
    case Fun(params, decls, result) =>
      NothingDeclared(decls);
      NothingFollowedInDecls(decls);
      NothingFollowed(result);
      assert {} - Js.ToSet(params) == {};
    case Call(callee, args) => NothingFollowed(callee); NothingFollowedInAll(args);
    case Lazy(e1) => NothingFollowed(e1);
    case Force(e1) => NothingFollowed(e1);
  }

  lemma {:induction false} NothingFollowedInAll(es: seq<Expr>)
    ensures RwAll(es, {}, {}) == es
    decreases es, 0
  {
    if es != [] { NothingFollowed(es[0]); NothingFollowedInAll(es[1..]); }
  }

  lemma {:induction false} NothingFollowedInProps(props: seq<Prop>)
    ensures RwProps(props, {}, {}) == props
    decreases props, 0
  {
    if props != [] {
      if props[0].Pair? { NothingFollowed(props[0].value); }
      NothingFollowedInProps(props[1..]);
    }
  }

  lemma {:induction false} NothingFollowedInDecls(decls: seq<Decl>)
    ensures RwDecls(decls, {}, {}) == decls
    decreases decls, 0
  {
    if decls != [] {
      NothingFollowed(decls[0].init);
      NothingFollowedInDecls(decls[1..]);
      assert Declare({}, decls[0], {}) == {};
    }
  }

  /** const C = () => { const t = 1; return t; }: the read becomes t.value, and t stays 1. */
  lemma AssignedComponentIsBroken(w: World)
    ensures var p := Component(Assigned, [Decl("t", Lit(Js.Num(1)), true)], Var("t"));
      p.Run(w, 0) == Ok(P(Js.Num(1))) && Transform(p, {"t"}).Run(w, 0) == Ok(P(Js.Undefined)) && Wrong(p, {"t"}) == {"t"}
  {
    var d := Decl("t", Lit(Js.Num(1)), true);
    var p := Component(Assigned, [d], Var("t"));
    Solo(d);
    assert ReadsDecls([d], {"t"}, {}) == [d] && WrapsDecls([d], {}) == [d];
    assert Wraps(Force(Var("t")), {}) == Force(Var("t"));
    assert Transform(p, {"t"}) == Component(Assigned, [d], Force(Var("t")));
    var env := Bind("t", Now(P(Js.Num(1))), Enter([d], Base));
    assert RunDecls([d], Var("t"), Enter([d], Base), w, 0) == RunDecls([], Var("t"), env, w, 0);
    assert RunDecls([d], Force(Var("t")), Enter([d], Base), w, 0) == RunDecls([], Force(Var("t")), env, w, 0);
    assert Eval(Var("t"), env, w, 0) == Ok(P(Js.Num(1)));
    assert Declare({}, d, {}) == {} && DeclareAll([d], {}, {}) == {};
    assert MisjudgedDecls([d], {"t"}, {}, {}, {}) == {};
  }

  /** const t = 1; const f = () => { const t = 2; return t; }; return f(): the inner read is marked, the inner t is in
      an initializer and is not wrapped. */
  lemma InnerConstIsBroken(w: World)
    ensures var p := Component(Declared, [Decl("t", Lit(Js.Num(1)), true),
                                          Decl("f", Fun([], [Decl("t", Lit(Js.Num(2)), true)], Var("t")), true)],
                               Call(Var("f"), []));
      p.Run(w, 1) == Ok(P(Js.Num(2))) && Transform(p, {"t"}).Run(w, 1) == Ok(P(Js.Undefined)) && "t" in Wrong(p, {"t"})
  {
    hide Reads, Wraps, ReadsDecls, WrapsDecls, MisjudgedDecls, Misjudged;
    InnerConstTransformed();
    CallsInner(Lit(Js.Num(1)), Var("t"), w, P(Js.Num(1)), P(Js.Num(2)));
    var d' := Decl("t", Lazy(Lit(Js.Num(1))), true);
    CallsInner(d'.init, Force(Var("t")), w, Thunk(Lit(Js.Num(1)), Entered(d'.init, Force(Var("t")))), P(Js.Undefined));
  }

  function InnerDecls(init: Expr, read: Expr): seq<Decl> {
    [Decl("t", init, true), Decl("f", Fun([], [Decl("t", Lit(Js.Num(2)), true)], read), true)]
  }

  function Entered(init: Expr, read: Expr): Env { Enter(InnerDecls(init, read), Base) }

  lemma InnerConstTransformed()
    ensures var p := Component(Declared, InnerDecls(Lit(Js.Num(1)), Var("t")), Call(Var("f"), []));
      Transform(p, {"t"}) == Component(Declared, InnerDecls(Lazy(Lit(Js.Num(1))), Force(Var("t"))), Call(Var("f"), []))
      && "t" in Wrong(p, {"t"})
  {
    var c := {"t"};
    var d, e := Decl("t", Lit(Js.Num(1)), true), Decl("t", Lit(Js.Num(2)), true);
    var f, f' := Decl("f", Fun([], [e], Var("t")), true), Decl("f", Fun([], [e], Force(Var("t"))), true);
    Solo(e); Solo(f);
    var s := {} + Js.ToSet([]);
    assert s == {};
    assert ReadsDecls([e], c, s) == [e] + [];
    assert Reads(f.init, c, {}) == f'.init;
    assert [d, f][1..] == [f] && [d, f'][1..] == [f'] && [f'][1..] == [];
    assert ReadsDecls([f], c, {}) == [f'] + [];
    assert ReadsDecls([d, f], c, {}) == [d] + [f'];
    assert WrapsDecls([f'], c) == [f'] + [];
    assert WrapsDecls([d, f'], c) == [Decl("t", Lazy(d.init), true)] + [f'];
    assert Wraps(Var("f"), c) == Var("f") && Reads(Var("f"), c, {}) == Var("f");
    assert ReadsAll([], c, {}) == [] && WrapsAll([], c) == [];
    InnerConstMisjudged();
  }

  lemma InnerConstMisjudged()
    ensures "t" in Wrong(Component(Declared, InnerDecls(Lit(Js.Num(1)), Var("t")), Call(Var("f"), [])), {"t"})
  {
    var c, s: set<string> := {"t"}, {} + Js.ToSet([]);
    var d, e := Decl("t", Lit(Js.Num(1)), true), Decl("t", Lit(Js.Num(2)), true);
    var f := Decl("f", Fun([], [e], Var("t")), true);
    Solo(e); Solo(f);
    assert s == {} && [d, f][1..] == [f] && [f][1..] == [];
    assert DeclareAll([], {"t"}, c) == {"t"};
    var p := Component(Declared, [d, f], Call(Var("f"), []));
    assert Declare({}, d, c) == {"t"} == Declare({"t"}, d, c) && Declare({"t"}, f, c) == {"t"};
    assert DeclareAll([f], {"t"}, c) == {"t"};
    assert DeclareAll([d, f], {}, c) == {"t"};
    assert Own(p, c) == {"t"};
    var inside := DeclareAll([e], {"t"} - s, {});
    assert {"t"} - s == {"t"} && Declare({"t"}, e, {}) == {} && Declare({}, e, {}) == {};
    assert inside == DeclareAll([], {}, {}) == {};
    assert DeclareAll([e], inside, {}) == {};
    assert Misjudged(Var("t"), c, {}, s, {}) == {"t"};
    assert Misjudged(f.init, c, {}, {}, {"t"}) == MisjudgedDecls([e], c, {}, {} + Js.ToSet([]), inside) + {"t"};
    assert MisjudgedDecls([f], c, c, {}, {"t"}) == Misjudged(f.init, c, {}, {}, {"t"}) + MisjudgedDecls([], c, c, {}, {"t"});
    assert MisjudgedDecls([d, f], c, c, {}, {"t"}) == Misjudged(d.init, c, {}, {}, {"t"}) + MisjudgedDecls([f], c, c, {}, {"t"});
  }

  lemma CallsInner(init: Expr, read: Expr, w: World, held: Value, v: Value)
    requires Eval(init, Entered(init, read), w, 1) == Ok(held)
    requires forall env :: Eval(read, Bind("t", Now(P(Js.Num(2))), env), w, 0) == Ok(v)
    ensures RunBlock(InnerDecls(init, read), Call(Var("f"), []), Base, w, 1) == Ok(v)
  {
    var decls, call := InnerDecls(init, read), Call(Var("f"), []);
    var e := Decl("t", Lit(Js.Num(2)), true);
    var env0 := Bind("t", Now(held), Entered(init, read));
    var clo := Clo([], [e], read, env0);
    var env1 := Bind("f", Now(clo), env0);
    assert decls[1..] == [decls[1]] && [decls[1]][1..] == [];
    Solo(e);
    assert RunDecls([decls[1]], call, env0, w, 1) == RunDecls([], call, env1, w, 1);
    assert RunDecls([e], read, Enter([e], env0), w, 0) == RunDecls([], read, Bind("t", Now(P(Js.Num(2))), Enter([e], env0)), w, 0);
    assert Apply(clo, [], w, 1) == Ok(v);
    assert Eval(Var("f"), env1, w, 1) == Ok(clo) && EvalAll([], env1, w, 1) == Ok([]);
    assert Eval(call, env1, w, 1) == Ok(v);
  }

  /** const t = 1; return ((t) => ({ t }))(5): the shorthand under the parameter is expanded to t.value. */
  lemma ShorthandUnderParameter(w: World)
    ensures var p := Component(Declared, [Decl("t", Lit(Js.Num(1)), true)], Call(Fun(["t"], [], Obj([Short("t")])), [Lit(Js.Num(5))]));
      p.Run(w, 1) == Ok(Rec([Field("t", P(Js.Num(5)))]))
      && Transform(p, {"t"}).Run(w, 1) == Ok(Rec([Field("t", P(Js.Undefined))]))
      && "t" in Wrong(p, {"t"})
  {
    hide RunBlock, Reads, Wraps, ReadsDecls, WrapsDecls, MisjudgedDecls, Misjudged;
    var d, d' := Decl("t", Lit(Js.Num(1)), true), Decl("t", Lazy(Lit(Js.Num(1))), true);
    var body' := Obj([Pair("t", Force(Var("t")))]);
    RunOne(d, Obj([Short("t")]), w, P(Js.Num(1)), P(Js.Num(5)));
    ShorthandTransformed();
    RunOne(d', body', w, Thunk(Lit(Js.Num(1)), Enter([d'], Base)), P(Js.Undefined));
  }

  lemma ShorthandTransformed()
    ensures var p := Component(Declared, [Decl("t", Lit(Js.Num(1)), true)], Call(Fun(["t"], [], Obj([Short("t")])), [Lit(Js.Num(5))]));
      Transform(p, {"t"}) == Component(Declared, [Decl("t", Lazy(Lit(Js.Num(1))), true)],
        Call(Fun(["t"], [], Obj([Pair("t", Force(Var("t")))])), [Lit(Js.Num(5))]))
      && "t" in Wrong(p, {"t"})
  {
    var c, five := {"t"}, Lit(Js.Num(5));
    var d, d' := Decl("t", Lit(Js.Num(1)), true), Decl("t", Lazy(Lit(Js.Num(1))), true);
    var body, body' := Obj([Short("t")]), Obj([Pair("t", Force(Var("t")))]);
    var p := Component(Declared, [d], Call(Fun(["t"], [], body), [five]));
    var s := {} + Js.ToSet(["t"]);
    Solo(d); Solo(d'); Solo(five); Solo(Short("t")); Solo(Pair("t", Force(Var("t"))));
    assert ReadsDecls([d], c, {}) == [d] && WrapsDecls([d], c) == [d'];
    assert ReadsProps([Short("t")], c, s) == [Pair("t", Force(Var("t")))];
    assert Reads(body, c, s) == body' && ReadsDecls([], c, s) == [];
    assert Reads(Fun(["t"], [], body), c, {}) == Fun(["t"], [], body');
    assert ReadsAll([five], c, {}) == [five];
    assert Wraps(five, c) == five && WrapsAll([], c) == [];
    assert WrapsAll([five], c) == [five] + [];
    assert Wraps(Force(Var("t")), c) == Force(Var("t"));
    assert WrapsProps([Pair("t", Force(Var("t")))], c) == [Pair("t", Force(Var("t")))];
    assert Wraps(Fun(["t"], [], body'), c) == Fun(["t"], [], body');
    assert MisjudgedProps([Short("t")], c, c, s, {"t"} - Js.ToSet(["t"])) == {"t"};
    assert Declare({}, d, c) == {"t"} == Declare({"t"}, d, c);
    assert Own(p, c) == {"t"} && DeclareAll([d], {"t"}, c) == {"t"};
    var inside := DeclareAll([], {"t"} - Js.ToSet(["t"]), c);
    assert Misjudged(Fun(["t"], [], body), c, c, {}, {"t"}) == MisjudgedDecls([], c, c, s, inside) + Misjudged(body, c, c, s, inside);
  }

  /** Running one declaration of t and a call that passes 5 for a parameter t to a function of one object. */
  lemma RunOne(d: Decl, body: Expr, w: World, held: Value, field: Value)
    requires d.name == "t" && Eval(d.init, Enter([d], Base), w, 1) == Ok(held)
    requires body.Obj? && |body.props| == 1 && KeyOf(body.props[0]) == "t"
    requires var env := Bind("t", Now(P(Js.Num(5))), Bind("t", Now(held), Enter([d], Base)));
      EvalProp(body.props[0], env, w, 0) == Ok(field)
    ensures Component(Declared, [d], Call(Fun(["t"], [], body), [Lit(Js.Num(5))])).Run(w, 1) == Ok(Rec([Field("t", field)]))
  {
    var env0 := Bind("t", Now(held), Enter([d], Base));
    var env := Bind("t", Now(P(Js.Num(5))), env0);
    var clo := Clo(["t"], [], body, env0);
    var call := Call(Fun(["t"], [], body), [Lit(Js.Num(5))]);
    Solo(Lit(Js.Num(5))); Solo(Field("t", field)); Solo(P(Js.Num(5))); Solo("t"); Solo(d);
    assert body.props[1..] == [];
    assert EvalProps(body.props, env, w, 0) == Ok([Field("t", field)]);
    assert Eval(body, env, w, 0) == Ok(Rec([Field("t", field)]));
    assert ["t"][1..] == [] && [P(Js.Num(5))][1..] == [];
    assert BindParams(["t"], [P(Js.Num(5))], env0) == env;
    assert RunBlock([], body, env, w, 0) == Ok(Rec([Field("t", field)]));
    assert Apply(clo, [P(Js.Num(5))], w, 1) == Ok(Rec([Field("t", field)]));
    assert EvalAll([Lit(Js.Num(5))], env0, w, 1) == Ok([P(Js.Num(5))]);
    assert Eval(call, env0, w, 1) == Ok(Rec([Field("t", field)]));
    assert [d][1..] == [];
    assert RunDecls([d], call, Enter([d], Base), w, 1) == RunDecls([], call, env0, w, 1);
  }
}

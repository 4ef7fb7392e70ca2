/** The reactivity analysis (reactivity_analyzer.rs): a reachability loop, then a depth-first search for each const. */
module Reactivity {
  import opened Common

  // The searches share one visited set over all their branches. Both parts are proved against plain paths in the
  // dependency graph. The hash maps and hash sets the source iterates over are walked here in an arbitrary order, so
  // every result holds for every order.

  datatype Kind = Signal | Computed | Static

  datatype DestructuredKind = DestructuredSignal | DestructuredStatic | DestructuredSource | DestructuredUnknown

  datatype VarMeta = VarMeta(
    name: string,
    isLet: bool,
    deps: set<string>,
    propertyAccesses: map<string, set<string>>,
    isFunctionDef: bool,
    isStructuralLiteral: bool,
    isSignalApi: bool,
    signalApiName: Option<string>,
    isReactiveSource: bool,
    destructuredKind: Option<DestructuredKind>)

  /** What the analysis is given: the variables by name, the signal properties of each imported signal api,
      and the destructured prop names. */
  datatype Context = Context(vars: map<string, VarMeta>, signalProperties: map<string, set<string>>, propNames: set<string>)
  {
    ghost predicate Valid() {
      forall n | n in vars :: vars[n].name == n
    }

    /** The names a const mentions; only consts pass reachability on. */
    function ConstDeps(): map<string, set<string>> {
      map n | n in vars && !vars[n].isLet :: vars[n].deps
    }
  }

  // ------------------------------------------------------------------------------------------
  // Reachability from the JSX
  // ------------------------------------------------------------------------------------------

  ghost predicate ConstPath(constDeps: map<string, set<string>>, path: seq<string>) {
    path != [] && forall i | 0 <= i < |path| - 1 :: path[i] in constDeps && path[i+1] in constDeps[path[i]]
  }

  /** Some chain of const dependencies leads from a JSX reference to the name. */
  ghost predicate Reachable(constDeps: map<string, set<string>>, refs: set<string>, name: string) {
    exists path :: ConstPath(constDeps, path) && path[0] in refs && path[|path|-1] == name
  }

  ghost predicate Closed(constDeps: map<string, set<string>>, s: set<string>) {
    forall n | n in constDeps && n in s :: constDeps[n] <= s
  }

  lemma ReachableExtends(constDeps: map<string, set<string>>, refs: set<string>, n: string, dep: string)
    requires Reachable(constDeps, refs, n) && n in constDeps && dep in constDeps[n]
    ensures Reachable(constDeps, refs, dep)
  {
    var path :| ConstPath(constDeps, path) && path[0] in refs && path[|path|-1] == n;
    assert ConstPath(constDeps, path + [dep]);
    assert (path + [dep])[|path|] == dep;
  }

  lemma ReachableStart(constDeps: map<string, set<string>>, refs: set<string>, n: string)
    requires n in refs
    ensures Reachable(constDeps, refs, n)
  {
    assert ConstPath(constDeps, [n]);
  }

  lemma {:induction false} PathStaysInside(constDeps: map<string, set<string>>, s: set<string>, path: seq<string>)
    requires ConstPath(constDeps, path) && path[0] in s && Closed(constDeps, s)
    ensures path[|path|-1] in s
  {
    if |path| > 1 {
      var front := path[..|path|-1];
      assert ConstPath(constDeps, front);
      PathStaysInside(constDeps, s, front);
      assert path[|path|-2] in constDeps && path[|path|-1] in constDeps[path[|path|-2]];
    }
  }

  /** The reachable names are inside every set that holds the references and is closed under const dependencies. */
  lemma ReachableIsLeast(constDeps: map<string, set<string>>, refs: set<string>, s: set<string>)
    requires refs <= s && Closed(constDeps, s)
    ensures forall n | Reachable(constDeps, refs, n) :: n in s
  {
    forall n | Reachable(constDeps, refs, n) ensures n in s {
      var path :| ConstPath(constDeps, path) && path[0] in refs && path[|path|-1] == n;
      PathStaysInside(constDeps, s, path);
    }
  }

  /** The fixed-point loop. */
  method ExpandReachable(constDeps: map<string, set<string>>, refs: set<string>) returns (reachable: set<string>)
    ensures forall n :: n in reachable <==> Reachable(constDeps, refs, n)
    ensures refs <= reachable && Closed(constDeps, reachable)
    ensures forall s | refs <= s && Closed(constDeps, s) :: reachable <= s
  {
    reachable := refs;
    forall n | n in refs ensures Reachable(constDeps, refs, n) { ReachableStart(constDeps, refs, n); }
    ghost var universe := refs + set n, d | n in constDeps && d in constDeps[n] :: d;
    while true
      invariant refs <= reachable <= universe
      invariant forall n | n in reachable :: Reachable(constDeps, refs, n)
      decreases universe - reachable
    {
      ghost var before := reachable;
      var changed;
      changed, reachable := ExpandOnce(constDeps, refs, reachable, universe);
      if !changed {
        break;
      }
    }
    forall s | refs <= s && Closed(constDeps, s) ensures reachable <= s { ReachableIsLeast(constDeps, refs, s); }
    ReachableIsLeast(constDeps, refs, reachable);
  }

  /** One round of the loop, over every const in some order. */
  method ExpandOnce(constDeps: map<string, set<string>>, ghost refs: set<string>, start: set<string>, ghost universe: set<string>)
      returns (changed: bool, reachable: set<string>)
    requires refs <= start <= universe
    requires forall n, d | n in constDeps && d in constDeps[n] :: d in universe
    requires forall n | n in start :: Reachable(constDeps, refs, n)
    ensures start <= reachable <= universe
    ensures forall n | n in reachable :: Reachable(constDeps, refs, n)
    ensures changed ==> start < reachable
    ensures !changed ==> reachable == start && Closed(constDeps, reachable)
  {
    changed, reachable := false, start;
    var todo := constDeps.Keys;
    while todo != {}
      invariant todo <= constDeps.Keys
      invariant start <= reachable <= universe
      invariant forall n | n in reachable :: Reachable(constDeps, refs, n)
      invariant changed <==> reachable != start
      invariant !changed ==> forall n | n in constDeps && n !in todo && n in start :: constDeps[n] <= start
    {
      var name :| name in todo;
      todo := todo - {name};
      if name in reachable {
        forall d | d in constDeps[name] ensures Reachable(constDeps, refs, d) {
          ReachableExtends(constDeps, refs, name, d);
        }
        var grown;
        grown, reachable := InsertAll(reachable, constDeps[name]);
        changed := changed || grown;
      }
    }
  }

  method InsertAll(start: set<string>, deps: set<string>) returns (grown: bool, reachable: set<string>)
    ensures reachable == start + deps
    ensures grown <==> reachable != start
  {
    grown, reachable := false, start;
    var todo := deps;
    while todo != {}
      invariant todo <= deps
      invariant reachable + todo == start + deps && start <= reachable
      invariant grown <==> reachable != start
    {
      var dep :| dep in todo;
      todo := todo - {dep};
      if dep !in reachable {
        reachable := reachable + {dep};
        grown := true;
      }
    }
  }

  // ------------------------------------------------------------------------------------------
  // The search for a reactive source
  // ------------------------------------------------------------------------------------------

  /** The initialiser of meta reads a signal property of the signal api variable dep. */
  predicate ReadsSignalProperty(ctx: Context, meta: VarMeta, dep: string)
    requires dep in ctx.vars
  {
    var api := ctx.vars[dep].signalApiName;
    && dep in meta.propertyAccesses && api.Some? && api.value in ctx.signalProperties
    && exists p :: p in meta.propertyAccesses[dep] && p in ctx.signalProperties[api.value]
  }

  /** Mentioning dep makes meta reactive at once. */
  ghost predicate Direct(ctx: Context, reachable: set<string>, meta: VarMeta, dep: string) {
    || dep in ctx.propNames
    || (dep in ctx.vars
        && var d := ctx.vars[dep];
           || (d.isLet && dep in reachable)
           || (if d.isSignalApi then ReadsSignalProperty(ctx, meta, dep) else d.isReactiveSource))
  }

  ghost predicate HasDirect(ctx: Context, reachable: set<string>, meta: VarMeta) {
    exists dep :: dep in meta.deps && Direct(ctx, reachable, meta, dep)
  }

  /** Reactivity can flow through the variable dep: it is no function, no literal and no signal api. */
  ghost predicate Passes(ctx: Context, dep: string) {
    dep in ctx.vars
    && !ctx.vars[dep].isFunctionDef && !ctx.vars[dep].isStructuralLiteral && !ctx.vars[dep].isSignalApi
  }

  ghost predicate Flows(ctx: Context, user: string, dep: string) {
    user in ctx.vars && dep in ctx.vars[user].deps && Passes(ctx, dep)
  }

  ghost predicate DepPath(ctx: Context, path: seq<string>) {
    path != [] && path[0] in ctx.vars && (|path| > 1 ==> Flows(ctx, path[0], path[1]) && DepPath(ctx, path[1..]))
  }

  /** Some chain of dependencies through passing variables ends in one with a direct reactive dependency. */
  ghost predicate Reactive(ctx: Context, reachable: set<string>, name: string) {
    exists path :: DepPath(ctx, path) && path[0] == name && EndsReactive(ctx, reachable, path)
  }

  ghost predicate EndsReactive(ctx: Context, reachable: set<string>, path: seq<string>)
    requires path != []
  {
    path[|path|-1] in ctx.vars && HasDirect(ctx, reachable, ctx.vars[path[|path|-1]])
  }

  lemma ReactiveHere(ctx: Context, reachable: set<string>, name: string)
    requires name in ctx.vars && HasDirect(ctx, reachable, ctx.vars[name])
    ensures Reactive(ctx, reachable, name)
  {
    assert DepPath(ctx, [name]) && EndsReactive(ctx, reachable, [name]);
  }

  lemma ReactiveThrough(ctx: Context, reachable: set<string>, name: string, dep: string)
    requires name in ctx.vars && dep in ctx.vars[name].deps && Passes(ctx, dep) && Reactive(ctx, reachable, dep)
    ensures Reactive(ctx, reachable, name)
  {
    var path :| DepPath(ctx, path) && path[0] == dep && EndsReactive(ctx, reachable, path);
    var longer := [name] + path;
    assert longer[1..] == path;
    assert DepPath(ctx, longer) && EndsReactive(ctx, reachable, longer);
  }

  /** Nothing more is to be found at n: no direct dependency, and everything it passes on to was visited. */
  ghost predicate Settled(ctx: Context, reachable: set<string>, visited: set<string>, n: string)
    requires n in ctx.vars
  {
    && !HasDirect(ctx, reachable, ctx.vars[n])
    && forall dep | dep in ctx.vars[n].deps && Passes(ctx, dep) :: dep in visited
  }

  lemma {:induction false} SettledHasNoPath(ctx: Context, reachable: set<string>, visited: set<string>, path: seq<string>)
    requires DepPath(ctx, path) && path[0] in visited && visited <= ctx.vars.Keys
    requires forall n | n in visited :: Settled(ctx, reachable, visited, n)
    ensures !EndsReactive(ctx, reachable, path)
  {
    if |path| > 1 {
      assert Flows(ctx, path[0], path[1]);
      SettledHasNoPath(ctx, reachable, visited, path[1..]);
    }
  }

  /** The look at the properties of a signal api variable that an initialiser reads, in some order. */
  method AccessesSignalProperty(ctx: Context, meta: VarMeta, dep: string) returns (found: bool)
    requires dep in ctx.vars
    ensures found <==> ReadsSignalProperty(ctx, meta, dep)
  {
    if dep in meta.propertyAccesses {
      var api := ctx.vars[dep].signalApiName;
      if api.Some? && api.value in ctx.signalProperties {
        var todo := meta.propertyAccesses[dep];
        while todo != {}
          invariant todo <= meta.propertyAccesses[dep]
          invariant forall p | p in meta.propertyAccesses[dep] && p !in todo :: p !in ctx.signalProperties[api.value]
        {
          var prop :| prop in todo;
          if prop in ctx.signalProperties[api.value] {
            return true;
          }
          todo := todo - {prop};
        }
      }
    }
    found := false;
  }

  method DependsOnReactive(ctx: Context, reachable: set<string>, meta: VarMeta) returns (found: bool)
    requires ctx.Valid() && meta.name in ctx.vars && ctx.vars[meta.name] == meta
    ensures found <==> Reactive(ctx, reachable, meta.name)
  {
    var visited;
    found, visited := DependsOnReactiveInner(ctx, reachable, meta, {});
    if !found {
      forall path | DepPath(ctx, path) && path[0] == meta.name ensures !EndsReactive(ctx, reachable, path) {
        SettledHasNoPath(ctx, reachable, visited, path);
      }
    }
  }

  /** The search below one variable. It gives up on a variable it has seen, whether that variable is finished
      or still being searched further up; what it leaves behind is settled except for the latter. */
  method DependsOnReactiveInner(ctx: Context, reachable: set<string>, meta: VarMeta, seen: set<string>)
      returns (found: bool, visited: set<string>)
    requires ctx.Valid() && meta.name in ctx.vars && ctx.vars[meta.name] == meta
    requires seen <= ctx.vars.Keys
    ensures seen <= visited <= ctx.vars.Keys
    ensures found ==> Reactive(ctx, reachable, meta.name)
    ensures !found ==> meta.name in visited
    ensures !found ==> forall n | n in visited && n !in seen :: Settled(ctx, reachable, visited, n)
    decreases ctx.vars.Keys - seen
  {
    visited := seen;
    if meta.name in visited {
      return false, visited;
    }
    visited := visited + {meta.name};
    var todo := meta.deps;
    while todo != {}
      invariant todo <= meta.deps
      invariant seen + {meta.name} <= visited <= ctx.vars.Keys
      invariant forall n | n in visited && n !in seen && n != meta.name :: Settled(ctx, reachable, visited, n)
      invariant forall dep | dep in meta.deps && dep !in todo :: !Direct(ctx, reachable, meta, dep)
      invariant forall dep | dep in meta.deps && dep !in todo && Passes(ctx, dep) :: dep in visited
    {
      var dep :| dep in todo;
      todo := todo - {dep};
      if dep in ctx.propNames {
        ReactiveHere(ctx, reachable, meta.name);
        return true, visited;
      }
      if dep in ctx.vars {
        var d := ctx.vars[dep];
        if d.isLet && d.name in reachable {
          ReactiveHere(ctx, reachable, meta.name);
          return true, visited;
        }
        if d.isSignalApi {
          var accesses := AccessesSignalProperty(ctx, meta, dep);
          if accesses {
            ReactiveHere(ctx, reachable, meta.name);
            return true, visited;
          }
          continue;
        }
        if d.isReactiveSource {
          ReactiveHere(ctx, reachable, meta.name);
          return true, visited;
        }
        if !d.isFunctionDef && !d.isStructuralLiteral && !d.isSignalApi {
          found, visited := DependsOnReactiveInner(ctx, reachable, d, visited);
          if found {
            ReactiveThrough(ctx, reachable, meta.name, dep);
            return true, visited;
          }
        }
      }
    }
    found := false;
  }

  // ------------------------------------------------------------------------------------------
  // Classification
  // ------------------------------------------------------------------------------------------

  ghost predicate PlainConst(meta: VarMeta) {
    meta.destructuredKind.None? && !meta.isLet && !meta.isSignalApi && !meta.isFunctionDef && !meta.isStructuralLiteral
  }

  /** What a variable is, from paths alone. */
  ghost function KindOf(ctx: Context, refs: set<string>, meta: VarMeta): Kind {
    if meta.destructuredKind.Some? then
      if meta.destructuredKind.value.DestructuredSignal? || meta.destructuredKind.value.DestructuredSource? then Signal else Static
    else if meta.isLet then
      if Reachable(ctx.ConstDeps(), refs, meta.name) then Signal else Static
    else if PlainConst(meta) && Reactive(ctx, ReachableSet(ctx, refs), meta.name) then Computed
    else Static
  }

  ghost function ReachableSet(ctx: Context, refs: set<string>): set<string> {
    set n | n in AllNames(ctx, refs) && Reachable(ctx.ConstDeps(), refs, n)
  }

  ghost function AllNames(ctx: Context, refs: set<string>): set<string> {
    refs + set n, d | n in ctx.ConstDeps() && d in ctx.ConstDeps()[n] :: d
  }

  lemma ReachableSetIsReachable(ctx: Context, refs: set<string>)
    ensures forall n :: n in ReachableSet(ctx, refs) <==> Reachable(ctx.ConstDeps(), refs, n)
  {
    var c := ctx.ConstDeps();
    assert Closed(c, AllNames(ctx, refs)) by {
      forall n, d | n in c && d in c[n] ensures d in AllNames(ctx, refs) {}
    }
    ReachableIsLeast(c, refs, AllNames(ctx, refs));
  }

  /** The names that each const mentions, collected in some order. */
  method CollectConstDeps(ctx: Context) returns (deps: map<string, set<string>>)
    ensures deps == ctx.ConstDeps()
  {
    deps := map[];
    var todo := ctx.vars.Keys;
    while todo != {}
      invariant todo <= ctx.vars.Keys
      invariant forall n :: n in deps <==> n in ctx.vars && n !in todo && !ctx.vars[n].isLet
      invariant forall n | n in deps :: deps[n] == ctx.vars[n].deps
    {
      var name :| name in todo;
      todo := todo - {name};
      if !ctx.vars[name].isLet {
        deps := deps[name := ctx.vars[name].deps];
      }
    }
  }

  method ClassifyVariables(ctx: Context, metas: seq<VarMeta>, refs: set<string>) returns (kinds: seq<Kind>)
    requires ctx.Valid()
    requires forall i | 0 <= i < |metas| :: metas[i].name in ctx.vars && ctx.vars[metas[i].name] == metas[i]
    ensures |kinds| == |metas|
    ensures forall i | 0 <= i < |metas| :: kinds[i] == KindOf(ctx, refs, metas[i])
  {
    var constDeps := CollectConstDeps(ctx);
    var reachable := ExpandReachable(constDeps, refs);
    ReachableSetIsReachable(ctx, refs);
    assert reachable == ReachableSet(ctx, refs);
    kinds := [];
    for i := 0 to |metas|
      invariant |kinds| == i
      invariant forall k | 0 <= k < i :: kinds[k] == KindOf(ctx, refs, metas[k])
    {
      var meta := metas[i];
      var kind;
      if meta.destructuredKind.Some? {
        match meta.destructuredKind.value {
          case DestructuredSignal => kind := Signal;
          case DestructuredStatic => kind := Static;
          case DestructuredSource => kind := Signal;
          case DestructuredUnknown => kind := Static;
        }
      } else if meta.isLet {
        kind := if meta.name in reachable then Signal else Static;
      } else if meta.isSignalApi || meta.isFunctionDef || meta.isStructuralLiteral {
        kind := Static;
      } else {
        var found := DependsOnReactive(ctx, reachable, meta);
        kind := if found then Computed else Static;
      }
      kinds := kinds + [kind];
    }
  }

  /** A variable is a Signal exactly if it is destructured as one or as a reactive source, or is a let that a chain of
      consts connects with the JSX. It is Computed exactly if it is a const of its own that is no function, no literal and
      no signal api, and a chain of such variables leads from it to one that mentions a prop, a connected let, a reactive
      source or a signal property. */
  lemma KindIsDecidedByPaths(ctx: Context, refs: set<string>, meta: VarMeta)
    requires meta.name in ctx.vars && ctx.vars[meta.name] == meta
    ensures KindOf(ctx, refs, meta).Signal? <==>
      if meta.destructuredKind.Some? then meta.destructuredKind.value in {DestructuredSignal, DestructuredSource}
      else meta.isLet && exists path: seq<string> ::
        path != [] && path[0] in refs && path[|path|-1] == meta.name && ThroughConsts(ctx, path)
    ensures KindOf(ctx, refs, meta).Computed? <==>
      && meta.destructuredKind.None? && !meta.isLet && !meta.isSignalApi && !meta.isFunctionDef && !meta.isStructuralLiteral
      && exists path: seq<string> :: path != [] && path[0] == meta.name && LeadsToReactive(ctx, refs, path)
  {
    hide Reactive, DepPath, EndsReactive;
    ReachableInVars(ctx, refs, meta.name);
    ReactiveInVars(ctx, refs, meta.name);
  }

  /** Each of the path's names but the last is a const that mentions the next. */
  ghost predicate ThroughConsts(ctx: Context, path: seq<string>) {
    forall i | 0 <= i < |path| - 1 :: path[i] in ctx.vars && !ctx.vars[path[i]].isLet && path[i+1] in ctx.vars[path[i]].deps
  }

  /** Each of the path's names mentions the next, which passes reactivity on, and the last mentions something reactive. */
  ghost predicate LeadsToReactive(ctx: Context, refs: set<string>, path: seq<string>)
    requires path != []
  {
    && (forall i | 0 <= i < |path| :: path[i] in ctx.vars)
    && (forall i | 0 < i < |path| ::
          path[i] in ctx.vars[path[i-1]].deps
          && !ctx.vars[path[i]].isFunctionDef && !ctx.vars[path[i]].isStructuralLiteral && !ctx.vars[path[i]].isSignalApi)
    && (var last := ctx.vars[path[|path|-1]]; exists dep :: dep in last.deps && MakesReactive(ctx, refs, last, dep))
  }

  ghost predicate MakesReactive(ctx: Context, refs: set<string>, user: VarMeta, dep: string) {
    if dep in ctx.propNames then true
    else if dep !in ctx.vars then false
    else
      var d := ctx.vars[dep];
      || (d.isLet && Reachable(ctx.ConstDeps(), refs, dep))
      || (!d.isSignalApi && d.isReactiveSource)
      || (d.isSignalApi && dep in user.propertyAccesses && d.signalApiName.Some? && d.signalApiName.value in ctx.signalProperties
          && user.propertyAccesses[dep] * ctx.signalProperties[d.signalApiName.value] != {})
  }

  lemma ReachableInVars(ctx: Context, refs: set<string>, name: string)
    ensures Reachable(ctx.ConstDeps(), refs, name) <==> exists path: seq<string> ::
      path != [] && path[0] in refs && path[|path|-1] == name && ThroughConsts(ctx, path)
  {
    forall path: seq<string> | path != [] ensures ConstPath(ctx.ConstDeps(), path) <==> ThroughConsts(ctx, path) {
    }
    if Reachable(ctx.ConstDeps(), refs, name) {
      var path :| ConstPath(ctx.ConstDeps(), path) && path[0] in refs && path[|path|-1] == name;
      assert path != [] && path[0] in refs;
    }
    if path: seq<string> :| path != [] && path[0] in refs && path[|path|-1] == name && ThroughConsts(ctx, path) {
      assert ConstPath(ctx.ConstDeps(), path);
    }
  }

  lemma ReactiveInVars(ctx: Context, refs: set<string>, name: string)
    ensures Reactive(ctx, ReachableSet(ctx, refs), name) <==>
      exists path: seq<string> :: path != [] && path[0] == name && LeadsToReactive(ctx, refs, path)
  {
    hide LeadsToReactive, EndsReactive, ReachableSet;
    var r := ReachableSet(ctx, refs);
    forall path: seq<string> | path != [] ensures DepPath(ctx, path) && EndsReactive(ctx, r, path) <==> LeadsToReactive(ctx, refs, path) {
      PathLeads(ctx, refs, path);
    }
    if Reactive(ctx, r, name) {
      var path :| DepPath(ctx, path) && path[0] == name && EndsReactive(ctx, r, path);
      assert path != [] && LeadsToReactive(ctx, refs, path);
    }
  }

  lemma {:induction false} PathLeads(ctx: Context, refs: set<string>, path: seq<string>)
    requires path != []
    ensures DepPath(ctx, path) && EndsReactive(ctx, ReachableSet(ctx, refs), path) <==> LeadsToReactive(ctx, refs, path)
  {
    hide ReachableSet, Reachable, Direct, MakesReactive;
    var r := ReachableSet(ctx, refs);
    if |path| == 1 {
      if path[0] in ctx.vars { SameDeps(ctx, refs, ctx.vars[path[0]]); }
    } else {
      PathLeads(ctx, refs, path[1..]);
      if LeadsToReactive(ctx, refs, path) {
        assert path[1] in ctx.vars[path[0]].deps;
        assert forall i | 0 <= i < |path[1..]| :: path[1..][i] == path[i+1];
        assert LeadsToReactive(ctx, refs, path[1..]);
      }
    }
  }

  lemma SameDeps(ctx: Context, refs: set<string>, user: VarMeta)
    ensures forall dep :: Direct(ctx, ReachableSet(ctx, refs), user, dep) <==> MakesReactive(ctx, refs, user, dep)
  {
    ReachableSetIsReachable(ctx, refs);
    hide ReachableSet, Reachable;
    forall dep ensures Direct(ctx, ReachableSet(ctx, refs), user, dep) <==> MakesReactive(ctx, refs, user, dep) {
      if dep in ctx.vars && ctx.vars[dep].isSignalApi && dep in user.propertyAccesses && ctx.vars[dep].signalApiName.Some?
         && ctx.vars[dep].signalApiName.value in ctx.signalProperties {
        var a, b := user.propertyAccesses[dep], ctx.signalProperties[ctx.vars[dep].signalApiName.value];
        if p :| p in a && p in b { assert p in a * b; }
        if a * b != {} { var p :| p in a * b; assert p in a && p in b; }
      }
    }
  }

  /** One more reference in the JSX never takes a kind away: a variable keeps its kind or rises from Static. */
  lemma ClassificationIsMonotone(ctx: Context, refs: set<string>, more: set<string>, meta: VarMeta)
    requires refs <= more
    ensures KindOf(ctx, refs, meta) == KindOf(ctx, more, meta) || KindOf(ctx, refs, meta) == Static
  {
    var c := ctx.ConstDeps();
    forall n | Reachable(c, refs, n) ensures Reachable(c, more, n) {
      var path :| ConstPath(c, path) && path[0] in refs && path[|path|-1] == n;
      assert path[0] in more;
    }
    ReachableSetIsReachable(ctx, refs);
    ReachableSetIsReachable(ctx, more);
    var r, r' := ReachableSet(ctx, refs), ReachableSet(ctx, more);
    if Reactive(ctx, r, meta.name) {
      var path :| DepPath(ctx, path) && path[0] == meta.name && EndsReactive(ctx, r, path);
      var last := ctx.vars[path[|path|-1]];
      var dep :| dep in last.deps && Direct(ctx, r, last, dep);
      assert Direct(ctx, r', last, dep);
      assert EndsReactive(ctx, r', path);
    }
  }

  /** References to what the JSX reaches already change no kind. */
  lemma ReachedReferencesChangeNothing(ctx: Context, refs: set<string>, more: set<string>, meta: VarMeta)
    requires refs <= more && forall n | n in more :: Reachable(ctx.ConstDeps(), refs, n)
    ensures KindOf(ctx, refs, meta) == KindOf(ctx, more, meta)
  {
    hide Reachable, Reactive;
    ReachIsTheSame(ctx.ConstDeps(), refs, more);
    ReachableSetIsReachable(ctx, refs);
    ReachableSetIsReachable(ctx, more);
    assert ReachableSet(ctx, refs) == ReachableSet(ctx, more) by { hide ReachableSet; }
  }

  lemma ReachIsTheSame(constDeps: map<string, set<string>>, refs: set<string>, more: set<string>)
    requires refs <= more && forall n | n in more :: Reachable(constDeps, refs, n)
    ensures forall n :: Reachable(constDeps, refs, n) <==> Reachable(constDeps, more, n)
  {
    forall n ensures Reachable(constDeps, refs, n) <==> Reachable(constDeps, more, n) {
      if Reachable(constDeps, refs, n) {
        var path :| ConstPath(constDeps, path) && path[0] in refs && path[|path|-1] == n;
        assert path[0] in more;
      }
      if Reachable(constDeps, more, n) {
        var path :| ConstPath(constDeps, path) && path[0] in more && path[|path|-1] == n;
        ReachAlong(constDeps, refs, path);
      }
    }
  }

  lemma ReachAlong(constDeps: map<string, set<string>>, refs: set<string>, path: seq<string>)
    requires ConstPath(constDeps, path) && Reachable(constDeps, refs, path[0])
    ensures Reachable(constDeps, refs, path[|path|-1])
  {
    hide Reachable;
    for i := 1 to |path|
      invariant Reachable(constDeps, refs, path[i-1])
    {
      ReachableExtends(constDeps, refs, path[i-1], path[i]);
    }
  }

  /** A plain const that depends on a Computed is itself Computed. */
  lemma ComputedSpreads(ctx: Context, refs: set<string>, meta: VarMeta, dep: string)
    requires ctx.Valid() && meta.name in ctx.vars && ctx.vars[meta.name] == meta
    requires PlainConst(meta) && dep in meta.deps && dep in ctx.vars
    requires KindOf(ctx, refs, ctx.vars[dep]) == Computed
    ensures KindOf(ctx, refs, meta) == Computed
  {
    ReactiveThrough(ctx, ReachableSet(ctx, refs), meta.name, dep);
  }
}

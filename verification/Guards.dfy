/** Guard folding (aot_string_transformer.rs): a component body with several returns of JSX becomes one nested ternary
    over the conditions of the ifs around them; a body with a single return of JSX is rendered from that alone. */
module Guards {
  import opened Common

  // Conditions and JSX are identified by numbers; a set of conditions is the set of those that hold.

  /** A return of something other than JSX has no number. */
  datatype Stmt =
    | Return(jsx: Option<nat>)
    | If(test: nat, consequent: Stmt, alternate: Option<Stmt>)
    | Block(body: seq<Stmt>)
    | Other

  datatype Outcome = FallsThrough | Returned(jsx: Option<nat>)

  ghost function Run(s: Stmt, v: set<nat>): Outcome
    decreases s, 0
  {
    match s
    case Return(jsx) => Returned(jsx)
    case If(t, c, a) => if t in v then Run(c, v) else if a.Some? then Run(a.value, v) else FallsThrough
    case Block(body) => RunAll(body, v)
    case Other => FallsThrough
  }

  ghost function RunAll(body: seq<Stmt>, v: set<nat>): Outcome
    decreases body, 1
  {
    if body == [] then FallsThrough
    else
      var first := Run(body[0], v);
      if first == FallsThrough then RunAll(body[1..], v) else first
  }

  // ------------------------------------------------------------------------------------------
  // The analysis and the fold
  // ------------------------------------------------------------------------------------------

  /** The returns of JSX in a statement, in source order. */
  function JsxOf(s: Stmt): seq<nat>
    decreases s, 0
  {
    match s
    case Return(jsx) => if jsx.Some? then [jsx.value] else []
    case If(_, c, a) => JsxOf(c) + if a.Some? then JsxOf(a.value) else []
    case Block(body) => JsxOfAll(body)
    case Other => []
  }

  function JsxOfAll(body: seq<Stmt>): seq<nat>
    decreases body, 1
  {
    if body == [] then [] else JsxOf(body[0]) + JsxOfAll(body[1..])
  }

  /** A return of JSX with the top-level if around it, if there is one, and whether it lies in the else branch. */
  datatype Found = Found(inIf: bool, test: nat, inElse: bool, jsx: nat)

  function FoundIn(s: Stmt): seq<Found> {
    match s
    case If(t, c, a) => Mark(JsxOf(c), true, t, false) + if a.Some? then Mark(JsxOf(a.value), true, t, true) else []
    case _ => Mark(JsxOf(s), false, 0, false)
  }

  function Mark(jsx: seq<nat>, inIf: bool, test: nat, inElse: bool): seq<Found> {
    if jsx == [] then [] else [Found(inIf, test, inElse, jsx[0])] + Mark(jsx[1..], inIf, test, inElse)
  }

  function FoundInAll(body: seq<Stmt>): seq<Found> {
    if body == [] then [] else FoundIn(body[0]) + FoundInAll(body[1..])
  }

  datatype Guard = Guard(test: nat, negated: bool, jsx: nat)

  datatype Pattern = Pattern(guards: seq<Guard>, main: nat)

  predicate Holds(g: Guard, v: set<nat>) { (g.test in v) != g.negated }

  /** Every return but the last lies in a top-level if, and the last does not. */
  ghost predicate IsGuardPattern(found: seq<Found>) {
    |found| > 1 && !found[|found|-1].inIf && forall i | 0 <= i < |found| - 1 :: found[i].inIf
  }

  function ToGuard(f: Found): Guard { Guard(f.test, f.inElse, f.jsx) }

  method AnalyzeGuardPattern(found: seq<Found>) returns (p: Option<Pattern>)
    requires |found| > 1
    ensures p.Some? <==> IsGuardPattern(found)
    ensures p.Some? ==> p.value.main == found[|found|-1].jsx && |p.value.guards| == |found| - 1
    ensures p.Some? ==> forall i | 0 <= i < |found| - 1 :: p.value.guards[i] == ToGuard(found[i])
  {
    var guards: seq<Guard> := [];
    for i := 0 to |found| - 1
      invariant |guards| == i
      invariant forall k | 0 <= k < i :: found[k].inIf && guards[k] == ToGuard(found[k])
    {
      if !found[i].inIf {
        return None;
      }
      guards := guards + [Guard(found[i].test, found[i].inElse, found[i].jsx)];
    }
    if found[|found|-1].inIf {
      return None;
    }
    return Some(Pattern(guards, found[|found|-1].jsx));
  }

  datatype Ternary = Leaf(jsx: nat) | Choose(guard: Guard, rest: Ternary)

  function Eval(t: Ternary, v: set<nat>): nat {
    match t
    case Leaf(j) => j
    case Choose(g, rest) => if Holds(g, v) then g.jsx else Eval(rest, v)
  }

  /** The first guard that holds, or else the main return. */
  function Pick(guards: seq<Guard>, main: nat, v: set<nat>): nat {
    if guards == [] then main else if Holds(guards[0], v) then guards[0].jsx else Pick(guards[1..], main, v)
  }

  /** The fold runs over the guards from the last to the first. */
  method GuardPatternToTernary(p: Pattern) returns (result: Ternary)
    ensures forall v :: Eval(result, v) == Pick(p.guards, p.main, v)
  {
    result := Leaf(p.main);
    var i := |p.guards|;
    while i > 0
      invariant 0 <= i <= |p.guards|
      invariant forall v :: Eval(result, v) == Pick(p.guards[i..], p.main, v)
    {
      i := i - 1;
      assert p.guards[i..][0] == p.guards[i] && p.guards[i..][1..] == p.guards[i+1..];
      result := Choose(p.guards[i], result);
    }
    assert p.guards[0..] == p.guards;
  }

  // ------------------------------------------------------------------------------------------
  // What the output renders, read off the body
  // ------------------------------------------------------------------------------------------

  /** The first return of JSX that is not behind the wrong branch of a top-level if; what is inside the branch, or
      inside a block, is not looked at. */
  ghost function Chosen(body: seq<Stmt>, v: set<nat>): Option<nat> {
    if body == [] then None
    else
      var l := Visible(body[0], v);
      if l != [] then Some(l[0]) else Chosen(body[1..], v)
  }

  ghost function Visible(s: Stmt, v: set<nat>): seq<nat> {
    if s.If? then if s.test in v then JsxOf(s.consequent) else if s.alternate.Some? then JsxOf(s.alternate.value) else []
    else JsxOf(s)
  }

  ghost function PickFound(found: seq<Found>, v: set<nat>): Option<nat> {
    if found == [] then None
    else if found[0].inIf && !Holds(ToGuard(found[0]), v) then PickFound(found[1..], v)
    else Some(found[0].jsx)
  }

  lemma {:induction false} PickFoundConcat(a: seq<Found>, b: seq<Found>, v: set<nat>)
    ensures PickFound(a + b, v) == if PickFound(a, v).Some? then PickFound(a, v) else PickFound(b, v)
  {
    if a == [] {
      assert a + b == b;
    } else {
      assert (a + b)[1..] == a[1..] + b;
      PickFoundConcat(a[1..], b, v);
    }
  }

  lemma {:induction false} PickMarked(jsx: seq<nat>, inIf: bool, test: nat, inElse: bool, v: set<nat>)
    ensures PickFound(Mark(jsx, inIf, test, inElse), v) ==
      if jsx != [] && (!inIf || (test in v) != inElse) then Some(jsx[0]) else None
  {
    if jsx != [] { PickMarked(jsx[1..], inIf, test, inElse, v); }
  }

  lemma {:induction false} ChosenIsPicked(body: seq<Stmt>, v: set<nat>)
    ensures Chosen(body, v) == PickFound(FoundInAll(body), v)
  {
    if body != [] {
      ChosenIsPicked(body[1..], v);
      PickFoundConcat(FoundIn(body[0]), FoundInAll(body[1..]), v);
      match body[0] {
        case If(t, c, a) =>
          PickMarked(JsxOf(c), true, t, false, v);
          if a.Some? {
            PickMarked(JsxOf(a.value), true, t, true, v);
            PickFoundConcat(Mark(JsxOf(c), true, t, false), Mark(JsxOf(a.value), true, t, true), v);
          } else {
            assert FoundIn(body[0]) == Mark(JsxOf(c), true, t, false);
          }
        case _ => PickMarked(JsxOf(body[0]), false, 0, false, v);
      }
    }
  }

  lemma {:induction false} PickedIsPick(found: seq<Found>, guards: seq<Guard>, v: set<nat>)
    requires found != [] && !found[|found|-1].inIf && |guards| == |found| - 1
    requires forall i | 0 <= i < |guards| :: found[i].inIf && guards[i] == ToGuard(found[i])
    ensures PickFound(found, v) == Some(Pick(guards, found[|found|-1].jsx, v))
  {
    if guards != [] { PickedIsPick(found[1..], guards[1..], v); }
  }

  // ------------------------------------------------------------------------------------------
  // The shape of body that the fold understands
  // ------------------------------------------------------------------------------------------

  predicate HasReturn(s: Stmt)
    decreases s, 0
  {
    match s
    case Return(_) => true
    case If(_, c, a) => HasReturn(c) || (a.Some? && HasReturn(a.value))
    case Block(body) => HasReturnAll(body)
    case Other => false
  }

  predicate HasReturnAll(body: seq<Stmt>)
    decreases body, 1
  {
    body != [] && (HasReturn(body[0]) || HasReturnAll(body[1..]))
  }

  /** The JSX that a statement returns without a further question. */
  function Sure(s: Stmt): Option<nat>
    decreases s, 0
  {
    match s
    case Return(jsx) => jsx
    case Block(body) => SureAll(body)
    case _ => None
  }

  function SureAll(body: seq<Stmt>): Option<nat>
    decreases body, 1
  {
    if body == [] then None else if HasReturn(body[0]) then Sure(body[0]) else SureAll(body[1..])
  }

  predicate Okay(s: Stmt) { !HasReturn(s) || Sure(s).Some? }

  /** Up to the first statement that always returns JSX, the only returns are in top-level ifs, each branch of which
      returns JSX without a further question or does not return at all. */
  predicate Foldable(body: seq<Stmt>) {
    body != [] &&
    var s := body[0];
    if !HasReturn(s) then Foldable(body[1..])
    else if s.If? then
      Okay(s.consequent) && (s.alternate.Some? ==> Okay(s.alternate.value)) &&
      ((Sure(s.consequent).Some? && s.alternate.Some? && Sure(s.alternate.value).Some?) || Foldable(body[1..]))
    else Sure(s).Some?
  }

  ghost predicate Right(body: seq<Stmt>, v: set<nat>) {
    Chosen(body, v).Some? && RunAll(body, v) == Returned(Chosen(body, v))
  }

  lemma {:induction false} NoReturnFallsThrough(s: Stmt, v: set<nat>)
    requires !HasReturn(s)
    ensures Run(s, v) == FallsThrough && JsxOf(s) == []
    decreases s, 0
  {
    match s {
      case If(t, c, a) =>
        NoReturnFallsThrough(c, v);
        if a.Some? { NoReturnFallsThrough(a.value, v); }
      case Block(body) => NoReturnFallsThroughAll(body, v);
      case _ =>
    }
  }

  lemma {:induction false} NoReturnFallsThroughAll(body: seq<Stmt>, v: set<nat>)
    requires !HasReturnAll(body)
    ensures RunAll(body, v) == FallsThrough && JsxOfAll(body) == []
    decreases body, 1
  {
    if body != [] {
      NoReturnFallsThrough(body[0], v);
      NoReturnFallsThroughAll(body[1..], v);
    }
  }

  lemma {:induction false} SureReturns(s: Stmt, v: set<nat>)
    requires Sure(s).Some?
    ensures Run(s, v) == Returned(Sure(s)) && JsxOf(s) != [] && JsxOf(s)[0] == Sure(s).value && HasReturn(s)
    decreases s, 0
  {
    if s.Block? { SureReturnsAll(s.body, v); }
  }

  lemma {:induction false} SureReturnsAll(body: seq<Stmt>, v: set<nat>)
    requires SureAll(body).Some?
    ensures RunAll(body, v) == Returned(SureAll(body)) && JsxOfAll(body) != [] && JsxOfAll(body)[0] == SureAll(body).value
    ensures HasReturnAll(body)
    decreases body, 1
  {
    if HasReturn(body[0]) {
      SureReturns(body[0], v);
    } else {
      NoReturnFallsThrough(body[0], v);
      SureReturnsAll(body[1..], v);
    }
  }

  lemma {:induction false} FoldableIsRight(body: seq<Stmt>, v: set<nat>)
    requires Foldable(body)
    ensures Right(body, v)
  {
    var s := body[0];
    if !HasReturn(s) {
      NoReturnFallsThrough(s, v);
      NoReturnVisible(s, v);
      FoldableIsRight(body[1..], v);
    } else if s.If? {
      var branch := if s.test in v then Some(s.consequent) else s.alternate;
      if branch.Some? && HasReturn(branch.value) {
        SureReturns(branch.value, v);
      } else {
        if branch.Some? { NoReturnFallsThrough(branch.value, v); NotSure(branch.value); }
        FoldableIsRight(body[1..], v);
      }
    } else {
      SureReturns(s, v);
    }
  }

  lemma NotSure(s: Stmt)
    requires !HasReturn(s)
    ensures Sure(s).None?
  {
    if Sure(s).Some? { SureReturns(s, {}); }
  }

  lemma NoReturnVisible(s: Stmt, v: set<nat>)
    requires !HasReturn(s)
    ensures Visible(s, v) == []
  {
    NoReturnFallsThrough(s, v);
  }

  // ------------------------------------------------------------------------------------------
  // Every other body is got wrong
  // ------------------------------------------------------------------------------------------

  ghost function TestsOf(s: Stmt): set<nat>
    decreases s, 0
  {
    match s
    case If(t, c, a) => {t} + TestsOf(c) + if a.Some? then TestsOf(a.value) else {}
    case Block(body) => TestsOfAll(body)
    case _ => {}
  }

  ghost function TestsOfAll(body: seq<Stmt>): set<nat>
    decreases body, 1
  {
    if body == [] then {} else TestsOf(body[0]) + TestsOfAll(body[1..])
  }

  /** The conditions are independent of each other, and the returns return different things. */
  ghost predicate Distinct(s: Stmt)
    decreases s, 0
  {
    match s
    case If(t, c, a) =>
      && Distinct(c) && t !in TestsOf(c)
      && (a.Some? ==> Distinct(a.value) && t !in TestsOf(a.value) && Apart(JsxOf(c), JsxOf(a.value)))
    case Block(body) => DistinctAll(body)
    case _ => true
  }

  ghost predicate DistinctAll(body: seq<Stmt>)
    decreases body, 1
  {
    body != [] ==>
      && Distinct(body[0]) && DistinctAll(body[1..])
      && TestsOf(body[0]) !! TestsOfAll(body[1..]) && Apart(JsxOf(body[0]), JsxOfAll(body[1..]))
  }

  ghost predicate Apart(a: seq<nat>, b: seq<nat>) {
    forall x | x in a :: x !in b
  }

  lemma {:induction false} RunAgrees(s: Stmt, v: set<nat>, w: set<nat>)
    requires v * TestsOf(s) == w * TestsOf(s)
    ensures Run(s, v) == Run(s, w)
    decreases s, 0
  {
    match s {
      case If(t, c, a) =>
        assert t in v * TestsOf(s) <==> t in w * TestsOf(s);
        Narrow(v, w, TestsOf(s), TestsOf(c));
        RunAgrees(c, v, w);
        if a.Some? {
          Narrow(v, w, TestsOf(s), TestsOf(a.value));
          RunAgrees(a.value, v, w);
        }
      case Block(body) => RunAllAgrees(body, v, w);
      case _ =>
    }
  }

  lemma Narrow(v: set<nat>, w: set<nat>, big: set<nat>, small: set<nat>)
    requires v * big == w * big && small <= big
    ensures v * small == w * small
  {
    assert v * small == v * big * small;
    assert w * small == w * big * small;
  }

  lemma {:induction false} RunAllAgrees(body: seq<Stmt>, v: set<nat>, w: set<nat>)
    requires v * TestsOfAll(body) == w * TestsOfAll(body)
    ensures RunAll(body, v) == RunAll(body, w)
    ensures Chosen(body, v) == Chosen(body, w)
    decreases body, 1
  {
    if body != [] {
      Narrow(v, w, TestsOfAll(body), TestsOf(body[0]));
      Narrow(v, w, TestsOfAll(body), TestsOfAll(body[1..]));
      RunAgrees(body[0], v, w);
      RunAllAgrees(body[1..], v, w);
      if body[0].If? { assert body[0].test in v * TestsOf(body[0]) <==> body[0].test in w * TestsOf(body[0]); }
    }
  }

  lemma {:induction false} RunReturnsJsx(s: Stmt, v: set<nat>)
    ensures Run(s, v).Returned? && Run(s, v).jsx.Some? ==> Run(s, v).jsx.value in JsxOf(s)
    decreases s, 0
  {
    match s {
      case If(t, c, a) =>
        RunReturnsJsx(c, v);
        if a.Some? { RunReturnsJsx(a.value, v); }
      case Block(body) => RunAllReturnsJsx(body, v);
      case _ =>
    }
  }

  lemma {:induction false} RunAllReturnsJsx(body: seq<Stmt>, v: set<nat>)
    ensures RunAll(body, v).Returned? && RunAll(body, v).jsx.Some? ==> RunAll(body, v).jsx.value in JsxOfAll(body)
    decreases body, 1
  {
    if body != [] {
      RunReturnsJsx(body[0], v);
      RunAllReturnsJsx(body[1..], v);
    }
  }

  /** A run that does not end where the first JSX of the statement says. */
  ghost predicate Misses(o: Outcome, jsx: seq<nat>) {
    if jsx == [] then o == Returned(None) else o != Returned(Some(jsx[0]))
  }

  /** A statement that can return, but not surely, has a run that returns something else, or goes on. */
  lemma {:induction false} UnsureMisses(s: Stmt) returns (v: set<nat>)
    requires HasReturn(s) && Sure(s).None? && Distinct(s)
    ensures v <= TestsOf(s) && Misses(Run(s, v), JsxOf(s))
    decreases s, 0
  {
    match s {
      case Return(_) => v := {};
      case If(t, c, a) =>
        if JsxOf(c) != [] {
          v := {};
          if a.Some? { RunReturnsJsx(a.value, v); }
        } else if a.Some? && JsxOf(a.value) != [] {
          v := {t};
          RunReturnsJsx(c, v);
        } else if HasReturn(c) {
          NoJsxNotSure(c);
          var w := UnsureMisses(c);
          v := w + {t};
          assert v * TestsOf(c) == w * TestsOf(c);
          RunAgrees(c, v, w);
        } else {
          NoJsxNotSure(a.value);
          v := UnsureMisses(a.value);
        }
      case Block(body) => v := UnsureMissesAll(body);
    }
  }

  lemma NoJsxNotSure(s: Stmt)
    requires JsxOf(s) == []
    ensures Sure(s).None?
  {
    if Sure(s).Some? { SureReturns(s, {}); }
  }

  lemma {:induction false} UnsureMissesAll(body: seq<Stmt>) returns (v: set<nat>)
    requires HasReturnAll(body) && SureAll(body).None? && DistinctAll(body)
    ensures v <= TestsOfAll(body) && Misses(RunAll(body, v), JsxOfAll(body))
    decreases body, 1
  {
    if HasReturn(body[0]) {
      v := UnsureMisses(body[0]);
      RunAllReturnsJsx(body[1..], v);
    } else {
      v := UnsureMissesAll(body[1..]);
      NoReturnFallsThrough(body[0], v);
    }
  }

  lemma {:induction false} UnfoldableIsWrong(body: seq<Stmt>) returns (v: set<nat>)
    requires !Foldable(body) && DistinctAll(body)
    ensures v <= TestsOfAll(body) && !Right(body, v)
  {
    if body == [] {
      v := {};
    } else {
      var s := body[0];
      if !HasReturn(s) {
        v := UnfoldableIsWrong(body[1..]);
        NoReturnFallsThrough(s, v);
        NoReturnVisible(s, v);
      } else if s.If? && Okay(s.consequent) && (s.alternate.Some? ==> Okay(s.alternate.value)) {
        v := PastGuard(body);
      } else if s.If? {
        v := BadBranch(body);
      } else {
        v := UnsureMisses(s);
        StopsThere(body, v, JsxOf(s));
      }
    }
  }

  lemma StopsThere(body: seq<Stmt>, v: set<nat>, jsx: seq<nat>)
    requires body != [] && DistinctAll(body) && Visible(body[0], v) == jsx && Misses(Run(body[0], v), jsx)
    requires forall j | j in jsx :: j in JsxOf(body[0])
    ensures !Right(body, v)
  {
    RunAllReturnsJsx(body[1..], v);
    if jsx != [] { assert jsx[0] in jsx; }
  }

  /** Behind an if that can be passed, what goes wrong in the rest goes wrong. */
  lemma PastGuard(body: seq<Stmt>) returns (v: set<nat>)
    requires body != [] && DistinctAll(body) && !Foldable(body)
    requires body[0].If? && HasReturn(body[0]) && Okay(body[0].consequent)
    requires body[0].alternate.Some? ==> Okay(body[0].alternate.value)
    ensures v <= TestsOfAll(body) && !Right(body, v)
    decreases body, 0
  {
    var s := body[0];
    var w := UnfoldableIsWrong(body[1..]);
    if Sure(s.consequent).None? {
      v := w + {s.test};
      NoReturnFallsThrough(s.consequent, v);
    } else {
      v := w;
      if s.alternate.Some? { NoReturnFallsThrough(s.alternate.value, v); }
    }
    assert v * TestsOfAll(body[1..]) == w * TestsOfAll(body[1..]);
    RunAllAgrees(body[1..], v, w);
    assert s.test in TestsOf(s) && (Sure(s.consequent).None? <==> s.test in v);
    assert Visible(s, v) == [] && Run(s, v) == FallsThrough;
  }

  lemma BadBranch(body: seq<Stmt>) returns (v: set<nat>)
    requires body != [] && DistinctAll(body) && body[0].If?
    requires !(Okay(body[0].consequent) && (body[0].alternate.Some? ==> Okay(body[0].alternate.value)))
    ensures v <= TestsOfAll(body) && !Right(body, v)
  {
    var s := body[0];
    if !Okay(s.consequent) {
      var w := UnsureMisses(s.consequent);
      v := w + {s.test};
      assert v * TestsOf(s.consequent) == w * TestsOf(s.consequent);
      RunAgrees(s.consequent, v, w);
      StopsThere(body, v, JsxOf(s.consequent));
    } else {
      v := UnsureMisses(s.alternate.value);
      StopsThere(body, v, JsxOf(s.alternate.value));
    }
  }

  /** The fold of a foldable body with several returns of JSX renders what the body returns, whatever conditions hold;
      of a body that is not, with independent conditions and different JSX, it renders something else for some. */
  lemma FoldIsFaithfulIffFoldable(body: seq<Stmt>, guards: seq<Guard>)
    requires IsGuardPattern(FoundInAll(body)) && |guards| == |FoundInAll(body)| - 1
    requires forall i | 0 <= i < |guards| :: guards[i] == ToGuard(FoundInAll(body)[i])
    ensures var found := FoundInAll(body);
      Foldable(body) ==> forall v :: RunAll(body, v) == Returned(Some(Pick(guards, found[|found|-1].jsx, v)))
    ensures var found := FoundInAll(body);
      DistinctAll(body) && (forall v :: RunAll(body, v) == Returned(Some(Pick(guards, found[|found|-1].jsx, v))))
      ==> Foldable(body)
  {
    var found := FoundInAll(body);
    var main := found[|found|-1].jsx;
    forall v ensures Chosen(body, v) == Some(Pick(guards, main, v)) {
      ChosenIsPicked(body, v);
      PickedIsPick(found, guards, v);
    }
    if Foldable(body) {
      forall v ensures RunAll(body, v) == Returned(Some(Pick(guards, main, v))) { FoldableIsRight(body, v); }
    } else if DistinctAll(body) {
      var v := UnfoldableIsWrong(body);
      assert RunAll(body, v) != Returned(Some(Pick(guards, main, v)));
    }
  }

  lemma {:induction false} ChosenIsListed(body: seq<Stmt>, v: set<nat>)
    ensures Chosen(body, v).Some? ==> Chosen(body, v).value in JsxOfAll(body)
  {
    if body != [] { ChosenIsListed(body[1..], v); }
  }

  lemma {:induction false} ReturnedIsChosen(body: seq<Stmt>, v: set<nat>, j: nat)
    requires RunAll(body, v) == Returned(Some(j)) && forall x | x in JsxOfAll(body) :: x == j
    ensures Chosen(body, v) == Some(j)
  {
    var s := body[0];
    RunReturnsJsx(s, v);
    if s.If? {
      RunReturnsJsx(s.consequent, v);
      if s.alternate.Some? { RunReturnsJsx(s.alternate.value, v); }
    }
    if Visible(s, v) == [] {
      assert Run(s, v) == FallsThrough || Run(s, v) == Returned(None);
      assert forall x | x in JsxOfAll(body[1..]) :: x in JsxOfAll(body);
      ReturnedIsChosen(body[1..], v, j);
    } else {
      assert Visible(s, v)[0] in JsxOfAll(body);
    }
  }

  /** A body with one return of JSX is rendered from it without asking; that too is right exactly for a foldable body. */
  lemma SingleReturnIsFaithfulIffFoldable(body: seq<Stmt>, main: nat)
    requires JsxOfAll(body) == [main]
    ensures Foldable(body) ==> forall v :: RunAll(body, v) == Returned(Some(main))
    ensures DistinctAll(body) && (forall v :: RunAll(body, v) == Returned(Some(main))) ==> Foldable(body)
  {
    if Foldable(body) {
      forall v ensures RunAll(body, v) == Returned(Some(main)) {
        FoldableIsRight(body, v);
        ChosenIsListed(body, v);
      }
    } else if DistinctAll(body) {
      var v := UnfoldableIsWrong(body);
      if RunAll(body, v) == Returned(Some(main)) { ReturnedIsChosen(body, v, main); }
      assert RunAll(body, v) != Returned(Some(main));
    }
  }

  /** An else-if loses its own condition: with neither condition met, the second JSX is rendered and not the last. */
  lemma ElseIfLosesItsCondition()
    ensures var body := [If(0, Return(Some(10)), Some(If(1, Return(Some(11)), None))), Return(Some(12))];
      && RunAll(body, {}) == Returned(Some(12))
      && IsGuardPattern(FoundInAll(body))
      && Pick([Guard(0, false, 10), Guard(0, true, 11)], 12, {}) == 11
      && forall i | 0 <= i < 2 :: ToGuard(FoundInAll(body)[i]) == [Guard(0, false, 10), Guard(0, true, 11)][i]
  {
  }

  /** A guard that returns no JSX is not seen at all. */
  lemma NullGuardIsIgnored()
    ensures var body := [If(0, Return(None), None), Return(Some(10))];
      RunAll(body, {0}) == Returned(None) && JsxOfAll(body) == [10]
  {
  }
}

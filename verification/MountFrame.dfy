/** The mount-frame pass (mount_frame_transformer.rs): a component body is wrapped in push, try and catch, and every
    return of the body becomes "keep the value, flush the frame, return the value". */
module MountFrame {
  import opened Common

  // Expressions are opaque: they may change the program state and throw. An expression that finishes leaves the frame
  // stack as it found it; one that throws may leave frames of its own on top.

  datatype Stmt =
    | ExprStmt(e: nat)
    | Throw(e: nat)
    | Return(arg: Option<nat>)
    | Block(body: seq<Stmt>)
    | If(test: nat, consequent: Stmt, alternate: Option<Stmt>)

  // ------------------------------------------------------------------------------------------
  // Running a body
  // ------------------------------------------------------------------------------------------

  type Frame = nat

  datatype Outcome = Normal | Returned(value: Option<int>) | Threw(error: int)

  /** What evaluating an expression does: its value, or the error it throws and the frames it leaves behind. */
  datatype Evaluated = Value(v: int, user: int) | Error(error: int, user: int, left: seq<Frame>)

  datatype Semantics = Semantics(eval: (nat, int) -> Evaluated, truthy: int -> bool)

  /** How a run ends: the outcome, the program state and the frames left on the stack it started from. */
  datatype Run = Run(outcome: Outcome, user: int, left: seq<Frame>)

  ghost function Exec(sem: Semantics, s: Stmt, user: int): Run
    decreases s, 0
  {
    match s
    case ExprStmt(e) => (
      match sem.eval(e, user)
      case Value(_, u) => Run(Normal, u, [])
      case Error(x, u, left) => Run(Threw(x), u, left))
    case Throw(e) => (
      match sem.eval(e, user)
      case Value(v, u) => Run(Threw(v), u, [])
      case Error(x, u, left) => Run(Threw(x), u, left))
    case Return(None) => Run(Returned(None), user, [])
    case Return(Some(e)) => (
      match sem.eval(e, user)
      case Value(v, u) => Run(Returned(Some(v)), u, [])
      case Error(x, u, left) => Run(Threw(x), u, left))
    case Block(body) => ExecAll(sem, body, user)
    case If(test, c, a) => (
      match sem.eval(test, user)
      case Value(v, u) =>
        if sem.truthy(v) then Exec(sem, c, u)
        else if a.Some? then Exec(sem, a.value, u)
        else Run(Normal, u, [])
      case Error(x, u, left) => Run(Threw(x), u, left))
  }

  ghost function ExecAll(sem: Semantics, body: seq<Stmt>, user: int): Run
    decreases body, 1
  {
    if body == [] then Run(Normal, user, [])
    else
      var first := Exec(sem, body[0], user);
      if first.outcome.Normal? then ExecAll(sem, body[1..], first.user) else first
  }

  // ------------------------------------------------------------------------------------------
  // Collecting the returns
  // ------------------------------------------------------------------------------------------

  datatype ReturnInfo = ReturnInfo(hasExpression: bool, isBraceless: bool)

  /** The returns of a statement in source order; single says that the statement itself stands where the grammar
      takes one statement: as a branch of an if. */
  function Returns(s: Stmt, single: bool): seq<ReturnInfo>
    decreases s, 0
  {
    match s
    case Return(arg) => [ReturnInfo(arg.Some?, single)]
    case Block(body) => ReturnsAll(body)
    case If(_, c, a) => Returns(c, true) + if a.Some? then Returns(a.value, true) else []
    case _ => []
  }

  function ReturnsAll(body: seq<Stmt>): seq<ReturnInfo>
    decreases body, 1
  {
    if body == [] then [] else Returns(body[0], false) + ReturnsAll(body[1..])
  }

  /** The visitor. Only an if touches the flag, so a block inherits whatever the flag was. */
  class ReturnCollector {
    var found: seq<ReturnInfo>
    var parentIsBraceless: bool

    constructor ()
      ensures found == [] && !parentIsBraceless
    {
      found, parentIsBraceless := [], false;
    }

    method VisitStatement(s: Stmt)
      requires !(s.Block? && parentIsBraceless)
      modifies this
      ensures found == old(found) + Returns(s, old(parentIsBraceless))
      ensures parentIsBraceless == old(parentIsBraceless)
      decreases s, 0
    {
      match s {
        case Return(arg) =>
          found := found + [ReturnInfo(arg.Some?, parentIsBraceless)];
        case Block(body) =>
          VisitStatements(body);
        case If(_, c, a) =>
          ghost var before := found;
          VisitBranch(c);
          if a.Some? {
            VisitBranch(a.value);
            Regroup(before, Returns(c, true), Returns(a.value, true));
          }
        case _ =>
      }
    }

    /** A branch of an if is visited with the flag set to whether it lacks braces, and the flag is put back. */
    method VisitBranch(branch: Stmt)
      modifies this
      ensures found == old(found) + Returns(branch, true)
      ensures parentIsBraceless == old(parentIsBraceless)
      decreases branch, 2
    {
      var prev := parentIsBraceless;
      parentIsBraceless := !branch.Block?;
      VisitStatement(branch);
      if branch.Block? { BlockIgnoresPosition(branch); }
      parentIsBraceless := prev;
    }

    method VisitStatements(body: seq<Stmt>)
      requires !parentIsBraceless
      modifies this
      ensures found == old(found) + ReturnsAll(body)
      ensures parentIsBraceless == old(parentIsBraceless)
      decreases body, 1
    {
      for k := 0 to |body|
        invariant found + ReturnsAll(body[k..]) == old(found) + ReturnsAll(body)
        invariant !parentIsBraceless
      {
        ghost var before := found;
        assert body[k..][0] == body[k] && body[k..][1..] == body[k+1..];
        VisitStatement(body[k]);
        Regroup(before, Returns(body[k], false), ReturnsAll(body[k+1..]));
      }
    }
  }

  lemma BlockIgnoresPosition(s: Stmt)
    requires s.Block?
    ensures Returns(s, true) == Returns(s, false)
  {
  }

  // ------------------------------------------------------------------------------------------
  // The rewritten text, as the parser reads it back
  // ------------------------------------------------------------------------------------------

  datatype Code =
    | CExpr(e: nat)
    | CThrow(e: nat)
    | CBlock(body: seq<Code>)
    | CIf(test: nat, consequent: Code, alternate: Option<Code>)
    | CConst(index: nat, e: nat)       // const __mfResult{index} = e;
    | CFlush                           // __flushMountFrame();
    | CReturnConst(index: nat)         // return __mfResult{index};
    | CReturn                          // return;

  /** The text that replaces the return with the given place in the collected list. */
  function ReplaceReturn(arg: Option<nat>, info: ReturnInfo, index: nat): seq<Code> {
    var plain := if arg.Some? then [CConst(index, arg.value), CFlush, CReturnConst(index)] else [CFlush, CReturn];
    if info.isBraceless then [CBlock(plain)] else plain
  }

  /** How the text of an if is read when its branches have become lists of statements: a branch takes one statement,
      which cannot be a const, and what is left over after the last branch follows the if. */
  function ParseIf(test: nat, c: seq<Code>, a: Option<seq<Code>>): Option<seq<Code>> {
    if c == [] || c[0].CConst? then None
    else if a.None? then Some([CIf(test, c[0], None)] + c[1..])
    else if |c| != 1 || a.value == [] || a.value[0].CConst? then None
    else Some([CIf(test, c[0], Some(a.value[0]))] + a.value[1..])
  }

  /** The statement after the edits, where the returns in it are the ones from index on in the collected list. */
  function Rewrite(s: Stmt, infos: seq<ReturnInfo>, index: nat): Option<seq<Code>>
    requires index + |Returns(s, false)| <= |infos|
    decreases s, 0
  {
    match s
    case ExprStmt(e) => Some([CExpr(e)])
    case Throw(e) => Some([CThrow(e)])
    case Return(arg) => Some(ReplaceReturn(arg, infos[index], index))
    case Block(body) =>
      var inner := RewriteAll(body, infos, index);
      if inner.None? then None else Some([CBlock(inner.value)])
    case If(test, c, a) =>
      PositionKeepsCount(c);
      if a.Some? then
        PositionKeepsCount(a.value);
        var first, second := Rewrite(c, infos, index), Rewrite(a.value, infos, index + |Returns(c, true)|);
        if first.None? || second.None? then None else ParseIf(test, first.value, Some(second.value))
      else
        var first := Rewrite(c, infos, index);
        if first.None? then None else ParseIf(test, first.value, None)
  }

  function RewriteAll(body: seq<Stmt>, infos: seq<ReturnInfo>, index: nat): Option<seq<Code>>
    requires index + |ReturnsAll(body)| <= |infos|
    decreases body, 1
  {
    if body == [] then Some([])
    else
      var first, rest := Rewrite(body[0], infos, index), RewriteAll(body[1..], infos, index + |Returns(body[0], false)|);
      if first.None? || rest.None? then None else Some(first.value + rest.value)
  }

  lemma PositionKeepsCount(s: Stmt)
    ensures |Returns(s, true)| == |Returns(s, false)|
  {
  }

  // ------------------------------------------------------------------------------------------
  // Running the rewritten body
  // ------------------------------------------------------------------------------------------

  const REFERENCE_ERROR := -1

  datatype World = World(user: int, frames: seq<Frame>, consts: map<nat, int>)

  datatype Final = Final(outcome: Outcome, world: World)

  /** Evaluating an expression with the frame stack in place. */
  ghost function After(e: Evaluated, w: World): World {
    match e
    case Value(_, u) => w.(user := u)
    case Error(_, u, left) => w.(user := u, frames := w.frames + left)
  }

  ghost function Step(sem: Semantics, c: Code, w: World): Final
    decreases c, 0
  {
    match c
    case CExpr(e) => (
      var r := sem.eval(e, w.user);
      Final(if r.Value? then Normal else Threw(r.error), After(r, w)))
    case CThrow(e) => (
      var r := sem.eval(e, w.user);
      Final(Threw(if r.Value? then r.v else r.error), After(r, w)))
    case CConst(index, e) => (
      var r := sem.eval(e, w.user);
      if r.Value? then Final(Normal, After(r, w).(consts := w.consts[index := r.v])) else Final(Threw(r.error), After(r, w)))
    case CFlush => Final(Normal, w.(frames := if w.frames == [] then [] else w.frames[..|w.frames|-1]))
    case CReturnConst(index) =>
      if index in w.consts then Final(Returned(Some(w.consts[index])), w) else Final(Threw(REFERENCE_ERROR), w)
    case CReturn => Final(Returned(None), w)
    case CBlock(body) =>
      var f := Steps(sem, body, w);
      Final(f.outcome, f.world.(consts := w.consts))
    case CIf(test, t, a) => (
      var r := sem.eval(test, w.user);
      if r.Error? then Final(Threw(r.error), After(r, w))
      else if sem.truthy(r.v) then Step(sem, t, After(r, w))
      else if a.Some? then Step(sem, a.value, After(r, w))
      else Final(Normal, After(r, w)))
  }

  ghost function Steps(sem: Semantics, body: seq<Code>, w: World): Final
    decreases body, 1
  {
    if body == [] then Final(Normal, w)
    else
      var first := Step(sem, body[0], w);
      if first.outcome.Normal? then Steps(sem, body[1..], first.world) else first
  }

  /** const __mfDepth = __pushMountFrame(); try { body } catch (err) { __discardMountFrame(__mfDepth); throw err; } */
  ghost function StepWrapped(sem: Semantics, body: seq<Code>, user: int, frames: seq<Frame>, pushed: Frame): Final {
    var depth := |frames|;
    var f := Steps(sem, body, World(user, frames + [pushed], map[]));
    if f.outcome.Threw? then
      Final(f.outcome, f.world.(frames := if depth <= |f.world.frames| then f.world.frames[..depth] else f.world.frames))
    else f
  }

  lemma {:induction false} StepsConcat(sem: Semantics, a: seq<Code>, b: seq<Code>, w: World)
    ensures Steps(sem, a + b, w) ==
      var f := Steps(sem, a, w); if f.outcome.Normal? then Steps(sem, b, f.world) else f
  {
    if a == [] {
      assert a + b == b;
    } else {
      assert (a + b)[0] == a[0] && (a + b)[1..] == a[1..] + b;
      StepsConcat(sem, a[1..], b, Step(sem, a[0], w).world);
    }
  }

  lemma StepsOne(sem: Semantics, c: Code, w: World)
    ensures Steps(sem, [c], w) == Step(sem, c, w)
  {
    assert [c][1..] == [];
  }

  // ------------------------------------------------------------------------------------------
  // The edits keep the grammar
  // ------------------------------------------------------------------------------------------

  ghost predicate Agree(infos: seq<ReturnInfo>, index: nat, part: seq<ReturnInfo>) {
    index + |part| <= |infos| && infos[index..index+|part|] == part
  }

  lemma AgreeSplits(infos: seq<ReturnInfo>, index: nat, a: seq<ReturnInfo>, b: seq<ReturnInfo>)
    requires Agree(infos, index, a + b)
    ensures Agree(infos, index, a) && Agree(infos, index + |a|, b)
  {
    assert (a + b)[..|a|] == a && (a + b)[|a|..] == b;
    assert infos[index..index+|a+b|][..|a|] == infos[index..index+|a|];
    assert infos[index..index+|a+b|][|a|..] == infos[index+|a|..index+|a|+|b|];
  }

  /** One statement that is no const. */
  ghost predicate IsOne(r: Option<seq<Code>>) { r.Some? && r.value != [] && r.value == [r.value[0]] && !r.value[0].CConst? }

  lemma ParseIfOne(test: nat, c: seq<Code>, a: Option<seq<Code>>)
    requires IsOne(Some(c)) && (a.Some? ==> IsOne(a))
    ensures ParseIf(test, c, a) == Some([CIf(test, c[0], if a.Some? then Some(a.value[0]) else None)])
  {
    var code := CIf(test, c[0], if a.Some? then Some(a.value[0]) else None);
    Solo(code);
    Solo(c[0]);
    if a.Some? { Solo(a.value[0]); }
  }

  /** With the collected flags every branch of an if is still one statement and none is a const. */
  lemma {:induction false} RewriteParses(s: Stmt, single: bool, infos: seq<ReturnInfo>, index: nat)
    requires Agree(infos, index, Returns(s, single)) && index + |Returns(s, false)| <= |infos|
    ensures Rewrite(s, infos, index).Some?
    ensures single ==> IsOne(Rewrite(s, infos, index))
    decreases s, 0
  {
    hide ParseIf;
    match s {
      case Return(arg) =>
        assert infos[index..index+1][0] == infos[index];
      case Block(body) =>
        RewriteAllParses(body, infos, index);
      case If(_, _, _) => IfParses(s, single, infos, index);
      case _ =>
    }
  }

  /** The two branches of an if, and what they become. */
  lemma {:induction false} IfParses(s: Stmt, single: bool, infos: seq<ReturnInfo>, index: nat)
    requires s.If? && Agree(infos, index, Returns(s, single)) && index + |Returns(s, false)| <= |infos|
    ensures var next := index + |Returns(s.consequent, true)|;
      && Agree(infos, index, Returns(s.consequent, true)) && next == index + |Returns(s.consequent, false)| <= |infos|
      && IsOne(Rewrite(s.consequent, infos, index))
      && (s.alternate.None? ==>
            |Returns(s, single)| == |Returns(s.consequent, true)|
            && Rewrite(s, infos, index) == Some([CIf(s.test, Rewrite(s.consequent, infos, index).value[0], None)]))
      && (s.alternate.Some? ==>
            Agree(infos, next, Returns(s.alternate.value, true)) && next + |Returns(s.alternate.value, false)| <= |infos|
            && |Returns(s, single)| == |Returns(s.consequent, true)| + |Returns(s.alternate.value, true)|
            && IsOne(Rewrite(s.alternate.value, infos, next))
            && Rewrite(s, infos, index) == Some([CIf(s.test, Rewrite(s.consequent, infos, index).value[0],
                                                     Some(Rewrite(s.alternate.value, infos, next).value[0]))]))
    decreases s, 0, 0
  {
    hide Agree, ParseIf, IsOne;
    var next := index + |Returns(s.consequent, true)|;
    PositionKeepsCount(s.consequent);
    if s.alternate.Some? {
      PositionKeepsCount(s.alternate.value);
      AgreeSplits(infos, index, Returns(s.consequent, true), Returns(s.alternate.value, true));
      RewriteParses(s.alternate.value, true, infos, next);
    } else {
      assert Returns(s, single) == Returns(s.consequent, true) + [] == Returns(s.consequent, true);
    }
    RewriteParses(s.consequent, true, infos, index);
    assert forall r :: IsOne(r) ==> r.Some? && r.value != [] by { OneIsSome(); }
    ParseIfOne(s.test, Rewrite(s.consequent, infos, index).value,
      if s.alternate.Some? then Rewrite(s.alternate.value, infos, next) else None);
  }

  lemma OneIsSome()
    ensures forall r :: IsOne(r) ==> r.Some? && r.value != []
  {
  }

  lemma {:induction false} RewriteAllParses(body: seq<Stmt>, infos: seq<ReturnInfo>, index: nat)
    requires Agree(infos, index, ReturnsAll(body))
    ensures RewriteAll(body, infos, index).Some?
    decreases body, 1
  {
    if body != [] {
      AgreeSplits(infos, index, Returns(body[0], false), ReturnsAll(body[1..]));
      RewriteParses(body[0], false, infos, index);
      RewriteAllParses(body[1..], infos, index + |Returns(body[0], false)|);
    }
  }

  // ------------------------------------------------------------------------------------------
  // The edits keep the meaning
  // ------------------------------------------------------------------------------------------

  /** The rewritten run, started on fs with one frame on top, against the original run. */
  ghost predicate Matches(r: Run, f: Final, fs: seq<Frame>, pushed: Frame) {
    && f.outcome == r.outcome && f.world.user == r.user
    && f.world.frames == (match r.outcome
                          case Normal => fs + [pushed]
                          case Returned(_) => fs
                          case Threw(_) => fs + [pushed] + r.left)
    && (r.outcome.Normal? ==> r.left == [])
  }

  lemma ReturnMatches(sem: Semantics, arg: Option<nat>, info: ReturnInfo, index: nat, w: World, fs: seq<Frame>, pushed: Frame)
    requires w.frames == fs + [pushed]
    ensures Matches(Exec(sem, Return(arg), w.user), Steps(sem, ReplaceReturn(arg, info, index), w), fs, pushed)
  {
    if arg.Some? {
      var keep, flush, ret := [CConst(index, arg.value)], [CFlush], [CReturnConst(index)];
      var plain := [CConst(index, arg.value), CFlush, CReturnConst(index)];
      assert plain == keep + (flush + ret);
      StepsConcat(sem, keep, flush + ret, w);
      StepsOne(sem, keep[0], w);
      FlushThen(sem, ret[0], Step(sem, keep[0], w).world);
      StepsOne(sem, CBlock(plain), w);
    } else {
      assert [CFlush, CReturn] == [CFlush] + [CReturn];
      FlushThen(sem, CReturn, w);
      StepsOne(sem, CBlock([CFlush, CReturn]), w);
    }
  }

  lemma FlushThen(sem: Semantics, c: Code, w: World)
    ensures Steps(sem, [CFlush] + [c], w) == Step(sem, c, Step(sem, CFlush, w).world)
  {
    StepsConcat(sem, [CFlush], [c], w);
    StepsOne(sem, CFlush, w);
    StepsOne(sem, c, Step(sem, CFlush, w).world);
  }

  lemma {:induction false} RewriteMatches(sem: Semantics, s: Stmt, single: bool, infos: seq<ReturnInfo>, index: nat,
                                          w: World, fs: seq<Frame>, pushed: Frame)
    requires Agree(infos, index, Returns(s, single)) && index + |Returns(s, false)| <= |infos|
    requires w.frames == fs + [pushed]
    ensures Rewrite(s, infos, index).Some?
    ensures Matches(Exec(sem, s, w.user), Steps(sem, Rewrite(s, infos, index).value, w), fs, pushed)
    decreases s, 0
  {
    hide ReplaceReturn, Steps, Agree;
    match s {
      case ExprStmt(e) => StepsOne(sem, CExpr(e), w);
      case Throw(e) => StepsOne(sem, CThrow(e), w);
      case Return(arg) =>
        RewriteParses(s, single, infos, index);
        ReturnMatches(sem, arg, infos[index], index, w, fs, pushed);
      case Block(body) =>
        RewriteAllMatches(sem, body, infos, index, w, fs, pushed);
        StepsOne(sem, CBlock(RewriteAll(body, infos, index).value), w);
      case If(test, yes, no) =>
        IfParses(s, single, infos, index);
        hide Rewrite;
        var next := index + |Returns(yes, true)|;
        var branch := Rewrite(yes, infos, index).value[0];
        var other := if no.Some? then Some(Rewrite(no.value, infos, next).value[0]) else None;
        StepsOne(sem, CIf(test, branch, other), w);
        var r := sem.eval(test, w.user);
        if r.Value? && sem.truthy(r.v) {
          RewriteMatches(sem, yes, true, infos, index, After(r, w), fs, pushed);
          StepsOne(sem, branch, After(r, w));
        } else if r.Value? && no.Some? {
          RewriteMatches(sem, no.value, true, infos, next, After(r, w), fs, pushed);
          StepsOne(sem, other.value, After(r, w));
        }
    }
  }

  lemma {:induction false} RewriteAllMatches(sem: Semantics, body: seq<Stmt>, infos: seq<ReturnInfo>, index: nat,
                                             w: World, fs: seq<Frame>, pushed: Frame)
    requires Agree(infos, index, ReturnsAll(body))
    requires w.frames == fs + [pushed]
    ensures RewriteAll(body, infos, index).Some?
    ensures Matches(ExecAll(sem, body, w.user), Steps(sem, RewriteAll(body, infos, index).value, w), fs, pushed)
    decreases body, 1
  {
    if body != [] {
      AgreeSplits(infos, index, Returns(body[0], false), ReturnsAll(body[1..]));
      var next := index + |Returns(body[0], false)|;
      RewriteMatches(sem, body[0], false, infos, index, w, fs, pushed);
      RewriteAllParses(body[1..], infos, next);
      var first, rest := Rewrite(body[0], infos, index).value, RewriteAll(body[1..], infos, next).value;
      StepsConcat(sem, first, rest, w);
      var f := Steps(sem, first, w);
      if f.outcome.Normal? {
        RewriteAllMatches(sem, body[1..], infos, next, f.world, fs, pushed);
      }
    }
  }

  /** The wrapped body returns or throws what the body does, and it gives the frame stack back exactly when it does
      either: a body that falls off its end leaves its own frame behind. */
  lemma WrappedBodyIsFaithful(sem: Semantics, body: seq<Stmt>, user: int, frames: seq<Frame>, pushed: Frame)
    ensures RewriteAll(body, ReturnsAll(body), 0).Some?
    ensures var r := ExecAll(sem, body, user);
            var f := StepWrapped(sem, RewriteAll(body, ReturnsAll(body), 0).value, user, frames, pushed);
            && f.outcome == r.outcome && f.world.user == r.user
            && (f.world.frames == frames <==> !r.outcome.Normal?)
            && (r.outcome.Normal? ==> f.world.frames == frames + [pushed])
  {
    assert ReturnsAll(body)[0..0+|ReturnsAll(body)|] == ReturnsAll(body);
    RewriteAllMatches(sem, body, ReturnsAll(body), 0, World(user, frames + [pushed], map[]), frames, pushed);
    assert |frames + [pushed]| == |frames| + 1;
  }

  /** The pass over a whole body: collect the returns, give up if there is none, rewrite them by their place. */
  method TransformMountFrame(body: seq<Stmt>) returns (wrapped: bool, code: seq<Code>)
    ensures wrapped <==> ReturnsAll(body) != []
    ensures wrapped ==> RewriteAll(body, ReturnsAll(body), 0) == Some(code)
  {
    var collector := new ReturnCollector();
    collector.VisitStatements(body);
    if collector.found == [] {
      return false, [];
    }
    assert collector.found[0..0+|collector.found|] == collector.found;
    RewriteAllParses(body, collector.found, 0);
    return true, RewriteAll(body, collector.found, 0).value;
  }

  /** An arrow function whose body is the expression e becomes a wrapped block that returns it. */
  lemma WrappedArrowIsFaithful(sem: Semantics, e: nat, user: int, frames: seq<Frame>, pushed: Frame)
    ensures var r := Exec(sem, Return(Some(e)), user);
            var f := StepWrapped(sem, [CConst(0, e), CFlush, CReturnConst(0)], user, frames, pushed);
            f.outcome == r.outcome && f.world.user == r.user && f.world.frames == frames
  {
    ReturnMatches(sem, Some(e), ReturnInfo(true, false), 0, World(user, frames + [pushed], map[]), frames, pushed);
  }

  /** Why the flag is collected: left unset on a return that is the branch of an if, the edits either declare a const
      where the grammar has no place for one, or move the return out of the if. */
  lemma UnsetFlagBreaks(test: nat, e: nat)
    ensures Rewrite(If(test, Return(Some(e)), None), [ReturnInfo(true, false)], 0).None?
    ensures Rewrite(If(test, Return(None), None), [ReturnInfo(false, false)], 0) == Some([CIf(test, CFlush, None), CReturn])
    ensures exists sem: Semantics :: Exec(sem, If(test, Return(None), None), 0).outcome
              != Steps(sem, [CIf(test, CFlush, None), CReturn], World(0, [0], map[])).outcome
  {
    var sem := Semantics((e, u) => Value(0, u), v => false);
    var code := [CIf(test, CFlush, None), CReturn];
    assert code == [CIf(test, CFlush, None)] + [CReturn];
    var w := World(0, [0], map[]);
    StepsConcat(sem, [CIf(test, CFlush, None)], [CReturn], w);
    StepsOne(sem, CIf(test, CFlush, None), w);
    StepsOne(sem, CReturn, Step(sem, CIf(test, CFlush, None), w).world);
    assert Exec(sem, If(test, Return(None), None), 0).outcome != Steps(sem, code, w).outcome;
  }

  // ------------------------------------------------------------------------------------------
  // No result is declared twice
  // ------------------------------------------------------------------------------------------

  /** No block below declares the same const twice. */
  ghost predicate Scoped(c: Code)
    decreases c, 0
  {
    match c
    case CBlock(body) => ScopedAll(body)
    case CIf(_, t, a) => Scoped(t) && (a.Some? ==> Scoped(a.value))
    case _ => true
  }

  ghost predicate ScopedAll(body: seq<Code>)
    decreases body, 1
  {
    && (forall i, j | 0 <= i < j < |body| && body[i].CConst? && body[j].CConst? :: body[i].index != body[j].index)
    && forall i | 0 <= i < |body| :: Scoped(body[i])
  }

  /** The consts a list declares itself are numbered lo..hi. */
  ghost predicate Numbered(body: seq<Code>, lo: nat, hi: nat) {
    forall i | 0 <= i < |body| && body[i].CConst? :: lo <= body[i].index < hi
  }

  lemma {:induction false} RewriteIsScoped(s: Stmt, single: bool, infos: seq<ReturnInfo>, index: nat)
    requires Agree(infos, index, Returns(s, single)) && index + |Returns(s, false)| <= |infos|
    ensures Rewrite(s, infos, index).Some?
    ensures ScopedAll(Rewrite(s, infos, index).value)
    ensures Numbered(Rewrite(s, infos, index).value, index, index + |Returns(s, single)|)
    decreases s, 0
  {
    hide ReplaceReturn, Agree;
    match s {
      case Return(arg) =>
        RewriteParses(s, single, infos, index);
        ReplacementIsScoped(arg, infos[index], index);
      case Block(body) =>
        RewriteAllIsScoped(body, infos, index);
      case If(_, yes, no) =>
        IfParses(s, single, infos, index);
        hide Rewrite;
        RewriteIsScoped(yes, true, infos, index);
        if no.Some? { RewriteIsScoped(no.value, true, infos, index + |Returns(yes, true)|); }
      case _ =>
    }
  }

  lemma ReplacementIsScoped(arg: Option<nat>, info: ReturnInfo, index: nat)
    ensures ScopedAll(ReplaceReturn(arg, info, index)) && Numbered(ReplaceReturn(arg, info, index), index, index + 1)
  {
    var plain := if arg.Some? then [CConst(index, arg.value), CFlush, CReturnConst(index)] else [CFlush, CReturn];
    assert ScopedAll(plain);
  }

  lemma {:induction false} RewriteAllIsScoped(body: seq<Stmt>, infos: seq<ReturnInfo>, index: nat)
    requires Agree(infos, index, ReturnsAll(body))
    ensures RewriteAll(body, infos, index).Some?
    ensures ScopedAll(RewriteAll(body, infos, index).value)
    ensures Numbered(RewriteAll(body, infos, index).value, index, index + |ReturnsAll(body)|)
    decreases body, 1
  {
    RewriteAllParses(body, infos, index);
    if body != [] {
      hide ScopedAll, Numbered;
      AgreeSplits(infos, index, Returns(body[0], false), ReturnsAll(body[1..]));
      var next := index + |Returns(body[0], false)|;
      RewriteIsScoped(body[0], false, infos, index);
      RewriteAllIsScoped(body[1..], infos, next);
      ScopedConcat(Rewrite(body[0], infos, index).value, RewriteAll(body[1..], infos, next).value,
                   index, next, next + |ReturnsAll(body[1..])|);
    }
  }

  lemma ScopedConcat(a: seq<Code>, b: seq<Code>, lo: nat, mid: nat, hi: nat)
    requires lo <= mid <= hi && ScopedAll(a) && ScopedAll(b) && Numbered(a, lo, mid) && Numbered(b, mid, hi)
    ensures ScopedAll(a + b) && Numbered(a + b, lo, hi)
  {
  }
}

/** The edit engine (magic_string.rs): a log of overwrites and insertions, rendered by a sort and a cursor sweep. */
module MagicString {
  import opened Common

  // The text is rendered whole or over a sub-range. The partner of the two renderers is a position-by-position reading
  // of the log that has no cursor, no sort and no sweep: what is printed at each source position, decided by the log
  // alone.

  datatype Edit =
    | Overwrite(start: nat, end: nat, text: string)
    | InsertBefore(pos: nat, text: string)
    | InsertAfter(pos: nat, text: string)
  {
    function At(): nat {
      match this
      case Overwrite(s, _, _) => s
      case InsertBefore(p, _) => p
      case InsertAfter(p, _) => p
    }

    function Priority(): nat {
      match this
      case InsertBefore(_, _) => 0
      case InsertAfter(_, _) => 1
      case Overwrite(_, _, _) => 2
    }
  }

  type Log = seq<Edit>

  /** The source slices its text by these offsets, so it panics on any other log. */
  ghost predicate InBounds(e: Edit, n: nat) {
    match e
    case Overwrite(s, t, _) => s <= t <= n
    case InsertBefore(p, _) => p <= n
    case InsertAfter(p, _) => p <= n
  }

  ghost predicate LogInBounds(log: Log, n: nat) {
    forall i | 0 <= i < |log| :: InBounds(log[i], n)
  }

  // ------------------------------------------------------------------------------------------
  // The position-by-position specification
  // ------------------------------------------------------------------------------------------

  /** No overwrite covers the character at p. */
  ghost predicate CharSurvives(log: Log, p: nat) {
    forall j | 0 <= j < |log| && log[j].Overwrite? :: !(log[j].start <= p < log[j].end)
  }

  /** No overwrite has p strictly inside its range. */
  ghost predicate InsertionSurvives(log: Log, p: nat) {
    forall j | 0 <= j < |log| && log[j].Overwrite? :: !(log[j].start < p < log[j].end)
  }

  /** No overwrite that is earlier, by start and then by place in the log, ends past the start of this one. */
  ghost predicate OverwriteSurvives(log: Log, i: nat)
    requires i < |log| && log[i].Overwrite?
  {
    forall j | 0 <= j < |log| && log[j].Overwrite? && Earlier(log, j, i) :: log[j].end <= log[i].start
  }

  ghost predicate Earlier(log: Log, j: nat, i: nat)
    requires j < |log| && i < |log| && log[j].Overwrite? && log[i].Overwrite?
  {
    log[j].start < log[i].start || (log[j].start == log[i].start && j < i)
  }

  ghost predicate Survives(log: Log, i: nat)
    requires i < |log|
  {
    if log[i].Overwrite? then OverwriteSurvives(log, i) else InsertionSurvives(log, log[i].pos)
  }

  /** Kind 0 are the insertions before p, kind 1 those after it, kind 2 the overwrites that start there. */
  ghost predicate IsKind(e: Edit, kind: nat, p: nat) {
    || (kind == 0 && e.InsertBefore? && e.pos == p)
    || (kind == 1 && e.InsertAfter? && e.pos == p)
    || (kind == 2 && e.Overwrite? && e.start == p)
  }

  /** The texts of the surviving edits of one kind at p among the first k of the log, in log order. */
  ghost function Texts(log: Log, sel: set<nat>, p: nat, kind: nat, k: nat): string
    requires k <= |log|
  {
    if k == 0 then ""
    else
      Texts(log, sel, p, kind, k - 1)
      + if k - 1 in sel && IsKind(log[k-1], kind, p) && Survives(log, k - 1)
        then log[k-1].text else ""
  }

  /** What the selected edits print at p: befores, then afters, then overwrites. */
  ghost function Piece(log: Log, sel: set<nat>, p: nat): string {
    Texts(log, sel, p, 0, |log|) + Texts(log, sel, p, 1, |log|) + Texts(log, sel, p, 2, |log|)
  }

  ghost function CharAt(src: string, log: Log, p: nat): string
    requires p < |src|
  {
    if CharSurvives(log, p) then [src[p]] else ""
  }

  /** Positions lo..hi (hi excluded), one after the other. */
  ghost function Range(src: string, log: Log, sel: set<nat>, lo: nat, hi: nat): string
    requires lo <= hi <= |src|
    decreases hi
  {
    if lo == hi then ""
    else Range(src, log, sel, lo, hi - 1) + Row(src, log, sel, hi - 1)
  }

  ghost function Row(src: string, log: Log, sel: set<nat>, p: nat): string
    requires p < |src|
  {
    Piece(log, sel, p) + CharAt(src, log, p)
  }

  ghost function All(log: Log): set<nat> {
    set i | 0 <= i < |log| && log[i] == log[i]
  }

  /** The edits a sub-range collects: insertions on either border, overwrites that overlap it. */
  predicate Touches(e: Edit, lo: nat, hi: nat) {
    match e
    case Overwrite(s, t, _) => s < hi && lo < t
    case InsertBefore(p, _) => lo <= p <= hi
    case InsertAfter(p, _) => lo <= p <= hi
  }

  ghost function Touching(log: Log, lo: nat, hi: nat): set<nat> {
    set i | 0 <= i < |log| && Touches(log[i], lo, hi)
  }

  /** The meaning of the whole log. */
  ghost function Rendering(src: string, log: Log): string {
    Range(src, log, All(log), 0, |src|) + Piece(log, All(log), |src|)
  }

  /** The meaning of a sub-range. */
  ghost function Slice(src: string, log: Log, lo: nat, hi: nat): string
    requires lo <= hi <= |src|
  {
    Range(src, log, Touching(log, lo, hi), lo, hi) + Piece(log, Touching(log, lo, hi), hi)
  }

  // ------------------------------------------------------------------------------------------
  // Events, their order, and the sweep
  // ------------------------------------------------------------------------------------------

  datatype Event = Event(edit: Edit, idx: nat)

  predicate Before(a: Event, b: Event) {
    || a.edit.At() < b.edit.At()
    || (a.edit.At() == b.edit.At() && a.edit.Priority() < b.edit.Priority())
    || (a.edit.At() == b.edit.At() && a.edit.Priority() == b.edit.Priority() && a.idx < b.idx)
  }

  ghost predicate Sorted(evs: seq<Event>) {
    forall a, b | 0 <= a < b < |evs| :: Before(evs[a], evs[b])
  }

  ghost predicate SameElements(a: seq<Event>, b: seq<Event>) {
    forall e :: e in a <==> e in b
  }

  lemma Inhabited(a: seq<Event>)
    requires a != []
    ensures exists e :: e in a
  {
    assert a[0] in a;
  }

  /** A log has one sorted order: the tie-break on the place in the log leaves nothing to chance. */
  lemma {:induction false} SortedIsUnique(a: seq<Event>, b: seq<Event>)
    requires Sorted(a) && Sorted(b) && SameElements(a, b)
    ensures a == b
  {
    if a == [] || b == [] {
      if a != [] { Inhabited(a); assert false; }
      if b != [] { Inhabited(b); assert false; }
    } else {
      assert a[0] in b && b[0] in a;
      assert a[0] == b[0];
      forall e ensures e in a[1..] <==> e in b[1..] {
        assert e in a[1..] ==> e in a && e != a[0];
        assert e in b[1..] ==> e in b && e != b[0];
        if e in a && e != a[0] { assert e in a[1..]; }
        if e in b && e != b[0] { assert e in b[1..]; }
      }
      SortedIsUnique(a[1..], b[1..]);
    }
  }

  /** The library sort the renderers call, as an insertion sort. */
  method SortEvents(evs: seq<Event>) returns (out: seq<Event>)
    requires forall a, b | 0 <= a < b < |evs| :: evs[a].idx != evs[b].idx
    ensures Sorted(out) && SameElements(out, evs)
  {
    out := [];
    for k := 0 to |evs|
      invariant Sorted(out)
      invariant SameElements(out, evs[..k])
    {
      var e := evs[k];
      var i := |out|;
      while i > 0 && Before(e, out[i-1])
        invariant 0 <= i <= |out|
        invariant i < |out| ==> Before(e, out[i])
      {
        i := i - 1;
      }
      forall x | x in out ensures x.idx != e.idx {
        assert x in evs[..k];
      }
      var next := out[..i] + [e] + out[i..];
      forall x ensures x in next <==> x in evs[..k+1] {
        assert x in next <==> x in out || x == e by { assert out == out[..i] + out[i..]; }
        assert evs[..k+1] == evs[..k] + [e];
      }
      assert i > 0 ==> out[i-1] in out;
      forall a, b | 0 <= a < b < |next| ensures Before(next[a], next[b]) {
        if a < i && b == i { assert a == i - 1 || Before(out[a], out[i-1]); }
      }
      out := next;
    }
    assert evs[..|evs|] == evs;
  }

  /** The state of a sweep: the text so far and the cursor. */
  datatype State = State(out: string, cursor: nat)

  /** One turn of the sweep loop. */
  ghost function Step(src: string, st: State, ev: Event): State {
    var p := ev.edit.At();
    if p < st.cursor then
      if ev.edit.Overwrite? then st.(cursor := Max(st.cursor, ev.edit.end)) else st
    else
      State(st.out + Copy(src, st.cursor, p) + ev.edit.text, if ev.edit.Overwrite? then Max(p, ev.edit.end) else p)
  }

  ghost function Copy(src: string, a: nat, b: nat): string {
    if a < b <= |src| then src[a..b] else ""
  }

  ghost function Run(src: string, st: State, evs: seq<Event>): State {
    if evs == [] then st
    else Step(src, Run(src, st, evs[..|evs|-1]), evs[|evs|-1])
  }

  lemma {:induction false} RunConcat(src: string, st: State, a: seq<Event>, b: seq<Event>)
    ensures Run(src, st, a + b) == Run(src, Run(src, st, a), b)
    decreases |b|
  {
    if b == [] {
      assert a + b == a;
    } else {
      var b' := b[..|b|-1];
      assert (a + b)[..|a+b|-1] == a + b';
      RunConcat(src, st, a, b');
    }
  }

  // ------------------------------------------------------------------------------------------
  // The sorted log, grouped by position
  // ------------------------------------------------------------------------------------------

  ghost function Pick(log: Log, sel: set<nat>, p: nat, prio: nat, k: nat): seq<Event>
    requires k <= |log|
  {
    if k == 0 then []
    else
      Pick(log, sel, p, prio, k - 1)
      + if k - 1 in sel && log[k-1].At() == p && log[k-1].Priority() == prio then [Event(log[k-1], k - 1)] else []
  }

  ghost function Bucket(log: Log, sel: set<nat>, p: nat): seq<Event> {
    Pick(log, sel, p, 0, |log|) + Pick(log, sel, p, 1, |log|) + Pick(log, sel, p, 2, |log|)
  }

  ghost function Buckets(log: Log, sel: set<nat>, q: nat): seq<Event> {
    if q == 0 then [] else Buckets(log, sel, q - 1) + Bucket(log, sel, q - 1)
  }

  ghost predicate IsEvent(log: Log, sel: set<nat>, e: Event) {
    e.idx < |log| && e.idx in sel && e.edit == log[e.idx]
  }

  lemma {:induction false} PickIsSorted(log: Log, sel: set<nat>, p: nat, prio: nat, k: nat)
    requires k <= |log|
    ensures var r := Pick(log, sel, p, prio, k);
      && Sorted(r)
      && forall e :: e in r <==> e.idx < k && IsEvent(log, sel, e) && e.edit.At() == p && e.edit.Priority() == prio
  {
    if k > 0 { PickIsSorted(log, sel, p, prio, k - 1); }
  }

  lemma BucketIsSorted(log: Log, sel: set<nat>, p: nat)
    ensures Sorted(Bucket(log, sel, p))
    ensures forall e :: e in Bucket(log, sel, p) <==> IsEvent(log, sel, e) && e.edit.At() == p
  {
    PickIsSorted(log, sel, p, 0, |log|);
    PickIsSorted(log, sel, p, 1, |log|);
    PickIsSorted(log, sel, p, 2, |log|);
    var r0, r1 := Pick(log, sel, p, 0, |log|), Pick(log, sel, p, 1, |log|);
    SortedConcat(r0, r1);
    SortedConcat(r0 + r1, Pick(log, sel, p, 2, |log|));
  }

  lemma NothingIsSorted()
    ensures Sorted([])
  {
  }

  lemma {:induction false} BucketsAreSorted(log: Log, sel: set<nat>, q: nat)
    ensures Sorted(Buckets(log, sel, q))
    ensures forall e :: e in Buckets(log, sel, q) <==> IsEvent(log, sel, e) && e.edit.At() < q
  {
    hide Sorted, Bucket;
    if q == 0 {
      NothingIsSorted();
    } else {
      BucketsAreSorted(log, sel, q - 1);
      BucketIsSorted(log, sel, q - 1);
      SortedConcat(Buckets(log, sel, q - 1), Bucket(log, sel, q - 1));
    }
  }

  lemma SortedConcat(a: seq<Event>, b: seq<Event>)
    requires Sorted(a) && Sorted(b)
    requires forall x, y | x in a && y in b :: Before(x, y)
    ensures Sorted(a + b)
  {
    forall i, j | 0 <= i < j < |a + b| ensures Before((a + b)[i], (a + b)[j]) {
      if i < |a| <= j { assert a[i] in a && b[j-|a|] in b; }
    }
  }

  // ------------------------------------------------------------------------------------------
  // The sweep prints the specification
  // ------------------------------------------------------------------------------------------

  /** The overwrites a sweep has met before it reaches edit k of kind prio at p. */
  ghost predicate Met(log: Log, sel: set<nat>, p: nat, prio: nat, k: nat, j: nat) {
    j < |log| && j in sel && log[j].Overwrite?
    && (log[j].start < p || (log[j].start == p && prio == 2 && j < k))
  }

  ghost predicate CoverMet(log: Log, sel: set<nat>, p: nat, prio: nat, k: nat, cover: nat) {
    forall j: nat | Met(log, sel, p, prio, k, j) :: log[j].end <= cover
  }

  ghost predicate SomeMet(log: Log, sel: set<nat>, p: nat, prio: nat, k: nat, cover: nat) {
    exists j: nat :: Met(log, sel, p, prio, k, j) && log[j].end == cover
  }

  /** A state as seen from position p: the text with the source copied up to p, and how far is covered. */
  ghost predicate Sees(src: string, log: Log, sel: set<nat>, lo: nat, p: nat, prio: nat, k: nat, st: State, text: string) {
    && text == Flushed(src, st, p)
    && lo <= st.cursor
    && CoverMet(log, sel, p, prio, k, Max(st.cursor, p))
    && (st.cursor <= Max(p, lo) || SomeMet(log, sel, p, prio, k, st.cursor))
  }

  ghost function Flushed(src: string, st: State, p: nat): string
  {
    st.out + Copy(src, st.cursor, p)
  }

  ghost predicate Crosses(e: Edit, p: nat) {
    e.Overwrite? && e.start < p < e.end
  }

  ghost predicate Covers(e: Edit, p: nat) {
    e.Overwrite? && e.start <= p < e.end
  }

  /** The selected edits decide survival at lo..hi as the whole log does. */
  ghost predicate Decides(log: Log, sel: set<nat>, lo: nat, hi: nat, n: nat) {
    && (forall i | i in sel :: i < |log| && log[i].At() <= hi && (log[i].Overwrite? && log[i].start == hi ==> hi == n))
    && (forall j: nat, p: nat | j < |log| && Crosses(log[j], p) && lo <= p <= hi :: j in sel)
    && (forall j: nat, p: nat | j < |log| && Covers(log[j], p) && lo <= p < hi :: j in sel)
  }

  lemma {:induction false} PickRuns(src: string, log: Log, sel: set<nat>, lo: nat, hi: nat, p: nat, prio: nat, k: nat,
                                    st: State, text: string)
    requires LogInBounds(log, |src|) && Decides(log, sel, lo, hi, |src|)
    requires p <= hi <= |src| && k <= |log|
    requires Sees(src, log, sel, lo, p, prio, 0, st, text)
    ensures Sees(src, log, sel, lo, p, prio, k, Run(src, st, Pick(log, sel, p, prio, k)),
                 if lo <= p then text + Texts(log, sel, p, prio, k) else text)
  {
    PickRunsNone(src, log, sel, p, prio, st, text);
    for i := 0 to k
      invariant Sees(src, log, sel, lo, p, prio, i, Run(src, st, Pick(log, sel, p, prio, i)),
                     if lo <= p then text + Texts(log, sel, p, prio, i) else text)
    {
      PickRunsOne(src, log, sel, lo, hi, p, prio, i, st, text);
    }
  }

  lemma PickRunsNone(src: string, log: Log, sel: set<nat>, p: nat, prio: nat, st: State, text: string)
    ensures Run(src, st, Pick(log, sel, p, prio, 0)) == st
    ensures text + Texts(log, sel, p, prio, 0) == text
  {
  }

  lemma PickRunsOne(src: string, log: Log, sel: set<nat>, lo: nat, hi: nat, p: nat, prio: nat, k: nat,
                    st: State, text: string)
    requires LogInBounds(log, |src|) && Decides(log, sel, lo, hi, |src|)
    requires p <= hi <= |src| && k < |log|
    requires Sees(src, log, sel, lo, p, prio, k, Run(src, st, Pick(log, sel, p, prio, k)),
                  if lo <= p then text + Texts(log, sel, p, prio, k) else text)
    ensures Sees(src, log, sel, lo, p, prio, k + 1, Run(src, st, Pick(log, sel, p, prio, k + 1)),
                 if lo <= p then text + Texts(log, sel, p, prio, k + 1) else text)
  {
    hide Sees, Decides, LogInBounds, Survives, Step, Pick, Texts, Run;
    var t, mid := Texts(log, sel, p, prio, k), Run(src, st, Pick(log, sel, p, prio, k));
    PickStep(src, log, sel, p, prio, k, st);
    TextsStep(log, sel, p, prio, k, text);
    if k in sel && log[k].At() == p && log[k].Priority() == prio {
      StepSees(src, log, sel, lo, hi, p, prio, k, mid, if lo <= p then text + t else text);
    } else {
      SeesSkips(src, log, sel, lo, p, prio, k, mid, if lo <= p then text + t else text);
    }
  }

  lemma PickStep(src: string, log: Log, sel: set<nat>, p: nat, prio: nat, k: nat, st: State)
    requires k < |log|
    ensures var mid := Run(src, st, Pick(log, sel, p, prio, k));
      Run(src, st, Pick(log, sel, p, prio, k + 1))
      == if k in sel && log[k].At() == p && log[k].Priority() == prio then Step(src, mid, Event(log[k], k)) else mid
  {
    hide Step;
    var r, last := Pick(log, sel, p, prio, k), Event(log[k], k);
    assert (r + [last])[..|r|] == r && r + [] == r;
  }

  lemma TextsStep(log: Log, sel: set<nat>, p: nat, prio: nat, k: nat, text: string)
    requires k < |log|
    ensures var before := text + Texts(log, sel, p, prio, k);
      text + Texts(log, sel, p, prio, k + 1)
      == if k in sel && log[k].At() == p && log[k].Priority() == prio && Survives(log, k) then before + log[k].text else before
  {
    hide Survives;
    var t := Texts(log, sel, p, prio, k);
    assert t + "" == t;
    Regroup(text, t, log[k].text);
  }

  lemma SeesSkips(src: string, log: Log, sel: set<nat>, lo: nat, p: nat, prio: nat, k: nat, st: State, text: string)
    requires k < |log| && !(k in sel && log[k].At() == p && log[k].Priority() == prio)
    requires Sees(src, log, sel, lo, p, prio, k, st, text)
    ensures Sees(src, log, sel, lo, p, prio, k + 1, st, text)
  {
    assert forall j: nat :: Met(log, sel, p, prio, k, j) <==> Met(log, sel, p, prio, k + 1, j);
  }

  lemma StepSees(src: string, log: Log, sel: set<nat>, lo: nat, hi: nat, p: nat, prio: nat, k: nat,
                 st: State, text: string)
    requires LogInBounds(log, |src|) && Decides(log, sel, lo, hi, |src|)
    requires p <= hi <= |src| && k < |log| && k in sel && log[k].At() == p && log[k].Priority() == prio
    requires Sees(src, log, sel, lo, p, prio, k, st, text)
    ensures Sees(src, log, sel, lo, p, prio, k + 1, Step(src, st, Event(log[k], k)),
                 if lo <= p && Survives(log, k) then text + log[k].text else text)
  {
    forall j: nat ensures Met(log, sel, p, prio, k + 1, j) <==> Met(log, sel, p, prio, k, j) || (j == k && log[k].Overwrite?) {}
    if p < st.cursor {
      if lo <= p {
        var j: nat :| Met(log, sel, p, prio, k, j) && log[j].end == st.cursor;
        assert !Survives(log, k);
      }
    } else {
      SurvivesUncovered(log, sel, lo, hi, |src|, p, prio, k);
    }
  }

  lemma SurvivesUncovered(log: Log, sel: set<nat>, lo: nat, hi: nat, n: nat, p: nat, prio: nat, k: nat)
    requires LogInBounds(log, n) && Decides(log, sel, lo, hi, n)
    requires lo <= p <= hi && k < |log| && k in sel && log[k].At() == p && log[k].Priority() == prio
    requires CoverMet(log, sel, p, prio, k, p)
    ensures Survives(log, k)
  {
    forall j | 0 <= j < |log| && log[j].Overwrite? ensures !(log[j].start < p < log[j].end) {
      var crossed, met := Crosses(log[j], p), Met(log, sel, p, prio, k, j);
    }
    if log[k].Overwrite? {
      forall j | 0 <= j < |log| && log[j].Overwrite? && Earlier(log, j, k) ensures log[j].end <= p {
        if log[j].start == p && p < log[j].end {
          assert Covers(log[j], p);
          assert Met(log, sel, p, prio, k, j);
        }
      }
    }
  }

  lemma BucketRuns(src: string, log: Log, sel: set<nat>, lo: nat, hi: nat, p: nat, st: State, text: string)
    requires LogInBounds(log, |src|) && Decides(log, sel, lo, hi, |src|)
    requires p <= hi <= |src|
    requires Sees(src, log, sel, lo, p, 0, 0, st, text)
    ensures Sees(src, log, sel, lo, p, 2, |log|, Run(src, st, Bucket(log, sel, p)),
                 if lo <= p then text + Piece(log, sel, p) else text)
  {
    var n := |log|;
    var st0 := Run(src, st, Pick(log, sel, p, 0, n));
    var text0 := if lo <= p then text + Texts(log, sel, p, 0, n) else text;
    PickRuns(src, log, sel, lo, hi, p, 0, n, st, text);
    var st1 := Run(src, st0, Pick(log, sel, p, 1, n));
    var text1 := if lo <= p then text0 + Texts(log, sel, p, 1, n) else text0;
    PickRuns(src, log, sel, lo, hi, p, 1, n, st0, text0);
    PickRuns(src, log, sel, lo, hi, p, 2, n, st1, text1);
    BucketIsPicks(src, log, sel, p, st);
    PieceIsTexts(log, sel, p, text);
  }

  lemma BucketIsPicks(src: string, log: Log, sel: set<nat>, p: nat, st: State)
    ensures Run(src, st, Bucket(log, sel, p))
         == Run(src, Run(src, Run(src, st, Pick(log, sel, p, 0, |log|)), Pick(log, sel, p, 1, |log|)), Pick(log, sel, p, 2, |log|))
  {
    var r0, r1, r2 := Pick(log, sel, p, 0, |log|), Pick(log, sel, p, 1, |log|), Pick(log, sel, p, 2, |log|);
    RunConcat(src, st, r0, r1);
    RunConcat(src, st, r0 + r1, r2);
  }

  lemma PieceIsTexts(log: Log, sel: set<nat>, p: nat, text: string)
    ensures text + Piece(log, sel, p)
         == text + Texts(log, sel, p, 0, |log|) + Texts(log, sel, p, 1, |log|) + Texts(log, sel, p, 2, |log|)
  {
  }

  /** Past the last edit at p, the next source character is copied exactly if nothing covers it. */
  lemma Advance(src: string, log: Log, sel: set<nat>, lo: nat, hi: nat, p: nat, st: State, text: string)
    requires LogInBounds(log, |src|) && Decides(log, sel, lo, hi, |src|)
    requires p < hi <= |src|
    requires Sees(src, log, sel, lo, p, 2, |log|, st, text)
    ensures Sees(src, log, sel, lo, p + 1, 0, 0, st, if lo <= p then text + CharAt(src, log, p) else text)
  {
    assert forall j: nat :: Met(log, sel, p, 2, |log|, j) <==> Met(log, sel, p + 1, 0, 0, j);
    if lo <= p {
      if st.cursor <= p {
        forall j | 0 <= j < |log| && log[j].Overwrite? && log[j].start <= p < log[j].end ensures false {
          assert Covers(log[j], p);
          assert Met(log, sel, p, 2, |log|, j);
        }
        assert src[st.cursor..p+1] == src[st.cursor..p] + [src[p]];
      } else {
        var j: nat :| Met(log, sel, p, 2, |log|, j) && log[j].end == st.cursor;
        assert !CharSurvives(log, p);
        assert text + "" == text;
      }
    }
  }

  ghost function UpTo(src: string, log: Log, sel: set<nat>, lo: nat, q: nat): string
    requires q <= |src|
  {
    if lo <= q then Range(src, log, sel, lo, q) else ""
  }

  ghost function RunBuckets(src: string, log: Log, sel: set<nat>, lo: nat, q: nat): State {
    if q == 0 then State("", lo) else Run(src, RunBuckets(src, log, sel, lo, q - 1), Bucket(log, sel, q - 1))
  }

  lemma {:induction false} RunBucketsIsRun(src: string, log: Log, sel: set<nat>, lo: nat, q: nat)
    ensures RunBuckets(src, log, sel, lo, q) == Run(src, State("", lo), Buckets(log, sel, q))
  {
    if q > 0 {
      RunBucketsIsRun(src, log, sel, lo, q - 1);
      RunConcat(src, State("", lo), Buckets(log, sel, q - 1), Bucket(log, sel, q - 1));
    }
  }

  lemma {:induction false} BucketsRun(src: string, log: Log, sel: set<nat>, lo: nat, hi: nat, q: nat)
    requires LogInBounds(log, |src|) && Decides(log, sel, lo, hi, |src|)
    requires q <= hi <= |src| && lo <= hi
    ensures Sees(src, log, sel, lo, q, 0, 0, RunBuckets(src, log, sel, lo, q), UpTo(src, log, sel, lo, q))
  {
    hide Sees, Decides, LogInBounds, UpTo, Bucket, Run;
    if q == 0 {
      SeesStart(src, log, sel, lo);
    } else {
      BucketsRun(src, log, sel, lo, hi, q - 1);
      BucketsRunOne(src, log, sel, lo, hi, q - 1, RunBuckets(src, log, sel, lo, q - 1));
    }
  }

  lemma SeesStart(src: string, log: Log, sel: set<nat>, lo: nat)
    requires lo <= |src|
    ensures Sees(src, log, sel, lo, 0, 0, 0, State("", lo), UpTo(src, log, sel, lo, 0))
  {
  }

  lemma BucketsRunOne(src: string, log: Log, sel: set<nat>, lo: nat, hi: nat, q: nat, st: State)
    requires LogInBounds(log, |src|) && Decides(log, sel, lo, hi, |src|)
    requires q < hi <= |src| && lo <= hi
    requires Sees(src, log, sel, lo, q, 0, 0, st, UpTo(src, log, sel, lo, q))
    ensures Sees(src, log, sel, lo, q + 1, 0, 0, Run(src, st, Bucket(log, sel, q)), UpTo(src, log, sel, lo, q + 1))
  {
    hide Sees, Decides, LogInBounds, UpTo, Piece, CharAt, Run, Bucket;
    var text := UpTo(src, log, sel, lo, q);
    BucketRuns(src, log, sel, lo, hi, q, st, text);
    var st' := Run(src, st, Bucket(log, sel, q));
    Advance(src, log, sel, lo, hi, q, st', if lo <= q then text + Piece(log, sel, q) else text);
    UpToNext(src, log, sel, lo, q);
  }

  lemma UpToNext(src: string, log: Log, sel: set<nat>, lo: nat, q: nat)
    requires q < |src|
    ensures var text := UpTo(src, log, sel, lo, q);
      UpTo(src, log, sel, lo, q + 1) == if lo <= q then text + Piece(log, sel, q) + CharAt(src, log, q) else text
  {
    hide Piece, CharAt;
    if lo <= q { Regroup(UpTo(src, log, sel, lo, q), Piece(log, sel, q), CharAt(src, log, q)); }
  }

  /** Sorting the selected edits and sweeping the cursor over them prints the specification. */
  lemma SweepPrints(src: string, log: Log, sel: set<nat>, lo: nat, hi: nat, evs: seq<Event>)
    requires LogInBounds(log, |src|) && Decides(log, sel, lo, hi, |src|) && lo <= hi <= |src|
    requires Sorted(evs)
    requires forall e :: e in evs <==> IsEvent(log, sel, e)
    ensures Flushed(src, Run(src, State("", lo), evs), hi)
         == Range(src, log, sel, lo, hi) + Piece(log, sel, hi)
  {
    assert evs == Buckets(log, sel, hi) + Bucket(log, sel, hi) by {
      BucketsAreSorted(log, sel, hi + 1);
      SortedIsUnique(evs, Buckets(log, sel, hi + 1));
    }
    var st := RunBuckets(src, log, sel, lo, hi);
    BucketsRun(src, log, sel, lo, hi, hi);
    RunBucketsIsRun(src, log, sel, lo, hi);
    BucketRuns(src, log, sel, lo, hi, hi, st, Range(src, log, sel, lo, hi));
    RunConcat(src, State("", lo), Buckets(log, sel, hi), Bucket(log, sel, hi));
  }

  // ------------------------------------------------------------------------------------------
  // The class
  // ------------------------------------------------------------------------------------------

  class MagicString {
    const original: string
    var edits: Log

    ghost predicate Valid()
      reads this
    {
      LogInBounds(edits, |original|)
    }

    constructor (source: string)
      ensures Valid() && original == source && edits == []
    {
      original := source;
      edits := [];
    }

    method Overwrite(start: nat, end: nat, text: string)
      requires Valid() && start <= end <= |original|
      modifies this
      ensures Valid() && edits == old(edits) + [Edit.Overwrite(start, end, text)]
    {
      edits := edits + [Edit.Overwrite(start, end, text)];
    }

    method PrependLeft(pos: nat, text: string)
      requires Valid() && pos <= |original|
      modifies this
      ensures Valid() && edits == old(edits) + [InsertBefore(pos, text)]
    {
      edits := edits + [InsertBefore(pos, text)];
    }

    method AppendRight(pos: nat, text: string)
      requires Valid() && pos <= |original|
      modifies this
      ensures Valid() && edits == old(edits) + [InsertAfter(pos, text)]
    {
      edits := edits + [InsertAfter(pos, text)];
    }

    method Prepend(text: string)
      requires Valid()
      modifies this
      ensures Valid() && edits == old(edits) + [InsertBefore(0, text)]
    {
      edits := edits + [InsertBefore(0, text)];
    }

    method Append(text: string)
      requires Valid()
      modifies this
      ensures Valid() && edits == old(edits) + [InsertAfter(|original|, text)]
    {
      edits := edits + [InsertAfter(|original|, text)];
    }

    /** The loop the two renderers share: the source text between the cursor and an event is copied,
        the event's text is pushed, and an overwrite moves the cursor past its range. */
    method Sweep(evs: seq<Event>, lo: nat, hi: nat) returns (result: string)
      requires lo <= hi <= |original|
      requires forall k | 0 <= k < |evs| :: InBounds(evs[k].edit, |original|)
      ensures result == Flushed(original, Run(original, State("", lo), evs), hi)
    {
      result := "";
      var cursor: nat := lo;
      for k := 0 to |evs|
        invariant 0 <= cursor <= |original|
        invariant State(result, cursor) == Run(original, State("", lo), evs[..k])
      {
        var ev := evs[k];
        assert InBounds(ev.edit, |original|);
        assert evs[..k+1][..k] == evs[..k];
        var p := ev.edit.At();
        if p < cursor {
          if ev.edit.Overwrite? {
            cursor := Max(cursor, ev.edit.end);
          }
        } else {
          if cursor < p {
            result := result + original[cursor..p];
            cursor := p;
          }
          result := result + ev.edit.text;
          if ev.edit.Overwrite? {
            cursor := Max(cursor, ev.edit.end);
          }
        }
      }
      assert evs[..|evs|] == evs;
      if cursor < hi {
        result := result + original[cursor..hi];
      }
    }

    /** The whole text with every edit applied. */
    method Render() returns (result: string)
      requires Valid()
      ensures result == Rendering(original, edits)
    {
      var evs: seq<Event> := [];
      for idx := 0 to |edits|
        invariant forall k | 0 <= k < |evs| :: evs[k].idx < idx && evs[k].edit == edits[evs[k].idx]
        invariant forall a, b | 0 <= a < b < |evs| :: evs[a].idx != evs[b].idx
        invariant forall i: nat | i < idx :: Event(edits[i], i) in evs
      {
        evs := evs + [Event(edits[idx], idx)];
      }
      var sorted := SortEvents(evs);
      forall e ensures e in sorted <==> IsEvent(edits, All(edits), e) {
        assert e in sorted <==> e in evs;
        assert IsEvent(edits, All(edits), e) ==> e == Event(edits[e.idx], e.idx);
      }
      forall k | 0 <= k < |sorted| ensures InBounds(sorted[k].edit, |original|) {
        assert sorted[k] in sorted;
      }
      SweepPrints(original, edits, All(edits), 0, |original|, sorted);
      result := Sweep(sorted, 0, |original|);
    }

    /** A sub-range of the text with the queued edits applied. */
    method GetTransformedSlice(start: nat, end: nat) returns (result: string)
      requires Valid() && start <= end <= |original|
      ensures result == Slice(original, edits, start, end)
    {
      var evs: seq<Event> := [];
      for idx := 0 to |edits|
        invariant forall k | 0 <= k < |evs| ::
          evs[k].idx < idx && evs[k].edit == edits[evs[k].idx] && Touches(evs[k].edit, start, end)
        invariant forall a, b | 0 <= a < b < |evs| :: evs[a].idx != evs[b].idx
        invariant forall i: nat | i < idx && Touches(edits[i], start, end) :: Event(edits[i], i) in evs
      {
        if Touches(edits[idx], start, end) {
          evs := evs + [Event(edits[idx], idx)];
        }
      }
      var sorted := SortEvents(evs);
      forall e ensures e in sorted <==> IsEvent(edits, Touching(edits, start, end), e) {
        assert e in sorted <==> e in evs;
        assert IsEvent(edits, Touching(edits, start, end), e) ==> e == Event(edits[e.idx], e.idx);
      }
      forall k | 0 <= k < |sorted| ensures InBounds(sorted[k].edit, |original|) {
        assert sorted[k] in sorted;
      }
      SweepPrints(original, edits, Touching(edits, start, end), start, end, sorted);
      result := Sweep(sorted, start, end);
    }

    /** slice_with_transformed_jsx: the gaps between nodes are read as slices, each node is replaced by its text. */
    method SliceWithNodes(nodes: seq<Node>, start: nat, end: nat) returns (result: string)
      requires Valid() && start <= end <= |original| && Ordered(nodes, start, end)
      ensures result == if nodes == [] then Slice(original, edits, start, end)
                        else Stitched(original, edits, nodes, start, end)
    {
      hide Slice, Stitched, Ordered, LogInBounds;
      if nodes == [] {
        result := GetTransformedSlice(start, end);
        return;
      }
      result := "";
      var cursor: nat := start;
      ghost var total := Stitched(original, edits, nodes, start, end);
      ghost var left := total;
      assert nodes[0..] == nodes;
      for k := 0 to |nodes|
        invariant start <= cursor <= end && Ordered(nodes[k..], cursor, end)
        invariant left == Stitched(original, edits, nodes[k..], cursor, end)
        invariant result + left == total
      {
        var node := nodes[k];
        StitchedNext(original, edits, nodes, k, cursor, end);
        ghost var before := result;
        left := Stitched(original, edits, nodes[k+1..], node.end, end);
        var gap := "";
        if cursor < node.start {
          gap := GetTransformedSlice(cursor, node.start);
        }
        result := result + gap + node.text;
        cursor := node.end;
        Regroup4(before, gap, node.text, left);
      }
      assert nodes[|nodes|..] == [];
      StitchedEnd(original, edits, cursor, end);
      if cursor < end {
        var rest := GetTransformedSlice(cursor, end);
        result := result + rest;
      }
    }
  }

  // ------------------------------------------------------------------------------------------
  // How sub-ranges compose
  // ------------------------------------------------------------------------------------------

  ghost function InsertionsAt(log: Log, p: nat): string {
    Texts(log, All(log), p, 0, |log|) + Texts(log, All(log), p, 1, |log|)
  }

  /** An empty overwrite at p: the one edit that a sub-range bordering on p can miss. */
  predicate IsEmptyAt(e: Edit, p: nat) { e.Overwrite? && e.start == e.end == p }

  ghost function EmptiesAt(log: Log, p: nat): set<nat> { set i | 0 <= i < |log| && IsEmptyAt(log[i], p) }

  ghost function OthersAt(log: Log, p: nat): set<nat> { set i | 0 <= i < |log| && !IsEmptyAt(log[i], p) }

  /** What the empty overwrites at p print in the whole text. */
  ghost function EmptyTexts(log: Log, p: nat): string { Texts(log, EmptiesAt(log, p), p, 2, |log|) }

  ghost predicate SameAt(log: Log, s: set<nat>, t: set<nat>, p: nat, prio: nat) {
    forall i: nat | i < |log| && log[i].At() == p && log[i].Priority() == prio :: i in s <==> i in t
  }

  lemma {:induction false} TextsSame(log: Log, s: set<nat>, t: set<nat>, p: nat, prio: nat, k: nat)
    requires k <= |log| && SameAt(log, s, t, p, prio)
    ensures Texts(log, s, p, prio, k) == Texts(log, t, p, prio, k)
  {
    if k > 0 { TextsSame(log, s, t, p, prio, k - 1); }
  }

  ghost predicate NoneAt(log: Log, s: set<nat>, p: nat, prio: nat, k: nat)
    requires k <= |log|
  {
    forall i: nat | i < k && log[i].At() == p && log[i].Priority() == prio :: i !in s
  }

  lemma {:induction false} TextsNone(log: Log, s: set<nat>, p: nat, prio: nat, k: nat)
    requires k <= |log| && NoneAt(log, s, p, prio, k)
    ensures Texts(log, s, p, prio, k) == ""
  {
    if k > 0 { TextsNone(log, s, p, prio, k - 1); }
  }

  ghost predicate SamePiece(log: Log, s: set<nat>, t: set<nat>, p: nat) {
    SameAt(log, s, t, p, 0) && SameAt(log, s, t, p, 1) && SameAt(log, s, t, p, 2)
  }

  lemma PieceSame(log: Log, s: set<nat>, t: set<nat>, p: nat)
    requires SamePiece(log, s, t, p)
    ensures Piece(log, s, p) == Piece(log, t, p)
  {
    TextsSame(log, s, t, p, 0, |log|);
    TextsSame(log, s, t, p, 1, |log|);
    TextsSame(log, s, t, p, 2, |log|);
  }

  lemma RangeSame(src: string, log: Log, s: set<nat>, t: set<nat>, lo: nat, hi: nat)
    requires lo <= hi <= |src|
    requires forall p | lo <= p < hi :: SamePiece(log, s, t, p)
    ensures Range(src, log, s, lo, hi) == Range(src, log, t, lo, hi)
  {
    hide Piece, SamePiece;
    for q := lo to hi
      invariant Range(src, log, s, lo, q) == Range(src, log, t, lo, q)
    {
      PieceSame(log, s, t, q);
    }
  }

  lemma {:induction false} RangeSplit(src: string, log: Log, s: set<nat>, lo: nat, mid: nat, hi: nat)
    requires lo <= mid <= hi <= |src|
    ensures Range(src, log, s, lo, hi) == Range(src, log, s, lo, mid) + Range(src, log, s, mid, hi)
    decreases hi
  {
    if mid == hi {
    } else {
      RangeSplit(src, log, s, lo, mid, hi - 1);
      Regroup(Range(src, log, s, lo, mid), Range(src, log, s, mid, hi - 1), Row(src, log, s, hi - 1));
    }
  }

  lemma RangeFirst(src: string, log: Log, s: set<nat>, lo: nat, hi: nat)
    requires lo < hi <= |src|
    ensures Range(src, log, s, lo, hi) == Row(src, log, s, lo) + Range(src, log, s, lo + 1, hi)
  {
    hide Row;
    RangeSplit(src, log, s, lo, lo + 1, hi);
    NoPrefix(Row(src, log, s, lo));
    assert Range(src, log, s, lo, lo) == "";
  }

  /** At one position the empty overwrites that survive come before the others: after a longer one, nothing survives. */
  lemma {:induction false} EmptiesFirst(log: Log, n: nat, p: nat, k: nat)
    requires LogInBounds(log, n) && k <= |log|
    ensures Texts(log, All(log), p, 2, k) == Texts(log, EmptiesAt(log, p), p, 2, k) + Texts(log, OthersAt(log, p), p, 2, k)
  {
    hide Survives;
    if k > 0 {
      EmptiesFirst(log, n, p, k - 1);
      var empties, others := Texts(log, EmptiesAt(log, p), p, 2, k - 1), Texts(log, OthersAt(log, p), p, 2, k - 1);
      if IsEmptyAt(log[k-1], p) && Survives(log, k - 1) {
        NothingBeforeAnEmpty(log, n, p, k - 1);
        assert Texts(log, OthersAt(log, p), p, 2, k) == "" + "";
      } else {
        assert Texts(log, EmptiesAt(log, p), p, 2, k) == empties + "" == empties;
        if log[k-1].At() == p && log[k-1].Priority() == 2 && Survives(log, k - 1) { Regroup(empties, others, log[k-1].text); }
      }
    }
  }

  lemma NothingBeforeAnEmpty(log: Log, n: nat, p: nat, k: nat)
    requires LogInBounds(log, n) && k < |log| && IsEmptyAt(log[k], p) && Survives(log, k)
    ensures Texts(log, OthersAt(log, p), p, 2, k) == ""
  {
    forall i: nat | i < k && log[i].At() == p && log[i].Priority() == 2 ensures i !in OthersAt(log, p) {
      assert InBounds(log[i], n) && Earlier(log, i, k);
    }
    TextsNone(log, OthersAt(log, p), p, 2, k);
  }

  /** What the edits at p print behind its insertions and empty overwrites, the character at p among it. */
  ghost function Tail(src: string, log: Log, lo: nat, hi: nat): string
    requires lo < hi <= |src|
  {
    Texts(log, OthersAt(log, lo), lo, 2, |log|) + CharAt(src, log, lo) + Range(src, log, All(log), lo + 1, hi)
  }

  lemma RangeOfAll(src: string, log: Log, lo: nat, hi: nat)
    requires LogInBounds(log, |src|) && lo < hi <= |src|
    ensures Range(src, log, All(log), lo, hi) == InsertionsAt(log, lo) + (EmptyTexts(log, lo) + Tail(src, log, lo, hi))
  {
    hide Range, Texts, CharAt, EmptiesAt, OthersAt, All;
    EmptiesFirst(log, |src|, lo, |log|);
    RangeFirst(src, log, All(log), lo, hi);
  }

  lemma RangeOfOthers(src: string, log: Log, lo: nat, hi: nat)
    requires lo < hi <= |src|
    ensures Range(src, log, OthersAt(log, lo), lo, hi) == InsertionsAt(log, lo) + Tail(src, log, lo, hi)
  {
    hide Range, Texts, CharAt;
    var s := OthersAt(log, lo);
    RangeFirst(src, log, s, lo, hi);
    TextsSame(log, s, All(log), lo, 0, |log|);
    TextsSame(log, s, All(log), lo, 1, |log|);
    RangeSame(src, log, s, All(log), lo + 1, hi);
  }

  /** A sub-range prints its positions as the whole log does, but for empty overwrites at its start, and at its end only
      the insertions. */
  lemma SliceIs(src: string, log: Log, lo: nat, hi: nat)
    requires LogInBounds(log, |src|) && lo <= hi <= |src|
    ensures Slice(src, log, lo, hi) == Range(src, log, OthersAt(log, lo), lo, hi) + InsertionsAt(log, hi)
  {
    hide Range, Texts;
    var s, t := Touching(log, lo, hi), OthersAt(log, lo);
    forall p | lo <= p < hi ensures SamePiece(log, s, t, p) {
      forall i | 0 <= i < |log| && log[i].At() == p ensures i in s <==> i in t { assert InBounds(log[i], |src|); }
    }
    RangeSame(src, log, s, t, lo, hi);
    TextsSame(log, s, All(log), hi, 0, |log|);
    TextsSame(log, s, All(log), hi, 1, |log|);
    TextsNone(log, s, hi, 2, |log|);
  }

  lemma SameBetween<T>(x: seq<T>, y: seq<T>, z: seq<T>, t: seq<T>)
    ensures x + (y + t) == x + (z + t) <==> y == z
  {
    if x + (y + t) == x + (z + t) {
      assert y + t == (x + (y + t))[|x|..] == (x + (z + t))[|x|..] == z + t;
      assert y == (y + t)[..|y|] == (z + t)[..|z|] == z;
    }
  }

  /** A sub-range is the same positions of the whole text exactly if no empty overwrite prints at its start. */
  lemma SliceIsRange(src: string, log: Log, lo: nat, hi: nat)
    requires LogInBounds(log, |src|) && lo <= hi <= |src|
    ensures Slice(src, log, lo, hi) == Range(src, log, All(log), lo, hi) + InsertionsAt(log, hi)
       <==> lo == hi || EmptyTexts(log, lo) == ""
  {
    hide Slice, InsertionsAt, EmptyTexts, Tail, LogInBounds, OthersAt, All, Range;
    SliceIs(src, log, lo, hi);
    if lo == hi {
      EmptyRange(src, log, lo);
    } else {
      RangeOfAll(src, log, lo, hi);
      RangeOfOthers(src, log, lo, hi);
      var ins, end, empty, tail := InsertionsAt(log, lo), InsertionsAt(log, hi), EmptyTexts(log, lo), Tail(src, log, lo, hi);
      Regroup(ins, tail, end);
      Regroup(ins, empty + tail, end);
      Regroup(empty, tail, end);
      NoPrefix(tail + end);
      SameBetween(ins, empty, "", tail + end);
    }
  }

  lemma EmptyRange(src: string, log: Log, p: nat)
    requires p <= |src|
    ensures forall s :: Range(src, log, s, p, p) == ""
  {
  }

  /** Two neighbouring sub-ranges make the sub-range over both exactly when what is inserted at the seam, which both
      print, is what the empty overwrites at the seam print, which neither does. With none there, that is: when nothing
      is inserted at the seam. A longer overwrite may straddle it. */
  lemma SlicesCompose(src: string, log: Log, a: nat, b: nat, c: nat)
    requires LogInBounds(log, |src|) && a <= b <= c <= |src|
    ensures Slice(src, log, a, b) + Slice(src, log, b, c) == Slice(src, log, a, c)
       <==> InsertionsAt(log, b) == if a < b < c then EmptyTexts(log, b) else ""
  {
    hide Slice, InsertionsAt, EmptyTexts, LogInBounds, OthersAt, Range;
    SliceIs(src, log, a, b);
    SliceIs(src, log, b, c);
    SliceIs(src, log, a, c);
    RangeSplit(src, log, OthersAt(log, a), a, b, c);
    var head, seam, end := Range(src, log, OthersAt(log, a), a, b), InsertionsAt(log, b), InsertionsAt(log, c);
    var right, both := Range(src, log, OthersAt(log, b), b, c), Range(src, log, OthersAt(log, a), b, c);
    Regroup(head, seam, right + end);
    Regroup(head, both, end);
    Regroup("", both, end);
    if a < b < c {
      AcrossTheSeam(src, log, a, b, c);
      Regroup(seam, seam, Tail(src, log, b, c));
      SeamTexts(head, seam, EmptyTexts(log, b), Tail(src, log, b, c), end);
    } else {
      EmptyRange(src, log, b);
      NoPrefix(right + end);
      SameBetween(head, seam, "", right + end);
    }
  }

  lemma AcrossTheSeam(src: string, log: Log, a: nat, b: nat, c: nat)
    requires LogInBounds(log, |src|) && a < b < c <= |src|
    ensures Range(src, log, OthersAt(log, b), b, c) == InsertionsAt(log, b) + Tail(src, log, b, c)
    ensures Range(src, log, OthersAt(log, a), b, c) == InsertionsAt(log, b) + (EmptyTexts(log, b) + Tail(src, log, b, c))
  {
    hide InsertionsAt, EmptyTexts, Tail, Range;
    RangeOfOthers(src, log, b, c);
    RangeOfAll(src, log, b, c);
    RangeSame(src, log, OthersAt(log, a), All(log), b, c);
  }

  lemma SeamTexts(head: string, seam: string, empty: string, tail: string, end: string)
    ensures head + seam + (seam + tail + end) == head + (seam + (empty + tail)) + end <==> seam == empty
  {
    var left, right := head + seam + (seam + tail + end), head + (seam + (empty + tail)) + end;
    assert left == (head + seam) + (seam + (tail + end));
    assert right == (head + seam) + (empty + (tail + end));
    SameBetween(head + seam, seam, empty, tail + end);
  }

  /** The sub-range over the whole file is the full rendering exactly if no empty overwrite prints at either end. */
  lemma WholeSliceIsRendering(src: string, log: Log)
    requires LogInBounds(log, |src|)
    ensures Slice(src, log, 0, |src|) == Rendering(src, log) <==> EmptyTexts(log, 0) == "" && EmptyTexts(log, |src|) == ""
  {
    hide Slice, InsertionsAt, Tail, OthersAt, Range;
    var n := |src|;
    SliceIs(src, log, 0, n);
    EmptyAtTheEnd(log, n);
    if n == 0 {
      EmptyRange(src, log, 0);
    } else {
      RangeOfAll(src, log, 0, n);
      RangeOfOthers(src, log, 0, n);
    }
  }

  lemma EmptyAtTheEnd(log: Log, n: nat)
    requires LogInBounds(log, n)
    ensures Piece(log, All(log), n) == InsertionsAt(log, n) + EmptyTexts(log, n)
  {
    forall i: nat | i < |log| && log[i].At() == n && log[i].Priority() == 2 ensures IsEmptyAt(log[i], n) {
      assert InBounds(log[i], n);
    }
    TextsSame(log, All(log), EmptiesAt(log, n), n, 2, |log|);
  }

  /** Inside a range that has been overwritten, nothing is read: whatever else is edited there. */
  lemma OverwrittenSliceIsEmpty(src: string, log: Log, j: nat, lo: nat, hi: nat)
    requires lo <= hi <= |src| && j < |log| && log[j].Overwrite? && log[j].start < lo && hi < log[j].end
    ensures Slice(src, log, lo, hi) == ""
  {
    var sel := Touching(log, lo, hi);
    for q := lo to hi
      invariant Range(src, log, sel, lo, q) == ""
    {
      NothingSurvives(log, sel, j, q);
      assert !CharSurvives(log, q);
    }
    NothingSurvives(log, sel, j, hi);
  }

  lemma NothingSurvives(log: Log, sel: set<nat>, j: nat, p: nat)
    requires j < |log| && Crosses(log[j], p)
    ensures Piece(log, sel, p) == ""
  {
    NoTextSurvives(log, sel, j, p, 0, |log|);
    NoTextSurvives(log, sel, j, p, 1, |log|);
    NoTextSurvives(log, sel, j, p, 2, |log|);
  }

  lemma {:induction false} NoTextSurvives(log: Log, sel: set<nat>, j: nat, p: nat, prio: nat, k: nat)
    requires j < |log| && Crosses(log[j], p) && k <= |log|
    ensures Texts(log, sel, p, prio, k) == ""
  {
    if k > 0 {
      NoTextSurvives(log, sel, j, p, prio, k - 1);
      if log[k-1].At() == p {
        assert !Survives(log, k - 1) by { if log[k-1].Overwrite? { assert Earlier(log, j, k - 1); } }
      }
    }
  }

  /** An insertion before p is printed behind those before it and in front of what was inserted after p and of the text of
      overwrites, and one after p in front of the latter only: wherever in the log they stand. Where an overwrite
      covers p from both sides neither is printed. No other position changes. */
  lemma InsertionsArePlaced(log: Log, p: nat, q: nat, text: string)
    ensures var before, after := log + [InsertBefore(p, text)], log + [InsertAfter(p, text)];
      var shown := if q == p && InsertionSurvives(log, p) then text else "";
      Piece(before, All(before), q)
        == Texts(log, All(log), q, 0, |log|) + shown + Texts(log, All(log), q, 1, |log|) + Texts(log, All(log), q, 2, |log|)
      && Piece(after, All(after), q)
        == Texts(log, All(log), q, 0, |log|) + Texts(log, All(log), q, 1, |log|) + shown + Texts(log, All(log), q, 2, |log|)
  {
    hide Texts, InsertionSurvives;
    InsertionIsLast(log, p, text, InsertBefore(p, text), q, 0);
    InsertionIsLast(log, p, text, InsertBefore(p, text), q, 1);
    InsertionIsLast(log, p, text, InsertBefore(p, text), q, 2);
    InsertionIsLast(log, p, text, InsertAfter(p, text), q, 0);
    InsertionIsLast(log, p, text, InsertAfter(p, text), q, 1);
    InsertionIsLast(log, p, text, InsertAfter(p, text), q, 2);
    assert forall s: string :: s + "" == s;
  }

  lemma InsertionIsLast(log: Log, p: nat, text: string, e: Edit, q: nat, kind: nat)
    requires e == InsertBefore(p, text) || e == InsertAfter(p, text)
    ensures var more := log + [e];
      Texts(more, All(more), q, kind, |more|)
      == Texts(log, All(log), q, kind, |log|)
         + if q == p && kind == (if e.InsertBefore? then 0 else 1) && InsertionSurvives(log, p) then text else ""
  {
    hide Survives;
    var more := log + [e];
    forall i: nat | i < |log| ensures Survives(more, i) <==> Survives(log, i) { SurvivesBeside(log, e, i); }
    SurvivesNew(log, e);
    TextsBeside(log, e, q, kind, |log|);
  }

  lemma SurvivesBeside(log: Log, e: Edit, i: nat)
    requires !e.Overwrite? && i < |log|
    ensures Survives(log + [e], i) <==> Survives(log, i)
  {
    var more := log + [e];
    assert forall j | 0 <= j < |log| :: more[j] == log[j];
    assert !more[|log|].Overwrite?;
    if log[i].Overwrite? { assert forall j: nat | j < |log| && log[j].Overwrite? :: Earlier(more, j, i) <==> Earlier(log, j, i); }
  }

  lemma SurvivesNew(log: Log, e: Edit)
    requires !e.Overwrite?
    ensures Survives(log + [e], |log|) <==> InsertionSurvives(log, e.pos)
  {
    var more := log + [e];
    assert forall j | 0 <= j < |log| :: more[j] == log[j];
  }

  lemma {:induction false} TextsBeside(log: Log, e: Edit, q: nat, kind: nat, k: nat)
    requires k <= |log| && forall i: nat | i < |log| :: Survives(log + [e], i) <==> Survives(log, i)
    ensures Texts(log + [e], All(log + [e]), q, kind, k) == Texts(log, All(log), q, kind, k)
  {
    hide Survives;
    if k > 0 { TextsBeside(log, e, q, kind, k - 1); }
  }

  /** append_right(0, a) and prepend_left(0, b) print ba. */
  lemma BeforesGoFirst(a: string, b: string)
    ensures Rendering("", [InsertAfter(0, a), InsertBefore(0, b)]) == b + a
  {
    hide Piece, Texts;
    var one := [InsertAfter(0, a)];
    InsertionsArePlaced(one, 0, 0, b);
    assert one + [InsertBefore(0, b)] == [InsertAfter(0, a), InsertBefore(0, b)];
    OneAfter(a);
    assert InsertionSurvives(one, 0);
    assert "" + b == b && b + a + "" == b + a;
  }

  lemma OneAfter(a: string)
    ensures var one := [InsertAfter(0, a)];
      Texts(one, All(one), 0, 0, 1) == "" && Texts(one, All(one), 0, 1, 1) == a && Texts(one, All(one), 0, 2, 1) == ""
  {
    var one := [InsertAfter(0, a)];
    assert Survives(one, 0);
    assert Texts(one, All(one), 0, 0, 0) == "" && Texts(one, All(one), 0, 1, 0) == "" && Texts(one, All(one), 0, 2, 0) == "";
  }

  /** An empty overwrite at the end of the file is printed by the full rendering only. */
  lemma EmptyOverwriteIsLost()
    ensures Rendering("", [Overwrite(0, 0, "x")]) == "x"
    ensures Slice("", [Overwrite(0, 0, "x")], 0, 0) == ""
  {
    var log := [Overwrite(0, 0, "x")];
    TextsNone(log, All(log), 0, 0, 1);
    TextsNone(log, All(log), 0, 1, 1);
    assert Survives(log, 0);
    assert Texts(log, All(log), 0, 2, 0) == "";
    assert Texts(log, All(log), 0, 2, 1) == "x";
    var none := Touching(log, 0, 0);
    TextsNone(log, none, 0, 0, 1);
    TextsNone(log, none, 0, 1, 1);
    TextsNone(log, none, 0, 2, 1);
  }

  // ------------------------------------------------------------------------------------------
  // Stitching
  // ------------------------------------------------------------------------------------------

  /** A JSX node inside a sub-range, with its generated code. */
  datatype Node = Node(start: nat, end: nat, text: string)

  ghost predicate Ordered(nodes: seq<Node>, lo: nat, hi: nat) {
    if nodes == [] then lo <= hi
    else lo <= nodes[0].start < nodes[0].end && Ordered(nodes[1..], nodes[0].end, hi)
  }

  lemma {:induction false} OrderedEnds(nodes: seq<Node>, lo: nat, hi: nat)
    requires Ordered(nodes, lo, hi)
    ensures lo <= hi && (nodes != [] ==> nodes[0].start < nodes[0].end <= hi)
  {
    if nodes != [] { OrderedEnds(nodes[1..], nodes[0].end, hi); }
  }

  ghost function Stitched(src: string, log: Log, nodes: seq<Node>, lo: nat, hi: nat): string
    requires hi <= |src| && Ordered(nodes, lo, hi)
  {
    OrderedEnds(nodes, lo, hi);
    if nodes == [] then if lo < hi then Slice(src, log, lo, hi) else ""
    else
      (if lo < nodes[0].start then Slice(src, log, lo, nodes[0].start) else "")
      + nodes[0].text
      + Stitched(src, log, nodes[1..], nodes[0].end, hi)
  }

  lemma StitchedEnd(src: string, log: Log, lo: nat, hi: nat)
    requires lo <= hi <= |src| && Ordered([], lo, hi)
    ensures Stitched(src, log, [], lo, hi) == if lo < hi then Slice(src, log, lo, hi) else ""
  {
  }

  lemma StitchedNext(src: string, log: Log, nodes: seq<Node>, k: nat, lo: nat, hi: nat)
    requires k < |nodes| && hi <= |src| && Ordered(nodes[k..], lo, hi)
    ensures lo <= nodes[k].start < nodes[k].end <= hi && Ordered(nodes[k+1..], nodes[k].end, hi)
    ensures Stitched(src, log, nodes[k..], lo, hi)
      == (if lo < nodes[k].start then Slice(src, log, lo, nodes[k].start) else "")
         + nodes[k].text + Stitched(src, log, nodes[k+1..], nodes[k].end, hi)
  {
    assert nodes[k..][1..] == nodes[k+1..];
    OrderedEnds(nodes[k..], lo, hi);
  }

  /** At every node border strictly inside lo..hi nothing is inserted but what empty overwrites print there. */
  ghost predicate CleanSeams(log: Log, nodes: seq<Node>, lo: nat, hi: nat) {
    forall k | 0 <= k < |nodes| :: CleanSeam(log, nodes[k].start, lo, hi) && CleanSeam(log, nodes[k].end, lo, hi)
  }

  ghost predicate CleanSeam(log: Log, p: nat, lo: nat, hi: nat) {
    lo < p < hi ==> InsertionsAt(log, p) == EmptyTexts(log, p)
  }

  /** Where every node's code is what its own sub-range would print, stitching rebuilds the sub-range. */
  lemma {:induction false} StitchingRebuilds(src: string, log: Log, nodes: seq<Node>, lo: nat, hi: nat)
    requires LogInBounds(log, |src|) && hi <= |src| && Ordered(nodes, lo, hi) && lo < hi
    requires CleanSeams(log, nodes, lo, hi)
    requires forall k | 0 <= k < |nodes| :: PrintsItself(src, log, nodes[k])
    ensures Stitched(src, log, nodes, lo, hi) == Slice(src, log, lo, hi)
    decreases |nodes|
  {
    if nodes != [] {
      OrderedEnds(nodes, lo, hi);
      var n := nodes[0];
      assert CleanSeam(log, n.start, lo, hi) && CleanSeam(log, n.end, lo, hi) && PrintsItself(src, log, n);
      var rest := Stitched(src, log, nodes[1..], n.end, hi);
      if n.end < hi {
        forall k | 0 <= k < |nodes[1..]|
          ensures CleanSeam(log, nodes[1..][k].start, n.end, hi) && CleanSeam(log, nodes[1..][k].end, n.end, hi)
        {
          assert CleanSeam(log, nodes[k+1].start, lo, hi) && CleanSeam(log, nodes[k+1].end, lo, hi);
        }
        StitchingRebuilds(src, log, nodes[1..], n.end, hi);
      } else if |nodes| > 1 {
        OrderedEnds(nodes[1..], n.end, hi);
        assert false;
      }
      SeamsJoin(src, log, lo, n, hi, rest);
    }
  }

  ghost predicate PrintsItself(src: string, log: Log, n: Node) {
    n.start <= n.end <= |src| && n.text == Slice(src, log, n.start, n.end)
  }

  lemma SeamsJoin(src: string, log: Log, lo: nat, n: Node, hi: nat, rest: string)
    requires LogInBounds(log, |src|) && lo <= n.start < n.end <= hi <= |src| && PrintsItself(src, log, n)
    requires CleanSeam(log, n.start, lo, hi) && CleanSeam(log, n.end, lo, hi)
    requires rest == if n.end < hi then Slice(src, log, n.end, hi) else ""
    ensures (if lo < n.start then Slice(src, log, lo, n.start) else "") + n.text + rest == Slice(src, log, lo, hi)
  {
    hide Slice, LogInBounds, EmptyTexts, InsertionsAt;
    var gap := if lo < n.start then Slice(src, log, lo, n.start) else "";
    if n.end < hi { SlicesCompose(src, log, n.start, n.end, hi); }
    if lo < n.start { SlicesCompose(src, log, lo, n.start, hi); }
    Regroup(gap, n.text, rest);
  }
}

/**
 In which order the rows of a list stand, over every run of the span recorder: in nested runs, where a
 span outlives all that is opened inside it, and in runs where contexts may outlive spans.
 */
module SpanOrder {
  import opened Text
  import opened Spans

  // ----- nested runs

  /** A span is opened under an open one, and ends when all that was opened inside it has ended. */
  ghost predicate Nested(s: State, e: Event) {
    match e
    case Enter(task, _, _, _, _, _) =>
      Current(s, task).Some? ==> s.current[task] < |s.spans| && s.spans[s.current[task]].open
    case Exit(task, _) =>
      task in s.current
      && forall g :: 0 <= g < |s.spans| && s.spans[g].open ==> s.spans[g].under != Some(s.current[task])
    case _ => true
  }

  ghost predicate Nests(s: State, run: seq<Event>)
    requires Feasible(s, run)
    decreases |run|
  {
    run == [] || (Nested(s, run[0]) && Nests(Step(s, run[0]), run[1..]))
  }

  /** What an open span is nested in is open, and a span ends after those nested in it. */
  ghost predicate WellNested(s: State) {
    && (forall h :: 0 <= h < |s.spans| && s.spans[h].open && s.spans[h].under.Some? ==>
          s.spans[h].under.value < |s.spans| && s.spans[s.spans[h].under.value].open)
    && (forall b, k, g ::
          0 <= b < |s.ended| && 0 <= k < |s.ended[b]| && 0 <= g < |s.spans|
          && s.spans[g].under == Some(s.ended[b][k]) ==>
            g in s.ended[b][..k])
  }

  lemma {:induction false} EnterKeepsNesting(s: State, e: Event)
    requires Inv(s) && WellNested(s) && e.Enter? && Enabled(s, e) && Nested(s, e)
    ensures WellNested(Step(s, e))
  {
    hide RowOf, WritesOk, SpanOk;
    var t := Step(s, e);
    forall b, k, g | 0 <= b < |t.ended| && 0 <= k < |t.ended[b]| && 0 <= g < |t.spans|
                     && t.spans[g].under == Some(t.ended[b][k])
      ensures g in t.ended[b][..k]
    {
      assert b < |s.ended| && BufferOk(s, b);
    }
  }

  lemma {:induction false} ExitKeepsNesting(s: State, e: Event)
    requires Inv(s) && WellNested(s) && e.Exit? && Enabled(s, e) && Nested(s, e)
    ensures WellNested(Step(s, e))
  {
    hide RowOf, WritesOk, Truncated;
    var t := Step(s, e);
    var h := s.current[e.task];
    var own := s.spans[h].buffer;
    forall b, k, g | 0 <= b < |t.ended| && 0 <= k < |t.ended[b]| && 0 <= g < |t.spans|
                     && t.spans[g].under == Some(t.ended[b][k])
      ensures g in t.ended[b][..k]
    {
      if b == own && k == |s.ended[b]| {
        assert SpanOk(s, g) && t.ended[b][..k] == s.ended[b];
      } else {
        assert t.ended[b][..k] == s.ended[b][..k];
      }
    }
  }

  lemma {:induction false} StepKeepsNesting(s: State, e: Event)
    requires Inv(s) && WellNested(s) && Enabled(s, e) && Nested(s, e)
    ensures WellNested(Step(s, e))
  {
    match e {
      case Enter(_, _, _, _, _, _) => EnterKeepsNesting(s, e);
      case Exit(_, _) => ExitKeepsNesting(s, e);
      case Fork(_, _) =>
      case _ => EditKeepsShape(s, e);
    }
  }

  lemma {:induction false} RunKeepsNesting(s: State, run: seq<Event>)
    requires Inv(s) && WellNested(s) && Feasible(s, run) && Nests(s, run)
    ensures Inv(After(s, run)) && WellNested(After(s, run))
    decreases |run|
  {
    hide Inv, WellNested, Step, Enabled, Nested;
    if run != [] {
      StepKeepsInv(s, run[0]);
      StepKeepsNesting(s, run[0]);
      RunKeepsNesting(Step(s, run[0]), run[1..]);
    }
  }

  lemma {:induction false} ReachedNested(run: seq<Event>, s: State)
    requires Feasible(START, run) && Nests(START, run) && s == After(START, run)
    ensures Inv(s) && WellNested(s)
  {
    StartInv();
    hide Inv;
    RunKeepsNesting(START, run);
  }

  /** `h` was opened inside `u`, at any depth of nesting. */
  ghost predicate NestedIn(spans: seq<Span>, h: nat, u: nat)
    decreases h
  {
    && h < |spans| && spans[h].under.Some? && spans[h].under.value < h
    && (spans[h].under.value == u || NestedIn(spans, spans[h].under.value, u))
  }

  /** In a nested run a span's row comes after the rows of all spans opened inside it. */
  lemma {:induction false} NestedRowsFirst(run: seq<Event>, s: State, h: nat, u: nat)
    requires Feasible(START, run) && Nests(START, run) && s == After(START, run)
    requires NestedIn(s.spans, h, u) && u < |s.spans| && !s.spans[u].open
    ensures s.spans[h].buffer == s.spans[u].buffer < |s.buffers|
    ensures exists j, k :: 0 <= j < k < |s.buffers[s.spans[u].buffer]|
              && s.buffers[s.spans[u].buffer][j] == RowOf(s.spans, h)
              && s.buffers[s.spans[u].buffer][k] == RowOf(s.spans, u)
  {
    hide After, Feasible, Nests, RowOf;
    ReachedNested(run, s);
    var j, k := NestedPositions(s, h, u);
  }

  lemma {:induction false} NestedPositions(s: State, h: nat, u: nat) returns (j: nat, k: nat)
    requires Inv(s) && WellNested(s) && NestedIn(s.spans, h, u) && u < |s.spans| && !s.spans[u].open
    ensures !s.spans[h].open && s.spans[h].buffer == s.spans[u].buffer < |s.ended|
    ensures BufferOk(s, s.spans[u].buffer)
    ensures j < k < |s.ended[s.spans[u].buffer]|
    ensures s.ended[s.spans[u].buffer][j] == h && s.ended[s.spans[u].buffer][k] == u
    decreases h
  {
    var m := s.spans[h].under.value;
    assert SpanOk(s, h) && SpanOk(s, m) && SpanOk(s, u);
    var b := s.spans[u].buffer;
    assert BufferOk(s, b);
    if m == u {
      k :| 0 <= k < |s.ended[b]| && s.ended[b][k] == u;
      assert h in s.ended[b][..k];
      j :| 0 <= j < k && s.ended[b][j] == h;
    } else {
      var i: nat;
      i, k := NestedPositions(s, m, u);
      assert s.spans[h].under == Some(s.ended[b][i]);
      assert h in s.ended[b][..i];
      j :| 0 <= j < i && s.ended[b][j] == h;
    }
  }

  // ----- every context's own spans are a stack

  /** From `top`, the spans of one context's stack lead down to `h`, all open. */
  ghost predicate Reaches(spans: seq<Span>, top: nat, h: nat, task: nat)
    decreases top
  {
    && top < |spans| && spans[top].open && spans[top].task == task
    && (top == h
        || (spans[top].under.Some? && spans[top].under.value < top
            && Reaches(spans, spans[top].under.value, h, task)))
  }

  /** The open spans of a context lie under its current one. */
  ghost predicate OnStack(s: State, h: nat) {
    && h < |s.spans| && s.spans[h].task in s.current
    && Reaches(s.spans, s.current[s.spans[h].task], h, s.spans[h].task)
  }

  ghost predicate Stacked(s: State) {
    forall h :: 0 <= h < |s.spans| && s.spans[h].open ==> OnStack(s, h)
  }

  lemma {:induction false} ReachesStays(spans: seq<Span>, more: seq<Span>, top: nat, h: nat, task: nat)
    requires Reaches(spans, top, h, task) && |spans| <= |more|
    requires forall g :: 0 <= g <= top && g < |spans| && spans[g].open && spans[g].task == task ==>
               more[g].open && more[g].task == task && more[g].under == spans[g].under
    ensures Reaches(more, top, h, task)
    decreases top
  {
    if top != h {
      ReachesStays(spans, more, spans[top].under.value, h, task);
    }
  }

  /** What a span's stack holds above it is opened inside it and still open. */
  lemma {:induction false} SomethingInside(spans: seq<Span>, top: nat, h: nat, task: nat) returns (g: nat)
    requires Reaches(spans, top, h, task) && top != h
    ensures h < g < |spans| && spans[g].open && spans[g].task == task && spans[g].under == Some(h)
    decreases top
  {
    if spans[top].under.value == h {
      g := top;
    } else {
      g := SomethingInside(spans, spans[top].under.value, h, task);
    }
  }

  lemma {:induction false} StepKeepsStacked(s: State, e: Event)
    requires Inv(s) && Stacked(s) && Enabled(s, e)
    ensures Stacked(Step(s, e))
  {
    hide RowOf, BufferOk, WritesOk;
    var t := Step(s, e);
    forall h | 0 <= h < |t.spans| && t.spans[h].open
      ensures OnStack(t, h)
    {
      if h < |s.spans| {
        StepKeepsOrigins(s, e, h);
        assert OnStack(s, h);
        StillOnStack(s, e, h);
      } else {
        assert t.spans[h].task == e.task && Reaches(t.spans, h, h, e.task);
      }
    }
  }

  lemma {:induction false} ExitKeepsOnStack(s: State, e: Event, h: nat)
    requires Inv(s) && e.Exit? && Enabled(s, e) && OnStack(s, h)
    requires s.spans[h].open && Step(s, e).spans[h].open
    ensures OnStack(Step(s, e), h)
  {
    hide RowOf, BufferOk, WritesOk;
    var t, task := Step(s, e), s.spans[h].task;
    var top := s.current[task];
    if e.task == task {
      assert SpanOk(s, top);
      ReachesStays(s.spans, t.spans, s.spans[top].under.value, h, task);
    } else {
      ReachesStays(s.spans, t.spans, top, h, task);
    }
  }

  lemma {:induction false} StillOnStack(s: State, e: Event, h: nat)
    requires Inv(s) && Enabled(s, e) && OnStack(s, h) && h < |Step(s, e).spans|
    requires s.spans[h].open && Step(s, e).spans[h].open
    ensures OnStack(Step(s, e), h)
  {
    hide RowOf, BufferOk, WritesOk;
    var t, task := Step(s, e), s.spans[h].task;
    var top := s.current[task];
    match e {
      case Enter(_, _, _, _, _, _) =>
        ReachesStays(s.spans, t.spans, top, h, task);
      case Exit(_, _) =>
        ExitKeepsOnStack(s, e, h);
      case Fork(_, _) =>
      case _ =>
        EditKeepsShape(s, e);
        ReachesStays(s.spans, t.spans, top, h, task);
    }
  }

  lemma {:induction false} RunKeepsStacked(s: State, run: seq<Event>)
    requires Inv(s) && Stacked(s) && Feasible(s, run)
    ensures Inv(After(s, run)) && Stacked(After(s, run))
    decreases |run|
  {
    hide Inv, Stacked, Step, Enabled;
    if run != [] {
      StepKeepsInv(s, run[0]);
      StepKeepsStacked(s, run[0]);
      RunKeepsStacked(Step(s, run[0]), run[1..]);
    }
  }

  // ----- any open span can be brought to its end

  ghost predicate Inside(spans: seq<Span>, h: nat, p: nat) {
    h == p || NestedIn(spans, h, p)
  }

  lemma {:induction false} NestingStays(spans: seq<Span>, more: seq<Span>, h: nat, u: nat)
    requires h < |spans| <= |more|
    requires forall g :: 0 <= g < |spans| ==> more[g].under == spans[g].under
    ensures NestedIn(spans, h, u) <==> NestedIn(more, h, u)
    decreases h
  {
    if spans[h].under.Some? && spans[h].under.value < h {
      NestingStays(spans, more, spans[h].under.value, u);
    }
  }

  /** The last opened of the open spans inside `p`. */
  lemma {:induction false} LastInside(spans: seq<Span>, p: nat, n: nat) returns (g: nat)
    requires p < n <= |spans| && spans[p].open
    ensures p <= g < n && spans[g].open && Inside(spans, g, p)
    ensures forall k :: g < k < n && spans[k].open ==> !NestedIn(spans, k, p)
  {
    if n == p + 1 || (spans[n - 1].open && NestedIn(spans, n - 1, p)) {
      g := n - 1;
    } else {
      g := LastInside(spans, p, n - 1);
    }
  }

  lemma {:induction false} InsideOfInside(spans: seq<Span>, k: nat, g: nat, p: nat)
    requires k < |spans| && spans[k].under == Some(g) && g < k && Inside(spans, g, p)
    ensures NestedIn(spans, k, p)
  {
  }

  /** While anything of its list is open, something is open directly inside an outermost span. */
  lemma {:induction false} OpenInsideRoot(s: State, g: nat, k: nat) returns (j: nat)
    requires Inv(s) && WellNested(s) && g < |s.spans| && s.spans[g].under.None?
    requires k < |s.spans| && k != g && s.spans[k].open && s.spans[k].buffer == s.spans[g].buffer
    ensures j < |s.spans| && s.spans[j].open && s.spans[j].under == Some(g)
    decreases k
  {
    hide RowOf, BufferOk, WritesOk;
    assert SpanOk(s, g) && SpanOk(s, k);
    if s.spans[k].under == Some(g) {
      j := k;
    } else {
      j := OpenInsideRoot(s, g, s.spans[k].under.value);
    }
  }

  /** A span with no open span inside it may end. */
  lemma {:induction false} MayEnd(s: State, g: nat)
    requires Inv(s) && Stacked(s) && WellNested(s) && g < |s.spans| && s.spans[g].open
    requires forall k :: 0 <= k < |s.spans| && s.spans[k].open ==> s.spans[k].under != Some(g)
    ensures s.spans[g].task in s.current && s.current[s.spans[g].task] == g
    ensures Enabled(s, Exit(s.spans[g].task, None))
  {
    hide RowOf, BufferOk, WritesOk;
    assert SpanOk(s, g) && OnStack(s, g);
    var task := s.spans[g].task;
    if s.current[task] != g {
      var k := SomethingInside(s.spans, s.current[task], g, task);
    }
    if k :| 0 <= k < |s.spans| && s.spans[g].under.None? && k != g && s.spans[k].open
            && s.spans[k].buffer == s.spans[g].buffer {
      var j := OpenInsideRoot(s, g, k);
    }
  }

  ghost function OpenSpans(s: State): set<nat> {
    set h: nat | h < |s.spans| && s.spans[h].open
  }

  /** The end of `g`, without an exception. */
  lemma {:induction false} OneEnds(s: State, g: nat) returns (t: State)
    requires Inv(s) && Stacked(s) && WellNested(s) && g < |s.spans| && s.spans[g].open
    requires forall k :: 0 <= k < |s.spans| && s.spans[k].open ==> s.spans[k].under != Some(g)
    ensures Enabled(s, Exit(s.spans[g].task, None)) && t == Step(s, Exit(s.spans[g].task, None))
    ensures Nested(s, Exit(s.spans[g].task, None)) && WellNested(t)
    ensures Inv(t) && Stacked(t) && |t.spans| == |s.spans| && |OpenSpans(t)| < |OpenSpans(s)|
    ensures forall k :: 0 <= k < |s.spans| ==>
              t.spans[k].under == s.spans[k].under && t.spans[k].open == (s.spans[k].open && k != g)
  {
    var e := Exit(s.spans[g].task, None);
    MayEnd(s, g);
    StepKeepsInv(s, e);
    StepKeepsStacked(s, e);
    StepKeepsNesting(s, e);
    OneEnded(s, g);
    hide Inv, Stacked, WellNested, RowOf, Step, OpenSpans;
    t := Step(s, e);
  }

  lemma {:induction false} NothingOpenInside(s: State, g: nat, p: nat)
    requires Inv(s) && g < |s.spans| && Inside(s.spans, g, p)
    requires forall k :: g < k < |s.spans| && s.spans[k].open ==> !NestedIn(s.spans, k, p)
    ensures forall k :: 0 <= k < |s.spans| && s.spans[k].open ==> s.spans[k].under != Some(g)
  {
    hide RowOf, BufferOk, WritesOk, NestedIn;
    forall k | 0 <= k < |s.spans| && s.spans[k].open
      ensures s.spans[k].under != Some(g)
    {
      assert SpanOk(s, k);
      if s.spans[k].under == Some(g) {
        InsideOfInside(s.spans, k, g, p);
      }
    }
  }

  /** A nested run of exits that ends `p` and what is open inside it, and nothing else. */
  lemma {:induction false} EndWithInside(s: State, p: nat) returns (run: seq<Event>, t: State)
    requires Inv(s) && Stacked(s) && WellNested(s) && p < |s.spans| && s.spans[p].open
    ensures Feasible(s, run) && Nests(s, run) && t == After(s, run)
    ensures Inv(t) && Stacked(t) && WellNested(t) && |t.spans| == |s.spans|
    ensures !t.spans[p].open
    ensures forall h :: 0 <= h < |s.spans| && s.spans[h].open && !Inside(s.spans, h, p) ==> t.spans[h].open
    decreases |OpenSpans(s)|
  {
    var g := LastInside(s.spans, p, |s.spans|);
    NothingOpenInside(s, g, p);
    var next := OneEnds(s, g);
    hide Inv, Stacked, WellNested, Nested, Step, Enabled, NestedIn, OpenSpans, After, Feasible, Nests;
    var e := Exit(s.spans[g].task, None);
    if g == p {
      NoEvents(next);
      OneStep(s, e, [], next);
      run, t := [e] + [], next;
    } else {
      var rest;
      rest, t := EndWithInside(next, p);
      OneStep(s, e, rest, t);
      run := [e] + rest;
      forall h | 0 <= h < |s.spans| && s.spans[h].open && !Inside(s.spans, h, p)
        ensures t.spans[h].open
      {
        NestingStays(s.spans, next.spans, h, p);
      }
    }
  }

  // ----- whose row comes first

  /** Rows are only ever appended. */
  lemma {:induction false} EndedOnlyGrows(s: State, run: seq<Event>, b: nat)
    requires Feasible(s, run) && Inv(s) && b < |s.ended|
    ensures b < |After(s, run).ended| && s.ended[b] <= After(s, run).ended[b]
    decreases |run|
  {
    if run != [] {
      StepKeepsInv(s, run[0]);
      EndedOnlyGrows(Step(s, run[0]), run[1..], b);
    }
  }

  /** The row of `h` stands before that of `p`, in one list. */
  ghost predicate RowBefore(s: State, h: nat, p: nat) {
    exists b: nat, j: nat, k: nat :: j < k && RowAt(s, h, b, j) && RowAt(s, p, b, k)
  }

  lemma {:induction false} RowBeforeIs(s: State, h: nat, p: nat)
    requires Inv(s) && h < |s.spans| && p < |s.spans|
    ensures RowBefore(s, h, p) <==>
            exists b: nat, j: nat, k: nat :: j < k && b < |s.ended| && k < |s.ended[b]|
              && s.ended[b][j] == h && s.ended[b][k] == p
  {
    hide RowOf, WritesOk;
    if b: nat, j: nat, k: nat :| j < k && RowAt(s, h, b, j) && RowAt(s, p, b, k) {
      RowAtIsItsOwn(s, h, b, j);
      RowAtIsItsOwn(s, p, b, k);
    }
    if b: nat, j: nat, k: nat :|
      j < k && b < |s.ended| && k < |s.ended[b]| && s.ended[b][j] == h && s.ended[b][k] == p {
      assert BufferOk(s, b);
      RowHasItsId(s.spans, h);
      RowHasItsId(s.spans, p);
      assert RowAt(s, h, b, j) && RowAt(s, p, b, k);
    }
  }

  /** What ends while `h` is open does not come after it. */
  lemma {:induction false} EarlierEndIsNotAfter(s: State, run: seq<Event>, t: State, h: nat, p: nat)
    requires Inv(s) && Feasible(s, run) && t == After(s, run) && h < |s.spans| && p < |s.spans|
    requires s.spans[h].open && !s.spans[p].open
    ensures h < |t.spans| && p < |t.spans| && !RowBefore(t, h, p)
  {
    hide RowOf, WritesOk, After, Feasible;
    OriginsStay(s, run, h);
    OriginsStay(s, run, p);
    RunKeepsInv(s, run);
    var own := s.spans[p].buffer;
    assert SpanOk(s, p) && BufferOk(s, own);
    EndedOnlyGrows(s, run, own);
    assert BufferOk(t, own);
    var i :| 0 <= i < |s.ended[own]| && s.ended[own][i] == p;
    assert t.ended[own][i] == p;
    RowBeforeIs(t, h, p);
    forall j | 0 <= j < |s.ended[own]|
      ensures t.ended[own][j] != h
    {
      assert !s.spans[s.ended[own][j]].open;
    }
    forall b: nat, j: nat, k: nat | b < |t.ended| && j < |t.ended[b]| && k < |t.ended[b]|
                                    && t.ended[b][j] == h && t.ended[b][k] == p
      ensures k <= j
    {
      assert BufferOk(t, b);
      assert b == own && k == i;
    }
  }

  lemma {:induction false} NestedRowBefore(s: State, h: nat, p: nat)
    requires Inv(s) && WellNested(s) && NestedIn(s.spans, h, p) && p < |s.spans| && !s.spans[p].open
    ensures RowBefore(s, h, p)
  {
    hide RowOf, WritesOk;
    var j, k := NestedPositions(s, h, p);
    RowBeforeIs(s, h, p);
  }

  /** The span `enter` opens, which is a child of `p`, has its row before that of `p` in whatever nested
      way both come to end. */
  ghost predicate ChildRowFirst(s: State, enter: Event, p: nat)
    requires Enabled(s, enter)
  {
    forall run :: Feasible(Step(s, enter), run) && Nests(Step(s, enter), run) ==>
      ChildNotLate(After(Step(s, enter), run), |s.spans|, p)
  }

  ghost predicate ChildNotLate(t: State, h: nat, p: nat) {
    h < |t.spans| && p < |t.spans| && !t.spans[h].open && !t.spans[p].open ==> RowBefore(t, h, p)
  }

  /** `p` is the current span, or one it is nested in. */
  ghost predicate Around(s: State, task: nat, p: nat) {
    Current(s, task).Some? && Inside(s.spans, s.current[task], p)
  }

  /** In nested runs a child's row comes before its parent's, whatever happens, exactly when the parent
      is the current span or around it. Otherwise the parent, open or ended, may be the first to end. */
  lemma {:induction false} ChildRowFirstIff(before: seq<Event>, s: State, enter: Event, p: nat)
    requires Feasible(START, before) && Nests(START, before) && s == After(START, before)
    requires enter.Enter? && Enabled(s, enter) && Nested(s, enter) && Opened(s, enter).parent == Some(p)
    ensures ChildRowFirst(s, enter, p) <==> Around(s, enter.task, p)
  {
    hide After, Feasible, Nests, RowOf, BufferOk, WritesOk, RowBefore, ChildNotLate, WellNested;
    var next, h := Step(s, enter), |s.spans|;
    StartIsStacked();
    RunKeepsStacked(START, before);
    ReachedNested(before, s);
    StepKeepsInv(s, enter);
    StepKeepsStacked(s, enter);
    StepKeepsNesting(s, enter);
    AroundIsNesting(s, enter, p);
    if Around(s, enter.task, p) {
      forall run | Feasible(next, run) && Nests(next, run)
        ensures ChildNotLate(After(next, run), h, p)
      {
        NestedNotLate(next, run, h, p);
      }
    } else {
      var run, t := ParentEndsFirst(next, h, p);
      assert !ChildNotLate(After(next, run), h, p);
    }
  }

  lemma {:induction false} StartIsStacked()
    ensures Inv(START) && Stacked(START)
  {
    hide Inv, OnStack;
    StartInv();
  }

  lemma {:induction false} AroundIsNesting(s: State, enter: Event, p: nat)
    requires Inv(s) && enter.Enter? && Enabled(s, enter) && Opened(s, enter).parent == Some(p)
    ensures p < |s.spans| < |Step(s, enter).spans| && Step(s, enter).spans[|s.spans|].open
    ensures Around(s, enter.task, p) <==> NestedIn(Step(s, enter).spans, |s.spans|, p)
  {
    hide RowOf, BufferOk, WritesOk;
    var next := Step(s, enter);
    if Current(s, enter.task).Some? {
      NestingStays(s.spans, next.spans, s.current[enter.task], p);
    }
  }

  lemma {:induction false} NestedNotLate(s: State, run: seq<Event>, h: nat, p: nat)
    requires Inv(s) && WellNested(s) && Feasible(s, run) && Nests(s, run)
    requires NestedIn(s.spans, h, p) && p < |s.spans|
    ensures ChildNotLate(After(s, run), h, p)
  {
    hide RowOf, BufferOk, WritesOk, RowBefore, Inv, WellNested, Nests;
    var t := After(s, run);
    RunKeepsNesting(s, run);
    OriginsStay(s, run, |s.spans| - 1);
    forall g | 0 <= g < |s.spans|
      ensures t.spans[g].under == s.spans[g].under
    {
      OriginsStay(s, run, g);
    }
    NestingStays(s.spans, t.spans, h, p);
    if !t.spans[p].open {
      NestedRowBefore(t, h, p);
    }
  }

  /** A parent outside the nesting has ended, or can end while its child is open; then the child
      ends. */
  lemma {:induction false} ParentEndsFirst(s: State, h: nat, p: nat) returns (run: seq<Event>, t: State)
    requires Inv(s) && Stacked(s) && WellNested(s)
    requires p < h < |s.spans| && s.spans[h].open && !NestedIn(s.spans, h, p)
    ensures Feasible(s, run) && Nests(s, run) && t == After(s, run) && !ChildNotLate(t, h, p)
  {
    hide RowOf, BufferOk, WritesOk, RowBefore, Inv, Stacked, WellNested, After, Feasible, Nests;
    var first: seq<Event>, middle := [], s;
    assert Feasible(s, []) && Nests(s, []) && After(s, []) == s by {
      NoEvents(s);
    }
    if s.spans[p].open {
      first, middle := EndWithInside(s, p);
    }
    var second;
    second, t := EndWithInside(middle, h);
    OneAfterTheOther(s, first, second);
    run := first + second;
    EarlierEndIsNotAfter(middle, second, t, h, p);
    OriginsStay(middle, second, p);
  }

  lemma {:induction false} NoEvents(s: State)
    ensures Feasible(s, []) && Nests(s, []) && After(s, []) == s
  {
  }

  lemma {:induction false} OneAfterTheOther(s: State, first: seq<Event>, second: seq<Event>)
    requires Feasible(s, first) && Feasible(After(s, first), second)
    ensures Feasible(s, first + second) && After(s, first + second) == After(After(s, first), second)
    ensures Nests(s, first) && Nests(After(s, first), second) ==> Nests(s, first + second)
    decreases |first|
  {
    hide Step, Enabled, Nested;
    if first == [] {
      assert first + second == second;
    } else {
      assert (first + second)[1..] == first[1..] + second;
      OneAfterTheOther(Step(s, first[0]), first[1..], second);
    }
  }

  // ----- whose row comes first when contexts outlive spans

  /** `p` cannot end before `h`: the same context opened it before `h`, or it is the outermost of the
      list they share. */
  ghost predicate Outlives(s: State, h: nat, p: nat) {
    && p < h < |s.spans| && s.spans[h].buffer == s.spans[p].buffer
    && (s.spans[p].task == s.spans[h].task || s.spans[p].under.None?)
  }

  lemma {:induction false} StillOpen(s: State, e: Event, h: nat, p: nat)
    requires Inv(s) && Stacked(s) && Enabled(s, e) && Outlives(s, h, p)
    requires s.spans[h].open && s.spans[p].open
    ensures Outlives(Step(s, e), h, p) && Step(s, e).spans[p].open
  {
    hide RowOf, BufferOk, WritesOk;
    StepKeepsOrigins(s, e, h);
    StepKeepsOrigins(s, e, p);
    assert SpanOk(s, h) && SpanOk(s, p) && OnStack(s, h);
    if e.Exit? && e.task == s.spans[h].task {
      ReachesUp(s.spans, s.current[e.task], h, e.task);
    }
  }

  lemma {:induction false} ReachesUp(spans: seq<Span>, top: nat, h: nat, task: nat)
    requires Reaches(spans, top, h, task)
    ensures h <= top
    decreases top
  {
    if top != h {
      ReachesUp(spans, spans[top].under.value, h, task);
    }
  }

  /** Who has ended while `p` is open comes before it. */
  lemma {:induction false} EarlierEndIsBefore(s: State, run: seq<Event>, t: State, h: nat, p: nat)
    requires Inv(s) && Feasible(s, run) && t == After(s, run) && h < |s.spans| && p < |s.spans|
    requires s.spans[p].open && !s.spans[h].open && s.spans[h].buffer == s.spans[p].buffer
    ensures ChildNotLate(t, h, p)
  {
    hide RowOf, WritesOk, After, Feasible;
    OriginsStay(s, run, h);
    OriginsStay(s, run, p);
    RunKeepsInv(s, run);
    var b := s.spans[h].buffer;
    assert SpanOk(s, h) && BufferOk(s, b);
    EndedOnlyGrows(s, run, b);
    var j :| 0 <= j < |s.ended[b]| && s.ended[b][j] == h;
    assert t.ended[b][j] == h;
    forall i | 0 <= i < |s.ended[b]|
      ensures t.ended[b][i] != p
    {
      assert !s.spans[s.ended[b][i]].open;
    }
    if !t.spans[p].open {
      assert SpanOk(t, p);
      var k :| 0 <= k < |t.ended[b]| && t.ended[b][k] == p;
      RowBeforeIs(t, h, p);
    }
  }

  lemma {:induction false} OutlivedComesFirst(s: State, run: seq<Event>, h: nat, p: nat)
    requires Inv(s) && Stacked(s) && Feasible(s, run) && Outlives(s, h, p)
    requires s.spans[h].open && s.spans[p].open
    ensures ChildNotLate(After(s, run), h, p)
    decreases |run|
  {
    hide Inv, Stacked, Step, Enabled, RowBefore;
    if run != [] {
      var next := Step(s, run[0]);
      StepKeepsInv(s, run[0]);
      StepKeepsStacked(s, run[0]);
      StillOpen(s, run[0], h, p);
      if next.spans[h].open {
        OutlivedComesFirst(next, run[1..], h, p);
      } else {
        EarlierEndIsBefore(next, run[1..], After(s, run), h, p);
      }
    }
  }

  /** What has to end before `p` can: the rest of its list for an outermost span, what its own context
      opened since for any other. */
  ghost predicate Blocks(s: State, g: nat, p: nat) {
    && g < |s.spans| && p < |s.spans| && s.spans[g].open
    && if s.spans[p].under.None? then s.spans[g].buffer == s.spans[p].buffer
       else s.spans[g].task == s.spans[p].task && g >= p
  }

  lemma {:induction false} LastBlocking(s: State, p: nat, n: nat) returns (g: nat)
    requires p < n <= |s.spans| && s.spans[p].open
    ensures g < n && Blocks(s, g, p) && forall k :: g < k < n ==> !Blocks(s, k, p)
  {
    if Blocks(s, n - 1, p) {
      g := n - 1;
    } else {
      g := LastBlocking(s, p, n - 1);
    }
  }

  lemma {:induction false} RootIsFirst(s: State, k: nat)
    requires Inv(s) && k < |s.spans|
    ensures s.spans[k].buffer < |s.roots| && s.roots[s.spans[k].buffer] <= k
    decreases k
  {
    hide RowOf, BufferOk, WritesOk;
    assert SpanOk(s, k);
    if s.spans[k].under.Some? {
      RootIsFirst(s, s.spans[k].under.value);
    }
  }

  /** Of two open spans of one context, the later was opened under something. */
  lemma {:induction false} LaterIsUnder(spans: seq<Span>, top: nat, g: nat, p: nat, task: nat)
    requires Reaches(spans, top, g, task) && Reaches(spans, top, p, task) && p < g
    ensures g < |spans| && spans[g].under.Some?
    decreases top
  {
    if top != g {
      ReachesUp(spans, top, g, task);
      LaterIsUnder(spans, spans[top].under.value, g, p, task);
    }
  }

  lemma {:induction false} AboveBlocks(s: State, k: nat, g: nat, p: nat)
    requires Inv(s) && Blocks(s, g, p) && g < k < |s.spans| && s.spans[k].open
    requires s.spans[k].under == Some(g) && s.spans[k].task == s.spans[g].task
    ensures Blocks(s, k, p)
  {
    hide RowOf, BufferOk, WritesOk;
    assert SpanOk(s, k);
  }

  lemma {:induction false} LastMayEnd(s: State, p: nat, g: nat)
    requires Inv(s) && Stacked(s) && p < |s.spans| && s.spans[p].open && Blocks(s, g, p)
    requires forall k :: g < k < |s.spans| ==> !Blocks(s, k, p)
    ensures s.spans[g].task in s.current && s.current[s.spans[g].task] == g
    ensures Enabled(s, Exit(s.spans[g].task, None))
  {
    hide RowOf, BufferOk, WritesOk;
    assert SpanOk(s, g) && SpanOk(s, p) && OnStack(s, g) && OnStack(s, p);
    var task := s.spans[g].task;
    if s.current[task] != g {
      var k := SomethingInside(s.spans, s.current[task], g, task);
      AboveBlocks(s, k, g, p);
    }
    if s.spans[g].under.None? {
      if s.spans[p].under.Some? {
        LaterIsUnder(s.spans, g, g, p, task);
      }
      forall k | 0 <= k < |s.spans| && k != g && s.spans[k].open
        ensures s.spans[k].buffer != s.spans[g].buffer
      {
        RootIsFirst(s, k);
        assert k > g ==> !Blocks(s, k, p);
      }
    }
  }

  /** A run of exits that ends `p` and nothing but what has to end before it. */
  lemma {:induction false} EndAfterBlocking(s: State, p: nat) returns (run: seq<Event>, t: State)
    requires Inv(s) && Stacked(s) && p < |s.spans| && s.spans[p].open
    ensures Feasible(s, run) && t == After(s, run)
    ensures Inv(t) && Stacked(t) && |t.spans| == |s.spans|
    ensures !t.spans[p].open
    ensures forall h :: 0 <= h < |s.spans| && s.spans[h].open && !Blocks(s, h, p) ==> t.spans[h].open
    decreases |OpenSpans(s)|
  {
    var g := LastBlocking(s, p, |s.spans|);
    LastMayEnd(s, p, g);
    var e := Exit(s.spans[g].task, None);
    var next := Step(s, e);
    StepKeepsInv(s, e);
    StepKeepsStacked(s, e);
    OneEnded(s, g);
    hide Inv, Stacked, Step, Enabled, RowOf, OpenSpans, After, Feasible;
    if g == p {
      NoEvents(next);
      OneStep(s, e, [], next);
      run, t := [e] + [], next;
    } else {
      var rest;
      rest, t := EndAfterBlocking(next, p);
      OneStep(s, e, rest, t);
      run := [e] + rest;
    }
  }

  lemma {:induction false} OneEnded(s: State, g: nat)
    requires g < |s.spans| && s.spans[g].open && Enabled(s, Exit(s.spans[g].task, None))
    requires s.current[s.spans[g].task] == g
    ensures var t := Step(s, Exit(s.spans[g].task, None));
            && |t.spans| == |s.spans| && |OpenSpans(t)| < |OpenSpans(s)|
            && (forall k :: 0 <= k < |s.spans| ==>
                  t.spans[k].open == (s.spans[k].open && k != g)
                  && t.spans[k].under == s.spans[k].under && t.spans[k].task == s.spans[k].task
                  && t.spans[k].buffer == s.spans[k].buffer)
  {
    hide RowOf;
    var t := Step(s, Exit(s.spans[g].task, None));
    assert g in OpenSpans(s) && OpenSpans(t) == OpenSpans(s) - {g};
  }

  ghost predicate ChildRowFirstInAnyRun(s: State, enter: Event, p: nat)
    requires Enabled(s, enter)
  {
    forall run :: Feasible(Step(s, enter), run) ==>
      ChildNotLate(After(Step(s, enter), run), |s.spans|, p)
  }

  /** `p` is an open span this context opened itself, or the outermost one of the list it writes to. */
  ghost predicate OwnOrOutermost(s: State, task: nat, p: nat) {
    && p < |s.spans| && s.spans[p].open
    && Current(s, task).Some? && s.current[task] < |s.spans|
    && s.spans[s.current[task]].buffer == s.spans[p].buffer
    && (s.spans[p].task == task || s.spans[p].under.None?)
  }

  /** Where contexts may outlive spans, a child's row comes before its parent's in every run exactly
      when the parent is an open span of the child's own context or the outermost of the list. */
  lemma {:induction false} ChildRowFirstInAnyRunIff(before: seq<Event>, s: State, enter: Event, p: nat)
    requires Feasible(START, before) && s == After(START, before)
    requires enter.Enter? && Enabled(s, enter) && Opened(s, enter).parent == Some(p)
    ensures ChildRowFirstInAnyRun(s, enter, p) <==> OwnOrOutermost(s, enter.task, p)
  {
    hide After, Feasible, RowOf, BufferOk, WritesOk, RowBefore, ChildNotLate;
    var next, h := Step(s, enter), |s.spans|;
    StartIsStacked();
    RunKeepsStacked(START, before);
    StepKeepsInv(s, enter);
    StepKeepsStacked(s, enter);
    OwnIsOutlives(s, enter, p);
    if OwnOrOutermost(s, enter.task, p) {
      forall run | Feasible(next, run)
        ensures ChildNotLate(After(next, run), h, p)
      {
        OutlivedComesFirst(next, run, h, p);
      }
    } else {
      var run, t := OtherEndsFirst(next, h, p);
      assert !ChildNotLate(After(next, run), h, p);
    }
  }

  lemma {:induction false} OwnIsOutlives(s: State, enter: Event, p: nat)
    requires Inv(s) && enter.Enter? && Enabled(s, enter) && Opened(s, enter).parent == Some(p)
    ensures var next := Step(s, enter);
            && p < |s.spans| < |next.spans| && next.spans[|s.spans|].open
            && next.spans[p] == s.spans[p]
            && (OwnOrOutermost(s, enter.task, p) <==> next.spans[p].open && Outlives(next, |s.spans|, p))
  {
    hide RowOf, BufferOk, WritesOk;
    assert SpanOk(s, p);
  }

  lemma {:induction false} StackSharesList(s: State, top: nat, h: nat, task: nat)
    requires Inv(s) && Reaches(s.spans, top, h, task)
    ensures h < |s.spans| && s.spans[h].buffer == s.spans[top].buffer
    decreases top
  {
    hide RowOf, BufferOk, WritesOk;
    assert SpanOk(s, top);
    if top != h {
      StackSharesList(s, s.spans[top].under.value, h, task);
    }
  }

  lemma {:induction false} OutlivedIsNotBlocking(s: State, h: nat, p: nat)
    requires Inv(s) && Stacked(s) && p < h < |s.spans| && s.spans[h].open && s.spans[p].open
    requires !Outlives(s, h, p)
    ensures !Blocks(s, h, p)
  {
    hide RowOf, BufferOk, WritesOk;
    assert OnStack(s, h) && OnStack(s, p);
    StackSharesList(s, s.current[s.spans[h].task], h, s.spans[h].task);
    StackSharesList(s, s.current[s.spans[p].task], p, s.spans[p].task);
  }

  /** Any other parent has ended, or can end while its child is open; then the child ends. */
  lemma {:induction false} OtherEndsFirst(s: State, h: nat, p: nat) returns (run: seq<Event>, t: State)
    requires Inv(s) && Stacked(s) && p < h < |s.spans| && s.spans[h].open
    requires s.spans[p].open ==> !Outlives(s, h, p)
    ensures Feasible(s, run) && t == After(s, run) && !ChildNotLate(t, h, p)
  {
    hide RowOf, BufferOk, WritesOk, RowBefore, Inv, Stacked, After, Feasible;
    var first: seq<Event>, middle := [], s;
    assert Feasible(s, []) && After(s, []) == s by {
      NoEvents(s);
    }
    if s.spans[p].open {
      OutlivedIsNotBlocking(s, h, p);
      first, middle := EndAfterBlocking(s, p);
    }
    var second;
    second, t := EndAfterBlocking(middle, h);
    OneAfterTheOther(s, first, second);
    run := first + second;
    EarlierEndIsNotAfter(middle, second, t, h, p);
    OriginsStay(middle, second, p);
  }

  // ----- two inputs

  /** An outer span is open; one opened inside it has ended, and left its row. */
  ghost predicate FirstEnded(s: State) {
    && |s.spans| == 2 && s.spans[0].id == 1 && s.spans[1].id == 2
    && s.spans[0].open && s.spans[0].under.None? && s.spans[0].task == 0 && s.spans[0].buffer == 0
    && !s.spans[1].open && Current(s, 0) == Some(0)
    && |s.buffers| == |s.ended| == 1 && s.roots == [0]
    && |s.buffers[0]| == 1 && s.buffers[0][0].id == 2
    && s.writes == []
  }

  lemma {:induction false} OpenAndEndFirst(e0: Event, e1: Event, out: Event) returns (s1: State, s2: State, s3: State)
    requires e0 == Enter(0, "outer", None, Values(map[], map[]), 7, 1)
    requires e1 == Enter(0, "first", None, Values(map[], map[]), 7, 2)
    requires out == Exit(0, None)
    ensures Enabled(START, e0) && Nested(START, e0) && s1 == Step(START, e0)
    ensures Enabled(s1, e1) && Nested(s1, e1) && s2 == Step(s1, e1)
    ensures Enabled(s2, out) && Nested(s2, out) && s3 == Step(s2, out)
    ensures FirstEnded(s3)
  {
    s1 := Step(START, e0);
    assert Current(s1, 0) == Some(0) && |s1.spans| == 1 && s1.buffers == [[]] && s1.ended == [[]];
    s2 := Step(s1, e1);
    assert Current(s2, 0) == Some(1) && |s2.spans| == 2;
    s3 := Step(s2, out);
  }

  lemma {:induction false} SecondUnderFirst(s3: State, e2: Event, out: Event) returns (s4: State, s5: State, s6: State)
    requires FirstEnded(s3)
    requires e2 == Enter(0, "second", Some(1), Values(map[], map[]), 7, 3) && out == Exit(0, None)
    ensures Enabled(s3, e2) && Nested(s3, e2) && s4 == Step(s3, e2)
    ensures Enabled(s4, out) && Nested(s4, out) && s5 == Step(s4, out)
    ensures Enabled(s5, out) && Nested(s5, out) && s6 == Step(s5, out)
    ensures |s6.writes| == 1 && |s6.writes[0]| == 3
    ensures s6.writes[0][1].parentId == Some(s6.writes[0][0].id)
  {
    s4 := Step(s3, e2);
    assert |s4.spans| == 3 && Current(s4, 0) == Some(2) && s4.buffers == s3.buffers;
    s5 := Step(s4, out);
    assert Current(s5, 0) == Some(0) && |s5.buffers| == |s5.ended| == 1;
    assert s5.buffers[0] == s3.buffers[0] + [RowOf(s5.spans, 2)];
    s6 := Step(s5, out);
  }

  /** Rows of children do not always precede their parent's: here is a run in which they do not. */
  lemma {:induction false} EndedParentComesFirst() returns (run: seq<Event>, s: State)
    ensures Feasible(START, run) && Nests(START, run) && s == After(START, run)
    ensures |s.writes| == 1 && |s.writes[0]| == 3
    ensures s.writes[0][1].parentId == Some(s.writes[0][0].id)
  {
    hide Step, Enabled, Nested;
    var e0 := Enter(0, "outer", None, Values(map[], map[]), 7, 1);
    var e1 := Enter(0, "first", None, Values(map[], map[]), 7, 2);
    var e2 := Enter(0, "second", Some(1), Values(map[], map[]), 7, 3);
    var out := Exit(0, None);
    var s1, s2, s3 := OpenAndEndFirst(e0, e1, out);
    var s4, s5, s6 := SecondUnderFirst(s3, e2, out);
    s := s6;
    assert Feasible(s, []) && Nests(s, []);
    OneStep(s5, out, [], s);
    OneStep(s4, out, [out] + [], s);
    OneStep(s3, e2, [out] + ([out] + []), s);
    OneStep(s2, out, [e2] + ([out] + ([out] + [])), s);
    OneStep(s1, e1, [out] + ([e2] + ([out] + ([out] + []))), s);
    OneStep(START, e0, [e1] + ([out] + ([e2] + ([out] + ([out] + [])))), s);
    run := [e0] + ([e1] + ([out] + ([e2] + ([out] + ([out] + [])))));
  }

  /** An outer span is open, and in a context forked from its own another inside it; a third context
      has only the outer one. */
  ghost predicate TwoOpen(s: State) {
    && |s.spans| == 2 && s.spans[0].id == 1 && s.spans[1].id == 2
    && s.spans[0].open && s.spans[0].under.None? && s.spans[0].task == 0 && s.spans[0].buffer == 0
    && s.spans[1].open && s.spans[1].under == Some(0) && s.spans[1].task == 1 && s.spans[1].buffer == 0
    && s.current == map[0 := 0, 1 := 1, 2 := 0]
    && s.buffers == [[]] && s.ended == [[]] && s.roots == [0] && s.writes == []
  }

  lemma {:induction false} OpenTwo(e0: Event, f1: Event, f2: Event, e1: Event) returns (s1: State, s2: State, s3: State, s4: State)
    requires e0 == Enter(0, "outer", None, Values(map[], map[]), 7, 1)
    requires f1 == Fork(0, 1) && f2 == Fork(0, 2)
    requires e1 == Enter(1, "parent", None, Values(map[], map[]), 7, 2)
    ensures Enabled(START, e0) && Nested(START, e0) && s1 == Step(START, e0)
    ensures Enabled(s1, f1) && Nested(s1, f1) && s2 == Step(s1, f1)
    ensures Enabled(s2, f2) && Nested(s2, f2) && s3 == Step(s2, f2)
    ensures Enabled(s3, e1) && Nested(s3, e1) && s4 == Step(s3, e1)
    ensures TwoOpen(s4)
  {
    s1 := Step(START, e0);
    assert s1.current == map[0 := 0] && |s1.spans| == 1 && s1.buffers == [[]] && s1.ended == [[]];
    s2 := Step(s1, f1);
    s3 := Step(s2, f2);
    assert s3.current == map[0 := 0, 1 := 0, 2 := 0] && s3.spans == s1.spans;
    s4 := OpenSecond(s3, e1);
  }

  lemma {:induction false} OpenSecond(s3: State, e1: Event) returns (s4: State)
    requires |s3.spans| == 1 && s3.spans[0].id == 1 && s3.spans[0].open && s3.spans[0].under.None?
    requires s3.spans[0].task == 0 && s3.spans[0].buffer == 0
    requires s3.current == map[0 := 0, 1 := 0, 2 := 0]
    requires s3.buffers == [[]] && s3.ended == [[]] && s3.roots == [0] && s3.writes == []
    requires e1 == Enter(1, "parent", None, Values(map[], map[]), 7, 2)
    ensures Enabled(s3, e1) && Nested(s3, e1) && s4 == Step(s3, e1) && TwoOpen(s4)
  {
    s4 := Step(s3, e1);
  }

  /** The parent has ended, and left its row; its child is open. */
  ghost predicate ParentGone(s: State) {
    && |s.spans| == 3 && s.spans[0].id == 1 && s.spans[1].id == 2
    && s.spans[0].open && s.spans[0].under.None? && s.spans[0].task == 0 && s.spans[0].buffer == 0
    && !s.spans[1].open && s.spans[2].parent == Some(1)
    && s.spans[2].open && s.spans[2].under == Some(0) && s.spans[2].task == 2 && s.spans[2].buffer == 0
    && s.current == map[0 := 0, 1 := 0, 2 := 2]
    && |s.buffers| == |s.ended| == 1 && s.roots == [0]
    && |s.buffers[0]| == 1 && s.buffers[0][0].id == 2 && s.writes == []
  }

  lemma {:induction false} ParentLeaves(s4: State, e2: Event, out1: Event) returns (s5: State, s6: State)
    requires TwoOpen(s4)
    requires e2 == Enter(2, "child", Some(1), Values(map[], map[]), 7, 3) && out1 == Exit(1, None)
    ensures Enabled(s4, e2) && Nested(s4, e2) && s5 == Step(s4, e2)
    ensures Enabled(s5, out1) && Nested(s5, out1) && s6 == Step(s5, out1)
    ensures ParentGone(s6)
  {
    s5 := Step(s4, e2);
    assert |s5.spans| == 3 && s5.current == map[0 := 0, 1 := 1, 2 := 2] && s5.buffers == [[]];
    s6 := Step(s5, out1);
  }

  lemma {:induction false} ChildLeaves(s6: State, out2: Event, out0: Event) returns (s7: State, s8: State)
    requires ParentGone(s6) && out2 == Exit(2, None) && out0 == Exit(0, None)
    ensures Enabled(s6, out2) && Nested(s6, out2) && s7 == Step(s6, out2)
    ensures Enabled(s7, out0) && Nested(s7, out0) && s8 == Step(s7, out0)
    ensures |s8.writes| == 1 && |s8.writes[0]| == 3
    ensures s8.writes[0][1].parentId == Some(s8.writes[0][0].id)
  {
    s7 := Step(s6, out2);
    assert s7.current[0] == 0 && |s7.buffers| == |s7.ended| == 1;
    assert s7.buffers[0] == s6.buffers[0] + [RowOf(s7.spans, 2)];
    s8 := Step(s7, out0);
  }

  /** An open parent comes first too, when the child was opened beside it and not inside. */
  lemma {:induction false} OpenParentComesFirst() returns (run: seq<Event>, s: State)
    ensures Feasible(START, run) && Nests(START, run) && s == After(START, run)
    ensures |s.writes| == 1 && |s.writes[0]| == 3
    ensures s.writes[0][1].parentId == Some(s.writes[0][0].id)
  {
    hide Step, Enabled, Nested;
    var e0 := Enter(0, "outer", None, Values(map[], map[]), 7, 1);
    var e1 := Enter(1, "parent", None, Values(map[], map[]), 7, 2);
    var e2 := Enter(2, "child", Some(1), Values(map[], map[]), 7, 3);
    var f1, f2, out1, out2, out0 := Fork(0, 1), Fork(0, 2), Exit(1, None), Exit(2, None), Exit(0, None);
    var s1, s2, s3, s4 := OpenTwo(e0, f1, f2, e1);
    var s5, s6 := ParentLeaves(s4, e2, out1);
    var s7, s8 := ChildLeaves(s6, out2, out0);
    s := s8;
    assert Feasible(s, []) && Nests(s, []);
    OneStep(s7, out0, [], s);
    OneStep(s6, out2, [out0] + [], s);
    OneStep(s5, out1, [out2] + ([out0] + []), s);
    var rest := [out1] + ([out2] + ([out0] + []));
    OneStep(s4, e2, rest, s);
    OneStep(s3, e1, [e2] + rest, s);
    OneStep(s2, f2, [e1] + ([e2] + rest), s);
    OneStep(s1, f1, [f2] + ([e1] + ([e2] + rest)), s);
    OneStep(START, e0, [f1] + ([f2] + ([e1] + ([e2] + rest))), s);
    run := [e0] + ([f1] + ([f2] + ([e1] + ([e2] + rest))));
  }

  lemma {:induction false} OneStep(s: State, e: Event, rest: seq<Event>, end: State)
    requires Enabled(s, e) && Feasible(Step(s, e), rest) && After(Step(s, e), rest) == end
    ensures Feasible(s, [e] + rest) && After(s, [e] + rest) == end
    ensures Nested(s, e) && Nests(Step(s, e), rest) ==> Nests(s, [e] + rest)
  {
    assert ([e] + rest)[1..] == rest;
  }
}

/**
 The span recorder of `backend/app/core/events.py`. Every context (a task or a thread) has its own
 current span; a context forked from another starts with a copy of it. Spans nested in one another
 share one list of rows, which the outermost of them writes when it ends.

 Ids are fresh values. A context may outlive a span it was started under, but not the outermost one:
 it opens and ends its own before that one ends. The field `status` is open to the code of the block,
 which assigns it to call the step failed and nothing else.
 */
module Spans {
  import opened Text

  datatype Link = INSTANCE | PROCESS | RULE | NORM_RULE

  /** A child belongs to its parent's process, rule and norm rule. */
  const INHERITED := {PROCESS, RULE, NORM_RULE}

  type Links = map<Link, Option<int>>

  const NO_LINKS: Links := map[INSTANCE := None, PROCESS := None, RULE := None, NORM_RULE := None]

  /** The links a span starts with. */
  function Belongs(parent: Links): Links {
    NO_LINKS + map k | k in parent && k in INHERITED :: parent[k]
  }

  datatype Status = OK | ERROR

  /** What `set` receives: links by their names, anything else as data. */
  datatype Values = Values(links: Links, data: map<string, string>)

  type Id = nat

  datatype Span = Span(
    step: string,
    trace: Id,
    id: Id,
    parent: Option<nat>,  // the span its row names as parent
    under: Option<nat>,   // the current span when it was opened
    task: nat,
    buffer: nat,          // the list of rows it shares
    links: Links,
    data: map<string, string>,
    status: Status,
    open: bool)

  datatype Row = Row(
    trace: Id,
    id: Id,
    parentId: Option<Id>,
    step: string,
    status: Status,
    data: Option<map<string, string>>,
    links: Links)

  datatype State = State(
    spans: seq<Span>,
    current: map<nat, nat>,     // the current span of each context that has one
    buffers: seq<seq<Row>>,
    writes: seq<seq<Row>>,      // what `_write` received, call after call
    // how the lists came about
    roots: seq<nat>,            // the outermost span of each buffer
    ended: seq<seq<nat>>,       // the spans whose rows a buffer holds, in order
    written: seq<nat>)          // the buffers written, in order

  datatype Event =
    | Enter(task: nat, step: string, explicit: Option<nat>, values: Values, traceId: Id, spanId: Id)
    | Set(span: nat, values: Values)
    | Mark(span: nat)  // the code of the block assigns "error" to the status
    | Exit(task: nat, error: Option<string>)
    | Fork(task: nat, child: nat)

  const START := State([], map[], [], [], [], [], [])

  function Current(s: State, task: nat): Option<nat> {
    if task in s.current then Some(s.current[task]) else None
  }

  function With(span: Span, values: Values): Span {
    span.(links := span.links + values.links, data := span.data + values.data)
  }

  function Truncated(message: string): string {
    if |message| > 1000 then message[..1000] else message
  }

  function RowOf(spans: seq<Span>, h: nat): Row
    requires h < |spans|
  {
    var span := spans[h];
    Row(span.trace, span.id,
        if span.parent.Some? && span.parent.value < |spans| then Some(spans[span.parent.value].id) else None,
        span.step, span.status,
        if span.data == map[] then None else Some(span.data),
        span.links)
  }

  // ----- the steps

  /** The outermost span of the list that `h` shares is open. */
  predicate RootOpen(s: State, h: nat)
    requires h < |s.spans|
  {
    var b := s.spans[h].buffer;
    b < |s.buffers| == |s.roots| && s.roots[b] < |s.spans| && s.spans[s.roots[b]].open
  }

  predicate Enabled(s: State, e: Event) {
    match e
    case Enter(task, _, explicit, _, _, spanId) =>
      && (explicit.Some? ==> explicit.value < |s.spans|)
      && (Current(s, task).Some? ==> s.current[task] < |s.spans| && RootOpen(s, s.current[task]))
      && (forall h :: 0 <= h < |s.spans| ==> s.spans[h].id != spanId)
    case Set(h, _) => h < |s.spans| && s.spans[h].open
    case Mark(h) => h < |s.spans| && s.spans[h].open
    case Exit(task, _) =>
      && task in s.current
      && var h := s.current[task];
         && h < |s.spans| && s.spans[h].open && s.spans[h].task == task
         && s.spans[h].buffer < |s.buffers| && |s.ended| == |s.buffers|
         && (s.spans[h].under.None? ==>
               forall g :: 0 <= g < |s.spans| && g != h && s.spans[g].open ==>
                 s.spans[g].buffer != s.spans[h].buffer)
    case Fork(_, child) =>
      child !in s.current && forall h :: 0 <= h < |s.spans| ==> s.spans[h].task != child
  }

  /** The span `Enter` opens: under the current one, child of the explicit parent if there is one. */
  function Opened(s: State, e: Event): Span
    requires e.Enter? && Enabled(s, e)
  {
    var inherited := Current(s, e.task);
    var parent := if e.explicit.Some? then e.explicit else inherited;
    With(Span(e.step,
              if parent.Some? then s.spans[parent.value].trace else e.traceId,
              e.spanId, parent, inherited, e.task,
              if inherited.Some? then s.spans[inherited.value].buffer else |s.buffers|,
              if parent.Some? then Belongs(s.spans[parent.value].links) else NO_LINKS,
              map[], OK, true),
         e.values)
  }

  function Ended(span: Span, error: Option<string>): Span {
    match error
    case None => span.(open := false)
    case Some(message) =>
      span.(open := false, status := ERROR, data := span.data["error" := Truncated(message)])
  }

  function Step(s: State, e: Event): State
    requires Enabled(s, e)
  {
    match e
    case Enter(task, _, _, _, _, _) =>
      var t := s.(spans := s.spans + [Opened(s, e)], current := s.current[task := |s.spans|]);
      if Current(s, task).Some? then t
      else t.(buffers := s.buffers + [[]], roots := s.roots + [|s.spans|], ended := s.ended + [[]])
    case Set(h, values) => s.(spans := s.spans[h := With(s.spans[h], values)])
    case Mark(h) => s.(spans := s.spans[h := s.spans[h].(status := ERROR)])
    case Exit(task, error) =>
      var h := s.current[task];
      var b := s.spans[h].buffer;
      var spans := s.spans[h := Ended(s.spans[h], error)];
      var rows := s.buffers[b] + [RowOf(spans, h)];
      var t := s.(spans := spans,
                  current := match s.spans[h].under
                             case Some(u) => s.current[task := u]
                             case None => s.current - {task},
                  buffers := s.buffers[b := rows],
                  ended := s.ended[b := s.ended[b] + [h]]);
      if s.spans[h].under.None? then t.(writes := s.writes + [rows], written := s.written + [b]) else t
    case Fork(task, child) =>
      if task in s.current then s.(current := s.current[child := s.current[task]]) else s
  }

  predicate Feasible(s: State, run: seq<Event>)
    decreases |run|
  {
    run == [] || (Enabled(s, run[0]) && Feasible(Step(s, run[0]), run[1..]))
  }

  function After(s: State, run: seq<Event>): State
    requires Feasible(s, run)
    decreases |run|
  {
    if run == [] then s else After(Step(s, run[0]), run[1..])
  }

  // ----- the recorder as the code keeps it

  class Recorder {
    var spans: seq<Span>
    var current: map<nat, nat>
    var buffers: seq<seq<Row>>
    var writes: seq<seq<Row>>
    ghost var roots: seq<nat>
    ghost var ended: seq<seq<nat>>
    ghost var written: seq<nat>

    ghost function View(): State
      reads this
    {
      State(spans, current, buffers, writes, roots, ended, written)
    }

    constructor ()
      ensures View() == START
    {
      spans, current, buffers, writes := [], map[], [], [];
      roots, ended, written := [], [], [];
    }

    /** The head of the `with` block, up to its body. */
    method Open(task: nat, step: string, explicit: Option<nat>, values: Values, traceId: Id, spanId: Id)
      requires Enabled(View(), Enter(task, step, explicit, values, traceId, spanId))
      modifies this
      ensures View() == Step(old(View()), Enter(task, step, explicit, values, traceId, spanId))
    {
      var inherited := if task in current then Some(current[task]) else None;
      var parent := if explicit.Some? then explicit else inherited;
      var buffer := |buffers|;
      if inherited.Some? {
        buffer := spans[inherited.value].buffer;
      } else {
        buffers, roots, ended := buffers + [[]], roots + [|spans|], ended + [[]];
      }
      var trace := if parent.Some? then spans[parent.value].trace else traceId;
      var links := NO_LINKS;
      if parent.Some? {
        links := links + map k | k in spans[parent.value].links && k in INHERITED
                         :: spans[parent.value].links[k];
      }
      var span := Span(step, trace, spanId, parent, inherited, task, buffer, links, map[], OK, true);
      current := current[task := |spans|];
      spans := spans + [With(span, values)];
    }

    method SetValues(h: nat, values: Values)
      requires Enabled(View(), Set(h, values))
      modifies this
      ensures View() == Step(old(View()), Set(h, values))
    {
      spans := spans[h := With(spans[h], values)];
    }

    method MarkFailed(h: nat)
      requires Enabled(View(), Mark(h))
      modifies this
      ensures View() == Step(old(View()), Mark(h))
    {
      spans := spans[h := spans[h].(status := ERROR)];
    }

    /** The end of the `with` block: the exception, if any, is recorded and goes on. */
    method Close(task: nat, error: Option<string>)
      requires Enabled(View(), Exit(task, error))
      modifies this
      ensures View() == Step(old(View()), Exit(task, error))
    {
      var h := current[task];
      var span := spans[h];
      if error.Some? {
        span := span.(status := ERROR, data := span.data["error" := Truncated(error.value)]);
      }
      if span.under.Some? {
        current := current[task := span.under.value];
      } else {
        current := current - {task};
      }
      spans := spans[h := span.(open := false)];
      buffers := buffers[span.buffer := buffers[span.buffer] + [RowOf(spans, h)]];
      ended := ended[span.buffer := ended[span.buffer] + [h]];
      if span.under.None? {
        writes, written := writes + [buffers[span.buffer]], written + [span.buffer];
      }
    }
  }

  // ----- the invariant

  /** A span's place in the trees: the tree of parents carries the trace, the tree of nesting the
      buffer, and the outermost span of a buffer ends last. */
  ghost predicate SpanOk(s: State, h: nat) {
    && h < |s.spans|
    && var span := s.spans[h];
       && span.buffer < |s.buffers| == |s.roots| == |s.ended|
       && (span.parent.Some? ==>
             span.parent.value < h && s.spans[span.parent.value].trace == span.trace)
       && (span.under.Some? ==>
             span.under.value < h
             && s.spans[span.under.value].buffer == span.buffer)
       && (span.under.None? ==> s.roots[span.buffer] == h)
       && (span.under.Some? ==> span.parent.Some?)
       && (span.open ==> RootOpen(s, h))
       && (!span.open ==> h in s.ended[span.buffer])
  }

  /** A buffer holds one row for each ended span of its own. */
  ghost predicate BufferOk(s: State, b: nat) {
    && b < |s.buffers| == |s.roots| == |s.ended|
    && s.roots[b] < |s.spans|
    && s.spans[s.roots[b]].under.None? && s.spans[s.roots[b]].buffer == b
    && |s.ended[b]| == |s.buffers[b]|
    && (forall k :: 0 <= k < |s.ended[b]| ==>
          && s.ended[b][k] < |s.spans|
          && !s.spans[s.ended[b][k]].open
          && s.spans[s.ended[b][k]].buffer == b
          && s.buffers[b][k] == RowOf(s.spans, s.ended[b][k]))
    && (forall j, k :: 0 <= j < k < |s.ended[b]| ==> s.ended[b][j] != s.ended[b][k])
  }

  ghost predicate WritesOk(s: State) {
    && |s.writes| == |s.written|
    && (forall k :: 0 <= k < |s.written| ==>
          && s.written[k] < |s.buffers| == |s.roots|
          && s.roots[s.written[k]] < |s.spans|
          && !s.spans[s.roots[s.written[k]]].open
          && s.writes[k] == s.buffers[s.written[k]])
    && (forall j, k :: 0 <= j < k < |s.written| ==> s.written[j] != s.written[k])
    && (forall b :: 0 <= b < |s.roots| && s.roots[b] < |s.spans| && !s.spans[s.roots[b]].open
          ==> b in s.written)
  }

  ghost predicate Inv(s: State) {
    && |s.buffers| == |s.roots| == |s.ended|
    && (forall h :: 0 <= h < |s.spans| ==> SpanOk(s, h))
    && (forall g, h :: 0 <= g < h < |s.spans| ==> s.spans[g].id != s.spans[h].id)
    && (forall b :: 0 <= b < |s.buffers| ==> BufferOk(s, b))
    && WritesOk(s)
  }

  /** A row changes only with its span and with the id of its parent. */
  lemma {:induction false} RowStays(spans: seq<Span>, more: seq<Span>, h: nat)
    requires h < |spans| <= |more| && more[h] == spans[h]
    requires spans[h].parent.Some? ==>
               spans[h].parent.value < |spans|
               && more[spans[h].parent.value].id == spans[spans[h].parent.value].id
    ensures RowOf(more, h) == RowOf(spans, h)
  {
  }

  lemma {:induction false} EnterKeepsInv(s: State, e: Event)
    requires Inv(s) && e.Enter? && Enabled(s, e)
    ensures Inv(Step(s, e))
  {
    EnterKeepsSpans(s, e);
    var t := Step(s, e);
    forall b | 0 <= b < |t.buffers|
      ensures BufferOk(t, b)
    {
      if b < |s.buffers| {
        EnterKeepsBuffer(s, e, b);
      }
    }
    hide SpanOk, BufferOk, RowOf;
  }

  lemma {:induction false} EnterKeepsSpans(s: State, e: Event)
    requires Inv(s) && e.Enter? && Enabled(s, e)
    ensures forall h :: 0 <= h < |Step(s, e).spans| ==> SpanOk(Step(s, e), h)
  {
    hide BufferOk, RowOf, WritesOk;
    var t := Step(s, e);
    forall h | 0 <= h < |t.spans|
      ensures SpanOk(t, h)
    {
      if h < |s.spans| {
        assert SpanOk(s, h);
      }
    }
  }

  lemma {:induction false} EnterKeepsBuffer(s: State, e: Event, b: nat)
    requires Inv(s) && e.Enter? && Enabled(s, e) && b < |s.buffers|
    ensures BufferOk(Step(s, e), b)
  {
    hide RowOf;
    var t := Step(s, e);
    assert BufferOk(s, b);
    forall k | 0 <= k < |s.ended[b]|
      ensures t.buffers[b][k] == RowOf(t.spans, t.ended[b][k])
    {
      assert SpanOk(s, s.ended[b][k]);
      RowStays(s.spans, t.spans, s.ended[b][k]);
    }
  }

  /** What was decided when a span was opened, and all of it once the span has ended. */
  predicate SameOrigins(was: Span, now: Span) {
    && now.under == was.under && now.parent == was.parent && now.trace == was.trace
    && now.id == was.id && now.step == was.step && now.task == was.task
    && now.buffer == was.buffer && (!was.open ==> now == was)
  }

  /** `set` and a mark touch an open span's links, data or status only. */
  lemma {:induction false} EditKeepsShape(s: State, e: Event)
    requires (e.Set? || e.Mark?) && Enabled(s, e)
    ensures Step(s, e) == s.(spans := Step(s, e).spans)
    ensures |Step(s, e).spans| == |s.spans|
    ensures forall h :: 0 <= h < |s.spans| ==>
              SameOrigins(s.spans[h], Step(s, e).spans[h]) && Step(s, e).spans[h].open == s.spans[h].open
  {
  }

  lemma {:induction false} EditKeepsInv(s: State, e: Event)
    requires Inv(s) && (e.Set? || e.Mark?) && Enabled(s, e)
    ensures Inv(Step(s, e))
  {
    EditKeepsShape(s, e);
    hide RowOf, Step, Enabled;
    var t := Step(s, e);
    forall h | 0 <= h < |t.spans|
      ensures SpanOk(t, h)
    {
      assert SpanOk(s, h);
    }
    forall b | 0 <= b < |t.buffers|
      ensures BufferOk(t, b)
    {
      assert BufferOk(s, b);
      forall k | 0 <= k < |t.ended[b]|
        ensures t.buffers[b][k] == RowOf(t.spans, t.ended[b][k])
      {
        assert SpanOk(s, s.ended[b][k]);
        RowStays(s.spans, t.spans, s.ended[b][k]);
      }
    }
  }

  /** The buffers of the other trees are not touched by an exit. */
  lemma {:induction false} ExitKeepsOtherBuffer(s: State, e: Event, b: nat)
    requires Inv(s) && e.Exit? && Enabled(s, e) && b < |s.buffers|
    requires b != s.spans[s.current[e.task]].buffer
    ensures BufferOk(Step(s, e), b)
  {
    hide RowOf;
    var t := Step(s, e);
    var h := s.current[e.task];
    assert BufferOk(s, b) && SpanOk(s, h);
    forall k | 0 <= k < |s.ended[b]|
      ensures t.buffers[b][k] == RowOf(t.spans, t.ended[b][k])
    {
      assert SpanOk(s, s.ended[b][k]);
      RowStays(s.spans, t.spans, s.ended[b][k]);
    }
  }

  lemma {:induction false} ExitKeepsOwnBuffer(s: State, e: Event)
    requires Inv(s) && e.Exit? && Enabled(s, e)
    ensures BufferOk(Step(s, e), s.spans[s.current[e.task]].buffer)
  {
    hide RowOf, WritesOk, Truncated;
    var t := Step(s, e);
    var h := s.current[e.task];
    var b := s.spans[h].buffer;
    assert BufferOk(s, b) && SpanOk(s, h);
    var n := |s.ended[b]|;
    assert t.ended[b] == s.ended[b] + [h] && t.buffers[b] == s.buffers[b] + [RowOf(t.spans, h)];
    forall k | 0 <= k < n
      ensures s.ended[b][k] != h && t.buffers[b][k] == RowOf(t.spans, t.ended[b][k])
    {
      assert SpanOk(s, s.ended[b][k]);
      RowStays(s.spans, t.spans, s.ended[b][k]);
    }
  }

  lemma {:induction false} ExitKeepsSpan(s: State, e: Event, g: nat)
    requires Inv(s) && e.Exit? && Enabled(s, e) && g < |s.spans|
    ensures SpanOk(Step(s, e), g)
  {
    hide RowOf, BufferOk, WritesOk;
    var t := Step(s, e);
    var h := s.current[e.task];
    assert SpanOk(s, g) && SpanOk(s, h);
    var b := s.spans[g].buffer;
    if g == h {
      assert t.ended[b][|s.ended[b]|] == h;
    } else if s.spans[g].open {
      RootIsItsOwn(s, b);
    } else {
      var k :| 0 <= k < |s.ended[b]| && s.ended[b][k] == g;
      assert t.ended[b][k] == g;
    }
  }

  lemma {:induction false} ExitKeepsInv(s: State, e: Event)
    requires Inv(s) && e.Exit? && Enabled(s, e)
    ensures Inv(Step(s, e))
  {
    hide RowOf, BufferOk, SpanOk, WritesOk;
    var t := Step(s, e);
    var h := s.current[e.task];
    forall g | 0 <= g < |t.spans|
      ensures SpanOk(t, g)
    {
      ExitKeepsSpan(s, e, g);
    }
    forall c | 0 <= c < |t.buffers|
      ensures BufferOk(t, c)
    {
      if c == s.spans[h].buffer {
        ExitKeepsOwnBuffer(s, e);
      } else {
        ExitKeepsOtherBuffer(s, e, c);
      }
    }
    ExitKeepsWrites(s, e);
  }

  lemma {:induction false} RootIsItsOwn(s: State, b: nat)
    requires Inv(s) && b < |s.buffers|
    ensures s.roots[b] < |s.spans| && s.spans[s.roots[b]].under.None?
    ensures s.spans[s.roots[b]].buffer == b
  {
    assert BufferOk(s, b);
  }

  /** What an exit leaves as it was, and what it adds to the writes. */
  lemma {:induction false} ExitShape(s: State, e: Event)
    requires e.Exit? && Enabled(s, e)
    ensures var t, h := Step(s, e), s.current[e.task];
            var b := s.spans[h].buffer;
            && t.roots == s.roots && |t.buffers| == |s.buffers| && |t.spans| == |s.spans|
            && (forall c :: 0 <= c < |s.buffers| && c != b ==> t.buffers[c] == s.buffers[c])
            && (forall g :: 0 <= g < |s.spans| ==> t.spans[g].open == (s.spans[g].open && g != h))
            && t.writes == s.writes + (if s.spans[h].under.None? then [t.buffers[b]] else [])
            && t.written == s.written + (if s.spans[h].under.None? then [b] else [])
  {
    hide RowOf, Truncated;
  }

  lemma {:induction false} ExitKeepsWrites(s: State, e: Event)
    requires Inv(s) && e.Exit? && Enabled(s, e)
    ensures WritesOk(Step(s, e))
  {
    hide RowOf, BufferOk, Truncated;
    var t := Step(s, e);
    var h := s.current[e.task];
    var b := s.spans[h].buffer;
    assert SpanOk(s, h);
    ExitShape(s, e);
    hide SpanOk, Step, Enabled;
    forall c | 0 <= c < |t.roots| && t.roots[c] < |t.spans| && !t.spans[t.roots[c]].open
      ensures c in t.written
    {
      RootIsItsOwn(s, c);
      if t.roots[c] == h {
        assert t.written[|s.written|] == b == c;
      } else {
        var k :| 0 <= k < |s.written| && s.written[k] == c;
        assert t.written[k] == c;
      }
    }
  }

  lemma {:induction false} StepKeepsInv(s: State, e: Event)
    requires Inv(s) && Enabled(s, e)
    ensures Inv(Step(s, e))
  {
    match e {
      case Enter(_, _, _, _, _, _) => EnterKeepsInv(s, e);
      case Set(_, _) => EditKeepsInv(s, e);
      case Mark(_) => EditKeepsInv(s, e);
      case Exit(_, _) => ExitKeepsInv(s, e);
      case Fork(_, _) =>
        var t := Step(s, e);
        forall h | 0 <= h < |t.spans| ensures SpanOk(t, h) { assert SpanOk(s, h); }
        forall b | 0 <= b < |t.buffers| ensures BufferOk(t, b) { assert BufferOk(s, b); }
    }
  }

  lemma {:induction false} RunKeepsInv(s: State, run: seq<Event>)
    requires Inv(s) && Feasible(s, run)
    ensures Inv(After(s, run))
    decreases |run|
  {
    if run != [] {
      StepKeepsInv(s, run[0]);
      RunKeepsInv(Step(s, run[0]), run[1..]);
    }
  }

  // ----- every run

  /** Place `k` of buffer `b` holds a row with the id of span `h`. */
  ghost predicate RowAt(s: State, h: nat, b: nat, k: nat) {
    h < |s.spans| && b < |s.buffers| && k < |s.buffers[b]| && s.buffers[b][k].id == s.spans[h].id
  }

  lemma {:induction false} RowAtIsItsOwn(s: State, h: nat, b: nat, k: nat)
    requires Inv(s) && RowAt(s, h, b, k)
    ensures b < |s.ended| && k < |s.ended[b]| && s.ended[b][k] == h
    ensures b == s.spans[h].buffer && !s.spans[h].open
  {
    assert BufferOk(s, b);
    var g := s.ended[b][k];
    assert s.spans[g].id == s.spans[h].id;
  }

  ghost predicate OneRow(s: State, h: nat) {
    h < |s.spans| &&
    if s.spans[h].open then forall b: nat, k: nat :: !RowAt(s, h, b, k)
    else
      exists k: nat :: RowAt(s, h, s.spans[h].buffer, k)
        && s.buffers[s.spans[h].buffer][k] == RowOf(s.spans, h)
        && forall c: nat, j: nat :: RowAt(s, h, c, j) ==> c == s.spans[h].buffer && j == k
  }

  lemma {:induction false} InvGivesOneRow(s: State, h: nat)
    requires Inv(s) && h < |s.spans|
    ensures OneRow(s, h)
  {
    hide RowOf;
    assert SpanOk(s, h);
    forall b: nat, k: nat | RowAt(s, h, b, k)
      ensures b < |s.ended| && k < |s.ended[b]| && s.ended[b][k] == h
      ensures b == s.spans[h].buffer && !s.spans[h].open
    {
      RowAtIsItsOwn(s, h, b, k);
    }
    if !s.spans[h].open {
      var b := s.spans[h].buffer;
      assert BufferOk(s, b);
      var k: nat :| k < |s.ended[b]| && s.ended[b][k] == h;
      RowHasItsId(s.spans, h);
      assert RowAt(s, h, b, k);
      forall c: nat, j: nat | RowAt(s, h, c, j)
        ensures c == b && j == k
      {
        assert s.ended[b][j] == s.ended[b][k];
      }
    }
  }

  lemma {:induction false} RowHasItsId(spans: seq<Span>, h: nat)
    requires h < |spans|
    ensures RowOf(spans, h).id == spans[h].id
  {
  }

  lemma {:induction false} Reached(run: seq<Event>, s: State)
    requires Feasible(START, run) && s == After(START, run)
    ensures Inv(s)
  {
    StartInv();
    hide Inv;
    RunKeepsInv(START, run);
  }

  lemma {:induction false} StartInv()
    ensures Inv(START)
  {
    hide SpanOk, BufferOk, WritesOk;
    assert |START.spans| == |START.buffers| == 0;
    assert WritesOk(START) by {
      NothingWritten();
    }
  }

  lemma {:induction false} NothingWritten()
    ensures WritesOk(START)
  {
  }

  /** A span has no row while it is open, and one, at one place, once it has ended. */
  lemma {:induction false} OneRowPerSpan(run: seq<Event>, s: State, h: nat)
    requires Feasible(START, run) && s == After(START, run) && h < |s.spans|
    ensures OneRow(s, h)
  {
    Reached(run, s);
    InvGivesOneRow(s, h);
  }

  /** A row carries the trace of its parent's row. */
  lemma {:induction false} TraceOfParent(run: seq<Event>, s: State, h: nat)
    requires Feasible(START, run) && s == After(START, run) && h < |s.spans|
    requires s.spans[h].parent.Some?
    ensures s.spans[h].parent.value < h
    ensures RowOf(s.spans, h).trace == RowOf(s.spans, s.spans[h].parent.value).trace
    ensures RowOf(s.spans, h).parentId == Some(RowOf(s.spans, s.spans[h].parent.value).id)
  {
    hide After, Feasible;
    Reached(run, s);
    assert SpanOk(s, h);
  }

  /** A written buffer is the rows of one outermost span and of all that was opened inside it. */
  ghost predicate WholeTree(s: State, b: nat, rows: seq<Row>) {
    && b < |s.ended| && |s.ended[b]| == |rows|
    && (forall h :: 0 <= h < |s.spans| && s.spans[h].buffer == b ==>
          !s.spans[h].open && h in s.ended[b])
    && (forall a :: 0 <= a < |rows| ==>
          s.ended[b][a] < |s.spans| && s.spans[s.ended[b][a]].buffer == b
          && rows[a] == RowOf(s.spans, s.ended[b][a]))
    && (forall a, c :: 0 <= a < c < |rows| ==> s.ended[b][a] != s.ended[b][c])
  }

  /** Each outermost span that has ended made exactly one write, of precisely the rows of its tree;
      there is no other write. */
  lemma {:induction false} OneWritePerOutermost(run: seq<Event>, s: State)
    requires Feasible(START, run) && s == After(START, run)
    ensures |s.writes| == |s.written|
    ensures forall k :: 0 <= k < |s.writes| ==> WholeTree(s, s.written[k], s.writes[k])
    ensures forall j, k :: 0 <= j < k < |s.writes| ==> s.written[j] != s.written[k]
    ensures forall h :: 0 <= h < |s.spans| && s.spans[h].under.None? ==>
              (!s.spans[h].open <==> s.spans[h].buffer in s.written)
  {
    hide WholeTree, After, Feasible;
    Reached(run, s);
    forall k | 0 <= k < |s.writes|
      ensures WholeTree(s, s.written[k], s.writes[k])
    {
      WrittenIsWhole(s, k);
    }
    forall h | 0 <= h < |s.spans| && s.spans[h].under.None?
      ensures !s.spans[h].open <==> s.spans[h].buffer in s.written
    {
      RootWritten(s, h);
    }
  }

  lemma {:induction false} RootWritten(s: State, h: nat)
    requires Inv(s) && h < |s.spans| && s.spans[h].under.None?
    ensures !s.spans[h].open <==> s.spans[h].buffer in s.written
  {
    assert SpanOk(s, h);
  }

  lemma {:induction false} WrittenIsWhole(s: State, k: nat)
    requires Inv(s) && k < |s.writes|
    ensures WholeTree(s, s.written[k], s.writes[k])
  {
    hide RowOf;
    var b := s.written[k];
    assert BufferOk(s, b);
    forall h | 0 <= h < |s.spans| && s.spans[h].buffer == b
      ensures !s.spans[h].open && h in s.ended[b]
    {
      assert SpanOk(s, h);
    }
  }

  lemma {:induction false} StepKeepsOrigins(s: State, e: Event, h: nat)
    requires Enabled(s, e) && h < |s.spans|
    ensures |s.spans| <= |Step(s, e).spans|
    ensures SameOrigins(s.spans[h], Step(s, e).spans[h])
    ensures Step(s, e).spans[h].open ==>
              Step(s, e).spans[h].status == if e == Mark(h) then ERROR else s.spans[h].status
  {
    hide RowOf;
  }

  /** What was decided when a span was opened stays as it was. */
  lemma {:induction false} OriginsStay(s: State, run: seq<Event>, h: nat)
    requires Feasible(s, run) && h < |s.spans|
    ensures h < |After(s, run).spans|
    ensures SameOrigins(s.spans[h], After(s, run).spans[h])
    decreases |run|
  {
    hide Step, Enabled;
    if run != [] {
      StepKeepsOrigins(s, run[0], h);
      OriginsStay(Step(s, run[0]), run[1..], h);
    }
  }

  /** The code of the block called the span failed. */
  ghost predicate Marked(run: seq<Event>, h: nat) {
    exists i :: 0 <= i < |run| && run[i] == Mark(h)
  }

  /** While a span is open its status is `error` exactly when its block said so. */
  lemma {:induction false} StatusWhileOpen(s: State, run: seq<Event>, h: nat)
    requires Feasible(s, run) && h < |s.spans| && h < |After(s, run).spans|
    requires After(s, run).spans[h].open
    ensures After(s, run).spans[h].status == if Marked(run, h) then ERROR else s.spans[h].status
    decreases |run|
  {
    hide Step, Enabled;
    if run != [] {
      StepKeepsOrigins(s, run[0], h);
      OriginsStay(Step(s, run[0]), run[1..], h);
      StatusWhileOpen(Step(s, run[0]), run[1..], h);
      if i :| 0 <= i < |run| && run[i] == Mark(h) {
        assert i > 0 ==> run[1..][i - 1] == Mark(h);
      }
      if i :| 0 <= i < |run[1..]| && run[1..][i] == Mark(h) {
        assert run[i + 1] == Mark(h);
      }
    }
  }

  /** Whatever happens between them, the end of a span puts back the current span its context had
      when it was opened, and its status is `error` exactly when an exception left it or its own block
      called it failed. */
  lemma {:induction false} ExitRestoresCurrent(before: seq<Event>, s: State, enter: Event, during: seq<Event>, t: State, exit: Event)
    requires Feasible(START, before) && s == After(START, before)
    requires enter.Enter? && Enabled(s, enter)
    requires Feasible(Step(s, enter), during) && t == After(Step(s, enter), during)
    requires exit.Exit? && Enabled(t, exit) && t.current[exit.task] == |s.spans|
    ensures exit.task == enter.task
    ensures Current(Step(t, exit), exit.task) == Current(s, exit.task)
    ensures |s.spans| < |Step(t, exit).spans|
    ensures Step(t, exit).spans[|s.spans|].status == ERROR <==>
            exit.error.Some? || Marked(during, |s.spans|)
  {
    hide RowOf, BufferOk, WritesOk, After, Feasible;
    var h := |s.spans|;
    OriginsStay(Step(s, enter), during, h);
    StatusWhileOpen(Step(s, enter), during, h);
    Reached(before, s);
    StepKeepsInv(s, enter);
    RunKeepsInv(Step(s, enter), during);
    assert SpanOk(t, h);
  }

  // ----- what a row says

  /** Every span has all four links, set or not. */
  ghost predicate LinksComplete(s: State) {
    forall h, k: Link :: 0 <= h < |s.spans| ==> k in s.spans[h].links
  }

  /** The span an `Enter` is a child of: the explicit parent, or else the current span. */
  function ParentOf(s: State, e: Event): Option<nat>
    requires e.Enter?
  {
    if e.explicit.Some? then e.explicit else Current(s, e.task)
  }

  /** A child takes over process, rule and norm rule, and no instance. */
  lemma {:induction false} WhatBelongs(parent: Links)
    ensures forall k: Link ::
              k in Belongs(parent) && k in NO_LINKS && NO_LINKS[k] == None
              && Belongs(parent)[k] == if k in parent && k != INSTANCE then parent[k] else None
  {
    forall k: Link
      ensures k in Belongs(parent) && k in NO_LINKS && NO_LINKS[k] == None
      ensures Belongs(parent)[k] == if k in parent && k != INSTANCE then parent[k] else None
    {
      match k {
        case INSTANCE =>
        case PROCESS =>
        case RULE =>
        case NORM_RULE =>
      }
    }
  }

  lemma {:induction false} StepKeepsLinks(s: State, e: Event)
    requires LinksComplete(s) && Inv(s) && Enabled(s, e)
    ensures LinksComplete(Step(s, e))
  {
    hide RowOf;
    forall h, k: Link | 0 <= h < |Step(s, e).spans|
      ensures k in Step(s, e).spans[h].links
    {
      if h < |s.spans| {
        assert k in s.spans[h].links;
      } else {
        WhatBelongs(Opened(s, e).links);
        if ParentOf(s, e).Some? {
          WhatBelongs(s.spans[ParentOf(s, e).value].links);
        }
      }
    }
  }

  lemma {:induction false} RunKeepsLinks(s: State, run: seq<Event>)
    requires LinksComplete(s) && Inv(s) && Feasible(s, run)
    ensures LinksComplete(After(s, run))
    decreases |run|
  {
    hide Inv, LinksComplete, Step, Enabled;
    if run != [] {
      StepKeepsInv(s, run[0]);
      StepKeepsLinks(s, run[0]);
      RunKeepsLinks(Step(s, run[0]), run[1..]);
    }
  }

  /** A new span: step and id as given, trace and process, rule and norm rule of its parent, or a trace
      of its own; over these links, and as its data, the values it was given. */
  lemma {:induction false} OpenedAs(before: seq<Event>, s: State, enter: Event)
    requires Feasible(START, before) && s == After(START, before)
    requires enter.Enter? && Enabled(s, enter)
    ensures |Step(s, enter).spans| == |s.spans| + 1
    ensures forall g :: 0 <= g < |s.spans| ==> Step(s, enter).spans[g] == s.spans[g]
    ensures var parent := ParentOf(s, enter);
            var span := Step(s, enter).spans[|s.spans|];
            && (parent.Some? ==> parent.value < |s.spans|)
            && span.step == enter.step && span.id == enter.spanId && span.parent == parent
            && span.trace == (if parent.Some? then s.spans[parent.value].trace else enter.traceId)
            && span.data == enter.values.data && span.status == OK && span.open
            && forall k: Link ::
                 && k in span.links
                 && (parent.Some? ==> k in s.spans[parent.value].links)
                 && span.links[k] == if k in enter.values.links then enter.values.links[k]
                                     else if parent.Some? && k != INSTANCE
                                     then s.spans[parent.value].links[k]
                                     else None
  {
    hide RowOf, After, Feasible;
    Reached(before, s);
    NoLinksMissing();
    RunKeepsLinks(START, before);
    var parent := ParentOf(s, enter);
    assert map[] + enter.values.data == enter.values.data;
    WhatBelongs(if parent.Some? then s.spans[parent.value].links else NO_LINKS);
  }

  lemma {:induction false} NoLinksMissing()
    ensures Inv(START) && LinksComplete(START)
  {
    StartInv();
    hide Inv;
  }

  /** The message of an exception in the data of its span's row: its first thousand characters. */
  predicate SaysError(row: Row, message: string) {
    && row.data.Some? && "error" in row.data.value
    && row.data.value["error"] == if |message| <= 1000 then message else message[..1000]
  }

  /** What closing a span adds to its list: one row, with the step, id, trace and parent it was opened
      with, the status `error` exactly when an exception left it or its block called it failed, and the
      exception's message. */
  lemma {:induction false} RowOnExit(before: seq<Event>, s: State, enter: Event, during: seq<Event>, t: State, exit: Event)
    requires Feasible(START, before) && s == After(START, before)
    requires enter.Enter? && Enabled(s, enter)
    requires Feasible(Step(s, enter), during) && t == After(Step(s, enter), during)
    requires exit.Exit? && Enabled(t, exit) && t.current[exit.task] == |s.spans|
    ensures var parent := ParentOf(s, enter);
            && (parent.Some? ==> parent.value < |s.spans|)
            && |s.spans| < |t.spans|
            && var b := t.spans[|s.spans|].buffer;
               b < |t.buffers| == |Step(t, exit).buffers|
               && exists row ::
                    && Step(t, exit).buffers == t.buffers[b := t.buffers[b] + [row]]
                    && row.step == enter.step && row.id == enter.spanId
                    && row.trace == (if parent.Some? then s.spans[parent.value].trace else enter.traceId)
                    && row.parentId == (if parent.Some? then Some(s.spans[parent.value].id) else None)
                    && (row.status == ERROR <==> exit.error.Some? || Marked(during, |s.spans|))
                    && (exit.error.Some? ==> SaysError(row, exit.error.value))
  {
    hide After, Feasible, BufferOk, WritesOk, Inv;
    var h, next := |s.spans|, Step(s, enter);
    OpenedAs(before, s, enter);
    OriginsStay(next, during, h);
    StatusWhileOpen(next, during, h);
    var parent := ParentOf(s, enter);
    if parent.Some? {
      StepKeepsOrigins(s, enter, parent.value);
      OriginsStay(next, during, parent.value);
    }
    RowOfEnded(t, exit, h);
  }

  /** The row a span gives once it has ended. */
  lemma {:induction false} RowOfEnded(t: State, exit: Event, h: nat)
    requires exit.Exit? && Enabled(t, exit) && t.current[exit.task] == h
    requires t.spans[h].parent.Some? ==> t.spans[h].parent.value < h
    ensures |Step(t, exit).spans| == |t.spans|
    ensures forall g :: 0 <= g < |t.spans| && g != h ==> Step(t, exit).spans[g] == t.spans[g]
    ensures var b := t.spans[h].buffer;
            exists row ::
              && Step(t, exit).buffers == t.buffers[b := t.buffers[b] + [row]]
              && row.step == t.spans[h].step && row.id == t.spans[h].id && row.trace == t.spans[h].trace
              && row.parentId == (if t.spans[h].parent.Some?
                                  then Some(t.spans[t.spans[h].parent.value].id) else None)
              && row.status == (if exit.error.Some? then ERROR else t.spans[h].status)
              && (exit.error.Some? ==> SaysError(row, exit.error.value))
              && row.links == t.spans[h].links
              && (exit.error.None? ==>
                    row.data == if t.spans[h].data == map[] then None else Some(t.spans[h].data))
  {
    var row := RowOf(Step(t, exit).spans, h);
    var data := Step(t, exit).spans[h].data;
    assert exit.error.Some? ==> "error" in data;
  }

  /** `run` gives span `h` no other value for the name `k`. */
  ghost predicate LeavesData(run: seq<Event>, h: nat, k: string) {
    k != "error" && forall i :: 0 <= i < |run| && run[i].Set? && run[i].span == h ==>
                      k !in run[i].values.data
  }

  ghost predicate LeavesLink(run: seq<Event>, h: nat, k: Link) {
    forall i :: 0 <= i < |run| && run[i].Set? && run[i].span == h ==> k !in run[i].values.links
  }

  lemma {:induction false} StepLeavesValues(s: State, e: Event, h: nat)
    requires Enabled(s, e) && h < |s.spans|
    ensures h < |Step(s, e).spans|
    ensures forall k :: k in s.spans[h].data && LeavesData([e], h, k) ==>
              k in Step(s, e).spans[h].data && Step(s, e).spans[h].data[k] == s.spans[h].data[k]
    ensures forall k :: k in s.spans[h].links && LeavesLink([e], h, k) ==>
              k in Step(s, e).spans[h].links && Step(s, e).spans[h].links[k] == s.spans[h].links[k]
  {
    hide RowOf;
    assert [e][0] == e;
  }

  lemma {:induction false} LeavesParts(run: seq<Event>, h: nat)
    requires run != []
    ensures forall k :: LeavesData(run, h, k) ==> LeavesData([run[0]], h, k) && LeavesData(run[1..], h, k)
    ensures forall k :: LeavesLink(run, h, k) ==> LeavesLink([run[0]], h, k) && LeavesLink(run[1..], h, k)
  {
    assert forall i :: 0 <= i < |run[1..]| ==> run[1..][i] == run[i + 1];
  }

  /** Data and links stay as they are until a value is given for their own name. */
  lemma {:induction false} ValuesStay(s: State, run: seq<Event>, h: nat)
    requires Feasible(s, run) && h < |s.spans| && h < |After(s, run).spans|
    ensures var was, now := s.spans[h], After(s, run).spans[h];
            && (forall k :: k in was.data && LeavesData(run, h, k) ==>
                  k in now.data && now.data[k] == was.data[k])
            && (forall k :: k in was.links && LeavesLink(run, h, k) ==>
                  k in now.links && now.links[k] == was.links[k])
    decreases |run|
  {
    hide Step, Enabled, LeavesData, LeavesLink;
    if run != [] {
      StepLeavesValues(s, run[0], h);
      LeavesParts(run, h);
      ValuesStay(Step(s, run[0]), run[1..], h);
    }
  }

  /** `set` changes the span it is called on and nothing else: it has the names it had and those given,
      each with the value given, or else the one it had. */
  lemma {:induction false} SetChanges(s: State, h: nat, values: Values)
    requires Enabled(s, Set(h, values))
    ensures var t := Step(s, Set(h, values));
            && |t.spans| == |s.spans|
            && t == s.(spans := s.spans[h := s.spans[h].(links := t.spans[h].links, data := t.spans[h].data)])
            && (forall k :: k in t.spans[h].data <==> k in s.spans[h].data || k in values.data)
            && (forall k :: k in t.spans[h].data ==>
                  t.spans[h].data[k] == if k in values.data then values.data[k] else s.spans[h].data[k])
            && (forall k :: k in t.spans[h].links <==> k in s.spans[h].links || k in values.links)
            && (forall k :: k in t.spans[h].links ==>
                  t.spans[h].links[k] == if k in values.links then values.links[k] else s.spans[h].links[k])
  {
  }

  lemma {:induction false} MarkChanges(s: State, h: nat)
    requires Enabled(s, Mark(h))
    ensures Step(s, Mark(h)) == s.(spans := s.spans[h := s.spans[h].(status := ERROR)])
  {
  }

  /** What `set` gave a span last for a name is in its row. */
  lemma {:induction false} LastValueIsInTheRow(s: State, h: nat, values: Values, run: seq<Event>, t: State)
    requires Enabled(s, Set(h, values))
    requires Feasible(Step(s, Set(h, values)), run) && t == After(Step(s, Set(h, values)), run)
    ensures h < |t.spans|
    ensures forall k :: k in values.data && LeavesData(run, h, k) ==>
              var data := RowOf(t.spans, h).data;
              data.Some? && k in data.value && data.value[k] == values.data[k]
    ensures forall k :: k in values.links && LeavesLink(run, h, k) ==>
              k in RowOf(t.spans, h).links && RowOf(t.spans, h).links[k] == values.links[k]
  {
    var next := Step(s, Set(h, values));
    OriginsStay(next, run, h);
    ValuesStay(next, run, h);
  }
}

/**
 The end of a trace, `_write` in `backend/app/core/events.py`: one insert in a transaction of its own,
 whose failure the caller does not see, and no insert for half a minute after an operational failure.
 */
module Breaker {
  import opened Text
  import Spans

  const RETRY_AFTER_S := 30.0

  /**
   What the database library raises. Operational is its OperationalError: a database that cannot be
   reached, and also a connection lost half-way, a deadlock, a cancelled statement. Other is any other
   Exception. Interrupt is a BaseException that is none, which `_write` does not catch.
   */
  datatype Failure = OPERATIONAL | OTHER | INTERRUPT

  /** Where in the `begin()` block the failure strikes. */
  datatype Point = CONNECTING | ROW(k: nat) | COMMITTING

  datatype Fault = Fault(point: Point, failure: Failure)

  /** One call: when it looks at the clock, what goes wrong, and when its outcome is known. */
  datatype Call = Call(rows: seq<Spans.Row>, start: real, fault: Option<Fault>, end: real) {
    predicate FailsAt(point: Point) {
      fault.Some? && fault.value.point == point
    }

    /** Nothing goes wrong in a place the block gets to. */
    predicate Completes() {
      fault.None? || (fault.value.point.ROW? && fault.value.point.k >= |rows|)
    }

    predicate FailsWith(failure: Failure) {
      !Completes() && fault.value.failure == failure
    }
  }

  datatype State = State(unreachableUntil: real, table: seq<Spans.Row>)

  const START := State(0.0, [])

  predicate Attempts(s: State, call: Call) {
    call.start >= s.unreachableUntil
  }

  function Step(s: State, call: Call): State {
    if !Attempts(s, call) then s
    else
      State(if call.FailsWith(OPERATIONAL) then call.end + RETRY_AFTER_S else s.unreachableUntil,
            if call.Completes() then s.table + call.rows else s.table)
  }

  class Writer {
    var unreachableUntil: real
    var table: seq<Spans.Row>  // what the table holds, rows of an unfinished transaction included

    ghost function View(): State
      reads this
    {
      State(unreachableUntil, table)
    }

    constructor ()
      ensures View() == START
    {
      unreachableUntil, table := 0.0, [];
    }

    /** The `begin()` block: the rows go in one by one, and a failure anywhere takes out again those
        that went in. */
    method InTransaction(call: Call) returns (failure: Option<Failure>)
      modifies this`table
      ensures failure == if call.Completes() then None else Some(call.fault.value.failure)
      ensures table == if failure.None? then old(table) + call.rows else old(table)
    {
      if call.FailsAt(CONNECTING) {
        return Some(call.fault.value.failure);
      }
      var mark := |table|;
      for k := 0 to |call.rows|
        invariant table == old(table) + call.rows[..k]
        invariant call.fault.Some? && call.fault.value.point.ROW? ==> call.fault.value.point.k >= k
      {
        if call.FailsAt(ROW(k)) {
          table := table[..mark];
          return Some(call.fault.value.failure);
        }
        table := table + [call.rows[k]];
      }
      if call.FailsAt(COMMITTING) {
        table := table[..mark];
        return Some(call.fault.value.failure);
      }
      return None;
    }

    /** `_write`: while the breaker is open nothing happens; otherwise the table gains the whole batch
        or nothing, only an operational failure opens the breaker, and only an interrupt gets out. */
    method Write(call: Call) returns (raised: bool)
      modifies this
      ensures View() == Step(old(View()), call)
      ensures call.start < old(unreachableUntil) ==>
                table == old(table) && unreachableUntil == old(unreachableUntil) && !raised
      ensures table == if call.start >= old(unreachableUntil) && call.Completes()
                       then old(table) + call.rows else old(table)
      ensures unreachableUntil
           == if call.start >= old(unreachableUntil) && call.FailsWith(OPERATIONAL) then call.end + 30.0
              else old(unreachableUntil)
      ensures raised <==> call.start >= old(unreachableUntil) && call.FailsWith(INTERRUPT)
    {
      raised := false;
      if call.start < unreachableUntil {
        return;
      }
      var failure := InTransaction(call);
      if failure == Some(OPERATIONAL) {
        unreachableUntil := call.end + RETRY_AFTER_S;
      } else if failure == Some(INTERRUPT) {
        raised := true;
      }
    }
  }

  // ----- every run

  /** The state before call `k`. */
  function Before(run: seq<Call>, k: nat): State
    requires k <= |run|
  {
    if k == 0 then START else Step(Before(run, k - 1), run[k - 1])
  }

  predicate Attempted(run: seq<Call>, k: nat) {
    k < |run| && Attempts(Before(run, k), run[k])
  }

  predicate OpenedBreaker(run: seq<Call>, k: nat) {
    Attempted(run, k) && run[k].FailsWith(OPERATIONAL)
  }

  /** The clock never goes back, neither within a call nor from one to the next. */
  predicate InTime(run: seq<Call>) {
    && (forall k :: 0 <= k < |run| ==> 0.0 <= run[k].start <= run[k].end)
    && (forall j, k :: 0 <= j < k < |run| ==> run[j].end <= run[k].start)
  }

  /** An operational failure less than half a minute ago. */
  predicate JustUnreachable(run: seq<Call>, k: nat) {
    k < |run| &&
    exists j :: 0 <= j < k && OpenedBreaker(run, j) && run[k].start < run[j].end + 30.0
  }

  /** The breaker opens at operational failures only, and stays open until the latest of them is
      half a minute old. */
  lemma {:induction false} OpenUntil(run: seq<Call>, k: nat)
    requires k <= |run| && InTime(run)
    ensures forall j :: 0 <= j < k && OpenedBreaker(run, j) ==>
              run[j].end + RETRY_AFTER_S <= Before(run, k).unreachableUntil
    ensures Before(run, k).unreachableUntil == 0.0
            || exists j :: 0 <= j < k && OpenedBreaker(run, j)
                 && Before(run, k).unreachableUntil == run[j].end + RETRY_AFTER_S
  {
    if k > 0 {
      OpenUntil(run, k - 1);
      if OpenedBreaker(run, k - 1) {
        assert Before(run, k).unreachableUntil == run[k - 1].end + RETRY_AFTER_S;
      }
    }
  }

  /** In every run, an insert is attempted exactly when none failed operationally in the half minute
      before: neither within 30 s of such a failure, nor ever dropped for another reason. */
  lemma {:induction false} AttemptedUnlessJustUnreachable(run: seq<Call>, k: nat)
    requires InTime(run) && k < |run|
    ensures Attempted(run, k) <==> !JustUnreachable(run, k)
  {
    OpenUntil(run, k);
  }

  /** The batches among the first `k` that neither failed nor came too soon after a failure. */
  function Kept(run: seq<Call>, k: nat): seq<Spans.Row>
    requires k <= |run|
  {
    if k == 0 then []
    else
      Kept(run, k - 1)
      + if run[k - 1].Completes() && !JustUnreachable(run, k - 1) then run[k - 1].rows else []
  }

  /** A batch is missing from the table for one of two reasons: its own insert failed, or it came
      within half a minute of an operational failure. All others are there, in order. */
  lemma {:induction false} TableIsWhatWasKept(run: seq<Call>, k: nat)
    requires InTime(run) && k <= |run|
    ensures Before(run, k).table == Kept(run, k)
  {
    hide JustUnreachable;
    if k > 0 {
      TableIsWhatWasKept(run, k - 1);
      AttemptedUnlessJustUnreachable(run, k - 1);
    }
  }
}

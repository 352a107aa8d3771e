/**
 The upload pool of `frontend/src/api/live.ts`: a few workers share `next` and `done` and interleave
 at their awaits. Between two awaits a worker runs alone, so one step of the machine is everything
 from the answer a worker waited for to the next request it sends.
 */
module UploadPool {
  import opened Text

  const UPLOAD_CONCURRENCY := 4

  datatype Status = PENDING | OTHER(name: string)

  /** `DocumentUpload`, the server's answer to an upload or an extraction. */
  datatype Answer = Answer(created: bool, status: Status, instance: int, name: string)

  datatype Progress = Progress(done: nat, total: nat, name: string, status: Status)

  /** What a worker waits for. A failed request leaves the worker rejected, holding its file. */
  datatype Worker =
    | Idle
    | Uploading(index: nat)
    | Extracting(index: nat, first: Answer)
    | Failed(index: nat)
    | Finished
  {
    predicate Waits() {
      Uploading? || Extracting?
    }

    predicate Holds() {
      Uploading? || Extracting? || Failed?
    }
  }

  /** The requests and answers of the run, in order, by file. */
  datatype Entry =
    | Sent(index: nat)
    | Answered(index: nat, answer: Answer)
    | SentAgain(index: nat, instance: int)
    | AnsweredAgain(index: nat, answer: Answer)
    | Lost(index: nat)

  datatype State = State(
    next: nat,
    done: nat,
    results: seq<Option<Answer>>,
    reports: seq<Progress>,
    workers: seq<Worker>,
    journal: seq<Entry>,
    order: seq<nat>)  // the files, in the order they were settled

  datatype Event =
    | Uploaded(w: nat, answer: Answer)
    | Extracted(w: nat, answer: Answer)
    | Fails(w: nat)

  /** Whether the worker asks for a second reading: the file was known and is not decided yet. */
  predicate ReadAgain(answer: Answer) {
    !answer.created && answer.status == PENDING
  }

  function PoolSize(n: nat): nat {
    if n < UPLOAD_CONCURRENCY then n else UPLOAD_CONCURRENCY
  }

  // ----- the steps

  /** The head of the worker's loop: claim the next file and send it, or finish. */
  function Claim(s: State, w: nat): State
    requires w < |s.workers|
  {
    if s.next < |s.results| then
      s.(next := s.next + 1,
         workers := s.workers[w := Uploading(s.next)],
         journal := s.journal + [Sent(s.next)])
    else s.(workers := s.workers[w := Finished])
  }

  /** The tail of the loop: the answer is the file's result, and is reported. */
  function Settle(s: State, w: nat, answer: Answer): State
    requires w < |s.workers| && s.workers[w].Waits() && s.workers[w].index < |s.results|
  {
    var i := s.workers[w].index;
    s.(results := s.results[i := Some(answer)],
       done := s.done + 1,
       reports := s.reports + [Progress(s.done + 1, |s.results|, answer.name, answer.status)],
       workers := s.workers[w := Idle],
       journal := s.journal
                  + [if s.workers[w].Uploading? then Answered(i, answer) else AnsweredAgain(i, answer)],
       order := s.order + [i])
  }

  predicate Enabled(s: State, e: Event) {
    && e.w < |s.workers|
    && s.workers[e.w].Waits()
    && s.workers[e.w].index < |s.results|
    && match e
       case Uploaded(w, _) => s.workers[w].Uploading?
       case Extracted(w, _) => s.workers[w].Extracting?
       case Fails(_) => true
  }

  function Step(s: State, e: Event): State
    requires Enabled(s, e)
  {
    var i := s.workers[e.w].index;
    match e
    case Uploaded(w, answer) =>
      if ReadAgain(answer) then
        s.(workers := s.workers[w := Extracting(i, answer)],
           journal := s.journal + [Answered(i, answer), SentAgain(i, answer.instance)])
      else Claim(Settle(s, w, answer), w)
    case Extracted(w, answer) => Claim(Settle(s, w, answer), w)
    case Fails(w) =>
      s.(workers := s.workers[w := Failed(i)], journal := s.journal + [Lost(i)])
  }

  function Blank(n: nat): State {
    State(0, 0, seq(n, _ => None), [], seq(PoolSize(n), _ => Idle), [], [])
  }

  /** The workers are started one after the other; each runs up to its first await. */
  function Started(n: nat, k: nat): (s: State)
    requires k <= PoolSize(n)
    ensures |s.workers| == PoolSize(n)
  {
    if k == 0 then Blank(n) else Claim(Started(n, k - 1), k - 1)
  }

  function Initial(n: nat): State {
    Started(n, PoolSize(n))
  }

  predicate Feasible(s: State, run: seq<Event>)
    decreases |run|
  {
    run == [] || (Enabled(s, run[0]) && Feasible(Step(s, run[0]), run[1..]))
  }

  /** The state an interleaving of answers and failures leads to. */
  function After(s: State, run: seq<Event>): State
    requires Feasible(s, run)
    decreases |run|
  {
    if run == [] then s else After(Step(s, run[0]), run[1..])
  }

  // ----- the pool as the code keeps it: three shared variables and the workers

  class Pool {
    var next: nat
    var done: nat
    var results: seq<Option<Answer>>
    var reports: seq<Progress>
    var workers: seq<Worker>
    ghost var journal: seq<Entry>
    ghost var order: seq<nat>

    ghost function View(): State
      reads this
    {
      State(next, done, results, reports, workers, journal, order)
    }

    constructor (n: nat)
      ensures View() == Initial(n)
    {
      next, done := 0, 0;
      results, reports := seq(n, _ => None), [];
      workers := seq(PoolSize(n), _ => Idle);
      journal, order := [], [];
      new;
      assert View() == Blank(n);
      for k := 0 to PoolSize(n)
        invariant View() == Started(n, k)
      {
        ClaimNext(k);
      }
    }

    method ClaimNext(w: nat)
      requires w < |workers|
      modifies this
      ensures View() == Claim(old(View()), w)
    {
      if next < |results| {
        var index := next;
        next := next + 1;
        workers := workers[w := Uploading(index)];
        journal := journal + [Sent(index)];
      } else {
        workers := workers[w := Finished];
      }
    }

    method Record(w: nat, answer: Answer)
      requires w < |workers| && workers[w].Waits() && workers[w].index < |results|
      modifies this
      ensures View() == Settle(old(View()), w, answer)
    {
      var index := workers[w].index;
      journal := journal + [if workers[w].Uploading? then Answered(index, answer)
                            else AnsweredAgain(index, answer)];
      order := order + [index];
      results := results[index := Some(answer)];
      done := done + 1;
      reports := reports + [Progress(done, |results|, answer.name, answer.status)];
      workers := workers[w := Idle];
    }

    method OnEvent(e: Event)
      requires Enabled(View(), e)
      modifies this
      ensures View() == Step(old(View()), e)
    {
      var index := workers[e.w].index;
      match e {
        case Uploaded(w, answer) =>
          if ReadAgain(answer) {
            workers := workers[w := Extracting(index, answer)];
            journal := journal + [Answered(index, answer), SentAgain(index, answer.instance)];
          } else {
            Record(w, answer);
            ClaimNext(w);
          }
        case Extracted(w, answer) =>
          Record(w, answer);
          ClaimNext(w);
        case Fails(w) =>
          workers := workers[w := Failed(index)];
          journal := journal + [Lost(index)];
      }
    }
  }

  // ----- the invariant

  /** The part of the journal about one file. */
  function StoryOf(journal: seq<Entry>, i: nat): seq<Entry> {
    if journal == [] then []
    else
      var last := journal[|journal| - 1];
      StoryOf(journal[..|journal| - 1], i) + if last.index == i then [last] else []
  }

  lemma {:induction false} StoryGrows(journal: seq<Entry>, e: Entry, i: nat)
    ensures StoryOf(journal + [e], i) == StoryOf(journal, i) + if e.index == i then [e] else []
  {
    assert (journal + [e])[..|journal|] == journal;
  }

  /** Everything that happened to a file whose result is `result`: one upload, and one extraction
      exactly when the upload found a pending instance it had not created. */
  ghost predicate SettledStory(story: seq<Entry>, i: nat, result: Answer) {
    || (story == [Sent(i), Answered(i, result)] && !ReadAgain(result))
    || (exists first ::
          story == [Sent(i), Answered(i, first), SentAgain(i, first.instance), AnsweredAgain(i, result)]
          && ReadAgain(first))
  }

  predicate HeldStory(worker: Worker, story: seq<Entry>) {
    var i := if worker.Holds() then worker.index else 0;
    match worker
    case Idle => true
    case Finished => true
    case Uploading(_) => story == [Sent(i)]
    case Extracting(_, first) =>
      ReadAgain(first) && story == [Sent(i), Answered(i, first), SentAgain(i, first.instance)]
    case Failed(_) =>
      || story == [Sent(i), Lost(i)]
      || (|story| == 4 && story[1].Answered? && ReadAgain(story[1].answer)
          && story == [Sent(i), Answered(i, story[1].answer),
                       SentAgain(i, story[1].answer.instance), Lost(i)])
  }

  ghost predicate HeldBySomeone(s: State, i: nat) {
    exists w :: 0 <= w < |s.workers| && s.workers[w].Holds() && s.workers[w].index == i
  }

  function Holding(workers: seq<Worker>): nat {
    if workers == [] then 0
    else Holding(workers[..|workers| - 1]) + if workers[|workers| - 1].Holds() then 1 else 0
  }

  lemma {:induction false} HoldingUpdate(workers: seq<Worker>, w: nat, worker: Worker)
    requires w < |workers|
    ensures Holding(workers[w := worker])
         == Holding(workers) - (if workers[w].Holds() then 1 else 0) + if worker.Holds() then 1 else 0
  {
    var last := |workers| - 1;
    if w == last {
      assert workers[w := worker][..last] == workers[..last];
    } else {
      HoldingUpdate(workers[..last], w, worker);
      assert workers[w := worker][..last] == workers[..last][w := worker];
    }
  }

  predicate Sized(n: nat, s: State) {
    |s.results| == n && |s.workers| == PoolSize(n) && s.next <= n
  }

  /** A held file was claimed, has no result, and has the story its worker tells. */
  ghost predicate WorkerOk(s: State, w: nat) {
    && w < |s.workers|
    && (s.workers[w].Holds() ==>
          var i := s.workers[w].index;
          i < s.next && i < |s.results| && s.results[i].None?
          && HeldStory(s.workers[w], StoryOf(s.journal, i)))
    && (s.workers[w].Finished? ==> s.next == |s.results|)
  }

  ghost predicate Apart(s: State, v: nat, w: nat)
    requires v < |s.workers| && w < |s.workers|
  {
    s.workers[v].Holds() && s.workers[w].Holds() ==> s.workers[v].index != s.workers[w].index
  }

  /** A claimed file is held, or has a result and the story of that result. */
  ghost predicate FileOk(s: State, i: nat) {
    && i < |s.results|
    && (s.results[i].Some? ==>
          i < s.next && SettledStory(StoryOf(s.journal, i), i, s.results[i].value))
    && (i < s.next && s.results[i].None? ==> HeldBySomeone(s, i))
  }

  /** The k-th report is about the k-th file settled. */
  ghost predicate ReportOk(s: State, k: nat) {
    && k < |s.order| && k < |s.reports|
    && s.order[k] < |s.results|
    && s.results[s.order[k]].Some?
    && var result := s.results[s.order[k]].value;
       s.reports[k] == Progress(k + 1, |s.results|, result.name, result.status)
  }

  ghost predicate FilesInv(s: State) {
    && (forall w :: 0 <= w < |s.workers| ==> WorkerOk(s, w))
    && (forall v, w :: 0 <= v < w < |s.workers| ==> Apart(s, v, w))
    && (forall i :: 0 <= i < |s.results| ==> FileOk(s, i))
    && (forall i: nat :: i >= s.next ==> StoryOf(s.journal, i) == [])
  }

  ghost predicate ReportsInv(s: State) {
    && |s.order| == |s.reports| == s.done
    && (forall a, b :: 0 <= a < b < |s.order| ==> s.order[a] != s.order[b])
    && (forall i :: 0 <= i < |s.results| && s.results[i].Some? ==> i in s.order)
    && (forall k :: 0 <= k < s.done ==> ReportOk(s, k))
  }

  ghost predicate Inv(n: nat, s: State) {
    && Sized(n, s)
    && s.done + Holding(s.workers) == s.next
    && FilesInv(s)
    && ReportsInv(s)
  }

  /** One worker moves on one file: the file it held, or the next one, whose story grows by `more`. */
  ghost predicate Moves(s: State, t: State, w: nat, mine: nat, more: seq<Entry>) {
    && w < |s.workers| == |t.workers| && mine < |s.results| == |t.results|
    && t.workers == s.workers[w := t.workers[w]]
    && t.results == s.results[mine := t.results[mine]]
    && s.results[mine].None?
    && (forall i: nat :: StoryOf(t.journal, i)
                      == StoryOf(s.journal, i) + if i == mine then more else [])
    && (if s.workers[w].Holds() then s.workers[w].index == mine && t.next == s.next
        else s.workers[w].Idle? && mine == s.next && t.next == s.next + 1)
    && (if t.workers[w].Holds() then
          t.workers[w].index == mine && t.results[mine].None?
          && HeldStory(t.workers[w], StoryOf(t.journal, mine))
        else
          t.workers[w].Idle? && t.results[mine].Some?
          && SettledStory(StoryOf(t.journal, mine), mine, t.results[mine].value))
  }

  lemma {:induction false} MoveKeepsFiles(s: State, t: State, w: nat, mine: nat, more: seq<Entry>)
    requires Moves(s, t, w, mine, more) && FilesInv(s)
    ensures FilesInv(t)
  {
    assert WorkerOk(s, w);
    forall v | 0 <= v < |s.workers| && v != w
      ensures !(s.workers[v].Holds() && s.workers[v].index == mine) && WorkerOk(t, v)
    {
      assert WorkerOk(s, v);
      assert if v < w then Apart(s, v, w) else Apart(s, w, v);
    }
    assert WorkerOk(t, w);
    forall u, v | 0 <= u < v < |s.workers|
      ensures Apart(t, u, v)
    {
      assert Apart(s, u, v);
    }
    forall i | 0 <= i < |s.results|
      ensures FileOk(t, i)
    {
      assert FileOk(s, i);
      if HeldBySomeone(s, i) && i != mine {
        var v :| 0 <= v < |s.workers| && s.workers[v].Holds() && s.workers[v].index == i;
        assert t.workers[v].Holds() && t.workers[v].index == i;
      } else if i == mine && t.workers[w].Holds() {
        assert HeldBySomeone(t, i);
      }
    }
  }

  lemma {:induction false} ClaimKeepsInv(n: nat, s: State, w: nat)
    requires Inv(n, s) && w < |s.workers| && s.workers[w] == Idle
    ensures Inv(n, Claim(s, w))
  {
    var t := Claim(s, w);
    HoldingUpdate(s.workers, w, t.workers[w]);
    if s.next < n {
      forall i: nat
        ensures StoryOf(t.journal, i) == StoryOf(s.journal, i) + if i == s.next then [Sent(i)] else []
      {
        StoryGrows(s.journal, Sent(s.next), i);
      }
      assert FileOk(s, s.next);
      MoveKeepsFiles(s, t, w, s.next, [Sent(s.next)]);
    } else {
      FinishKeepsFiles(s, t, w);
    }
    forall k | 0 <= k < t.done
      ensures ReportOk(t, k)
    {
      assert ReportOk(s, k);
    }
  }

  lemma {:induction false} FinishKeepsFiles(s: State, t: State, w: nat)
    requires w < |s.workers| && s.workers[w] == Idle && s.next == |s.results|
    requires t == s.(workers := s.workers[w := Finished]) && FilesInv(s)
    ensures FilesInv(t)
  {
    forall v | 0 <= v < |s.workers|
      ensures WorkerOk(t, v)
    {
      assert WorkerOk(s, v);
    }
    forall u, v | 0 <= u < v < |s.workers|
      ensures Apart(t, u, v)
    {
      assert Apart(s, u, v);
    }
    forall i | 0 <= i < |s.results|
      ensures FileOk(t, i)
    {
      assert FileOk(s, i);
      if HeldBySomeone(s, i) {
        var v :| 0 <= v < |s.workers| && s.workers[v].Holds() && s.workers[v].index == i;
        assert t.workers[v] == s.workers[v];
      }
    }
  }

  lemma {:induction false} SettleKeepsInv(n: nat, s: State, w: nat, answer: Answer)
    requires Inv(n, s) && w < |s.workers| && s.workers[w].Waits() && s.workers[w].index < n
    requires s.workers[w].Uploading? ==> !ReadAgain(answer)
    ensures Inv(n, Settle(s, w, answer))
  {
    var t := Settle(s, w, answer);
    var mine := s.workers[w].index;
    var e := t.journal[|s.journal|];
    assert WorkerOk(s, w);
    HoldingUpdate(s.workers, w, Idle);
    forall i: nat
      ensures StoryOf(t.journal, i) == StoryOf(s.journal, i) + if i == mine then [e] else []
    {
      StoryGrows(s.journal, e, i);
    }
    assert SettledStory(StoryOf(t.journal, mine), mine, answer);
    MoveKeepsFiles(s, t, w, mine, [e]);
    SettleKeepsReports(s, w, answer);
  }

  lemma {:induction false} SettleKeepsReports(s: State, w: nat, answer: Answer)
    requires w < |s.workers| && s.workers[w].Waits() && s.workers[w].index < |s.results|
    requires WorkerOk(s, w) && ReportsInv(s)
    ensures ReportsInv(Settle(s, w, answer))
  {
    var t := Settle(s, w, answer);
    var mine := s.workers[w].index;
    forall k | 0 <= k < s.done
      ensures s.order[k] != mine && ReportOk(t, k)
    {
      assert ReportOk(s, k);
    }
    assert t.order[s.done] == mine;
    assert ReportOk(t, s.done);
    forall i | 0 <= i < |t.results| && t.results[i].Some?
      ensures i in t.order
    {
      assert i != mine ==> i in s.order;
    }
  }

  /** A worker that keeps its file while its story grows: it asks again, or loses it. */
  lemma {:induction false} HoldKeepsInv(n: nat, s: State, w: nat, worker: Worker, more: seq<Entry>)
    requires Inv(n, s) && w < |s.workers| && s.workers[w].Waits()
    requires worker.Holds() && worker.index == s.workers[w].index
    requires 1 <= |more| <= 2 && more[0].index == more[|more| - 1].index == worker.index
    requires HeldStory(worker, StoryOf(s.journal, worker.index) + more)
    ensures Inv(n, s.(workers := s.workers[w := worker], journal := s.journal + more))
  {
    hide HeldStory, SettledStory, StoryOf, Holding;
    var t := s.(workers := s.workers[w := worker], journal := s.journal + more);
    assert WorkerOk(s, w);
    HoldingUpdate(s.workers, w, worker);
    forall i: nat
      ensures StoryOf(t.journal, i)
           == StoryOf(s.journal, i) + if i == worker.index then more else []
    {
      StoryGrows(s.journal, more[0], i);
      if |more| == 2 {
        StoryGrows(s.journal + [more[0]], more[1], i);
        assert s.journal + more == s.journal + [more[0]] + [more[1]];
      } else {
        assert s.journal + more == s.journal + [more[0]];
      }
    }
    MoveKeepsFiles(s, t, w, worker.index, more);
    forall k | 0 <= k < t.done
      ensures ReportOk(t, k)
    {
      assert ReportOk(s, k);
    }
  }

  lemma {:induction false} StepKeepsInv(n: nat, s: State, e: Event)
    requires Inv(n, s) && Enabled(s, e)
    ensures Inv(n, Step(s, e))
  {
    var i := s.workers[e.w].index;
    var story := StoryOf(s.journal, i);
    assert WorkerOk(s, e.w);
    match e {
      case Uploaded(w, answer) =>
        if ReadAgain(answer) {
          assert story + [Answered(i, answer), SentAgain(i, answer.instance)]
              == [Sent(i), Answered(i, answer), SentAgain(i, answer.instance)];
          HoldKeepsInv(n, s, w, Extracting(i, answer),
                       [Answered(i, answer), SentAgain(i, answer.instance)]);
        } else {
          SettleKeepsInv(n, s, w, answer);
          ClaimKeepsInv(n, Settle(s, w, answer), w);
        }
      case Extracted(w, answer) =>
        SettleKeepsInv(n, s, w, answer);
        ClaimKeepsInv(n, Settle(s, w, answer), w);
      case Fails(w) =>
        if s.workers[w].Uploading? {
          assert story + [Lost(i)] == [Sent(i), Lost(i)];
        } else {
          var first := s.workers[w].first;
          assert story + [Lost(i)]
              == [Sent(i), Answered(i, first), SentAgain(i, first.instance), Lost(i)];
        }
        HoldKeepsInv(n, s, w, Failed(i), [Lost(i)]);
    }
  }

  lemma {:induction false} BlankInv(n: nat)
    ensures Inv(n, Blank(n))
    ensures Blank(n).next == 0 && forall w :: 0 <= w < PoolSize(n) ==> Blank(n).workers[w] == Idle
  {
    NobodyHolds(Blank(n).workers);
  }

  lemma {:induction false} StartedInv(n: nat, k: nat)
    requires k <= PoolSize(n)
    ensures Inv(n, Started(n, k))
    ensures forall w :: 0 <= w < PoolSize(n) ==>
              Started(n, k).workers[w] == if w < k then Uploading(w) else Idle
    ensures Started(n, k).next == k
  {
    if k == 0 {
      BlankInv(n);
    } else {
      hide Inv, Claim;
      StartedInv(n, k - 1);
      ClaimKeepsInv(n, Started(n, k - 1), k - 1);
    }
  }

  lemma {:induction false} NobodyHolds(workers: seq<Worker>)
    requires forall w :: 0 <= w < |workers| ==> !workers[w].Holds()
    ensures Holding(workers) == 0
  {
    if workers != [] {
      NobodyHolds(workers[..|workers| - 1]);
    }
  }

  // ----- every run

  /** Requests a worker may still make; every event uses some of them up. */
  function WorkLeft(worker: Worker): nat {
    match worker
    case Uploading(_) => 2
    case Extracting(_, _) => 1
    case _ => 0
  }

  function AllWorkLeft(workers: seq<Worker>): nat {
    if workers == [] then 0
    else AllWorkLeft(workers[..|workers| - 1]) + WorkLeft(workers[|workers| - 1])
  }

  function Variant(s: State): int {
    2 * (|s.results| - s.next) + AllWorkLeft(s.workers)
  }

  lemma {:induction false} WorkLeftUpdate(workers: seq<Worker>, w: nat, worker: Worker)
    requires w < |workers|
    ensures AllWorkLeft(workers[w := worker])
         == AllWorkLeft(workers) - WorkLeft(workers[w]) + WorkLeft(worker)
  {
    var last := |workers| - 1;
    if w == last {
      assert workers[w := worker][..last] == workers[..last];
    } else {
      WorkLeftUpdate(workers[..last], w, worker);
      assert workers[w := worker][..last] == workers[..last][w := worker];
    }
  }

  lemma {:induction false} StepUsesWork(n: nat, s: State, e: Event)
    requires Inv(n, s) && Enabled(s, e)
    ensures Variant(Step(s, e)) < Variant(s)
  {
    var t := Step(s, e);
    WorkLeftUpdate(s.workers, e.w, t.workers[e.w]);
    assert t.workers == s.workers[e.w := t.workers[e.w]];
  }

  /** No request is outstanding. */
  predicate Quiet(s: State) {
    forall w :: 0 <= w < |s.workers| ==> !s.workers[w].Waits()
  }

  lemma {:induction false} RunKeepsInv(n: nat, s: State, run: seq<Event>)
    requires Inv(n, s) && Feasible(s, run)
    ensures Inv(n, After(s, run))
    ensures |run| <= Variant(s) - Variant(After(s, run))
    decreases |run|
  {
    if run != [] {
      StepKeepsInv(n, s, run[0]);
      StepUsesWork(n, s, run[0]);
      RunKeepsInv(n, Step(s, run[0]), run[1..]);
    }
  }

  lemma {:induction false} WorkLeftBound(workers: seq<Worker>)
    ensures AllWorkLeft(workers) <= 2 * |workers|
  {
    if workers != [] {
      WorkLeftBound(workers[..|workers| - 1]);
    }
  }

  /** Every interleaving keeps the invariant and stops: after at most two events a file nothing is
      outstanding any more, and until then some answer can arrive: a run without failures goes on. */
  lemma {:induction false} EveryRun(n: nat, run: seq<Event>)
    requires Feasible(Initial(n), run)
    ensures Inv(n, After(Initial(n), run))
    ensures |run| <= 2 * n
    ensures CanGoOn(After(Initial(n), run)) <==> !Quiet(After(Initial(n), run))
  {
    StartedInv(n, PoolSize(n));
    RunKeepsInv(n, Initial(n), run);
    WorkLeftBound(Initial(n).workers);
    WorkLeftBound(After(Initial(n), run).workers);
    QuietIffStuck(n, After(Initial(n), run));
  }

  /** An answer may arrive. */
  ghost predicate CanGoOn(s: State) {
    exists e :: Enabled(s, e) && !e.Fails?
  }

  lemma {:induction false} QuietIffStuck(n: nat, s: State)
    requires Inv(n, s)
    ensures CanGoOn(s) <==> !Quiet(s)
  {
    if w :| 0 <= w < |s.workers| && s.workers[w].Waits() {
      assert WorkerOk(s, w);
      var answer := Answer(true, PENDING, 0, "");
      assert Enabled(s, if s.workers[w].Uploading? then Uploaded(w, answer) else Extracted(w, answer));
    }
  }

  /** What the story of any file may be at any moment. */
  ghost predicate StoryAtAnyMoment(story: seq<Entry>, i: nat) {
    && |story| <= 4
    && (forall a :: 0 <= a < |story| ==> (story[a].Sent? <==> a == 0) && story[a].index == i)
    && (forall a :: 0 <= a < |story| && story[a].SentAgain? ==>
          a == 2 && story[1].Answered?
          && !story[1].answer.created && story[1].answer.status == PENDING
          && story[a].instance == story[1].answer.instance)
  }

  /** At every moment of every run: at most four files are in flight and no two workers hold one
      file; a file is sent once, and sent again once at most, only after an answer that had not
      created its instance and found it pending. */
  lemma {:induction false} AtEveryMoment(n: nat, run: seq<Event>, s: State)
    requires Feasible(Initial(n), run) && s == After(Initial(n), run)
    ensures |s.workers| == if n < 4 then n else 4
    ensures forall v, w :: 0 <= v < w < |s.workers| ==> Apart(s, v, w)
    ensures forall i :: 0 <= i < n ==> StoryAtAnyMoment(StoryOf(s.journal, i), i)
  {
    EveryRun(n, run);
    forall i | 0 <= i < n
      ensures StoryAtAnyMoment(StoryOf(s.journal, i), i)
    {
      assert FileOk(s, i);
      if i < s.next && s.results[i].None? {
        var w :| 0 <= w < |s.workers| && s.workers[w].Holds() && s.workers[w].index == i;
        assert WorkerOk(s, w);
        HeldStoryIsPossible(s.workers[w], StoryOf(s.journal, i));
      } else if i < s.next {
        SettledStoryIsPossible(StoryOf(s.journal, i), i, s.results[i].value);
      }
    }
  }

  lemma {:induction false} HeldStoryIsPossible(worker: Worker, story: seq<Entry>)
    requires worker.Holds() && HeldStory(worker, story)
    ensures StoryAtAnyMoment(story, worker.index)
  {
  }

  lemma {:induction false} SettledStoryIsPossible(story: seq<Entry>, i: nat, result: Answer)
    requires SettledStory(story, i, result)
    ensures StoryAtAnyMoment(story, i)
  {
  }

  /** With nothing outstanding, what was claimed is settled or lost, files are left unclaimed only
      when every worker failed, and a file has a result exactly when it was claimed and not lost. */
  lemma {:induction false} QuietOutcome(n: nat, run: seq<Event>, s: State)
    requires Feasible(Initial(n), run) && s == After(Initial(n), run) && Quiet(s)
    ensures s.done + Holding(s.workers) == s.next
    ensures s.next < n ==> forall w :: 0 <= w < |s.workers| ==> s.workers[w].Failed?
    ensures |s.results| == n
    ensures forall i :: 0 <= i < n ==> (s.results[i].Some? <==> i < s.next && !HeldBySomeone(s, i))
  {
    EveryRun(n, run);
    RunLeavesNoIdle(n, Initial(n), run);
    forall w | 0 <= w < |s.workers|
      ensures s.next < n ==> s.workers[w].Failed?
    {
      assert WorkerOk(s, w) && s.workers[w] != Idle;
    }
    forall i | 0 <= i < n
      ensures s.results[i].Some? <==> i < s.next && !HeldBySomeone(s, i)
    {
      assert FileOk(s, i);
      if HeldBySomeone(s, i) {
        var w :| 0 <= w < |s.workers| && s.workers[w].Holds() && s.workers[w].index == i;
        assert WorkerOk(s, w);
      }
    }
  }

  ghost predicate NoIdle(s: State) {
    forall w :: 0 <= w < |s.workers| ==> s.workers[w] != Idle
  }

  ghost predicate NoFailed(s: State) {
    forall w :: 0 <= w < |s.workers| ==> !s.workers[w].Failed?
  }

  lemma {:induction false} StepWorkers(s: State, e: Event)
    requires Enabled(s, e)
    ensures NoIdle(s) ==> NoIdle(Step(s, e))
    ensures NoFailed(s) && !e.Fails? ==> NoFailed(Step(s, e))
  {
  }

  /** Between two steps no worker stands still, and only a failure makes a failed worker. */
  lemma {:induction false} RunWorkers(s: State, run: seq<Event>)
    requires Feasible(s, run) && NoIdle(s)
    ensures NoIdle(After(s, run))
    ensures NoFailed(s) && (forall e :: e in run ==> !e.Fails?) ==> NoFailed(After(s, run))
    decreases |run|
  {
    if run != [] {
      StepWorkers(s, run[0]);
      RunWorkers(Step(s, run[0]), run[1..]);
    }
  }

  lemma {:induction false} RunLeavesNoIdle(n: nat, s: State, run: seq<Event>)
    requires s == Initial(n) && Feasible(s, run)
    ensures NoIdle(After(s, run))
    ensures (forall e :: e in run ==> !e.Fails?) ==> NoFailed(After(s, run))
  {
    StartedInv(n, PoolSize(n));
    RunWorkers(s, run);
  }

  /** What the story of a file is in the end: its upload and, if the answer had not created an instance
      and found it pending, its extraction; the last answer is its result. */
  ghost predicate StoryInTheEnd(story: seq<Entry>, i: nat, result: Answer) {
    && |story| >= 2 && story[0] == Sent(i) && story[1].Answered? && story[1].index == i
    && var first := story[1].answer;
       if first.created || first.status != PENDING then
         |story| == 2 && result == first
       else
         |story| == 4 && story[2] == SentAgain(i, first.instance)
         && story[3] == AnsweredAgain(i, result)
  }

  /** A run without failures and with nothing outstanding is complete: every file has the answer of
      its own requests, and the reports count from one to n, each about another file's result. */
  lemma {:induction false} CompleteWithoutFailures(n: nat, run: seq<Event>, s: State)
    requires Feasible(Initial(n), run) && s == After(Initial(n), run) && Quiet(s)
    requires forall e :: e in run ==> !e.Fails?
    ensures s.done == s.next == n == |s.results| == |s.reports| == |s.order|
    ensures forall i :: 0 <= i < n ==>
              s.results[i].Some? && StoryInTheEnd(StoryOf(s.journal, i), i, s.results[i].value)
    ensures forall k :: 0 <= k < n ==> ReportOk(s, k)
    ensures forall a, b :: 0 <= a < b < n ==> s.order[a] != s.order[b]
  {
    hide SettledStory, StoryInTheEnd, StoryOf, CanGoOn, FilesInv, ReportOk;
    EveryRun(n, run);
    RunLeavesNoIdle(n, Initial(n), run);
    QuietOutcome(n, run, s);
    NobodyHolds(s.workers);
    if n > 0 {
      assert !s.workers[0].Failed?;
    }
    EveryFileSettled(n, s);
  }

  lemma {:induction false} EveryFileSettled(n: nat, s: State)
    requires Inv(n, s) && s.next == n && forall w :: 0 <= w < |s.workers| ==> !s.workers[w].Holds()
    ensures |s.results| == n
    ensures forall i :: 0 <= i < n ==>
              s.results[i].Some? && StoryInTheEnd(StoryOf(s.journal, i), i, s.results[i].value)
  {
    forall i | 0 <= i < n
      ensures s.results[i].Some? && StoryInTheEnd(StoryOf(s.journal, i), i, s.results[i].value)
    {
      assert FileOk(s, i);
      SettledIsTheEnd(StoryOf(s.journal, i), i, s.results[i].value);
    }
  }

  lemma {:induction false} SettledIsTheEnd(story: seq<Entry>, i: nat, result: Answer)
    requires SettledStory(story, i, result)
    ensures StoryInTheEnd(story, i, result)
  {
  }
}

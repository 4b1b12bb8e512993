/** The bounded queue with a worker pool that the webhook dispatcher and the unfurler share:
    producers, workers and closers interleaving. */
module WorkQueue {
  import opened Models

  /** A webhook event, or the code and URL of a page to unfurl. */
  datatype Job = Job(code: string, url: string, payload: Bytes, secret: Bytes)

  datatype Worker = Idle | Busy(job: Job) | Exited

  datatype Done = Done(job: Job, ok: bool)

  /** The winning Close, between its compare-and-swap, `close(queue)` and `wg.Wait()`. */
  datatype Closing = NotClosed | Stopping | Waiting | Returned

  /** `pending` holds producers between the `stopped` test and the send. `accepted`, `done`,
      `calls`, `refused`, `aborted` and `lostCloses` are history. */
  datatype Sys = Sys(
    cap: nat,
    queue: seq<Job>,
    workers: seq<Worker>,
    closing: Closing,
    pending: map<nat, Job>,
    sent: int, failed: int, dropped: int,
    accepted: seq<Job>, done: seq<Done>,
    calls: int, refused: int, aborted: int, lostCloses: int)

  function Start(cap: nat, workers: nat): Sys {
    Sys(cap, [], seq(workers, _ => Idle), NotClosed, map[], 0, 0, 0, [], [], 0, 0, 0, 0)
  }

  datatype Action =
    | TestStopped(id: nat, job: Job)
    | Send(id: nat)
    | CallClose
    | CloseQueue
    | CloseReturns
    | Take(w: nat)
    | Settle(w: nat, ok: bool)
    | Exit(w: nat)

  predicate Stopped(sys: Sys) {
    !sys.closing.NotClosed?
  }

  /** The channel is closed. */
  predicate QueueClosed(sys: Sys) {
    sys.closing.Waiting? || sys.closing.Returned?
  }

  predicate AllExited(sys: Sys) {
    forall w :: 0 <= w < |sys.workers| ==> sys.workers[w].Exited?
  }

  /** An action that is not enabled does nothing. */
  predicate Enabled(sys: Sys, a: Action) {
    match a
    case TestStopped(id, _) => id !in sys.pending
    case Send(id) => id in sys.pending
    case CallClose => true
    case CloseQueue => sys.closing.Stopping?
    case CloseReturns => sys.closing.Waiting? && AllExited(sys)
    case Take(w) => w < |sys.workers| && sys.workers[w].Idle? && sys.queue != []
    case Settle(w, _) => w < |sys.workers| && sys.workers[w].Busy?
    case Exit(w) => w < |sys.workers| && sys.workers[w].Idle? && sys.queue == [] && QueueClosed(sys)
  }

  /** A send on the closed channel aborts the producer: it accepts nothing. */
  function Sending(sys: Sys, id: nat): Sys
    requires id in sys.pending
  {
    var job := sys.pending[id];
    var left := sys.(pending := sys.pending - {id});
    if QueueClosed(sys) then left.(aborted := sys.aborted + 1)
    else if |sys.queue| < sys.cap then left.(queue := sys.queue + [job], accepted := sys.accepted + [job])
    else left.(dropped := sys.dropped + 1)
  }

  function Next(sys: Sys, a: Action): Sys {
    if !Enabled(sys, a) then sys else
    match a
    case TestStopped(id, job) =>
      if Stopped(sys) then sys.(calls := sys.calls + 1, refused := sys.refused + 1)
      else sys.(calls := sys.calls + 1, pending := sys.pending[id := job])
    case Send(id) => Sending(sys, id)
    case CallClose =>
      if Stopped(sys) then sys.(lostCloses := sys.lostCloses + 1) else sys.(closing := Stopping)
    case CloseQueue => sys.(closing := Waiting)
    case CloseReturns => sys.(closing := Returned)
    case Take(w) => sys.(workers := sys.workers[w := Busy(sys.queue[0])], queue := sys.queue[1..])
    case Settle(w, ok) =>
      sys.(workers := sys.workers[w := Idle], done := sys.done + [Done(sys.workers[w].job, ok)],
           sent := sys.sent + (if ok then 1 else 0), failed := sys.failed + (if ok then 0 else 1))
    case Exit(w) => sys.(workers := sys.workers[w := Exited])
  }

  function Run(sys: Sys, actions: seq<Action>): Sys
    decreases |actions|
  {
    if actions == [] then sys else Run(Next(sys, actions[0]), actions[1..])
  }

  // ---------- conservation ----------

  /** How many workers satisfy `p`. */
  function Number(ws: seq<Worker>, p: Worker -> bool): nat {
    if ws == [] then 0 else (if p(ws[0]) then 1 else 0) + Number(ws[1..], p)
  }

  function Holding(job: Job): Worker -> bool {
    w => w == Busy(job)
  }

  function IsBusy(): Worker -> bool {
    (w: Worker) => w.Busy?
  }

  lemma {:induction false} NumberChanges(ws: seq<Worker>, i: nat, w: Worker, p: Worker -> bool)
    requires i < |ws|
    ensures Number(ws[i := w], p) == Number(ws, p) + (if p(w) then 1 else 0) - (if p(ws[i]) then 1 else 0)
  {
    if i > 0 {
      assert ws[i := w][1..] == ws[1..][i - 1 := w];
      NumberChanges(ws[1..], i - 1, w, p);
    } else {
      assert ws[i := w][1..] == ws[1..];
    }
  }

  lemma {:induction false} NumberZero(ws: seq<Worker>, p: Worker -> bool)
    requires forall w :: 0 <= w < |ws| ==> !p(ws[w])
    ensures Number(ws, p) == 0
  {
    if ws != [] {
      NumberZero(ws[1..], p);
    }
  }

  /** How often a job was delivered. */
  function Delivered(done: seq<Done>, job: Job): nat {
    if done == [] then 0 else Delivered(done[..|done| - 1], job) + if done[|done| - 1].job == job then 1 else 0
  }

  /** How many deliveries ended with `ok`. */
  function Ended(done: seq<Done>, ok: bool): int {
    if done == [] then 0 else Ended(done[..|done| - 1], ok) + if done[|done| - 1].ok == ok then 1 else 0
  }

  ghost predicate Conserved(sys: Sys) {
    && |sys.accepted| == |sys.queue| + Number(sys.workers, IsBusy()) + |sys.done|
    && forall job :: multiset(sys.accepted)[job]
         == multiset(sys.queue)[job] + Number(sys.workers, Holding(job)) + Delivered(sys.done, job)
  }

  /** First in, first out: what waits is the end of what was accepted. */
  ghost predicate Fifo(sys: Sys) {
    |sys.queue| <= |sys.accepted| && sys.queue == sys.accepted[|sys.accepted| - |sys.queue|..]
  }

  ghost predicate Counted(sys: Sys) {
    && sys.sent == Ended(sys.done, true) && sys.failed == Ended(sys.done, false)
    && sys.sent + sys.failed == |sys.done|
    && sys.calls == |sys.accepted| + sys.dropped + sys.aborted + sys.refused + |sys.pending|
  }

  ghost predicate ShutInv(sys: Sys) {
    && |sys.queue| <= sys.cap
    && (!QueueClosed(sys) ==> sys.aborted == 0)
    && (!Stopped(sys) ==> sys.refused == 0)
    && (forall w :: 0 <= w < |sys.workers| && sys.workers[w].Exited? ==> QueueClosed(sys) && sys.queue == [])
    && (sys.closing.Returned? ==> AllExited(sys))
  }

  ghost predicate Inv(sys: Sys) {
    Conserved(sys) && Fifo(sys) && Counted(sys) && ShutInv(sys)
  }

  lemma TakeConserves(sys: Sys, w: nat)
    requires Conserved(sys) && Enabled(sys, Take(w))
    ensures Conserved(Next(sys, Take(w)))
  {
    var first, rest := sys.queue[0], sys.queue[1..];
    NumberChanges(sys.workers, w, Busy(first), IsBusy());
    assert sys.queue == [first] + rest;
    forall job
      ensures multiset(sys.queue)[job] == multiset(rest)[job] + (if job == first then 1 else 0)
      ensures Number(sys.workers[w := Busy(first)], Holding(job))
           == Number(sys.workers, Holding(job)) + (if job == first then 1 else 0)
    {
      NumberChanges(sys.workers, w, Busy(first), Holding(job));
      assert multiset(sys.queue) == multiset([first]) + multiset(rest);
    }
  }

  lemma SettleConserves(sys: Sys, w: nat, ok: bool)
    requires Conserved(sys) && Enabled(sys, Settle(w, ok))
    ensures Conserved(Next(sys, Settle(w, ok)))
  {
    var after, mine := Next(sys, Settle(w, ok)), sys.workers[w].job;
    NumberChanges(sys.workers, w, Idle, IsBusy());
    assert after.done[..|after.done| - 1] == sys.done;
    forall job
      ensures Delivered(after.done, job) == Delivered(sys.done, job) + (if job == mine then 1 else 0)
      ensures Number(after.workers, Holding(job))
           == Number(sys.workers, Holding(job)) - (if job == mine then 1 else 0)
    {
      NumberChanges(sys.workers, w, Idle, Holding(job));
    }
  }

  lemma ExitConserves(sys: Sys, w: nat)
    requires Conserved(sys) && Enabled(sys, Exit(w))
    ensures Conserved(Next(sys, Exit(w)))
  {
    NumberChanges(sys.workers, w, Exited, IsBusy());
    forall job ensures Number(Next(sys, Exit(w)).workers, Holding(job)) == Number(sys.workers, Holding(job)) {
      NumberChanges(sys.workers, w, Exited, Holding(job));
    }
  }

  lemma NextConserves(sys: Sys, a: Action)
    requires Conserved(sys)
    ensures Conserved(Next(sys, a))
  {
    if Enabled(sys, a) {
      match a
      case Take(w) => TakeConserves(sys, w);
      case Settle(w, ok) => SettleConserves(sys, w, ok);
      case Exit(w) => ExitConserves(sys, w);
      case _ =>
    }
  }

  lemma NextKeepsFifo(sys: Sys, a: Action)
    requires Fifo(sys)
    ensures Fifo(Next(sys, a))
  {
  }

  lemma NextCounts(sys: Sys, a: Action)
    requires Counted(sys)
    ensures Counted(Next(sys, a))
  {
    if Enabled(sys, a) {
      match a
      case Send(id) => assert |(sys.pending - {id}).Keys| == |sys.pending.Keys - {id}|;
      case Settle(w, ok) =>
        var after := Next(sys, a);
        assert after.done[..|after.done| - 1] == sys.done;
      case _ =>
    }
  }

  lemma NextKeepsShut(sys: Sys, a: Action)
    requires ShutInv(sys)
    ensures ShutInv(Next(sys, a))
  {
  }

  lemma NextKeepsInv(sys: Sys, a: Action)
    requires Inv(sys)
    ensures Inv(Next(sys, a))
  {
    NextConserves(sys, a);
    NextKeepsFifo(sys, a);
    NextCounts(sys, a);
    NextKeepsShut(sys, a);
  }

  /** The pool keeps its workers and the queue its capacity. */
  lemma NextKeepsSize(sys: Sys, a: Action)
    ensures |Next(sys, a).workers| == |sys.workers| && Next(sys, a).cap == sys.cap
  {
  }

  lemma {:induction false} RunKeepsInv(sys: Sys, actions: seq<Action>)
    requires Inv(sys)
    ensures Inv(Run(sys, actions)) && |Run(sys, actions).workers| == |sys.workers|
    ensures Run(sys, actions).cap == sys.cap
    decreases |actions|
  {
    if actions != [] {
      NextKeepsInv(sys, actions[0]);
      NextKeepsSize(sys, actions[0]);
      RunKeepsInv(Next(sys, actions[0]), actions[1..]);
    }
  }

  lemma StartInv(cap: nat, workers: nat)
    ensures Inv(Start(cap, workers))
  {
    var ws := Start(cap, workers).workers;
    NumberZero(ws, IsBusy());
    forall job ensures Number(ws, Holding(job)) == 0 {
      NumberZero(ws, Holding(job));
    }
  }

  /** Nothing is lost and nothing is done twice: what was accepted is exactly what waits, is in
      a worker's hands, or was delivered once; the counters agree; jobs leave in order; the
      queue stays within its capacity; every call of Enqueue has one outcome, and none aborts
      before the queue is closed. */
  lemma NothingLost(cap: nat, workers: nat, actions: seq<Action>)
    ensures var sys := Run(Start(cap, workers), actions);
      && (forall job :: multiset(sys.accepted)[job]
           == multiset(sys.queue)[job] + Number(sys.workers, Holding(job)) + Delivered(sys.done, job))
      && |sys.accepted| == |sys.queue| + Number(sys.workers, IsBusy()) + sys.sent + sys.failed
      && |sys.queue| <= cap && Fifo(sys)
      && sys.sent == Ended(sys.done, true) && sys.failed == Ended(sys.done, false)
      && sys.calls == |sys.accepted| + sys.dropped + sys.aborted + sys.refused + |sys.pending|
      && (!QueueClosed(sys) ==> sys.aborted == 0)
      && (!Stopped(sys) ==> sys.refused == 0)
  {
    StartInv(cap, workers);
    RunKeepsInv(Start(cap, workers), actions);
  }

  /** Once the winning Close has returned, every accepted job was delivered exactly once, and
      accepted = sent + failed; this stays so whatever runs on. */
  lemma DrainedWhenClosed(cap: nat, workers: nat, actions: seq<Action>)
    requires workers > 0
    requires Run(Start(cap, workers), actions).closing.Returned?
    ensures var sys := Run(Start(cap, workers), actions);
      && (forall job :: multiset(sys.accepted)[job] == Delivered(sys.done, job))
      && |sys.accepted| == sys.sent + sys.failed
  {
    StartInv(cap, workers);
    RunKeepsInv(Start(cap, workers), actions);
    var sys := Run(Start(cap, workers), actions);
    assert sys.workers[0].Exited?;
    NumberZero(sys.workers, IsBusy());
    forall job ensures Number(sys.workers, Holding(job)) == 0 {
      NumberZero(sys.workers, Holding(job));
    }
  }

  // ---------- a Close that loses the race ----------

  /** A Close that loses the race returns at once, with accepted jobs still undelivered. */
  lemma LosingCloseDoesNotWait(job: Job)
    ensures var sys := Run(Start(1, 1), [TestStopped(0, job), Send(0), CallClose, CallClose]);
      sys.lostCloses == 1 && |sys.accepted| == 1 && sys.sent + sys.failed == 0
  {
    var one := Next(Start(1, 1), TestStopped(0, job));
    var two := Next(one, Send(0));
    var three := Next(two, CallClose);
    assert Run(Next(three, CallClose), []) == Next(three, CallClose);
    assert Run(three, [CallClose]) == Run(Next(three, CallClose), []);
    assert Run(two, [CallClose, CallClose]) == Run(three, [CallClose]);
    assert Run(one, [Send(0), CallClose, CallClose]) == Run(two, [CallClose, CallClose]);
  }

  /** What it returns on is drained exactly if the queue is empty and no worker holds a job. */
  lemma DrainedAtReturn(cap: nat, workers: nat, actions: seq<Action>)
    ensures var sys := Run(Start(cap, workers), actions);
      |sys.accepted| == sys.sent + sys.failed <==>
        sys.queue == [] && forall w :: 0 <= w < |sys.workers| ==> !sys.workers[w].Busy?
  {
    NothingLost(cap, workers, actions);
    var sys := Run(Start(cap, workers), actions);
    if w :| 0 <= w < |sys.workers| && sys.workers[w].Busy? {
      NumberPositive(sys.workers, IsBusy(), w);
    } else {
      NumberZero(sys.workers, IsBusy());
    }
  }

  lemma {:induction false} NumberPositive(ws: seq<Worker>, p: Worker -> bool, w: nat)
    requires w < |ws| && p(ws[w])
    ensures Number(ws, p) > 0
  {
    if w > 0 {
      NumberPositive(ws[1..], p, w - 1);
    }
  }

  // ---------- producers that abort ----------

  /** The abort is real: the queue is closed between the test of `stopped` and the send. */
  lemma EnqueueAborts(job: Job)
    ensures Run(Start(1, 1), [TestStopped(0, job), CallClose, CloseQueue, Send(0)]).aborted == 1
  {
    var one := Next(Start(1, 1), TestStopped(0, job));
    var two := Next(one, CallClose);
    var three := Next(two, CloseQueue);
    assert Run(Next(three, Send(0)), []) == Next(three, Send(0));
    assert Run(three, [Send(0)]) == Run(Next(three, Send(0)), []);
    assert Run(two, [CloseQueue, Send(0)]) == Run(three, [Send(0)]);
    assert Run(one, [CallClose, CloseQueue, Send(0)]) == Run(two, [CloseQueue, Send(0)]);
  }

  /** Once stopped, no producer gets past the test any more. */
  lemma NoNewProducers(sys: Sys, a: Action)
    requires Stopped(sys)
    ensures Stopped(Next(sys, a)) && Next(sys, a).pending.Keys <= sys.pending.Keys
    ensures sys.pending == map[] ==> Next(sys, a).pending == map[] && Next(sys, a).aborted == sys.aborted
  {
  }

  /** Producers quiesced before Close: whatever runs on, none aborts. */
  lemma {:induction false} QuiescedNeverAborts(sys: Sys, more: seq<Action>)
    requires Stopped(sys) && sys.pending == map[]
    ensures Run(sys, more).aborted == sys.aborted && Run(sys, more).pending == map[]
    decreases |more|
  {
    if more != [] {
      NoNewProducers(sys, more[0]);
      QuiescedNeverAborts(Next(sys, more[0]), more[1..]);
    }
  }

  /** A producer in between can be caught: close the queue, then let it send. */
  lemma CaughtAborts(sys: Sys, id: nat)
    requires Stopped(sys) && id in sys.pending
    ensures Run(sys, [CloseQueue, Send(id)]).aborted == sys.aborted + 1
  {
    var closed := Next(sys, CloseQueue);
    assert Run(closed, [Send(id)]) == Run(Next(closed, Send(id)), []);
    assert Run(sys, [CloseQueue, Send(id)]) == Run(closed, [Send(id)]);
  }

  /** From any state, some continuation aborts a producer exactly if the queue is not stopped yet
      or a producer is between its test and its send: a caller rules aborts out by letting its
      producers finish before it calls Close. */
  lemma AbortPossibleIff(sys: Sys, job: Job)
    ensures (exists more :: Run(sys, more).aborted > sys.aborted) <==> !Stopped(sys) || sys.pending != map[]
  {
    if Stopped(sys) && sys.pending == map[] {
      forall more ensures Run(sys, more).aborted == sys.aborted {
        QuiescedNeverAborts(sys, more);
      }
    } else if sys.pending == map[] {
      var tested := Next(sys, TestStopped(0, job));
      StopThenCatch(tested, 0);
      var tail := [CallClose, CloseQueue, Send(0)];
      var more := [TestStopped(0, job)] + tail;
      assert more[0] == TestStopped(0, job) && more[1..] == tail;
      assert Run(sys, more) == Run(tested, tail);
      assert Run(sys, more).aborted > sys.aborted;
    } else {
      assert sys.pending.Keys != {};
      var id :| id in sys.pending.Keys;
      StopThenCatch(sys, id);
      assert Run(sys, [CallClose, CloseQueue, Send(id)]).aborted > sys.aborted;
    }
  }

  lemma StopThenCatch(sys: Sys, id: nat)
    requires id in sys.pending
    ensures Run(sys, [CallClose, CloseQueue, Send(id)]).aborted == sys.aborted + 1
  {
    var stopped := Next(sys, CallClose);
    CaughtAborts(stopped, id);
    assert Run(sys, [CallClose, CloseQueue, Send(id)]) == Run(stopped, [CloseQueue, Send(id)]);
  }

  // ---------- progress ----------

  /** What is still to be done before Close can return. */
  function Work(sys: Sys): nat {
    3 * |sys.queue| + Left(sys.workers)
  }

  function Left(ws: seq<Worker>): nat {
    if ws == [] then 0 else (match ws[0] case Busy(_) => 2 case Idle => 1 case Exited => 0) + Left(ws[1..])
  }

  lemma {:induction false} LeftChanges(ws: seq<Worker>, i: nat, w: Worker)
    requires i < |ws|
    ensures Left(ws[i := w]) + Left([ws[i]]) == Left(ws) + Left([w])
  {
    if i > 0 {
      assert ws[i := w][1..] == ws[1..][i - 1 := w];
      LeftChanges(ws[1..], i - 1, w);
    } else {
      assert ws[i := w][1..] == ws[1..];
    }
  }

  /** The next step of some worker, as long as one has not exited. */
  function WorkerStep(sys: Sys, w: nat): Action
    requires w < |sys.workers|
  {
    if sys.workers[w].Busy? then Settle(w, true)
    else if sys.queue != [] then Take(w)
    else Exit(w)
  }

  lemma WorkerStepProgresses(sys: Sys, w: nat)
    requires QueueClosed(sys) && w < |sys.workers| && !sys.workers[w].Exited?
    ensures Work(Next(sys, WorkerStep(sys, w))) < Work(sys) && QueueClosed(Next(sys, WorkerStep(sys, w)))
  {
    LeftChanges(sys.workers, w, Next(sys, WorkerStep(sys, w)).workers[w]);
  }

  ghost predicate ByWorkers(a: Action) {
    a.Take? || a.Settle? || a.Exit? || a.CloseReturns?
  }

  /** No deadlock: whenever the queue is closed, the workers alone can finish what is left, and
      then Close returns. */
  lemma {:induction false} CloseCanReturn(sys: Sys) returns (more: seq<Action>)
    requires sys.closing.Waiting?
    ensures Run(sys, more).closing.Returned?
    ensures forall i :: 0 <= i < |more| ==> ByWorkers(more[i])
    decreases Work(sys)
  {
    if AllExited(sys) {
      more := [CloseReturns];
      assert Run(Next(sys, CloseReturns), []) == Next(sys, CloseReturns);
    } else {
      var w :| 0 <= w < |sys.workers| && !sys.workers[w].Exited?;
      var a := WorkerStep(sys, w);
      WorkerStepProgresses(sys, w);
      more := CloseCanReturn(Next(sys, a));
      assert ([a] + more)[1..] == more;
      more := [a] + more;
    }
  }

  // ---------- what a send does ----------

  /** A producer that gets to send aborts exactly if the queue is closed, is dropped exactly if the
      open queue is full, and is accepted at the end of the queue otherwise. */
  lemma SendOutcome(sys: Sys, id: nat)
    requires id in sys.pending
    ensures var after := Next(sys, Send(id));
      && after.pending == sys.pending - {id}
      && (after.aborted == sys.aborted + 1 <==> QueueClosed(sys))
      && (after.dropped == sys.dropped + 1 <==> !QueueClosed(sys) && |sys.queue| >= sys.cap)
      && (after.accepted == sys.accepted + [sys.pending[id]] <==> !QueueClosed(sys) && |sys.queue| < sys.cap)
      && after.queue == (if !QueueClosed(sys) && |sys.queue| < sys.cap then sys.queue + [sys.pending[id]] else sys.queue)
      && (QueueClosed(sys) || |sys.queue| < sys.cap ==> after.dropped == sys.dropped)
      && (!QueueClosed(sys) ==> after.aborted == sys.aborted)
  {
    if QueueClosed(sys) || |sys.queue| >= sys.cap {
      assert |sys.accepted + [sys.pending[id]]| != |sys.accepted|;
    }
  }

  /** A producer is refused exactly if Close was called before its test. */
  lemma TestOutcome(sys: Sys, id: nat, job: Job)
    requires id !in sys.pending
    ensures var after := Next(sys, TestStopped(id, job));
      && (after.refused == sys.refused + 1 <==> Stopped(sys))
      && after.pending == (if Stopped(sys) then sys.pending else sys.pending[id := job])
  {
    if Stopped(sys) {
      assert id !in Next(sys, TestStopped(id, job)).pending;
    }
  }

  /** A worker takes the oldest job; a settled job is counted by its outcome. */
  lemma WorkerOutcome(sys: Sys, w: nat, ok: bool)
    requires w < |sys.workers|
    ensures sys.workers[w].Idle? && sys.queue != [] ==>
      var after := Next(sys, Take(w)); after.workers[w] == Busy(sys.queue[0]) && after.queue == sys.queue[1..]
    ensures sys.workers[w].Busy? ==>
      var after := Next(sys, Settle(w, ok));
      && after.workers[w] == Idle && after.done == sys.done + [Done(sys.workers[w].job, ok)]
      && after.sent == sys.sent + (if ok then 1 else 0) && after.failed == sys.failed + (if ok then 0 else 1)
  {
  }
}

/**
  The log batch processor as a state machine: any number of callers of OnEmit, ForceFlush and Shutdown,
  and the one worker that owns the exporter.  Every lock section, channel operation and atomic access
  is one step.
 */
module BatchProcessor {
  import opened Prelude
  import Q = LogQueue

  /** A log record, known by a number. */
  type Record = nat

  /** Why the worker takes records from the queue.  A flush remembers how many records it must cover. */
  datatype Job = Batch | Flush(task: nat, ctx: nat, mark: nat) | Shutdown(task: nat, ctx: nat)

  datatype Worker =
    | Probe                                // the first select of the loop
    | Poll                                 // the second select
    | Block                                // the third select
    | FlushTest(job: Job)                  // `flushExporter` looks at the context
    | Tally(job: Job)                      // `logDroppedRecords`
    | Take(job: Job)                       // `Dequeue` or `Flush`
    | Test(job: Job, left: seq<Record>, remaining: nat, ok: bool)   // the head of `chunkExport`
    | Send(job: Job, left: seq<Record>, remaining: nat, ok: bool)   // about to call Export
    | Sent(job: Job, left: seq<Record>, remaining: nat, ok: bool)   // Export has returned
    | Finish(job: Job, remaining: nat, ok: bool)                    // `chunkExport` has returned
    | CloseExporter(job: Job, ok: bool)
    | CloseDone(job: Job, ok: bool)
    | Reply(job: Job, ok: bool)
    | Exited

  /** Where a caller stands.  An emit remembers where its record went, a flush what it must cover. */
  datatype Task =
    | EmitCalled(r: Record) | EmitOpen(r: Record) | EmitSignal(r: Record, index: nat)
    | EmitDone(r: Record, at: Option<nat>)
    | FlushCalled(ctx: nat, mark: nat) | FlushOpen(ctx: nat, mark: nat) | FlushOffer(ctx: nat, mark: nat)
    | FlushAwait(ctx: nat, mark: nat) | FlushDone(ctx: nat, mark: nat, ok: bool, answered: bool)
    | StopCalled(ctx: nat) | StopWon(ctx: nat) | StopClosed(ctx: nat) | StopQueued(ctx: nat)
    | StopAwait(ctx: nat) | StopDone(ctx: nat, ok: bool, won: bool)

  /** What became of a record that the worker took. */
  datatype How = Exported | Discarded(job: Job)

  datatype Settled = Settled(r: Record, how: How)

  datatype Call = ExportCall(chunk: seq<Record>) | FlushCall | ShutdownCall

  datatype Answer = Answer(job: Job, ok: bool)

  /** What has happened to the records: the queue and its past, the emit behind each accepted record,
      what became of the records taken, and the calls of the exporter. */
  datatype Ledger = Ledger(t: Q.Tracked<Record>, owner: seq<nat>, settled: seq<Settled>, calls: seq<Call>)

  /** `exportTrigger` holds its token; `stopped`, and the Shutdown call that set it; the content of the
      `shutdown` channel; `done` is closed. */
  datatype Flags = Flags(trigger: bool, stopped: bool, stopper: Option<nat>, request: Option<Job>, done: bool)

  /** The calls made so far, the content of the response channels, the contexts given to ForceFlush, and
      the contexts cancelled. */
  datatype Callers =
    Callers(tasks: map<nat, Task>, responses: map<nat, Answer>, flushCtxs: set<nat>, cancelled: set<nat>)

  datatype State = State(ledger: Ledger, flags: Flags, callers: Callers, worker: Worker)

  datatype Label =
    | Cancel(ctx: nat)
    | Enter(id: nat, task: Task)   // a new call of OnEmit, ForceFlush or Shutdown
    | Advance(id: nat)
    | GiveUp(id: nat)              // the branch of a select for a cancelled context
    | SeeDone(id: nat)             // the branch of a select for `done`
    | Handover(id: nat)            // the `flush` channel passes a request to the worker
    | TakeShutdown
    | TimerFires
    | TakeTrigger
    | Work(ok: bool)               // the worker goes on; a call of the exporter returns nil if ok

  function Init(cap: nat): State
  {
    State(Ledger(Q.Fresh(cap), [], [], []), Flags(false, false, None, None, false),
          Callers(map[], map[], {}, {}), Probe)
  }

  // ---------------------------------------------------------------- callers

  function WithTask(s: State, id: nat, task: Task): State
  {
    s.(callers := s.callers.(tasks := s.callers.tasks[id := task]))
  }

  function Entered(s: State, id: nat, task: Task): State
  {
    if id in s.callers.tasks then s else
    match task
    case EmitCalled(_) => WithTask(s, id, task)
    case FlushCalled(ctx, _) =>
      s.(callers := s.callers.(tasks := s.callers.tasks[id := FlushCalled(ctx, |s.ledger.t.accepted|)],
                               flushCtxs := s.callers.flushCtxs + {ctx}))
    case StopCalled(_) => WithTask(s, id, task)
    case _ => s
  }

  /** The locked part of OnEmit, and the comparison with the batch size that follows it. */
  function EmitEnqueues(b: nat, s: State, id: nat, r: Record): State
  {
    var t := s.ledger.t;
    if t.q.closed then WithTask(s, id, EmitDone(r, None)) else
    var t' := Q.Apply(t, Q.Enqueue(r));
    var at := |t.accepted|;
    WithTask(s, id, if |t'.q.items| >= b then EmitSignal(r, at) else EmitDone(r, Some(at)))
      .(ledger := s.ledger.(t := t', owner := s.ledger.owner + [id]))
  }

  function EmitAdvances(b: nat, s: State, id: nat, task: Task): State
  {
    match task
    case EmitCalled(r) => WithTask(s, id, if s.flags.stopped then EmitDone(r, None) else EmitOpen(r))
    case EmitOpen(r) => EmitEnqueues(b, s, id, r)
    case EmitSignal(r, at) => WithTask(s, id, EmitDone(r, Some(at))).(flags := s.flags.(trigger := true))
    case _ => s
  }

  function FlushAdvances(s: State, id: nat, task: Task): State
  {
    match task
    case FlushCalled(ctx, mark) =>
      WithTask(s, id, if s.flags.stopped then FlushDone(ctx, mark, true, false) else FlushOpen(ctx, mark))
    case FlushOpen(ctx, mark) =>
      WithTask(s, id,
        if ctx in s.callers.cancelled then FlushDone(ctx, mark, false, false) else FlushOffer(ctx, mark))
    case FlushAwait(ctx, mark) =>
      if id in s.callers.responses then
        WithTask(s, id, FlushDone(ctx, mark, s.callers.responses[id].ok, true))
      else s
    case _ => s
  }

  function StopAdvances(s: State, id: nat, task: Task): State
  {
    match task
    case StopCalled(ctx) =>
      if s.flags.stopped then WithTask(s, id, StopDone(ctx, true, false))
      else WithTask(s, id, StopWon(ctx)).(flags := s.flags.(stopped := true, stopper := Some(id)))
    case StopWon(ctx) =>
      WithTask(s, id, StopClosed(ctx)).(ledger := s.ledger.(t := Q.Apply(s.ledger.t, Q.Close)))
    case StopClosed(ctx) =>
      if s.flags.request.Some? then s
      else WithTask(s, id, StopQueued(ctx)).(flags := s.flags.(request := Some(Shutdown(id, ctx))))
    case StopQueued(ctx) =>
      WithTask(s, id, if ctx in s.callers.cancelled then StopDone(ctx, false, true) else StopAwait(ctx))
    case StopAwait(ctx) =>
      if id in s.callers.responses then WithTask(s, id, StopDone(ctx, s.callers.responses[id].ok, true)) else s
    case _ => s
  }

  function Advanced(b: nat, s: State, id: nat): State
  {
    if id !in s.callers.tasks then s else
    var task := s.callers.tasks[id];
    if task.EmitCalled? || task.EmitOpen? || task.EmitSignal? then EmitAdvances(b, s, id, task)
    else if task.FlushCalled? || task.FlushOpen? || task.FlushAwait? then FlushAdvances(s, id, task)
    else StopAdvances(s, id, task)
  }

  function GivenUp(s: State, id: nat): State
  {
    if id !in s.callers.tasks then s else
    match s.callers.tasks[id]
    case FlushOffer(ctx, mark) =>
      if ctx in s.callers.cancelled then WithTask(s, id, FlushDone(ctx, mark, false, false)) else s
    case FlushAwait(ctx, mark) =>
      if ctx in s.callers.cancelled then WithTask(s, id, FlushDone(ctx, mark, false, false)) else s
    case StopAwait(ctx) =>
      if ctx in s.callers.cancelled then WithTask(s, id, StopDone(ctx, false, true)) else s
    case _ => s
  }

  predicate Offers(s: State, id: nat)
  {
    id in s.callers.tasks && s.callers.tasks[id].FlushOffer?
  }

  function DoneSeen(s: State, id: nat): State
  {
    if Offers(s, id) && s.flags.done then
      var task := s.callers.tasks[id];
      WithTask(s, id, FlushDone(task.ctx, task.mark, true, false))
    else s
  }

  function HandedOver(s: State, id: nat): State
  {
    if Offers(s, id) && (s.worker.Poll? || s.worker.Block?) then
      var task := s.callers.tasks[id];
      WithTask(s, id, FlushAwait(task.ctx, task.mark)).(worker := FlushTest(Flush(id, task.ctx, task.mark)))
    else s
  }

  // ---------------------------------------------------------------- the worker

  function ShutdownTaken(s: State): State
  {
    if (s.worker.Probe? || s.worker.Poll? || s.worker.Block?) && s.flags.request.Some? then
      s.(worker := Tally(s.flags.request.value), flags := s.flags.(request := None))
    else s
  }

  predicate Cancelled(s: State, job: Job)
  {
    !job.Batch? && job.ctx in s.callers.cancelled
  }

  predicate FlushWaiting(s: State) { exists id | id in s.callers.tasks :: s.callers.tasks[id].FlushOffer? }

  function Disposed(records: seq<Record>, how: How): (r: seq<Settled>)
    ensures |r| == |records|
  {
    seq(|records|, i requires 0 <= i < |records| => Settled(records[i], how))
  }

  function Taking(b: nat, s: State, job: Job): State
  {
    var t := s.ledger.t;
    var room := if job.Batch? then b else |t.q.items|;
    var taken := Q.Taken(t.q, room);
    var t' := Q.Apply(t, Q.Dequeue(room));
    State(s.ledger.(t := t'), s.flags, s.callers,
      if job.Batch? && taken == [] then Probe else Test(job, taken, |t'.q.items|, true))
  }

  /** `chunkExport` gives up: its context is cancelled. */
  function Abandoning(s: State, w: Worker): State
    requires w.Test? || w.Sent?
  {
    s.(worker := Finish(w.job, w.remaining, false),
       ledger := s.ledger.(settled := s.ledger.settled + Disposed(w.left, Discarded(w.job))))
  }

  /** The loop of `chunkExport` without its calls of the exporter. */
  function Chunking(s: State, w: Worker): State
    requires w.Test? || w.Sent?
  {
    if w.Test? && w.left == [] then s.(worker := Finish(w.job, w.remaining, w.ok))
    else if Cancelled(s, w.job) then Abandoning(s, w)
    else if w.Test? then s.(worker := Send(w.job, w.left, w.remaining, w.ok))
    else s.(worker := Test(w.job, w.left, w.remaining, w.ok))
  }

  function Sending(b: nat, s: State, w: Worker, ok: bool): State
    requires w.Send?
  {
    var n := Min(b, |w.left|);
    s.(worker := Sent(w.job, w.left[n..], w.remaining, w.ok && ok),
       ledger := s.ledger.(settled := s.ledger.settled + Disposed(w.left[..n], Exported),
                           calls := s.ledger.calls + [ExportCall(w.left[..n])]))
  }

  function Calling(s: State, c: Call, w: Worker): State
  {
    s.(worker := w, ledger := s.ledger.(calls := s.ledger.calls + [c]))
  }

  /** What follows `chunkExport` in each of its three callers. */
  function Finishing(b: nat, s: State, w: Worker, ok: bool): State
    requires w.Finish?
  {
    if w.job.Batch? then
      s.(worker := Probe, flags := s.flags.(trigger := s.flags.trigger || w.remaining >= b))
    else if Cancelled(s, w.job) then
      s.(worker := if w.job.Flush? then Reply(w.job, false) else CloseExporter(w.job, false))
    else
      Calling(s, FlushCall, if w.job.Flush? then Reply(w.job, w.ok && ok) else CloseExporter(w.job, w.ok && ok))
  }

  function Replying(s: State, w: Worker): State
    requires w.Reply?
  {
    if w.job.Batch? then s else
    s.(callers := s.callers.(responses := s.callers.responses[w.job.task := Answer(w.job, w.ok)]),
       worker := if w.job.Shutdown? then Exited else Probe)
  }

  function Worked(b: nat, s: State, ok: bool): State
  {
    var w := s.worker;
    match w
    case Probe => if s.flags.request.Some? then s else s.(worker := Poll)
    case Poll => if s.flags.request.Some? || FlushWaiting(s) then s else s.(worker := Block)
    case Block => s
    case FlushTest(job) => s.(worker := if Cancelled(s, job) then Reply(job, false) else Tally(job))
    case Tally(job) => s.(worker := Take(job), ledger := s.ledger.(t := Q.Apply(s.ledger.t, Q.Dropped)))
    case Take(job) => Taking(b, s, job)
    case Test(_, _, _, _) => Chunking(s, w)
    case Send(_, _, _, _) => Sending(b, s, w, ok)
    case Sent(_, _, _, _) => Chunking(s, w)
    case Finish(_, _, _) => Finishing(b, s, w, ok)
    case CloseExporter(job, k) => Calling(s, ShutdownCall, CloseDone(job, k && ok))
    case CloseDone(job, k) => s.(worker := Reply(job, k), flags := s.flags.(done := true))
    case Reply(_, _) => Replying(s, w)
    case Exited => s
  }

  function Woken(s: State, trigger: bool): State
  {
    if !s.worker.Block? || (trigger && !s.flags.trigger) then s
    else s.(worker := Tally(Batch), flags := s.flags.(trigger := s.flags.trigger && !trigger))
  }

  /** The state after a step; a step that is not possible changes nothing.  b is the batch size. */
  function Next(b: nat, s: State, l: Label): State
  {
    match l
    case Cancel(ctx) => s.(callers := s.callers.(cancelled := s.callers.cancelled + {ctx}))
    case Enter(id, task) => Entered(s, id, task)
    case Advance(id) => Advanced(b, s, id)
    case GiveUp(id) => GivenUp(s, id)
    case SeeDone(id) => DoneSeen(s, id)
    case Handover(id) => HandedOver(s, id)
    case TakeShutdown => ShutdownTaken(s)
    case TimerFires => Woken(s, false)
    case TakeTrigger => Woken(s, true)
    case Work(ok) => Worked(b, s, ok)
  }

  function After(b: nat, s: State, ls: seq<Label>): State
  {
    if |ls| == 0 then s else Next(b, After(b, s, ls[..|ls| - 1]), ls[|ls| - 1])
  }
}

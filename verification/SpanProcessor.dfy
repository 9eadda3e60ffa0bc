/**
  The batch span processor as a state machine: any number of callers of OnEnd, ForceFlush and Shutdown,
  the goroutines that ForceFlush starts, and the worker.  Every lock section, channel operation and
  atomic access is one step; holding the mutex over an export takes several.
 */
module SpanProcessor {
  import opened Prelude

  /** A span, known by a number. */
  type Span = nat

  /** What travels in the queue: spans, and markers of ForceFlush calls with the count of spans before them. */
  datatype Item = Snapshot(s: Span) | Marker(task: nat, mark: nat)

  /** What the worker does after an export. */
  datatype Goal = Loop | Drain | Finish

  datatype Worker =
    | Select                             // the select of `processQueue`
    | Hand(item: Item, draining: bool)   // received, not appended yet
    | Want(goal: Goal)                   // `exportSpans`, before the lock
    | Locked(goal: Goal)
    | Sent(goal: Goal)                   // ExportSpans has returned
    | DrainSelect
    | Done

  datatype Step = XWant | XLocked | XSent | XDone(ok: bool)

  /** A goroutine of ForceFlush; mark is the count its marker carried, if it was accepted. */
  datatype Exporter = Exporter(step: Step, mark: Option<nat>)

  datatype Holder = Free | ByWorker | ByTask(id: nat)

  datatype Task =
    | EndCalled(s: Span, sampled: bool) | EndOpen(s: Span, sampled: bool) | EndDone
    | FlushCalled(ctx: nat) | FlushOpen(ctx: nat) | FlushOffer(ctx: nat) | FlushMarked(ctx: nat)
    | FlushWait(ctx: nat) | FlushDone(ctx: nat, ok: bool, mark: Option<nat>)
    | StopCalled(ctx: nat) | StopWait(ctx: nat) | StopDone(ok: bool, first: bool)

  /** The goroutine of Shutdown. */
  datatype Closer = NoCloser | CloseStop | AwaitWorker | Closed(ok: bool)

  /**
    The spans: all that the queue accepted, the queue, the shared batch and whether ExportSpans has been
    called with it, the calls of ExportSpans, the attempts to enqueue, and the drop counter.
   */
  datatype Ledger = Ledger(accepted: seq<Span>, queue: seq<Item>, batch: seq<Span>, sent: bool,
                           calls: seq<seq<Span>>, attempts: nat, drops: nat, dropped: int)

  /** The mutex, the flag `stopped`, the OnEnd calls past their look at it when it was set, `stopCh`,
      `stopOnce` (whether it has run to its end), and the goroutine of Shutdown. */
  datatype Flags =
    Flags(holder: Holder, stopped: bool, inFlight: set<nat>, stopCh: bool, onceOver: bool, closer: Closer)

  /** Calls, goroutines of ForceFlush, markers whose channel was closed, contexts cancelled. */
  datatype Callers =
    Callers(tasks: map<nat, Task>, exporters: map<nat, Exporter>, closed: map<nat, nat>, cancelled: set<nat>)

  datatype State = State(ledger: Ledger, flags: Flags, callers: Callers, worker: Worker)

  /** `MaxQueueSize`, which may be 0, and `MaxExportBatchSize`. */
  datatype Config = Config(room: nat, max: nat)

  datatype Label =
    | Cancel(ctx: nat)
    | Enter(id: nat, task: Task)
    | Advance(id: nat, ok: bool)     // ok: a non-blocking send to an unbuffered queue meets the worker
    | GiveUp(id: nat)                // the branch of a select for a cancelled context
    | SeeStop(id: nat)               // the branch of a select for `stopCh`
    | Export(id: nat, ok: bool)      // a goroutine of ForceFlush goes on
    | Close(ok: bool)                // the goroutine of Shutdown goes on
    | TimerFires
    | TakeStop
    | Receive
    | Work

  const DROPS := 0x1_0000_0000

  function Init(): State
  {
    State(Ledger([], [], [], false, [], 0, 0, 0), Flags(Free, false, {}, false, false, NoCloser),
      Callers(map[], map[], map[], {}), Select)
  }

  function Spans(queue: seq<Item>): seq<Span>
  {
    if |queue| == 0 then [] else
    Spans(queue[..|queue| - 1]) + if queue[|queue| - 1].Snapshot? then [queue[|queue| - 1].s] else []
  }

  /** All spans given to ExportSpans, call after call. */
  function Exported(calls: seq<seq<Span>>): seq<Span>
  {
    if |calls| == 0 then [] else Exported(calls[..|calls| - 1]) + calls[|calls| - 1]
  }

  function WithTask(s: State, id: nat, task: Task): State
  {
    s.(callers := s.callers.(tasks := s.callers.tasks[id := task]))
  }

  // ---------------------------------------------------------------- the queue

  /** Whether a send can go ahead: into the buffer, or from hand to hand when there is no buffer. */
  predicate CanSend(c: Config, s: State)
  {
    |s.ledger.queue| < c.room || (c.room == 0 && (s.worker.Select? || s.worker.DrainSelect?))
  }

  function Send(c: Config, s: State, item: Item): State
  {
    var s' := if item.Snapshot? then s.(ledger := s.ledger.(accepted := s.ledger.accepted + [item.s])) else s;
    if |s.ledger.queue| < c.room then s'.(ledger := s'.ledger.(queue := s'.ledger.queue + [item]))
    else s'.(worker := Hand(item, s.worker.DrainSelect?))
  }

  // ---------------------------------------------------------------- callers

  function Entered(s: State, id: nat, task: Task): State
  {
    if id !in s.callers.tasks && (task.EndCalled? || task.FlushCalled? || task.StopCalled?) then WithTask(s, id, task)
    else s
  }

  /** `enqueueDrop`: a full queue drops the span; only a worker that waits can take it without a buffer. */
  function Offered(c: Config, s: State, id: nat, span: Span, meets: bool): State
  {
    var s1 := WithTask(s, id, EndDone).(ledger := s.ledger.(attempts := s.ledger.attempts + 1));
    if |s.ledger.queue| < c.room || (c.room == 0 && meets && s.worker.Select?) then Send(c, s1, Snapshot(span))
    else s1.(ledger := s1.ledger.(drops := s.ledger.drops + 1, dropped := (s.ledger.dropped + 1) % DROPS))
  }

  /** Between the second and the third step of a ForceFlush lies its goroutine. */
  function StartExport(s: State, id: nat, ctx: nat, mark: Option<nat>): State
  {
    s.(callers := s.callers.(tasks := s.callers.tasks[id := FlushWait(ctx)],
                             exporters := s.callers.exporters[id := Exporter(XWant, mark)]))
  }

  function FlushAdvances(c: Config, s: State, id: nat, task: Task): State
  {
    match task
    case FlushCalled(ctx) =>
      WithTask(s, id, if ctx in s.callers.cancelled then FlushDone(ctx, false, None) else FlushOpen(ctx))
    case FlushOpen(ctx) => WithTask(s, id, if s.flags.stopped then FlushDone(ctx, true, None) else FlushOffer(ctx))
    case FlushOffer(ctx) =>
      if CanSend(c, s) then WithTask(Send(c, s, Marker(id, |s.ledger.accepted|)), id, FlushMarked(ctx)) else s
    case FlushMarked(ctx) =>
      if id in s.callers.closed then StartExport(s, id, ctx, Some(s.callers.closed[id])) else s
    case FlushWait(ctx) =>
      if id in s.callers.exporters && s.callers.exporters[id].step.XDone? then
        WithTask(s, id, FlushDone(ctx, s.callers.exporters[id].step.ok, s.callers.exporters[id].mark))
      else s
    case _ => s
  }

  /** The calls of OnEnd with a sampled span that have looked at `stopped` and not sent yet. */
  function InFlight(tasks: map<nat, Task>): set<nat>
  {
    set id | id in tasks && tasks[id].EndOpen? && tasks[id].sampled
  }

  function StopAdvances(s: State, id: nat, task: Task): State
  {
    match task
    case StopCalled(ctx) =>
      if s.flags.onceOver then WithTask(s, id, StopDone(true, false))
      else if s.flags.stopped then s
      else WithTask(s, id, StopWait(ctx))
        .(flags := s.flags.(stopped := true, inFlight := InFlight(s.callers.tasks), closer := CloseStop))
    case StopWait(ctx) =>
      if s.flags.closer.Closed? then
        WithTask(s, id, StopDone(s.flags.closer.ok, true)).(flags := s.flags.(onceOver := true))
      else s
    case _ => s
  }

  function Advanced(c: Config, s: State, id: nat, ok: bool): State
  {
    if id !in s.callers.tasks then s else
    var task := s.callers.tasks[id];
    match task
    case EndCalled(span, sampled) => WithTask(s, id, if s.flags.stopped then EndDone else EndOpen(span, sampled))
    case EndOpen(span, sampled) => if sampled then Offered(c, s, id, span, ok) else WithTask(s, id, EndDone)
    case StopCalled(_) => StopAdvances(s, id, task)
    case StopWait(_) => StopAdvances(s, id, task)
    case _ => FlushAdvances(c, s, id, task)
  }

  /** A cancelled ForceFlush that could not place its marker exports what is in the batch all the same. */
  function GivenUp(s: State, id: nat): State
  {
    if id !in s.callers.tasks then s else
    match s.callers.tasks[id]
    case FlushOffer(ctx) => if ctx in s.callers.cancelled then StartExport(s, id, ctx, None) else s
    case FlushMarked(ctx) => if ctx in s.callers.cancelled then WithTask(s, id, FlushDone(ctx, false, None)) else s
    case FlushWait(ctx) => if ctx in s.callers.cancelled then WithTask(s, id, FlushDone(ctx, false, None)) else s
    case StopWait(ctx) =>
      if ctx in s.callers.cancelled then
        WithTask(s, id, StopDone(false, true)).(flags := s.flags.(onceOver := true))
      else s
    case _ => s
  }

  function StopSeen(s: State, id: nat): State
  {
    if id in s.callers.tasks && s.callers.tasks[id].FlushMarked? && s.flags.stopCh then
      WithTask(s, id, FlushDone(s.callers.tasks[id].ctx, true, None))
    else s
  }

  // ---------------------------------------------------------------- exports

  /** ExportSpans with the batch; the mutex is held. */
  function Exporting(l: Ledger): Ledger { l.(sent := true, calls := l.calls + [l.batch]) }

  /** Clear the batch. */
  function Cleared(l: Ledger): Ledger { l.(batch := [], sent := false) }

  function WithStep(s: State, id: nat, step: Step): State
    requires id in s.callers.exporters
  {
    s.(callers := s.callers.(exporters := s.callers.exporters[id := s.callers.exporters[id].(step := step)]))
  }

  function ExportMoves(s: State, id: nat, ok: bool): State
  {
    if id !in s.callers.exporters then s else
    match s.callers.exporters[id].step
    case XWant =>
      if s.flags.holder.Free? then WithStep(s, id, XLocked).(flags := s.flags.(holder := ByTask(id))) else s
    case XLocked =>
      if s.ledger.batch == [] then WithStep(s, id, XDone(true)).(flags := s.flags.(holder := Free))
      else WithStep(s, id, XSent).(ledger := Exporting(s.ledger))
    case XSent =>
      WithStep(s, id, XDone(ok)).(ledger := Cleared(s.ledger), flags := s.flags.(holder := Free))
    case XDone(_) => s
  }

  function CloserMoves(s: State, ok: bool): State
  {
    match s.flags.closer
    case CloseStop => s.(flags := s.flags.(stopCh := true, closer := AwaitWorker))
    case AwaitWorker => if s.worker.Done? then s.(flags := s.flags.(closer := Closed(ok))) else s
    case _ => s
  }

  // ---------------------------------------------------------------- the worker

  /** Where the worker goes on after an export. */
  function Following(goal: Goal): Worker
  {
    match goal case Loop => Select case Drain => DrainSelect case Finish => Done
  }

  /** Append the span in the worker's hand to the batch; a full batch is exported. */
  function Appending(c: Config, s: State, span: Span, draining: bool): State
  {
    if !s.flags.holder.Free? then s else
    var batch := s.ledger.batch + [span];
    var full := if draining then |batch| == c.max else |batch| >= c.max;
    var goal := if draining then Drain else Loop;
    s.(ledger := s.ledger.(batch := batch), worker := if full then Want(goal) else Following(goal))
  }

  function Worked(c: Config, s: State): State
  {
    match s.worker
    case Hand(Snapshot(span), draining) => Appending(c, s, span, draining)
    case Hand(Marker(id, mark), false) =>
      s.(worker := Select, callers := s.callers.(closed := s.callers.closed[id := mark]))
    case Hand(Marker(_, _), true) => s.(worker := DrainSelect)
    case Want(goal) =>
      if s.flags.holder.Free? then s.(worker := Locked(goal), flags := s.flags.(holder := ByWorker)) else s
    case Locked(goal) =>
      if s.ledger.batch == [] then s.(worker := Following(goal), flags := s.flags.(holder := Free))
      else s.(worker := Sent(goal), ledger := Exporting(s.ledger))
    case Sent(goal) => s.(worker := Following(goal), ledger := Cleared(s.ledger), flags := s.flags.(holder := Free))
    case DrainSelect => if s.ledger.queue == [] then s.(worker := Want(Finish)) else s
    case _ => s
  }

  function Received(s: State): State
  {
    if (s.worker.Select? || s.worker.DrainSelect?) && s.ledger.queue != [] then
      s.(worker := Hand(s.ledger.queue[0], s.worker.DrainSelect?), ledger := s.ledger.(queue := s.ledger.queue[1..]))
    else s
  }

  /** The state after a step; a step that is not possible changes nothing. */
  function Next(c: Config, s: State, l: Label): State
  {
    match l
    case Cancel(ctx) => s.(callers := s.callers.(cancelled := s.callers.cancelled + {ctx}))
    case Enter(id, task) => Entered(s, id, task)
    case Advance(id, ok) => Advanced(c, s, id, ok)
    case GiveUp(id) => GivenUp(s, id)
    case SeeStop(id) => StopSeen(s, id)
    case Export(id, ok) => ExportMoves(s, id, ok)
    case Close(ok) => CloserMoves(s, ok)
    case TimerFires => if s.worker.Select? then s.(worker := Want(Loop)) else s
    case TakeStop => if s.worker.Select? && s.flags.stopCh then s.(worker := DrainSelect) else s
    case Receive => Received(s)
    case Work => Worked(c, s)
  }

  function Run(c: Config, s: State, ls: seq<Label>): State
  {
    if |ls| == 0 then s else Next(c, Run(c, s, ls[..|ls| - 1]), ls[|ls| - 1])
  }
}

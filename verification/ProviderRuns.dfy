/**
  The logger provider around its processor: any number of emits, flushes and Enabled calls pass the gate
  while Shutdown is called.  From the gate and the processor's own promises follows end-to-end delivery.
 */
module ProviderRuns {
  import opened Prelude
  import Q = LogQueue
  import B = BatchProcessor
  import L = BatchLifecycle
  import opened LoggerProvider

  /** Where a call of the provider stands. */
  datatype Op =
    | Refused                        // the gate was closed
    | Active | Over                  // between begin and end, and after
    | Draining(ctx: nat, tested: bool) | DrainFailed
    | Stopping(ctx: nat)             // in the processor's Shutdown
    | StopReturned(ok: bool, first: bool)

  /** `past` are the steps of the processor so far; faulted says that a channel was closed wrongly. */
  datatype State = State(
    gate: Gate, ops: map<nat, Op>, first: Option<nat>, p: B.State, past: seq<B.Label>, faulted: bool)

  datatype Label =
    | Begin(id: nat, call: Option<B.Task>)   // None: Enabled, which does not touch the processor's state
    | End(id: nat)
    | Stop(id: nat, ctx: nat)
    | Drain(id: nat)
    | StopEnd(id: nat)
    | Inner(l: B.Label)

  function Init(cap: nat): State
  {
    State(Gate(0, false, Missing), map[], None, B.Init(cap), [], false)
  }

  predicate Terminal(task: B.Task) { task.EmitDone? || task.FlushDone? || task.StopDone? }

  function Do(b: nat, s: State, l: B.Label): State
  {
    s.(p := B.Next(b, s.p, l), past := s.past + [l])
  }

  function WithOp(s: State, id: nat, op: Op): State { s.(ops := s.ops[id := op]) }

  function Beginning(b: nat, s: State, id: nat, call: Option<B.Task>): State
  {
    if id in s.ops || (call.Some? && !call.value.EmitCalled? && !call.value.FlushCalled?) then s
    else if s.gate.stopped then WithOp(s, id, Refused)
    else
      var s' := WithOp(s, id, Active).(gate := Begun(s.gate));
      if call.Some? then Do(b, s', B.Enter(id, call.value)) else s'
  }

  function Ending(s: State, id: nat): State
  {
    if id in s.ops && s.ops[id].Active? && (id in s.p.callers.tasks ==> Terminal(s.p.callers.tasks[id])) then
      WithOp(s, id, Over).(gate := Ended(s.gate), faulted := s.faulted || EndFaults(s.gate))
    else s
  }

  function Closing(s: State, id: nat, ctx: nat): State
  {
    if id in s.ops then s
    else if s.gate.stopped then WithOp(s, id, StopReturned(true, false))
    else WithOp(s, id, Draining(ctx, false)).(gate := Stopped(s.gate), first := Some(id))
  }

  /** `waitForProcessorOperations`: a look at the context, then the wait. */
  function DrainingOn(b: nat, s: State, id: nat): State
  {
    if id !in s.ops || !s.ops[id].Draining? then s else
    var ctx := s.ops[id].ctx;
    var cancelled := ctx in s.p.callers.cancelled;
    if !s.ops[id].tested then
      WithOp(s, id, if cancelled then DrainFailed else Draining(ctx, true))
    else match Waited(s.gate, cancelled)
      case Drained => Do(b, WithOp(s, id, Stopping(ctx)), B.Enter(id, B.StopCalled(ctx)))
      case GaveUp => WithOp(s, id, DrainFailed)
      case Waits => s
  }

  function StopEnding(s: State, id: nat): State
  {
    if id in s.ops && s.ops[id].Stopping? && id in s.p.callers.tasks && s.p.callers.tasks[id].StopDone? then
      WithOp(s, id, StopReturned(s.p.callers.tasks[id].ok, true))
    else s
  }

  function Next(b: nat, s: State, l: Label): State
  {
    match l
    case Begin(id, call) => Beginning(b, s, id, call)
    case End(id) => Ending(s, id)
    case Stop(id, ctx) => Closing(s, id, ctx)
    case Drain(id) => DrainingOn(b, s, id)
    case StopEnd(id) => StopEnding(s, id)
    case Inner(l) => if l.Enter? then s else Do(b, s, l)
  }

  function After(b: nat, s: State, ls: seq<Label>): State
  {
    if |ls| == 0 then s else Next(b, After(b, s, ls[..|ls| - 1]), ls[|ls| - 1])
  }

  // ---------------------------------------------------------------- the gate

  ghost function ActiveOps(ops: map<nat, Op>): set<nat>
  {
    set id | id in ops && ops[id].Active?
  }

  predicate OfShutdown(op: Op)
  {
    op.Draining? || op.DrainFailed? || op.Stopping? || (op.StopReturned? && op.first)
  }

  predicate InProcessorShutdown(op: Op)
  {
    op.Stopping? || (op.StopReturned? && op.first)
  }

  /**
    The counter counts the operations admitted and not ended; the channel is missing until Shutdown
    starts, and closed exactly when then none is left.  Only the first Shutdown gets anywhere, and it
    enters the processor when no operation is active.
   */
  ghost predicate GateFits(g: Gate, ops: map<nat, Op>, first: Option<nat>)
  {
    && g.active == |ActiveOps(ops)|
    && g.done == (if !g.stopped then Missing else if g.active > 0 then Open else Closed)
    && (g.stopped <==> first.Some?)
    && (forall id :: id in ops && OfShutdown(ops[id]) ==> first == Some(id))
    && (forall id :: id in ops && InProcessorShutdown(ops[id]) ==> g.done == Closed)
  }

  lemma OpCounts(ops: map<nat, Op>, id: nat, op: Op)
    ensures var was := id in ops && ops[id].Active?;
      |ActiveOps(ops[id := op])| ==
        |ActiveOps(ops)| + (if op.Active? && !was then 1 else 0) - (if !op.Active? && was then 1 else 0)
  {
    var before, after := ActiveOps(ops), ActiveOps(ops[id := op]);
    if op.Active? { assert after == before + {id}; } else { assert after == before - {id}; }
  }

  lemma SomeActive(ops: map<nat, Op>, id: nat)
    requires id in ops && ops[id].Active?
    ensures |ActiveOps(ops)| >= 1
  {
    assert id in ActiveOps(ops);
  }

  lemma NextGate(b: nat, s: State, l: Label)
    requires GateFits(s.gate, s.ops, s.first) && !s.faulted
    ensures var s' := Next(b, s, l); GateFits(s'.gate, s'.ops, s'.first) && !s'.faulted
  {
    hide B.Next;
    if !l.Inner? && Next(b, s, l) != s {
      OpCounts(s.ops, l.id, Next(b, s, l).ops[l.id]);
      if l.End? { SomeActive(s.ops, l.id); }
      hide ActiveOps;
    }
  }

  /** For any number of concurrent calls: no fault, nothing admitted after the stop, drained before the processor is. */
  lemma {:induction false} RunGate(b: nat, cap: nat, ls: seq<Label>)
    ensures var s := After(b, Init(cap), ls); GateFits(s.gate, s.ops, s.first) && !s.faulted
  {
    if |ls| > 0 {
      RunGate(b, cap, ls[..|ls| - 1]);
      NextGate(b, After(b, Init(cap), ls[..|ls| - 1]), ls[|ls| - 1]);
    } else {
      assert ActiveOps(map[]) == {};
    }
  }

  /** `past` is a run of the processor that leads to its state. */
  lemma {:induction false} RunOfProcessor(b: nat, cap: nat, ls: seq<Label>)
    ensures var s := After(b, Init(cap), ls); s.p == B.After(b, B.Init(cap), s.past)
  {
    if |ls| == 0 {
    } else {
      RunOfProcessor(b, cap, ls[..|ls| - 1]);
      var s, l := After(b, Init(cap), ls[..|ls| - 1]), ls[|ls| - 1];
      NextOfProcessor(b, cap, s, l);
    }
  }

  lemma NextOfProcessor(b: nat, cap: nat, s: State, l: Label)
    requires s.p == B.After(b, B.Init(cap), s.past)
    ensures var s' := Next(b, s, l); s'.p == B.After(b, B.Init(cap), s'.past)
  {
    PastGrows(b, s, l);
    hide Next, B.Next, B.Init;
    var s' := Next(b, s, l);
    if s'.past != s.past {
      var last := s'.past[|s.past|];
      assert s'.past == s.past + [last] && s'.past[..|s.past|] == s.past;
    }
  }

  /** A step of the provider is at most one of the processor. */
  lemma PastGrows(b: nat, s: State, l: Label)
    ensures var s' := Next(b, s, l);
      || (s'.past == s.past && s'.p == s.p)
      || (|s'.past| == |s.past| + 1 && s'.past == s.past + [s'.past[|s.past|]]
          && s'.p == B.Next(b, s.p, s'.past[|s.past|]))
  {
    hide B.Next;
  }

  // ---------------------------------------------------------------- calls and the processor's tasks

  predicate IsStop(task: B.Task)
  {
    task.StopCalled? || task.StopWon? || task.StopClosed? || task.StopQueued? || task.StopAwait? || task.StopDone?
  }

  /** A flush that returned nil though the worker did not answer it. */
  predicate EmptyNil(task: B.Task) { task.FlushDone? && task.ok && !task.answered }

  /**
    A call is in the processor while its operation is; its record was not refused, its flush got a nil only
    from the worker, its Shutdown was the first.
   */
  predicate CallFits(op: Op, task: B.Task)
  {
    && (if IsStop(task) then InProcessorShutdown(op) else op.Active? || (op.Over? && Terminal(task)))
    && !(task.EmitDone? && task.at.None?)
    && !EmptyNil(task)
    && (task.StopDone? ==> task.won)
    && (op.StopReturned? ==> task.StopDone? && task.ok == op.ok)
  }

  ghost predicate CallsFit(ops: map<nat, Op>, tasks: map<nat, B.Task>)
  {
    && (forall id :: id in tasks ==> id in ops && CallFits(ops[id], tasks[id]))
    && (forall id :: id in ops && InProcessorShutdown(ops[id]) ==> id in tasks)
  }

  lemma StoppedIsDrained(s: State)
    requires GateFits(s.gate, s.ops, s.first) && CallsFit(s.ops, s.p.callers.tasks) && L.Life(s.p)
    ensures s.p.flags.stopped ==>
      s.gate.done == Closed && s.first.Some? && s.first.value in s.p.callers.tasks
      && L.Won(s.p.callers.tasks[s.first.value])
  {
    if s.p.flags.stopped {
      var x := s.p.flags.stopper.value;
      assert L.Won(s.p.callers.tasks[x]) && CallFits(s.ops[x], s.p.callers.tasks[x]);
    }
  }

  /** While an operation is active, or Shutdown is about to begin, the processor is not stopped. */
  lemma NotStopped(s: State, id: nat)
    requires GateFits(s.gate, s.ops, s.first) && CallsFit(s.ops, s.p.callers.tasks) && L.Life(s.p)
    requires id in s.p.callers.tasks && id in s.ops
    requires s.ops[id].Active? || s.p.callers.tasks[id].StopCalled?
    ensures !s.p.flags.stopped
  {
    if s.ops[id].Active? { SomeActive(s.ops, id); }
    assert CallFits(s.ops[id], s.p.callers.tasks[id]);
    StoppedIsDrained(s);
  }

  lemma TaskMoves(b: nat, p: B.State, id: nat)
    requires id in p.callers.tasks
    requires p.flags.stopped ==>
      !p.callers.tasks[id].EmitCalled? && !p.callers.tasks[id].StopCalled? && !p.callers.tasks[id].FlushCalled?
    requires p.ledger.t.q.closed ==> !p.callers.tasks[id].EmitOpen?
    ensures var (task, task') := (p.callers.tasks[id], B.Advanced(b, p, id).callers.tasks[id]);
      && (IsStop(task') <==> IsStop(task)) && (Terminal(task) ==> task' == task)
      && (task'.EmitDone? && task'.at.None? ==> task == task') && (task'.StopDone? && !task'.won ==> task == task')
      && (EmptyNil(task') ==> task == task')
    ensures B.Advanced(b, p, id).callers.tasks == p.callers.tasks[id := B.Advanced(b, p, id).callers.tasks[id]]
  {}

  lemma AdvanceCalls(b: nat, s: State, id: nat)
    requires GateFits(s.gate, s.ops, s.first) && CallsFit(s.ops, s.p.callers.tasks) && L.Life(s.p)
    ensures CallsFit(s.ops, B.Advanced(b, s.p, id).callers.tasks)
  {
    if id in s.p.callers.tasks {
      var task := s.p.callers.tasks[id];
      assert CallFits(s.ops[id], task);
      if s.ops[id].Active? || task.StopCalled? { NotStopped(s, id); }
      TaskMoves(b, s.p, id);
      hide B.Advanced;
    }
  }

  lemma InnerCalls(b: nat, s: State, l: B.Label)
    requires GateFits(s.gate, s.ops, s.first) && CallsFit(s.ops, s.p.callers.tasks) && L.Life(s.p) && !l.Enter?
    ensures CallsFit(s.ops, B.Next(b, s.p, l).callers.tasks)
  {
    hide B.Advanced, B.Worked, L.Life, GateFits;
    match l
    case Advance(id) => AdvanceCalls(b, s, id);
    case Work(ok) => WorkerCalls(b, s.p, ok);
    case GiveUp(_) => SelectCalls(b, s, l);
    case SeeDone(id) => DoneNotSeen(s, id);
    case Handover(_) => SelectCalls(b, s, l);
    case _ =>
  }

  lemma WorkerCalls(b: nat, p: B.State, ok: bool)
    ensures B.Worked(b, p, ok).callers.tasks == p.callers.tasks
  {}

  lemma SelectCalls(b: nat, s: State, l: B.Label)
    requires CallsFit(s.ops, s.p.callers.tasks) && (l.GiveUp? || l.Handover?)
    ensures CallsFit(s.ops, B.Next(b, s.p, l).callers.tasks)
  {
    var tasks := s.p.callers.tasks;
    if l.id in tasks { assert CallFits(s.ops[l.id], tasks[l.id]); }
  }

  /** While a flush is offered, its operation is active and `done` is open. */
  lemma DoneNotSeen(s: State, id: nat)
    requires GateFits(s.gate, s.ops, s.first) && CallsFit(s.ops, s.p.callers.tasks) && L.Life(s.p)
    ensures B.DoneSeen(s.p, id) == s.p
  {
    if B.Offers(s.p, id) {
      assert CallFits(s.ops[id], s.p.callers.tasks[id]);
      NotStopped(s, id);
      if s.p.flags.done { L.DoneIsStopped(s.p); }
    }
  }

  lemma OpMoves(ops: map<nat, Op>, tasks: map<nat, B.Task>, id: nat, op: Op)
    requires CallsFit(ops, tasks) && (if id in tasks then CallFits(op, tasks[id]) else !InProcessorShutdown(op))
    ensures CallsFit(ops[id := op], tasks)
  {}

  lemma BothMove(ops: map<nat, Op>, tasks: map<nat, B.Task>, id: nat, op: Op, task: B.Task)
    requires CallsFit(ops, tasks) && CallFits(op, task)
    ensures CallsFit(ops[id := op], tasks[id := task])
  {}

  lemma BeginCalls(b: nat, s: State, id: nat, call: Option<B.Task>)
    requires CallsFit(s.ops, s.p.callers.tasks)
    ensures var s' := Beginning(b, s, id, call); CallsFit(s'.ops, s'.p.callers.tasks)
  {
    var s' := Beginning(b, s, id, call);
    if s' != s {
      assert CallFits(Active, B.EmitCalled(0)) && CallFits(Active, B.FlushCalled(0, 0));
      hide CallsFit;
      if s'.past == s.past {
        OpMoves(s.ops, s.p.callers.tasks, id, s'.ops[id]);
      } else {
        BothMove(s.ops, s.p.callers.tasks, id, Active, s'.p.callers.tasks[id]);
      }
    }
  }

  lemma EndCalls(s: State, id: nat)
    requires CallsFit(s.ops, s.p.callers.tasks)
    ensures var s' := Ending(s, id); CallsFit(s'.ops, s'.p.callers.tasks)
  {
    if Ending(s, id) != s {
      if id in s.p.callers.tasks { assert CallFits(s.ops[id], s.p.callers.tasks[id]); }
      OpMoves(s.ops, s.p.callers.tasks, id, Over);
    }
  }

  lemma ShutdownCalls(b: nat, s: State, l: Label)
    requires CallsFit(s.ops, s.p.callers.tasks) && (l.Stop? || l.Drain? || l.StopEnd?)
    ensures var s' := Next(b, s, l); CallsFit(s'.ops, s'.p.callers.tasks)
  {
    var s' := Next(b, s, l);
    if s' != s {
      if l.id in s.p.callers.tasks { assert CallFits(s.ops[l.id], s.p.callers.tasks[l.id]); }
      if s'.past == s.past {
        OpMoves(s.ops, s.p.callers.tasks, l.id, s'.ops[l.id]);
      } else {
        BothMove(s.ops, s.p.callers.tasks, l.id, s'.ops[l.id], s'.p.callers.tasks[l.id]);
      }
    }
  }

  lemma NextCalls(b: nat, s: State, l: Label)
    requires GateFits(s.gate, s.ops, s.first) && CallsFit(s.ops, s.p.callers.tasks) && L.Life(s.p)
    ensures var s' := Next(b, s, l); CallsFit(s'.ops, s'.p.callers.tasks)
  {
    hide CallsFit, L.Life, B.Next, Beginning, Ending, Closing, DrainingOn, StopEnding;
    match l
    case Begin(id, call) => BeginCalls(b, s, id, call);
    case End(id) => EndCalls(s, id);
    case Inner(step) => if !step.Enter? { InnerCalls(b, s, step); }
    case _ => ShutdownCalls(b, s, l);
  }

  lemma {:induction false} RunCalls(b: nat, cap: nat, ls: seq<Label>)
    ensures var s := After(b, Init(cap), ls); CallsFit(s.ops, s.p.callers.tasks)
  {
    if |ls| == 0 {
    } else {
      var before := ls[..|ls| - 1];
      var s := After(b, Init(cap), before);
      RunCalls(b, cap, before);
      RunGate(b, cap, before);
      RunOfProcessor(b, cap, before);
      L.RunLife(b, cap, s.past);
      NextCalls(b, s, ls[|ls| - 1]);
    }
  }
}

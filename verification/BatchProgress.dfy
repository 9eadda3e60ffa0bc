/** The log processor's worker is never stuck once Shutdown has put its request: it can always finish and answer. */
module BatchProgress {
  import opened Prelude
  import Q = LogQueue
  import opened BatchProcessor
  import opened BatchFlow
  import opened BatchLifecycle
  import C = BatchFlush

  /** Shutdown's request waits in its channel, or the worker has taken it. */
  predicate Requested(s: State)
  {
    && (s.flags.request.Some? <==> !InShutdown(s.worker))
    && (s.flags.request.Some? ==> s.flags.request.value.Shutdown?)
    && JobFits(s.worker) && (s.worker.Send? ==> s.worker.left != [])
  }

  /** Steps of those inside: nobody calls, and no context is cancelled. */
  predicate Inside(ls: seq<Label>)
  {
    forall i :: 0 <= i < |ls| ==> !ls[i].Enter? && !ls[i].Cancel?
  }

  lemma InsideJoined(ls: seq<Label>, more: seq<Label>)
    ensures Inside(ls + more) <==> Inside(ls) && Inside(more)
  {
    forall i | 0 <= i < |ls| + |more| ensures (ls + more)[i] == if i < |ls| then ls[i] else more[i - |ls|] {}
    if Inside(ls + more) {
      forall i | 0 <= i < |ls| ensures !ls[i].Enter? && !ls[i].Cancel? { assert ls[i] == (ls + more)[i]; }
      forall i | 0 <= i < |more| ensures !more[i].Enter? && !more[i].Cancel? {
        assert more[i] == (ls + more)[|ls| + i];
      }
    }
  }

  /** The worker's next step when nobody else moves. */
  function Drive(w: Worker): Label
  {
    if w.Probe? || w.Poll? || w.Block? then TakeShutdown else Work(true)
  }

  function Phase(w: Worker): nat
  {
    match w
    case FlushTest(_) => 8
    case Tally(_) => 7
    case Take(_) => 6
    case Test(_, _, _, _) => 5
    case Send(_, _, _, _) => 5
    case Sent(_, _, _, _) => 5
    case Finish(_, _, _) => 4
    case CloseExporter(_, _) => 3
    case CloseDone(_, _) => 2
    case Reply(_, _) => 1
    case _ => 0
  }

  /** One round of the loop that exports chunks goes Sent, Test, Send. */
  function Turn(w: Worker): nat { if w.Sent? then 3 else if w.Test? then 2 else if w.Send? then 1 else 0 }

  function Job1(w: Worker): nat { if InShutdown(w) then 0 else 1 }

  /** Before Shutdown's job comes the present one; within a job the phases, and the records left to export. */
  predicate Nearer(w': Worker, w: Worker)
  {
    || Job1(w') < Job1(w)
    || (Job1(w') == Job1(w) && Phase(w') < Phase(w))
    || (Job1(w') == Job1(w) && Phase(w') == Phase(w) && |Held(w')| < |Held(w)|)
    || (Job1(w') == Job1(w) && Phase(w') == Phase(w) && |Held(w')| == |Held(w)| && Turn(w') < Turn(w))
  }

  /** Whether all calls of the exporter for the worker's job have returned nil so far, and no look failed. */
  predicate Good(w: Worker)
  {
    w.Test? || w.Send? || w.Sent? || w.Finish? || w.CloseExporter? || w.CloseDone? || w.Reply? ==> w.ok
  }

  /** This job will be answered, and with nil if good. */
  predicate Answers(s: State, job: Job, good: bool)
    requires job.Shutdown?
  {
    var rs := s.callers.responses;
    || s.flags.request == Some(job)
    || (HasJob(s.worker) && s.worker.job == job && (good ==> Good(s.worker)))
    || (s.worker.Exited? && job.task in rs && rs[job.task].job == job && (good ==> rs[job.task].ok))
  }

  lemma DriveNearer(b: nat, s: State, job: Job, good: bool)
    requires b >= 1 && Requested(s) && !s.worker.Exited? && job.Shutdown?
    requires good ==> job.ctx !in s.callers.cancelled
    ensures var s' := Next(b, s, Drive(s.worker));
      && Requested(s') && Nearer(s'.worker, s.worker) && s'.callers.tasks == s.callers.tasks
      && s'.callers.cancelled == s.callers.cancelled && (Answers(s, job, good) ==> Answers(s', job, good))
  {
    hide Sending, Taking;
    if s.worker.Send? { SendNearer(b, s); } else if s.worker.Take? { TakeNearer(b, s); }
  }

  lemma SendNearer(b: nat, s: State)
    requires b >= 1 && s.worker.Send? && s.worker.left != []
    ensures var (w, s') := (s.worker, Sending(b, s, s.worker, true));
      && s'.worker.Sent? && s'.worker.job == w.job && s'.worker.ok == w.ok && |s'.worker.left| < |w.left|
      && s'.callers == s.callers && s'.flags == s.flags
  {}

  lemma TakeNearer(b: nat, s: State)
    requires s.worker.Take?
    ensures var (w, s') := (s.worker, Taking(b, s, s.worker.job));
      && s'.callers == s.callers && s'.flags == s.flags
      && if s'.worker.Probe? then w.job.Batch? else s'.worker.Test? && s'.worker.job == w.job && s'.worker.ok
  {}

  /** The worker alone, its calls of the exporter returning nil, comes to its end and answers Shutdown. */
  lemma {:induction false} WorkerCanFinish(b: nat, s: State, job: Job, good: bool) returns (ls: seq<Label>)
    requires b >= 1 && Requested(s) && job.Shutdown? && Answers(s, job, good)
    requires good ==> job.ctx !in s.callers.cancelled
    ensures var s' := After(b, s, ls);
      s'.worker.Exited? && s'.callers.tasks == s.callers.tasks && Answers(s', job, good) && Requested(s')
    ensures Inside(ls)
    decreases Job1(s.worker), Phase(s.worker), |Held(s.worker)|, Turn(s.worker)
  {
    if s.worker.Exited? { return []; }
    var l := Drive(s.worker);
    DriveNearer(b, s, job, good);
    assert Inside([l]);
    hide Next, Requested, Answers, Inside;
    var rest := WorkerCanFinish(b, Next(b, s, l), job, good);
    InsideJoined([l], rest);
    ls := [l] + rest;
    C.RunOne(b, s, [], l);
    assert [] + [l] == [l] && After(b, s, []) == s;
    C.RunJoin(b, s, [l], rest);
  }

  lemma RunRequested(b: nat, cap: nat, ls: seq<Label>)
    requires b >= 1 && cap >= 1
    ensures var s := After(b, Init(cap), ls); s.flags.request.Some? || InShutdown(s.worker) ==> Requested(s)
  {
    RunFlow(b, cap, ls);
    RunLife(b, cap, ls);
  }

  /** From every reachable state in which Shutdown's request is queued or taken, the worker can come to its end. */
  lemma WorkerFinishes(b: nat, cap: nat, ls: seq<Label>) returns (more: seq<Label>)
    requires b >= 1 && cap >= 1
    requires var s := After(b, Init(cap), ls); s.flags.request.Some? || InShutdown(s.worker)
    ensures var s' := After(b, After(b, Init(cap), ls), more);
      s'.worker.Exited? && s'.ledger.t.q.items == [] && s'.callers.tasks == After(b, Init(cap), ls).callers.tasks
    ensures Inside(more)
  {
    var s := After(b, Init(cap), ls);
    RunRequested(b, cap, ls);
    more := [];
    if !s.worker.Exited? {
      var job := if s.flags.request.Some? then s.flags.request.value else s.worker.job;
      more := WorkerCanFinish(b, s, job, false);
    }
    C.RunJoin(b, Init(cap), ls, more);
    RunLife(b, cap, ls + more);
  }

  // ---------------------------------------------------------------- the call of Shutdown

  /** The winning call, before its request has been taken. */
  predicate Pending(s: State, id: nat, ctx: nat)
  {
    id in s.callers.tasks &&
    match s.callers.tasks[id]
    case StopWon(c) => c == ctx
    case StopClosed(c) => c == ctx
    case StopQueued(c) => c == ctx
    case StopAwait(c) => c == ctx
    case _ => false
  }

  function CallerRank(task: Task): nat
  {
    match task case StopWon(_) => 3 case StopClosed(_) => 2 case StopQueued(_) => 1 case _ => 0
  }

  /** The call itself goes on until it waits for its answer. */
  lemma {:induction false} CallerCanWait(b: nat, s: State, id: nat, ctx: nat) returns (ls: seq<Label>)
    requires Life(s) && Pending(s, id, ctx) && ctx !in s.callers.cancelled
    requires (s.worker.Send? ==> s.worker.left != []) && !InShutdown(s.worker)
    requires s.flags.request.Some? ==> s.flags.request.value == Shutdown(id, ctx)
    ensures var s' := After(b, s, ls);
      && s'.callers.tasks == s.callers.tasks[id := StopAwait(ctx)] && s'.flags.request == Some(Shutdown(id, ctx))
      && Requested(s') && s'.callers.cancelled == s.callers.cancelled
    ensures Inside(ls)
    decreases CallerRank(s.callers.tasks[id])
  {
    var l := Advance(id);
    RequestFits(s, id, ctx);
    if s.callers.tasks[id].StopAwait? {
      hide Life;
      ls := [];
    } else {
      CallerStep(b, s, id, ctx);
      NextLife(b, s, l);
      hide Next, Life, Requested, Pending, InShutdown, JobFits;
      var s1 := Next(b, s, l);
      assert s.callers.tasks[id := s1.callers.tasks[id]][id := StopAwait(ctx)] == s.callers.tasks[id := StopAwait(ctx)];
      var rest := CallerCanWait(b, s1, id, ctx);
      ls := [l] + rest;
      C.RunOne(b, s, [], l);
      assert [] + [l] == [l] && After(b, s, []) == s;
      hide After;
      C.RunJoin(b, s, [l], rest);
    }
  }

  lemma RequestFits(s: State, id: nat, ctx: nat)
    requires Life(s) && Pending(s, id, ctx) && !InShutdown(s.worker)
    ensures s.callers.tasks[id].StopQueued? || s.callers.tasks[id].StopAwait? ==> s.flags.request.Some?
    ensures s.callers.tasks[id].StopWon? || s.callers.tasks[id].StopClosed? ==> s.flags.request.None?
    ensures JobFits(s.worker)
  {}

  lemma CallerStep(b: nat, s: State, id: nat, ctx: nat)
    requires Pending(s, id, ctx) && ctx !in s.callers.cancelled && !s.callers.tasks[id].StopAwait?
    requires s.callers.tasks[id].StopWon? || s.callers.tasks[id].StopClosed? ==> s.flags.request.None?
    ensures var s' := Next(b, s, Advance(id));
      && Pending(s', id, ctx) && s'.worker == s.worker && s'.callers.cancelled == s.callers.cancelled
      && s'.callers.tasks == s.callers.tasks[id := s'.callers.tasks[id]]
      && (s'.flags.request == s.flags.request || s'.flags.request == Some(Shutdown(id, ctx)))
      && CallerRank(s'.callers.tasks[id]) < CallerRank(s.callers.tasks[id])
  {}

  function ContextOf(task: Task): Option<nat>
  {
    match task
    case StopCalled(ctx) => Some(ctx)
    case StopWon(ctx) => Some(ctx)
    case StopClosed(ctx) => Some(ctx)
    case StopQueued(ctx) => Some(ctx)
    case StopAwait(ctx) => Some(ctx)
    case StopDone(ctx, _, _) => Some(ctx)
    case _ => None
  }

  /** The request carries the context of the call it comes from. */
  predicate ContextFits(s: State)
  {
    s.flags.request.Some? && s.flags.request.value.Shutdown? ==>
      var job := s.flags.request.value;
      job.task in s.callers.tasks && ContextOf(s.callers.tasks[job.task]) == Some(job.ctx)
  }

  lemma NextContext(b: nat, s: State, l: Label)
    requires ContextFits(s)
    ensures ContextFits(Next(b, s, l))
  {
    hide Worked, Advanced;
    if l.Advance? { AdvanceContext(b, s, l.id); }
    if l.Work? { WorkRequest(b, s, l.ok); }
  }

  lemma AdvanceContext(b: nat, s: State, id: nat)
    requires ContextFits(s)
    ensures ContextFits(Advanced(b, s, id))
  {}

  lemma WorkRequest(b: nat, s: State, ok: bool)
    ensures var s' := Worked(b, s, ok); s'.flags.request == s.flags.request && s'.callers.tasks == s.callers.tasks
  {}

  lemma {:induction false} RunContext(b: nat, cap: nat, ls: seq<Label>)
    ensures ContextFits(After(b, Init(cap), ls))
  {
    if |ls| == 0 {
    } else {
      RunContext(b, cap, ls[..|ls| - 1]);
      NextContext(b, After(b, Init(cap), ls[..|ls| - 1]), ls[|ls| - 1]);
    }
  }

  /**
    From every reachable state in which the winning Shutdown call has not come back and the worker has not
    taken its request, the call can return nil, if its context is not cancelled.
   */
  lemma ShutdownCanReturn(b: nat, cap: nat, ls: seq<Label>, id: nat, ctx: nat) returns (more: seq<Label>)
    requires b >= 1 && cap >= 1
    requires var s := After(b, Init(cap), ls);
      Pending(s, id, ctx) && ctx !in s.callers.cancelled && !InShutdown(s.worker)
    ensures var s' := After(b, After(b, Init(cap), ls), more);
      s'.worker.Exited? && id in s'.callers.tasks && s'.callers.tasks[id] == StopDone(ctx, true, true)
    ensures Inside(more)
  {
    var s := After(b, Init(cap), ls);
    RunFlow(b, cap, ls);
    RunLife(b, cap, ls);
    RunContext(b, cap, ls);
    RequestIsOwn(s, id, ctx);
    hide Next, Life, Flow, ContextFits;
    var wait := CallerCanWait(b, s, id, ctx);
    var s1 := After(b, s, wait);
    var work := WorkerCanFinish(b, s1, Shutdown(id, ctx), true);
    var s2 := After(b, s1, work);
    more := wait + work + [Advance(id)];
    C.RunJoin(b, s, wait, work);
    C.RunOne(b, s, wait + work, Advance(id));
    TakesAnswer(b, s2, id, ctx);
  }

  lemma RequestIsOwn(s: State, id: nat, ctx: nat)
    requires Life(s) && ContextFits(s) && Pending(s, id, ctx)
    ensures s.flags.request.Some? ==> s.flags.request.value == Shutdown(id, ctx)
  {}

  lemma TakesAnswer(b: nat, s: State, id: nat, ctx: nat)
    requires id in s.callers.tasks && s.callers.tasks[id] == StopAwait(ctx) && s.worker.Exited?
    requires Requested(s) && Answers(s, Shutdown(id, ctx), true)
    ensures var s' := Next(b, s, Advance(id));
      s'.worker.Exited? && id in s'.callers.tasks && s'.callers.tasks[id] == StopDone(ctx, true, true)
  {}
}

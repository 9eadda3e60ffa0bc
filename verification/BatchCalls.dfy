/** No call of the log processor is ever stuck, and a ForceFlush with a good context can return nil. */
module BatchCalls {
  import opened Prelude
  import Q = LogQueue
  import opened BatchProcessor
  import opened BatchFlow
  import opened BatchLifecycle
  import opened BatchAnswers
  import C = BatchFlush
  import P = BatchProgress

  /** The call has come back. */
  predicate Over(task: Task) { task.EmitDone? || task.FlushDone? || task.StopDone? }

  // ---------------------------------------------------------------- the worker's present job

  /** The worker has a job that is not Shutdown's, and fits it. */
  predicate Busy(w: Worker)
  {
    HasJob(w) && !w.job.Shutdown? && JobFits(w) && (w.Send? ==> w.left != [])
  }

  /** The phases of one job, and the records left to export. */
  predicate Closer(w': Worker, w: Worker)
  {
    || P.Phase(w') < P.Phase(w)
    || (P.Phase(w') == P.Phase(w) && |Held(w')| < |Held(w)|)
    || (P.Phase(w') == P.Phase(w) && |Held(w')| == |Held(w)| && P.Turn(w') < P.Turn(w))
  }

  /** What the worker's steps leave as it is. */
  predicate SameCallers(s: State, s': State)
  {
    && s'.callers.tasks == s.callers.tasks && s'.callers.cancelled == s.callers.cancelled
    && s'.flags.(trigger := s.flags.trigger) == s.flags
  }

  /** The job has been answered, with nil if good. */
  predicate HasAnswer(c: Callers, job: Job, good: bool)
    requires !job.Batch?
  {
    job.task in c.responses && c.responses[job.task].job == job && (good ==> c.responses[job.task].ok)
  }

  lemma WorkCloser(b: nat, s: State, good: bool)
    requires b >= 1 && Busy(s.worker)
    requires good ==> !Cancelled(s, s.worker.job) && P.Good(s.worker)
    ensures var (w, s') := (s.worker, Next(b, s, Work(true)));
      && SameCallers(s, s')
      && (s'.worker.Probe? || (Busy(s'.worker) && s'.worker.job == w.job && Closer(s'.worker, w)))
      && (s'.worker.Probe? && w.job.Flush? ==> HasAnswer(s'.callers, w.job, good))
      && (!s'.worker.Probe? && good ==> P.Good(s'.worker))
  {
    hide Sending, Taking;
    if s.worker.Send? { P.SendNearer(b, s); } else if s.worker.Take? { P.TakeNearer(b, s); }
  }

  /** The worker alone, its calls of the exporter returning nil, comes to the end of its present job. */
  lemma {:induction false} WorkerCanIdle(b: nat, s: State, good: bool) returns (ls: seq<Label>)
    requires b >= 1 && Busy(s.worker)
    requires good ==> !Cancelled(s, s.worker.job) && P.Good(s.worker)
    ensures var (w, s') := (s.worker, After(b, s, ls));
      && s'.worker.Probe? && SameCallers(s, s') && (w.job.Flush? ==> HasAnswer(s'.callers, w.job, good))
    ensures P.Inside(ls)
    decreases P.Phase(s.worker), |Held(s.worker)|, P.Turn(s.worker)
  {
    var l := Work(true);
    var s1 := Next(b, s, l);
    WorkCloser(b, s, good);
    hide Next, Busy, P.Good, HasAnswer, Cancelled;
    C.RunOne(b, s, [], l);
    assert [] + [l] == [l] && After(b, s, []) == s;
    if s1.worker.Probe? {
      ls := [l];
    } else {
      SameCancelled(s, s1);
      var rest := WorkerCanIdle(b, s1, good);
      ls := [l] + rest;
      C.RunJoin(b, s, [l], rest);
    }
  }

  lemma SameCancelled(s: State, s': State)
    requires SameCallers(s, s') && HasJob(s.worker) && HasJob(s'.worker) && s'.worker.job == s.worker.job
    ensures Cancelled(s', s'.worker.job) <==> Cancelled(s, s.worker.job)
  {}

  /** Before Shutdown's request, the worker can come to the second select, where it takes flushes. */
  lemma WorkerCanPoll(b: nat, s: State) returns (ls: seq<Label>)
    requires b >= 1 && (Busy(s.worker) || s.worker.Probe? || s.worker.Poll? || s.worker.Block?)
    requires s.flags.request.None?
    ensures var s' := After(b, s, ls);
      (s'.worker.Poll? || s'.worker.Block?) && SameCallers(s, s')
    ensures P.Inside(ls)
  {
    ls := [];
    assert After(b, s, []) == s;
    hide After, Next, Busy;
    if Busy(s.worker) { ls := WorkerCanIdle(b, s, false); }
    var s1 := After(b, s, ls);
    if s1.worker.Probe? {
      ProbePolls(b, s1);
      C.RunOne(b, s, ls, Work(true));
      ls := ls + [Work(true)];
    }
  }

  lemma ProbePolls(b: nat, s: State)
    requires s.worker.Probe? && s.flags.request.None?
    ensures Next(b, s, Work(true)) == s.(worker := Poll)
  {}

  // ---------------------------------------------------------------- ForceFlush

  predicate Flushing(task: Task) { task.FlushCalled? || task.FlushOpen? || task.FlushOffer? }

  /** The call goes on until it offers its request. */
  lemma CanOffer(b: nat, s: State, id: nat) returns (ls: seq<Label>)
    requires id in s.callers.tasks && Flushing(s.callers.tasks[id])
    requires s.callers.tasks[id].FlushCalled? ==> !s.flags.stopped
    requires s.callers.tasks[id].ctx !in s.callers.cancelled
    ensures var (task, s') := (s.callers.tasks[id], After(b, s, ls));
      && s' == s.(callers := s'.callers)
      && s'.callers == s.callers.(tasks := s.callers.tasks[id := FlushOffer(task.ctx, task.mark)])
    ensures P.Inside(ls)
  {
    var task := s.callers.tasks[id];
    var a := Advance(id);
    C.RunOne(b, s, [], a);
    C.RunOne(b, s, [] + [a], a);
    assert After(b, s, []) == s;
    if task.FlushCalled? {
      ls := [] + [a] + [a];
      var s1 := Next(b, s, a);
      assert s1 == WithTask(s, id, FlushOpen(task.ctx, task.mark));
      assert Next(b, s1, a) == WithTask(s1, id, FlushOffer(task.ctx, task.mark));
      var offered := FlushOffer(task.ctx, task.mark);
      assert s1.callers.tasks[id := offered] == s.callers.tasks[id := offered];
    } else if task.FlushOpen? {
      ls := [] + [a];
    } else {
      ls := [];
      assert s.callers.tasks[id := task] == s.callers.tasks;
    }
  }

  /** From the offer on: the worker takes the request, serves it, and the call gets its nil. */
  lemma OfferCanReturn(b: nat, s: State, id: nat) returns (ls: seq<Label>)
    requires b >= 1 && Offers(s, id) && s.flags.request.None?
    requires s.callers.tasks[id].ctx !in s.callers.cancelled
    requires Busy(s.worker) || s.worker.Probe? || s.worker.Poll? || s.worker.Block?
    ensures var (task, s') := (s.callers.tasks[id], After(b, s, ls));
      id in s'.callers.tasks && s'.callers.tasks[id] == FlushDone(task.ctx, task.mark, true, true)
    ensures P.Inside(ls)
  {
    var task := s.callers.tasks[id];
    var poll := WorkerCanPoll(b, s);
    var s1 := After(b, s, poll);
    C.RunOne(b, s, poll, Handover(id));
    var s2 := Next(b, s1, Handover(id));
    assert s2.worker == FlushTest(Flush(id, task.ctx, task.mark));
    assert s2.callers.tasks[id] == FlushAwait(task.ctx, task.mark) && s2.callers.cancelled == s.callers.cancelled;
    hide Next;
    var serve := WorkerCanIdle(b, s2, true);
    var s3 := After(b, s2, serve);
    C.RunJoin(b, s, poll + [Handover(id)], serve);
    C.RunOne(b, s, poll + [Handover(id)] + serve, Advance(id));
    hide After;
    ls := poll + [Handover(id)] + serve + [Advance(id)];
    PicksUp(b, s3, id, Flush(id, task.ctx, task.mark));
  }

  lemma PicksUp(b: nat, s: State, id: nat, job: Job)
    requires job.Flush? && job.task == id && HasAnswer(s.callers, job, true)
    requires id in s.callers.tasks && s.callers.tasks[id] == FlushAwait(job.ctx, job.mark)
    ensures var s' := Next(b, s, Advance(id));
      id in s'.callers.tasks && s'.callers.tasks[id] == FlushDone(job.ctx, job.mark, true, true)
  {}

  lemma NoShutdownYet(b: nat, s: State)
    requires Life(s) && Flow(b, s.ledger, s.worker) && s.flags.request.None? && !InShutdown(s.worker)
    ensures Busy(s.worker) || s.worker.Probe? || s.worker.Poll? || s.worker.Block?
  {
    hide OneWinner, Stage;
  }

  /**
    From every reachable state with the processor not stopped: a ForceFlush that has not been handed over, its
    context not cancelled, can return nil, and with an answer of the worker.
   */
  lemma FlushCanReturn(b: nat, cap: nat, ls: seq<Label>, id: nat) returns (more: seq<Label>)
    requires b >= 1 && cap >= 1
    requires var s := After(b, Init(cap), ls);
      && id in s.callers.tasks && Flushing(s.callers.tasks[id]) && s.callers.tasks[id].ctx !in s.callers.cancelled
      && !s.flags.stopped
    ensures var (task, s') := (After(b, Init(cap), ls).callers.tasks[id], After(b, After(b, Init(cap), ls), more));
      id in s'.callers.tasks && s'.callers.tasks[id] == FlushDone(task.ctx, task.mark, true, true)
    ensures P.Inside(more)
  {
    var s := After(b, Init(cap), ls);
    RunLife(b, cap, ls);
    RunFlow(b, cap, ls);
    NotStoppedIsIdle(s);
    NoShutdownYet(b, s);
    hide Life, Flow, Next;
    var offer := CanOffer(b, s, id);
    var s1 := After(b, s, offer);
    var rest := OfferCanReturn(b, s1, id);
    more := offer + rest;
    C.RunJoin(b, s, offer, rest);
  }

  lemma NotStoppedIsIdle(s: State)
    requires Life(s) && !s.flags.stopped
    ensures s.flags.request.None? && !InShutdown(s.worker)
  {
    hide OneWinner;
  }

  // ---------------------------------------------------------------- no call is stuck

  /** Who waits for an answer has it, or the request is queued or being served. */
  predicate IsServed(s: State, id: nat, task: Task)
  {
    match task
    case FlushAwait(_, _) =>
      id in s.callers.responses || (HasJob(s.worker) && s.worker.job.Flush? && s.worker.job.task == id)
    case StopQueued(_) => id in s.callers.responses || StopServed(s, id)
    case StopAwait(_) => id in s.callers.responses || StopServed(s, id)
    case _ => true
  }

  predicate StopServed(s: State, id: nat)
  {
    || (s.flags.request.Some? && s.flags.request.value.Shutdown? && s.flags.request.value.task == id)
    || (HasJob(s.worker) && s.worker.job.Shutdown? && s.worker.job.task == id)
  }

  ghost predicate AllServed(s: State) { forall id :: id in s.callers.tasks ==> IsServed(s, id, s.callers.tasks[id]) }

  lemma CallerServed(b: nat, s: State, l: Label)
    requires AllServed(s) && !l.Work?
    ensures AllServed(Next(b, s, l))
  {
    hide Advanced;
    if l.Advance? { AdvanceServed(b, s, l.id); }
  }

  lemma AdvanceServed(b: nat, s: State, id: nat)
    requires AllServed(s)
    ensures AllServed(Advanced(b, s, id))
  {}

  lemma WorkServed(b: nat, s: State, ok: bool)
    requires AllServed(s)
    ensures AllServed(Worked(b, s, ok))
  {
    WorkKeepsRequests(b, s, ok);
    hide Worked;
  }

  /** The worker drops no request but by answering it. */
  lemma WorkKeepsRequests(b: nat, s: State, ok: bool)
    ensures var (w, s') := (s.worker, Worked(b, s, ok));
      && s'.callers.tasks == s.callers.tasks && s'.flags.request == s.flags.request
      && s.callers.responses.Keys <= s'.callers.responses.Keys
      && (HasJob(w) && !w.job.Batch? ==>
        w.job.task in s'.callers.responses || (HasJob(s'.worker) && s'.worker.job == w.job))
  {}

  lemma {:induction false} RunServed(b: nat, cap: nat, ls: seq<Label>)
    ensures AllServed(After(b, Init(cap), ls))
  {
    if |ls| == 0 {
    } else {
      var s, l := After(b, Init(cap), ls[..|ls| - 1]), ls[|ls| - 1];
      RunServed(b, cap, ls[..|ls| - 1]);
      hide AllServed, Worked;
      if l.Work? { WorkServed(b, s, l.ok); } else { CallerServed(b, s, l); }
    }
  }

  /** An emit needs no one else. */
  lemma EmitCanReturn(b: nat, s: State, id: nat) returns (ls: seq<Label>)
    requires id in s.callers.tasks
    requires s.callers.tasks[id].EmitCalled? || s.callers.tasks[id].EmitOpen? || s.callers.tasks[id].EmitSignal?
    ensures var s' := After(b, s, ls); id in s'.callers.tasks && Over(s'.callers.tasks[id])
    ensures P.Inside(ls)
  {
    var a := Advance(id);
    var s1 := Next(b, s, a);
    var s2 := Next(b, s1, a);
    C.RunOne(b, s, [], a);
    C.RunOne(b, s, [] + [a], a);
    C.RunOne(b, s, [] + [a] + [a], a);
    assert After(b, s, []) == s;
    EmitStep(b, s, id);
    EmitStep(b, s1, id);
    EmitStep(b, s2, id);
    hide Next;
    ls := if Over(s1.callers.tasks[id]) then [] + [a]
      else if Over(s2.callers.tasks[id]) then [] + [a] + [a] else [] + [a] + [a] + [a];
  }

  lemma EmitStep(b: nat, s: State, id: nat)
    requires id in s.callers.tasks
    ensures var (task, s') := (s.callers.tasks[id], Next(b, s, Advance(id)));
      && id in s'.callers.tasks
      && (task.EmitCalled? ==> s'.callers.tasks[id].EmitOpen? || s'.callers.tasks[id].EmitDone?)
      && (task.EmitOpen? ==> s'.callers.tasks[id].EmitSignal? || s'.callers.tasks[id].EmitDone?)
      && (task.EmitSignal? ==> s'.callers.tasks[id].EmitDone?)
      && (Over(task) ==> s'.callers.tasks[id] == task)
  {}

  /** One step of the call, and it is over. */
  lemma OneStepOver(b: nat, s: State, l: Label, id: nat) returns (ls: seq<Label>)
    requires id in Next(b, s, l).callers.tasks && Over(Next(b, s, l).callers.tasks[id]) && !l.Enter? && !l.Cancel?
    ensures var s' := After(b, s, ls); id in s'.callers.tasks && Over(s'.callers.tasks[id])
    ensures P.Inside(ls)
  {
    C.RunOne(b, s, [], l);
    assert After(b, s, []) == s;
    hide Next;
    ls := [] + [l];
  }

  /** A flush that waits: its answer is there, or the worker can finish with it. */
  lemma AwaitCanReturn(b: nat, s: State, id: nat) returns (ls: seq<Label>)
    requires b >= 1 && id in s.callers.tasks && s.callers.tasks[id].FlushAwait? && IsServed(s, id, s.callers.tasks[id])
    requires HasJob(s.worker) && s.worker.job.Flush? ==> Busy(s.worker)
    ensures var s' := After(b, s, ls); id in s'.callers.tasks && Over(s'.callers.tasks[id])
    ensures P.Inside(ls)
  {
    if id in s.callers.responses {
      ls := OneStepOver(b, s, Advance(id), id);
    } else {
      var serve := WorkerCanIdle(b, s, false);
      var s1 := After(b, s, serve);
      C.RunOne(b, s, serve, Advance(id));
      ls := serve + [Advance(id)];
      assert HasAnswer(s1.callers, s.worker.job, false);
      hide After, HasJob, Busy;
      assert s1.callers.tasks[id].FlushAwait? && id in s1.callers.responses;
    }
  }

  /** A flush that offers its request while Shutdown's is queued or served sees `done` in the end. */
  lemma OfferCanSeeDone(b: nat, cap: nat, ls: seq<Label>, id: nat) returns (more: seq<Label>)
    requires b >= 1 && cap >= 1
    requires var s := After(b, Init(cap), ls); Offers(s, id) && (s.flags.request.Some? || InShutdown(s.worker))
    ensures var s' := After(b, After(b, Init(cap), ls), more); id in s'.callers.tasks && Over(s'.callers.tasks[id])
    ensures P.Inside(more)
  {
    var s := After(b, Init(cap), ls);
    var work := P.WorkerFinishes(b, cap, ls);
    var s1 := After(b, s, work);
    C.RunJoin(b, Init(cap), ls, work);
    RunLife(b, cap, ls + work);
    ExitedIsDone(s1);
    C.RunOne(b, s, work, SeeDone(id));
    more := work + [SeeDone(id)];
    hide After, Life;
    assert Offers(s1, id);
  }

  lemma ExitedIsDone(s: State)
    requires Life(s) && s.worker.Exited?
    ensures s.flags.done
  {
    hide OneWinner, Stage;
  }

  lemma FlushCanEnd(b: nat, cap: nat, ls: seq<Label>, id: nat) returns (more: seq<Label>)
    requires b >= 1 && cap >= 1
    requires var s := After(b, Init(cap), ls); id in s.callers.tasks && Flushing(s.callers.tasks[id])
    ensures var s' := After(b, After(b, Init(cap), ls), more); id in s'.callers.tasks && Over(s'.callers.tasks[id])
    ensures P.Inside(more)
  {
    var s := After(b, Init(cap), ls);
    var task := s.callers.tasks[id];
    if task.FlushCalled? && s.flags.stopped {
      more := OneStepOver(b, s, Advance(id), id);
    } else if task.ctx in s.callers.cancelled {
      more := GivesUp(b, s, id);
    } else {
      RunLife(b, cap, ls);
      RunFlow(b, cap, ls);
      hide Life, Flow, Next;
      var offer := CanOffer(b, s, id);
      var s1 := After(b, s, offer);
      var rest;
      if s1.flags.request.Some? || InShutdown(s1.worker) {
        C.RunJoin(b, Init(cap), ls, offer);
        rest := OfferCanSeeDone(b, cap, ls + offer, id);
      } else {
        NoShutdownYet(b, s);
        rest := OfferCanReturn(b, s1, id);
      }
      more := offer + rest;
      C.RunJoin(b, s, offer, rest);
    }
  }

  /** With its context cancelled a flush comes back by itself. */
  lemma GivesUp(b: nat, s: State, id: nat) returns (ls: seq<Label>)
    requires id in s.callers.tasks && Flushing(s.callers.tasks[id]) && s.callers.tasks[id].ctx in s.callers.cancelled
    ensures var s' := After(b, s, ls); id in s'.callers.tasks && Over(s'.callers.tasks[id])
    ensures P.Inside(ls)
  {
    var task, a := s.callers.tasks[id], Advance(id);
    if task.FlushOffer? {
      ls := OneStepOver(b, s, GiveUp(id), id);
    } else if task.FlushOpen? || s.flags.stopped {
      ls := OneStepOver(b, s, a, id);
    } else {
      var s1 := Next(b, s, a);
      assert s1.callers.tasks[id] == FlushOpen(task.ctx, task.mark) && s1.callers.cancelled == s.callers.cancelled;
      C.RunOne(b, s, [], a);
      C.RunOne(b, s, [] + [a], a);
      assert After(b, s, []) == s;
      ls := [] + [a] + [a];
    }
  }

  /** Shutdown's request waits or is being served: the worker can come to its end and answer it. */
  lemma StopCanEnd(b: nat, s: State, id: nat) returns (ls: seq<Label>)
    requires b >= 1 && P.Requested(s) && id in s.callers.tasks && s.callers.tasks[id].StopAwait?
    requires IsServed(s, id, s.callers.tasks[id])
    ensures var s' := After(b, s, ls); id in s'.callers.tasks && Over(s'.callers.tasks[id])
    ensures P.Inside(ls)
  {
    if id in s.callers.responses {
      ls := OneStepOver(b, s, Advance(id), id);
    } else {
      var job := if HasJob(s.worker) && s.worker.job.Shutdown? then s.worker.job else s.flags.request.value;
      assert job.task == id && P.Answers(s, job, false);
      var work := P.WorkerCanFinish(b, s, job, false);
      var s1 := After(b, s, work);
      C.RunOne(b, s, work, Advance(id));
      ls := work + [Advance(id)];
      hide After;
      assert id in s1.callers.responses && s1.callers.tasks[id].StopAwait?;
    }
  }

  predicate Stopping(task: Task)
  {
    task.StopCalled? || task.StopWon? || task.StopClosed? || task.StopQueued? || task.StopAwait?
  }

  function StopRank(task: Task): nat
  {
    match task
    case StopCalled(_) => 4
    case StopWon(_) => 3
    case StopClosed(_) => 2
    case StopQueued(_) => 1
    case _ => 0
  }

  lemma StopStep(b: nat, s: State, id: nat)
    requires Life(s) && id in s.callers.tasks && Stopping(s.callers.tasks[id]) && !s.callers.tasks[id].StopAwait?
    ensures var s' := Next(b, s, Advance(id));
      id in s'.callers.tasks && (Over(s'.callers.tasks[id])
        || (Stopping(s'.callers.tasks[id]) && StopRank(s'.callers.tasks[id]) < StopRank(s.callers.tasks[id])))
  {}

  lemma AwaitIsRequested(s: State, id: nat)
    requires Life(s) && id in s.callers.tasks && s.callers.tasks[id].StopAwait?
    ensures s.flags.request.Some? || InShutdown(s.worker)
  {}

  lemma {:induction false} StopCanReturn(b: nat, cap: nat, ls: seq<Label>, id: nat) returns (more: seq<Label>)
    requires b >= 1 && cap >= 1
    requires var s := After(b, Init(cap), ls); id in s.callers.tasks && Stopping(s.callers.tasks[id])
    ensures var s' := After(b, After(b, Init(cap), ls), more); id in s'.callers.tasks && Over(s'.callers.tasks[id])
    ensures P.Inside(more)
    decreases StopRank(After(b, Init(cap), ls).callers.tasks[id])
  {
    var s := After(b, Init(cap), ls);
    RunLife(b, cap, ls);
    if s.callers.tasks[id].StopAwait? {
      AwaitIsRequested(s, id);
      P.RunRequested(b, cap, ls);
      RunServed(b, cap, ls);
      more := StopCanEnd(b, s, id);
    } else {
      StopStep(b, s, id);
      if Over(Next(b, s, Advance(id)).callers.tasks[id]) {
        more := OneStepOver(b, s, Advance(id), id);
      } else {
        C.RunOne(b, Init(cap), ls, Advance(id));
        var rest := StopCanReturn(b, cap, ls + [Advance(id)], id);
        C.RunOne(b, s, [], Advance(id));
        assert After(b, s, []) == s;
        C.RunJoin(b, s, [] + [Advance(id)], rest);
        more := [] + [Advance(id)] + rest;
      }
    }
  }

  /** From every reachable state every call, of OnEmit, ForceFlush or Shutdown, can come back. */
  lemma EveryCallCanReturn(b: nat, cap: nat, ls: seq<Label>, id: nat) returns (more: seq<Label>)
    requires b >= 1 && cap >= 1 && id in After(b, Init(cap), ls).callers.tasks
    ensures var s' := After(b, After(b, Init(cap), ls), more); id in s'.callers.tasks && Over(s'.callers.tasks[id])
    ensures P.Inside(more)
  {
    var s := After(b, Init(cap), ls);
    var task := s.callers.tasks[id];
    if Over(task) {
      more := [];
    } else if Flushing(task) {
      more := FlushCanEnd(b, cap, ls, id);
    } else if Stopping(task) {
      more := StopCanReturn(b, cap, ls, id);
    } else if task.FlushAwait? {
      RunFlow(b, cap, ls);
      RunLife(b, cap, ls);
      RunServed(b, cap, ls);
      hide OneWinner, Stage;
      more := AwaitCanReturn(b, s, id);
    } else {
      more := EmitCanReturn(b, s, id);
    }
  }

  // ---------------------------------------------------------------- cancelled contexts

  /** A ForceFlush whose context is cancelled before it returns by itself an error, if the processor runs. */
  predicate Refused(s: State, id: nat, ctx: nat)
  {
    && ctx in s.callers.cancelled && id in s.callers.tasks
    && match s.callers.tasks[id]
       case FlushCalled(c, _) => c == ctx
       case FlushOpen(c, _) => c == ctx
       case FlushDone(c, _, ok, answered) => c == ctx && !answered && (ok ==> s.flags.stopped)
       case _ => false
  }

  lemma NextRefused(b: nat, s: State, l: Label, id: nat, ctx: nat)
    requires Refused(s, id, ctx)
    ensures Refused(Next(b, s, l), id, ctx)
  {
    hide Worked, Advanced;
    if l.Work? { WorkKeepsRequests(b, s, l.ok); WorkKeepsFlags(b, s, l.ok); }
    if l.Advance? { AdvanceRefused(b, s, l.id, id, ctx); }
  }

  lemma WorkKeepsFlags(b: nat, s: State, ok: bool)
    ensures var s' := Worked(b, s, ok);
      s'.flags.stopped == s.flags.stopped && s'.callers.cancelled == s.callers.cancelled
  {}

  lemma AdvanceRefused(b: nat, s: State, x: nat, id: nat, ctx: nat)
    requires Refused(s, id, ctx)
    ensures Refused(Advanced(b, s, x), id, ctx)
  {}

  /** A ForceFlush that begins with a cancelled context is never served: it returns an error, or nil once stopped. */
  lemma {:induction false} CancelledFlushIsRefused(b: nat, s: State, ls: seq<Label>, id: nat, ctx: nat)
    requires id !in s.callers.tasks && ctx in s.callers.cancelled
    ensures Refused(After(b, Next(b, s, Enter(id, FlushCalled(ctx, 0))), ls), id, ctx)
  {
    var s0 := Next(b, s, Enter(id, FlushCalled(ctx, 0)));
    if |ls| == 0 {
    } else {
      CancelledFlushIsRefused(b, s, ls[..|ls| - 1], id, ctx);
      NextRefused(b, After(b, s0, ls[..|ls| - 1]), ls[|ls| - 1], id, ctx);
    }
  }

  /** A flush or Shutdown that waits with its context cancelled can return its error at once. */
  lemma WaitsCanGiveUp(b: nat, s: State, id: nat)
    requires id in s.callers.tasks
    requires var task := s.callers.tasks[id];
      (task.FlushOffer? || task.FlushAwait? || task.StopAwait?) && task.ctx in s.callers.cancelled
    ensures var (task, s') := (s.callers.tasks[id], Next(b, s, GiveUp(id)));
      && id in s'.callers.tasks && Over(s'.callers.tasks[id]) && !s'.callers.tasks[id].ok
      && s' == WithTask(s, id, s'.callers.tasks[id]) && s'.callers.tasks[id].ctx == task.ctx
  {}

  /** A Shutdown that stopped the processor, its context cancelled before it has put its request: it gets its error. */
  predicate StopRefused(s: State, id: nat, ctx: nat)
  {
    && ctx in s.callers.cancelled && id in s.callers.tasks
    && match s.callers.tasks[id]
       case StopWon(c) => c == ctx
       case StopClosed(c) => c == ctx
       case StopQueued(c) => c == ctx
       case StopDone(c, ok, won) => c == ctx && won && !ok
       case _ => false
  }

  lemma NextStopRefused(b: nat, s: State, l: Label, id: nat, ctx: nat)
    requires StopRefused(s, id, ctx)
    ensures StopRefused(Next(b, s, l), id, ctx)
  {
    hide Worked, Advanced;
    if l.Work? { WorkKeepsRequests(b, s, l.ok); WorkKeepsFlags(b, s, l.ok); }
    if l.Advance? { AdvanceStopRefused(b, s, l.id, id, ctx); }
  }

  lemma AdvanceStopRefused(b: nat, s: State, x: nat, id: nat, ctx: nat)
    requires StopRefused(s, id, ctx)
    ensures StopRefused(Advanced(b, s, x), id, ctx)
  {}

  /** It never returns nil, even when the worker serves its request to the end. */
  lemma {:induction false} CancelledStopIsRefused(b: nat, s: State, ls: seq<Label>, id: nat, ctx: nat)
    requires StopRefused(s, id, ctx)
    ensures StopRefused(After(b, s, ls), id, ctx)
  {
    if |ls| == 0 {
    } else {
      CancelledStopIsRefused(b, s, ls[..|ls| - 1], id, ctx);
      NextStopRefused(b, After(b, s, ls[..|ls| - 1]), ls[|ls| - 1], id, ctx);
    }
  }
}

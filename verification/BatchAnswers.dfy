/** What a nil error from ForceFlush or Shutdown of the log processor tells its caller. */
module BatchAnswers {
  import opened Prelude
  import Q = LogQueue
  import opened BatchProcessor
  import opened BatchFlow
  import opened BatchLifecycle

  /** A caller's place, its response channel, and the number of records accepted so far agree. */
  predicate TaskFits(accepted: nat, flushCtxs: set<nat>, responses: map<nat, Answer>, id: nat, task: Task)
  {
    match task
    case FlushCalled(ctx, mark) => id !in responses && mark <= accepted && ctx in flushCtxs
    case FlushOpen(ctx, mark) => id !in responses && mark <= accepted && ctx in flushCtxs
    case FlushOffer(ctx, mark) => id !in responses && mark <= accepted && ctx in flushCtxs
    case FlushAwait(ctx, mark) =>
      mark <= accepted && ctx in flushCtxs && (id in responses ==> responses[id].job == Flush(id, ctx, mark))
    case FlushDone(ctx, mark, ok, answered) =>
      ctx in flushCtxs && (answered ==> id in responses && responses[id] == Answer(Flush(id, ctx, mark), ok))
    case StopQueued(ctx) => id in responses ==> responses[id].job.Shutdown?
    case StopAwait(ctx) => id in responses ==> responses[id].job.Shutdown?
    case StopDone(ctx, ok, won) =>
      && (id in responses ==> responses[id].job.Shutdown?)
      && (ok && won ==> id in responses && responses[id].ok)
    case _ => id !in responses
  }

  ghost predicate TasksFit(accepted: nat, c: Callers)
  {
    && (forall id :: id in c.tasks ==> TaskFits(accepted, c.flushCtxs, c.responses, id, c.tasks[id]))
    && (forall id :: id in c.responses ==> id in c.tasks)
  }

  /** A request that is queued or being served has not been answered. */
  predicate JobOpen(accepted: nat, c: Callers, job: Job)
  {
    match job
    case Batch => true
    case Flush(id, ctx, mark) =>
      && id in c.tasks && id !in c.responses && mark <= accepted && ctx in c.flushCtxs
      && (c.tasks[id] == FlushAwait(ctx, mark) || (c.tasks[id].FlushDone? && !c.tasks[id].answered))
    case Shutdown(id, ctx) =>
      && id in c.tasks && id !in c.responses
      && (c.tasks[id].StopQueued? || c.tasks[id].StopAwait? || c.tasks[id].StopDone?)
  }

  /** The queue has been emptied for the worker's flush. */
  predicate PastTake(w: Worker) { HasJob(w) && !w.FlushTest? && !w.Tally? && !w.Take? }

  ghost predicate Open(s: State)
  {
    && TasksFit(|s.ledger.t.accepted|, s.callers)
    && (s.flags.request.Some? ==> JobOpen(|s.ledger.t.accepted|, s.callers, s.flags.request.value))
    && (HasJob(s.worker) ==> JobOpen(|s.ledger.t.accepted|, s.callers, s.worker.job))
  }

  // ---------------------------------------------------------------- callers

  lemma MoreAccepted(n: nat, n': nat, c: Callers)
    requires TasksFit(n, c) && n <= n'
    ensures TasksFit(n', c)
  {
    forall id | id in c.tasks ensures TaskFits(n', c.flushCtxs, c.responses, id, c.tasks[id]) {
      assert TaskFits(n, c.flushCtxs, c.responses, id, c.tasks[id]);
    }
  }

  /** One call moves on, and neither the queued request nor the worker's is taken from it. */
  lemma WithTaskOpen(s: State, id: nat, task: Task)
    requires Open(s) && TaskFits(|s.ledger.t.accepted|, s.callers.flushCtxs, s.callers.responses, id, task)
    requires id in s.callers.tasks ==>
      && (s.callers.tasks[id].FlushAwait? ==> task.FlushDone? && (task.answered ==> id in s.callers.responses))
      && (s.callers.tasks[id].FlushDone? || s.callers.tasks[id].StopDone? ==> task == s.callers.tasks[id])
      && (s.callers.tasks[id].StopQueued? || s.callers.tasks[id].StopAwait? ==> task.StopAwait? || task.StopDone?)
    ensures Open(WithTask(s, id, task))
  {
    var c, c' := s.callers, WithTask(s, id, task).callers;
    hide TaskFits;
    forall x | x in c'.tasks ensures TaskFits(|s.ledger.t.accepted|, c'.flushCtxs, c'.responses, x, c'.tasks[x]) {
      if x != id { assert c'.tasks[x] == c.tasks[x]; }
    }
  }

  /** Fields outside the callers, with more records accepted. */
  lemma LaterOpen(s: State, s': State)
    requires Open(s) && s'.callers == s.callers && |s.ledger.t.accepted| <= |s'.ledger.t.accepted|
    requires s'.flags.request.Some? ==>
      s'.flags.request == s.flags.request || JobOpen(|s.ledger.t.accepted|, s.callers, s'.flags.request.value)
    requires HasJob(s'.worker) ==>
      || (HasJob(s.worker) && s'.worker.job == s.worker.job)
      || JobOpen(|s.ledger.t.accepted|, s.callers, s'.worker.job)
    ensures Open(s')
  {
    MoreAccepted(|s.ledger.t.accepted|, |s'.ledger.t.accepted|, s.callers);
    hide TasksFit;
  }

  lemma FlushAdvanceOpen(s: State, id: nat)
    requires Open(s) && id in s.callers.tasks
    ensures Open(FlushAdvances(s, id, s.callers.tasks[id]))
  {
    var c, task, s' := s.callers, s.callers.tasks[id], FlushAdvances(s, id, s.callers.tasks[id]);
    assert TaskFits(|s.ledger.t.accepted|, c.flushCtxs, c.responses, id, task);
    if s' != s { WithTaskOpen(s, id, s'.callers.tasks[id]); }
  }

  lemma StopAdvanceOpen(s: State, id: nat)
    requires Open(s) && id in s.callers.tasks
    ensures Open(StopAdvances(s, id, s.callers.tasks[id]))
  {
    var c, task, s' := s.callers, s.callers.tasks[id], StopAdvances(s, id, s.callers.tasks[id]);
    assert TaskFits(|s.ledger.t.accepted|, c.flushCtxs, c.responses, id, task);
    if s' != s {
      var mid := WithTask(s, id, s'.callers.tasks[id]);
      WithTaskOpen(s, id, s'.callers.tasks[id]);
      hide Open;
      LaterOpen(mid, s');
    }
  }

  lemma EmitAdvanceOpen(b: nat, s: State, id: nat)
    requires Open(s) && id in s.callers.tasks
    ensures Open(EmitAdvances(b, s, id, s.callers.tasks[id]))
  {
    var c, task, s' := s.callers, s.callers.tasks[id], EmitAdvances(b, s, id, s.callers.tasks[id]);
    assert TaskFits(|s.ledger.t.accepted|, c.flushCtxs, c.responses, id, task);
    if task.EmitCalled? || task.EmitOpen? || task.EmitSignal? {
      var mid := WithTask(s, id, s'.callers.tasks[id]);
      WithTaskOpen(s, id, s'.callers.tasks[id]);
      hide Open;
      LaterOpen(mid, s');
    }
  }

  lemma AdvanceOpen(b: nat, s: State, id: nat)
    requires Open(s)
    ensures Open(Advanced(b, s, id))
  {
    hide Open, EmitAdvances, FlushAdvances, StopAdvances;
    if id in s.callers.tasks {
      EmitAdvanceOpen(b, s, id);
      FlushAdvanceOpen(s, id);
      StopAdvanceOpen(s, id);
    }
  }

  lemma EnterOpen(s: State, id: nat, task: Task)
    requires Open(s)
    ensures Open(Entered(s, id, task))
  {
    var s' := Entered(s, id, task);
    if s' != s {
      if task.FlushCalled? { MoreContexts(s, task.ctx); }
      WithTaskOpen(MoreContextsState(s, task), id, s'.callers.tasks[id]);
    }
  }

  function MoreContextsState(s: State, task: Task): State
  {
    if task.FlushCalled? then s.(callers := s.callers.(flushCtxs := s.callers.flushCtxs + {task.ctx})) else s
  }

  lemma MoreContexts(s: State, ctx: nat)
    requires Open(s)
    ensures Open(s.(callers := s.callers.(flushCtxs := s.callers.flushCtxs + {ctx})))
  {
    var c, n := s.callers, |s.ledger.t.accepted|;
    forall id | id in c.tasks ensures TaskFits(n, c.flushCtxs + {ctx}, c.responses, id, c.tasks[id]) {
      assert TaskFits(n, c.flushCtxs, c.responses, id, c.tasks[id]);
    }
  }

  lemma CancelOpen(s: State, ctx: nat)
    requires Open(s)
    ensures Open(s.(callers := s.callers.(cancelled := s.callers.cancelled + {ctx})))
  {}

  lemma GiveUpOpen(b: nat, s: State, l: Label)
    requires Open(s) && (l.GiveUp? || l.SeeDone? || l.Handover?)
    ensures Open(Next(b, s, l))
  {
    var c, id, s' := s.callers, l.id, Next(b, s, l);
    if s' != s {
      var task := c.tasks[id];
      assert TaskFits(|s.ledger.t.accepted|, c.flushCtxs, c.responses, id, task);
      var mid := WithTask(s, id, s'.callers.tasks[id]);
      WithTaskOpen(s, id, s'.callers.tasks[id]);
      hide Open;
      LaterOpen(mid, s');
    }
  }

  // ---------------------------------------------------------------- the worker

  lemma ReplyOpen(s: State)
    requires Open(s) && s.worker.Reply? && Life(s)
    ensures Open(Replying(s, s.worker))
  {
    var w, c, n := s.worker, s.callers, |s.ledger.t.accepted|;
    if !w.job.Batch? {
      var id, c' := w.job.task, Replying(s, w).callers;
      forall x | x in c'.tasks ensures TaskFits(n, c'.flushCtxs, c'.responses, x, c'.tasks[x]) {
        assert TaskFits(n, c.flushCtxs, c.responses, x, c.tasks[x]);
      }
      hide TasksFit, Life;
      assert s.flags.request.Some? ==> s.flags.request.value.task != id;
    }
  }

  lemma WorkOpen(b: nat, s: State, ok: bool)
    requires Open(s) && Life(s)
    ensures Open(Worked(b, s, ok))
  {
    hide Open, Life, Replying;
    if s.worker.Reply? { ReplyOpen(s); } else { LaterOpen(s, Worked(b, s, ok)); }
  }

  lemma NextOpen(b: nat, s: State, l: Label)
    requires Open(s) && Life(s)
    ensures Open(Next(b, s, l))
  {
    hide Worked, Advanced, Life, TasksFit;
    match l
    case Cancel(ctx) => CancelOpen(s, ctx);
    case Enter(id, task) => EnterOpen(s, id, task);
    case Advance(id) => AdvanceOpen(b, s, id);
    case Work(ok) => WorkOpen(b, s, ok);
    case GiveUp(_) => GiveUpOpen(b, s, l);
    case SeeDone(_) => GiveUpOpen(b, s, l);
    case Handover(_) => GiveUpOpen(b, s, l);
    case _ => LaterOpen(s, Next(b, s, l));
  }

  lemma {:induction false} RunOpen(b: nat, cap: nat, ls: seq<Label>)
    ensures Open(After(b, Init(cap), ls))
  {
    if |ls| == 0 {
    } else {
      RunOpen(b, cap, ls[..|ls| - 1]);
      RunLife(b, cap, ls[..|ls| - 1]);
      NextOpen(b, After(b, Init(cap), ls[..|ls| - 1]), ls[|ls| - 1]);
    }
  }
}

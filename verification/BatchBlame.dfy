/** A record that was taken for a ForceFlush and given up: the caller of that ForceFlush is told. */
module BatchBlame {
  import opened Prelude
  import Q = LogQueue
  import opened BatchProcessor
  import opened BatchFlow
  import opened BatchLifecycle
  import opened BatchAnswers
  import opened BatchLosses

  /** The call behind a flush that was handed over: it waits, or has come back, with nil only if answered. */
  predicate Belongs(tasks: map<nat, Task>, job: Job)
    requires job.Flush?
  {
    job.task in tasks &&
    match tasks[job.task]
    case FlushAwait(ctx, _) => ctx == job.ctx
    case FlushDone(ctx, _, ok, answered) => ctx == job.ctx && (ok ==> answered)
    case _ => false
  }

  /** The flush is about to be answered with an error, or has been. */
  predicate Failed(s: State, job: Job)
    requires job.Flush?
  {
    || ((s.worker.Finish? || s.worker.Reply?) && s.worker.job == job && !s.worker.ok)
    || (job.task in s.callers.responses && !s.callers.responses[job.task].ok)
  }

  ghost predicate Blame(s: State)
  {
    && (HasJob(s.worker) && s.worker.job.Flush? ==> Belongs(s.callers.tasks, s.worker.job))
    && forall i :: 0 <= i < |s.ledger.settled| && FlushLost(s.ledger.settled[i]) ==>
      Belongs(s.callers.tasks, s.ledger.settled[i].how.job) && Failed(s, s.ledger.settled[i].how.job)
  }

  predicate FlushLost(x: Settled) { x.how.Discarded? && x.how.job.Flush? }

  // ---------------------------------------------------------------- steps

  /** A flush that waits stays, comes back with its answer, or gives up; one that has come back stays. */
  predicate GoesOn(task: Task, task': Task)
  {
    && (task.FlushAwait? ==>
      task' == task || (task'.FlushDone? && task'.ctx == task.ctx && (task'.ok ==> task'.answered)))
    && (task.FlushDone? ==> task' == task)
  }

  lemma TaskBlame(s: State, s': State, id: nat, task: Task)
    requires Blame(s) && s'.callers.tasks == s.callers.tasks[id := task]
    requires s'.callers.responses == s.callers.responses && s'.ledger.settled == s.ledger.settled
    requires id in s.callers.tasks ==> GoesOn(s.callers.tasks[id], task)
    requires s'.worker == s.worker || (!HasJob(s.worker) && task.FlushAwait?
      && s'.worker == FlushTest(Flush(id, task.ctx, task.mark)))
    ensures Blame(s')
  {
  }

  lemma AdvanceBlame(b: nat, s: State, id: nat)
    requires Blame(s)
    ensures Blame(Advanced(b, s, id))
  {
    var s' := Advanced(b, s, id);
    if id in s.callers.tasks {
      AdvanceMoves(b, s, id);
      hide Blame, Advanced;
      TaskBlame(s, s', id, s'.callers.tasks[id]);
    }
  }

  lemma AdvanceMoves(b: nat, s: State, id: nat)
    requires id in s.callers.tasks
    ensures var (s', task) := (Advanced(b, s, id), s.callers.tasks[id]);
      && id in s'.callers.tasks && s'.callers.tasks == s.callers.tasks[id := s'.callers.tasks[id]]
      && s'.callers.responses == s.callers.responses && s'.ledger.settled == s.ledger.settled && s'.worker == s.worker
      && GoesOn(task, s'.callers.tasks[id])
  {}

  lemma SelectBlame(b: nat, s: State, l: Label)
    requires Blame(s) && (l.Enter? || l.GiveUp? || l.SeeDone? || l.Handover?)
    ensures Blame(Next(b, s, l))
  {
    hide Blame;
    var s' := Next(b, s, l);
    if s' != s { TaskBlame(s, s', l.id, s'.callers.tasks[l.id]); }
  }

  /** Nothing is given up and nobody answered. */
  lemma LaterBlame(s: State, s': State)
    requires Blame(s) && s'.callers.tasks == s.callers.tasks && s'.callers.responses == s.callers.responses
    requires s'.ledger.settled == s.ledger.settled
    requires HasJob(s'.worker) && s'.worker.job.Flush? ==> HasJob(s.worker) && s.worker.job == s'.worker.job
    requires s.worker.Finish? && s.worker.job.Flush? && !s.worker.ok ==>
      (s'.worker.Finish? || s'.worker.Reply?) && s'.worker.job == s.worker.job && !s'.worker.ok
    requires s.worker.Reply? && s.worker.job.Flush? ==> s'.worker == s.worker
    ensures Blame(s')
  {}

  lemma AbandonBlame(s: State)
    requires Blame(s) && (s.worker.Test? || s.worker.Sent?)
    ensures Blame(Abandoning(s, s.worker))
  {}

  lemma SendBlame(b: nat, s: State, ok: bool)
    requires Blame(s) && s.worker.Send?
    ensures Blame(Sending(b, s, s.worker, ok))
  {}

  lemma ReplyBlame(s: State)
    requires Blame(s) && s.worker.Reply? && Open(s)
    ensures Blame(Replying(s, s.worker))
  {
    hide TasksFit;
  }

  lemma WorkBlame(b: nat, s: State, ok: bool)
    requires Blame(s) && Open(s) && JobFits(s.worker)
    ensures Blame(Worked(b, s, ok))
  {
    hide Blame, Open, Abandoning, Sending, Replying;
    var w := s.worker;
    if ((w.Test? && w.left != []) || w.Sent?) && Cancelled(s, w.job) {
      AbandonBlame(s);
    } else if w.Send? {
      SendBlame(b, s, ok);
    } else if w.Reply? {
      ReplyBlame(s);
    } else {
      LaterBlame(s, Worked(b, s, ok));
    }
  }

  lemma NextBlame(b: nat, s: State, l: Label)
    requires Blame(s) && Open(s) && JobFits(s.worker)
    requires s.flags.request.Some? ==> s.flags.request.value.Shutdown?
    ensures Blame(Next(b, s, l))
  {
    hide Blame, Open, Advanced, Worked, JobFits;
    match l
    case Advance(id) => AdvanceBlame(b, s, id);
    case Work(ok) => WorkBlame(b, s, ok);
    case Enter(_, _) => SelectBlame(b, s, l);
    case GiveUp(_) => SelectBlame(b, s, l);
    case SeeDone(_) => SelectBlame(b, s, l);
    case Handover(_) => SelectBlame(b, s, l);
    case _ => LaterBlame(s, Next(b, s, l));
  }

  lemma {:induction false} RunBlame(b: nat, cap: nat, ls: seq<Label>)
    ensures Blame(After(b, Init(cap), ls))
  {
    if |ls| == 0 {
    } else {
      var before := ls[..|ls| - 1];
      RunBlame(b, cap, before);
      RunLife(b, cap, before);
      RunOpen(b, cap, before);
      NextBlame(b, After(b, Init(cap), before), ls[|ls| - 1]);
    }
  }

  // ---------------------------------------------------------------- what the caller sees

  /** The ForceFlush behind the job has returned an error, or is still to pick it up; its context is cancelled. */
  predicate Reported(c: Callers, job: Job)
  {
    && job.Flush? && job.ctx in c.cancelled && job.task in c.tasks
    && match c.tasks[job.task]
       case FlushAwait(ctx, _) => ctx == job.ctx
       case FlushDone(ctx, _, ok, _) => ctx == job.ctx && !ok
       case _ => false
  }

  /** With the worker gone, whatever was given up for a ForceFlush has been reported to it. */
  lemma LostIsReported(b: nat, cap: nat, ls: seq<Label>, i: nat)
    requires var s := After(b, Init(cap), ls);
      s.worker.Exited? && i < |s.ledger.settled| && FlushLost(s.ledger.settled[i])
    ensures var s := After(b, Init(cap), ls); Reported(s.callers, s.ledger.settled[i].how.job)
  {
    var s := After(b, Init(cap), ls);
    var job := s.ledger.settled[i].how.job;
    RunBlame(b, cap, ls);
    RunOpen(b, cap, ls);
    RunLosses(b, cap, ls);
    assert Belongs(s.callers.tasks, job) && Failed(s, job);
    var c := s.callers;
    assert TaskFits(|s.ledger.t.accepted|, c.flushCtxs, c.responses, job.task, c.tasks[job.task]);
  }

  /** No ForceFlush whose context is cancelled has returned an error or is still waiting. */
  predicate FlushesKept(c: Callers)
  {
    forall id :: id in c.tasks ==>
      && (c.tasks[id].FlushDone? && !c.tasks[id].ok ==> c.tasks[id].ctx !in c.cancelled)
      && (c.tasks[id].FlushAwait? ==> c.tasks[id].ctx !in c.cancelled)
  }

  lemma KeptNotReported(c: Callers, job: Job)
    requires FlushesKept(c)
    ensures !Reported(c, job)
  {}

  /** That is so, for one, when no context given to ForceFlush has been cancelled. */
  lemma NoneCancelledIsKept(b: nat, cap: nat, ls: seq<Label>)
    requires var c := After(b, Init(cap), ls).callers; c.flushCtxs !! c.cancelled
    ensures FlushesKept(After(b, Init(cap), ls).callers)
  {
    var s := After(b, Init(cap), ls);
    RunOpen(b, cap, ls);
    forall id | id in s.callers.tasks
      ensures TaskFits(|s.ledger.t.accepted|, s.callers.flushCtxs, s.callers.responses, id, s.callers.tasks[id])
    {}
  }
}

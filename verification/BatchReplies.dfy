/** The exact law of what ForceFlush and Shutdown of the log processor answer. */
module BatchReplies {
  import opened Prelude
  import Q = LogQueue
  import opened BatchProcessor
  import opened BatchFlow
  import opened BatchLifecycle
  import opened BatchAnswers

  /** A call of the exporter and whether it returned nil. */
  datatype Made = Made(call: Call, ok: bool)

  /** What was done for a request: the looks that found its context cancelled, and the calls of the exporter. */
  datatype Service = Service(hits: nat, calls: seq<Made>)

  /** The worker is about to look at the context of its job. */
  predicate Looks(w: Worker)
  {
    w.FlushTest? || (w.Test? && w.left != []) || w.Sent? || (w.Finish? && !w.job.Batch?)
  }

  /** One step, seen from outside: which call was made, what it returned, whether a look was a hit. */
  function Noted(s: State, l: Label, s': State, job: Job, v: Service): Service
  {
    if !l.Work? || !HasJob(s.worker) || s.worker.job != job then v else
    var n := |s.ledger.calls|;
    var hit := if Looks(s.worker) && Cancelled(s, job) then 1 else 0;
    Service(v.hits + hit, v.calls + if |s'.ledger.calls| > n then [Made(s'.ledger.calls[n], l.ok)] else [])
  }

  /** All that was done for a job in a run. */
  function Served(b: nat, s: State, ls: seq<Label>, job: Job): Service
  {
    if |ls| == 0 then Service(0, []) else
    var init := ls[..|ls| - 1];
    Noted(After(b, s, init), ls[|ls| - 1], After(b, s, ls), job, Served(b, s, init, job))
  }

  predicate AllNil(calls: seq<Made>) { forall i :: 0 <= i < |calls| ==> calls[i].ok }

  predicate AllExports(calls: seq<Made>) { forall i :: 0 <= i < |calls| ==> calls[i].call.ExportCall? }

  /** Nothing went wrong. */
  predicate AllWell(v: Service) { v.hits == 0 && AllNil(v.calls) }

  /** Exports, and then the exporter's ForceFlush, unless a look found the context cancelled. */
  predicate Flushed(v: Service)
  {
    if v.hits > 0 then AllExports(v.calls) else
    |v.calls| > 0 && v.calls[|v.calls| - 1].call == FlushCall && AllExports(v.calls[..|v.calls| - 1])
  }

  /** The same, and then in any case the exporter's Shutdown. */
  predicate Shut(v: Service)
  {
    |v.calls| > 0 && v.calls[|v.calls| - 1].call == ShutdownCall && Flushed(v.(calls := v.calls[..|v.calls| - 1]))
  }

  /** All that belongs to a request of this kind has been done. */
  predicate Complete(job: Job, v: Service) { if job.Flush? then Flushed(v) else Shut(v) }

  predicate InService(w: Worker, v: Service)
  {
    match w
    case Test(_, _, _, ok) => v.hits == 0 && AllExports(v.calls) && (ok <==> AllNil(v.calls))
    case Send(_, _, _, ok) => v.hits == 0 && AllExports(v.calls) && (ok <==> AllNil(v.calls))
    case Sent(_, _, _, ok) => v.hits == 0 && AllExports(v.calls) && (ok <==> AllNil(v.calls))
    case Finish(_, _, ok) => AllExports(v.calls) && (ok <==> AllWell(v))
    case CloseExporter(_, ok) => Flushed(v) && (ok <==> AllWell(v))
    case CloseDone(_, ok) => Shut(v) && (ok <==> AllWell(v))
    case Reply(job, ok) => Complete(job, v) && (ok <==> AllWell(v))
    case _ => v == Service(0, [])
  }

  /** What has been done for a job fits its worker, its answer, or that it has not been begun. */
  predicate Kept(s: State, job: Job, v: Service)
  {
    && (v.hits > 0 ==> Cancelled(s, job))
    && if HasJob(s.worker) && s.worker.job == job then InService(s.worker, v)
       else if Answered(s, job) then Complete(job, v) && (s.callers.responses[job.task].ok <==> AllWell(v))
       else v == Service(0, [])
  }

  predicate Answered(s: State, job: Job)
  {
    !job.Batch? && job.task in s.callers.responses && s.callers.responses[job.task].job == job
  }

  // ---------------------------------------------------------------- steps

  lemma OneMore(calls: seq<Made>, x: Made)
    ensures AllNil(calls + [x]) <==> AllNil(calls) && x.ok
    ensures AllExports(calls + [x]) <==> AllExports(calls) && x.call.ExportCall?
    ensures (calls + [x])[..|calls|] == calls && (calls + [x])[|calls|] == x
  {
    var all := calls + [x];
    assert all[|calls|] == x && forall i :: 0 <= i < |calls| ==> all[i] == calls[i];
  }

  /** The worker goes on with the job. */
  lemma ServiceGoesOn(b: nat, s: State, ok: bool, v: Service)
    requires HasJob(s.worker) && !s.worker.job.Batch? && !s.worker.Reply? && JobFits(s.worker)
    requires Kept(s, s.worker.job, v)
    ensures var s' := Worked(b, s, ok); Kept(s', s.worker.job, Noted(s, Work(ok), s', s.worker.job, v))
  {
    hide AllNil, AllExports, Taking, Disposed;
    NoneMade();
    if s.worker.Take? {
      TakeServes(b, s);
    } else if s.worker.Send? {
      ExportServes(b, s, ok, v);
    } else if s.worker.Finish? || s.worker.CloseExporter? {
      CallServes(b, s, ok, v);
    } else {
      assert v.calls + [] == v.calls;
    }
  }

  /** Where a chunk is sent. */
  lemma ExportServes(b: nat, s: State, ok: bool, v: Service)
    requires s.worker.Send? && !s.worker.job.Batch? && JobFits(s.worker) && Kept(s, s.worker.job, v)
    ensures var s' := Worked(b, s, ok); Kept(s', s.worker.job, Noted(s, Work(ok), s', s.worker.job, v))
  {
    hide AllNil, AllExports, Complete, AllWell;
    var s' := Worked(b, s, ok);
    OneMore(v.calls, Made(s'.ledger.calls[|s.ledger.calls|], ok));
  }

  /** Where one of the other two calls may be made. */
  lemma CallServes(b: nat, s: State, ok: bool, v: Service)
    requires (s.worker.Finish? || s.worker.CloseExporter?) && !s.worker.job.Batch? && JobFits(s.worker)
    requires Kept(s, s.worker.job, v)
    ensures var s' := Worked(b, s, ok); Kept(s', s.worker.job, Noted(s, Work(ok), s', s.worker.job, v))
  {
    CallsNext(v, Made(if s.worker.Finish? then FlushCall else ShutdownCall, ok));
    NoCallNext(v);
    hide AllNil, AllExports, Flushed, Shut;
  }

  /** The call of the exporter that comes next. */
  lemma CallsNext(v: Service, x: Made)
    ensures var v' := v.(calls := v.calls + [x]);
      && (AllWell(v') <==> AllWell(v) && x.ok)
      && (x.call == FlushCall && v.hits == 0 && AllExports(v.calls) ==> Flushed(v'))
      && (x.call == ShutdownCall && Flushed(v) ==> Shut(v'))
  {
    hide AllNil, AllExports;
    OneMore(v.calls, x);
    assert v == v.(calls := (v.calls + [x])[..|v.calls|]);
  }

  /** A look finds the context cancelled. */
  lemma NoCallNext(v: Service)
    ensures var v' := Service(v.hits + 1, v.calls + []);
      !AllWell(v') && (AllExports(v.calls) ==> Flushed(v'))
  {
    assert v.calls + [] == v.calls;
  }

  lemma NoneMade()
    ensures AllNil([]) && AllExports([])
  {}

  lemma TakeServes(b: nat, s: State)
    requires s.worker.Take? && !s.worker.job.Batch?
    ensures var s' := Taking(b, s, s.worker.job);
      && s'.worker.Test? && s'.worker.job == s.worker.job && s'.worker.ok && s'.ledger.calls == s.ledger.calls
      && s'.callers == s.callers
  {}

  /** The answer is given. */
  lemma ServiceEnds(s: State, v: Service)
    requires s.worker.Reply? && !s.worker.job.Batch? && Kept(s, s.worker.job, v)
    ensures var s' := Replying(s, s.worker); Kept(s', s.worker.job, v)
  {
    hide Complete, AllWell;
  }

  /** A job that the worker does not serve, before and after its step. */
  lemma OtherService(b: nat, s: State, ok: bool, job: Job, v: Service)
    requires Kept(s, job, v) && !job.Batch? && !(HasJob(s.worker) && s.worker.job == job) && JobFits(s.worker)
    requires HasJob(s.worker) && !s.worker.job.Batch? ==> s.worker.job.task !in s.callers.responses
    ensures Kept(Worked(b, s, ok), job, v)
  {
    hide Complete, AllWell, InService;
    WorkKeepsJob(b, s, ok);
    hide Worked;
  }

  lemma WorkKeepsJob(b: nat, s: State, ok: bool)
    requires JobFits(s.worker)
    ensures var s' := Worked(b, s, ok);
      && (HasJob(s'.worker) ==> HasJob(s.worker) && s'.worker.job == s.worker.job)
      && s'.callers.cancelled == s.callers.cancelled
      && s'.callers.responses == (if s.worker.Reply?
        then s.callers.responses[s.worker.job.task := Answer(s.worker.job, s.worker.ok)] else s.callers.responses)
  {
    hide Sending, Chunking;
    if s.worker.Send? { SendKeepsJob(b, s, ok); }
    if s.worker.Test? || s.worker.Sent? { ChunkKeepsJob(s); }
  }

  lemma SendKeepsJob(b: nat, s: State, ok: bool)
    requires s.worker.Send?
    ensures var s' := Sending(b, s, s.worker, ok);
      HasJob(s'.worker) && s'.worker.job == s.worker.job && s'.callers == s.callers
  {}

  lemma ChunkKeepsJob(s: State)
    requires s.worker.Test? || s.worker.Sent?
    ensures var s' := Chunking(s, s.worker);
      HasJob(s'.worker) && s'.worker.job == s.worker.job && s'.callers == s.callers
  {}

  /** Steps of callers: the worker may begin a job, which has not been answered. */
  lemma CallerServes(b: nat, s: State, l: Label, job: Job, v: Service)
    requires Kept(s, job, v) && !job.Batch? && !l.Work? && Open(s)
    ensures Kept(Next(b, s, l), job, v)
  {
    hide InService, Complete, AllWell;
    CallersKeep(b, s, l);
    if !HasJob(s.worker) { BeginsFresh(b, s, l); }
    var s' := Next(b, s, l);
    hide Next, Open;
    if HasJob(s.worker) {
    } else if HasJob(s'.worker) && s'.worker.job == job {
      FreshService(s'.worker);
    }
  }

  lemma FreshService(w: Worker)
    requires w.FlushTest? || w.Tally?
    ensures InService(w, Service(0, []))
  {}

  lemma CallersKeep(b: nat, s: State, l: Label)
    requires !l.Work?
    ensures var s' := Next(b, s, l);
      && s'.callers.responses == s.callers.responses && s.callers.cancelled <= s'.callers.cancelled
      && s'.ledger.calls == s.ledger.calls && (HasJob(s.worker) ==> s'.worker == s.worker)
  {}

  lemma BeginsFresh(b: nat, s: State, l: Label)
    requires !l.Work? && !HasJob(s.worker) && Open(s)
    ensures var s' := Next(b, s, l);
      HasJob(s'.worker) ==>
        && (s'.worker.FlushTest? || s'.worker.Tally?)
        && (!s'.worker.job.Batch? ==> s'.worker.job.task !in s.callers.responses)
  {
    if l.Handover? && Offers(s, l.id) {
      assert TaskFits(|s.ledger.t.accepted|, s.callers.flushCtxs, s.callers.responses, l.id, s.callers.tasks[l.id]);
    }
  }

  lemma NextServes(b: nat, s: State, l: Label, job: Job, v: Service)
    requires Kept(s, job, v) && !job.Batch? && Open(s) && Life(s)
    ensures Kept(Next(b, s, l), job, Noted(s, l, Next(b, s, l), job, v))
  {
    hide Kept, OneWinner, Stage, Worked;
    if !l.Work? {
      CallerServes(b, s, l, job, v);
    } else if HasJob(s.worker) && s.worker.job == job {
      if s.worker.Reply? { ReplyServes(b, s, l.ok, v); } else { ServiceGoesOn(b, s, l.ok, v); }
    } else {
      OtherService(b, s, l.ok, job, v);
    }
  }

  lemma ReplyServes(b: nat, s: State, ok: bool, v: Service)
    requires s.worker.Reply? && !s.worker.job.Batch? && Kept(s, s.worker.job, v)
    ensures var s' := Worked(b, s, ok); Kept(s', s.worker.job, Noted(s, Work(ok), s', s.worker.job, v))
  {
    ServiceEnds(s, v);
    hide Kept;
    assert v.calls + [] == v.calls;
  }

  lemma {:induction false} RunServes(b: nat, cap: nat, ls: seq<Label>, job: Job)
    requires !job.Batch?
    ensures Kept(After(b, Init(cap), ls), job, Served(b, Init(cap), ls, job))
  {
    if |ls| == 0 {
    } else {
      var before := ls[..|ls| - 1];
      RunServes(b, cap, before, job);
      RunLife(b, cap, before);
      RunOpen(b, cap, before);
      NextServes(b, After(b, Init(cap), before), ls[|ls| - 1], job, Served(b, Init(cap), before, job));
    }
  }

  // ---------------------------------------------------------------- the law

  /** Answers are kept under the call they belong to. */
  ghost predicate Keyed(s: State)
  {
    forall id :: id in s.callers.responses ==>
      !s.callers.responses[id].job.Batch? && s.callers.responses[id].job.task == id
  }

  lemma {:induction false} RunKeyed(b: nat, cap: nat, ls: seq<Label>)
    ensures Keyed(After(b, Init(cap), ls))
  {
    if |ls| == 0 {
    } else {
      var before, l := ls[..|ls| - 1], ls[|ls| - 1];
      RunKeyed(b, cap, before);
      RunLife(b, cap, before);
      var s := After(b, Init(cap), before);
      hide OneWinner, Stage, Worked, Next;
      if l.Work? { WorkStep(b, s, l.ok); WorkKeepsJob(b, s, l.ok); } else { CallersKeep(b, s, l); }
    }
  }

  lemma WorkStep(b: nat, s: State, ok: bool)
    ensures Next(b, s, Work(ok)) == Worked(b, s, ok)
  {}

  /**
    A request that has been answered: with nil exactly when no look found its context cancelled and every call
    of the exporter made for it returned nil.  These calls are the exports, then ForceFlush unless a look was
    a hit, and then for Shutdown, in any case, Shutdown.
   */
  lemma AnsweredIff(b: nat, cap: nat, ls: seq<Label>, id: nat)
    requires id in After(b, Init(cap), ls).callers.responses
    ensures var c := After(b, Init(cap), ls).callers;
      var a := c.responses[id];
      && !a.job.Batch? && a.job.task == id
      && var v := Served(b, Init(cap), ls, a.job);
        (a.ok <==> AllWell(v)) && Complete(a.job, v) && (v.hits > 0 ==> a.job.ctx in c.cancelled)
  {
    var s := After(b, Init(cap), ls);
    RunKeyed(b, cap, ls);
    RunOpen(b, cap, ls);
    RunServes(b, cap, ls, s.callers.responses[id].job);
    hide Served, After, AllWell, Complete, InService, TasksFit;
  }

  /** A ForceFlush that the worker has answered returns nil by that law. */
  lemma FlushReturnsIff(b: nat, cap: nat, ls: seq<Label>, id: nat)
    requires var tasks := After(b, Init(cap), ls).callers.tasks;
      id in tasks && tasks[id].FlushDone? && tasks[id].answered
    ensures var task := After(b, Init(cap), ls).callers.tasks[id];
      var v := Served(b, Init(cap), ls, Flush(id, task.ctx, task.mark));
      (task.ok <==> AllWell(v)) && Flushed(v)
  {
    var s := After(b, Init(cap), ls);
    RunOpen(b, cap, ls);
    assert TaskFits(|s.ledger.t.accepted|, s.callers.flushCtxs, s.callers.responses, id, s.callers.tasks[id]);
    AnsweredIff(b, cap, ls, id);
  }

  /** Where an error comes from when the worker did not give it, and that all Shutdown calls but one return nil. */
  predicate ErrorFits(c: Callers, id: nat, task: Task)
  {
    match task
    case FlushDone(ctx, _, ok, answered) => ok || answered || ctx in c.cancelled
    case StopDone(ctx, ok, won) =>
      if !won then ok
      else if ok then id in c.responses && c.responses[id].ok
      else ctx in c.cancelled || (id in c.responses && !c.responses[id].ok)
    case _ => true
  }

  ghost predicate ErrorsFit(c: Callers) { forall id :: id in c.tasks ==> ErrorFits(c, id, c.tasks[id]) }

  lemma AdvanceErrors(b: nat, s: State, id: nat)
    requires ErrorsFit(s.callers)
    ensures ErrorsFit(Advanced(b, s, id).callers)
  {}

  lemma NextErrors(b: nat, s: State, l: Label)
    requires ErrorsFit(s.callers) && Open(s) && JobFits(s.worker)
    ensures ErrorsFit(Next(b, s, l).callers)
  {
    hide Advanced, Worked, TasksFit;
    match l
    case Advance(id) => AdvanceErrors(b, s, id);
    case Work(ok) => WorkErrors(b, s, ok);
    case _ =>
  }

  lemma WorkErrors(b: nat, s: State, ok: bool)
    requires ErrorsFit(s.callers) && Open(s) && JobFits(s.worker)
    ensures ErrorsFit(Worked(b, s, ok).callers)
  {
    WorkKeepsJob(b, s, ok);
    WorkKeepsTasks(b, s, ok);
    hide Worked, TasksFit;
  }

  lemma WorkKeepsTasks(b: nat, s: State, ok: bool)
    ensures Worked(b, s, ok).callers.tasks == s.callers.tasks
  {}

  lemma {:induction false} RunErrors(b: nat, cap: nat, ls: seq<Label>)
    ensures ErrorsFit(After(b, Init(cap), ls).callers)
  {
    if |ls| == 0 {
    } else {
      var before := ls[..|ls| - 1];
      RunErrors(b, cap, before);
      RunLife(b, cap, before);
      RunOpen(b, cap, before);
      hide ErrorsFit, OneWinner, Stage;
      NextErrors(b, After(b, Init(cap), before), ls[|ls| - 1]);
    }
  }

  /** An error from ForceFlush means that its context is cancelled or a call of the exporter made for it failed. */
  lemma FlushErrorIsReal(b: nat, cap: nat, ls: seq<Label>, id: nat)
    requires var tasks := After(b, Init(cap), ls).callers.tasks; id in tasks && tasks[id].FlushDone? && !tasks[id].ok
    ensures var c := After(b, Init(cap), ls).callers;
      var task := c.tasks[id];
      task.ctx in c.cancelled
        || !AllNil(Served(b, Init(cap), ls, Flush(id, task.ctx, task.mark)).calls)
  {
    var c := After(b, Init(cap), ls).callers;
    var task := c.tasks[id];
    RunErrors(b, cap, ls);
    assert ErrorFits(c, id, task);
    if task.answered {
      var s := After(b, Init(cap), ls);
      RunOpen(b, cap, ls);
      assert TaskFits(|s.ledger.t.accepted|, s.callers.flushCtxs, s.callers.responses, id, task);
      AnsweredIff(b, cap, ls, id);
    }
  }

  /**
    What Shutdown returns.  The call that stopped the processor returns nil exactly by the law, unless it gave
    up with its context cancelled; every other call returns nil.
   */
  lemma ShutdownReturnsIff(b: nat, cap: nat, ls: seq<Label>, id: nat)
    requires var tasks := After(b, Init(cap), ls).callers.tasks; id in tasks && tasks[id].StopDone?
    ensures var c := After(b, Init(cap), ls).callers;
      var task := c.tasks[id];
      if !task.won then task.ok
      else if id !in c.responses then !task.ok && task.ctx in c.cancelled
      else
        var v := Served(b, Init(cap), ls, c.responses[id].job);
        Shut(v) && (task.ok ==> AllWell(v)) && (!task.ok && AllWell(v) ==> task.ctx in c.cancelled)
  {
    var s := After(b, Init(cap), ls);
    RunErrors(b, cap, ls);
    RunOpen(b, cap, ls);
    assert ErrorFits(s.callers, id, s.callers.tasks[id]);
    assert TaskFits(|s.ledger.t.accepted|, s.callers.flushCtxs, s.callers.responses, id, s.callers.tasks[id]);
    hide Served, After, AllWell, Shut, Flushed, TasksFit;
    if id in s.callers.responses { AnsweredIff(b, cap, ls, id); }
  }
}

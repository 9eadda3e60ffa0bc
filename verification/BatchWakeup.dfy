/** A full batch in the log queue is never forgotten, and the exporter is shut down once, last. */
module BatchWakeup {
  import opened Prelude
  import Q = LogQueue
  import opened BatchProcessor
  import opened BatchLifecycle

  /** Some emit has filled a batch and is about to put the token into `exportTrigger`. */
  ghost predicate Signalling(tasks: map<nat, Task>)
  {
    exists id :: id in tasks && tasks[id].EmitSignal?
  }

  /** The worker is about to empty or shorten the queue, or will put the token back. */
  predicate WillLook(b: nat, w: Worker)
  {
    || w.Tally? || w.Take?
    || ((w.Test? || w.Send? || w.Sent? || w.Finish?) && w.job.Batch? && w.remaining >= b)
  }

  ghost predicate Awake(b: nat, s: State)
  {
    |s.ledger.t.q.items| >= b ==> s.flags.trigger || WillLook(b, s.worker) || Signalling(s.callers.tasks)
  }

  lemma SignalKept(tasks: map<nat, Task>, id: nat, task: Task)
    requires Signalling(tasks) && (id in tasks && tasks[id].EmitSignal? ==> task.EmitSignal?)
    ensures Signalling(tasks[id := task])
  {
    var x :| x in tasks && tasks[x].EmitSignal?;
    assert tasks[id := task][x].EmitSignal?;
  }

  lemma AdvanceAwake(b: nat, s: State, id: nat)
    requires Awake(b, s)
    ensures Awake(b, Advanced(b, s, id))
  {
    var s' := Advanced(b, s, id);
    if id in s.callers.tasks && s' != s {
      var task, task' := s.callers.tasks[id], s'.callers.tasks[id];
      assert s'.callers.tasks == s.callers.tasks[id := task'];
      if Signalling(s.callers.tasks) && !task.EmitSignal? { SignalKept(s.callers.tasks, id, task'); }
      if task'.EmitSignal? { assert id in s'.callers.tasks; }
    }
  }

  lemma CallerAwake(b: nat, s: State, l: Label)
    requires Awake(b, s) && (l.Cancel? || l.Enter? || l.GiveUp? || l.SeeDone? || l.Handover?)
    ensures Awake(b, Next(b, s, l))
  {
    var s' := Next(b, s, l);
    if Signalling(s.callers.tasks) && !l.Cancel? && s' != s {
      SignalKept(s.callers.tasks, l.id, s'.callers.tasks[l.id]);
    }
  }

  lemma WorkAwake(b: nat, s: State, ok: bool)
    requires Awake(b, s) && b >= 1
    ensures Awake(b, Worked(b, s, ok))
  {
    hide Signalling;
  }

  lemma NextAwake(b: nat, s: State, l: Label)
    requires Awake(b, s) && b >= 1
    ensures Awake(b, Next(b, s, l))
  {
    hide Signalling, Worked, Advanced;
    match l
    case Advance(id) => AdvanceAwake(b, s, id);
    case Work(ok) => WorkAwake(b, s, ok);
    case TakeShutdown =>
    case TimerFires =>
    case TakeTrigger =>
    case _ => CallerAwake(b, s, l);
  }

  /** No wake-up is lost: a full batch always has a token, an emit or a worker that will see to it. */
  lemma {:induction false} RunAwake(b: nat, cap: nat, ls: seq<Label>)
    requires b >= 1
    ensures Awake(b, After(b, Init(cap), ls))
  {
    if |ls| == 0 {
    } else {
      RunAwake(b, cap, ls[..|ls| - 1]);
      NextAwake(b, After(b, Init(cap), ls[..|ls| - 1]), ls[|ls| - 1]);
    }
  }

  /** So the worker does not sleep on a full batch: once the emits have signalled, an export can start. */
  lemma BlockedWorkerIsWoken(b: nat, cap: nat, ls: seq<Label>)
    requires b >= 1
    ensures var s := After(b, Init(cap), ls);
      s.worker.Block? && |s.ledger.t.q.items| >= b && !Signalling(s.callers.tasks) ==>
        s.flags.trigger && Next(b, s, TakeTrigger).worker == Tally(Batch)
  {
    RunAwake(b, cap, ls);
  }

  // ---------------------------------------------------------------- calls of the exporter

  predicate ExporterClosed(w: Worker)
  {
    w.CloseDone? || w.Exited? || (w.Reply? && w.job.Shutdown?)
  }

  /** Shutdown is called once at the most, and no call follows it. */
  ghost predicate ShutdownLast(calls: seq<Call>, w: Worker)
  {
    && (forall i :: 0 <= i < |calls| - 1 ==> !calls[i].ShutdownCall?)
    && (ExporterClosed(w) <==> |calls| > 0 && calls[|calls| - 1].ShutdownCall?)
  }

  lemma CallLast(calls: seq<Call>, w: Worker, c: Call, w': Worker)
    requires ShutdownLast(calls, w) && !ExporterClosed(w) && (ExporterClosed(w') <==> c.ShutdownCall?)
    ensures ShutdownLast(calls + [c], w')
  {}

  lemma WorkLast(b: nat, s: State, ok: bool)
    requires ShutdownLast(s.ledger.calls, s.worker) && Life(s)
    ensures var s' := Worked(b, s, ok); ShutdownLast(s'.ledger.calls, s'.worker)
  {
    var w, s' := s.worker, Worked(b, s, ok);
    hide OneWinner, Stage;
    if s'.ledger.calls != s.ledger.calls {
      var c := s'.ledger.calls[|s.ledger.calls|];
      CallLast(s.ledger.calls, w, c, s'.worker);
      hide ShutdownLast;
      assert s'.ledger.calls == s.ledger.calls + [c];
    }
  }

  lemma NextLast(b: nat, s: State, l: Label)
    requires ShutdownLast(s.ledger.calls, s.worker) && Life(s)
    ensures var s' := Next(b, s, l); ShutdownLast(s'.ledger.calls, s'.worker)
  {
    hide Worked, OneWinner;
    if l.Work? { WorkLast(b, s, l.ok); }
  }

  lemma {:induction false} RunLast(b: nat, cap: nat, ls: seq<Label>)
    ensures var s := After(b, Init(cap), ls); ShutdownLast(s.ledger.calls, s.worker)
  {
    if |ls| == 0 {
    } else {
      RunLast(b, cap, ls[..|ls| - 1]);
      RunLife(b, cap, ls[..|ls| - 1]);
      NextLast(b, After(b, Init(cap), ls[..|ls| - 1]), ls[|ls| - 1]);
    }
  }
}

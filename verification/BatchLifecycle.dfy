/** Shutdown of the log processor: one request, one final flush, and then nothing more. */
module BatchLifecycle {
  import opened Prelude
  import Q = LogQueue
  import opened BatchProcessor

  /** The call of Shutdown that found `stopped` unset, wherever it stands. */
  predicate Won(task: Task)
  {
    task.StopWon? || task.StopClosed? || task.StopQueued? || task.StopAwait? || (task.StopDone? && task.won)
  }

  ghost predicate OneWinner(tasks: map<nat, Task>, stopper: Option<nat>)
  {
    && (forall id :: id in tasks && Won(tasks[id]) ==> stopper == Some(id))
    && (stopper.Some? ==> stopper.value in tasks && Won(tasks[stopper.value]))
  }

  /** How far the winning call has come: not made, `stopped` set, queue closed, request queued. */
  function Stage(tasks: map<nat, Task>, stopper: Option<nat>): nat
  {
    if stopper.None? || stopper.value !in tasks then 0
    else match tasks[stopper.value]
    case StopWon(_) => 1
    case StopClosed(_) => 2
    case _ => 3
  }

  predicate HasJob(w: Worker) { !w.Probe? && !w.Poll? && !w.Block? && !w.Exited? }

  predicate InShutdown(w: Worker)
  {
    w.Exited? || (HasJob(w) && w.job.Shutdown?)
  }

  /** The final `Flush` of the queue has run. */
  predicate Emptied(w: Worker)
  {
    InShutdown(w) && !w.Tally? && !w.Take?
  }

  predicate JobFits(w: Worker)
  {
    && (w.FlushTest? ==> w.job.Flush?)
    && (w.CloseExporter? || w.CloseDone? ==> w.job.Shutdown?)
    && (w.Reply? ==> !w.job.Batch?)
  }

  predicate InStage(stage: nat, f: Flags, q: Q.Fifo<Record>, w: Worker)
  {
    && (f.stopped <==> f.stopper.Some?) && (f.stopped <==> stage >= 1) && (q.closed <==> stage >= 2)
    && (stage == 3 <==> f.request.Some? || InShutdown(w)) && !(f.request.Some? && InShutdown(w))
    && (f.request.Some? ==> f.request.value.Shutdown? && f.stopper == Some(f.request.value.task))
    && (HasJob(w) && w.job.Shutdown? ==> f.stopper == Some(w.job.task))
    && (Emptied(w) ==> q.items == [])
    && (f.done <==> w.Exited? || (w.Reply? && w.job.Shutdown?))
    && JobFits(w)
  }

  ghost predicate Life(s: State)
  {
    var (f, tasks) := (s.flags, s.callers.tasks);
    OneWinner(tasks, f.stopper) && InStage(Stage(tasks, f.stopper), f, s.ledger.t.q, s.worker)
  }

  /** A call that is not the winning one changes nothing of this. */
  lemma OtherTask(tasks: map<nat, Task>, stopper: Option<nat>, id: nat, task: Task)
    requires OneWinner(tasks, stopper)
    requires if stopper == Some(id) then id in tasks && Won(task) else !Won(task)
    requires stopper == Some(id) ==>
      (tasks[id].StopWon? <==> task.StopWon?) && (tasks[id].StopClosed? <==> task.StopClosed?)
    ensures var after := tasks[id := task];
      OneWinner(after, stopper) && Stage(after, stopper) == Stage(tasks, stopper)
  {}

  lemma WithTaskLife(s: State, id: nat, task: Task)
    requires Life(s)
    requires if s.flags.stopper == Some(id) then id in s.callers.tasks && Won(task) else !Won(task)
    requires s.flags.stopper == Some(id) ==>
      (s.callers.tasks[id].StopWon? <==> task.StopWon?) && (s.callers.tasks[id].StopClosed? <==> task.StopClosed?)
    ensures Life(WithTask(s, id, task))
  {
    OtherTask(s.callers.tasks, s.flags.stopper, id, task);
    hide OneWinner, Stage, InStage;
  }

  lemma EmitLife(b: nat, s: State, id: nat)
    requires Life(s) && id in s.callers.tasks && s.callers.tasks[id].EmitOpen?
    ensures Life(EmitEnqueues(b, s, id, s.callers.tasks[id].r))
  {
    var r := s.callers.tasks[id].r;
    var s' := EmitEnqueues(b, s, id, r);
    WithTaskLife(s, id, s'.callers.tasks[id]);
    if !s.ledger.t.q.closed {
      var q, q' := s.ledger.t.q, s'.ledger.t.q;
      assert q'.closed == q.closed && s'.flags == s.flags && s'.worker == s.worker;
      hide OneWinner, Stage;
    }
  }

  lemma StopLife(s: State, id: nat)
    requires Life(s) && id in s.callers.tasks
    ensures Life(StopAdvances(s, id, s.callers.tasks[id]))
  {
    var task := s.callers.tasks[id];
    var s' := StopAdvances(s, id, task);
    if task.StopCalled? && !s.flags.stopped {
    } else if task.StopWon? {
    } else if task.StopClosed? && s.flags.request.None? {
    } else if s'.callers.tasks[id] != task {
      WithTaskLife(s, id, s'.callers.tasks[id]);
    }
  }

  lemma AdvanceLife(b: nat, s: State, id: nat)
    requires Life(s)
    ensures Life(Advanced(b, s, id))
  {
    if id in s.callers.tasks {
      var task := s.callers.tasks[id];
      if task.EmitOpen? {
        EmitLife(b, s, id);
      } else if task.EmitCalled? || task.EmitSignal? || task.FlushCalled? || task.FlushOpen? || task.FlushAwait? {
        WithTaskLife(s, id, Advanced(b, s, id).callers.tasks[id]);
      } else {
        StopLife(s, id);
      }
    }
  }

  lemma CallerLife(b: nat, s: State, l: Label)
    requires Life(s) && (l.Cancel? || l.Enter? || l.GiveUp? || l.SeeDone? || l.Handover?)
    ensures Life(Next(b, s, l))
  {
    var s' := Next(b, s, l);
    if !l.Cancel? && l.id in s'.callers.tasks {
      var task := s'.callers.tasks[l.id];
      if l.id !in s.callers.tasks || s.callers.tasks[l.id] != task {
        WithTaskLife(s, l.id, task);
      }
    }
  }

  lemma WorkerLife(s: State, s': State)
    requires Life(s) && s'.callers.tasks == s.callers.tasks && s'.flags.stopper == s.flags.stopper
    requires s'.flags.stopped == s.flags.stopped && s'.ledger.t.q.closed == s.ledger.t.q.closed
    requires InShutdown(s'.worker) || s'.flags.request.Some? <==> InShutdown(s.worker) || s.flags.request.Some?
    requires !(s'.flags.request.Some? && InShutdown(s'.worker))
    requires s'.flags.request.Some? ==> s'.flags.request == s.flags.request
    requires HasJob(s'.worker) && s'.worker.job.Shutdown? ==>
      (HasJob(s.worker) && s'.worker.job == s.worker.job) || s.flags.request == Some(s'.worker.job)
    requires Emptied(s'.worker) ==> s'.ledger.t.q.items == []
    requires s'.flags.done <==> s'.worker.Exited? || (s'.worker.Reply? && s'.worker.job.Shutdown?)
    requires JobFits(s'.worker)
    ensures Life(s')
  {
    hide OneWinner, Stage;
  }

  lemma WorkLife(b: nat, s: State, ok: bool)
    requires Life(s)
    ensures Life(Worked(b, s, ok))
  {
    var w, s' := s.worker, Worked(b, s, ok);
    hide OneWinner, Stage;
    WorkerLife(s, s');
  }

  lemma NextLife(b: nat, s: State, l: Label)
    requires Life(s)
    ensures Life(Next(b, s, l))
  {
    hide OneWinner, Stage, Worked, Advanced;
    match l
    case Advance(id) => AdvanceLife(b, s, id);
    case Work(ok) => WorkLife(b, s, ok);
    case TakeShutdown => WorkerLife(s, Next(b, s, l));
    case TimerFires => WorkerLife(s, Next(b, s, l));
    case TakeTrigger => WorkerLife(s, Next(b, s, l));
    case _ => CallerLife(b, s, l);
  }

  lemma {:induction false} RunLife(b: nat, cap: nat, ls: seq<Label>)
    ensures Life(After(b, Init(cap), ls))
  {
    if |ls| == 0 {
    } else {
      RunLife(b, cap, ls[..|ls| - 1]);
      NextLife(b, After(b, Init(cap), ls[..|ls| - 1]), ls[|ls| - 1]);
    }
  }

  /** `done` is closed by the worker's part of Shutdown. */
  lemma DoneIsStopped(s: State)
    requires Life(s) && s.flags.done
    ensures s.flags.stopped && Emptied(s.worker) && s.ledger.t.q.items == []
    ensures s.worker.Reply? || s.worker.Exited?
  {
    hide OneWinner;
  }
}

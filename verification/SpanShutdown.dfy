/** Shutdown of the span processor: what it drains, and exactly when it leaves a span behind. */
module SpanShutdown {
  import opened Prelude
  import opened SpanProcessor
  import opened SpanFlow
  import F = SpanFlush

  predicate HasGoal(w: Worker) { w.Want? || w.Locked? || w.Sent? }

  /** The worker has left `processQueue`. */
  predicate PastSelect(w: Worker)
  {
    w.DrainSelect? || w.Done? || (w.Hand? && w.draining) || (HasGoal(w) && !w.goal.Loop?)
  }

  /** The worker has found the queue empty for good. */
  predicate PastDrain(w: Worker)
  {
    w.Done? || (HasGoal(w) && w.goal.Finish?)
  }

  ghost predicate Stops(s: State)
  {
    var (f, w) := (s.flags, s.worker);
    && (f.closer.NoCloser? <==> !f.stopped) && (f.stopCh <==> f.closer.AwaitWorker? || f.closer.Closed?)
    && (PastSelect(w) ==> f.stopCh) && (f.closer.Closed? ==> w.Done?)
    && (w.Done? ==> s.ledger.batch == [] && !s.ledger.sent)
    && (f.stopped ==> InFlight(s.callers.tasks) <= f.inFlight)
    && (f.stopped && f.inFlight == {} && PastDrain(w) ==> Spans(s.ledger.queue) == [])
    && FirstStops(s.callers.tasks, f.closer)
  }

  ghost predicate FirstStops(tasks: map<nat, Task>, closer: Closer)
  {
    forall id :: id in tasks && tasks[id].StopDone? && tasks[id].ok && tasks[id].first ==> closer == Closed(true)
  }

  /** A call moves on that is no OnEnd with a sampled span about to send. */
  lemma TaskStops(s: State, s': State, id: nat, task: Task)
    requires Stops(s) && s'.callers == WithTask(s, id, task).callers && s'.flags == s.flags
    requires s'.ledger.batch == s.ledger.batch && s'.ledger.sent == s.ledger.sent && s'.ledger.queue == s.ledger.queue
    requires s'.worker == s.worker && (task.EndOpen? && s.flags.stopped ==> !task.sampled)
    requires task.StopDone? && task.ok && task.first ==> s.flags.closer == Closed(true)
    ensures Stops(s')
  {}

  lemma SendStops(c: Config, s: State, item: Item)
    requires Stops(s) && CanSend(c, s) && (item.Snapshot? && s.flags.stopped ==> s.flags.inFlight != {})
    ensures Stops(Send(c, s, item))
  {
    SpansNext(s.ledger.queue, item);
    hide Spans;
  }

  lemma OfferedStops(c: Config, s: State, id: nat, meets: bool)
    requires Stops(s) && id in s.callers.tasks && s.callers.tasks[id].EndOpen? && s.callers.tasks[id].sampled
    ensures Stops(Offered(c, s, id, s.callers.tasks[id].s, meets))
  {
    var span := s.callers.tasks[id].s;
    assert id in InFlight(s.callers.tasks);
    assert s.flags.stopped ==> s.flags.inFlight != {};
    hide Stops, Send, InFlight;
    var s1 := WithTask(s, id, EndDone).(ledger := s.ledger.(attempts := s.ledger.attempts + 1));
    TaskStops(s, s1, id, EndDone);
    if |s.ledger.queue| < c.room || (c.room == 0 && meets && s.worker.Select?) {
      SendStops(c, s1, Snapshot(span));
    } else {
      TaskStops(s, Offered(c, s, id, span, meets), id, EndDone);
    }
  }

  lemma FlushStops(c: Config, s: State, id: nat)
    requires Stops(s) && id in s.callers.tasks
    ensures Stops(FlushAdvances(c, s, id, s.callers.tasks[id]))
  {
    var task := s.callers.tasks[id];
    var s' := FlushAdvances(c, s, id, task);
    hide Stops;
    if task.FlushOffer? && CanSend(c, s) {
      var item := Marker(id, |s.ledger.accepted|);
      SendStops(c, s, item);
      hide Send;
      TaskStops(Send(c, s, item), s', id, FlushMarked(task.ctx));
    } else if task.FlushMarked? && id in s.callers.closed {
      StartStops(s, id, task.ctx, Some(s.callers.closed[id]));
    } else if s' != s {
      TaskStops(s, s', id, s'.callers.tasks[id]);
    }
  }

  lemma StartStops(s: State, id: nat, ctx: nat, mark: Option<nat>)
    requires Stops(s)
    ensures Stops(StartExport(s, id, ctx, mark))
  {
    var s1 := WithTask(s, id, FlushWait(ctx));
    TaskStops(s, s1, id, FlushWait(ctx));
    assert StartExport(s, id, ctx, mark).callers.tasks == s1.callers.tasks;
    hide Spans, InFlight;
  }

  lemma StopStops(s: State, id: nat)
    requires Stops(s) && id in s.callers.tasks && Locks(s)
    ensures Stops(StopAdvances(s, id, s.callers.tasks[id]))
  {
    hide Spans, Locks;
  }

  lemma AdvanceStops(c: Config, s: State, id: nat, ok: bool)
    requires Stops(s) && Locks(s)
    ensures Stops(Advanced(c, s, id, ok))
  {
    hide Stops, Offered, FlushAdvances, StopAdvances, Locks;
    if id in s.callers.tasks {
      var task, s' := s.callers.tasks[id], Advanced(c, s, id, ok);
      if task.EndOpen? && task.sampled {
        OfferedStops(c, s, id, ok);
      } else if task.EndCalled? || task.EndOpen? {
        TaskStops(s, s', id, s'.callers.tasks[id]);
      } else if task.StopCalled? || task.StopWait? {
        StopStops(s, id);
      } else {
        FlushStops(c, s, id);
      }
    }
  }

  lemma SelectStops(c: Config, s: State, l: Label)
    requires Stops(s) && (l.Enter? || l.SeeStop?)
    ensures Stops(Next(c, s, l))
  {
    hide Stops;
    var s' := Next(c, s, l);
    if s' != s { TaskStops(s, s', l.id, s'.callers.tasks[l.id]); }
  }

  lemma GiveUpStops(s: State, id: nat)
    requires Stops(s)
    ensures Stops(GivenUp(s, id))
  {
    var s' := GivenUp(s, id);
    if s' != s {
      var task := s.callers.tasks[id];
      if task.FlushOffer? {
        hide Stops;
        StartStops(s, id, task.ctx, None);
      } else {
        var s1 := WithTask(s, id, s'.callers.tasks[id]);
        TaskStops(s, s1, id, s'.callers.tasks[id]);
        hide Spans, InFlight, FirstStops;
      }
    }
  }

  lemma WorkStops(c: Config, s: State)
    requires Stops(s) && Locks(s)
    ensures Stops(Worked(c, s)) && Stops(Received(s))
  {
    assert s.ledger.queue == [] ==> Spans(s.ledger.queue) == [];
    hide Spans, InFlight, FirstStops;
  }

  lemma ExportStops(s: State, id: nat, ok: bool)
    requires Stops(s) && Locks(s)
    ensures Stops(ExportMoves(s, id, ok))
  {
    hide Spans, InFlight, FirstStops;
  }

  lemma CloserStops(s: State, ok: bool)
    requires Stops(s)
    ensures Stops(CloserMoves(s, ok))
  {
    hide Spans, InFlight;
  }

  lemma NextStops(c: Config, s: State, l: Label)
    requires Stops(s) && Locks(s)
    ensures Stops(Next(c, s, l))
  {
    hide Advanced, Worked, Received, ExportMoves, GivenUp, CloserMoves, Locks, Spans, InFlight, FirstStops;
    match l
    case Advance(id, ok) => AdvanceStops(c, s, id, ok);
    case Export(id, ok) => ExportStops(s, id, ok);
    case Work => WorkStops(c, s);
    case Receive => WorkStops(c, s);
    case Enter(_, _) => SelectStops(c, s, l);
    case GiveUp(id) => GiveUpStops(s, id);
    case SeeStop(_) => SelectStops(c, s, l);
    case Close(ok) => CloserStops(s, ok);
    case _ =>
  }

  lemma {:induction false} RunStops(c: Config, ls: seq<Label>)
    requires c.max >= 1
    ensures Stops(Run(c, Init(), ls))
  {
    if |ls| == 0 {
    } else {
      RunStops(c, ls[..|ls| - 1]);
      RunFlow(c, ls[..|ls| - 1]);
      NextStops(c, Run(c, Init(), ls[..|ls| - 1]), ls[|ls| - 1]);
    }
  }
}

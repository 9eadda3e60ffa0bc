/** The promises of the span processor's Shutdown, and the run in which one fails. */
module SpanDelivery {
  import opened Prelude
  import opened SpanProcessor
  import opened SpanFlow
  import opened SpanShutdown
  import F = SpanFlush

  /** The Shutdown call that did the work has returned nil. */
  predicate ShutDown(s: State, id: nat)
  {
    id in s.callers.tasks && s.callers.tasks[id].StopDone? && s.callers.tasks[id].ok && s.callers.tasks[id].first
  }

  /**
    After such a Shutdown the spans accepted are those exported and those left in the queue; none is left
    if no OnEnd was past its look at `stopped` when Shutdown set it, or if the queue has no buffer.
   */
  lemma ShutdownAccounts(c: Config, ls: seq<Label>, id: nat)
    requires c.max >= 1 && ShutDown(Run(c, Init(), ls), id)
    ensures var s := Run(c, Init(), ls);
      && s.worker.Done? && s.ledger.accepted == Exported(s.ledger.calls) + Spans(s.ledger.queue)
      && (s.flags.inFlight == {} || c.room == 0 ==> s.ledger.accepted == Exported(s.ledger.calls))
  {
    var s := Run(c, Init(), ls);
    RunFlow(c, ls);
    RunStops(c, ls);
    assert s.flags.closer == Closed(true) && Pending(s.ledger) == [] && InHand(s.worker) == [];
    assert c.room == 0 ==> s.ledger.queue == [] && Spans(s.ledger.queue) == [];
    assert Exported(s.ledger.calls) + [] == Exported(s.ledger.calls);
    assert [] + Spans(s.ledger.queue) == Spans(s.ledger.queue);
  }

  lemma DoneCalls(c: Config, s: State, l: Label)
    requires Stops(s) && Locks(s) && s.worker.Done?
    ensures var s' := Next(c, s, l); s'.worker.Done? && s'.ledger.calls == s.ledger.calls
  {
    hide Spans, InFlight, FirstStops;
    if l.Advance? { AdvanceDone(c, s, l.id, l.ok); }
    hide Advanced;
  }

  lemma AdvanceDone(c: Config, s: State, id: nat, ok: bool)
    requires s.worker.Done?
    ensures var s' := Advanced(c, s, id, ok); s'.worker.Done? && s'.ledger.calls == s.ledger.calls
  {}

  /** Once the worker is done, and so when the exporter is shut down, ExportSpans is not called again. */
  lemma {:induction false} NoCallAfterDone(c: Config, ls: seq<Label>, more: seq<Label>)
    requires c.max >= 1 && Run(c, Init(), ls).worker.Done?
    ensures var (s, s') := (Run(c, Init(), ls), Run(c, Init(), ls + more));
      s'.worker.Done? && s'.ledger.calls == s.ledger.calls
  {
    if |more| == 0 {
      assert ls + more == ls;
    } else {
      var init := more[..|more| - 1];
      NoCallAfterDone(c, ls, init);
      assert (ls + more)[..|ls + more| - 1] == ls + init;
      RunFlow(c, ls + init);
      RunStops(c, ls + init);
      DoneCalls(c, Run(c, Init(), ls + init), more[|more| - 1]);
    }
  }

  // ---------------------------------------------------------------- the worker can always finish

  /** The next step on the worker's way to its end, when nobody else moves but a holder of the mutex. */
  function Drive(s: State): Label
  {
    if s.flags.holder.ByTask? then Export(s.flags.holder.id, true)
    else match s.worker
    case Select => TakeStop
    case DrainSelect => if s.ledger.queue == [] then Work else Receive
    case _ => Work
  }

  function GoalRank(goal: Goal): nat
  {
    match goal case Finish => 1 case Drain => 5 case Loop => 10
  }

  function Rank(w: Worker): nat
  {
    match w
    case Done => 0
    case Sent(goal) => GoalRank(goal)
    case Locked(goal) => GoalRank(goal) + 1
    case Want(goal) => GoalRank(goal) + 2
    case DrainSelect => 4
    case Hand(_, draining) => if draining then 8 else 13
    case Select => 9
  }

  /** How far the worker is from its end. */
  function Distance(s: State): nat
  {
    var h := s.flags.holder;
    10 * |s.ledger.queue| + Rank(s.worker)
    + if h.ByTask? && h.id in s.callers.exporters then (if s.callers.exporters[h.id].step.XLocked? then 2 else 1) else 0
  }

  /** What does not change on that way. */
  predicate Same(s: State, s': State)
  {
    && s'.callers.tasks == s.callers.tasks && s'.ledger.accepted == s.ledger.accepted
    && s'.flags.(holder := s.flags.holder) == s.flags
  }

  predicate Drained(s: State) { PastDrain(s.worker) ==> s.ledger.queue == [] }

  lemma DriveNearer(c: Config, s: State)
    requires Locks(s) && s.flags.stopCh && !s.worker.Done?
    ensures var s' := Next(c, s, Drive(s));
      Locks(s') && Same(s, s') && (Drained(s) ==> Drained(s')) && Distance(s') < Distance(s)
  {
    NextLocks(c, s, Drive(s));
    if s.flags.holder.ByTask? {
      ExportNearer(s);
    } else {
      assert s.flags.holder.ByWorker? <==> s.worker.Locked? || s.worker.Sent?;
      hide Locks, Worked, Received;
      match s.worker
      case Select =>
      case DrainSelect => if s.ledger.queue == [] { WorkNearer(c, s); } else { ReceiveNearer(s); }
      case _ => WorkNearer(c, s);
    }
  }

  lemma ExportNearer(s: State)
    requires Locks(s) && s.flags.holder.ByTask?
    ensures var s' := ExportMoves(s, s.flags.holder.id, true);
      Same(s, s') && (Drained(s) ==> Drained(s')) && Distance(s') < Distance(s)
  {
    hide Started;
  }

  lemma WorkNearer(c: Config, s: State)
    requires !s.flags.holder.ByTask? && !s.worker.Done? && !s.worker.Select?
    requires s.flags.holder.ByWorker? <==> s.worker.Locked? || s.worker.Sent?
    requires s.worker.DrainSelect? ==> s.ledger.queue == []
    ensures var s' := Worked(c, s);
      Same(s, s') && (Drained(s) ==> Drained(s')) && Distance(s') < Distance(s)
  {}

  lemma ReceiveNearer(s: State)
    requires s.worker.DrainSelect? && s.ledger.queue != []
    ensures var s' := Received(s); Same(s, s') && Drained(s') && Distance(s') < Distance(s)
  {}

  /**
    From every state in which `stopCh` is closed the worker can reach its end, and so Shutdown can return;
    the channel is empty then, unless a span came in after the worker had found it empty.
   */
  lemma {:induction false} WorkerCanFinish(c: Config, s: State) returns (ls: seq<Label>)
    requires Locks(s) && s.flags.stopCh
    ensures var s' := Run(c, s, ls);
      s'.worker.Done? && Same(s, s') && (Drained(s) ==> s'.ledger.queue == [])
    decreases Distance(s)
  {
    if s.worker.Done? { return []; }
    var l := Drive(s);
    DriveNearer(c, s);
    var rest := WorkerCanFinish(c, Next(c, s, l));
    ls := [l] + rest;
    F.RunSplit(c, s, [l], rest);
    assert [l][..0] == [] && Run(c, s, []) == s;
    assert Run(c, s, [l]) == Next(c, s, l);
  }

  // ---------------------------------------------------------------- when a span is left behind

  /** Shutdown call id begins, runs and returns nil, and yet an accepted span is never exported. */
  predicate Strands(c: Config, s: State, id: nat, more: seq<Label>)
  {
    var s' := Run(c, Next(c, s, Advance(id, true)), more);
    ShutDown(s', id) && s'.ledger.accepted != Exported(s'.ledger.calls)
  }

  lemma SetStop(c: Config, s: State, id: nat)
    requires id in s.callers.tasks && s.callers.tasks[id].StopCalled? && !s.flags.stopped && !s.flags.onceOver
    ensures var s' := Next(c, s, Advance(id, true));
      && s'.flags == s.flags.(stopped := true, inFlight := InFlight(s.callers.tasks), closer := CloseStop)
      && s'.callers == s.callers.(tasks := s.callers.tasks[id := StopWait(s.callers.tasks[id].ctx)])
      && s'.ledger == s.ledger && s'.worker == s.worker
  {}

  lemma StopsStay(c: Config, s: State, l: Label)
    requires s.flags.stopped
    ensures var s' := Next(c, s, l); s'.flags.stopped && s'.flags.inFlight == s.flags.inFlight
  {}

  lemma {:induction false} StopsStayRun(c: Config, s: State, ls: seq<Label>)
    requires s.flags.stopped
    ensures var s' := Run(c, s, ls); s'.flags.stopped && s'.flags.inFlight == s.flags.inFlight
  {
    if |ls| == 0 {
    } else {
      StopsStayRun(c, s, ls[..|ls| - 1]);
      StopsStay(c, Run(c, s, ls[..|ls| - 1]), ls[|ls| - 1]);
    }
  }

  /** Without a sampled span in flight, or without a buffer, no continuation leaves a span behind. */
  lemma NothingStranded(c: Config, ls: seq<Label>, id: nat, more: seq<Label>)
    requires c.max >= 1
    requires var s := Run(c, Init(), ls);
      && id in s.callers.tasks && s.callers.tasks[id].StopCalled? && !s.flags.stopped && !s.flags.onceOver
      && (c.room == 0 || InFlight(s.callers.tasks) == {})
    ensures !Strands(c, Run(c, Init(), ls), id, more)
  {
    var s, l := Run(c, Init(), ls), Advance(id, true);
    SetStop(c, s, id);
    StopsStayRun(c, Next(c, s, l), more);
    assert (ls + [l])[..|ls|] == ls;
    F.RunSplit(c, Init(), ls + [l], more);
    if ShutDown(Run(c, Init(), ls + [l] + more), id) { ShutdownAccounts(c, ls + [l] + more, id); }
  }

  /** Two steps of Shutdown's goroutine around the worker's way to its end. */
  lemma FinishRun(c: Config, s: State, id: nat) returns (more: seq<Label>)
    requires Locks(s) && s.flags.closer.CloseStop? && Drained(s) && s.flags.stopped
    requires id in s.callers.tasks && s.callers.tasks[id].StopWait?
    ensures var s' := Run(c, s, more);
      && s'.worker.Done? && s'.ledger.queue == [] && s'.ledger.accepted == s.ledger.accepted
      && s'.callers.tasks == s.callers.tasks[id := StopDone(true, true)]
  {
    var s1 := Next(c, s, Close(true));
    NextLocks(c, s, Close(true));
    var drive := WorkerCanFinish(c, s1);
    var s2 := Run(c, s1, drive);
    more := [Close(true)] + drive + [Close(true)] + [Advance(id, true)];
    OneStep(c, s, Close(true));
    F.RunSplit(c, s, [Close(true)], drive);
    hide Run;
    var s3 := Next(c, s2, Close(true));
    OneStep(c, s2, Close(true));
    F.RunSplit(c, s, [Close(true)] + drive, [Close(true)]);
    OneStep(c, s3, Advance(id, true));
    F.RunSplit(c, s, [Close(true)] + drive + [Close(true)], [Advance(id, true)]);
  }

  lemma OneStep(c: Config, s: State, l: Label)
    ensures Run(c, s, [l]) == Next(c, s, l)
  {
    assert [l][..0] == [] && Run(c, s, []) == s;
  }

  /** With a sampled span in flight and a buffer, some continuation leaves that span behind. */
  lemma SomeStranded(c: Config, ls: seq<Label>, id: nat, e: nat) returns (more: seq<Label>)
    requires c.max >= 1 && c.room >= 1
    requires var s := Run(c, Init(), ls);
      && id in s.callers.tasks && s.callers.tasks[id].StopCalled? && !s.flags.stopped && !s.flags.onceOver
      && e in InFlight(s.callers.tasks)
    ensures Strands(c, Run(c, Init(), ls), id, more)
  {
    var s, l := Run(c, Init(), ls), Advance(id, true);
    RunFlow(c, ls);
    RunStops(c, ls);
    SetStop(c, s, id);
    NextLocks(c, s, l);
    var s1 := Next(c, s, l);
    assert Drained(s1) && s.callers.tasks[e].EndOpen? && s.callers.tasks[e].sampled;
    hide Next, Stops, Locks, Flow, Sizes, InFlight;
    var finish := FinishRun(c, s1, id);
    var s2, late := Run(c, s1, finish), Advance(e, true);
    more := finish + [late];
    OneStep(c, s2, late);
    F.RunSplit(c, s1, finish, [late]);
    assert (ls + [l])[..|ls|] == ls;
    F.RunSplit(c, Init(), ls + [l], more);
    RunFlow(c, ls + [l] + more);
    hide Run;
    assert s2.callers.tasks[e] == s.callers.tasks[e];
    LateSpan(c, s2, e);
    LeftBehind(c, Next(c, s2, late));
  }

  lemma LateSpan(c: Config, s: State, e: nat)
    requires e in s.callers.tasks && s.callers.tasks[e].EndOpen? && s.callers.tasks[e].sampled
    requires s.ledger.queue == [] && c.room >= 1
    ensures var s' := Next(c, s, Advance(e, true));
      && s'.ledger.queue == [Snapshot(s.callers.tasks[e].s)] && s'.worker == s.worker
      && s'.callers.tasks == s.callers.tasks[e := EndDone]
  {}

  lemma LeftBehind(c: Config, s: State)
    requires Flow(c, s.ledger, s.worker) && |s.ledger.queue| == 1 && s.ledger.queue[0].Snapshot?
    ensures s.ledger.accepted != Exported(s.ledger.calls)
  {
    SpansNext([], s.ledger.queue[0]);
    assert s.ledger.queue == [] + [s.ledger.queue[0]];
    assert |s.ledger.accepted| > |Exported(s.ledger.calls)|;
  }

  /**
    When a first Shutdown begins, it can leave a span behind and return nil exactly when the queue has a
    buffer and an OnEnd with a sampled span has already seen the processor running.
   */
  lemma StrandsIff(c: Config, ls: seq<Label>, id: nat)
    requires c.max >= 1
    requires var s := Run(c, Init(), ls);
      id in s.callers.tasks && s.callers.tasks[id].StopCalled? && !s.flags.stopped && !s.flags.onceOver
    ensures var s := Run(c, Init(), ls);
      (exists more :: Strands(c, s, id, more)) <==> c.room >= 1 && InFlight(s.callers.tasks) != {}
  {
    var s := Run(c, Init(), ls);
    if c.room >= 1 && InFlight(s.callers.tasks) != {} {
      var e :| e in InFlight(s.callers.tasks);
      var more := SomeStranded(c, ls, id, e);
      assert Strands(c, s, id, more);
    } else {
      forall more | true ensures !Strands(c, s, id, more) { NothingStranded(c, ls, id, more); }
    }
  }
}

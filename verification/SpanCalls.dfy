/** Which calls of the span processor can come back, and the one that may be stuck. */
module SpanCalls {
  import opened Prelude
  import opened SpanProcessor
  import opened SpanFlow
  import opened SpanShutdown
  import F = SpanFlush
  import D = SpanDelivery
  import S = SpanSends
  import M = SpanMiss

  /** The call has come back. */
  predicate Over(task: Task) { task.EndDone? || task.FlushDone? || task.StopDone? }

  lemma One(c: Config, s: State, l: Label)
    ensures Run(c, s, [l]) == Next(c, s, l)
  {
    assert [l][..0] == [] && Run(c, s, []) == s;
  }

  /** What the worker and the goroutines of ForceFlush leave as it is. */
  predicate Same(s: State, s': State)
  {
    D.Same(s, s') && s'.callers.cancelled == s.callers.cancelled
  }

  // ---------------------------------------------------------------- the worker before Shutdown

  /** The marker of this call waits in the channel or in the worker's hand, or its channel has been closed. */
  ghost predicate Coming(s: State, id: nat)
  {
    || (exists k :: 0 <= k < |s.ledger.queue| && s.ledger.queue[k].Marker? && s.ledger.queue[k].task == id)
    || (s.worker.Hand? && !s.worker.draining && s.worker.item.Marker? && s.worker.item.task == id)
    || id in s.callers.closed
  }

  /** The next step of the worker, or of a goroutine that holds the mutex. */
  function Serve(s: State): Label
  {
    if s.flags.holder.ByTask? then Export(s.flags.holder.id, true)
    else if s.worker.Select? || s.worker.DrainSelect? then Receive
    else Work
  }

  /** The worker waits in its select, the channel is empty and the mutex free. */
  predicate Resting(s: State) { s.worker.Select? && s.ledger.queue == [] && s.flags.holder.Free? }

  lemma ServeNearer(c: Config, s: State)
    requires Locks(s) && !PastSelect(s.worker) && !Resting(s)
    ensures var s' := Next(c, s, Serve(s));
      && Locks(s') && Same(s, s') && !PastSelect(s'.worker) && D.Distance(s') < D.Distance(s)
      && s.callers.exporters.Keys <= s'.callers.exporters.Keys
  {
    NextLocks(c, s, Serve(s));
    if s.flags.holder.ByTask? {
      ServeExports(s);
    } else {
      assert s.flags.holder.ByWorker? <==> s.worker.Locked? || s.worker.Sent?;
      hide Locks, Worked, Received;
      if s.worker.Select? { ServeReceives(s); } else { ServeWorks(c, s); }
    }
  }

  lemma ServeExports(s: State)
    requires Locks(s) && s.flags.holder.ByTask?
    ensures var s' := ExportMoves(s, s.flags.holder.id, true);
      && Same(s, s') && s'.worker == s.worker && D.Distance(s') < D.Distance(s)
      && s.callers.exporters.Keys <= s'.callers.exporters.Keys
  {
    hide Started;
  }

  lemma ServeReceives(s: State)
    requires s.worker.Select? && s.ledger.queue != []
    ensures var s' := Received(s);
      Same(s, s') && !PastSelect(s'.worker) && D.Distance(s') < D.Distance(s) && s'.callers == s.callers
  {}

  lemma ServeWorks(c: Config, s: State)
    requires !s.flags.holder.ByTask? && !s.worker.Done? && !s.worker.Select? && !s.worker.DrainSelect?
    requires s.flags.holder.ByWorker? <==> s.worker.Locked? || s.worker.Sent?
    ensures var s' := Worked(c, s);
      && Same(s, s') && D.Distance(s') < D.Distance(s) && s'.callers.exporters == s.callers.exporters
      && (!PastSelect(s.worker) ==> !PastSelect(s'.worker)) && (!PastDrain(s.worker) ==> !PastDrain(s'.worker))
      && s'.ledger.queue == s.ledger.queue
  {}

  lemma ServeComing(c: Config, s: State, id: nat)
    requires Coming(s, id) && !PastSelect(s.worker)
    ensures Coming(Next(c, s, Serve(s)), id)
  {
    var s' := Next(c, s, Serve(s));
    if s.flags.holder.ByTask? {
      assert s'.worker == s.worker && s'.ledger.queue == s.ledger.queue && s'.callers.closed == s.callers.closed;
    } else if s.worker.Select? && s.ledger.queue != [] {
      if k :| 0 <= k < |s.ledger.queue| && s.ledger.queue[k].Marker? && s.ledger.queue[k].task == id {
        assert k > 0 ==> s'.ledger.queue[k - 1] == s.ledger.queue[k];
      }
    }
  }

  /** Before it has seen `stopCh`, the worker can empty the channel, and closes the channels of all markers in it. */
  lemma {:induction false} WorkerCanRest(c: Config, s: State, id: nat) returns (ls: seq<Label>)
    requires Locks(s) && !PastSelect(s.worker)
    ensures var s' := Run(c, s, ls);
      Locks(s') && Resting(s') && Same(s, s') && (Coming(s, id) ==> id in s'.callers.closed)
    decreases D.Distance(s)
  {
    if Resting(s) {
      ls := [];
    } else {
      ServeNearer(c, s);
      if Coming(s, id) { ServeComing(c, s, id); }
      hide Next, Locks, Coming, Resting, PastSelect;
      var rest := WorkerCanRest(c, Next(c, s, Serve(s)), id);
      ls := [Serve(s)] + rest;
      One(c, s, Serve(s));
      F.RunSplit(c, s, [Serve(s)], rest);
    }
  }

  // ---------------------------------------------------------------- a place for a marker

  lemma PlaceNearer(c: Config, s: State)
    requires Locks(s) && !PastDrain(s.worker) && |s.ledger.queue| <= c.room && !CanSend(c, s)
    ensures var s' := Next(c, s, Serve(s));
      && Locks(s') && Same(s, s') && D.Distance(s') < D.Distance(s)
      && !PastDrain(s'.worker) && |s'.ledger.queue| <= c.room
  {
    NextLocks(c, s, Serve(s));
    if s.flags.holder.ByTask? {
      ServeExports(s);
      ExportKeepsQueue(s);
    } else {
      assert s.flags.holder.ByWorker? <==> s.worker.Locked? || s.worker.Sent?;
      hide Locks, Worked, Received;
      if s.worker.Select? || s.worker.DrainSelect? { PlaceReceives(s); } else { ServeWorks(c, s); }
    }
  }

  lemma ExportKeepsQueue(s: State)
    ensures ExportMoves(s, s.flags.holder.id, true).ledger.queue == s.ledger.queue
    requires s.flags.holder.ByTask?
  {}

  lemma PlaceReceives(s: State)
    requires (s.worker.Select? || s.worker.DrainSelect?) && s.ledger.queue != []
    ensures var s' := Received(s);
      Same(s, s') && !PastDrain(s'.worker) && D.Distance(s') < D.Distance(s)
      && |s'.ledger.queue| < |s.ledger.queue|
  {}

  // ---------------------------------------------------------------- the goroutine of a ForceFlush

  /** It can export, and the call can come back, with nil if the goroutine has not begun to. */
  lemma WaitCanReturn(c: Config, s: State, id: nat) returns (ls: seq<Label>)
    requires Locks(s) && id in s.callers.tasks && s.callers.tasks[id].FlushWait? && id in s.callers.exporters
    ensures var (task, s') := (s.callers.tasks[id], Run(c, s, ls));
      && id in s'.callers.tasks && s'.callers.tasks[id].FlushDone? && s'.callers.tasks[id].ctx == task.ctx
      && s'.callers.cancelled == s.callers.cancelled
      && (s.callers.exporters[id].step.XWant? ==>
        s'.callers.tasks[id] == FlushDone(task.ctx, true, s.callers.exporters[id].mark))
  {
    var free := MutexCanBeFree(c, s);
    var s1 := Run(c, s, free);
    var own := OwnExport(c, s1, id);
    var s2 := Run(c, s1, own);
    F.RunSplit(c, s, free, own);
    F.RunNext(c, s, free + own, Advance(id, true));
    ls := free + own + [Advance(id, true)];
    hide Run;
    assert s2.callers.tasks[id].FlushWait? && s2.callers.exporters[id].step.XDone?;
  }

  /** Whoever holds the mutex can let go of it. */
  lemma {:induction false} MutexCanBeFree(c: Config, s: State) returns (ls: seq<Label>)
    requires Locks(s)
    ensures var s' := Run(c, s, ls);
      && Locks(s') && s'.flags.holder.Free? && Same(s, s') && s.callers.exporters.Keys <= s'.callers.exporters.Keys
      && forall x :: x in s.callers.exporters && s.callers.exporters[x].step.XWant? ==>
        x in s'.callers.exporters && s'.callers.exporters[x] == s.callers.exporters[x]
    decreases if s.flags.holder.Free? then 0 else if s.ledger.sent then 1 else 2
  {
    if s.flags.holder.Free? {
      ls := [];
    } else {
      var l := if s.flags.holder.ByTask? then Export(s.flags.holder.id, true) else Work;
      NextLocks(c, s, l);
      LettingGo(c, s);
      hide Locks, Next;
      var rest := MutexCanBeFree(c, Next(c, s, l));
      ls := [l] + rest;
      One(c, s, l);
      F.RunSplit(c, s, [l], rest);
    }
  }

  lemma LettingGo(c: Config, s: State)
    requires Locks(s) && !s.flags.holder.Free?
    ensures var l := if s.flags.holder.ByTask? then Export(s.flags.holder.id, true) else Work;
      var s' := Next(c, s, l);
      && Same(s, s') && s.callers.exporters.Keys <= s'.callers.exporters.Keys
      && (s'.flags.holder.Free? || (!s.ledger.sent && s'.ledger.sent))
      && forall x :: x in s.callers.exporters && s.callers.exporters[x].step.XWant? ==>
        x in s'.callers.exporters && s'.callers.exporters[x] == s.callers.exporters[x]
  {
    hide Started;
  }

  lemma OwnExport(c: Config, s: State, id: nat) returns (ls: seq<Label>)
    requires Locks(s) && s.flags.holder.Free? && id in s.callers.exporters
    ensures var s' := Run(c, s, ls);
      && s'.callers.tasks == s.callers.tasks && s'.callers.cancelled == s.callers.cancelled
      && id in s'.callers.exporters && s'.callers.exporters[id].step.XDone?
      && (s.callers.exporters[id].step.XWant? ==>
        s'.callers.exporters[id] == Exporter(XDone(true), s.callers.exporters[id].mark))
  {
    if s.callers.exporters[id].step.XDone? {
      ls := [];
    } else {
      assert s.callers.exporters[id].step.XWant? && !s.ledger.sent;
      var e := Export(id, true);
      S.GoroutineExports(c, s, id, true);
      One(c, s, e);
      One(c, Next(c, s, e), e);
      F.RunSplit(c, s, [e], [e]);
      F.RunNext(c, s, [e] + [e], e);
      hide Next, Locks;
      ls := if s.ledger.batch == [] then [e] + [e] else [e] + [e] + [e];
    }
  }

  // ---------------------------------------------------------------- what holds of calls in every run

  /** The worker drains, or the marker of this call is on its way. */
  ghost predicate OnItsWay(s: State, id: nat) { PastSelect(s.worker) || Coming(s, id) }

  /** A marker that was placed is on its way; a call that waits for an export has its goroutine. */
  ghost predicate Ready(s: State)
  {
    && (forall id :: id in s.callers.tasks && s.callers.tasks[id].FlushMarked? ==> OnItsWay(s, id))
    && (forall id :: id in s.callers.tasks && s.callers.tasks[id].FlushWait? ==> id in s.callers.exporters)
  }

  lemma SendOnItsWay(c: Config, s: State, item: Item, id: nat)
    requires CanSend(c, s)
    ensures OnItsWay(s, id) ==> OnItsWay(Send(c, s, item), id)
    ensures item.Marker? && item.task == id ==> OnItsWay(Send(c, s, item), id)
  {
    var s' := Send(c, s, item);
    if |s.ledger.queue| < c.room {
      assert s'.ledger.queue[|s.ledger.queue|] == item;
      if k :| 0 <= k < |s.ledger.queue| && s.ledger.queue[k].Marker? && s.ledger.queue[k].task == id {
        assert s'.ledger.queue[k] == s.ledger.queue[k];
      }
    }
  }

  lemma SameWay(s: State, s': State, id: nat)
    requires s'.worker == s.worker && s'.ledger.queue == s.ledger.queue && s'.callers.closed == s.callers.closed
    ensures OnItsWay(s, id) ==> OnItsWay(s', id)
  {}

  /** One call moves on, and no marker is lost. */
  lemma TaskReady(s: State, s': State, x: nat, task: Task)
    requires Ready(s) && s'.callers.tasks == s.callers.tasks[x := task]
    requires s.callers.exporters.Keys <= s'.callers.exporters.Keys
    requires forall id :: OnItsWay(s, id) ==> OnItsWay(s', id)
    requires (task.FlushMarked? ==> OnItsWay(s', x)) && (task.FlushWait? ==> x in s'.callers.exporters)
    ensures Ready(s')
  {
    hide OnItsWay;
  }

  lemma AdvanceReady(c: Config, s: State, x: nat, ok: bool)
    requires Ready(s)
    ensures Ready(Advanced(c, s, x, ok))
  {
    if x in s.callers.tasks {
      var task, s' := s.callers.tasks[x], Advanced(c, s, x, ok);
      if task.EndOpen? && task.sampled {
        OfferedReady(c, s, x, task.s, ok);
      } else if task.FlushOffer? && CanSend(c, s) {
        var item := Marker(x, |s.ledger.accepted|);
        var mid := Send(c, s, item);
        F.SendKeeps(c, s, item);
        forall id ensures OnItsWay(s, id) ==> OnItsWay(s', id) { SendOnItsWay(c, s, item, id); SameWay(mid, s', id); }
        SendOnItsWay(c, s, item, x);
        SameWay(mid, s', x);
        hide Ready, Send;
        TaskReady(s, s', x, FlushMarked(task.ctx));
      } else if s' != s {
        PlainStep(c, s, x, ok);
        forall id ensures OnItsWay(s, id) ==> OnItsWay(s', id) { SameWay(s, s', id); }
        hide Ready;
        TaskReady(s, s', x, s'.callers.tasks[x]);
      }
    }
  }

  /** A call that sends nothing. */
  lemma PlainStep(c: Config, s: State, x: nat, ok: bool)
    requires Ready(s) && x in s.callers.tasks && Advanced(c, s, x, ok) != s
    requires !(s.callers.tasks[x].EndOpen? && s.callers.tasks[x].sampled) && !s.callers.tasks[x].FlushOffer?
    ensures var s' := Advanced(c, s, x, ok);
      && x in s'.callers.tasks && s'.callers.tasks == s.callers.tasks[x := s'.callers.tasks[x]]
      && s'.worker == s.worker && s'.ledger == s.ledger && s'.callers.closed == s.callers.closed
      && s.callers.exporters.Keys <= s'.callers.exporters.Keys
      && !s'.callers.tasks[x].FlushMarked? && (s'.callers.tasks[x].FlushWait? ==> x in s'.callers.exporters)
  {}

  lemma OfferedReady(c: Config, s: State, x: nat, span: Span, meets: bool)
    requires Ready(s)
    ensures Ready(Offered(c, s, x, span, meets))
  {
    var s' := Offered(c, s, x, span, meets);
    var s1 := WithTask(s, x, EndDone).(ledger := s.ledger.(attempts := s.ledger.attempts + 1));
    F.OfferedKeeps(c, s, x, span, meets);
    forall id ensures OnItsWay(s, id) ==> OnItsWay(s', id) {
      SameWay(s, s1, id);
      if S.HasPlace(c, s, meets) { SendOnItsWay(c, s1, Snapshot(span), id); } else { SameWay(s, s', id); }
    }
    hide Ready, Send, Offered;
    TaskReady(s, s', x, EndDone);
  }

  lemma SelectReady(c: Config, s: State, l: Label)
    requires Ready(s) && (l.Enter? || l.GiveUp? || l.SeeStop?)
    ensures Ready(Next(c, s, l))
  {
    var s' := Next(c, s, l);
    if s' != s {
      forall id ensures OnItsWay(s, id) ==> OnItsWay(s', id) { SameWay(s, s', id); }
      TaskReady(s, s', l.id, s'.callers.tasks[l.id]);
    }
  }

  /** The worker loses no marker before it drains. */
  lemma WorkOnItsWay(c: Config, s: State, l: Label, id: nat)
    requires OnItsWay(s, id) && (l.Work? || l.Receive? || l.TimerFires? || l.TakeStop?)
    ensures OnItsWay(Next(c, s, l), id)
  {
    var s' := Next(c, s, l);
    if l.Receive? && s' != s {
      if k :| 0 <= k < |s.ledger.queue| && s.ledger.queue[k].Marker? && s.ledger.queue[k].task == id {
        assert k > 0 ==> s'.ledger.queue[k - 1] == s.ledger.queue[k];
      }
    }
  }

  lemma NextReady(c: Config, s: State, l: Label)
    requires Ready(s)
    ensures Ready(Next(c, s, l))
  {
    var s' := Next(c, s, l);
    if l.Advance? {
      AdvanceReady(c, s, l.id, l.ok);
    } else if l.Enter? || l.GiveUp? || l.SeeStop? {
      SelectReady(c, s, l);
    } else {
      OthersKeep(c, s, l);
      forall id ensures OnItsWay(s, id) ==> OnItsWay(s', id) {
        if OnItsWay(s, id) {
          if l.Work? || l.Receive? || l.TimerFires? || l.TakeStop? {
            WorkOnItsWay(c, s, l, id);
          } else {
            SameWay(s, s', id);
          }
        }
      }
      hide Next, OnItsWay;
    }
  }

  lemma OthersKeep(c: Config, s: State, l: Label)
    requires !l.Advance? && !l.Enter? && !l.GiveUp? && !l.SeeStop?
    ensures var s' := Next(c, s, l);
      && s'.callers.tasks == s.callers.tasks && s.callers.exporters.Keys <= s'.callers.exporters.Keys
      && (l.Cancel? || l.Export? || l.Close? ==>
        s'.worker == s.worker && s'.ledger.queue == s.ledger.queue && s'.callers.closed == s.callers.closed)
  {}

  lemma {:induction false} RunReady(c: Config, ls: seq<Label>)
    ensures Ready(Run(c, Init(), ls))
  {
    if |ls| == 0 {
    } else {
      RunReady(c, ls[..|ls| - 1]);
      hide Ready, Next;
      NextReady(c, Run(c, Init(), ls[..|ls| - 1]), ls[|ls| - 1]);
    }
  }

  // ---------------------------------------------------------------- ForceFlush

  /** Before Shutdown, a marker that is on its way comes back, and the call returns nil after an export. */
  lemma MarkedCanReturn(c: Config, s: State, id: nat) returns (ls: seq<Label>)
    requires Locks(s) && id in s.callers.tasks && s.callers.tasks[id].FlushMarked?
    requires !PastSelect(s.worker) && Coming(s, id)
    ensures var (task, s') := (s.callers.tasks[id], Run(c, s, ls));
      && id in s'.callers.tasks && s'.callers.tasks[id].FlushDone? && s'.callers.tasks[id].ok
      && s'.callers.tasks[id].ctx == task.ctx && s'.callers.tasks[id].mark.Some?
      && s'.callers.cancelled == s.callers.cancelled
  {
    var a := Advance(id, true);
    var rest := WorkerCanRest(c, s, id);
    var s1 := Run(c, s, rest);
    var s2 := Next(c, s1, a);
    assert s2 == StartExport(s1, id, s.callers.tasks[id].ctx, Some(s1.callers.closed[id]));
    NextLocks(c, s1, a);
    F.RunNext(c, s, rest, a);
    hide Next, Locks;
    var wait := WaitCanReturn(c, s2, id);
    F.RunSplit(c, s, rest + [a], wait);
    ls := rest + [a] + wait;
  }

  /** A marker is placed, and is on its way. */
  lemma PlacesMarker(c: Config, s: State, id: nat)
    requires Locks(s) && id in s.callers.tasks && s.callers.tasks[id].FlushOffer? && CanSend(c, s)
    ensures var s' := Next(c, s, Advance(id, true));
      && s'.callers == s.callers.(tasks := s.callers.tasks[id := FlushMarked(s.callers.tasks[id].ctx)])
      && s'.flags == s.flags && Locks(s') && OnItsWay(s', id)
      && (PastSelect(s'.worker) <==> PastSelect(s.worker))
  {
    NextLocks(c, s, Advance(id, true));
    SendOnItsWay(c, s, Marker(id, |s.ledger.accepted|), id);
    SameWay(Send(c, s, Marker(id, |s.ledger.accepted|)), Next(c, s, Advance(id, true)), id);
    hide Locks;
  }

  predicate Flushing(task: Task)
  {
    task.FlushCalled? || task.FlushOpen? || task.FlushOffer? || task.FlushMarked? || task.FlushWait?
  }

  /** The call goes on until it offers its marker. */
  lemma CanOffer(c: Config, s: State, id: nat) returns (ls: seq<Label>)
    requires Locks(s) && id in s.callers.tasks && !s.flags.stopped
    requires s.callers.tasks[id].FlushCalled? || s.callers.tasks[id].FlushOpen? || s.callers.tasks[id].FlushOffer?
    requires s.callers.tasks[id].ctx !in s.callers.cancelled
    ensures var (ctx, s') := (s.callers.tasks[id].ctx, Run(c, s, ls));
      && Locks(s') && s' == s.(callers := s.callers.(tasks := s.callers.tasks[id := FlushOffer(ctx)]))
  {
    var task, a := s.callers.tasks[id], Advance(id, true);
    var s1 := Next(c, s, a);
    NextLocks(c, s, a);
    NextLocks(c, s1, a);
    One(c, s, a);
    F.RunNext(c, s, [a], a);
    if task.FlushCalled? {
      ls := [a] + [a];
      assert s1 == WithTask(s, id, FlushOpen(task.ctx));
      assert Next(c, s1, a) == WithTask(s1, id, FlushOffer(task.ctx));
      assert s1.callers.tasks[id := FlushOffer(task.ctx)] == s.callers.tasks[id := FlushOffer(task.ctx)];
    } else if task.FlushOpen? {
      ls := [a];
    } else {
      ls := [];
      assert s.callers.tasks[id := task] == s.callers.tasks;
    }
  }

  lemma RunningIsBefore(s: State)
    requires Stops(s) && !s.flags.stopped
    ensures !PastSelect(s.worker) && !PastDrain(s.worker)
  {}

  /**
    From every reachable state with the processor running: a ForceFlush that has not yet begun its export, its
    context not cancelled, can return nil with its marker come back.
   */
  lemma FlushCanReturn(c: Config, ls: seq<Label>, id: nat) returns (more: seq<Label>)
    requires c.max >= 1
    requires var s := Run(c, Init(), ls);
      && id in s.callers.tasks && Flushing(s.callers.tasks[id]) && !s.callers.tasks[id].FlushWait?
      && s.callers.tasks[id].ctx !in s.callers.cancelled && !s.flags.stopped
    ensures var (task, s') := (Run(c, Init(), ls).callers.tasks[id], Run(c, Run(c, Init(), ls), more));
      && id in s'.callers.tasks && s'.callers.tasks[id].FlushDone? && s'.callers.tasks[id].ok
      && s'.callers.tasks[id].ctx == task.ctx && s'.callers.tasks[id].mark.Some?
  {
    var s := Run(c, Init(), ls);
    RunFlow(c, ls);
    RunStops(c, ls);
    RunReady(c, ls);
    RunningIsBefore(s);
    assert s.callers.tasks[id].FlushMarked? ==> OnItsWay(s, id);
    hide Flow, Locks, Stops, Next, Ready, PastSelect, PastDrain, Sizes;
    if s.callers.tasks[id].FlushMarked? {
      more := MarkedCanReturn(c, s, id);
    } else {
      var offer := CanOffer(c, s, id);
      var s1 := Run(c, s, offer);
      var rest := WorkerCanRest(c, s1, id);
      var s2 := Run(c, s1, rest);
      RestingHasPlace(c, s2);
      PlacesMarker(c, s2, id);
      var a := Advance(id, true);
      F.RunSplit(c, s, offer, rest);
      F.RunNext(c, s, offer + rest, a);
      var back := MarkedCanReturn(c, Next(c, s2, a), id);
      F.RunSplit(c, s, offer + rest + [a], back);
      more := offer + rest + [a] + back;
    }
  }

  lemma RestingHasPlace(c: Config, s: State)
    requires Resting(s)
    ensures CanSend(c, s) && !PastSelect(s.worker)
  {}

  // ---------------------------------------------------------------- a ForceFlush that is stuck

  /** No worker will take anything from the channel again, and it has no place. */
  predicate NoPlaceForGood(c: Config, s: State) { PastDrain(s.worker) && |s.ledger.queue| >= c.room }

  /** The call offers its marker in vain, unless its context is cancelled. */
  predicate Stuck(c: Config, s: State, id: nat, ctx: nat)
  {
    || ctx in s.callers.cancelled
    || (id in s.callers.tasks && s.callers.tasks[id] == FlushOffer(ctx) && NoPlaceForGood(c, s))
  }

  lemma AdvanceStuck(c: Config, s: State, x: nat, ok: bool, id: nat, ctx: nat)
    requires Stuck(c, s, id, ctx) && ctx !in s.callers.cancelled
    ensures Stuck(c, Advanced(c, s, x, ok), id, ctx)
  {
    assert !CanSend(c, s) && !S.HasPlace(c, s, ok);
    if x in s.callers.tasks {
      if s.callers.tasks[x].EndOpen? { S.OfferDrops(c, s, x, s.callers.tasks[x].s, ok); }
      hide Send, Offered;
    }
  }

  lemma NextStuck(c: Config, s: State, l: Label, id: nat, ctx: nat)
    requires Stuck(c, s, id, ctx)
    ensures Stuck(c, Next(c, s, l), id, ctx)
  {
    if ctx in s.callers.cancelled {
      CancelledStays(c, s, l, ctx);
    } else if l.Advance? {
      AdvanceStuck(c, s, l.id, l.ok, id, ctx);
    } else if l.Work? {
      DoneForGood(c, s);
    }
    hide Advanced, Worked;
  }

  lemma CancelledStays(c: Config, s: State, l: Label, ctx: nat)
    requires ctx in s.callers.cancelled
    ensures ctx in Next(c, s, l).callers.cancelled
  {
    hide Advanced, Worked;
    if l.Advance? { AdvanceKeepsCancelled(c, s, l.id, l.ok); }
    if l.Work? { F.WorkKeeps(c, s); }
  }

  lemma AdvanceKeepsCancelled(c: Config, s: State, x: nat, ok: bool)
    ensures Advanced(c, s, x, ok).callers.cancelled == s.callers.cancelled
  {}

  lemma DoneForGood(c: Config, s: State)
    requires PastDrain(s.worker)
    ensures var s' := Worked(c, s);
      PastDrain(s'.worker) && s'.ledger.queue == s.ledger.queue && s'.callers == s.callers
  {}

  lemma {:induction false} StuckStays(c: Config, s: State, ls: seq<Label>, id: nat, ctx: nat)
    requires Stuck(c, s, id, ctx)
    ensures Stuck(c, Run(c, s, ls), id, ctx)
  {
    if |ls| == 0 {
    } else {
      StuckStays(c, s, ls[..|ls| - 1], id, ctx);
      hide Stuck, Next;
      NextStuck(c, Run(c, s, ls[..|ls| - 1]), ls[|ls| - 1], id, ctx);
    }
  }

  /** The call comes back, and its context has not been cancelled. */
  predicate Returns(c: Config, s: State, id: nat, ctx: nat, more: seq<Label>)
  {
    var s' := Run(c, s, more);
    id in s'.callers.tasks && s'.callers.tasks[id].FlushDone? && ctx !in s'.callers.cancelled
  }

  lemma MarkedCanEnd(c: Config, s: State, id: nat) returns (ls: seq<Label>)
    requires Locks(s) && id in s.callers.tasks && s.callers.tasks[id].FlushMarked? && OnItsWay(s, id)
    requires PastSelect(s.worker) ==> s.flags.stopCh
    ensures var s' := Run(c, s, ls);
      && id in s'.callers.tasks && s'.callers.tasks[id].FlushDone?
      && s'.callers.cancelled == s.callers.cancelled
  {
    if PastSelect(s.worker) {
      ls := [SeeStop(id)];
      One(c, s, SeeStop(id));
    } else {
      ls := MarkedCanReturn(c, s, id);
    }
  }

  /** While the worker can still make a place, the offer can come back. */
  lemma OfferCanEnd(c: Config, s: State, id: nat) returns (ls: seq<Label>)
    requires Locks(s) && Stops(s) && |s.ledger.queue| <= c.room
    requires id in s.callers.tasks && s.callers.tasks[id].FlushOffer? && !NoPlaceForGood(c, s)
    ensures var s' := Run(c, s, ls);
      && id in s'.callers.tasks && s'.callers.tasks[id].FlushDone?
      && s'.callers.cancelled == s.callers.cancelled
  {
    var place := PlaceCanCome(c, s);
    var s1 := Run(c, s, place);
    PlacesMarker(c, s1, id);
    var a := Advance(id, true);
    F.RunNext(c, s, place, a);
    hide Next, Locks, PastSelect, PastDrain;
    var rest := MarkedCanEnd(c, Next(c, s1, a), id);
    F.RunSplit(c, s, place + [a], rest);
    ls := place + [a] + rest;
  }

  lemma {:induction false} PlaceCanCome(c: Config, s: State) returns (ls: seq<Label>)
    requires Locks(s) && Stops(s) && |s.ledger.queue| <= c.room && !NoPlaceForGood(c, s)
    ensures var s' := Run(c, s, ls);
      && Locks(s') && CanSend(c, s') && Same(s, s') && (PastSelect(s'.worker) ==> s'.flags.stopCh)
    decreases D.Distance(s)
  {
    if CanSend(c, s) {
      ls := [];
    } else {
      PlaceNearer(c, s);
      NextStops(c, s, Serve(s));
      hide Next, Locks, CanSend, PastDrain, PastSelect, Stops;
      var rest := PlaceCanCome(c, Next(c, s, Serve(s)));
      ls := [Serve(s)] + rest;
      One(c, s, Serve(s));
      F.RunSplit(c, s, [Serve(s)], rest);
    }
  }

  /**
    A ForceFlush that offers its marker can come back, its context not being cancelled, exactly when the worker
    has not found the channel empty for good or the channel has a place.
   */
  lemma OfferReturnsIff(c: Config, ls: seq<Label>, id: nat)
    requires c.max >= 1
    requires var s := Run(c, Init(), ls);
      && id in s.callers.tasks && s.callers.tasks[id].FlushOffer? && s.callers.tasks[id].ctx !in s.callers.cancelled
    ensures var s := Run(c, Init(), ls);
      (exists more :: Returns(c, s, id, s.callers.tasks[id].ctx, more)) <==> !NoPlaceForGood(c, s)
  {
    var s := Run(c, Init(), ls);
    var ctx := s.callers.tasks[id].ctx;
    if NoPlaceForGood(c, s) {
      forall more | true ensures !Returns(c, s, id, ctx, more) { StuckStays(c, s, more, id, ctx); }
    } else {
      RunFlow(c, ls);
      RunStops(c, ls);
      hide Stops, Locks, Sizes;
      var more := OfferCanEnd(c, s, id);
      assert Returns(c, s, id, ctx, more);
    }
  }

  /** Without a buffer that takes no late span: one ForceFlush, and a Shutdown that ends before it sends. */
  lemma StuckCanBe(max: nat) returns (ls: seq<Label>)
    ensures var (c, s) := (Config(0, max), Run(Config(0, max), Init(), ls));
      0 in s.callers.tasks && s.callers.tasks[0] == FlushOffer(3) && NoPlaceForGood(c, s) && s.callers.cancelled == {}
  {
    var c := Config(0, max);
    var a := Advance(0, true);
    F.ThreeSteps(c, Init(), Enter(0, FlushCalled(3)), a, a);
    var s1 := Next(c, Init(), Enter(0, FlushCalled(3)));
    assert s1 == Init().(callers := Callers(map[0 := FlushCalled(3)], map[], map[], {}));
    var s2 := Next(c, s1, a);
    assert s2 == Init().(callers := Callers(map[0 := FlushOpen(3)], map[], map[], {}));
    var s3 := Next(c, s2, a);
    assert s3 == Init().(callers := Callers(map[0 := FlushOffer(3)], map[], map[], {}));
    var offer := [Enter(0, FlushCalled(3)), a, a];
    hide Run, Next;
    var stop := StopsAndDrains(c, s3);
    F.RunSplit(c, Init(), offer, stop);
    ls := offer + stop;
  }

  lemma StopsAndDrains(c: Config, s: State) returns (ls: seq<Label>)
    requires c.room == 0 && s == Init().(callers := Callers(map[0 := FlushOffer(3)], map[], map[], {}))
    ensures var s' := Run(c, s, ls);
      && 0 in s'.callers.tasks && s'.callers.tasks[0] == FlushOffer(3) && NoPlaceForGood(c, s')
      && s'.callers.cancelled == {}
  {
    var (e, a) := (Enter(1, StopCalled(4)), Advance(1, true));
    var s1 := Next(c, s, e);
    assert s1.callers == Callers(map[0 := FlushOffer(3), 1 := StopCalled(4)], map[], map[], {}) && s1.worker.Select?;
    var s2 := Next(c, s1, a);
    assert s2.callers.tasks[0] == FlushOffer(3) && s2.flags.closer.CloseStop? && s2.worker.Select?;
    assert s2.ledger.queue == [] && s2.callers.cancelled == {};
    var s3 := Next(c, s2, Close(true));
    assert s3.flags.stopCh && s3.worker.Select?;
    var s4 := Next(c, s3, TakeStop);
    assert s4.worker.DrainSelect?;
    F.ThreeSteps(c, s, e, a, Close(true));
    F.RunNext(c, s, [e, a, Close(true)], TakeStop);
    F.RunNext(c, s, [e, a, Close(true)] + [TakeStop], Work);
    ls := [e, a, Close(true)] + [TakeStop] + [Work];
  }

  // ---------------------------------------------------------------- Shutdown

  predicate InOnce(f: Flags) { f.stopped && !f.onceOver }

  /** While Shutdown's once runs, some call is in it. */
  ghost predicate OnceRuns(s: State)
  {
    InOnce(s.flags) ==> exists w :: w in s.callers.tasks && s.callers.tasks[w].StopWait?
  }

  lemma OnceStep(s: State, s': State, x: nat, task: Task)
    requires OnceRuns(s) && s'.callers.tasks == s.callers.tasks[x := task]
    requires InOnce(s'.flags) ==>
      task.StopWait? || (InOnce(s.flags) && (x in s.callers.tasks ==> !s.callers.tasks[x].StopWait?))
    ensures OnceRuns(s')
  {
    if InOnce(s'.flags) {
      if task.StopWait? {
        assert s'.callers.tasks[x].StopWait?;
      } else {
        var w :| w in s.callers.tasks && s.callers.tasks[w].StopWait?;
        assert s'.callers.tasks[w].StopWait?;
      }
    }
  }

  lemma NextOnce(c: Config, s: State, l: Label)
    requires OnceRuns(s)
    ensures OnceRuns(Next(c, s, l))
  {
    var s' := Next(c, s, l);
    if (l.Advance? || l.Enter? || l.GiveUp? || l.SeeStop?) && s' != s {
      OneTaskMoves(c, s, l);
      hide Next, OnceRuns;
      OnceStep(s, s', l.id, s'.callers.tasks[l.id]);
    } else {
      F.WorkKeeps(c, s);
      hide Worked, Received, Advanced;
    }
  }

  lemma OneTaskMoves(c: Config, s: State, l: Label)
    requires (l.Advance? || l.Enter? || l.GiveUp? || l.SeeStop?) && Next(c, s, l) != s
    ensures var (id, s') := (l.id, Next(c, s, l));
      && id in s'.callers.tasks && s'.callers.tasks == s.callers.tasks[id := s'.callers.tasks[id]]
      && (InOnce(s'.flags) ==>
          s'.callers.tasks[id].StopWait?
          || (InOnce(s.flags) && (id in s.callers.tasks ==> !s.callers.tasks[id].StopWait?)))
  {
    if l.Advance? && l.id in s.callers.tasks {
      F.SendKeeps(c, s, Marker(l.id, |s.ledger.accepted|));
      if s.callers.tasks[l.id].EndOpen? { F.OfferedKeeps(c, s, l.id, s.callers.tasks[l.id].s, l.ok); }
      hide Send, Offered;
    }
  }

  lemma {:induction false} RunOnce(c: Config, ls: seq<Label>)
    ensures OnceRuns(Run(c, Init(), ls))
  {
    if |ls| == 0 {
    } else {
      RunOnce(c, ls[..|ls| - 1]);
      hide OnceRuns, Next;
      NextOnce(c, Run(c, Init(), ls[..|ls| - 1]), ls[|ls| - 1]);
    }
  }

  /** The call in the once can come back, and then the once is over. */
  lemma OnceCanEnd(c: Config, s: State, w: nat) returns (ls: seq<Label>)
    requires Locks(s) && Stops(s) && s.flags.stopped && w in s.callers.tasks && s.callers.tasks[w].StopWait?
    ensures var s' := Run(c, s, ls);
      && s'.flags.onceOver && w in s'.callers.tasks && s'.callers.tasks == s.callers.tasks[w := s'.callers.tasks[w]]
      && s'.callers.tasks[w].StopDone?
      && (s.callers.tasks[w].ctx !in s.callers.cancelled && !s.flags.closer.Closed? ==>
        s'.callers.tasks[w] == StopDone(true, true))
  {
    if s.callers.tasks[w].ctx in s.callers.cancelled {
      ls := [GiveUp(w)];
      One(c, s, GiveUp(w));
    } else {
      var closed := CloserCanClose(c, s);
      F.RunNext(c, s, closed, Advance(w, true));
      ls := closed + [Advance(w, true)];
      hide Run, Locks, Stops;
      var s1 := Run(c, s, closed);
      assert s1.callers.tasks[w].StopWait? && s1.flags.closer.Closed?;
    }
  }

  /** The goroutine of Shutdown can come to its end. */
  lemma CloserCanClose(c: Config, s: State) returns (ls: seq<Label>)
    requires Locks(s) && Stops(s) && s.flags.stopped
    ensures var s' := Run(c, s, ls);
      && s'.flags.closer.Closed? && s'.callers.tasks == s.callers.tasks && s'.flags.onceOver == s.flags.onceOver
      && (!s.flags.closer.Closed? ==> s'.flags.closer == Closed(true))
  {
    if s.flags.closer.Closed? {
      ls := [];
    } else {
      var open := if s.flags.closer.CloseStop? then [Close(true)] else [];
      var s1 := if s.flags.closer.CloseStop? then Next(c, s, Close(true)) else s;
      NextLocks(c, s, Close(true));
      One(c, s, Close(true));
      var work := D.WorkerCanFinish(c, s1);
      var s2 := Run(c, s1, work);
      assert Run(c, s, []) == s;
      F.RunSplit(c, s, open, work);
      F.RunNext(c, s, open + work, Close(true));
      ls := open + work + [Close(true)];
      hide Run, Locks, Stops;
      assert s2.flags.closer.AwaitWorker? && s2.worker.Done?;
    }
  }

  lemma StopCanEnd(c: Config, ls: seq<Label>, id: nat) returns (more: seq<Label>)
    requires c.max >= 1
    requires var tasks := Run(c, Init(), ls).callers.tasks;
      id in tasks && (tasks[id].StopCalled? || tasks[id].StopWait?)
    ensures var s' := Run(c, Run(c, Init(), ls), more); id in s'.callers.tasks && Over(s'.callers.tasks[id])
  {
    var s, a := Run(c, Init(), ls), Advance(id, true);
    RunFlow(c, ls);
    RunStops(c, ls);
    RunOnce(c, ls);
    M.RunStopOrder(c, ls);
    if s.callers.tasks[id].StopWait? {
      more := OnceCanEnd(c, s, id);
    } else if s.flags.onceOver {
      more := [a];
      One(c, s, a);
    } else if s.flags.stopped {
      var w :| w in s.callers.tasks && s.callers.tasks[w].StopWait?;
      more := LaterStopCanEnd(c, s, id, w);
    } else {
      more := FirstStopCanEnd(c, s, id);
    }
    hide Run, Locks, Stops;
  }

  /** A Shutdown that waits for the one that holds the `sync.Once`. */
  lemma LaterStopCanEnd(c: Config, s: State, id: nat, w: nat) returns (ls: seq<Label>)
    requires Locks(s) && Stops(s) && s.flags.stopped && w in s.callers.tasks && s.callers.tasks[w].StopWait?
    requires id in s.callers.tasks && s.callers.tasks[id].StopCalled?
    ensures var s' := Run(c, s, ls); id in s'.callers.tasks && s'.callers.tasks[id].StopDone?
  {
    var a := Advance(id, true);
    var once := OnceCanEnd(c, s, w);
    F.RunNext(c, s, once, a);
    ls := once + [a];
    hide Run, Locks, Stops;
    assert Run(c, s, once).callers.tasks[id].StopCalled?;
  }

  /** The one that takes it. */
  lemma FirstStopCanEnd(c: Config, s: State, id: nat) returns (ls: seq<Label>)
    requires Locks(s) && Stops(s) && !s.flags.stopped && !s.flags.onceOver
    requires id in s.callers.tasks && s.callers.tasks[id].StopCalled?
    ensures var s' := Run(c, s, ls);
      && id in s'.callers.tasks && s'.callers.tasks[id].StopDone?
      && (s.callers.tasks[id].ctx !in s.callers.cancelled ==> D.ShutDown(s', id))
  {
    var a := Advance(id, true);
    NextLocks(c, s, a);
    NextStops(c, s, a);
    D.SetStop(c, s, id);
    One(c, s, a);
    hide Next, Locks, Stops, Run;
    var rest := OnceCanEnd(c, Next(c, s, a), id);
    F.RunSplit(c, s, [a], rest);
    ls := [a] + rest;
  }

  /** A new first Shutdown can return nil. */
  lemma ShutdownCanReturn(c: Config, ls: seq<Label>, id: nat) returns (more: seq<Label>)
    requires c.max >= 1
    requires var s := Run(c, Init(), ls);
      && id in s.callers.tasks && s.callers.tasks[id].StopCalled? && !s.flags.stopped && !s.flags.onceOver
      && s.callers.tasks[id].ctx !in s.callers.cancelled
    ensures D.ShutDown(Run(c, Run(c, Init(), ls), more), id)
  {
    RunFlow(c, ls);
    RunStops(c, ls);
    more := FirstStopCanEnd(c, Run(c, Init(), ls), id);
  }

  // ---------------------------------------------------------------- every other call

  lemma CancelledCanEnd(c: Config, s: State, id: nat) returns (ls: seq<Label>)
    requires id in s.callers.tasks && Flushing(s.callers.tasks[id]) && s.callers.tasks[id].ctx in s.callers.cancelled
    ensures var s' := Run(c, s, ls); id in s'.callers.tasks && Over(s'.callers.tasks[id])
  {
    var task, a, g := s.callers.tasks[id], Advance(id, true), GiveUp(id);
    One(c, s, a);
    One(c, s, g);
    if task.FlushCalled? || (task.FlushOpen? && s.flags.stopped) {
      ls := [a];
    } else if task.FlushMarked? || task.FlushWait? {
      ls := [g];
    } else if task.FlushOffer? {
      F.RunNext(c, s, [g], g);
      assert Next(c, s, g) == StartExport(s, id, task.ctx, None);
      ls := [g] + [g];
    } else {
      var s1 := Next(c, s, a);
      assert s1 == WithTask(s, id, FlushOffer(task.ctx));
      assert Next(c, s1, g) == StartExport(s1, id, task.ctx, None);
      F.RunNext(c, s, [a], g);
      F.RunNext(c, s, [a] + [g], g);
      ls := [a] + [g] + [g];
    }
  }

  lemma FlushCanEnd(c: Config, ls: seq<Label>, id: nat) returns (more: seq<Label>)
    requires c.max >= 1
    requires var s := Run(c, Init(), ls);
      && id in s.callers.tasks && Flushing(s.callers.tasks[id])
      && (s.callers.tasks[id].FlushOffer? && NoPlaceForGood(c, s) ==> s.callers.tasks[id].ctx in s.callers.cancelled)
    ensures var s' := Run(c, Run(c, Init(), ls), more); id in s'.callers.tasks && Over(s'.callers.tasks[id])
  {
    var s, a := Run(c, Init(), ls), Advance(id, true);
    var task := s.callers.tasks[id];
    RunFlow(c, ls);
    RunStops(c, ls);
    RunReady(c, ls);
    assert task.FlushMarked? ==> OnItsWay(s, id);
    assert task.FlushWait? ==> id in s.callers.exporters;
    assert PastSelect(s.worker) ==> s.flags.stopCh;
    hide Flow, Locks, Stops, Ready, PastSelect, PastDrain, Sizes;
    if task.ctx in s.callers.cancelled {
      more := CancelledCanEnd(c, s, id);
    } else if task.FlushWait? {
      more := WaitCanReturn(c, s, id);
    } else if task.FlushMarked? {
      more := MarkedCanEnd(c, s, id);
    } else if task.FlushOffer? {
      more := OfferCanEnd(c, s, id);
    } else if !s.flags.stopped {
      more := FlushCanReturn(c, ls, id);
    } else {
      One(c, s, a);
      F.RunNext(c, s, [a], a);
      more := if task.FlushOpen? then [a] else [a] + [a];
    }
  }

  /**
    From every reachable state every call can come back, but for a ForceFlush that offers its marker in vain:
    that one waits until its context is cancelled.
   */
  lemma EveryOtherCallCanReturn(c: Config, ls: seq<Label>, id: nat) returns (more: seq<Label>)
    requires c.max >= 1
    requires var s := Run(c, Init(), ls);
      && id in s.callers.tasks
      && (s.callers.tasks[id].FlushOffer? && NoPlaceForGood(c, s) ==> s.callers.tasks[id].ctx in s.callers.cancelled)
    ensures var s' := Run(c, Run(c, Init(), ls), more); id in s'.callers.tasks && Over(s'.callers.tasks[id])
  {
    var s, a := Run(c, Init(), ls), Advance(id, true);
    var task := s.callers.tasks[id];
    if Over(task) {
      more := [];
    } else if Flushing(task) {
      more := FlushCanEnd(c, ls, id);
    } else if task.StopCalled? || task.StopWait? {
      more := StopCanEnd(c, ls, id);
    } else {
      One(c, s, a);
      F.RunNext(c, s, [a], a);
      EndCanEnd(c, s, id);
      more := if task.EndOpen? || s.flags.stopped then [a] else [a] + [a];
    }
  }

  lemma EndCanEnd(c: Config, s: State, id: nat)
    requires id in s.callers.tasks && (s.callers.tasks[id].EndCalled? || s.callers.tasks[id].EndOpen?)
    ensures var (s1, a) := (Next(c, s, Advance(id, true)), Advance(id, true));
      var s' := if s.callers.tasks[id].EndOpen? || s.flags.stopped then s1 else Next(c, s1, a);
      id in s'.callers.tasks && s'.callers.tasks[id].EndDone?
  {
    var task, s1 := s.callers.tasks[id], Next(c, s, Advance(id, true));
    if task.EndOpen? && task.sampled { F.OfferedKeeps(c, s, id, task.s, true); }
    if task.EndCalled? && task.sampled { F.OfferedKeeps(c, s1, id, task.s, true); }
    hide Offered;
  }
}

/** Every span that the queue accepted is accounted for, in order, in every reachable state of the span processor. */
module SpanFlow {
  import opened Prelude
  import opened SpanProcessor

  /** The part of the batch that ExportSpans has not been called with. */
  function Pending(l: Ledger): seq<Span> { if l.sent then [] else l.batch }

  function InHand(w: Worker): seq<Span> { if w.Hand? && w.item.Snapshot? then [w.item.s] else [] }

  ghost predicate Flow(c: Config, l: Ledger, w: Worker)
  {
    && Exported(l.calls) + Pending(l) + (InHand(w) + Spans(l.queue)) == l.accepted
    && |l.queue| <= c.room
  }

  /** Every attempt to enqueue a sampled span was accepted or counted as dropped. */
  predicate Counts(l: Ledger)
  {
    l.attempts == |l.accepted| + l.drops && l.dropped == l.drops % DROPS
  }

  /** The mutex has one holder, and the batch has been sent when its holder says so. */
  ghost predicate Locks(s: State)
  {
    var (h, w, xs) := (s.flags.holder, s.worker, s.callers.exporters);
    && (h.ByWorker? <==> w.Locked? || w.Sent?)
    && (forall id :: id in xs && (xs[id].step.XLocked? || xs[id].step.XSent?) ==> h == ByTask(id))
    && (h.ByTask? ==> h.id in xs && (xs[h.id].step.XLocked? || xs[h.id].step.XSent?))
    && (s.ledger.sent <==> w.Sent? || (h.ByTask? && xs[h.id].step.XSent?))
    && Started(s.callers)
  }

  /** A ForceFlush starts its goroutine once. */
  ghost predicate Started(c: Callers)
  {
    forall id :: id in c.exporters ==> id in c.tasks && (c.tasks[id].FlushWait? || c.tasks[id].FlushDone?)
  }

  predicate Appends(w: Worker) { w.Select? || w.DrainSelect? || w.Hand? }

  /** A full batch stops the worker from appending. */
  ghost predicate Sizes(c: Config, l: Ledger, w: Worker)
  {
    && |l.batch| <= c.max && (Appends(w) ==> |l.batch| < c.max)
    && forall i :: 0 <= i < |l.calls| ==> 1 <= |l.calls[i]| <= c.max
  }

  // ---------------------------------------------------------------- parts of sequences

  lemma SpansNext(queue: seq<Item>, x: Item)
    ensures Spans(queue + [x]) == Spans(queue) + if x.Snapshot? then [x.s] else []
  {
    assert (queue + [x])[..|queue|] == queue;
  }

  lemma {:induction false} SpansFirst(queue: seq<Item>)
    requires queue != []
    ensures Spans(queue) == (if queue[0].Snapshot? then [queue[0].s] else []) + Spans(queue[1..])
  {
    var n := |queue| - 1;
    if n == 0 {
      assert queue[..0] == [] && queue[1..] == [];
    } else {
      SpansFirst(queue[..n]);
      assert queue[1..][..n - 1] == queue[..n][1..];
    }
  }

  lemma ExportedNext(calls: seq<seq<Span>>, batch: seq<Span>)
    ensures Exported(calls + [batch]) == Exported(calls) + batch
  {
    assert (calls + [batch])[..|calls|] == calls;
  }

  // ---------------------------------------------------------------- steps

  lemma SendFlow(c: Config, s: State, item: Item)
    requires Flow(c, s.ledger, s.worker) && CanSend(c, s)
    ensures var s' := Send(c, s, item); Flow(c, s'.ledger, s'.worker)
  {
    var l := s.ledger;
    SpansNext(l.queue, item);
    var before, x := Exported(l.calls) + Pending(l), if item.Snapshot? then [item.s] else [];
    if |l.queue| < c.room {
      hide Exported, Pending, Spans, InHand;
      Rebracket(before, InHand(s.worker) + Spans(l.queue), x);
      Rebracket(InHand(s.worker), Spans(l.queue), x);
    } else {
      assert l.queue == [] && InHand(s.worker) + Spans(l.queue) == [];
      hide Exported, Pending;
      assert x + Spans([]) == x;
    }
  }

  lemma OfferedFlow(c: Config, s: State, id: nat, span: Span, meets: bool)
    requires Flow(c, s.ledger, s.worker) && Counts(s.ledger)
    ensures var s' := Offered(c, s, id, span, meets); Flow(c, s'.ledger, s'.worker) && Counts(s'.ledger)
  {
    var s1 := WithTask(s, id, EndDone).(ledger := s.ledger.(attempts := s.ledger.attempts + 1));
    if |s.ledger.queue| < c.room || (c.room == 0 && meets && s.worker.Select?) {
      SendFlow(c, s1, Snapshot(span));
      hide Flow;
    } else {
      hide Exported, Spans;
    }
  }

  lemma AdvanceFlow(c: Config, s: State, id: nat, ok: bool)
    requires Flow(c, s.ledger, s.worker) && Counts(s.ledger)
    ensures var s' := Advanced(c, s, id, ok); Flow(c, s'.ledger, s'.worker) && Counts(s'.ledger)
  {
    hide Flow, Offered;
    if id in s.callers.tasks {
      var task := s.callers.tasks[id];
      if task.EndOpen? {
        OfferedFlow(c, s, id, task.s, ok);
      } else if task.FlushOffer? && CanSend(c, s) {
        SendFlow(c, s, Marker(id, |s.ledger.accepted|));
      }
    }
  }

  lemma ExportingFlow(c: Config, l: Ledger, w: Worker, w': Worker)
    requires Flow(c, l, w) && !l.sent && InHand(w') == InHand(w)
    ensures Flow(c, Exporting(l), w')
  {
    ExportedNext(l.calls, l.batch);
    hide Exported, Spans, InHand;
    assert Exported(l.calls) + l.batch + [] == Exported(l.calls) + l.batch;
  }

  lemma ClearedFlow(c: Config, l: Ledger, w: Worker, w': Worker)
    requires Flow(c, l, w) && l.sent && InHand(w') == InHand(w)
    ensures Flow(c, Cleared(l), w')
  {
    hide Exported, Spans, InHand;
  }

  lemma AppendFlow(c: Config, s: State, span: Span, draining: bool)
    requires Flow(c, s.ledger, s.worker) && Locks(s) && s.worker == Hand(Snapshot(span), draining)
    ensures var s' := Appending(c, s, span, draining); Flow(c, s'.ledger, s'.worker)
  {
    var l, s' := s.ledger, Appending(c, s, span, draining);
    if s.flags.holder.Free? {
      assert !l.sent && InHand(s'.worker) == [] && InHand(s.worker) == [span];
      hide Exported, Spans, InHand;
      Rebracket(Exported(l.calls), l.batch, [span]);
      Rebracket(Exported(l.calls) + l.batch, [span], Spans(l.queue));
      assert [] + Spans(l.queue) == Spans(l.queue);
    }
  }

  lemma ReceiveFlow(c: Config, s: State)
    requires Flow(c, s.ledger, s.worker)
    ensures var s' := Received(s); Flow(c, s'.ledger, s'.worker)
  {
    if (s.worker.Select? || s.worker.DrainSelect?) && s.ledger.queue != [] {
      SpansFirst(s.ledger.queue);
      assert InHand(s.worker) == [];
      hide Exported, Spans;
      assert [] + Spans(s.ledger.queue) == Spans(s.ledger.queue);
    }
  }

  lemma SameFlow(c: Config, l: Ledger, w: Worker, w': Worker)
    requires Flow(c, l, w) && InHand(w') == InHand(w)
    ensures Flow(c, l, w')
  {
    hide Exported, Spans, InHand;
  }

  lemma WorkFlow(c: Config, s: State)
    requires Flow(c, s.ledger, s.worker) && Locks(s)
    ensures var s' := Worked(c, s); Flow(c, s'.ledger, s'.worker)
  {
    var l, w, w' := s.ledger, s.worker, Worked(c, s).worker;
    hide Flow, Exporting, Cleared, Appending;
    if w.Hand? && w.item.Snapshot? {
      AppendFlow(c, s, w.item.s, w.draining);
    } else if w.Locked? && l.batch != [] {
      ExportingFlow(c, l, w, w');
    } else if w.Sent? {
      ClearedFlow(c, l, w, w');
    } else {
      SameFlow(c, l, w, w');
    }
  }

  lemma ExportFlow(c: Config, s: State, id: nat, ok: bool)
    requires Flow(c, s.ledger, s.worker) && Locks(s)
    ensures var s' := ExportMoves(s, id, ok); Flow(c, s'.ledger, s'.worker)
  {
    hide Flow, Exporting, Cleared;
    if id in s.callers.exporters {
      var x := s.callers.exporters[id].step;
      if x.XLocked? && s.ledger.batch != [] {
        ExportingFlow(c, s.ledger, s.worker, s.worker);
      } else if x.XSent? {
        ClearedFlow(c, s.ledger, s.worker, s.worker);
      }
    }
  }

  lemma NextFlow(c: Config, s: State, l: Label)
    requires Flow(c, s.ledger, s.worker) && Counts(s.ledger) && Locks(s)
    ensures var s' := Next(c, s, l); Flow(c, s'.ledger, s'.worker) && Counts(s'.ledger)
  {
    hide Flow, Locks, Advanced, Worked, Received, ExportMoves;
    match l
    case Advance(id, ok) => AdvanceFlow(c, s, id, ok);
    case Export(id, ok) => ExportFlow(c, s, id, ok); ExportCounts(s, id, ok);
    case Work => WorkFlow(c, s); WorkCounts(c, s);
    case Receive => ReceiveFlow(c, s); WorkCounts(c, s);
    case _ => SameFlow(c, s.ledger, s.worker, Next(c, s, l).worker);
  }

  lemma ExportCounts(s: State, id: nat, ok: bool)
    requires Counts(s.ledger)
    ensures Counts(ExportMoves(s, id, ok).ledger)
  {}

  lemma WorkCounts(c: Config, s: State)
    requires Counts(s.ledger)
    ensures Counts(Worked(c, s).ledger) && Counts(Received(s).ledger)
  {}

  // ---------------------------------------------------------------- the mutex and the sizes

  lemma TaskLocks(s: State, s': State, id: nat, task: Task)
    requires Locks(s) && s'.callers == WithTask(s, id, task).callers && s'.flags.holder == s.flags.holder
    requires s'.ledger.sent == s.ledger.sent
    requires s'.worker.Locked? || s'.worker.Sent? <==> s.worker.Locked? || s.worker.Sent?
    requires s'.worker.Sent? <==> s.worker.Sent?
    requires id in s.callers.exporters ==> task.FlushWait? || task.FlushDone?
    ensures Locks(s')
  {}

  lemma StartLocks(s: State, id: nat, ctx: nat, mark: Option<nat>)
    requires Locks(s) && id in s.callers.tasks && !s.callers.tasks[id].FlushWait? && !s.callers.tasks[id].FlushDone?
    ensures Locks(StartExport(s, id, ctx, mark))
  {}

  lemma StartedOnce(c: Callers, id: nat)
    requires Started(c) && id in c.exporters
    ensures id in c.tasks && (c.tasks[id].FlushWait? || c.tasks[id].FlushDone?)
  {}

  lemma FlushLocks(c: Config, s: State, id: nat)
    requires Locks(s) && id in s.callers.tasks
    ensures Locks(FlushAdvances(c, s, id, s.callers.tasks[id]))
  {
    var task := s.callers.tasks[id];
    var s' := FlushAdvances(c, s, id, task);
    if task.FlushMarked? && id in s.callers.closed {
      StartLocks(s, id, task.ctx, Some(s.callers.closed[id]));
    } else if s' != s {
      if id in s.callers.exporters { StartedOnce(s.callers, id); }
      hide Locks;
      TaskLocks(s, s', id, s'.callers.tasks[id]);
    }
  }

  lemma AdvanceLocks(c: Config, s: State, id: nat, ok: bool)
    requires Locks(s)
    ensures Locks(Advanced(c, s, id, ok))
  {
    if id in s.callers.tasks {
      var task, s' := s.callers.tasks[id], Advanced(c, s, id, ok);
      if task.EndCalled? || task.EndOpen? || task.StopCalled? || task.StopWait? {
        if id in s.callers.exporters { StartedOnce(s.callers, id); }
        hide Locks, FlushAdvances;
        if s' != s { TaskLocks(s, s', id, s'.callers.tasks[id]); }
      } else {
        FlushLocks(c, s, id);
        hide Locks, FlushAdvances;
      }
    }
  }

  lemma SelectLocks(c: Config, s: State, l: Label)
    requires Locks(s) && (l.Enter? || l.GiveUp? || l.SeeStop?)
    ensures Locks(Next(c, s, l))
  {
    var s' := Next(c, s, l);
    if s' != s {
      if l.GiveUp? && s.callers.tasks[l.id].FlushOffer? {
        StartLocks(s, l.id, s.callers.tasks[l.id].ctx, None);
      } else {
        if l.id in s.callers.exporters { StartedOnce(s.callers, l.id); }
        hide Locks;
        TaskLocks(s, s', l.id, s'.callers.tasks[l.id]);
      }
    }
  }

  lemma WorkLocks(c: Config, s: State)
    requires Locks(s)
    ensures Locks(Worked(c, s)) && Locks(Received(s))
  {}

  lemma ExportLocks(s: State, id: nat, ok: bool)
    requires Locks(s)
    ensures Locks(ExportMoves(s, id, ok))
  {}

  lemma NextLocks(c: Config, s: State, l: Label)
    requires Locks(s)
    ensures Locks(Next(c, s, l))
  {
    hide Advanced, Worked, Received, ExportMoves;
    match l
    case Advance(id, ok) => AdvanceLocks(c, s, id, ok);
    case Export(id, ok) => ExportLocks(s, id, ok);
    case Work => WorkLocks(c, s);
    case Receive => WorkLocks(c, s);
    case Enter(_, _) => SelectLocks(c, s, l);
    case GiveUp(_) => SelectLocks(c, s, l);
    case SeeStop(_) => SelectLocks(c, s, l);
    case _ =>
  }

  lemma CallSizes(c: Config, l: Ledger, w: Worker)
    requires Sizes(c, l, w) && l.batch != []
    ensures Sizes(c, Exporting(l), w)
  {}

  lemma WorkSizes(c: Config, s: State)
    requires Sizes(c, s.ledger, s.worker) && c.max >= 1
    ensures var s' := Worked(c, s); Sizes(c, s'.ledger, s'.worker)
  {
    if s.worker.Locked? && s.ledger.batch != [] { CallSizes(c, s.ledger, s.worker); }
  }

  lemma ExportSizes(c: Config, s: State, id: nat, ok: bool)
    requires Sizes(c, s.ledger, s.worker) && c.max >= 1
    ensures var s' := ExportMoves(s, id, ok); Sizes(c, s'.ledger, s'.worker)
  {
    if s.ledger.batch != [] { CallSizes(c, s.ledger, s.worker); }
    hide Exporting;
  }

  lemma AdvanceSizes(c: Config, s: State, id: nat, ok: bool)
    requires Sizes(c, s.ledger, s.worker)
    ensures var s' := Advanced(c, s, id, ok); Sizes(c, s'.ledger, s'.worker)
  {
    var s' := Advanced(c, s, id, ok);
    assert s'.ledger.batch == s.ledger.batch && s'.ledger.calls == s.ledger.calls;
    assert Appends(s'.worker) ==> Appends(s.worker);
  }

  lemma NextSizes(c: Config, s: State, l: Label)
    requires Sizes(c, s.ledger, s.worker) && c.max >= 1
    ensures var s' := Next(c, s, l); Sizes(c, s'.ledger, s'.worker)
  {
    hide Advanced, Worked, ExportMoves;
    match l
    case Advance(id, ok) => AdvanceSizes(c, s, id, ok);
    case Export(id, ok) => ExportSizes(c, s, id, ok);
    case Work => WorkSizes(c, s);
    case _ =>
  }

  /**
    In every run: what was exported, the batch, the span in the worker's hand and the spans in the queue
    are, in this order, the spans accepted; accepted and dropped spans are the sampled ones offered; and
    each call of ExportSpans gets between 1 and `MaxExportBatchSize` spans.
   */
  lemma {:induction false} RunFlow(c: Config, ls: seq<Label>)
    requires c.max >= 1
    ensures var s := Run(c, Init(), ls);
      Flow(c, s.ledger, s.worker) && Counts(s.ledger) && Locks(s) && Sizes(c, s.ledger, s.worker)
  {
    if |ls| == 0 {
    } else {
      var s := Run(c, Init(), ls[..|ls| - 1]);
      RunFlow(c, ls[..|ls| - 1]);
      NextFlow(c, s, ls[|ls| - 1]);
      NextLocks(c, s, ls[|ls| - 1]);
      NextSizes(c, s, ls[|ls| - 1]);
    }
  }
}

/** What a ForceFlush of the span processor whose marker was accepted has achieved when it returns. */
module SpanFlush {
  import opened Prelude
  import opened SpanProcessor
  import opened SpanFlow

  /** How many spans have been exported or stand in the batch. */
  function Seen(l: Ledger): nat { |Exported(l.calls)| + |Pending(l)| }

  /** A marker carries the number of spans before it. */
  ghost predicate MarksCount(queue: seq<Item>, base: nat)
  {
    forall k :: 0 <= k < |queue| && queue[k].Marker? ==> queue[k].mark == base + |Spans(queue[..k])|
  }

  /** A mark is reached when its channel is closed, and exported when the goroutine has exported. */
  ghost predicate MarksReached(l: Ledger, c: Callers)
  {
    && (forall id :: id in c.closed ==> c.closed[id] <= Seen(l))
    && (forall id :: id in c.exporters && c.exporters[id].mark.Some? ==>
      var x := c.exporters[id];
      x.mark.value <= if x.step.XSent? || x.step.XDone? then |Exported(l.calls)| else Seen(l))
    && (forall id :: id in c.tasks && c.tasks[id].FlushDone? && c.tasks[id].mark.Some? ==>
      c.tasks[id].mark.value <= |Exported(l.calls)|)
  }

  ghost predicate Marks(s: State)
  {
    && MarksCount(s.ledger.queue, Seen(s.ledger) + |InHand(s.worker)|)
    && (s.worker.Hand? && s.worker.item.Marker? ==> s.worker.item.mark == Seen(s.ledger))
    && MarksReached(s.ledger, s.callers)
  }

  // ---------------------------------------------------------------- the queue

  lemma MarksCountNext(queue: seq<Item>, base: nat, x: Item)
    requires MarksCount(queue, base) && (x.Marker? ==> x.mark == base + |Spans(queue)|)
    ensures MarksCount(queue + [x], base)
  {
    var q := queue + [x];
    forall k | 0 <= k < |q| && q[k].Marker? ensures q[k].mark == base + |Spans(q[..k])| {
      assert q[..k] == queue[..k];
      if k == |queue| { assert queue[..k] == queue; }
    }
  }

  lemma MarksCountFirst(queue: seq<Item>, base: nat)
    requires MarksCount(queue, base) && queue != []
    ensures MarksCount(queue[1..], base + if queue[0].Snapshot? then 1 else 0)
    ensures queue[0].Marker? ==> queue[0].mark == base
  {
    assert queue[..0] == [];
    forall k | 0 <= k < |queue| - 1
      ensures |Spans(queue[..k + 1])| == |Spans(queue[1..][..k])| + if queue[0].Snapshot? then 1 else 0
    {
      SpansFirst(queue[..k + 1]);
      assert queue[..k + 1][1..] == queue[1..][..k];
    }
  }

  lemma SendMarks(c: Config, s: State, item: Item)
    requires Marks(s) && Flow(c, s.ledger, s.worker) && CanSend(c, s)
    requires item.Marker? ==> item.mark == |s.ledger.accepted|
    ensures Marks(Send(c, s, item))
  {
    var l := s.ledger;
    assert |l.accepted| == Seen(l) + |InHand(s.worker)| + |Spans(l.queue)|;
    var s' := Send(c, s, item);
    assert Seen(s'.ledger) == Seen(l);
    MarksCountNext(l.queue, Seen(l) + |InHand(s.worker)|, item);
    ReachedLater(l, s'.ledger, s.callers);
    if |l.queue| == 0 { assert |Spans(l.queue)| == 0; }
    hide Exported, Spans, Seen, MarksReached, Flow;
  }

  lemma ReachedLater(l: Ledger, l': Ledger, c: Callers)
    requires MarksReached(l, c) && Seen(l) <= Seen(l') && |Exported(l.calls)| <= |Exported(l'.calls)|
    ensures MarksReached(l', c)
  {
    hide Exported, Seen;
  }

  // ---------------------------------------------------------------- steps

  /** A call moves on, and nothing is exported, appended or sent. */
  lemma TaskMarks(s: State, s': State, id: nat, task: Task)
    requires Marks(s) && s'.callers == WithTask(s, id, task).callers && s'.worker == s.worker
    requires s'.ledger.queue == s.ledger.queue && s'.ledger.calls == s.ledger.calls
    requires Pending(s'.ledger) == Pending(s.ledger)
    requires task.FlushDone? && task.mark.Some? ==> task.mark.value <= |Exported(s.ledger.calls)|
    ensures Marks(s')
  {
    hide Exported, Spans, Pending, MarksCount;
  }

  lemma StartMarks(s: State, id: nat, ctx: nat, mark: Option<nat>)
    requires Marks(s) && (mark.Some? ==> mark.value <= Seen(s.ledger))
    ensures Marks(StartExport(s, id, ctx, mark))
  {
    hide Exported, Spans, Pending, MarksCount;
  }

  lemma OfferedMarks(c: Config, s: State, id: nat, span: Span, meets: bool)
    requires Marks(s) && Flow(c, s.ledger, s.worker)
    ensures Marks(Offered(c, s, id, span, meets))
  {
    hide Marks, Send;
    var s1 := WithTask(s, id, EndDone).(ledger := s.ledger.(attempts := s.ledger.attempts + 1));
    TaskMarks(s, s1, id, EndDone);
    if |s.ledger.queue| < c.room || (c.room == 0 && meets && s.worker.Select?) {
      SendMarks(c, s1, Snapshot(span));
    } else {
      TaskMarks(s, Offered(c, s, id, span, meets), id, EndDone);
    }
  }

  lemma FlushMarks(c: Config, s: State, id: nat)
    requires Marks(s) && Flow(c, s.ledger, s.worker) && id in s.callers.tasks
    ensures Marks(FlushAdvances(c, s, id, s.callers.tasks[id]))
  {
    var task := s.callers.tasks[id];
    var s' := FlushAdvances(c, s, id, task);
    if task.FlushOffer? && CanSend(c, s) {
      var mid := Send(c, s, Marker(id, |s.ledger.accepted|));
      SendMarks(c, s, Marker(id, |s.ledger.accepted|));
      hide Marks, Send;
      TaskMarks(mid, s', id, FlushMarked(task.ctx));
    } else if task.FlushMarked? && id in s.callers.closed {
      StartMarks(s, id, task.ctx, Some(s.callers.closed[id]));
    } else if s' != s {
      if task.FlushWait? { assert s.callers.exporters[id].step.XDone?; }
      TaskMarks(s, s', id, s'.callers.tasks[id]);
    }
  }

  lemma AdvanceMarks(c: Config, s: State, id: nat, ok: bool)
    requires Marks(s) && Flow(c, s.ledger, s.worker)
    ensures Marks(Advanced(c, s, id, ok))
  {
    hide Marks, Flow, FlushAdvances, Offered;
    if id in s.callers.tasks {
      var task, s' := s.callers.tasks[id], Advanced(c, s, id, ok);
      if task.EndOpen? && task.sampled {
        OfferedMarks(c, s, id, task.s, ok);
      } else if task.EndCalled? || task.EndOpen? || task.StopCalled? || task.StopWait? {
        if s' != s { TaskMarks(s, s', id, s'.callers.tasks[id]); }
      } else {
        FlushMarks(c, s, id);
      }
    }
  }

  lemma SelectMarks(c: Config, s: State, l: Label)
    requires Marks(s) && (l.Enter? || l.GiveUp? || l.SeeStop?)
    ensures Marks(Next(c, s, l))
  {
    hide Marks;
    var s' := Next(c, s, l);
    if s' != s {
      if l.GiveUp? && s.callers.tasks[l.id].FlushOffer? {
        StartMarks(s, l.id, s.callers.tasks[l.id].ctx, None);
      } else {
        TaskMarks(s, s', l.id, s'.callers.tasks[l.id]);
      }
    }
  }

  lemma SeenExporting(l: Ledger)
    requires !l.sent
    ensures Seen(Exporting(l)) == Seen(l) == |Exported(Exporting(l).calls)| && |Exported(l.calls)| <= Seen(l)
  {
    ExportedNext(l.calls, l.batch);
  }

  lemma StepReached(l: Ledger, s: State, id: nat, step: Step)
    requires MarksReached(l, s.callers) && id in s.callers.exporters
    requires (step.XSent? || step.XDone?) && s.callers.exporters[id].mark.Some? ==>
      s.callers.exporters[id].mark.value <= |Exported(l.calls)|
    ensures MarksReached(l, WithStep(s, id, step).callers)
  {
    hide Exported;
  }

  /** With the mutex held, an export reaches every mark that was reached before it. */
  lemma ExportMarks(s: State, id: nat, ok: bool)
    requires Marks(s) && Locks(s)
    ensures Marks(ExportMoves(s, id, ok))
  {
    var s' := ExportMoves(s, id, ok);
    if id in s.callers.exporters && s' != s {
      var l, l' := s.ledger, s'.ledger;
      var step := s'.callers.exporters[id].step;
      ExportedSeen(s, id, ok);
      ReachedLater(l, l', s.callers);
      hide Locks, Seen, Exported, MarksCount, InHand, Exporting, Cleared;
      StepReached(l', s, id, step);
    }
  }

  lemma ExportedSeen(s: State, id: nat, ok: bool)
    requires Locks(s) && id in s.callers.exporters
    ensures var (l, l', step) := (s.ledger, ExportMoves(s, id, ok).ledger, s.callers.exporters[id].step);
      && Seen(l') == Seen(l) && |Exported(l.calls)| <= |Exported(l'.calls)| && l'.queue == l.queue
      && (step.XLocked? ==> Seen(l) == |Exported(l'.calls)|)
  {
    var l, step := s.ledger, s.callers.exporters[id].step;
    assert (step.XSent? ==> l.sent) && (step.XLocked? ==> !l.sent);
    hide Locks;
    if step.XLocked? { SeenExporting(l); SeenNoBatch(l); }
    if step.XSent? { SeenCleared(l); }
    hide Exported, Seen, Exporting, Cleared;
  }

  lemma SeenNoBatch(l: Ledger)
    ensures l.batch == [] ==> Seen(l) == |Exported(l.calls)|
  {}

  lemma WorkedSeen(c: Config, s: State)
    requires Locks(s)
    ensures var (l, l', w, w') := (s.ledger, Worked(c, s).ledger, s.worker, Worked(c, s).worker);
      && Seen(l') + |InHand(w')| == Seen(l) + |InHand(w)| && Seen(l) <= Seen(l')
      && |Exported(l.calls)| <= |Exported(l'.calls)| && l'.queue == l.queue
  {
    var l, w := s.ledger, s.worker;
    assert w.Sent? ==> l.sent;
    assert w.Locked? || s.flags.holder.Free? ==> !l.sent;
    hide Locks;
    if w.Locked? { SeenExporting(l); }
    if w.Sent? { SeenCleared(l); }
    if w.Hand? && w.item.Snapshot? && s.flags.holder.Free? { SeenAppended(l, w.item.s); }
    hide Exported, Seen, Exporting, Cleared;
  }

  lemma SeenCleared(l: Ledger)
    requires l.sent
    ensures Seen(Cleared(l)) == Seen(l)
  {
    hide Exported;
  }

  lemma SeenAppended(l: Ledger, span: Span)
    requires !l.sent
    ensures Seen(l.(batch := l.batch + [span])) == Seen(l) + 1
  {
    hide Exported;
  }

  lemma WorkMarks(c: Config, s: State)
    requires Marks(s) && Locks(s)
    ensures Marks(Worked(c, s))
  {
    var l, l', w, w' := s.ledger, Worked(c, s).ledger, s.worker, Worked(c, s).worker;
    WorkedSeen(c, s);
    ReachedLater(l, l', s.callers);
    hide Locks, Seen, Exported, MarksCount, InHand, Exporting, Cleared, Appending;
    if w.Hand? && w.item.Marker? {
      assert MarksReached(l', Worked(c, s).callers);
    } else {
      WorkedCallers(c, s);
    }
  }

  lemma WorkedCallers(c: Config, s: State)
    requires !(s.worker.Hand? && s.worker.item.Marker?)
    ensures var s' := Worked(c, s); s'.callers == s.callers && !(s'.worker.Hand? && s'.worker.item.Marker?)
  {}

  lemma ReceiveMarks(s: State)
    requires Marks(s)
    ensures Marks(Received(s))
  {
    if s.ledger.queue != [] { MarksCountFirst(s.ledger.queue, Seen(s.ledger) + |InHand(s.worker)|); }
    hide Exported, Spans, MarksCount;
  }

  lemma NextMarks(c: Config, s: State, l: Label)
    requires Marks(s) && Locks(s) && Flow(c, s.ledger, s.worker)
    ensures Marks(Next(c, s, l))
  {
    hide Advanced, Worked, Received, ExportMoves, Locks, Flow, Exported, Spans, MarksCount, MarksReached;
    match l
    case Advance(id, ok) => AdvanceMarks(c, s, id, ok);
    case Export(id, ok) => ExportMarks(s, id, ok);
    case Work => WorkMarks(c, s);
    case Receive => ReceiveMarks(s);
    case Cancel(_) => CancelMarks(s.ledger, s.callers, Next(c, s, l).callers);
    case Enter(_, _) => SelectMarks(c, s, l);
    case GiveUp(_) => SelectMarks(c, s, l);
    case SeeStop(_) => SelectMarks(c, s, l);
    case _ =>
  }

  lemma CancelMarks(l: Ledger, c: Callers, c': Callers)
    requires MarksReached(l, c) && c'.tasks == c.tasks && c'.exporters == c.exporters && c'.closed == c.closed
    ensures MarksReached(l, c')
  {}

  lemma {:induction false} RunMarks(c: Config, ls: seq<Label>)
    requires c.max >= 1
    ensures Marks(Run(c, Init(), ls))
  {
    if |ls| == 0 {
    } else {
      RunMarks(c, ls[..|ls| - 1]);
      RunFlow(c, ls[..|ls| - 1]);
      NextMarks(c, Run(c, Init(), ls[..|ls| - 1]), ls[|ls| - 1]);
    }
  }

  // ---------------------------------------------------------------- marks and the call they belong to

  /** Whatever carries a mark of ForceFlush call id carries at least n, and belongs to a call that is known. */
  ghost predicate Since(s: State, id: nat, n: nat)
  {
    var (q, c) := (s.ledger.queue, s.callers);
    && n <= |s.ledger.accepted|
    && (forall k :: 0 <= k < |q| && q[k].Marker? && q[k].task == id ==> q[k].mark >= n)
    && (s.worker.Hand? && s.worker.item.Marker? && s.worker.item.task == id ==> s.worker.item.mark >= n)
    && (id in c.closed ==> c.closed[id] >= n)
    && (id in c.exporters && c.exporters[id].mark.Some? ==> c.exporters[id].mark.value >= n)
    && (id in c.tasks && c.tasks[id].FlushDone? && c.tasks[id].mark.Some? ==> c.tasks[id].mark.value >= n)
  }

  lemma SendSince(c: Config, s: State, item: Item, id: nat, n: nat)
    requires Since(s, id, n) && (item.Marker? ==> item.mark >= n)
    requires CanSend(c, s)
    ensures Since(Send(c, s, item), id, n)
  {}

  lemma SendKeeps(c: Config, s: State, item: Item)
    ensures var s' := Send(c, s, item);
      && s'.callers == s.callers && s'.flags == s.flags && s.ledger.accepted <= s'.ledger.accepted
  {}

  /** A call moves on without a mark of its own. */
  lemma TaskSince(s: State, s': State, x: nat, task: Task, id: nat, n: nat)
    requires Since(s, id, n) && s'.callers == WithTask(s, x, task).callers && s'.worker == s.worker
    requires s'.ledger.queue == s.ledger.queue && s'.ledger.accepted == s.ledger.accepted
    requires task.FlushDone? && task.mark.Some? ==>
      x in s.callers.exporters && s.callers.exporters[x].mark == task.mark
    ensures Since(s', id, n)
  {}

  lemma OfferedSince(c: Config, s: State, x: nat, span: Span, meets: bool, id: nat, n: nat)
    requires Since(s, id, n)
    ensures Since(Offered(c, s, x, span, meets), id, n)
  {
    hide Since, Send;
    var s1 := WithTask(s, x, EndDone).(ledger := s.ledger.(attempts := s.ledger.attempts + 1));
    TaskSince(s, s1, x, EndDone, id, n);
    if |s.ledger.queue| < c.room || (c.room == 0 && meets && s.worker.Select?) {
      SendSince(c, s1, Snapshot(span), id, n);
    } else {
      TaskSince(s, Offered(c, s, x, span, meets), x, EndDone, id, n);
    }
  }

  lemma FlushSince(c: Config, s: State, x: nat, id: nat, n: nat)
    requires Since(s, id, n) && x in s.callers.tasks
    ensures Since(FlushAdvances(c, s, x, s.callers.tasks[x]), id, n)
  {
    var task := s.callers.tasks[x];
    var s' := FlushAdvances(c, s, x, task);
    if task.FlushOffer? && CanSend(c, s) {
      var item := Marker(x, |s.ledger.accepted|);
      SendSince(c, s, item, id, n);
      hide Since, Send;
      TaskSince(Send(c, s, item), s', x, FlushMarked(task.ctx), id, n);
    } else if task.FlushMarked? && x in s.callers.closed {
    } else if s' != s {
      hide Since;
      TaskSince(s, s', x, s'.callers.tasks[x], id, n);
    }
  }

  lemma AdvanceSince(c: Config, s: State, x: nat, ok: bool, id: nat, n: nat)
    requires Since(s, id, n)
    ensures Since(Advanced(c, s, x, ok), id, n)
  {
    hide Since, Offered, FlushAdvances;
    if x in s.callers.tasks {
      var task, s' := s.callers.tasks[x], Advanced(c, s, x, ok);
      if task.EndOpen? && task.sampled {
        OfferedSince(c, s, x, task.s, ok, id, n);
      } else if task.EndCalled? || task.EndOpen? || task.StopCalled? || task.StopWait? {
        if s' != s { TaskSince(s, s', x, s'.callers.tasks[x], id, n); }
      } else {
        FlushSince(c, s, x, id, n);
      }
    }
  }

  lemma WorkSince(c: Config, s: State, id: nat, n: nat)
    requires Since(s, id, n)
    ensures Since(Worked(c, s), id, n) && Since(Received(s), id, n)
  {}

  lemma OtherSince(c: Config, s: State, l: Label, id: nat, n: nat)
    requires Since(s, id, n) && !l.Advance? && !l.Work? && !l.Receive?
    ensures Since(Next(c, s, l), id, n)
  {}

  lemma NextSince(c: Config, s: State, l: Label, id: nat, n: nat)
    requires Since(s, id, n)
    ensures Since(Next(c, s, l), id, n)
  {
    hide Since, Advanced, Worked, Received;
    match l
    case Advance(x, ok) => AdvanceSince(c, s, x, ok, id, n);
    case Work => WorkSince(c, s, id, n);
    case Receive => WorkSince(c, s, id, n);
    case _ => OtherSince(c, s, l, id, n);
  }

  lemma {:induction false} RunSince(c: Config, s: State, ls: seq<Label>, id: nat, n: nat)
    requires Since(s, id, n)
    ensures Since(Run(c, s, ls), id, n)
  {
    if |ls| == 0 {
    } else {
      RunSince(c, s, ls[..|ls| - 1], id, n);
      NextSince(c, Run(c, s, ls[..|ls| - 1]), ls[|ls| - 1], id, n);
    }
  }

  /** Nothing carries a mark of a call that has not been made. */
  ghost predicate Known(s: State)
  {
    var (q, c) := (s.ledger.queue, s.callers);
    && (forall k :: 0 <= k < |q| && q[k].Marker? ==> q[k].task in c.tasks)
    && (s.worker.Hand? && s.worker.item.Marker? ==> s.worker.item.task in c.tasks)
    && c.closed.Keys <= c.tasks.Keys && c.exporters.Keys <= c.tasks.Keys
  }

  lemma SendKnown(c: Config, s: State, item: Item)
    requires Known(s) && (item.Marker? ==> item.task in s.callers.tasks)
    ensures Known(Send(c, s, item))
  {}

  lemma TaskKnown(s: State, s': State, x: nat, task: Task)
    requires Known(s) && s'.callers == WithTask(s, x, task).callers && s'.worker == s.worker
    requires s'.ledger.queue == s.ledger.queue
    ensures Known(s')
  {}

  lemma AdvanceKnown(c: Config, s: State, x: nat, ok: bool)
    requires Known(s)
    ensures Known(Advanced(c, s, x, ok))
  {
    if x in s.callers.tasks {
      var task, s' := s.callers.tasks[x], Advanced(c, s, x, ok);
      var item := if task.EndOpen? then Snapshot(task.s) else Marker(x, |s.ledger.accepted|);
      SendKnown(c, s, item);
      SendKeeps(c, s, item);
      if task.FlushMarked? && x in s.callers.closed {
        hide Send, Offered;
      } else if s' != s {
        hide Known;
        if s'.worker == s.worker && s'.ledger.queue == s.ledger.queue {
          TaskKnown(s, s', x, s'.callers.tasks[x]);
        } else {
          TaskKnown(Send(c, s, item), s', x, s'.callers.tasks[x]);
        }
      }
    }
  }

  lemma WorkKnown(c: Config, s: State)
    requires Known(s)
    ensures Known(Worked(c, s)) && Known(Received(s))
  {}

  lemma OtherKnown(c: Config, s: State, l: Label)
    requires Known(s) && !l.Advance? && !l.Work? && !l.Receive?
    ensures Known(Next(c, s, l))
  {}

  lemma NextKnown(c: Config, s: State, l: Label)
    requires Known(s)
    ensures Known(Next(c, s, l))
  {
    hide Known, Advanced, Worked, Received;
    match l
    case Advance(x, ok) => AdvanceKnown(c, s, x, ok);
    case Work => WorkKnown(c, s);
    case Receive => WorkKnown(c, s);
    case _ => OtherKnown(c, s, l);
  }

  lemma {:induction false} RunKnown(c: Config, ls: seq<Label>)
    ensures Known(Run(c, Init(), ls))
  {
    if |ls| == 0 {
    } else {
      RunKnown(c, ls[..|ls| - 1]);
      NextKnown(c, Run(c, Init(), ls[..|ls| - 1]), ls[|ls| - 1]);
    }
  }

  lemma {:induction false} RunSplit(c: Config, s: State, ls: seq<Label>, more: seq<Label>)
    ensures Run(c, s, ls + more) == Run(c, Run(c, s, ls), more)
  {
    hide Next;
    if |more| == 0 {
      assert ls + more == ls;
    } else {
      RunSplit(c, s, ls, more[..|more| - 1]);
      assert (ls + more)[..|ls + more| - 1] == ls + more[..|more| - 1];
    }
  }

  /** A call returned nil without a mark only if its context was cancelled or the processor stopped. */
  ghost predicate MarkMissing(s: State)
  {
    && (forall id :: id in s.callers.tasks && s.callers.tasks[id].FlushDone? ==>
      var task := s.callers.tasks[id];
      task.ok && task.mark.None? ==> task.ctx in s.callers.cancelled || s.flags.stopped)
    && (forall id :: id in s.callers.tasks && id in s.callers.exporters && s.callers.tasks[id].FlushWait? ==>
      s.callers.exporters[id].mark.None? ==> s.callers.tasks[id].ctx in s.callers.cancelled)
    && (s.flags.stopCh ==> s.flags.stopped) && (s.flags.closer != NoCloser ==> s.flags.stopped)
  }

  lemma AdvanceMissing(c: Config, s: State, x: nat, ok: bool)
    requires MarkMissing(s)
    ensures MarkMissing(Advanced(c, s, x, ok))
  {
    if x in s.callers.tasks {
      var task := s.callers.tasks[x];
      SendKeeps(c, s, Marker(x, |s.ledger.accepted|));
      if task.EndOpen? && task.sampled {
        OfferedKeeps(c, s, x, task.s, ok);
        hide Offered, FlushAdvances;
      } else {
        hide Send, Offered;
      }
    }
  }

  lemma OfferedKeeps(c: Config, s: State, id: nat, span: Span, meets: bool)
    ensures var s' := Offered(c, s, id, span, meets);
      s'.callers == WithTask(s, id, EndDone).callers && s'.flags == s.flags
  {}

  lemma OtherMissing(c: Config, s: State, l: Label)
    requires MarkMissing(s) && !l.Advance?
    ensures MarkMissing(Next(c, s, l))
  {
    WorkKeeps(c, s);
    hide Worked, Received;
  }

  lemma WorkKeeps(c: Config, s: State)
    ensures Worked(c, s).callers == s.callers.(closed := Worked(c, s).callers.closed)
    ensures Received(s).callers == s.callers
    ensures Worked(c, s).flags == s.flags.(holder := Worked(c, s).flags.holder) && Received(s).flags == s.flags
  {}

  lemma {:induction false} RunMissing(c: Config, ls: seq<Label>)
    ensures MarkMissing(Run(c, Init(), ls))
  {
    if |ls| == 0 {
    } else {
      var s, l := Run(c, Init(), ls[..|ls| - 1]), ls[|ls| - 1];
      RunMissing(c, ls[..|ls| - 1]);
      hide MarkMissing, Advanced;
      if l.Advance? { AdvanceMissing(c, s, l.id, l.ok); } else { OtherMissing(c, s, l); }
    }
  }

  /**
    ForceFlush returned nil, its context is not cancelled and the processor not stopped: every span
    accepted before the call has been given to ExportSpans.
   */
  lemma FlushDelivers(c: Config, ls: seq<Label>, id: nat, ctx: nat, more: seq<Label>)
    requires c.max >= 1 && id !in Run(c, Init(), ls).callers.tasks
    requires var s := Run(c, Init(), ls + [Enter(id, FlushCalled(ctx))] + more);
      && id in s.callers.tasks && s.callers.tasks[id].FlushDone? && s.callers.tasks[id].ok
      && s.callers.tasks[id].ctx !in s.callers.cancelled && !s.flags.stopped
    ensures var s := Run(c, Init(), ls + [Enter(id, FlushCalled(ctx))] + more);
      Run(c, Init(), ls).ledger.accepted <= Exported(s.ledger.calls) <= s.ledger.accepted
  {
    var enter := Enter(id, FlushCalled(ctx));
    var before, all := Run(c, Init(), ls), ls + [enter] + more;
    var s1 := Next(c, before, enter);
    RunKnown(c, ls);
    RunFlow(c, ls);
    assert Since(s1, id, |before.ledger.accepted|);
    assert (ls + [enter])[..|ls|] == ls;
    RunSplit(c, Init(), ls + [enter], more);
    RunSince(c, s1, more, id, |before.ledger.accepted|);
    RunMarks(c, all);
    RunFlow(c, all);
    RunMissing(c, all);
    AcceptedGrows(c, s1, more);
    hide Run, Next, Since, Flow, Known;
    var s := Run(c, Init(), all);
    assert before.ledger.accepted <= s.ledger.accepted && |before.ledger.accepted| <= |Exported(s.ledger.calls)|;
    ExportedPrefix(c, s);
    PrefixOfBoth(before.ledger.accepted, Exported(s.ledger.calls), s.ledger.accepted);
  }

  lemma ExportedPrefix(c: Config, s: State)
    requires Flow(c, s.ledger, s.worker)
    ensures Exported(s.ledger.calls) <= s.ledger.accepted
  {
    var l := s.ledger;
    Rebracket(Exported(l.calls), Pending(l), InHand(s.worker) + Spans(l.queue));
  }

  lemma PrefixOfBoth<T>(a: seq<T>, b: seq<T>, all: seq<T>)
    requires a <= all && b <= all && |a| <= |b|
    ensures a <= b
  {
    assert a == all[..|a|] == b[..|a|];
  }

  lemma NextAccepts(c: Config, s: State, l: Label)
    ensures s.ledger.accepted <= Next(c, s, l).ledger.accepted
  {}

  lemma {:induction false} AcceptedGrows(c: Config, s: State, ls: seq<Label>)
    ensures s.ledger.accepted <= Run(c, s, ls).ledger.accepted
  {
    if |ls| == 0 {
    } else {
      AcceptedGrows(c, s, ls[..|ls| - 1]);
      NextAccepts(c, Run(c, s, ls[..|ls| - 1]), ls[|ls| - 1]);
    }
  }

  lemma RunNext(c: Config, s: State, ls: seq<Label>, l: Label)
    ensures Run(c, s, ls + [l]) == Next(c, Run(c, s, ls), l)
  {
    assert (ls + [l])[..|ls|] == ls;
  }

  lemma ThreeSteps(c: Config, s: State, l1: Label, l2: Label, l3: Label)
    ensures Run(c, s, [l1, l2, l3]) == Next(c, Next(c, Next(c, s, l1), l2), l3)
  {
    hide Next;
    RunNext(c, s, [], l1);
    RunNext(c, s, [l1], l2);
    RunNext(c, s, [l1, l2], l3);
    assert [] + [l1] == [l1] && [l1] + [l2] == [l1, l2] && [l1, l2] + [l3] == [l1, l2, l3];
  }
}

/** What OnEnd puts into the channel, what the worker does with a span, and what one export does, exactly. */
module SpanSends {
  import opened Prelude
  import opened SpanProcessor
  import opened SpanFlow
  import F = SpanFlush

  /** OnEnd's look at the stop flag, and what it does with a span that is not sampled. */
  lemma EndLooks(c: Config, s: State, id: nat, meets: bool)
    requires id in s.callers.tasks && (s.callers.tasks[id].EndCalled? || s.callers.tasks[id].EndOpen?)
    requires s.callers.tasks[id].EndOpen? ==> !s.callers.tasks[id].sampled
    ensures var (task, s') := (s.callers.tasks[id], Next(c, s, Advance(id, meets)));
      s' == WithTask(s, id, if task.EndCalled? && !s.flags.stopped then EndOpen(task.s, task.sampled) else EndDone)
  {}

  /** The channel has a free place, or there is no buffer and the send meets the waiting worker. */
  predicate HasPlace(c: Config, s: State, meets: bool)
  {
    |s.ledger.queue| < c.room || (c.room == 0 && meets && s.worker.Select?)
  }

  /** The call is over, nobody else has moved, and no span was exported or appended. */
  predicate OnlyEnded(s: State, s': State, id: nat)
  {
    && s'.callers == WithTask(s, id, EndDone).callers && s'.flags == s.flags
    && s'.ledger.attempts == s.ledger.attempts + 1
    && s'.ledger.calls == s.ledger.calls && s'.ledger.batch == s.ledger.batch && s'.ledger.sent == s.ledger.sent
  }

  /** The span is the last in the channel, or in the worker's hand when there is no buffer. */
  predicate Accepted(c: Config, s: State, span: Span, s': State)
  {
    var (l, l') := (s.ledger, s'.ledger);
    && l'.accepted == l.accepted + [span] && l'.drops == l.drops && l'.dropped == l.dropped
    && (if c.room == 0 then s'.worker == Hand(Snapshot(span), false) && l'.queue == l.queue
        else s'.worker == s.worker && l'.queue == l.queue + [Snapshot(span)])
  }

  predicate DroppedAndCounted(s: State, s': State)
  {
    var (l, l') := (s.ledger, s'.ledger);
    && l'.accepted == l.accepted && l'.queue == l.queue && s'.worker == s.worker
    && l'.drops == l.drops + 1 && l'.dropped == (l.dropped + 1) % DROPS
  }

  lemma OfferAccepts(c: Config, s: State, id: nat, span: Span, meets: bool)
    requires HasPlace(c, s, meets)
    ensures var s' := Offered(c, s, id, span, meets); OnlyEnded(s, s', id) && Accepted(c, s, span, s')
  {}

  lemma OfferDrops(c: Config, s: State, id: nat, span: Span, meets: bool)
    requires !HasPlace(c, s, meets)
    ensures var s' := Offered(c, s, id, span, meets); OnlyEnded(s, s', id) && DroppedAndCounted(s, s')
  {}

  /**
    A sampled span that ends, past the look at the stop flag: it is accepted exactly when the channel holds
    fewer than `MaxQueueSize` items, or has no buffer and the send meets a worker that waits; otherwise it is
    dropped, and counted.  Nothing else changes.
   */
  lemma AcceptedIff(c: Config, ls: seq<Label>, id: nat, meets: bool)
    requires c.max >= 1
    requires var tasks := Run(c, Init(), ls).callers.tasks;
      id in tasks && tasks[id].EndOpen? && tasks[id].sampled
    ensures var s := Run(c, Init(), ls);
      var s' := Next(c, s, Advance(id, meets));
      && |s.ledger.queue| <= c.room && OnlyEnded(s, s', id)
      && (HasPlace(c, s, meets) <==> Accepted(c, s, s.callers.tasks[id].s, s'))
      && (!HasPlace(c, s, meets) <==> DroppedAndCounted(s, s'))
  {
    var s := Run(c, Init(), ls);
    RunFlow(c, ls);
    var span := s.callers.tasks[id].s;
    assert Next(c, s, Advance(id, meets)) == Offered(c, s, id, span, meets);
    hide Run, Locks, Sizes, Offered, Next;
    if HasPlace(c, s, meets) { OfferAccepts(c, s, id, span, meets); } else { OfferDrops(c, s, id, span, meets); }
  }

  // ---------------------------------------------------------------- spans that end while the worker does not move

  /** One OnEnd after the other, each with a sampled span. */
  function Ends(spans: seq<Span>): seq<Label>
  {
    if |spans| == 0 then [] else
    var n := |spans| - 1;
    Ends(spans[..n]) + [Enter(n, EndCalled(spans[n], true)), Advance(n, false), Advance(n, false)]
  }

  function Snapshots(spans: seq<Span>): (r: seq<Item>)
    ensures |r| == |spans|
  {
    seq(|spans|, i requires 0 <= i < |spans| => Snapshot(spans[i]))
  }

  /** The channel holds the first spans, as many as there is room for, and the others are dropped. */
  ghost predicate FirstHeld(c: Config, spans: seq<Span>, s: State)
  {
    var k := Min(|spans|, c.room);
    && s.ledger.accepted == spans[..k] && s.ledger.queue == Snapshots(spans[..k])
    && s.ledger.drops == |spans| - k && s.ledger.attempts == |spans|
    && s.worker.Select? && s.flags == Init().flags && s.ledger.calls == []
    && forall id :: id in s.callers.tasks <==> 0 <= id < |spans|
  }

  lemma HeldNext(c: Config, spans: seq<Span>, s: State, span: Span)
    requires FirstHeld(c, spans, s)
    ensures var n := |spans|;
      var s' := Next(c, Next(c, Next(c, s, Enter(n, EndCalled(span, true))), Advance(n, false)), Advance(n, false));
      FirstHeld(c, spans + [span], s')
  {
    var n := |spans|;
    var k := Min(n, c.room);
    var s1 := Next(c, s, Enter(n, EndCalled(span, true)));
    assert s1 == WithTask(s, n, EndCalled(span, true));
    var s2 := Next(c, s1, Advance(n, false));
    assert s2 == WithTask(s1, n, EndOpen(span, true));
    var all := spans + [span];
    if n < c.room {
      assert all[..n + 1] == all && spans[..n] == spans;
      assert Snapshots(all) == Snapshots(spans) + [Snapshot(span)];
    } else {
      assert all[..c.room] == spans[..c.room];
    }
  }

  /**
    On a new processor whose worker does not move, the first spans that end are accepted, as many as the
    channel has places, and the rest are dropped and counted.
   */
  lemma {:induction false} FirstKept(c: Config, spans: seq<Span>)
    ensures FirstHeld(c, spans, Run(c, Init(), Ends(spans)))
  {
    if |spans| == 0 {
      assert Snapshots([]) == [];
    } else {
      var n := |spans| - 1;
      var init := spans[..n];
      var labels := [Enter(n, EndCalled(spans[n], true)), Advance(n, false), Advance(n, false)];
      FirstKept(c, init);
      F.RunSplit(c, Init(), Ends(init), labels);
      F.ThreeSteps(c, Run(c, Init(), Ends(init)), labels[0], labels[1], labels[2]);
      hide Next, Run, FirstHeld, Init;
      HeldNext(c, init, Run(c, Init(), Ends(init)), spans[n]);
      assert spans == init + [spans[n]];
    }
  }

  // ---------------------------------------------------------------- the worker

  /** The worker takes what has waited longest, from a channel that holds something. */
  lemma ReceivesFirst(c: Config, s: State)
    requires s.worker.Select? || s.worker.DrainSelect?
    ensures var s' := Next(c, s, Receive);
      && s'.callers == s.callers && s'.flags == s.flags
      && if s.ledger.queue == [] then s' == s
         else
           && s'.worker == Hand(s.ledger.queue[0], s.worker.DrainSelect?)
           && s'.ledger == s.ledger.(queue := s.ledger.queue[1..])
  {}

  /**
    A span in the worker's hand, the mutex free: it goes to the end of the batch, and the worker exports exactly
    when that makes `MaxExportBatchSize` spans.
   */
  lemma AppendsExactly(c: Config, ls: seq<Label>)
    requires c.max >= 1
    requires var s := Run(c, Init(), ls); s.worker.Hand? && s.worker.item.Snapshot? && s.flags.holder.Free?
    ensures var s := Run(c, Init(), ls);
      var (w, s') := (s.worker, Next(c, s, Work));
      && s'.callers == s.callers && s'.flags == s.flags
      && s'.ledger == s.ledger.(batch := s.ledger.batch + [w.item.s]) && |s'.ledger.batch| <= c.max
      && s'.worker == (if |s'.ledger.batch| == c.max then Want(if w.draining then Drain else Loop)
                       else if w.draining then DrainSelect else Select)
  {
    RunFlow(c, ls);
    hide Run, Locks, Flow;
  }

  /** A marker closes its channel, unless the worker drains. */
  lemma MarkerCloses(c: Config, s: State)
    requires s.worker.Hand? && s.worker.item.Marker?
    ensures var (w, s') := (s.worker, Next(c, s, Work));
      && s'.ledger == s.ledger && s'.flags == s.flags
      && s'.callers.closed == (if w.draining then s.callers.closed else s.callers.closed[w.item.task := w.item.mark])
      && s'.callers == s.callers.(closed := s'.callers.closed)
      && s'.worker == if w.draining then DrainSelect else Select
  {}

  /** The timer makes a waiting worker export. */
  lemma TimerWakes(c: Config, s: State)
    requires s.worker.Select?
    ensures Next(c, s, TimerFires) == s.(worker := Want(Loop))
  {}

  /**
    One export by the worker, the mutex free: ExportSpans gets the whole batch in one call, if it is not empty;
    the batch is empty afterwards, the mutex free again, and the worker goes where it came from.
   */
  lemma WorkerExports(c: Config, s: State)
    requires s.worker.Want? && s.flags.holder.Free? && !s.ledger.sent
    ensures var s2 := Next(c, Next(c, s, Work), Work);
      var (goal, s') := (s.worker.goal, if s.ledger.batch == [] then s2 else Next(c, s2, Work));
      && s'.ledger.calls == s.ledger.calls + (if s.ledger.batch == [] then [] else [s.ledger.batch])
      && s'.ledger == s.ledger.(calls := s'.ledger.calls, batch := []) && s'.callers == s.callers
      && s'.flags == s.flags
      && s'.worker == match goal case Loop => Select case Drain => DrainSelect case Finish => Done
  {
    var s1 := Next(c, s, Work);
    assert s1 == s.(worker := Locked(s.worker.goal), flags := s.flags.(holder := ByWorker));
  }

  /** One export by the goroutine of a ForceFlush: the same, and it remembers what ExportSpans returned. */
  lemma GoroutineExports(c: Config, s: State, id: nat, ok: bool)
    requires id in s.callers.exporters && s.callers.exporters[id].step.XWant? && s.flags.holder.Free?
    requires !s.ledger.sent
    ensures var s2 := Next(c, Next(c, s, Export(id, true)), Export(id, true));
      var s' := if s.ledger.batch == [] then s2 else Next(c, s2, Export(id, ok));
      && s'.ledger.calls == s.ledger.calls + (if s.ledger.batch == [] then [] else [s.ledger.batch])
      && s'.ledger == s.ledger.(calls := s'.ledger.calls, batch := []) && s'.worker == s.worker
      && s'.flags == s.flags && s'.callers.tasks == s.callers.tasks
      && id in s'.callers.exporters && s'.callers.exporters[id].mark == s.callers.exporters[id].mark
      && s'.callers.exporters[id].step == XDone(s.ledger.batch == [] || ok)
  {
    var s1 := Next(c, s, Export(id, true));
    assert s1 == WithStep(s, id, XLocked).(flags := s.flags.(holder := ByTask(id)));
  }
}

/** What one emit stores and signals, and what one scheduled export of the log processor does, exactly. */
module BatchSchedule {
  import opened Prelude
  import Q = LogQueue
  import opened BatchProcessor
  import opened BatchFlow
  import C = BatchFlush

  /** The records after one more, the oldest gone if there was no room. */
  function WithNewest(cap: int, items: seq<Record>, r: Record): seq<Record>
    requires cap >= 1
  {
    if |items| < cap then items + [r] else items[1..] + [r]
  }

  /**
    An emit past its look at the stop flag: a closed queue refuses its record; otherwise the record is queued,
    and the emit goes on to signal exactly when a batch is there then.
   */
  lemma EmitStores(b: nat, s: State, id: nat)
    requires id in s.callers.tasks && s.callers.tasks[id].EmitOpen? && s.ledger.t.q.cap >= 1
    requires |s.ledger.t.q.items| <= s.ledger.t.q.cap
    ensures var (r, q, s') := (s.callers.tasks[id].r, s.ledger.t.q, Next(b, s, Advance(id)));
      var items := WithNewest(q.cap, q.items, r);
      && id in s'.callers.tasks && s'.flags == s.flags && s'.worker == s.worker
      && if q.closed then s'.callers.tasks[id] == EmitDone(r, None) && s'.ledger == s.ledger
         else
           && s'.ledger.t.q.items == items && s'.ledger.t.accepted == s.ledger.t.accepted + [r]
           && (s'.callers.tasks[id].EmitSignal? <==> |items| >= b)
           && (s'.callers.tasks[id].EmitDone? <==> |items| < b)
  {}

  /** A signal leaves the token in the trigger, and the emit is over. */
  lemma EmitSignals(b: nat, s: State, id: nat)
    requires id in s.callers.tasks && s.callers.tasks[id].EmitSignal?
    ensures var s' := Next(b, s, Advance(id));
      s'.flags == s.flags.(trigger := true) && id in s'.callers.tasks && s'.callers.tasks[id].EmitDone?
      && s'.ledger == s.ledger && s'.worker == s.worker
  {}

  /** An emit sees the stop flag, and then nothing happens; otherwise it goes on. */
  lemma EmitLooks(b: nat, s: State, id: nat)
    requires id in s.callers.tasks && s.callers.tasks[id].EmitCalled?
    ensures var (r, s') := (s.callers.tasks[id].r, Next(b, s, Advance(id)));
      s' == WithTask(s, id, if s.flags.stopped then EmitDone(r, None) else EmitOpen(r))
  {}

  // ---------------------------------------------------------------- a scheduled export

  /** The worker has been woken and stands before the queue. */
  predicate Woke(s: State, s': State, trigger: bool)
  {
    && s'.worker == Take(Batch) && s'.callers == s.callers
    && s'.flags == s.flags.(trigger := s.flags.trigger && !trigger)
    && s'.ledger == s.ledger.(t := s'.ledger.t)
    && s'.ledger.t.q.items == s.ledger.t.q.items && s'.ledger.t.gone == s.ledger.t.gone
    && s'.ledger.t.accepted == s.ledger.t.accepted
    && s'.ledger.t.told == s.ledger.t.told + Max(0, s.ledger.t.q.dropped) && s'.ledger.t.q.dropped == 0
  }

  function Wake(trigger: bool): Label { if trigger then TakeTrigger else TimerFires }

  lemma Wakes(b: nat, s: State, trigger: bool)
    requires s.worker.Block? && (trigger ==> s.flags.trigger)
    ensures Woke(s, Next(b, Next(b, s, Wake(trigger)), Work(true)), trigger)
  {}

  /** With an empty queue there is nothing to do. */
  lemma NothingToExport(b: nat, s: State)
    requires b >= 1 && s.worker == Take(Batch) && s.ledger.t.q.items == []
    ensures var s' := Next(b, s, Work(true));
      s'.worker.Probe? && s'.ledger.calls == s.ledger.calls && s'.ledger.settled == s.ledger.settled
      && s'.ledger.t.q.items == [] && s'.flags == s.flags && s'.callers == s.callers
  {}

  /** The batch is taken. */
  predicate TookBatch(b: nat, s: State, s': State)
  {
    var (items, n) := (s.ledger.t.q.items, Min(b, |s.ledger.t.q.items|));
    && s'.worker == Test(Batch, items[..n], |items| - n, true) && s'.ledger.t.q.items == items[n..]
    && s'.ledger.calls == s.ledger.calls && s'.ledger.settled == s.ledger.settled
    && s'.flags == s.flags && s'.callers == s.callers
  }

  lemma TakesBatch(b: nat, s: State)
    requires b >= 1 && s.worker == Take(Batch) && s.ledger.t.q.items != []
    ensures TookBatch(b, s, Next(b, s, Work(true)))
  {}

  /** The batch, of at most b records, is exported with one call, and the trigger set if a batch remains. */
  predicate ExportedBatch(b: nat, batch: seq<Record>, remaining: nat, s: State, s': State)
  {
    && s'.worker.Probe? && s'.callers == s.callers
    && s'.flags == s.flags.(trigger := s.flags.trigger || remaining >= b)
    && s'.ledger.calls == s.ledger.calls + [ExportCall(batch)]
    && s'.ledger.settled == s.ledger.settled + Disposed(batch, Exported)
    && s'.ledger.t == s.ledger.t
  }

  lemma ExportsBatch(b: nat, s: State, ok: bool)
    requires b >= 1 && s.worker.Test? && s.worker.job.Batch? && 1 <= |s.worker.left| <= b
    ensures var w := Work(true);
      var s' := Next(b, Next(b, Next(b, Next(b, Next(b, s, w), Work(ok)), w), w), w);
      ExportedBatch(b, s.worker.left, s.worker.remaining, s, s')
  {
    var w := s.worker;
    var s1 := Next(b, s, Work(true));
    assert s1 == s.(worker := Send(Batch, w.left, w.remaining, w.ok));
    var s2 := Next(b, s1, Work(ok));
    assert w.left[..|w.left|] == w.left && w.left[|w.left|..] == [];
    assert s2.worker == Sent(Batch, [], w.remaining, w.ok && ok);
    assert s2.ledger.calls == s.ledger.calls + [ExportCall(w.left)];
    assert s2.ledger.settled == s.ledger.settled + Disposed(w.left, Exported);
    hide Sending, Disposed;
    var s3 := Next(b, s2, Work(true));
    assert s3.worker == Test(Batch, [], w.remaining, w.ok && ok);
    var s4 := Next(b, s3, Work(true));
    assert s4.worker == Finish(Batch, w.remaining, w.ok && ok);
  }

  /** The labels of such an export: the wake-up, and what the worker does until it is back at its first select. */
  function Round(trigger: bool, ok: bool): seq<Label>
  {
    [Wake(trigger), Work(true), Work(true), Work(true), Work(ok), Work(true), Work(true), Work(true)]
  }

  /**
    A worker that waits in its select is woken by its timer, or by the trigger: it hands the oldest
    min(b, length) records to Export with one call, whatever that returns, and puts the token back exactly
    when b or more remain.
   */
  lemma ScheduledExport(b: nat, s: State, trigger: bool, ok: bool)
    requires b >= 1 && s.worker.Block? && (trigger ==> s.flags.trigger) && s.ledger.t.q.items != []
    ensures var (items, n, s') := (s.ledger.t.q.items, Min(b, |s.ledger.t.q.items|), After(b, s, Round(trigger, ok)));
      && s'.worker.Probe? && s'.callers == s.callers
      && s'.ledger.calls == s.ledger.calls + [ExportCall(items[..n])] && s'.ledger.t.q.items == items[n..]
      && s'.ledger.settled == s.ledger.settled + Disposed(items[..n], Exported)
      && s'.flags.trigger == ((s.flags.trigger && !trigger) || |items| - n >= b)
      && s'.ledger.t.told == s.ledger.t.told + Max(0, s.ledger.t.q.dropped)
  {
    var w := Work(true);
    var s2 := Next(b, Next(b, s, Wake(trigger)), w);
    var s3 := Next(b, s2, w);
    Wakes(b, s, trigger);
    TakesBatch(b, s2);
    TakeTells(b, s2);
    ExportsBatch(b, s3, ok);
    EightSteps(b, s, Round(trigger, ok));
    hide Next, After, Disposed;
  }

  lemma TakeTells(b: nat, s: State)
    requires s.worker.Take?
    ensures Next(b, s, Work(true)).ledger.t.told == s.ledger.t.told
  {}

  lemma EightSteps(b: nat, s: State, ls: seq<Label>)
    requires |ls| == 8
    ensures After(b, s, ls) ==
      Next(b, Next(b, Next(b, Next(b, Next(b, Next(b, Next(b, Next(b, s,
        ls[0]), ls[1]), ls[2]), ls[3]), ls[4]), ls[5]), ls[6]), ls[7])
  {
    hide Next;
    FourSteps(b, s, ls[..4]);
    FourSteps(b, After(b, s, ls[..4]), ls[4..]);
    C.RunJoin(b, s, ls[..4], ls[4..]);
    hide After;
    assert ls[..4] + ls[4..] == ls;
  }

  lemma FourSteps(b: nat, s: State, ls: seq<Label>)
    requires |ls| == 4
    ensures After(b, s, ls) == Next(b, Next(b, Next(b, Next(b, s, ls[0]), ls[1]), ls[2]), ls[3])
  {
    hide Next;
    C.RunOne(b, s, [], ls[0]);
    C.RunOne(b, s, [ls[0]], ls[1]);
    C.RunOne(b, s, [ls[0], ls[1]], ls[2]);
    C.RunOne(b, s, [ls[0], ls[1], ls[2]], ls[3]);
    assert After(b, s, []) == s;
    hide After;
    assert [] + [ls[0]] == [ls[0]] && [ls[0]] + [ls[1]] == [ls[0], ls[1]];
    assert [ls[0], ls[1]] + [ls[2]] == [ls[0], ls[1], ls[2]] && [ls[0], ls[1], ls[2]] + [ls[3]] == ls;
  }
}

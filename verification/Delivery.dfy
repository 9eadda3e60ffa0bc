/** End-to-end delivery of log records: from the gate of the provider to the exporter. */
module Delivery {
  import opened Prelude
  import Q = LogQueue
  import B = BatchProcessor
  import F = BatchFlow
  import L = BatchLifecycle
  import N = BatchEmits
  import T = BatchTheorems
  import D = BatchLosses
  import C = BatchFlush
  import M = BatchBlame
  import opened LoggerProvider
  import opened ProviderRuns

  /** The first Shutdown of the provider returned nil. */
  predicate ShutDown(s: State, id: nat) { id in s.ops && s.ops[id] == StopReturned(true, true) }

  /** Moreover no ForceFlush has returned an error with its context cancelled; cancelling it later does no harm. */
  predicate Delivered(s: State, id: nat)
  {
    && ShutDown(s, id)
    && forall f :: f in s.p.callers.tasks && s.p.callers.tasks[f].FlushDone? && !s.p.callers.tasks[f].ok ==>
      s.p.callers.tasks[f].ctx !in s.p.callers.cancelled
  }

  /** A ForceFlush that lost a record has returned an error, and its context is cancelled. */
  predicate Told(c: B.Callers, job: B.Job)
  {
    && job.Flush? && job.ctx in c.cancelled && job.task in c.tasks
    && c.tasks[job.task].FlushDone? && !c.tasks[job.task].ok && c.tasks[job.task].ctx == job.ctx
  }

  /**
    After such a Shutdown no operation is active, every accepted record was evicted or settled, in order, and
    a record that Export did not get was lost for a ForceFlush that told its caller.
   */
  lemma AllSettled(b: nat, cap: nat, ls: seq<Label>, id: nat)
    requires b >= 1 && cap >= 1 && ShutDown(After(b, Init(cap), ls), id)
    ensures var s := After(b, Init(cap), ls);
      var l := s.p.ledger;
      && ActiveOps(s.ops) == {}
      && l.t.accepted == Q.Items(l.t.gone) && Q.RemovedItems(l.t.gone) == F.Records(l.settled)
      && F.Handed(l.calls) == F.ExportedOf(l.settled)
      && (forall i :: 0 <= i < |l.settled| && l.settled[i].how.Discarded? ==>
        Told(s.p.callers, l.settled[i].how.job))
  {
    var s := After(b, Init(cap), ls);
    RunOfProcessor(b, cap, ls);
    RunGate(b, cap, ls);
    RunCalls(b, cap, ls);
    assert CallFits(s.ops[id], s.p.callers.tasks[id]);
    T.ShutdownDelivers(b, cap, s.past, id);
    T.Accounting(b, cap, s.past);
    forall f | f in s.p.callers.tasks ensures !s.p.callers.tasks[f].FlushAwait? {
      assert CallFits(s.ops[f], s.p.callers.tasks[f]);
      assert f !in ActiveOps(s.ops);
    }
  }

  /** What was accepted and not evicted was handed to Export, each record once and in order; evictions are counted. */
  lemma AllDelivered(b: nat, cap: nat, ls: seq<Label>, id: nat)
    requires b >= 1 && cap >= 1 && Delivered(After(b, Init(cap), ls), id)
    ensures var s := After(b, Init(cap), ls);
      var l := s.p.ledger;
      && ActiveOps(s.ops) == {} && T.NoneLost(l.settled)
      && l.t.accepted == Q.Items(l.t.gone) && F.Handed(l.calls) == Q.RemovedItems(l.t.gone)
      && Q.Tallies(l.t.told, l.t.q.dropped, Q.Evictions(l.t.gone))
  {
    var s := After(b, Init(cap), ls);
    AllSettled(b, cap, ls, id);
    RunOfProcessor(b, cap, ls);
    T.Accounting(b, cap, s.past);
    forall i | 0 <= i < |s.p.ledger.settled| ensures s.p.ledger.settled[i].how.Exported? {}
    T.NoneLostExported(s.p.ledger.settled);
  }

  /** Every emit that passed the gate has stored its record by then. */
  lemma EmitsStored(b: nat, cap: nat, ls: seq<Label>, id: nat, e: nat)
    requires b >= 1 && cap >= 1 && ShutDown(After(b, Init(cap), ls), id)
    requires var s := After(b, Init(cap), ls); e in s.p.callers.tasks && RecordOf(s.p.callers.tasks[e]).Some?
    ensures var s := After(b, Init(cap), ls);
      var (l, at) := (s.p.ledger, N.StoredAt(s.p.callers.tasks[e]));
      && at.Some? && at.value < |l.t.gone| == |l.owner|
      && l.owner[at.value] == e && Some(l.t.gone[at.value].item) == RecordOf(s.p.callers.tasks[e])
  {
    var s := After(b, Init(cap), ls);
    AllSettled(b, cap, ls, id);
    RunCalls(b, cap, ls);
    RunOfProcessor(b, cap, ls);
    N.RunEmits(b, cap, s.past);
    var task := s.p.callers.tasks[e];
    assert CallFits(s.ops[e], task) && N.EmitFits(s.p.ledger, s.p.flags.stopped, e, task);
    assert e !in ActiveOps(s.ops);
  }

  /** The record of an emit, wherever it stands. */
  function RecordOf(task: B.Task): Option<B.Record>
  {
    match task
    case EmitCalled(r) => Some(r)
    case EmitOpen(r) => Some(r)
    case EmitSignal(r, _) => Some(r)
    case EmitDone(r, _) => Some(r)
    case _ => None
  }

  lemma RecordKept(b: nat, p: B.State, l: B.Label, e: nat)
    requires e in p.callers.tasks
    ensures var tasks := B.Next(b, p, l).callers.tasks;
      e in tasks && RecordOf(tasks[e]) == RecordOf(p.callers.tasks[e])
  {
    hide B.Worked, B.Advanced;
    if l.Advance? { AdvanceKept(b, p, l.id, e); } else if l.Work? { WorkerCalls(b, p, l.ok); }
  }

  lemma AdvanceKept(b: nat, p: B.State, id: nat, e: nat)
    requires e in p.callers.tasks
    ensures var tasks := B.Advanced(b, p, id).callers.tasks;
      e in tasks && RecordOf(tasks[e]) == RecordOf(p.callers.tasks[e])
  {}

  /** An emit that passes the gate is in the processor from then on, with its record. */
  lemma {:induction false} Admitted(b: nat, s: State, e: nat, r: B.Record, more: seq<Label>)
    requires e !in s.ops && e !in s.p.callers.tasks && !s.gate.stopped
    ensures var tasks := After(b, Next(b, s, Begin(e, Some(B.EmitCalled(r)))), more).p.callers.tasks;
      e in tasks && RecordOf(tasks[e]) == Some(r)
  {
    if |more| == 0 {
    } else {
      var init := more[..|more| - 1];
      Admitted(b, s, e, r, init);
      var mid := After(b, Next(b, s, Begin(e, Some(B.EmitCalled(r)))), init);
      OuterKept(b, mid, more[|more| - 1], e);
    }
  }

  lemma OuterKept(b: nat, s: State, l: Label, e: nat)
    requires e in s.p.callers.tasks
    ensures var tasks := Next(b, s, l).p.callers.tasks;
      e in tasks && RecordOf(tasks[e]) == RecordOf(s.p.callers.tasks[e])
  {
    var s' := Next(b, s, l);
    if s'.past != s.past { RecordKept(b, s.p, s'.past[|s.past|], e); }
    hide B.Next, RecordOf;
    assert s'.past == s.past ==> s'.p == s.p;
  }

  lemma {:induction false} AfterSplit(b: nat, s: State, ls: seq<Label>, more: seq<Label>)
    ensures After(b, s, ls + more) == After(b, After(b, s, ls), more)
  {
    if |more| == 0 {
      assert ls + more == ls;
    } else {
      AfterSplit(b, s, ls, more[..|more| - 1]);
      assert (ls + more)[..|ls + more| - 1] == ls + more[..|more| - 1];
    }
  }

  /** Record r stands at place at among those accepted, and emit e put it there. */
  predicate StoredBy(l: B.Ledger, at: nat, e: nat, r: B.Record)
  {
    at < |l.t.gone| == |l.owner| && l.owner[at] == e && l.t.gone[at].item == r
  }

  /**
    What becomes of one record: once the first Shutdown has returned nil, a record whose emit passed the gate
    was evicted, or Export got it, in its place among the records exported, or it was lost for a ForceFlush
    that told its caller.
   */
  lemma EveryRecordSettled(b: nat, cap: nat, ls: seq<Label>, e: nat, r: B.Record, more: seq<Label>, id: nat)
    requires b >= 1 && cap >= 1
    requires var s := After(b, Init(cap), ls); e !in s.ops && !s.gate.stopped
    requires ShutDown(After(b, Init(cap), ls + [Begin(e, Some(B.EmitCalled(r)))] + more), id)
    ensures var s := After(b, Init(cap), ls + [Begin(e, Some(B.EmitCalled(r)))] + more);
      var l := s.p.ledger;
      && e in s.p.callers.tasks && N.StoredAt(s.p.callers.tasks[e]).Some?
      && var at := N.StoredAt(s.p.callers.tasks[e]).value;
        && StoredBy(l, at, e, r)
        && (l.t.gone[at].fate == Q.Removed ==>
          var place := |Q.RemovedItems(l.t.gone[..at])|;
          && place < |l.settled| && l.settled[place].r == r
          && match l.settled[place].how
             case Exported =>
               var sent := |F.ExportedOf(l.settled[..place])|;
               sent < |F.Handed(l.calls)| && F.Handed(l.calls)[sent] == r
             case Discarded(job) => Told(s.p.callers, job))
  {
    var begin := Begin(e, Some(B.EmitCalled(r)));
    var s0, all := After(b, Init(cap), ls), ls + [begin] + more;
    RunCalls(b, cap, ls);
    AfterSplit(b, Init(cap), ls + [begin], more);
    assert (ls + [begin])[..|ls|] == ls;
    Admitted(b, s0, e, r, more);
    EmitsStored(b, cap, all, id, e);
    AllSettled(b, cap, all, id);
    var s := After(b, Init(cap), all);
    var l, at := s.p.ledger, N.StoredAt(s.p.callers.tasks[e]).value;
    if l.t.gone[at].fate == Q.Removed {
      PlaceAmongRemoved(l.t.gone, at);
      var place := |Q.RemovedItems(l.t.gone[..at])|;
      if l.settled[place].how.Exported? { PlaceAmongExported(l.settled, place); }
    }
  }

  lemma {:induction false} PlaceAmongExported(settled: seq<B.Settled>, place: nat)
    requires place < |settled| && settled[place].how.Exported?
    ensures var sent := |F.ExportedOf(settled[..place])|;
      sent < |F.ExportedOf(settled)| && F.ExportedOf(settled)[sent] == settled[place].r
  {
    var init := settled[..|settled| - 1];
    if place < |settled| - 1 {
      PlaceAmongExported(init, place);
      assert init[..place] == settled[..place];
    }
  }

  /**
    The end-to-end promise for one record: once the first Shutdown has returned nil, and no ForceFlush has
    returned an error with its context cancelled, a record whose emit passed the gate was evicted, or Export
    got it, exactly in its place among the records not evicted.
   */
  lemma EveryRecordDelivered(b: nat, cap: nat, ls: seq<Label>, e: nat, r: B.Record, more: seq<Label>, id: nat)
    requires b >= 1 && cap >= 1
    requires var s := After(b, Init(cap), ls); e !in s.ops && !s.gate.stopped
    requires Delivered(After(b, Init(cap), ls + [Begin(e, Some(B.EmitCalled(r)))] + more), id)
    ensures var s := After(b, Init(cap), ls + [Begin(e, Some(B.EmitCalled(r)))] + more);
      var l := s.p.ledger;
      && e in s.p.callers.tasks && N.StoredAt(s.p.callers.tasks[e]).Some?
      && var at := N.StoredAt(s.p.callers.tasks[e]).value;
        && StoredBy(l, at, e, r)
        && (l.t.gone[at].fate == Q.Removed ==>
          var place := |Q.RemovedItems(l.t.gone[..at])|;
          place < |F.Handed(l.calls)| && F.Handed(l.calls)[place] == r)
  {
    var all := ls + [Begin(e, Some(B.EmitCalled(r)))] + more;
    EveryRecordSettled(b, cap, ls, e, r, more, id);
    AllDelivered(b, cap, all, id);
    var s := After(b, Init(cap), all);
    var at := N.StoredAt(s.p.callers.tasks[e]).value;
    if s.p.ledger.t.gone[at].fate == Q.Removed { PlaceAmongRemoved(s.p.ledger.t.gone, at); }
  }

  /** No ForceFlush context was cancelled at all: one way to meet the condition. */
  lemma NoneCancelledDelivers(b: nat, cap: nat, ls: seq<Label>, id: nat)
    requires var s := After(b, Init(cap), ls); ShutDown(s, id) && s.p.callers.flushCtxs !! s.p.callers.cancelled
    ensures Delivered(After(b, Init(cap), ls), id)
  {
    RunOfProcessor(b, cap, ls);
    M.NoneCancelledIsKept(b, cap, After(b, Init(cap), ls).past);
  }

  lemma {:induction false} PlaceAmongRemoved<X>(gone: seq<Q.Gone<X>>, at: nat)
    requires at < |gone| && gone[at].fate == Q.Removed
    ensures var place := |Q.RemovedItems(gone[..at])|;
      place < |Q.RemovedItems(gone)| && Q.RemovedItems(gone)[place] == gone[at].item
  {
    var init := gone[..|gone| - 1];
    if at < |gone| - 1 {
      PlaceAmongRemoved(init, at);
      assert init[..at] == gone[..at];
    }
  }

  // ---------------------------------------------------------------- ForceFlush

  /** A flush that passes the gate is in the processor from then on, with what it must cover. */
  lemma {:induction false} FlushAdmitted(b: nat, s: State, id: nat, ctx: nat, more: seq<Label>)
    requires id !in s.ops && id !in s.p.callers.tasks && !s.gate.stopped
    ensures var s' := After(b, Next(b, s, Begin(id, Some(B.FlushCalled(ctx, 0)))), more);
      var tasks := s'.p.callers.tasks;
      && id in tasks && C.MarkOf(tasks[id]) == Some(|s.p.ledger.t.accepted|)
      && D.Grew(s.p.ledger, s'.p.ledger)
  {
    if |more| == 0 {
    } else {
      var init := more[..|more| - 1];
      FlushAdmitted(b, s, id, ctx, init);
      var mid := After(b, Next(b, s, Begin(id, Some(B.FlushCalled(ctx, 0)))), init);
      MarkStays(b, mid, more[|more| - 1], id);
      hide D.Grew, Next;
      C.GrewOn(s.p.ledger, mid.p.ledger, Next(b, mid, more[|more| - 1]).p.ledger);
    }
  }

  lemma MarkStays(b: nat, s: State, l: Label, id: nat)
    requires id in s.p.callers.tasks
    ensures var (p, p') := (s.p, Next(b, s, l).p);
      && id in p'.callers.tasks && C.MarkOf(p'.callers.tasks[id]) == C.MarkOf(p.callers.tasks[id])
      && D.Grew(p.ledger, p'.ledger)
  {
    var s' := Next(b, s, l);
    if s'.past != s.past {
      C.MarkKept(b, s.p, s'.past[|s.past|], id);
      D.NextGrows(b, s.p, s'.past[|s.past|]);
    }
    hide B.Next, C.MarkOf;
    assert s'.past == s.past ==> s'.p == s.p;
  }

  /**
    LoggerProvider.ForceFlush passed the gate and returned nil: each record accepted before the call has left
    the queue, and was evicted, exported, or given up by a call whose context was cancelled.  Whether
    Shutdown has been called meanwhile does not matter.
   */
  lemma EveryFlushCovers(b: nat, cap: nat, ls: seq<Label>, id: nat, ctx: nat, more: seq<Label>)
    requires b >= 1 && cap >= 1
    requires var s := After(b, Init(cap), ls); id !in s.ops && !s.gate.stopped
    requires var p := After(b, Init(cap), ls + [Begin(id, Some(B.FlushCalled(ctx, 0)))] + more).p;
      id in p.callers.tasks && p.callers.tasks[id].FlushDone? && p.callers.tasks[id].ok
    ensures var p := After(b, Init(cap), ls + [Begin(id, Some(B.FlushCalled(ctx, 0)))] + more).p;
      C.Covers(p.ledger, After(b, Init(cap), ls).p.ledger.t.accepted) && C.LostByCancel(p)
  {
    var begin := Begin(id, Some(B.FlushCalled(ctx, 0)));
    var s0, all := After(b, Init(cap), ls), ls + [begin] + more;
    RunCalls(b, cap, ls);
    AfterSplit(b, Init(cap), ls + [begin], more);
    assert (ls + [begin])[..|ls|] == ls;
    FlushAdmitted(b, s0, id, ctx, more);
    RunCalls(b, cap, all);
    RunOfProcessor(b, cap, all);
    var s := After(b, Init(cap), all);
    assert CallFits(s.ops[id], s.p.callers.tasks[id]);
    C.AnsweredCovers(b, cap, s.past, id);
    C.LostOnlyByCancel(b, cap, s.past);
  }
}

/** The promises of the log processor, put together for every run. */
module BatchTheorems {
  import opened Prelude
  import Q = LogQueue
  import opened BatchProcessor
  import opened BatchFlow
  import opened BatchLifecycle
  import opened BatchAnswers
  import opened BatchLosses
  import opened BatchBlame

  /** No record that the worker took has been given up. */
  ghost predicate NoneLost(settled: seq<Settled>)
  {
    forall i :: 0 <= i < |settled| ==> settled[i].how.Exported?
  }

  lemma {:induction false} NoneLostExported(settled: seq<Settled>)
    requires NoneLost(settled)
    ensures ExportedOf(settled) == Records(settled)
  {
    if |settled| == 0 {
    } else {
      var init := settled[..|settled| - 1];
      NoneLostExported(init);
      assert Records(settled) == Records(init) + [settled[|settled| - 1].r];
    }
  }

  /**
    At any time the accepted records are, in order, those that left the queue and those in it; those
    that were removed are, in order, the settled ones and those in the worker's hands; and the records
    handed to Export, call after call and at most b at a time, are the settled ones not discarded.
   */
  lemma Accounting(b: nat, cap: nat, ls: seq<Label>)
    requires b >= 1 && cap >= 1
    ensures var s := After(b, Init(cap), ls);
      var l := s.ledger;
      && l.t.accepted == Q.Items(l.t.gone) + l.t.q.items
      && Q.RemovedItems(l.t.gone) == Records(l.settled) + Held(s.worker)
      && Handed(l.calls) == ExportedOf(l.settled)
      && (forall i :: 0 <= i < |l.calls| && l.calls[i].ExportCall? ==> 1 <= |l.calls[i].chunk| <= b)
      && Q.Tallies(l.t.told, l.t.q.dropped, Q.Evictions(l.t.gone))
  {
    RunFlow(b, cap, ls);
  }

  /** Once the final flush has run, nothing enters or leaves the queue again. */
  lemma EmptiedNext(b: nat, s: State, l: Label)
    requires Life(s) && Emptied(s.worker)
    ensures var s' := Next(b, s, l);
      && Emptied(s'.worker) && s'.ledger.t.q.items == []
      && s'.ledger.t.accepted == s.ledger.t.accepted && s'.ledger.t.gone == s.ledger.t.gone
  {
    hide OneWinner;
  }

  lemma {:induction false} EmptyForGood(b: nat, cap: nat, ls: seq<Label>, more: seq<Label>)
    requires Emptied(After(b, Init(cap), ls).worker)
    ensures var (s, s') := (After(b, Init(cap), ls), After(b, Init(cap), ls + more));
      && s'.ledger.t.q.items == [] && Emptied(s'.worker)
      && s'.ledger.t.accepted == s.ledger.t.accepted && s'.ledger.t.gone == s.ledger.t.gone
  {
    if |more| == 0 {
      assert ls + more == ls;
      RunLife(b, cap, ls);
    } else {
      var init := more[..|more| - 1];
      EmptyForGood(b, cap, ls, init);
      assert (ls + more)[..|ls + more| - 1] == ls + init;
      RunLife(b, cap, ls + init);
      EmptiedNext(b, After(b, Init(cap), ls + init), more[|more| - 1]);
    }
  }

  /**
    The Shutdown call that stopped the processor returned nil: the queue is closed and empty, the worker
    is gone, and every record that was removed was exported or given up for a ForceFlush that is told so.
   */
  lemma ShutdownDelivers(b: nat, cap: nat, ls: seq<Label>, id: nat)
    requires b >= 1 && cap >= 1
    requires var tasks := After(b, Init(cap), ls).callers.tasks;
      id in tasks && tasks[id].StopDone? && tasks[id].ok && tasks[id].won
    ensures var s := After(b, Init(cap), ls);
      var l := s.ledger;
      && s.worker.Exited? && l.t.q.closed
      && l.t.accepted == Q.Items(l.t.gone) && Q.RemovedItems(l.t.gone) == Records(l.settled)
      && (forall i :: 0 <= i < |l.settled| && l.settled[i].how.Discarded? ==>
        && l.settled[i].how.job.Flush? && l.settled[i].how.job.ctx in s.callers.cancelled * s.callers.flushCtxs
        && Reported(s.callers, l.settled[i].how.job))
  {
    var s := After(b, Init(cap), ls);
    RunFlow(b, cap, ls);
    RunLife(b, cap, ls);
    RunOpen(b, cap, ls);
    RunLosses(b, cap, ls);
    RunAnswered(b, cap, ls);
    assert TaskFits(|s.ledger.t.accepted|, s.callers.flushCtxs, s.callers.responses, id, s.callers.tasks[id]);
    forall i | 0 <= i < |s.ledger.settled| && FlushLost(s.ledger.settled[i])
      ensures Reported(s.callers, s.ledger.settled[i].how.job)
    {
      LostIsReported(b, cap, ls, i);
    }
  }

  /** Only an exited worker has answered a Shutdown. */
  ghost predicate ShutdownAnswered(s: State)
  {
    forall id :: id in s.callers.responses && s.callers.responses[id].job.Shutdown? ==>
      s.worker.Exited? && s.flags.stopper == Some(id)
  }

  lemma NextAnswered(b: nat, s: State, l: Label)
    requires ShutdownAnswered(s) && Life(s)
    ensures ShutdownAnswered(Next(b, s, l))
  {
    hide OneWinner, Stage, Worked;
    if l.Work? { WorkAnswered(b, s, l.ok); }
  }

  lemma WorkAnswered(b: nat, s: State, ok: bool)
    requires ShutdownAnswered(s) && Life(s)
    ensures ShutdownAnswered(Worked(b, s, ok))
  {
    hide OneWinner, Stage, Taking, Chunking, Sending, Finishing;
    if s.worker.Take? || s.worker.Test? || s.worker.Sent? || s.worker.Send? || s.worker.Finish? {
      SameAnswers(b, s, ok);
    }
  }

  lemma SameAnswers(b: nat, s: State, ok: bool)
    requires s.worker.Take? || s.worker.Test? || s.worker.Sent? || s.worker.Send? || s.worker.Finish?
    ensures var s' := Worked(b, s, ok);
      s'.callers.responses == s.callers.responses && s'.flags.stopper == s.flags.stopper
  {}

  lemma {:induction false} RunAnswered(b: nat, cap: nat, ls: seq<Label>)
    ensures ShutdownAnswered(After(b, Init(cap), ls))
  {
    if |ls| == 0 {
    } else {
      RunAnswered(b, cap, ls[..|ls| - 1]);
      RunLife(b, cap, ls[..|ls| - 1]);
      NextAnswered(b, After(b, Init(cap), ls[..|ls| - 1]), ls[|ls| - 1]);
    }
  }

  /** If moreover no ForceFlush failed with its context cancelled, Export got every accepted record not evicted. */
  lemma ShutdownExportsAll(b: nat, cap: nat, ls: seq<Label>, id: nat)
    requires b >= 1 && cap >= 1
    requires var c := After(b, Init(cap), ls).callers;
      id in c.tasks && c.tasks[id].StopDone? && c.tasks[id].ok && c.tasks[id].won && FlushesKept(c)
    ensures var l := After(b, Init(cap), ls).ledger;
      && l.t.accepted == Q.Items(l.t.gone)
      && Handed(l.calls) == Q.RemovedItems(l.t.gone)
  {
    var s := After(b, Init(cap), ls);
    ShutdownDelivers(b, cap, ls, id);
    Accounting(b, cap, ls);
    forall i | 0 <= i < |s.ledger.settled| ensures s.ledger.settled[i].how.Exported? {
      if s.ledger.settled[i].how.Discarded? { KeptNotReported(s.callers, s.ledger.settled[i].how.job); }
    }
    NoneLostExported(s.ledger.settled);
  }
}

/** What a nil from ForceFlush of the log processor says about the records accepted before the call. */
module BatchFlush {
  import opened Prelude
  import Q = LogQueue
  import opened BatchProcessor
  import opened BatchFlow
  import opened BatchLifecycle
  import opened BatchAnswers
  import opened BatchLosses
  import T = BatchTheorems

  /** The records of first have left the queue, and those of them that were not evicted are settled. */
  ghost predicate Covers(l: Ledger, first: seq<Record>)
  {
    && |first| <= |l.t.gone| && Q.Items(l.t.gone[..|first|]) == first
    && Q.RemovedItems(l.t.gone[..|first|]) <= Records(l.settled)
  }

  /** Only a call whose context was cancelled has given up records. */
  ghost predicate LostByCancel(s: State)
  {
    forall i :: 0 <= i < |s.ledger.settled| && s.ledger.settled[i].how.Discarded? ==>
      !s.ledger.settled[i].how.job.Batch? && s.ledger.settled[i].how.job.ctx in s.callers.cancelled
  }

  lemma CoversByMark(b: nat, l: Ledger, w: Worker, mark: nat)
    requires Flow(b, l, w) && Covered(l, mark) && mark <= |l.t.accepted|
    ensures Covers(l, l.t.accepted[..mark])
  {
    RemovedPrefix(l.t.gone, mark);
    CoveredSettled(Q.RemovedItems(l.t.gone[..mark]), Q.RemovedItems(l.t.gone), Records(l.settled), Held(w));
    assert Q.Items(l.t.gone[..mark]) == Q.Items(l.t.gone)[..mark];
  }

  lemma CoveredSettled<T>(part: seq<T>, all: seq<T>, settled: seq<T>, held: seq<T>)
    requires part <= all == settled + held && |part| <= |settled|
    ensures part <= settled
  {
    assert part == all[..|part|] == settled[..|part|];
  }

  lemma {:induction false} RemovedPrefix<T>(gone: seq<Q.Gone<T>>, k: nat)
    requires k <= |gone|
    ensures Q.RemovedItems(gone[..k]) <= Q.RemovedItems(gone)
  {
    if k == |gone| {
      assert gone[..k] == gone;
    } else {
      RemovedPrefix(gone[..|gone| - 1], k);
      assert gone[..|gone| - 1][..k] == gone[..k];
    }
  }

  // ---------------------------------------------------------------- what no step takes back

  lemma GrewCoversFirst(l: Ledger, l': Ledger, first: seq<Record>)
    requires Grew(l, l') && Covers(l, first)
    ensures Covers(l', first)
  {
    var n := |first|;
    assert l'.t.gone[..n] == l'.t.gone[..|l.t.gone|][..n] == l.t.gone[..n];
    assert Records(l'.settled)[..|l.settled|] == Records(l'.settled[..|l.settled|]);
  }

  lemma GrewOn(a: Ledger, b: Ledger, c: Ledger)
    requires Grew(a, b) && Grew(b, c)
    ensures Grew(a, c)
  {
    assert c.t.gone[..|a.t.gone|] == c.t.gone[..|b.t.gone|][..|a.t.gone|];
    assert c.settled[..|a.settled|] == c.settled[..|b.settled|][..|a.settled|];
    assert c.t.accepted[..|a.t.accepted|] == c.t.accepted[..|b.t.accepted|][..|a.t.accepted|];
    assert c.owner[..|a.owner|] == c.owner[..|b.owner|][..|a.owner|];
  }

  lemma {:induction false} RunGrows(b: nat, s: State, ls: seq<Label>)
    ensures Grew(s.ledger, After(b, s, ls).ledger)
  {
    if |ls| == 0 {
    } else {
      var mid := After(b, s, ls[..|ls| - 1]);
      RunGrows(b, s, ls[..|ls| - 1]);
      NextGrows(b, mid, ls[|ls| - 1]);
      hide Next, Grew;
      GrewOn(s.ledger, mid.ledger, After(b, s, ls).ledger);
    }
  }

  lemma {:induction false} RunJoin(b: nat, s: State, ls: seq<Label>, more: seq<Label>)
    ensures After(b, s, ls + more) == After(b, After(b, s, ls), more)
  {
    hide Next;
    if |more| == 0 {
      assert ls + more == ls;
    } else {
      RunJoin(b, s, ls, more[..|more| - 1]);
      assert (ls + more)[..|ls + more| - 1] == ls + more[..|more| - 1];
    }
  }

  lemma RunOne(b: nat, s: State, ls: seq<Label>, l: Label)
    ensures After(b, s, ls + [l]) == Next(b, After(b, s, ls), l)
  {
    assert (ls + [l])[..|ls|] == ls;
  }

  // ---------------------------------------------------------------- the call and its mark

  /** What a flush must cover, wherever it stands. */
  function MarkOf(task: Task): Option<nat>
  {
    match task
    case FlushCalled(_, mark) => Some(mark)
    case FlushOpen(_, mark) => Some(mark)
    case FlushOffer(_, mark) => Some(mark)
    case FlushAwait(_, mark) => Some(mark)
    case FlushDone(_, mark, _, _) => Some(mark)
    case _ => None
  }

  lemma MarkKept(b: nat, s: State, l: Label, id: nat)
    requires id in s.callers.tasks
    ensures var tasks := Next(b, s, l).callers.tasks; id in tasks && MarkOf(tasks[id]) == MarkOf(s.callers.tasks[id])
  {
    hide Worked, Advanced;
    if l.Advance? { AdvanceMark(b, s, l.id, id); }
    if l.Work? { WorkTasks(b, s, l.ok); }
  }

  lemma AdvanceMark(b: nat, s: State, x: nat, id: nat)
    requires id in s.callers.tasks
    ensures var tasks := Advanced(b, s, x).callers.tasks;
      id in tasks && MarkOf(tasks[id]) == MarkOf(s.callers.tasks[id])
  {}

  lemma WorkTasks(b: nat, s: State, ok: bool)
    ensures Worked(b, s, ok).callers.tasks == s.callers.tasks && Worked(b, s, ok).flags.stopped == s.flags.stopped
  {}

  lemma {:induction false} RunMark(b: nat, s: State, ls: seq<Label>, id: nat)
    requires id in s.callers.tasks
    ensures var tasks := After(b, s, ls).callers.tasks; id in tasks && MarkOf(tasks[id]) == MarkOf(s.callers.tasks[id])
  {
    if |ls| == 0 {
    } else {
      RunMark(b, s, ls[..|ls| - 1], id);
      MarkKept(b, After(b, s, ls[..|ls| - 1]), ls[|ls| - 1], id);
    }
  }

  /** A flush got its nil from the worker, unless the processor is stopped. */
  ghost predicate NilAnswered(s: State)
  {
    forall id :: id in s.callers.tasks && s.callers.tasks[id].FlushDone? && s.callers.tasks[id].ok ==>
      s.callers.tasks[id].answered || s.flags.stopped
  }

  lemma NextNil(b: nat, s: State, l: Label)
    requires NilAnswered(s) && (s.flags.done ==> s.flags.stopped)
    ensures NilAnswered(Next(b, s, l))
  {
    hide Worked, Advanced;
    if l.Advance? { AdvanceNil(b, s, l.id); }
    if l.Work? { WorkTasks(b, s, l.ok); }
  }

  lemma AdvanceNil(b: nat, s: State, id: nat)
    requires NilAnswered(s)
    ensures NilAnswered(Advanced(b, s, id))
  {}

  lemma {:induction false} RunNil(b: nat, cap: nat, ls: seq<Label>)
    ensures NilAnswered(After(b, Init(cap), ls))
  {
    if |ls| == 0 {
    } else {
      var s := After(b, Init(cap), ls[..|ls| - 1]);
      RunNil(b, cap, ls[..|ls| - 1]);
      RunLife(b, cap, ls[..|ls| - 1]);
      if s.flags.done { DoneIsStopped(s); }
      hide Life;
      NextNil(b, s, ls[|ls| - 1]);
    }
  }

  // ---------------------------------------------------------------- what nil promises

  /** A flush that the worker answered with nil covers the records accepted when it began. */
  lemma AnsweredCovers(b: nat, cap: nat, ls: seq<Label>, id: nat)
    requires b >= 1 && cap >= 1
    requires var tasks := After(b, Init(cap), ls).callers.tasks;
      id in tasks && tasks[id].FlushDone? && tasks[id].ok && tasks[id].answered
    ensures var s := After(b, Init(cap), ls);
      var mark := s.callers.tasks[id].mark;
      mark <= |s.ledger.t.accepted| && Covers(s.ledger, s.ledger.t.accepted[..mark])
  {
    var s := After(b, Init(cap), ls);
    var (l, task) := (s.ledger, s.callers.tasks[id]);
    RunFlow(b, cap, ls);
    RunOpen(b, cap, ls);
    RunCover(b, cap, ls);
    assert TaskFits(|l.t.accepted|, s.callers.flushCtxs, s.callers.responses, id, task);
    assert Covered(l, task.mark);
    CoversByMark(b, l, s.worker, task.mark);
  }

  lemma LostOnlyByCancel(b: nat, cap: nat, ls: seq<Label>)
    ensures LostByCancel(After(b, Init(cap), ls))
  {
    RunLosses(b, cap, ls);
  }

  /** The beginning of a call: it notes what it must cover. */
  lemma Begins(b: nat, cap: nat, ls: seq<Label>, id: nat, ctx: nat, more: seq<Label>)
    requires id !in After(b, Init(cap), ls).callers.tasks
    ensures var (s, enter) := (After(b, Init(cap), ls), Enter(id, FlushCalled(ctx, 0)));
      var s' := After(b, Init(cap), ls + [enter] + more);
      && s' == After(b, Next(b, s, enter), more) && Grew(s.ledger, s'.ledger)
      && id in s'.callers.tasks && MarkOf(s'.callers.tasks[id]) == Some(|s.ledger.t.accepted|)
  {
    var s, enter := After(b, Init(cap), ls), Enter(id, FlushCalled(ctx, 0));
    RunOne(b, Init(cap), ls, enter);
    RunJoin(b, Init(cap), ls + [enter], more);
    RunGrows(b, Next(b, s, enter), more);
    RunMark(b, Next(b, s, enter), more, id);
  }

  /**
    ForceFlush returned nil and Shutdown has not begun: each record accepted before the call has left the
    queue, and was evicted, exported, or given up by a call whose context was cancelled.
   */
  lemma FlushDelivers(b: nat, cap: nat, ls: seq<Label>, id: nat, ctx: nat, more: seq<Label>)
    requires b >= 1 && cap >= 1 && id !in After(b, Init(cap), ls).callers.tasks
    requires var s' := After(b, Init(cap), ls + [Enter(id, FlushCalled(ctx, 0))] + more);
      id in s'.callers.tasks && s'.callers.tasks[id].FlushDone? && s'.callers.tasks[id].ok && !s'.flags.stopped
    ensures var s' := After(b, Init(cap), ls + [Enter(id, FlushCalled(ctx, 0))] + more);
      Covers(s'.ledger, After(b, Init(cap), ls).ledger.t.accepted) && LostByCancel(s')
  {
    var all := ls + [Enter(id, FlushCalled(ctx, 0))] + more;
    Begins(b, cap, ls, id, ctx, more);
    RunNil(b, cap, all);
    AnsweredCovers(b, cap, all, id);
    LostOnlyByCancel(b, cap, all);
  }

  /** Nothing is queued and nothing in the worker's hands: everything accepted is covered. */
  lemma NothingLeft(b: nat, l: Ledger, w: Worker)
    requires Flow(b, l, w)
    ensures Covers(l, l.t.accepted) <==> l.t.q.items == [] && Held(w) == []
  {
    var n := |l.t.accepted|;
    assert n == |l.t.gone| + |l.t.q.items|;
    if n == |l.t.gone| {
      assert l.t.gone[..n] == l.t.gone && Q.Items(l.t.gone) + [] == Q.Items(l.t.gone);
      assert |Q.RemovedItems(l.t.gone)| == |Records(l.settled)| + |Held(w)|;
    }
  }

  /** Through `done` a flush returns nil when all records ever accepted are covered, and none follow. */
  lemma DoneFlushCovers(b: nat, cap: nat, ls: seq<Label>, id: nat, more: seq<Label>)
    requires b >= 1 && cap >= 1
    requires var s := After(b, Init(cap), ls); Offers(s, id) && s.flags.done
    ensures var (s1, s') := (After(b, Init(cap), ls + [SeeDone(id)]), After(b, Init(cap), ls + [SeeDone(id)] + more));
      && id in s1.callers.tasks && s1.callers.tasks[id].FlushDone? && s1.callers.tasks[id].ok
      && Covers(s1.ledger, s'.ledger.t.accepted) && LostByCancel(s1)
  {
    var s, one := After(b, Init(cap), ls), ls + [SeeDone(id)];
    RunOne(b, Init(cap), ls, SeeDone(id));
    RunLife(b, cap, one);
    RunFlow(b, cap, one);
    LostOnlyByCancel(b, cap, one);
    var s1 := After(b, Init(cap), one);
    assert s1 == DoneSeen(s, id) && s1.flags.done;
    DoneIsStopped(s1);
    NothingLeft(b, s1.ledger, s1.worker);
    T.EmptyForGood(b, cap, one, more);
  }

  // ---------------------------------------------------------------- when nil promises nothing

  /** ForceFlush call id begins in s, returns nil, and a record accepted before it is not covered. */
  ghost predicate Misses(b: nat, s: State, id: nat, ctx: nat, more: seq<Label>)
  {
    var s' := After(b, Next(b, s, Enter(id, FlushCalled(ctx, 0))), more);
    && id in s'.callers.tasks && s'.callers.tasks[id].FlushDone? && s'.callers.tasks[id].ok
    && !Covers(s'.ledger, s.ledger.t.accepted)
  }

  lemma StopBegins(b: nat, s: State, x: nat)
    requires x !in s.callers.tasks && !s.flags.stopped
    ensures var s' := Next(b, Next(b, s, Enter(x, StopCalled(0))), Advance(x));
      && s'.callers.tasks == s.callers.tasks[x := StopWon(0)] && s'.ledger == s.ledger
      && s'.flags.stopped && s'.worker == s.worker
  {
    var s1 := Next(b, s, Enter(x, StopCalled(0)));
    assert s1.callers.tasks == s.callers.tasks[x := StopCalled(0)] && s1.flags == s.flags && s1.ledger == s.ledger;
    assert s1.callers.tasks[x := StopWon(0)] == s.callers.tasks[x := StopWon(0)];
  }

  /** Shutdown begins, if it has not, and the call finds the processor stopped. */
  lemma StoppedFlush(b: nat, s: State, id: nat, ctx: nat) returns (more: seq<Label>)
    requires id !in s.callers.tasks
    ensures var s' := After(b, Next(b, s, Enter(id, FlushCalled(ctx, 0))), more);
      && id in s'.callers.tasks && s'.callers.tasks[id].FlushDone? && s'.callers.tasks[id].ok
      && s'.ledger == s.ledger && s'.worker == s.worker
  {
    var s0, look := Next(b, s, Enter(id, FlushCalled(ctx, 0))), Advance(id);
    assert s0.callers.tasks[id] == FlushCalled(ctx, |s.ledger.t.accepted|) && s0.ledger == s.ledger;
    assert s0.worker == s.worker;
    hide Next;
    assert After(b, s0, []) == s0;
    if s0.flags.stopped {
      RunOne(b, s0, [], look);
      LooksStopped(b, s0, id);
      more := [] + [look];
    } else {
      var x := FreshId(s0.callers.tasks.Keys);
      StopBegins(b, s0, x);
      RunOne(b, s0, [], Enter(x, StopCalled(0)));
      RunOne(b, s0, [] + [Enter(x, StopCalled(0))], Advance(x));
      RunOne(b, s0, [] + [Enter(x, StopCalled(0))] + [Advance(x)], look);
      LooksStopped(b, After(b, s0, [] + [Enter(x, StopCalled(0))] + [Advance(x)]), id);
      more := [] + [Enter(x, StopCalled(0))] + [Advance(x)] + [look];
    }
  }

  lemma LooksStopped(b: nat, s: State, id: nat)
    requires id in s.callers.tasks && s.callers.tasks[id].FlushCalled? && s.flags.stopped
    ensures var s' := Next(b, s, Advance(id));
      && id in s'.callers.tasks && s'.callers.tasks[id].FlushDone? && s'.callers.tasks[id].ok
      && s'.ledger == s.ledger && s'.worker == s.worker
  {}

  /**
    A new ForceFlush can return nil with a record accepted before it not covered exactly when a record is
    queued or in the worker's hands; by `FlushDelivers` that takes a Shutdown.
   */
  lemma MissesIff(b: nat, cap: nat, ls: seq<Label>, id: nat, ctx: nat)
    requires b >= 1 && cap >= 1 && id !in After(b, Init(cap), ls).callers.tasks
    ensures var s := After(b, Init(cap), ls);
      (exists more :: Misses(b, s, id, ctx, more)) <==> s.ledger.t.q.items != [] || Held(s.worker) != []
  {
    var s := After(b, Init(cap), ls);
    RunFlow(b, cap, ls);
    NothingLeft(b, s.ledger, s.worker);
    if s.ledger.t.q.items != [] || Held(s.worker) != [] {
      var more := StoppedFlush(b, s, id, ctx);
      assert Misses(b, s, id, ctx, more);
    } else {
      forall more | true ensures !Misses(b, s, id, ctx, more) {
        Begins(b, cap, ls, id, ctx, more);
        var s' := After(b, Next(b, s, Enter(id, FlushCalled(ctx, 0))), more);
        GrewCoversFirst(s.ledger, s'.ledger, s.ledger.t.accepted);
      }
    }
  }
}

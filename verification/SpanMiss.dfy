/** Exactly when a ForceFlush of the span processor can return nil and leave an earlier span unexported. */
module SpanMiss {
  import opened Prelude
  import opened SpanProcessor
  import opened SpanFlow
  import opened SpanFlush

  /** ForceFlush call id begins in s, returns nil, and a span accepted before it has not been exported. */
  predicate Misses(c: Config, s: State, id: nat, ctx: nat, more: seq<Label>)
  {
    var s' := Run(c, Next(c, s, Enter(id, FlushCalled(ctx))), more);
    && id in s'.callers.tasks && s'.callers.tasks[id].FlushDone? && s'.callers.tasks[id].ok
    && !(s.ledger.accepted <= Exported(s'.ledger.calls))
  }

  /** The same, and nobody has called Shutdown. */
  predicate MissesRunning(c: Config, s: State, id: nat, ctx: nat, more: seq<Label>)
  {
    Misses(c, s, id, ctx, more) && !Run(c, Next(c, s, Enter(id, FlushCalled(ctx))), more).flags.stopped
  }

  /** Accepted spans that stand neither in the batch nor among those exported. */
  function Behind(s: State): seq<Span> { InHand(s.worker) + Spans(s.ledger.queue) }

  // ---------------------------------------------------------------- a cancelled context

  /** A ForceFlush that begins with a cancelled context only ever returns its error. */
  predicate Refused(s: State, id: nat, ctx: nat)
  {
    && ctx in s.callers.cancelled && id in s.callers.tasks
    && (s.callers.tasks[id] == FlushCalled(ctx) || (s.callers.tasks[id].FlushDone? && !s.callers.tasks[id].ok))
  }

  lemma AdvanceRefused(c: Config, s: State, x: nat, ok: bool, id: nat, ctx: nat)
    requires Refused(s, id, ctx)
    ensures Refused(Advanced(c, s, x, ok), id, ctx)
  {
    if x in s.callers.tasks {
      SendKeeps(c, s, Marker(x, |s.ledger.accepted|));
      if s.callers.tasks[x].EndOpen? { OfferedKeeps(c, s, x, s.callers.tasks[x].s, ok); }
      hide Send, Offered;
    }
  }

  lemma NextRefused(c: Config, s: State, l: Label, id: nat, ctx: nat)
    requires Refused(s, id, ctx)
    ensures Refused(Next(c, s, l), id, ctx)
  {
    WorkKeeps(c, s);
    hide Worked, Received, Advanced;
    if l.Advance? { AdvanceRefused(c, s, l.id, l.ok, id, ctx); }
  }

  lemma {:induction false} RunRefused(c: Config, s: State, ls: seq<Label>, id: nat, ctx: nat)
    requires Refused(s, id, ctx)
    ensures Refused(Run(c, s, ls), id, ctx)
  {
    if |ls| == 0 {
    } else {
      RunRefused(c, s, ls[..|ls| - 1], id, ctx);
      NextRefused(c, Run(c, s, ls[..|ls| - 1]), ls[|ls| - 1], id, ctx);
    }
  }

  // ---------------------------------------------------------------- nothing behind the batch

  /** n spans are exported or in the batch; the call's own export, or its nil, means that they are exported. */
  predicate Reaching(s: State, id: nat, n: nat)
  {
    var c := s.callers;
    && n <= Seen(s.ledger)
    && (id in c.exporters && (c.exporters[id].step.XSent? || c.exporters[id].step.XDone?) ==>
      n <= |Exported(s.ledger.calls)|)
    && (id in c.tasks && c.tasks[id].FlushDone? && c.tasks[id].ok && !s.flags.stopped ==>
      n <= |Exported(s.ledger.calls)|)
  }

  lemma SendReaches(c: Config, s: State, item: Item, id: nat, n: nat)
    requires Reaching(s, id, n)
    ensures Reaching(Send(c, s, item), id, n)
  {
    hide Exported;
  }

  /** A call moves on, and nothing is exported or appended. */
  lemma TaskReaches(s: State, s': State, x: nat, task: Task, id: nat, n: nat)
    requires Reaching(s, id, n) && s'.callers.tasks == WithTask(s, x, task).callers.tasks
    requires s'.ledger.calls == s.ledger.calls && Pending(s'.ledger) == Pending(s.ledger)
    requires var (xs, xs') := (s.callers.exporters, s'.callers.exporters);
      id in xs' && (xs'[id].step.XSent? || xs'[id].step.XDone?) ==> id in xs && xs[id] == xs'[id]
    requires s.flags.stopped ==> s'.flags.stopped
    requires x == id && task.FlushDone? && task.ok && !s'.flags.stopped ==> n <= |Exported(s.ledger.calls)|
    ensures Reaching(s', id, n)
  {
    hide Exported, Pending;
  }

  lemma OfferedReaches(c: Config, s: State, x: nat, span: Span, meets: bool, id: nat, n: nat)
    requires Reaching(s, id, n)
    ensures Reaching(Offered(c, s, x, span, meets), id, n)
  {
    hide Reaching, Send;
    var s1 := WithTask(s, x, EndDone).(ledger := s.ledger.(attempts := s.ledger.attempts + 1));
    TaskReaches(s, s1, x, EndDone, id, n);
    if |s.ledger.queue| < c.room || (c.room == 0 && meets && s.worker.Select?) {
      SendReaches(c, s1, Snapshot(span), id, n);
    } else {
      TaskReaches(s, Offered(c, s, x, span, meets), x, EndDone, id, n);
    }
  }

  lemma FlushReaches(c: Config, s: State, x: nat, id: nat, n: nat)
    requires Reaching(s, id, n) && x in s.callers.tasks
    ensures Reaching(FlushAdvances(c, s, x, s.callers.tasks[x]), id, n)
  {
    var task := s.callers.tasks[x];
    var s' := FlushAdvances(c, s, x, task);
    if task.FlushOffer? && CanSend(c, s) {
      var mid := Send(c, s, Marker(x, |s.ledger.accepted|));
      SendReaches(c, s, Marker(x, |s.ledger.accepted|), id, n);
      hide Reaching, Send;
      TaskReaches(mid, s', x, FlushMarked(task.ctx), id, n);
    } else if s' != s {
      if x == id && task.FlushWait? { assert n <= |Exported(s.ledger.calls)|; }
      hide Reaching;
      TaskReaches(s, s', x, s'.callers.tasks[x], id, n);
    }
  }

  lemma AdvanceReaches(c: Config, s: State, x: nat, ok: bool, id: nat, n: nat)
    requires Reaching(s, id, n)
    ensures Reaching(Advanced(c, s, x, ok), id, n)
  {
    hide Reaching, Offered, FlushAdvances;
    if x in s.callers.tasks {
      var task, s' := s.callers.tasks[x], Advanced(c, s, x, ok);
      if task.EndOpen? && task.sampled {
        OfferedReaches(c, s, x, task.s, ok, id, n);
      } else if task.EndCalled? || task.EndOpen? || task.StopCalled? || task.StopWait? {
        if s' != s { TaskReaches(s, s', x, s'.callers.tasks[x], id, n); }
      } else {
        FlushReaches(c, s, x, id, n);
      }
    }
  }

  lemma ExportReaches(s: State, x: nat, ok: bool, id: nat, n: nat)
    requires Reaching(s, id, n) && Locks(s)
    ensures Reaching(ExportMoves(s, x, ok), id, n)
  {
    if x in s.callers.exporters {
      ExportedSeen(s, x, ok);
      hide Locks, Seen, Exported, Exporting, Cleared;
    }
  }

  lemma WorkReaches(c: Config, s: State, id: nat, n: nat)
    requires Reaching(s, id, n) && Locks(s)
    ensures Reaching(Worked(c, s), id, n) && Reaching(Received(s), id, n)
  {
    WorkedSeen(c, s);
    WorkKeeps(c, s);
    assert Seen(Received(s).ledger) == Seen(s.ledger) && Received(s).ledger.calls == s.ledger.calls;
    hide Locks, Seen, Exported, Worked, Received;
  }

  lemma SelectReaches(c: Config, s: State, l: Label, id: nat, n: nat)
    requires Reaching(s, id, n) && (l.Enter? || l.GiveUp? || l.SeeStop?)
    requires s.flags.stopCh ==> s.flags.stopped
    ensures Reaching(Next(c, s, l), id, n)
  {
    hide Reaching;
    var s' := Next(c, s, l);
    if s' != s { TaskReaches(s, s', l.id, s'.callers.tasks[l.id], id, n); }
  }

  lemma NextReaches(c: Config, s: State, l: Label, id: nat, n: nat)
    requires Reaching(s, id, n) && Locks(s) && (s.flags.stopCh ==> s.flags.stopped)
    ensures Reaching(Next(c, s, l), id, n)
  {
    hide Advanced, Worked, Received, ExportMoves, Locks, Seen, Exported;
    match l
    case Advance(x, ok) => AdvanceReaches(c, s, x, ok, id, n);
    case Export(x, ok) => ExportReaches(s, x, ok, id, n);
    case Work => WorkReaches(c, s, id, n);
    case Receive => WorkReaches(c, s, id, n);
    case Enter(_, _) => SelectReaches(c, s, l, id, n);
    case GiveUp(_) => SelectReaches(c, s, l, id, n);
    case SeeStop(_) => SelectReaches(c, s, l, id, n);
    case _ =>
  }

  lemma {:induction false} RunReaches(c: Config, ls: seq<Label>, more: seq<Label>, id: nat, n: nat)
    requires c.max >= 1 && Reaching(Run(c, Init(), ls), id, n)
    ensures Reaching(Run(c, Init(), ls + more), id, n)
  {
    hide Next;
    if |more| == 0 {
      assert ls + more == ls;
    } else {
      var init := more[..|more| - 1];
      RunReaches(c, ls, init, id, n);
      assert (ls + more)[..|ls + more| - 1] == ls + init;
      RunFlow(c, ls + init);
      RunMissing(c, ls + init);
      hide Reaching, Locks;
      NextReaches(c, Run(c, Init(), ls + init), more[|more| - 1], id, n);
    }
  }

  // ---------------------------------------------------------------- the runs that miss

  /** Between s and s' nothing was accepted, received or taken from the worker's hand, and nobody stopped. */
  predicate Standing(s: State, s': State)
  {
    && s'.ledger.accepted == s.ledger.accepted && Behind(s') == Behind(s)
    && s'.callers.cancelled == s.callers.cancelled && s'.flags.stopped == s.flags.stopped
  }

  /** Whoever holds the mutex can let go of it. */
  lemma {:induction false} Releases(c: Config, s: State) returns (ls: seq<Label>)
    requires Locks(s)
    ensures var s' := Run(c, s, ls);
      s'.flags.holder.Free? && Standing(s, s') && s'.callers.tasks == s.callers.tasks && Locks(s')
    ensures forall x :: x in s.callers.exporters && s.callers.exporters[x].step.XWant? ==>
      var xs := Run(c, s, ls).callers.exporters; x in xs && xs[x] == s.callers.exporters[x]
    decreases if s.flags.holder.Free? then 0 else if s.ledger.sent then 1 else 2
  {
    if s.flags.holder.Free? { return []; }
    var l := if s.flags.holder.ByTask? then Export(s.flags.holder.id, true) else Work;
    NextLocks(c, s, l);
    ReleaseStep(c, s);
    hide Locks, Standing, Next;
    var rest := Releases(c, Next(c, s, l));
    ls := [l] + rest;
    RunSplit(c, s, [l], rest);
    RunNext(c, s, [], l);
    assert [] + [l] == [l];
    StandingStays(s, Next(c, s, l), Run(c, s, ls));
  }

  lemma StandingStays(a: State, b: State, c: State)
    requires Standing(a, b) && Standing(b, c)
    ensures Standing(a, c)
  {}

  lemma ReleaseStep(c: Config, s: State)
    requires Locks(s) && !s.flags.holder.Free?
    ensures var l := if s.flags.holder.ByTask? then Export(s.flags.holder.id, true) else Work;
      var s' := Next(c, s, l);
      && Standing(s, s') && s'.callers.tasks == s.callers.tasks
      && (s'.flags.holder.Free? || (!s.ledger.sent && s'.ledger.sent))
      && forall x :: x in s.callers.exporters && s.callers.exporters[x].step.XWant? ==>
        x in s'.callers.exporters && s'.callers.exporters[x] == s.callers.exporters[x]
  {
    hide Spans, Started;
  }

  /** A flush that has just begun offers its marker, and is cancelled before the channel takes it. */
  lemma CancelledOffer(c: Config, s: State, id: nat, ctx: nat)
    requires id in s.callers.tasks && s.callers.tasks[id] == FlushCalled(ctx) && ctx !in s.callers.cancelled
    requires !s.flags.stopped
    ensures var s1 := Next(c, Next(c, s, Advance(id, true)), Advance(id, true));
      var s' := Next(c, Next(c, s1, Cancel(ctx)), GiveUp(id));
      && s'.ledger == s.ledger && s'.flags == s.flags && s'.worker == s.worker
      && id in s'.callers.tasks && s'.callers.tasks[id] == FlushWait(ctx)
      && id in s'.callers.exporters && s'.callers.exporters[id] == Exporter(XWant, None)
  {
    var s0 := Next(c, s, Advance(id, true));
    assert s0.callers.tasks[id] == FlushOpen(ctx) && s0.ledger == s.ledger;
    var s1 := Next(c, s0, Advance(id, true));
    assert s1.callers.tasks[id] == FlushOffer(ctx);
    hide Send, Offered;
    var s2 := Next(c, s1, Cancel(ctx));
    assert s2.callers.tasks[id] == FlushOffer(ctx) && ctx in s2.callers.cancelled;
  }

  /** Its goroutine exports what is in the batch, and the call returns nil. */
  lemma ExportsBatch(c: Config, s: State, id: nat, ctx: nat) returns (ls: seq<Label>)
    requires s.flags.holder.Free? && id in s.callers.tasks && s.callers.tasks[id] == FlushWait(ctx)
    requires id in s.callers.exporters && s.callers.exporters[id] == Exporter(XWant, None)
    ensures var s' := Run(c, s, ls);
      && id in s'.callers.tasks && s'.callers.tasks[id] == FlushDone(ctx, true, None)
      && Behind(s') == Behind(s) && s'.flags.stopped == s.flags.stopped
      && s'.ledger.accepted == s.ledger.accepted
  {
    var e, a := Export(id, true), Advance(id, true);
    var s1 := Next(c, s, e);
    assert s1.callers.exporters[id] == Exporter(XLocked, None) && s1.ledger == s.ledger;
    var s2 := Next(c, s1, e);
    if s.ledger.batch == [] {
      ThreeSteps(c, s, e, e, a);
      ls := [e, e, a];
      assert s2.callers.exporters[id] == Exporter(XDone(true), None);
    } else {
      assert s2.callers.exporters[id] == Exporter(XSent, None);
      var s3 := Next(c, s2, e);
      assert s3.callers.exporters[id] == Exporter(XDone(true), None);
      ThreeSteps(c, s, e, e, e);
      RunNext(c, s, [e, e, e], a);
      ls := [e, e, e] + [a];
    }
  }

  lemma {:induction false} AnyRunKeepsLocks(c: Config, s: State, ls: seq<Label>)
    requires Locks(s)
    ensures Locks(Run(c, s, ls))
  {
    if |ls| == 0 {
    } else {
      AnyRunKeepsLocks(c, s, ls[..|ls| - 1]);
      NextLocks(c, Run(c, s, ls[..|ls| - 1]), ls[|ls| - 1]);
    }
  }

  /** Four steps, as one run. */
  lemma OfferRun(c: Config, s: State, id: nat, ctx: nat) returns (ls: seq<Label>)
    ensures var offered := Next(c, Next(c, s, Advance(id, true)), Advance(id, true));
      Run(c, s, ls) == Next(c, Next(c, offered, Cancel(ctx)), GiveUp(id))
  {
    hide Next;
    var a := Advance(id, true);
    ThreeSteps(c, s, a, a, Cancel(ctx));
    RunNext(c, s, [a, a, Cancel(ctx)], GiveUp(id));
    ls := [a, a, Cancel(ctx)] + [GiveUp(id)];
  }

  /**
    A fresh call whose context is not cancelled can return nil with everything that stood behind the batch
    still there: its context is cancelled while it offers its marker, whether or not the channel has room.
   */
  lemma CancelledFlushMisses(c: Config, s: State, id: nat, ctx: nat) returns (more: seq<Label>)
    requires Locks(s) && id !in s.callers.tasks && ctx !in s.callers.cancelled && !s.flags.stopped
    ensures var s' := Run(c, Next(c, s, Enter(id, FlushCalled(ctx))), more);
      && id in s'.callers.tasks && s'.callers.tasks[id] == FlushDone(ctx, true, None)
      && Behind(s') == Behind(s) && !s'.flags.stopped && s'.ledger.accepted == s.ledger.accepted
  {
    var s0 := Next(c, s, Enter(id, FlushCalled(ctx)));
    NextLocks(c, s, Enter(id, FlushCalled(ctx)));
    assert Behind(s0) == Behind(s) && !s0.flags.stopped && s0.callers.tasks[id] == FlushCalled(ctx);
    CancelledOffer(c, s0, id, ctx);
    hide Next, Locks;
    var offer := OfferRun(c, s0, id, ctx);
    var s1 := Run(c, s0, offer);
    AnyRunKeepsLocks(c, s0, offer);
    var free := Releases(c, s1);
    var s2 := Run(c, s1, free);
    var last := ExportsBatch(c, s2, id, ctx);
    more := offer + free + last;
    RunSplit(c, s0, offer, free);
    RunSplit(c, s0, offer + free, last);
  }

  // ---------------------------------------------------------------- the exact condition

  lemma BehindMissed(c: Config, s: State, n: nat)
    requires Flow(c, s.ledger, s.worker) && |s.ledger.accepted| >= n
    ensures Behind(s) != [] && |s.ledger.accepted| == n ==> |Exported(s.ledger.calls)| < n
    ensures Behind(s) == [] && |s.ledger.accepted| == n ==> Seen(s.ledger) == n
    ensures n <= |Exported(s.ledger.calls)| ==> s.ledger.accepted[..n] <= Exported(s.ledger.calls)
  {
    ExportedPrefix(c, s);
    hide Exported, Spans, InHand, Pending;
  }

  /** Without Shutdown a span can be missed exactly when the context is good and a span stands behind the batch. */
  lemma MissesRunningIff(c: Config, ls: seq<Label>, id: nat, ctx: nat)
    requires c.max >= 1
    requires var s := Run(c, Init(), ls); id !in s.callers.tasks && !s.flags.stopped
    ensures var s := Run(c, Init(), ls);
      (exists more :: MissesRunning(c, s, id, ctx, more)) <==> ctx !in s.callers.cancelled && Behind(s) != []
  {
    var s := Run(c, Init(), ls);
    if ctx !in s.callers.cancelled && Behind(s) != [] {
      var more := SomeMissed(c, ls, id, ctx);
      assert MissesRunning(c, s, id, ctx, more);
    } else {
      forall more | true ensures !MissesRunning(c, s, id, ctx, more) { NoneMissed(c, ls, id, ctx, more); }
    }
  }

  lemma Entering(c: Config, ls: seq<Label>, id: nat, ctx: nat, more: seq<Label>)
    requires id !in Run(c, Init(), ls).callers.tasks
    ensures var (s, e) := (Run(c, Init(), ls), Enter(id, FlushCalled(ctx)));
      var s0 := Next(c, s, e);
      && Run(c, Init(), ls + [e]) == s0 && Run(c, Init(), ls + [e] + more) == Run(c, s0, more)
      && s0.ledger == s.ledger && s0.worker == s.worker && s0.flags == s.flags
      && s0.callers == s.callers.(tasks := s.callers.tasks[id := FlushCalled(ctx)])
      && s.ledger.accepted <= Run(c, s0, more).ledger.accepted
  {
    var e := Enter(id, FlushCalled(ctx));
    RunNext(c, Init(), ls, e);
    RunSplit(c, Init(), ls + [e], more);
    AcceptedGrows(c, Next(c, Run(c, Init(), ls), e), more);
  }

  lemma SomeMissed(c: Config, ls: seq<Label>, id: nat, ctx: nat) returns (more: seq<Label>)
    requires c.max >= 1
    requires var s := Run(c, Init(), ls);
      id !in s.callers.tasks && !s.flags.stopped && ctx !in s.callers.cancelled && Behind(s) != []
    ensures MissesRunning(c, Run(c, Init(), ls), id, ctx, more)
  {
    var s, e := Run(c, Init(), ls), Enter(id, FlushCalled(ctx));
    RunFlow(c, ls);
    more := CancelledFlushMisses(c, s, id, ctx);
    Entering(c, ls, id, ctx, more);
    var s' := Run(c, Next(c, s, e), more);
    RunFlow(c, ls + [e] + more);
    hide Run, Next, Flow, Locks;
    BehindMissed(c, s, |s.ledger.accepted|);
    StillBehind(c, s, s');
  }

  lemma StillBehind(c: Config, s: State, s': State)
    requires Flow(c, s.ledger, s.worker) && Flow(c, s'.ledger, s'.worker)
    requires Behind(s') == Behind(s) != [] && s'.ledger.accepted == s.ledger.accepted
    ensures !(s.ledger.accepted <= Exported(s'.ledger.calls))
  {}

  lemma NoneMissed(c: Config, ls: seq<Label>, id: nat, ctx: nat, more: seq<Label>)
    requires c.max >= 1
    requires var s := Run(c, Init(), ls);
      id !in s.callers.tasks && (ctx in s.callers.cancelled || Behind(s) == [])
    ensures !MissesRunning(c, Run(c, Init(), ls), id, ctx, more)
  {
    var s, e := Run(c, Init(), ls), Enter(id, FlushCalled(ctx));
    Entering(c, ls, id, ctx, more);
    if ctx in s.callers.cancelled {
      RunRefused(c, Next(c, s, e), more, id, ctx);
    } else {
      var n := |s.ledger.accepted|;
      RunKnown(c, ls);
      RunFlow(c, ls);
      RunFlow(c, ls + [e] + more);
      BehindMissed(c, s, n);
      assert Reaching(Run(c, Init(), ls + [e]), id, n);
      RunReaches(c, ls + [e], more, id, n);
      var s' := Run(c, Init(), ls + [e] + more);
      hide Run, Next, Flow, Locks, Sizes;
      ExportedPrefix(c, s');
      if n <= |Exported(s'.ledger.calls)| {
        PrefixOfBoth(s.ledger.accepted, Exported(s'.ledger.calls), s'.ledger.accepted);
      }
    }
  }

  // ---------------------------------------------------------------- and with Shutdown

  /** Shutdown has set `stopped` before it waits or ends. */
  predicate StopOrder(s: State)
  {
    && (s.flags.onceOver ==> s.flags.stopped)
    && forall id :: id in s.callers.tasks && s.callers.tasks[id].StopWait? ==> s.flags.stopped
  }

  lemma NextStopOrder(c: Config, s: State, l: Label)
    requires StopOrder(s)
    ensures StopOrder(Next(c, s, l))
  {
    WorkKeeps(c, s);
    hide Worked, Received;
    if l.Advance? && l.id in s.callers.tasks {
      SendKeeps(c, s, Marker(l.id, |s.ledger.accepted|));
      if s.callers.tasks[l.id].EndOpen? { OfferedKeeps(c, s, l.id, s.callers.tasks[l.id].s, l.ok); }
      hide Send, Offered;
    }
  }

  lemma {:induction false} RunStopOrder(c: Config, ls: seq<Label>)
    ensures StopOrder(Run(c, Init(), ls))
  {
    if |ls| == 0 {
    } else {
      RunStopOrder(c, ls[..|ls| - 1]);
      NextStopOrder(c, Run(c, Init(), ls[..|ls| - 1]), ls[|ls| - 1]);
    }
  }

  /** A flush that found its context good looks at `stopped` and returns nil. */
  lemma LooksStopped(c: Config, s: State, id: nat, ctx: nat)
    requires id in s.callers.tasks && s.callers.tasks[id] == FlushOpen(ctx) && s.flags.stopped
    ensures var s' := Next(c, s, Advance(id, true));
      s'.callers.tasks == s.callers.tasks[id := FlushDone(ctx, true, None)]
      && s'.ledger == s.ledger && s'.flags == s.flags
  {}

  /** A Shutdown begins and sets `stopped`. */
  lemma StopBegins(c: Config, s: State, x: nat, ctx: nat)
    requires x !in s.callers.tasks && !s.flags.stopped && !s.flags.onceOver
    ensures var s' := Next(c, Next(c, s, Enter(x, StopCalled(ctx))), Advance(x, true));
      && s'.callers.tasks == s.callers.tasks[x := StopWait(ctx)] && s'.ledger == s.ledger && s'.flags.stopped
  {
    var s1 := Next(c, s, Enter(x, StopCalled(ctx)));
    assert s1.callers.tasks == s.callers.tasks[x := StopCalled(ctx)] && s1.flags == s.flags && s1.ledger == s.ledger;
    hide InFlight;
    assert s1.callers.tasks[x := StopWait(ctx)] == s.callers.tasks[x := StopWait(ctx)];
  }

  lemma LooksAtContext(c: Config, s: State, id: nat, ctx: nat)
    requires id !in s.callers.tasks && ctx !in s.callers.cancelled
    ensures var s' := Next(c, Next(c, s, Enter(id, FlushCalled(ctx))), Advance(id, true));
      && s'.callers.tasks == s.callers.tasks[id := FlushOpen(ctx)] && s'.flags == s.flags && s'.ledger == s.ledger
  {
    var s1 := Next(c, s, Enter(id, FlushCalled(ctx)));
    assert s1.callers.tasks == s.callers.tasks[id := FlushCalled(ctx)] && s1.flags == s.flags && s1.ledger == s.ledger;
    assert s1.callers.tasks[id := FlushOpen(ctx)] == s.callers.tasks[id := FlushOpen(ctx)];
  }

  /** The call looks at its context; if need be Shutdown begins; the call looks at `stopped` and returns nil. */
  lemma StoppedFlushMisses(c: Config, s: State, id: nat, ctx: nat) returns (more: seq<Label>)
    requires StopOrder(s) && id !in s.callers.tasks && ctx !in s.callers.cancelled
    ensures var s' := Run(c, Next(c, s, Enter(id, FlushCalled(ctx))), more);
      && id in s'.callers.tasks && s'.callers.tasks[id] == FlushDone(ctx, true, None)
      && s'.ledger == s.ledger && s'.flags.stopped
  {
    var s0, look := Next(c, s, Enter(id, FlushCalled(ctx))), Advance(id, true);
    var s1 := Next(c, s0, look);
    LooksAtContext(c, s, id, ctx);
    hide Next;
    RunNext(c, s0, [], look);
    assert [] + [look] == [look];
    if s.flags.stopped {
      LooksStopped(c, s1, id, ctx);
      RunNext(c, s0, [look], look);
      more := [look] + [look];
    } else {
      var x := FreshId(s1.callers.tasks.Keys);
      var enter, stop := Enter(x, StopCalled(ctx)), Advance(x, true);
      StopBegins(c, s1, x, ctx);
      LooksStopped(c, Next(c, Next(c, s1, enter), stop), id, ctx);
      ThreeSteps(c, s0, look, enter, stop);
      RunNext(c, s0, [look, enter, stop], look);
      more := [look, enter, stop] + [look];
    }
  }

  lemma NextExports(c: Config, s: State, l: Label)
    ensures Exported(s.ledger.calls) <= Exported(Next(c, s, l).ledger.calls)
  {
    ExportedNext(s.ledger.calls, s.ledger.batch);
    var calls := Next(c, s, l).ledger.calls;
    assert calls == s.ledger.calls || calls == s.ledger.calls + [s.ledger.batch];
  }

  lemma {:induction false} ExportedGrows(c: Config, s: State, ls: seq<Label>)
    ensures Exported(s.ledger.calls) <= Exported(Run(c, s, ls).ledger.calls)
  {
    if |ls| == 0 {
    } else {
      ExportedGrows(c, s, ls[..|ls| - 1]);
      NextExports(c, Run(c, s, ls[..|ls| - 1]), ls[|ls| - 1]);
    }
  }

  /** Whatever else is called: a span can be missed exactly when the context is good and some span is not exported. */
  lemma MissesIff(c: Config, ls: seq<Label>, id: nat, ctx: nat)
    requires c.max >= 1 && id !in Run(c, Init(), ls).callers.tasks
    ensures var s := Run(c, Init(), ls);
      (exists more :: Misses(c, s, id, ctx, more)) <==>
      ctx !in s.callers.cancelled && Exported(s.ledger.calls) != s.ledger.accepted
  {
    var s := Run(c, Init(), ls);
    var s0 := Next(c, s, Enter(id, FlushCalled(ctx)));
    if ctx !in s.callers.cancelled && Exported(s.ledger.calls) != s.ledger.accepted {
      RunStopOrder(c, ls);
      RunFlow(c, ls);
      ExportedPrefix(c, s);
      var more := StoppedFlushMisses(c, s, id, ctx);
      assert Misses(c, s, id, ctx, more);
    } else {
      forall more | true ensures !Misses(c, s, id, ctx, more) {
        if ctx in s.callers.cancelled { RunRefused(c, s0, more, id, ctx); } else { ExportedGrows(c, s0, more); }
      }
    }
  }

  /** A first OnEnd: the channel has its span, or the worker when the channel has no buffer. */
  lemma FirstSpan(c: Config)
    ensures var s := Run(c, Init(), [Enter(0, EndCalled(7, true)), Advance(0, true), Advance(0, true)]);
      && Behind(s) == [7] && s.ledger.accepted == [7] && s.callers.tasks == map[0 := EndDone]
      && s.flags == Init().flags && s.callers.cancelled == {}
  {
    var a := Advance(0, true);
    ThreeSteps(c, Init(), Enter(0, EndCalled(7, true)), a, a);
    var s1 := Next(c, Init(), Enter(0, EndCalled(7, true)));
    assert s1 == Init().(callers := Callers(map[0 := EndCalled(7, true)], map[], map[], {}));
    var s2 := Next(c, s1, a);
    assert s2 == s1.(callers := Callers(map[0 := EndOpen(7, true)], map[], map[], {}));
    hide Run, Next;
    FirstOffer(c, s2);
  }

  lemma FirstOffer(c: Config, s: State)
    requires s == Init().(callers := Callers(map[0 := EndOpen(7, true)], map[], map[], {}))
    ensures var s' := Next(c, s, Advance(0, true));
      && Behind(s') == [7] && s'.ledger.accepted == [7] && s'.callers.tasks == map[0 := EndDone]
      && s'.flags == Init().flags && s'.callers.cancelled == {}
  {
    SpansNext([], Snapshot(7));
    assert [] + [Snapshot(7)] == [Snapshot(7)];
  }

  /** One OnEnd, then a ForceFlush, call 1, that returns nil while ExportSpans has never been given a span. */
  lemma CancelledFlushReturnsNil(c: Config) returns (ls: seq<Label>)
    requires c.max >= 1
    ensures var s := Run(c, Init(), ls);
      && 1 in s.callers.tasks && s.callers.tasks[1] == FlushDone(3, true, None) && !s.flags.stopped
      && s.ledger.accepted == [7] && Exported(s.ledger.calls) == []
  {
    var first, e := [Enter(0, EndCalled(7, true)), Advance(0, true), Advance(0, true)], Enter(1, FlushCalled(3));
    FirstSpan(c);
    RunFlow(c, first);
    var more := CancelledFlushMisses(c, Run(c, Init(), first), 1, 3);
    Entering(c, first, 1, 3, more);
    ls := first + [e] + more;
    RunFlow(c, ls);
    hide Run, Next, Exported, Pending;
  }
}

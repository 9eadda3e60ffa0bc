/** The logger provider's gate step by step, and that its Shutdown can always come to its end. */
module ProviderProgress {
  import opened Prelude
  import Q = LogQueue
  import B = BatchProcessor
  import L = BatchLifecycle
  import C = BatchFlush
  import P = BatchProgress
  import K = BatchCalls
  import opened LoggerProvider
  import opened ProviderRuns
  import D = Delivery

  // ---------------------------------------------------------------- the gate

  /** A call that begins: while the gate is open it is admitted and enters the processor; afterwards nothing happens. */
  lemma BeginsIff(b: nat, s: State, id: nat, call: B.Task)
    requires id !in s.ops && id !in s.p.callers.tasks && (call.EmitCalled? || call.FlushCalled?)
    ensures var s' := Next(b, s, Begin(id, Some(call)));
      && s'.ops == s.ops[id := if s.gate.stopped then Refused else Active]
      && (if s.gate.stopped then s'.gate == s.gate && s'.p == s.p
          else s'.gate.active == s.gate.active + 1 && s'.p == B.Next(b, s.p, B.Enter(id, call)))
  {}

  /** A call ends only when the processor is through with it. */
  lemma EndsIff(b: nat, s: State, id: nat)
    requires id in s.ops && s.ops[id].Active?
    ensures var s' := Next(b, s, End(id));
      if id in s.p.callers.tasks && !Terminal(s.p.callers.tasks[id]) then s' == s
      else
        && s'.ops == s.ops[id := Over] && s'.gate.active == s.gate.active - 1
        && (s'.gate.done == Closed <==> s.gate.done == Closed || (s.gate.stopped && s.gate.active == 1))
  {}

  /** The first Shutdown closes the gate; a later one returns at once with nil. */
  lemma StopsIff(b: nat, s: State, id: nat, ctx: nat)
    requires id !in s.ops
    ensures var s' := Next(b, s, Stop(id, ctx));
      && s'.gate.stopped && s'.p == s.p && s'.gate.active == s.gate.active
      && s'.ops == s.ops[id := if s.gate.stopped then StopReturned(true, false) else Draining(ctx, false)]
  {}

  /**
    The wait of Shutdown: a first look at its context; then the processor's Shutdown once the operations have
    drained, whether or not the context is cancelled by now, and an error if it is cancelled before.
   */
  lemma DrainsIff(b: nat, s: State, id: nat)
    requires id in s.ops && s.ops[id].Draining?
    ensures var (ctx, tested, s') := (s.ops[id].ctx, s.ops[id].tested, Next(b, s, Drain(id)));
      var cancelled := ctx in s.p.callers.cancelled;
      && s'.gate == s.gate
      && s'.ops == s.ops[id :=
        if !tested then (if cancelled then DrainFailed else Draining(ctx, true))
        else if s.gate.done == Closed then ProviderRuns.Stopping(ctx)
        else if cancelled then DrainFailed else s.ops[id]]
      && s'.p == (if tested && s.gate.done == Closed then B.Next(b, s.p, B.Enter(id, B.StopCalled(ctx))) else s.p)
  {}

  ghost predicate LaterNil(ops: map<nat, Op>)
  {
    forall id :: id in ops && ops[id].StopReturned? && !ops[id].first ==> ops[id].ok
  }

  lemma NextLaterNil(b: nat, s: State, l: Label)
    requires LaterNil(s.ops)
    ensures LaterNil(Next(b, s, l).ops)
  {
    hide B.Next;
  }

  /** Every Shutdown call but the first has returned nil. */
  lemma {:induction false} LaterStopsReturnNil(b: nat, cap: nat, ls: seq<Label>)
    ensures LaterNil(After(b, Init(cap), ls).ops)
  {
    if |ls| == 0 {
    } else {
      LaterStopsReturnNil(b, cap, ls[..|ls| - 1]);
      NextLaterNil(b, After(b, Init(cap), ls[..|ls| - 1]), ls[|ls| - 1]);
    }
  }

  // ---------------------------------------------------------------- steps inside the processor

  function Inners(ls: seq<B.Label>): (r: seq<Label>)
    ensures |r| == |ls|
  {
    seq(|ls|, i requires 0 <= i < |ls| => Inner(ls[i]))
  }

  /** Steps inside change nothing but the processor. */
  predicate OnlyInside(s: State, s': State)
  {
    s'.gate == s.gate && s'.ops == s.ops && s'.first == s.first
    && s'.p.callers.cancelled == s.p.callers.cancelled
  }

  lemma CancelsNothing(b: nat, p: B.State, l: B.Label)
    requires !l.Cancel?
    ensures B.Next(b, p, l).callers.cancelled == p.callers.cancelled
  {}

  lemma {:induction false} InnerRun(b: nat, s: State, ls: seq<B.Label>)
    requires P.Inside(ls)
    ensures var s' := After(b, s, Inners(ls)); s'.p == B.After(b, s.p, ls) && OnlyInside(s, s')
  {
    if |ls| == 0 {
    } else {
      var init, l := ls[..|ls| - 1], ls[|ls| - 1];
      assert ls == init + [l];
      P.InsideJoined(init, [l]);
      assert [l][0] == l;
      InnerRun(b, s, init);
      assert Inners(ls)[..|ls| - 1] == Inners(init);
      CancelsNothing(b, B.After(b, s.p, init), l);
      hide B.Next;
    }
  }

  lemma One(b: nat, s: State, l: Label)
    ensures After(b, s, [l]) == Next(b, s, l)
  {
    assert [l][..0] == [] && After(b, s, []) == s;
  }

  // ---------------------------------------------------------------- the operations admitted

  /** An operation that was admitted can be ended. */
  lemma OperationCanEnd(b: nat, cap: nat, ls: seq<Label>, id: nat) returns (more: seq<Label>)
    requires b >= 1 && cap >= 1
    requires var s := After(b, Init(cap), ls); id in s.ops && s.ops[id].Active?
    ensures var (s, s') := (After(b, Init(cap), ls), After(b, After(b, Init(cap), ls), more));
      && s'.ops == s.ops[id := Over] && s'.first == s.first && s'.p.callers.cancelled == s.p.callers.cancelled
      && s'.gate == Ended(s.gate)
  {
    var s := After(b, Init(cap), ls);
    RunOfProcessor(b, cap, ls);
    var inner: seq<B.Label> := [];
    if id in s.p.callers.tasks { inner := K.EveryCallCanReturn(b, cap, s.past, id); }
    InnerRun(b, s, inner);
    var s1 := After(b, s, Inners(inner));
    more := Inners(inner) + [End(id)];
    One(b, s1, End(id));
    D.AfterSplit(b, s, Inners(inner), [End(id)]);
    if id !in s.p.callers.tasks { assert B.After(b, s.p, []) == s.p; }
    hide After, B.After;
    assert id in s1.p.callers.tasks ==> Terminal(s1.p.callers.tasks[id]);
  }

  /** All of them can. */
  lemma {:induction false} AllCanEnd(b: nat, cap: nat, ls: seq<Label>) returns (more: seq<Label>)
    requires b >= 1 && cap >= 1
    ensures var (s, s') := (After(b, Init(cap), ls), After(b, After(b, Init(cap), ls), more));
      && ActiveOps(s'.ops) == {} && s'.first == s.first && s'.gate.stopped == s.gate.stopped
      && s'.p.callers.cancelled == s.p.callers.cancelled
      && forall id :: id in s.ops && !s.ops[id].Active? ==> id in s'.ops && s'.ops[id] == s.ops[id]
    decreases |ActiveOps(After(b, Init(cap), ls).ops)|
  {
    var s := After(b, Init(cap), ls);
    if ActiveOps(s.ops) == {} {
      more := [];
    } else {
      var id :| id in ActiveOps(s.ops);
      var first := OperationCanEnd(b, cap, ls, id);
      D.AfterSplit(b, Init(cap), ls, first);
      OpCounts(s.ops, id, Over);
      hide After;
      var rest := AllCanEnd(b, cap, ls + first);
      D.AfterSplit(b, s, first, rest);
      more := first + rest;
    }
  }

  // ---------------------------------------------------------------- Shutdown

  /** The processor's Shutdown, entered by the first call, can return nil. */
  lemma StoppingCanReturn(b: nat, cap: nat, ls: seq<Label>, id: nat, ctx: nat) returns (more: seq<Label>)
    requires b >= 1 && cap >= 1
    requires var s := After(b, Init(cap), ls);
      && id in s.ops && s.ops[id] == ProviderRuns.Stopping(ctx) && ctx !in s.p.callers.cancelled
      && id in s.p.callers.tasks && s.p.callers.tasks[id] == B.StopCalled(ctx)
    ensures var s' := After(b, After(b, Init(cap), ls), more); id in s'.ops && s'.ops[id] == StopReturned(true, true)
  {
    var s := After(b, Init(cap), ls);
    RunOfProcessor(b, cap, ls);
    RunGate(b, cap, ls);
    RunCalls(b, cap, ls);
    L.RunLife(b, cap, s.past);
    NotStopped(s, id);
    K.NotStoppedIsIdle(s.p);
    var won := B.Advance(id);
    Wins(b, s.p, id, ctx);
    C.RunOne(b, B.Init(cap), s.past, won);
    var rest := P.ShutdownCanReturn(b, cap, s.past + [won], id, ctx);
    C.RunOne(b, s.p, [], won);
    assert B.After(b, s.p, []) == s.p && [] + [won] == [won];
    C.RunJoin(b, s.p, [won], rest);
    assert P.Inside([won]);
    P.InsideJoined([won], rest);
    InnerRun(b, s, [won] + rest);
    var s1 := After(b, s, Inners([won] + rest));
    more := Inners([won] + rest) + [StopEnd(id)];
    One(b, s1, StopEnd(id));
    D.AfterSplit(b, s, Inners([won] + rest), [StopEnd(id)]);
    hide After, B.After, B.Next;
  }

  lemma Wins(b: nat, p: B.State, id: nat, ctx: nat)
    requires id in p.callers.tasks && p.callers.tasks[id] == B.StopCalled(ctx) && !p.flags.stopped
    requires !L.InShutdown(p.worker)
    ensures var p' := B.Next(b, p, B.Advance(id));
      P.Pending(p', id, ctx) && p'.worker == p.worker && p'.callers.cancelled == p.callers.cancelled
  {}

  /** A drained Shutdown enters the processor. */
  lemma DrainedEnters(b: nat, s: State, id: nat, ctx: nat) returns (ls: seq<Label>)
    requires id in s.ops && s.ops[id].Draining? && s.ops[id].ctx == ctx && ctx !in s.p.callers.cancelled
    requires s.gate.done == Closed && id !in s.p.callers.tasks
    ensures var s' := After(b, s, ls);
      && id in s'.ops && s'.ops[id] == ProviderRuns.Stopping(ctx)
      && id in s'.p.callers.tasks && s'.p.callers.tasks[id] == B.StopCalled(ctx)
      && s'.p.callers.cancelled == s.p.callers.cancelled
  {
    var d := Drain(id);
    One(b, s, d);
    if s.ops[id].tested {
      ls := [d];
    } else {
      var s1 := Next(b, s, d);
      assert s1.ops[id] == Draining(ctx, true) && s1.gate == s.gate && s1.p == s.p;
      One(b, s1, d);
      D.AfterSplit(b, s, [d], [d]);
      ls := [d] + [d];
    }
  }

  /**
    From every reachable state: the first Shutdown call, while it waits for the operations admitted before it,
    can return nil if its context is not cancelled.
   */
  lemma ShutdownCanReturn(b: nat, cap: nat, ls: seq<Label>, id: nat, ctx: nat) returns (more: seq<Label>)
    requires b >= 1 && cap >= 1
    requires var s := After(b, Init(cap), ls);
      id in s.ops && s.ops[id].Draining? && s.ops[id].ctx == ctx && ctx !in s.p.callers.cancelled
    ensures var s' := After(b, After(b, Init(cap), ls), more); id in s'.ops && s'.ops[id] == StopReturned(true, true)
  {
    var s := After(b, Init(cap), ls);
    var ends := AllCanEnd(b, cap, ls);
    var s1 := After(b, s, ends);
    D.AfterSplit(b, Init(cap), ls, ends);
    RunGate(b, cap, ls);
    RunGate(b, cap, ls + ends);
    RunCalls(b, cap, ls + ends);
    DrainingIsOutside(s1, id);
    var enters := DrainedEnters(b, s1, id, ctx);
    D.AfterSplit(b, Init(cap), ls + ends, enters);
    var rest := StoppingCanReturn(b, cap, ls + ends + enters, id, ctx);
    more := ends + enters + rest;
    D.AfterSplit(b, s, ends, enters);
    D.AfterSplit(b, s, ends + enters, rest);
  }

  lemma DrainingIsOutside(s: State, id: nat)
    requires CallsFit(s.ops, s.p.callers.tasks) && GateFits(s.gate, s.ops, s.first)
    requires id in s.ops && s.ops[id].Draining? && ActiveOps(s.ops) == {}
    ensures id !in s.p.callers.tasks && s.gate.done == Closed
  {
    forall x | x in s.p.callers.tasks ensures x in s.ops && !s.ops[x].Draining? {
      assert CallFits(s.ops[x], s.p.callers.tasks[x]);
    }
  }

  /** And a new Shutdown on a provider that is not shut down can return nil, if its context is not cancelled. */
  lemma NewShutdownCanReturn(b: nat, cap: nat, ls: seq<Label>, id: nat, ctx: nat) returns (more: seq<Label>)
    requires b >= 1 && cap >= 1
    requires var s := After(b, Init(cap), ls); id !in s.ops && !s.gate.stopped && ctx !in s.p.callers.cancelled
    ensures var s' := After(b, Next(b, After(b, Init(cap), ls), Stop(id, ctx)), more);
      id in s'.ops && s'.ops[id] == StopReturned(true, true)
  {
    var s := After(b, Init(cap), ls);
    One(b, s, Stop(id, ctx));
    D.AfterSplit(b, Init(cap), ls, [Stop(id, ctx)]);
    StopsIff(b, s, id, ctx);
    more := ShutdownCanReturn(b, cap, ls + [Stop(id, ctx)], id, ctx);
  }
}

/** One whole run of the log pipeline: a record is emitted, Shutdown returns nil, and the exporter has it. */
module DeliveryRun {
  import opened Prelude
  import Q = LogQueue
  import B = BatchProcessor
  import F = BatchFlow
  import opened LoggerProvider
  import opened ProviderRuns
  import D = Delivery

  /** A queue for one record and batches of up to two. */
  const CAP := 1
  const SIZE := 2

  function At(ls: seq<Label>): State { After(SIZE, Init(CAP), ls) }

  lemma Then(ls: seq<Label>, l: Label)
    ensures At(ls + [l]) == Next(SIZE, At(ls), l)
  {
    assert (ls + [l])[..|ls|] == ls;
  }

  /** The record is queued, and its emit is over. */
  predicate Emitted(s: State, r: B.Record)
  {
    && s.gate == Gate(0, false, Missing) && s.ops == map[0 := Over]
    && s.p.callers == B.Callers(map[0 := B.EmitDone(r, Some(0))], map[], {}, {})
    && s.p.flags == B.Flags(false, false, None, None, false) && s.p.worker.Probe?
    && s.p.ledger.t.q == Q.Fifo(CAP, [r], false, 0) && s.p.ledger.calls == []
  }

  lemma Emit(r: B.Record) returns (ls: seq<Label>)
    ensures Emitted(At(ls), r)
  {
    ls := [Begin(0, Some(B.EmitCalled(r)))];
    Then([], ls[0]);
    assert [] + [ls[0]] == ls && At([]) == Init(CAP);
    var s1 := At(ls);
    assert s1.p.callers.tasks == map[0 := B.EmitCalled(r)] && s1.ops == map[0 := Active];
    Then(ls, Inner(B.Advance(0)));
    ls := ls + [Inner(B.Advance(0))];
    assert At(ls).p.callers.tasks == map[0 := B.EmitOpen(r)] && At(ls).ops == map[0 := Active];
    Then(ls, Inner(B.Advance(0)));
    ls := ls + [Inner(B.Advance(0))];
    assert At(ls).p.ledger.t.q.items == [r] && At(ls).p.callers.tasks == map[0 := B.EmitDone(r, Some(0))];
    Then(ls, End(0));
    ls := ls + [End(0)];
  }

  /** Shutdown has drained the gate and put its request into the channel. */
  predicate Requested(s: State, r: B.Record)
  {
    && s.ops == map[0 := Over, 1 := Stopping(5)]
    && s.p.callers == B.Callers(map[0 := B.EmitDone(r, Some(0)), 1 := B.StopAwait(5)], map[], {}, {})
    && s.p.flags == B.Flags(false, true, Some(1), Some(B.Shutdown(1, 5)), false) && s.p.worker.Probe?
    && s.p.ledger.t.q == Q.Fifo(CAP, [r], true, 0) && s.p.ledger.calls == []
  }

  lemma Stop3(before: seq<Label>, r: B.Record) returns (ls: seq<Label>)
    requires Emitted(At(before), r)
    ensures var s := At(ls);
      && s.ops == map[0 := Over, 1 := Stopping(5)] && s.p.ledger == At(before).p.ledger
      && s.p.flags == At(before).p.flags && s.p.worker == At(before).p.worker
      && s.p.callers == B.Callers(map[0 := B.EmitDone(r, Some(0)), 1 := B.StopCalled(5)], map[], {}, {})
  {
    ls := before;
    Then(ls, Stop(1, 5));
    ls := ls + [Stop(1, 5)];
    assert At(ls).ops == map[0 := Over, 1 := Draining(5, false)] && At(ls).gate == Gate(0, true, Closed);
    Then(ls, Drain(1));
    ls := ls + [Drain(1)];
    assert At(ls).ops == map[0 := Over, 1 := Draining(5, true)];
    Then(ls, Drain(1));
    ls := ls + [Drain(1)];
  }

  lemma Request(before: seq<Label>, r: B.Record) returns (ls: seq<Label>)
    requires Emitted(At(before), r)
    ensures Requested(At(ls), r)
  {
    ls := Stop3(before, r);
    var step := Inner(B.Advance(1));
    Then(ls, step);
    ls := ls + [step];
    assert At(ls).p.callers.tasks[1] == B.StopWon(5);
    Then(ls, step);
    ls := ls + [step];
    assert At(ls).p.callers.tasks[1] == B.StopClosed(5);
    Then(ls, step);
    ls := ls + [step];
    assert At(ls).p.callers.tasks[1] == B.StopQueued(5);
    Then(ls, step);
    ls := ls + [step];
  }

  /** The worker has exported the record. */
  predicate Sent(s: State, r: B.Record)
  {
    && s.ops == map[0 := Over, 1 := Stopping(5)]
    && s.p.callers == B.Callers(map[0 := B.EmitDone(r, Some(0)), 1 := B.StopAwait(5)], map[], {}, {})
    && s.p.worker == B.Test(B.Shutdown(1, 5), [], 0, true) && s.p.ledger.calls == [B.ExportCall([r])]
  }

  lemma TakeAll(before: seq<Label>, r: B.Record) returns (ls: seq<Label>)
    requires Requested(At(before), r)
    ensures var s := At(ls);
      && s.ops == At(before).ops && s.p.callers == At(before).p.callers && s.p.ledger.calls == []
      && s.p.worker == B.Test(B.Shutdown(1, 5), [r], 0, true)
  {
    ls := before;
    Then(ls, Inner(B.TakeShutdown));
    ls := ls + [Inner(B.TakeShutdown)];
    Then(ls, Inner(B.Work(true)));
    ls := ls + [Inner(B.Work(true))];
    assert At(ls).p.worker == B.Take(B.Shutdown(1, 5)) && At(ls).p.ledger.t.q.items == [r];
    Then(ls, Inner(B.Work(true)));
    ls := ls + [Inner(B.Work(true))];
  }

  lemma Export(before: seq<Label>, r: B.Record) returns (ls: seq<Label>)
    requires Requested(At(before), r)
    ensures Sent(At(ls), r)
  {
    ls := TakeAll(before, r);
    var step := Inner(B.Work(true));
    Then(ls, step);
    ls := ls + [step];
    assert At(ls).p.worker == B.Send(B.Shutdown(1, 5), [r], 0, true);
    Then(ls, step);
    ls := ls + [step];
    assert [r][..1] == [r] && [r][1..] == [];
    assert At(ls).p.worker == B.Sent(B.Shutdown(1, 5), [], 0, true);
    assert At(ls).p.ledger.calls == [B.ExportCall([r])];
    Then(ls, step);
    ls := ls + [step];
  }

  /** The worker has shut the exporter down, answered and left. */
  lemma Leave(before: seq<Label>, r: B.Record) returns (ls: seq<Label>)
    requires Sent(At(before), r)
    ensures var s := At(ls);
      && s.ops == At(before).ops && s.p.callers.tasks == At(before).p.callers.tasks
      && s.p.callers.responses == map[1 := B.Answer(B.Shutdown(1, 5), true)]
      && s.p.callers.flushCtxs == {} && s.p.callers.cancelled == {}
      && s.p.ledger.calls == [B.ExportCall([r]), B.FlushCall, B.ShutdownCall]
  {
    ls := before;
    var step := Inner(B.Work(true));
    Then(ls, step);
    ls := ls + [step];
    assert At(ls).p.worker == B.Finish(B.Shutdown(1, 5), 0, true);
    Then(ls, step);
    ls := ls + [step];
    assert At(ls).p.worker == B.CloseExporter(B.Shutdown(1, 5), true);
    Then(ls, step);
    ls := ls + [step];
    Then(ls, step);
    ls := ls + [step];
    assert At(ls).p.worker == B.Reply(B.Shutdown(1, 5), true);
    Then(ls, step);
    ls := ls + [step];
  }

  /** The end of the run meets the conditions of end-to-end delivery, and the exporter got the record. */
  lemma RecordArrives(r: B.Record) returns (ls: seq<Label>)
    ensures D.Delivered(At(ls), 1) && F.Handed(At(ls).p.ledger.calls) == [r]
  {
    hide F.Handed;
    ls := Emit(r);
    ls := Request(ls, r);
    ls := Export(ls, r);
    ls := Leave(ls, r);
    Then(ls, Inner(B.Advance(1)));
    ls := ls + [Inner(B.Advance(1))];
    assert At(ls).p.callers.tasks[1] == B.StopDone(5, true, true);
    Then(ls, StopEnd(1));
    ls := ls + [StopEnd(1)];
    HandedOnce(r);
  }

  lemma HandedOnce(r: B.Record)
    ensures F.Handed([B.ExportCall([r]), B.FlushCall, B.ShutdownCall]) == [r]
  {
    var calls := [B.ExportCall([r]), B.FlushCall, B.ShutdownCall];
    F.HandedNext([], calls[0]);
    F.HandedNext([calls[0]], calls[1]);
    F.HandedNext([calls[0], calls[1]], calls[2]);
    assert [] + [calls[0]] == [calls[0]] && [calls[0]] + [calls[1]] == [calls[0], calls[1]];
    assert [calls[0], calls[1]] + [calls[2]] == calls;
  }
}

/** The exact law of what ForceFlush and Shutdown of the span processor answer. */
module SpanAnswers {
  import opened Prelude
  import opened SpanProcessor
  import opened SpanFlow
  import F = SpanFlush

  /** One step: whether the export of this goroutine ends with it, and with which answer. */
  function Noted(s: State, l: Label, id: nat, v: Option<bool>): Option<bool>
  {
    if !l.Export? || l.id != id || id !in s.callers.exporters then v
    else if s.callers.exporters[id].step.XSent? then Some(l.ok)
    else if s.callers.exporters[id].step.XLocked? && s.ledger.batch == [] then Some(true)
    else v
  }

  /** What ExportSpans returned to the goroutine of a ForceFlush in a run; nil if the batch was empty. */
  function Answer(c: Config, s: State, ls: seq<Label>, id: nat): Option<bool>
  {
    if |ls| == 0 then None else
    var init := ls[..|ls| - 1];
    Noted(Run(c, s, init), ls[|ls| - 1], id, Answer(c, s, init, id))
  }

  /** A goroutine that is through has that answer. */
  predicate StepFits(s: State, id: nat, v: Option<bool>)
  {
    id in s.callers.exporters && s.callers.exporters[id].step.XDone? ==> v == Some(s.callers.exporters[id].step.ok)
  }

  lemma NextStepFits(c: Config, s: State, l: Label, id: nat, v: Option<bool>)
    requires StepFits(s, id, v)
    ensures StepFits(Next(c, s, l), id, Noted(s, l, id, v))
  {
    hide Advanced, Worked;
    if l.Advance? { AdvanceSteps(c, s, l.id, l.ok, id); }
    if l.Work? { F.WorkKeeps(c, s); }
  }

  /** A call that starts a goroutine does not find one that is through. */
  lemma AdvanceSteps(c: Config, s: State, x: nat, ok: bool, id: nat)
    ensures var (xs, xs') := (s.callers.exporters, Advanced(c, s, x, ok).callers.exporters);
      id in xs' && xs'[id].step.XDone? ==> id in xs && xs[id] == xs'[id]
  {
    if x in s.callers.tasks {
      F.SendKeeps(c, s, Marker(x, |s.ledger.accepted|));
      if s.callers.tasks[x].EndOpen? { F.OfferedKeeps(c, s, x, s.callers.tasks[x].s, ok); }
      hide Send, Offered;
    }
  }

  lemma {:induction false} RunStepFits(c: Config, ls: seq<Label>, id: nat)
    ensures StepFits(Run(c, Init(), ls), id, Answer(c, Init(), ls, id))
  {
    if |ls| == 0 {
    } else {
      var init := ls[..|ls| - 1];
      RunStepFits(c, init, id);
      hide StepFits, Next, Noted;
      NextStepFits(c, Run(c, Init(), init), ls[|ls| - 1], id, Answer(c, Init(), init, id));
    }
  }

  /** The goroutine of the call has finished its export with this answer. */
  predicate ExportedWith(c: Callers, id: nat, ok: bool, mark: Option<nat>)
  {
    id in c.exporters && c.exporters[id] == Exporter(XDone(ok), mark)
  }

  /** Where the answers of ForceFlush and Shutdown come from. */
  predicate AnswerFits(s: State, id: nat, task: Task)
  {
    match task
    case FlushDone(ctx, ok, mark) =>
      || ExportedWith(s.callers, id, ok, mark)
      || (mark.None? && if ok then s.flags.stopped else ctx in s.callers.cancelled)
    case StopDone(ok, first) => first || ok
    case _ => true
  }

  ghost predicate AnswersFit(s: State)
  {
    forall id :: id in s.callers.tasks ==> AnswerFits(s, id, s.callers.tasks[id])
  }

  /** Steps after which every answer given still stands. */
  lemma AnswerStays(s: State, s': State, id: nat, task: Task)
    requires AnswerFits(s, id, task) && s.callers.cancelled <= s'.callers.cancelled
    requires s.flags.stopped ==> s'.flags.stopped
    requires id in s.callers.exporters && s.callers.exporters[id].step.XDone? ==>
      id in s'.callers.exporters && s'.callers.exporters[id] == s.callers.exporters[id]
    ensures AnswerFits(s', id, task)
  {}

  /** What every step keeps. */
  lemma NextKeeps(c: Config, s: State, l: Label)
    requires Locks(s)
    ensures var s' := Next(c, s, l);
      && s.callers.cancelled <= s'.callers.cancelled && (s.flags.stopped ==> s'.flags.stopped)
      && forall id :: id in s.callers.exporters && s.callers.exporters[id].step.XDone? ==>
        id in s'.callers.exporters && s'.callers.exporters[id] == s.callers.exporters[id]
  {
    hide Advanced, Worked, Received;
    F.WorkKeeps(c, s);
    if l.Advance? { AdvanceKeeps(c, s, l.id, l.ok); }
  }

  lemma AdvanceKeeps(c: Config, s: State, x: nat, ok: bool)
    requires Locks(s)
    ensures var s' := Advanced(c, s, x, ok);
      && s'.callers.cancelled == s.callers.cancelled && (s.flags.stopped ==> s'.flags.stopped)
      && forall id :: id in s.callers.exporters && s.callers.exporters[id].step.XDone? ==>
        id in s'.callers.exporters && s'.callers.exporters[id] == s.callers.exporters[id]
  {
    if x in s.callers.tasks {
      if x in s.callers.exporters { StartedOnce(s.callers, x); }
      F.SendKeeps(c, s, Marker(x, |s.ledger.accepted|));
      if s.callers.tasks[x].EndOpen? { F.OfferedKeeps(c, s, x, s.callers.tasks[x].s, ok); }
      hide Send, Offered, Locks;
    }
  }

  /** The call that a step moves has its answer from where AnswerFits says. */
  lemma NewAnswerFits(c: Config, s: State, l: Label, id: nat)
    requires AnswersFit(s) && (s.flags.stopCh ==> s.flags.stopped) && id in Next(c, s, l).callers.tasks
    requires id in s.callers.tasks ==> Next(c, s, l).callers.tasks[id] != s.callers.tasks[id]
    ensures AnswerFits(Next(c, s, l), id, Next(c, s, l).callers.tasks[id])
  {
    if l.Advance? {
      NewAdvanceFits(c, s, l.id, l.ok, id);
    } else {
      F.WorkKeeps(c, s);
    }
    hide Worked, Received, Advanced, AnswersFit;
  }

  lemma NewAdvanceFits(c: Config, s: State, x: nat, ok: bool, id: nat)
    requires id in Advanced(c, s, x, ok).callers.tasks
    requires id in s.callers.tasks ==> Advanced(c, s, x, ok).callers.tasks[id] != s.callers.tasks[id]
    ensures AnswerFits(Advanced(c, s, x, ok), id, Advanced(c, s, x, ok).callers.tasks[id])
  {
    if x in s.callers.tasks {
      F.SendKeeps(c, s, Marker(x, |s.ledger.accepted|));
      if s.callers.tasks[x].EndOpen? { F.OfferedKeeps(c, s, x, s.callers.tasks[x].s, ok); }
      hide Send, Offered;
    }
  }

  lemma {:induction false} RunAnswersFit(c: Config, ls: seq<Label>)
    requires c.max >= 1
    ensures AnswersFit(Run(c, Init(), ls))
  {
    if |ls| == 0 {
    } else {
      var init, l := ls[..|ls| - 1], ls[|ls| - 1];
      var s := Run(c, Init(), init);
      RunAnswersFit(c, init);
      RunFlow(c, init);
      F.RunMissing(c, init);
      NextKeeps(c, s, l);
      forall id | id in Next(c, s, l).callers.tasks
        ensures AnswerFits(Next(c, s, l), id, Next(c, s, l).callers.tasks[id])
      {
        if id in s.callers.tasks && Next(c, s, l).callers.tasks[id] == s.callers.tasks[id] {
          AnswerStays(s, Next(c, s, l), id, s.callers.tasks[id]);
        } else {
          NewAnswerFits(c, s, l, id);
        }
      }
    }
  }

  /**
    A ForceFlush whose marker came back returns nil exactly when ExportSpans returned nil to its goroutine, or
    the batch was empty.
   */
  lemma FlushReturnsIff(c: Config, ls: seq<Label>, id: nat)
    requires c.max >= 1
    requires var tasks := Run(c, Init(), ls).callers.tasks;
      id in tasks && tasks[id].FlushDone? && tasks[id].mark.Some?
    ensures Answer(c, Init(), ls, id) == Some(Run(c, Init(), ls).callers.tasks[id].ok)
  {
    var s := Run(c, Init(), ls);
    RunAnswersFit(c, ls);
    RunStepFits(c, ls, id);
    assert AnswerFits(s, id, s.callers.tasks[id]);
  }

  /** An error from ForceFlush means that its context is cancelled, or that ExportSpans failed for it. */
  lemma FlushErrorIsReal(c: Config, ls: seq<Label>, id: nat)
    requires c.max >= 1
    requires var tasks := Run(c, Init(), ls).callers.tasks; id in tasks && tasks[id].FlushDone? && !tasks[id].ok
    ensures var s := Run(c, Init(), ls);
      s.callers.tasks[id].ctx in s.callers.cancelled || Answer(c, Init(), ls, id) == Some(false)
  {
    var s := Run(c, Init(), ls);
    RunAnswersFit(c, ls);
    RunStepFits(c, ls, id);
    assert AnswerFits(s, id, s.callers.tasks[id]);
  }

  /** Every Shutdown call but the one in the once returns nil. */
  lemma LaterStopsReturnNil(c: Config, ls: seq<Label>, id: nat)
    requires c.max >= 1
    requires var tasks := Run(c, Init(), ls).callers.tasks; id in tasks && tasks[id].StopDone? && !tasks[id].first
    ensures Run(c, Init(), ls).callers.tasks[id].ok
  {
    var s := Run(c, Init(), ls);
    RunAnswersFit(c, ls);
    assert AnswerFits(s, id, s.callers.tasks[id]);
  }

  /** Shutdown's goroutine waits for the worker, and takes over what the exporter's Shutdown returns. */
  lemma ClosesWith(c: Config, s: State, ok: bool)
    ensures var s' := Next(c, s, Close(ok));
      && s' == s.(flags := s'.flags) && s'.flags == s.flags.(stopCh := s'.flags.stopCh, closer := s'.flags.closer)
      && (s.flags.closer.CloseStop? ==> s'.flags.stopCh && s'.flags.closer.AwaitWorker?)
      && (s.flags.closer.AwaitWorker? && s.worker.Done? ==> s'.flags.closer == Closed(ok))
      && (s.flags.closer.AwaitWorker? && !s.worker.Done? ==> s' == s)
  {}

  /** The call in the once returns that, when it is there and the context not cancelled. */
  lemma OnceReturns(c: Config, s: State, id: nat)
    requires id in s.callers.tasks && s.callers.tasks[id].StopWait? && s.flags.closer.Closed?
    ensures var s' := Next(c, s, Advance(id, true));
      && s'.callers.tasks == s.callers.tasks[id := StopDone(s.flags.closer.ok, true)] && s'.flags.onceOver
      && s'.ledger == s.ledger && s'.worker == s.worker
  {}
}

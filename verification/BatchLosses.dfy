/** Which records a flush covers, and which may be lost, in every reachable state of the log processor. */
module BatchLosses {
  import opened Prelude
  import Q = LogQueue
  import opened BatchProcessor
  import opened BatchFlow
  import opened BatchLifecycle
  import opened BatchAnswers

  /** The first records accepted have left the queue, and what was removed of them is settled. */
  ghost predicate Covered(l: Ledger, mark: nat)
  {
    mark <= |l.t.gone| && |Q.RemovedItems(l.t.gone[..mark])| <= |l.settled|
  }

  /** The worker's flush has begun, and its records have left the queue. */
  ghost predicate JobCovered(l: Ledger, w: Worker)
  {
    HasJob(w) && w.job.Flush? && PastTake(w) ==>
      if w.Reply? then w.ok ==> Covered(l, w.job.mark) else w.job.mark <= |l.t.gone|
  }

  ghost predicate AnswersCovered(l: Ledger, responses: map<nat, Answer>)
  {
    forall id :: id in responses && responses[id].ok && responses[id].job.Flush? ==>
      Covered(l, responses[id].job.mark)
  }

  ghost predicate Cover(s: State)
  {
    JobCovered(s.ledger, s.worker) && AnswersCovered(s.ledger, s.callers.responses)
  }

  ghost predicate Grew(l: Ledger, l': Ledger)
  {
    && |l.t.gone| <= |l'.t.gone| && l'.t.gone[..|l.t.gone|] == l.t.gone
    && |l.settled| <= |l'.settled| && l'.settled[..|l.settled|] == l.settled
    && |l.t.accepted| <= |l'.t.accepted| && l'.t.accepted[..|l.t.accepted|] == l.t.accepted
    && |l.owner| <= |l'.owner| && l'.owner[..|l.owner|] == l.owner
  }

  lemma GrewCovers(l: Ledger, l': Ledger, mark: nat)
    requires Grew(l, l') && Covered(l, mark)
    ensures Covered(l', mark)
  {
    assert l'.t.gone[..mark] == l'.t.gone[..|l.t.gone|][..mark] == l.t.gone[..mark];
  }

  lemma GrewAnswers(l: Ledger, l': Ledger, responses: map<nat, Answer>)
    requires Grew(l, l') && AnswersCovered(l, responses)
    ensures AnswersCovered(l', responses)
  {
    forall id | id in responses && responses[id].ok && responses[id].job.Flush?
      ensures Covered(l', responses[id].job.mark)
    {
      GrewCovers(l, l', responses[id].job.mark);
    }
  }

  /** No step takes back what has happened to a record. */
  lemma NextGrows(b: nat, s: State, l: Label)
    ensures Grew(s.ledger, Next(b, s, l).ledger)
  {
    hide Advanced, Worked;
    match l
    case Advance(id) => AdvanceGrows(b, s, id);
    case Work(ok) => WorkGrows(b, s, ok);
    case _ =>
  }

  lemma AdvanceGrows(b: nat, s: State, id: nat)
    ensures Grew(s.ledger, Advanced(b, s, id).ledger)
  {}

  lemma WorkGrows(b: nat, s: State, ok: bool)
    ensures Grew(s.ledger, Worked(b, s, ok).ledger)
  {}

  lemma {:induction false} RemovedOfPrefix<T>(gone: seq<Q.Gone<T>>, k: nat)
    requires k <= |gone|
    ensures |Q.RemovedItems(gone[..k])| <= |Q.RemovedItems(gone)|
  {
    if k == |gone| {
      assert gone[..k] == gone;
    } else {
      RemovedOfPrefix(gone[..|gone| - 1], k);
      assert gone[..|gone| - 1][..k] == gone[..k];
    }
  }

  /** With empty hands, everything that was removed is settled. */
  lemma EmptyHandsCover(b: nat, l: Ledger, w: Worker, mark: nat)
    requires Flow(b, l, w) && Held(w) == [] && mark <= |l.t.gone|
    ensures Covered(l, mark)
  {
    RemovedOfPrefix(l.t.gone, mark);
    assert |Records(l.settled) + Held(w)| == |l.settled|;
  }

  lemma TakingCover(b: nat, s: State)
    requires Cover(s) && Flow(b, s.ledger, s.worker) && Open(s) && s.worker.Take?
    ensures Cover(Taking(b, s, s.worker.job))
  {
    var s' := Taking(b, s, s.worker.job);
    Q.ApplyConserves(s.ledger.t, Q.Dequeue(|s.ledger.t.q.items|));
    NextGrows(b, s, Work(true));
    GrewAnswers(s.ledger, s'.ledger, s.callers.responses);
    hide AnswersCovered, TasksFit;
  }

  lemma FinishingCover(b: nat, s: State, ok: bool)
    requires Cover(s) && Flow(b, s.ledger, s.worker) && s.worker.Finish?
    ensures Cover(Finishing(b, s, s.worker, ok))
  {
    var w, s' := s.worker, Finishing(b, s, s.worker, ok);
    assert w.job.Flush? ==> w.job.mark <= |s.ledger.t.gone|;
    hide Flow;
    if w.job.Flush? { EmptyHandsCover(b, s.ledger, w, w.job.mark); }
    WorkGrows(b, s, ok);
    assert Worked(b, s, ok) == s' && s'.callers == s.callers;
    hide Grew, Covered, Worked, AnswersCovered;
    GrewAnswers(s.ledger, s'.ledger, s.callers.responses);
    if w.job.Flush? { GrewCovers(s.ledger, s'.ledger, w.job.mark); }
  }

  lemma ReplyingCover(s: State)
    requires Cover(s) && s.worker.Reply?
    ensures Cover(Replying(s, s.worker))
  {
    hide Covered;
  }

  /** Steps at which the worker's job does not begin, take records or end. */
  lemma LaterCover(s: State, s': State)
    requires Cover(s) && Grew(s.ledger, s'.ledger) && s'.callers.responses == s.callers.responses
    requires HasJob(s'.worker) && s'.worker.job.Flush? && PastTake(s'.worker) ==>
      || (HasJob(s.worker) && s.worker.job == s'.worker.job && PastTake(s.worker)
          && (s'.worker.Reply? ==> s.worker == s'.worker))
      || (s'.worker.Reply? && !s'.worker.ok)
    requires s.worker.Reply? && HasJob(s'.worker) ==> s'.worker == s.worker
    ensures Cover(s')
  {
    GrewAnswers(s.ledger, s'.ledger, s.callers.responses);
    var w := s.worker;
    if HasJob(w) && w.job.Flush? && w.Reply? && w.ok { GrewCovers(s.ledger, s'.ledger, w.job.mark); }
    hide AnswersCovered, Covered;
  }

  lemma WorkCover(b: nat, s: State, ok: bool)
    requires Cover(s) && Flow(b, s.ledger, s.worker) && Open(s) && JobFits(s.worker)
    ensures Cover(Worked(b, s, ok))
  {
    hide Cover, Flow, Open;
    if s.worker.Take? {
      TakingCover(b, s);
    } else if s.worker.Finish? {
      FinishingCover(b, s, ok);
    } else if s.worker.Reply? {
      ReplyingCover(s);
    } else {
      WorkGrows(b, s, ok);
      hide Grew;
      LaterCover(s, Worked(b, s, ok));
    }
  }

  lemma NextCover(b: nat, s: State, l: Label)
    requires Cover(s) && Flow(b, s.ledger, s.worker) && Open(s) && JobFits(s.worker)
    ensures Cover(Next(b, s, l))
  {
    NextGrows(b, s, l);
    hide Cover, Flow, Open, Worked, Grew;
    if l.Work? { WorkCover(b, s, l.ok); } else { LaterCover(s, Next(b, s, l)); }
  }

  lemma {:induction false} RunCover(b: nat, cap: nat, ls: seq<Label>)
    requires b >= 1 && cap >= 1
    ensures Cover(After(b, Init(cap), ls))
  {
    if |ls| == 0 {
    } else {
      var before := ls[..|ls| - 1];
      RunCover(b, cap, before);
      RunFlow(b, cap, before);
      RunLife(b, cap, before);
      RunOpen(b, cap, before);
      NextCover(b, After(b, Init(cap), before), ls[|ls| - 1]);
    }
  }

  // ---------------------------------------------------------------- losses

  /** The worker's shutdown has failed, or has been answered with an error. */
  predicate ShutdownFails(s: State)
  {
    var w := s.worker;
    || ((w.Finish? || w.CloseExporter? || w.CloseDone? || w.Reply?) && w.job.Shutdown? && !w.ok)
    || (w.Exited? && s.flags.stopper.Some? && s.flags.stopper.value in s.callers.responses
        && !s.callers.responses[s.flags.stopper.value].ok)
  }

  /** Only a cancelled flush or a cancelled shutdown loses a record that was taken. */
  ghost predicate LossesFit(s: State)
  {
    forall i :: 0 <= i < |s.ledger.settled| && s.ledger.settled[i].how.Discarded? ==>
      var job := s.ledger.settled[i].how.job;
      !job.Batch? && job.ctx in s.callers.cancelled
      && (job.Flush? ==> job.ctx in s.callers.flushCtxs) && (job.Shutdown? ==> ShutdownFails(s))
  }

  lemma LaterLosses(s: State, s': State)
    requires LossesFit(s) && s'.ledger.settled == s.ledger.settled
    requires s.callers.cancelled <= s'.callers.cancelled && s.callers.flushCtxs <= s'.callers.flushCtxs
    requires ShutdownFails(s) ==> ShutdownFails(s')
    ensures LossesFit(s')
  {}

  lemma AbandoningLosses(s: State)
    requires LossesFit(s) && (s.worker.Test? || s.worker.Sent?) && Cancelled(s, s.worker.job) && Open(s)
    ensures LossesFit(Abandoning(s, s.worker))
  {}

  lemma SendingLosses(b: nat, s: State, ok: bool)
    requires LossesFit(s) && s.worker.Send?
    ensures LossesFit(Sending(b, s, s.worker, ok))
  {}

  lemma WorkLosses(b: nat, s: State, ok: bool)
    requires LossesFit(s) && Life(s) && Open(s)
    ensures LossesFit(Worked(b, s, ok))
  {
    hide LossesFit, Open, OneWinner, Abandoning, Sending, Taking;
    var w := s.worker;
    if ((w.Test? && w.left != []) || w.Sent?) && Cancelled(s, w.job) {
      AbandoningLosses(s);
    } else if w.Send? {
      SendingLosses(b, s, ok);
    } else if w.Take? {
      TakingLosses(b, s);
    } else {
      LaterLosses(s, Worked(b, s, ok));
    }
  }

  lemma TakingLosses(b: nat, s: State)
    requires LossesFit(s) && s.worker.Take?
    ensures LossesFit(Taking(b, s, s.worker.job))
  {
    LaterLosses(s, Taking(b, s, s.worker.job));
  }

  lemma NextLosses(b: nat, s: State, l: Label)
    requires LossesFit(s) && Life(s) && Open(s)
    ensures LossesFit(Next(b, s, l))
  {
    hide LossesFit, Open, Worked, OneWinner;
    if l.Work? { WorkLosses(b, s, l.ok); } else { LaterLosses(s, Next(b, s, l)); }
  }

  lemma {:induction false} RunLosses(b: nat, cap: nat, ls: seq<Label>)
    ensures LossesFit(After(b, Init(cap), ls))
  {
    if |ls| == 0 {
    } else {
      var before := ls[..|ls| - 1];
      RunLosses(b, cap, before);
      RunLife(b, cap, before);
      RunOpen(b, cap, before);
      NextLosses(b, After(b, Init(cap), before), ls[|ls| - 1]);
    }
  }
}

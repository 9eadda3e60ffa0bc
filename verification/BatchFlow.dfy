/** Every accepted record is accounted for, in order, in every reachable state of the log processor. */
module BatchFlow {
  import opened Prelude
  import Q = LogQueue
  import opened BatchProcessor

  function Records(settled: seq<Settled>): (r: seq<Record>)
    ensures |r| == |settled|
  {
    seq(|settled|, i requires 0 <= i < |settled| => settled[i].r)
  }

  function ExportedOf(settled: seq<Settled>): seq<Record>
  {
    if |settled| == 0 then [] else
    var last := settled[|settled| - 1];
    ExportedOf(settled[..|settled| - 1]) + if last.how.Exported? then [last.r] else []
  }

  /** The records handed to Export, call after call. */
  function Handed(calls: seq<Call>): seq<Record>
  {
    if |calls| == 0 then [] else
    var last := calls[|calls| - 1];
    Handed(calls[..|calls| - 1]) + if last.ExportCall? then last.chunk else []
  }

  /** What the worker has taken and neither exported nor discarded yet. */
  function Held(w: Worker): seq<Record>
  {
    if w.Test? || w.Send? || w.Sent? then w.left else []
  }

  ghost predicate Flow(b: nat, l: Ledger, w: Worker)
  {
    && Q.Conserved(l.t) && |l.owner| == |l.t.accepted|
    && Q.RemovedItems(l.t.gone) == Records(l.settled) + Held(w)
    && Handed(l.calls) == ExportedOf(l.settled)
    && (forall i :: 0 <= i < |l.calls| && l.calls[i].ExportCall? ==> 1 <= |l.calls[i].chunk| <= b)
    && (w.Send? ==> w.left != [])
  }

  lemma HandedNext(calls: seq<Call>, c: Call)
    ensures Handed(calls + [c]) == Handed(calls) + if c.ExportCall? then c.chunk else []
  {
    assert (calls + [c])[..|calls|] == calls;
  }

  lemma ExportedNext(settled: seq<Settled>, x: Settled)
    ensures ExportedOf(settled + [x]) == ExportedOf(settled) + if x.how.Exported? then [x.r] else []
  {
    assert (settled + [x])[..|settled|] == settled;
  }

  lemma {:induction false} DisposedEffect(settled: seq<Settled>, rs: seq<Record>, how: How)
    ensures Records(settled + Disposed(rs, how)) == Records(settled) + rs
    ensures ExportedOf(settled + Disposed(rs, how)) == ExportedOf(settled) + if how.Exported? then rs else []
  {
    if |rs| == 0 {
      assert settled + Disposed(rs, how) == settled;
    } else {
      var init, last := rs[..|rs| - 1], rs[|rs| - 1];
      DisposedEffect(settled, init, how);
      ExportedNext(settled + Disposed(init, how), Settled(last, how));
      assert settled + Disposed(rs, how) == settled + Disposed(init, how) + [Settled(last, how)];
      hide ExportedOf, Disposed;
      assert rs == init + [last];
    }
  }

  lemma EvictionsKeepRemoved(t: Q.Tracked<Record>)
    ensures Q.RemovedItems(t.gone + Q.Evictee(t.q)) == Q.RemovedItems(t.gone)
  {
    if Q.Evictee(t.q) == [] {
      assert t.gone + Q.Evictee(t.q) == t.gone;
    } else {
      Q.GoneNext(t.gone, Q.Evictee(t.q)[0]);
    }
  }

  lemma EnqueueFlow(b: nat, l: Ledger, w: Worker, r: Record, id: nat)
    requires Flow(b, l, w) && !l.t.q.closed
    ensures Flow(b, l.(t := Q.Apply(l.t, Q.Enqueue(r)), owner := l.owner + [id]), w)
  {
    Q.ApplyConserves(l.t, Q.Enqueue(r));
    EvictionsKeepRemoved(l.t);
    hide Q.Conserved, Q.RemovedItems, Records, Held, Handed, ExportedOf;
  }

  lemma AdvanceFlow(b: nat, s: State, id: nat)
    requires Flow(b, s.ledger, s.worker)
    ensures var s' := Advanced(b, s, id); Flow(b, s'.ledger, s'.worker)
  {
    if id in s.callers.tasks {
      var task := s.callers.tasks[id];
      if task.EmitOpen? && !s.ledger.t.q.closed {
        EnqueueFlow(b, s.ledger, s.worker, task.r, id);
        hide Flow;
      } else if task.StopWon? {
        Q.ApplyConserves(s.ledger.t, Q.Close);
        hide Q.Conserved, Q.RemovedItems, Records, Held, Handed, ExportedOf;
      } else {
        hide Flow;
      }
    }
  }

  lemma TakingFlow(b: nat, s: State, job: Job)
    requires Flow(b, s.ledger, s.worker) && s.worker == Take(job)
    ensures var s' := Taking(b, s, job); Flow(b, s'.ledger, s'.worker)
  {
    var t := s.ledger.t;
    var room := if job.Batch? then b else |t.q.items|;
    var taken := Q.Taken(t.q, room);
    Q.ApplyConserves(t, Q.Dequeue(room));
    Q.LabelledEffect(t.gone, taken);
    assert Held(s.worker) == [];
    hide Q.Conserved, Q.RemovedItems, Q.Labelled, Q.Taken, Q.Dequeued, Records, Handed, ExportedOf;
    assert Records(s.ledger.settled) + [] == Records(s.ledger.settled);
  }

  lemma AbandoningFlow(b: nat, s: State)
    requires Flow(b, s.ledger, s.worker) && (s.worker.Test? || s.worker.Sent?)
    ensures var s' := Abandoning(s, s.worker); Flow(b, s'.ledger, s'.worker)
  {
    var w := s.worker;
    DisposedEffect(s.ledger.settled, w.left, Discarded(w.job));
    hide Q.Conserved, Q.RemovedItems, Records, Disposed, Handed, ExportedOf;
    assert ExportedOf(s.ledger.settled) + [] == ExportedOf(s.ledger.settled);
    assert Records(s.ledger.settled) + w.left + [] == Records(s.ledger.settled) + w.left;
  }

  lemma SendingFlow(b: nat, s: State, ok: bool)
    requires Flow(b, s.ledger, s.worker) && s.worker.Send? && b >= 1
    ensures var s' := Sending(b, s, s.worker, ok); Flow(b, s'.ledger, s'.worker)
  {
    var w := s.worker;
    var n := Min(b, |w.left|);
    DisposedEffect(s.ledger.settled, w.left[..n], Exported);
    HandedNext(s.ledger.calls, ExportCall(w.left[..n]));
    hide Q.Conserved, Q.RemovedItems, Records, Disposed, Handed, ExportedOf;
    assert w.left == w.left[..n] + w.left[n..];
    Rebracket(Records(s.ledger.settled), w.left[..n], w.left[n..]);
  }

  lemma CallingFlow(b: nat, s: State, c: Call, w: Worker)
    requires Flow(b, s.ledger, s.worker) && !c.ExportCall?
    requires Held(s.worker) == Held(w) && !w.Send?
    ensures var s' := Calling(s, c, w); Flow(b, s'.ledger, s'.worker)
  {
    HandedNext(s.ledger.calls, c);
    hide Q.Conserved, Q.RemovedItems, Records, Held, Handed, ExportedOf;
    assert Handed(s.ledger.calls) + [] == Handed(s.ledger.calls);
  }

  lemma SameHandsFlow(b: nat, l: Ledger, w: Worker, w': Worker)
    requires Flow(b, l, w) && Held(w') == Held(w) && (w'.Send? ==> w' == w || w'.left != [])
    ensures Flow(b, l, w')
  {
    hide Q.Conserved, Q.RemovedItems, Records, Held, Handed, ExportedOf;
  }

  lemma TallyFlow(b: nat, l: Ledger, w: Worker)
    requires Flow(b, l, w) && w.Tally?
    ensures Flow(b, l.(t := Q.Apply(l.t, Q.Dropped)), Take(w.job))
  {
    Q.ApplyConserves(l.t, Q.Dropped);
    hide Q.Conserved, Q.RemovedItems, Records, Handed, ExportedOf;
  }

  lemma WorkFlow(b: nat, s: State, ok: bool)
    requires Flow(b, s.ledger, s.worker) && b >= 1
    ensures var s' := Worked(b, s, ok); Flow(b, s'.ledger, s'.worker)
  {
    hide Flow, Taking, Abandoning, Sending;
    var w, w' := s.worker, Worked(b, s, ok).worker;
    if w.Take? {
      TakingFlow(b, s, w.job);
    } else if ((w.Test? && w.left != []) || w.Sent?) && Cancelled(s, w.job) {
      AbandoningFlow(b, s);
    } else if w.Send? {
      SendingFlow(b, s, ok);
    } else if w.Tally? {
      TallyFlow(b, s.ledger, w);
    } else if w.Finish? && !w.job.Batch? && !Cancelled(s, w.job) {
      CallingFlow(b, s, FlushCall, w');
    } else if w.CloseExporter? {
      CallingFlow(b, s, ShutdownCall, w');
    } else {
      SameHandsFlow(b, s.ledger, w, w');
    }
  }

  lemma NextFlow(b: nat, s: State, l: Label)
    requires Flow(b, s.ledger, s.worker) && b >= 1
    ensures var s' := Next(b, s, l); Flow(b, s'.ledger, s'.worker)
  {
    hide Flow, Worked, Advanced;
    match l
    case Advance(id) => AdvanceFlow(b, s, id);
    case Work(ok) => WorkFlow(b, s, ok);
    case _ => SameHandsFlow(b, s.ledger, s.worker, Next(b, s, l).worker);
  }

  /** Conservation in every run, for every capacity and batch size of at least one. */
  lemma {:induction false} RunFlow(b: nat, cap: nat, ls: seq<Label>)
    requires b >= 1 && cap >= 1
    ensures var s := After(b, Init(cap), ls); Flow(b, s.ledger, s.worker)
  {
    if |ls| == 0 {
    } else {
      RunFlow(b, cap, ls[..|ls| - 1]);
      NextFlow(b, After(b, Init(cap), ls[..|ls| - 1]), ls[|ls| - 1]);
    }
  }
}

/** Emits of the log processor and the records it accepts correspond one to one. */
module BatchEmits {
  import opened Prelude
  import Q = LogQueue
  import opened BatchProcessor
  import opened BatchFlow
  import opened BatchLifecycle
  import opened BatchAnswers
  import opened BatchLosses

  /** Where an emit's record stands among the accepted ones. */
  function StoredAt(task: Task): Option<nat>
  {
    match task
    case EmitSignal(_, at) => Some(at)
    case EmitDone(_, at) => at
    case _ => None
  }

  predicate EmitFits(l: Ledger, stopped: bool, id: nat, task: Task)
  {
    match task
    case EmitSignal(r, at) => at < |l.t.accepted| == |l.owner| && l.t.accepted[at] == r && l.owner[at] == id
    case EmitDone(r, at) =>
      if at.None? then stopped
      else at.value < |l.t.accepted| == |l.owner| && l.t.accepted[at.value] == r && l.owner[at.value] == id
    case _ => true
  }

  /** Emits that stored their record and accepted records correspond one to one. */
  ghost predicate Emits(s: State)
  {
    && |s.ledger.owner| == |s.ledger.t.accepted|
    && (forall id :: id in s.callers.tasks ==> EmitFits(s.ledger, s.flags.stopped, id, s.callers.tasks[id]))
    && (forall i :: 0 <= i < |s.ledger.owner| ==>
      s.ledger.owner[i] in s.callers.tasks && StoredAt(s.callers.tasks[s.ledger.owner[i]]) == Some(i))
  }

  lemma EmitFitsLater(l: Ledger, l': Ledger, stopped: bool, stopped': bool, id: nat, task: Task)
    requires EmitFits(l, stopped, id, task) && Grew(l, l') && (stopped ==> stopped')
    requires |l.owner| == |l.t.accepted| && |l'.owner| == |l'.t.accepted|
    ensures EmitFits(l', stopped', id, task)
  {
    if StoredAt(task).Some? {
      var at := StoredAt(task).value;
      assert l'.t.accepted[..|l.t.accepted|][at] == l.t.accepted[at] && l'.owner[..|l.owner|][at] == l.owner[at];
    }
  }

  /** Steps that accept no record, and change at most one call in a way that keeps its place. */
  lemma SameEmits(s: State, s': State, id: nat)
    requires Emits(s) && Grew(s.ledger, s'.ledger) && (s.flags.stopped ==> s'.flags.stopped)
    requires s'.ledger.owner == s.ledger.owner && s'.ledger.t.accepted == s.ledger.t.accepted
    requires s'.callers.tasks.Keys == s.callers.tasks.Keys + if s' == s then {} else {id} * s'.callers.tasks.Keys
    requires forall x :: x in s.callers.tasks && x != id ==> s'.callers.tasks[x] == s.callers.tasks[x]
    requires id in s'.callers.tasks ==>
      EmitFits(s'.ledger, s'.flags.stopped, id, s'.callers.tasks[id])
      && (id in s.callers.tasks ==> StoredAt(s'.callers.tasks[id]) == StoredAt(s.callers.tasks[id]))
    ensures Emits(s')
  {
    forall x | x in s'.callers.tasks
      ensures EmitFits(s'.ledger, s'.flags.stopped, x, s'.callers.tasks[x])
    {
      if x != id { EmitFitsLater(s.ledger, s'.ledger, s.flags.stopped, s'.flags.stopped, x, s.callers.tasks[x]); }
    }
  }

  lemma StoringEmits(b: nat, s: State, id: nat)
    requires Emits(s) && id in s.callers.tasks && s.callers.tasks[id].EmitOpen? && !s.ledger.t.q.closed
    ensures Emits(EmitEnqueues(b, s, id, s.callers.tasks[id].r))
  {
    var r := s.callers.tasks[id].r;
    var s' := EmitEnqueues(b, s, id, r);
    assert Grew(s.ledger, s'.ledger);
    forall x | x in s'.callers.tasks
      ensures EmitFits(s'.ledger, s'.flags.stopped, x, s'.callers.tasks[x])
    {
      if x != id { EmitFitsLater(s.ledger, s'.ledger, s.flags.stopped, s'.flags.stopped, x, s.callers.tasks[x]); }
    }
    forall i | 0 <= i < |s'.ledger.owner|
      ensures s'.ledger.owner[i] in s'.callers.tasks && StoredAt(s'.callers.tasks[s'.ledger.owner[i]]) == Some(i)
    {
      if i < |s.ledger.owner| { assert s.ledger.owner[i] != id; }
    }
  }

  /** A call that accepts no record moves on. */
  lemma MovingEmits(s: State, s': State, id: nat)
    requires Emits(s) && id in s.callers.tasks && id in s'.callers.tasks
    requires s'.callers.tasks == s.callers.tasks[id := s'.callers.tasks[id]]
    requires EmitFits(s'.ledger, s'.flags.stopped, id, s'.callers.tasks[id])
    requires StoredAt(s'.callers.tasks[id]) == StoredAt(s.callers.tasks[id])
    requires (s.flags.stopped ==> s'.flags.stopped) && s'.ledger.owner == s.ledger.owner
    requires s'.ledger.t.accepted == s.ledger.t.accepted && Grew(s.ledger, s'.ledger)
    ensures Emits(s')
  {
    hide Emits, Grew, EmitFits, StoredAt;
    assert s'.callers.tasks.Keys == s.callers.tasks.Keys;
    SameEmits(s, s', id);
  }

  lemma EmitAdvanceEmits(b: nat, s: State, id: nat)
    requires Emits(s) && Life(s) && id in s.callers.tasks
    ensures Emits(EmitAdvances(b, s, id, s.callers.tasks[id]))
  {
    var task := s.callers.tasks[id];
    var s' := EmitAdvances(b, s, id, task);
    assert EmitFits(s.ledger, s.flags.stopped, id, task);
    hide OneWinner, Emits;
    if task.EmitOpen? && !s.ledger.t.q.closed {
      StoringEmits(b, s, id);
    } else if s' != s {
      MovingEmits(s, s', id);
    }
  }

  lemma StopAdvanceEmits(s: State, id: nat)
    requires Emits(s) && id in s.callers.tasks
    ensures Emits(StopAdvances(s, id, s.callers.tasks[id]))
  {
    var s' := StopAdvances(s, id, s.callers.tasks[id]);
    hide Emits;
    if s' != s { MovingEmits(s, s', id); }
  }

  lemma FlushAdvanceEmits(s: State, id: nat)
    requires Emits(s) && id in s.callers.tasks
    ensures Emits(FlushAdvances(s, id, s.callers.tasks[id]))
  {
    var s' := FlushAdvances(s, id, s.callers.tasks[id]);
    hide Emits;
    if s' != s { MovingEmits(s, s', id); }
  }

  lemma AdvanceEmits(b: nat, s: State, id: nat)
    requires Emits(s) && Life(s)
    ensures Emits(Advanced(b, s, id))
  {
    hide Emits, Life, EmitAdvances, FlushAdvances, StopAdvances;
    if id in s.callers.tasks {
      EmitAdvanceEmits(b, s, id);
      FlushAdvanceEmits(s, id);
      StopAdvanceEmits(s, id);
    }
  }

  lemma CallerEmits(b: nat, s: State, l: Label)
    requires Emits(s) && (l.Enter? || l.GiveUp? || l.SeeDone? || l.Handover?)
    ensures Emits(Next(b, s, l))
  {
    var s' := Next(b, s, l);
    NextGrows(b, s, l);
    hide Emits, Grew;
    if s' != s {
      assert s'.callers.tasks == s.callers.tasks[l.id := s'.callers.tasks[l.id]];
      SameEmits(s, s', l.id);
    }
  }

  lemma WorkerEmits(s: State, s': State)
    requires Emits(s) && s'.callers.tasks == s.callers.tasks && s'.flags.stopped == s.flags.stopped
    requires s'.ledger.owner == s.ledger.owner && s'.ledger.t.accepted == s.ledger.t.accepted
    ensures Emits(s')
  {}

  lemma WorkEmits(b: nat, s: State, ok: bool)
    requires Emits(s)
    ensures Emits(Worked(b, s, ok))
  {
    hide Emits;
    WorkerEmits(s, Worked(b, s, ok));
  }

  lemma NextEmits(b: nat, s: State, l: Label)
    requires Emits(s) && Life(s)
    ensures Emits(Next(b, s, l))
  {
    hide Worked, Advanced, Life, Emits;
    match l
    case Advance(id) => AdvanceEmits(b, s, id);
    case Work(ok) => WorkEmits(b, s, ok);
    case Cancel(_) => WorkerEmits(s, Next(b, s, l));
    case TakeShutdown => WorkerEmits(s, Next(b, s, l));
    case TimerFires => WorkerEmits(s, Next(b, s, l));
    case TakeTrigger => WorkerEmits(s, Next(b, s, l));
    case _ => CallerEmits(b, s, l);
  }

  lemma {:induction false} RunEmits(b: nat, cap: nat, ls: seq<Label>)
    ensures Emits(After(b, Init(cap), ls))
  {
    if |ls| == 0 {
    } else {
      RunEmits(b, cap, ls[..|ls| - 1]);
      RunLife(b, cap, ls[..|ls| - 1]);
      NextEmits(b, After(b, Init(cap), ls[..|ls| - 1]), ls[|ls| - 1]);
    }
  }
}

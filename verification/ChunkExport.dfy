/** `chunkExport`: the records of one job go to the exporter in pieces, until its context is cancelled. */
module ChunkExport {
  import opened Prelude
  import B = BatchProcessor
  import C = BatchFlush

  type Record = B.Record

  /** A context: at any look it may turn out to be cancelled, and then stays so. */
  class Context {
    var cancelled: bool
    /** How many looks have found it cancelled. */
    var hits: nat

    constructor ()
      ensures hits == 0
    {
      cancelled, hits := false, 0;
    }

    method Err() returns (isCancelled: bool)
      modifies this
      ensures (old(cancelled) ==> cancelled) && isCancelled == cancelled
      ensures hits == old(hits) + if isCancelled then 1 else 0
    {
      if * { cancelled := true; }
      if cancelled { hits := hits + 1; }
      return cancelled;
    }
  }

  /** The error Export returned, by a number, or the context's error. */
  datatype Failure = ExportFailed(code: nat) | ContextCancelled

  /** The exporter writes down what it is given and what it answers; None is nil, and the answer is arbitrary. */
  class Exporter {
    var calls: seq<seq<Record>>
    var answers: seq<Option<nat>>

    constructor ()
      ensures calls == [] && answers == []
    {
      calls, answers := [], [];
    }

    method Export(records: seq<Record>) returns (err: Option<nat>)
      modifies this
      ensures calls == old(calls) + [records] && answers == old(answers) + [err]
    {
      err := *;
      calls, answers := calls + [records], answers + [err];
    }
  }

  /** The errors among the answers, in order. */
  function Failures(answers: seq<Option<nat>>): seq<Failure>
  {
    if |answers| == 0 then [] else
    var (init, last) := (answers[..|answers| - 1], answers[|answers| - 1]);
    Failures(init) + if last.Some? then [ExportFailed(last.value)] else []
  }

  lemma FailuresNext(answers: seq<Option<nat>>, err: Option<nat>)
    ensures Failures(answers + [err]) == Failures(answers) + if err.Some? then [ExportFailed(err.value)] else []
  {
    assert (answers + [err])[..|answers|] == answers;
  }

  /** There is no error exactly when every answer was nil. */
  lemma {:induction false} NoFailuresIff(answers: seq<Option<nat>>)
    ensures Failures(answers) == [] <==> forall i :: 0 <= i < |answers| ==> answers[i].None?
  {
    if |answers| == 0 {
    } else {
      NoFailuresIff(answers[..|answers| - 1]);
    }
  }

  function Chunks(size: nat, records: seq<Record>): seq<seq<Record>>
    requires size >= 1
  {
    if |records| == 0 then [] else
    var n := Min(size, |records|);
    [records[..n]] + Chunks(size, records[n..])
  }

  function Joined(chunks: seq<seq<Record>>): seq<Record>
  {
    if |chunks| == 0 then [] else chunks[0] + Joined(chunks[1..])
  }

  /** Put together, the chunks are the records. */
  lemma {:induction false} ChunksJoin(size: nat, records: seq<Record>)
    requires size >= 1
    ensures Joined(Chunks(size, records)) == records
  {
    if |records| == 0 {
    } else {
      var n := Min(size, |records|);
      ChunksJoin(size, records[n..]);
      assert Chunks(size, records)[1..] == Chunks(size, records[n..]);
      assert records == records[..n] + records[n..];
    }
  }

  /** Every chunk but the last is full, and none is empty or too large. */
  lemma {:induction false} ChunkSizes(size: nat, records: seq<Record>, i: nat)
    requires size >= 1 && i < |Chunks(size, records)|
    ensures var chunks := Chunks(size, records);
      1 <= |chunks[i]| <= size && (i < |chunks| - 1 ==> |chunks[i]| == size)
  {
    var n := Min(size, |records|);
    if i > 0 { ChunkSizes(size, records[n..], i - 1); }
  }

  /**
    The first chunks reach the exporter, as many as there are new answers: fewer than all only when a look
    found the context cancelled.  The errors joined are those answered, in order, and then the context's, if
    a look found it cancelled; the result is nil when there is none.
   */
  method ChunkExport(ctx: Context, e: Exporter, batchSize: int, records: seq<Record>)
    returns (errs: seq<Failure>, ghost answers: seq<Option<nat>>)
    modifies ctx, e
    ensures e.answers == old(e.answers) + answers && old(ctx.hits) <= ctx.hits <= old(ctx.hits) + 1
    ensures errs == Failures(answers) + if ctx.hits > old(ctx.hits) then [ContextCancelled] else []
    ensures batchSize <= 0 ==> |answers| == 1 && e.calls == old(e.calls) + [records] && ctx.hits == old(ctx.hits)
    ensures batchSize > 0 ==>
      var chunks := Chunks(batchSize, records);
      && |answers| <= |chunks| && e.calls == old(e.calls) + chunks[..|answers|]
      && (|answers| < |chunks| ==> ctx.hits > old(ctx.hits))
  {
    errs, answers := [], [];
    if batchSize <= 0 {
      var err := e.Export(records);
      FailuresNext([], err);
      return if err.Some? then [ExportFailed(err.value)] else [], [err];
    }
    var n, size := |records|, batchSize;
    ghost var chunks := Chunks(size, records);
    var i, j := 0, Min(size, n);
    TakenNone(size, records);
    TakenEnds(size, records, chunks);
    hide Chunks, Failures, Taken;
    while i < n
      invariant 0 <= i && j == Min(i + size, n) && Taken(size, records, i, chunks, |answers|)
      invariant e.calls == old(e.calls) + chunks[..|answers|]
      invariant e.answers == old(e.answers) + answers && ctx.hits == old(ctx.hits) && errs == Failures(answers)
      decreases n - i
    {
      var cancelled := ctx.Err();
      if cancelled { return errs + [ContextCancelled], answers; }
      var err := e.Export(records[i..j]);
      if err.Some? { errs := errs + [ExportFailed(err.value)]; }
      FailuresNext(answers, err);
      NextChunk(size, records, i, chunks, |answers|);
      answers := answers + [err];
      cancelled := ctx.Err();
      if cancelled { return errs + [ContextCancelled], answers; }
      i, j := i + size, Min(j + size, n);
    }
  }

  /** When the loop is at record i, k chunks have been taken and the others are those of the rest. */
  ghost predicate Taken(size: nat, records: seq<Record>, i: nat, chunks: seq<seq<Record>>, k: nat)
    requires size >= 1
  {
    k <= |chunks| && if i < |records| then chunks[k..] == Chunks(size, records[i..]) else k == |chunks|
  }

  lemma TakenNone(size: nat, records: seq<Record>)
    requires size >= 1
    ensures Taken(size, records, 0, Chunks(size, records), 0)
  {
    assert records[0..] == records;
  }

  lemma TakenEnds(size: nat, records: seq<Record>, chunks: seq<seq<Record>>)
    requires size >= 1
    ensures forall i: nat, k: nat :: Taken(size, records, i, chunks, k) ==>
      k <= |chunks| && (i >= |records| ==> k == |chunks|)
  {}

  lemma NextChunk(size: nat, records: seq<Record>, i: nat, chunks: seq<seq<Record>>, k: nat)
    requires size >= 1 && i < |records| && Taken(size, records, i, chunks, k)
    ensures var j := Min(i + size, |records|);
      && k < |chunks| && chunks[k] == records[i..j] && chunks[..k + 1] == chunks[..k] + [records[i..j]]
      && Taken(size, records, i + size, chunks, k + 1)
  {
    var j := Min(i + size, |records|);
    assert records[i..][..j - i] == records[i..j] && records[i..][j - i..] == records[j..];
    assert chunks[k..] == [records[i..j]] + Chunks(size, records[j..]);
    assert chunks[k] == chunks[k..][0];
    assert chunks[k + 1..] == chunks[k..][1..];
  }

  // ---------------------------------------------------------------- the worker of the state machine does the same

  /** The worker's steps for the next chunks: a look, a call with this answer, a look. */
  function Rounds(answers: seq<bool>): (r: seq<B.Label>)
  {
    if |answers| == 0 then [] else
    Rounds(answers[..|answers| - 1]) + [B.Work(true), B.Work(answers[|answers| - 1]), B.Work(true)]
  }

  function ExportCalls(chunks: seq<seq<Record>>): (r: seq<B.Call>)
    ensures |r| == |chunks|
  {
    seq(|chunks|, i requires 0 <= i < |chunks| => B.ExportCall(chunks[i]))
  }

  lemma ThreeWorks(b: nat, s: B.State, ls: seq<B.Label>, ok: bool)
    ensures var s0 := B.After(b, s, ls);
      B.After(b, s, ls + [B.Work(true), B.Work(ok), B.Work(true)]) ==
        B.Next(b, B.Next(b, B.Next(b, s0, B.Work(true)), B.Work(ok)), B.Work(true))
  {
    hide B.Next;
    var a, x := B.Work(true), B.Work(ok);
    C.RunOne(b, s, ls, a);
    C.RunOne(b, s, ls + [a], x);
    C.RunOne(b, s, ls + [a] + [x], a);
    assert ls + [a] + [x] + [a] == ls + [a, x, a];
  }

  /** One round of the loop in the machine: look at the context, export, look again. */
  lemma WorkerRound(b: nat, s: B.State, ok: bool)
    requires b >= 1 && s.worker.Test? && s.worker.left != [] && !B.Cancelled(s, s.worker.job)
    ensures var (w, n) := (s.worker, Min(b, |s.worker.left|));
      var s' := B.Next(b, B.Next(b, B.Next(b, s, B.Work(true)), B.Work(ok)), B.Work(true));
      && s'.worker == B.Test(w.job, w.left[n..], w.remaining, w.ok && ok) && s'.callers == s.callers
      && s'.ledger.calls == s.ledger.calls + [B.ExportCall(w.left[..n])]
  {
    var w := s.worker;
    var s1 := B.Next(b, s, B.Work(true));
    assert s1 == s.(worker := B.Send(w.job, w.left, w.remaining, w.ok));
    var s2 := B.Next(b, s1, B.Work(ok));
    assert s2.worker == B.Sent(w.job, w.left[Min(b, |w.left|)..], w.remaining, w.ok && ok) && s2.callers == s.callers;
  }

  /** From s to s' one chunk was exported for each answer, and the worker knows whether all were nil. */
  ghost predicate Exports(b: nat, s: B.State, s': B.State, answers: seq<bool>)
    requires b >= 1 && s.worker.Test?
  {
    var (w, w', chunks) := (s.worker, s'.worker, Chunks(b, s.worker.left));
    && |answers| <= |chunks|
    && w'.Test? && w'.job == w.job && w'.remaining == w.remaining && Chunks(b, w'.left) == chunks[|answers|..]
    && (w'.ok <==> w.ok && forall i :: 0 <= i < |answers| ==> answers[i])
    && s'.ledger.calls == s.ledger.calls + ExportCalls(chunks[..|answers|]) && s'.callers == s.callers
  }

  lemma ExportsNone(b: nat, s: B.State)
    requires b >= 1 && s.worker.Test?
    ensures Exports(b, s, s, [])
  {
    var chunks := Chunks(b, s.worker.left);
    assert s.ledger.calls + ExportCalls(chunks[..0]) == s.ledger.calls && chunks[0..] == chunks;
  }

  lemma ExportsNext(b: nat, s: B.State, mid: B.State, answers: seq<bool>, ok: bool)
    requires b >= 1 && s.worker.Test? && !B.Cancelled(s, s.worker.job)
    requires Exports(b, s, mid, answers) && |answers| < |Chunks(b, s.worker.left)|
    ensures Exports(b, s, B.Next(b, B.Next(b, B.Next(b, mid, B.Work(true)), B.Work(ok)), B.Work(true)), answers + [ok])
  {
    var k, chunks := |answers|, Chunks(b, s.worker.left);
    hide B.Next, Chunks, ExportCalls;
    ChunkTaken(b, mid.worker.left, chunks, k);
    WorkerRound(b, mid, ok);
    CallsNext(s.ledger.calls, chunks, k);
    AllNext(answers, ok);
  }

  lemma AllNext(answers: seq<bool>, ok: bool)
    ensures (forall i :: 0 <= i < |answers + [ok]| ==> (answers + [ok])[i]) <==>
      ok && forall i :: 0 <= i < |answers| ==> answers[i]
  {
    var all := answers + [ok];
    assert all[|answers|] == ok && forall i :: 0 <= i < |answers| ==> all[i] == answers[i];
  }

  /**
    While the context is good the worker's loop makes the calls of the code's loop, whatever the answers: the
    next chunks, one for each answer, and it remembers whether all answers were nil.
   */
  lemma {:induction false} WorkerSendsChunks(b: nat, s: B.State, answers: seq<bool>)
    requires b >= 1 && s.worker.Test? && !B.Cancelled(s, s.worker.job) && |answers| <= |Chunks(b, s.worker.left)|
    ensures Exports(b, s, B.After(b, s, Rounds(answers)), answers)
  {
    hide Exports, B.Next, B.Cancelled, Chunks, ExportCalls;
    if |answers| == 0 {
      ExportsNone(b, s);
    } else {
      hide B.After;
      var init, last := answers[..|answers| - 1], answers[|answers| - 1];
      WorkerSendsChunks(b, s, init);
      ThreeWorks(b, s, Rounds(init), last);
      ExportsNext(b, s, B.After(b, s, Rounds(init)), init, last);
      assert answers == init + [last];
    }
  }

  lemma ChunkTaken(size: nat, left: seq<Record>, chunks: seq<seq<Record>>, k: nat)
    requires size >= 1 && k < |chunks| && Chunks(size, left) == chunks[k..]
    ensures var n := Min(size, |left|);
      left != [] && left[..n] == chunks[k] && Chunks(size, left[n..]) == chunks[k + 1..]
  {
    assert chunks[k..] != [] && chunks[k..][0] == chunks[k] && chunks[k..][1..] == chunks[k + 1..];
  }

  lemma CallsNext(calls: seq<B.Call>, chunks: seq<seq<Record>>, k: nat)
    requires k < |chunks|
    ensures calls + ExportCalls(chunks[..k + 1]) == calls + ExportCalls(chunks[..k]) + [B.ExportCall(chunks[k])]
  {}

  /**
    The loop's two ends.  After the last chunk it holds whether all answers were nil; when the context is
    cancelled after some chunks, no further call is made and the result is an error.
   */
  lemma WorkerEnds(b: nat, s: B.State, answers: seq<bool>)
    requires b >= 1 && s.worker.Test? && !B.Cancelled(s, s.worker.job) && |answers| <= |Chunks(b, s.worker.left)|
    ensures |answers| == |Chunks(b, s.worker.left)| ==>
      var (w, s') := (s.worker, B.After(b, s, Rounds(answers) + [B.Work(true)]));
      && s'.worker.Finish? && s'.worker.job == w.job && s'.worker.remaining == w.remaining
      && (s'.worker.ok <==> w.ok && forall i :: 0 <= i < |answers| ==> answers[i])
      && s'.ledger.calls == s.ledger.calls + ExportCalls(Chunks(b, w.left))
    ensures |answers| < |Chunks(b, s.worker.left)| && !s.worker.job.Batch? ==>
      var (w, s') := (s.worker, B.After(b, s, Rounds(answers) + [B.Cancel(s.worker.job.ctx)] + [B.Work(true)]));
      && s'.worker == B.Finish(w.job, w.remaining, false)
      && s'.ledger.calls == s.ledger.calls + ExportCalls(Chunks(b, w.left)[..|answers|])
  {
    var chunks, k, mid := Chunks(b, s.worker.left), |answers|, B.After(b, s, Rounds(answers));
    WorkerSendsChunks(b, s, answers);
    if k == |chunks| {
      assert Chunks(b, mid.worker.left) == [] && chunks[..k] == chunks;
      C.RunOne(b, s, Rounds(answers), B.Work(true));
    } else if !s.worker.job.Batch? {
      assert Chunks(b, mid.worker.left) != [];
      var cancel := B.Cancel(s.worker.job.ctx);
      C.RunOne(b, s, Rounds(answers), cancel);
      C.RunOne(b, s, Rounds(answers) + [cancel], B.Work(true));
    }
  }
}

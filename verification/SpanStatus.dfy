/** The status of a span: the highest code set so far wins, and only an error keeps its description. */
module SpanStatus {
  import opened Prelude

  const UNSET := 0
  const ERROR := 1

  datatype Status = Status(code: nat, description: bytes)

  class Span {
    var status: Status
    var recording: bool

    constructor ()
      ensures status == Status(UNSET, []) && recording
    {
      status, recording := Status(UNSET, []), true;
    }

    method SetStatus(code: nat, description: bytes)
      modifies this`status
      ensures status == if recording then After(old(status), Status(code, description)) else old(status)
    {
      if !recording { return; }
      if status.code > code { return; }
      var s := Status(code, []);
      if code == ERROR { s := s.(description := description); }
      status := s;
    }
  }

  function After(s: Status, call: Status): Status
  {
    if s.code > call.code then s else Status(call.code, if call.code == ERROR then call.description else [])
  }

  function AfterAll(calls: seq<Status>): Status
  {
    if |calls| == 0 then Status(UNSET, []) else After(AfterAll(calls[..|calls| - 1]), calls[|calls| - 1])
  }

  /** i is the call that decides: none has a higher code, and no later one the same. */
  predicate Decides(calls: seq<Status>, i: nat)
  {
    && i < |calls|
    && (forall j :: 0 <= j < |calls| ==> calls[j].code <= calls[i].code)
    && (forall j :: i < j < |calls| ==> calls[j].code < calls[i].code)
  }

  /** After any calls the status is that of the last call with the highest code. */
  lemma {:induction false} HighestCodeWins(calls: seq<Status>) returns (i: nat)
    requires calls != []
    ensures Decides(calls, i)
    ensures AfterAll(calls) == Status(calls[i].code, if calls[i].code == ERROR then calls[i].description else [])
  {
    var n := |calls| - 1;
    if n == 0 {
      assert calls[..0] == [];
      return 0;
    }
    i := HighestCodeWins(calls[..n]);
    assert forall j :: 0 <= j < n ==> calls[..n][j] == calls[j];
    if calls[i].code <= calls[n].code { i := n; }
  }

  /** There is one such call. */
  lemma DeciderUnique(calls: seq<Status>, i: nat, j: nat)
    requires Decides(calls, i) && Decides(calls, j)
    ensures i == j
  {
    assert calls[i].code <= calls[j].code && calls[j].code <= calls[i].code;
  }

  /** What a call sets when nothing stands against it. */
  function Alone(call: Status): Status { After(Status(UNSET, []), call) }

  /** The last call overrides all previous ones exactly when none of them had a higher code. */
  lemma LastCallIff(calls: seq<Status>)
    requires calls != []
    ensures var n := |calls| - 1;
      AfterAll(calls) == Alone(calls[n]) <==> forall j :: 0 <= j < n ==> calls[j].code <= calls[n].code
  {
    var n := |calls| - 1;
    var i := HighestCodeWins(calls);
    if forall j :: 0 <= j < n ==> calls[j].code <= calls[n].code { DeciderUnique(calls, i, n); }
  }

  /** An error after an Ok leaves no trace. */
  lemma ErrorAfterOk(description: bytes)
    ensures AfterAll([Status(2, []), Status(ERROR, description)]) == Status(2, []) != Alone(Status(ERROR, description))
  {
    var calls := [Status(2, []), Status(ERROR, description)];
    assert calls[..1] == [Status(2, [])] && [Status(2, [])][..0] == [];
  }
}

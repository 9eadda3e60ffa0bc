/**
  The gate of the logger provider: it counts the operations that may use the processor, and Shutdown
  waits until those already admitted have ended.
 */
module LoggerProvider {

  /** A channel that is only ever closed. */
  datatype Channel = Missing | Open | Closed

  datatype Gate = Gate(active: int, stopped: bool, done: Channel)

  function Begun(g: Gate): Gate
  {
    if g.stopped then g else g.(active := g.active + 1)
  }

  /** Closing a channel that is missing or closed already is a fault. */
  predicate EndFaults(g: Gate)
  {
    g.active == 1 && g.stopped && g.done != Open
  }

  function Ended(g: Gate): Gate
  {
    Gate(g.active - 1, g.stopped, if g.active == 1 && g.stopped then Closed else g.done)
  }

  function Stopped(g: Gate): Gate
  {
    if g.stopped then g else Gate(g.active, true, if g.active == 0 then Closed else Open)
  }

  /** What `waitForProcessorOperationsCompletion` does next. */
  datatype Wait = Drained | GaveUp | Waits

  /** Whether or not the context is cancelled, a completed drain is preferred. */
  function Waited(g: Gate, cancelled: bool): Wait
  {
    if g.done == Closed then Drained else if cancelled then GaveUp else Waits
  }

  class Provider {
    var processorOperationsActive: int
    var stopped: bool
    var processorOperationsDone: Channel

    function State(): Gate
      reads this
    {
      Gate(processorOperationsActive, stopped, processorOperationsDone)
    }

    constructor ()
      ensures State() == Gate(0, false, Missing)
    {
      processorOperationsActive, stopped, processorOperationsDone := 0, false, Missing;
    }

    method BeginProcessorOperation() returns (admitted: bool)
      modifies this
      ensures State() == Begun(old(State())) && admitted == !old(stopped)
    {
      if stopped { return false; }
      processorOperationsActive := processorOperationsActive + 1;
      return true;
    }

    method Close()
      requires processorOperationsDone == Open
      modifies this`processorOperationsDone
      ensures processorOperationsDone == Closed
    {
      processorOperationsDone := Closed;
    }

    method EndProcessorOperation()
      requires !EndFaults(State())
      modifies this
      ensures State() == Ended(old(State()))
    {
      processorOperationsActive := processorOperationsActive - 1;
      if processorOperationsActive == 0 && stopped { Close(); }
    }

    /** The locked part of Shutdown. */
    method Stop() returns (first: bool)
      modifies this
      ensures State() == Stopped(old(State())) && first == !old(stopped)
    {
      if stopped { return false; }
      processorOperationsDone := Open;
      stopped := true;
      if processorOperationsActive == 0 { Close(); }
      return true;
    }
  }
}

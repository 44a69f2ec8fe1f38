/** Requests, results, errors and the audit sink of the SERAPH layer. */
module Seraph {
  import opened Common

  datatype ExecutionError =
    | UnsupportedModule | UnsupportedFunction | CapabilityDenied | InvalidArguments | FileNotFound
    | ModuleLoadError | InvalidModule | WasmCompileError | MissingExport | GuestTrap
    | InvalidMemoryBounds | AllocatorError | FunctionCallError | ChecksumMismatch | UntrustedModule
    | PayloadTooLarge | FuelExhausted

  type Exports = map<string, seq<string>>

  datatype InvocationRequest = InvocationRequest(
    moduleName: string, functionName: string, arguments: map<string, string>, capabilities: Exports)

  datatype InvocationResult = InvocationResult(success: bool, output: string, statusCode: int)

  /** How a call to Execute ends. Two exceptions can leave it: Unlogged, when the audit sink raises one
      on the start event, before anything else is done; and Threw, when serialising the arguments does. */
  datatype Outcome = Returned(result: InvocationResult) | Failed(error: ExecutionError) | Threw | Unlogged
  {
    predicate Escapes() { Threw? || Unlogged? }
  }

  datatype AuditEvent =
    | Started(request: InvocationRequest)
    | Succeeded(request: InvocationRequest, result: InvocationResult)
    | Denied(request: InvocationRequest, error: ExecutionError)

  /** The event that closes a call with this outcome; none after an exception. The executors run to
      their own end only where the sink took the start event, and a sink that took it takes the closing
      one, which says less about the request. */
  function Closing(request: InvocationRequest, outcome: Outcome): seq<AuditEvent> {
    match outcome
    case Returned(result) => [Succeeded(request, result)]
    case Failed(error) => [Denied(request, error)]
    case Threw => []
    case Unlogged => []
  }

  /** All that a call leaves in the log. */
  function Bracket(request: InvocationRequest, outcome: Outcome): seq<AuditEvent> {
    if outcome.Unlogged? then [] else [Started(request)] + Closing(request, outcome)
  }

  // ---- Audit logs of whole runs ----

  /** A call to Execute that has ended. */

  type Ended = (InvocationRequest, Outcome)

  /** The log that these calls leave, one bracket per call. */
  function Log(calls: seq<Ended>): seq<AuditEvent> {
    if calls == [] then [] else Bracket(calls[0].0, calls[0].1) + Log(calls[1..])
  }

  /** Reads a log as a sequence of closed brackets; None if it is not one. */
  function ReadLog(events: seq<AuditEvent>): Option<seq<Ended>> {
    if events == [] then Some([])
    else if |events| == 1 || !events[0].Started? || events[1].Started? then None
    else if events[1].request != events[0].request then None
    else
      var rest := ReadLog(events[2..]);
      var outcome := if events[1].Succeeded? then Returned(events[1].result) else Failed(events[1].error);
      if rest.None? then None else Some([(events[0].request, outcome)] + rest.value)
  }

  predicate NoneThrew(calls: seq<Ended>) {
    forall c | c in calls :: !c.1.Threw?
  }

  /** The calls that reached the log. */
  function Recorded(calls: seq<Ended>): seq<Ended> {
    if calls == [] then [] else (if calls[0].1.Unlogged? then [] else [calls[0]]) + Recorded(calls[1..])
  }

  /** A log is made of closed brackets exactly when no call left by an exception after its start event,
      and then it tells every recorded request, in order, with the very error or result returned. */
  lemma {:induction false} LogTellsAll(calls: seq<Ended>)
    ensures ReadLog(Log(calls)) == if NoneThrew(calls) then Some(Recorded(calls)) else None
  {
    if calls == [] {
    } else {
      var (request, outcome) := calls[0];
      var rest := calls[1..];
      LogTellsAll(rest);
      assert NoneThrew(calls) <==> !outcome.Threw? && NoneThrew(rest) by {
        assert forall c :: c in calls <==> c == calls[0] || c in rest;
      }
      var events := Log(calls);
      if outcome.Unlogged? {
        assert events == Log(rest) && Recorded(calls) == Recorded(rest);
      } else if outcome.Threw? {
        assert events[0] == Started(request);
        FirstIsStart(rest);
        if Log(rest) != [] { assert events[1] == Log(rest)[0]; }
      } else {
        assert events[0] == Started(request) && events[1] == Closing(request, outcome)[0];
        assert events[2..] == Log(rest);
      }
    }
  }

  lemma {:induction false} FirstIsStart(calls: seq<Ended>)
    ensures Log(calls) != [] ==> Log(calls)[0].Started?
  {
    if calls == [] {
    } else {
      FirstIsStart(calls[1..]);
    }
  }

  lemma LogOne(request: InvocationRequest, out: Outcome)
    ensures Log([(request, out)]) == Bracket(request, out)
  {
    var one := [(request, out)];
    assert one[1..] == [] && Log(one) == Bracket(request, out) + [];
  }

  lemma {:induction false} LogAppend(a: seq<Ended>, b: seq<Ended>)
    ensures Log(a + b) == Log(a) + Log(b)
  {
    if a == [] {
      assert a + b == b;
    } else {
      assert (a + b)[1..] == a[1..] + b;
      LogAppend(a[1..], b);
    }
  }

  /** Where audit events go. A sink may raise an exception on the start event of some requests: the one
      that writes a file serialises the request's names and arguments there. */
  class AuditSink {
    const accepts: InvocationRequest -> bool
    var events: seq<AuditEvent>

    constructor (accepts: InvocationRequest -> bool)
      ensures events == [] && this.accepts == accepts
    {
      this.accepts := accepts;
      events := [];
    }

    /** False when an exception is raised, and then nothing is logged. */
    method LogExecutionStart(request: InvocationRequest) returns (ok: bool)
      modifies this`events
      ensures ok == accepts(request)
      ensures events == old(events) + if ok then [Started(request)] else []
    {
      var taken := accepts;
      ok := taken(request);
      if ok { events := events + [Started(request)]; }
    }

    method LogExecutionSuccess(request: InvocationRequest, result: InvocationResult)
      modifies this`events
      ensures events == old(events) + [Succeeded(request, result)]
    {
      events := events + [Succeeded(request, result)];
    }

    method LogExecutionFailure(request: InvocationRequest, error: ExecutionError)
      modifies this`events
      ensures events == old(events) + [Denied(request, error)]
    {
      events := events + [Denied(request, error)];
    }
  }
}

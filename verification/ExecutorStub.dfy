/** The executor used when no WebAssembly engine is wanted: it only knows echo::print. */
module ExecutorStub {
  import opened Common
  import opened Seraph

  /** The request's own capability list grants the function; unlike the registry-backed executor,
      the stub trusts the list that came with the request. */
  predicate Granted(request: InvocationRequest) {
    && request.moduleName != "" && request.functionName != ""
    && request.moduleName in request.capabilities
    && request.functionName in request.capabilities[request.moduleName]
  }

  predicate IsEchoPrint(request: InvocationRequest) {
    Granted(request) && request.moduleName == "echo" && request.functionName == "print"
  }

  /** How the stub answers a request whose start event is logged. */
  predicate Answers(request: InvocationRequest, out: Outcome) {
    && (out.Returned? <==> IsEchoPrint(request) && "message" in request.arguments)
    && (out.Returned? ==> out.result == InvocationResult(true, request.arguments["message"], 0))
    && (out == Failed(CapabilityDenied) <==> !Granted(request))
    && (out == Failed(UnsupportedModule) <==> Granted(request) && request.moduleName != "echo")
    && (out == Failed(UnsupportedFunction) <==>
          Granted(request) && request.moduleName == "echo" && request.functionName != "print")
    && (out == Failed(InvalidArguments) <==> IsEchoPrint(request) && "message" !in request.arguments)
    && !out.Threw?
  }

  class Stub {
    constructor () {}

    method PreFlightCheck(request: InvocationRequest) returns (allowed: bool)
      ensures allowed == Granted(request)
    {
      if request.moduleName == "" || request.functionName == "" { return false; }
      if request.moduleName !in request.capabilities { return false; }
      allowed := false;
      var funcs := request.capabilities[request.moduleName];
      for i := 0 to |funcs|
        invariant !allowed && request.functionName !in funcs[..i]
      {
        if funcs[i] == request.functionName {
          allowed := true;
          break;
        }
        assert funcs[..i + 1] == funcs[..i] + [funcs[i]];
      }
      assert funcs[..|funcs|] == funcs;
    }

    method Execute(request: InvocationRequest, audit: AuditSink) returns (out: Outcome)
      modifies audit`events
      ensures audit.events == old(audit.events) + Bracket(request, out)
      ensures out.Unlogged? <==> !audit.accepts(request)
      ensures audit.accepts(request) ==> Answers(request, out)
    {
      var started := audit.LogExecutionStart(request);
      if !started { return Unlogged; }
      var allowed := PreFlightCheck(request);
      if !allowed {
        audit.LogExecutionFailure(request, CapabilityDenied);
        return Failed(CapabilityDenied);
      }
      if request.moduleName != "echo" {
        audit.LogExecutionFailure(request, UnsupportedModule);
        return Failed(UnsupportedModule);
      }
      if request.functionName != "print" {
        audit.LogExecutionFailure(request, UnsupportedFunction);
        return Failed(UnsupportedFunction);
      }
      if "message" !in request.arguments {
        audit.LogExecutionFailure(request, InvalidArguments);
        return Failed(InvalidArguments);
      }
      var result := InvocationResult(true, request.arguments["message"], 0);
      audit.LogExecutionSuccess(request, result);
      out := Returned(result);
    }
  }

  /** Any sequence of calls to the stub leaves a log that reads back as exactly the calls recorded,
      which are those whose start event the sink took. */
  method Replay(stub: Stub, requests: seq<InvocationRequest>, audit: AuditSink) returns (ghost ended: seq<Ended>)
    modifies audit`events
    ensures |ended| == |requests| && forall i | 0 <= i < |ended| :: ended[i].0 == requests[i]
    ensures forall i | 0 <= i < |ended| :: ended[i].1.Unlogged? <==> !audit.accepts(requests[i])
    ensures audit.events == old(audit.events) + Log(ended)
    ensures ReadLog(Log(ended)) == Some(Recorded(ended))
  {
    hide Bracket, Granted, IsEchoPrint;
    ended := [];
    for i := 0 to |requests|
      invariant |ended| == i && forall k | 0 <= k < i :: ended[k].0 == requests[k]
      invariant forall k | 0 <= k < i :: ended[k].1.Unlogged? <==> !audit.accepts(requests[k])
      invariant audit.events == old(audit.events) + Log(ended)
      invariant NoneThrew(ended)
    {
      var out := stub.Execute(requests[i], audit);
      ghost var one := [(requests[i], out)];
      LogOne(requests[i], out);
      LogAppend(ended, one);
      ended := ended + one;
    }
    LogTellsAll(ended);
  }
}

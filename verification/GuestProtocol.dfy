/** One invocation of a guest as a value: what the host asks of it, what it answers, and how the
    call ends. The executor's methods are proved to produce exactly this transcript. */
module GuestProtocol {
  import opened Common
  import opened Seraph
  import opened Wasmtime
  import opened GuestAbi
  import opened Fips180

  datatype RuntimeLimits = RuntimeLimits(maxInputSize: U32, maxOutputSize: U32, maxFuel: U64)

  const DEFAULT_LIMITS := RuntimeLimits(64 * 1024, 64 * 1024, 100_000_000)

  /** Opening, measuring and reading a file. */
  datatype File = NotOpened | ReadFails | Contents(bytes: seq<Byte>)

  /** What surrounds the executor and stays fixed: the files, the engine, the limits, the serialiser of
      arguments, which raises an exception (None) on strings that are not UTF-8, and the requests whose
      start event the audit sink takes. */
  datatype Host = Host(
    files: string -> File,
    isWat: string -> bool,
    dump: map<string, string> -> Option<string>,
    sem: Semantics,
    limits: RuntimeLimits,
    audits: InvocationRequest -> bool)

  datatype Transcript = Transcript(outcome: Outcome, calls: seq<GuestCall>)

  function Call(host: Host, state: GuestState, name: string, args: seq<U32>): GuestCall {
    GuestCall(name, args, state, host.sem.call(state, name, args))
  }

  function Free(host: Host, state: GuestState, ptr: U32, len: U32): GuestCall {
    Call(host, state, EXPORT_FREE, [ptr, len])
  }

  /** The low half of a raw value, which is where an i32 result sits. */
  function AsI32(value: U64): U32 { value % 0x1_0000_0000 }

  // ---- Store, linker and instance ----

  predicate ExportsUsable(host: Host, state: GuestState, functionName: string) {
    && host.sem.exportKind(state, EXPORT_ALLOC).FunctionExport?
    && host.sem.exportKind(state, EXPORT_FREE).FunctionExport?
    && host.sem.exportKind(state, EXPORT_MEMORY).MemoryExport?
    && host.sem.exportKind(state, functionName).FunctionExport?
  }

  function Open(host: Host, code: Code, functionName: string): Result<GuestState, ExecutionError> {
    if !host.sem.acceptsFuel(host.limits.maxFuel) then Err(FunctionCallError) else
      var reply := host.sem.instantiate(code, host.limits.maxFuel);
      if reply.error || reply.trap then Err(FunctionCallError)
      else if !ExportsUsable(host, reply.state, functionName) then Err(MissingExport)
      else Ok(reply.state)
  }

  // ---- Alloc, write, call, read, free ----

  function AllocFault(reply: CallReply): ExecutionError {
    if reply.trap.Some? then GuestTrap else FunctionCallError
  }

  function CallFault(reply: CallReply): ExecutionError {
    if reply.trap == Some(OutOfFuel) then FuelExhausted else AllocFault(reply)
  }

  /** The result region of a completed call, judged against the memory as it is after the call. */
  function ReadResult(host: Host, reply: CallReply): Outcome {
    var ptr, len := UnpackPtr(reply.value), UnpackLen(reply.value);
    if ptr + len > |reply.after.memory| then Failed(InvalidMemoryBounds)
    else if len > host.limits.maxOutputSize then Failed(PayloadTooLarge)
    else Returned(InvocationResult(true, reply.after.memory[ptr..ptr + len], 0))
  }

  function Converse(host: Host, state: GuestState, functionName: string, payload: string): Transcript {
    if |payload| > host.limits.maxInputSize then Transcript(Failed(PayloadTooLarge), []) else
      var len := |payload|;
      var alloc := Call(host, state, EXPORT_ALLOC, [len]);
      if !alloc.reply.Completed() then
        Transcript(Failed(AllocFault(alloc.reply)), [alloc])
      else
        var ptr := AsI32(alloc.reply.value);
        if ptr + len > |alloc.reply.after.memory| then
          Transcript(Failed(AllocatorError), [alloc, Free(host, alloc.reply.after, ptr, len)])
        else
          var call := Call(host, Written(alloc.reply.after, ptr, payload), functionName, [ptr, len]);
          if !call.reply.Completed() then
            Transcript(Failed(CallFault(call.reply)), [alloc, call, Free(host, call.reply.after, ptr, len)])
          else
            var value := call.reply.value;
            Transcript(ReadResult(host, call.reply),
                       [alloc, call, Free(host, call.reply.after, UnpackPtr(value), UnpackLen(value))])
  }

  function Invoke(host: Host, code: Code, functionName: string, arguments: map<string, string>): Transcript {
    match Open(host, code, functionName)
    case Err(e) => Transcript(Failed(e), [])
    case Ok(state) =>
      match host.dump(arguments)
      case None => Transcript(Threw, [])
      case Some(payload) => Converse(host, state, functionName, payload)
  }

  // ---- What holds of every transcript, whatever the guest does ----

  /** The errors an invocation can end in; none of them comes from a gate or from loading a module. */
  predicate IsInvocationError(e: ExecutionError) {
    e in {FunctionCallError, MissingExport, PayloadTooLarge, GuestTrap,
          AllocatorError, FuelExhausted, InvalidMemoryBounds}
  }

  lemma InvocationErrors(host: Host, code: Code, functionName: string, arguments: map<string, string>)
    ensures var t := Invoke(host, code, functionName, arguments);
            && !t.outcome.Unlogged?
            && (t.outcome.Failed? ==> IsInvocationError(t.outcome.error))
  {
  }

  /** A call leaves by an exception exactly when the instance opens and the arguments cannot be serialised. */
  lemma ThrowsExactly(host: Host, code: Code, functionName: string, arguments: map<string, string>)
    ensures Invoke(host, code, functionName, arguments).outcome.Threw?
       <==> Open(host, code, functionName).Ok? && host.dump(arguments).None?
  {
  }

  /** Byte i of the memory between two consecutive calls: the host may only have put the payload
      there, right after the allocator, inside the region the allocator named. */
  predicate UntouchedOrPayload(t: Transcript, payload: string, k: nat, i: nat)
    requires k + 1 < |t.calls|
  {
    var before, after := t.calls[k].reply.after.memory, t.calls[k + 1].before.memory;
    var ptr := AsI32(t.calls[0].reply.value);
    && |before| == |after|
    && (i < |after| ==>
          if k == 0 && |t.calls| == 3 && ptr <= i < ptr + |payload|
          then after[i] == payload[i - ptr]
          else after[i] == before[i])
  }

  /** The host writes inside the memory as it then is, writes the whole payload, and changes no other
      byte at any point of the conversation; nothing else of the guest's store changes between calls. */
  lemma HostWritesOnlyPayload(host: Host, state: GuestState, functionName: string, payload: string, k: nat, i: nat)
    requires k + 1 < |Converse(host, state, functionName, payload).calls|
    ensures var t := Converse(host, state, functionName, payload);
            && t.calls[0].before == state
            && UntouchedOrPayload(t, payload, k, i)
            && t.calls[k].reply.after.internals == t.calls[k + 1].before.internals
            && (|t.calls| == 3 ==> AsI32(t.calls[0].reply.value) + |payload| <= |t.calls[0].reply.after.memory|)
  {
  }

  /** Output is returned exactly when both calls complete, both regions lie in the memory as it is at
      that moment and the length respects the limits; it is then the guest's own slice. */
  lemma OutputExactly(host: Host, state: GuestState, functionName: string, payload: string, output: string)
    ensures var t := Converse(host, state, functionName, payload);
            t.outcome == Returned(InvocationResult(true, output, 0)) <==>
              && |t.calls| == 3
              && t.calls[1].reply.Completed()
              && var ptr, len := UnpackPtr(t.calls[1].reply.value), UnpackLen(t.calls[1].reply.value);
              && ptr + len <= |t.calls[1].reply.after.memory|
              && len <= host.limits.maxOutputSize
              && output == t.calls[1].reply.after.memory[ptr..ptr + len]
  {
    hide UnpackPtr, UnpackLen;
  }

  /** Every other end of a conversation, told from the guest calls alone: how many there were, how
      each came back, and where the regions lay. */
  lemma FaultsExactly(host: Host, state: GuestState, functionName: string, payload: string)
    ensures var t := Converse(host, state, functionName, payload);
            var called := |t.calls| == 3 && t.calls[1].reply.Completed();
            var end := if called then UnpackPtr(t.calls[1].reply.value) + UnpackLen(t.calls[1].reply.value) else 0;
            var outside := called && end > |t.calls[1].reply.after.memory|;
            && (t.calls == [] <==> |payload| > host.limits.maxInputSize)
            && (t.outcome == Failed(AllocatorError) <==> |t.calls| == 2)
            && (t.outcome == Failed(InvalidMemoryBounds) <==> outside)
            && (t.outcome == Failed(PayloadTooLarge) <==>
                  || t.calls == []
                  || (called && !outside && UnpackLen(t.calls[1].reply.value) > host.limits.maxOutputSize))
            && (t.outcome == Failed(GuestTrap) <==>
                  || (|t.calls| == 1 && t.calls[0].reply.trap.Some?)
                  || (|t.calls| == 3 && t.calls[1].reply.trap.Some? && t.calls[1].reply.trap != Some(OutOfFuel)))
            && (t.outcome == Failed(FunctionCallError) <==>
                  || (|t.calls| == 1 && t.calls[0].reply.trap.None?)
                  || (|t.calls| == 3 && t.calls[1].reply.error && t.calls[1].reply.trap.None?))
  {
    hide UnpackPtr, UnpackLen;
  }

  function CountFrees(calls: seq<GuestCall>): nat {
    if calls == [] then 0 else
      CountFrees(calls[..|calls| - 1]) + if calls[|calls| - 1].name == EXPORT_FREE then 1 else 0
  }

  predicate AllocReturned(calls: seq<GuestCall>) {
    calls != [] && calls[0].reply.Completed()
  }

  /** The last call of a conversation whose allocator returned is the host's free. Its region is the
      payload's until the requested function has completed, and the result's from then on. */
  lemma FreeComesLast(host: Host, code: Code, functionName: string, arguments: map<string, string>)
    ensures var t := Invoke(host, code, functionName, arguments);
            AllocReturned(t.calls) ==>
              && 2 <= |t.calls| <= 3
              && var last := t.calls[|t.calls| - 1];
              && last.name == EXPORT_FREE
              && last.args == if |t.calls| == 3 && t.calls[1].reply.Completed()
                              then [UnpackPtr(t.calls[1].reply.value), UnpackLen(t.calls[1].reply.value)]
                              else [AsI32(t.calls[0].reply.value), |host.dump(arguments).value|]
  {
    hide UnpackPtr, UnpackLen;
  }

  /** seraph_free runs once after an allocator that returned and not at all otherwise, with one exact
      exception: a request may name seraph_free itself, and then its own call counts too. */
  lemma FreeCount(host: Host, code: Code, functionName: string, arguments: map<string, string>)
    ensures var t := Invoke(host, code, functionName, arguments);
            CountFrees(t.calls) == (if AllocReturned(t.calls) then 1 else 0)
                                 + (if |t.calls| == 3 && functionName == EXPORT_FREE then 1 else 0)
  {
    hide UnpackPtr, UnpackLen;
    var t := Invoke(host, code, functionName, arguments);
    if |t.calls| == 1 {
      CountOne(t.calls[0]);
    } else if |t.calls| == 2 {
      CountOne(t.calls[0]);
      assert t.calls[..1] == [t.calls[0]];
    } else if |t.calls| == 3 {
      CountOne(t.calls[0]);
      assert t.calls[..2][..1] == [t.calls[0]];
      assert t.calls[..2][1] == t.calls[1];
    }
  }

  lemma {:induction false} CountFreesAppend(a: seq<GuestCall>, b: seq<GuestCall>)
    ensures CountFrees(a + b) == CountFrees(a) + CountFrees(b)
  {
    if b == [] {
      assert a + b == a;
    } else {
      var last := |b| - 1;
      assert (a + b)[..|a + b| - 1] == a + b[..last];
      CountFreesAppend(a, b[..last]);
    }
  }

  lemma CountOne(c: GuestCall)
    ensures CountFrees([c]) == if c.name == EXPORT_FREE then 1 else 0
  {
    assert [c][..0] == [];
  }

  /** Out of fuel is reported as such only by the requested function; the allocator's trap is a guest trap. */
  lemma FuelExhaustedExactly(host: Host, code: Code, functionName: string, arguments: map<string, string>)
    ensures var t := Invoke(host, code, functionName, arguments);
            t.outcome == Failed(FuelExhausted) <==> |t.calls| == 3 && t.calls[1].reply.trap == Some(OutOfFuel)
  {
    hide UnpackPtr, UnpackLen;
  }
}

/** The echo fixture, end to end: one page of memory, an allocator that always answers 1000, a free
    that does nothing, and a print that packs its two arguments. */
module EchoGuest {
  import opened Common
  import opened Seraph
  import opened ModuleRegistry
  import opened GuestAbi
  import opened Wasmtime
  import opened GuestProtocol
  import opened WasmExecutor
  import Fips180

  const PAGE: nat := 65536
  const BUFFER: nat := 1000

  /** The export is called as the fixture defines it: it completes with this value and leaves the memory
      alone. What it does to the rest of the store, fuel included, is open. */
  ghost predicate Answers(sem: Semantics, state: GuestState, name: string, args: seq<U32>, value: U64) {
    var reply := sem.call(state, name, args);
    reply.Completed() && reply.value == value && reply.after.memory == state.memory
  }

  /** In this store, the allocator and then print answer as the fixture defines them. Nothing is asked of
      other stores, other exports or other calls. */
  ghost predicate EchoesIn(sem: Semantics, state: GuestState, payload: string) {
    && |state.memory| == PAGE
    && (|payload| <= PAGE ==> Answers(sem, state, EXPORT_ALLOC, [|payload|], BUFFER))
    && (BUFFER + |payload| <= PAGE ==>
          var ready := sem.call(state, EXPORT_ALLOC, [|payload|]).after;
          |ready.memory| == PAGE ==>
            Answers(sem, Written(ready, BUFFER, payload), "print", [BUFFER, |payload|], Packed(payload)))
  }

  function Packed(payload: string): U64
    requires BUFFER + |payload| <= PAGE
  {
    PackIsTwoDigits(BUFFER, |payload|);
    PackI64(BUFFER, |payload|)
  }

  /** The engine opens the fixture's code to a store that echoes this payload and has the four exports. */
  ghost predicate RunsEcho(sem: Semantics, code: Code, fuel: U64, payload: string) {
    && sem.acceptsFuel(fuel)
    && var reply := sem.instantiate(code, fuel);
    && !reply.error && !reply.trap
    && sem.exportKind(reply.state, EXPORT_MEMORY).MemoryExport?
    && (forall name | name in {EXPORT_ALLOC, EXPORT_FREE, "print"} :: sem.exportKind(reply.state, name).FunctionExport?)
    && EchoesIn(sem, reply.state, payload)
  }

  /** The guest fails where its buffer ends, before the executor's own limit: a payload comes back
      byte for byte exactly up to 64536 bytes, is an allocator error up to 65536, and too large beyond. */
  lemma EchoConversation(host: Host, state: GuestState, payload: string)
    requires host.limits == DEFAULT_LIMITS && EchoesIn(host.sem, state, payload)
    ensures Converse(host, state, "print", payload).outcome ==
              if |payload| <= 64536 then Returned(InvocationResult(true, payload, 0))
              else if |payload| <= 65536 then Failed(AllocatorError)
              else Failed(PayloadTooLarge)
  {
    hide PackI64, UnpackPtr, UnpackLen;
    if |payload| <= 64536 {
      UnpackPack(BUFFER, |payload|);
      var written := Written(host.sem.call(state, EXPORT_ALLOC, [|payload|]).after, BUFFER, payload);
      assert written.memory[BUFFER..BUFFER + |payload|] == payload;
    }
  }

  /** The same through every gate: a tracked, trusted echo module that exports print, whose file has
      the digest the table asks for (or which is cached already). */
  lemma EchoEndToEnd(host: Host, table: Table, cache: Cache, request: InvocationRequest, code: Code, payload: string)
    requires request.moduleName == "echo" && request.functionName == "print" && host.audits(request)
    requires InPolicy(table, "echo", "print")
    requires Acquire(host, cache, table["echo"], "echo") == Ok(code)
    requires host.limits == DEFAULT_LIMITS && RunsEcho(host.sem, code, host.limits.maxFuel, payload)
    requires host.dump(request.arguments) == Some(payload)
    ensures Run(host, table, cache, request).outcome ==
              if |payload| <= 64536 then Returned(InvocationResult(true, payload, 0))
              else if |payload| <= 65536 then Failed(AllocatorError)
              else Failed(PayloadTooLarge)
  {
    hide LoadModule, Converse, EchoesIn;
    EchoConversation(host, host.sem.instantiate(code, host.limits.maxFuel).state, payload);
  }

  // ---- An engine that runs the fixture ----

  function EchoCall(state: GuestState, name: string, args: seq<U32>): CallReply {
    if name == EXPORT_ALLOC && |args| == 1 then CallReply(false, None, BUFFER, state)
    else if name == EXPORT_FREE && |args| == 2 then CallReply(false, None, 0, state)
    else if name == "print" && |args| == 2 then
      PackIsTwoDigits(args[0], args[1]);
      CallReply(false, None, PackI64(args[0], args[1]), state)
    else CallReply(true, None, 0, state)
  }

  function EchoExport(name: string): ExportKind {
    if name == EXPORT_MEMORY then MemoryExport
    else if name in {EXPORT_ALLOC, EXPORT_FREE, "print"} then FunctionExport
    else NoExport
  }

  /** One page of zeros, and every module is the fixture. */
  function EchoEngine(): Semantics {
    Semantics(
      (b: seq<Fips180.Byte>) => Some(b), (b: seq<Fips180.Byte>) => true, (f: U64) => true,
      (c: Code, f: U64) => InstantiateReply(false, false, GuestState(seq(PAGE, i => 0 as char), 0)),
      (s: GuestState, name: string) => EchoExport(name),
      (s: GuestState, name: string, args: seq<U32>) => EchoCall(s, name, args))
  }

  lemma NamesDiffer()
    ensures EXPORT_ALLOC != EXPORT_MEMORY && EXPORT_FREE != EXPORT_MEMORY && "print" != EXPORT_MEMORY
    ensures EXPORT_ALLOC != "print" && EXPORT_FREE != "print" && EXPORT_ALLOC != EXPORT_FREE
  {
    assert |EXPORT_ALLOC| == 12 && |EXPORT_FREE| == 11 && |EXPORT_MEMORY| == 6 && |"print"| == 5;
  }

  /** Such an engine exists, so the two results above are about something. */
  lemma EchoEngineRuns(code: Code, fuel: U64, payload: string)
    ensures RunsEcho(EchoEngine(), code, fuel, payload)
  {
    hide PackI64;
    NamesDiffer();
  }
}

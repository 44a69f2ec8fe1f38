/** The SERAPH executor: authorisation gates, the module cache, native handles and the guest protocol. */
module WasmExecutor {
  import opened Common
  import opened Seraph
  import opened ModuleRegistry
  import opened Wasmtime
  import opened GuestProtocol
  import opened GuestAbi
  import Fips180
  import Sha256

  // ---- Execute as a value ----

  predicate PreFlight(table: Table, request: InvocationRequest) {
    && request.moduleName != "" && request.functionName != ""
    && request.moduleName in table
    && request.moduleName in table[request.moduleName].capabilities
    && request.functionName in table[request.moduleName].capabilities[request.moduleName]
  }

  /** The pattern ^[a-zA-Z0-9_-]+$ */
  predicate NameMatches(name: string) {
    name != "" && forall c | c in name :: 'a' <= c <= 'z' || 'A' <= c <= 'Z' || '0' <= c <= '9' || c == '_' || c == '-'
  }

  /** The error of the first gate that refuses a request, if any. */
  function Gate(table: Table, request: InvocationRequest): Option<ExecutionError> {
    if !PreFlight(table, request) then Some(CapabilityDenied)
    else if !NameMatches(request.moduleName) then Some(InvalidModule)
    else if request.moduleName !in table then Some(UnsupportedModule)
    else if !table[request.moduleName].trusted then Some(UntrustedModule)
    else if table[request.moduleName].guestAbiVersion != GuestAbi.VERSION then Some(ModuleLoadError)
    else None
  }

  /** A request that reaches the trust and ABI gates and fails them evicts its module. */
  predicate Evicts(table: Table, request: InvocationRequest) {
    && PreFlight(table, request) && NameMatches(request.moduleName)
    && (request.moduleName !in table || !Bindable(table[request.moduleName]))
  }

  /** Reading, hashing and compiling a module's file. */
  function LoadModule(host: Host, profile: RegisteredModule): Result<Code, ExecutionError> {
    match host.files(profile.filePath)
    case NotOpened => Err(FileNotFound)
    case ReadFails => Err(ModuleLoadError)
    case Contents(bytes) =>
      if bytes == [] then Err(ModuleLoadError)
      else if Fips180.Digest(bytes) != profile.sha256 then Err(ChecksumMismatch)
      else
        var wasm := if host.isWat(profile.filePath) then host.sem.wat2wasm(bytes) else Some(bytes);
        if wasm.None? then Err(WasmCompileError)
        else if !host.sem.compiles(wasm.value) then Err(ModuleLoadError)
        else Ok(wasm.value)
  }

  type Cache = map<string, Code>

  function Acquire(host: Host, cache: Cache, profile: RegisteredModule, name: string): Result<Code, ExecutionError> {
    if name in cache then Ok(cache[name]) else LoadModule(host, profile)
  }

  /** How a call ends, what it asked of the guest, and the cache it leaves. */
  datatype Execution = Execution(outcome: Outcome, calls: seq<GuestCall>, cache: Cache)

  function Run(host: Host, table: Table, cache: Cache, request: InvocationRequest): Execution {
    var name := request.moduleName;
    var gate := Gate(table, request);
    if !host.audits(request) then Execution(Unlogged, [], cache)
    else if gate.Some? then
      Execution(Failed(gate.value), [], if Evicts(table, request) then cache - {name} else cache)
    else
      match Acquire(host, cache, table[name], name)
      case Err(e) => Execution(Failed(e), [], cache)
      case Ok(code) =>
        var t := Invoke(host, code, request.functionName, request.arguments);
        Execution(t.outcome, t.calls, cache[name := code])
  }

  /** Once past the gates, no call ends unlogged. */
  lemma NeverUnlogged(host: Host, profile: RegisteredModule, cache: Cache, request: InvocationRequest)
    ensures match Acquire(host, cache, profile, request.moduleName)
            case Err(_) => true
            case Ok(code) => !Invoke(host, code, request.functionName, request.arguments).outcome.Unlogged?
  {
    hide LoadModule, Invoke;
    var acquired := Acquire(host, cache, profile, request.moduleName);
    if acquired.Ok? { InvocationErrors(host, acquired.value, request.functionName, request.arguments); }
  }

  // ---- Names, handles and live modules ----

  /** The live modules are exactly the cached handles, one handle per name. */
  ghost predicate Owns(cached: map<string, Handle>, modules: map<Handle, Code>) {
    && (forall n | n in cached :: cached[n] in modules)
    && (forall h | h in modules :: exists n :: n in cached && cached[n] == h)
    && (forall n, m | n in cached && m in cached && cached[n] == cached[m] :: n == m)
  }

  /** The cache with each handle replaced by what it compiles. */
  ghost function View(cached: map<string, Handle>, modules: map<Handle, Code>): (v: Cache)
    requires Owns(cached, modules)
    ensures v.Keys == cached.Keys
  {
    map n | n in cached :: modules[cached[n]]
  }

  lemma ViewAt(cached: map<string, Handle>, modules: map<Handle, Code>, name: string)
    requires Owns(cached, modules) && name in cached
    ensures cached[name] in modules && View(cached, modules)[name] == modules[cached[name]]
    ensures View(cached, modules) == View(cached, modules)[name := modules[cached[name]]]
  {
  }

  lemma OwnsInsert(cached: map<string, Handle>, modules: map<Handle, Code>, name: string, h: Handle, code: Code)
    requires Owns(cached, modules) && name !in cached && h !in modules
    ensures Owns(cached[name := h], modules[h := code])
    ensures View(cached[name := h], modules[h := code]) == View(cached, modules)[name := code]
  {
    var c, m := cached[name := h], modules[h := code];
    forall k | k in m ensures exists n :: n in c && c[n] == k {
      if k == h {
        assert c[name] == k;
      } else {
        var n :| n in cached && cached[n] == k;
        assert c[n] == k;
      }
    }
  }

  lemma OwnsNothing(modules: map<Handle, Code>)
    requires Owns(map[], modules)
    ensures modules == map[] && View(map[], modules) == map[]
  {
    assert forall h :: h !in modules;
  }

  lemma OwnsErase(cached: map<string, Handle>, modules: map<Handle, Code>, name: string)
    requires Owns(cached, modules) && name in cached
    ensures Owns(cached - {name}, modules - {cached[name]})
    ensures View(cached - {name}, modules - {cached[name]}) == View(cached, modules) - {name}
  {
    var c, m := cached - {name}, modules - {cached[name]};
    forall k | k in m ensures exists n :: n in c && c[n] == k {
      var n :| n in cached && cached[n] == k;
      assert c[n] == k;
    }
  }

  // ---- The executor ----

  class Executor {
    const host: Host
    const registry: Registry
    const native: Runtime
    var cached: map<string, Handle>

    ghost predicate Valid()
      reads this, native
    {
      native.Valid() && native.sem == host.sem && Owns(cached, native.modules)
    }

    ghost function CacheView(): Cache
      reads this, native
      requires Valid()
    {
      View(cached, native.modules)
    }

    constructor (registry: Registry, host: Host)
      ensures Valid() && this.registry == registry && this.host == host && fresh(native)
      ensures CacheView() == map[] && native.modules == map[] && native.stores == map[]
      ensures native.linkers == {} && native.errors == {} && native.traps == map[] && native.buffers == map[]
    {
      this.registry, this.host := registry, host;
      native := new Runtime(host.sem);
      cached := map[];
    }

    method InspectCacheCount() returns (n: nat)
      requires Valid()
      ensures n == |CacheView()|
    {
      assert CacheView().Keys == cached.Keys;
      n := |cached|;
    }

    method ClearCache()
      requires Valid()
      modifies this`cached, native`modules
      ensures Valid() && CacheView() == map[] && native.modules == map[]
    {
      hide Owns, View, Runtime.Valid;
      ghost var left := cached;
      var remaining := cached.Keys;
      while remaining != {}
        invariant cached == old(cached) && native.Valid()
        invariant left.Keys == remaining && remaining <= cached.Keys && Owns(left, native.modules)
        invariant forall n | n in left :: left[n] == cached[n]
        decreases |remaining|
      {
        var name :| name in remaining;
        OwnsErase(left, native.modules, name);
        ViewAt(left, native.modules, name);
        native.DeleteModule(cached[name]);
        left := left - {name};
        remaining := remaining - {name};
      }
      assert left == map[];
      OwnsNothing(native.modules);
      cached := map[];
    }

    method PreFlightCheck(request: InvocationRequest) returns (allowed: bool)
      ensures allowed == PreFlight(registry.tracked, request)
    {
      if request.moduleName == "" || request.functionName == "" { return false; }
      var profile := registry.GetModuleProfile(request.moduleName);
      if profile.None? { return false; }
      var exports := profile.value.capabilities;
      if request.moduleName !in exports { return false; }
      allowed := false;
      var funcs := exports[request.moduleName];
      for i := 0 to |funcs|
        invariant !allowed && request.functionName !in funcs[..i]
      {
        if funcs[i] == request.functionName {
          allowed := true;
          break;
        }
        assert funcs[..i + 1] == funcs[..i] + [funcs[i]];
      }
      assert funcs[..|funcs|] == funcs;
    }

    /** Nothing but modules and the call log may differ from before. */
    twostate predicate Conserved()
      reads this, native
    {
      && native.stores == old(native.stores) && native.linkers == old(native.linkers)
      && native.errors == old(native.errors) && native.traps == old(native.traps)
      && native.buffers == old(native.buffers)
    }

    /** One more store and one more linker than before, and these are they. */
    twostate predicate HasNew(new store: Handle, new linker: Handle)
      reads this, native
    {
      && store in native.stores && native.stores - {store} == old(native.stores)
      && linker in native.linkers && native.linkers - {linker} == old(native.linkers)
    }

    /** A cached module, or else its file read, hashed, compiled and cached. */
    method AcquireModule(profile: RegisteredModule, request: InvocationRequest, audit: AuditSink)
      returns (r: Result<Handle, ExecutionError>)
      requires Valid()
      modifies this`cached, native`modules, native`buffers, native`errors, native`next, audit`events
      ensures Valid() && Conserved()
      ensures var code := Acquire(host, old(CacheView()), profile, request.moduleName);
              match r
              case Ok(h) => && code.Ok? && h in native.modules && native.modules[h] == code.value
                            && CacheView() == old(CacheView())[request.moduleName := code.value]
                            && audit.events == old(audit.events)
              case Err(e) => && code == Err(e) && CacheView() == old(CacheView())
                             && audit.events == old(audit.events) + [Denied(request, e)]
    {
      hide LoadModule, Owns, View, Runtime.Valid;
      if request.moduleName in cached {
        ViewAt(cached, native.modules, request.moduleName);
        return Ok(cached[request.moduleName]);
      }
      r := CompileModule(profile, request, audit);
      if r.Ok? {
        OwnsInsert(cached, old(native.modules), request.moduleName, r.value, native.modules[r.value]);
        cached := cached[request.moduleName := r.value];
      }
    }

    /** The module's file read, hashed and compiled: one new live module, or none. */
    method CompileModule(profile: RegisteredModule, request: InvocationRequest, audit: AuditSink)
      returns (r: Result<Handle, ExecutionError>)
      requires native.Valid() && native.sem == host.sem
      modifies native`modules, native`buffers, native`errors, native`next, audit`events
      ensures native.Valid() && Conserved()
      ensures var code := LoadModule(host, profile);
              match r
              case Ok(h) => && code.Ok? && h !in old(native.modules)
                            && native.modules == old(native.modules)[h := code.value]
                            && audit.events == old(audit.events)
              case Err(e) => && code == Err(e) && native.modules == old(native.modules)
                             && audit.events == old(audit.events) + [Denied(request, e)]
    {
      hide Fips180.Digest, Runtime.Valid;
      var file := host.files(profile.filePath);
      if file.NotOpened? {
        audit.LogExecutionFailure(request, FileNotFound);
        return Err(FileNotFound);
      }
      if file.ReadFails? || file.bytes == [] {
        audit.LogExecutionFailure(request, ModuleLoadError);
        return Err(ModuleLoadError);
      }
      var computedHash := Sha256.ComputeSha256(file.bytes);
      if computedHash != profile.sha256 {
        audit.LogExecutionFailure(request, ChecksumMismatch);
        return Err(ChecksumMismatch);
      }
      var wasm := file.bytes;
      if host.isWat(profile.filePath) {
        var converted := host.sem.wat2wasm(file.bytes);
        if converted.None? {
          var err := native.NewError();
          native.DeleteError(err);
          audit.LogExecutionFailure(request, WasmCompileError);
          return Err(WasmCompileError);
        }
        wasm := converted.value;
      }
      var buffer := native.NewBuffer(wasm);
      var error, module_ := native.NewModule(buffer);
      native.DeleteBuffer(buffer);
      if error.Some? {
        native.DeleteError(error.value);
        audit.LogExecutionFailure(request, ModuleLoadError);
        return Err(ModuleLoadError);
      }
      r := Ok(module_);
    }

    /** The four exports a call needs, each of the right kind. */
    method ResolveExports(store: Handle, functionName: string) returns (usable: bool)
      requires native.Valid() && native.sem == host.sem && store in native.stores
      ensures usable == ExportsUsable(host, native.stores[store], functionName)
    {
      var alloc := native.ExportGet(store, EXPORT_ALLOC);
      var free := native.ExportGet(store, EXPORT_FREE);
      var memory := native.ExportGet(store, EXPORT_MEMORY);
      var func := native.ExportGet(store, functionName);
      usable := alloc.FunctionExport? && free.FunctionExport? && memory.MemoryExport? && func.FunctionExport?;
    }

    /** A store with its fuel; none is left behind when setting the fuel fails. */
    method FuelledStore(request: InvocationRequest, audit: AuditSink) returns (r: Result<Handle, ExecutionError>)
      requires native.Valid() && native.sem == host.sem
      modifies native`stores, native`errors, native`next, audit`events
      ensures native.Valid() && native.errors == old(native.errors)
      ensures match r
              case Ok(store) =>
                && host.sem.acceptsFuel(host.limits.maxFuel) && audit.events == old(audit.events)
                && store in native.stores && native.stores - {store} == old(native.stores)
              case Err(e) =>
                && e == FunctionCallError && !host.sem.acceptsFuel(host.limits.maxFuel)
                && native.stores == old(native.stores) && audit.events == old(audit.events) + [Denied(request, e)]
    {
      hide Runtime.Valid;
      var store := native.NewStore();
      var fuelError := native.SetFuel(store, host.limits.maxFuel);
      if fuelError.Some? {
        native.DeleteError(fuelError.value);
        native.DeleteStore(store);
        audit.LogExecutionFailure(request, FunctionCallError);
        return Err(FunctionCallError);
      }
      r := Ok(store);
    }

    /** Store, instance and exports for one call; nothing is left behind when that fails. */
    method OpenInstance(module_: Handle, request: InvocationRequest, audit: AuditSink)
      returns (r: Result<(Handle, Handle), ExecutionError>)
      requires native.Valid() && native.sem == host.sem && module_ in native.modules
      modifies native`stores, native`linkers, native`errors, native`traps, native`next, audit`events
      ensures native.Valid() && native.errors == old(native.errors) && native.traps == old(native.traps)
      ensures var instance := Open(host, native.modules[module_], request.functionName);
              match r
              case Ok((store, linker)) =>
                && instance.Ok? && audit.events == old(audit.events)
                && HasNew(store, linker) && native.stores[store] == instance.value
              case Err(e) =>
                && instance == Err(e) && Conserved()
                && audit.events == old(audit.events) + [Denied(request, e)]
    {
      hide Runtime.Valid, ExportsUsable;
      var fuelled := FuelledStore(request, audit);
      if fuelled.Err? { return Err(fuelled.error); }
      var store := fuelled.value;
      var linker := native.NewLinker();
      var error, trap := native.Instantiate(linker, store, module_, host.limits.maxFuel);
      if error.Some? || trap.Some? {
        native.DeleteFault(error, trap);
        native.DeleteLinker(linker);
        native.DeleteStore(store);
        audit.LogExecutionFailure(request, FunctionCallError);
        return Err(FunctionCallError);
      }
      var usable := ResolveExports(store, request.functionName);
      if !usable {
        Teardown(store, linker);
        audit.LogExecutionFailure(request, MissingExport);
        return Err(MissingExport);
      }
      r := Ok((store, linker));
    }

    /** The release that follows every use of an instance, whatever the outcome. */
    method Teardown(store: Handle, linker: Handle)
      requires native.Valid() && store in native.stores && linker in native.linkers
      modifies native`stores, native`linkers
      ensures native.Valid()
      ensures native.stores == old(native.stores) - {store} && native.linkers == old(native.linkers) - {linker}
    {
      native.DeleteLinker(linker);
      native.DeleteStore(store);
    }

    /** Calls the guest's free and drops whatever error or trap that gives. */
    method CleanupAndFree(store: Handle, ptr: U32, len: U32)
      requires native.Valid() && native.sem == host.sem && store in native.stores
      modifies native`stores, native`errors, native`traps, native`next, native`calls
      ensures native.Valid() && store in native.stores
      ensures native.stores - {store} == old(native.stores) - {store}
      ensures native.errors == old(native.errors) && native.traps == old(native.traps)
      ensures native.calls == old(native.calls) + [Free(host, old(native.stores)[store], ptr, len)]
    {
      hide Runtime.Valid;
      var freeError, freeTrap, _ := native.FuncCall(store, EXPORT_FREE, [ptr, len]);
      native.DeleteFault(freeError, freeTrap);
    }

    /** Step 1: the guest's allocator. */
    method Allocate(store: Handle, linker: Handle, request: InvocationRequest, payload: string, audit: AuditSink)
      returns (r: Result<U32, ExecutionError>)
      requires native.Valid() && native.sem == host.sem && store in native.stores && linker in native.linkers
      modifies native, audit`events
      ensures native.Valid() && native.modules == old(native.modules) && native.buffers == old(native.buffers)
      ensures native.errors == old(native.errors) && native.traps == old(native.traps)
      ensures native.stores - {store} == old(native.stores) - {store}
      ensures var state := old(native.stores)[store];
              match r
              case Ok(ptr) =>
                && |payload| <= host.limits.maxInputSize
                && var alloc := Call(host, state, EXPORT_ALLOC, [|payload|]);
                && alloc.reply.Completed() && ptr == AsI32(alloc.reply.value)
                && store in native.stores && native.stores[store] == alloc.reply.after
                && native.linkers == old(native.linkers)
                && native.calls == old(native.calls) + [alloc] && audit.events == old(audit.events)
              case Err(e) =>
                && var t := Converse(host, state, request.functionName, payload);
                && t.outcome == Failed(e) && native.calls == old(native.calls) + t.calls
                && store !in native.stores && native.linkers == old(native.linkers) - {linker}
                && audit.events == old(audit.events) + [Denied(request, e)]
    {
      hide Runtime.Valid;
      if |payload| > host.limits.maxInputSize {
        Teardown(store, linker);
        audit.LogExecutionFailure(request, PayloadTooLarge);
        return Err(PayloadTooLarge);
      }
      var error, trap, raw := native.FuncCall(store, EXPORT_ALLOC, [|payload|]);
      if error.Some? || trap.Some? {
        var fault := if trap.Some? then GuestTrap else FunctionCallError;
        native.DeleteFault(error, trap);
        Teardown(store, linker);
        audit.LogExecutionFailure(request, fault);
        return Err(fault);
      }
      r := Ok(AsI32(raw));
    }

    /** Step 2: the payload written where the allocator says, if that is in bounds. */
    method WritePayload(
      store: Handle, linker: Handle, request: InvocationRequest, ptr: U32, payload: string, audit: AuditSink)
      returns (written: bool)
      requires native.Valid() && native.sem == host.sem && store in native.stores && linker in native.linkers
      requires |payload| <= host.limits.maxInputSize
      modifies native, audit`events
      ensures native.Valid() && native.modules == old(native.modules) && native.buffers == old(native.buffers)
      ensures native.errors == old(native.errors) && native.traps == old(native.traps)
      ensures native.stores - {store} == old(native.stores) - {store}
      ensures var state := old(native.stores)[store];
              && written == (ptr + |payload| <= |state.memory|)
              && if written then
                   && store in native.stores && native.stores[store] == Written(state, ptr, payload)
                   && native.linkers == old(native.linkers)
                   && native.calls == old(native.calls) && audit.events == old(audit.events)
                 else
                   && store !in native.stores && native.linkers == old(native.linkers) - {linker}
                   && native.calls == old(native.calls) + [Free(host, state, ptr, |payload|)]
                   && audit.events == old(audit.events) + [Denied(request, AllocatorError)]
    {
      hide Runtime.Valid;
      var memory := native.MemoryData(store);
      var safePayloadPtr: U64 := ptr;
      var safePayloadSize: U64 := |payload|;
      var end: U64 := safePayloadPtr + safePayloadSize;
      if end > memory.size {
        CleanupAndFree(store, ptr, |payload|);
        Teardown(store, linker);
        audit.LogExecutionFailure(request, AllocatorError);
        return false;
      }
      if safePayloadSize > 0 {
        native.WriteMemory(memory, ptr, payload);
      }
      written := true;
    }

    /** Steps 1 and 2. */
    method AllocateAndWrite(
      store: Handle, linker: Handle, request: InvocationRequest, payload: string, audit: AuditSink)
      returns (r: Result<U32, ExecutionError>)
      requires native.Valid() && native.sem == host.sem && store in native.stores && linker in native.linkers
      modifies native, audit`events
      ensures native.Valid() && native.modules == old(native.modules) && native.buffers == old(native.buffers)
      ensures native.errors == old(native.errors) && native.traps == old(native.traps)
      ensures native.stores - {store} == old(native.stores) - {store}
      ensures var state := old(native.stores)[store];
              match r
              case Ok(ptr) =>
                && |payload| <= host.limits.maxInputSize
                && var alloc := Call(host, state, EXPORT_ALLOC, [|payload|]);
                && alloc.reply.Completed() && ptr == AsI32(alloc.reply.value)
                && ptr + |payload| <= |alloc.reply.after.memory|
                && store in native.stores && native.stores[store] == Written(alloc.reply.after, ptr, payload)
                && native.linkers == old(native.linkers)
                && native.calls == old(native.calls) + [alloc] && audit.events == old(audit.events)
              case Err(e) =>
                && var t := Converse(host, state, request.functionName, payload);
                && t.outcome == Failed(e) && native.calls == old(native.calls) + t.calls
                && store !in native.stores && native.linkers == old(native.linkers) - {linker}
                && audit.events == old(audit.events) + [Denied(request, e)]
    {
      hide Runtime.Valid;
      r := Allocate(store, linker, request, payload, audit);
      if r.Ok? {
        var written := WritePayload(store, linker, request, r.value, payload, audit);
        if !written { return Err(AllocatorError); }
      }
    }

    /** Step 3: the call; Steps 4 and 5: the result region judged, copied out and freed. */
    method CallAndRead(store: Handle, linker: Handle, request: InvocationRequest, ptr: U32, len: U32, audit: AuditSink)
      returns (out: Outcome)
      requires native.Valid() && native.sem == host.sem && store in native.stores && linker in native.linkers
      modifies native, audit`events
      ensures native.Valid() && native.modules == old(native.modules) && native.buffers == old(native.buffers)
      ensures native.errors == old(native.errors) && native.traps == old(native.traps)
      ensures native.stores == old(native.stores) - {store} && native.linkers == old(native.linkers) - {linker}
      ensures var call := Call(host, old(native.stores)[store], request.functionName, [ptr, len]);
              && out == (if call.reply.Completed() then ReadResult(host, call.reply) else Failed(CallFault(call.reply)))
              && native.calls == old(native.calls) +
                   [call, if call.reply.Completed()
                          then Free(host, call.reply.after, UnpackPtr(call.reply.value), UnpackLen(call.reply.value))
                          else Free(host, call.reply.after, ptr, len)]
      ensures audit.events == old(audit.events) + Closing(request, out)
    {
      hide Runtime.Valid, UnpackPtr, UnpackLen;
      var error, trap, raw := native.FuncCall(store, request.functionName, [ptr, len]);
      if error.Some? || trap.Some? {
        var fault := if trap.Some? then GuestTrap else FunctionCallError;
        if trap.Some? {
          var code := native.TrapCodeOf(trap.value);
          if code.OutOfFuel? { fault := FuelExhausted; }
        }
        CleanupAndFreeDuringFault(store, ptr, len, error, trap);
        Teardown(store, linker);
        audit.LogExecutionFailure(request, fault);
        return Failed(fault);
      }
      ghost var call := Call(host, old(native.stores)[store], request.functionName, [ptr, len]);
      out := ReadAndRelease(store, linker, request, raw, call.reply, audit);
    }

    /** Steps 4 and 5, once the call has completed. */
    method ReadAndRelease(
      store: Handle, linker: Handle, request: InvocationRequest, raw: U64, ghost reply: CallReply, audit: AuditSink)
      returns (out: Outcome)
      requires native.Valid() && native.sem == host.sem && store in native.stores && linker in native.linkers
      requires reply.Completed() && reply.value == raw && reply.after == native.stores[store]
      modifies native, audit`events
      ensures native.Valid() && native.modules == old(native.modules) && native.buffers == old(native.buffers)
      ensures native.errors == old(native.errors) && native.traps == old(native.traps)
      ensures native.stores == old(native.stores) - {store} && native.linkers == old(native.linkers) - {linker}
      ensures out == ReadResult(host, reply)
      ensures native.calls == old(native.calls) + [Free(host, reply.after, UnpackPtr(raw), UnpackLen(raw))]
      ensures audit.events == old(audit.events) + Closing(request, out)
    {
      hide Runtime.Valid, UnpackPtr, UnpackLen;
      var resultPtr, resultLen := UnpackPtr(raw), UnpackLen(raw);
      var memory := native.MemoryData(store);
      var safeResultPtr: U64 := resultPtr;
      var safeResultLen: U64 := resultLen;
      var end: U64 := safeResultPtr + safeResultLen;
      var result := InvocationResult(false, "", 0);
      if end <= memory.size {
        if safeResultLen > host.limits.maxOutputSize {
          CleanupAndFree(store, resultPtr, resultLen);
          Teardown(store, linker);
          audit.LogExecutionFailure(request, PayloadTooLarge);
          return Failed(PayloadTooLarge);
        }
        var output := native.ReadMemory(memory, resultPtr, resultLen);
        result := InvocationResult(true, output, 0);
      }
      CleanupAndFree(store, resultPtr, resultLen);
      if !result.success {
        Teardown(store, linker);
        audit.LogExecutionFailure(request, InvalidMemoryBounds);
        return Failed(InvalidMemoryBounds);
      }
      Teardown(store, linker);
      audit.LogExecutionSuccess(request, result);
      out := Returned(result);
    }

    /** Frees the payload while the error and trap of the failed call are still held, then drops them. */
    method CleanupAndFreeDuringFault(store: Handle, ptr: U32, len: U32, error: Option<Handle>, trap: Option<Handle>)
      requires native.Valid() && native.sem == host.sem && store in native.stores
      requires Owned(error) <= native.errors && Owned(trap) <= native.traps.Keys
      modifies native`stores, native`errors, native`traps, native`next, native`calls
      ensures native.Valid() && store in native.stores
      ensures native.stores - {store} == old(native.stores) - {store}
      ensures native.errors == old(native.errors) - Owned(error) && native.traps == old(native.traps) - Owned(trap)
      ensures native.calls == old(native.calls) + [Free(host, old(native.stores)[store], ptr, len)]
    {
      CleanupAndFree(store, ptr, len);
      native.DeleteFault(error, trap);
    }

    /** Everything after the module is at hand. An exception from serialising the arguments leaves
        here with the store and the linker still live and no closing event. */
    method InvokeGuest(module_: Handle, request: InvocationRequest, audit: AuditSink) returns (out: Outcome)
      requires native.Valid() && native.sem == host.sem && module_ in native.modules
      modifies native, audit`events
      ensures native.Valid() && native.modules == old(native.modules)
      ensures var t := Invoke(host, old(native.modules)[module_], request.functionName, request.arguments);
              out == t.outcome && native.calls == old(native.calls) + t.calls
      ensures audit.events == old(audit.events) + Closing(request, out)
      ensures if out.Threw? then LeakedInstance() else Conserved()
    {
      hide Runtime.Valid, GuestProtocol.Open, GuestProtocol.Converse;
      var instance := OpenInstance(module_, request, audit);
      if instance.Err? { return Failed(instance.error); }
      var (store, linker) := instance.value;
      var payload := host.dump(request.arguments);
      if payload.None? { return Threw; }
      out := ConverseWithGuest(store, linker, request, payload.value, audit);
    }

    /** One store and one linker too many, and nothing else. */
    twostate predicate LeakedInstance()
      reads this, native
    {
      && (exists s :: s in native.stores && native.stores - {s} == old(native.stores))
      && (exists l :: l in native.linkers && native.linkers - {l} == old(native.linkers))
      && native.errors == old(native.errors) && native.traps == old(native.traps)
      && native.buffers == old(native.buffers)
    }

    /** Steps 1 to 5 on an open instance, and its release. */
    method ConverseWithGuest(
      store: Handle, linker: Handle, request: InvocationRequest, payload: string, audit: AuditSink)
      returns (out: Outcome)
      requires native.Valid() && native.sem == host.sem && store in native.stores && linker in native.linkers
      modifies native, audit`events
      ensures native.Valid() && native.modules == old(native.modules) && native.buffers == old(native.buffers)
      ensures native.errors == old(native.errors) && native.traps == old(native.traps)
      ensures native.stores == old(native.stores) - {store} && native.linkers == old(native.linkers) - {linker}
      ensures var t := Converse(host, old(native.stores)[store], request.functionName, payload);
              out == t.outcome && native.calls == old(native.calls) + t.calls && !out.Threw?
      ensures audit.events == old(audit.events) + Closing(request, out)
    {
      hide Runtime.Valid, UnpackPtr, UnpackLen;
      var written := AllocateAndWrite(store, linker, request, payload, audit);
      if written.Err? {
        assert native.stores == native.stores - {store};
        return Failed(written.error);
      }
      out := CallAndRead(store, linker, request, written.value, |payload|, audit);
    }

    /** The gates, in order, on a request whose start event is logged: the profile if all let it pass,
        or the error of the first that does not, with the module evicted where the source evicts it. */
    method PassGates(request: InvocationRequest, audit: AuditSink) returns (r: Result<RegisteredModule, ExecutionError>)
      requires Valid()
      modifies this`cached, native`modules, audit`events
      ensures Valid()
      ensures var table, before := registry.tracked, old(CacheView());
              match r
              case Ok(profile) =>
                && Gate(table, request).None? && profile == table[request.moduleName]
                && CacheView() == before && audit.events == old(audit.events)
              case Err(e) =>
                && Gate(table, request) == Some(e)
                && CacheView() == (if Evicts(table, request) then before - {request.moduleName} else before)
                && audit.events == old(audit.events) + [Denied(request, e)]
    {
      hide Runtime.Valid, Owns, View, PreFlight, NameMatches;
      var allowed := PreFlightCheck(request);
      if !allowed {
        audit.LogExecutionFailure(request, CapabilityDenied);
        return Err(CapabilityDenied);
      }
      if !NameMatches(request.moduleName) {
        audit.LogExecutionFailure(request, InvalidModule);
        return Err(InvalidModule);
      }
      var profile := registry.GetModuleProfile(request.moduleName);
      if profile.None? || !profile.value.trusted || profile.value.guestAbiVersion != GuestAbi.VERSION {
        EvictModule(request.moduleName);
      }
      if profile.None? {
        audit.LogExecutionFailure(request, UnsupportedModule);
        return Err(UnsupportedModule);
      }
      if !profile.value.trusted {
        audit.LogExecutionFailure(request, UntrustedModule);
        return Err(UntrustedModule);
      }
      if profile.value.guestAbiVersion != GuestAbi.VERSION {
        audit.LogExecutionFailure(request, ModuleLoadError);
        return Err(ModuleLoadError);
      }
      r := Ok(profile.value);
    }

    /** What comes after the gates: the module acquired, and the guest invoked. */
    method AcquireAndInvoke(profile: RegisteredModule, request: InvocationRequest, audit: AuditSink)
      returns (out: Outcome)
      requires Valid()
      modifies this`cached, native, audit`events
      ensures Valid()
      ensures match Acquire(host, old(CacheView()), profile, request.moduleName)
              case Err(e) =>
                out == Failed(e) && CacheView() == old(CacheView()) && native.calls == old(native.calls)
              case Ok(code) =>
                var t := Invoke(host, code, request.functionName, request.arguments);
                && out == t.outcome && CacheView() == old(CacheView())[request.moduleName := code]
                && native.calls == old(native.calls) + t.calls
      ensures audit.events == old(audit.events) + Closing(request, out)
      ensures if out.Threw? then LeakedInstance() else Conserved()
    {
      hide Runtime.Valid, Owns, View, Invoke, LoadModule;
      var module_ := AcquireModule(profile, request, audit);
      if module_.Err? { return Failed(module_.error); }
      out := InvokeGuest(module_.value, request, audit);
    }

    /** The sink is one that takes the host's start events, and never raises an exception on a closing
        event after it took the start. */
    method Execute(request: InvocationRequest, audit: AuditSink) returns (out: Outcome)
      requires Valid() && audit.accepts == host.audits
      modifies this`cached, native, audit`events
      ensures Valid()
      ensures var run := Run(host, registry.tracked, old(CacheView()), request);
              && out == run.outcome && CacheView() == run.cache
              && native.calls == old(native.calls) + run.calls
      ensures audit.events == old(audit.events) + Bracket(request, out)
      ensures if out.Threw? then LeakedInstance() else Conserved()
    {
      hide Runtime.Valid, Owns, View, Invoke, Acquire, Gate, Evicts;
      var started := audit.LogExecutionStart(request);
      if !started { return Unlogged; }
      var profile := PassGates(request, audit);
      if profile.Err? { return Failed(profile.error); }
      out := AcquireAndInvoke(profile.value, request, audit);
      NeverUnlogged(host, profile.value, old(CacheView()), request);
    }

    method EvictModule(name: string)
      requires Valid()
      modifies this`cached, native`modules
      ensures Valid() && CacheView() == old(CacheView()) - {name}
    {
      hide Runtime.Valid, Owns, View;
      if name in cached {
        ViewAt(cached, native.modules, name);
        OwnsErase(cached, native.modules, name);
        native.DeleteModule(cached[name]);
        cached := cached - {name};
      }
    }

    /** The destructor: the cache is the last owner of native modules. */
    method Destroy()
      requires Valid()
      modifies this`cached, native`modules
      ensures Valid() && native.modules == map[]
    {
      ClearCache();
    }
  }
}

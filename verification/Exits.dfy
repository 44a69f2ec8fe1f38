/** Which way a call to the executor goes, told from the table, the files and the engine alone. */
module Exits {
  import opened Common
  import opened Seraph
  import opened ModuleRegistry
  import opened Wasmtime
  import opened GuestProtocol
  import opened WasmExecutor
  import GuestAbi
  import Fips180

  // ---- The gates ----

  /** The table lists the function for the module under its own name. */
  predicate Listed(table: Table, module_: string, function_: string) {
    && module_ != "" && function_ != "" && module_ in table
    && module_ in table[module_].capabilities && function_ in table[module_].capabilities[module_]
  }

  /** A digit, a letter, '-' or '_', by its code. */
  predicate IsNameCode(code: int) {
    48 <= code <= 57 || 65 <= code <= 90 || 97 <= code <= 122 || code == 45 || code == 95
  }

  predicate Named(module_: string) {
    |module_| > 0 && forall k | 0 <= k < |module_| :: IsNameCode(module_[k] as int)
  }

  lemma NamesExactly(module_: string)
    ensures NameMatches(module_) <==> Named(module_)
  {
    if NameMatches(module_) {
      forall k | 0 <= k < |module_| ensures IsNameCode(module_[k] as int) { assert module_[k] in module_; }
    }
    if Named(module_) {
      forall c | c in module_ ensures IsNameCode(c as int) {
        var k :| 0 <= k < |module_| && module_[k] == c;
      }
    }
  }

  /** Each gate's error, in the order of the gates. */
  lemma GatesExactly(table: Table, request: InvocationRequest)
    ensures var m := request.moduleName;
            var listed := Listed(table, m, request.functionName);
            var gate := Gate(table, request);
            && (gate == Some(CapabilityDenied) <==> !listed)
            && (gate == Some(InvalidModule) <==> listed && !Named(m))
            && (gate == Some(UntrustedModule) <==> listed && Named(m) && !table[m].trusted)
            && (gate == Some(ModuleLoadError) <==>
                  listed && Named(m) && table[m].trusted && table[m].guestAbiVersion != "1.0")
            && (gate == None <==> listed && Named(m) && table[m].trusted && table[m].guestAbiVersion == "1.0")
  {
    hide NameMatches, Named;
    NamesExactly(request.moduleName);
  }

  /** A refused call ends in the error of its gate and asks nothing of the guest. */
  lemma RefusedExactly(host: Host, table: Table, cache: Cache, request: InvocationRequest)
    ensures host.audits(request) && Gate(table, request).Some? ==>
              var run := Run(host, table, cache, request);
              run.outcome == Failed(Gate(table, request).value) && run.calls == []
    ensures !host.audits(request) ==> Run(host, table, cache, request) == Execution(Unlogged, [], cache)
  {
  }

  /** What a call does to the cache: a listed, well-named module that is untrusted or built for another ABI
      version leaves it; one that passes every gate is in it if it can be loaded; nothing else changes. */
  lemma CacheExactly(host: Host, table: Table, cache: Cache, request: InvocationRequest)
    ensures var m := request.moduleName;
            var after := Run(host, table, cache, request).cache;
            if !host.audits(request) || !Listed(table, m, request.functionName) || !Named(m) then after == cache
            else if !table[m].trusted || table[m].guestAbiVersion != "1.0" then after == cache - {m}
            else if m in cache then after == cache
            else
              match LoadModule(host, table[m])
              case Ok(code) => after == cache[m := code]
              case Err(_) => after == cache
  {
    hide NameMatches, Named, LoadModule, Invoke;
    NamesExactly(request.moduleName);
  }

  // ---- Loading ----

  /** Each error of loading a module, told from the file and the engine. */
  lemma LoadsExactly(host: Host, profile: RegisteredModule)
    ensures var file := host.files(profile.filePath);
            var read := file.Contents? && file.bytes != [];
            var checked := read && Fips180.Digest(file.bytes) == profile.sha256;
            var text := host.isWat(profile.filePath);
            var translated := checked && (text ==> host.sem.wat2wasm(file.bytes).Some?);
            var loaded := LoadModule(host, profile);
            && (loaded == Err(FileNotFound) <==> file.NotOpened?)
            && (loaded == Err(ChecksumMismatch) <==> read && !checked)
            && (loaded == Err(WasmCompileError) <==> checked && !translated)
            && (loaded == Err(ModuleLoadError) <==>
                  || file.ReadFails? || file == Contents([])
                  || (translated
                      && !host.sem.compiles(if text then host.sem.wat2wasm(file.bytes).value else file.bytes)))
            && (loaded.Ok? <==>
                  translated && host.sem.compiles(if text then host.sem.wat2wasm(file.bytes).value else file.bytes))
            && (loaded.Ok? ==> loaded.value == if text then host.sem.wat2wasm(file.bytes).value else file.bytes)
  {
    hide Fips180.Digest;
  }

  // ---- The instance ----

  /** The store that opening the code gives, and whether it came about. */
  predicate Starts(host: Host, code: Code) {
    && host.sem.acceptsFuel(host.limits.maxFuel)
    && !host.sem.instantiate(code, host.limits.maxFuel).error && !host.sem.instantiate(code, host.limits.maxFuel).trap
  }

  function StoreOf(host: Host, code: Code): GuestState { host.sem.instantiate(code, host.limits.maxFuel).state }

  /** The four exports of the guest contract, of the right kinds. */
  predicate Complete(host: Host, store: GuestState, function_: string) {
    && host.sem.exportKind(store, "seraph_alloc").FunctionExport?
    && host.sem.exportKind(store, "seraph_free").FunctionExport?
    && host.sem.exportKind(store, "memory").MemoryExport?
    && host.sem.exportKind(store, function_).FunctionExport?
  }

  predicate LacksExport(host: Host, code: Code, function_: string) {
    Starts(host, code) && !Complete(host, StoreOf(host, code), function_)
  }

  /** An instance opens if and only if fuel is accepted, instantiation gives neither error nor trap, and the
      four exports are there; a missing or misshapen export is MissingExport and everything else
      FunctionCallError. */
  lemma OpensExactly(host: Host, code: Code, function_: string)
    ensures var opened_ := Open(host, code, function_);
            && (opened_.Ok? <==> Starts(host, code) && Complete(host, StoreOf(host, code), function_))
            && (opened_.Ok? ==> opened_.value == StoreOf(host, code))
            && (opened_ == Err(MissingExport) <==> LacksExport(host, code, function_))
            && (opened_ == Err(FunctionCallError) <==> !Starts(host, code))
  {
  }

  /** Nothing but a missing export ends an invocation in MissingExport, and then no guest call was made. */
  lemma MissingExactly(host: Host, code: Code, function_: string, arguments: map<string, string>)
    ensures var t := Invoke(host, code, function_, arguments);
            && (t.outcome == Failed(MissingExport) <==> LacksExport(host, code, function_))
            && (t.outcome == Failed(MissingExport) ==> t.calls == [])
  {
    hide Starts, Complete, Open;
    OpensExactly(host, code, function_);
  }

  /** The guest is called only through exports that are functions of the store opened for the call, and
      which ones, with which arguments, is told by the number of calls: the allocator on the payload's
      size, the requested function on the pointer it gave and that size, and the free. */
  lemma CallsExactly(host: Host, code: Code, function_: string, arguments: map<string, string>)
    ensures var t := Invoke(host, code, function_, arguments);
            && |t.calls| <= 3
            && (forall k | 0 <= k < |t.calls| ::
                  host.sem.exportKind(StoreOf(host, code), t.calls[k].name).FunctionExport?)
            && (t.calls != [] ==>
                  && host.dump(arguments).Some? && |host.dump(arguments).value| <= host.limits.maxInputSize
                  && t.calls[0].name == "seraph_alloc" && t.calls[0].args == [|host.dump(arguments).value|]
                  && t.calls[0].before == StoreOf(host, code))
            && (|t.calls| >= 2 ==>
                  t.calls[0].reply.Completed() && t.calls[|t.calls| - 1].name == "seraph_free")
            && (|t.calls| == 2 <==>
                  && t.calls != [] && t.calls[0].reply.Completed()
                  && t.calls[0].reply.value % 0x1_0000_0000 + t.calls[0].args[0] > |t.calls[0].reply.after.memory|)
            && (|t.calls| == 3 ==>
                  && t.calls[1].name == function_
                  && t.calls[1].args == [t.calls[0].reply.value % 0x1_0000_0000, t.calls[0].args[0]])
  {
    hide Open, GuestAbi.UnpackPtr, GuestAbi.UnpackLen;
    OpensExactly(host, code, function_);
  }

  /** At the level of the whole call: MissingExport means the gates passed, the module was at hand, and an
      export is missing. */
  lemma MissingAtRun(host: Host, table: Table, cache: Cache, request: InvocationRequest)
    ensures Run(host, table, cache, request).outcome == Failed(MissingExport)
       <==> && host.audits(request) && Gate(table, request).None?
            && Acquire(host, cache, table[request.moduleName], request.moduleName).Ok?
            && LacksExport(
                 host, Acquire(host, cache, table[request.moduleName], request.moduleName).value, request.functionName)
    ensures forall c | c in Run(host, table, cache, request).calls ::
              exists code :: Acquire(host, cache, table[request.moduleName], request.moduleName) == Ok(code)
                          && host.sem.exportKind(StoreOf(host, code), c.name).FunctionExport?
  {
    hide LoadModule, Invoke, Starts, Complete;
    GatesExactly(table, request);
    if host.audits(request) && Gate(table, request).None? {
      var acquired := Acquire(host, cache, table[request.moduleName], request.moduleName);
      if acquired.Ok? {
        MissingExactly(host, acquired.value, request.functionName, request.arguments);
        CallsExactly(host, acquired.value, request.functionName, request.arguments);
        var t := Invoke(host, acquired.value, request.functionName, request.arguments);
        forall c | c in t.calls ensures host.sem.exportKind(StoreOf(host, acquired.value), c.name).FunctionExport? {
          var k :| 0 <= k < |t.calls| && t.calls[k] == c;
        }
      } else {
        LoadsExactly(host, table[request.moduleName]);
      }
    }
  }

  /** The fixture without an allocator: its first call ends in MissingExport before the guest runs. */
  lemma NoAllocator(host: Host, code: Code, function_: string, arguments: map<string, string>)
    requires Starts(host, code) && host.sem.exportKind(StoreOf(host, code), "seraph_alloc").NoExport?
    ensures Invoke(host, code, function_, arguments) == Transcript(Failed(MissingExport), [])
  {
    hide Open;
    OpensExactly(host, code, function_);
  }

  /** The limits an executor has unless it is given others: 64 KiB in, 64 KiB out, a hundred million units of
      fuel. */
  lemma DefaultsExactly()
    ensures DEFAULT_LIMITS == RuntimeLimits(65536, 65536, 100000000)
  {
  }
}

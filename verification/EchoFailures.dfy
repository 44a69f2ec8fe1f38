/** Runs on the echo fixture in which a tempting property fails: an exception in the middle of a call, a
    stale cache, and seraph_free called twice. */
module EchoFailures {
  import opened Common
  import opened Json
  import opened Seraph
  import opened ModuleRegistry
  import opened GuestAbi
  import opened Wasmtime
  import opened GuestProtocol
  import opened WasmExecutor
  import opened History
  import opened EchoGuest
  import Fips180

  const BYTES: seq<Fips180.Byte> := [0]

  /** Every file is the fixture; every sink takes every start event. */
  function EchoHost(dump: map<string, string> -> Option<string>): Host {
    Host(path => Contents(BYTES), path => false, dump, EchoEngine(), DEFAULT_LIMITS, request => true)
  }

  const NOT_UTF8: map<string, string> -> Option<string> := arguments => None
  const EMPTY_TEXT: map<string, string> -> Option<string> := arguments => Some("")

  const REQUEST := InvocationRequest("echo", "print", map[], map[])

  /** A manifest with the one module, trusted, under this checksum. */
  function Manifest(sha256: string): ManifestFile {
    Parsed(Object(map["manifest_version" := String("1"), "modules" := Object(map["echo" := EchoEntry(sha256)])]))
  }

  function EchoEntry(sha256: string): Json {
    Object(map["path" := String("echo.wasm"), "sha256" := String(sha256), "trusted" := Bool(true),
               "guest_abi_version" := String("1.0"), "allowed_exports" := Array([String("print")])])
  }

  function Same(path: string): string { path }

  function EchoProfile(sha256: string): RegisteredModule {
    RegisteredModule("echo", "echo.wasm", sha256, true, map["echo" := ["print"]], "1.0")
  }

  lemma ManifestLoads(table: Table, sha256: string)
    ensures Load(table, Manifest(sha256), Same) == (Ok(()), map["echo" := EchoProfile(sha256)])
  {
    var modules := map["echo" := EchoEntry(sha256)];
    EntryReads(sha256);
    assert AllWellFormed(modules);
    assert LoadedTable(modules, Same) == map["echo" := EchoProfile(sha256)];
    RootIsAccepted(sha256);
  }

  lemma RootIsAccepted(sha256: string)
    ensures RootAccepted(Manifest(sha256)) && Modules(Manifest(sha256)) == map["echo" := EchoEntry(sha256)]
  {
  }

  lemma EntryReads(sha256: string)
    ensures WellFormedEntry(EchoEntry(sha256)) && Entry("echo", EchoEntry(sha256), Same) == EchoProfile(sha256)
  {
    assert Strings([String("print")]) == ["print"];
  }

  /** The request passes every gate. */
  lemma EchoPasses(sha256: string)
    ensures Gate(map["echo" := EchoProfile(sha256)], REQUEST).None?
  {
    assert NameMatches("echo");
    assert "print" in ["print"];
  }

  const GOOD: string := Fips180.Digest(BYTES)

  lemma EchoLoads(dump: map<string, string> -> Option<string>)
    ensures LoadModule(EchoHost(dump), EchoProfile(GOOD)) == Ok(BYTES)
    ensures LoadModule(EchoHost(dump), EchoProfile("")) == Err(ChecksumMismatch)
  {
    hide Fips180.HashValue;
  }

  /** One authorised call, with nothing cached or with the fixture cached. */
  lemma EchoRuns(dump: map<string, string> -> Option<string>, cache: Cache)
    requires cache == map[] || cache == map["echo" := BYTES]
    ensures var run := Run(EchoHost(dump), map["echo" := EchoProfile(GOOD)], cache, REQUEST);
            run.outcome == Invoke(EchoHost(dump), BYTES, "print", map[]).outcome && run.cache == map["echo" := BYTES]
  {
    hide Gate, LoadModule, Invoke;
    EchoPasses(GOOD);
    EchoLoads(dump);
  }

  lemma EchoOpens(dump: map<string, string> -> Option<string>)
    ensures Open(EchoHost(dump), BYTES, "print").Ok? && Open(EchoHost(dump), BYTES, EXPORT_FREE).Ok?
    ensures |Open(EchoHost(dump), BYTES, EXPORT_FREE).value.memory| == PAGE
  {
    NamesDiffer();
  }

  const EMPTY_OUTPUT := Returned(InvocationResult(true, "", 0))

  /** The empty payload comes back. */
  lemma EchoAnswers()
    ensures Invoke(EchoHost(EMPTY_TEXT), BYTES, "print", map[]).outcome == EMPTY_OUTPUT
  {
    hide Converse;
    EchoOpens(EMPTY_TEXT);
    var host := EchoHost(EMPTY_TEXT);
    EchoEngineRuns(BYTES, host.limits.maxFuel, "");
    EchoConversation(host, Open(host, BYTES, "print").value, "");
  }

  // ---- Runs, one operation at a time ----

  const CALL := DoExecute(REQUEST)

  function LoadOf(sha256: string): Op { DoLoad(Manifest(sha256), Same) }

  lemma LoadFirst(host: Host, w: World, sha256: string, rest: seq<Op>)
    ensures var table := map["echo" := EchoProfile(sha256)];
            && Calls(host, w, [LoadOf(sha256)] + rest) == Calls(host, World(table, w.cache), rest)
            && CachelessCalls(host, w.table, [LoadOf(sha256)] + rest) == CachelessCalls(host, table, rest)
  {
    hide Run, Load, Manifest, EchoProfile;
    ManifestLoads(w.table, sha256);
    assert ([LoadOf(sha256)] + rest)[1..] == rest;
  }

  lemma CallFirst(host: Host, w: World, rest: seq<Op>)
    ensures var run := Run(host, w.table, w.cache, REQUEST);
            Calls(host, w, [CALL] + rest) == [(REQUEST, run.outcome)] + Calls(host, World(w.table, run.cache), rest)
    ensures CachelessCalls(host, w.table, [CALL] + rest)
         == [(REQUEST, Run(host, w.table, map[], REQUEST).outcome)] + CachelessCalls(host, w.table, rest)
  {
    hide Run;
    assert ([CALL] + rest)[1..] == rest;
  }

  lemma NoneLeft()
    ensures forall host, w :: Calls(host, w, []) == []
    ensures forall host, table :: CachelessCalls(host, table, []) == []
  {
  }

  // ---- An exception in the middle of a call ----

  /** A load and one authorised call whose arguments cannot be serialised: the call leaves by an
      exception, and the log is not made of closed brackets. */
  lemma ExceptionCutsShort()
    ensures var calls := Calls(EchoHost(NOT_UTF8), World(map[], map[]), [LoadOf(GOOD)] + ([CALL] + []));
            calls == [(REQUEST, Threw)] && ReadLog(Log(calls)) == None
  {
    hide Run, LoadOf, EchoProfile, EchoHost, Open, Invoke, Calls, CachelessCalls, Log, ReadLog, GOOD;
    var host := EchoHost(NOT_UTF8);
    LoadFirst(host, World(map[], map[]), GOOD, [CALL] + []);
    CallFirst(host, World(map["echo" := EchoProfile(GOOD)], map[]), []);
    EchoRuns(NOT_UTF8, map[]);
    NothingSerialises();
    NoneLeft();
    LogTellsAll([(REQUEST, Threw)]);
    assert !NoneThrew([(REQUEST, Threw)]) by { assert (REQUEST, Threw) in [(REQUEST, Threw)]; }
  }

  lemma NothingSerialises()
    ensures Invoke(EchoHost(NOT_UTF8), BYTES, "print", map[]).outcome == Threw
  {
    hide Open, Converse;
    EchoOpens(NOT_UTF8);
  }

  // ---- A stale cache ----

  /** A load, a call, a reload that changes the checksum, and the call again: the cache still serves the
      old module, where a fresh load refuses the file. */
  lemma ReloadGoesStale()
    ensures var ops := [LoadOf(GOOD)] + ([CALL] + ([LoadOf("")] + ([CALL] + [])));
            && Calls(EchoHost(EMPTY_TEXT), World(map[], map[]), ops)
               == [(REQUEST, EMPTY_OUTPUT), (REQUEST, EMPTY_OUTPUT)]
            && CachelessCalls(EchoHost(EMPTY_TEXT), map[], ops)
               == [(REQUEST, EMPTY_OUTPUT), (REQUEST, Failed(ChecksumMismatch))]
  {
    hide Run, LoadOf, EchoProfile, EchoHost, Invoke, Calls, CachelessCalls, GOOD;
    NoneLeft();
    var host, cache := EchoHost(EMPTY_TEXT), map["echo" := BYTES];
    var good, bad := map["echo" := EchoProfile(GOOD)], map["echo" := EchoProfile("")];
    EchoAnswers();
    EchoRuns(EMPTY_TEXT, map[]);
    StaleCall();
    LoadFirst(host, World(map[], map[]), GOOD, [CALL] + ([LoadOf("")] + ([CALL] + [])));
    CallFirst(host, World(good, map[]), [LoadOf("")] + ([CALL] + []));
    LoadFirst(host, World(good, cache), "", [CALL] + []);
    CallFirst(host, World(bad, cache), []);
  }

  /** The call after the reload, on the cache and afresh. */
  lemma StaleCall()
    ensures var table := map["echo" := EchoProfile("")];
            && Run(EchoHost(EMPTY_TEXT), table, map["echo" := BYTES], REQUEST).outcome == EMPTY_OUTPUT
            && Run(EchoHost(EMPTY_TEXT), table, map[], REQUEST).outcome == Failed(ChecksumMismatch)
  {
    hide Gate, LoadModule, Invoke;
    EchoPasses("");
    EchoLoads(EMPTY_TEXT);
    EchoAnswers();
  }

  // ---- Two frees ----

  /** An allocation, and two calls of seraph_free: the one the request named and the host's own. */
  lemma FreedTwice()
    ensures var t := Invoke(EchoHost(EMPTY_TEXT), BYTES, EXPORT_FREE, map[]);
            AllocReturned(t.calls) && CountFrees(t.calls) == 2
  {
    hide UnpackPtr, UnpackLen, PackI64, CountFrees;
    EchoOpens(EMPTY_TEXT);
    NamesDiffer();
    var host := EchoHost(EMPTY_TEXT);
    FreeCount(host, BYTES, EXPORT_FREE, map[]);
  }
}

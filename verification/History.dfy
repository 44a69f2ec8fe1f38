/** Whole runs of the registry and the executor together: any interleaving of calls, revocations,
    cache clearings and manifest loads. */
module History {
  import opened Common
  import opened Json
  import opened Seraph
  import opened ModuleRegistry
  import opened GuestProtocol
  import opened Wasmtime
  import opened WasmExecutor
  import Manifests
  import GuestAbi
  import Fips180

  datatype Op =
    | DoExecute(request: InvocationRequest)
    | DoRevoke(name: string)
    | DoClearCache
    | DoLoad(file: ManifestFile, resolve: string -> string)

  datatype World = World(table: Table, cache: Cache)

  ghost function Next(host: Host, w: World, op: Op): World {
    match op
    case DoExecute(request) => w.(cache := Run(host, w.table, w.cache, request).cache)
    case DoRevoke(name) => w.(table := Revoke(w.table, name))
    case DoClearCache => w.(cache := map[])
    case DoLoad(file, resolve) => w.(table := Load(w.table, file, resolve).1)
  }

  ghost function After(host: Host, w: World, ops: seq<Op>): World
    decreases |ops|
  {
    if ops == [] then w else After(host, Next(host, w, ops[0]), ops[1..])
  }

  /** The calls of a run, each with its outcome. */
  ghost function Calls(host: Host, w: World, ops: seq<Op>): seq<Ended>
    decreases |ops|
  {
    if ops == [] then [] else
      var rest := Calls(host, Next(host, w, ops[0]), ops[1..]);
      if ops[0].DoExecute? then
        [(ops[0].request, Run(host, w.table, w.cache, ops[0].request).outcome)] + rest
      else rest
  }

  /** The same run on an executor that keeps no cache: every call reads, hashes and compiles afresh. */
  ghost function CachelessCalls(host: Host, table: Table, ops: seq<Op>): seq<Ended>
    decreases |ops|
  {
    if ops == [] then [] else
      var rest := CachelessCalls(host, Next(host, World(table, map[]), ops[0]).table, ops[1..]);
      if ops[0].DoExecute? then
        [(ops[0].request, Run(host, table, map[], ops[0].request).outcome)] + rest
      else rest
  }

  /** What one operation asks of a guest. */
  ghost function Asked(host: Host, w: World, op: Op): seq<GuestCall> {
    if op.DoExecute? then Run(host, w.table, w.cache, op.request).calls else []
  }

  /** Every call that a run makes into a guest, with what the guest saw and answered. */
  ghost function GuestCalls(host: Host, w: World, ops: seq<Op>): seq<GuestCall>
    decreases |ops|
  {
    if ops == [] then [] else Asked(host, w, ops[0]) + GuestCalls(host, Next(host, w, ops[0]), ops[1..])
  }

  ghost function CachelessGuestCalls(host: Host, table: Table, ops: seq<Op>): seq<GuestCall>
    decreases |ops|
  {
    if ops == [] then [] else
      Asked(host, World(table, map[]), ops[0])
      + CachelessGuestCalls(host, Next(host, World(table, map[]), ops[0]).table, ops[1..])
  }

  // ---- Cache transparency ----

  /** The path and the checksum a name is bound to for the length of a run. */
  datatype Pin = Pin(filePath: string, sha256: string)

  predicate Conforms(table: Table, pins: map<string, Pin>) {
    forall n | n in table :: n in pins && pins[n] == Pin(table[n].filePath, table[n].sha256)
  }

  /** Every table along the run keeps to the pins; loads are free to do anything else. */
  ghost predicate KeepsPins(host: Host, w: World, ops: seq<Op>, pins: map<string, Pin>)
    decreases |ops|
  {
    Conforms(w.table, pins) && (ops == [] || KeepsPins(host, Next(host, w, ops[0]), ops[1..], pins))
  }

  /** The code is what the engine compiles from a file whose bytes have the pinned digest. */
  predicate Genuine(host: Host, pin: Pin, code: Code) {
    var file := host.files(pin.filePath);
    && file.Contents? && file.bytes != [] && Fips180.Digest(file.bytes) == pin.sha256
    && host.sem.compiles(code)
    && (if host.isWat(pin.filePath) then host.sem.wat2wasm(file.bytes) == Some(code) else code == file.bytes)
  }

  predicate CacheGenuine(host: Host, cache: Cache, pins: map<string, Pin>) {
    forall n | n in cache :: n in pins && Genuine(host, pins[n], cache[n])
  }

  lemma LoadIsGenuine(host: Host, profile: RegisteredModule, code: Code)
    ensures LoadModule(host, profile) == Ok(code) <==> Genuine(host, Pin(profile.filePath, profile.sha256), code)
  {
    hide Fips180.Digest;
  }

  /** One operation keeps every cached module genuine. */
  lemma NextKeepsGenuine(host: Host, w: World, op: Op, pins: map<string, Pin>)
    requires Conforms(w.table, pins) && CacheGenuine(host, w.cache, pins)
    ensures CacheGenuine(host, Next(host, w, op).cache, pins)
  {
    hide Genuine, LoadModule, Invoke;
    if op.DoExecute? {
      var name := op.request.moduleName;
      if Gate(w.table, op.request).None? && name !in w.cache && LoadModule(host, w.table[name]).Ok? {
        LoadIsGenuine(host, w.table[name], LoadModule(host, w.table[name]).value);
      }
    }
  }

  /** With a genuine cache, one call ends as it would with no cache at all. */
  lemma CallIsTransparent(host: Host, w: World, request: InvocationRequest, pins: map<string, Pin>)
    requires Conforms(w.table, pins) && CacheGenuine(host, w.cache, pins)
    ensures Run(host, w.table, w.cache, request).outcome == Run(host, w.table, map[], request).outcome
    ensures Run(host, w.table, w.cache, request).calls == Run(host, w.table, map[], request).calls
  {
    hide Genuine, LoadModule, Invoke;
    var name := request.moduleName;
    if Gate(w.table, request).None? && name in w.cache {
      LoadIsGenuine(host, w.table[name], w.cache[name]);
    }
  }

  /** Over every run that keeps paths and checksums, the cache cannot be told from reloading each
      time: the same outcomes for the same requests, hence the same audit log, and the same calls into
      guests. */
  lemma {:induction false} CacheIsTransparent(host: Host, w: World, ops: seq<Op>, pins: map<string, Pin>)
    requires KeepsPins(host, w, ops, pins) && CacheGenuine(host, w.cache, pins)
    ensures Calls(host, w, ops) == CachelessCalls(host, w.table, ops)
    ensures GuestCalls(host, w, ops) == CachelessGuestCalls(host, w.table, ops)
    ensures CacheGenuine(host, After(host, w, ops).cache, pins)
    decreases |ops|
  {
    hide Run, Load, Revoke, Conforms, CacheGenuine;
    if ops == [] {
    } else {
      NextKeepsGenuine(host, w, ops[0], pins);
      if ops[0].DoExecute? { CallIsTransparent(host, w, ops[0].request, pins); }
      assert Next(host, World(w.table, map[]), ops[0]).table == Next(host, w, ops[0]).table;
      CacheIsTransparent(host, Next(host, w, ops[0]), ops[1..], pins);
    }
  }

  /** When the cache goes stale, for any reload, path and checksum: an authorised call on a cached module
      ends like a fresh one, with the same guest calls, if the table still asks for the cached module, and
      differently if the file it now asks for cannot be loaded. In between, where it asks for another
      loadable module, the two calls are those modules' own invocations. */
  lemma StaleExactly(host: Host, w: World, request: InvocationRequest)
    requires host.audits(request) && Gate(w.table, request).None? && request.moduleName in w.cache
    ensures var loaded := LoadModule(host, w.table[request.moduleName]);
            var cached := Run(host, w.table, w.cache, request);
            var reloaded := Run(host, w.table, map[], request);
            && (loaded == Ok(w.cache[request.moduleName]) ==>
                  cached.outcome == reloaded.outcome && cached.calls == reloaded.calls)
            && (loaded.Err? ==> cached.outcome != reloaded.outcome && reloaded.outcome == Failed(loaded.error))
            && (loaded.Ok? ==>
                  var t := Invoke(host, loaded.value, request.functionName, request.arguments);
                  reloaded.outcome == t.outcome && reloaded.calls == t.calls)
            && var kept := Invoke(host, w.cache[request.moduleName], request.functionName, request.arguments);
               cached.outcome == kept.outcome && cached.calls == kept.calls
  {
    hide LoadModule, Invoke;
    var name := request.moduleName;
    InvocationErrors(host, w.cache[name], request.functionName, request.arguments);
    LoadErrors(host, w.table[name]);
  }

  /** With the path kept, the condition is the checksum: a cached call ends like a fresh one if and only
      if the table still asks for the checksum the module was cached under. */
  lemma StaleByChecksum(host: Host, w: World, request: InvocationRequest, cachedUnder: Pin)
    requires host.audits(request) && Gate(w.table, request).None? && request.moduleName in w.cache
    requires Genuine(host, cachedUnder, w.cache[request.moduleName])
    requires w.table[request.moduleName].filePath == cachedUnder.filePath
    ensures Run(host, w.table, w.cache, request).outcome == Run(host, w.table, map[], request).outcome
       <==> w.table[request.moduleName].sha256 == cachedUnder.sha256
  {
    hide Fips180.Digest, Invoke, Run;
    var name := request.moduleName;
    var profile := w.table[name];
    StaleExactly(host, w, request);
    if profile.sha256 == cachedUnder.sha256 {
      LoadIsGenuine(host, profile, w.cache[name]);
    } else {
      assert LoadModule(host, profile) == Err(ChecksumMismatch);
    }
  }

  // ---- Exceptions ----

  /** A call leaves by an exception after its start event exactly when the event is taken, every gate lets
      it pass, its module is at hand, the instance opens and its arguments cannot be serialised; and by
      one of the sink's exactly when the sink refuses the start event. */
  lemma EscapesExactly(host: Host, table: Table, cache: Cache, request: InvocationRequest)
    ensures var outcome := Run(host, table, cache, request).outcome;
            && (outcome.Unlogged? <==> !host.audits(request))
            && (outcome.Threw? <==>
                  && host.audits(request) && Gate(table, request).None?
                  && var code := Acquire(host, cache, table[request.moduleName], request.moduleName);
                  && code.Ok? && Open(host, code.value, request.functionName).Ok?
                  && host.dump(request.arguments).None?)
  {
    hide LoadModule, Invoke, Open;
    if host.audits(request) && Gate(table, request).None? {
      var code := Acquire(host, cache, table[request.moduleName], request.moduleName);
      if code.Ok? {
        ThrowsExactly(host, code.value, request.functionName, request.arguments);
        InvocationErrors(host, code.value, request.functionName, request.arguments);
      }
    }
  }

  /** Every request whose start event the sink takes has arguments that can be serialised. A sink that
      serialises them itself is one case; a run whose requests hold only UTF-8 is another. */
  predicate AuditedSerialise(host: Host, ops: seq<Op>) {
    forall i | 0 <= i < |ops| && ops[i].DoExecute? && host.audits(ops[i].request) ::
      host.dump(ops[i].request.arguments).Some?
  }

  /** Then no call of a run is cut short after its start event, so the log is made of closed brackets
      that tell every recorded call. */
  lemma {:induction false} SerialisedRunsClose(host: Host, w: World, ops: seq<Op>)
    requires AuditedSerialise(host, ops)
    ensures NoneThrew(Calls(host, w, ops))
    ensures ReadLog(Log(Calls(host, w, ops))) == Some(Recorded(Calls(host, w, ops)))
    decreases |ops|
  {
    hide Run, Next, Log, ReadLog, Recorded;
    if ops == [] {
    } else {
      assert AuditedSerialise(host, ops[1..]);
      SerialisedRunsClose(host, Next(host, w, ops[0]), ops[1..]);
      if ops[0].DoExecute? { EscapesExactly(host, w.table, w.cache, ops[0].request); }
    }
    LogTellsAll(Calls(host, w, ops));
  }

  // ---- Allocations and frees over runs ----

  predicate NamesFree(op: Op) { op.DoExecute? && op.request.functionName == GuestAbi.EXPORT_FREE }

  /** The operations of a run whose allocator returned. */
  ghost function Allocations(host: Host, w: World, ops: seq<Op>): nat
    decreases |ops|
  {
    if ops == [] then 0 else
      (if AllocReturned(Asked(host, w, ops[0])) then 1 else 0) + Allocations(host, Next(host, w, ops[0]), ops[1..])
  }

  lemma FreesOfOne(host: Host, w: World, op: Op)
    requires !NamesFree(op)
    ensures CountFrees(Asked(host, w, op)) == if AllocReturned(Asked(host, w, op)) then 1 else 0
  {
    hide LoadModule, Invoke;
    if op.DoExecute? && host.audits(op.request) && Gate(w.table, op.request).None? {
      var name := op.request.moduleName;
      var code := Acquire(host, w.cache, w.table[name], name);
      if code.Ok? { FreeCount(host, code.value, op.request.functionName, op.request.arguments); }
    }
  }

  /** Over every run whose requests do not name seraph_free themselves, the guests are asked to free
      exactly as often as an allocation returned. */
  lemma {:induction false} FreesMatchAllocations(host: Host, w: World, ops: seq<Op>)
    requires forall i | 0 <= i < |ops| :: !NamesFree(ops[i])
    ensures CountFrees(GuestCalls(host, w, ops)) == Allocations(host, w, ops)
    decreases |ops|
  {
    hide Run, Next, Asked;
    if ops == [] {
    } else {
      FreesOfOne(host, w, ops[0]);
      FreesMatchAllocations(host, Next(host, w, ops[0]), ops[1..]);
      CountFreesAppend(Asked(host, w, ops[0]), GuestCalls(host, Next(host, w, ops[0]), ops[1..]));
    }
  }

  // ---- Authorisation ----

  /** The executor lets a request through to its module exactly when the system policy lists it. */
  lemma GateAgreesWithPolicy(table: Table, request: InvocationRequest)
    ensures Gate(table, request).None?
       <==> && InPolicy(table, request.moduleName, request.functionName)
            && request.functionName != "" && NameMatches(request.moduleName)
  {
    var m := request.moduleName;
    if m in table && m in table[m].capabilities && request.functionName in table[m].capabilities[m] {
      assert table[m].capabilities[m] != [];
    }
  }

  /** Preflight already requires a table entry, so the unsupported-module gate never fires. */
  lemma UnsupportedModuleNeverReported(host: Host, table: Table, cache: Cache, request: InvocationRequest)
    ensures Run(host, table, cache, request).outcome != Failed(UnsupportedModule)
  {
    hide Invoke, LoadModule;
    if Gate(table, request).None? {
      var acquired := Acquire(host, cache, table[request.moduleName], request.moduleName);
      if acquired.Ok? {
        InvocationErrors(host, acquired.value, request.functionName, request.arguments);
      } else {
        LoadErrors(host, table[request.moduleName]);
      }
    }
  }

  lemma LoadErrors(host: Host, profile: RegisteredModule)
    ensures LoadModule(host, profile).Err? ==>
              LoadModule(host, profile).error in {FileNotFound, ModuleLoadError, ChecksumMismatch, WasmCompileError}
  {
    hide Fips180.Digest;
  }

  /** No manifest loaded in the run has "trusted": true under this name. */
  ghost predicate NoTrustGiven(ops: seq<Op>, name: string) {
    forall i | 0 <= i < |ops| && ops[i].DoLoad? :: !Manifests.GivesTrust(ops[i].file, name)
  }

  predicate Revoked(table: Table, name: string) { name in table ==> !table[name].trusted }

  /** Refused by a gate that a revoked module fails, or by the audit sink before any gate. */
  predicate Refused(outcome: Outcome) {
    outcome.Unlogged? || (outcome.Failed? && outcome.error in {CapabilityDenied, InvalidModule, UntrustedModule})
  }

  /** From a revocation, or for a module never loaded as trusted from the start, until a manifest marks the
      module as trusted: no call on it gets through, it is in no view, and once it has left the cache it
      stays out. */
  lemma {:induction false} RevocationPersists(host: Host, w: World, ops: seq<Op>, name: string)
    requires NoTrustGiven(ops, name) && Revoked(w.table, name)
    ensures Revoked(After(host, w, ops).table, name) && name !in Policy(After(host, w, ops).table)
    ensures forall c | c in Calls(host, w, ops) && c.0.moduleName == name :: Refused(c.1)
    ensures name !in w.cache ==> name !in After(host, w, ops).cache
    decreases |ops|
  {
    hide Run, Load, Revoke;
    if ops == [] {
    } else {
      var next := Next(host, w, ops[0]);
      RevokedStep(host, w, ops[0], name);
      RevocationPersists(host, next, ops[1..], name);
    }
  }

  lemma RevokedStep(host: Host, w: World, op: Op, name: string)
    requires Revoked(w.table, name) && (op.DoLoad? ==> !Manifests.GivesTrust(op.file, name))
    ensures Revoked(Next(host, w, op).table, name)
    ensures name !in w.cache ==> name !in Next(host, w, op).cache
    ensures op.DoExecute? && op.request.moduleName == name ==>
              Refused(Run(host, w.table, w.cache, op.request).outcome)
  {
    hide Invoke, LoadModule, NameMatches, Load;
    if op.DoLoad? && !Revoked(Next(host, w, op).table, name) {
      Manifests.TrustIsGiven(w.table, op.file, op.resolve, name);
    }
  }

  /** Revoking takes the trust mark from that one entry and changes nothing else. */
  lemma RevokeExactly(table: Table, name: string)
    ensures Revoke(table, name).Keys == table.Keys && Revoked(Revoke(table, name), name)
    ensures forall n | n in table ::
              Revoke(table, name)[n] == table[n].(trusted := table[n].trusted && n != name)
  {
  }

  /** In any run that starts with the module revoked and in which no manifest marks it as trusted, a call on
      it that is audited and passes preflight and the name check leaves it out of the cache, for the rest of
      the run. */
  lemma {:induction false} RevokeEvicts(host: Host, w: World, ops: seq<Op>, i: nat, name: string)
    requires NoTrustGiven(ops, name) && Revoked(w.table, name)
    requires i < |ops| && ops[i].DoExecute? && ops[i].request.moduleName == name
    requires host.audits(ops[i].request) && NameMatches(name)
    requires PreFlight(After(host, w, ops[..i]).table, ops[i].request)
    ensures name !in After(host, w, ops[..i + 1]).cache && name !in After(host, w, ops).cache
    decreases |ops|
  {
    hide Load, Revoke, NameMatches, PreFlight, Run;
    var next := Next(host, w, ops[0]);
    RevokedStep(host, w, ops[0], name);
    assert ops[..i + 1][0] == ops[0] && ops[..i + 1][1..] == ops[1..][..i];
    if i == 0 {
      assert ops[..0] == [] && ops[..1] == [ops[0]];
      EvictedAtOnce(host, w, ops[0].request);
      RevocationPersists(host, next, ops[1..], name);
    } else {
      assert ops[..i][0] == ops[0] && ops[..i][1..] == ops[1..][..i - 1];
      assert ops[1..][i - 1] == ops[i];
      RevokeEvicts(host, next, ops[1..], i - 1, name);
    }
  }

  lemma EvictedAtOnce(host: Host, w: World, request: InvocationRequest)
    requires Revoked(w.table, request.moduleName) && host.audits(request)
    requires PreFlight(w.table, request) && NameMatches(request.moduleName)
    ensures Run(host, w.table, w.cache, request).cache == w.cache - {request.moduleName}
  {
    hide Invoke, LoadModule, NameMatches;
  }

  // ---- Loading ----

  /** The first malformed entry of a manifest, in key order. */
  ghost predicate FirstMalformed(modules: map<string, Json>, bad: string) {
    && bad in modules && !WellFormedEntry(modules[bad])
    && forall b | b in modules && !WellFormedEntry(modules[b]) && b != bad :: Less(bad, b)
  }

  /** What a load leaves. A file refused before the table is cleared leaves the old table. Any other
      leaves only entries of this manifest, each exactly as the manifest has it: all of them if they are
      all well-formed, which is exactly when the load succeeds, and otherwise those that precede the
      first malformed one. */
  lemma LoadNeverMixes(table: Table, file: ManifestFile, resolve: string -> string)
    ensures var (r, after) := Load(table, file, resolve);
            if !RootAccepted(file) then r.Err? && after == table else
              var modules := Modules(file);
              && (r.Ok? <==> AllWellFormed(modules))
              && (forall k | k in after ::
                    k in modules && WellFormedEntry(modules[k]) && after[k] == Entry(k, modules[k], resolve))
              && if AllWellFormed(modules) then after.Keys == modules.Keys
                 else r == Err(InvalidSchema)
                      && exists bad :: FirstMalformed(modules, bad) && after.Keys == KeysUpTo(modules, bad)
  {
    hide WellFormedEntry, Entry;
    if RootAccepted(file) && !AllWellFormed(Modules(file)) {
      var modules := Modules(file);
      var malformed := set k | k in modules && !WellFormedEntry(modules[k]);
      var b :| b in modules && !WellFormedEntry(modules[b]);
      assert b in malformed;
      var bad := FirstExists(malformed);
      assert FirstMalformed(modules, bad);
      KeysBefore(modules, resolve, bad);
    }
  }

  function KeysUpTo(modules: map<string, Json>, bad: string): set<string> {
    set k | k in modules && Less(k, bad)
  }

  lemma KeysBefore(modules: map<string, Json>, resolve: string -> string, bad: string)
    requires FirstMalformed(modules, bad)
    ensures LoadedTable(modules, resolve).Keys == KeysUpTo(modules, bad)
  {
    hide WellFormedEntry, Entry;
    forall k | k in modules
      ensures Less(k, bad) <==> WellFormedEntry(modules[k]) && Precedes(modules, k)
    {
      if Less(k, bad) {
        LessTrichotomy(k, bad);
        forall b | b in modules && !WellFormedEntry(modules[b]) ensures Less(k, b) {
          if b != bad { LessTransitive(k, bad, b); }
        }
      }
    }
  }

  predicate RootAccepted(file: ManifestFile) {
    && file.Parsed? && file.root.HasString("manifest_version")
    && file.root.StringAt("manifest_version") == SUPPORTED_MANIFEST_VERSION
    && file.root.Has("modules") && file.root.fields["modules"].Object?
  }

  function Modules(file: ManifestFile): map<string, Json>
    requires RootAccepted(file)
  {
    file.root.fields["modules"].fields
  }

  /** Every entry is filed under its own name and grants capabilities to no other. */
  ghost predicate OwnNamesOnly(table: Table) {
    forall n | n in table :: table[n].moduleName == n && table[n].capabilities.Keys <= {n}
  }

  /** No run can make an entry speak for another module. */
  lemma {:induction false} EntriesKeepTheirNames(host: Host, w: World, ops: seq<Op>)
    requires OwnNamesOnly(w.table)
    ensures OwnNamesOnly(After(host, w, ops).table)
    decreases |ops|
  {
    hide Run, WellFormedEntry;
    if ops == [] {
    } else {
      EntriesKeepTheirNames(host, Next(host, w, ops[0]), ops[1..]);
    }
  }

  // ---- Views ----

  /** The prompt list, the policy and the counts describe the same bindings: the list has one
      "name::export" per policy entry, the counter is its length, and the counts are nested. */
  lemma ViewsAgree(table: Table, cacheCount: nat)
    ensures var d := DiagnosticsOf(table, cacheCount);
            && d.policyExports == |Flatten(Policy(table), Policy(table).Keys)|
            && d.abiCompatible <= d.trusted <= |table|
    ensures forall s :: s in Flatten(Policy(table), Policy(table).Keys) <==>
              exists name, export_ :: InPolicy(table, name, export_) && s == name + "::" + export_
  {
    assert Compatible(table, table.Keys) <= Trusted(table, table.Keys) <= table.Keys;
    SubsetSize(Compatible(table, table.Keys), Trusted(table, table.Keys));
    SubsetSize(Trusted(table, table.Keys), table.Keys);
    forall s ensures s in Flatten(Policy(table), Policy(table).Keys) <==>
              exists name, export_ :: InPolicy(table, name, export_) && s == name + "::" + export_
    {
      InFlatten(Policy(table), Policy(table).Keys, s);
    }
  }

  lemma {:induction false} SubsetSize<T>(a: set<T>, b: set<T>)
    requires a <= b
    ensures |a| <= |b|
    decreases |a|
  {
    if a == {} {
    } else {
      var x :| x in a;
      SubsetSize(a - {x}, b - {x});
    }
  }

  lemma {:induction false} InFlatten(policy: Exports, names: set<string>, s: string)
    ensures s in Flatten(policy, names) <==>
              exists name, export_ :: name in names && name in policy && export_ in policy[name]
                                   && s == name + "::" + export_
    decreases |names|
  {
    if names == {} {
    } else {
      var n :| n in names && Flatten(policy, names) == Flatten(policy, names - {n}) + FlattenOne(policy, n);
      InFlatten(policy, names - {n}, s);
      InFlattenOne(policy, n, s);
      if name, export_ :| name in names && name in policy && export_ in policy[name] && s == name + "::" + export_ {
        assert name == n || name in names - {n};
      }
    }
  }

  lemma InFlattenOne(policy: Exports, n: string, s: string)
    ensures s in FlattenOne(policy, n) <==>
              n in policy && exists export_ :: export_ in policy[n] && s == n + "::" + export_
  {
    if n in policy {
      var q := Qualified(n, policy[n]);
      if export_ :| export_ in policy[n] && s == n + "::" + export_ {
        var i :| 0 <= i < |policy[n]| && policy[n][i] == export_;
        assert q[i] == s;
      }
      if s in q {
        var i :| 0 <= i < |q| && q[i] == s;
        assert policy[n][i] in policy[n];
      }
    }
  }
}

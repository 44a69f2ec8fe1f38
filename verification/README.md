# A verified model of the ARCHITECT kernel

ARCHITECT runs a language model behind two guards. The *Warden* turns the text a model emits into one
of four intents or a refusal. *SERAPH* runs WebAssembly modules that a registry has authorised, inside
limits on input, output and fuel, and keeps an audit log. The *cognitive loop* joins them: it reads
lines, asks the Warden for a frame, dispatches it, and retries at most twice.

The project models that behaviour in Dafny 4.11 and proves what it keeps, for every input, every guest,
every model and every run. `dafny verify dfyconfig.toml` checks all of it.

## How it is laid out

| files | what they hold |
|---|---|
| `Fips180`, `RoundConstants`, `AbcDigest`, `Sha256` | SHA-256 by recursion as FIPS 180-4 defines it; where its constants come from; its published example; the registry's own in-place implementation, proved equal to it |
| `Json`, `ModuleRegistry`, `Manifests` | JSON trees and key order; the registry as a class over a table, with loading and the four views; what a manifest says, in its JSON alone |
| `GuestAbi`, `Wasmtime`, `GuestProtocol` | pointer packing; native handles and the engine as an arbitrary deterministic oracle; one invocation as a value |
| `Seraph`, `WasmExecutor`, `Exits`, `ExecutorStub` | requests, errors, audit log; the executor as a class over cache, registry and native handles; which way a call goes, told from table, files and engine alone; the stub |
| `History`, `Replay` | runs of calls, revocations, clearings and loads; the same runs on the objects |
| `EchoGuest`, `EchoFailures` | the echo fixture end to end; runs on it in which a tempting property fails |
| `Warden`, `JsonText`, `JsonWriting` | the validator and the engine; reading JSON text as RFC 8259 and nlohmann::json 3.11.3 do; writing any value so that it reads back |
| `Grammar`, `FrameText`, `Frames`, `FrameVerdict`, `Derivation`, `FrameDerivation`, `Printing` | the GBNF productions and derivation; texts as trees; the validator's verdict on them; derivability; canonical printing |
| `CognitiveLoop`, `LoopRuns`, `Retries`, `ConstrainedRuns`, `Kernel` | the loop as a class over any executor; what every run keeps; when the loop tries again; runs with a constrained model; runs wired to the WebAssembly executor |

Code that changes state is a class or a method with loops, proved against a function on values; the
theorems about those functions carry the weight. What a definition says is stated once more in other terms:
constants by the roots of primes, characters by their codes, table entries by the manifest's JSON, exits by the
table, the files and the engine. `Executor.Execute` equals `Run`, `Registry.LoadManifest`
equals `Load`, `Loop.Run` equals `RunFrom`, `Engine.DeserializeIntentOnly` equals `Deserialize`,
`ComputeSha256` equals `Digest`.

## Where the code does less than one might expect

* **An exception in the middle of a call.** Serialising the arguments raises an exception on strings
  that are not UTF-8 (`src/seraph/WasmExecutor.cpp:232`). With an audit sink that takes the start event of such
  a request, as the in-memory and no-op ones do, it leaves `Execute` with one store and one linker still live
  and with no closing event. `EscapesExactly` says exactly when, `Execute`, `LogTellsAll` and `ReplayAll` what
  remains, and `ExceptionCutsShort` is a run. The sink that writes a file
  (`src/seraph/FileAuditSink.cpp:39-48`) serialises the same arguments first and raises the exception there, before
  anything is logged or opened. A sink is modelled by the requests whose start event it takes; where those
  are ones whose arguments can be serialised, nothing leaks and every log is closed brackets
  (`SerialisedRunsClose`, `ReplaySerialised`).
* **A stale cache.** The cache is keyed by name, so a reload that changes a path or a checksum keeps serving
  the old module. `StaleExactly` and `StaleByChecksum` give the conditions, `ReloadGoesStale` is a run; with
  paths and checksums kept, `CacheIsTransparent`.
* **Counting frees.** A request may name `seraph_free` as its function; `FreeCount` counts that call too, and
  `FreedTwice` is a case.
* **The grammar admits more than the validator.** A bare control character in a string, a leading zero, a
  number out of range, or a type that names another payload is derivable and refused. `FrameIsJudged` and
  `DerivableIsJudged` give the exact condition; `MisnamedPayload`, `BareLineBreak` and `BadNumbers` are inputs.
* **The written contract disagrees with the code.** `docs/JSON_CONTRACT.md` shows `frame_id` and
  `timestamp_ms` at the root, and a SERAPH payload without `target_function`. The validator refuses both
  (`ContractFrameRefused`, `DecodeExactly`); the model follows the code.
* **A negative zero.** `-0` is the one integer text that is not canonical and is accepted, as agent id or byte 0
  (`NegativeZero`); so a text is accepted exactly when it parses to an intent's tree up to the kind of its integers.
* `UnsupportedModule` is unreachable in `WasmExecutor` (`UnsupportedModuleNeverReported`). Running out of
  fuel inside the guest's allocator is reported as `GuestTrap` (`FuelExhaustedExactly`). A refused manifest
  version still overwrites the stored one (`Registry.LoadManifest`).

## Model

| member | source | states |
|---|---|---|
| Sha256.ComputeSha256 | src/seraph/ModuleRegistry.cpp:35-91 | for every payload, the printed digest is the one FIPS 180-4 section 6.2 defines recursively; beyond 2^61 bytes it is that hash with the length field taken modulo 2^64, as size_t gives it |
| Sha256.PadBuffer | src/seraph/ModuleRegistry.cpp:41-58 | the buffer built byte by byte is the padding of section 5.1.1 |
| Sha256.LengthField | src/seraph/ModuleRegistry.cpp:55-58 | shifting and masking from the top byte down yields the eight big-endian bytes |
| Sha256.FillSchedule | src/seraph/ModuleRegistry.cpp:61-70 | the schedule filled in place holds the recursive W_t at every index |
| Sha256.LoadWords | src/seraph/ModuleRegistry.cpp:62-67 | the first sixteen words are the block's, read big-endian |
| Sha256.ExtendWords | src/seraph/ModuleRegistry.cpp:68-70 | each later word, made in place from four earlier ones, is the recursive W_t |
| Sha256.RunRounds | src/seraph/ModuleRegistry.cpp:72-80 | the loop over eight rotating variables is the 64-fold round of section 6.2.2 |
| Sha256.CompressBlock | src/seraph/ModuleRegistry.cpp:72-84 | the state array becomes the compression of its old contents with the block |
| Sha256.PrintState | src/seraph/ModuleRegistry.cpp:86-90 | eight digits for each state word, in order |
| Sha256.PrintHex | src/seraph/ModuleRegistry.cpp:86-89 | minimal hexadecimal filled to width eight is the fixed-width big-endian form |
| Sha256.EP0IsBigSigma0 | src/seraph/ModuleRegistry.cpp:25-28 | the shift-and-or macro is the rotation-based function of section 4.1.2, on every word |
| Sha256.EP1IsBigSigma1 | src/seraph/ModuleRegistry.cpp:29 | likewise for the second capital sigma |
| Sha256.SIG0IsSmallSigma0 | src/seraph/ModuleRegistry.cpp:30 | likewise for the first small sigma |
| Sha256.SIG1IsSmallSigma1 | src/seraph/ModuleRegistry.cpp:31 | likewise for the second small sigma |
| Fips180.PadIsShortest | src/seraph/ModuleRegistry.cpp:44-47 | no shorter run of zero bytes leaves whole blocks, and the shortest one is the padding |
| Fips180.LengthFieldExact | src/seraph/ModuleRegistry.cpp:42-58 | the last eight bytes decode to the bit length if and only if the message is below 2^61 bytes |
| Fips180.UnpadPad | src/seraph/ModuleRegistry.cpp:41-58 | a function that reads the length field recovers the message from its padded form |
| Fips180.PadInjective | src/seraph/ModuleRegistry.cpp:41-58 | two messages of any length with the same padded form are equal, even where the length field has wrapped |
| Fips180.DigestDecodes | src/seraph/ModuleRegistry.cpp:86-90 | 64 lower-case digits, each group of eight reading back as its word of the hash value |
| RoundConstants.RoundConstantBits | src/seraph/ModuleRegistry.cpp:14-23 | constant t is the first 32 bits of the fractional part of the cube root of the t-th prime, as section 4.2.2 says |
| RoundConstants.InitialHashBits | src/seraph/ModuleRegistry.cpp:36-39 | the initial hash words are those of the square roots of the first eight primes, as section 5.3.3 says |
| RoundConstants.TableIsPrime | src/seraph/ModuleRegistry.cpp:14-23 | the list of sixty-four numbers behind the constants holds primes only |
| RoundConstants.PrimesAreListed | src/seraph/ModuleRegistry.cpp:14-23 | and every prime up to the last, in increasing order, so it is the first sixty-four |
| RoundConstants.CubeRootBitsAreUnique | src/seraph/ModuleRegistry.cpp:14-23 | a prime leaves no choice of its 32 bits |
| RoundConstants.SquareRootBitsAreUnique | src/seraph/ModuleRegistry.cpp:36-39 | likewise for square roots |
| Fips180.ChooseAndMajority | src/seraph/ModuleRegistry.cpp:26-27 | bit by bit, CH takes the second or third word as the first says, and MAJ what two of three say |
| Fips180.ChainAbsorbs | src/seraph/ModuleRegistry.cpp:60-84 | the hash chain absorbs every block once, from the first to the last |
| AbcDigest.AbcHash | src/seraph/ModuleRegistry.cpp:35-91 | the hash value of "abc" is the published one, through padding, schedule and 64 rounds |
| GuestAbi.PackIsTwoDigits | src/seraph/SeraphGuestAbi.hpp:29-31 | shift and or, bit by bit, give ptr * 2^32 + len, without overflow |
| GuestAbi.UnpackIsTwoDigits | src/seraph/SeraphGuestAbi.hpp:34-40 | shift and mask give the two base-2^32 digits of any 64-bit value |
| GuestAbi.UnpackPack | src/seraph/SeraphGuestAbi.hpp:29-40 | unpacking undoes packing for all 32-bit pairs |
| GuestAbi.PackUnpack | src/seraph/SeraphGuestAbi.hpp:29-40 | packing undoes unpacking for all 64-bit values |
| ModuleRegistry.Registry.LoadManifest | src/seraph/ModuleRegistry.cpp:93-164 | result, table and stored version after a load, for every file: which error, and which table it leaves |
| ModuleRegistry.Registry.FillTable | src/seraph/ModuleRegistry.cpp:118-163 | the loop in key order leaves exactly the entries before the first malformed one |
| ModuleRegistry.Registry.ReadEntry | src/seraph/ModuleRegistry.cpp:121-160 | an entry is accepted if and only if path, checksum and ABI version are strings and no listed export is anything else; what it then holds |
| ModuleRegistry.LoadedBefore | src/seraph/ModuleRegistry.cpp:120-161 | when the loop stops at a malformed entry, the table is what a key-order cut at that entry gives |
| Manifests.EntryExactly | src/seraph/ModuleRegistry.cpp:121-160 | an entry is accepted as m if and only if m is what its JSON says, field by field: trusted exactly when "trusted" is true, path, checksum and ABI version the strings under their keys, exports the listed strings in order |
| Manifests.MalformedExactly | src/seraph/ModuleRegistry.cpp:121-158 | an entry is malformed if and only if no table entry follows it |
| Manifests.LoadErrorsExactly | src/seraph/ModuleRegistry.cpp:93-164 | each of the four errors, success and the stored version, if and only if the file calls for it, in terms of its JSON |
| Manifests.LoadFollows | src/seraph/ModuleRegistry.cpp:118-161 | after a load every entry is what the manifest says under its name |
| Manifests.TrustIsGiven | src/seraph/ModuleRegistry.cpp:143-145 | a module trusted after a load is marked "trusted": true in that manifest, or was trusted in a table the load left alone |
| Manifests.LessExactly | src/seraph/ModuleRegistry.cpp:120 | keys are visited by their first differing character, the shorter of two first |
| Manifests.PolicyExactly | src/seraph/ModuleRegistry.cpp:174-188 | the policy gives a module these exports if and only if it is tracked, trusted, of ABI version 1.0, and lists them |
| Manifests.CountsExactly | src/seraph/ModuleRegistry.cpp:219-237 | the counts are the numbers of trusted modules and of trusted modules of ABI version 1.0 |
| Manifests.RevocationCounts | src/seraph/ModuleRegistry.cpp:212-237 | revoking a trusted module lowers the trusted count by one, the compatible count by one if its version is 1.0, and the exports by its bindings |
| History.RevokeExactly | src/seraph/ModuleRegistry.cpp:212-217 | revoking takes one entry's trust mark and leaves every other entry and field alone |
| ModuleRegistry.Registry.ReloadManifest | src/seraph/ModuleRegistry.cpp:206-210 | reloading is loading over the table and version that were there |
| ModuleRegistry.Registry.GetModuleProfile | src/seraph/ModuleRegistry.cpp:166-172 | the tracked entry, or nothing |
| ModuleRegistry.Registry.RevokeModule | src/seraph/ModuleRegistry.cpp:212-217 | only the trust mark of that one entry changes |
| ModuleRegistry.Registry.GenerateSystemPolicy | src/seraph/ModuleRegistry.cpp:174-188 | the nested loops build, in any visiting order, the exports of every trusted entry of this ABI, in their order, and no empty lists |
| ModuleRegistry.Registry.DescribePromptCapabilities | src/seraph/ModuleRegistry.cpp:190-204 | the prompt list, in any visiting order, is as a multiset the system policy flattened into "name::export" |
| ModuleRegistry.Registry.GetDiagnostics | src/seraph/ModuleRegistry.cpp:219-237 | the counters are the sizes of the trusted set, the compatible set and the flattened policy |
| ModuleRegistry.FlattenRemove | src/seraph/ModuleRegistry.cpp:190-204 | the flattening does not depend on the order of names |
| ModuleRegistry.FlattenAll | src/seraph/ModuleRegistry.cpp:174-204 | flattening over all tracked names or over the policy's names gives the same multiset |
| GuestProtocol.InvocationErrors | src/seraph/WasmExecutor.cpp:171-346 | an invocation ends in no error that a gate or the loader would give, and not as unlogged |
| GuestProtocol.ThrowsExactly | src/seraph/WasmExecutor.cpp:171-232 | an exception leaves the call if and only if the instance opens and the arguments cannot be serialised |
| GuestProtocol.HostWritesOnlyPayload | src/seraph/WasmExecutor.cpp:254-273 | for an arbitrary guest, between two guest calls the host changes no byte but those of the payload, right after the allocator, inside the memory as it then is |
| GuestProtocol.OutputExactly | src/seraph/WasmExecutor.cpp:300-345 | an output is returned if and only if all three calls happen, the packed region lies in the memory as it is after the call and its length is within the limit; it is then the guest's slice |
| GuestProtocol.FaultsExactly | src/seraph/WasmExecutor.cpp:231-336 | each of the six ways to fail, if and only if what the guest was seen to do calls for it: how many calls, how each came back, where the regions lay |
| GuestProtocol.FreeComesLast | src/seraph/WasmExecutor.cpp:220-328 | once the allocator has returned, the last guest call is seraph_free, on the payload region until the function completes and on the result region afterwards |
| GuestProtocol.FreeCount | src/seraph/WasmExecutor.cpp:220-328 | the exact number of seraph_free calls in every invocation, with the one exception of a request that names it |
| GuestProtocol.FuelExhaustedExactly | src/seraph/WasmExecutor.cpp:282-298 | that error arises if and only if the requested function traps out of fuel |
| Exits.GatesExactly | src/seraph/WasmExecutor.cpp:71-105 | each gate's error, and passing them all, if and only if the table and the request call for it |
| Exits.NamesExactly | src/seraph/WasmExecutor.cpp:76-81 | the name pattern, by character codes |
| Exits.RefusedExactly | src/seraph/WasmExecutor.cpp:71-105 | a refused call ends in its gate's error without a guest call |
| Exits.CacheExactly | src/seraph/WasmExecutor.cpp:83-169 | what every call does to the cache: eviction of untrusted or wrongly versioned modules, one insertion after a load, nothing else |
| Exits.LoadsExactly | src/seraph/WasmExecutor.cpp:113-168 | each error of loading a module, and the code on success, if and only if file, checksum and engine call for it |
| Exits.OpensExactly | src/seraph/WasmExecutor.cpp:171-217 | an instance opens if and only if fuel is accepted, instantiation gives neither error nor trap, and seraph_alloc, seraph_free, memory and the requested function are exported with the right kinds; which error otherwise |
| Exits.MissingExactly | src/seraph/WasmExecutor.cpp:196-217 | MissingExport if and only if one of the four is missing or misshapen, and then no guest call was made |
| Exits.MissingAtRun | src/seraph/WasmExecutor.cpp:66-217 | the same for the whole call, and every guest call of a run names an exported function of the opened store |
| Exits.CallsExactly | src/seraph/WasmExecutor.cpp:231-328 | which exports are called, with which arguments, in which order, and when there are two calls rather than three |
| Exits.DefaultsExactly | src/seraph/WasmExecutor.hpp:16-20 | the default limits on input, output and fuel |
| Exits.NoAllocator | tests/test_wasm_executor_failures.cpp:47 | a module without seraph_alloc ends in MissingExport before the guest runs |
| Wasmtime.Runtime.WriteMemory | src/seraph/WasmExecutor.cpp:257-273 | the copy needs a memory pointer taken since the last guest call and a target in bounds, and changes just that region |
| Wasmtime.Runtime.ReadMemory | src/seraph/WasmExecutor.cpp:305-321 | the same demands on the read, which gives the slice |
| WasmExecutor.Executor.constructor | src/seraph/WasmExecutor.cpp:14-19 | nothing cached, nothing live |
| WasmExecutor.Executor.InspectCacheCount | src/seraph/WasmExecutor.cpp:28-30 | the number of cached names |
| WasmExecutor.Executor.ClearCache | src/seraph/WasmExecutor.cpp:32-37 | every cached handle is deleted once, while live, and no module stays live |
| WasmExecutor.Executor.Destroy | src/seraph/WasmExecutor.cpp:21-26 | after destruction no native module is live |
| WasmExecutor.Executor.PreFlightCheck | src/seraph/WasmExecutor.cpp:39-64 | the search loop decides whether the tracked entry lists the function under its own name |
| WasmExecutor.Executor.AcquireModule | src/seraph/WasmExecutor.cpp:107-169 | the cached module or a fresh one, cached under its name; on an error the cache is unchanged and the error is logged |
| WasmExecutor.Executor.CompileModule | src/seraph/WasmExecutor.cpp:113-166 | one new live module or none, buffers and errors all deleted, on each of the five exits |
| WasmExecutor.Executor.ResolveExports | src/seraph/WasmExecutor.cpp:196-212 | usable if and only if all four exports exist with the right kinds |
| WasmExecutor.Executor.FuelledStore | src/seraph/WasmExecutor.cpp:171-180 | one new store holding its fuel, or none and the error logged |
| WasmExecutor.Executor.OpenInstance | src/seraph/WasmExecutor.cpp:171-217 | one new store and one new linker on success, nothing left on each failure, with its error logged |
| WasmExecutor.Executor.Allocate | src/seraph/WasmExecutor.cpp:231-254 | the size limit and the allocator's call: its pointer, or the instance released and the fault logged |
| WasmExecutor.Executor.WritePayload | src/seraph/WasmExecutor.cpp:256-273 | the payload written if and only if its region lies in the memory as it now is; otherwise freed, released and logged |
| WasmExecutor.Executor.AllocateAndWrite | src/seraph/WasmExecutor.cpp:231-273 | the transcript's first steps on real handles: payload written where the allocator said, or the instance released and the error logged |
| WasmExecutor.Executor.CallAndRead | src/seraph/WasmExecutor.cpp:275-346 | the call, its fault or its result, the free that follows, and the release of every handle |
| WasmExecutor.Executor.ReadAndRelease | src/seraph/WasmExecutor.cpp:300-346 | the result region judged, copied, freed and the instance released on all three exits |
| WasmExecutor.Executor.CleanupAndFree | src/seraph/WasmExecutor.cpp:220-229 | one call of the guest's free, whose error and trap do not outlive it |
| WasmExecutor.Executor.CleanupAndFreeDuringFault | src/seraph/WasmExecutor.cpp:291-293 | the same while the failed call's own error and trap are still held, which are then dropped |
| WasmExecutor.Executor.ConverseWithGuest | src/seraph/WasmExecutor.cpp:231-346 | steps 1 to 5 produce the transcript Converse and release the instance on every path |
| WasmExecutor.Executor.InvokeGuest | src/seraph/WasmExecutor.cpp:171-346 | the whole invocation equals Invoke; all handles are back where they were, except one store and one linker after an exception |
| WasmExecutor.Executor.EvictModule | src/seraph/WasmExecutor.cpp:85-90 | the name leaves the cache and its handle is deleted, once |
| WasmExecutor.Executor.PassGates | src/seraph/WasmExecutor.cpp:71-105 | the profile if every gate passes; otherwise the first gate's error, logged, and the module evicted exactly where the source evicts it |
| WasmExecutor.Executor.AcquireAndInvoke | src/seraph/WasmExecutor.cpp:107-346 | what follows the gates: the load error with the cache unchanged, or the invocation with the module cached |
| WasmExecutor.Executor.Execute | src/seraph/WasmExecutor.cpp:66-346 | outcome, guest calls and cache equal Run for every state and every sink, those included that raise an exception on the start event; the log grows by one bracket; live modules stay exactly the cached handles, one per name |
| WasmExecutor.OwnsInsert | src/seraph/WasmExecutor.cpp:168 | caching a new handle keeps live modules and cached handles in bijection |
| WasmExecutor.OwnsErase | src/seraph/WasmExecutor.cpp:85-90 | erasing a name with its handle keeps that bijection |
| Seraph.LogTellsAll | src/seraph/IAuditSink.hpp:12-14 | a log reads back as closed brackets on matching requests if and only if no call threw after its start event, and then gives every recorded request with the returned error or result |
| Seraph.LogAppend | src/seraph/WasmExecutor.cpp:66-68 | the log of two runs in a row is the two logs in a row |
| History.LoadIsGenuine | src/seraph/WasmExecutor.cpp:113-166 | loading gives a module if and only if it is the compilation of bytes with the profile's digest |
| History.NextKeepsGenuine | src/seraph/WasmExecutor.cpp:83-169 | every operation keeps each cached module the compilation of bytes with the pinned digest |
| History.CallIsTransparent | src/seraph/WasmExecutor.cpp:107-169 | with such a cache one call has the outcome and guest calls of a cacheless one |
| History.CacheIsTransparent | src/seraph/WasmExecutor.cpp:83-169 | over every run of calls, revocations, clearings and loads that keep paths and checksums, outcomes and guest calls equal those of an executor that reads, hashes and compiles each time |
| History.FreesMatchAllocations | src/seraph/WasmExecutor.cpp:220-328 | over every run whose requests do not name seraph_free, that function is called exactly as often as an allocation returned |
| History.StaleExactly | src/seraph/WasmExecutor.cpp:107-169 | after any reload, an authorised cached call agrees with a fresh one in outcome and guest calls if the table asks for the cached module, differs if what it asks for cannot be loaded, and otherwise each is its own module's invocation |
| History.StaleByChecksum | src/seraph/WasmExecutor.cpp:107-144 | with the path kept, a cached call ends like a fresh one if and only if the checksum is still the one it was cached under |
| History.EscapesExactly | src/seraph/WasmExecutor.cpp:66-232 | a call leaves by an exception in the middle if and only if its start event is taken, every gate passes, the module is at hand, the instance opens and the arguments cannot be serialised; and unlogged if and only if the sink refuses the start event |
| History.SerialisedRunsClose | src/seraph/FileAuditSink.cpp:39-72 | over every run in which audited requests can be serialised, the log reads back as one closed bracket per recorded call |
| History.GateAgreesWithPolicy | src/seraph/WasmExecutor.cpp:39-105 | a request passes all gates if and only if the system policy lists it, the function name is not empty and the module name matches the pattern |
| History.UnsupportedModuleNeverReported | src/seraph/WasmExecutor.cpp:92-95 | that exit is unreachable |
| History.RevocationPersists | src/seraph/ModuleRegistry.cpp:212-217 | from a revocation, or for a module no manifest marked as trusted, until a manifest does: every call on it is refused by a gate or by the sink, it is in no policy, and once out of the cache it stays out |
| History.RevokeEvicts | src/seraph/WasmExecutor.cpp:83-100 | in any run from a revocation in which no manifest restores the trust, an audited call that passes preflight and the name check leaves the module out of the cache, then and for the rest of the run |
| History.LoadNeverMixes | src/seraph/ModuleRegistry.cpp:93-164 | a refused root leaves the old table; any other load leaves only entries exactly as this manifest has them: all of them if and only if it succeeds, and otherwise those before the first malformed one in key order |
| History.KeysBefore | src/seraph/ModuleRegistry.cpp:120-161 | a failed load keeps the names that precede the first malformed entry in key order |
| History.EntriesKeepTheirNames | src/seraph/ModuleRegistry.cpp:120-160 | in every run each entry is filed under its own name and grants capabilities to no other |
| History.ViewsAgree | src/seraph/ModuleRegistry.cpp:174-237 | the prompt list has exactly one line form per policy binding, the export counter is its length, and abi-compatible is at most trusted is at most tracked |
| Replay.Apply | src/seraph/WasmExecutor.cpp:66-346 | one operation on the objects does what Next does to the values, logs it, and makes just the guest calls the values say |
| Replay.ReplayAll | src/seraph/WasmExecutor.cpp:21-346 | after any sequence of operations the audit log and the guest calls are the run's, live modules are the cached ones, and exactly one store and one linker remain per call that threw after its start event |
| Replay.ReplaySerialised | src/seraph/FileAuditSink.cpp:39-48 | with a sink that takes only requests that can be serialised, no store, linker, error, trap or buffer is left over and the log is closed brackets |
| ExecutorStub.Stub.PreFlightCheck | src/seraph/ExecutorStub.cpp:7-27 | the search loop decides whether the request's own list grants the function |
| ExecutorStub.Stub.Execute | src/seraph/ExecutorStub.cpp:29-65 | each outcome characterised by the request, both ways, and one bracket in the log |
| ExecutorStub.Replay | src/seraph/ExecutorStub.cpp:29-65 | any sequence of calls leaves a log that reads back as exactly the calls whose start event the sink took |
| EchoGuest.EchoConversation | tests/fixtures/echo.wat:1-23 | the payload comes back byte for byte exactly up to 64536 bytes, AllocatorError up to 65536, PayloadTooLarge above |
| EchoGuest.EchoEndToEnd | tests/fixtures/echo.wat:1-23 | the same thresholds through every gate and the cache, on any engine whose store for this code echoes, whatever else it hosts |
| EchoGuest.EchoEngineRuns | tests/fixtures/echo.wat:1-23 | an engine that runs the fixture, for every payload, so the two results above are not empty |
| EchoFailures.ExceptionCutsShort | src/seraph/WasmExecutor.cpp:232 | a load and one authorised call that leaves by an exception: the log is not closed brackets |
| EchoFailures.ReloadGoesStale | src/seraph/WasmExecutor.cpp:107-112 | load, call, reload with another checksum, call: the cache still serves the module that a fresh load refuses |
| EchoFailures.FreedTwice | src/seraph/WasmExecutor.cpp:220-328 | one allocation and two calls of seraph_free, the requested one and the host's |
| Warden.DecodeExactly | src/warden/WardenEngine.cpp:187-305 | a tree decodes to an intent if and only if it is one of the four schemas written out, with no key missing or added |
| Warden.UnauthorizedExactly | src/warden/WardenEngine.cpp:306-308 | UnauthorizedIntent if and only if the root is otherwise well-formed and its type unknown; every other refusal is GrammarViolation |
| Warden.DecodeEncode | src/warden/WardenEngine.cpp:187-305 | decoding an intent's tree gives the intent back |
| Warden.EncodeDecode | src/warden/WardenEngine.cpp:187-305 | an accepted tree is the tree of its intent up to the kind of its integers: nothing in it was ignored |
| Warden.DecodesToExactly | src/warden/WardenEngine.cpp:58-305 | a tree decodes to an intent if and only if it is that intent's tree up to the kind of its integers |
| Warden.NegativeZero | src/warden/WardenEngine.cpp:64-72 | the text -0 reads as a signed zero, which is accepted as agent id 0 |
| Warden.AcceptedExactly | src/warden/WardenEngine.cpp:187-321 | any text of code points is accepted as an intent if and only if it parses to that intent's tree up to the kind of its integers |
| Warden.ContractFrameRefused | docs/JSON_CONTRACT.md:7-16 | a frame with the documented id and time stamp is refused for every intent |
| Warden.HasOnlyKeys | src/warden/WardenEngine.cpp:33-56 | true if and only if it is an object all of whose keys are allowed |
| Warden.TryReadUInt64 | src/warden/WardenEngine.cpp:58-75 | reads exactly the integers from 0 to 2^64 - 1 |
| Warden.TryReadByte | src/warden/WardenEngine.cpp:77-89 | reads exactly the integers from 0 to 255 |
| Warden.TryReadStringMap | src/warden/WardenEngine.cpp:91-109 | reads exactly the objects all of whose values are strings, whatever order they come in |
| Warden.DecodeBytes | src/warden/WardenEngine.cpp:285-297 | the bytes in order, or nothing if one item is no byte |
| Warden.DeserializePayload | src/warden/WardenEngine.cpp:216-308 | the chain of type tests and key checks decides as the schemas do |
| Warden.DeserializeIntentOnly | src/warden/WardenEngine.cpp:187-321 | on every text of code points the validator's branches equal parsing followed by the decoding function |
| Warden.Engine.CompileGrammarConstraints | src/warden/WardenEngine.cpp:113-121 | the active grammar is the given text afterwards, however often it is compiled |
| Warden.Engine.NextFrameId | src/warden/WardenEngine.cpp:176-178 | ids count up and wrap at 2^64 |
| Warden.Engine.EnforceCognition | src/warden/WardenEngine.cpp:130-174 | the model is asked exactly when attached and there is something to say, with the prompt for the context and the active grammar; its answer decides; an id is spent if and only if a frame is accepted |
| Warden.JudgedExactly | src/warden/WardenEngine.cpp:149-166 | InferenceTimeout exactly for no answer or an empty one; any other answer is what its text is |
| JsonText.TakesNumber | build/_deps/json-src/include/nlohmann/detail/input/lexer.hpp:977-1295 | a run of digits that nothing continues reads to its number, and fails exactly on a leading zero or past the range of a double |
| JsonText.LimitIsMidpoint | build/_deps/json-src/include/nlohmann/detail/input/lexer.hpp:1284-1293 | the first number to overflow is half way from the largest double to 2^1024 |
| JsonWriting.SpacesExactly | build/_deps/json-src/include/nlohmann/detail/input/lexer.hpp:1501-1508 | exactly the tab, the line feed, the carriage return and the space are skipped |
| JsonWriting.DigitsExactly | build/_deps/json-src/include/nlohmann/detail/input/lexer.hpp:930-950 | the digits and their values, by code |
| JsonWriting.CharactersExactly | build/_deps/json-src/include/nlohmann/detail/input/lexer.hpp:254-270 | in a string, a character that is neither quote nor backslash stands for itself from code 32 on and is refused below |
| JsonWriting.EscapesExactly | build/_deps/json-src/include/nlohmann/detail/input/lexer.hpp:283-318 | the codes the letters after a backslash stand for; every other letter but u is refused |
| JsonWriting.CodePointReads | build/_deps/json-src/include/nlohmann/detail/input/lexer.hpp:320-352 | an escape of four hexadecimal digits names its character |
| JsonWriting.SurrogatesRead | build/_deps/json-src/include/nlohmann/detail/input/lexer.hpp:330-352 | a surrogate pair names its character |
| JsonWriting.FractionReads | build/_deps/json-src/include/nlohmann/detail/input/lexer.hpp:1102-1157 | a fraction makes a double, or an error where it overflows one |
| JsonWriting.ExponentReads | build/_deps/json-src/include/nlohmann/detail/input/lexer.hpp:1159-1241 | a power of ten likewise |
| JsonWriting.WrittenParses | src/warden/WardenEngine.cpp:190 | every value, with strings of any characters, integers, arrays and objects, written out parses back to itself |
| JsonWriting.IntentsAreReadable | src/warden/WardenEngine.cpp:187-305 | every intent, whatever characters its strings hold, has a text that is validated to exactly that intent |
| JsonWriting.PlainThought | tests/test_warden.cpp:47-52 | the think frame around any string without quote, backslash or code below 32 is validated to exactly that thought |
| FrameText.ReadsChars | src/warden/WardenEngine.cpp:190 | a string of the grammar reads to what its characters and escapes mean, and fails exactly on a bare control character |
| FrameText.ReadsArray | src/warden/GrammarConstraints.cpp:13 | a number array of the grammar reads to its numbers in order, and fails exactly on a leading zero |
| FrameText.ReadsDict | src/warden/GrammarConstraints.cpp:14 | a dictionary of the grammar reads to its map, the last of equal keys counting |
| Frames.ParsesFrame | src/warden/GrammarConstraints.cpp:7-22 | the parser reads the text of every frame, with any whitespace the grammar allows, to that frame's tree or refuses it |
| FrameVerdict.FrameIsJudged | src/warden/WardenEngine.cpp:187-305 | the validator on every frame's text: the written intent if and only if strings are clean, numbers canonical and in range, and the type names the payload; GrammarViolation otherwise |
| FrameVerdict.PayloadVerdict | src/warden/WardenEngine.cpp:221-304 | the payload's tree is accepted under a type name if and only if it writes an intent of that type |
| Grammar.WsExactly | src/warden/GrammarConstraints.cpp:8 | the rule derives exactly the whitespace strings |
| Grammar.NumberExactly | src/warden/GrammarConstraints.cpp:12 | the rule derives exactly the non-empty digit strings |
| Derivation.EscapeExactly | src/warden/GrammarConstraints.cpp:11 | the rule derives exactly the eight escape letters |
| Derivation.TakeString | src/warden/GrammarConstraints.cpp:9-11 | whatever the string rule derives is a quoted list of plain characters and escapes |
| Derivation.PutString | src/warden/GrammarConstraints.cpp:9-11 | every quoted list of plain characters and escapes is derived |
| Derivation.TakeItems | src/warden/GrammarConstraints.cpp:13-14 | an optional repeated list derives only items between commas and whitespace |
| Derivation.PutItems | src/warden/GrammarConstraints.cpp:13-14 | every such list is derived |
| FrameDerivation.NamesExactly | src/warden/GrammarConstraints.cpp:16 | the rule derives exactly the four quoted type names |
| FrameDerivation.TakePayload | src/warden/GrammarConstraints.cpp:17-22 | whatever the payload rule derives is the text of one of the four payloads |
| FrameDerivation.PutPayload | src/warden/GrammarConstraints.cpp:17-22 | every payload's text is derived |
| FrameDerivation.DerivableExactly | src/warden/GrammarConstraints.cpp:6-23 | a text is derivable from the root if and only if it is the text of a frame |
| FrameDerivation.RootIsTight | src/warden/GrammarConstraints.cpp:7 | no derivable text has whitespace between the type's name and the comma or between the last two braces |
| FrameDerivation.DerivableIsJudged | src/warden/GrammarConstraints.cpp:6-23 | the validator's result on every derivable text, which is never UnauthorizedIntent |
| Printing.TokensMean | src/warden/GrammarConstraints.cpp:10-11 | writing a string with the short escapes and reading its tokens gives the string back |
| Printing.NumberReads | src/warden/GrammarConstraints.cpp:12 | decimal printing gives a numeral without leading zero that reads back |
| Printing.FramePrints | src/warden/GrammarConstraints.cpp:7-22 | the compact text built by concatenation is the text of a frame without whitespace |
| Printing.PrintRoundTrip | src/warden/WardenEngine.cpp:187-305 | for every intent whose strings need only the short escapes, and any order of its arguments, the compact text is derivable, parses to its tree, and is validated to exactly that intent |
| Printing.ExpressibleExactly | src/warden/GrammarConstraints.cpp:6-23 | some derivable text is accepted as an intent if and only if its strings need no escape beyond the two-character ones |
| Printing.MisnamedPayload | src/warden/GrammarConstraints.cpp:7-17 | a derivable text that is refused: the type names another payload |
| Printing.BareLineBreak | src/warden/GrammarConstraints.cpp:10 | a derivable text that is refused: a line break inside a string |
| Printing.BadNumbers | src/warden/GrammarConstraints.cpp:12-13 | derivable texts that are refused: a leading zero, a byte above 255 |
| CognitiveLoop.Loop.DispatchIntent | src/core/CognitiveLoop.cpp:89-153 | the outcome of each intent, and the executor called once for a SERAPH intent and not otherwise |
| CognitiveLoop.Loop.ThinkAndDispatch | src/core/CognitiveLoop.cpp:55-85 | the second half of a turn equals Think in events, context and counters |
| CognitiveLoop.Loop.TakeTurn | src/core/CognitiveLoop.cpp:33-86 | one pass of the loop body equals Step in events, input, context and counters |
| CognitiveLoop.Loop.Run | src/core/CognitiveLoop.cpp:27-87 | the loop ends for every input, model and executor, with the events, remaining input, counters and executor state of RunFrom |
| CognitiveLoop.StepKeepsHead | src/core/CognitiveLoop.cpp:33-86 | at each loop head feedback is pending if and only if attempts were made, there are at most two, and (lines left, patience) goes down |
| LoopRuns.ThoughtsAreProper | src/core/CognitiveLoop.cpp:34-55 | in every run no cognition call sees an empty stimulus, an exit line or more than two attempts, and retries carry the fixed call for revision |
| LoopRuns.AttemptsPerLine | src/core/CognitiveLoop.cpp:55-85 | every accepted line is followed by one to three cognition calls before the next line is read, every other line by none |
| LoopRuns.FramesAreNumbered | src/warden/WardenEngine.cpp:168-178 | over a whole run the k-th accepted frame has the k-th id, the frames dispatched are the frames accepted, and failures spend no id |
| LoopRuns.EveryThoughtIsMotivated | src/core/CognitiveLoop.cpp:55-85 | a retry's feedback is the complaint of the event right before it, and a first attempt follows its own line |
| LoopRuns.LinesReadInOrder | src/core/CognitiveLoop.cpp:33-49 | lines are read once each in order, all of them when the input closes; exit ends the run and is its last line |
| Retries.EveryEventContinues | src/core/CognitiveLoop.cpp:33-86 | in every run a failed thought, or a dispatch that failed, with fewer than two recoveries is followed at once by another attempt with that complaint, one more recovery and the call for revision; after a success or a third failure the loop reads on; an accepted frame is dispatched; an exception ends the run |
| Retries.ThreeAttempts | src/core/CognitiveLoop.cpp:55-82 | a line whose attempts all fail gets exactly three cognition calls |
| Retries.OutcomesAreShown | src/core/CognitiveLoop.cpp:98-150 | in every run a thought succeeds, and a query or broadcast fails as unavailable |
| Retries.RequestExactly | src/core/CognitiveLoop.cpp:123-127 | a SERAPH intent becomes a request with its own module, function and arguments and the loop's capabilities |
| ConstrainedRuns.RunStaysWithin | src/core/CognitiveLoop.cpp:27-87 | with a model that emits only texts of the grammar, no run reports UnauthorizedIntent and every intent accepted or dispatched is expressible |
| Kernel.TurnAccounts | src/core/CognitiveLoop.cpp:33-86 | one turn with the WebAssembly executor makes at most one call, for the frame it dispatches, and logs its bracket |
| Kernel.KernelAccounts | src/core/CognitiveLoop.cpp:27-153 | over a whole run wired to the WebAssembly executor, whatever the model answers: one call per dispatched SERAPH frame, on its request, in order; the log grows by exactly their brackets; cache and registry end as after those calls; the loop is shown each outcome and ends by an exception if and only if the last call does |
| Kernel.KernelIsAuthorised | src/main.cpp:147-191 | in such a run a call returns or reaches its guest only where the policy the loop was given lists the frame's module and function; every other audited call fails at a gate |
| Kernel.KernelLogReads | src/main.cpp:62-191 | with a sink that takes only requests that can be serialised, the log of a run reads back as one closed bracket per recorded SERAPH frame, with the outcome the loop was shown |
| Kernel.StubAgreesWithPolicy | src/seraph/ExecutorStub.cpp:7-27 | on requests that carry the system policy, the stub grants exactly what the policy lists |

## Left out

- llama.cpp, prompt assembly and the mock backend: the model is an arbitrary function of the call number, the prompt and the grammar, and the prompt an arbitrary function of the context.
- wasmtime and wat2wasm: compilation, instantiation and calls are arbitrary deterministic functions of bytes and guest state; only the echo fixture's three functions are given behaviour.
- The phases of `Execute` are methods of their own, where the source is one function; the order of effects is kept.
- The engine handle, made in the constructor and deleted in the destructor, is not counted among the native handles.
- The error text of a result, which neither executor sets.
- Files and paths: a fixed map from path to contents, and path joining is a parameter of the load. Files do not change during a run.
- Sha256.ComputeSha256: memory exhaustion and vector sizes beyond size_t, which no real payload reaches.
- JsonText.Parse: works on code points; a text that is not valid UTF-8, which nlohmann::json refuses, is outside the model. A floating-point value is not computed, only whether it overflows a double.
- Strings hold one code point or one byte per character; UTF-8 encoding is not modelled, and the serialiser of arguments is an arbitrary partial function.
- Grammar.Production: the productions are data, written from the GBNF text; parsing that text is not modelled, and the engine passes the text on as an arbitrary one.
- Kernel.KernelAccounts: composes the loop with the executor as values; the objects are tied to those values one by one, by Loop.Run and Executor.Execute.
- Capability manifests carry file-system paths and network hosts that no code reads; only exports are kept.
- The texts of semantic feedback are an arbitrary function of the error.
- Time stamps, execution times, console output, environment variables and boot.
- FileAuditSink's formatting and locking and LogSystemEvent: the audit sink is an append-only sequence, with the requests whose start event it takes. A sink that raises an exception on a closing event after it took the start is not modelled; the file sink serialises nothing there that it did not serialise at the start.
- Concurrent calls: the cache has no lock, and every run is sequential.

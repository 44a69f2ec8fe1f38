/** The loop wired to the WebAssembly executor: what a whole run of the kernel leaves in the audit log
    and the cache, whatever the model says. */
module Kernel {
  import opened Common
  import opened Seraph
  import opened ModuleRegistry
  import opened GuestProtocol
  import opened WasmExecutor
  import opened History
  import opened Warden
  import opened CognitiveLoop
  import ExecutorStub

  /** The executor as the loop sees it: the registry's table, the cache, and the audit log behind it. */
  datatype Seat = Seat(world: World, log: seq<AuditEvent>)

  function ExecuteOn(host: Host, x: Seat, request: InvocationRequest): (Outcome, Seat) {
    var run := Run(host, x.world.table, x.world.cache, request);
    (run.outcome, Seat(World(x.world.table, run.cache), x.log + Bracket(request, run.outcome)))
  }

  /** The loop calls this executor, and hands it the policy of its registry. */
  ghost predicate Mounted(w: Wiring<Seat>, host: Host, table: Table) {
    && w.systemCapabilities == Policy(table)
    && forall x, request :: w.execute(x, request) == ExecuteOn(host, x, request)
  }

  function Mount(
    host: Host, table: Table, brain: Option<Brain>, buildPrompt: AgentContext -> string, grammar: string,
    feedback: ExecutionError -> string, capabilities: seq<string>): Wiring<Seat>
  {
    Wiring(brain, buildPrompt, grammar, (x: Seat, request: InvocationRequest) => ExecuteOn(host, x, request),
           feedback, Policy(table), capabilities)
  }

  lemma MountMounts(
    host: Host, table: Table, brain: Option<Brain>, buildPrompt: AgentContext -> string, grammar: string,
    feedback: ExecutionError -> string, capabilities: seq<string>)
    ensures Mounted(Mount(host, table, brain, buildPrompt, grammar, feedback, capabilities), host, table)
  {
  }

  /** A frame that reached the executor, and the outcome the loop took from it. */
  type Sent = (CognitiveFrame, Option<DispatchOutcome>)

  function SentBy(e: Event): (sent: seq<Sent>)
    ensures |sent| <= 1 && forall d | d in sent :: d.0.intent.InvokeSeraph?
  {
    if e.Dispatched? && e.frame.intent.InvokeSeraph? then [(e.frame, e.outcome)] else []
  }

  /** The SERAPH frames dispatched in a run, in order. */
  function SentIn(events: seq<Event>): (sent: seq<Sent>)
    ensures forall d | d in sent :: d.0.intent.InvokeSeraph?
  {
    if events == [] then [] else SentBy(events[0]) + SentIn(events[1..])
  }

  /** The calls to the executor that these frames stand for. */
  function OpsOf(w: Wiring<Seat>, sent: seq<Sent>): seq<Op>
    requires forall d | d in sent :: d.0.intent.InvokeSeraph?
  {
    seq(|sent|, k requires 0 <= k < |sent| => DoExecute(RequestOf(w, sent[k].0.intent)))
  }

  /** What the loop makes of an outcome. */
  function Shown(w: Wiring<Seat>, outcome: Outcome): Option<DispatchOutcome> {
    match outcome
    case Threw => None
    case Unlogged => None
    case Failed(e) => Some(DispatchOutcome(false, w.semanticFeedback(e)))
    case Returned(_) => Some(DispatchOutcome(true, ""))
  }

  /** One call for each frame, on its request, and the loop shown its outcome. */
  ghost predicate Told(w: Wiring<Seat>, sent: seq<Sent>, calls: seq<Ended>)
    requires forall d | d in sent :: d.0.intent.InvokeSeraph?
  {
    && |sent| == |calls|
    && forall k | 0 <= k < |sent| ::
         calls[k].0 == RequestOf(w, sent[k].0.intent) && sent[k].1 == Shown(w, calls[k].1)
  }

  // ---- Lists and runs in two parts ----

  lemma {:induction false} SentAppend(a: seq<Event>, b: seq<Event>)
    ensures SentIn(a + b) == SentIn(a) + SentIn(b)
  {
    if a == [] {
      assert a + b == b;
    } else {
      assert (a + b)[1..] == a[1..] + b;
      SentAppend(a[1..], b);
    }
  }

  lemma {:induction false} RunSplit(host: Host, w: World, a: seq<Op>, b: seq<Op>)
    ensures After(host, w, a + b) == After(host, After(host, w, a), b)
    ensures Calls(host, w, a + b) == Calls(host, w, a) + Calls(host, After(host, w, a), b)
    decreases |a|
  {
    hide Next, Run;
    if a == [] {
      assert a + b == b;
    } else {
      assert (a + b)[1..] == a[1..] + b;
      RunSplit(host, Next(host, w, a[0]), a[1..], b);
    }
  }

  lemma {:induction false} TableStays(host: Host, w: World, ops: seq<Op>)
    requires forall i | 0 <= i < |ops| :: ops[i].DoExecute?
    ensures After(host, w, ops).table == w.table
    decreases |ops|
  {
    hide Run;
    if ops == [] {
    } else {
      TableStays(host, Next(host, w, ops[0]), ops[1..]);
    }
  }

  // ---- One turn ----

  /** The part of a run that these events are: what it sent, and what that did to the executor. */
  ghost predicate Accounts(w: Wiring<Seat>, host: Host, x: Seat, events: seq<Event>, after: Seat, stop: Option<Stop>) {
    var sent := SentIn(events);
    var calls := Calls(host, x.world, OpsOf(w, sent));
    && after == Seat(After(host, x.world, OpsOf(w, sent)), x.log + Log(calls))
    && Told(w, sent, calls)
    && (stop == Some(ExceptionEscaped) <==> calls != [] && calls[|calls| - 1].1.Escapes())
    && forall k | 0 <= k < |calls| - 1 :: !calls[k].1.Escapes()
  }

  lemma NothingSent(w: Wiring<Seat>, host: Host, x: Seat, events: seq<Event>, stop: Option<Stop>)
    requires SentIn(events) == [] && stop != Some(ExceptionEscaped)
    ensures Accounts(w, host, x, events, x, stop)
  {
    assert OpsOf(w, []) == [];
  }

  lemma OneSent(w: Wiring<Seat>, host: Host, x: Seat, events: seq<Event>, frame: CognitiveFrame, stop: Option<Stop>)
    requires frame.intent.InvokeSeraph?
    requires var (outcome, after) := ExecuteOn(host, x, RequestOf(w, frame.intent));
             && SentIn(events) == [(frame, Shown(w, outcome))]
             && (stop == Some(ExceptionEscaped) <==> outcome.Escapes())
    ensures Accounts(w, host, x, events, ExecuteOn(host, x, RequestOf(w, frame.intent)).1, stop)
  {
    hide Run, Bracket, RequestOf, Log;
    var request := RequestOf(w, frame.intent);
    var outcome := ExecuteOn(host, x, request).0;
    var ops := [DoExecute(request)];
    assert OpsOf(w, SentIn(events)) == ops && ops[1..] == [];
    LogOne(request, outcome);
    assert Calls(host, x.world, ops) == [(request, outcome)];
    assert After(host, x.world, ops) == Next(host, x.world, ops[0]);
    var calls := Calls(host, x.world, OpsOf(w, SentIn(events)));
    assert calls == [(request, outcome)];
    assert Told(w, SentIn(events), calls);
  }

  lemma ThoughtAccounts(w: Wiring<Seat>, host: Host, s: State<Seat>)
    requires Mounted(w, host, s.executor.world.table)
    ensures var t := Think(w, s); Accounts(w, host, s.executor, t.events, t.state.executor, t.stop)
  {
    hide Judge, Run, Bracket, RequestOf, Accounts, SentIn, Policy;
    var t := Think(w, s);
    SentByTwo(t.events);
    var (r, after) := Enforce(w, s);
    if r.Ok? && r.value.intent.InvokeSeraph? {
      var request := RequestOf(w, r.value.intent);
      assert w.execute(s.executor, request) == ExecuteOn(host, s.executor, request);
      OneSent(w, host, s.executor, t.events, r.value, t.stop);
    } else {
      NothingSent(w, host, s.executor, t.events, t.stop);
    }
  }

  lemma SentByTwo(events: seq<Event>)
    requires 1 <= |events| <= 2
    ensures SentIn(events) == SentBy(events[0]) + (if |events| == 2 then SentBy(events[1]) else [])
  {
    assert SentIn([]) == [];
    if |events| == 2 { assert events[1..] == [events[1]] && events[1..][1..] == []; }
  }

  lemma TurnAccounts(w: Wiring<Seat>, host: Host, s: State<Seat>)
    requires Mounted(w, host, s.executor.world.table)
    ensures var t := Step(w, s); Accounts(w, host, s.executor, t.events, t.state.executor, t.stop)
  {
    hide Think, Accounts, Mounted;
    if s.context.lastActionFeedback.Some? {
      ThoughtAccounts(w, host, s.(context := s.context.(currentStimulus := REVISE)));
    } else if s.input == [] {
      NothingSent(w, host, s.executor, [], Some(InputClosed));
    } else {
      var line := s.input[0];
      var read := s.(input := s.input[1..], context := s.context.(currentStimulus := line));
      SentByTwo([Read(line)]);
      if line == "exit" || line == "" {
        NothingSent(w, host, s.executor, [Read(line)], Step(w, s).stop);
      } else {
        var t := Think(w, read);
        ThoughtAccounts(w, host, read);
        SentAppend([Read(line)], t.events);
        AccountsBy(w, host, s.executor, t.events, [Read(line)] + t.events, t.state.executor, t.stop);
      }
    }
  }

  /** Only what was sent matters. */
  lemma AccountsBy(
    w: Wiring<Seat>, host: Host, x: Seat, events: seq<Event>, others: seq<Event>, after: Seat, stop: Option<Stop>)
    requires Accounts(w, host, x, events, after, stop) && SentIn(events) == SentIn(others)
    ensures Accounts(w, host, x, others, after, stop)
  {
    hide After, Calls, Log, SentIn, Told;
  }

  lemma AccountsAppend(
    w: Wiring<Seat>, host: Host, x: Seat, a: seq<Event>, y: Seat, b: seq<Event>, z: Seat, stop: Option<Stop>)
    requires Accounts(w, host, x, a, y, None) && Accounts(w, host, y, b, z, stop)
    ensures Accounts(w, host, x, a + b, z, stop)
  {
    hide After, Calls, Log, SentIn, RequestOf, Shown;
    SentAppend(a, b);
    var f, g := OpsOf(w, SentIn(a)), OpsOf(w, SentIn(b));
    assert OpsOf(w, SentIn(a + b)) == f + g;
    RunSplit(host, x.world, f, g);
    LogAppend(Calls(host, x.world, f), Calls(host, y.world, g));
  }

  // ---- Whole runs ----

  /** A run of the kernel, whatever the model answers: every SERAPH frame dispatched is one call to the
      executor on its own request, in order; the log grows by exactly the brackets of those calls, and
      the cache and registry end as after them; the loop is shown each call's outcome, and ends by an
      exception exactly when the last call does. */
  lemma {:induction false} KernelAccounts(w: Wiring<Seat>, host: Host, s: State<Seat>)
    requires AtHead(w, s) && Mounted(w, host, s.executor.world.table)
    ensures var run := RunFrom(w, s);
            Accounts(w, host, s.executor, run.events, run.state.executor, run.stop)
    decreases |s.input|, Patience(s)
  {
    hide Step, Accounts, Mounted, AtHead;
    StepKeepsHead(w, s);
    RunStep(w, s);
    TurnAccounts(w, host, s);
    var t := Step(w, s);
    if t.stop.Some? {
    } else {
      AccountsKeepTable(w, host, s.executor, t.events, t.state.executor, t.stop);
      MountedBy(w, host, s.executor.world.table, t.state.executor.world.table);
      KernelAccounts(w, host, t.state);
      var rest := RunFrom(w, t.state);
      AccountsAppend(w, host, s.executor, t.events, t.state.executor, rest.events, rest.state.executor, rest.stop);
    }
  }

  lemma MountedBy(w: Wiring<Seat>, host: Host, table: Table, same: Table)
    requires Mounted(w, host, table) && table == same
    ensures Mounted(w, host, same)
  {
  }

  lemma AccountsKeepTable(w: Wiring<Seat>, host: Host, x: Seat, events: seq<Event>, after: Seat, stop: Option<Stop>)
    requires Accounts(w, host, x, events, after, stop)
    ensures after.world.table == x.world.table
  {
    hide Calls, Log, SentIn, After, Told, RequestOf;
    TableStays(host, x.world, OpsOf(w, SentIn(events)));
  }

  /** In such a run a call gets past the gates exactly when the policy that the loop was given lists the
      frame's module and function under names the executor accepts; every other call is refused by a
      gate, or by the audit sink. */
  lemma KernelIsAuthorised(w: Wiring<Seat>, host: Host, s: State<Seat>, k: nat)
    requires AtHead(w, s) && Mounted(w, host, s.executor.world.table)
    requires k < |SentIn(RunFrom(w, s).events)|
    ensures var run := RunFrom(w, s);
            var sent := SentIn(run.events);
            var calls := Calls(host, s.executor.world, OpsOf(w, sent));
            var policy := w.systemCapabilities;
            && |calls| == |sent| && sent[k].0.intent.InvokeSeraph?
            && var module_, function_ := sent[k].0.intent.targetWasmModule, sent[k].0.intent.targetFunction;
            && (calls[k].1.Returned? || calls[k].1.Threw? ==>
                  module_ in policy && function_ in policy[module_] && function_ != "" && NameMatches(module_))
            && (calls[k].1.Unlogged? <==> !host.audits(calls[k].0))
            && (host.audits(calls[k].0) && !(module_ in policy && function_ in policy[module_]) ==>
                  calls[k].1.Failed? && IsGateError(calls[k].1.error))
  {
    hide RunFrom, AtHead, Policy, NameMatches, After, Run, RequestOf, SentIn, Gate;
    KernelAccounts(w, host, s);
    var sent := SentIn(RunFrom(w, s).events);
    var ops := OpsOf(w, sent);
    CallOfRun(host, s.executor.world, ops, k);
    var cache := After(host, s.executor.world, ops[..k]).cache;
    var table := s.executor.world.table;
    assert sent[k] in sent;
    RequestNames(w, sent[k].0.intent);
    PassesOnlyByPolicy(host, table, cache, ops[k].request);
  }

  lemma RequestNames(w: Wiring<Seat>, i: Intent)
    requires i.InvokeSeraph?
    ensures RequestOf(w, i).moduleName == i.targetWasmModule && RequestOf(w, i).functionName == i.targetFunction
  {
  }

  predicate IsGateError(e: ExecutionError) { e in {CapabilityDenied, InvalidModule, UntrustedModule, ModuleLoadError} }

  lemma PassesOnlyByPolicy(host: Host, table: Table, cache: Cache, request: InvocationRequest)
    ensures var outcome := Run(host, table, cache, request).outcome;
            && (outcome.Returned? || outcome.Threw? ==>
                  && InPolicy(table, request.moduleName, request.functionName)
                  && request.functionName != "" && NameMatches(request.moduleName))
            && (outcome.Unlogged? <==> !host.audits(request))
            && (host.audits(request) && !InPolicy(table, request.moduleName, request.functionName) ==>
                  outcome.Failed? && IsGateError(outcome.error))
  {
    hide LoadModule, Invoke, InPolicy, NameMatches;
    GateAgreesWithPolicy(table, request);
    UnsupportedIsUnreachable(table, request);
    EscapesExactly(host, table, cache, request);
  }

  lemma UnsupportedIsUnreachable(table: Table, request: InvocationRequest)
    ensures Gate(table, request).Some? ==> IsGateError(Gate(table, request).value)
  {
  }

  /** The k-th call of a run of calls is made in the world that the calls before it leave. */
  lemma {:induction false} CallOfRun(host: Host, w: World, ops: seq<Op>, k: nat)
    requires k < |ops| && forall i | 0 <= i < |ops| :: ops[i].DoExecute?
    ensures |Calls(host, w, ops)| == |ops|
    ensures var at := After(host, w, ops[..k]);
            && at.table == w.table
            && Calls(host, w, ops)[k] == (ops[k].request, Run(host, at.table, at.cache, ops[k].request).outcome)
    decreases |ops|
  {
    hide Run;
    var next := Next(host, w, ops[0]);
    if |ops| == 1 {
      assert ops[1..] == [];
    }
    if k == 0 {
      assert ops[..0] == [];
      if |ops| > 1 { CallOfRun(host, next, ops[1..], 0); }
    } else {
      assert ops[..k][0] == ops[0] && ops[..k][1..] == ops[1..][..k - 1];
      CallOfRun(host, next, ops[1..], k - 1);
      assert ops[1..][k - 1] == ops[k];
    }
  }

  /** With a sink that takes only requests whose arguments can be serialised, such as the one that writes
      a file, the log of a kernel run that started with an empty one reads back as closed brackets: one
      for every dispatched SERAPH frame the sink took, in order, with the outcome the loop was shown. */
  lemma KernelLogReads(w: Wiring<Seat>, host: Host, s: State<Seat>)
    requires AtHead(w, s) && Mounted(w, host, s.executor.world.table) && s.executor.log == []
    requires forall request | host.audits(request) :: host.dump(request.arguments).Some?
    ensures var run := RunFrom(w, s);
            var calls := Calls(host, s.executor.world, OpsOf(w, SentIn(run.events)));
            ReadLog(run.state.executor.log) == Some(Recorded(calls)) && Told(w, SentIn(run.events), calls)
  {
    hide RunFrom, AtHead, Mounted, After, Calls, Log, ReadLog, Recorded, SentIn, Told, RequestOf;
    KernelAccounts(w, host, s);
    var ops := OpsOf(w, SentIn(RunFrom(w, s).events));
    SerialisedRunsClose(host, s.executor.world, ops);
    var log := Log(Calls(host, s.executor.world, ops));
    assert [] + log == log;
  }

  /** The stub, which trusts the list in the request, agrees with the policy when that list is the policy, as
      it is for every request the loop makes. */
  lemma StubAgreesWithPolicy(table: Table, request: InvocationRequest)
    requires request.capabilities == Policy(table)
    ensures ExecutorStub.Granted(request)
       <==> && request.moduleName != "" && request.functionName != ""
            && InPolicy(table, request.moduleName, request.functionName)
    ensures ExecutorStub.IsEchoPrint(request) <==> ExecutorStub.Granted(request)
                                                   && request.moduleName == "echo" && request.functionName == "print"
  {
  }
}

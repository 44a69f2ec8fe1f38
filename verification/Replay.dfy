/** Runs of the real objects: the registry and the executor driven through any sequence of
    operations do what the run of values in module History does, and keep native objects in balance. */
module Replay {
  import opened Common
  import opened Seraph
  import opened ModuleRegistry
  import opened Wasmtime
  import opened WasmExecutor
  import opened History
  import GuestProtocol

  ghost function CountThrown(calls: seq<Ended>): nat {
    if calls == [] then 0 else CountThrown(calls[..|calls| - 1]) + if calls[|calls| - 1].1.Threw? then 1 else 0
  }

  ghost function WorldOf(executor: Executor): World
    requires executor.Valid()
    reads executor, executor.native, executor.registry
  {
    World(executor.registry.tracked, executor.CacheView())
  }

  /** The call that one operation ends, if it is one. */
  ghost function Ending(host: GuestProtocol.Host, w: World, op: Op): (e: seq<Ended>)
    ensures |e| <= 1
  {
    if op.DoExecute? then [(op.request, Run(host, w.table, w.cache, op.request).outcome)] else []
  }

  lemma RunStep(host: GuestProtocol.Host, w: World, ops: seq<Op>, i: nat)
    requires i < |ops|
    ensures After(host, w, ops[i..]) == After(host, Next(host, w, ops[i]), ops[i + 1..])
    ensures Calls(host, w, ops[i..]) == Ending(host, w, ops[i]) + Calls(host, Next(host, w, ops[i]), ops[i + 1..])
    ensures GuestCalls(host, w, ops[i..])
         == Asked(host, w, ops[i]) + GuestCalls(host, Next(host, w, ops[i]), ops[i + 1..])
  {
    hide Run, Next, Asked;
    assert ops[i..][0] == ops[i] && ops[i..][1..] == ops[i + 1..];
  }

  lemma RunEnd(host: GuestProtocol.Host, w: World, ops: seq<Op>)
    requires |ops| == 0
    ensures After(host, w, ops) == w && Calls(host, w, ops) == [] && GuestCalls(host, w, ops) == []
  {
  }

  /** One operation on the objects. */
  method Apply(executor: Executor, op: Op, audit: AuditSink) returns (ghost ended: seq<Ended>)
    requires executor.Valid() && audit.accepts == executor.host.audits
    modifies executor`cached, executor.native, executor.registry, audit`events
    ensures executor.Valid()
    ensures WorldOf(executor) == Next(executor.host, old(WorldOf(executor)), op)
    ensures ended == Ending(executor.host, old(WorldOf(executor)), op)
    ensures executor.native.calls == old(executor.native.calls) + Asked(executor.host, old(WorldOf(executor)), op)
    ensures audit.events == old(audit.events) + Log(ended)
    ensures |executor.native.stores| == |old(executor.native.stores)| + CountThrown(ended)
    ensures |executor.native.linkers| == |old(executor.native.linkers)| + CountThrown(ended)
    ensures CountThrown(ended) == 0 ==> executor.native.stores == old(executor.native.stores)
                                        && executor.native.linkers == old(executor.native.linkers)
    ensures executor.native.errors == old(executor.native.errors) && executor.native.traps == old(executor.native.traps)
    ensures executor.native.buffers == old(executor.native.buffers)
  {
    hide Run, Load, Revoke, Owns, View, Runtime.Valid, Bracket;
    ended := [];
    match op
    case DoExecute(request) =>
      var out := executor.Execute(request, audit);
      ended := [(request, out)];
      OneCall(request, out);
      if out.Threw? {
        LeakSizes(old(executor.native.stores), executor.native.stores,
                  old(executor.native.linkers), executor.native.linkers);
      }
    case DoRevoke(name) =>
      executor.registry.RevokeModule(name);
    case DoClearCache =>
      executor.ClearCache();
    case DoLoad(file, resolve) =>
      var _ := executor.registry.ReloadManifest(file, resolve);
  }

  lemma OneCall(request: InvocationRequest, out: Outcome)
    ensures Log([(request, out)]) == Bracket(request, out)
    ensures CountThrown([(request, out)]) == if out.Threw? then 1 else 0
  {
    LogOne(request, out);
    assert [(request, out)][..0] == [];
  }

  lemma LeakSizes(s0: map<Handle, GuestState>, s1: map<Handle, GuestState>, l0: set<Handle>, l1: set<Handle>)
    requires exists s :: s in s1 && s1 - {s} == s0
    requires exists l :: l in l1 && l1 - {l} == l0
    ensures |s1| == |s0| + 1 && |l1| == |l0| + 1
  {
    var s :| s in s1 && s1 - {s} == s0;
    assert s1.Keys == s0.Keys + {s};
    assert |s1.Keys| == |s0.Keys| + 1;
  }

  /** A whole run: the audit log is the run's, the native modules are exactly the cached ones, and one
      store and one linker stay behind for every call that left by an exception; nothing else does. */
  method ReplayAll(executor: Executor, ops: seq<Op>, audit: AuditSink)
    requires executor.Valid() && audit.accepts == executor.host.audits
    modifies executor`cached, executor.native, executor.registry, audit`events
    ensures executor.Valid()
    ensures WorldOf(executor) == After(executor.host, old(WorldOf(executor)), ops)
    ensures executor.native.calls == old(executor.native.calls) + GuestCalls(executor.host, old(WorldOf(executor)), ops)
    ensures var calls := Calls(executor.host, old(WorldOf(executor)), ops);
            && audit.events == old(audit.events) + Log(calls)
            && |executor.native.stores| == |old(executor.native.stores)| + CountThrown(calls)
            && |executor.native.linkers| == |old(executor.native.linkers)| + CountThrown(calls)
            && (CountThrown(calls) == 0 ==> executor.native.stores == old(executor.native.stores)
                                            && executor.native.linkers == old(executor.native.linkers))
    ensures executor.native.errors == old(executor.native.errors) && executor.native.traps == old(executor.native.traps)
    ensures executor.native.buffers == old(executor.native.buffers)
  {
    hide After, Calls, GuestCalls, Asked, Ending, Run, Next, Owns, View, Runtime.Valid, Log, CountThrown;
    LogOfNone();
    ghost var start := WorldOf(executor);
    ghost var done: seq<Ended> := [];
    assert ops[0..] == ops;
    for i := 0 to |ops|
      invariant executor.Valid()
      invariant After(executor.host, start, ops) == After(executor.host, WorldOf(executor), ops[i..])
      invariant Calls(executor.host, start, ops) == done + Calls(executor.host, WorldOf(executor), ops[i..])
      invariant executor.native.calls + GuestCalls(executor.host, WorldOf(executor), ops[i..])
             == old(executor.native.calls) + GuestCalls(executor.host, start, ops)
      invariant audit.events == old(audit.events) + Log(done)
      invariant |executor.native.stores| == |old(executor.native.stores)| + CountThrown(done)
      invariant |executor.native.linkers| == |old(executor.native.linkers)| + CountThrown(done)
      invariant CountThrown(done) == 0 ==> executor.native.stores == old(executor.native.stores)
                                           && executor.native.linkers == old(executor.native.linkers)
      invariant executor.native.errors == old(executor.native.errors)
      invariant executor.native.traps == old(executor.native.traps)
      invariant executor.native.buffers == old(executor.native.buffers)
    {
      RunStep(executor.host, WorldOf(executor), ops, i);
      ghost var ended := Apply(executor, ops[i], audit);
      LogAppend(done, ended);
      CountAppend(done, ended);
      done := done + ended;
    }
    RunEnd(executor.host, WorldOf(executor), ops[|ops|..]);
    assert done + [] == done;
  }

  /** The same where every audited request has arguments that can be serialised, as with a sink that
      serialises them at the start event: nothing native but the cached modules is left over, and the log
      reads back as closed brackets. */
  method ReplaySerialised(executor: Executor, ops: seq<Op>, audit: AuditSink)
    requires executor.Valid() && audit.accepts == executor.host.audits
    requires AuditedSerialise(executor.host, ops)
    modifies executor`cached, executor.native, executor.registry, audit`events
    ensures executor.Valid()
    ensures executor.native.stores == old(executor.native.stores)
    ensures executor.native.linkers == old(executor.native.linkers)
    ensures executor.native.errors == old(executor.native.errors) && executor.native.traps == old(executor.native.traps)
    ensures executor.native.buffers == old(executor.native.buffers)
    ensures var calls := Calls(executor.host, old(WorldOf(executor)), ops);
            audit.events == old(audit.events) + Log(calls) && ReadLog(Log(calls)) == Some(Recorded(calls))
  {
    hide Calls, After, GuestCalls, Run, Log, ReadLog, Recorded, CountThrown, Runtime.Valid, Owns, View;
    SerialisedRunsClose(executor.host, WorldOf(executor), ops);
    NoneCounted(Calls(executor.host, WorldOf(executor), ops));
    ReplayAll(executor, ops, audit);
  }

  lemma {:induction false} NoneCounted(calls: seq<Ended>)
    requires NoneThrew(calls)
    ensures CountThrown(calls) == 0
  {
    if calls == [] {
    } else {
      NoneCounted(calls[..|calls| - 1]);
      assert calls[|calls| - 1] in calls;
    }
  }

  lemma LogOfNone()
    ensures Log([]) == [] && CountThrown([]) == 0
  {
  }

  lemma CountAppend(a: seq<Ended>, b: seq<Ended>)
    requires |b| <= 1
    ensures CountThrown(a + b) == CountThrown(a) + CountThrown(b)
  {
    if b == [] {
      assert a + b == a;
    } else {
      assert (a + b)[..|a|] == a && b[..0] == [];
    }
  }
}

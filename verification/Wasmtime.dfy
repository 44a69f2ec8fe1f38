/** The part of the wasmtime C API that the executor uses, with every native object it hands out
    tracked by a handle. Deleting or using an object demands that it is live, so a caller that
    verifies neither deletes twice nor uses after deletion. */
module Wasmtime {
  import opened Common
  import opened Fips180

  type Handle = nat
  type Code = seq<Byte>

  /** A 32-bit linear memory has at most 65536 pages of 64 KiB. */
  type Memory = m: string | |m| <= 0x1_0000_0000

  /** One instance's store: its linear memory, and whatever else a guest keeps. */
  datatype GuestState = GuestState(memory: Memory, internals: nat)

  datatype TrapCode = NoCode | OutOfFuel | OtherTrap

  datatype ExportKind = NoExport | FunctionExport | MemoryExport | OtherExport

  /** What a guest call does: it may fail with an error, a trap or both, and it may change anything
      in its store, growing memory included. Otherwise it returns a raw 64-bit value. */
  datatype CallReply = CallReply(error: bool, trap: Option<TrapCode>, value: U64, after: GuestState)
  {
    predicate Completed() { !error && trap.None? }
  }

  datatype InstantiateReply = InstantiateReply(error: bool, trap: bool, state: GuestState)

  /** The engine and its guests. Compilation and execution are deterministic; nothing else is assumed. */
  datatype Semantics = Semantics(
    wat2wasm: seq<Byte> -> Option<seq<Byte>>,
    compiles: seq<Byte> -> bool,
    acceptsFuel: U64 -> bool,
    instantiate: (Code, U64) -> InstantiateReply,
    exportKind: (GuestState, string) -> ExportKind,
    call: (GuestState, string, seq<U32>) -> CallReply)

  /** One call into the guest, with the store as it was and the reply it gave. */
  datatype GuestCall = GuestCall(name: string, args: seq<U32>, before: GuestState, reply: CallReply)

  /** A pointer to a store's linear memory and its size; good until the next call into a guest. */
  datatype MemoryView = MemoryView(store: Handle, size: U64, epoch: nat)

  /** The handle a nullable pointer holds. */
  function Owned(pointer: Option<Handle>): set<Handle> {
    if pointer.Some? then {pointer.value} else {}
  }

  class Runtime {
    const sem: Semantics
    var modules: map<Handle, Code>
    var stores: map<Handle, GuestState>
    var linkers: set<Handle>
    var errors: set<Handle>
    var traps: map<Handle, TrapCode>
    var buffers: map<Handle, seq<Byte>>
    var next: Handle
    var calls: seq<GuestCall>

    /** Handles are given out in increasing order. */
    ghost predicate Valid()
      reads this
    {
      && (forall h | h in modules :: h < next)
      && (forall h | h in stores :: h < next)
      && (forall h | h in linkers :: h < next)
      && (forall h | h in errors :: h < next)
      && (forall h | h in traps :: h < next)
      && (forall h | h in buffers :: h < next)
    }

    constructor (sem: Semantics)
      ensures Valid() && this.sem == sem
      ensures modules == map[] && stores == map[] && linkers == {} && errors == {} && traps == map[]
      ensures buffers == map[] && calls == []
    {
      this.sem := sem;
      modules, stores, linkers, errors, traps, buffers := map[], map[], {}, {}, map[], map[];
      next, calls := 0, [];
    }

    method NewBuffer(bytes: seq<Byte>) returns (h: Handle)
      requires Valid()
      modifies this`buffers, this`next
      ensures Valid() && h !in old(buffers) && buffers == old(buffers)[h := bytes]
      ensures buffers - {h} == old(buffers) && next == old(next) + 1
    {
      h := next;
      buffers, next := buffers[h := bytes], next + 1;
    }

    method DeleteBuffer(h: Handle)
      requires Valid() && h in buffers
      modifies this`buffers
      ensures Valid() && buffers == old(buffers) - {h}
    {
      buffers := buffers - {h};
    }

    method NewError() returns (h: Handle)
      requires Valid()
      modifies this`errors, this`next
      ensures Valid() && h !in old(errors) && errors == old(errors) + {h}
      ensures errors - {h} == old(errors) && next == old(next) + 1
    {
      h := next;
      errors, next := errors + {h}, next + 1;
    }

    method DeleteError(h: Handle)
      requires Valid() && h in errors
      modifies this`errors
      ensures Valid() && errors == old(errors) - {h}
    {
      errors := errors - {h};
    }

    method NewTrap(code: TrapCode) returns (h: Handle)
      requires Valid()
      modifies this`traps, this`next
      ensures Valid() && h !in old(traps) && traps == old(traps)[h := code]
      ensures traps - {h} == old(traps) && next == old(next) + 1
    {
      h := next;
      traps, next := traps[h := code], next + 1;
    }

    method DeleteTrap(h: Handle)
      requires Valid() && h in traps
      modifies this`traps
      ensures Valid() && traps == old(traps) - {h}
    {
      traps := traps - {h};
    }

    /** Deletes an error and a trap that may each be null. */
    method DeleteFault(error: Option<Handle>, trap: Option<Handle>)
      requires Valid()
      requires error.Some? ==> error.value in errors
      requires trap.Some? ==> trap.value in traps
      modifies this`errors, this`traps
      ensures Valid()
      ensures errors == old(errors) - Owned(error) && traps == old(traps) - Owned(trap)
    {
      if error.Some? { DeleteError(error.value); }
      if trap.Some? { DeleteTrap(trap.value); }
    }

    method NewModule(buffer: Handle) returns (error: Option<Handle>, module_: Handle)
      requires Valid() && buffer in buffers
      modifies this`modules, this`errors, this`next
      ensures Valid() && next >= old(next)
      ensures error.None? <==> sem.compiles(buffers[buffer])
      ensures if error.None?
              then && module_ !in old(modules) && modules == old(modules)[module_ := buffers[buffer]]
                   && errors == old(errors)
              else modules == old(modules) && error.value in errors && errors - {error.value} == old(errors)
    {
      error, module_ := None, next;
      if sem.compiles(buffers[buffer]) {
        modules, next := modules[module_ := buffers[buffer]], next + 1;
      } else {
        var e := NewError();
        error := Some(e);
      }
    }

    method DeleteModule(h: Handle)
      requires Valid() && h in modules
      modifies this`modules
      ensures Valid() && modules == old(modules) - {h}
    {
      modules := modules - {h};
    }

    method NewStore() returns (h: Handle)
      requires Valid()
      modifies this`stores, this`next
      ensures Valid() && h !in old(stores) && next == old(next) + 1
      ensures h in stores && stores - {h} == old(stores)
    {
      h := next;
      stores, next := stores[h := GuestState("", 0)], next + 1;
    }

    method DeleteStore(h: Handle)
      requires Valid() && h in stores
      modifies this`stores
      ensures Valid() && stores == old(stores) - {h}
    {
      stores := stores - {h};
    }

    method NewLinker() returns (h: Handle)
      requires Valid()
      modifies this`linkers, this`next
      ensures Valid() && h !in old(linkers) && linkers == old(linkers) + {h}
      ensures linkers - {h} == old(linkers) && next == old(next) + 1
    {
      h := next;
      linkers, next := linkers + {h}, next + 1;
    }

    method DeleteLinker(h: Handle)
      requires Valid() && h in linkers
      modifies this`linkers
      ensures Valid() && linkers == old(linkers) - {h}
    {
      linkers := linkers - {h};
    }

    method SetFuel(store: Handle, fuel: U64) returns (error: Option<Handle>)
      requires Valid() && store in stores
      modifies this`errors, this`next
      ensures Valid() && next >= old(next)
      ensures error.None? <==> sem.acceptsFuel(fuel)
      ensures error.None? ==> errors == old(errors)
      ensures error.Some? ==> error.value in errors && errors - {error.value} == old(errors)
    {
      error := None;
      if !sem.acceptsFuel(fuel) {
        var e := NewError();
        error := Some(e);
      }
    }

    method Instantiate(linker: Handle, store: Handle, module_: Handle, fuel: U64)
      returns (error: Option<Handle>, trap: Option<Handle>)
      requires Valid() && linker in linkers && store in stores && module_ in modules
      modifies this`stores, this`errors, this`traps, this`next
      ensures Valid() && next >= old(next)
      ensures var reply := sem.instantiate(modules[module_], fuel);
              && store in stores && stores[store] == reply.state && stores - {store} == old(stores) - {store}
              && error.Some? == reply.error && trap.Some? == reply.trap
      ensures FaultAllocated(error, trap)
    {
      var reply := sem.instantiate(modules[module_], fuel);
      stores := stores[store := reply.state];
      error, trap := RaiseFault(reply.error, if reply.trap then Some(NoCode) else None);
    }

    /** The error and trap of a call are the only new ones. */
    twostate predicate FaultAllocated(new error: Option<Handle>, new trap: Option<Handle>)
      reads this
    {
      && (error.Some? ==> error.value in errors)
      && (trap.Some? ==> trap.value in traps)
      && errors - Owned(error) == old(errors)
      && traps - Owned(trap) == old(traps)
    }

    method RaiseFault(error: bool, code: Option<TrapCode>) returns (e: Option<Handle>, t: Option<Handle>)
      requires Valid()
      modifies this`errors, this`traps, this`next
      ensures Valid() && next >= old(next)
      ensures e.Some? == error && t.Some? == code.Some?
      ensures FaultAllocated(e, t)
      ensures code.Some? ==> traps[t.value] == code.value
    {
      e, t := None, None;
      if error {
        var h := NewError();
        e := Some(h);
      }
      if code.Some? {
        var h := NewTrap(code.value);
        t := Some(h);
      }
    }

    method ExportGet(store: Handle, name: string) returns (kind: ExportKind)
      requires Valid() && store in stores
      ensures kind == sem.exportKind(stores[store], name)
    {
      kind := sem.exportKind(stores[store], name);
    }

    method FuncCall(store: Handle, name: string, args: seq<U32>)
      returns (error: Option<Handle>, trap: Option<Handle>, value: U64)
      requires Valid() && store in stores
      modifies this`stores, this`errors, this`traps, this`next, this`calls
      ensures Valid() && next >= old(next)
      ensures FaultAllocated(error, trap)
      ensures var reply := sem.call(old(stores)[store], name, args);
              && store in stores && stores[store] == reply.after && stores - {store} == old(stores) - {store}
              && calls == old(calls) + [GuestCall(name, args, old(stores)[store], reply)]
              && error.Some? == reply.error && trap.Some? == reply.trap.Some?
              && (trap.Some? ==> traps[trap.value] == reply.trap.value)
              && value == reply.value
    {
      var reply := sem.call(stores[store], name, args);
      calls := calls + [GuestCall(name, args, stores[store], reply)];
      stores := stores[store := reply.after];
      error, trap := RaiseFault(reply.error, reply.trap);
      value := reply.value;
    }

    method TrapCodeOf(trap: Handle) returns (code: TrapCode)
      requires trap in traps
      ensures code == traps[trap]
    {
      code := traps[trap];
    }

    method MemoryData(store: Handle) returns (view: MemoryView)
      requires store in stores
      ensures view == MemoryView(store, |stores[store].memory|, |calls|)
    {
      view := MemoryView(store, |stores[store].memory|, |calls|);
    }

    /** memcpy into guest memory: the pointer must be current and the target in bounds. */
    method WriteMemory(view: MemoryView, ptr: nat, bytes: string)
      requires Valid() && view.store in stores && view.epoch == |calls|
      requires ptr + |bytes| <= |stores[view.store].memory|
      modifies this`stores
      ensures Valid() && view.store in stores
      ensures stores[view.store] == Written(old(stores)[view.store], ptr, bytes)
      ensures stores - {view.store} == old(stores) - {view.store}
    {
      stores := stores[view.store := Written(stores[view.store], ptr, bytes)];
    }

    method ReadMemory(view: MemoryView, ptr: nat, len: nat) returns (bytes: string)
      requires Valid() && view.store in stores && view.epoch == |calls|
      requires ptr + len <= |stores[view.store].memory|
      ensures bytes == stores[view.store].memory[ptr..ptr + len]
    {
      bytes := stores[view.store].memory[ptr..ptr + len];
    }
  }

  function Written(state: GuestState, ptr: nat, bytes: string): GuestState
    requires ptr + |bytes| <= |state.memory|
  {
    state.(memory := state.memory[..ptr] + bytes + state.memory[ptr + |bytes|..])
  }
}

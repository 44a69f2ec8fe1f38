/** The module registry: the table of tracked modules, how a manifest fills it, and the views that
    the executor, the policy, the prompt and the diagnostics take of it. */
module ModuleRegistry {
  import opened Common
  import opened Json
  import opened Seraph
  import GuestAbi

  const SUPPORTED_MANIFEST_VERSION: string := "1"

  datatype RegisteredModule = RegisteredModule(
    moduleName: string, filePath: string, sha256: string, trusted: bool,
    capabilities: Exports, guestAbiVersion: string)

  type Table = map<string, RegisteredModule>

  datatype RegistryError = ManifestNotFound | ManifestParseFailed | InvalidSchema | UnsupportedManifestVersion

  /** Opening and parsing a manifest file. */
  datatype ManifestFile = NotFound | Unparsable | Parsed(root: Json)

  datatype Diagnostics = Diagnostics(trusted: nat, cached: nat, abiCompatible: nat, policyExports: nat)

  // ---- Loading ----

  /** What a manifest entry must have to be accepted; anything else is ignored. */
  predicate WellFormedEntry(data: Json) {
    && data.HasString("path") && data.HasString("sha256") && data.HasString("guest_abi_version")
    && (data.Has("allowed_exports") && data.fields["allowed_exports"].Array? ==>
          forall e | e in data.fields["allowed_exports"].items :: e.String?)
  }

  function ExportNames(data: Json): seq<string>
    requires WellFormedEntry(data)
  {
    if data.Has("allowed_exports") && data.fields["allowed_exports"].Array? then
      Strings(data.fields["allowed_exports"].items)
    else []
  }

  function Strings(items: seq<Json>): seq<string>
    requires forall e | e in items :: e.String?
  {
    seq(|items|, i requires 0 <= i < |items| => items[i].s)
  }

  /** The table entry for a well-formed manifest entry. Names and paths are kept as given, a missing
      or non-boolean trust mark means untrusted, and no exports means no capability at all. */
  function Entry(name: string, data: Json, resolve: string -> string): RegisteredModule
    requires WellFormedEntry(data)
  {
    RegisteredModule(
      name, resolve(data.StringAt("path")), data.StringAt("sha256"),
      data.Has("trusted") && data.fields["trusted"].Bool? && data.fields["trusted"].b,
      if ExportNames(data) == [] then map[] else map[name := ExportNames(data)],
      data.StringAt("guest_abi_version"))
  }

  /** No malformed entry comes at or before this key. */
  ghost predicate Precedes(modules: map<string, Json>, name: string) {
    forall b | b in modules && !WellFormedEntry(modules[b]) :: Less(name, b)
  }

  /** The entries before the first malformed one, in key order. */
  ghost function LoadedTable(modules: map<string, Json>, resolve: string -> string): Table {
    map name | name in modules && WellFormedEntry(modules[name]) && Precedes(modules, name) ::
      Entry(name, modules[name], resolve)
  }

  ghost predicate AllWellFormed(modules: map<string, Json>) {
    forall b | b in modules :: WellFormedEntry(modules[b])
  }

  /** What loading does to the table: the error, if any, and the table afterwards. */
  ghost function Load(table: Table, file: ManifestFile, resolve: string -> string)
    : (Result<(), RegistryError>, Table)
  {
    match file
    case NotFound => (Err(ManifestNotFound), table)
    case Unparsable => (Err(ManifestParseFailed), table)
    case Parsed(root) =>
      if !root.HasString("manifest_version") then (Err(InvalidSchema), table)
      else if root.StringAt("manifest_version") != SUPPORTED_MANIFEST_VERSION then
        (Err(UnsupportedManifestVersion), table)
      else if !root.Has("modules") || !root.fields["modules"].Object? then (Err(InvalidSchema), table)
      else
        var modules := root.fields["modules"].fields;
        (if AllWellFormed(modules) then Ok(()) else Err(InvalidSchema), LoadedTable(modules, resolve))
  }

  /** The version is overwritten as soon as one is read, even when it is then refused. */
  function VersionRead(version: string, file: ManifestFile): string {
    if file.Parsed? && file.root.HasString("manifest_version") then file.root.StringAt("manifest_version") else version
  }

  function Revoke(table: Table, name: string): Table {
    if name in table then table[name := table[name].(trusted := false)] else table
  }

  // ---- Views ----

  /** Trusted and built for this ABI. */
  predicate Bindable(m: RegisteredModule) {
    m.trusted && m.guestAbiVersion == GuestAbi.VERSION
  }

  /** The exports a module lists under its own key. */
  function OwnExports(name: string, m: RegisteredModule): seq<string> {
    if name in m.capabilities then m.capabilities[name] else []
  }

  function Bindings(name: string, m: RegisteredModule): seq<string> {
    if Bindable(m) then OwnExports(name, m) else []
  }

  /** The system policy: the bindings of every module that has some. */
  function Policy(table: Table): Exports {
    map name | name in table && Bindings(name, table[name]) != [] :: Bindings(name, table[name])
  }

  predicate InPolicy(table: Table, name: string, function_: string) {
    name in Policy(table) && function_ in Policy(table)[name]
  }

  function Qualified(name: string, exports: seq<string>): seq<string> {
    seq(|exports|, i requires 0 <= i < |exports| => name + "::" + exports[i])
  }

  /** The policy's entries for these names, flattened; no order of names is preferred. */
  ghost function Flatten(policy: Exports, names: set<string>): multiset<string> {
    if names == {} then multiset{} else
      var n :| n in names;
      Flatten(policy, names - {n}) + FlattenOne(policy, n)
  }

  ghost function FlattenOne(policy: Exports, name: string): multiset<string> {
    if name in policy then multiset(Qualified(name, policy[name])) else multiset{}
  }

  lemma {:induction false} FlattenRemove(policy: Exports, names: set<string>, n: string)
    requires n in names
    ensures Flatten(policy, names) == Flatten(policy, names - {n}) + FlattenOne(policy, n)
    decreases |names|
  {
    var m :| m in names && Flatten(policy, names) == Flatten(policy, names - {m}) + FlattenOne(policy, m);
    if m == n {
    } else {
      FlattenRemove(policy, names - {m}, n);
      FlattenRemove(policy, names - {n}, m);
      assert names - {m} - {n} == names - {n} - {m};
    }
  }

  /** Names outside the policy add nothing. */
  lemma {:induction false} FlattenOutside(policy: Exports, names: set<string>, rest: set<string>)
    requires rest !! names && rest !! policy.Keys
    ensures Flatten(policy, names + rest) == Flatten(policy, names)
    decreases |rest|
  {
    if rest == {} {
      assert names + rest == names;
    } else {
      var n :| n in rest;
      FlattenRemove(policy, names + rest, n);
      assert names + rest - {n} == names + (rest - {n});
      FlattenOutside(policy, names, rest - {n});
    }
  }

  class Registry {
    var manifestVersion: string
    var tracked: Table

    constructor ()
      ensures tracked == map[] && manifestVersion == ""
    {
      manifestVersion, tracked := "", map[];
    }

    method LoadManifest(file: ManifestFile, resolve: string -> string) returns (r: Result<(), RegistryError>)
      modifies this
      ensures (r, tracked) == Load(old(tracked), file, resolve)
      ensures manifestVersion == VersionRead(old(manifestVersion), file)
    {
      if file.NotFound? { return Err(ManifestNotFound); }
      if file.Unparsable? { return Err(ManifestParseFailed); }
      var root := file.root;
      if !root.HasString("manifest_version") { return Err(InvalidSchema); }
      manifestVersion := root.StringAt("manifest_version");
      if manifestVersion != SUPPORTED_MANIFEST_VERSION { return Err(UnsupportedManifestVersion); }
      if !root.Has("modules") || !root.fields["modules"].Object? { return Err(InvalidSchema); }
      tracked := map[];
      r := FillTable(root.fields["modules"].fields, resolve);
    }

    /** Visits the entries in key order and stops at the first malformed one. */
    method FillTable(modules: map<string, Json>, resolve: string -> string) returns (r: Result<(), RegistryError>)
      requires tracked == map[]
      modifies this`tracked
      ensures tracked == LoadedTable(modules, resolve)
      ensures r == if AllWellFormed(modules) then Ok(()) else Err(InvalidSchema)
    {
      hide Entry, WellFormedEntry;
      var remaining := modules.Keys;
      while remaining != {}
        invariant remaining <= modules.Keys && tracked.Keys == modules.Keys - remaining
        invariant forall done, k | done in tracked && k in remaining :: Less(done, k)
        invariant forall k | k in tracked ::
                    WellFormedEntry(modules[k]) && tracked[k] == Entry(k, modules[k], resolve)
        decreases |remaining|
      {
        var _ := FirstExists(remaining);
        var name :| name in remaining && IsFirst(name, remaining);
        assert IsFirst(name, remaining);
        var entry := ReadEntry(name, modules[name], resolve);
        if entry.None? {
          assert forall k | k in modules && k !in tracked && k != name :: k in remaining;
          LoadedBefore(modules, resolve, name, tracked);
          return Err(InvalidSchema);
        }
        tracked := tracked[name := entry.value];
        remaining := remaining - {name};
      }
      assert tracked == LoadedTable(modules, resolve);
      r := Ok(());
    }

    /** One manifest entry; None where the source returns InvalidSchema. */
    static method ReadEntry(name: string, data: Json, resolve: string -> string)
      returns (entry: Option<RegisteredModule>)
      ensures entry == if WellFormedEntry(data) then Some(Entry(name, data, resolve)) else None
    {
      if !data.Object? { return None; }
      var rm := RegisteredModule(name, "", "", false, map[], "");
      if data.HasString("path") {
        rm := rm.(filePath := resolve(data.StringAt("path")));
      } else {
        return None;
      }
      if data.HasString("sha256") {
        rm := rm.(sha256 := data.StringAt("sha256"));
      } else {
        return None;
      }
      if data.Has("trusted") && data.fields["trusted"].Bool? {
        rm := rm.(trusted := data.fields["trusted"].b);
      }
      if data.HasString("guest_abi_version") {
        rm := rm.(guestAbiVersion := data.StringAt("guest_abi_version"));
      } else {
        return None;
      }
      if data.Has("allowed_exports") && data.fields["allowed_exports"].Array? {
        var items := data.fields["allowed_exports"].items;
        var exports: Exports := map[];
        for i := 0 to |items|
          invariant forall e | e in items[..i] :: e.String?
          invariant exports == if i == 0 then map[] else map[name := Strings(items[..i])]
        {
          if !items[i].String? { return None; }
          var sofar := if name in exports then exports[name] else [];
          exports := exports[name := sofar + [items[i].s]];
          assert Strings(items[..i + 1]) == Strings(items[..i]) + [items[i].s];
        }
        assert items[..|items|] == items;
        rm := rm.(capabilities := exports);
      }
      entry := Some(rm);
    }

    method ReloadManifest(file: ManifestFile, resolve: string -> string) returns (r: Result<(), RegistryError>)
      modifies this
      ensures (r, tracked) == Load(old(tracked), file, resolve)
      ensures manifestVersion == VersionRead(old(manifestVersion), file)
    {
      r := LoadManifest(file, resolve);
    }

    method GetModuleProfile(name: string) returns (profile: Option<RegisteredModule>)
      ensures profile == if name in tracked then Some(tracked[name]) else None
    {
      profile := if name in tracked then Some(tracked[name]) else None;
    }

    method RevokeModule(name: string)
      modifies this`tracked
      ensures tracked == Revoke(old(tracked), name)
    {
      if name in tracked {
        tracked := tracked[name := tracked[name].(trusted := false)];
      }
    }

    method GenerateSystemPolicy() returns (policy: Exports)
      ensures policy == Policy(tracked)
    {
      policy := map[];
      var remaining := tracked.Keys;
      while remaining != {}
        invariant remaining <= tracked.Keys
        invariant policy == PolicyWithout(tracked, remaining)
      {
        var name :| name in remaining;
        var m := tracked[name];
        ghost var before := policy;
        if m.trusted && m.guestAbiVersion == GuestAbi.VERSION && name in m.capabilities {
          var exports := m.capabilities[name];
          for i := 0 to |exports|
            invariant policy == if i == 0 then before else before[name := exports[..i]]
          {
            var sofar := if name in policy then policy[name] else [];
            assert sofar == exports[..i];
            policy := policy[name := sofar + [exports[i]]];
            assert exports[..i] + [exports[i]] == exports[..i + 1];
          }
          assert exports[..|exports|] == exports;
        }
        assert policy == if Bindings(name, m) == [] then before else before[name := Bindings(name, m)];
        remaining := remaining - {name};
      }
    }

    method DescribePromptCapabilities() returns (summaries: seq<string>)
      ensures multiset(summaries) == Flatten(Policy(tracked), Policy(tracked).Keys)
    {
      hide Flatten, Policy;
      summaries := [];
      ghost var seen: set<string> := {};
      FlattenNothing(Policy(tracked));
      var remaining := tracked.Keys;
      while remaining != {}
        invariant remaining <= tracked.Keys && seen == tracked.Keys - remaining
        invariant multiset(summaries) == Flatten(Policy(tracked), seen)
        decreases |remaining|
      {
        var name :| name in remaining;
        var m := tracked[name];
        ghost var before := summaries;
        if m.trusted && m.guestAbiVersion == GuestAbi.VERSION && name in m.capabilities {
          var exports := m.capabilities[name];
          for i := 0 to |exports|
            invariant summaries == before + Qualified(name, exports[..i])
          {
            summaries := summaries + [name + "::" + exports[i]];
          }
          assert exports[..|exports|] == exports;
        }
        assert summaries == before + Qualified(name, Bindings(name, m));
        FlattenStep(tracked, seen, name);
        seen := seen + {name};
        remaining := remaining - {name};
      }
      assert seen == tracked.Keys;
      FlattenAll(tracked);
    }

    method GetDiagnostics(cacheCount: nat) returns (d: Diagnostics)
      ensures d == DiagnosticsOf(tracked, cacheCount)
    {
      hide Flatten, Policy;
      d := Diagnostics(0, cacheCount, 0, 0);
      ghost var seen: set<string> := {};
      FlattenNothing(Policy(tracked));
      var remaining := tracked.Keys;
      while remaining != {}
        invariant remaining <= tracked.Keys && seen == tracked.Keys - remaining
        invariant d == Diagnostics(|Trusted(tracked, seen)|, cacheCount, |Compatible(tracked, seen)|,
                                   |Flatten(Policy(tracked), seen)|)
        decreases |remaining|
      {
        var name :| name in remaining;
        var m := tracked[name];
        FlattenStep(tracked, seen, name);
        CountStep(tracked, seen, name);
        if m.trusted {
          d := d.(trusted := d.trusted + 1);
          if m.guestAbiVersion == GuestAbi.VERSION {
            d := d.(abiCompatible := d.abiCompatible + 1);
            if name in m.capabilities {
              d := d.(policyExports := d.policyExports + |m.capabilities[name]|);
            }
          }
        }
        seen := seen + {name};
        remaining := remaining - {name};
      }
      assert seen == tracked.Keys;
      FlattenAll(tracked);
    }
  }

  /** The policy of the modules already visited. */
  ghost function PolicyWithout(table: Table, remaining: set<string>): Exports {
    map name | name in table && name !in remaining && Bindings(name, table[name]) != [] :: Bindings(name, table[name])
  }

  lemma FlattenNothing(policy: Exports)
    ensures Flatten(policy, {}) == multiset{}
  {
  }

  lemma FlattenStep(table: Table, seen: set<string>, name: string)
    requires name in table && name !in seen
    ensures Flatten(Policy(table), seen + {name})
         == Flatten(Policy(table), seen) + multiset(Qualified(name, Bindings(name, table[name])))
  {
    FlattenRemove(Policy(table), seen + {name}, name);
    assert seen + {name} - {name} == seen;
  }

  /** Flattening the policy over all tracked names or over its own names is the same. */
  lemma FlattenAll(table: Table)
    ensures Flatten(Policy(table), table.Keys) == Flatten(Policy(table), Policy(table).Keys)
  {
    var policy := Policy(table);
    FlattenOutside(policy, policy.Keys, table.Keys - policy.Keys);
    assert policy.Keys + (table.Keys - policy.Keys) == table.Keys;
  }

  lemma CountStep(table: Table, seen: set<string>, name: string)
    requires name in table && seen <= table.Keys && name !in seen
    ensures |Trusted(table, seen + {name})| == |Trusted(table, seen)| + if table[name].trusted then 1 else 0
    ensures |Compatible(table, seen + {name})| == |Compatible(table, seen)| + if Bindable(table[name]) then 1 else 0
  {
    if table[name].trusted {
      assert Trusted(table, seen + {name}) == Trusted(table, seen) + {name};
    } else {
      assert Trusted(table, seen + {name}) == Trusted(table, seen);
    }
    if Bindable(table[name]) {
      assert Compatible(table, seen + {name}) == Compatible(table, seen) + {name};
    } else {
      assert Compatible(table, seen + {name}) == Compatible(table, seen);
    }
  }

  ghost function Trusted(table: Table, names: set<string>): set<string>
    requires names <= table.Keys
  {
    set n | n in names && table[n].trusted
  }

  ghost function Compatible(table: Table, names: set<string>): set<string>
    requires names <= table.Keys
  {
    set n | n in names && Bindable(table[n])
  }

  ghost function DiagnosticsOf(table: Table, cacheCount: nat): Diagnostics {
    Diagnostics(|Trusted(table, table.Keys)|, cacheCount, |Compatible(table, table.Keys)|,
                |Flatten(Policy(table), Policy(table).Keys)|)
  }

  /** When the loop stops at a malformed entry, it has the entries before it and no others. */
  lemma LoadedBefore(modules: map<string, Json>, resolve: string -> string, bad: string, table: Table)
    requires bad in modules && !WellFormedEntry(modules[bad])
    requires table.Keys <= modules.Keys && bad !in table
    requires forall k | k in table :: WellFormedEntry(modules[k]) && Less(k, bad)
                                   && table[k] == Entry(k, modules[k], resolve)
    requires forall k | k in modules && k !in table && k != bad :: Less(bad, k)
    ensures table == LoadedTable(modules, resolve)
  {
    forall k | k in modules
      ensures k in table <==> k in LoadedTable(modules, resolve)
    {
      if k in table {
        forall b | b in modules && !WellFormedEntry(modules[b]) ensures Less(k, b) {
          if b != bad { LessTransitive(k, bad, b); }
        }
      } else {
        LessTrichotomy(k, bad);
      }
    }
  }
}

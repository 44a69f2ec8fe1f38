/** What a manifest says, in terms of its JSON alone, and what a load makes of it. */
module Manifests {
  import opened Common
  import opened Json
  import opened Seraph
  import opened ModuleRegistry

  /** The tree has this member. */
  predicate Member(data: Json, key: string, value: Json) {
    data.Object? && key in data.fields && data.fields[key] == value
  }

  /** These are the exports listed: the array's strings in order, or none where there is no array. */
  predicate Lists(data: Json, exports: seq<string>) {
    if data.Object? && "allowed_exports" in data.fields && data.fields["allowed_exports"].Array? then
      var items := data.fields["allowed_exports"].items;
      |items| == |exports| && forall i | 0 <= i < |items| :: items[i] == String(exports[i])
    else
      exports == []
  }

  /** The entry is what the manifest says under this name. */
  ghost predicate Follows(name: string, data: Json, resolve: string -> string, m: RegisteredModule) {
    && m.moduleName == name
    && (exists path :: Member(data, "path", String(path)) && m.filePath == resolve(path))
    && Member(data, "sha256", String(m.sha256))
    && Member(data, "guest_abi_version", String(m.guestAbiVersion))
    && (m.trusted <==> Member(data, "trusted", Bool(true)))
    && exists exports :: Lists(data, exports) && m.capabilities == if exports == [] then map[] else map[name := exports]
  }

  lemma ExportsAreListed(data: Json)
    requires WellFormedEntry(data)
    ensures Lists(data, ExportNames(data))
  {
    if data.Has("allowed_exports") && data.fields["allowed_exports"].Array? {
      var items := data.fields["allowed_exports"].items;
      forall i | 0 <= i < |items| ensures items[i] == String(ExportNames(data)[i]) { assert items[i] in items; }
    }
  }

  lemma ListIsUnique(data: Json, a: seq<string>, b: seq<string>)
    requires Lists(data, a) && Lists(data, b)
    ensures a == b
  {
    if data.Object? && "allowed_exports" in data.fields && data.fields["allowed_exports"].Array? {
      forall i | 0 <= i < |a| ensures a[i] == b[i] { assert data.fields["allowed_exports"].items[i] == String(a[i]); }
    }
  }

  /** An entry is accepted, as m, exactly when m is what the manifest says under its name. */
  lemma EntryExactly(name: string, data: Json, resolve: string -> string, m: RegisteredModule)
    ensures WellFormedEntry(data) && m == Entry(name, data, resolve) <==> Follows(name, data, resolve, m)
  {
    hide ExportNames;
    if WellFormedEntry(data) && m == Entry(name, data, resolve) {
      ExportsAreListed(data);
      assert Member(data, "path", String(data.StringAt("path")));
    }
    if Follows(name, data, resolve, m) {
      var path :| Member(data, "path", String(path)) && m.filePath == resolve(path);
      var exports :| Lists(data, exports) && m.capabilities == if exports == [] then map[] else map[name := exports];
      StringsOnly(data, exports);
      ExportsAreListed(data);
      ListIsUnique(data, exports, ExportNames(data));
    }
  }

  lemma StringsOnly(data: Json, exports: seq<string>)
    requires Lists(data, exports)
    ensures data.Has("allowed_exports") && data.fields["allowed_exports"].Array? ==>
              forall e | e in data.fields["allowed_exports"].items :: e.String?
  {
    if data.Has("allowed_exports") && data.fields["allowed_exports"].Array? {
      var items := data.fields["allowed_exports"].items;
      forall e | e in items ensures e.String? {
        var i :| 0 <= i < |items| && items[i] == e;
      }
    }
  }

  /** A malformed entry is one that no table entry follows. */
  lemma MalformedExactly(name: string, data: Json, resolve: string -> string)
    ensures WellFormedEntry(data) <==> exists m :: Follows(name, data, resolve, m)
  {
    if WellFormedEntry(data) {
      EntryExactly(name, data, resolve, Entry(name, data, resolve));
    }
    if m :| Follows(name, data, resolve, m) {
      EntryExactly(name, data, resolve, m);
    }
  }

  // ---- Whole manifests ----

  /** The members of the manifest's module table. */
  ghost predicate HasModules(file: ManifestFile, modules: map<string, Json>) {
    && file.Parsed? && Member(file.root, "manifest_version", String("1"))
    && Member(file.root, "modules", Object(modules))
  }

  /** Which error a load ends in, told from the file, and the version it leaves behind. */
  lemma LoadErrorsExactly(table: Table, file: ManifestFile, resolve: string -> string, version: string)
    ensures var r := Load(table, file, resolve).0;
            && (r == Err(ManifestNotFound) <==> file.NotFound?)
            && (r == Err(ManifestParseFailed) <==> file.Unparsable?)
            && (r == Err(UnsupportedManifestVersion) <==>
                  file.Parsed? && exists v :: Member(file.root, "manifest_version", String(v)) && v != "1")
            && (r == Ok(()) <==>
                  exists modules :: HasModules(file, modules) && AllWellFormed(modules))
            && (r == Err(InvalidSchema) <==>
                  && file.Parsed?
                  && (forall v :: Member(file.root, "manifest_version", String(v)) ==> v == "1")
                  && forall modules :: HasModules(file, modules) ==> !AllWellFormed(modules))
    ensures forall v :: file.Parsed? && Member(file.root, "manifest_version", String(v)) ==>
              VersionRead(version, file) == v
    ensures (file.Parsed? ==> forall v :: !Member(file.root, "manifest_version", String(v))) ==>
              VersionRead(version, file) == version
  {
    hide LoadedTable, AllWellFormed;
    if file.Parsed? && file.root.HasString("manifest_version") {
      assert Member(file.root, "manifest_version", String(file.root.StringAt("manifest_version")));
      var versioned := file.root.StringAt("manifest_version") == "1";
      if versioned && file.root.Has("modules") && file.root.fields["modules"].Object? {
        assert HasModules(file, file.root.fields["modules"].fields);
      }
    }
  }

  /** Every entry that a load of this manifest leaves is what the manifest says under its name; in
      particular it is trusted if and only if its "trusted" is true. */
  lemma LoadFollows(
    table: Table, file: ManifestFile, resolve: string -> string, modules: map<string, Json>, name: string)
    requires HasModules(file, modules) && name in Load(table, file, resolve).1
    ensures name in modules && Follows(name, modules[name], resolve, Load(table, file, resolve).1[name])
  {
    hide Entry, WellFormedEntry, Follows;
    EntryExactly(name, modules[name], resolve, Load(table, file, resolve).1[name]);
  }

  /** Nothing but this manifest is trusted afterwards: a name whose entry lacks the mark is not. */
  ghost predicate GivesTrust(file: ManifestFile, name: string) {
    exists modules :: HasModules(file, modules) && name in modules && Member(modules[name], "trusted", Bool(true))
  }

  lemma TrustIsGiven(table: Table, file: ManifestFile, resolve: string -> string, name: string)
    requires name in Load(table, file, resolve).1 && Load(table, file, resolve).1[name].trusted
    ensures GivesTrust(file, name) || (name in table && table[name].trusted)
  {
    hide LoadedTable;
    if Load(table, file, resolve).1 != table {
      var modules := file.root.fields["modules"].fields;
      assert HasModules(file, modules);
      LoadFollows(table, file, resolve, modules, name);
    }
  }

  // ---- Views, in the table's own terms ----

  /** The policy lists exactly the trusted modules of ABI version 1.0 that have exports, with those exports. */
  lemma PolicyExactly(table: Table, name: string, exports: seq<string>)
    ensures name in Policy(table) && Policy(table)[name] == exports
       <==> && exports != [] && name in table && table[name].trusted && table[name].guestAbiVersion == "1.0"
            && name in table[name].capabilities && table[name].capabilities[name] == exports
  {
  }

  /** The counts, in the table's own terms, and what a revocation does to them. */
  lemma CountsExactly(table: Table, cacheCount: nat)
    ensures var d := DiagnosticsOf(table, cacheCount);
            && d.trusted == |set n | n in table && table[n].trusted|
            && d.abiCompatible == |set n | n in table && table[n].trusted && table[n].guestAbiVersion == "1.0"|
            && d.cached == cacheCount
  {
    assert Trusted(table, table.Keys) == set n | n in table && table[n].trusted;
    assert Compatible(table, table.Keys) == set n | n in table && table[n].trusted && table[n].guestAbiVersion == "1.0";
  }

  lemma RevocationCounts(table: Table, name: string, cacheCount: nat)
    requires name in table && table[name].trusted
    ensures var before, after := DiagnosticsOf(table, cacheCount), DiagnosticsOf(Revoke(table, name), cacheCount);
            && after.trusted == before.trusted - 1
            && after.abiCompatible == before.abiCompatible - (if table[name].guestAbiVersion == "1.0" then 1 else 0)
            && after.policyExports == before.policyExports - |Bindings(name, table[name])|
  {
    hide Flatten, FlattenOne, Policy;
    var revoked := Revoke(table, name);
    assert Trusted(revoked, revoked.Keys) == Trusted(table, table.Keys) - {name};
    assert Compatible(revoked, revoked.Keys) == Compatible(table, table.Keys) - {name};
    var others := table.Keys - {name};
    assert others + {name} == table.Keys == revoked.Keys;
    FlattenAll(table);
    FlattenAll(revoked);
    FlattenStep(table, others, name);
    FlattenStep(revoked, others, name);
    forall n | n in others ensures FlattenOne(Policy(table), n) == FlattenOne(Policy(revoked), n) {
      RevokedAlone(table, name, n);
    }
    SamePolicyElsewhere(table, revoked, others);
  }

  lemma RevokedAlone(table: Table, name: string, other: string)
    requires other != name
    ensures FlattenOne(Policy(table), other) == FlattenOne(Policy(Revoke(table, name)), other)
  {
  }

  lemma {:induction false} SamePolicyElsewhere(table: Table, revoked: Table, names: set<string>)
    requires forall n | n in names :: FlattenOne(Policy(table), n) == FlattenOne(Policy(revoked), n)
    ensures Flatten(Policy(table), names) == Flatten(Policy(revoked), names)
    decreases |names|
  {
    hide FlattenOne, Policy;
    if names == {} {
    } else {
      var n :| n in names;
      FlattenRemove(Policy(table), names, n);
      FlattenRemove(Policy(revoked), names, n);
      SamePolicyElsewhere(table, revoked, names - {n});
    }
  }

  // ---- Key order ----

  /** At the first place where two keys differ, the lesser one has ended or has the lesser character. */
  predicate DiffersAt(a: string, b: string, k: nat) {
    && k < |b| && k <= |a| && a[..k] == b[..k]
    && (k == |a| || (a[k] as int) < (b[k] as int))
  }

  lemma {:induction false} LessExactly(a: string, b: string)
    ensures Less(a, b) <==> exists k: nat :: DiffersAt(a, b, k)
  {
    if a == "" || b == "" || a[0] != b[0] {
      if Less(a, b) { assert DiffersAt(a, b, 0); }
      if k: nat :| DiffersAt(a, b, k) {
        if k > 0 { assert a[..k][0] == b[..k][0]; }
      }
    } else {
      LessExactly(a[1..], b[1..]);
      if k: nat :| DiffersAt(a[1..], b[1..], k) {
        assert a[..k + 1] == [a[0]] + a[1..][..k] && b[..k + 1] == [b[0]] + b[1..][..k];
        assert DiffersAt(a, b, k + 1);
      }
      if k: nat :| DiffersAt(a, b, k) {
        assert a[1..][..k - 1] == a[..k][1..] && b[1..][..k - 1] == b[..k][1..];
        assert DiffersAt(a[1..], b[1..], k - 1);
      }
    }
  }
}

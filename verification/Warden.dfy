/** The Warden: from the text a model emits to one of four intents, or a refusal. */
module Warden {
  import opened Common
  import opened Json
  import JsonText
  import opened Fips180

  datatype Intent =
    | System2Think(internalMonologue: string)
    | QueryMerovingian(entityNodeId: string, relationType: string)
    | InvokeSeraph(targetWasmModule: string, targetFunction: string, arguments: map<string, string>)
    | BroadcastSmith(targetAgentId: U64, binaryPayload: seq<Byte>)

  datatype WardenError = GrammarViolation | InferenceTimeout | UnauthorizedIntent

  // ---- What a tree denotes ----

  function TypeName(i: Intent): string {
    match i
    case System2Think(_) => "System2Think"
    case QueryMerovingian(_, _) => "QueryMerovingian"
    case InvokeSeraph(_, _, _) => "InvokeSeraph"
    case BroadcastSmith(_, _) => "BroadcastSmith"
  }

  const TYPE_NAMES: set<string> := {"System2Think", "QueryMerovingian", "InvokeSeraph", "BroadcastSmith"}

  /** The unsigned 64-bit value of a JSON number: any integer that is not negative. */
  function UInt64Of(j: Json): Option<U64> {
    match j
    case Unsigned(u) => Some(u)
    case Signed(i) => if i >= 0 then Some(i) else None
    case _ => None
  }

  function StringTree(m: map<string, string>): map<string, Json> {
    map k | k in m :: String(m[k])
  }

  /** The schema of each payload, and the values it carries. */
  ghost predicate PayloadDenotes(p: map<string, Json>, i: Intent) {
    match i
    case System2Think(monologue) => p == map["internal_monologue" := String(monologue)]
    case QueryMerovingian(entity, relation) =>
      p == map["entity_node_id" := String(entity), "relation_type" := String(relation)]
    case InvokeSeraph(module_, function_, arguments) =>
      p == map["target_wasm_module" := String(module_), "target_function" := String(function_),
               "arguments" := Object(StringTree(arguments))]
    case BroadcastSmith(agent, bytes) =>
      && p.Keys == {"target_agent_id", "binary_payload"}
      && UInt64Of(p["target_agent_id"]) == Some(agent)
      && p["binary_payload"].Array? && |p["binary_payload"].items| == |bytes|
      && forall k | 0 <= k < |bytes| :: UInt64Of(p["binary_payload"].items[k]) == Some(bytes[k] as int)
  }

  /** The tree is the intent written out, with no key too many and none missing. */
  ghost predicate Denotes(tree: Json, i: Intent) {
    && tree.Object? && tree.fields.Keys == {"intent_type", "payload"}
    && tree.fields["intent_type"] == String(TypeName(i))
    && tree.fields["payload"].Object? && PayloadDenotes(tree.fields["payload"].fields, i)
  }

  /** A root with exactly the two keys, a string type and an object payload. */
  predicate WellFormedRoot(tree: Json) {
    && tree.Object? && tree.fields.Keys == {"intent_type", "payload"}
    && tree.fields["intent_type"].String? && tree.fields["payload"].Object?
  }

  // ---- Decoding, as a value ----

  function Decode(tree: Json): Result<Intent, WardenError> {
    if !WellFormedRoot(tree) then Err(GrammarViolation) else
      var t := tree.fields["intent_type"].s;
      var p := tree.fields["payload"].fields;
      if t !in TYPE_NAMES then Err(UnauthorizedIntent) else
        match DecodePayload(t, p)
        case None => Err(GrammarViolation)
        case Some(i) => Ok(i)
  }

  predicate HoldsStrings(p: map<string, Json>, keys: set<string>) {
    forall k | k in keys :: k in p && p[k].String?
  }

  function DecodePayload(t: string, p: map<string, Json>): Option<Intent>
    requires t in TYPE_NAMES
  {
    if t == "System2Think" then
      if p.Keys == {"internal_monologue"} && HoldsStrings(p, p.Keys)
      then Some(System2Think(p["internal_monologue"].s)) else None
    else if t == "QueryMerovingian" then
      if p.Keys == {"entity_node_id", "relation_type"} && HoldsStrings(p, p.Keys)
      then Some(QueryMerovingian(p["entity_node_id"].s, p["relation_type"].s)) else None
    else if t == "InvokeSeraph" then
      if && p.Keys == {"target_wasm_module", "target_function", "arguments"}
         && HoldsStrings(p, {"target_wasm_module", "target_function"})
         && p["arguments"].Object? && HoldsStrings(p["arguments"].fields, p["arguments"].fields.Keys)
      then
        var arguments := p["arguments"].fields;
        Some(InvokeSeraph(p["target_wasm_module"].s, p["target_function"].s, map k | k in arguments :: arguments[k].s))
      else None
    else
      if && p.Keys == {"target_agent_id", "binary_payload"} && UInt64Of(p["target_agent_id"]).Some?
         && p["binary_payload"].Array? && AllBytes(p["binary_payload"].items)
      then Some(BroadcastSmith(UInt64Of(p["target_agent_id"]).value, BytesOf(p["binary_payload"].items)))
      else None
  }

  predicate IsByte(j: Json) { UInt64Of(j).Some? && UInt64Of(j).value < 256 }

  predicate AllBytes(items: seq<Json>) { forall k | 0 <= k < |items| :: IsByte(items[k]) }

  function BytesOf(items: seq<Json>): seq<Byte>
    requires AllBytes(items)
  {
    seq(|items|, k requires 0 <= k < |items| => UInt64Of(items[k]).value as Byte)
  }

  // ---- Exactness ----

  /** Acceptance is exact: a tree is decoded to an intent if and only if it is that intent written out. */
  lemma DecodeExactly(tree: Json, i: Intent)
    ensures Decode(tree) == Ok(i) <==> Denotes(tree, i)
  {
    if WellFormedRoot(tree) && tree.fields["intent_type"].s == TypeName(i) {
      PayloadExactly(tree.fields["payload"].fields, i);
    }
    if Decode(tree).Ok? {
      DecodeKeepsType(tree.fields["intent_type"].s, tree.fields["payload"].fields);
    }
  }

  lemma DecodeKeepsType(t: string, p: map<string, Json>)
    requires t in TYPE_NAMES
    ensures DecodePayload(t, p).Some? ==> TypeName(DecodePayload(t, p).value) == t
  {
  }

  lemma PayloadExactly(p: map<string, Json>, i: Intent)
    ensures DecodePayload(TypeName(i), p) == Some(i) <==> PayloadDenotes(p, i)
  {
    match i
    case System2Think(monologue) =>
      if DecodePayload(TypeName(i), p) == Some(i) { assert p["internal_monologue"] == String(monologue); }
    case QueryMerovingian(entity, relation) =>
      if DecodePayload(TypeName(i), p) == Some(i) {
        assert p["entity_node_id"] == String(entity) && p["relation_type"] == String(relation);
      }
    case InvokeSeraph(module_, function_, arguments) =>
      InvokeExactly(p, module_, function_, arguments);
    case BroadcastSmith(agent, bytes) =>
      BroadcastExactly(p, agent, bytes);
  }

  lemma InvokeExactly(p: map<string, Json>, module_: string, function_: string, arguments: map<string, string>)
    ensures DecodePayload("InvokeSeraph", p) == Some(InvokeSeraph(module_, function_, arguments))
       <==> PayloadDenotes(p, InvokeSeraph(module_, function_, arguments))
  {
    var i := InvokeSeraph(module_, function_, arguments);
    if DecodePayload("InvokeSeraph", p) == Some(i) {
      assert p["arguments"].fields == StringTree(arguments);
      assert p["target_wasm_module"] == String(module_) && p["target_function"] == String(function_);
    }
    if PayloadDenotes(p, i) {
      var fields := p["arguments"].fields;
      assert (map k | k in fields :: fields[k].s) == arguments;
    }
  }

  lemma BroadcastExactly(p: map<string, Json>, agent: U64, bytes: seq<Byte>)
    ensures DecodePayload("BroadcastSmith", p) == Some(BroadcastSmith(agent, bytes))
       <==> PayloadDenotes(p, BroadcastSmith(agent, bytes))
  {
    if PayloadDenotes(p, BroadcastSmith(agent, bytes)) {
      var items := p["binary_payload"].items;
      forall k | 0 <= k < |items| ensures IsByte(items[k]) {
        assert UInt64Of(items[k]) == Some(bytes[k] as int);
      }
      assert BytesOf(items) == bytes;
    }
  }

  /** UnauthorizedIntent means precisely an otherwise well-formed root with an unknown type. */
  lemma UnauthorizedExactly(tree: Json)
    ensures Decode(tree) == Err(UnauthorizedIntent)
       <==> WellFormedRoot(tree) && tree.fields["intent_type"].s !in TYPE_NAMES
    ensures Decode(tree).Err? && Decode(tree).error != UnauthorizedIntent ==> Decode(tree).error == GrammarViolation
  {
  }

  /** The canonical tree of an intent. */
  function Encode(i: Intent): Json {
    Object(map["intent_type" := String(TypeName(i)), "payload" := Object(EncodePayload(i))])
  }

  function EncodePayload(i: Intent): map<string, Json> {
    match i
    case System2Think(monologue) => map["internal_monologue" := String(monologue)]
    case QueryMerovingian(entity, relation) =>
      map["entity_node_id" := String(entity), "relation_type" := String(relation)]
    case InvokeSeraph(module_, function_, arguments) =>
      map["target_wasm_module" := String(module_), "target_function" := String(function_),
          "arguments" := Object(StringTree(arguments))]
    case BroadcastSmith(agent, bytes) =>
      map["target_agent_id" := Unsigned(agent),
          "binary_payload" := Array(seq(|bytes|, k requires 0 <= k < |bytes| => Unsigned(bytes[k] as int)))]
  }

  /** Decoding undoes encoding. */
  lemma DecodeEncode(i: Intent)
    ensures Decode(Encode(i)) == Ok(i)
  {
    DecodeExactly(Encode(i), i);
  }

  /** Encoding undoes decoding as well, up to the kind of its integers: nothing in an accepted tree
      is ignored. */
  lemma EncodeDecode(tree: Json)
    requires Decode(tree).Ok?
    ensures Encode(Decode(tree).value) == Normal(tree)
  {
    var i := Decode(tree).value;
    DecodeExactly(tree, i);
    var p := tree.fields["payload"].fields;
    NormalPayload(p, i);
    assert Normal(tree).fields == map["intent_type" := String(TypeName(i)), "payload" := Normal(Object(p))];
  }

  /** A string or an unsigned number is its own normal form. */
  predicate IsPlain(j: Json) { j.String? || j.Unsigned? }

  lemma NormalPlain(p: map<string, Json>)
    requires forall k | k in p :: IsPlain(p[k])
    ensures Normal(Object(p)) == Object(p)
  {
    var normal := Normal(Object(p)).fields;
    forall k | k in p ensures normal[k] == p[k] { assert normal[k] == Normal(p[k]); }
    assert normal == p;
  }

  lemma NormalPayload(p: map<string, Json>, i: Intent)
    requires PayloadDenotes(p, i)
    ensures Normal(Object(p)) == Object(EncodePayload(i))
  {
    match i
    case System2Think(_) => NormalPlain(p);
    case QueryMerovingian(_, _) => NormalPlain(p);
    case InvokeSeraph(_, _, arguments) =>
      NormalPlain(StringTree(arguments));
      var normal := Normal(Object(p)).fields;
      forall k | k in p ensures normal[k] == p[k] { assert normal[k] == Normal(p[k]); }
      assert normal == p;
    case BroadcastSmith(agent, bytes) => NormalBroadcast(p, agent, bytes);
  }

  lemma NormalBroadcast(p: map<string, Json>, agent: U64, bytes: seq<Byte>)
    requires PayloadDenotes(p, BroadcastSmith(agent, bytes))
    ensures Normal(Object(p)) == Object(EncodePayload(BroadcastSmith(agent, bytes)))
  {
    var encoded := EncodePayload(BroadcastSmith(agent, bytes));
    var items := p["binary_payload"].items;
    forall k | 0 <= k < |items| ensures Normal(items[k]) == Unsigned(bytes[k] as int) {
      assert UInt64Of(items[k]) == Some(bytes[k] as int);
    }
    assert Normal(p["binary_payload"]).items == encoded["binary_payload"].items;
    var normal := Normal(Object(p)).fields;
    forall k | k in p ensures normal[k] == encoded[k] { assert normal[k] == Normal(p[k]); }
    assert normal == encoded;
  }

  /** A tree decodes to an intent exactly when it is that intent's tree, up to the kind of its integers. */
  lemma DecodesToExactly(tree: Json, i: Intent)
    ensures Decode(tree) == Ok(i) <==> Normal(tree) == Encode(i)
  {
    if Decode(tree) == Ok(i) { EncodeDecode(tree); }
    if Normal(tree) == Encode(i) {
      NormalDenotes(tree, i);
      DecodeExactly(tree, i);
    }
  }

  lemma NormalDenotes(tree: Json, i: Intent)
    requires Normal(tree) == Encode(i)
    ensures Denotes(tree, i)
  {
    var fields, encoded := tree.fields, Encode(i).fields;
    NormalFields(fields, encoded);
    assert encoded["intent_type"] == String(TypeName(i)) && encoded["payload"] == Object(EncodePayload(i));
    assert Normal(fields["intent_type"]) == encoded["intent_type"];
    assert Normal(fields["payload"]) == encoded["payload"];
    NormalDenotesPayload(fields["payload"].fields, i);
  }

  lemma NormalDenotesPayload(p: map<string, Json>, i: Intent)
    requires Normal(Object(p)) == Object(EncodePayload(i))
    ensures PayloadDenotes(p, i)
  {
    NormalFields(p, EncodePayload(i));
    match i
    case System2Think(_) => PlainFields(p, EncodePayload(i));
    case QueryMerovingian(_, _) => PlainFields(p, EncodePayload(i));
    case InvokeSeraph(module_, function_, arguments) => DenotesInvoke(p, module_, function_, arguments);
    case BroadcastSmith(agent, bytes) => DenotesBroadcast(p, agent, bytes);
  }

  lemma NormalFields(p: map<string, Json>, fields: map<string, Json>)
    requires Normal(Object(p)) == Object(fields)
    ensures p.Keys == fields.Keys && forall k | k in p :: Normal(p[k]) == fields[k]
  {
    var normal := Normal(Object(p)).fields;
    assert normal.Keys == p.Keys;
    forall k | k in p ensures Normal(p[k]) == fields[k] { assert normal[k] == fields[k]; }
  }

  /** Strings come only from strings. */
  lemma PlainFields(p: map<string, Json>, fields: map<string, Json>)
    requires Normal(Object(p)) == Object(fields) && forall k | k in fields :: fields[k].String?
    ensures p == fields
  {
    NormalFields(p, fields);
    forall k | k in p ensures p[k] == fields[k] { assert Normal(p[k]) == fields[k]; }
  }

  lemma DenotesInvoke(p: map<string, Json>, module_: string, function_: string, arguments: map<string, string>)
    requires Normal(Object(p)) == Object(EncodePayload(InvokeSeraph(module_, function_, arguments)))
    ensures PayloadDenotes(p, InvokeSeraph(module_, function_, arguments))
  {
    var fields := EncodePayload(InvokeSeraph(module_, function_, arguments));
    NormalFields(p, fields);
    assert Normal(p["arguments"]) == Object(StringTree(arguments));
    PlainFields(p["arguments"].fields, StringTree(arguments));
    assert Normal(p["target_wasm_module"]) == String(module_) && Normal(p["target_function"]) == String(function_);
    assert p == fields;
  }

  lemma DenotesBroadcast(p: map<string, Json>, agent: U64, bytes: seq<Byte>)
    requires Normal(Object(p)) == Object(EncodePayload(BroadcastSmith(agent, bytes)))
    ensures PayloadDenotes(p, BroadcastSmith(agent, bytes))
  {
    var fields := EncodePayload(BroadcastSmith(agent, bytes));
    NormalFields(p, fields);
    assert Normal(p["target_agent_id"]) == Unsigned(agent);
    assert Normal(p["binary_payload"]) == fields["binary_payload"];
    var items := p["binary_payload"].items;
    forall k | 0 <= k < |bytes| ensures UInt64Of(items[k]) == Some(bytes[k] as int) {
      assert Normal(items[k]) == fields["binary_payload"].items[k];
    }
  }

  /** The frames of the written contract carry an id and a time stamp; the validator refuses every
      intent presented so, as it does any root key beyond the two. */
  lemma ContractFrameRefused(i: Intent, frameId: U64, timestampMs: U64)
    ensures var numbered := Encode(i).fields["frame_id" := Unsigned(frameId)];
            Decode(Object(numbered["timestamp_ms" := Unsigned(timestampMs)])) == Err(GrammarViolation)
  {
    var documented := Encode(i).fields["frame_id" := Unsigned(frameId)]["timestamp_ms" := Unsigned(timestampMs)];
    assert "frame_id" in documented.Keys && "frame_id" !in {"intent_type", "payload"} by {
      assert |"frame_id"| == 8 && |"intent_type"| == 11 && |"payload"| == 7;
    }
  }

  /** The one text of an integer that is not canonical and is still accepted: "-0" reads as a signed zero,
      which the validator takes for the agent id 0. No text of the grammar contains it. */
  lemma NegativeZero(bytes: seq<Byte>)
    ensures JsonText.ReadValue("-0") == JsonText.Done(Signed(0), "")
    ensures var payload := EncodePayload(BroadcastSmith(0, bytes))["target_agent_id" := Signed(0)];
            DecodePayload("BroadcastSmith", payload) == Some(BroadcastSmith(0, bytes))
  {
    hide JsonText.Overflows;
    assert JsonText.SkipWs("-0") == "-0" && "-0"[1..] == "0";
    assert JsonText.LeadingDigits("0") == "0" by { assert "0"[1..] == "" && JsonText.LeadingDigits("") == ""; }
    assert "0"[1..] == "" && "0" + "" == "0";
    assert JsonText.Decimal("0") == 0 by { assert "0"[..0] == "" && JsonText.Decimal("") == 0; }
    JsonText.IntegersFit(0);
    var payload := EncodePayload(BroadcastSmith(0, bytes))["target_agent_id" := Signed(0)];
    assert PayloadDenotes(payload, BroadcastSmith(0, bytes));
    BroadcastExactly(payload, 0, bytes);
  }

  // ---- The validator ----

  method HasOnlyKeys(object_: Json, allowedKeys: seq<string>) returns (only: bool)
    ensures only <==> object_.Object? && forall k | k in object_.fields :: k in allowedKeys
  {
    if !object_.Object? { return false; }
    var remaining := object_.fields.Keys;
    while remaining != {}
      invariant remaining <= object_.fields.Keys
      invariant forall k | k in object_.fields && k !in remaining :: k in allowedKeys
      decreases |remaining|
    {
      var key :| key in remaining;
      var allowed := false;
      for n := 0 to |allowedKeys|
        invariant !allowed && key !in allowedKeys[..n]
      {
        if key == allowedKeys[n] {
          allowed := true;
          break;
        }
        assert allowedKeys[..n + 1] == allowedKeys[..n] + [allowedKeys[n]];
      }
      assert allowedKeys[..|allowedKeys|] == allowedKeys;
      if !allowed { return false; }
      remaining := remaining - {key};
    }
    only := true;
  }

  method TryReadUInt64(value: Json) returns (ok: bool, out: U64)
    ensures ok == UInt64Of(value).Some? && (ok ==> Some(out) == UInt64Of(value))
  {
    out := 0;
    if value.Unsigned? { return true, value.u; }
    if value.Signed? {
      if value.i < 0 { return false, out; }
      return true, value.i;
    }
    ok := false;
  }

  method TryReadByte(value: Json) returns (ok: bool, out: Byte)
    ensures ok == IsByte(value) && (ok ==> UInt64Of(value) == Some(out as int))
  {
    out := 0;
    var read, temp := TryReadUInt64(value);
    if !read || temp > 255 { return false, out; }
    return true, temp as Byte;
  }

  method TryReadStringMap(value: Json) returns (ok: bool, out: map<string, string>)
    ensures ok == (value.Object? && HoldsStrings(value.fields, value.fields.Keys))
    ensures ok ==> out == map k | k in value.fields :: value.fields[k].s
  {
    out := map[];
    if !value.Object? { return false, out; }
    var remaining := value.fields.Keys;
    while remaining != {}
      invariant remaining <= value.fields.Keys && out.Keys == value.fields.Keys - remaining
      invariant forall k | k in out :: value.fields[k].String? && out[k] == value.fields[k].s
      decreases |remaining|
    {
      var key :| key in remaining;
      if !value.fields[key].String? { return false, out; }
      out := out[key := value.fields[key].s];
      remaining := remaining - {key};
    }
    assert out == map k | k in value.fields :: value.fields[k].s;
    ok := true;
  }

  method DecodeBytes(items: seq<Json>) returns (r: Option<seq<Byte>>)
    ensures r == if AllBytes(items) then Some(BytesOf(items)) else None
  {
    var bytes: seq<Byte> := [];
    for k := 0 to |items|
      invariant |bytes| == k
      invariant forall n | 0 <= n < k :: IsByte(items[n]) && UInt64Of(items[n]) == Some(bytes[n] as int)
    {
      var ok, b := TryReadByte(items[k]);
      if !ok { return None; }
      bytes := bytes + [b];
    }
    assert AllBytes(items) && bytes == BytesOf(items);
    r := Some(bytes);
  }

  method DeserializeIntentOnly(text: string) returns (r: Result<Intent, WardenError>)
    ensures r == Deserialize(text)
  {
    var parsed := JsonText.Parse(text);
    if parsed.None? { return Err(GrammarViolation); }
    var j := parsed.value;
    if !j.Object? { return Err(GrammarViolation); }
    var only := HasOnlyKeys(j, ["intent_type", "payload"]);
    if !only || !j.Has("intent_type") || !j.Has("payload") { return Err(GrammarViolation); }
    assert j.fields.Keys == {"intent_type", "payload"};
    if !j.fields["intent_type"].String? { return Err(GrammarViolation); }
    var intentType := j.fields["intent_type"].s;
    if !j.fields["payload"].Object? { return Err(GrammarViolation); }
    r := DeserializePayload(intentType, j.fields["payload"]);
  }

  /** The four payload branches. */
  method DeserializePayload(intentType: string, payload: Json) returns (r: Result<Intent, WardenError>)
    requires payload.Object?
    ensures r == if intentType !in TYPE_NAMES then Err(UnauthorizedIntent)
                 else
                   match DecodePayload(intentType, payload.fields)
                   case None => Err(GrammarViolation)
                   case Some(i) => Ok(i)
  {
    if intentType == "System2Think" {
      var only := HasOnlyKeys(payload, ["internal_monologue"]);
      if !only || !payload.Has("internal_monologue") || !payload.fields["internal_monologue"].String? {
        return Err(GrammarViolation);
      }
      assert payload.fields.Keys == {"internal_monologue"};
      return Ok(System2Think(payload.fields["internal_monologue"].s));
    }
    if intentType == "QueryMerovingian" {
      var only := HasOnlyKeys(payload, ["entity_node_id", "relation_type"]);
      if !only || !payload.Has("entity_node_id") || !payload.Has("relation_type")
         || !payload.fields["entity_node_id"].String? || !payload.fields["relation_type"].String? {
        return Err(GrammarViolation);
      }
      assert payload.fields.Keys == {"entity_node_id", "relation_type"};
      return Ok(QueryMerovingian(payload.fields["entity_node_id"].s, payload.fields["relation_type"].s));
    }
    if intentType == "InvokeSeraph" {
      var only := HasOnlyKeys(payload, ["target_wasm_module", "target_function", "arguments"]);
      if !only || !payload.Has("target_wasm_module") || !payload.Has("target_function") || !payload.Has("arguments")
         || !payload.fields["target_wasm_module"].String? || !payload.fields["target_function"].String? {
        return Err(GrammarViolation);
      }
      assert payload.fields.Keys == {"target_wasm_module", "target_function", "arguments"};
      var ok, args := TryReadStringMap(payload.fields["arguments"]);
      if !ok { return Err(GrammarViolation); }
      return Ok(InvokeSeraph(payload.fields["target_wasm_module"].s, payload.fields["target_function"].s, args));
    }
    if intentType == "BroadcastSmith" {
      var only := HasOnlyKeys(payload, ["target_agent_id", "binary_payload"]);
      if !only || !payload.Has("target_agent_id") || !payload.Has("binary_payload")
         || !payload.fields["binary_payload"].Array? {
        return Err(GrammarViolation);
      }
      assert payload.fields.Keys == {"target_agent_id", "binary_payload"};
      var ok, agent := TryReadUInt64(payload.fields["target_agent_id"]);
      if !ok { return Err(GrammarViolation); }
      var bytes := DecodeBytes(payload.fields["binary_payload"].items);
      if bytes.None? { return Err(GrammarViolation); }
      return Ok(BroadcastSmith(agent, bytes.value));
    }
    r := Err(UnauthorizedIntent);
  }

  function Deserialize(text: string): Result<Intent, WardenError> {
    var parsed := JsonText.Parse(text);
    if parsed.None? then Err(GrammarViolation) else Decode(parsed.value)
  }

  /** A text is accepted exactly when it parses to the tree of the intent it is taken for. */
  lemma AcceptedExactly(text: string, i: Intent)
    ensures Deserialize(text) == Ok(i)
       <==> JsonText.Parse(text).Some? && Normal(JsonText.Parse(text).value) == Encode(i)
  {
    var parsed := JsonText.Parse(text);
    if parsed.Some? { DecodesToExactly(parsed.value, i); }
  }

  // ---- The engine ----

  /** What the loop hands to the engine. */
  datatype AgentContext = AgentContext(
    currentStimulus: string, availableCapabilities: seq<string>, memoryPointers: seq<string>,
    lastActionFeedback: Option<string>, recoveryAttempts: nat)

  datatype CognitiveFrame = CognitiveFrame(frameId: U64, intent: Intent)

  /** The model behind the engine is given a prompt and a grammar. It may answer anything, and
      differently each time it is asked; None is a failed generation. */
  type Brain = (nat, string, string) -> Option<string>

  /** What one generation comes to. */
  function Judge(answer: Option<string>): Result<Intent, WardenError> {
    if answer.None? || answer.value == "" then Err(InferenceTimeout) else Deserialize(answer.value)
  }

  /** No answer and an empty one are timeouts; any other is what its text is. */
  lemma JudgedExactly(answer: Option<string>)
    ensures Judge(answer) == Err(InferenceTimeout) <==> answer == None || answer == Some("")
    ensures forall text | answer == Some(text) && text != "" :: Judge(answer) == Deserialize(text)
  {
    hide JsonText.Parse;
    if answer.Some? && JsonText.Parse(answer.value).Some? { UnauthorizedExactly(JsonText.Parse(answer.value).value); }
  }

  class Engine {
    const grammar: string
    var activeGrammar: string
    const brain: Option<Brain>
    const buildPrompt: AgentContext -> string
    var generations: nat
    var nextFrameId: U64

    /** The grammar is some text, which the engine passes on and never looks into; it is active or not
        loaded yet. */
    predicate Valid()
      reads this`activeGrammar
    {
      grammar != "" && (activeGrammar == "" || activeGrammar == grammar)
    }

    constructor (brain: Option<Brain>, buildPrompt: AgentContext -> string, grammar: string)
      requires grammar != ""
      ensures Valid() && this.brain == brain && this.buildPrompt == buildPrompt && this.grammar == grammar
      ensures activeGrammar == "" && generations == 0 && nextFrameId == 1
    {
      this.brain, this.buildPrompt, this.grammar := brain, buildPrompt, grammar;
      activeGrammar, generations, nextFrameId := "", 0, 1;
    }

    method CompileGrammarConstraints()
      requires Valid()
      modifies this`activeGrammar
      ensures Valid() && activeGrammar == grammar
    {
      if activeGrammar != "" { return; }
      activeGrammar := grammar;
    }

    /** Frame ids count up and wrap at 2^64. */
    method NextFrameId() returns (id: U64)
      modifies this`nextFrameId
      ensures id == old(nextFrameId) && nextFrameId == (id + 1) % 0x1_0000_0000_0000_0000
    {
      id := nextFrameId;
      nextFrameId := (nextFrameId + 1) % 0x1_0000_0000_0000_0000;
    }

    /** The model is asked when there is one and there is something to say, with the prompt for the context
        and the grammar. An id is spent only on an accepted frame. */
    method EnforceCognition(context: AgentContext) returns (r: Result<CognitiveFrame, WardenError>)
      requires Valid()
      modifies this
      ensures Valid() && activeGrammar == grammar
      ensures brain.None? ==> r == Err(InferenceTimeout)
      ensures brain.Some? && context.currentStimulus == "" && context.lastActionFeedback.None? ==>
                r == Err(GrammarViolation)
      ensures var asked := brain.Some? && (context.currentStimulus != "" || context.lastActionFeedback.Some?);
              && generations == old(generations) + (if asked then 1 else 0)
              && (asked ==>
                    match Judge(brain.value(old(generations), buildPrompt(context), grammar))
                    case Ok(intent) => r == Ok(CognitiveFrame(old(nextFrameId), intent))
                    case Err(e) => r == Err(e))
      ensures nextFrameId == if r.Ok? then (old(nextFrameId) + 1) % 0x1_0000_0000_0000_0000 else old(nextFrameId)
    {
      hide Deserialize;
      if activeGrammar == "" { CompileGrammarConstraints(); }
      if brain.None? { return Err(InferenceTimeout); }
      if context.currentStimulus == "" && context.lastActionFeedback.None? { return Err(GrammarViolation); }
      var build, ask := buildPrompt, brain.value;
      var prompt := build(context);
      var raw := ask(generations, prompt, activeGrammar);
      generations := generations + 1;
      if raw.None? { return Err(InferenceTimeout); }
      if raw.value == "" { return Err(InferenceTimeout); }
      var intent := DeserializeIntentOnly(raw.value);
      if intent.Err? { return Err(intent.error); }
      var id := NextFrameId();
      r := Ok(CognitiveFrame(id, intent.value));
    }
  }
}

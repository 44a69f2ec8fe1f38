/** A whole cognitive frame laid out as the grammar lays it out, and what the validator makes of its
    text. */
module Frames {
  import opened Common
  import opened Fips180
  import opened Json
  import opened JsonText
  import opened FrameText
  import opened Grammar
  import opened Warden

  /** The whitespace around one member. */
  datatype Slot = Slot(pre: string, mid: string, post: string)

  predicate SlotOk(a: Slot) { AllWs(a.pre) && AllWs(a.mid) && AllWs(a.post) }

  datatype Field<V> = Field(slot: Slot, key: string, value: V)

  datatype Value =
    | Text(s: Str)
    | Number(d: string)
    | Dict(open: string, pairs: List<Pair>, close: string)
    | Numbers(open: string, items: List<string>, close: string)

  datatype Payload =
    | ThinkText(a: Slot, monologue: Str)
    | QueryText(a: Slot, entity: Str, b: Slot, relation: Str)
    | InvokeText(
        a: Slot, module_: Str, b: Slot, function_: Str, c: Slot, open: string, pairs: List<Pair>, close: string)
    | BroadcastText(a: Slot, agent: string, b: Slot, open: string, bytes: List<string>, close: string)

  /** Nothing but the comma or brace follows a root member. */
  datatype Frame = Frame(a: Slot, typeName: string, b: Slot, payload: Payload)

  // ---- Texts ----

  function MemberText(a: Slot, key: string, value: string, tail: string): string {
    a.pre + (KeyText(key) + (a.mid + (value + (a.post + tail))))
  }

  function FieldsText<V>(fs: seq<Field<V>>, show: V -> string, tail: string): string {
    if fs == [] then tail else
      MemberText(fs[0].slot, fs[0].key, show(fs[0].value),
                 if |fs| == 1 then tail else "," + FieldsText(fs[1..], show, tail))
  }

  function ValueText(v: Value): string {
    match v
    case Text(s) => StrText(s)
    case Number(d) => d
    case Dict(open, pairs, close) => DictText(open, pairs, close)
    case Numbers(open, items, close) => ArrayText(open, items, close)
  }

  function Fields(p: Payload): seq<Field<Value>> {
    match p
    case ThinkText(a, monologue) => [Field(a, "internal_monologue", Text(monologue))]
    case QueryText(a, entity, b, relation) =>
      [Field(a, "entity_node_id", Text(entity)), Field(b, "relation_type", Text(relation))]
    case InvokeText(a, module_, b, function_, c, open, pairs, close) =>
      [Field(a, "target_wasm_module", Text(module_)), Field(b, "target_function", Text(function_)),
       Field(c, "arguments", Dict(open, pairs, close))]
    case BroadcastText(a, agent, b, open, bytes, close) =>
      [Field(a, "target_agent_id", Number(agent)), Field(b, "binary_payload", Numbers(open, bytes, close))]
  }

  function PayloadText(p: Payload): string { "{" + FieldsText(Fields(p), ValueText, "}") }

  datatype RootValue = Name(name: string) | Inner(payload: Payload)

  function RootText(v: RootValue): string {
    match v
    case Name(name) => Quoted(name)
    case Inner(p) => PayloadText(p)
  }

  function RootFields(f: Frame): seq<Field<RootValue>> {
    [Field(f.a, "intent_type", Name(f.typeName)), Field(f.b, "payload", Inner(f.payload))]
  }

  function TextOf(f: Frame): string { "{" + FieldsText(RootFields(f), RootText, "}") }

  predicate ValueOk(v: Value) {
    match v
    case Text(s) => StrOk(s)
    case Number(d) => DigitsOk(d)
    case Dict(open, pairs, close) => AllWs(open) && AllWs(close) && ListOk(pairs, PairOk)
    case Numbers(open, items, close) => AllWs(open) && AllWs(close) && ListOk(items, DigitsOk)
  }

  predicate PayloadOk(p: Payload) {
    forall k | 0 <= k < |Fields(p)| :: SlotOk(Fields(p)[k].slot) && ValueOk(Fields(p)[k].value)
  }

  predicate FrameOk(f: Frame) {
    && SlotOk(f.a) && f.a.post == "" && SlotOk(f.b) && f.b.post == ""
    && f.typeName in TYPE_NAMES && PayloadOk(f.payload)
  }

  // ---- Meanings ----

  predicate IsByteNumeral(d: string) { IsNumeral(d) && Decimal(d) < 256 }

  predicate AllByteNumerals(ds: seq<string>) { forall k | 0 <= k < |ds| :: IsByteNumeral(ds[k]) }

  function BytesWritten(ds: seq<string>): seq<Byte>
    requires AllByteNumerals(ds)
  {
    seq(|ds|, k requires 0 <= k < |ds| => Decimal(ds[k]) as Byte)
  }

  /** The intent a payload writes: none if a string has a bare control character, a number has a
      leading zero, or a number is too big. */
  function Written(p: Payload): Option<Intent>
    requires PayloadOk(p)
  {
    match p
    case ThinkText(_, monologue) =>
      assert ValueOk(Fields(p)[0].value);
      if Clean(monologue) then Some(System2Think(Meaning(monologue))) else None
    case QueryText(_, entity, _, relation) =>
      assert ValueOk(Fields(p)[0].value) && ValueOk(Fields(p)[1].value);
      if Clean(entity) && Clean(relation) then Some(QueryMerovingian(Meaning(entity), Meaning(relation))) else None
    case InvokeText(_, module_, _, function_, _, _, pairs, _) =>
      assert ValueOk(Fields(p)[0].value) && ValueOk(Fields(p)[1].value) && ValueOk(Fields(p)[2].value);
      if Clean(module_) && Clean(function_) && PairsClean(PairsOf(pairs))
      then Some(InvokeSeraph(Meaning(module_), Meaning(function_), Dictionary(PairsOf(pairs)))) else None
    case BroadcastText(_, agent, _, _, bytes, _) =>
      if IsNumeral(agent) && Decimal(agent) < 0x1_0000_0000_0000_0000 && AllByteNumerals(Digits(bytes))
      then Some(BroadcastSmith(Decimal(agent), BytesWritten(Digits(bytes)))) else None
  }

  function Verdict(f: Frame): Result<Intent, WardenError>
    requires FrameOk(f)
  {
    match Written(f.payload)
    case None => Err(GrammarViolation)
    case Some(i) => if TypeName(i) == f.typeName then Ok(i) else Err(GrammarViolation)
  }

  // ---- Trees ----

  function FieldsTree<V>(fs: seq<Field<V>>, tree: V -> Option<Json>): Option<map<string, Json>> {
    if fs == [] then Some(map[]) else
      match tree(fs[0].value)
      case None => None
      case Some(v) =>
        match FieldsTree(fs[1..], tree)
        case None => None
        case Some(m) => Some(map[fs[0].key := v] + m)
  }

  function ValueTree(v: Value): Option<Json> {
    if !ValueOk(v) then None else
      match v
      case Text(s) => if Clean(s) then Some(String(Meaning(s))) else None
      case Number(d) => if IsNumeral(d) then Some(NumberOf(d)) else None
      case Dict(_, pairs, _) =>
        if PairsClean(PairsOf(pairs)) then Some(Object(StringTree(Dictionary(PairsOf(pairs))))) else None
      case Numbers(_, items, _) =>
        match ReadDigits(Digits(items))
        case None => None
        case Some(trees) => Some(Array(trees))
  }

  function RootTree(v: RootValue): Option<Json> {
    match v
    case Name(name) => Some(String(name))
    case Inner(p) =>
      match FieldsTree(Fields(p), ValueTree)
      case None => None
      case Some(m) => Some(Object(m))
  }

  // ---- Reading ----

  /** The next character ends a number. */
  predicate Ends(tail: string) { tail != "" && EndsNumber(tail) }

  ghost predicate ReadsAs<V>(v: V, show: V -> string, tree: V -> Option<Json>) {
    forall tail | Ends(tail) :: ReadValue(show(v) + tail) == Read(tree(v), tail)
  }

  lemma ReadsValue(v: Value)
    requires ValueOk(v)
    ensures ReadsAs(v, ValueText, ValueTree)
  {
    forall tail | Ends(tail) ensures ReadValue(ValueText(v) + tail) == Read(ValueTree(v), tail) {
      hide ReadValue, IsNumeral, NumberOf, Clean, Meaning, StrText, ArrayText, DictText, PairsClean, Dictionary;
      match v
      case Text(s) => ReadsString(s, tail);
      case Number(d) => ReadsNumber(d, tail);
      case Dict(open, pairs, close) => ReadsDict(open, pairs, close, tail);
      case Numbers(open, items, close) => ReadsArray(open, items, close, tail);
    }
  }

  /** Written between quotes as it is. */
  predicate IsBare(key: string) { forall c | c in key :: c != '"' && c != '\\' && !IsControl(c) }

  function Bare(key: string): Str { seq(|key|, k requires 0 <= k < |key| => Plain(key[k])) }

  lemma BareReads(key: string)
    requires IsBare(key)
    ensures StrOk(Bare(key)) && Clean(Bare(key)) && Meaning(Bare(key)) == key
    ensures Body(Bare(key)) == key
  {
    forall t | t in Bare(key) ensures TokOk(t) && t.Plain? && !IsControl(t.c) {
      var k :| 0 <= k < |key| && t == Plain(key[k]);
      assert key[k] in key;
    }
    assert Meaning(Bare(key)) == key;
    BareBody(key);
  }

  lemma {:induction false} BareBody(key: string)
    ensures Body(Bare(key)) == key
  {
    if key == "" {
    } else {
      assert Bare(key)[1..] == Bare(key[1..]);
      BareBody(key[1..]);
      assert key == [key[0]] + key[1..];
    }
  }

  lemma {:induction false} ReadsFields<V>(fs: seq<Field<V>>, show: V -> string, tree: V -> Option<Json>, tail: string)
    requires fs != []
    requires forall k | 0 <= k < |fs| :: SlotOk(fs[k].slot) && IsBare(fs[k].key) && ReadsAs(fs[k].value, show, tree)
    ensures ReadMembers(FieldsText(fs, show, "}" + tail)) == Read(FieldsTree(fs, tree), tail)
    decreases |fs|
  {
    hide ReadMembers, ReadValue, SkipWs, StrText, Clean, Meaning, AllWs, Body, IsBare, Bare;
    var f, others := fs[0], fs[1..];
    var rest := FieldsText(others, show, "}" + tail);
    var after := if |fs| == 1 then "}" + tail else "," + rest;
    EndsAfter(f.slot.post, after);
    assert ReadValue(show(f.value) + (f.slot.post + after)) == Read(tree(f.value), f.slot.post + after);
    BareReads(f.key);
    KeyIsBare(f.slot, f.key, show(f.value), after);
    ReadsPair(f.slot.pre, Bare(f.key), "", f.slot.mid, show(f.value), f.slot.post, after, tree(f.value));
    assert after[1..] == if |fs| == 1 then tail else rest;
    if |fs| == 1 {
      assert others == [] && FieldsTree(others, tree) == Some(map[]);
      if tree(f.value).Some? { assert map[f.key := tree(f.value).value] + map[] == map[f.key := tree(f.value).value]; }
    } else {
      ReadsFields(others, show, tree, tail);
    }
  }

  lemma EndsAfter(w: string, after: string)
    requires AllWs(w) && after != "" && (after[0] == '}' || after[0] == ',')
    ensures Ends(w + after)
  {
    if w != "" { assert (w + after)[0] == w[0] && w[0] in w; }
  }

  lemma KeyIsBare(a: Slot, key: string, value: string, after: string)
    requires IsBare(key)
    ensures MemberText(a, key, value, after) == a.pre + (PairText(Bare(key), "", a.mid, value) + (a.post + after))
    ensures AllWs("")
  {
    hide IsBare, Bare, Body, Meaning, Clean;
    BareReads(key);
    PairIsKeyed(Bare(key), "", a.mid, value, a.post + after);
    assert KeyText(key) + (a.mid + (value + (a.post + after)))
        == KeyedText(Bare(key), "", a.mid + (value + (a.post + after)));
  }

  lemma {:induction false} FieldsTextAppend<V>(fs: seq<Field<V>>, show: V -> string, a: string, b: string)
    ensures FieldsText(fs, show, a) + b == FieldsText(fs, show, a + b)
    decreases |fs|
  {
    if fs == [] {
    } else {
      FieldsTextAppend(fs[1..], show, a, b);
    }
  }

  /** An object of such fields reads to its tree. */
  lemma ReadsFieldsObject<V>(fs: seq<Field<V>>, show: V -> string, tree: V -> Option<Json>, tail: string)
    requires fs != []
    requires forall k | 0 <= k < |fs| :: SlotOk(fs[k].slot) && IsBare(fs[k].key) && ReadsAs(fs[k].value, show, tree)
    ensures ReadValue("{" + FieldsText(fs, show, "}") + tail)
         == match FieldsTree(fs, tree) case None => Fail case Some(m) => Done(Object(m), tail)
  {
    hide ReadMembers, ReadValue, FieldsTree, SkipWs, IsBare, AllWs;
    FieldsTextAppend(fs, show, "}", tail);
    var body := FieldsText(fs, show, "}" + tail);
    assert "{" + FieldsText(fs, show, "}") + tail == "{" + body;
    StartsAtKey(fs, show, "}" + tail);
    ReadsObject(body);
    ReadsFields(fs, show, tree, tail);
  }

  lemma StartsAtKey<V>(fs: seq<Field<V>>, show: V -> string, tail: string)
    requires fs != [] && AllWs(fs[0].slot.pre)
    ensures StartsWith(SkipWs(FieldsText(fs, show, tail)), '"')
  {
    var a := fs[0].slot;
    var rest := if |fs| == 1 then tail else "," + FieldsText(fs[1..], show, tail);
    var t := KeyText(fs[0].key) + (a.mid + (show(fs[0].value) + (a.post + rest)));
    assert t[0] == '"';
    SkipsTo(a.pre, t);
  }

  lemma ReadsRootValue(v: RootValue)
    requires v.Name? ==> v.name in TYPE_NAMES
    requires v.Inner? ==> PayloadOk(v.payload)
    ensures ReadsAs(v, RootText, RootTree)
  {
    forall tail | Ends(tail) ensures ReadValue(RootText(v) + tail) == Read(RootTree(v), tail) {
      hide ReadValue, ReadMembers, FieldsTree, FieldsText, Clean, Meaning, StrText;
      match v
      case Name(name) =>
        NamesAreBare(name);
        ReadsString(Bare(name), tail);
      case Inner(p) =>
        forall k | 0 <= k < |Fields(p)|
          ensures IsBare(Fields(p)[k].key) && ReadsAs(Fields(p)[k].value, ValueText, ValueTree)
        {
          ReadsValue(Fields(p)[k].value);
          KeysAreBare(p, k);
        }
        ReadsFieldsObject(Fields(p), ValueText, ValueTree, tail);
    }
  }

  lemma NamesAreBare(name: string)
    requires name in TYPE_NAMES
    ensures StrOk(Bare(name)) && Clean(Bare(name)) && Meaning(Bare(name)) == name
    ensures RootText(Name(name)) == StrText(Bare(name))
  {
    hide StrOk, Clean, Meaning, Bare, IsBare, Body;
    TypeNamesAreBare();
    ActionNamesAreBare();
    BareReads(name);
  }

  lemma TypeNamesAreBare()
    ensures IsBare("System2Think") && IsBare("QueryMerovingian")
  {
  }

  lemma ActionNamesAreBare()
    ensures IsBare("InvokeSeraph") && IsBare("BroadcastSmith")
  {
  }

  lemma QueryKeysAreBare()
    ensures IsBare("internal_monologue") && IsBare("entity_node_id") && IsBare("relation_type")
  {
  }

  lemma InvokeKeysAreBare()
    ensures IsBare("target_wasm_module") && IsBare("target_function") && IsBare("arguments")
  {
  }

  lemma BroadcastKeysAreBare()
    ensures IsBare("target_agent_id") && IsBare("binary_payload")
  {
  }

  lemma RootKeysAreBare()
    ensures IsBare("intent_type") && IsBare("payload")
  {
  }

  lemma KeysAreBare(p: Payload, k: nat)
    requires k < |Fields(p)|
    ensures IsBare(Fields(p)[k].key)
  {
    hide IsBare;
    QueryKeysAreBare();
    InvokeKeysAreBare();
    BroadcastKeysAreBare();
  }

  /** The parser reads a frame's text to its tree, or refuses it. */
  lemma ParsesFrame(f: Frame)
    requires FrameOk(f)
    ensures Parse(TextOf(f))
         == match FieldsTree(RootFields(f), RootTree) case None => None case Some(m) => Some(Object(m))
  {
    hide ReadValue, FieldsText, FieldsTree, PayloadOk, RootTree, IsBare;
    var fs := RootFields(f);
    forall k | 0 <= k < |fs| ensures IsBare(fs[k].key) && ReadsAs(fs[k].value, RootText, RootTree) {
      RootKeysAreBare();
      ReadsRootValue(fs[k].value);
    }
    ReadsFieldsObject(fs, RootText, RootTree, "");
    assert TextOf(f) + "" == TextOf(f);
  }
}

/** The grammar derives a text if and only if it is the text of a frame; with the validator's verdict
    on frames, exactly which texts of the grammar are accepted. */
module FrameDerivation {
  import opened Common
  import opened JsonText
  import opened FrameText
  import opened Frames
  import opened Grammar
  import opened Derivation
  import opened FrameVerdict
  import opened Warden

  const COMMA := Lit(",")
  const CLOSE := Lit("}")

  // ---- Members ----

  lemma TakeHead(n: nat, key: string, g: Gbnf, rest: seq<Gbnf>, s: string)
    returns (pre: string, mid: string, v: string, tail: string)
    requires DerivesAll(n, Head(key, g) + rest, s)
    ensures n > 0 && AllWs(pre) && AllWs(mid) && Derives(n, g, v) && DerivesAll(n, rest, tail)
    ensures s == pre + (KeyText(key) + (mid + (v + tail)))
  {
    hide Derives, DerivesAll;
    var k := Lit(KeyText(key));
    assert Head(key, g) + rest == [WS] + ([k] + ([WS] + ([g] + rest)));
    var w, a := TakeOne(n, WS, [k] + ([WS] + ([g] + rest)), s);
    var q, b := TakeOne(n, k, [WS] + ([g] + rest), a);
    var x, c := TakeOne(n, WS, [g] + rest, b);
    v, tail := TakeOne(n, g, rest, c);
    WsIsRule(n, w);
    WsExactly(n, w);
    WsExactly(n, x);
    LitExactly(n, KeyText(key), q);
    pre, mid := w, x;
  }

  lemma WsIsRule(n: nat, s: string)
    requires Derives(n, WS, s)
    ensures n > 0
  {
    hide Derives;
    RefExactly(n, WsRule, s);
  }

  lemma PutHead(n: nat, key: string, g: Gbnf, rest: seq<Gbnf>, pre: string, mid: string, v: string, tail: string)
    requires n > 0 && AllWs(pre) && AllWs(mid) && Derives(n, g, v) && DerivesAll(n, rest, tail)
    ensures DerivesAll(n, Head(key, g) + rest, pre + (KeyText(key) + (mid + (v + tail))))
  {
    hide Derives, DerivesAll;
    var k := Lit(KeyText(key));
    LitExactly(n, KeyText(key), KeyText(key));
    WsExactly(n, pre);
    WsExactly(n, mid);
    PutOne(n, g, rest, v, tail);
    PutOne(n, WS, [g] + rest, mid, v + tail);
    PutOne(n, k, [WS] + ([g] + rest), KeyText(key), mid + (v + tail));
    PutOne(n, WS, [k] + ([WS] + ([g] + rest)), pre, KeyText(key) + (mid + (v + tail)));
    assert Head(key, g) + rest == [WS] + ([k] + ([WS] + ([g] + rest)));
  }

  /** What follows a member's value in the production. */
  function AfterMember(ms: seq<(string, Gbnf)>): seq<Gbnf>
    requires ms != []
  {
    if |ms| == 1 then [CLOSE] else [COMMA] + Members(ms[1..])
  }

  lemma {:induction false} TakeMembers(n: nat, ms: seq<(string, Gbnf)>, s: string) returns (fs: seq<Field<string>>)
    requires ms != [] && DerivesAll(n, Members(ms), s)
    ensures |fs| == |ms| && FieldsText(fs, Same, "}") == s
    ensures forall k | 0 <= k < |fs| :: fs[k].key == ms[k].0 && SlotOk(fs[k].slot) && Derives(n, ms[k].1, fs[k].value)
    decreases |ms|
  {
    hide Derives, DerivesAll, AllWs, KeyText;
    var after := AfterMember(ms);
    var pre, mid, v, t := TakeHead(n, ms[0].0, ms[0].1, [WS] + after, s);
    var post, u := TakeOne(n, WS, after, t);
    WsExactly(n, post);
    var f := Field(Slot(pre, mid, post), ms[0].0, v);
    if |ms| == 1 {
      assert [CLOSE] == [CLOSE] + [];
      var c, e := TakeOne(n, CLOSE, [], u);
      LitExactly(n, "}", c);
      EndExactly(n, e);
      fs := [f];
    } else {
      var c, w := TakeOne(n, COMMA, Members(ms[1..]), u);
      LitExactly(n, ",", c);
      var others := TakeMembers(n, ms[1..], w);
      fs := [f] + others;
      assert fs[1..] == others;
    }
  }

  lemma {:induction false} PutMembers(n: nat, ms: seq<(string, Gbnf)>, fs: seq<Field<string>>)
    requires n > 0 && ms != [] && |fs| == |ms|
    requires forall k | 0 <= k < |fs| :: fs[k].key == ms[k].0 && SlotOk(fs[k].slot) && Derives(n, ms[k].1, fs[k].value)
    ensures DerivesAll(n, Members(ms), FieldsText(fs, Same, "}"))
    decreases |ms|
  {
    hide Derives, DerivesAll, AllWs, KeyText;
    var after, f := AfterMember(ms), fs[0];
    var u := if |fs| == 1 then "}" else "," + FieldsText(fs[1..], Same, "}");
    if |ms| == 1 {
      LitEnds(n, "}");
      assert [CLOSE] + [] == [CLOSE];
    } else {
      PutMembers(n, ms[1..], fs[1..]);
      LitEnds(n, ",");
      PutOne(n, COMMA, Members(ms[1..]), ",", FieldsText(fs[1..], Same, "}"));
    }
    WsExactly(n, f.slot.post);
    PutOne(n, WS, after, f.slot.post, u);
    PutHead(n, f.key, ms[0].1, [WS] + after, f.slot.pre, f.slot.mid, f.value, f.slot.post + u);
  }

  /** Only what is shown matters to the text. */
  lemma {:induction false} SameTexts<A, B>(
    fs: seq<Field<A>>, show: A -> string, gs: seq<Field<B>>, display: B -> string, tail: string)
    requires |fs| == |gs|
    requires forall k | 0 <= k < |fs| ::
               && fs[k].slot == gs[k].slot && fs[k].key == gs[k].key
               && show(fs[k].value) == display(gs[k].value)
    ensures FieldsText(fs, show, tail) == FieldsText(gs, display, tail)
    decreases |fs|
  {
    if fs == [] {
    } else {
      SameTexts(fs[1..], show, gs[1..], display, tail);
    }
  }

  lemma {:induction false} ValuesAreShorter<V>(fs: seq<Field<V>>, show: V -> string, tail: string, k: nat)
    requires k < |fs|
    ensures |show(fs[k].value)| <= |FieldsText(fs, show, tail)|
    decreases |fs|
  {
    if k == 0 {
    } else {
      ValuesAreShorter(fs[1..], show, tail, k - 1);
    }
  }

  // ---- Payloads ----

  function RuleOf(p: Payload): Rule {
    match p
    case ThinkText(_, _) => ThinkRule
    case QueryText(_, _, _, _) => QueryRule
    case InvokeText(_, _, _, _, _, _, _, _) => InvokeRule
    case BroadcastText(_, _, _, _, _, _) => BroadcastRule
  }

  function MembersOf(rule: Rule): (ms: seq<(string, Gbnf)>)
    requires rule in {ThinkRule, QueryRule, InvokeRule, BroadcastRule}
    ensures ms != [] && Production(rule) == Seq([Lit("{")] + Members(ms))
  {
    match rule
    case ThinkRule => [("internal_monologue", STRING)]
    case QueryRule => [("entity_node_id", STRING), ("relation_type", STRING)]
    case InvokeRule => [("target_wasm_module", STRING), ("target_function", STRING), ("arguments", Ref(DictRule))]
    case BroadcastRule => [("target_agent_id", NUMBER), ("binary_payload", Ref(NumberArrayRule))]
  }

  lemma TakeBraced(n: nat, rule: Rule, s: string) returns (fs: seq<Field<string>>)
    requires rule in {ThinkRule, QueryRule, InvokeRule, BroadcastRule} && Derives(n, Ref(rule), s)
    ensures n > 0 && |fs| == |MembersOf(rule)| && s == "{" + FieldsText(fs, Same, "}")
    ensures forall k | 0 <= k < |fs| ::
              && fs[k].key == MembersOf(rule)[k].0 && SlotOk(fs[k].slot)
              && Derives(n - 1, MembersOf(rule)[k].1, fs[k].value)
  {
    hide Derives, DerivesAll, Members, FieldsText, AllWs;
    var ms := MembersOf(rule);
    RefExactly(n, rule, s);
    SeqExactly(n - 1, [Lit("{")] + Members(ms), s);
    var c, t := TakeOne(n - 1, Lit("{"), Members(ms), s);
    LitExactly(n - 1, "{", c);
    fs := TakeMembers(n - 1, ms, t);
  }

  lemma TakeThink(n: nat, s: string) returns (p: Payload)
    requires Derives(n, Ref(ThinkRule), s)
    ensures PayloadOk(p) && PayloadText(p) == s
  {
    hide Derives, FieldsText, AllWs, StrOk, StrText, AllDigits, ListOk, DictText, ArrayText;
    var fs := TakeBraced(n, ThinkRule, s);
    var m := TakeString(n - 1, fs[0].value);
    p := ThinkText(fs[0].slot, m);
    SameTexts(Fields(p), ValueText, fs, Same, "}");
  }

  lemma TakeQuery(n: nat, s: string) returns (p: Payload)
    requires Derives(n, Ref(QueryRule), s)
    ensures PayloadOk(p) && PayloadText(p) == s
  {
    hide Derives, FieldsText, AllWs, StrOk, StrText, AllDigits, ListOk, DictText, ArrayText;
    var fs := TakeBraced(n, QueryRule, s);
    var entity := TakeString(n - 1, fs[0].value);
    var relation := TakeString(n - 1, fs[1].value);
    p := QueryText(fs[0].slot, entity, fs[1].slot, relation);
    SameTexts(Fields(p), ValueText, fs, Same, "}");
  }

  lemma TakeInvoke(n: nat, s: string) returns (p: Payload)
    requires Derives(n, Ref(InvokeRule), s)
    ensures PayloadOk(p) && PayloadText(p) == s
  {
    hide Derives, FieldsText, AllWs, StrOk, StrText, AllDigits, ListOk, DictText, ArrayText;
    var fs := TakeBraced(n, InvokeRule, s);
    var module_ := TakeString(n - 1, fs[0].value);
    var function_ := TakeString(n - 1, fs[1].value);
    var d := TakeDict(n - 1, fs[2].value);
    p := InvokeText(fs[0].slot, module_, fs[1].slot, function_, fs[2].slot, d.open, d.pairs, d.close);
    SameTexts(Fields(p), ValueText, fs, Same, "}");
  }

  lemma TakeBroadcast(n: nat, s: string) returns (p: Payload)
    requires Derives(n, Ref(BroadcastRule), s)
    ensures PayloadOk(p) && PayloadText(p) == s
  {
    hide Derives, FieldsText, AllWs, StrOk, StrText, AllDigits, ListOk, DictText, ArrayText;
    var fs := TakeBraced(n, BroadcastRule, s);
    NumberIsDeep(n - 1, fs[0].value);
    NumberExactly(n - 1, fs[0].value);
    var v := TakeNumbers(n - 1, fs[1].value);
    p := BroadcastText(fs[0].slot, fs[0].value, fs[1].slot, v.open, v.items, v.close);
    SameTexts(Fields(p), ValueText, fs, Same, "}");
  }

  lemma NumberIsDeep(n: nat, s: string)
    requires Derives(n, NUMBER, s)
    ensures n > 0
  {
    hide Derives;
    RefExactly(n, NumberRule, s);
  }

  lemma TakePayload(n: nat, s: string) returns (p: Payload)
    requires Derives(n, Ref(PayloadRule), s)
    ensures PayloadOk(p) && PayloadText(p) == s
  {
    hide Derives, PayloadOk, PayloadText;
    var choices := Production(PayloadRule).choices;
    RefExactly(n, PayloadRule, s);
    var k := TakeAlt(n - 1, choices, s);
    match k
    case 0 => p := TakeThink(n - 1, s);
    case 1 => p := TakeQuery(n - 1, s);
    case 2 => p := TakeInvoke(n - 1, s);
    case _ => p := TakeBroadcast(n - 1, s);
  }

  function Raw(fs: seq<Field<Value>>): seq<Field<string>> {
    seq(|fs|, k requires 0 <= k < |fs| => Field(fs[k].slot, fs[k].key, ValueText(fs[k].value)))
  }

  lemma PutPayload(n: nat, p: Payload)
    requires PayloadOk(p) && n >= |PayloadText(p)| + 8
    ensures Derives(n, Ref(PayloadRule), PayloadText(p))
  {
    hide Derives, DerivesAll, FieldsText, AllWs, ValueOk, ValueText;
    var fs, ms := Fields(p), MembersOf(RuleOf(p));
    forall k | 0 <= k < |fs| ensures Derives(n - 2, SymbolOf(fs[k].value), ValueText(fs[k].value)) {
      ValuesAreShorter(fs, ValueText, "}", k);
      PutValue(n - 2, fs[k].value);
    }
    MembersFit(p);
    PutMembers(n - 2, ms, Raw(fs));
    SameTexts(fs, ValueText, Raw(fs), Same, "}");
    LitEnds(n - 2, "{");
    PutOne(n - 2, Lit("{"), Members(ms), "{", FieldsText(fs, ValueText, "}"));
    PutRule(n - 1, RuleOf(p), PayloadText(p));
  }

  lemma MembersFit(p: Payload)
    ensures |MembersOf(RuleOf(p))| == |Fields(p)|
    ensures forall k | 0 <= k < |Fields(p)| ::
              Fields(p)[k].key == MembersOf(RuleOf(p))[k].0 && SymbolOf(Fields(p)[k].value) == MembersOf(RuleOf(p))[k].1
  {
  }

  lemma PutRule(n: nat, rule: Rule, s: string)
    requires rule in {ThinkRule, QueryRule, InvokeRule, BroadcastRule}
    requires n > 0 && DerivesAll(n - 1, [Lit("{")] + Members(MembersOf(rule)), s)
    ensures Derives(n + 1, Ref(PayloadRule), s)
  {
    hide Derives, DerivesAll, Members;
    SeqExactly(n - 1, [Lit("{")] + Members(MembersOf(rule)), s);
    RefExactly(n, rule, s);
    var choices := Production(PayloadRule).choices;
    var k := match rule case ThinkRule => 0 case QueryRule => 1 case InvokeRule => 2 case _ => 3;
    assert choices[k] == Ref(rule);
    PutAlt(n, choices, k, s);
    RefExactly(n + 1, PayloadRule, s);
  }

  // ---- Frames ----

  const NAMES := ["System2Think", "QueryMerovingian", "InvokeSeraph", "BroadcastSmith"]

  lemma NameAt(t: string) returns (k: nat)
    requires t in TYPE_NAMES
    ensures k < |NAMES| && NAMES[k] == t
  {
    k := if t == "System2Think" then 0 else if t == "QueryMerovingian" then 1 else if t == "InvokeSeraph" then 2 else 3;
  }

  lemma NamesExactly(n: nat, s: string)
    requires n > 0
    ensures Derives(n, Ref(IntentTypeRule), s) <==> exists t :: t in TYPE_NAMES && s == Quoted(t)
  {
    hide Quoted, Derives;
    var choices := Production(IntentTypeRule).choices;
    RefExactly(n, IntentTypeRule, s);
    assert |choices| == |NAMES|;
    assert forall k | 0 <= k < |NAMES| :: choices[k] == Lit(Quoted(NAMES[k])) && NAMES[k] in TYPE_NAMES;
    if Derives(n, Ref(IntentTypeRule), s) {
      var k := TakeAlt(n - 1, choices, s);
      LitExactly(n - 1, Quoted(NAMES[k]), s);
    }
    if t :| t in TYPE_NAMES && s == Quoted(t) {
      var k := NameAt(t);
      LitExactly(n - 1, s, s);
      PutAlt(n - 1, choices, k, s);
    }
  }

  lemma TakeFrame(n: nat, s: string) returns (f: Frame)
    requires Derives(n, Ref(RootRule), s)
    ensures FrameOk(f) && TextOf(f) == s
  {
    hide Derives, DerivesAll, AllWs, PayloadOk, PayloadText, KeyText, Quoted, Head, TextOf;
    var m := RootIsDeep(n, s);
    var second := Head("payload", Ref(PayloadRule)) + [CLOSE];
    var brace, s0 := TakeOne(m, Lit("{"), Head("intent_type", Ref(IntentTypeRule)) + ([COMMA] + second), s);
    var pre, mid, name, s1 := TakeHead(m, "intent_type", Ref(IntentTypeRule), [COMMA] + second, s0);
    var comma, s2 := TakeOne(m, COMMA, second, s1);
    var pre', mid', body, s3 := TakeHead(m, "payload", Ref(PayloadRule), [CLOSE], s2);
    assert [CLOSE] == [CLOSE] + [];
    var end, e := TakeOne(m, CLOSE, [], s3);
    LitExactly(m, "{", brace);
    LitExactly(m, ",", comma);
    LitExactly(m, "}", end);
    EndExactly(m, e);
    NamesExactly(m, name);
    var t :| t in TYPE_NAMES && name == Quoted(t);
    var p := TakePayload(m, body);
    f := Frame(Slot(pre, mid, ""), t, Slot(pre', mid', ""), p);
    NoWs();
    FrameLayout(f);
  }

  lemma NoWs()
    ensures AllWs("")
  {
  }

  lemma RootIsDeep(n: nat, s: string) returns (m: nat)
    requires Derives(n, Ref(RootRule), s)
    ensures n == m + 1
    ensures DerivesAll(m, [Lit("{")] + (Head("intent_type", Ref(IntentTypeRule)) + ([COMMA]
                          + (Head("payload", Ref(PayloadRule)) + [CLOSE]))), s)
  {
    hide Head, Derives, DerivesAll;
    RefExactly(n, RootRule, s);
    m := n - 1;
    SeqExactly(m, Production(RootRule).parts, s);
  }

  /** The text of a frame, piece by piece. */
  lemma FrameLayout(f: Frame)
    requires f.a.post == "" && f.b.post == ""
    ensures TextOf(f) == "{" + (f.a.pre + (KeyText("intent_type") + (f.a.mid + (Quoted(f.typeName) + ("," + (f.b.pre
                         + (KeyText("payload") + (f.b.mid + (PayloadText(f.payload) + "}")))))))))
  {
    hide PayloadText, KeyText;
    var fs := RootFields(f);
    assert FieldsText(fs[1..], RootText, "}") == MemberText(f.b, "payload", PayloadText(f.payload), "}");
    assert "" + "}" == "}";
    var rest := "," + FieldsText(fs[1..], RootText, "}");
    assert "" + rest == rest;
  }

  lemma PutFrame(n: nat, f: Frame)
    requires FrameOk(f) && n >= |TextOf(f)| + 9
    ensures Derives(n, Ref(RootRule), TextOf(f))
  {
    hide Derives, DerivesAll, AllWs, PayloadOk, PayloadText, KeyText, TextOf, Quoted, Head;
    FrameLayout(f);
    var m := n - 1;
    var name, body := Quoted(f.typeName), PayloadText(f.payload);
    NamesExactly(m, name);
    assert |TextOf(f)| >= |body|;
    PutPayload(m, f.payload);
    LitEnds(m, "}");
    assert [CLOSE] + [] == [CLOSE];
    LitEnds(m, ",");
    LitEnds(m, "{");
    var second := Head("payload", Ref(PayloadRule)) + [CLOSE];
    PutHead(m, "payload", Ref(PayloadRule), [CLOSE], f.b.pre, f.b.mid, body, "}");
    var s2 := f.b.pre + (KeyText("payload") + (f.b.mid + (body + "}")));
    PutOne(m, COMMA, second, ",", s2);
    PutHead(m, "intent_type", Ref(IntentTypeRule), [COMMA] + second, f.a.pre, f.a.mid, name, "," + s2);
    var s1 := f.a.pre + (KeyText("intent_type") + (f.a.mid + (name + ("," + s2))));
    PutOne(m, Lit("{"), Head("intent_type", Ref(IntentTypeRule)) + ([COMMA] + second), "{", s1);
    PutRoot(m, TextOf(f));
  }

  lemma PutRoot(m: nat, s: string)
    requires DerivesAll(m, [Lit("{")] + (Head("intent_type", Ref(IntentTypeRule)) + ([COMMA]
                           + (Head("payload", Ref(PayloadRule)) + [CLOSE]))), s)
    ensures Derives(m + 1, Ref(RootRule), s)
  {
    hide Head, Derives, DerivesAll;
    SeqExactly(m, Production(RootRule).parts, s);
    RefExactly(m + 1, RootRule, s);
  }

  /** The texts of the grammar are the texts of frames. */
  lemma DerivableExactly(s: string)
    ensures Derivable(s) <==> exists f :: FrameOk(f) && TextOf(f) == s
  {
    hide Derives, TextOf, FrameOk;
    if Derivable(s) {
      var n: nat :| Derives(n, Ref(RootRule), s);
      var f := TakeFrame(n, s);
    }
    if f :| FrameOk(f) && TextOf(f) == s {
      PutFrame(|s| + 9, f);
    }
  }

  /** No whitespace stands between the type's name and the comma, or between the last two braces. */
  lemma RootIsTight(s: string) returns (pre: string, mid: string, name: string, rest: string)
    requires Derivable(s)
    ensures AllWs(pre) && AllWs(mid) && name in TYPE_NAMES
    ensures s == "{" + (pre + (KeyText("intent_type") + (mid + (Quoted(name) + ("," + rest)))))
    ensures |s| >= 2 && s[|s| - 2..] == "}}" && s[0] == '{'
  {
    hide Derivable, AllWs, TextOf, KeyText, Quoted, PayloadText;
    DerivableExactly(s);
    var f :| FrameOk(f) && TextOf(f) == s;
    FrameLayout(f);
    pre, mid, name := f.a.pre, f.a.mid, f.typeName;
    var tail := PayloadText(f.payload) + "}";
    rest := f.b.pre + (KeyText("payload") + (f.b.mid + tail));
    PayloadCloses(f.payload);
    assert tail[|tail| - 2..] == "}}";
    var inner := f.b.pre + (KeyText("payload") + f.b.mid);
    EndsWithTail("{" + (pre + (KeyText("intent_type") + (mid + (Quoted(name) + ("," + inner))))), tail, s);
  }

  lemma EndsWithTail(head: string, tail: string, s: string)
    requires s == head + tail && |tail| >= 2
    ensures |s| >= 2 && s[|s| - 2..] == tail[|tail| - 2..]
  {
  }

  lemma PayloadCloses(p: Payload)
    ensures PayloadText(p) != "" && PayloadText(p)[|PayloadText(p)| - 1] == '}'
  {
    hide ValueText;
    var fs := Fields(p);
    FieldsTextAppend(fs, ValueText, "", "}");
    var head := FieldsText(fs, ValueText, "");
    assert "" + "}" == "}";
    assert PayloadText(p) == "{" + (head + "}");
  }

  /** The validator on the texts of the grammar: the verdict on the frame written there, which is
      never UnauthorizedIntent. */
  lemma DerivableIsJudged(s: string) returns (f: Frame)
    requires Derivable(s)
    ensures FrameOk(f) && TextOf(f) == s && Deserialize(s) == Verdict(f)
    ensures Deserialize(s) != Err(UnauthorizedIntent)
  {
    DerivableExactly(s);
    f :| FrameOk(f) && TextOf(f) == s;
    FrameIsJudged(f);
  }
}

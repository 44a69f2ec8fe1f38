/** The GBNF grammar that constrains the model: its productions as data, and what it means for a rule
    to derive a text. */
module Grammar {
  import opened JsonText

  datatype Rule =
    | RootRule | WsRule | StringRule | CharsRule | CharRule | EscapeRule | NumberRule | NumberArrayRule
    | DictRule | IntentTypeRule | PayloadRule | ThinkRule | QueryRule | InvokeRule | BroadcastRule

  datatype Gbnf =
    | Lit(text: string)
    | Class(member: char -> bool)
    | Seq(parts: seq<Gbnf>)
    | Alt(choices: seq<Gbnf>)
    | Star(body: Gbnf)
    | Opt(body: Gbnf)
    | Ref(rule: Rule)

  const WS := Ref(WsRule)
  const STRING := Ref(StringRule)
  const NUMBER := Ref(NumberRule)

  function Plus(g: Gbnf): Gbnf { Seq([g, Star(g)]) }

  function KeyText(key: string): string { "\"" + key + "\":" }

  function Quoted(name: string): string { "\"" + (name + "\"") }

  predicate IsStringChar(c: char) { c != '"' && c != '\\' }

  /** The right-hand sides, rule by rule. */
  function Production(rule: Rule): Gbnf {
    match rule
    case RootRule => Seq([Lit("{")] + (Head("intent_type", Ref(IntentTypeRule)) + ([Lit(",")]
                         + (Head("payload", Ref(PayloadRule)) + [Lit("}")]))))
    case WsRule => Star(Class(IsWs))
    case StringRule => Seq([Lit("\""), Ref(CharsRule), Lit("\"")])
    case CharsRule => Alt([Lit(""), Seq([Ref(CharRule), Ref(CharsRule)])])
    case CharRule => Alt([Class(IsStringChar), Seq([Lit("\\"), Ref(EscapeRule)])])
    case EscapeRule => Alt([Lit("\""), Lit("\\"), Lit("/"), Lit("b"), Lit("f"), Lit("n"), Lit("r"), Lit("t")])
    case NumberRule => Plus(Class(IsDigit))
    case NumberArrayRule => Seq([Lit("["), WS, ListOf(NUMBER), WS, Lit("]")])
    case DictRule => Seq([Lit("{"), WS, ListOf(PAIR), WS, Lit("}")])
    case IntentTypeRule => Alt([Lit(Quoted("System2Think")), Lit(Quoted("QueryMerovingian")),
                                Lit(Quoted("InvokeSeraph")), Lit(Quoted("BroadcastSmith"))])
    case PayloadRule => Alt([Ref(ThinkRule), Ref(QueryRule), Ref(InvokeRule), Ref(BroadcastRule)])
    case ThinkRule => Seq([Lit("{")] + Members([("internal_monologue", STRING)]))
    case QueryRule => Seq([Lit("{")] + Members([("entity_node_id", STRING), ("relation_type", STRING)]))
    case InvokeRule => Seq([Lit("{")] + Members([("target_wasm_module", STRING), ("target_function", STRING),
                                                 ("arguments", Ref(DictRule))]))
    case BroadcastRule => Seq([Lit("{")] + Members([("target_agent_id", NUMBER),
                                                    ("binary_payload", Ref(NumberArrayRule))]))
  }

  const PAIR := Seq([STRING, WS, Lit(":"), WS, STRING])

  /** ( item (ws "," ws item)* )? */
  function ListOf(item: Gbnf): Gbnf { Opt(Seq([item, Star(Seq(Another(item)))])) }

  function Another(item: Gbnf): seq<Gbnf> { [WS, Lit(","), WS, item] }

  /** A key, its colon and its value, with whitespace before the key and before the value. */
  function Head(key: string, value: Gbnf): seq<Gbnf> { [WS, Lit(KeyText(key)), WS, value] }

  /** The members of an object, each with whitespace after it, and the closing brace. */
  function Members(ms: seq<(string, Gbnf)>): seq<Gbnf>
    requires ms != []
  {
    Head(ms[0].0, ms[0].1) + ([WS] + (if |ms| == 1 then [Lit("}")] else [Lit(",")] + Members(ms[1..])))
  }

  /** g derives s, with at most n rules open inside one another. */
  ghost predicate Derives(n: nat, g: Gbnf, s: string)
    decreases n, g, |s|
  {
    match g
    case Lit(text) => s == text
    case Class(member) => |s| == 1 && member(s[0])
    case Seq(parts) => DerivesAll(n, parts, s)
    case Alt(choices) => exists k :: 0 <= k < |choices| && Derives(n, choices[k], s)
    case Star(body) => s == "" || exists i :: 0 < i <= |s| && Derives(n, body, s[..i]) && Derives(n, g, s[i..])
    case Opt(body) => s == "" || Derives(n, body, s)
    case Ref(rule) => n > 0 && Derives(n - 1, Production(rule), s)
  }

  ghost predicate DerivesAll(n: nat, parts: seq<Gbnf>, s: string)
    decreases n, parts, |s|
  {
    if parts == [] then s == "" else
      exists i :: 0 <= i <= |s| && Derives(n, parts[0], s[..i]) && DerivesAll(n, parts[1..], s[i..])
  }

  /** The texts of the grammar. */
  ghost predicate Derivable(s: string) { exists n: nat :: Derives(n, Ref(RootRule), s) }

  // ---- Taking derivations apart and putting them together ----

  lemma RefExactly(n: nat, rule: Rule, s: string)
    ensures Derives(n, Ref(rule), s) <==> n > 0 && Derives(n - 1, Production(rule), s)
  {
    hide Production;
  }

  lemma SeqExactly(n: nat, parts: seq<Gbnf>, s: string)
    ensures Derives(n, Seq(parts), s) <==> DerivesAll(n, parts, s)
  {
    hide DerivesAll;
  }

  lemma LitExactly(n: nat, text: string, s: string)
    ensures Derives(n, Lit(text), s) <==> s == text
  {
  }

  lemma TakeAlt(n: nat, choices: seq<Gbnf>, s: string) returns (k: nat)
    requires Derives(n, Alt(choices), s)
    ensures k < |choices| && Derives(n, choices[k], s)
  {
    k :| 0 <= k < |choices| && Derives(n, choices[k], s);
  }

  lemma PutAlt(n: nat, choices: seq<Gbnf>, k: nat, s: string)
    requires k < |choices| && Derives(n, choices[k], s)
    ensures Derives(n, Alt(choices), s)
  {
  }

  lemma ClassExactly(n: nat, member: char -> bool, s: string)
    ensures Derives(n, Class(member), s) <==> |s| == 1 && member(s[0])
  {
  }

  lemma EndExactly(n: nat, s: string)
    ensures DerivesAll(n, [], s) <==> s == ""
  {
  }

  lemma TakeOne(n: nat, g: Gbnf, rest: seq<Gbnf>, s: string) returns (head: string, tail: string)
    requires DerivesAll(n, [g] + rest, s)
    ensures s == head + tail && Derives(n, g, head) && DerivesAll(n, rest, tail)
  {
    hide Derives;
    var parts := [g] + rest;
    assert parts[0] == g && parts[1..] == rest;
    var i :| 0 <= i <= |s| && Derives(n, parts[0], s[..i]) && DerivesAll(n, parts[1..], s[i..]);
    head, tail := s[..i], s[i..];
  }

  lemma PutOne(n: nat, g: Gbnf, rest: seq<Gbnf>, head: string, tail: string)
    requires Derives(n, g, head) && DerivesAll(n, rest, tail)
    ensures DerivesAll(n, [g] + rest, head + tail)
  {
    hide Derives;
    var parts, s := [g] + rest, head + tail;
    assert parts[0] == g && parts[1..] == rest;
    assert s[..|head|] == head && s[|head|..] == tail;
  }

  lemma {:induction false} TakeClass(n: nat, member: char -> bool, s: string)
    requires Derives(n, Star(Class(member)), s)
    ensures forall c | c in s :: member(c)
    decreases |s|
  {
    if s == "" {
    } else {
      var i :| 0 < i <= |s| && Derives(n, Class(member), s[..i]) && Derives(n, Star(Class(member)), s[i..]);
      TakeClass(n, member, s[i..]);
      assert s == s[..i] + s[i..];
    }
  }

  lemma {:induction false} PutClass(n: nat, member: char -> bool, s: string)
    requires forall c | c in s :: member(c)
    ensures Derives(n, Star(Class(member)), s)
    decreases |s|
  {
    if s == "" {
    } else {
      PutClass(n, member, s[1..]);
      assert s[..1] == [s[0]];
      assert Derives(n, Class(member), s[..1]);
    }
  }

  lemma WsExactly(n: nat, s: string)
    requires n > 0
    ensures Derives(n, WS, s) <==> AllWs(s)
  {
    hide Derives;
    RefExactly(n, WsRule, s);
    if Derives(n, WS, s) { TakeClass(n - 1, IsWs, s); }
    if AllWs(s) { PutClass(n - 1, IsWs, s); }
  }

  /** A number is any non-empty run of digits. */
  lemma NumberExactly(n: nat, s: string)
    requires n > 0
    ensures Derives(n, NUMBER, s) <==> AllDigits(s) && s != ""
  {
    var digit, more := Class(IsDigit), Star(Class(IsDigit));
    hide Derives, DerivesAll;
    assert [digit] + ([more] + []) == [digit, more];
    RefExactly(n, NumberRule, s);
    SeqExactly(n - 1, [digit, more], s);
    if Derives(n, NUMBER, s) { TakeDigits(n - 1, s); }
    if AllDigits(s) && s != "" {
      PutClass(n - 1, IsDigit, s[1..]);
      ClassExactly(n - 1, IsDigit, [s[0]]);
      EndExactly(n - 1, "");
      PutOne(n - 1, more, [], s[1..], "");
      PutOne(n - 1, digit, [more] + [], [s[0]], s[1..] + "");
      assert s == [s[0]] + (s[1..] + "");
    }
  }

  lemma TakeDigits(n: nat, s: string)
    requires DerivesAll(n, [Class(IsDigit)] + ([Star(Class(IsDigit))] + []), s)
    ensures AllDigits(s) && s != ""
  {
    var digit, more := Class(IsDigit), Star(Class(IsDigit));
    hide Derives, DerivesAll;
    var first, t := TakeOne(n, digit, [more] + [], s);
    var others, e := TakeOne(n, more, [], t);
    ClassExactly(n, IsDigit, first);
    EndExactly(n, e);
    TakeClass(n, IsDigit, others);
    assert s == first + others;
  }
}

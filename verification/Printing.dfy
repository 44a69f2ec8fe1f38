/** Writing an intent out as the compact text of the grammar, and reading it back. */
module Printing {
  import opened Common
  import opened Fips180
  import opened Json
  import opened JsonText
  import opened FrameText
  import opened Frames
  import opened Grammar
  import opened FrameVerdict
  import opened FrameDerivation
  import opened Warden

  // ---- Strings ----

  /** Printable as it is or by a two-character escape. */
  predicate IsWritableChar(c: char) { !IsControl(c) || c in {8 as char, 9 as char, 10 as char, 12 as char, 13 as char} }

  predicate IsWritable(s: string) { forall k | 0 <= k < |s| :: IsWritableChar(s[k]) }

  function PrintChar(c: char): string
    requires IsWritableChar(c)
  {
    if c == '"' || c == '\\' then ['\\', c]
    else if c == 8 as char then "\\b"
    else if c == 9 as char then "\\t"
    else if c == 10 as char then "\\n"
    else if c == 12 as char then "\\f"
    else if c == 13 as char then "\\r"
    else [c]
  }

  function PrintChars(s: string): string
    requires IsWritable(s)
  {
    if s == "" then "" else PrintChar(s[0]) + PrintChars(s[1..])
  }

  function PrintString(s: string): string
    requires IsWritable(s)
  {
    Quoted(PrintChars(s))
  }

  function Token(c: char): (t: Tok)
    requires IsWritableChar(c)
    ensures TokText(t) == PrintChar(c) && TokOk(t) && TokMeaning(t) == c && (t.Plain? ==> !IsControl(t.c))
  {
    var text := PrintChar(c);
    if |text| == 1 then Plain(c) else Escaped(text[1])
  }

  function Tokens(s: string): Str
    requires IsWritable(s)
  {
    seq(|s|, k requires 0 <= k < |s| => Token(s[k]))
  }

  lemma TokensMean(s: string)
    requires IsWritable(s)
    ensures StrOk(Tokens(s)) && Clean(Tokens(s)) && Meaning(Tokens(s)) == s && StrText(Tokens(s)) == PrintString(s)
  {
    hide TokOk;
    forall t | t in Tokens(s) ensures TokOk(t) && (t.Plain? ==> !IsControl(t.c)) {
      var k :| 0 <= k < |s| && t == Token(s[k]);
    }
    assert Meaning(Tokens(s)) == s;
    TokensBody(s);
  }

  lemma {:induction false} TokensBody(s: string)
    requires IsWritable(s)
    ensures Body(Tokens(s)) == PrintChars(s)
  {
    if s == "" {
    } else {
      assert Tokens(s)[1..] == Tokens(s[1..]);
      TokensBody(s[1..]);
    }
  }

  /** What a string with no bare control character means can be written with the short escapes. */
  lemma MeaningIsWritable(t: Str)
    requires StrOk(t) && Clean(t)
    ensures IsWritable(Meaning(t))
  {
    forall k | 0 <= k < |t| ensures IsWritableChar(Meaning(t)[k]) { assert t[k] in t; }
  }

  // ---- Numbers ----

  function PrintDigit(n: nat): (c: char)
    requires n < 10
    ensures IsDigit(c) && DigitValue(c) == n && (c == '0' ==> n == 0)
  {
    '0' + n as char
  }

  function PrintNumber(n: nat): string {
    if n < 10 then [PrintDigit(n)] else PrintNumber(n / 10) + [PrintDigit(n % 10)]
  }

  lemma {:induction false} NumberReads(n: nat)
    ensures IsWhole(PrintNumber(n)) && Decimal(PrintNumber(n)) == n
    ensures n < 0x1_0000_0000_0000_0000 ==> IsNumeral(PrintNumber(n))
    ensures n > 0 ==> PrintNumber(n)[0] != '0'
  {
    hide Overflows;
    var d := PrintNumber(n);
    if n < 0x1_0000_0000_0000_0000 { IntegersFit(n); }
    if n < 10 {
      assert d == [PrintDigit(n)] && d[..0] == "";
      assert Decimal("") == 0;
    } else {
      NumberReads(n / 10);
      assert d[..|d| - 1] == PrintNumber(n / 10);
    }
  }

  // ---- Intents ----

  predicate Expressible(i: Intent) {
    match i
    case System2Think(monologue) => IsWritable(monologue)
    case QueryMerovingian(entity, relation) => IsWritable(entity) && IsWritable(relation)
    case InvokeSeraph(module_, function_, arguments) =>
      IsWritable(module_) && IsWritable(function_) && MapIsWritable(arguments)
    case BroadcastSmith(_, _) => true
  }

  predicate MapIsWritable(m: map<string, string>) { forall k | k in m :: IsWritable(k) && IsWritable(m[k]) }

  /** The keys of a map, in the order they are to be written. */
  predicate Lists(order: seq<string>, m: map<string, string>) {
    && (forall k | k in order :: k in m) && (forall k | k in m :: k in order)
    && forall a, b | 0 <= a < b < |order| :: order[a] != order[b]
  }

  function PrintPairs(m: map<string, string>, order: seq<string>): string
    requires MapIsWritable(m) && forall k | k in order :: k in m
  {
    if order == [] then "" else
      var more := if |order| == 1 then "" else "," + PrintPairs(m, order[1..]);
      PrintString(order[0]) + (":" + (PrintString(m[order[0]]) + more))
  }

  function PrintBytes(bytes: seq<Byte>): string {
    if bytes == [] then "" else
      PrintNumber(bytes[0] as nat) + (if |bytes| == 1 then "" else "," + PrintBytes(bytes[1..]))
  }

  function PrintMember(key: string, value: string): string { KeyText(key) + value }

  function PrintPayload(i: Intent, order: seq<string>): string
    requires Expressible(i) && (i.InvokeSeraph? ==> Lists(order, i.arguments))
  {
    match i
    case System2Think(monologue) => PrintMember("internal_monologue", PrintString(monologue))
    case QueryMerovingian(entity, relation) =>
      PrintMember("entity_node_id", PrintString(entity)) + ("," + PrintMember("relation_type", PrintString(relation)))
    case InvokeSeraph(module_, function_, arguments) =>
      var dict := "{" + (PrintPairs(arguments, order) + "}");
      PrintMember("target_wasm_module", PrintString(module_))
        + ("," + (PrintMember("target_function", PrintString(function_)) + ("," + PrintMember("arguments", dict))))
    case BroadcastSmith(agent, bytes) =>
      var array_ := "[" + (PrintBytes(bytes) + "]");
      PrintMember("target_agent_id", PrintNumber(agent)) + ("," + PrintMember("binary_payload", array_))
  }

  /** The canonical compact text of an intent. */
  function Print(i: Intent, order: seq<string>): string
    requires Expressible(i) && (i.InvokeSeraph? ==> Lists(order, i.arguments))
  {
    var payload := "{" + (PrintPayload(i, order) + "}");
    "{" + (PrintMember("intent_type", Quoted(TypeName(i))) + ("," + (PrintMember("payload", payload) + "}")))
  }

  // ---- The frame behind the text ----

  const TIGHT := Slot("", "", "")

  function ListOfAll<T>(items: seq<T>): List<T> {
    if items == [] then NoItems else
      Items(items[0], seq(|items| - 1, k requires 0 <= k < |items| - 1 => Sep("", "", items[k + 1])))
  }

  function PairFor(m: map<string, string>, key: string): Pair
    requires MapIsWritable(m) && key in m
  {
    Pair(Tokens(key), "", "", Tokens(m[key]))
  }

  function PairsFor(m: map<string, string>, order: seq<string>): seq<Pair>
    requires MapIsWritable(m) && forall k | k in order :: k in m
  {
    seq(|order|, k requires 0 <= k < |order| => PairFor(m, order[k]))
  }

  function Numerals(bytes: seq<Byte>): seq<string> {
    seq(|bytes|, k requires 0 <= k < |bytes| => PrintNumber(bytes[k] as nat))
  }

  function PayloadFor(i: Intent, order: seq<string>): Payload
    requires Expressible(i) && (i.InvokeSeraph? ==> Lists(order, i.arguments))
  {
    match i
    case System2Think(monologue) => ThinkText(TIGHT, Tokens(monologue))
    case QueryMerovingian(entity, relation) => QueryText(TIGHT, Tokens(entity), TIGHT, Tokens(relation))
    case InvokeSeraph(module_, function_, arguments) =>
      InvokeText(TIGHT, Tokens(module_), TIGHT, Tokens(function_), TIGHT, "", ListOfAll(PairsFor(arguments, order)), "")
    case BroadcastSmith(agent, bytes) =>
      BroadcastText(TIGHT, PrintNumber(agent), TIGHT, "", ListOfAll(Numerals(bytes)), "")
  }

  function FrameFor(i: Intent, order: seq<string>): Frame
    requires Expressible(i) && (i.InvokeSeraph? ==> Lists(order, i.arguments))
  {
    Frame(TIGHT, TypeName(i), TIGHT, PayloadFor(i, order))
  }

  // ---- It is a frame, and it writes the intent ----

  lemma PairsMean(m: map<string, string>, order: seq<string>)
    requires MapIsWritable(m) && forall k | k in order :: k in m
    ensures PairsOk(PairsFor(m, order)) && PairsClean(PairsFor(m, order))
    ensures PairsOf(ListOfAll(PairsFor(m, order))) == PairsFor(m, order)
    ensures ListOk(ListOfAll(PairsFor(m, order)), PairOk)
  {
    hide IsWritable, StrOk, Clean, Meaning, StrText, Tokens;
    forall k | 0 <= k < |order|
      ensures PairOk(PairsFor(m, order)[k]) && Clean(PairsFor(m, order)[k].key) && Clean(PairsFor(m, order)[k].value)
    {
      TokensMean(order[k]);
      TokensMean(m[order[k]]);
      NoWs();
    }
  }

  lemma {:induction false} PairsWrite(m: map<string, string>, order: seq<string>)
    requires MapIsWritable(m) && forall k | k in order :: k in m
    ensures PairsOk(PairsFor(m, order)) && Dictionary(PairsFor(m, order)) == map k | k in order :: m[k]
  {
    hide IsWritable, StrOk, Clean, Meaning, StrText, Tokens, PairOk, PairsOk, PairsClean, Dictionary;
    PairsMean(m, order);
    NoPairs();
    if order == [] {
      assert PairsFor(m, order) == [];
    } else {
      var first, others := PairFor(m, order[0]), PairsFor(m, order[1..]);
      PairsWrite(m, order[1..]);
      TokensMean(order[0]);
      TokensMean(m[order[0]]);
      assert PairsFor(m, order) == [first] + others;
      PairsCons(first, others);
      assert order == [order[0]] + order[1..];
    }
  }

  lemma ListOfAllOk(items: seq<string>)
    requires forall k | 0 <= k < |items| :: DigitsOk(items[k])
    ensures Digits(ListOfAll(items)) == items && ListOk(ListOfAll(items), DigitsOk)
  {
    hide AllDigits, DigitsOk;
    NoWs();
  }

  lemma NumeralsMean(bytes: seq<Byte>)
    ensures AllByteNumerals(Numerals(bytes)) && BytesWritten(Numerals(bytes)) == bytes
    ensures Digits(ListOfAll(Numerals(bytes))) == Numerals(bytes) && ListOk(ListOfAll(Numerals(bytes)), DigitsOk)
  {
    hide Decimal, PrintNumber, AllDigits, Overflows, ListOfAll, ListOk, Digits;
    forall k | 0 <= k < |bytes|
      ensures IsByteNumeral(Numerals(bytes)[k]) && Decimal(Numerals(bytes)[k]) == bytes[k] as nat
    {
      NumberReads(bytes[k] as nat);
    }
    ListOfAllOk(Numerals(bytes));
  }

  lemma FrameIsOk(i: Intent, order: seq<string>)
    requires Expressible(i) && (i.InvokeSeraph? ==> Lists(order, i.arguments))
    ensures FrameOk(FrameFor(i, order)) && Written(PayloadFor(i, order)) == Some(i)
  {
    hide IsWritable, StrOk, Clean, Meaning, StrText, Tokens, AllWs, Decimal, PrintNumber, AllDigits, ListOfAll;
    hide Dictionary, ListOk, PairsClean, AllByteNumerals, BytesWritten, PairsOf, Digits, PairsOk;
    NoWs();
    match i
    case System2Think(monologue) => TokensMean(monologue);
    case QueryMerovingian(entity, relation) =>
      TokensMean(entity);
      TokensMean(relation);
    case InvokeSeraph(module_, function_, arguments) =>
      TokensMean(module_);
      TokensMean(function_);
      PairsMean(arguments, order);
      PairsWrite(arguments, order);
      assert (map k | k in order :: arguments[k]) == arguments;
    case BroadcastSmith(agent, bytes) =>
      NumberReads(agent);
      NumeralsMean(bytes);
  }

  // ---- Its text is the printed one ----

  lemma {:induction false} PairsPrint(m: map<string, string>, order: seq<string>)
    requires MapIsWritable(m) && forall k | k in order :: k in m
    ensures ListText(ListOfAll(PairsFor(m, order)), ShowPair) == PrintPairs(m, order)
  {
    hide IsWritable, StrOk, StrText, PrintString, Tokens, PairText;
    if order == [] {
    } else {
      TokensMean(order[0]);
      TokensMean(m[order[0]]);
      var ps, rest := PairsFor(m, order), order[1..];
      assert ps[1..] == PairsFor(m, rest);
      PairsPrint(m, rest);
      TightList(ps, ShowPair);
      TightPair(m, order[0], if rest == [] then "" else "," + PrintPairs(m, rest));
    }
  }

  lemma TightPair(m: map<string, string>, key: string, more: string)
    requires MapIsWritable(m) && key in m
    ensures ShowPair(PairFor(m, key)) + more == PrintString(key) + (":" + (PrintString(m[key]) + more))
  {
    hide IsWritable, StrOk, StrText, PrintString, Tokens;
    TokensMean(key);
    TokensMean(m[key]);
    var v := PrintString(m[key]);
    assert "" + v == v;
    assert "" + (":" + v) == ":" + v;
  }

  lemma TightList<T>(items: seq<T>, show: T -> string)
    requires items != []
    ensures ListText(ListOfAll(items), show)
         == show(items[0]) + (if |items| == 1 then "" else "," + ListText(ListOfAll(items[1..]), show))
  {
    if |items| > 1 {
      var rest := ListOfAll(items).rest;
      assert rest[1..] == ListOfAll(items[1..]).rest;
      var t := show(rest[0].item) + SepsText(rest[1..], show);
      assert "" + t == t;
      assert "" + ("," + t) == "," + t;
    }
  }

  lemma {:induction false} BytesPrint(bytes: seq<Byte>)
    ensures ListText(ListOfAll(Numerals(bytes)), Same) == PrintBytes(bytes)
  {
    if bytes == [] {
    } else {
      assert Numerals(bytes)[1..] == Numerals(bytes[1..]);
      BytesPrint(bytes[1..]);
      TightList(Numerals(bytes), Same);
    }
  }

  lemma TightMember(key: string, value: string, tail: string)
    ensures MemberText(TIGHT, key, value, tail) == PrintMember(key, value) + tail
  {
    hide KeyText;
    assert "" + tail == tail;
    var t := value + tail;
    assert "" + t == t;
    assert "" + (KeyText(key) + t) == KeyText(key) + t;
  }

  lemma PayloadPrints(i: Intent, order: seq<string>)
    requires Expressible(i) && (i.InvokeSeraph? ==> Lists(order, i.arguments))
    ensures PayloadText(PayloadFor(i, order)) == "{" + (PrintPayload(i, order) + "}")
  {
    hide IsWritable, StrOk, StrText, PrintString, Tokens, MemberText, PrintMember, FieldsText;
    hide ListText, ListOfAll, PrintPairs, PrintBytes, PrintNumber;
    var fs := Fields(PayloadFor(i, order));
    match i
    case System2Think(monologue) =>
      TokensMean(monologue);
      TightFields1(fs, "}");
    case QueryMerovingian(entity, relation) =>
      TokensMean(entity);
      TokensMean(relation);
      TightFields2(fs, "}");
    case InvokeSeraph(module_, function_, arguments) =>
      TokensMean(module_);
      TokensMean(function_);
      PairsPrint(arguments, order);
      TightFields3(fs, "}");
      assert ValueText(fs[2].value) == "{" + ("" + (PrintPairs(arguments, order) + ("" + "}")));
      assert "" + "}" == "}";
      var d := PrintPairs(arguments, order) + "}";
      assert "" + d == d;
    case BroadcastSmith(agent, bytes) =>
      BytesPrint(bytes);
      TightFields2(fs, "}");
      assert ValueText(fs[1].value) == "[" + ("" + (PrintBytes(bytes) + ("" + "]")));
      assert "" + "]" == "]";
      var d := PrintBytes(bytes) + "]";
      assert "" + d == d;
  }

  function Tight(f: Field<Value>): string { PrintMember(f.key, ValueText(f.value)) }

  lemma TightFields1(fs: seq<Field<Value>>, tail: string)
    requires |fs| == 1 && fs[0].slot == TIGHT
    ensures FieldsText(fs, ValueText, tail) == Tight(fs[0]) + tail
  {
    TightMember(fs[0].key, ValueText(fs[0].value), tail);
  }

  lemma TightFields2(fs: seq<Field<Value>>, tail: string)
    requires |fs| == 2 && fs[0].slot == TIGHT && fs[1].slot == TIGHT
    ensures FieldsText(fs, ValueText, tail) == Tight(fs[0]) + ("," + Tight(fs[1])) + tail
  {
    hide MemberText, PrintMember, ValueText;
    TightFields1(fs[1..], tail);
    TightMember(fs[0].key, ValueText(fs[0].value), "," + (Tight(fs[1]) + tail));
  }

  lemma TightFields3(fs: seq<Field<Value>>, tail: string)
    requires |fs| == 3 && fs[0].slot == TIGHT && fs[1].slot == TIGHT && fs[2].slot == TIGHT
    ensures FieldsText(fs, ValueText, tail) == Tight(fs[0]) + ("," + (Tight(fs[1]) + ("," + Tight(fs[2])))) + tail
  {
    hide MemberText, PrintMember, ValueText;
    TightFields2(fs[1..], tail);
    TightMember(fs[0].key, ValueText(fs[0].value), "," + (Tight(fs[1]) + ("," + Tight(fs[2])) + tail));
  }

  lemma FramePrints(i: Intent, order: seq<string>)
    requires Expressible(i) && (i.InvokeSeraph? ==> Lists(order, i.arguments))
    ensures TextOf(FrameFor(i, order)) == Print(i, order)
  {
    hide PayloadText, PrintPayload, MemberText, PrintMember, Expressible, Lists, PayloadFor, Quoted;
    PayloadPrints(i, order);
    var f := FrameFor(i, order);
    var fs := RootFields(f);
    var body := "{" + (PrintPayload(i, order) + "}");
    assert FieldsText(fs[1..], RootText, "}") == MemberText(TIGHT, "payload", body, "}");
    TightMember("payload", body, "}");
    TightMember("intent_type", Quoted(TypeName(i)), "," + (PrintMember("payload", body) + "}"));
  }

  // ---- Frames hold no signed number ----

  lemma ValueIsUnsigned(v: Value)
    ensures ValueTree(v).Some? ==> NoSigned(ValueTree(v).value)
  {
    hide IsNumeral, Decimal, Dictionary, PairsOf, Clean, Meaning;
    if v.Numbers? && ValueTree(v).Some? {
      var items := ValueTree(v).value.items;
      forall k | 0 <= k < |items| ensures NoSigned(items[k]) { assert items[k] == NumberOf(Digits(v.items)[k]); }
    }
  }

  lemma {:induction false} FieldsAreUnsigned<V>(fs: seq<Field<V>>, tree: V -> Option<Json>)
    requires forall k | 0 <= k < |fs| :: tree(fs[k].value).Some? ==> NoSigned(tree(fs[k].value).value)
    ensures FieldsTree(fs, tree).Some? ==> NoSigned(Object(FieldsTree(fs, tree).value))
  {
    if fs == [] {
    } else {
      FieldsAreUnsigned(fs[1..], tree);
    }
  }

  lemma FrameIsUnsigned(f: Frame)
    ensures FieldsTree(RootFields(f), RootTree).Some? ==> NoSigned(Object(FieldsTree(RootFields(f), RootTree).value))
  {
    hide FieldsTree, ValueTree;
    var p := f.payload;
    forall k | 0 <= k < |Fields(p)|
      ensures ValueTree(Fields(p)[k].value).Some? ==> NoSigned(ValueTree(Fields(p)[k].value).value)
    {
      ValueIsUnsigned(Fields(p)[k].value);
    }
    FieldsAreUnsigned(Fields(p), ValueTree);
    FieldsAreUnsigned(RootFields(f), RootTree);
  }

  // ---- Main results ----

  /** Round trip: the compact text of an intent belongs to the grammar, whatever the order of its
      arguments, and the validator gives back that intent. */
  lemma PrintRoundTrip(i: Intent, order: seq<string>)
    requires Expressible(i) && (i.InvokeSeraph? ==> Lists(order, i.arguments))
    ensures Derivable(Print(i, order)) && Deserialize(Print(i, order)) == Ok(i)
    ensures Parse(Print(i, order)) == Some(Encode(i))
  {
    hide Print, FrameOk, TextOf, Written, Deserialize, Parse, Encode, Expressible, Lists, Derivable;
    hide FieldsTree, NoSigned, Normal;
    var f := FrameFor(i, order);
    FrameIsOk(i, order);
    FramePrints(i, order);
    DerivableExactly(TextOf(f));
    FrameIsJudged(f);
    AcceptedExactly(Print(i, order), i);
    ParsesFrame(f);
    FrameIsUnsigned(f);
    NormalKeeps(Parse(Print(i, order)).value);
  }

  lemma {:induction false} DictionaryIsWritable(ps: seq<Pair>)
    requires PairsOk(ps) && PairsClean(ps)
    ensures MapIsWritable(Dictionary(ps))
  {
    hide Meaning, Clean, StrOk, IsWritable;
    if ps == [] {
    } else {
      DictionaryIsWritable(ps[1..]);
      MeaningIsWritable(ps[0].key);
      MeaningIsWritable(ps[0].value);
    }
  }

  lemma WrittenIsExpressible(p: Payload)
    requires PayloadOk(p) && Written(p).Some?
    ensures Expressible(Written(p).value)
  {
    hide Meaning, Clean, StrOk, IsWritable, Dictionary, MapIsWritable, PairsClean, PairsOf, ListOk;
    assert forall k | 0 <= k < |Fields(p)| :: ValueOk(Fields(p)[k].value);
    match p
    case ThinkText(_, monologue) =>
      assert ValueOk(Fields(p)[0].value);
      MeaningIsWritable(monologue);
    case QueryText(_, entity, _, relation) =>
      assert ValueOk(Fields(p)[0].value) && ValueOk(Fields(p)[1].value);
      MeaningIsWritable(entity);
      MeaningIsWritable(relation);
    case InvokeText(_, module_, _, function_, _, _, pairs, _) =>
      assert ValueOk(Fields(p)[0].value) && ValueOk(Fields(p)[1].value) && ValueOk(Fields(p)[2].value);
      MeaningIsWritable(module_);
      MeaningIsWritable(function_);
      ListPairsOk(pairs);
      DictionaryIsWritable(PairsOf(pairs));
    case BroadcastText(_, _, _, _, _, _) =>
  }

  lemma {:induction false} KeysInOrder(m: map<string, string>) returns (order: seq<string>)
    ensures Lists(order, m)
    decreases |m|
  {
    if m == map[] {
      order := [];
    } else {
      var k :| k in m;
      var rest := m - {k};
      assert |rest| < |m| by { assert m == rest[k := m[k]] && rest.Keys < m.Keys; SmallerMap(m, k); }
      var others := KeysInOrder(rest);
      order := [k] + others;
    }
  }

  lemma SmallerMap(m: map<string, string>, k: string)
    requires k in m
    ensures |m - {k}| < |m|
  {
    assert (m - {k}).Keys == m.Keys - {k};
    assert |(m - {k}).Keys| == |m - {k}| && |m.Keys| == |m|;
  }

  /** The intents that a constrained model can convey: exactly those whose strings need no escape
      beyond the two-character ones. */
  lemma ExpressibleExactly(i: Intent)
    ensures Expressible(i) <==> exists s :: Derivable(s) && Deserialize(s) == Ok(i)
  {
    hide Print, FrameOk, TextOf, Written, Deserialize, Lists, Derivable;
    if Expressible(i) {
      var order := KeysInOrder(if i.InvokeSeraph? then i.arguments else map[]);
      PrintRoundTrip(i, order);
    }
    if s :| Derivable(s) && Deserialize(s) == Ok(i) {
      var f := DerivableIsJudged(s);
      PayloadOfFrame(f);
      WrittenIsExpressible(f.payload);
    }
  }

  lemma PayloadOfFrame(f: Frame)
    requires FrameOk(f)
    ensures PayloadOk(f.payload)
  {
  }

  // ---- The grammar admits texts that the validator refuses ----

  /** A frame whose type names another payload. */
  lemma MisnamedPayload()
    ensures var f := Frame(TIGHT, "QueryMerovingian", TIGHT, ThinkText(TIGHT, []));
            Derivable(TextOf(f)) && Deserialize(TextOf(f)) == Err(GrammarViolation)
  {
    var f := Frame(TIGHT, "QueryMerovingian", TIGHT, ThinkText(TIGHT, []));
    assert FrameOk(f);
    DerivableExactly(TextOf(f));
    FrameIsJudged(f);
  }

  /** A line break that stands in a string as itself. */
  lemma BareLineBreak()
    ensures var f := Frame(TIGHT, "System2Think", TIGHT, ThinkText(TIGHT, [Plain('\n')]));
            Derivable(TextOf(f)) && Deserialize(TextOf(f)) == Err(GrammarViolation)
  {
    var f := Frame(TIGHT, "System2Think", TIGHT, ThinkText(TIGHT, [Plain('\n')]));
    assert Plain('\n') in f.payload.monologue;
    assert FrameOk(f) && !Clean(f.payload.monologue);
    DerivableExactly(TextOf(f));
    FrameIsJudged(f);
  }

  /** A number with a leading zero, and a byte above 255. */
  lemma BadNumbers(d: string)
    requires d == "00" || d == "256"
    ensures var f := Frame(TIGHT, "BroadcastSmith", TIGHT, BroadcastText(TIGHT, "1", TIGHT, "", Items(d, []), ""));
            Derivable(TextOf(f)) && Deserialize(TextOf(f)) == Err(GrammarViolation)
  {
    var f := Frame(TIGHT, "BroadcastSmith", TIGHT, BroadcastText(TIGHT, "1", TIGHT, "", Items(d, []), ""));
    hide Decimal, TextOf, Deserialize, Derivable, IsByteNumeral, IsNumeral, AllDigits;
    NotByte(d);
    NoWs();
    assert Digits(f.payload.bytes)[0] == d;
    DerivableExactly(TextOf(f));
    FrameIsJudged(f);
  }

  lemma NotByte(d: string)
    requires d == "00" || d == "256"
    ensures DigitsOk(d) && !IsByteNumeral(d) && DigitsOk("1")
  {
    if d == "256" { assert Decimal("2") == 2 && Decimal("25") == 25 && Decimal("256") == 256; }
  }
}

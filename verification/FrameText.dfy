/** Texts of the grammar laid out as trees, one constructor per way a rule can be used, and what the
    JSON reader makes of each. */
module FrameText {
  import opened Common
  import opened Json
  import opened JsonText
  import Warden

  // ---- Strings ----

  datatype Tok = Plain(c: char) | Escaped(e: char)
  type Str = seq<Tok>

  predicate TokOk(t: Tok) {
    match t
    case Plain(c) => c != '"' && c != '\\'
    case Escaped(e) => Unescape(e).Some?
  }

  predicate StrOk(s: Str) { forall t | t in s :: TokOk(t) }

  /** No control character stands unescaped; the grammar would let one, JSON does not. */
  predicate Clean(s: Str) { forall t | t in s && t.Plain? :: !IsControl(t.c) }

  function TokText(t: Tok): string {
    match t
    case Plain(c) => [c]
    case Escaped(e) => ['\\', e]
  }

  function Body(s: Str): string { if s == [] then "" else TokText(s[0]) + Body(s[1..]) }

  function StrText(s: Str): string { "\"" + (Body(s) + "\"") }

  function TokMeaning(t: Tok): char
    requires TokOk(t)
  {
    match t
    case Plain(c) => c
    case Escaped(e) => Unescape(e).value
  }

  function Meaning(s: Str): string
    requires StrOk(s)
  {
    seq(|s|, i requires 0 <= i < |s| => TokMeaning(s[i]))
  }

  lemma ReadsTok(t: Tok, rest: string)
    requires TokOk(t)
    ensures ReadChars(TokText(t) + rest)
         == if t.Plain? && IsControl(t.c) then Fail else
              match ReadChars(rest) case Fail => Fail case Done(chars, tail) => Done([TokMeaning(t)] + chars, tail)
  {
    var text := TokText(t) + rest;
    match t
    case Plain(c) => assert text[0] == c && text[1..] == rest;
    case Escaped(e) => assert text[0] == '\\' && text[1] == e && text[2..] == rest;
  }

  lemma {:induction false} ReadsChars(s: Str, tail: string)
    requires StrOk(s)
    ensures ReadChars(Body(s) + ("\"" + tail)) == if Clean(s) then Done(Meaning(s), tail) else Fail
  {
    hide TokOk, TokText, TokMeaning, IsControl;
    var text := Body(s) + ("\"" + tail);
    if s == [] {
      assert text == "\"" + tail;
    } else {
      assert s[0] in s && s == [s[0]] + s[1..];
      hide ReadChars;
      var rest := Body(s[1..]) + ("\"" + tail);
      assert text == TokText(s[0]) + rest;
      ReadsTok(s[0], rest);
      ReadsChars(s[1..], tail);
      assert Clean(s) <==> !(s[0].Plain? && IsControl(s[0].c)) && Clean(s[1..]);
      assert Meaning(s) == [TokMeaning(s[0])] + Meaning(s[1..]);
    }
  }

  /** Does not begin with whitespace, so the reader stops skipping here. */
  predicate Solid(s: string) { s != "" && !IsWs(s[0]) }

  lemma SkipsTo(w: string, s: string)
    requires AllWs(w) && Solid(s)
    ensures SkipWs(w + s) == s
  {
    SkipsWs(w, s);
  }

  lemma ReadsString(s: Str, tail: string)
    requires StrOk(s)
    ensures ReadValue(StrText(s) + tail) == if Clean(s) then Done(String(Meaning(s)), tail) else Fail
  {
    var text := StrText(s) + tail;
    assert text == "\"" + (Body(s) + ("\"" + tail));
    assert text[1..] == Body(s) + ("\"" + tail);
    ReadsChars(s, tail);
  }

  lemma ReadsNumber(d: string, tail: string)
    requires AllDigits(d) && d != "" && EndsNumber(tail)
    ensures ReadValue(d + tail) == if IsNumeral(d) then Done(NumberOf(d), tail) else Fail
  {
    hide ReadNumber, IsNumeral, NumberOf;
    var text := d + tail;
    assert text[0] == d[0] && d[0] in d;
    assert SkipWs(text) == text;
    TakesNumber(d, tail);
  }

  // ---- Members ----

  /** What a reader returns for a value that is well-formed or not. */
  function Read<T>(v: Option<T>, rest: string): Reading<T> {
    match v
    case None => Fail
    case Some(x) => Done(x, rest)
  }

  function PairText(key: Str, w1: string, w2: string, value: string): string {
    StrText(key) + (w1 + (":" + (w2 + value)))
  }

  /** A quoted key, its colon, and what follows. */
  function KeyedText(key: Str, w1: string, rest: string): string {
    "\"" + (Body(key) + ("\"" + (w1 + (":" + rest))))
  }

  lemma PairIsKeyed(key: Str, w1: string, w2: string, value: string, tail: string)
    ensures PairText(key, w1, w2, value) + tail == KeyedText(key, w1, w2 + (value + tail))
  {
    var x := w1 + (":" + (w2 + value));
    assert x + tail == w1 + (":" + (w2 + (value + tail)));
    assert StrText(key) + (x + tail) == "\"" + (Body(key) + ("\"" + (x + tail)));
  }

  /** The reader's steps over a key. */
  lemma ReadsKey(w0: string, key: Str, w1: string, rest: string)
    requires AllWs(w0) && AllWs(w1) && StrOk(key)
    ensures var t := KeyedText(key, w1, rest);
            && SkipWs(w0 + t) == t && t[0] == '"'
            && ReadChars(t[1..]) == (if Clean(key) then Done(Meaning(key), w1 + (":" + rest)) else Fail)
            && SkipWs(w1 + (":" + rest)) == ":" + rest
  {
    var t := KeyedText(key, w1, rest);
    SkipsTo(w0, t);
    assert t[1..] == Body(key) + ("\"" + (w1 + (":" + rest)));
    ReadsChars(key, w1 + (":" + rest));
    SkipsTo(w1, ":" + rest);
  }

  /** One member, up to the brace or comma after it, given how its value reads. */
  lemma ReadsPair(
    w0: string, key: Str, w1: string, w2: string, value: string, w3: string, after: string, v: Option<Json>)
    requires AllWs(w0) && AllWs(w1) && AllWs(w2) && AllWs(w3) && StrOk(key)
    requires after != "" && (after[0] == '}' || after[0] == ',')
    requires ReadValue(value + (w3 + after)) == Read(v, w3 + after)
    ensures var read := ReadMembers(w0 + (PairText(key, w1, w2, value) + (w3 + after)));
            if v.None? || !Clean(key) then read.Fail?
            else if after[0] == '}' then read == Done(map[Meaning(key) := v.value], after[1..])
            else match ReadMembers(after[1..])
                 case Fail => read.Fail?
                 case Done(m, rest) => read == Done(map[Meaning(key) := v.value] + m, rest)
  {
    hide ReadChars, ReadValue, SkipWs, Clean, Body, AllWs, StrOk, PairText, KeyedText, Meaning;
    var rest := w2 + (value + (w3 + after));
    PairIsKeyed(key, w1, w2, value, w3 + after);
    ReadsKey(w0, key, w1, rest);
    assert (":" + rest)[1..] == rest;
    ValueSkipsWs(w2, value + (w3 + after));
    SkipsAfter(w3, after);
  }

  lemma SkipsAfter(w: string, after: string)
    requires AllWs(w) && after != "" && (after[0] == '}' || after[0] == ',')
    ensures SkipWs(w + after) == after
  {
    SkipsTo(w, after);
  }

  // ---- Lists of items between separators ----

  datatype Sep<T> = Sep(before: string, after: string, item: T)

  datatype List<T> = NoItems | Items(first: T, rest: seq<Sep<T>>)

  function SepsText<T>(rest: seq<Sep<T>>, show: T -> string): string {
    if rest == [] then "" else
      rest[0].before + ("," + (rest[0].after + (show(rest[0].item) + SepsText(rest[1..], show))))
  }

  function ListText<T>(l: List<T>, show: T -> string): string {
    match l
    case NoItems => ""
    case Items(first, rest) => show(first) + SepsText(rest, show)
  }

  predicate SepsOk<T>(rest: seq<Sep<T>>, ok: T -> bool) {
    forall k | 0 <= k < |rest| :: AllWs(rest[k].before) && AllWs(rest[k].after) && ok(rest[k].item)
  }

  predicate ListOk<T>(l: List<T>, ok: T -> bool) {
    l.Items? ==> ok(l.first) && SepsOk(l.rest, ok)
  }

  // ---- Arrays of numbers ----

  predicate DigitsOk(d: string) { AllDigits(d) && d != "" }

  function Same(s: string): string { s }

  function ArrayText(open: string, l: List<string>, close: string): string {
    "[" + (open + (ListText(l, Same) + (close + "]")))
  }

  function Digits(l: List<string>): seq<string> {
    match l
    case NoItems => []
    case Items(first, rest) => [first] + seq(|rest|, k requires 0 <= k < |rest| => rest[k].item)
  }

  predicate AllNumerals(ds: seq<string>) { forall k | 0 <= k < |ds| :: IsNumeral(ds[k]) }

  function NumberTrees(ds: seq<string>): seq<Json>
    requires AllNumerals(ds)
  {
    seq(|ds|, k requires 0 <= k < |ds| => NumberOf(ds[k]))
  }

  function ReadDigits(ds: seq<string>): Option<seq<Json>> {
    if AllNumerals(ds) then Some(NumberTrees(ds)) else None
  }

  lemma ElementsSkipWs(w: string, s: string)
    requires AllWs(w)
    ensures ReadElements(w + s) == ReadElements(s)
  {
    ValueSkipsWs(w, s);
  }

  lemma {:induction false} ReadsElements(first: string, rest: seq<Sep<string>>, close: string, tail: string)
    requires DigitsOk(first) && SepsOk(rest, DigitsOk) && AllWs(close)
    ensures ReadElements(first + (SepsText(rest, Same) + (close + ("]" + tail))))
         == Read(ReadDigits(Digits(Items(first, rest))), tail)
    decreases |rest|
  {
    hide ReadValue, SkipWs, IsNumeral, NumberOf, AllWs, AllDigits;
    var ds := Digits(Items(first, rest));
    assert ds[0] == first;
    if rest == [] {
      var after := "]" + tail;
      assert SepsText(rest, Same) + (close + after) == close + after;
      NumberEndsHere(close, after);
      ReadsNumber(first, close + after);
      SkipsTo(close, after);
      assert after[1..] == tail && ds == [first];
      if IsNumeral(first) { assert NumberTrees(ds) == [NumberOf(first)]; }
    } else {
      var next := rest[0].item + (SepsText(rest[1..], Same) + (close + ("]" + tail)));
      var after := "," + (rest[0].after + next);
      assert SepsText(rest, Same) + (close + ("]" + tail)) == rest[0].before + after;
      NumberEndsHere(rest[0].before, after);
      ReadsNumber(first, rest[0].before + after);
      SkipsTo(rest[0].before, after);
      assert after[1..] == rest[0].after + next;
      ElementsSkipWs(rest[0].after, next);
      ReadsElements(rest[0].item, rest[1..], close, tail);
      var others := Digits(Items(rest[0].item, rest[1..]));
      assert ds == [first] + others;
      NumeralsCons(first, others);
    }
  }

  lemma NumeralsCons(first: string, others: seq<string>)
    ensures ReadDigits([first] + others) == if IsNumeral(first) && ReadDigits(others).Some?
                                            then Some([NumberOf(first)] + ReadDigits(others).value) else None
  {
    hide NumberOf, Decimal, Overflows, AllDigits;
    var ds := [first] + others;
    assert forall k | 0 <= k < |others| :: ds[k + 1] == others[k];
    if AllNumerals(ds) {
      assert IsNumeral(ds[0]);
      assert AllNumerals(others);
      assert NumberTrees(ds) == [NumberOf(first)] + NumberTrees(others);
    }
  }

  lemma NumberEndsHere(w: string, after: string)
    requires AllWs(w) && EndsNumber(after)
    ensures EndsNumber(w + after)
  {
    if w == "" {
      assert w + after == after;
    } else {
      assert (w + after)[0] == w[0] && w[0] in w;
    }
  }

  lemma ReadsArray(open: string, l: List<string>, close: string, tail: string)
    requires AllWs(open) && AllWs(close) && ListOk(l, DigitsOk)
    ensures ReadValue(ArrayText(open, l, close) + tail)
         == match ReadDigits(Digits(l)) case None => Fail case Some(items) => Done(Array(items), tail)
  {
    hide ReadValue, ReadElements, ReadMembers, ReadChars, SkipWs;
    hide IsNumeral, NumberOf, AllWs, ReadDigits, SepsText, Digits;
    var inner := ListText(l, Same) + (close + ("]" + tail));
    assert ArrayText(open, l, close) + tail == "[" + (open + inner);
    match l
    case NoItems =>
      assert inner == close + ("]" + tail);
      ReadsNoNumbers(open, close, tail);
      NoDigits();
    case Items(first, rest) =>
      assert inner == first + (SepsText(rest, Same) + (close + ("]" + tail)));
      assert inner[0] == first[0] && first[0] in first;
      SkipsTo(open, inner);
      ElementsSkipWs(open, inner);
      ReadsElements(first, rest, close, tail);
      ReadsBrackets(open + inner);
  }

  lemma NoDigits()
    ensures Digits(NoItems) == []
  {
  }

  /** An array with at least one element is what its elements make. */
  lemma ReadsBrackets(body: string)
    requires !StartsWith(SkipWs(body), ']')
    ensures ReadValue("[" + body)
         == match ReadElements(body) case Fail => Fail case Done(items, rest) => Done(Array(items), rest)
  {
    hide ReadMembers, ReadElements, ReadChars;
    var t := "[" + body;
    assert SkipWs(t) == t && t[1..] == body;
  }

  lemma ReadsNoNumbers(open: string, close: string, tail: string)
    requires AllWs(open) && AllWs(close)
    ensures ReadValue("[" + (open + (close + ("]" + tail)))) == Done(Array([]), tail)
    ensures ReadDigits([]) == Some([])
  {
    hide ReadMembers, ReadElements, ReadChars, AllWs;
    var body := open + (close + ("]" + tail));
    SkipsWs(open, close + ("]" + tail));
    SkipsTo(close, "]" + tail);
    assert ("]" + tail)[1..] == tail;
    assert ("[" + body)[1..] == body;
    assert NumberTrees([]) == [];
  }

  // ---- Dictionaries of strings ----

  datatype Pair = Pair(key: Str, beforeColon: string, afterColon: string, value: Str)

  predicate PairOk(p: Pair) { StrOk(p.key) && AllWs(p.beforeColon) && AllWs(p.afterColon) && StrOk(p.value) }

  function ShowPair(p: Pair): string { PairText(p.key, p.beforeColon, p.afterColon, StrText(p.value)) }

  function DictText(open: string, l: List<Pair>, close: string): string {
    "{" + (open + (ListText(l, ShowPair) + (close + "}")))
  }

  function PairsOf(l: List<Pair>): seq<Pair> {
    match l
    case NoItems => []
    case Items(first, rest) => [first] + seq(|rest|, k requires 0 <= k < |rest| => rest[k].item)
  }

  predicate PairsClean(ps: seq<Pair>) { forall k | 0 <= k < |ps| :: Clean(ps[k].key) && Clean(ps[k].value) }

  predicate PairsOk(ps: seq<Pair>) { forall k | 0 <= k < |ps| :: PairOk(ps[k]) }

  /** The map that the pairs write, the last of equal keys counting. */
  function Dictionary(ps: seq<Pair>): map<string, string>
    requires PairsOk(ps)
  {
    if ps == [] then map[] else map[Meaning(ps[0].key) := Meaning(ps[0].value)] + Dictionary(ps[1..])
  }


  lemma TreeCons(k: string, v: string, m: map<string, string>)
    ensures Warden.StringTree(map[k := v] + m) == map[k := String(v)] + Warden.StringTree(m)
  {
  }

  lemma PairsCons(first: Pair, others: seq<Pair>)
    ensures PairsOk([first] + others) <==> PairOk(first) && PairsOk(others)
    ensures PairsClean([first] + others) <==> Clean(first.key) && Clean(first.value) && PairsClean(others)
    ensures PairsOk([first] + others) ==>
              Dictionary([first] + others) == map[Meaning(first.key) := Meaning(first.value)] + Dictionary(others)
  {
    hide PairOk, Clean;
    var ps := [first] + others;
    assert ps[0] == first && ps[1..] == others;
    assert forall k | 0 <= k < |others| :: ps[k + 1] == others[k];
  }

  lemma OnePair(p: Pair)
    requires PairOk(p)
    ensures PairsOk([p]) && Warden.StringTree(Dictionary([p])) == map[Meaning(p.key) := String(Meaning(p.value))]
  {
    PairsCons(p, []);
    assert [p] + [] == [p] && Dictionary([]) == map[];
    assert Dictionary([p]) == map[Meaning(p.key) := Meaning(p.value)];
  }

  lemma ListPairsOk(l: List<Pair>)
    requires ListOk(l, PairOk)
    ensures PairsOk(PairsOf(l))
  {
  }

  lemma {:induction false} ReadsMembers(open: string, first: Pair, rest: seq<Sep<Pair>>, close: string, tail: string)
    requires AllWs(open) && PairOk(first) && SepsOk(rest, PairOk) && AllWs(close)
    ensures PairsOk(PairsOf(Items(first, rest)))
    ensures var ps := PairsOf(Items(first, rest));
            var read := ReadMembers(open + (ShowPair(first) + (SepsText(rest, ShowPair) + (close + ("}" + tail)))));
            if PairsClean(ps) then read == Done(Warden.StringTree(Dictionary(ps)), tail) else read.Fail?
    decreases |rest|
  {
    hide ReadChars, ReadValue, SkipWs, Clean, AllWs, StrOk, PairText, StrText, Meaning, ReadMembers;
    ListPairsOk(Items(first, rest));
    var v := if Clean(first.value) then Some(String(Meaning(first.value))) else None;
    if rest == [] {
      var after := "}" + tail;
      assert SepsText(rest, ShowPair) + (close + after) == close + after;
      ReadsString(first.value, close + after);
      ReadsPair(open, first.key, first.beforeColon, first.afterColon, StrText(first.value), close, after, v);
      assert after[1..] == tail;
      PairsCons(first, []);
      assert PairsOf(Items(first, rest)) == [first] + [];
      OnePair(first);
    } else {
      var r, others := rest[0], rest[1..];
      var next := r.after + (ShowPair(r.item) + (SepsText(others, ShowPair) + (close + ("}" + tail))));
      var after := "," + next;
      SepUnfolds(rest, close + ("}" + tail));
      ReadsString(first.value, r.before + after);
      ReadsPair(open, first.key, first.beforeColon, first.afterColon, StrText(first.value), r.before, after, v);
      assert after[1..] == next;
      ReadsMembers(r.after, r.item, others, close, tail);
      var ps := PairsOf(Items(r.item, others));
      PairsCons(first, ps);
      assert PairsOf(Items(first, rest)) == [first] + ps;
      TreeCons(Meaning(first.key), Meaning(first.value), Dictionary(ps));
    }
  }

  lemma SepUnfolds(rest: seq<Sep<Pair>>, tail: string)
    requires rest != []
    ensures SepsText(rest, ShowPair) + tail
         == rest[0].before + ("," + (rest[0].after + (ShowPair(rest[0].item) + (SepsText(rest[1..], ShowPair) + tail))))
  {
  }

  lemma StartsWithQuote(p: Pair)
    ensures ShowPair(p) != "" && ShowPair(p)[0] == '"'
  {
  }

  /** An object with at least one member is what its members make. */
  lemma ReadsObject(body: string)
    requires !StartsWith(SkipWs(body), '}')
    ensures ReadValue("{" + body)
         == match ReadMembers(body) case Fail => Fail case Done(m, rest) => Done(Object(m), rest)
  {
    hide ReadMembers, ReadElements, ReadChars;
    var t := "{" + body;
    assert SkipWs(t) == t && t[1..] == body;
  }

  lemma ReadsDict(open: string, l: List<Pair>, close: string, tail: string)
    requires AllWs(open) && AllWs(close) && ListOk(l, PairOk)
    ensures PairsOk(PairsOf(l))
    ensures ReadValue(DictText(open, l, close) + tail)
         == if PairsClean(PairsOf(l)) then Done(Object(Warden.StringTree(Dictionary(PairsOf(l)))), tail) else Fail
  {
    hide ReadValue, ReadElements, ReadMembers, ReadChars, SkipWs, Clean, PairText, StrOk, Meaning, AllWs;
    hide Dictionary, SepsText, PairsOf, PairsClean, PairsOk, PairOk, ShowPair, Warden.StringTree;
    ListPairsOk(l);
    var inner := ListText(l, ShowPair) + (close + ("}" + tail));
    assert DictText(open, l, close) + tail == "{" + (open + inner);
    match l
    case NoItems =>
      assert inner == close + ("}" + tail);
      ReadsNoPairs(open, close, tail);
    case Items(first, rest) =>
      assert inner == ShowPair(first) + (SepsText(rest, ShowPair) + (close + ("}" + tail)));
      StartsWithQuote(first);
      SkipsTo(open, inner);
      ReadsMembers(open, first, rest, close, tail);
      ReadsObject(open + inner);
  }

  lemma ReadsNoPairs(open: string, close: string, tail: string)
    requires AllWs(open) && AllWs(close)
    ensures ReadValue("{" + (open + (close + ("}" + tail)))) == Done(Object(Warden.StringTree(Dictionary([]))), tail)
    ensures PairsOf(NoItems) == [] && PairsClean([])
  {
    hide ReadMembers, ReadElements, ReadChars, ReadNumber, ReadLiteral, AllWs;
    NoPairs();
    var body := open + (close + ("}" + tail));
    SkipsWs(open, close + ("}" + tail));
    SkipsTo(close, "}" + tail);
    assert ("}" + tail)[1..] == tail;
    assert ("{" + body)[1..] == body;
  }

  lemma NoPairs()
    ensures PairsOf(NoItems) == [] && PairsClean([]) && PairsOk([])
    ensures Dictionary([]) == map[] && Warden.StringTree(map[]) == map[]
  {
  }
}

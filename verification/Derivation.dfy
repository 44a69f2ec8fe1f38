/** The grammar derives exactly the texts that are laid out as frames. */
module Derivation {
  import opened Common
  import opened JsonText
  import opened FrameText
  import opened Frames
  import opened Grammar
  import Warden

  // ---- Strings ----

  const CHARS := Ref(CharsRule)
  const CHAR := Ref(CharRule)
  const QUOTE := Lit("\"")

  lemma EscapeExactly(n: nat, s: string)
    requires n > 0
    ensures Derives(n, Ref(EscapeRule), s) <==> |s| == 1 && Unescape(s[0]).Some?
  {
    hide Derives, DerivesAll;
    var choices := Production(EscapeRule).choices;
    RefExactly(n, EscapeRule, s);
    if Derives(n, Ref(EscapeRule), s) {
      var k := TakeAlt(n - 1, choices, s);
      assert choices[k].Lit?;
      LitExactly(n - 1, choices[k].text, s);
    }
    if |s| == 1 && Unescape(s[0]).Some? {
      var k := match s[0] case '"' => 0 case '\\' => 1 case '/' => 2 case 'b' => 3 case 'f' => 4 case 'n' => 5
               case 'r' => 6 case _ => 7;
      assert s == [s[0]];
      assert choices[k] == Lit(s);
      LitExactly(n - 1, s, s);
      PutAlt(n - 1, choices, k, s);
    }
  }

  lemma TakeChar(n: nat, s: string) returns (t: Tok)
    requires Derives(n, CHAR, s)
    ensures TokOk(t) && TokText(t) == s
  {
    hide Derives, DerivesAll;
    RefExactly(n, CharRule, s);
    var k := TakeAlt(n - 1, Production(CharRule).choices, s);
    if k == 0 {
      ClassExactly(n - 1, IsStringChar, s);
      t := Plain(s[0]);
    } else {
      SeqExactly(n - 1, [Lit("\\"), Ref(EscapeRule)], s);
      assert [Lit("\\"), Ref(EscapeRule)] == [Lit("\\")] + ([Ref(EscapeRule)] + []);
      var slash, rest := TakeOne(n - 1, Lit("\\"), [Ref(EscapeRule)] + [], s);
      var e, end := TakeOne(n - 1, Ref(EscapeRule), [], rest);
      LitExactly(n - 1, "\\", slash);
      EndExactly(n - 1, end);
      EscapeIsDeep(n - 1, e);
      EscapeExactly(n - 1, e);
      t := Escaped(e[0]);
      assert s == TokText(t);
    }
  }

  lemma EscapeIsDeep(n: nat, s: string)
    requires Derives(n, Ref(EscapeRule), s)
    ensures n > 0
  {
    hide Derives;
    RefExactly(n, EscapeRule, s);
  }

  lemma PutChar(n: nat, t: Tok)
    requires n >= 3 && TokOk(t)
    ensures Derives(n, CHAR, TokText(t))
  {
    hide Derives, DerivesAll;
    var choices, s := Production(CharRule).choices, TokText(t);
    match t {
      case Plain(c) =>
        ClassExactly(n - 1, IsStringChar, s);
        PutAlt(n - 1, choices, 0, s);
      case Escaped(e) =>
        EscapeExactly(n - 1, [e]);
        EndExactly(n - 1, "");
        PutOne(n - 1, Ref(EscapeRule), [], [e], "");
        LitExactly(n - 1, "\\", "\\");
        PutOne(n - 1, Lit("\\"), [Ref(EscapeRule)] + [], "\\", [e] + "");
        assert [Lit("\\"), Ref(EscapeRule)] == [Lit("\\")] + ([Ref(EscapeRule)] + []);
        assert "\\" + ([e] + "") == s;
        SeqExactly(n - 1, [Lit("\\"), Ref(EscapeRule)], s);
        PutAlt(n - 1, choices, 1, s);
    }
    RefExactly(n, CharRule, s);
  }

  lemma {:induction false} TakeChars(n: nat, s: string) returns (t: Str)
    requires Derives(n, CHARS, s)
    ensures StrOk(t) && Body(t) == s
  {
    hide Derives, DerivesAll, TokOk;
    RefExactly(n, CharsRule, s);
    var k := TakeAlt(n - 1, Production(CharsRule).choices, s);
    if k == 0 {
      LitExactly(n - 1, "", s);
      t := [];
    } else {
      assert [CHAR, CHARS] == [CHAR] + ([CHARS] + []);
      SeqExactly(n - 1, [CHAR, CHARS], s);
      var first, rest := TakeOne(n - 1, CHAR, [CHARS] + [], s);
      var more, end := TakeOne(n - 1, CHARS, [], rest);
      EndExactly(n - 1, end);
      var c := TakeChar(n - 1, first);
      var cs := TakeChars(n - 1, more);
      t := [c] + cs;
      assert t[1..] == cs && s == first + more;
    }
  }

  lemma {:induction false} PutChars(n: nat, t: Str)
    requires n >= |t| + 4 && StrOk(t)
    ensures Derives(n, CHARS, Body(t))
    decreases |t|
  {
    hide Derives, DerivesAll, TokOk;
    var choices, s := Production(CharsRule).choices, Body(t);
    if t == [] {
      LitExactly(n - 1, "", s);
      PutAlt(n - 1, choices, 0, s);
    } else {
      PutChar(n - 1, t[0]);
      PutChars(n - 1, t[1..]);
      EndExactly(n - 1, "");
      PutOne(n - 1, CHARS, [], Body(t[1..]), "");
      PutOne(n - 1, CHAR, [CHARS] + [], TokText(t[0]), Body(t[1..]) + "");
      assert [CHAR, CHARS] == [CHAR] + ([CHARS] + []);
      assert TokText(t[0]) + (Body(t[1..]) + "") == s;
      SeqExactly(n - 1, [CHAR, CHARS], s);
      PutAlt(n - 1, choices, 1, s);
    }
    RefExactly(n, CharsRule, s);
  }

  lemma TakeString(n: nat, s: string) returns (t: Str)
    requires Derives(n, STRING, s)
    ensures StrOk(t) && StrText(t) == s
  {
    hide Derives, DerivesAll, StrOk;
    RefExactly(n, StringRule, s);
    SeqExactly(n - 1, [QUOTE, CHARS, QUOTE], s);
    assert [QUOTE, CHARS, QUOTE] == [QUOTE] + ([CHARS] + ([QUOTE] + []));
    var q, a := TakeOne(n - 1, QUOTE, [CHARS] + ([QUOTE] + []), s);
    var body, b := TakeOne(n - 1, CHARS, [QUOTE] + [], a);
    var r, e := TakeOne(n - 1, QUOTE, [], b);
    LitExactly(n - 1, "\"", q);
    LitExactly(n - 1, "\"", r);
    EndExactly(n - 1, e);
    t := TakeChars(n - 1, body);
    assert b == "\"";
  }

  lemma PutString(n: nat, t: Str)
    requires n >= |t| + 5 && StrOk(t)
    ensures Derives(n, STRING, StrText(t))
  {
    hide Derives, DerivesAll, StrOk;
    PutChars(n - 1, t);
    LitEnds(n - 1, "\"");
    PutOne(n - 1, CHARS, [QUOTE] + [], Body(t), "\"");
    PutOne(n - 1, QUOTE, [CHARS] + ([QUOTE] + []), "\"", Body(t) + "\"");
    assert [QUOTE, CHARS, QUOTE] == [QUOTE] + ([CHARS] + ([QUOTE] + []));
    SeqExactly(n - 1, [QUOTE, CHARS, QUOTE], StrText(t));
    RefExactly(n, StringRule, StrText(t));
  }

  lemma {:induction false} BodyIsLonger(t: Str)
    ensures |Body(t)| >= |t|
  {
    if t == [] {
    } else {
      BodyIsLonger(t[1..]);
    }
  }

  // ---- Lists ----

  /** Every item derives from g. */
  ghost predicate ItemsDerive(n: nat, g: Gbnf, l: List<string>) {
    l.Items? ==> Derives(n, g, l.first) && SepsDerive(n, g, l.rest)
  }

  ghost predicate SepsDerive(n: nat, g: Gbnf, rest: seq<Sep<string>>) {
    forall k | 0 <= k < |rest| :: AllWs(rest[k].before) && AllWs(rest[k].after) && Derives(n, g, rest[k].item)
  }

  function AnotherText(s: Sep<string>): string { s.before + ("," + (s.after + s.item)) }

  lemma TakeAnother(n: nat, g: Gbnf, s: string) returns (sep: Sep<string>)
    requires n > 0 && Derives(n, Seq(Another(g)), s)
    ensures AllWs(sep.before) && AllWs(sep.after) && Derives(n, g, sep.item) && s == AnotherText(sep)
  {
    hide Derives, DerivesAll;
    SeqExactly(n, Another(g), s);
    assert Another(g) == [WS] + ([Lit(",")] + ([WS] + ([g] + [])));
    var before, a := TakeOne(n, WS, [Lit(",")] + ([WS] + ([g] + [])), s);
    var comma, b := TakeOne(n, Lit(","), [WS] + ([g] + []), a);
    var after, c := TakeOne(n, WS, [g] + [], b);
    var item, e := TakeOne(n, g, [], c);
    WsExactly(n, before);
    WsExactly(n, after);
    LitExactly(n, ",", comma);
    EndExactly(n, e);
    sep := Sep(before, after, item);
    assert c == item;
  }

  lemma PutAnother(n: nat, g: Gbnf, sep: Sep<string>)
    requires n > 0 && AllWs(sep.before) && AllWs(sep.after) && Derives(n, g, sep.item)
    ensures Derives(n, Seq(Another(g)), AnotherText(sep))
  {
    hide Derives, DerivesAll;
    WsExactly(n, sep.before);
    WsExactly(n, sep.after);
    LitExactly(n, ",", ",");
    EndExactly(n, "");
    PutOne(n, g, [], sep.item, "");
    assert sep.item + "" == sep.item;
    PutOne(n, WS, [g] + [], sep.after, sep.item);
    PutOne(n, Lit(","), [WS] + ([g] + []), ",", sep.after + sep.item);
    PutOne(n, WS, [Lit(",")] + ([WS] + ([g] + [])), sep.before, "," + (sep.after + sep.item));
    assert Another(g) == [WS] + ([Lit(",")] + ([WS] + ([g] + [])));
    SeqExactly(n, Another(g), AnotherText(sep));
  }

  lemma TakeRound(n: nat, body: Gbnf, s: string) returns (i: nat)
    requires s != "" && Derives(n, Star(body), s)
    ensures 0 < i <= |s| && Derives(n, body, s[..i]) && Derives(n, Star(body), s[i..])
  {
    i :| 0 < i <= |s| && Derives(n, body, s[..i]) && Derives(n, Star(body), s[i..]);
  }

  lemma PutRound(n: nat, body: Gbnf, first: string, rest: string)
    requires first != "" && Derives(n, body, first) && Derives(n, Star(body), rest)
    ensures Derives(n, Star(body), first + rest)
  {
    var s, i := first + rest, |first|;
    assert s[..i] == first && s[i..] == rest;
  }

  lemma StarEmpty(n: nat, body: Gbnf)
    ensures Derives(n, Star(body), "")
  {
  }

  lemma {:induction false} TakeSeps(n: nat, g: Gbnf, s: string) returns (rest: seq<Sep<string>>)
    requires n > 0 && Derives(n, Star(Seq(Another(g))), s)
    ensures SepsDerive(n, g, rest) && SepsText(rest, Same) == s
    decreases |s|
  {
    hide Derives, DerivesAll, Another, AnotherText;
    if s == "" {
      rest := [];
    } else {
      var i := TakeRound(n, Seq(Another(g)), s);
      var sep := TakeAnother(n, g, s[..i]);
      var more := TakeSeps(n, g, s[i..]);
      rest := [sep] + more;
      SepsCons(sep, more);
      assert s == s[..i] + s[i..];
    }
  }

  lemma SepsCons(sep: Sep<string>, more: seq<Sep<string>>)
    ensures SepsText([sep] + more, Same) == AnotherText(sep) + SepsText(more, Same)
  {
    var rest := [sep] + more;
    assert rest[0] == sep && rest[1..] == more;
    var text := SepsText(more, Same);
    assert AnotherText(sep) + text == sep.before + ("," + (sep.after + (sep.item + text)));
  }

  lemma {:induction false} PutSeps(n: nat, g: Gbnf, rest: seq<Sep<string>>)
    requires n > 0 && SepsDerive(n, g, rest)
    ensures Derives(n, Star(Seq(Another(g))), SepsText(rest, Same))
    decreases |rest|
  {
    hide Derives, DerivesAll, Another;
    if rest == [] {
      StarEmpty(n, Seq(Another(g)));
    } else {
      PutSeps(n, g, rest[1..]);
      PutAnother(n, g, rest[0]);
      assert rest == [rest[0]] + rest[1..];
      SepsCons(rest[0], rest[1..]);
      PutRound(n, Seq(Another(g)), AnotherText(rest[0]), SepsText(rest[1..], Same));
    }
  }

  lemma OptExactly(n: nat, body: Gbnf, s: string)
    ensures Derives(n, Opt(body), s) <==> s == "" || Derives(n, body, s)
  {
  }

  lemma TakeItems(n: nat, g: Gbnf, s: string) returns (l: List<string>)
    requires n > 0 && Derives(n, ListOf(g), s)
    ensures ItemsDerive(n, g, l) && ListText(l, Same) == s
  {
    hide Derives, DerivesAll, Another;
    var more := Star(Seq(Another(g)));
    OptExactly(n, Seq([g, more]), s);
    if s == "" {
      l := NoItems;
    } else {
      assert [g, more] == [g] + ([more] + []);
      SeqExactly(n, [g, more], s);
      var first, t := TakeOne(n, g, [more] + [], s);
      var seps, e := TakeOne(n, more, [], t);
      EndExactly(n, e);
      var rest := TakeSeps(n, g, seps);
      l := Items(first, rest);
      assert s == first + seps;
    }
  }

  lemma PutItems(n: nat, g: Gbnf, l: List<string>)
    requires n > 0 && ItemsDerive(n, g, l)
    ensures Derives(n, ListOf(g), ListText(l, Same))
  {
    hide Derives, DerivesAll, Another;
    var more := Star(Seq(Another(g)));
    if l.Items? {
      PutSeps(n, g, l.rest);
      var seps := SepsText(l.rest, Same);
      EndExactly(n, "");
      PutOne(n, more, [], seps, "");
      assert seps + "" == seps;
      PutOne(n, g, [more] + [], l.first, seps);
      assert [g, more] == [g] + ([more] + []);
      SeqExactly(n, [g, more], l.first + seps);
    }
    OptExactly(n, Seq([g, more]), ListText(l, Same));
  }

  /** An opening sign, a list, and a closing sign. */
  lemma TakeBracketed(n: nat, left: string, g: Gbnf, right: string, s: string)
    returns (a: string, l: List<string>, z: string)
    requires n > 0 && Derives(n, Seq([Lit(left), WS, ListOf(g), WS, Lit(right)]), s)
    ensures AllWs(a) && AllWs(z) && ItemsDerive(n, g, l) && s == left + (a + (ListText(l, Same) + (z + right)))
  {
    var items, end := ListOf(g), [Lit(right)] + [];
    hide Derives, DerivesAll, ListOf;
    SeqExactly(n, [Lit(left), WS, items, WS, Lit(right)], s);
    assert [Lit(left), WS, items, WS, Lit(right)] == [Lit(left)] + ([WS] + ([items] + ([WS] + end)));
    var p, t := TakeOne(n, Lit(left), [WS] + ([items] + ([WS] + end)), s);
    var w, u := TakeOne(n, WS, [items] + ([WS] + end), t);
    var body, v := TakeOne(n, items, [WS] + end, u);
    var x, y := TakeOne(n, WS, end, v);
    var q, e := TakeOne(n, Lit(right), [], y);
    WsExactly(n, w);
    WsExactly(n, x);
    LitExactly(n, left, p);
    LitExactly(n, right, q);
    EndExactly(n, e);
    l := TakeItems(n, g, body);
    a, z := w, x;
    assert y == right;
  }

  lemma LitEnds(n: nat, text: string)
    ensures Derives(n, Lit(text), text) && DerivesAll(n, [Lit(text)] + [], text)
  {
    hide Derives, DerivesAll;
    LitExactly(n, text, text);
    EndExactly(n, "");
    PutOne(n, Lit(text), [], text, "");
    assert text + "" == text;
  }

  lemma PutBracketed(n: nat, left: string, g: Gbnf, right: string, a: string, l: List<string>, z: string)
    requires n > 0 && AllWs(a) && AllWs(z) && ItemsDerive(n, g, l)
    ensures Derives(n, Seq([Lit(left), WS, ListOf(g), WS, Lit(right)]), left + (a + (ListText(l, Same) + (z + right))))
  {
    hide Derives, DerivesAll, ItemsDerive, AllWs, ListText, ListOf;
    var items, end := ListOf(g), [Lit(right)] + [];
    WsExactly(n, a);
    WsExactly(n, z);
    PutItems(n, g, l);
    LitEnds(n, right);
    PutOne(n, WS, end, z, right);
    var body := ListText(l, Same);
    PutOne(n, items, [WS] + end, body, z + right);
    PutOne(n, WS, [items] + ([WS] + end), a, body + (z + right));
    LitEnds(n, left);
    PutOne(n, Lit(left), [WS] + ([items] + ([WS] + end)), left, a + (body + (z + right)));
    var parts := [Lit(left), WS, items, WS, Lit(right)];
    assert parts == [Lit(left)] + ([WS] + ([items] + ([WS] + end)));
    SeqExactly(n, parts, left + (a + (body + (z + right))));
  }

  // ---- Dictionaries ----

  lemma TakePair(n: nat, s: string) returns (p: Pair)
    requires n > 0 && Derives(n, PAIR, s)
    ensures PairOk(p) && ShowPair(p) == s
  {
    hide Derives, DerivesAll, StrText, StrOk, AllWs;
    var colon := Lit(":");
    SeqExactly(n, [STRING, WS, colon, WS, STRING], s);
    assert [STRING, WS, colon, WS, STRING] == [STRING] + ([WS] + ([colon] + ([WS] + ([STRING] + []))));
    var k, a := TakeOne(n, STRING, [WS] + ([colon] + ([WS] + ([STRING] + []))), s);
    var w, b := TakeOne(n, WS, [colon] + ([WS] + ([STRING] + [])), a);
    var c, d := TakeOne(n, colon, [WS] + ([STRING] + []), b);
    var x, e := TakeOne(n, WS, [STRING] + [], d);
    var v, f := TakeOne(n, STRING, [], e);
    WsExactly(n, w);
    WsExactly(n, x);
    LitExactly(n, ":", c);
    EndExactly(n, f);
    var key := TakeString(n, k);
    var value := TakeString(n, v);
    p := Pair(key, w, x, value);
    assert e == v;
  }

  lemma PutPair(n: nat, p: Pair)
    requires n >= |ShowPair(p)| + 5 && PairOk(p)
    ensures Derives(n, PAIR, ShowPair(p))
  {
    hide Derives, StrOk, AllWs;
    BodyIsLonger(p.key);
    BodyIsLonger(p.value);
    PutString(n, p.key);
    PutString(n, p.value);
    WsExactly(n, p.beforeColon);
    WsExactly(n, p.afterColon);
    PutPairParts(n, StrText(p.key), p.beforeColon, p.afterColon, StrText(p.value));
  }

  lemma PutPairParts(n: nat, k: string, w: string, x: string, v: string)
    requires Derives(n, STRING, k) && Derives(n, STRING, v) && Derives(n, WS, w) && Derives(n, WS, x)
    ensures Derives(n, PAIR, k + (w + (":" + (x + v))))
  {
    hide Derives, DerivesAll;
    var colon := Lit(":");
    EndExactly(n, "");
    LitExactly(n, ":", ":");
    PutOne(n, STRING, [], v, "");
    assert v + "" == v;
    PutOne(n, WS, [STRING] + [], x, v);
    PutOne(n, colon, [WS] + ([STRING] + []), ":", x + v);
    PutOne(n, WS, [colon] + ([WS] + ([STRING] + [])), w, ":" + (x + v));
    PutOne(n, STRING, [WS] + ([colon] + ([WS] + ([STRING] + []))), k, w + (":" + (x + v)));
    assert [STRING, WS, colon, WS, STRING] == [STRING] + ([WS] + ([colon] + ([WS] + ([STRING] + []))));
    SeqExactly(n, [STRING, WS, colon, WS, STRING], k + (w + (":" + (x + v))));
  }

  lemma {:induction false} TakePairs(n: nat, rest: seq<Sep<string>>) returns (ps: seq<Sep<Pair>>)
    requires n > 0 && SepsDerive(n, PAIR, rest)
    ensures SepsOk(ps, PairOk) && SepsText(ps, ShowPair) == SepsText(rest, Same)
    decreases |rest|
  {
    hide PairOk, ShowPair, AllWs, Derives;
    if rest == [] {
      ps := [];
    } else {
      var p := TakePair(n, rest[0].item);
      var more := TakePairs(n, rest[1..]);
      ps := [Sep(rest[0].before, rest[0].after, p)] + more;
      assert ps[1..] == more;
    }
  }

  function Shown(rest: seq<Sep<Pair>>): seq<Sep<string>> {
    seq(|rest|, k requires 0 <= k < |rest| => Sep(rest[k].before, rest[k].after, ShowPair(rest[k].item)))
  }

  lemma {:induction false} ShownPairs(n: nat, rest: seq<Sep<Pair>>)
    requires SepsOk(rest, PairOk) && n >= |SepsText(rest, ShowPair)| + 5
    ensures SepsDerive(n, PAIR, Shown(rest)) && SepsText(Shown(rest), Same) == SepsText(rest, ShowPair)
    decreases |rest|
  {
    hide PairOk, ShowPair, AllWs, Derives;
    if rest == [] {
    } else {
      assert Shown(rest)[1..] == Shown(rest[1..]);
      ShownPairs(n, rest[1..]);
      PutPair(n, rest[0].item);
      assert Shown(rest) == [Shown(rest)[0]] + Shown(rest[1..]);
    }
  }

  // ---- Values ----

  function SymbolOf(v: Value): Gbnf {
    match v
    case Text(_) => STRING
    case Number(_) => NUMBER
    case Dict(_, _, _) => Ref(DictRule)
    case Numbers(_, _, _) => Ref(NumberArrayRule)
  }

  lemma TakeDict(n: nat, s: string) returns (v: Value)
    requires Derives(n, Ref(DictRule), s)
    ensures v.Dict? && ValueOk(v) && ValueText(v) == s
  {
    hide Derives, DerivesAll, AllWs, PairOk, ShowPair;
    RefExactly(n, DictRule, s);
    WsIsDeep(n - 1, ListOf(PAIR), "{", "}", s);
    var a, l, z := TakeBracketed(n - 1, "{", PAIR, "}", s);
    match l
    case NoItems => v := Dict(a, NoItems, z);
    case Items(first, rest) =>
      var p := TakePair(n - 1, first);
      var ps := TakePairs(n - 1, rest);
      v := Dict(a, Items(p, ps), z);
  }

  /** Whitespace is a rule of its own, so a derivation with whitespace in it is not the shallowest. */
  lemma WsIsDeep(n: nat, g: Gbnf, left: string, right: string, s: string)
    requires Derives(n, Seq([Lit(left), WS, g, WS, Lit(right)]), s)
    ensures n > 0
  {
    hide Derives, DerivesAll;
    var rest := [g] + ([WS] + ([Lit(right)] + []));
    SeqExactly(n, [Lit(left), WS, g, WS, Lit(right)], s);
    assert [Lit(left), WS, g, WS, Lit(right)] == [Lit(left)] + ([WS] + rest);
    var p, t := TakeOne(n, Lit(left), [WS] + rest, s);
    var w, u := TakeOne(n, WS, rest, t);
    RefExactly(n, WsRule, w);
  }

  lemma TakeNumbers(n: nat, s: string) returns (v: Value)
    requires Derives(n, Ref(NumberArrayRule), s)
    ensures v.Numbers? && ValueOk(v) && ValueText(v) == s
  {
    hide Derives, DerivesAll, AllWs;
    RefExactly(n, NumberArrayRule, s);
    WsIsDeep(n - 1, ListOf(NUMBER), "[", "]", s);
    var a, l, z := TakeBracketed(n - 1, "[", NUMBER, "]", s);
    NumberItems(n - 1, l);
    v := Numbers(a, l, z);
  }

  lemma NumberItems(n: nat, l: List<string>)
    requires n > 0
    ensures ItemsDerive(n, NUMBER, l) <==> ListOk(l, DigitsOk)
  {
    hide Derives, AllDigits;
    if l.Items? {
      NumberExactly(n, l.first);
      forall k | 0 <= k < |l.rest| ensures Derives(n, NUMBER, l.rest[k].item) <==> DigitsOk(l.rest[k].item) {
        NumberExactly(n, l.rest[k].item);
      }
    }
  }

  lemma PutDict(n: nat, v: Value)
    requires v.Dict? && ValueOk(v) && n >= |ValueText(v)| + 6
    ensures Derives(n, Ref(DictRule), ValueText(v))
  {
    hide Derives, DerivesAll, AllWs, PairOk, ShowPair, SepsOk, SepsDerive, SepsText, Shown, ListOf;
    match v.pairs {
    case NoItems => PutBracketed(n - 1, "{", PAIR, "}", v.open, NoItems, v.close);
    case Items(first, rest) =>
      PutPair(n - 1, first);
      ShownPairs(n - 1, rest);
      PutBracketed(n - 1, "{", PAIR, "}", v.open, Items(ShowPair(first), Shown(rest)), v.close);
    }
    RefExactly(n, DictRule, ValueText(v));
  }

  lemma PutValue(n: nat, v: Value)
    requires ValueOk(v) && n >= |ValueText(v)| + 6
    ensures Derives(n, SymbolOf(v), ValueText(v))
  {
    hide Derives, StrOk, AllWs, AllDigits, Body;
    match v
    case Text(s) =>
      BodyIsLonger(s);
      PutString(n, s);
    case Number(d) => NumberExactly(n, d);
    case Dict(_, _, _) => PutDict(n, v);
    case Numbers(open, items, close) =>
      NumberItems(n - 1, items);
      PutBracketed(n - 1, "[", NUMBER, "]", open, items, close);
      RefExactly(n, NumberArrayRule, ValueText(v));
  }
}

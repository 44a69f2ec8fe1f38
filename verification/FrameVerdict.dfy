/** The validator's verdict on every text laid out as a frame. */
module FrameVerdict {
  import opened Common
  import opened Fips180
  import opened Json
  import opened JsonText
  import opened FrameText
  import opened Frames
  import opened Warden

  /** What the validator says of a payload's tree under a given type name. */
  function Judged(t: string, tree: Option<map<string, Json>>): Option<Intent>
    requires t in TYPE_NAMES
  {
    match tree
    case None => None
    case Some(m) => DecodePayload(t, m)
  }

  function IfNamed(t: string, i: Option<Intent>): Option<Intent> {
    if i.Some? && TypeName(i.value) == t then i else None
  }

  lemma OneField<V>(f: Field<V>, tree: V -> Option<Json>)
    ensures FieldsTree([f], tree) == if tree(f.value).Some? then Some(map[f.key := tree(f.value).value]) else None
  {
    assert FieldsTree([f][1..], tree) == Some(map[]);
    if tree(f.value).Some? { assert map[f.key := tree(f.value).value] + map[] == map[f.key := tree(f.value).value]; }
  }

  lemma TwoFields<V>(f: Field<V>, g: Field<V>, tree: V -> Option<Json>)
    requires f.key != g.key
    ensures FieldsTree([f, g], tree)
         == if tree(f.value).Some? && tree(g.value).Some?
            then Some(map[f.key := tree(f.value).value, g.key := tree(g.value).value])
            else None
  {
    assert [f, g][1..] == [g];
    OneField(g, tree);
    if tree(f.value).Some? && tree(g.value).Some? {
      var v, w := tree(f.value).value, tree(g.value).value;
      assert map[f.key := v] + map[g.key := w] == map[f.key := v, g.key := w];
    }
  }

  lemma ThreeFields<V>(f: Field<V>, g: Field<V>, h: Field<V>, tree: V -> Option<Json>)
    requires f.key != g.key && g.key != h.key && f.key != h.key
    ensures FieldsTree([f, g, h], tree)
         == if tree(f.value).Some? && tree(g.value).Some? && tree(h.value).Some?
            then Some(map[f.key := tree(f.value).value, g.key := tree(g.value).value, h.key := tree(h.value).value])
            else None
  {
    assert [f, g, h][1..] == [g, h];
    TwoFields(g, h, tree);
    if tree(f.value).Some? && tree(g.value).Some? && tree(h.value).Some? {
      var u, v, w := tree(f.value).value, tree(g.value).value, tree(h.value).value;
      assert map[f.key := u] + map[g.key := v, h.key := w] == map[f.key := u, g.key := v, h.key := w];
    }
  }

  lemma ThinkVerdict(p: Payload, t: string)
    requires p.ThinkText? && PayloadOk(p) && t in TYPE_NAMES
    ensures Judged(t, FieldsTree(Fields(p), ValueTree)) == IfNamed(t, Written(p))
  {
    hide FieldsTree, Clean, Meaning, StrOk;
    assert ValueOk(Fields(p)[0].value);
    OneField(Fields(p)[0], ValueTree);
  }

  lemma QueryVerdict(p: Payload, t: string)
    requires p.QueryText? && PayloadOk(p) && t in TYPE_NAMES
    ensures Judged(t, FieldsTree(Fields(p), ValueTree)) == IfNamed(t, Written(p))
  {
    hide FieldsTree, Clean, Meaning, StrOk;
    var fs := Fields(p);
    assert ValueOk(fs[0].value) && ValueOk(fs[1].value);
    TwoFields(fs[0], fs[1], ValueTree);
  }

  lemma InvokeVerdict(p: Payload, t: string)
    requires p.InvokeText? && PayloadOk(p) && t in TYPE_NAMES
    ensures Judged(t, FieldsTree(Fields(p), ValueTree)) == IfNamed(t, Written(p))
  {
    hide FieldsTree, Clean, Meaning, StrOk, Dictionary, PairsClean, PairsOf, PairsOk, ListOk, AllWs, StringTree;
    var fs := Fields(p);
    assert ValueOk(fs[0].value) && ValueOk(fs[1].value) && ValueOk(fs[2].value);
    ThreeFields(fs[0], fs[1], fs[2], ValueTree);
    ListPairsOk(p.pairs);
    TreeStrings(Dictionary(PairsOf(p.pairs)));
  }

  lemma TreeStrings(m: map<string, string>)
    ensures (map k | k in StringTree(m) :: StringTree(m)[k].s) == m
    ensures HoldsStrings(StringTree(m), StringTree(m).Keys)
  {
  }

  lemma BroadcastVerdict(p: Payload, t: string)
    requires p.BroadcastText? && PayloadOk(p) && t in TYPE_NAMES
    ensures Judged(t, FieldsTree(Fields(p), ValueTree)) == IfNamed(t, Written(p))
  {
    hide FieldsTree, IsNumeral, Digits, ReadDigits, AllBytes, BytesOf, AllByteNumerals, BytesWritten;
    var fs := Fields(p);
    assert ValueOk(fs[0].value) && ValueOk(fs[1].value);
    TwoFields(fs[0], fs[1], ValueTree);
    DigitsAreBytes(Digits(p.bytes));
  }

  /** A list of numerals reads to a list of byte numbers exactly when each is below 256. */
  lemma DigitsAreBytes(ds: seq<string>)
    ensures AllByteNumerals(ds) <==> ReadDigits(ds).Some? && AllBytes(ReadDigits(ds).value)
    ensures AllByteNumerals(ds) ==> BytesOf(ReadDigits(ds).value) == BytesWritten(ds)
  {
    if ReadDigits(ds).Some? && AllBytes(ReadDigits(ds).value) {
      forall k | 0 <= k < |ds| ensures IsByteNumeral(ds[k]) { assert IsByte(ReadDigits(ds).value[k]); }
    }
  }

  lemma PayloadVerdict(p: Payload, t: string)
    requires PayloadOk(p) && t in TYPE_NAMES
    ensures Judged(t, FieldsTree(Fields(p), ValueTree)) == IfNamed(t, Written(p))
  {
    hide PayloadOk, Written, Judged, FieldsTree;
    match p
    case ThinkText(_, _) => ThinkVerdict(p, t);
    case QueryText(_, _, _, _) => QueryVerdict(p, t);
    case InvokeText(_, _, _, _, _, _, _, _) => InvokeVerdict(p, t);
    case BroadcastText(_, _, _, _, _, _) => BroadcastVerdict(p, t);
  }

  /** The validator accepts a frame's text exactly when its strings hold no bare control character,
      its numbers no leading zero and no value too big, and its type names its payload; then it gives
      the intent written there, and otherwise GrammarViolation. */
  lemma FrameIsJudged(f: Frame)
    requires FrameOk(f)
    ensures Deserialize(TextOf(f)) == Verdict(f)
  {
    hide PayloadOk, Written, FieldsTree, DecodePayload, Parse, TextOf;
    ParsesFrame(f);
    PayloadVerdict(f.payload, f.typeName);
    TwoFields(RootFields(f)[0], RootFields(f)[1], RootTree);
  }
}

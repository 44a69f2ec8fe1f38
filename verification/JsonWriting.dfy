/** Writing any JSON value as text, and the reader giving it back: characters by their codes, strings of
    any characters, integers of any size, arrays and objects. */
module JsonWriting {
  import opened Common
  import opened Json
  import opened JsonText
  import opened FrameText
  import opened Printing
  import opened Fips180
  import Warden

  // ---- Characters, by their codes ----

  /** The reader skips the tab, the line feed, the carriage return and the space, and no other character. */
  lemma SpacesExactly(c: char)
    ensures SkipWs([c]) == "" <==> c as int in {9, 10, 13, 32}
  {
    assert SkipWs([c][1..]) == "";
  }

  lemma DigitsExactly(c: char)
    ensures IsDigit(c) <==> 48 <= c as int <= 57
    ensures IsDigit(c) ==> DigitValue(c) == c as int - 48
  {
  }

  /** A character that is neither a quote nor a backslash stands for itself from code 32 on, and is refused
      below. */
  lemma CharactersExactly(c: char, rest: string)
    requires c as int != 34 && c as int != 92
    ensures ReadChars([c] + rest)
         == if c as int < 32 then Fail else
              match ReadChars(rest) case Fail => Fail case Done(chars, tail) => Done([c] + chars, tail)
  {
    assert ([c] + rest)[1..] == rest;
  }

  /** The codes that the letters after a backslash stand for. */
  function EscapeCode(letter: int): (code: Option<int>)
    ensures code.Some? ==> 0 <= code.value < 128
  {
    if letter == 34 || letter == 92 || letter == 47 then Some(letter)
    else if letter == 98 then Some(8)
    else if letter == 102 then Some(12)
    else if letter == 110 then Some(10)
    else if letter == 114 then Some(13)
    else if letter == 116 then Some(9)
    else None
  }

  lemma EscapesExactly(e: char, rest: string)
    requires e as int != 117
    ensures match EscapeCode(e as int)
            case None => ReadChars(['\\', e] + rest) == Fail
            case Some(code) =>
              match ReadChars(rest)
              case Fail => ReadChars(['\\', e] + rest) == Fail
              case Done(chars, tail) => ReadChars(['\\', e] + rest) == Done([code as char] + chars, tail)
  {
    var text := ['\\', e] + rest;
    assert text[0] == '\\' && text[1] == e && text[2..] == rest;
    UnescapeExactly(e);
  }

  lemma UnescapeExactly(e: char)
    ensures Unescape(e).Some? <==> EscapeCode(e as int).Some?
    ensures Unescape(e).Some? ==> Unescape(e).value as int == EscapeCode(e as int).value
  {
  }

  lemma {:induction false} HexReads(n: nat, w: nat, rest: string)
    requires n < Pow16(w)
    ensures HexPrefix(Hex(n, w) + rest, w) == Some(n)
  {
    if w == 0 {
    } else {
      HexReads(n / 16, w - 1, [HexDigit(n % 16)] + rest);
      HexDigitReads(n % 16);
      assert Hex(n, w) + rest == Hex(n / 16, w - 1) + ([HexDigit(n % 16)] + rest);
    }
  }

  lemma HexDigitReads(d: nat)
    requires d < 16
    ensures HexDigitOf(HexDigit(d)) == Some(d)
  {
  }

  /** Four hexadecimal digits name any character of the basic plane ... */
  lemma CodePointReads(c: char, rest: string)
    requires c as int < 0x1_0000
    ensures ReadCodePoint(Hex(c as nat, 4) + rest) == Done(c, rest)
  {
    hide HexPrefix, Hex;
    assert Pow16(4) == 0x1_0000;
    HexReads(c as nat, 4, rest);
    assert (Hex(c as nat, 4) + rest)[4..] == rest;
  }

  /** ... and two escapes, a surrogate pair, any other. */
  lemma SurrogatesRead(c: char, rest: string)
    requires c as int >= 0x1_0000
    ensures var n := c as nat - 0x1_0000;
            ReadCodePoint(Hex(0xD800 + n / 0x400, 4) + ("\\u" + (Hex(0xDC00 + n % 0x400, 4) + rest))) == Done(c, rest)
  {
    hide HexPrefix, Hex;
    assert Pow16(4) == 0x1_0000;
    var n := c as nat - 0x1_0000;
    var low := Hex(0xDC00 + n % 0x400, 4) + rest;
    HexReads(0xD800 + n / 0x400, 4, "\\u" + low);
    HexReads(0xDC00 + n % 0x400, 4, rest);
    var text := Hex(0xD800 + n / 0x400, 4) + ("\\u" + low);
    assert text[4] == '\\' && text[5] == 'u' && text[6..] == low && text[10..] == rest;
  }

  // ---- Strings ----

  /** As it is, or by its code where it must not stand as it is. */
  function WriteChar(c: char): string {
    if c as int < 32 || c as int == 34 || c as int == 92 then "\\u" + Hex(c as nat, 4) else [c]
  }

  function WriteChars(s: string): string {
    if s == "" then "" else WriteChar(s[0]) + WriteChars(s[1..])
  }

  lemma WrittenCharReads(c: char, rest: string)
    ensures ReadChars(WriteChar(c) + rest)
         == match ReadChars(rest) case Fail => Fail case Done(chars, tail) => Done([c] + chars, tail)
  {
    hide Hex, ReadCodePoint;
    if c as int < 32 || c as int == 34 || c as int == 92 {
      var text := WriteChar(c) + rest;
      assert text[0] == '\\' && text[1] == 'u' && text[2..] == Hex(c as nat, 4) + rest;
      CodePointReads(c, rest);
    } else {
      CharactersExactly(c, rest);
    }
  }

  lemma {:induction false} WrittenCharsRead(s: string, tail: string)
    ensures ReadChars(WriteChars(s) + ("\"" + tail)) == Done(s, tail)
  {
    hide WriteChar;
    if s == "" {
      assert ReadChars("\"" + tail) == Done("", tail) by { assert ("\"" + tail)[1..] == tail; }
      assert "" + ("\"" + tail) == "\"" + tail;
    } else {
      hide ReadChars;
      var rest := WriteChars(s[1..]) + ("\"" + tail);
      assert WriteChars(s) + ("\"" + tail) == WriteChar(s[0]) + rest;
      WrittenCharReads(s[0], rest);
      WrittenCharsRead(s[1..], tail);
      assert [s[0]] + s[1..] == s;
    }
  }

  function WriteString(s: string): string { "\"" + (WriteChars(s) + "\"") }

  // ---- Values ----

  datatype Doc =
    | Nothing
    | Truth(b: bool)
    | Integer(n: int)
    | Words(s: string)
    | Sequence(items: Docs)
    | Record(members: Members)

  datatype Docs = NoDocs | OneDoc(first: Doc, others: Docs)

  datatype Members = NoMembers | OneMember(key: string, value: Doc, others: Members)

  function WriteInteger(n: int): string { if n < 0 then "-" + PrintNumber(-n) else PrintNumber(n) }

  function Write(d: Doc): string {
    match d
    case Nothing => "null"
    case Truth(b) => if b then "true" else "false"
    case Integer(n) => WriteInteger(n)
    case Words(s) => WriteString(s)
    case Sequence(items) => "[" + (WriteDocs(items) + "]")
    case Record(members) => "{" + (WriteMembers(members) + "}")
  }

  function WriteDocs(ds: Docs): string {
    match ds
    case NoDocs => ""
    case OneDoc(first, others) => Write(first) + (if others.NoDocs? then "" else "," + WriteDocs(others))
  }

  function WriteMembers(ms: Members): string {
    match ms
    case NoMembers => ""
    case OneMember(key, value, others) =>
      WriteString(key) + (":" + (Write(value) + (if others.NoMembers? then "" else "," + WriteMembers(others))))
  }

  /** What is meant: an integer keeps its value where 64 bits hold it, and becomes a double beyond. */
  function Meant(d: Doc): Json {
    match d
    case Nothing => Null
    case Truth(b) => Bool(b)
    case Integer(n) =>
      if 0 <= n < 0x1_0000_0000_0000_0000 then Unsigned(n)
      else if -0x8000_0000_0000_0000 <= n < 0 then Signed(n)
      else Float
    case Words(s) => String(s)
    case Sequence(items) => Array(MeantAll(items))
    case Record(members) => Object(MeantFields(members))
  }

  function MeantAll(ds: Docs): seq<Json> {
    match ds
    case NoDocs => []
    case OneDoc(first, others) => [Meant(first)] + MeantAll(others)
  }

  /** The last of equal keys counts. */
  function MeantFields(ms: Members): map<string, Json> {
    match ms
    case NoMembers => map[]
    case OneMember(key, value, others) => map[key := Meant(value)] + MeantFields(others)
  }

  /** No integer in it is too great for a double. */
  predicate Fits(d: Doc) {
    match d
    case Integer(n) => !Overflows(if n < 0 then -n else n, 0)
    case Sequence(items) => FitsAll(items)
    case Record(members) => FitsFields(members)
    case _ => true
  }

  predicate FitsAll(ds: Docs) { ds.OneDoc? ==> Fits(ds.first) && FitsAll(ds.others) }

  predicate FitsFields(ms: Members) { ms.OneMember? ==> Fits(ms.value) && FitsFields(ms.others) }

  // ---- Reading back ----

  lemma IntegerReads(n: int, tail: string)
    requires EndsNumber(tail) && !Overflows(if n < 0 then -n else n, 0)
    ensures ReadValue(WriteInteger(n) + tail) == Done(Meant(Integer(n)), tail)
  {
    hide Overflows, Decimal, ReadNumber, PrintNumber, ReadElements, ReadMembers, ReadLiteral;
    var d := PrintNumber(if n < 0 then -n else n);
    NumberReads(if n < 0 then -n else n);
    if n < 0 {
      SignedReads(d, tail);
      var text := WriteInteger(n) + tail;
      assert text == "-" + (d + tail) && SkipWs(text) == text;
    } else {
      ReadsNumber(d, tail);
    }
  }

  /** A minus sign in front of a numeral. */
  lemma SignedReads(d: string, tail: string)
    requires IsNumeral(d) && EndsNumber(tail)
    ensures ReadNumber("-" + (d + tail)) == Done(NegativeOf(d), tail)
  {
    hide Overflows, NumberOf, NegativeOf, Decimal;
    var text := "-" + (d + tail);
    assert text[1..] == d + tail;
    TakesDigits(d, tail);
    assert (d + tail)[|d|..] == tail && d + "" == d;
  }

  lemma FractionPart(fraction: string, tail: string)
    requires AllDigits(fraction) && fraction != "" && EndsNumber(tail)
    ensures ReadFraction("." + (fraction + tail)) == Done(fraction, tail)
  {
    var rest := "." + (fraction + tail);
    assert rest[1..] == fraction + tail;
    TakesDigits(fraction, tail);
    assert rest[1 + |fraction|..] == tail;
  }

  lemma ExponentPart(e: char, power: string, tail: string)
    requires AllDigits(power) && power != "" && EndsNumber(tail) && (e == 'e' || e == 'E')
    ensures ReadExponent([e] + (power + tail)) == Done(Some(Decimal(power)), tail)
  {
    hide Decimal;
    var rest := [e] + (power + tail);
    assert rest[1..] == power + tail;
    assert (power + tail)[0] == power[0] && power[0] in power;
    TakesDigits(power, tail);
    assert (power + tail)[|power|..] == tail;
  }

  lemma WholePart(whole: string, rest: string)
    requires IsWhole(whole) && rest != "" && !IsDigit(rest[0])
    ensures var text := whole + rest;
            !StartsWith(text, '-') && LeadingDigits(text) == whole && text[|whole|..] == rest
  {
    TakesDigits(whole, rest);
    assert (whole + rest)[0] == whole[0] && whole[0] in whole;
  }

  /** A fraction or a power of ten makes a number a double, whatever its value, unless it overflows one. */
  lemma FractionReads(whole: string, fraction: string, tail: string)
    requires IsWhole(whole) && AllDigits(fraction) && fraction != "" && EndsNumber(tail)
    ensures ReadNumber(whole + ("." + (fraction + tail)))
         == if Overflows(Decimal(whole + fraction), -|fraction|) then Fail else Done(Float, tail)
  {
    hide Overflows, Decimal, ReadFraction, LeadingDigits, IsWhole, AllDigits;
    WholePart(whole, "." + (fraction + tail));
    FractionPart(fraction, tail);
  }

  lemma ExponentReads(whole: string, e: char, power: string, tail: string)
    requires IsWhole(whole) && AllDigits(power) && power != "" && EndsNumber(tail) && (e == 'e' || e == 'E')
    ensures ReadNumber(whole + ([e] + (power + tail)))
         == if Overflows(Decimal(whole), Decimal(power)) then Fail else Done(Float, tail)
  {
    hide Overflows, Decimal, ReadExponent, LeadingDigits, IsWhole, AllDigits;
    WholePart(whole, [e] + (power + tail));
    ExponentPart(e, power, tail);
    assert whole + "" == whole;
  }

  lemma StringReads(s: string, tail: string)
    ensures ReadValue(WriteString(s) + tail) == Done(String(s), tail)
  {
    hide ReadChars, WriteChars, ReadElements, ReadMembers, ReadNumber, ReadLiteral;
    var text := WriteString(s) + tail;
    assert text[1..] == WriteChars(s) + ("\"" + tail) && SkipWs(text) == text;
    WrittenCharsRead(s, tail);
  }

  lemma LiteralsRead(tail: string)
    ensures ReadValue("null" + tail) == Done(Null, tail)
    ensures ReadValue("true" + tail) == Done(Bool(true), tail)
    ensures ReadValue("false" + tail) == Done(Bool(false), tail)
  {
    hide ReadValue, ReadLiteral;
    LiteralAhead("null", tail);
    LiteralAhead("true", tail);
    LiteralAhead("false", tail);
    NullReads(tail);
    TrueReads(tail);
    FalseReads(tail);
  }

  lemma LiteralAhead(word: string, tail: string)
    requires word != "" && (word[0] == 'n' || word[0] == 't' || word[0] == 'f')
    ensures ReadValue(word + tail) == ReadLiteral(word + tail)
  {
    hide ReadChars, ReadElements, ReadMembers, ReadNumber, ReadLiteral;
    var text := word + tail;
    assert text[0] == word[0] && SkipWs(text) == text;
  }

  lemma NullReads(tail: string)
    ensures ReadLiteral("null" + tail) == Done(Null, tail)
  {
    var text := "null" + tail;
    assert text[0] == 'n' && text[..4] == "null" && text[4..] == tail;
    assert text[..4][0] != 't' && (|text| >= 5 ==> text[..5][0] != 'f');
  }

  lemma TrueReads(tail: string)
    ensures ReadLiteral("true" + tail) == Done(Bool(true), tail)
  {
    var text := "true" + tail;
    assert text[..4] == "true" && text[4..] == tail;
  }

  lemma FalseReads(tail: string)
    ensures ReadLiteral("false" + tail) == Done(Bool(false), tail)
  {
    var text := "false" + tail;
    assert text[0] == 'f' && text[..5] == "false" && text[5..] == tail;
    assert text[..4][0] != 't';
  }

  /** A value does not begin with whitespace, a closing sign or anything that continues a number. */
  predicate IsFirst(c: char) { !IsWs(c) && c != ']' && c != '}' && c != BYTE_ORDER_MARK }

  lemma WritesSomething(d: Doc)
    ensures Write(d) != "" && IsFirst(Write(d)[0])
  {
    hide PrintNumber, WriteDocs, WriteMembers, WriteChars;
    if d.Integer? { IntegerWritten(d.n); }
  }

  lemma IntegerWritten(n: int)
    ensures WriteInteger(n) != "" && IsFirst(WriteInteger(n)[0])
  {
    hide PrintNumber, Decimal, Overflows;
    if n >= 0 {
      NumberReads(n);
      assert PrintNumber(n)[0] in PrintNumber(n);
    }
  }

  /** What is written reads back to what is meant, whatever comes after it. */
  lemma {:induction false} ValueReads(d: Doc, tail: string)
    requires Fits(d) && EndsNumber(tail)
    ensures ReadValue(Write(d) + tail) == Done(Meant(d), tail)
    decreases d, 1
  {
    hide ReadValue, WriteInteger, WriteString, Overflows, ReadElements, ReadMembers, SkipWs;
    match d
    case Nothing => LiteralsRead(tail);
    case Truth(_) => LiteralsRead(tail);
    case Integer(n) => IntegerReads(n, tail);
    case Words(s) => StringReads(s, tail);
    case Sequence(items) =>
      assert Write(d) + tail == "[" + (WriteDocs(items) + ("]" + tail));
      if items.NoDocs? {
        ReadsNoNumbers("", "", tail);
        Empties("]" + tail);
      } else {
        ItemsRead(items, tail);
        StartsItem(items, "]" + tail);
        ReadsBrackets(WriteDocs(items) + ("]" + tail));
      }
    case Record(members) =>
      assert Write(d) + tail == "{" + (WriteMembers(members) + ("}" + tail));
      if members.NoMembers? {
        ReadsEmptyObject(tail);
        Empties("}" + tail);
      } else {
        MembersRead(members, tail);
        StartsMember(members, "}" + tail);
        ReadsObject(WriteMembers(members) + ("}" + tail));
      }
  }

  lemma Empties(s: string)
    ensures "" + ("" + s) == s && "" + s == s && AllWs("")
  {
  }

  lemma ReadsEmptyObject(tail: string)
    ensures ReadValue("{" + ("}" + tail)) == Done(Object(map[]), tail)
  {
    hide ReadMembers, ReadElements, ReadChars;
    var body := "}" + tail;
    assert ("{" + body)[1..] == body && body[1..] == tail && SkipWs(body) == body;
  }

  lemma StartsItem(items: Docs, after: string)
    requires items.OneDoc?
    ensures !StartsWith(SkipWs(WriteDocs(items) + after), ']')
  {
    hide Write;
    WritesSomething(items.first);
    var text := WriteDocs(items) + after;
    assert text[0] == Write(items.first)[0];
    SkipsTo("", text);
    assert "" + text == text;
  }

  lemma StartsMember(members: Members, after: string)
    requires members.OneMember?
    ensures !StartsWith(SkipWs(WriteMembers(members) + after), '}')
  {
    hide Write;
    var text := WriteMembers(members) + after;
    assert text[0] == '"';
    SkipsTo("", text);
    assert "" + text == text;
  }

  lemma {:induction false} ItemsRead(items: Docs, tail: string)
    requires items.OneDoc? && FitsAll(items)
    ensures ReadElements(WriteDocs(items) + ("]" + tail)) == Done(MeantAll(items), tail)
    decreases items, 0
  {
    hide ReadValue, Write, Meant, Fits;
    var first, others := items.first, items.others;
    var rest := WriteDocs(others) + ("]" + tail);
    var after := if others.NoDocs? then "]" + tail else "," + rest;
    assert WriteDocs(items) + ("]" + tail) == Write(first) + after;
    ValueReads(first, after);
    assert SkipWs(after) == after;
    if others.NoDocs? {
      assert after[1..] == tail && MeantAll(others) == [];
      assert [Meant(first)] + [] == [Meant(first)];
    } else {
      assert after[1..] == rest;
      ItemsRead(others, tail);
    }
  }

  /** The reader's steps over a key and its colon. */
  lemma KeyReads(key: string, rest: string)
    ensures var text := WriteString(key) + (":" + rest);
            && SkipWs(text) == text && text[0] == '"'
            && ReadChars(text[1..]) == Done(key, ":" + rest) && SkipWs(":" + rest) == ":" + rest
            && (":" + rest)[1..] == rest
  {
    hide ReadChars, WriteChars;
    var text := WriteString(key) + (":" + rest);
    assert text[1..] == WriteChars(key) + ("\"" + (":" + rest));
    WrittenCharsRead(key, ":" + rest);
  }

  lemma {:induction false} MembersRead(members: Members, tail: string)
    requires members.OneMember? && FitsFields(members)
    ensures ReadMembers(WriteMembers(members) + ("}" + tail)) == Done(MeantFields(members), tail)
    decreases members, 0
  {
    hide ReadValue, ReadChars, Write, WriteString, Meant, Fits, SkipWs;
    var key, value, others := members.key, members.value, members.others;
    var rest := WriteMembers(others) + ("}" + tail);
    var after := if others.NoMembers? then "}" + tail else "," + rest;
    var text := WriteMembers(members) + ("}" + tail);
    assert text == WriteString(key) + (":" + (Write(value) + after));
    KeyReads(key, Write(value) + after);
    ValueReads(value, after);
    SkipsTo("", after);
    Empties(after);
    if others.NoMembers? {
      assert after[1..] == tail && MeantFields(others) == map[];
      assert map[key := Meant(value)] + map[] == map[key := Meant(value)];
    } else {
      assert after[1..] == rest;
      MembersRead(others, tail);
    }
  }

  /** Round trip on every value: what is written parses to what is meant; also after a byte order mark, and
      before a null character and anything else. */
  lemma WrittenParses(d: Doc, junk: string)
    requires Fits(d)
    ensures Parse(Write(d)) == Some(Meant(d)) && Parse([BYTE_ORDER_MARK] + Write(d)) == Some(Meant(d))
    ensures Parse(Write(d) + ([0 as char] + junk)) == Some(Meant(d))
  {
    hide Write, ReadValue, Meant;
    ValueReads(d, "");
    ValueReads(d, [0 as char] + junk);
    var text := Write(d);
    assert text + "" == text;
    assert ([BYTE_ORDER_MARK] + text)[1..] == text;
    WritesSomething(d);
    assert (text + ([0 as char] + junk))[0] == text[0];
  }

  // ---- Intents ----

  function MembersOf(arguments: map<string, string>, order: seq<string>): Members
    requires forall k | k in order :: k in arguments
  {
    if order == [] then NoMembers else
      OneMember(order[0], Words(arguments[order[0]]), MembersOf(arguments, order[1..]))
  }

  function DocsOf(bytes: seq<Byte>): Docs {
    if bytes == [] then NoDocs else OneDoc(Integer(bytes[0] as int), DocsOf(bytes[1..]))
  }

  function PayloadOf(i: Warden.Intent, order: seq<string>): Members
    requires i.InvokeSeraph? ==> forall k | k in order :: k in i.arguments
  {
    match i
    case System2Think(monologue) => OneMember("internal_monologue", Words(monologue), NoMembers)
    case QueryMerovingian(entity, relation) =>
      OneMember("entity_node_id", Words(entity), OneMember("relation_type", Words(relation), NoMembers))
    case InvokeSeraph(module_, function_, arguments) =>
      OneMember("target_wasm_module", Words(module_), OneMember("target_function", Words(function_),
        OneMember("arguments", Record(MembersOf(arguments, order)), NoMembers)))
    case BroadcastSmith(agent, bytes) =>
      OneMember("target_agent_id", Integer(agent), OneMember("binary_payload", Sequence(DocsOf(bytes)), NoMembers))
  }

  function DocOf(i: Warden.Intent, order: seq<string>): Doc
    requires i.InvokeSeraph? ==> forall k | k in order :: k in i.arguments
  {
    var payload := OneMember("payload", Record(PayloadOf(i, order)), NoMembers);
    Record(OneMember("intent_type", Words(Warden.TypeName(i)), payload))
  }

  lemma FirstMember(arguments: map<string, string>, key: string, rest: seq<string>)
    requires key in arguments && forall k | k in rest :: k in arguments
    ensures map[key := String(arguments[key])] + (map k | k in rest :: String(arguments[k]))
         == map k | k in [key] + rest :: String(arguments[k])
  {
  }

  lemma {:induction false} MembersMean(arguments: map<string, string>, order: seq<string>)
    requires forall k | k in order :: k in arguments
    ensures FitsFields(MembersOf(arguments, order))
    ensures MeantFields(MembersOf(arguments, order)) == map k | k in order :: String(arguments[k])
  {
    hide Overflows;
    if order == [] {
    } else {
      var rest := order[1..];
      MembersMean(arguments, rest);
      var fields := map k | k in rest :: String(arguments[k]);
      FirstMember(arguments, order[0], rest);
      assert order == [order[0]] + rest;
    }
  }

  lemma {:induction false} DocsMean(bytes: seq<Byte>)
    ensures FitsAll(DocsOf(bytes)) && |MeantAll(DocsOf(bytes))| == |bytes|
    ensures forall k | 0 <= k < |bytes| :: MeantAll(DocsOf(bytes))[k] == Unsigned(bytes[k] as int)
  {
    hide Overflows;
    if bytes == [] {
    } else {
      DocsMean(bytes[1..]);
      IntegersFit(bytes[0] as nat);
    }
  }

  lemma OneMeans(a: string, x: Doc)
    ensures MeantFields(OneMember(a, x, NoMembers)) == map[a := Meant(x)]
    ensures FitsFields(OneMember(a, x, NoMembers)) <==> Fits(x)
  {
    hide Meant, Fits;
    assert map[a := Meant(x)] + map[] == map[a := Meant(x)];
  }

  lemma TwoMean(a: string, x: Doc, b: string, y: Doc)
    requires a != b
    ensures MeantFields(OneMember(a, x, OneMember(b, y, NoMembers))) == map[a := Meant(x), b := Meant(y)]
    ensures FitsFields(OneMember(a, x, OneMember(b, y, NoMembers))) <==> Fits(x) && Fits(y)
  {
    hide Meant, Fits;
    OneMeans(b, y);
    assert map[a := Meant(x)] + map[b := Meant(y)] == map[a := Meant(x), b := Meant(y)];
  }

  lemma ThreeMean(a: string, x: Doc, b: string, y: Doc, c: string, z: Doc)
    requires a != b && b != c && a != c
    ensures MeantFields(OneMember(a, x, OneMember(b, y, OneMember(c, z, NoMembers))))
         == map[a := Meant(x), b := Meant(y), c := Meant(z)]
    ensures FitsFields(OneMember(a, x, OneMember(b, y, OneMember(c, z, NoMembers)))) <==> Fits(x) && Fits(y) && Fits(z)
  {
    hide Meant, Fits;
    TwoMean(b, y, c, z);
    assert map[a := Meant(x)] + map[b := Meant(y), c := Meant(z)] == map[a := Meant(x), b := Meant(y), c := Meant(z)];
  }

  lemma PayloadMeans(i: Warden.Intent, order: seq<string>)
    requires i.InvokeSeraph? ==> Lists(order, i.arguments)
    ensures FitsFields(PayloadOf(i, order)) && MeantFields(PayloadOf(i, order)) == Warden.EncodePayload(i)
  {
    hide Overflows, MeantFields, FitsFields, MeantAll, FitsAll, MembersOf, DocsOf;
    match i
    case System2Think(monologue) => OneMeans("internal_monologue", Words(monologue));
    case QueryMerovingian(entity, relation) =>
      TwoMean("entity_node_id", Words(entity), "relation_type", Words(relation));
    case InvokeSeraph(module_, function_, arguments) =>
      MembersMean(arguments, order);
      var dict := Record(MembersOf(arguments, order));
      ThreeMean("target_wasm_module", Words(module_), "target_function", Words(function_), "arguments", dict);
      assert (map k | k in order :: String(arguments[k])) == Warden.StringTree(arguments);
    case BroadcastSmith(agent, bytes) =>
      IntegersFit(agent);
      DocsMean(bytes);
      TwoMean("target_agent_id", Integer(agent), "binary_payload", Sequence(DocsOf(bytes)));
      assert MeantAll(DocsOf(bytes)) == Warden.EncodePayload(i)["binary_payload"].items;
  }

  /** Every intent, whatever characters its strings hold, has a text that the validator gives back as exactly
      that intent. */
  lemma IntentsAreReadable(i: Warden.Intent, order: seq<string>)
    requires i.InvokeSeraph? ==> Lists(order, i.arguments)
    ensures Warden.Deserialize(Write(DocOf(i, order))) == Ok(i)
  {
    hide MeantFields, FitsFields, Write, Parse, Warden.EncodePayload, Warden.Decode, PayloadOf;
    PayloadMeans(i, order);
    TwoMean("intent_type", Words(Warden.TypeName(i)), "payload", Record(PayloadOf(i, order)));
    WrittenParses(DocOf(i, order), "");
    Warden.DecodeEncode(i);
  }

  /** Nothing in it has to be escaped. */
  predicate StandsAsItIs(s: string) {
    forall k | 0 <= k < |s| :: s[k] as int >= 32 && s[k] as int != 34 && s[k] as int != 92
  }

  lemma {:induction false} PlainIsWritten(s: string)
    requires StandsAsItIs(s)
    ensures WriteChars(s) == s
  {
    if s == "" {
    } else {
      PlainIsWritten(s[1..]);
      assert s == [s[0]] + s[1..];
    }
  }

  lemma RootWords()
    ensures WriteChars("intent_type") == "intent_type" && WriteChars("payload") == "payload"
  {
    hide WriteChars;
    assert StandsAsItIs("intent_type") && StandsAsItIs("payload");
    PlainIsWritten("intent_type");
    PlainIsWritten("payload");
  }

  lemma ThinkWords()
    ensures WriteChars("System2Think") == "System2Think" && WriteChars("internal_monologue") == "internal_monologue"
  {
    hide WriteChars;
    assert StandsAsItIs("System2Think") && StandsAsItIs("internal_monologue");
    PlainIsWritten("System2Think");
    PlainIsWritten("internal_monologue");
  }

  /** A name in quotes and a colon. */
  function KeyOf(name: string): string { "\"" + (name + "\":") }

  /** The think frame written around a monologue. */
  function ThinkFrame(monologue: string): string {
    "{" + (KeyOf("intent_type") + ("\"System2Think\"," + (KeyOf("payload")
      + ("{" + (KeyOf("internal_monologue") + ("\"" + (monologue + "\"}}")))))))
  }

  /** With a plain string, spaces and all, it is validated to that thought. */
  lemma PlainThought(s: string)
    requires StandsAsItIs(s)
    ensures Warden.Deserialize(ThinkFrame(s)) == Ok(Warden.System2Think(s))
  {
    hide Write, ThinkFrame, StandsAsItIs;
    IntentsAreReadable(Warden.System2Think(s), []);
    ThinkIsWritten(s);
  }

  lemma MemberWritten(key: string, value: Doc, others: Members)
    requires WriteChars(key) == key
    ensures WriteMembers(OneMember(key, value, others))
         == KeyOf(key) + (Write(value) + (if others.NoMembers? then "" else "," + WriteMembers(others)))
  {
    hide Write, WriteChars;
    var rest := Write(value) + (if others.NoMembers? then "" else "," + WriteMembers(others));
    assert WriteString(key) + (":" + rest) == KeyOf(key) + rest;
  }

  lemma ThinkIsWritten(s: string)
    requires StandsAsItIs(s)
    ensures Write(DocOf(Warden.System2Think(s), [])) == ThinkFrame(s)
  {
    hide WriteChars, WriteMembers, StandsAsItIs, KeyOf;
    PlainIsWritten(s);
    RootWords();
    ThinkWords();
    var members := OneMember("internal_monologue", Words(s), NoMembers);
    var payload := OneMember("payload", Record(members), NoMembers);
    MemberWritten("internal_monologue", Words(s), NoMembers);
    MemberWritten("payload", Record(members), NoMembers);
    MemberWritten("intent_type", Words("System2Think"), payload);
    NameWritten();
    Closed(KeyOf("intent_type"), KeyOf("payload"), KeyOf("internal_monologue"), s);
  }

  lemma NameWritten()
    requires WriteChars("System2Think") == "System2Think"
    ensures Write(Words("System2Think")) + "," == "\"System2Think\","
  {
    hide WriteChars;
  }

  /** The brackets of the frame close one after the other. */
  lemma Closed(a: string, b: string, c: string, s: string)
    ensures var quoted := "\"" + (s + "\"");
            var name := "\"System2Think\",";
            var inner := "{" + ((c + (quoted + "")) + "}");
            var outer := b + (inner + "");
            "{" + ((a + (name + outer)) + "}") == "{" + (a + (name + (b + ("{" + (c + ("\"" + (s + "\"}}")))))))
  {
    var quoted := "\"" + (s + "\"");
    assert (quoted + "") + "}" == "\"" + (s + "\"}");
    var inner := "{" + ((c + (quoted + "")) + "}");
    assert inner == "{" + (c + ("\"" + (s + "\"}")));
    assert (inner + "") + "}" == "{" + (c + ("\"" + (s + "\"}}")));
  }
}

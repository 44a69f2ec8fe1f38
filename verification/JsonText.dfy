/** Reading JSON text over code points, as RFC 8259 defines it and nlohmann::json 3.11.3 reads it. */
module JsonText {
  import opened Common
  import opened Json

  datatype Reading<+T> = Fail | Done(value: T, rest: string)

  predicate IsWs(c: char) { c == ' ' || c == '\t' || c == '\n' || c == '\r' }

  predicate IsDigit(c: char) { '0' <= c <= '9' }

  /** Control characters, which may not stand unescaped in a string. */
  predicate IsControl(c: char) { c < ' ' }

  predicate AllWs(s: string) { forall c | c in s :: IsWs(c) }

  predicate AllDigits(s: string) { forall c | c in s :: IsDigit(c) }

  function SkipWs(s: string): (r: string)
    ensures |r| <= |s|
  {
    if s != "" && IsWs(s[0]) then SkipWs(s[1..]) else s
  }

  /** The character a two-character escape stands for. */
  function Unescape(e: char): Option<char> {
    match e
    case '"' => Some('"')
    case '\\' => Some('\\')
    case '/' => Some('/')
    case 'b' => Some(8 as char)
    case 'f' => Some(12 as char)
    case 'n' => Some('\n')
    case 'r' => Some('\r')
    case 't' => Some('\t')
    case _ => None
  }

  function HexDigitOf(c: char): Option<nat> {
    if '0' <= c <= '9' then Some(c as nat - '0' as nat)
    else if 'a' <= c <= 'f' then Some(c as nat - 'a' as nat + 10)
    else if 'A' <= c <= 'F' then Some(c as nat - 'A' as nat + 10)
    else None
  }

  /** The value of the first n hexadecimal digits. */
  function HexPrefix(s: string, n: nat): (u: Option<nat>)
    ensures u.Some? ==> n <= |s|
    ensures u.Some? && n <= 4 ==>
              u.value < (match n case 0 => 1 case 1 => 16 case 2 => 256 case 3 => 4096 case _ => 65536)
  {
    if n == 0 then Some(0)
    else if n > |s| || HexDigitOf(s[n - 1]).None? then None
    else
      match HexPrefix(s, n - 1)
      case None => None
      case Some(u) => Some(16 * u + HexDigitOf(s[n - 1]).value)
  }

  /** What follows "\\u": four hexadecimal digits, or a surrogate pair of two such escapes. */
  function ReadCodePoint(s: string): (r: Reading<char>)
    ensures r.Done? ==> |r.rest| < |s|
  {
    match HexPrefix(s, 4)
    case None => Fail
    case Some(u) =>
      if 0xD800 <= u < 0xDC00 then
        if |s| < 6 || s[4] != '\\' || s[5] != 'u' then Fail else
          match HexPrefix(s[6..], 4)
          case None => Fail
          case Some(v) =>
            if 0xDC00 <= v < 0xE000 then Done((0x10000 + (u - 0xD800) * 0x400 + (v - 0xDC00)) as char, s[10..])
            else Fail
      else if 0xDC00 <= u < 0xE000 then Fail
      else Done(u as char, s[4..])
  }

  /** The rest of a string after its opening quote. */
  function ReadChars(s: string): (r: Reading<string>)
    ensures r.Done? ==> |r.rest| < |s|
  {
    if s == "" then Fail
    else if s[0] == '"' then Done("", s[1..])
    else if s[0] == '\\' then
      if |s| == 1 then Fail
      else if s[1] == 'u' then
        match ReadCodePoint(s[2..])
        case Fail => Fail
        case Done(c, rest) =>
          var tail := ReadChars(rest);
          if tail.Fail? then Fail else Done([c] + tail.value, tail.rest)
      else if Unescape(s[1]).None? then Fail else
        var tail := ReadChars(s[2..]);
        if tail.Fail? then Fail else Done([Unescape(s[1]).value] + tail.value, tail.rest)
    else if IsControl(s[0]) then Fail
    else
      var tail := ReadChars(s[1..]);
      if tail.Fail? then Fail else Done([s[0]] + tail.value, tail.rest)
  }

  function LeadingDigits(s: string): (d: string)
    ensures |d| <= |s| && d == s[..|d|] && AllDigits(d)
    ensures |d| < |s| ==> !IsDigit(s[|d|])
  {
    if s != "" && IsDigit(s[0]) then [s[0]] + LeadingDigits(s[1..]) else ""
  }

  function DigitValue(c: char): nat
    requires IsDigit(c)
  {
    c as nat - '0' as nat
  }

  function Decimal(d: string): nat
    requires AllDigits(d)
  {
    if d == "" then 0 else 10 * Decimal(d[..|d| - 1]) + DigitValue(d[|d| - 1])
  }

  function Power(base: nat, e: nat): (p: nat)
    ensures base > 0 ==> p > 0
  {
    if e == 0 then 1 else base * Power(base, e - 1)
  }

  /** The least number that a double does not hold: the midpoint above the largest finite one. */
  function DoubleLimit(): nat { (Power(2, 54) - 1) * Power(2, 970) }

  /** m * 10^e rounds to infinity. */
  predicate Overflows(m: nat, e: int) {
    if e >= 0 then m * Power(10, e) >= DoubleLimit() else m >= DoubleLimit() * Power(10, -e)
  }

  /** No number but zero starts with a zero. */
  predicate IsWhole(d: string) { AllDigits(d) && d != "" && (d[0] == '0' ==> |d| == 1) }

  /** Digits that the parser takes for a number. */
  predicate IsNumeral(d: string) { IsWhole(d) && !Overflows(Decimal(d), 0) }

  /** An integer without a sign; beyond 64 bits it becomes a floating-point value. */
  function NumberOf(d: string): Json
    requires AllDigits(d)
  {
    if Decimal(d) < 0x1_0000_0000_0000_0000 then Unsigned(Decimal(d)) else Float
  }

  function NegativeOf(d: string): Json
    requires AllDigits(d)
  {
    if Decimal(d) <= 0x8000_0000_0000_0000 then Signed(0 - Decimal(d) as int) else Float
  }

  /** A dot and the digits after it, if there is a dot. */
  function ReadFraction(s: string): (r: Reading<string>)
    ensures r.Done? ==> AllDigits(r.value) && |r.rest| <= |s| && (r.value == "" ==> r.rest == s)
  {
    if !StartsWith(s, '.') then Done("", s) else
      var d := LeadingDigits(s[1..]);
      if d == "" then Fail else Done(d, s[1 + |d|..])
  }

  /** The power of ten, if there is one. */
  function ReadExponent(s: string): (r: Reading<Option<int>>)
    ensures r.Done? ==> |r.rest| <= |s| && (r.value.None? ==> r.rest == s)
  {
    if !StartsWith(s, 'e') && !StartsWith(s, 'E') then Done(None, s) else
      var signed := StartsWith(s[1..], '-') || StartsWith(s[1..], '+');
      var t := if signed then s[2..] else s[1..];
      var d := LeadingDigits(t);
      if d == "" then Fail
      else Done(Some(if StartsWith(s[1..], '-') then 0 - Decimal(d) as int else Decimal(d)), t[|d|..])
  }

  function ReadNumber(s: string): (r: Reading<Json>)
    ensures r.Done? ==> |r.rest| < |s|
  {
    var negative := StartsWith(s, '-');
    var u := if negative then s[1..] else s;
    var whole := LeadingDigits(u);
    if !IsWhole(whole) then Fail else
      var fraction := ReadFraction(u[|whole|..]);
      if fraction.Fail? then Fail else
        var exponent := ReadExponent(fraction.rest);
        if exponent.Fail? then Fail else
          var m := Decimal(whole + fraction.value);
          var e := (if exponent.value.Some? then exponent.value.value else 0) - |fraction.value|;
          if Overflows(m, e) then Fail
          else if fraction.value != "" || exponent.value.Some? then Done(Float, exponent.rest)
          else Done(if negative then NegativeOf(whole) else NumberOf(whole), exponent.rest)
  }

  predicate StartsWith(s: string, c: char) { s != "" && s[0] == c }

  function ReadLiteral(t: string): (r: Reading<Json>)
    ensures r.Done? ==> |r.rest| < |t|
  {
    if |t| >= 4 && t[..4] == "true" then Done(Bool(true), t[4..])
    else if |t| >= 5 && t[..5] == "false" then Done(Bool(false), t[5..])
    else if |t| >= 4 && t[..4] == "null" then Done(Null, t[4..])
    else Fail
  }

  function ReadValue(s: string): (r: Reading<Json>)
    ensures r.Done? ==> |r.rest| < |s|
    decreases |s|, 1
  {
    var t := SkipWs(s);
    if StartsWith(t, '"') then
      var chars := ReadChars(t[1..]);
      if chars.Fail? then Fail else Done(String(chars.value), chars.rest)
    else if t != "" && (IsDigit(t[0]) || t[0] == '-') then ReadNumber(t)
    else if StartsWith(t, '[') then
      if StartsWith(SkipWs(t[1..]), ']') then Done(Array([]), SkipWs(t[1..])[1..]) else
        var items := ReadElements(t[1..]);
        if items.Fail? then Fail else Done(Array(items.value), items.rest)
    else if StartsWith(t, '{') then
      if StartsWith(SkipWs(t[1..]), '}') then Done(Object(map[]), SkipWs(t[1..])[1..]) else
        var members := ReadMembers(t[1..]);
        if members.Fail? then Fail else Done(Object(members.value), members.rest)
    else ReadLiteral(t)
  }

  /** One or more elements and the closing bracket. */
  function ReadElements(s: string): (r: Reading<seq<Json>>)
    ensures r.Done? ==> |r.rest| < |s|
    decreases |s|, 2
  {
    var item := ReadValue(s);
    if item.Fail? then Fail else
      var t := SkipWs(item.rest);
      if StartsWith(t, ']') then Done([item.value], t[1..])
      else if StartsWith(t, ',') then
        var tail := ReadElements(t[1..]);
        if tail.Fail? then Fail else Done([item.value] + tail.value, tail.rest)
      else Fail
  }

  /** One or more members and the closing brace; the last of two equal names counts. */
  function ReadMembers(s: string): (r: Reading<map<string, Json>>)
    ensures r.Done? ==> |r.rest| < |s|
    decreases |s|, 2
  {
    var t := SkipWs(s);
    if !StartsWith(t, '"') then Fail else
      var key := ReadChars(t[1..]);
      if key.Fail? || !StartsWith(SkipWs(key.rest), ':') then Fail else
        var value := ReadValue(SkipWs(key.rest)[1..]);
        if value.Fail? then Fail else
          var u := SkipWs(value.rest);
          if StartsWith(u, '}') then Done(map[key.value := value.value], u[1..])
          else if StartsWith(u, ',') then
            var tail := ReadMembers(u[1..]);
            if tail.Fail? then Fail else Done(map[key.value := value.value] + tail.value, tail.rest)
          else Fail
  }

  const BYTE_ORDER_MARK: char := '\U{FEFF}'

  /** A whole text: one value with nothing but whitespace around it, after a byte order mark if there
      is one. A null character ends the text. */
  function Parse(text: string): Option<Json> {
    var r := ReadValue(if StartsWith(text, BYTE_ORDER_MARK) then text[1..] else text);
    if r.Fail? then None else
      var end := SkipWs(r.rest);
      if end == "" || end[0] == 0 as char then Some(r.value) else None
  }

  // ---- How the readers take one construct off the front ----

  lemma {:induction false} SkipsWs(w: string, s: string)
    requires AllWs(w)
    ensures SkipWs(w + s) == SkipWs(s)
  {
    if w == "" {
      assert w + s == s;
    } else {
      assert (w + s)[0] == w[0] && w[0] in w && (w + s)[1..] == w[1..] + s;
      SkipsWs(w[1..], s);
    }
  }

  lemma ValueSkipsWs(w: string, s: string)
    requires AllWs(w)
    ensures ReadValue(w + s) == ReadValue(s)
  {
    SkipsWs(w, s);
  }

  /** The next character, if any, does not continue a number. */
  predicate EndsNumber(tail: string) {
    tail == "" || (!IsDigit(tail[0]) && tail[0] != '.' && tail[0] != 'e' && tail[0] != 'E')
  }

  lemma TakesNumber(d: string, tail: string)
    requires AllDigits(d) && d != "" && EndsNumber(tail)
    ensures ReadNumber(d + tail) == if IsNumeral(d) then Done(NumberOf(d), tail) else Fail
  {
    hide Overflows, NumberOf, Decimal;
    var text := d + tail;
    assert text[0] == d[0] && d[0] in d;
    TakesDigits(d, tail);
    assert text[|d|..] == tail && d + "" == d;
  }

  lemma {:induction false} TakesDigits(d: string, tail: string)
    requires AllDigits(d) && (tail != "" ==> !IsDigit(tail[0]))
    ensures LeadingDigits(d + tail) == d
  {
    if d == "" {
      assert d + tail == tail;
    } else {
      assert (d + tail)[0] == d[0] && d[0] in d && (d + tail)[1..] == d[1..] + tail;
      TakesDigits(d[1..], tail);
    }
  }

  // ---- Integers of 64 bits are far below the limit of a double ----

  lemma {:induction false} PowerMonotone(base: nat, a: nat, b: nat)
    requires base > 0 && a <= b
    ensures Power(base, a) <= Power(base, b)
  {
    if a == b {
    } else {
      PowerMonotone(base, a, b - 1);
    }
  }

  lemma {:induction false} PowerAdds(base: nat, a: nat, b: nat)
    ensures Power(base, a + b) == Power(base, a) * Power(base, b)
  {
    if a == 0 {
    } else {
      PowerAdds(base, a - 1, b);
      var p, q := Power(base, a - 1), Power(base, b);
      assert base * (p * q) == (base * p) * q;
    }
  }

  /** Half way between the largest double, 2^1024 - 2^971, and 2^1024. */
  lemma LimitIsMidpoint()
    ensures DoubleLimit() == Power(2, 1024) - Power(2, 970)
  {
    hide Power;
    PowerAdds(2, 54, 970);
    var p, q := Power(2, 54), Power(2, 970);
    assert (p - 1) * q == p * q - q;
  }

  lemma PowerOfTwo64()
    ensures Power(2, 64) == 0x1_0000_0000_0000_0000
  {
    assert Power(2, 8) == 0x100;
    assert Power(2, 16) == 0x1_0000;
    assert Power(2, 24) == 0x100_0000;
    assert Power(2, 32) == 0x1_0000_0000;
    assert Power(2, 40) == 0x100_0000_0000;
    assert Power(2, 48) == 0x1_0000_0000_0000;
    assert Power(2, 56) == 0x100_0000_0000_0000;
  }

  lemma IntegersFit(n: U64)
    ensures !Overflows(n, 0)
  {
    PowerOfTwo64();
    PowerMonotone(2, 64, 970);
    PowerMonotone(2, 1, 54);
    assert Power(2, 1) == 2 * Power(2, 0);
    var p := Power(2, 970);
    assert (Power(2, 54) - 1) * p >= p;
    assert Power(10, 0) == 1;
  }
}

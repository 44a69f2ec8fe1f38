/** JSON trees as nlohmann::json holds them: an object is a map, and a number is an unsigned 64-bit
    integer, a signed 64-bit integer or a floating-point value. */
module Json {
  import opened Common

  type I64 = i: int | -0x8000_0000_0000_0000 <= i < 0x8000_0000_0000_0000

  datatype Json =
    | Null
    | Bool(b: bool)
    | Unsigned(u: U64)
    | Signed(i: I64)
    | Float
    | String(s: string)
    | Array(items: seq<Json>)
    | Object(fields: map<string, Json>)
  {
    predicate Has(key: string) { Object? && key in fields }

    predicate HasString(key: string) { Has(key) && fields[key].String? }

    /** The string under a key that holds one. */
    function StringAt(key: string): string
      requires HasString(key)
    {
      fields[key].s
    }
  }

  /** No number in the tree is of the signed kind. */
  predicate NoSigned(j: Json) {
    match j
    case Signed(_) => false
    case Array(items) => forall k | 0 <= k < |items| :: NoSigned(items[k])
    case Object(fields) => forall k | k in fields :: NoSigned(fields[k])
    case _ => true
  }

  /** The tree with every integer that is not negative of the unsigned kind. The parser makes a signed
      zero of "-0"; nlohmann::json compares the two zeros as equal. */
  function Normal(j: Json): Json {
    match j
    case Signed(i) => if i >= 0 then Unsigned(i) else j
    case Array(items) => Array(seq(|items|, k requires 0 <= k < |items| => Normal(items[k])))
    case Object(fields) => Object(map k | k in fields :: Normal(fields[k]))
    case _ => j
  }

  /** Only signed numbers change. */
  lemma {:induction false} NormalKeeps(j: Json)
    requires NoSigned(j)
    ensures Normal(j) == j
  {
    match j
    case Array(items) =>
      forall k | 0 <= k < |items| ensures Normal(items[k]) == items[k] { NormalKeeps(items[k]); }
    case Object(fields) =>
      forall k | k in fields ensures Normal(fields[k]) == fields[k] { NormalKeeps(fields[k]); }
      assert Normal(j).fields == fields;
    case _ =>
  }

  // ---- The order in which an object's keys are visited ----

  /** Byte-wise lexicographic order, strict. */
  predicate Less(a: string, b: string) {
    if b == "" then false
    else if a == "" then true
    else a[0] < b[0] || (a[0] == b[0] && Less(a[1..], b[1..]))
  }

  lemma {:induction false} LessTrichotomy(a: string, b: string)
    ensures (Less(a, b) && !Less(b, a) && a != b) || (Less(b, a) && !Less(a, b) && a != b)
         || (a == b && !Less(a, b))
  {
    if a != "" && b != "" && a[0] == b[0] {
      LessTrichotomy(a[1..], b[1..]);
      assert a == [a[0]] + a[1..] && b == [b[0]] + b[1..];
    }
  }

  lemma {:induction false} LessTransitive(a: string, b: string, c: string)
    requires Less(a, b) && Less(b, c)
    ensures Less(a, c)
  {
    if a != "" && a[0] == b[0] && b[0] == c[0] {
      LessTransitive(a[1..], b[1..], c[1..]);
    }
  }

  predicate IsFirst(k: string, keys: set<string>) {
    k in keys && forall o | o in keys && o != k :: Less(k, o)
  }

  /** Every non-empty set of keys has a first one. */
  lemma {:induction false} FirstExists(keys: set<string>) returns (k: string)
    requires keys != {}
    ensures IsFirst(k, keys)
    decreases |keys|
  {
    k :| k in keys;
    if keys == {k} {
    } else {
      var rest := keys - {k};
      var r := FirstExists(rest);
      LessTrichotomy(k, r);
      if Less(k, r) {
        forall o | o in keys && o != k ensures Less(k, o) {
          if o != r { LessTransitive(k, r, o); }
        }
      } else {
        k := r;
      }
    }
  }
}

/** SHA-256 as sections 4, 5 and 6.2 of FIPS 180-4 define it, by recursion over words, rounds and
    blocks. Module Sha256 is proved against this reference. */
module Fips180 {
  import opened Common

  newtype Byte = n: int | 0 <= n < 256
  type Word = bv32

  const TWO_TO_THE_61: nat := 0x2000_0000_0000_0000
  const TWO_TO_THE_64: nat := 0x1_0000_0000_0000_0000

  /** The table of section 4.2.2, eight constants a row. */
  function ConstantRow(r: nat): (row: seq<Word>)
    requires r < 8
    ensures |row| == 8
  {
    match r
    case 0 => [0x428a2f98, 0x71374491, 0xb5c0fbcf, 0xe9b5dba5,
                0x3956c25b, 0x59f111f1, 0x923f82a4, 0xab1c5ed5]
    case 1 => [0xd807aa98, 0x12835b01, 0x243185be, 0x550c7dc3,
                0x72be5d74, 0x80deb1fe, 0x9bdc06a7, 0xc19bf174]
    case 2 => [0xe49b69c1, 0xefbe4786, 0x0fc19dc6, 0x240ca1cc,
                0x2de92c6f, 0x4a7484aa, 0x5cb0a9dc, 0x76f988da]
    case 3 => [0x983e5152, 0xa831c66d, 0xb00327c8, 0xbf597fc7,
                0xc6e00bf3, 0xd5a79147, 0x06ca6351, 0x14292967]
    case 4 => [0x27b70a85, 0x2e1b2138, 0x4d2c6dfc, 0x53380d13,
                0x650a7354, 0x766a0abb, 0x81c2c92e, 0x92722c85]
    case 5 => [0xa2bfe8a1, 0xa81a664b, 0xc24b8b70, 0xc76c51a3,
                0xd192e819, 0xd6990624, 0xf40e3585, 0x106aa070]
    case 6 => [0x19a4c116, 0x1e376c08, 0x2748774c, 0x34b0bcb5,
                0x391c0cb3, 0x4ed8aa4a, 0x5b9cca4f, 0x682e6ff3]
    case _ => [0x748f82ee, 0x78a5636f, 0x84c87814, 0x8cc70208,
                0x90befffa, 0xa4506ceb, 0xbef9a3f7, 0xc67178f2]
  }

  /** The constant of round t. */
  function K(t: nat): Word
    requires t < 64
  {
    ConstantRow(t / 8)[t % 8]
  }

  /** The eight working variables, and also the hash value between blocks. */
  datatype Vars = Vars(a: Word, b: Word, c: Word, d: Word, e: Word, f: Word, g: Word, h: Word)
  {
    function Words(): (w: seq<Word>)
      ensures |w| == 8
    {
      [a, b, c, d, e, f, g, h]
    }
  }

  /** Section 5.3.3. */
  const H0: Vars := Vars(0x6a09e667, 0xbb67ae85, 0x3c6ef372, 0xa54ff53a,
                         0x510e527f, 0x9b05688c, 0x1f83d9ab, 0x5be0cd19)

  // ---- Section 4.1.2: the functions on words ----

  /** Addition modulo 2^32. */
  function Add(x: Word, y: Word): Word { x + y }

  function Ch(x: Word, y: Word, z: Word): Word { (x & y) ^ (!x & z) }
  function Maj(x: Word, y: Word, z: Word): Word { (x & y) ^ (x & z) ^ (y & z) }
  function BigSigma0(x: Word): Word { x.RotateRight(2) ^ x.RotateRight(13) ^ x.RotateRight(22) }
  function BigSigma1(x: Word): Word { x.RotateRight(6) ^ x.RotateRight(11) ^ x.RotateRight(25) }
  function SmallSigma0(x: Word): Word { x.RotateRight(7) ^ x.RotateRight(18) ^ (x >> 3) }
  function SmallSigma1(x: Word): Word { x.RotateRight(17) ^ x.RotateRight(19) ^ (x >> 10) }

  // ---- Section 6.2.2: one block ----

  /** The t-th word of the message schedule. */
  function W(block: seq<Byte>, t: nat): Word
    requires |block| == 64 && t < 64
  {
    if t < 16 then
      BigEndianWord(block[4 * t], block[4 * t + 1], block[4 * t + 2], block[4 * t + 3])
    else
      Add(Add(Add(SmallSigma1(W(block, t - 2)), W(block, t - 7)), SmallSigma0(W(block, t - 15))), W(block, t - 16))
  }

  function BigEndianWord(b0: Byte, b1: Byte, b2: Byte, b3: Byte): Word {
    (b0 as Word << 24) | (b1 as Word << 16) | (b2 as Word << 8) | (b3 as Word)
  }

  function Round(v: Vars, k: Word, w: Word): Vars {
    var t1 := Add(Add(Add(Add(v.h, BigSigma1(v.e)), Ch(v.e, v.f, v.g)), k), w);
    var t2 := Add(BigSigma0(v.a), Maj(v.a, v.b, v.c));
    Vars(Add(t1, t2), v.a, v.b, v.c, Add(v.d, t1), v.e, v.f, v.g)
  }

  function Rounds(block: seq<Byte>, v: Vars, t: nat): Vars
    requires |block| == 64 && t <= 64
  {
    if t == 0 then v else Round(Rounds(block, v, t - 1), K(t - 1), W(block, t - 1))
  }

  function Compress(v: Vars, block: seq<Byte>): Vars
    requires |block| == 64
  {
    var r := Rounds(block, v, 64);
    Vars(Add(v.a, r.a), Add(v.b, r.b), Add(v.c, r.c), Add(v.d, r.d),
         Add(v.e, r.e), Add(v.f, r.f), Add(v.g, r.g), Add(v.h, r.h))
  }

  /** The hash value after the first n blocks. */
  function Chain(blocks: seq<Byte>, n: nat): Vars
    requires n * 64 <= |blocks|
  {
    if n == 0 then H0 else Compress(Chain(blocks, n - 1), blocks[(n - 1) * 64..n * 64])
  }

  // ---- Section 5.1.1: padding ----

  /** The least number of zero bytes after the 0x80 byte that leaves room for just the length. */
  function ZeroBytes(length: nat): (k: nat)
    ensures k < 64 && (length + 1 + k) % 64 == 56 && (length + 9 + k) % 64 == 0
  {
    if length % 64 <= 55 then 55 - length % 64 else 119 - length % 64
  }

  function Zeros(n: nat): seq<Byte> { seq(n, _ => 0) }

  /** The low w bytes of n, most significant first. */
  function BigEndian(n: nat, w: nat): (s: seq<Byte>)
    ensures |s| == w
  {
    if w == 0 then [] else BigEndian(n / 256, w - 1) + [(n % 256) as Byte]
  }

  function FromBigEndian(s: seq<Byte>): nat {
    if s == [] then 0 else FromBigEndian(s[..|s| - 1]) * 256 + s[|s| - 1] as nat
  }

  function Pad(message: seq<Byte>): (blocks: seq<Byte>)
    ensures |blocks| == |message| + 9 + ZeroBytes(|message|) && |blocks| % 64 == 0
  {
    message + [0x80] + Zeros(ZeroBytes(|message|)) + BigEndian(8 * |message|, 8)
  }

  /** Recovers the message from its padded form by reading the length field. */
  function Unpad(blocks: seq<Byte>): seq<Byte> {
    if |blocks| < 8 then [] else
      var length := FromBigEndian(blocks[|blocks| - 8..]) / 8;
      if length <= |blocks| then blocks[..length] else []
  }

  // ---- Section 6.2: the digest, printed in hexadecimal ----

  function HashValue(message: seq<Byte>): Vars {
    Chain(Pad(message), |Pad(message)| / 64)
  }

  function HexDigit(d: nat): char
    requires d < 16
  {
    "0123456789abcdef"[d]
  }

  /** The low w hexadecimal digits of n, most significant first. */
  function Hex(n: nat, w: nat): (s: string)
    ensures |s| == w
  {
    if w == 0 then [] else Hex(n / 16, w - 1) + [HexDigit(n % 16)]
  }

  /** Eight digits for every word. */
  function HexWords(words: seq<Word>): (s: string)
    ensures |s| == 8 * |words|
  {
    if words == [] then [] else
      HexWords(words[..|words| - 1]) + Hex(words[|words| - 1] as nat, 8)
  }

  function Digest(message: seq<Byte>): string {
    HexWords(HashValue(message).Words())
  }

  // ---- What the definitions above achieve ----

  /** A word with a single bit set. */
  predicate IsBit(m: Word) { m != 0 && m & (m - 1) == 0 }

  function Mask(x: Word, m: Word): Word { x & m }

  predicate Has(x: Word, m: Word) { Mask(x, m) != 0 }

  lemma AllOrNothing(x: Word, m: Word)
    requires IsBit(m)
    ensures m != 0 && (Mask(x, m) == 0 || Mask(x, m) == m)
  {
  }

  /** Masks pass through the two functions, and settle them where a word is all zeros or all mask. */
  lemma MaskCh(x: Word, y: Word, z: Word, m: Word)
    ensures Mask(Ch(x, y, z), m) == Mask(Ch(Mask(x, m), Mask(y, m), Mask(z, m)), m)
  {
  }

  lemma MaskMaj(x: Word, y: Word, z: Word, m: Word)
    ensures Mask(Maj(x, y, z), m) == Maj(Mask(x, m), Mask(y, m), Mask(z, m))
  {
  }

  lemma ChWhere(y: Word, z: Word, m: Word)
    ensures Mask(Ch(m, Mask(y, m), Mask(z, m)), m) == Mask(y, m)
    ensures Mask(Ch(0, Mask(y, m), Mask(z, m)), m) == Mask(z, m)
  {
  }

  lemma MajWhere(m: Word)
    ensures Maj(0, 0, 0) == 0 && Maj(m, 0, 0) == 0 && Maj(0, m, 0) == 0 && Maj(0, 0, m) == 0
    ensures Maj(m, m, 0) == m && Maj(m, 0, m) == m && Maj(0, m, m) == m && Maj(m, m, m) == m
  {
  }

  /** Bit by bit, Ch chooses and Maj takes the majority. */
  lemma ChooseAndMajority(x: Word, y: Word, z: Word, m: Word)
    requires IsBit(m)
    ensures Has(Ch(x, y, z), m) <==> if Has(x, m) then Has(y, m) else Has(z, m)
    ensures Has(Maj(x, y, z), m)
       <==> (Has(x, m) && Has(y, m)) || (Has(x, m) && Has(z, m)) || (Has(y, m) && Has(z, m))
  {
    hide Ch, Maj, IsBit, Mask;
    AllOrNothing(x, m);
    AllOrNothing(y, m);
    AllOrNothing(z, m);
    MaskCh(x, y, z, m);
    MaskMaj(x, y, z, m);
    ChWhere(y, z, m);
    MajWhere(m);
  }

  /** Blocks absorbed from the front, one after the other. */
  function Absorb(v: Vars, blocks: seq<Byte>): Vars
    requires |blocks| % 64 == 0
    decreases |blocks|
  {
    if blocks == [] then v else Absorb(Compress(v, blocks[..64]), blocks[64..])
  }

  lemma {:induction false} AbsorbMore(v: Vars, blocks: seq<Byte>, last: seq<Byte>)
    requires |blocks| % 64 == 0 && |last| == 64
    ensures Absorb(v, blocks + last) == Compress(Absorb(v, blocks), last)
    decreases |blocks|
  {
    hide Compress;
    var all := blocks + last;
    if blocks == [] {
      assert all[..64] == last && all[64..] == [];
    } else {
      assert all[..64] == blocks[..64] && all[64..] == blocks[64..] + last;
      AbsorbMore(Compress(v, blocks[..64]), blocks[64..], last);
    }
  }

  /** The chain, which is defined from its last block, absorbs every block once, in order. */
  lemma {:induction false} ChainAbsorbs(blocks: seq<Byte>, n: nat)
    requires n * 64 <= |blocks|
    ensures Chain(blocks, n) == Absorb(H0, blocks[..n * 64])
  {
    hide Compress;
    if n == 0 {
      assert blocks[..0] == [];
    } else {
      ChainAbsorbs(blocks, n - 1);
      AbsorbMore(H0, blocks[..(n - 1) * 64], blocks[(n - 1) * 64..n * 64]);
      assert blocks[..n * 64] == blocks[..(n - 1) * 64] + blocks[(n - 1) * 64..n * 64];
    }
  }

  function Pow256(w: nat): (p: nat)
    ensures p > 0
  {
    if w == 0 then 1 else 256 * Pow256(w - 1)
  }

  lemma {:induction false} BigEndianRoundTrip(n: nat, w: nat)
    ensures FromBigEndian(BigEndian(n, w)) == n % Pow256(w)
  {
    if w == 0 {
    } else {
      BigEndianRoundTrip(n / 256, w - 1);
      DigitMod(n, Pow256(w - 1));
      assert BigEndian(n, w)[..w - 1] == BigEndian(n / 256, w - 1);
    }
  }

  /** n mod 256p, split into its last base-256 digit and the rest. */
  lemma DigitMod(n: nat, p: nat)
    requires p > 0
    ensures n % (256 * p) == (n / 256) % p * 256 + n % 256
  {
    var q, r := n / 256 / p, (n / 256) % p;
    assert n / 256 == q * p + r;
    var m := r * 256 + n % 256;
    assert n == (256 * p) * q + m;
    assert m < 256 * p by { assert (r + 1) * 256 <= p * 256; }
    DivisionUnique(n, 256 * p, q, m);
  }

  lemma DivisionUnique(n: int, d: int, q: int, r: int)
    requires d > 0 && 0 <= r < d && n == d * q + r
    ensures n / d == q && n % d == r
  {
    var q', r' := n / d, n % d;
    assert n == d * q' + r';
    if q > q' {
      Monotone(d, q' + 1, q);
    } else if q < q' {
      Monotone(d, q + 1, q');
    }
  }

  lemma Monotone(d: int, x: int, y: int)
    requires d > 0 && x <= y
    ensures d * x <= d * y
  {
  }

  lemma Pow256Of8()
    ensures Pow256(8) == TWO_TO_THE_64
  {
    assert Pow256(4) == 0x1_0000_0000;
  }

  lemma FieldOf(n: nat, w: nat)
    requires w == 8
    ensures FromBigEndian(BigEndian(n, w)) == n % TWO_TO_THE_64
  {
    BigEndianRoundTrip(n, w);
    Pow256Of8();
  }

  /** Eight bytes hold n exactly when n is below 2^64. */
  lemma EightBytesExact(n: nat, w: nat)
    requires w == 8
    ensures FromBigEndian(BigEndian(n, w)) == n <==> n < TWO_TO_THE_64
  {
    hide FromBigEndian, BigEndian;
    FieldOf(n, w);
  }

  /** The length field holds the length in bits exactly when FIPS 180-4 admits the message. */
  lemma LengthFieldExact(message: seq<Byte>)
    ensures var blocks := Pad(message);
            FromBigEndian(blocks[|blocks| - 8..]) == 8 * |message| <==> |message| < TWO_TO_THE_61
  {
    var blocks := Pad(message);
    assert blocks[|blocks| - 8..] == BigEndian(8 * |message|, 8);
    EightBytesExact(8 * |message|, 8);
  }

  /** No shorter run of zero bytes leaves whole blocks, so the padded form is the shortest. */
  lemma PadIsShortest(message: seq<Byte>, zeros: nat)
    requires |message + [0x80] + Zeros(zeros) + BigEndian(8 * |message|, 8)| % 64 == 0
    ensures ZeroBytes(|message|) <= zeros
    ensures zeros < 64 ==> message + [0x80] + Zeros(zeros) + BigEndian(8 * |message|, 8) == Pad(message)
  {
    hide BigEndian;
    var length := |message|;
    assert (length + 1 + zeros + 8) % 64 == 0;
    assert ZeroBytes(length) <= zeros;
    assert zeros < 64 ==> zeros == ZeroBytes(length);
  }

  lemma UnpadPad(message: seq<Byte>)
    requires |message| < TWO_TO_THE_61
    ensures Unpad(Pad(message)) == message
  {
    LengthFieldExact(message);
  }

  /** Messages of any length are told apart by their padded forms: equally long forms come from lengths
      within 64 of each other, and the length field tells those apart even where it has wrapped. */
  lemma PadInjective(m1: seq<Byte>, m2: seq<Byte>)
    requires Pad(m1) == Pad(m2)
    ensures m1 == m2
  {
    hide BigEndian;
    var blocks := Pad(m1);
    FieldModulo(m1);
    FieldModulo(m2);
    assert blocks[|blocks| - 8..] == BigEndian(8 * |m1|, 8) == BigEndian(8 * |m2|, 8);
    SameResidue(8 * |m1|, 8 * |m2|);
    assert m1 == blocks[..|m1|] && m2 == blocks[..|m2|];
  }

  lemma FieldModulo(message: seq<Byte>)
    ensures FromBigEndian(BigEndian(8 * |message|, 8)) == 8 * |message| % TWO_TO_THE_64
    ensures var blocks := Pad(message); blocks[|blocks| - 8..] == BigEndian(8 * |message|, 8)
  {
    hide BigEndian, FromBigEndian;
    FieldOf(8 * |message|, 8);
  }

  lemma SameResidue(a: nat, b: nat)
    requires a % TWO_TO_THE_64 == b % TWO_TO_THE_64
    requires a - b < TWO_TO_THE_64 && b - a < TWO_TO_THE_64
    ensures a == b
  {
  }

  function HexValue(c: char): Option<nat> {
    if '0' <= c <= '9' then Some(c as nat - '0' as nat)
    else if 'a' <= c <= 'f' then Some(c as nat - 'a' as nat + 10)
    else None
  }

  /** Reads hexadecimal digits; None if some character is not a lower-case one. */
  function Unhex(s: string): Option<nat> {
    if s == [] then Some(0)
    else
      var digit := HexValue(s[|s| - 1]);
      var rest := Unhex(s[..|s| - 1]);
      if digit.Some? && rest.Some? then Some(rest.value * 16 + digit.value) else None
  }

  function Pow16(w: nat): nat { if w == 0 then 1 else 16 * Pow16(w - 1) }

  lemma DigitDecodes(d: nat)
    requires d < 16
    ensures HexValue(HexDigit(d)) == Some(d)
  {
  }

  /** One more digit at the end. */
  lemma UnhexAppend(s: string, n: nat, d: nat)
    requires d < 16 && Unhex(s) == Some(n)
    ensures Unhex(s + [HexDigit(d)]) == Some(16 * n + d)
  {
    hide HexDigit, HexValue;
    DigitDecodes(d);
    var t := s + [HexDigit(d)];
    assert t[..|t| - 1] == s;
  }

  lemma {:induction false} UnhexHex(n: nat, w: nat)
    requires n < Pow16(w)
    ensures Unhex(Hex(n, w)) == Some(n)
  {
    hide HexDigit, Unhex;
    if w == 0 {
      NothingDecodes();
    } else {
      UnhexHex(n / 16, w - 1);
      UnhexAppend(Hex(n / 16, w - 1), n / 16, n % 16);
    }
  }

  lemma NothingDecodes()
    ensures Unhex("") == Some(0)
  {
  }

  lemma UnhexWord(x: Word, w: nat)
    requires w == 8
    ensures Unhex(Hex(x as nat, w)) == Some(x as nat)
  {
    assert Pow16(8) == 0x1_0000_0000;
    UnhexHex(x as nat, w);
  }

  lemma {:induction false} HexWordsDecode(words: seq<Word>, i: nat)
    requires i < |words|
    ensures Unhex(HexWords(words)[8 * i..8 * i + 8]) == Some(words[i] as nat)
  {
    hide Hex, Unhex;
    var last := |words| - 1;
    var init := HexWords(words[..last]);
    var digits := Hex(words[last] as nat, 8);
    assert HexWords(words) == init + digits;
    if i == last {
      assert (init + digits)[8 * i..8 * i + 8] == digits;
      UnhexWord(words[i], 8);
    } else {
      HexWordsDecode(words[..last], i);
      assert (init + digits)[8 * i..8 * i + 8] == init[8 * i..8 * i + 8];
    }
  }

  /** The printed digest is 64 digits, and each group of eight reads back as its word of the hash value. */
  lemma DigestDecodes(message: seq<Byte>, i: nat)
    requires i < 8
    ensures |Digest(message)| == 64
    ensures Unhex(Digest(message)[8 * i..8 * i + 8]) == Some(HashValue(message).Words()[i] as nat)
  {
    HexWordsDecode(HashValue(message).Words(), i);
  }
}

/** The registry's own SHA-256: buffers, an in-place message schedule and eight rotating variables. */
module Sha256 {
  import opened Fips180

  // The code's macros. ROTR(x, n) is (x >> n) | (x << (32 - n)), written out for each n.

  function CH(x: bv32, y: bv32, z: bv32): bv32 { (x & y) ^ (!x & z) }
  function MAJ(x: bv32, y: bv32, z: bv32): bv32 { (x & y) ^ (x & z) ^ (y & z) }
  function EP0(x: bv32): bv32 { ((x >> 2) | (x << 30)) ^ ((x >> 13) | (x << 19)) ^ ((x >> 22) | (x << 10)) }
  function EP1(x: bv32): bv32 { ((x >> 6) | (x << 26)) ^ ((x >> 11) | (x << 21)) ^ ((x >> 25) | (x << 7)) }
  function SIG0(x: bv32): bv32 { ((x >> 7) | (x << 25)) ^ ((x >> 18) | (x << 14)) ^ (x >> 3) }
  function SIG1(x: bv32): bv32 { ((x >> 17) | (x << 15)) ^ ((x >> 19) | (x << 13)) ^ (x >> 10) }

  // The shift-and-or macros are the rotations of FIPS 180-4.

  lemma EP0IsBigSigma0(x: bv32)
    ensures EP0(x) == BigSigma0(x)
  {
  }

  lemma EP1IsBigSigma1(x: bv32)
    ensures EP1(x) == BigSigma1(x)
  {
  }

  lemma SIG0IsSmallSigma0(x: bv32)
    ensures SIG0(x) == SmallSigma0(x)
  {
  }

  lemma SIG1IsSmallSigma1(x: bv32)
    ensures SIG1(x) == SmallSigma1(x)
  {
  }

  lemma CHIsCh(x: bv32, y: bv32, z: bv32)
    ensures CH(x, y, z) == Ch(x, y, z)
  {
  }

  lemma MAJIsMaj(x: bv32, y: bv32, z: bv32)
    ensures MAJ(x, y, z) == Maj(x, y, z)
  {
  }

  /** Appends the terminator byte, the zero bytes and the 64-bit length, as the code's size_t holds it. */
  method PadBuffer(payload: seq<Byte>) returns (buffer: seq<Byte>)
    ensures buffer == Pad(payload)
  {
    hide BigEndian, ZeroBytes;
    var length := |payload|;
    PaddingZeros(length);
    var bitLen := length * 8 % TWO_TO_THE_64;
    var paddedLength := length + 1 + 8;
    var paddingZeros := (64 - paddedLength % 64) % 64;
    buffer := payload;
    buffer := buffer + [0x80];
    for i := 0 to paddingZeros
      invariant buffer == payload + [0x80] + Zeros(i)
    {
      buffer := buffer + [0];
    }
    var field := LengthField(bitLen);
    LowBytes(8 * length, |field|);
    buffer := buffer + field;
  }

  lemma PaddingZeros(length: nat)
    ensures (64 - (length + 1 + 8) % 64) % 64 == ZeroBytes(length)
  {
    var r := length % 64;
    assert (length + 9) % 64 == if r < 55 then r + 9 else r - 55;
  }

  /** The eight bytes of a 64-bit value, most significant first. */
  method LengthField(bitLen: nat) returns (field: seq<Byte>)
    requires bitLen < TWO_TO_THE_64
    ensures field == BigEndian(bitLen, 8)
  {
    field := [];
    var i := 7;
    Pow256Of8();
    while i >= 0
      invariant -1 <= i <= 7
      invariant field == BigEndian(Shifted(bitLen, i + 1), 7 - i)
    {
      ShiftedByte(bitLen, i);
      field := field + [(Shifted(bitLen, i) % 256) as Byte];
      i := i - 1;
    }
  }

  /** n shifted right by i bytes. */
  function Shifted(n: nat, i: nat): (r: nat)
    ensures i == 0 ==> r == n
    ensures Pow256(i) > n ==> r == 0
  {
    ShiftIsNat(n, Pow256(i));
    n / Pow256(i)
  }

  lemma ShiftIsNat(n: nat, p: nat)
    requires p > 0
    ensures n / p >= 0
    ensures p == 1 ==> n / p == n
    ensures n < p ==> n / p == 0
  {
    if n < p { DivisionUnique(n, p, 0, n); }
  }

  /** Shifting one byte further drops the last byte. */
  lemma ShiftedByte(n: nat, i: nat)
    ensures Shifted(n, i + 1) == Shifted(n, i) / 256
  {
    var p := Pow256(i);
    var q, r := n / p, n % p;
    var m := (q % 256) * p + r;
    assert n == (256 * p) * (q / 256) + m by {
      assert n == p * q + r;
      assert q == 256 * (q / 256) + q % 256;
      calc {
        p * q;
        p * (256 * (q / 256) + q % 256);
        p * (256 * (q / 256)) + p * (q % 256);
        (256 * p) * (q / 256) + (q % 256) * p;
      }
    }
    assert 0 <= m < 256 * p by {
      Monotone(p, q % 256, 255);
      Monotone(p, 0, q % 256);
    }
    DivisionUnique(n, 256 * p, q / 256, m);
  }

  /** Only the low w bytes of n reach a w-byte field. */
  lemma LowBytes(n: nat, w: nat)
    requires w == 8
    ensures BigEndian(n % TWO_TO_THE_64, w) == BigEndian(n, w)
  {
    Pow256Of8();
    BigEndianMod(n, w);
  }

  lemma {:induction false} BigEndianMod(n: nat, w: nat)
    ensures BigEndian(n % Pow256(w), w) == BigEndian(n, w)
  {
    if w == 0 {
    } else {
      var p := Pow256(w - 1);
      DigitMod(n, p);
      DivisionUnique(n % (256 * p), 256, (n / 256) % p, n % 256);
      BigEndianMod(n / 256, w - 1);
    }
  }

  function Block(buffer: seq<Byte>, offset: nat): seq<Byte>
    requires offset + 64 <= |buffer|
  {
    buffer[offset..offset + 64]
  }

  /** The first sixteen schedule words, read from the block. */
  method LoadWords(buffer: seq<Byte>, offset: nat, w: array<bv32>)
    requires w.Length == 64 && offset + 64 <= |buffer|
    modifies w
    ensures forall t | 0 <= t < 16 :: w[t] == W(Block(buffer, offset), t)
  {
    hide BigEndianWord;
    ghost var block := Block(buffer, offset);
    for i := 0 to 16
      invariant forall t | 0 <= t < i :: w[t] == W(block, t)
    {
      w[i] := BigEndianWord(buffer[offset + i * 4], buffer[offset + i * 4 + 1],
                            buffer[offset + i * 4 + 2], buffer[offset + i * 4 + 3]);
    }
  }

  /** The other forty-eight, each made from four before it. */
  method ExtendWords(ghost block: seq<Byte>, w: array<bv32>)
    requires w.Length == 64 && |block| == 64 && forall t | 0 <= t < 16 :: w[t] == W(block, t)
    modifies w
    ensures forall t | 0 <= t < 64 :: w[t] == W(block, t)
  {
    hide Add, SIG0, SIG1, SmallSigma0, SmallSigma1, BigEndianWord;
    for i := 16 to 64
      invariant forall t | 0 <= t < i :: w[t] == W(block, t)
    {
      SIG1IsSmallSigma1(w[i - 2]);
      SIG0IsSmallSigma0(w[i - 15]);
      w[i] := Add(Add(Add(SIG1(w[i - 2]), w[i - 7]), SIG0(w[i - 15])), w[i - 16]);
    }
  }

  /** Fills the 64 schedule words of one block in place. */
  method FillSchedule(buffer: seq<Byte>, offset: nat, w: array<bv32>)
    requires w.Length == 64 && offset + 64 <= |buffer|
    modifies w
    ensures forall t | 0 <= t < 64 :: w[t] == W(Block(buffer, offset), t)
  {
    LoadWords(buffer, offset, w);
    ExtendWords(Block(buffer, offset), w);
  }

  /** The 64 rounds of one block on eight rotating variables. */
  method RunRounds(ghost block: seq<Byte>, w: array<bv32>, start: Vars) returns (end: Vars)
    requires |block| == 64 && w.Length == 64
    requires forall t | 0 <= t < 64 :: w[t] == W(block, t)
    ensures end == Rounds(block, start, 64)
  {
    hide Add, EP0, EP1, BigSigma0, BigSigma1, CH, MAJ, Ch, Maj, W;
    var a, b, c, d := start.a, start.b, start.c, start.d;
    var e, f, g, h := start.e, start.f, start.g, start.h;
    for i := 0 to 64
      invariant Vars(a, b, c, d, e, f, g, h) == Rounds(block, start, i)
    {
      EP0IsBigSigma0(a);
      EP1IsBigSigma1(e);
      CHIsCh(e, f, g);
      MAJIsMaj(a, b, c);
      var temp1 := Add(Add(Add(Add(h, EP1(e)), CH(e, f, g)), K(i)), w[i]);
      var temp2 := Add(EP0(a), MAJ(a, b, c));
      h := g;
      g := f;
      f := e;
      e := Add(d, temp1);
      d := c;
      c := b;
      b := a;
      a := Add(temp1, temp2);
    }
    end := Vars(a, b, c, d, e, f, g, h);
  }

  /** Runs the rounds of one block and adds their result to the state. */
  method CompressBlock(ghost block: seq<Byte>, w: array<bv32>, state: array<bv32>)
    requires |block| == 64 && w.Length == 64 && state.Length == 8 && w != state
    requires forall t | 0 <= t < 64 :: w[t] == W(block, t)
    modifies state
    ensures state[..] == Compress(FromWords(old(state[..])), block).Words()
  {
    hide Add, W, Rounds;
    var v := RunRounds(block, w, FromWords(state[..]));
    state[0] := Add(state[0], v.a);
    state[1] := Add(state[1], v.b);
    state[2] := Add(state[2], v.c);
    state[3] := Add(state[3], v.d);
    state[4] := Add(state[4], v.e);
    state[5] := Add(state[5], v.f);
    state[6] := Add(state[6], v.g);
    state[7] := Add(state[7], v.h);
  }

  function FromWords(s: seq<bv32>): Vars
    requires |s| == 8
  {
    Vars(s[0], s[1], s[2], s[3], s[4], s[5], s[6], s[7])
  }

  method ComputeSha256(payload: seq<Byte>) returns (digest: string)
    ensures digest == Digest(payload)
  {
    hide Pad, Compress, Hex, Add;
    var state := new bv32[8] [0x6a09e667, 0xbb67ae85, 0x3c6ef372, 0xa54ff53a,
                              0x510e527f, 0x9b05688c, 0x1f83d9ab, 0x5be0cd19];
    var buffer := PadBuffer(payload);
    var w := new bv32[64];
    var offset := 0;
    while offset < |buffer|
      invariant 0 <= offset <= |buffer| && offset % 64 == 0
      invariant state[..] == Chain(buffer, offset / 64).Words()
    {
      FillSchedule(buffer, offset, w);
      CompressBlock(Block(buffer, offset), w, state);
      offset := offset + 64;
    }
    digest := PrintState(state);
  }

  method PrintState(state: array<bv32>) returns (digest: string)
    requires state.Length == 8
    ensures digest == HexWords(state[..])
  {
    hide Hex;
    digest := "";
    for i := 0 to 8
      invariant digest == HexWords(state[..i])
    {
      var printed := PrintHex(state[i] as nat);
      assert state[..i + 1][..i] == state[..i];
      digest := digest + printed;
    }
    assert state[..8] == state[..];
  }

  /** Hexadecimal digits without leading zeros, then filled with '0' up to a width of eight. */
  method PrintHex(n: nat) returns (s: string)
    requires n < 0x1_0000_0000
    ensures s == Hex(n, 8)
  {
    s := [HexDigit(n % 16)];
    var rest: nat := n / 16;
    assert Pow16(7) == 0x1000_0000;
    while rest > 0
      invariant 1 <= |s| <= 8 && rest < Pow16(8 - |s|)
      invariant Hex(n, 8) == Hex(rest, 8 - |s|) + s
    {
      assert Hex(rest, 8 - |s|) + s == Hex(rest / 16, 8 - |s| - 1) + ([HexDigit(rest % 16)] + s);
      s := [HexDigit(rest % 16)] + s;
      rest := rest / 16;
    }
    while |s| < 8
      invariant 1 <= |s| <= 8
      invariant Hex(n, 8) == Hex(0, 8 - |s|) + s
    {
      assert Hex(0, 8 - |s|) + s == Hex(0, 8 - |s| - 1) + ("0" + s);
      s := "0" + s;
    }
  }
}

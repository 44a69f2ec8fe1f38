/** The pointer packing of the guest ABI. A 32-bit or 64-bit unsigned value is a bounded natural
    number, and the operators on its bits are defined bit by bit. */
module GuestAbi {
  import opened Common

  const VERSION: string := "1.0"
  const EXPORT_ALLOC: string := "seraph_alloc"
  const EXPORT_FREE: string := "seraph_free"
  const EXPORT_MEMORY: string := "memory"

  function Pow2(k: nat): (p: nat)
    ensures p > 0
  {
    if k == 0 then 1 else 2 * Pow2(k - 1)
  }

  /** a | b */
  function BitOr(a: nat, b: nat): nat
    decreases a + b
  {
    if a == 0 then b else if b == 0 then a else
      2 * BitOr(a / 2, b / 2) + (if a % 2 == 1 || b % 2 == 1 then 1 else 0)
  }

  /** a & b */
  function BitAnd(a: nat, b: nat): nat
    decreases a + b
  {
    if a == 0 || b == 0 then 0 else
      2 * BitAnd(a / 2, b / 2) + (if a % 2 == 1 && b % 2 == 1 then 1 else 0)
  }

  /** a << k in 64 bits */
  function ShiftLeft(a: nat, k: nat): U64 { a * Pow2(k) % 0x1_0000_0000_0000_0000 }

  /** a >> k */
  function ShiftRight(a: nat, k: nat): (r: nat)
    ensures r * Pow2(k) <= a < (r + 1) * Pow2(k)
  {
    DivisionBounds(a, Pow2(k));
    a / Pow2(k)
  }

  lemma DivisionBounds(a: nat, p: nat)
    requires p > 0
    ensures 0 <= a / p && a / p * p <= a < (a / p + 1) * p
  {
  }

  lemma {:induction false} OrOfDisjoint(high: nat, low: nat, k: nat)
    requires low < Pow2(k)
    ensures BitOr(high * Pow2(k), low) == high * Pow2(k) + low
  {
    if k == 0 || high == 0 || low == 0 {
    } else {
      var p := Pow2(k - 1);
      assert high * Pow2(k) == 2 * (high * p);
      assert high * p > 0;
      OrOfDisjoint(high, low / 2, k - 1);
    }
  }

  /** Masking with k ones keeps the low k bits; q is the rest. */
  lemma {:induction false} AndWithMask(a: nat, mask: nat, k: nat) returns (q: nat)
    requires mask == Pow2(k) - 1
    ensures BitAnd(a, mask) <= mask
    ensures a == q * Pow2(k) + BitAnd(a, mask)
  {
    if k == 0 {
      q := a;
    } else if a == 0 {
      q := 0;
    } else {
      q := AndWithMask(a / 2, mask / 2, k - 1);
      assert q * Pow2(k) == 2 * (q * Pow2(k - 1));
    }
  }

  function PackI64(ptr: U32, len: U32): nat {
    BitOr(ShiftLeft(ptr, 32), len)
  }

  function UnpackPtr(packed: U64): (ptr: U32) {
    PtrInRange(packed);
    ShiftRight(packed, 32)
  }

  function UnpackLen(packed: U64): (len: U32) {
    LenInRange(packed);
    BitAnd(packed, 0xFFFF_FFFF)
  }

  lemma Pow2Of32()
    ensures Pow2(32) == 0x1_0000_0000
  {
    assert Pow2(8) == 0x100;
    assert Pow2(16) == 0x1_0000;
    assert Pow2(24) == 0x100_0000;
  }

  lemma PtrInRange(packed: U64)
    ensures ShiftRight(packed, 32) < 0x1_0000_0000
  {
    Pow2Of32();
  }

  lemma LenInRange(packed: U64)
    ensures BitAnd(packed, 0xFFFF_FFFF) < 0x1_0000_0000
  {
    Pow2Of32();
    var _ := AndWithMask(packed, 0xFFFF_FFFF, 32);
  }

  /** Packing is the pair as a two-digit number in base 2^32. */
  lemma PackIsTwoDigits(ptr: U32, len: U32)
    ensures PackI64(ptr, len) == ptr * 0x1_0000_0000 + len < 0x1_0000_0000_0000_0000
  {
    Pow2Of32();
    OrOfDisjoint(ptr, len, 32);
  }

  /** Unpacking reads those two digits. */
  lemma UnpackIsTwoDigits(packed: U64)
    ensures packed == UnpackPtr(packed) * 0x1_0000_0000 + UnpackLen(packed)
  {
    Pow2Of32();
    var q := AndWithMask(packed, 0xFFFF_FFFF, 32);
  }

  /** Pack and unpack are inverse over all 32-bit pairs ... */
  lemma UnpackPack(ptr: U32, len: U32)
    ensures PackI64(ptr, len) < 0x1_0000_0000_0000_0000
    ensures UnpackPtr(PackI64(ptr, len)) == ptr && UnpackLen(PackI64(ptr, len)) == len
  {
    PackIsTwoDigits(ptr, len);
    UnpackIsTwoDigits(PackI64(ptr, len));
  }

  /** ... and over all 64-bit results. */
  lemma PackUnpack(packed: U64)
    ensures PackI64(UnpackPtr(packed), UnpackLen(packed)) == packed
  {
    UnpackIsTwoDigits(packed);
    PackIsTwoDigits(UnpackPtr(packed), UnpackLen(packed));
  }
}

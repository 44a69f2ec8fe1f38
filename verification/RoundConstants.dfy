/** Where the constants come from: section 4.2.2 takes the first 32 bits of the fractional parts of the
    cube roots of the first sixty-four primes, and section 5.3.3 those of the square roots of the first
    eight. */
module RoundConstants {
  import opened Fips180

  // ---- The first sixty-four primes ----

  predicate IsPrime(n: nat) { n >= 2 && forall d | 2 <= d < n :: n % d != 0 }

  function PrimeRow(r: nat): (row: seq<nat>)
    requires r < 8
    ensures |row| == 8
  {
    match r
    case 0 => [2, 3, 5, 7, 11, 13, 17, 19]
    case 1 => [23, 29, 31, 37, 41, 43, 47, 53]
    case 2 => [59, 61, 67, 71, 73, 79, 83, 89]
    case 3 => [97, 101, 103, 107, 109, 113, 127, 131]
    case 4 => [137, 139, 149, 151, 157, 163, 167, 173]
    case 5 => [179, 181, 191, 193, 197, 199, 211, 223]
    case 6 => [227, 229, 233, 239, 241, 251, 257, 263]
    case _ => [269, 271, 277, 281, 283, 293, 307, 311]
  }

  function Prime(t: nat): nat
    requires t < 64
  {
    PrimeRow(t / 8)[t % 8]
  }

  /** No prime up to 17 divides it; below 18 * 18 that leaves only primes. */
  predicate Sifted(n: nat) {
    && n % 2 != 0 && n % 3 != 0 && n % 5 != 0 && n % 7 != 0
    && n % 11 != 0 && n % 13 != 0 && n % 17 != 0
  }

  lemma Cofactor(n: nat, d: nat) returns (e: nat)
    requires d > 0 && n % d == 0
    ensures n == d * e
  {
    e := n / d;
  }

  lemma Products(d: nat, e: nat, b: nat)
    ensures d >= b && e >= b ==> d * e >= b * b
  {
  }

  lemma Associates(p: nat, f: nat, e: nat)
    ensures p * f * e == p * (f * e)
  {
  }

  lemma SmallDivisor(n: nat, d: nat)
    requires 2 <= d < 18 && n % d == 0
    ensures !Sifted(n)
  {
    var e := Cofactor(n, d);
    var p := if d % 2 == 0 then 2 else if d % 3 == 0 then 3 else if d % 5 == 0 then 5 else if d % 7 == 0 then 7 else d;
    var f := Cofactor(d, p);
    Associates(p, f, e);
    DivisionUnique(n, p, f * e, 0);
  }

  lemma SiftedIsPrime(n: nat)
    requires 18 <= n < 324 && Sifted(n)
    ensures IsPrime(n)
  {
    forall d | 2 <= d < n ensures n % d != 0 {
      if n % d == 0 {
        var e := Cofactor(n, d);
        if d < 18 {
          SmallDivisor(n, d);
        } else {
          Products(d, e, 18);
          assert e >= 2;
          DivisionUnique(n, e, d, 0);
          SmallDivisor(n, e);
        }
      }
    }
  }

  /** The primes below 18, by their divisors 2 and 3. */
  lemma SmallPrimes(n: nat)
    requires 2 <= n < 18
    ensures IsPrime(n) <==> n == 2 || n == 3 || (n % 2 != 0 && n % 3 != 0)
  {
    if n > 2 && n % 2 == 0 {
      assert !IsPrime(n);
    } else if n > 3 && n % 3 == 0 {
      assert !IsPrime(n);
    } else {
      forall d | 2 <= d < n ensures n % d != 0 {
        if n % d == 0 {
          var e := Cofactor(n, d);
          Products(d, e, 5);
          if d < 5 { DivisionUnique(n, d, e, 0); }
          assert e >= 2;
          if e < 5 { DivisionUnique(n, e, d, 0); }
        }
      }
    }
  }

  // ---- Between the primes of the table, nothing is sifted ----

  lemma From18(n: nat)
    requires 18 <= n < 23
    ensures Sifted(n) ==> n == 19
  {
  }

  lemma From23(n: nat)
    requires 23 <= n < 31
    ensures Sifted(n) ==> n == 23 || n == 29
  {
    assert n % 2 == 0 || n == 23 || n == 25 || n == 27 || n == 29;
  }

  lemma From31(n: nat)
    requires 31 <= n < 41
    ensures Sifted(n) ==> n == 31 || n == 37
  {
    assert n % 2 == 0 || n == 31 || n == 33 || n == 35 || n == 37 || n == 39;
  }

  lemma From41(n: nat)
    requires 41 <= n < 47
    ensures Sifted(n) ==> n == 41 || n == 43
  {
    assert n % 2 == 0 || n == 41 || n == 43 || n == 45;
  }

  lemma From47(n: nat)
    requires 47 <= n < 59
    ensures Sifted(n) ==> n == 47 || n == 53
  {
    assert n % 2 == 0 || n == 47 || n == 49 || n == 51 || n == 53 || n == 55 || n == 57;
  }

  lemma From59(n: nat)
    requires 59 <= n < 67
    ensures Sifted(n) ==> n == 59 || n == 61
  {
    assert n % 2 == 0 || n == 59 || n == 61 || n == 63 || n == 65;
  }

  lemma From67(n: nat)
    requires 67 <= n < 73
    ensures Sifted(n) ==> n == 67 || n == 71
  {
    assert n % 2 == 0 || n == 67 || n == 69 || n == 71;
  }

  lemma From73(n: nat)
    requires 73 <= n < 83
    ensures Sifted(n) ==> n == 73 || n == 79
  {
    assert n % 2 == 0 || n == 73 || n == 75 || n == 77 || n == 79 || n == 81;
  }

  lemma From83(n: nat)
    requires 83 <= n < 97
    ensures Sifted(n) ==> n == 83 || n == 89
  {
    assert n % 2 == 0 || n == 83 || n == 85 || n == 87 || n == 89 || n == 91 || n == 93 || n == 95;
  }

  lemma From97(n: nat)
    requires 97 <= n < 103
    ensures Sifted(n) ==> n == 97 || n == 101
  {
    assert n % 2 == 0 || n == 97 || n == 99 || n == 101;
  }

  lemma From103(n: nat)
    requires 103 <= n < 109
    ensures Sifted(n) ==> n == 103 || n == 107
  {
    assert n % 2 == 0 || n == 103 || n == 105 || n == 107;
  }

  lemma From109(n: nat)
    requires 109 <= n < 127
    ensures Sifted(n) ==> n == 109 || n == 113
  {
    assert n % 2 == 0 || n == 109 || n == 111 || n == 113 || n == 115 || n == 117 || n == 119 || n == 121 ||
        n == 123 || n == 125;
  }

  lemma From127(n: nat)
    requires 127 <= n < 137
    ensures Sifted(n) ==> n == 127 || n == 131
  {
    assert n % 2 == 0 || n == 127 || n == 129 || n == 131 || n == 133 || n == 135;
  }

  lemma From137(n: nat)
    requires 137 <= n < 149
    ensures Sifted(n) ==> n == 137 || n == 139
  {
    assert n % 2 == 0 || n == 137 || n == 139 || n == 141 || n == 143 || n == 145 || n == 147;
  }

  lemma From149(n: nat)
    requires 149 <= n < 157
    ensures Sifted(n) ==> n == 149 || n == 151
  {
    assert n % 2 == 0 || n == 149 || n == 151 || n == 153 || n == 155;
  }

  lemma From157(n: nat)
    requires 157 <= n < 167
    ensures Sifted(n) ==> n == 157 || n == 163
  {
    assert n % 2 == 0 || n == 157 || n == 159 || n == 161 || n == 163 || n == 165;
  }

  lemma From167(n: nat)
    requires 167 <= n < 179
    ensures Sifted(n) ==> n == 167 || n == 173
  {
    assert n % 2 == 0 || n == 167 || n == 169 || n == 171 || n == 173 || n == 175 || n == 177;
  }

  lemma From179(n: nat)
    requires 179 <= n < 191
    ensures Sifted(n) ==> n == 179 || n == 181
  {
    assert n % 2 == 0 || n == 179 || n == 181 || n == 183 || n == 185 || n == 187 || n == 189;
  }

  lemma From191(n: nat)
    requires 191 <= n < 197
    ensures Sifted(n) ==> n == 191 || n == 193
  {
    assert n % 2 == 0 || n == 191 || n == 193 || n == 195;
  }

  lemma From197(n: nat)
    requires 197 <= n < 211
    ensures Sifted(n) ==> n == 197 || n == 199
  {
    assert n % 2 == 0 || n == 197 || n == 199 || n == 201 || n == 203 || n == 205 || n == 207 || n == 209;
  }

  lemma From211(n: nat)
    requires 211 <= n < 227
    ensures Sifted(n) ==> n == 211 || n == 223
  {
    assert n % 2 == 0 || n == 211 || n == 213 || n == 215 || n == 217 || n == 219 || n == 221 || n == 223 ||
        n == 225;
  }

  lemma From227(n: nat)
    requires 227 <= n < 233
    ensures Sifted(n) ==> n == 227 || n == 229
  {
    assert n % 2 == 0 || n == 227 || n == 229 || n == 231;
  }

  lemma From233(n: nat)
    requires 233 <= n < 241
    ensures Sifted(n) ==> n == 233 || n == 239
  {
    assert n % 2 == 0 || n == 233 || n == 235 || n == 237 || n == 239;
  }

  lemma From241(n: nat)
    requires 241 <= n < 257
    ensures Sifted(n) ==> n == 241 || n == 251
  {
    assert n % 2 == 0 || n == 241 || n == 243 || n == 245 || n == 247 || n == 249 || n == 251 || n == 253 ||
        n == 255;
  }

  lemma From257(n: nat)
    requires 257 <= n < 269
    ensures Sifted(n) ==> n == 257 || n == 263
  {
    assert n % 2 == 0 || n == 257 || n == 259 || n == 261 || n == 263 || n == 265 || n == 267;
  }

  lemma From269(n: nat)
    requires 269 <= n < 277
    ensures Sifted(n) ==> n == 269 || n == 271
  {
    assert n % 2 == 0 || n == 269 || n == 271 || n == 273 || n == 275;
  }

  lemma From277(n: nat)
    requires 277 <= n < 283
    ensures Sifted(n) ==> n == 277 || n == 281
  {
    assert n % 2 == 0 || n == 277 || n == 279 || n == 281;
  }

  lemma From283(n: nat)
    requires 283 <= n < 307
    ensures Sifted(n) ==> n == 283 || n == 293
  {
    assert n % 2 == 0 || n == 283 || n == 285 || n == 287 || n == 289 || n == 291 || n == 293 || n == 295 ||
        n == 297 || n == 299 || n == 301 || n == 303 || n == 305;
  }

  lemma From307(n: nat)
    requires 307 <= n < 312
    ensures Sifted(n) ==> n == 307 || n == 311
  {
    assert n % 2 == 0 || n == 307 || n == 309 || n == 311;
  }

  // ---- The table is the list of primes ----

  lemma PrimeIsSifted(n: nat)
    requires n >= 18 && IsPrime(n)
    ensures Sifted(n)
  {
  }

  lemma PlaceInRow0(n: nat) returns (i: nat)
    requires 2 <= n < 23 && IsPrime(n)
    ensures i < 8 && PrimeRow(0)[i] == n
  {
    if n < 18 {
      SmallPrimes(n);
    } else {
      PrimeIsSifted(n);
      From18(n);
    }
    i := match n
         case 2 => 0 case 3 => 1 case 5 => 2 case 7 => 3
         case 11 => 4 case 13 => 5 case 17 => 6 case _ => 7;
    assert PrimeRow(0) == [2, 3, 5, 7, 11, 13, 17, 19];
  }

  lemma PlaceInRow1(n: nat) returns (i: nat)
    requires 23 <= n < 59 && IsPrime(n)
    ensures i < 8 && PrimeRow(1)[i] == n
  {
    PrimeIsSifted(n);
    if n < 31 {
      From23(n);
    } else if n < 41 {
      From31(n);
    } else if n < 47 {
      From41(n);
    } else {
      From47(n);
    }
    i := match n
         case 23 => 0 case 29 => 1 case 31 => 2 case 37 => 3
         case 41 => 4 case 43 => 5 case 47 => 6 case _ => 7;
    assert PrimeRow(1) == [23, 29, 31, 37, 41, 43, 47, 53];
  }

  lemma PlaceInRow2(n: nat) returns (i: nat)
    requires 59 <= n < 97 && IsPrime(n)
    ensures i < 8 && PrimeRow(2)[i] == n
  {
    PrimeIsSifted(n);
    if n < 67 {
      From59(n);
    } else if n < 73 {
      From67(n);
    } else if n < 83 {
      From73(n);
    } else {
      From83(n);
    }
    i := match n
         case 59 => 0 case 61 => 1 case 67 => 2 case 71 => 3
         case 73 => 4 case 79 => 5 case 83 => 6 case _ => 7;
    assert PrimeRow(2) == [59, 61, 67, 71, 73, 79, 83, 89];
  }

  lemma PlaceInRow3(n: nat) returns (i: nat)
    requires 97 <= n < 137 && IsPrime(n)
    ensures i < 8 && PrimeRow(3)[i] == n
  {
    PrimeIsSifted(n);
    if n < 103 {
      From97(n);
    } else if n < 109 {
      From103(n);
    } else if n < 127 {
      From109(n);
    } else {
      From127(n);
    }
    i := match n
         case 97 => 0 case 101 => 1 case 103 => 2 case 107 => 3
         case 109 => 4 case 113 => 5 case 127 => 6 case _ => 7;
    assert PrimeRow(3) == [97, 101, 103, 107, 109, 113, 127, 131];
  }

  lemma PlaceInRow4(n: nat) returns (i: nat)
    requires 137 <= n < 179 && IsPrime(n)
    ensures i < 8 && PrimeRow(4)[i] == n
  {
    PrimeIsSifted(n);
    if n < 149 {
      From137(n);
    } else if n < 157 {
      From149(n);
    } else if n < 167 {
      From157(n);
    } else {
      From167(n);
    }
    i := match n
         case 137 => 0 case 139 => 1 case 149 => 2 case 151 => 3
         case 157 => 4 case 163 => 5 case 167 => 6 case _ => 7;
    assert PrimeRow(4) == [137, 139, 149, 151, 157, 163, 167, 173];
  }

  lemma PlaceInRow5(n: nat) returns (i: nat)
    requires 179 <= n < 227 && IsPrime(n)
    ensures i < 8 && PrimeRow(5)[i] == n
  {
    PrimeIsSifted(n);
    if n < 191 {
      From179(n);
    } else if n < 197 {
      From191(n);
    } else if n < 211 {
      From197(n);
    } else {
      From211(n);
    }
    i := match n
         case 179 => 0 case 181 => 1 case 191 => 2 case 193 => 3
         case 197 => 4 case 199 => 5 case 211 => 6 case _ => 7;
    assert PrimeRow(5) == [179, 181, 191, 193, 197, 199, 211, 223];
  }

  lemma PlaceInRow6(n: nat) returns (i: nat)
    requires 227 <= n < 269 && IsPrime(n)
    ensures i < 8 && PrimeRow(6)[i] == n
  {
    PrimeIsSifted(n);
    if n < 233 {
      From227(n);
    } else if n < 241 {
      From233(n);
    } else if n < 257 {
      From241(n);
    } else {
      From257(n);
    }
    i := match n
         case 227 => 0 case 229 => 1 case 233 => 2 case 239 => 3
         case 241 => 4 case 251 => 5 case 257 => 6 case _ => 7;
    assert PrimeRow(6) == [227, 229, 233, 239, 241, 251, 257, 263];
  }

  lemma PlaceInRow7(n: nat) returns (i: nat)
    requires 269 <= n < 312 && IsPrime(n)
    ensures i < 8 && PrimeRow(7)[i] == n
  {
    PrimeIsSifted(n);
    if n < 277 {
      From269(n);
    } else if n < 283 {
      From277(n);
    } else if n < 307 {
      From283(n);
    } else {
      From307(n);
    }
    i := match n
         case 269 => 0 case 271 => 1 case 277 => 2 case 281 => 3
         case 283 => 4 case 293 => 5 case 307 => 6 case _ => 7;
    assert PrimeRow(7) == [269, 271, 277, 281, 283, 293, 307, 311];
  }

  lemma RowIsPrime(r: nat, i: nat)
    requires r < 8 && i < 8
    ensures PrimeRow(r)[i] < 312
    ensures if r == 0 then IsPrime(PrimeRow(r)[i]) else Sifted(PrimeRow(r)[i]) && PrimeRow(r)[i] >= 18
  {
    hide IsPrime;
    if r == 0 {
      var p := PrimeRow(0)[i];
      if p < 18 {
        SmallPrimes(p);
      } else {
        SiftedIsPrime(p);
      }
    }
  }

  /** The table holds primes only ... */
  lemma TableIsPrime(t: nat)
    requires t < 64
    ensures IsPrime(Prime(t)) && Prime(t) < 312
  {
    hide IsPrime, Sifted, PrimeRow;
    RowIsPrime(t / 8, t % 8);
    if t >= 8 { SiftedIsPrime(Prime(t)); }
  }

  /** ... in increasing order ... */
  lemma TableIncreases(t: nat)
    requires t + 1 < 64
    ensures Prime(t) < Prime(t + 1)
  {
    hide PrimeRow;
    if t % 8 == 7 {
      RowsIncrease(t / 8);
    } else {
      RowIncreases(t / 8, t % 8);
    }
  }

  lemma RowIncreases(r: nat, i: nat)
    requires r < 8 && i < 7
    ensures PrimeRow(r)[i] < PrimeRow(r)[i + 1]
  {
  }

  lemma RowsIncrease(r: nat)
    requires r < 7
    ensures PrimeRow(r)[7] < PrimeRow(r + 1)[0]
  {
  }

  /** ... and every prime up to its last. So Prime(t) is the t-th prime, counting from 0. */
  lemma PrimesAreListed(n: nat) returns (t: nat)
    requires IsPrime(n) && n < 312
    ensures t < 64 && Prime(t) == n
  {
    hide IsPrime, PrimeRow;
    var r, i: nat;
    assert n >= 2 by { PrimeIsTwoOrMore(n); }
    if n < 23 {
      r := 0;
      i := PlaceInRow0(n);
    } else if n < 59 {
      r := 1;
      i := PlaceInRow1(n);
    } else if n < 97 {
      r := 2;
      i := PlaceInRow2(n);
    } else if n < 137 {
      r := 3;
      i := PlaceInRow3(n);
    } else if n < 179 {
      r := 4;
      i := PlaceInRow4(n);
    } else if n < 227 {
      r := 5;
      i := PlaceInRow5(n);
    } else if n < 269 {
      r := 6;
      i := PlaceInRow6(n);
    } else {
      r := 7;
      i := PlaceInRow7(n);
    }
    t := 8 * r + i;
    assert t / 8 == r && t % 8 == i;
  }

  lemma PrimeIsTwoOrMore(n: nat)
    requires IsPrime(n)
    ensures n >= 2
  {
  }

  // ---- Roots ----

  /** n is the integer part of 2^32 times the cube root of p. */
  predicate IsCubeRoot(n: nat, p: nat) {
    n * n * n <= p * 0x1_0000_0000_0000_0000_0000_0000 < (n + 1) * (n + 1) * (n + 1)
  }

  /** k is the first 32 bits of the fractional part of the cube root of p. */
  ghost predicate CubeRootBits(p: nat, k: nat) {
    exists n: nat :: IsCubeRoot(n, p) && n % 0x1_0000_0000 == k
  }

  predicate IsSquareRoot(n: nat, p: nat) {
    n * n <= p * 0x1_0000_0000_0000_0000 < (n + 1) * (n + 1)
  }

  ghost predicate SquareRootBits(p: nat, k: nat) {
    exists n: nat :: IsSquareRoot(n, p) && n % 0x1_0000_0000 == k
  }

  lemma CubeRoots0()
    ensures forall i | 0 <= i < 8 :: CubeRootBits(PrimeRow(0)[i], ConstantRow(0)[i] as nat)
  {
    assert IsCubeRoot(0x1_428a_2f98, 2);
    assert IsCubeRoot(0x1_7137_4491, 3);
    assert IsCubeRoot(0x1_b5c0_fbcf, 5);
    assert IsCubeRoot(0x1_e9b5_dba5, 7);
    assert IsCubeRoot(0x2_3956_c25b, 11);
    assert IsCubeRoot(0x2_59f1_11f1, 13);
    assert IsCubeRoot(0x2_923f_82a4, 17);
    assert IsCubeRoot(0x2_ab1c_5ed5, 19);
  }

  lemma CubeRoots1()
    ensures forall i | 0 <= i < 8 :: CubeRootBits(PrimeRow(1)[i], ConstantRow(1)[i] as nat)
  {
    assert IsCubeRoot(0x2_d807_aa98, 23);
    assert IsCubeRoot(0x3_1283_5b01, 29);
    assert IsCubeRoot(0x3_2431_85be, 31);
    assert IsCubeRoot(0x3_550c_7dc3, 37);
    assert IsCubeRoot(0x3_72be_5d74, 41);
    assert IsCubeRoot(0x3_80de_b1fe, 43);
    assert IsCubeRoot(0x3_9bdc_06a7, 47);
    assert IsCubeRoot(0x3_c19b_f174, 53);
  }

  lemma CubeRoots2()
    ensures forall i | 0 <= i < 8 :: CubeRootBits(PrimeRow(2)[i], ConstantRow(2)[i] as nat)
  {
    assert IsCubeRoot(0x3_e49b_69c1, 59);
    assert IsCubeRoot(0x3_efbe_4786, 61);
    assert IsCubeRoot(0x4_0fc1_9dc6, 67);
    assert IsCubeRoot(0x4_240c_a1cc, 71);
    assert IsCubeRoot(0x4_2de9_2c6f, 73);
    assert IsCubeRoot(0x4_4a74_84aa, 79);
    assert IsCubeRoot(0x4_5cb0_a9dc, 83);
    assert IsCubeRoot(0x4_76f9_88da, 89);
  }

  lemma CubeRoots3()
    ensures forall i | 0 <= i < 8 :: CubeRootBits(PrimeRow(3)[i], ConstantRow(3)[i] as nat)
  {
    assert IsCubeRoot(0x4_983e_5152, 97);
    assert IsCubeRoot(0x4_a831_c66d, 101);
    assert IsCubeRoot(0x4_b003_27c8, 103);
    assert IsCubeRoot(0x4_bf59_7fc7, 107);
    assert IsCubeRoot(0x4_c6e0_0bf3, 109);
    assert IsCubeRoot(0x4_d5a7_9147, 113);
    assert IsCubeRoot(0x5_06ca_6351, 127);
    assert IsCubeRoot(0x5_1429_2967, 131);
  }

  lemma CubeRoots4()
    ensures forall i | 0 <= i < 8 :: CubeRootBits(PrimeRow(4)[i], ConstantRow(4)[i] as nat)
  {
    assert IsCubeRoot(0x5_27b7_0a85, 137);
    assert IsCubeRoot(0x5_2e1b_2138, 139);
    assert IsCubeRoot(0x5_4d2c_6dfc, 149);
    assert IsCubeRoot(0x5_5338_0d13, 151);
    assert IsCubeRoot(0x5_650a_7354, 157);
    assert IsCubeRoot(0x5_766a_0abb, 163);
    assert IsCubeRoot(0x5_81c2_c92e, 167);
    assert IsCubeRoot(0x5_9272_2c85, 173);
  }

  lemma CubeRoots5()
    ensures forall i | 0 <= i < 8 :: CubeRootBits(PrimeRow(5)[i], ConstantRow(5)[i] as nat)
  {
    assert IsCubeRoot(0x5_a2bf_e8a1, 179);
    assert IsCubeRoot(0x5_a81a_664b, 181);
    assert IsCubeRoot(0x5_c24b_8b70, 191);
    assert IsCubeRoot(0x5_c76c_51a3, 193);
    assert IsCubeRoot(0x5_d192_e819, 197);
    assert IsCubeRoot(0x5_d699_0624, 199);
    assert IsCubeRoot(0x5_f40e_3585, 211);
    assert IsCubeRoot(0x6_106a_a070, 223);
  }

  lemma CubeRoots6()
    ensures forall i | 0 <= i < 8 :: CubeRootBits(PrimeRow(6)[i], ConstantRow(6)[i] as nat)
  {
    assert IsCubeRoot(0x6_19a4_c116, 227);
    assert IsCubeRoot(0x6_1e37_6c08, 229);
    assert IsCubeRoot(0x6_2748_774c, 233);
    assert IsCubeRoot(0x6_34b0_bcb5, 239);
    assert IsCubeRoot(0x6_391c_0cb3, 241);
    assert IsCubeRoot(0x6_4ed8_aa4a, 251);
    assert IsCubeRoot(0x6_5b9c_ca4f, 257);
    assert IsCubeRoot(0x6_682e_6ff3, 263);
  }

  lemma CubeRoots7()
    ensures forall i | 0 <= i < 8 :: CubeRootBits(PrimeRow(7)[i], ConstantRow(7)[i] as nat)
  {
    assert IsCubeRoot(0x6_748f_82ee, 269);
    assert IsCubeRoot(0x6_78a5_636f, 271);
    assert IsCubeRoot(0x6_84c8_7814, 277);
    assert IsCubeRoot(0x6_8cc7_0208, 281);
    assert IsCubeRoot(0x6_90be_fffa, 283);
    assert IsCubeRoot(0x6_a450_6ceb, 293);
    assert IsCubeRoot(0x6_bef9_a3f7, 307);
    assert IsCubeRoot(0x6_c671_78f2, 311);
  }

  lemma SquareRoots()
    ensures forall i | 0 <= i < 8 :: SquareRootBits(PrimeRow(0)[i], H0.Words()[i] as nat)
  {
    assert IsSquareRoot(0x1_6a09_e667, 2);
    assert IsSquareRoot(0x1_bb67_ae85, 3);
    assert IsSquareRoot(0x2_3c6e_f372, 5);
    assert IsSquareRoot(0x2_a54f_f53a, 7);
    assert IsSquareRoot(0x3_510e_527f, 11);
    assert IsSquareRoot(0x3_9b05_688c, 13);
    assert IsSquareRoot(0x4_1f83_d9ab, 17);
    assert IsSquareRoot(0x4_5be0_cd19, 19);
  }

  /** The round constant t is the first 32 bits of the fractional part of the cube root of the t-th prime. */
  lemma RoundConstantBits(t: nat)
    requires t < 64
    ensures CubeRootBits(Prime(t), K(t) as nat)
  {
    hide CubeRootBits, PrimeRow, ConstantRow;
    if t < 8 {
      CubeRoots0();
      assert CubeRootBits(PrimeRow(0)[t % 8], ConstantRow(0)[t % 8] as nat);
    } else if t < 16 {
      CubeRoots1();
      assert CubeRootBits(PrimeRow(1)[t % 8], ConstantRow(1)[t % 8] as nat);
    } else if t < 24 {
      CubeRoots2();
      assert CubeRootBits(PrimeRow(2)[t % 8], ConstantRow(2)[t % 8] as nat);
    } else if t < 32 {
      CubeRoots3();
      assert CubeRootBits(PrimeRow(3)[t % 8], ConstantRow(3)[t % 8] as nat);
    } else if t < 40 {
      CubeRoots4();
      assert CubeRootBits(PrimeRow(4)[t % 8], ConstantRow(4)[t % 8] as nat);
    } else if t < 48 {
      CubeRoots5();
      assert CubeRootBits(PrimeRow(5)[t % 8], ConstantRow(5)[t % 8] as nat);
    } else if t < 56 {
      CubeRoots6();
      assert CubeRootBits(PrimeRow(6)[t % 8], ConstantRow(6)[t % 8] as nat);
    } else {
      CubeRoots7();
      assert CubeRootBits(PrimeRow(7)[t % 8], ConstantRow(7)[t % 8] as nat);
    }
  }

  /** The initial hash value holds those of the square roots of the first eight primes. */
  lemma InitialHashBits(i: nat)
    requires i < 8
    ensures SquareRootBits(Prime(i), H0.Words()[i] as nat)
  {
    hide SquareRootBits;
    SquareRoots();
  }

  /** A prime has one such number, so the two results above leave no choice of constants. */
  lemma CubeRootBitsAreUnique(p: nat, k: nat, l: nat)
    requires CubeRootBits(p, k) && CubeRootBits(p, l)
    ensures k == l
  {
    hide IsCubeRoot;
    var n: nat :| IsCubeRoot(n, p) && n % 0x1_0000_0000 == k;
    var m: nat :| IsCubeRoot(m, p) && m % 0x1_0000_0000 == l;
    CubeRootIsUnique(n, m, p);
  }

  lemma SquareRootBitsAreUnique(p: nat, k: nat, l: nat)
    requires SquareRootBits(p, k) && SquareRootBits(p, l)
    ensures k == l
  {
    hide IsSquareRoot;
    var n: nat :| IsSquareRoot(n, p) && n % 0x1_0000_0000 == k;
    var m: nat :| IsSquareRoot(m, p) && m % 0x1_0000_0000 == l;
    SquareRootIsUnique(n, m, p);
  }

  lemma CubeRootIsUnique(n: nat, m: nat, p: nat)
    requires IsCubeRoot(n, p) && IsCubeRoot(m, p)
    ensures n == m
  {
    Cubes(n, m);
    Cubes(m, n);
  }

  lemma SquareRootIsUnique(n: nat, m: nat, p: nat)
    requires IsSquareRoot(n, p) && IsSquareRoot(m, p)
    ensures n == m
  {
    Products(n, n, m + 1);
    Products(m, m, n + 1);
  }

  lemma Cubes(n: nat, m: nat)
    ensures n < m ==> (n + 1) * (n + 1) * (n + 1) <= m * m * m
  {
    if n < m {
      Products(m, m, n + 1);
      var a, b := (n + 1) * (n + 1), m * m;
      assert a * (n + 1) <= b * (n + 1) <= b * m;
    }
  }
}

/** The published example of FIPS 180-4: the digest of "abc", followed through padding, schedule and all
    64 rounds. */
module AbcDigest {
  import opened Fips180

  /** "abc" in ASCII. */
  const ABC: seq<Byte> := [0x61, 0x62, 0x63]

  function AbcBlock(): (block: seq<Byte>)
    ensures |block| == 64
  {
    [0x61, 0x62, 0x63, 0x80] + seq(59, _ => 0) + [0x18]
  }

  lemma AbcPads()
    ensures Pad(ABC) == AbcBlock()
  {
    assert BigEndian(24, 8) == [0, 0, 0, 0, 0, 0, 0, 24] by {
      assert BigEndian(0, 1) == [0];
      assert BigEndian(0, 3) == [0, 0, 0];
      assert BigEndian(0, 5) == [0, 0, 0, 0, 0];
      assert BigEndian(0, 7) == [0, 0, 0, 0, 0, 0, 0];
    }
  }

  lemma WordStep(b: seq<Byte>, t: nat)
    requires |b| == 64 && 16 <= t < 64
    ensures W(b, t)
         == Add(Add(Add(SmallSigma1(W(b, t - 2)), W(b, t - 7)), SmallSigma0(W(b, t - 15))), W(b, t - 16))
  {
  }

  lemma RoundStep(b: seq<Byte>, t: nat)
    requires |b| == 64 && t < 64
    ensures Rounds(b, H0, t + 1) == Round(Rounds(b, H0, t), K(t), W(b, t))
  {
  }

  lemma Words0(b: seq<Byte>)
    requires b == AbcBlock()
    ensures W(b, 0) == 0x61626380 && W(b, 1) == 0x00000000
    ensures W(b, 2) == 0x00000000 && W(b, 3) == 0x00000000
  {
    assert b[0] == 0x61 && b[1] == 0x62 && b[2] == 0x63 && b[3] == 0x80;
    assert forall i | 4 <= i < 16 :: b[i] == 0;
  }

  lemma Words4(b: seq<Byte>)
    requires b == AbcBlock()
    ensures W(b, 4) == 0x00000000 && W(b, 5) == 0x00000000
    ensures W(b, 6) == 0x00000000 && W(b, 7) == 0x00000000
  {
    assert forall i | 16 <= i < 32 :: b[i] == 0;
  }

  lemma Words8(b: seq<Byte>)
    requires b == AbcBlock()
    ensures W(b, 8) == 0x00000000 && W(b, 9) == 0x00000000
    ensures W(b, 10) == 0x00000000 && W(b, 11) == 0x00000000
  {
    assert forall i | 32 <= i < 48 :: b[i] == 0;
  }

  lemma Words12(b: seq<Byte>)
    requires b == AbcBlock()
    ensures W(b, 12) == 0x00000000 && W(b, 13) == 0x00000000
    ensures W(b, 14) == 0x00000000 && W(b, 15) == 0x00000018
  {
    assert forall i | 48 <= i < 63 :: b[i] == 0;
    assert b[63] == 0x18;
  }

  lemma Words16(b: seq<Byte>)
    requires b == AbcBlock()
    ensures W(b, 16) == 0x61626380 && W(b, 17) == 0x000f0000
    ensures W(b, 18) == 0x7da86405 && W(b, 19) == 0x600003c6
  {
    hide W, AbcBlock;
    Words0(b);
    Words4(b);
    Words8(b);
    Words12(b);
    WordStep(b, 16);
    WordStep(b, 17);
    WordStep(b, 18);
    WordStep(b, 19);
  }

  lemma Words20(b: seq<Byte>)
    requires b == AbcBlock()
    ensures W(b, 20) == 0x3e9d7b78 && W(b, 21) == 0x0183fc00
    ensures W(b, 22) == 0x12dcbfdb && W(b, 23) == 0xe2e2c38e
  {
    hide W, AbcBlock;
    Words4(b);
    Words8(b);
    Words12(b);
    Words16(b);
    WordStep(b, 20);
    WordStep(b, 21);
    WordStep(b, 22);
    WordStep(b, 23);
  }

  lemma Words24(b: seq<Byte>)
    requires b == AbcBlock()
    ensures W(b, 24) == 0xc8215c1a && W(b, 25) == 0xb73679a2
    ensures W(b, 26) == 0xe5bc3909 && W(b, 27) == 0x32663c5b
  {
    hide W, AbcBlock;
    Words8(b);
    Words12(b);
    Words16(b);
    Words20(b);
    WordStep(b, 24);
    WordStep(b, 25);
    WordStep(b, 26);
    WordStep(b, 27);
  }

  lemma Words28(b: seq<Byte>)
    requires b == AbcBlock()
    ensures W(b, 28) == 0x9d209d67 && W(b, 29) == 0xec8726cb
    ensures W(b, 30) == 0x702138a4 && W(b, 31) == 0xd3b7973b
  {
    hide W, AbcBlock;
    Words12(b);
    Words16(b);
    Words20(b);
    Words24(b);
    WordStep(b, 28);
    WordStep(b, 29);
    WordStep(b, 30);
    WordStep(b, 31);
  }

  lemma Words32(b: seq<Byte>)
    requires b == AbcBlock()
    ensures W(b, 32) == 0x93f5997f && W(b, 33) == 0x3b68ba73
    ensures W(b, 34) == 0xaff4ffc1 && W(b, 35) == 0xf10a5c62
  {
    hide W, AbcBlock;
    Words16(b);
    Words20(b);
    Words24(b);
    Words28(b);
    WordStep(b, 32);
    WordStep(b, 33);
    WordStep(b, 34);
    WordStep(b, 35);
  }

  lemma Words36(b: seq<Byte>)
    requires b == AbcBlock()
    ensures W(b, 36) == 0x0a8b3996 && W(b, 37) == 0x72af830a
    ensures W(b, 38) == 0x9409e33e && W(b, 39) == 0x24641522
  {
    hide W, AbcBlock;
    Words20(b);
    Words24(b);
    Words28(b);
    Words32(b);
    WordStep(b, 36);
    WordStep(b, 37);
    WordStep(b, 38);
    WordStep(b, 39);
  }

  lemma Words40(b: seq<Byte>)
    requires b == AbcBlock()
    ensures W(b, 40) == 0x9f47bf94 && W(b, 41) == 0xf0a64f5a
    ensures W(b, 42) == 0x3e246a79 && W(b, 43) == 0x27333ba3
  {
    hide W, AbcBlock;
    Words24(b);
    Words28(b);
    Words32(b);
    Words36(b);
    WordStep(b, 40);
    WordStep(b, 41);
    WordStep(b, 42);
    WordStep(b, 43);
  }

  lemma Words44(b: seq<Byte>)
    requires b == AbcBlock()
    ensures W(b, 44) == 0x0c4763f2 && W(b, 45) == 0x840abf27
    ensures W(b, 46) == 0x7a290d5d && W(b, 47) == 0x065c43da
  {
    hide W, AbcBlock;
    Words28(b);
    Words32(b);
    Words36(b);
    Words40(b);
    WordStep(b, 44);
    WordStep(b, 45);
    WordStep(b, 46);
    WordStep(b, 47);
  }

  lemma Words48(b: seq<Byte>)
    requires b == AbcBlock()
    ensures W(b, 48) == 0xfb3e89cb && W(b, 49) == 0xcc7617db
    ensures W(b, 50) == 0xb9e66c34 && W(b, 51) == 0xa9993667
  {
    hide W, AbcBlock;
    Words32(b);
    Words36(b);
    Words40(b);
    Words44(b);
    WordStep(b, 48);
    WordStep(b, 49);
    WordStep(b, 50);
    WordStep(b, 51);
  }

  lemma Words52(b: seq<Byte>)
    requires b == AbcBlock()
    ensures W(b, 52) == 0x84badedd && W(b, 53) == 0xc21462bc
    ensures W(b, 54) == 0x1487472c && W(b, 55) == 0xb20f7a99
  {
    hide W, AbcBlock;
    Words36(b);
    Words40(b);
    Words44(b);
    Words48(b);
    WordStep(b, 52);
    WordStep(b, 53);
    WordStep(b, 54);
    WordStep(b, 55);
  }

  lemma Words56(b: seq<Byte>)
    requires b == AbcBlock()
    ensures W(b, 56) == 0xef57b9cd && W(b, 57) == 0xebe6b238
    ensures W(b, 58) == 0x9fe3095e && W(b, 59) == 0x78bc8d4b
  {
    hide W, AbcBlock;
    Words40(b);
    Words44(b);
    Words48(b);
    Words52(b);
    WordStep(b, 56);
    WordStep(b, 57);
    WordStep(b, 58);
    WordStep(b, 59);
  }

  lemma Words60(b: seq<Byte>)
    requires b == AbcBlock()
    ensures W(b, 60) == 0xa43fcf15 && W(b, 61) == 0x668b2ff8
    ensures W(b, 62) == 0xeeaba2cc && W(b, 63) == 0x12b1edeb
  {
    hide W, AbcBlock;
    Words44(b);
    Words48(b);
    Words52(b);
    Words56(b);
    WordStep(b, 60);
    WordStep(b, 61);
    WordStep(b, 62);
    WordStep(b, 63);
  }

  lemma Rounds4(b: seq<Byte>)
    requires b == AbcBlock()
    ensures Rounds(b, H0, 4)
         == Vars(0xd550f666, 0xc8c347a7, 0x5a6ad9ad, 0x5d6aebcd, 0x24e00850, 0xf92939eb, 0x78ce7989, 0xfa2a4622)
  {
    hide W, Rounds, AbcBlock, K;
    NoRounds(b);
    Words0(b);
    Constants0();
    RoundStep(b, 0);
    assert Rounds(b, H0, 1)
        == Vars(0x5d6aebcd, 0x6a09e667, 0xbb67ae85, 0x3c6ef372, 0xfa2a4622, 0x510e527f, 0x9b05688c, 0x1f83d9ab);
    RoundStep(b, 1);
    assert Rounds(b, H0, 2)
        == Vars(0x5a6ad9ad, 0x5d6aebcd, 0x6a09e667, 0xbb67ae85, 0x78ce7989, 0xfa2a4622, 0x510e527f, 0x9b05688c);
    RoundStep(b, 2);
    assert Rounds(b, H0, 3)
        == Vars(0xc8c347a7, 0x5a6ad9ad, 0x5d6aebcd, 0x6a09e667, 0xf92939eb, 0x78ce7989, 0xfa2a4622, 0x510e527f);
    RoundStep(b, 3);
  }

  lemma Rounds8(b: seq<Byte>)
    requires b == AbcBlock()
    ensures Rounds(b, H0, 8)
         == Vars(0x85a07b5f, 0xe5030380, 0x2b4209f5, 0x04409a6a, 0x0c657a79, 0x9b27a401, 0x714260ad, 0x43ada245)
  {
    hide W, Rounds, AbcBlock, K;
    Rounds4(b);
    Words4(b);
    Constants4();
    RoundStep(b, 4);
    assert Rounds(b, H0, 5)
        == Vars(0x04409a6a, 0xd550f666, 0xc8c347a7, 0x5a6ad9ad, 0x43ada245, 0x24e00850, 0xf92939eb, 0x78ce7989);
    RoundStep(b, 5);
    assert Rounds(b, H0, 6)
        == Vars(0x2b4209f5, 0x04409a6a, 0xd550f666, 0xc8c347a7, 0x714260ad, 0x43ada245, 0x24e00850, 0xf92939eb);
    RoundStep(b, 6);
    assert Rounds(b, H0, 7)
        == Vars(0xe5030380, 0x2b4209f5, 0x04409a6a, 0xd550f666, 0x9b27a401, 0x714260ad, 0x43ada245, 0x24e00850);
    RoundStep(b, 7);
  }

  lemma Rounds12(b: seq<Byte>)
    requires b == AbcBlock()
    ensures Rounds(b, H0, 12)
         == Vars(0xf71fc5a9, 0x4798a3f4, 0x8c87346b, 0x8e04ecb9, 0x816fd6e9, 0x436b23e8, 0x1cc92596, 0x32ca2d8c)
  {
    hide W, Rounds, AbcBlock, K;
    Rounds8(b);
    Words8(b);
    Constants8();
    RoundStep(b, 8);
    assert Rounds(b, H0, 9)
        == Vars(0x8e04ecb9, 0x85a07b5f, 0xe5030380, 0x2b4209f5, 0x32ca2d8c, 0x0c657a79, 0x9b27a401, 0x714260ad);
    RoundStep(b, 9);
    assert Rounds(b, H0, 10)
        == Vars(0x8c87346b, 0x8e04ecb9, 0x85a07b5f, 0xe5030380, 0x1cc92596, 0x32ca2d8c, 0x0c657a79, 0x9b27a401);
    RoundStep(b, 10);
    assert Rounds(b, H0, 11)
        == Vars(0x4798a3f4, 0x8c87346b, 0x8e04ecb9, 0x85a07b5f, 0x436b23e8, 0x1cc92596, 0x32ca2d8c, 0x0c657a79);
    RoundStep(b, 11);
  }

  lemma Rounds16(b: seq<Byte>)
    requires b == AbcBlock()
    ensures Rounds(b, H0, 16)
         == Vars(0xb0fa238e, 0xc0645fde, 0xd932eb16, 0x87912990, 0x07590dcd, 0x0b92f20c, 0x745a48de, 0x1e578218)
  {
    hide W, Rounds, AbcBlock, K;
    Rounds12(b);
    Words12(b);
    Constants12();
    RoundStep(b, 12);
    assert Rounds(b, H0, 13)
        == Vars(0x87912990, 0xf71fc5a9, 0x4798a3f4, 0x8c87346b, 0x1e578218, 0x816fd6e9, 0x436b23e8, 0x1cc92596);
    RoundStep(b, 13);
    assert Rounds(b, H0, 14)
        == Vars(0xd932eb16, 0x87912990, 0xf71fc5a9, 0x4798a3f4, 0x745a48de, 0x1e578218, 0x816fd6e9, 0x436b23e8);
    RoundStep(b, 14);
    assert Rounds(b, H0, 15)
        == Vars(0xc0645fde, 0xd932eb16, 0x87912990, 0xf71fc5a9, 0x0b92f20c, 0x745a48de, 0x1e578218, 0x816fd6e9);
    RoundStep(b, 15);
  }

  lemma Rounds20(b: seq<Byte>)
    requires b == AbcBlock()
    ensures Rounds(b, H0, 20)
         == Vars(0xe1f20c33, 0xfe777bbf, 0xc2fbd9d1, 0x21da9a9b, 0xb0638179, 0xcc899961, 0x846ee454, 0x8034229c)
  {
    hide W, Rounds, AbcBlock, K;
    Rounds16(b);
    Words16(b);
    Constants16();
    RoundStep(b, 16);
    assert Rounds(b, H0, 17)
        == Vars(0x21da9a9b, 0xb0fa238e, 0xc0645fde, 0xd932eb16, 0x8034229c, 0x07590dcd, 0x0b92f20c, 0x745a48de);
    RoundStep(b, 17);
    assert Rounds(b, H0, 18)
        == Vars(0xc2fbd9d1, 0x21da9a9b, 0xb0fa238e, 0xc0645fde, 0x846ee454, 0x8034229c, 0x07590dcd, 0x0b92f20c);
    RoundStep(b, 18);
    assert Rounds(b, H0, 19)
        == Vars(0xfe777bbf, 0xc2fbd9d1, 0x21da9a9b, 0xb0fa238e, 0xcc899961, 0x846ee454, 0x8034229c, 0x07590dcd);
    RoundStep(b, 19);
  }

  lemma Rounds24(b: seq<Byte>)
    requires b == AbcBlock()
    ensures Rounds(b, H0, 24)
         == Vars(0xc5d53d8d, 0xa7a3623f, 0xc2606d6d, 0x9dc68b63, 0xaa47c347, 0x49f5114a, 0xe1257970, 0x8ada8930)
  {
    hide W, Rounds, AbcBlock, K;
    Rounds20(b);
    Words20(b);
    Constants20();
    RoundStep(b, 20);
    assert Rounds(b, H0, 21)
        == Vars(0x9dc68b63, 0xe1f20c33, 0xfe777bbf, 0xc2fbd9d1, 0x8ada8930, 0xb0638179, 0xcc899961, 0x846ee454);
    RoundStep(b, 21);
    assert Rounds(b, H0, 22)
        == Vars(0xc2606d6d, 0x9dc68b63, 0xe1f20c33, 0xfe777bbf, 0xe1257970, 0x8ada8930, 0xb0638179, 0xcc899961);
    RoundStep(b, 22);
    assert Rounds(b, H0, 23)
        == Vars(0xa7a3623f, 0xc2606d6d, 0x9dc68b63, 0xe1f20c33, 0x49f5114a, 0xe1257970, 0x8ada8930, 0xb0638179);
    RoundStep(b, 23);
  }

  lemma Rounds28(b: seq<Byte>)
    requires b == AbcBlock()
    ensures Rounds(b, H0, 28)
         == Vars(0x77d37528, 0xb62ec4bc, 0xcde8037d, 0x1c2c2838, 0xedffbff8, 0xc74c6516, 0x14383d8e, 0x2823ef91)
  {
    hide W, Rounds, AbcBlock, K;
    Rounds24(b);
    Words24(b);
    Constants24();
    RoundStep(b, 24);
    assert Rounds(b, H0, 25)
        == Vars(0x1c2c2838, 0xc5d53d8d, 0xa7a3623f, 0xc2606d6d, 0x2823ef91, 0xaa47c347, 0x49f5114a, 0xe1257970);
    RoundStep(b, 25);
    assert Rounds(b, H0, 26)
        == Vars(0xcde8037d, 0x1c2c2838, 0xc5d53d8d, 0xa7a3623f, 0x14383d8e, 0x2823ef91, 0xaa47c347, 0x49f5114a);
    RoundStep(b, 26);
    assert Rounds(b, H0, 27)
        == Vars(0xb62ec4bc, 0xcde8037d, 0x1c2c2838, 0xc5d53d8d, 0xc74c6516, 0x14383d8e, 0x2823ef91, 0xaa47c347);
    RoundStep(b, 27);
  }

  lemma Rounds32(b: seq<Byte>)
    requires b == AbcBlock()
    ensures Rounds(b, H0, 32)
         == Vars(0x73b33bf5, 0xea992a22, 0xa0060b30, 0x363482c9, 0xba591112, 0x0109ab3a, 0xade79437, 0x6112a3b7)
  {
    hide W, Rounds, AbcBlock, K;
    Rounds28(b);
    Words28(b);
    Constants28();
    RoundStep(b, 28);
    assert Rounds(b, H0, 29)
        == Vars(0x363482c9, 0x77d37528, 0xb62ec4bc, 0xcde8037d, 0x6112a3b7, 0xedffbff8, 0xc74c6516, 0x14383d8e);
    RoundStep(b, 29);
    assert Rounds(b, H0, 30)
        == Vars(0xa0060b30, 0x363482c9, 0x77d37528, 0xb62ec4bc, 0xade79437, 0x6112a3b7, 0xedffbff8, 0xc74c6516);
    RoundStep(b, 30);
    assert Rounds(b, H0, 31)
        == Vars(0xea992a22, 0xa0060b30, 0x363482c9, 0x77d37528, 0x0109ab3a, 0xade79437, 0x6112a3b7, 0xedffbff8);
    RoundStep(b, 31);
  }

  lemma Rounds36(b: seq<Byte>)
    requires b == AbcBlock()
    ensures Rounds(b, H0, 36)
         == Vars(0x65a0cfe4, 0xa9a7738c, 0xfe604df5, 0x98e12507, 0xf4b002d6, 0x085f3833, 0x59249dd3, 0x9cd9f5f6)
  {
    hide W, Rounds, AbcBlock, K;
    Rounds32(b);
    Words32(b);
    Constants32();
    RoundStep(b, 32);
    assert Rounds(b, H0, 33)
        == Vars(0x98e12507, 0x73b33bf5, 0xea992a22, 0xa0060b30, 0x9cd9f5f6, 0xba591112, 0x0109ab3a, 0xade79437);
    RoundStep(b, 33);
    assert Rounds(b, H0, 34)
        == Vars(0xfe604df5, 0x98e12507, 0x73b33bf5, 0xea992a22, 0x59249dd3, 0x9cd9f5f6, 0xba591112, 0x0109ab3a);
    RoundStep(b, 34);
    assert Rounds(b, H0, 35)
        == Vars(0xa9a7738c, 0xfe604df5, 0x98e12507, 0x73b33bf5, 0x085f3833, 0x59249dd3, 0x9cd9f5f6, 0xba591112);
    RoundStep(b, 35);
  }

  lemma Rounds40(b: seq<Byte>)
    requires b == AbcBlock()
    ensures Rounds(b, H0, 40)
         == Vars(0x79ea687a, 0x6dc57a8a, 0x34df1604, 0x41a65cb1, 0x1efbc0a0, 0xf0781bc8, 0xa507a53d, 0x0772a26b)
  {
    hide W, Rounds, AbcBlock, K;
    Rounds36(b);
    Words36(b);
    Constants36();
    RoundStep(b, 36);
    assert Rounds(b, H0, 37)
        == Vars(0x41a65cb1, 0x65a0cfe4, 0xa9a7738c, 0xfe604df5, 0x0772a26b, 0xf4b002d6, 0x085f3833, 0x59249dd3);
    RoundStep(b, 37);
    assert Rounds(b, H0, 38)
        == Vars(0x34df1604, 0x41a65cb1, 0x65a0cfe4, 0xa9a7738c, 0xa507a53d, 0x0772a26b, 0xf4b002d6, 0x085f3833);
    RoundStep(b, 38);
    assert Rounds(b, H0, 39)
        == Vars(0x6dc57a8a, 0x34df1604, 0x41a65cb1, 0x65a0cfe4, 0xf0781bc8, 0xa507a53d, 0x0772a26b, 0xf4b002d6);
    RoundStep(b, 39);
  }

  lemma Rounds44(b: seq<Byte>)
    requires b == AbcBlock()
    ensures Rounds(b, H0, 44)
         == Vars(0x9d4baf93, 0x17aa0dfe, 0xdf46652f, 0xd6670766, 0xfda24c2e, 0xdecd4715, 0x838b2711, 0x26352d63)
  {
    hide W, Rounds, AbcBlock, K;
    Rounds40(b);
    Words40(b);
    Constants40();
    RoundStep(b, 40);
    assert Rounds(b, H0, 41)
        == Vars(0xd6670766, 0x79ea687a, 0x6dc57a8a, 0x34df1604, 0x26352d63, 0x1efbc0a0, 0xf0781bc8, 0xa507a53d);
    RoundStep(b, 41);
    assert Rounds(b, H0, 42)
        == Vars(0xdf46652f, 0xd6670766, 0x79ea687a, 0x6dc57a8a, 0x838b2711, 0x26352d63, 0x1efbc0a0, 0xf0781bc8);
    RoundStep(b, 42);
    assert Rounds(b, H0, 43)
        == Vars(0x17aa0dfe, 0xdf46652f, 0xd6670766, 0x79ea687a, 0xdecd4715, 0x838b2711, 0x26352d63, 0x1efbc0a0);
    RoundStep(b, 43);
  }

  lemma Rounds48(b: seq<Byte>)
    requires b == AbcBlock()
    ensures Rounds(b, H0, 48)
         == Vars(0x4172328d, 0xa14c14b0, 0x72ab4b91, 0x26628815, 0xfecf0bc6, 0xd57b94a9, 0xb7755da1, 0xa80f11f0)
  {
    hide W, Rounds, AbcBlock, K;
    Rounds44(b);
    Words44(b);
    Constants44();
    RoundStep(b, 44);
    assert Rounds(b, H0, 45)
        == Vars(0x26628815, 0x9d4baf93, 0x17aa0dfe, 0xdf46652f, 0xa80f11f0, 0xfda24c2e, 0xdecd4715, 0x838b2711);
    RoundStep(b, 45);
    assert Rounds(b, H0, 46)
        == Vars(0x72ab4b91, 0x26628815, 0x9d4baf93, 0x17aa0dfe, 0xb7755da1, 0xa80f11f0, 0xfda24c2e, 0xdecd4715);
    RoundStep(b, 46);
    assert Rounds(b, H0, 47)
        == Vars(0xa14c14b0, 0x72ab4b91, 0x26628815, 0x9d4baf93, 0xd57b94a9, 0xb7755da1, 0xa80f11f0, 0xfda24c2e);
    RoundStep(b, 47);
  }

  lemma Rounds52(b: seq<Byte>)
    requires b == AbcBlock()
    ensures Rounds(b, H0, 52)
         == Vars(0x886e7a22, 0x7a0508a1, 0xf11bfaa8, 0x05757ceb, 0x49231c1e, 0x52f1ccf7, 0x6e5c390c, 0xbd714038)
  {
    hide W, Rounds, AbcBlock, K;
    Rounds48(b);
    Words48(b);
    Constants48();
    RoundStep(b, 48);
    assert Rounds(b, H0, 49)
        == Vars(0x05757ceb, 0x4172328d, 0xa14c14b0, 0x72ab4b91, 0xbd714038, 0xfecf0bc6, 0xd57b94a9, 0xb7755da1);
    RoundStep(b, 49);
    assert Rounds(b, H0, 50)
        == Vars(0xf11bfaa8, 0x05757ceb, 0x4172328d, 0xa14c14b0, 0x6e5c390c, 0xbd714038, 0xfecf0bc6, 0xd57b94a9);
    RoundStep(b, 50);
    assert Rounds(b, H0, 51)
        == Vars(0x7a0508a1, 0xf11bfaa8, 0x05757ceb, 0x4172328d, 0x52f1ccf7, 0x6e5c390c, 0xbd714038, 0xfecf0bc6);
    RoundStep(b, 51);
  }

  lemma Rounds56(b: seq<Byte>)
    requires b == AbcBlock()
    ensures Rounds(b, H0, 56)
         == Vars(0x38cc9913, 0x3ec45cdb, 0xf5702fdb, 0x101fd28f, 0x54cb266b, 0xe50e1b4f, 0x9f4787c3, 0x529e7d00)
  {
    hide W, Rounds, AbcBlock, K;
    Rounds52(b);
    Words52(b);
    Constants52();
    RoundStep(b, 52);
    assert Rounds(b, H0, 53)
        == Vars(0x101fd28f, 0x886e7a22, 0x7a0508a1, 0xf11bfaa8, 0x529e7d00, 0x49231c1e, 0x52f1ccf7, 0x6e5c390c);
    RoundStep(b, 53);
    assert Rounds(b, H0, 54)
        == Vars(0xf5702fdb, 0x101fd28f, 0x886e7a22, 0x7a0508a1, 0x9f4787c3, 0x529e7d00, 0x49231c1e, 0x52f1ccf7);
    RoundStep(b, 54);
    assert Rounds(b, H0, 55)
        == Vars(0x3ec45cdb, 0xf5702fdb, 0x101fd28f, 0x886e7a22, 0xe50e1b4f, 0x9f4787c3, 0x529e7d00, 0x49231c1e);
    RoundStep(b, 55);
  }

  lemma Rounds60(b: seq<Byte>)
    requires b == AbcBlock()
    ensures Rounds(b, H0, 60)
         == Vars(0xb6ae8fff, 0xffb70472, 0xc062d46f, 0xfcd1887b, 0xb21bad3d, 0x6d83bfc6, 0x7e44008e, 0x9b5e906c)
  {
    hide W, Rounds, AbcBlock, K;
    Rounds56(b);
    Words56(b);
    Constants56();
    RoundStep(b, 56);
    assert Rounds(b, H0, 57)
        == Vars(0xfcd1887b, 0x38cc9913, 0x3ec45cdb, 0xf5702fdb, 0x9b5e906c, 0x54cb266b, 0xe50e1b4f, 0x9f4787c3);
    RoundStep(b, 57);
    assert Rounds(b, H0, 58)
        == Vars(0xc062d46f, 0xfcd1887b, 0x38cc9913, 0x3ec45cdb, 0x7e44008e, 0x9b5e906c, 0x54cb266b, 0xe50e1b4f);
    RoundStep(b, 58);
    assert Rounds(b, H0, 59)
        == Vars(0xffb70472, 0xc062d46f, 0xfcd1887b, 0x38cc9913, 0x6d83bfc6, 0x7e44008e, 0x9b5e906c, 0x54cb266b);
    RoundStep(b, 59);
  }

  lemma Rounds64(b: seq<Byte>)
    requires b == AbcBlock()
    ensures Rounds(b, H0, 64)
         == Vars(0x506e3058, 0xd39a2165, 0x04d24d6c, 0xb85e2ce9, 0x5ef50f24, 0xfb121210, 0x948d25b6, 0x961f4894)
  {
    hide W, Rounds, AbcBlock, K;
    Rounds60(b);
    Words60(b);
    Constants60();
    RoundStep(b, 60);
    assert Rounds(b, H0, 61)
        == Vars(0xb85e2ce9, 0xb6ae8fff, 0xffb70472, 0xc062d46f, 0x961f4894, 0xb21bad3d, 0x6d83bfc6, 0x7e44008e);
    RoundStep(b, 61);
    assert Rounds(b, H0, 62)
        == Vars(0x04d24d6c, 0xb85e2ce9, 0xb6ae8fff, 0xffb70472, 0x948d25b6, 0x961f4894, 0xb21bad3d, 0x6d83bfc6);
    RoundStep(b, 62);
    assert Rounds(b, H0, 63)
        == Vars(0xd39a2165, 0x04d24d6c, 0xb85e2ce9, 0xb6ae8fff, 0xfb121210, 0x948d25b6, 0x961f4894, 0xb21bad3d);
    RoundStep(b, 63);
  }

  lemma NoRounds(b: seq<Byte>)
    requires |b| == 64
    ensures Rounds(b, H0, 0) == H0
  {
  }

  lemma Constants0()
    ensures K(0) == 0x428a2f98
    ensures K(1) == 0x71374491
    ensures K(2) == 0xb5c0fbcf
    ensures K(3) == 0xe9b5dba5
  {
  }

  lemma Constants4()
    ensures K(4) == 0x3956c25b
    ensures K(5) == 0x59f111f1
    ensures K(6) == 0x923f82a4
    ensures K(7) == 0xab1c5ed5
  {
  }

  lemma Constants8()
    ensures K(8) == 0xd807aa98
    ensures K(9) == 0x12835b01
    ensures K(10) == 0x243185be
    ensures K(11) == 0x550c7dc3
  {
  }

  lemma Constants12()
    ensures K(12) == 0x72be5d74
    ensures K(13) == 0x80deb1fe
    ensures K(14) == 0x9bdc06a7
    ensures K(15) == 0xc19bf174
  {
  }

  lemma Constants16()
    ensures K(16) == 0xe49b69c1
    ensures K(17) == 0xefbe4786
    ensures K(18) == 0x0fc19dc6
    ensures K(19) == 0x240ca1cc
  {
  }

  lemma Constants20()
    ensures K(20) == 0x2de92c6f
    ensures K(21) == 0x4a7484aa
    ensures K(22) == 0x5cb0a9dc
    ensures K(23) == 0x76f988da
  {
  }

  lemma Constants24()
    ensures K(24) == 0x983e5152
    ensures K(25) == 0xa831c66d
    ensures K(26) == 0xb00327c8
    ensures K(27) == 0xbf597fc7
  {
  }

  lemma Constants28()
    ensures K(28) == 0xc6e00bf3
    ensures K(29) == 0xd5a79147
    ensures K(30) == 0x06ca6351
    ensures K(31) == 0x14292967
  {
  }

  lemma Constants32()
    ensures K(32) == 0x27b70a85
    ensures K(33) == 0x2e1b2138
    ensures K(34) == 0x4d2c6dfc
    ensures K(35) == 0x53380d13
  {
  }

  lemma Constants36()
    ensures K(36) == 0x650a7354
    ensures K(37) == 0x766a0abb
    ensures K(38) == 0x81c2c92e
    ensures K(39) == 0x92722c85
  {
  }

  lemma Constants40()
    ensures K(40) == 0xa2bfe8a1
    ensures K(41) == 0xa81a664b
    ensures K(42) == 0xc24b8b70
    ensures K(43) == 0xc76c51a3
  {
  }

  lemma Constants44()
    ensures K(44) == 0xd192e819
    ensures K(45) == 0xd6990624
    ensures K(46) == 0xf40e3585
    ensures K(47) == 0x106aa070
  {
  }

  lemma Constants48()
    ensures K(48) == 0x19a4c116
    ensures K(49) == 0x1e376c08
    ensures K(50) == 0x2748774c
    ensures K(51) == 0x34b0bcb5
  {
  }

  lemma Constants52()
    ensures K(52) == 0x391c0cb3
    ensures K(53) == 0x4ed8aa4a
    ensures K(54) == 0x5b9cca4f
    ensures K(55) == 0x682e6ff3
  {
  }

  lemma Constants56()
    ensures K(56) == 0x748f82ee
    ensures K(57) == 0x78a5636f
    ensures K(58) == 0x84c87814
    ensures K(59) == 0x8cc70208
  {
  }

  lemma Constants60()
    ensures K(60) == 0x90befffa
    ensures K(61) == 0xa4506ceb
    ensures K(62) == 0xbef9a3f7
    ensures K(63) == 0xc67178f2
  {
  }

  /** The hash value of "abc" is the published one. */
  lemma AbcHash()
    ensures HashValue(ABC)
         == Vars(0xba7816bf, 0x8f01cfea, 0x414140de, 0x5dae2223, 0xb00361a3, 0x96177a9c, 0xb410ff61, 0xf20015ad)
  {
    hide W, Rounds, Pad;
    AbcPads();
    Rounds64(AbcBlock());
    assert Chain(AbcBlock(), 0) == H0;
    assert AbcBlock()[0..64] == AbcBlock();
    assert HashValue(ABC) == Compress(H0, AbcBlock());
  }
}

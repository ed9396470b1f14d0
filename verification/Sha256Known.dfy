/** The digest of the message "abc", an example published with FIPS 180-4, computed from the
    definition: the tables hold the message schedule and the working variables of every round. */
module Sha256Known {
  import opened Bytes
  import opened Sha256Constants
  import opened Sha256Spec

  /** The message schedule. */
  function ScheduleWord(t: nat): bv32
    requires t < 64
  {
    match t
    case 0 => 0x61626380 case 1 => 0x00000000 case 2 => 0x00000000 case 3 => 0x00000000
    case 4 => 0x00000000 case 5 => 0x00000000 case 6 => 0x00000000 case 7 => 0x00000000
    case 8 => 0x00000000 case 9 => 0x00000000 case 10 => 0x00000000 case 11 => 0x00000000
    case 12 => 0x00000000 case 13 => 0x00000000 case 14 => 0x00000000 case 15 => 0x00000018
    case 16 => 0x61626380 case 17 => 0x000f0000 case 18 => 0x7da86405 case 19 => 0x600003c6
    case 20 => 0x3e9d7b78 case 21 => 0x0183fc00 case 22 => 0x12dcbfdb case 23 => 0xe2e2c38e
    case 24 => 0xc8215c1a case 25 => 0xb73679a2 case 26 => 0xe5bc3909 case 27 => 0x32663c5b
    case 28 => 0x9d209d67 case 29 => 0xec8726cb case 30 => 0x702138a4 case 31 => 0xd3b7973b
    case 32 => 0x93f5997f case 33 => 0x3b68ba73 case 34 => 0xaff4ffc1 case 35 => 0xf10a5c62
    case 36 => 0x0a8b3996 case 37 => 0x72af830a case 38 => 0x9409e33e case 39 => 0x24641522
    case 40 => 0x9f47bf94 case 41 => 0xf0a64f5a case 42 => 0x3e246a79 case 43 => 0x27333ba3
    case 44 => 0x0c4763f2 case 45 => 0x840abf27 case 46 => 0x7a290d5d case 47 => 0x065c43da
    case 48 => 0xfb3e89cb case 49 => 0xcc7617db case 50 => 0xb9e66c34 case 51 => 0xa9993667
    case 52 => 0x84badedd case 53 => 0xc21462bc case 54 => 0x1487472c case 55 => 0xb20f7a99
    case 56 => 0xef57b9cd case 57 => 0xebe6b238 case 58 => 0x9fe3095e case 59 => 0x78bc8d4b
    case 60 => 0xa43fcf15 case 61 => 0x668b2ff8 case 62 => 0xeeaba2cc case _ => 0x12b1edeb
  }

  /** The variable `a` of the last four rounds before round 0, and after each round. */
  function VarA(t: nat): bv32
    requires t < 68
  {
    match t
    case 0 => 0xa54ff53a case 1 => 0x3c6ef372 case 2 => 0xbb67ae85 case 3 => 0x6a09e667
    case 4 => 0x5d6aebcd case 5 => 0x5a6ad9ad case 6 => 0xc8c347a7 case 7 => 0xd550f666
    case 8 => 0x04409a6a case 9 => 0x2b4209f5 case 10 => 0xe5030380 case 11 => 0x85a07b5f
    case 12 => 0x8e04ecb9 case 13 => 0x8c87346b case 14 => 0x4798a3f4 case 15 => 0xf71fc5a9
    case 16 => 0x87912990 case 17 => 0xd932eb16 case 18 => 0xc0645fde case 19 => 0xb0fa238e
    case 20 => 0x21da9a9b case 21 => 0xc2fbd9d1 case 22 => 0xfe777bbf case 23 => 0xe1f20c33
    case 24 => 0x9dc68b63 case 25 => 0xc2606d6d case 26 => 0xa7a3623f case 27 => 0xc5d53d8d
    case 28 => 0x1c2c2838 case 29 => 0xcde8037d case 30 => 0xb62ec4bc case 31 => 0x77d37528
    case 32 => 0x363482c9 case 33 => 0xa0060b30 case 34 => 0xea992a22 case 35 => 0x73b33bf5
    case 36 => 0x98e12507 case 37 => 0xfe604df5 case 38 => 0xa9a7738c case 39 => 0x65a0cfe4
    case 40 => 0x41a65cb1 case 41 => 0x34df1604 case 42 => 0x6dc57a8a case 43 => 0x79ea687a
    case 44 => 0xd6670766 case 45 => 0xdf46652f case 46 => 0x17aa0dfe case 47 => 0x9d4baf93
    case 48 => 0x26628815 case 49 => 0x72ab4b91 case 50 => 0xa14c14b0 case 51 => 0x4172328d
    case 52 => 0x05757ceb case 53 => 0xf11bfaa8 case 54 => 0x7a0508a1 case 55 => 0x886e7a22
    case 56 => 0x101fd28f case 57 => 0xf5702fdb case 58 => 0x3ec45cdb case 59 => 0x38cc9913
    case 60 => 0xfcd1887b case 61 => 0xc062d46f case 62 => 0xffb70472 case 63 => 0xb6ae8fff
    case 64 => 0xb85e2ce9 case 65 => 0x04d24d6c case 66 => 0xd39a2165 case _ => 0x506e3058
  }

  /** The variable `e`, likewise. */
  function VarE(t: nat): bv32
    requires t < 68
  {
    match t
    case 0 => 0x5be0cd19 case 1 => 0x1f83d9ab case 2 => 0x9b05688c case 3 => 0x510e527f
    case 4 => 0xfa2a4622 case 5 => 0x78ce7989 case 6 => 0xf92939eb case 7 => 0x24e00850
    case 8 => 0x43ada245 case 9 => 0x714260ad case 10 => 0x9b27a401 case 11 => 0x0c657a79
    case 12 => 0x32ca2d8c case 13 => 0x1cc92596 case 14 => 0x436b23e8 case 15 => 0x816fd6e9
    case 16 => 0x1e578218 case 17 => 0x745a48de case 18 => 0x0b92f20c case 19 => 0x07590dcd
    case 20 => 0x8034229c case 21 => 0x846ee454 case 22 => 0xcc899961 case 23 => 0xb0638179
    case 24 => 0x8ada8930 case 25 => 0xe1257970 case 26 => 0x49f5114a case 27 => 0xaa47c347
    case 28 => 0x2823ef91 case 29 => 0x14383d8e case 30 => 0xc74c6516 case 31 => 0xedffbff8
    case 32 => 0x6112a3b7 case 33 => 0xade79437 case 34 => 0x0109ab3a case 35 => 0xba591112
    case 36 => 0x9cd9f5f6 case 37 => 0x59249dd3 case 38 => 0x085f3833 case 39 => 0xf4b002d6
    case 40 => 0x0772a26b case 41 => 0xa507a53d case 42 => 0xf0781bc8 case 43 => 0x1efbc0a0
    case 44 => 0x26352d63 case 45 => 0x838b2711 case 46 => 0xdecd4715 case 47 => 0xfda24c2e
    case 48 => 0xa80f11f0 case 49 => 0xb7755da1 case 50 => 0xd57b94a9 case 51 => 0xfecf0bc6
    case 52 => 0xbd714038 case 53 => 0x6e5c390c case 54 => 0x52f1ccf7 case 55 => 0x49231c1e
    case 56 => 0x529e7d00 case 57 => 0x9f4787c3 case 58 => 0xe50e1b4f case 59 => 0x54cb266b
    case 60 => 0x9b5e906c case 61 => 0x7e44008e case 62 => 0x6d83bfc6 case 63 => 0xb21bad3d
    case 64 => 0x961f4894 case 65 => 0x948d25b6 case 66 => 0xfb121210 case _ => 0x5ef50f24
  }

  // ---------------------------------------------------------------- message schedule

  ghost predicate WordsAre(block: seq<byte>, t: nat, w0: bv32, w1: bv32, w2: bv32, w3: bv32)
    requires |block| == 64 && t + 3 < 64
  {
    W(block, t) == w0 && W(block, t + 1) == w1 && W(block, t + 2) == w2 && W(block, t + 3) == w3
  }

  ghost predicate Words0(block: seq<byte>)
    requires |block| == 64
  {
    && WordsAre(block, 0, 0x61626380, 0x00000000, 0x00000000, 0x00000000)
    && WordsAre(block, 4, 0x00000000, 0x00000000, 0x00000000, 0x00000000)
    && WordsAre(block, 8, 0x00000000, 0x00000000, 0x00000000, 0x00000000)
    && WordsAre(block, 12, 0x00000000, 0x00000000, 0x00000000, 0x00000018)
  }

  ghost predicate Words16(block: seq<byte>)
    requires |block| == 64
  {
    && WordsAre(block, 16, 0x61626380, 0x000f0000, 0x7da86405, 0x600003c6)
    && WordsAre(block, 20, 0x3e9d7b78, 0x0183fc00, 0x12dcbfdb, 0xe2e2c38e)
    && WordsAre(block, 24, 0xc8215c1a, 0xb73679a2, 0xe5bc3909, 0x32663c5b)
    && WordsAre(block, 28, 0x9d209d67, 0xec8726cb, 0x702138a4, 0xd3b7973b)
  }

  ghost predicate Words32(block: seq<byte>)
    requires |block| == 64
  {
    && WordsAre(block, 32, 0x93f5997f, 0x3b68ba73, 0xaff4ffc1, 0xf10a5c62)
    && WordsAre(block, 36, 0x0a8b3996, 0x72af830a, 0x9409e33e, 0x24641522)
    && WordsAre(block, 40, 0x9f47bf94, 0xf0a64f5a, 0x3e246a79, 0x27333ba3)
    && WordsAre(block, 44, 0x0c4763f2, 0x840abf27, 0x7a290d5d, 0x065c43da)
  }

  ghost predicate Words48(block: seq<byte>)
    requires |block| == 64
  {
    && WordsAre(block, 48, 0xfb3e89cb, 0xcc7617db, 0xb9e66c34, 0xa9993667)
    && WordsAre(block, 52, 0x84badedd, 0xc21462bc, 0x1487472c, 0xb20f7a99)
    && WordsAre(block, 56, 0xef57b9cd, 0xebe6b238, 0x9fe3095e, 0x78bc8d4b)
    && WordsAre(block, 60, 0xa43fcf15, 0x668b2ff8, 0xeeaba2cc, 0x12b1edeb)
  }

  lemma {:induction false} NextWord(block: seq<byte>, t: nat)
    requires |block| == 64 && 16 <= t < 64
    ensures W(block, t) == Extend(W(block, t - 2), W(block, t - 7), W(block, t - 15), W(block, t - 16))
  {
    hide WordAt, Extend;
  }

  lemma {:induction false} Extend16(block: seq<byte>)
    requires |block| == 64 && Words0(block)
    ensures Words16(block)
  {
    hide W;
    NextWord(block, 16);
    assert Extend(0x00000000, 0x00000000, 0x00000000, 0x61626380) == 0x61626380;
    NextWord(block, 17);
    assert Extend(0x00000018, 0x00000000, 0x00000000, 0x00000000) == 0x000f0000;
    NextWord(block, 18);
    assert Extend(0x61626380, 0x00000000, 0x00000000, 0x00000000) == 0x7da86405;
    NextWord(block, 19);
    assert Extend(0x000f0000, 0x00000000, 0x00000000, 0x00000000) == 0x600003c6;
    NextWord(block, 20);
    assert Extend(0x7da86405, 0x00000000, 0x00000000, 0x00000000) == 0x3e9d7b78;
    NextWord(block, 21);
    assert Extend(0x600003c6, 0x00000000, 0x00000000, 0x00000000) == 0x0183fc00;
    NextWord(block, 22);
    assert Extend(0x3e9d7b78, 0x00000018, 0x00000000, 0x00000000) == 0x12dcbfdb;
    NextWord(block, 23);
    assert Extend(0x0183fc00, 0x61626380, 0x00000000, 0x00000000) == 0xe2e2c38e;
    NextWord(block, 24);
    assert Extend(0x12dcbfdb, 0x000f0000, 0x00000000, 0x00000000) == 0xc8215c1a;
    NextWord(block, 25);
    assert Extend(0xe2e2c38e, 0x7da86405, 0x00000000, 0x00000000) == 0xb73679a2;
    NextWord(block, 26);
    assert Extend(0xc8215c1a, 0x600003c6, 0x00000000, 0x00000000) == 0xe5bc3909;
    NextWord(block, 27);
    assert Extend(0xb73679a2, 0x3e9d7b78, 0x00000000, 0x00000000) == 0x32663c5b;
    NextWord(block, 28);
    assert Extend(0xe5bc3909, 0x0183fc00, 0x00000000, 0x00000000) == 0x9d209d67;
    NextWord(block, 29);
    assert Extend(0x32663c5b, 0x12dcbfdb, 0x00000000, 0x00000000) == 0xec8726cb;
    NextWord(block, 30);
    assert Extend(0x9d209d67, 0xe2e2c38e, 0x00000018, 0x00000000) == 0x702138a4;
    NextWord(block, 31);
    assert Extend(0xec8726cb, 0xc8215c1a, 0x61626380, 0x00000018) == 0xd3b7973b;
  }

  lemma {:induction false} Extend32(block: seq<byte>)
    requires |block| == 64 && Words16(block)
    ensures Words32(block)
  {
    hide W;
    NextWord(block, 32);
    assert Extend(0x702138a4, 0xb73679a2, 0x000f0000, 0x61626380) == 0x93f5997f;
    NextWord(block, 33);
    assert Extend(0xd3b7973b, 0xe5bc3909, 0x7da86405, 0x000f0000) == 0x3b68ba73;
    NextWord(block, 34);
    assert Extend(0x93f5997f, 0x32663c5b, 0x600003c6, 0x7da86405) == 0xaff4ffc1;
    NextWord(block, 35);
    assert Extend(0x3b68ba73, 0x9d209d67, 0x3e9d7b78, 0x600003c6) == 0xf10a5c62;
    NextWord(block, 36);
    assert Extend(0xaff4ffc1, 0xec8726cb, 0x0183fc00, 0x3e9d7b78) == 0x0a8b3996;
    NextWord(block, 37);
    assert Extend(0xf10a5c62, 0x702138a4, 0x12dcbfdb, 0x0183fc00) == 0x72af830a;
    NextWord(block, 38);
    assert Extend(0x0a8b3996, 0xd3b7973b, 0xe2e2c38e, 0x12dcbfdb) == 0x9409e33e;
    NextWord(block, 39);
    assert Extend(0x72af830a, 0x93f5997f, 0xc8215c1a, 0xe2e2c38e) == 0x24641522;
    NextWord(block, 40);
    assert Extend(0x9409e33e, 0x3b68ba73, 0xb73679a2, 0xc8215c1a) == 0x9f47bf94;
    NextWord(block, 41);
    assert Extend(0x24641522, 0xaff4ffc1, 0xe5bc3909, 0xb73679a2) == 0xf0a64f5a;
    NextWord(block, 42);
    assert Extend(0x9f47bf94, 0xf10a5c62, 0x32663c5b, 0xe5bc3909) == 0x3e246a79;
    NextWord(block, 43);
    assert Extend(0xf0a64f5a, 0x0a8b3996, 0x9d209d67, 0x32663c5b) == 0x27333ba3;
    NextWord(block, 44);
    assert Extend(0x3e246a79, 0x72af830a, 0xec8726cb, 0x9d209d67) == 0x0c4763f2;
    NextWord(block, 45);
    assert Extend(0x27333ba3, 0x9409e33e, 0x702138a4, 0xec8726cb) == 0x840abf27;
    NextWord(block, 46);
    assert Extend(0x0c4763f2, 0x24641522, 0xd3b7973b, 0x702138a4) == 0x7a290d5d;
    NextWord(block, 47);
    assert Extend(0x840abf27, 0x9f47bf94, 0x93f5997f, 0xd3b7973b) == 0x065c43da;
  }

  lemma {:induction false} Extend48(block: seq<byte>)
    requires |block| == 64 && Words32(block)
    ensures Words48(block)
  {
    hide W;
    NextWord(block, 48);
    assert Extend(0x7a290d5d, 0xf0a64f5a, 0x3b68ba73, 0x93f5997f) == 0xfb3e89cb;
    NextWord(block, 49);
    assert Extend(0x065c43da, 0x3e246a79, 0xaff4ffc1, 0x3b68ba73) == 0xcc7617db;
    NextWord(block, 50);
    assert Extend(0xfb3e89cb, 0x27333ba3, 0xf10a5c62, 0xaff4ffc1) == 0xb9e66c34;
    NextWord(block, 51);
    assert Extend(0xcc7617db, 0x0c4763f2, 0x0a8b3996, 0xf10a5c62) == 0xa9993667;
    NextWord(block, 52);
    assert Extend(0xb9e66c34, 0x840abf27, 0x72af830a, 0x0a8b3996) == 0x84badedd;
    NextWord(block, 53);
    assert Extend(0xa9993667, 0x7a290d5d, 0x9409e33e, 0x72af830a) == 0xc21462bc;
    NextWord(block, 54);
    assert Extend(0x84badedd, 0x065c43da, 0x24641522, 0x9409e33e) == 0x1487472c;
    NextWord(block, 55);
    assert Extend(0xc21462bc, 0xfb3e89cb, 0x9f47bf94, 0x24641522) == 0xb20f7a99;
    NextWord(block, 56);
    assert Extend(0x1487472c, 0xcc7617db, 0xf0a64f5a, 0x9f47bf94) == 0xef57b9cd;
    NextWord(block, 57);
    assert Extend(0xb20f7a99, 0xb9e66c34, 0x3e246a79, 0xf0a64f5a) == 0xebe6b238;
    NextWord(block, 58);
    assert Extend(0xef57b9cd, 0xa9993667, 0x27333ba3, 0x3e246a79) == 0x9fe3095e;
    NextWord(block, 59);
    assert Extend(0xebe6b238, 0x84badedd, 0x0c4763f2, 0x27333ba3) == 0x78bc8d4b;
    NextWord(block, 60);
    assert Extend(0x9fe3095e, 0xc21462bc, 0x840abf27, 0x0c4763f2) == 0xa43fcf15;
    NextWord(block, 61);
    assert Extend(0x78bc8d4b, 0x1487472c, 0x7a290d5d, 0x840abf27) == 0x668b2ff8;
    NextWord(block, 62);
    assert Extend(0xa43fcf15, 0xb20f7a99, 0x065c43da, 0x7a290d5d) == 0xeeaba2cc;
    NextWord(block, 63);
    assert Extend(0x668b2ff8, 0xef57b9cd, 0xfb3e89cb, 0x065c43da) == 0x12b1edeb;
  }

  lemma {:induction false} Table0(block: seq<byte>)
    requires |block| == 64 && Words0(block)
    ensures forall t :: 0 <= t < 16 ==> W(block, t) == ScheduleWord(t)
  {
    hide W;
  }

  lemma {:induction false} Table16(block: seq<byte>)
    requires |block| == 64 && Words16(block)
    ensures forall t :: 16 <= t < 32 ==> W(block, t) == ScheduleWord(t)
  {
    hide W;
  }

  lemma {:induction false} Table32(block: seq<byte>)
    requires |block| == 64 && Words32(block)
    ensures forall t :: 32 <= t < 48 ==> W(block, t) == ScheduleWord(t)
  {
    hide W;
  }

  lemma {:induction false} Table48(block: seq<byte>)
    requires |block| == 64 && Words48(block)
    ensures forall t :: 48 <= t < 64 ==> W(block, t) == ScheduleWord(t)
  {
    hide W;
  }

  // ---------------------------------------------------------------- rounds

  /** The working variables before round `t`. */
  function Before(t: nat): Words
    requires t <= 64
  {
    Words(VarA(t + 3), VarA(t + 2), VarA(t + 1), VarA(t), VarE(t + 3), VarE(t + 2), VarE(t + 1), VarE(t))
  }

  predicate RoundOk(t: nat)
    requires t < 64
  {
    Round(Before(t), K(t), ScheduleWord(t)) == Before(t + 1)
  }

  lemma {:induction false} Rounds0()
    ensures forall t :: 0 <= t < 4 ==> RoundOk(t)
  {
    assert RoundOk(0) && RoundOk(1) && RoundOk(2) && RoundOk(3);
  }

  lemma {:induction false} Rounds4()
    ensures forall t :: 4 <= t < 8 ==> RoundOk(t)
  {
    assert RoundOk(4) && RoundOk(5) && RoundOk(6) && RoundOk(7);
  }

  lemma {:induction false} Rounds8()
    ensures forall t :: 8 <= t < 12 ==> RoundOk(t)
  {
    assert RoundOk(8) && RoundOk(9) && RoundOk(10) && RoundOk(11);
  }

  lemma {:induction false} Rounds12()
    ensures forall t :: 12 <= t < 16 ==> RoundOk(t)
  {
    assert RoundOk(12) && RoundOk(13) && RoundOk(14) && RoundOk(15);
  }

  lemma {:induction false} Rounds16()
    ensures forall t :: 16 <= t < 20 ==> RoundOk(t)
  {
    assert RoundOk(16) && RoundOk(17) && RoundOk(18) && RoundOk(19);
  }

  lemma {:induction false} Rounds20()
    ensures forall t :: 20 <= t < 24 ==> RoundOk(t)
  {
    assert RoundOk(20) && RoundOk(21) && RoundOk(22) && RoundOk(23);
  }

  lemma {:induction false} Rounds24()
    ensures forall t :: 24 <= t < 28 ==> RoundOk(t)
  {
    assert RoundOk(24) && RoundOk(25) && RoundOk(26) && RoundOk(27);
  }

  lemma {:induction false} Rounds28()
    ensures forall t :: 28 <= t < 32 ==> RoundOk(t)
  {
    assert RoundOk(28) && RoundOk(29) && RoundOk(30) && RoundOk(31);
  }

  lemma {:induction false} Rounds32()
    ensures forall t :: 32 <= t < 36 ==> RoundOk(t)
  {
    assert RoundOk(32) && RoundOk(33) && RoundOk(34) && RoundOk(35);
  }

  lemma {:induction false} Rounds36()
    ensures forall t :: 36 <= t < 40 ==> RoundOk(t)
  {
    assert RoundOk(36) && RoundOk(37) && RoundOk(38) && RoundOk(39);
  }

  lemma {:induction false} Rounds40()
    ensures forall t :: 40 <= t < 44 ==> RoundOk(t)
  {
    assert RoundOk(40) && RoundOk(41) && RoundOk(42) && RoundOk(43);
  }

  lemma {:induction false} Rounds44()
    ensures forall t :: 44 <= t < 48 ==> RoundOk(t)
  {
    assert RoundOk(44) && RoundOk(45) && RoundOk(46) && RoundOk(47);
  }

  lemma {:induction false} Rounds48()
    ensures forall t :: 48 <= t < 52 ==> RoundOk(t)
  {
    assert RoundOk(48) && RoundOk(49) && RoundOk(50) && RoundOk(51);
  }

  lemma {:induction false} Rounds52()
    ensures forall t :: 52 <= t < 56 ==> RoundOk(t)
  {
    assert RoundOk(52) && RoundOk(53) && RoundOk(54) && RoundOk(55);
  }

  lemma {:induction false} Rounds56()
    ensures forall t :: 56 <= t < 60 ==> RoundOk(t)
  {
    assert RoundOk(56) && RoundOk(57) && RoundOk(58) && RoundOk(59);
  }

  lemma {:induction false} Rounds60()
    ensures forall t :: 60 <= t < 64 ==> RoundOk(t)
  {
    assert RoundOk(60) && RoundOk(61) && RoundOk(62) && RoundOk(63);
  }

  lemma {:induction false} AllRounds()
    ensures forall t :: 0 <= t < 64 ==> RoundOk(t)
  {
    hide RoundOk;
    Rounds0(); Rounds4(); Rounds8(); Rounds12();
    Rounds16(); Rounds20(); Rounds24(); Rounds28();
    Rounds32(); Rounds36(); Rounds40(); Rounds44();
    Rounds48(); Rounds52(); Rounds56(); Rounds60();
  }

  lemma {:induction false} RoundsAre(block: seq<byte>, n: nat)
    requires |block| == 64 && n <= 64 && (forall t :: 0 <= t < 64 ==> W(block, t) == ScheduleWord(t) && RoundOk(t))
    ensures Rounds(Before(0), block, n) == Before(n)
  {
    hide W, Round, K, Before, ScheduleWord;
    if n > 0 {
      RoundsAre(block, n - 1);
      assert RoundOk(n - 1);
    }
  }

  // ---------------------------------------------------------------- digest

  const ABC: seq<byte> := [0x61, 0x62, 0x63]

  lemma {:induction false} AbcPadded()
    ensures Pad(ABC) == ABC + ([0x80] + Repeat<byte>(0, 52) + [0, 0, 0, 0, 0, 0, 0, 24])
  {
    hide BigEndian, ZeroCount;
    LengthOfAbc();
  }

  lemma {:induction false} LengthOfAbc()
    ensures ZeroCount(3) == 52 && BigEndian(24) == [0, 0, 0, 0, 0, 0, 0, 24]
  {
  }

  lemma {:induction false} AbcBlock()
    ensures var block := Pad(ABC); |block| == 64 && Words0(block)
  {
    hide W, Word, Pad;
    var block := Pad(ABC);
    AbcPadded();
    WordsOfAbc();
    forall t | 0 <= t < 16
      ensures W(block, t) == if t == 0 then 0x61626380 else if t == 15 then 24 else 0
    {
      FirstWord(block, t);
    }
  }

  lemma {:induction false} WordsOfAbc()
    ensures Word(0x61, 0x62, 0x63, 0x80) == 0x61626380 && Word(0, 0, 0, 0) == 0 && Word(0, 0, 0, 24) == 24
  {
  }

  lemma {:induction false} FirstWord(block: seq<byte>, t: nat)
    requires |block| == 64 && t < 16
    ensures W(block, t) == Word(block[4 * t], block[4 * t + 1], block[4 * t + 2], block[4 * t + 3])
  {
    hide Word;
  }

  lemma {:induction false} AbcCompressed()
    ensures |Pad(ABC)| == 64 && Absorb(Pad(ABC), 1) == Add(INITIAL, Before(64))
  {
    hide W, RoundOk, Add, Pad, Before, Words0, Words16, Words32, Words48, Rounds;
    var block := Pad(ABC);
    AbcBlock();
    Extend16(block);
    Extend32(block);
    Extend48(block);
    Table0(block);
    Table16(block);
    Table32(block);
    Table48(block);
    AllRounds();
    RoundsAre(block, 64);
    Start();
    assert block[0..64] == block;
  }

  lemma {:induction false} Start()
    ensures Before(0) == INITIAL
  {
  }

  lemma {:induction false} ALastTwo()
    ensures VarA(66) == 0xd39a2165 && VarA(67) == 0x506e3058
  {
  }

  lemma {:induction false} ALastFour()
    ensures VarA(64) == 0xb85e2ce9 && VarA(65) == 0x04d24d6c
  {
  }

  lemma {:induction false} ELastTwo()
    ensures VarE(66) == 0xfb121210 && VarE(67) == 0x5ef50f24
  {
  }

  lemma {:induction false} ELastFour()
    ensures VarE(64) == 0x961f4894 && VarE(65) == 0x948d25b6
  {
  }

  lemma {:induction false} LastWords()
    ensures Before(64)
         == Words(0x506e3058, 0xd39a2165, 0x04d24d6c, 0xb85e2ce9,
                  0x5ef50f24, 0xfb121210, 0x948d25b6, 0x961f4894)
  {
    hide VarA, VarE;
    ALastTwo();
    ALastFour();
    ELastTwo();
    ELastFour();
  }

  lemma {:induction false} SumOfWords()
    ensures Add(INITIAL, Words(0x506e3058, 0xd39a2165, 0x04d24d6c, 0xb85e2ce9,
                               0x5ef50f24, 0xfb121210, 0x948d25b6, 0x961f4894))
         == Words(0xba7816bf, 0x8f01cfea, 0x414140de, 0x5dae2223,
                  0xb00361a3, 0x96177a9c, 0xb410ff61, 0xf20015ad)
  {
  }

  /** The published digest. */
  lemma {:induction false} AbcDigest()
    ensures Digest([0x61, 0x62, 0x63])
         == [0xba, 0x78, 0x16, 0xbf, 0x8f, 0x01, 0xcf, 0xea,
             0x41, 0x41, 0x40, 0xde, 0x5d, 0xae, 0x22, 0x23,
             0xb0, 0x03, 0x61, 0xa3, 0x96, 0x17, 0x7a, 0x9c,
             0xb4, 0x10, 0xff, 0x61, 0xf2, 0x00, 0x15, 0xad]
  {
    hide Absorb, Pad, Serialize, Add;
    hide Before;
    AbcCompressed();
    LastWords();
    SumOfWords();
    AbcOctets();
  }

  lemma {:induction false} AbcOctets()
    ensures Serialize(Words(0xba7816bf, 0x8f01cfea, 0x414140de, 0x5dae2223,
                            0xb00361a3, 0x96177a9c, 0xb410ff61, 0xf20015ad))
         == [0xba, 0x78, 0x16, 0xbf, 0x8f, 0x01, 0xcf, 0xea,
             0x41, 0x41, 0x40, 0xde, 0x5d, 0xae, 0x22, 0x23,
             0xb0, 0x03, 0x61, 0xa3, 0x96, 0x17, 0x7a, 0x9c,
             0xb4, 0x10, 0xff, 0x61, 0xf2, 0x00, 0x15, 0xad]
  {
    hide Octet, Serialize, Octets;
    var h := Words(0xba7816bf, 0x8f01cfea, 0x414140de, 0x5dae2223,
                   0xb00361a3, 0x96177a9c, 0xb410ff61, 0xf20015ad);
    SerializedWords(h);
    OctetsOfWords();
  }

  function Octets(w: bv32): (s: seq<bv8>)
    ensures |s| == 4
  {
    [Octet(w, 0), Octet(w, 1), Octet(w, 2), Octet(w, 3)]
  }

  lemma {:induction false} SerializedWords(h: Words)
    ensures Serialize(h) == Octets(h.a) + Octets(h.b) + Octets(h.c) + Octets(h.d)
                            + Octets(h.e) + Octets(h.f) + Octets(h.g) + Octets(h.h)
  {
    hide Octets, Serialize, WordOf;
    var s := Serialize(h);
    TheWords(h);
    SerializedWord(h, 0);
    SerializedWord(h, 1);
    SerializedWord(h, 2);
    SerializedWord(h, 3);
    SerializedWord(h, 4);
    SerializedWord(h, 5);
    SerializedWord(h, 6);
    SerializedWord(h, 7);
    EightParts(s);
  }

  lemma {:induction false} TheWords(h: Words)
    ensures WordOf(h, 0) == h.a && WordOf(h, 1) == h.b && WordOf(h, 2) == h.c && WordOf(h, 3) == h.d
    ensures WordOf(h, 4) == h.e && WordOf(h, 5) == h.f && WordOf(h, 6) == h.g && WordOf(h, 7) == h.h
  {
  }

  lemma {:induction false} SerializedWord(h: Words, k: nat)
    requires k < 8
    ensures Serialize(h)[4 * k..4 * k + 4] == Octets(WordOf(h, k))
  {
    hide Octet, WordOf, Serialize;
    SerializedOctet(h, k, 0);
    SerializedOctet(h, k, 1);
    SerializedOctet(h, k, 2);
    SerializedOctet(h, k, 3);
    var s := Serialize(h);
    assert s[4 * k..4 * k + 4] == [s[4 * k], s[4 * k + 1], s[4 * k + 2], s[4 * k + 3]];
  }

  lemma {:induction false} SerializedOctet(h: Words, k: nat, j: nat)
    requires k < 8 && j < 4
    ensures Serialize(h)[4 * k + j] == Octet(WordOf(h, k), j)
  {
    hide Octet, WordOf;
    assert (4 * k + j) / 4 == k && (4 * k + j) % 4 == j;
  }

  lemma {:induction false} EightParts(s: seq<bv8>)
    requires |s| == 32
    ensures s == s[0..4] + s[4..8] + s[8..12] + s[12..16] + s[16..20] + s[20..24] + s[24..28] + s[28..32]
  {
  }

  lemma {:induction false} OctetsOfWords()
    ensures Octets(0xba7816bf) == [0xba, 0x78, 0x16, 0xbf]
    ensures Octets(0x8f01cfea) == [0x8f, 0x01, 0xcf, 0xea]
    ensures Octets(0x414140de) == [0x41, 0x41, 0x40, 0xde]
    ensures Octets(0x5dae2223) == [0x5d, 0xae, 0x22, 0x23]
    ensures Octets(0xb00361a3) == [0xb0, 0x03, 0x61, 0xa3]
    ensures Octets(0x96177a9c) == [0x96, 0x17, 0x7a, 0x9c]
    ensures Octets(0xb410ff61) == [0xb4, 0x10, 0xff, 0x61]
    ensures Octets(0xf20015ad) == [0xf2, 0x00, 0x15, 0xad]
  {
  }
}

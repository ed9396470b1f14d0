/** What the parts of SHA-256 are, said without their formulas and tables. */
module Sha256Laws {
  import opened Bytes
  import opened Sha256Constants
  import opened Sha256Spec

  // ---------------------------------------------------------------- words

  /** `Ch` takes its bits from `y` where `x` has a one and from `z` where it has a zero. */
  lemma {:induction false} ChChooses(x: bv32, y: bv32, z: bv32)
    ensures Ch(x, y, z) & x == y & x && Ch(x, y, z) & !x == z & !x
  {
  }

  /** Where two of the three agree, `Maj` is what they agree on. */
  lemma {:induction false} MajDecides(x: bv32, y: bv32, z: bv32)
    ensures Maj(x, y, z) & !(x ^ y) == x & !(x ^ y)
    ensures Maj(x, y, z) & !(y ^ z) == y & !(y ^ z)
    ensures Maj(x, y, z) & !(x ^ z) == z & !(x ^ z)
  {
    hide Maj;
    MajFirstTwo(x, y, z);
    MajLastTwo(x, y, z);
    MajOuterTwo(x, y, z);
  }

  lemma {:induction false} MajFirstTwo(x: bv32, y: bv32, z: bv32)
    ensures Maj(x, y, z) & !(x ^ y) == x & !(x ^ y)
  {
  }

  lemma {:induction false} MajLastTwo(x: bv32, y: bv32, z: bv32)
    ensures Maj(x, y, z) & !(y ^ z) == y & !(y ^ z)
  {
  }

  lemma {:induction false} MajOuterTwo(x: bv32, y: bv32, z: bv32)
    ensures Maj(x, y, z) & !(x ^ z) == z & !(x ^ z)
  {
  }

  /** Rotation by `n` places divides by the power of two and puts the remainder on top. */
  lemma {:induction false} Rotr2(x: bv32)
    ensures Rotr(x, 2) == x / 0x4 + x % 0x4 * 0x40000000
  {
  }

  lemma {:induction false} Rotr6(x: bv32)
    ensures Rotr(x, 6) == x / 0x40 + x % 0x40 * 0x4000000
  {
  }

  lemma {:induction false} Rotr7(x: bv32)
    ensures Rotr(x, 7) == x / 0x80 + x % 0x80 * 0x2000000
  {
  }

  lemma {:induction false} Rotr11(x: bv32)
    ensures Rotr(x, 11) == x / 0x800 + x % 0x800 * 0x200000
  {
  }

  lemma {:induction false} Rotr13(x: bv32)
    ensures Rotr(x, 13) == x / 0x2000 + x % 0x2000 * 0x80000
  {
  }

  lemma {:induction false} Rotr17(x: bv32)
    ensures Rotr(x, 17) == x / 0x20000 + x % 0x20000 * 0x8000
  {
  }

  lemma {:induction false} Rotr18(x: bv32)
    ensures Rotr(x, 18) == x / 0x40000 + x % 0x40000 * 0x4000
  {
  }

  lemma {:induction false} Rotr19(x: bv32)
    ensures Rotr(x, 19) == x / 0x80000 + x % 0x80000 * 0x2000
  {
  }

  lemma {:induction false} Rotr22(x: bv32)
    ensures Rotr(x, 22) == x / 0x400000 + x % 0x400000 * 0x400
  {
  }

  lemma {:induction false} Rotr25(x: bv32)
    ensures Rotr(x, 25) == x / 0x2000000 + x % 0x2000000 * 0x80
  {
  }

  /** The length field: eight octets, most significant first. */
  lemma {:induction false} LengthOctets(hi: nat, low: byte, k: nat)
    requires k < 7
    ensures BigEndian(hi * 256 + low)[7] == low
    ensures BigEndian(hi * 256 + low)[k] == BigEndian(hi)[k + 1]
  {
    var v := hi * 256 + low;
    assert v / 0x100 == hi && v % 0x100 == low;
    DivisionStep(hi, low);
  }

  lemma {:induction false} DivisionStep(hi: nat, low: byte)
    ensures var v := hi * 256 + low;
            && v / 0x1_0000 == hi / 0x100 && v / 0x100_0000 == hi / 0x1_0000 && v / 0x1_0000_0000 == hi / 0x100_0000
            && v / 0x100_0000_0000 == hi / 0x1_0000_0000 && v / 0x1_0000_0000_0000 == hi / 0x100_0000_0000
            && v / 0x100_0000_0000_0000 == hi / 0x1_0000_0000_0000
  {
  }

  /** The padded message: the message, a one bit, fewer than 64 octets of zeros, and in the last
      eight octets the length in bits, in whole blocks. */
  lemma {:induction false} PaddedShape(m: seq<byte>)
    requires |m| < 0x2000_0000_0000_0000
    ensures var p, n := Pad(m), |Pad(m)| - 8;
            && |p| % 64 == 0 && |m| + 9 <= |p| < |m| + 9 + 64
            && p[..|m|] == m && p[|m|] == 0x80 && (forall k :: |m| < k < n ==> p[k] == 0)
            && p[n..] == BigEndian(8 * |m|)
  {
    hide BigEndian, ZeroCount;
    var z := Repeat<byte>(0, ZeroCount(|m|));
    var len := BigEndian(8 * |m| % TWO64);
    assert 8 * |m| % TWO64 == 8 * |m|;
    assert Pad(m) == m + ([0x80] + z + len);
    PadParts(m, z, len);
  }

  lemma {:induction false} PadParts(m: seq<byte>, z: seq<byte>, len: seq<byte>)
    requires |len| == 8 && forall k :: 0 <= k < |z| ==> z[k] == 0
    ensures var p := m + ([0x80] + z + len);
            && p[..|m|] == m && p[|m|] == 0x80 && p[|p| - 8..] == len
            && forall k :: |m| < k < |p| - 8 ==> p[k] == 0
  {
  }

  /** The rounds start with the hash value, and are added to it. */
  lemma {:induction false} FeedForward(h: Words, block: seq<byte>)
    requires |block| == 64
    ensures Compress(h, block) == Add(h, Rounds(h, block, |block|))
  {
    hide Rounds, Add;
  }

  lemma {:induction false} RoundsStart(h: Words, block: seq<byte>)
    requires |block| == 64
    ensures Rounds(h, block, 0) == h
  {
  }

  /** The message is absorbed block by block, from the initial value. */
  lemma {:induction false} BlockByBlock(m: seq<byte>, n: nat)
    requires 64 * (n + 1) <= |m|
    ensures Absorb(m, 0) == INITIAL && Absorb(m, n + 1) == Compress(Absorb(m, n), m[64 * n..64 * n + 64])
  {
    hide Compress;
  }

  // ---------------------------------------------------------------- constants

  /** `bits` are the first 32 bits behind the point of the square root of `p`, which begins
      with the integer `whole`. */
  predicate SquareRootBits(p: nat, whole: nat, bits: bv32) {
    var r := whole * 0x1_0000_0000 + bits as nat;
    r * r <= p * 0x1_0000_0000_0000_0000 < (r + 1) * (r + 1)
  }

  /** The same for the cube root. */
  predicate CubeRootBits(p: nat, whole: nat, bits: bv32) {
    var r := whole * 0x1_0000_0000 + bits as nat;
    r * r * r <= p * 0x1_0000_0000_0000_0000_0000_0000 < (r + 1) * (r + 1) * (r + 1)
  }

  /** The initial hash value comes from the first eight primes. */
  lemma {:induction false} InitialFromPrimes()
    ensures SquareRootBits(2, 1, INITIAL.a) && SquareRootBits(3, 1, INITIAL.b)
    ensures SquareRootBits(5, 2, INITIAL.c) && SquareRootBits(7, 2, INITIAL.d)
    ensures SquareRootBits(11, 3, INITIAL.e) && SquareRootBits(13, 3, INITIAL.f)
    ensures SquareRootBits(17, 4, INITIAL.g) && SquareRootBits(19, 4, INITIAL.h)
  {
    hide SquareRootBits;
    FirstFour();
    LastFour();
  }

  lemma {:induction false} FirstFour()
    ensures SquareRootBits(2, 1, INITIAL.a) && SquareRootBits(3, 1, INITIAL.b)
    ensures SquareRootBits(5, 2, INITIAL.c) && SquareRootBits(7, 2, INITIAL.d)
  {
  }

  lemma {:induction false} LastFour()
    ensures SquareRootBits(11, 3, INITIAL.e) && SquareRootBits(13, 3, INITIAL.f)
    ensures SquareRootBits(17, 4, INITIAL.g) && SquareRootBits(19, 4, INITIAL.h)
  {
  }

  /** The round constants come from the first 64. */
  lemma {:induction false} Constants0()
    ensures CubeRootBits(2, 1, K(0)) && CubeRootBits(3, 1, K(1))
    ensures CubeRootBits(5, 1, K(2)) && CubeRootBits(7, 1, K(3))
    ensures CubeRootBits(11, 2, K(4)) && CubeRootBits(13, 2, K(5))
    ensures CubeRootBits(17, 2, K(6)) && CubeRootBits(19, 2, K(7))
    ensures CubeRootBits(23, 2, K(8)) && CubeRootBits(29, 3, K(9))
    ensures CubeRootBits(31, 3, K(10)) && CubeRootBits(37, 3, K(11))
    ensures CubeRootBits(41, 3, K(12)) && CubeRootBits(43, 3, K(13))
    ensures CubeRootBits(47, 3, K(14)) && CubeRootBits(53, 3, K(15))
  {
    hide K, CubeRootBits;
    Values0();
    Roots0();
    Roots2();
    Roots4();
    Roots6();
    Values8();
    Roots8();
    Roots10();
    Roots12();
    Roots14();
  }

  lemma {:induction false} Constants16()
    ensures CubeRootBits(59, 3, K(16)) && CubeRootBits(61, 3, K(17))
    ensures CubeRootBits(67, 4, K(18)) && CubeRootBits(71, 4, K(19))
    ensures CubeRootBits(73, 4, K(20)) && CubeRootBits(79, 4, K(21))
    ensures CubeRootBits(83, 4, K(22)) && CubeRootBits(89, 4, K(23))
    ensures CubeRootBits(97, 4, K(24)) && CubeRootBits(101, 4, K(25))
    ensures CubeRootBits(103, 4, K(26)) && CubeRootBits(107, 4, K(27))
    ensures CubeRootBits(109, 4, K(28)) && CubeRootBits(113, 4, K(29))
    ensures CubeRootBits(127, 5, K(30)) && CubeRootBits(131, 5, K(31))
  {
    hide K, CubeRootBits;
    Values16();
    Roots16();
    Roots18();
    Roots20();
    Roots22();
    Values24();
    Roots24();
    Roots26();
    Roots28();
    Roots30();
  }

  lemma {:induction false} Constants32()
    ensures CubeRootBits(137, 5, K(32)) && CubeRootBits(139, 5, K(33))
    ensures CubeRootBits(149, 5, K(34)) && CubeRootBits(151, 5, K(35))
    ensures CubeRootBits(157, 5, K(36)) && CubeRootBits(163, 5, K(37))
    ensures CubeRootBits(167, 5, K(38)) && CubeRootBits(173, 5, K(39))
    ensures CubeRootBits(179, 5, K(40)) && CubeRootBits(181, 5, K(41))
    ensures CubeRootBits(191, 5, K(42)) && CubeRootBits(193, 5, K(43))
    ensures CubeRootBits(197, 5, K(44)) && CubeRootBits(199, 5, K(45))
    ensures CubeRootBits(211, 5, K(46)) && CubeRootBits(223, 6, K(47))
  {
    hide K, CubeRootBits;
    Values32();
    Roots32();
    Roots34();
    Roots36();
    Roots38();
    Values40();
    Roots40();
    Roots42();
    Roots44();
    Roots46();
  }

  lemma {:induction false} Constants48()
    ensures CubeRootBits(227, 6, K(48)) && CubeRootBits(229, 6, K(49))
    ensures CubeRootBits(233, 6, K(50)) && CubeRootBits(239, 6, K(51))
    ensures CubeRootBits(241, 6, K(52)) && CubeRootBits(251, 6, K(53))
    ensures CubeRootBits(257, 6, K(54)) && CubeRootBits(263, 6, K(55))
    ensures CubeRootBits(269, 6, K(56)) && CubeRootBits(271, 6, K(57))
    ensures CubeRootBits(277, 6, K(58)) && CubeRootBits(281, 6, K(59))
    ensures CubeRootBits(283, 6, K(60)) && CubeRootBits(293, 6, K(61))
    ensures CubeRootBits(307, 6, K(62)) && CubeRootBits(311, 6, K(63))
  {
    hide K, CubeRootBits;
    Values48();
    Roots48();
    Roots50();
    Roots52();
    Roots54();
    Values56();
    Roots56();
    Roots58();
    Roots60();
    Roots62();
  }

  lemma {:induction false} Values0()
    ensures K(0) == 0x428a2f98 && K(1) == 0x71374491 && K(2) == 0xb5c0fbcf && K(3) == 0xe9b5dba5
    ensures K(4) == 0x3956c25b && K(5) == 0x59f111f1 && K(6) == 0x923f82a4 && K(7) == 0xab1c5ed5
  {
  }

  lemma {:induction false} Roots0()
    ensures CubeRootBits(2, 1, 0x428a2f98) && CubeRootBits(3, 1, 0x71374491)
  {
  }

  lemma {:induction false} Roots2()
    ensures CubeRootBits(5, 1, 0xb5c0fbcf) && CubeRootBits(7, 1, 0xe9b5dba5)
  {
  }

  lemma {:induction false} Roots4()
    ensures CubeRootBits(11, 2, 0x3956c25b) && CubeRootBits(13, 2, 0x59f111f1)
  {
  }

  lemma {:induction false} Roots6()
    ensures CubeRootBits(17, 2, 0x923f82a4) && CubeRootBits(19, 2, 0xab1c5ed5)
  {
  }

  lemma {:induction false} Values8()
    ensures K(8) == 0xd807aa98 && K(9) == 0x12835b01 && K(10) == 0x243185be && K(11) == 0x550c7dc3
    ensures K(12) == 0x72be5d74 && K(13) == 0x80deb1fe && K(14) == 0x9bdc06a7 && K(15) == 0xc19bf174
  {
  }

  lemma {:induction false} Roots8()
    ensures CubeRootBits(23, 2, 0xd807aa98) && CubeRootBits(29, 3, 0x12835b01)
  {
  }

  lemma {:induction false} Roots10()
    ensures CubeRootBits(31, 3, 0x243185be) && CubeRootBits(37, 3, 0x550c7dc3)
  {
  }

  lemma {:induction false} Roots12()
    ensures CubeRootBits(41, 3, 0x72be5d74) && CubeRootBits(43, 3, 0x80deb1fe)
  {
  }

  lemma {:induction false} Roots14()
    ensures CubeRootBits(47, 3, 0x9bdc06a7) && CubeRootBits(53, 3, 0xc19bf174)
  {
  }

  lemma {:induction false} Values16()
    ensures K(16) == 0xe49b69c1 && K(17) == 0xefbe4786 && K(18) == 0x0fc19dc6 && K(19) == 0x240ca1cc
    ensures K(20) == 0x2de92c6f && K(21) == 0x4a7484aa && K(22) == 0x5cb0a9dc && K(23) == 0x76f988da
  {
  }

  lemma {:induction false} Roots16()
    ensures CubeRootBits(59, 3, 0xe49b69c1) && CubeRootBits(61, 3, 0xefbe4786)
  {
  }

  lemma {:induction false} Roots18()
    ensures CubeRootBits(67, 4, 0x0fc19dc6) && CubeRootBits(71, 4, 0x240ca1cc)
  {
  }

  lemma {:induction false} Roots20()
    ensures CubeRootBits(73, 4, 0x2de92c6f) && CubeRootBits(79, 4, 0x4a7484aa)
  {
  }

  lemma {:induction false} Roots22()
    ensures CubeRootBits(83, 4, 0x5cb0a9dc) && CubeRootBits(89, 4, 0x76f988da)
  {
  }

  lemma {:induction false} Values24()
    ensures K(24) == 0x983e5152 && K(25) == 0xa831c66d && K(26) == 0xb00327c8 && K(27) == 0xbf597fc7
    ensures K(28) == 0xc6e00bf3 && K(29) == 0xd5a79147 && K(30) == 0x06ca6351 && K(31) == 0x14292967
  {
  }

  lemma {:induction false} Roots24()
    ensures CubeRootBits(97, 4, 0x983e5152) && CubeRootBits(101, 4, 0xa831c66d)
  {
  }

  lemma {:induction false} Roots26()
    ensures CubeRootBits(103, 4, 0xb00327c8) && CubeRootBits(107, 4, 0xbf597fc7)
  {
  }

  lemma {:induction false} Roots28()
    ensures CubeRootBits(109, 4, 0xc6e00bf3) && CubeRootBits(113, 4, 0xd5a79147)
  {
  }

  lemma {:induction false} Roots30()
    ensures CubeRootBits(127, 5, 0x06ca6351) && CubeRootBits(131, 5, 0x14292967)
  {
  }

  lemma {:induction false} Values32()
    ensures K(32) == 0x27b70a85 && K(33) == 0x2e1b2138 && K(34) == 0x4d2c6dfc && K(35) == 0x53380d13
    ensures K(36) == 0x650a7354 && K(37) == 0x766a0abb && K(38) == 0x81c2c92e && K(39) == 0x92722c85
  {
  }

  lemma {:induction false} Roots32()
    ensures CubeRootBits(137, 5, 0x27b70a85) && CubeRootBits(139, 5, 0x2e1b2138)
  {
  }

  lemma {:induction false} Roots34()
    ensures CubeRootBits(149, 5, 0x4d2c6dfc) && CubeRootBits(151, 5, 0x53380d13)
  {
  }

  lemma {:induction false} Roots36()
    ensures CubeRootBits(157, 5, 0x650a7354) && CubeRootBits(163, 5, 0x766a0abb)
  {
  }

  lemma {:induction false} Roots38()
    ensures CubeRootBits(167, 5, 0x81c2c92e) && CubeRootBits(173, 5, 0x92722c85)
  {
  }

  lemma {:induction false} Values40()
    ensures K(40) == 0xa2bfe8a1 && K(41) == 0xa81a664b && K(42) == 0xc24b8b70 && K(43) == 0xc76c51a3
    ensures K(44) == 0xd192e819 && K(45) == 0xd6990624 && K(46) == 0xf40e3585 && K(47) == 0x106aa070
  {
  }

  lemma {:induction false} Roots40()
    ensures CubeRootBits(179, 5, 0xa2bfe8a1) && CubeRootBits(181, 5, 0xa81a664b)
  {
  }

  lemma {:induction false} Roots42()
    ensures CubeRootBits(191, 5, 0xc24b8b70) && CubeRootBits(193, 5, 0xc76c51a3)
  {
  }

  lemma {:induction false} Roots44()
    ensures CubeRootBits(197, 5, 0xd192e819) && CubeRootBits(199, 5, 0xd6990624)
  {
  }

  lemma {:induction false} Roots46()
    ensures CubeRootBits(211, 5, 0xf40e3585) && CubeRootBits(223, 6, 0x106aa070)
  {
  }

  lemma {:induction false} Values48()
    ensures K(48) == 0x19a4c116 && K(49) == 0x1e376c08 && K(50) == 0x2748774c && K(51) == 0x34b0bcb5
    ensures K(52) == 0x391c0cb3 && K(53) == 0x4ed8aa4a && K(54) == 0x5b9cca4f && K(55) == 0x682e6ff3
  {
  }

  lemma {:induction false} Roots48()
    ensures CubeRootBits(227, 6, 0x19a4c116) && CubeRootBits(229, 6, 0x1e376c08)
  {
  }

  lemma {:induction false} Roots50()
    ensures CubeRootBits(233, 6, 0x2748774c) && CubeRootBits(239, 6, 0x34b0bcb5)
  {
  }

  lemma {:induction false} Roots52()
    ensures CubeRootBits(241, 6, 0x391c0cb3) && CubeRootBits(251, 6, 0x4ed8aa4a)
  {
  }

  lemma {:induction false} Roots54()
    ensures CubeRootBits(257, 6, 0x5b9cca4f) && CubeRootBits(263, 6, 0x682e6ff3)
  {
  }

  lemma {:induction false} Values56()
    ensures K(56) == 0x748f82ee && K(57) == 0x78a5636f && K(58) == 0x84c87814 && K(59) == 0x8cc70208
    ensures K(60) == 0x90befffa && K(61) == 0xa4506ceb && K(62) == 0xbef9a3f7 && K(63) == 0xc67178f2
  {
  }

  lemma {:induction false} Roots56()
    ensures CubeRootBits(269, 6, 0x748f82ee) && CubeRootBits(271, 6, 0x78a5636f)
  {
  }

  lemma {:induction false} Roots58()
    ensures CubeRootBits(277, 6, 0x84c87814) && CubeRootBits(281, 6, 0x8cc70208)
  {
  }

  lemma {:induction false} Roots60()
    ensures CubeRootBits(283, 6, 0x90befffa) && CubeRootBits(293, 6, 0xa4506ceb)
  {
  }

  lemma {:induction false} Roots62()
    ensures CubeRootBits(307, 6, 0xbef9a3f7) && CubeRootBits(311, 6, 0xc67178f2)
  {
  }
}

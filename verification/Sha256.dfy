/** The round constants of section 4.2.2 of FIPS 180-4. */
module Sha256Constants {
  function K(t: nat): bv32
    requires t < 64
  {
    if t < 16 then K0(t) else if t < 32 then K16(t - 16) else if t < 48 then K32(t - 32) else K48(t - 48)
  }

  function K0(t: nat): bv32
    requires t < 16
  {
    match t
    case 0 => 0x428a2f98 case 1 => 0x71374491 case 2 => 0xb5c0fbcf case 3 => 0xe9b5dba5
    case 4 => 0x3956c25b case 5 => 0x59f111f1 case 6 => 0x923f82a4 case 7 => 0xab1c5ed5
    case 8 => 0xd807aa98 case 9 => 0x12835b01 case 10 => 0x243185be case 11 => 0x550c7dc3
    case 12 => 0x72be5d74 case 13 => 0x80deb1fe case 14 => 0x9bdc06a7 case _ => 0xc19bf174
  }

  function K16(t: nat): bv32
    requires t < 16
  {
    match t
    case 0 => 0xe49b69c1 case 1 => 0xefbe4786 case 2 => 0x0fc19dc6 case 3 => 0x240ca1cc
    case 4 => 0x2de92c6f case 5 => 0x4a7484aa case 6 => 0x5cb0a9dc case 7 => 0x76f988da
    case 8 => 0x983e5152 case 9 => 0xa831c66d case 10 => 0xb00327c8 case 11 => 0xbf597fc7
    case 12 => 0xc6e00bf3 case 13 => 0xd5a79147 case 14 => 0x06ca6351 case _ => 0x14292967
  }

  function K32(t: nat): bv32
    requires t < 16
  {
    match t
    case 0 => 0x27b70a85 case 1 => 0x2e1b2138 case 2 => 0x4d2c6dfc case 3 => 0x53380d13
    case 4 => 0x650a7354 case 5 => 0x766a0abb case 6 => 0x81c2c92e case 7 => 0x92722c85
    case 8 => 0xa2bfe8a1 case 9 => 0xa81a664b case 10 => 0xc24b8b70 case 11 => 0xc76c51a3
    case 12 => 0xd192e819 case 13 => 0xd6990624 case 14 => 0xf40e3585 case _ => 0x106aa070
  }

  function K48(t: nat): bv32
    requires t < 16
  {
    match t
    case 0 => 0x19a4c116 case 1 => 0x1e376c08 case 2 => 0x2748774c case 3 => 0x34b0bcb5
    case 4 => 0x391c0cb3 case 5 => 0x4ed8aa4a case 6 => 0x5b9cca4f case 7 => 0x682e6ff3
    case 8 => 0x748f82ee case 9 => 0x78a5636f case 10 => 0x84c87814 case 11 => 0x8cc70208
    case 12 => 0x90befffa case 13 => 0xa4506ceb case 14 => 0xbef9a3f7 case _ => 0xc67178f2
  }
}

/** SHA-256 as FIPS 180-4 defines it on whole messages. */
module Sha256Spec {
  import opened Bytes
  import opened Sha256Constants

  /** The eight words of a hash value, and also the eight working variables of a round. */
  datatype Words = Words(a: bv32, b: bv32, c: bv32, d: bv32, e: bv32, f: bv32, g: bv32, h: bv32)

  const TWO64: nat := 0x1_0000_0000_0000_0000

  function Rotr(x: bv32, n: bv32): bv32
    requires 0 < n < 32
  {
    (x >> n) | (x << (32 - n))
  }

  function Ch(x: bv32, y: bv32, z: bv32): bv32 { (x & y) ^ ((!x) & z) }

  function Maj(x: bv32, y: bv32, z: bv32): bv32 { (x & y) ^ (x & z) ^ (y & z) }

  function BigSigma0(x: bv32): bv32 { Rotr(x, 2) ^ Rotr(x, 13) ^ Rotr(x, 22) }

  function BigSigma1(x: bv32): bv32 { Rotr(x, 6) ^ Rotr(x, 11) ^ Rotr(x, 25) }

  function SmallSigma0(x: bv32): bv32 { Rotr(x, 7) ^ Rotr(x, 18) ^ (x >> 3) }

  function SmallSigma1(x: bv32): bv32 { Rotr(x, 17) ^ Rotr(x, 19) ^ (x >> 10) }

  /** Four octets as a word, most significant first. */
  function Word(b0: byte, b1: byte, b2: byte, b3: byte): bv32 {
    ((b0 as bv32) << 24) | ((b1 as bv32) << 16) | ((b2 as bv32) << 8) | (b3 as bv32)
  }

  /** A block read as words. */
  function WordAt(block: seq<byte>, i: nat): bv32
    requires 4 * i + 3 < |block|
  {
    Word(block[4 * i], block[4 * i + 1], block[4 * i + 2], block[4 * i + 3])
  }

  /** The word added to the schedule from the words 2, 7, 15 and 16 places back. */
  function Extend(w2: bv32, w7: bv32, w15: bv32, w16: bv32): bv32 {
    SmallSigma1(w2) + w7 + SmallSigma0(w15) + w16
  }

  /** The message schedule, step 1 of section 6.2.2. */
  function W(block: seq<byte>, t: nat): bv32
    requires |block| == 64 && t < 64
  {
    if t < 16 then WordAt(block, t)
    else Extend(W(block, t - 2), W(block, t - 7), W(block, t - 15), W(block, t - 16))
  }

  /** One round, step 3 of section 6.2.2. */
  function Round(v: Words, k: bv32, w: bv32): Words {
    var t1 := v.h + BigSigma1(v.e) + Ch(v.e, v.f, v.g) + k + w;
    var t2 := BigSigma0(v.a) + Maj(v.a, v.b, v.c);
    Words(t1 + t2, v.a, v.b, v.c, v.d + t1, v.e, v.f, v.g)
  }

  function Rounds(v: Words, block: seq<byte>, t: nat): Words
    requires |block| == 64 && t <= 64
  {
    if t == 0 then v else Round(Rounds(v, block, t - 1), K(t - 1), W(block, t - 1))
  }

  function Add(x: Words, y: Words): Words {
    Words(x.a + y.a, x.b + y.b, x.c + y.c, x.d + y.d, x.e + y.e, x.f + y.f, x.g + y.g, x.h + y.h)
  }

  /** Section 6.2.2: as many rounds as the block has octets, 64. */
  function Compress(h: Words, block: seq<byte>): Words
    requires |block| == 64
  {
    Add(h, Rounds(h, block, |block|))
  }

  /** Section 5.3.3. */
  const INITIAL := Words(0x6a09e667, 0xbb67ae85, 0x3c6ef372, 0xa54ff53a,
                         0x510e527f, 0x9b05688c, 0x1f83d9ab, 0x5be0cd19)

  /** The hash value after the first `n` blocks of 512 bits of `m`. */
  function Absorb(m: seq<byte>, n: nat): Words
    requires 64 * n <= |m|
  {
    if n == 0 then INITIAL else Compress(Absorb(m, n - 1), m[64 * (n - 1)..64 * n])
  }

  function LowOctet(v: nat): byte {
    v % 0x100
  }

  /** A 64-bit number, most significant octet first. */
  function BigEndian(v: nat): (s: seq<byte>)
    ensures |s| == 8
  {
    [LowOctet(v / 0x100_0000_0000_0000), LowOctet(v / 0x1_0000_0000_0000),
     LowOctet(v / 0x100_0000_0000), LowOctet(v / 0x1_0000_0000),
     LowOctet(v / 0x100_0000), LowOctet(v / 0x1_0000), LowOctet(v / 0x100), LowOctet(v)]
  }

  /** The least `k` for which `len + 1 + k + 8` octets fill whole blocks (section 5.1.1). */
  function ZeroCount(len: nat): (k: nat)
    ensures (len + 1 + k + 8) % 64 == 0
    ensures k < 64
  {
    (119 - len % 64) % 64
  }

  /** Section 5.1.1: a one bit, the least number of zero bits, and the length in 64 bits.
      Lengths of 2^64 bits and more, which the standard excludes, are taken modulo 2^64. */
  function Pad(m: seq<byte>): (p: seq<byte>)
    ensures |p| % 64 == 0
  {
    m + Padding(|m|)
  }

  function Padding(len: nat): (p: seq<byte>)
    ensures (len + |p|) % 64 == 0
  {
    [0x80] + Repeat<byte>(0, ZeroCount(len)) + BigEndian(8 * len % TWO64)
  }

  /** The octet `j` of a word, most significant first. */
  function Octet(w: bv32, j: nat): bv8
    requires j < 4
  {
    ((if j == 0 then w >> 24 else if j == 1 then w >> 16 else if j == 2 then w >> 8 else w) & 0xff) as bv8
  }

  function WordOf(h: Words, i: nat): bv32 {
    match i
    case 0 => h.a
    case 1 => h.b
    case 2 => h.c
    case 3 => h.d
    case 4 => h.e
    case 5 => h.f
    case 6 => h.g
    case _ => h.h
  }

  /** The digest: the eight words one after the other. */
  function Serialize(h: Words): (s: seq<bv8>)
    ensures |s| == 32
  {
    seq(32, k requires 0 <= k < 32 => Octet(WordOf(h, k / 4), k % 4))
  }

  function Digest(m: seq<byte>): (d: seq<bv8>)
    ensures |d| == 32
  {
    Serialize(Absorb(Pad(m), |Pad(m)| / 64))
  }
}

/** The streaming implementation of src/tp/sha256.cpp. */
module Sha256 {
  import opened Bytes
  import opened Sha256Constants
  import opened Sha256Spec

  /** SHA256_CTX. `message` is everything fed so far; `Valid` ties the real fields to it. */
  class Context {
    const data: array<byte>
    var datalen: nat
    var bitlen: nat
    var state: Words
    ghost var message: seq<byte>
    ghost var blocks: nat

    ghost predicate Valid()
      reads this, data
    {
      && data.Length == 64
      && datalen < 64
      && |message| == 64 * blocks + datalen
      && state == Absorb(message, blocks)
      && data[..datalen] == message[64 * blocks..]
      && bitlen == 512 * blocks % TWO64
    }

    /** sha256_init. */
    constructor ()
      ensures Valid() && message == [] && fresh(data)
    {
      data := new byte[64];
      datalen := 0;
      bitlen := 0;
      state := INITIAL;
      message := [];
      blocks := 0;
    }

    /** sha256_transform on the context's own buffer. */
    method Transform()
      requires data.Length == 64
      modifies this`state
      ensures state == Compress(old(state), data[..])
    {
      hide Round, K, W, Add;
      var m := Schedule(data);
      var v := state;
      var i := 0;
      while i < 64
        invariant 0 <= i <= 64
        invariant v == Rounds(state, data[..], i)
      {
        v := Round(v, K(i), m[i]);
        i := i + 1;
      }
      state := Add(state, v);
    }

    /** sha256_update. Its 32-bit loop counter ends only for fewer than 2^32 octets. */
    method Update(input: seq<byte>)
      requires Valid()
      requires |input| < 0x1_0000_0000
      modifies this, data
      ensures Valid()
      ensures message == old(message) + input
    {
      hide Absorb;
      var i := 0;
      while i < |input|
        invariant 0 <= i <= |input|
        invariant Valid()
        invariant message == old(message) + input[..i]
      {
        Push(input[i]);
        i := i + 1;
      }
      assert input[..i] == input;
    }

    /** The body of the loop of sha256_update. */
    method Push(x: byte)
      requires Valid()
      modifies this, data
      ensures Valid()
      ensures message == old(message) + [x]
    {
      hide Compress, Absorb;
      ghost var before := data[..datalen];
      data[datalen] := x;
      datalen := datalen + 1;
      assert data[..datalen] == before + [x];
      AbsorbPrefix(message, [x], blocks);
      AppendOne(message, 64 * blocks, x);
      message := message + [x];
      if datalen == 64 {
        FullBlock(message, blocks);
        assert data[..] == data[..datalen];
        Transform();
        BitLengthStep(blocks);
        blocks := blocks + 1;
        bitlen := (bitlen + 512) % TWO64;
        datalen := 0;
      }
    }

    /** sha256_final: pad, append the bit length, and write the hash value out. */
    method Final() returns (hash: array<bv8>)
      requires Valid()
      modifies this, data
      ensures fresh(hash) && hash[..] == Digest(old(message))
    {
      hide Compress, Serialize, BigEndian, Absorb, Pad, Digest;
      BitLengthTotal(blocks, datalen);
      ghost var n := PadBuffer();
      LastBlock(message, n);
      bitlen := (bitlen + 8 * datalen) % TWO64;
      PutLength();
      assert data[..] == data[..56] + data[56..];
      Transform();
      hash := WriteOut();
    }

    /** The two padding branches of sha256_final: afterwards all blocks but the last are
        absorbed, and the last lacks only its length field. */
    method PadBuffer() returns (ghost n: nat)
      requires Valid()
      modifies this`state, data
      ensures |Pad(message)| == 64 * (n + 1)
      ensures state == Absorb(Pad(message), n)
      ensures data[..56] == Pad(message)[64 * n..64 * n + 56]
    {
      hide Compress, BigEndian, Pad, Absorb, Repeat;
      ghost var q, r, m := blocks, datalen, message;
      ghost var padded := Pad(m);
      PadTail(m, q, r);
      assert state == Absorb(padded, q) by { AbsorbPrefix(m, padded[|m|..], q); }
      n := if r < 56 then q else q + 1;
      if datalen < 56 {
        FillFrom(56);
        assert padded[64 * q..64 * q + 56] == padded[64 * q..][..56];
      } else {
        FillFrom(64);
        assert data[..] == data[..64];
        Transform();
        AbsorbStep(padded, q);
        ZeroFill(0, 56);
        assert data[..56] == Repeat<byte>(0, 56);
        assert padded[64 * n..64 * n + 56] == padded[64 * n..][..56];
      }
    }

    /** The one bit, and zeros up to `to`. */
    method FillFrom(to: nat)
      requires datalen < to <= data.Length
      modifies data
      ensures data[..to] == old(data[..datalen]) + [0x80] + Repeat<byte>(0, to - 1 - datalen)
    {
      hide Repeat;
      data[datalen] := 0x80;
      assert data[..datalen + 1] == old(data[..datalen]) + [0x80];
      ZeroFill(datalen + 1, to);
    }

    /** The zero-filling loops, and the memset, of sha256_final. */
    method ZeroFill(from: nat, to: nat)
      requires from <= to <= data.Length
      modifies data
      ensures data[..to] == old(data[..from]) + Repeat<byte>(0, to - from)
    {
      var i := from;
      while i < to
        invariant from <= i <= to
        invariant data[..i] == old(data[..from]) + Repeat<byte>(0, i - from)
      {
        data[i] := 0;
        i := i + 1;
        assert data[..i] == data[..i - 1] + [0];
      }
    }

    /** The eight stores of the bit length. */
    method PutLength()
      requires data.Length == 64
      modifies data
      ensures data[..56] == old(data[..56]) && data[56..] == BigEndian(bitlen)
    {
      hide BigEndian;
      var octets := BigEndian(bitlen);
      data[63] := octets[7];
      data[62] := octets[6];
      data[61] := octets[5];
      data[60] := octets[4];
      data[59] := octets[3];
      data[58] := octets[2];
      data[57] := octets[1];
      data[56] := octets[0];
    }

    /** The output loop of sha256_final. */
    method WriteOut() returns (hash: array<bv8>)
      ensures fresh(hash) && hash[..] == Serialize(state)
    {
      hide Octet, WordOf;
      hash := new bv8[32];
      var i := 0;
      while i < 4
        invariant 0 <= i <= 4
        invariant forall k :: 0 <= k < 32 && k % 4 < i ==> hash[k] == Octet(WordOf(state, k / 4), k % 4)
      {
        PutColumn(hash, i);
        i := i + 1;
      }
    }

    /** One round of the output loop: octet `i` of each of the eight words. */
    method PutColumn(hash: array<bv8>, i: nat)
      requires hash.Length == 32 && i < 4
      modifies hash
      ensures forall k :: 0 <= k < 32 ==>
                hash[k] == if k % 4 == i then Octet(WordOf(state, k / 4), i) else old(hash[k])
    {
      hide Octet, WordOf;
      var w := 0;
      while w < 8
        invariant 0 <= w <= 8
        invariant forall k :: 0 <= k < 32 ==>
                    hash[k] == if k % 4 == i && k / 4 < w then Octet(WordOf(state, k / 4), i) else old(hash[k])
      {
        hash[i + 4 * w] := Octet(WordOf(state, w), i);
        w := w + 1;
      }
    }
  }

  /** The last block or two of the padded message, for the two branches of sha256_final. */
  lemma {:induction false} PadTail(m: seq<byte>, q: nat, r: nat)
    requires |m| == 64 * q + r && r < 64
    ensures |m| <= |Pad(m)| && Pad(m) == m + Pad(m)[|m|..]
    ensures |Pad(m)| >= 8 && Pad(m)[|Pad(m)| - 8..] == BigEndian(8 * |m| % TWO64)
    ensures r < 56 ==>
              && |Pad(m)| == 64 * (q + 1)
              && Pad(m)[64 * q..] == m[64 * q..] + [0x80] + Repeat<byte>(0, 55 - r) + BigEndian(8 * |m| % TWO64)
    ensures r >= 56 ==>
              && |Pad(m)| == 64 * (q + 2)
              && Pad(m)[64 * q..64 * (q + 1)] == m[64 * q..] + [0x80] + Repeat<byte>(0, 63 - r)
              && Pad(m)[64 * (q + 1)..] == Repeat<byte>(0, 56) + BigEndian(8 * |m| % TWO64)
  {
    hide BigEndian, Repeat, Padding;
    var pad, len := Padding(|m|), BigEndian(8 * |m| % TWO64);
    PaddingParts(|m|, q, r);
    if r < 56 {
      var zeros := [0x80] + Repeat<byte>(0, 55 - r);
      AppendParts(m, zeros, len, 64 * q);
      assert m[64 * q..] + (zeros + len) == m[64 * q..] + [0x80] + Repeat<byte>(0, 55 - r) + len;
    } else {
      var zeros := [0x80] + Repeat<byte>(0, 63 - r);
      AppendParts(m, zeros, Repeat<byte>(0, 56) + len, 64 * q);
      assert m[64 * q..] + zeros == m[64 * q..] + [0x80] + Repeat<byte>(0, 63 - r);
    }
  }

  /** The padding, cut where the last block begins. */
  lemma {:induction false} PaddingParts(n: nat, q: nat, r: nat)
    requires n == 64 * q + r && r < 64
    ensures var len := BigEndian(8 * n % TWO64);
            Padding(n) == if r < 56 then [0x80] + Repeat<byte>(0, 55 - r) + len
                          else [0x80] + Repeat<byte>(0, 63 - r) + (Repeat<byte>(0, 56) + len)
  {
    hide BigEndian, ZeroCount;
    ZeroCountIs(n, q, r);
    if r >= 56 {
      assert Repeat<byte>(0, 119 - r) == Repeat<byte>(0, 63 - r) + Repeat<byte>(0, 56);
    }
  }

  lemma {:induction false} ZeroCountIs(n: nat, q: nat, r: nat)
    requires n == 64 * q + r && r < 64
    ensures ZeroCount(n) == if r < 56 then 55 - r else 119 - r
  {
    assert n % 64 == r;
  }

  lemma {:induction false} AppendParts(m: seq<byte>, a: seq<byte>, b: seq<byte>, k: nat)
    requires k <= |m|
    ensures var p := m + (a + b);
            p[|m|..] == a + b && p[k..] == m[k..] + (a + b) && p[k..|m| + |a|] == m[k..] + a && p[|m| + |a|..] == b
  {
  }

  lemma {:induction false} AbsorbStep(m: seq<byte>, n: nat)
    requires 64 * (n + 1) <= |m|
    ensures Absorb(m, n + 1) == Compress(Absorb(m, n), m[64 * n..64 * (n + 1)])
  {
    hide Compress;
  }

  lemma {:induction false} AppendOne(m: seq<byte>, k: nat, x: byte)
    requires k <= |m|
    ensures (m + [x])[k..] == m[k..] + [x]
  {
  }

  /** A message that ends with its block `n`. */
  lemma {:induction false} FullBlock(m: seq<byte>, n: nat)
    requires |m| == 64 * (n + 1)
    ensures Absorb(m, n + 1) == Compress(Absorb(m, n), m[64 * n..]) && m[64 * (n + 1)..] == []
  {
    hide Compress;
    assert m[64 * n..64 * (n + 1)] == m[64 * n..];
  }

  /** The last padded block ends with the length, and absorbing it completes the digest. */
  lemma {:induction false} LastBlock(m: seq<byte>, n: nat)
    requires |Pad(m)| == 64 * (n + 1)
    ensures var block := Pad(m)[64 * n..64 * n + 56] + BigEndian(8 * |m| % TWO64);
            |block| == 64 && Digest(m) == Serialize(Compress(Absorb(Pad(m), n), block))
  {
    hide Compress, Serialize, BigEndian, Absorb, Pad;
    var p := Pad(m);
    PadTail(m, |m| / 64, |m| % 64);
    FullBlock(p, n);
    assert p[64 * n..] == p[64 * n..64 * n + 56] + p[64 * n + 56..];
  }

  lemma {:induction false} BitLengthTotal(n: nat, r: nat)
    ensures (512 * n % TWO64 + 8 * r) % TWO64 == 8 * (64 * n + r) % TWO64
  {
    ModAdd(512 * n, 8 * r);
  }

  lemma {:induction false} ModAdd(x: nat, y: nat)
    ensures (x % TWO64 + y) % TWO64 == (x + y) % TWO64
  {
    var q, r := x / TWO64, x % TWO64;
    assert x == q * TWO64 + r;
    ModShift(r + y, q);
  }

  lemma {:induction false} ModShift(x: nat, k: nat)
    ensures (x + k * TWO64) % TWO64 == x % TWO64
  {
    if k > 0 {
      ModShift(x, k - 1);
      ModStep(x + (k - 1) * TWO64);
    }
  }

  lemma {:induction false} ModStep(x: nat)
    ensures (x + TWO64) % TWO64 == x % TWO64
  {
  }

  /** Any way of cutting a message into updates gives the digest of the whole message. */
  method HashChunks(chunks: seq<seq<byte>>) returns (digest: seq<bv8>)
    requires forall c :: c in chunks ==> |c| < 0x1_0000_0000
    ensures digest == Digest(Flatten(chunks))
  {
    hide Digest, Absorb, Flatten, Context.Valid;
    var ctx := new Context();
    var i := 0;
    FlattenSuffix(chunks, 0);
    while i < |chunks|
      invariant 0 <= i <= |chunks|
      invariant ctx.Valid() && fresh(ctx) && fresh(ctx.data)
      invariant ctx.message + Flatten(chunks[i..]) == Flatten(chunks)
    {
      FlattenSuffix(chunks, i);
      ghost var before := ctx.message;
      ctx.Update(chunks[i]);
      assert ctx.message + Flatten(chunks[i + 1..]) == before + (chunks[i] + Flatten(chunks[i + 1..]));
      i := i + 1;
    }
    FlattenSuffix(chunks, i);
    assert ctx.message == Flatten(chunks);
    var hash := ctx.Final();
    digest := hash[..];
  }

  function Flatten(chunks: seq<seq<byte>>): seq<byte> {
    if chunks == [] then [] else chunks[0] + Flatten(chunks[1..])
  }

  lemma {:induction false} FlattenSuffix(chunks: seq<seq<byte>>, i: nat)
    requires i <= |chunks|
    ensures chunks[0..] == chunks
    ensures Flatten(chunks[i..]) == if i == |chunks| then [] else chunks[i] + Flatten(chunks[i + 1..])
  {
    if i < |chunks| {
      assert chunks[i..] == [chunks[i]] + chunks[i + 1..];
    }
  }

  /** The first two loops of sha256_transform. */
  method Schedule(data: array<byte>) returns (m: array<bv32>)
    requires data.Length == 64
    ensures fresh(m) && m.Length == 64
    ensures forall j :: 0 <= j < 64 ==> m[j] == W(data[..], j)
  {
    hide W, Extend, WordAt;
    m := LoadWords(data);
    ghost var block := data[..];
    WordsFirst(block);
    var i := 16;
    while i < 64
      invariant 16 <= i <= 64
      invariant forall j :: 0 <= j < i ==> m[j] == W(block, j)
    {
      WordNext(block, i);
      m[i] := Extend(m[i - 2], m[i - 7], m[i - 15], m[i - 16]);
      i := i + 1;
    }
  }

  lemma {:induction false} WordsFirst(block: seq<byte>)
    requires |block| == 64
    ensures forall j :: 0 <= j < 16 ==> W(block, j) == WordAt(block, j)
  {
    hide WordAt;
  }

  lemma {:induction false} WordNext(block: seq<byte>, t: nat)
    requires |block| == 64 && 16 <= t < 64
    ensures W(block, t) == Extend(W(block, t - 2), W(block, t - 7), W(block, t - 15), W(block, t - 16))
  {
    hide WordAt, Extend;
  }

  /** The loop that reads the block as words. */
  method LoadWords(data: array<byte>) returns (m: array<bv32>)
    requires data.Length == 64
    ensures fresh(m) && m.Length == 64
    ensures forall j :: 0 <= j < 16 ==> m[j] == WordAt(data[..], j)
  {
    hide Word;
    m := new bv32[64];
    ghost var block := data[..];
    var i := 0;
    while i < 16
      invariant 0 <= i <= 16
      invariant forall j :: 0 <= j < i ==> m[j] == WordAt(block, j)
    {
      var j := 4 * i;
      m[i] := Word(data[j], data[j + 1], data[j + 2], data[j + 3]);
      i := i + 1;
    }
  }

  lemma {:induction false} BitLengthStep(n: nat)
    ensures (512 * n % TWO64 + 512) % TWO64 == 512 * (n + 1) % TWO64
  {
    ModAdd(512 * n, 512);
  }

  /** Blocks already absorbed do not depend on what follows. */
  lemma {:induction false} AbsorbPrefix(m: seq<byte>, x: seq<byte>, n: nat)
    requires 64 * n <= |m|
    ensures Absorb(m + x, n) == Absorb(m, n)
  {
    hide Compress;
    if n > 0 {
      AbsorbPrefix(m, x, n - 1);
      assert (m + x)[64 * (n - 1)..64 * n] == m[64 * (n - 1)..64 * n];
    }
  }
}

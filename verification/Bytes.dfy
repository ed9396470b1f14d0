/** Octets and the big-endian fields of the wire format (include/net/netcommon.h). */
module Bytes {
  datatype Option<+T> = None | Some(value: T)

  type byte = x: int | 0 <= x < 0x100
  type u16 = x: int | 0 <= x < 0x1_0000
  type u32 = x: int | 0 <= x < 0x1_0000_0000

  lemma {:induction false} Half(c: nat, r: nat)
    requires r < 2
    ensures (2 * c + r) / 2 == c && (2 * c + r) % 2 == r
  {
  }

  lemma {:induction false} Quarter(v: nat)
    ensures v / 4 == v / 2 / 2
  {
  }

  /** READ_U16 (netcommon.h:42). */
  function Join16(hi: byte, lo: byte): (v: u16) {
    hi * 0x100 + lo
  }

  /** READ_U32 (netcommon.h:45). */
  function Join32(b3: byte, b2: byte, b1: byte, b0: byte): (v: u32) {
    Join16(b3, b2) * 0x1_0000 + Join16(b1, b0)
  }

  /** WRITE_U16 (netcommon.h:68). */
  function Split16(v: u16): (s: seq<byte>)
    ensures |s| == 2
  {
    [v / 0x100, v % 0x100]
  }

  /** WRITE_U32 (netcommon.h:69). */
  function Split32(v: u32): (s: seq<byte>)
    ensures |s| == 4
  {
    Split16(v / 0x1_0000) + Split16(v % 0x1_0000)
  }

  lemma {:induction false} SplitJoin16(v: u16)
    ensures Join16(Split16(v)[0], Split16(v)[1]) == v
  {
  }

  lemma {:induction false} SplitJoin32(v: u32)
    ensures var s := Split32(v); Join32(s[0], s[1], s[2], s[3]) == v
  {
    hide Join16, Split16;
    SplitJoin16(v / 0x1_0000);
    SplitJoin16(v % 0x1_0000);
  }

  /** Different last octets make different numbers. */
  lemma {:induction false} LastOctetCounts(b3: byte, b2: byte, b1: byte, b0: byte, c0: byte)
    ensures Join32(b3, b2, b1, b0) == Join32(b3, b2, b1, c0) ==> b0 == c0
  {
  }

  /** The bytes `s` lie in `d` from `pos` on. */
  ghost predicate At(d: seq<byte>, pos: nat, s: seq<byte>) {
    pos + |s| <= |d| && d[pos..pos + |s|] == s
  }

  lemma {:induction false} AtIndex(d: seq<byte>, pos: nat, s: seq<byte>, k: nat)
    requires At(d, pos, s) && k < |s|
    ensures d[pos + k] == s[k]
  {
    assert d[pos..pos + |s|][k] == s[k];
  }

  lemma {:induction false} AtSlice(d: seq<byte>, pos: nat, s: seq<byte>, i: nat, j: nat)
    requires At(d, pos, s) && i <= j <= |s|
    ensures d[pos + i..pos + j] == s[i..j]
  {
    forall k | 0 <= k < j - i
      ensures d[pos + i..pos + j][k] == s[i..j][k]
    {
      AtIndex(d, pos, s, i + k);
    }
  }

  lemma {:induction false} AtAppend(d: seq<byte>, pos: nat, a: seq<byte>, b: seq<byte>)
    ensures At(d, pos, a + b) <==> At(d, pos, a) && At(d, pos + |a|, b)
  {
    if At(d, pos, a + b) {
      AtSlice(d, pos, a + b, 0, |a|);
      AtSlice(d, pos, a + b, |a|, |a + b|);
      assert (a + b)[..|a|] == a && (a + b)[|a|..] == b;
    }
    if At(d, pos, a) && At(d, pos + |a|, b) {
      assert d[pos..pos + |a + b|] == d[pos..pos + |a|] + d[pos + |a|..pos + |a| + |b|];
    }
  }

  lemma {:induction false} AtTake(d: seq<byte>, pos: nat, s: seq<byte>, size: nat)
    requires At(d, pos, s) && pos + |s| <= size <= |d|
    ensures At(d[..size], pos, s)
  {
    assert d[..size][pos..pos + |s|] == d[pos..pos + |s|];
  }

  /** `d` with the octets `s` stored from `t` on. */
  function Overwrite(d: seq<byte>, t: nat, s: seq<byte>): (r: seq<byte>)
    requires t + |s| <= |d|
    ensures |r| == |d|
  {
    d[..t] + s + d[t + |s|..]
  }

  lemma {:induction false} OverwriteNone(d: seq<byte>, t: nat)
    requires t <= |d|
    ensures Overwrite(d, t, []) == d
  {
  }

  lemma {:induction false} OverwriteMore(d: seq<byte>, t: nat, a: seq<byte>, b: seq<byte>)
    requires t + |a + b| <= |d|
    ensures Overwrite(Overwrite(d, t, a), t + |a|, b) == Overwrite(d, t, a + b)
  {
  }

  lemma {:induction false} OverwriteNext(d: seq<byte>, t: nat, s: seq<byte>, i: nat)
    requires t + |s| <= |d| && i < |s|
    ensures Overwrite(d, t, s[..i])[t + i := s[i]] == Overwrite(d, t, s[..i + 1])
  {
  }

  lemma {:induction false} OverwriteAt(d: seq<byte>, t: nat, s: seq<byte>)
    requires t + |s| <= |d|
    ensures At(Overwrite(d, t, s), t, s)
  {
  }

  /** All octets from `pos` on are zero. */
  ghost predicate ZeroFrom(d: seq<byte>, pos: nat) {
    forall k :: pos <= k < |d| ==> d[k] == 0
  }

  lemma {:induction false} OverwriteZeroTail(d: seq<byte>, t: nat, s: seq<byte>)
    requires t + |s| <= |d| && ZeroFrom(d, t)
    ensures ZeroFrom(Overwrite(d, t, s), t + |s|)
  {
  }

  function Repeat<T>(x: T, n: nat): (s: seq<T>)
    ensures |s| == n
  {
    seq(n, _ => x)
  }
}

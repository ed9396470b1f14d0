/** Rules and their packed byte form (include/rule/shm.hpp, ShmRuleEngine::nextRule). */
module RuleCodec {
  import opened Bytes

  const DATA_SIZE: nat := 8192

  // sizeof of the three packed structures: two 4-byte enumerations, a bool padded to
  // four bytes before a 16-byte union, and six octets.
  const HEADER_SIZE: nat := 8
  const IP_SIZE: nat := 20
  const ETH_SIZE: nat := 6

  /** An enumeration as its four octets in memory, least significant first. */
  datatype Word = Word(b0: byte, b1: byte, b2: byte, b3: byte)

  // RuleType
  const IP_ADDRESS := Word(0, 0, 0, 0)
  const ETH_ADDRESS := Word(1, 0, 0, 0)
  const IP_AND_ETH_ADDRESS := Word(2, 0, 0, 0)

  // ActionType
  const DNS := Word(0, 0, 0, 0)
  const REDIRECT := Word(1, 0, 0, 0)

  /** A rule as `nextRule` returns it; a null pointer is an empty sequence. */
  datatype Rule = Rule(ruleType: Word, actionType: Word, ipd: seq<byte>, eth: seq<byte>, target: seq<byte>)

  predicate HasIp(ruleType: Word) {
    ruleType == IP_ADDRESS || ruleType == IP_AND_ETH_ADDRESS
  }

  predicate HasEth(ruleType: Word) {
    ruleType == ETH_ADDRESS || ruleType == IP_AND_ETH_ADDRESS
  }

  function IpWidth(ruleType: Word): nat { if HasIp(ruleType) then IP_SIZE else 0 }

  function EthWidth(ruleType: Word): nat { if HasEth(ruleType) then ETH_SIZE else 0 }

  function TargetWidth(actionType: Word): nat { if actionType == REDIRECT then IP_SIZE else 0 }

  function Width(ruleType: Word, actionType: Word): (w: nat)
    ensures w >= HEADER_SIZE
  {
    HEADER_SIZE + IpWidth(ruleType) + EthWidth(ruleType) + TargetWidth(actionType)
  }

  /** The fields present are exactly those the two types call for. */
  predicate Shaped(r: Rule) {
    && |r.ipd| == IpWidth(r.ruleType)
    && |r.eth| == EthWidth(r.ruleType)
    && |r.target| == TargetWidth(r.actionType)
  }

  predicate AllShaped(rs: seq<Rule>) {
    forall r :: r in rs ==> Shaped(r)
  }

  function EncodeWord(w: Word): (s: seq<byte>)
    ensures |s| == 4
  {
    [w.b0, w.b1, w.b2, w.b3]
  }

  function DecodeWord(d: seq<byte>, pos: nat): Word
    requires pos + 4 <= |d|
  {
    Word(d[pos], d[pos + 1], d[pos + 2], d[pos + 3])
  }

  function Encode(r: Rule): (s: seq<byte>)
    ensures Shaped(r) ==> |s| == Width(r.ruleType, r.actionType)
  {
    EncodeWord(r.ruleType) + EncodeWord(r.actionType) + r.ipd + r.eth + r.target
  }

  /** Where the fields of a packed rule lie, in numbers: 8 octets of header, 20 for an address when
      the type is 0 or 2, 6 for a hardware address when it is 1 or 2, and 20 for the target of a
      redirect. */
  lemma {:induction false} PackedLayout(t: byte, a: byte, r: Rule)
    requires t <= 2 && a <= 1 && r.ruleType == Word(t, 0, 0, 0) && r.actionType == Word(a, 0, 0, 0) && Shaped(r)
    ensures var s := Encode(r);
            && |s| == 8 + (if t == 1 then 0 else 20) + (if t == 0 then 0 else 6) + (if a == 0 then 0 else 20)
            && s[..8] == [t, 0, 0, 0, a, 0, 0, 0]
            && (t == 0 ==> s[8..28] == r.ipd && s[28..] == r.target)
            && (t == 1 ==> s[8..14] == r.eth && s[14..] == r.target)
            && (t == 2 ==> s[8..28] == r.ipd && s[28..34] == r.eth && s[34..] == r.target)
  {
  }

  function EncodeAll(rs: seq<Rule>): (s: seq<byte>)
    decreases |rs|
  {
    if rs == [] then [] else EncodeAll(rs[..|rs| - 1]) + Encode(rs[|rs| - 1])
  }

  /** A rule cut out of `d` with the given types; the fields follow the header in order. */
  function Cut(d: seq<byte>, pos: nat, ruleType: Word, actionType: Word): (r: Rule)
    requires pos + Width(ruleType, actionType) <= |d|
    ensures Shaped(r)
  {
    var p := pos + HEADER_SIZE;
    var q := p + IpWidth(ruleType);
    var t := q + EthWidth(ruleType);
    Rule(ruleType, actionType, d[p..q], d[q..t], d[t..t + TargetWidth(actionType)])
  }

  /** `nextRule`: the rule at `pos`, or None when it would reach past the data. */
  function NextRule(d: seq<byte>, pos: nat): (r: Option<Rule>)
    ensures r.Some? ==> Shaped(r.value) && pos + Width(r.value.ruleType, r.value.actionType) <= |d|
  {
    if pos + HEADER_SIZE > |d| then None
    else
      var ruleType := DecodeWord(d, pos);
      var actionType := DecodeWord(d, pos + 4);
      if pos + Width(ruleType, actionType) > |d| then None
      else Some(Cut(d, pos, ruleType, actionType))
  }

  function Advance(pos: nat, r: Rule): nat {
    pos + Width(r.ruleType, r.actionType)
  }

  /** The rules met by calling `nextRule` `n` times from `pos`, with the final cursor. */
  function Decode(d: seq<byte>, pos: nat, n: nat): (r: Option<(seq<Rule>, nat)>)
    ensures r.Some? ==> |r.value.0| == n && AllShaped(r.value.0)
    ensures r.Some? ==> pos <= r.value.1
  {
    if n == 0 then Some(([], pos))
    else
      match Decode(d, pos, n - 1)
      case None => None
      case Some((rs, p)) =>
        match NextRule(d, p)
        case None => None
        case Some(r) => Some((rs + [r], Advance(p, r)))
  }

  lemma {:induction false} WordAt(d: seq<byte>, pos: nat, w: Word)
    requires At(d, pos, EncodeWord(w))
    ensures DecodeWord(d, pos) == w
  {
    AtIndex(d, pos, EncodeWord(w), 0);
    AtIndex(d, pos, EncodeWord(w), 1);
    AtIndex(d, pos, EncodeWord(w), 2);
    AtIndex(d, pos, EncodeWord(w), 3);
  }

  lemma {:induction false} DecodedWordAt(d: seq<byte>, pos: nat)
    requires pos + 4 <= |d|
    ensures At(d, pos, EncodeWord(DecodeWord(d, pos)))
  {
    assert d[pos..pos + 4] == [d[pos], d[pos + 1], d[pos + 2], d[pos + 3]];
  }

  /** Reading back one packed rule, wherever it lies. */
  lemma {:induction false} NextRuleOfEncode(d: seq<byte>, pos: nat, r: Rule)
    requires Shaped(r) && At(d, pos, Encode(r))
    ensures NextRule(d, pos) == Some(r)
  {
    hide HasIp, HasEth, EncodeWord, DecodeWord;
    var s := Encode(r);
    var p := 8 + |r.ipd|;
    var q := p + |r.eth|;
    assert s[..4] == EncodeWord(r.ruleType) && s[4..8] == EncodeWord(r.actionType);
    assert s[8..p] == r.ipd && s[p..q] == r.eth && s[q..] == r.target;
    AtSlice(d, pos, s, 0, 4);
    AtSlice(d, pos, s, 4, 8);
    WordAt(d, pos, r.ruleType);
    WordAt(d, pos + 4, r.actionType);
    AtSlice(d, pos, s, 8, p);
    AtSlice(d, pos, s, p, q);
    AtSlice(d, pos, s, q, |s|);
  }

  /** Whatever `nextRule` returns is packed at the cursor, byte for byte. */
  lemma {:induction false} EncodeOfNextRule(d: seq<byte>, pos: nat)
    requires NextRule(d, pos).Some?
    ensures var r := NextRule(d, pos).value; At(d, pos, Encode(r))
  {
    hide HasIp, HasEth, EncodeWord, DecodeWord;
    var r := NextRule(d, pos).value;
    DecodedWordAt(d, pos);
    DecodedWordAt(d, pos + 4);
    AtAppend(d, pos, EncodeWord(r.ruleType), EncodeWord(r.actionType));
    AtAppend(d, pos, EncodeWord(r.ruleType) + EncodeWord(r.actionType), r.ipd);
    AtAppend(d, pos, EncodeWord(r.ruleType) + EncodeWord(r.actionType) + r.ipd, r.eth);
    AtAppend(d, pos, EncodeWord(r.ruleType) + EncodeWord(r.actionType) + r.ipd + r.eth, r.target);
  }

  lemma {:induction false} EncodeAllAppend(rs: seq<Rule>, ss: seq<Rule>)
    ensures EncodeAll(rs + ss) == EncodeAll(rs) + EncodeAll(ss)
    decreases |ss|
  {
    hide Encode;
    if ss == [] {
      assert rs + ss == rs;
    } else {
      var n := |ss| - 1;
      assert (rs + ss)[..|rs + ss| - 1] == rs + ss[..n];
      EncodeAllAppend(rs, ss[..n]);
    }
  }

  lemma {:induction false} EncodeAllSplit(rs: seq<Rule>, i: nat)
    requires i <= |rs|
    ensures EncodeAll(rs) == EncodeAll(rs[..i]) + EncodeAll(rs[i..])
  {
    hide EncodeAll;
    assert rs == rs[..i] + rs[i..];
    EncodeAllAppend(rs[..i], rs[i..]);
  }

  /** The `n` rules from `pos` are exactly `rs`. */
  ghost predicate DecodesTo(d: seq<byte>, pos: nat, rs: seq<Rule>) {
    Decode(d, pos, |rs|).Some? && Decode(d, pos, |rs|).value.0 == rs
  }

  /** The cursor walk yields `rs` exactly when the bytes from `pos` are the packing of `rs`,
      and then it stops right after them. */
  lemma {:induction false} DecodeIff(d: seq<byte>, pos: nat, rs: seq<Rule>)
    requires AllShaped(rs) && pos <= |d|
    ensures DecodesTo(d, pos, rs) <==> At(d, pos, EncodeAll(rs))
    ensures DecodesTo(d, pos, rs) ==> Decode(d, pos, |rs|).value.1 == pos + |EncodeAll(rs)|
    decreases |rs|
  {
    hide Encode, NextRule, Shaped, Width;
    if rs != [] {
      var n := |rs| - 1;
      DecodeIff(d, pos, rs[..n]);
      AtAppend(d, pos, EncodeAll(rs[..n]), Encode(rs[n]));
      var p := pos + |EncodeAll(rs[..n])|;
      if At(d, pos, EncodeAll(rs)) {
        NextRuleOfEncode(d, p, rs[n]);
        assert rs == rs[..n] + [rs[n]];
      }
      if DecodesTo(d, pos, rs) {
        assert Decode(d, pos, n).value.0 == rs[..n];
        EncodeOfNextRule(d, p);
      }
    }
  }
}

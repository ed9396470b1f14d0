/** The shared-memory rule engine itself: loops over a byte array (src/rule/shm.cpp). */
module RuleEngine {
  import opened Bytes
  import opened RuleCodec
  import opened RuleStore
  import opened RuleMatch

  /** ShmRuleEngine with its mapped RuleData. `Rules` is the list the bytes decode to; the
      inner loops take it as a ghost argument. */
  class Engine {
    const data: array<byte>
    var size: nat
    var policy: Policy

    function State(): Store
      reads this, data
    {
      Store(data[..], size, policy)
    }

    ghost predicate Holds(rs: seq<Rule>)
      reads this, data
    {
      data.Length == DATA_SIZE + 1 && AllShaped(rs) && Refines(State(), rs)
    }

    ghost predicate Valid()
      reads this, data
    {
      Decode(data[..], 0, size).Some? && Holds(Decode(data[..], 0, size).value.0)
    }

    ghost function Rules(): seq<Rule>
      requires Valid()
      reads this, data
    {
      Decode(data[..], 0, size).value.0
    }

    lemma {:induction false} HeldRules(rs: seq<Rule>)
      requires Holds(rs)
      ensures Valid() && Rules() == rs
    {
      hide EncodeAll, Decode, AllShaped;
    }

    /** A freshly mapped region is zero-filled. */
    constructor ()
      ensures Valid() && Rules() == [] && fresh(data)
    {
      data := new byte[DATA_SIZE + 1](_ => 0);
      size := 0;
      policy := Policy(DNS, Repeat(0, 16), Repeat(0, 16));
      new;
      EncodeNone();
      RefinesIff(State(), []);
      HeldRules([]);
    }

    /** `nextRule`: the rule at the cursor, and the cursor after it. */
    method Next(t: nat, ghost rs: seq<Rule>, ghost i: nat) returns (r: Rule, next: nat)
      requires Holds(rs) && i < |rs| && t == Cursor(rs, i)
      ensures r == rs[i] && next == Cursor(rs, i + 1)
    {
      hide EncodeAll, DecodesTo, AllShaped, Cursor, HasIp, HasEth;
      NextRuleAt(data[..], rs, i);
      var ruleType := Word(data[t], data[t + 1], data[t + 2], data[t + 3]);
      var actionType := Word(data[t + 4], data[t + 5], data[t + 6], data[t + 7]);
      var p := t + HEADER_SIZE;
      var ipd, eth, target := [], [], [];
      if HasIp(ruleType) {
        ipd := data[p..p + IP_SIZE];
        p := p + IP_SIZE;
      }
      if HasEth(ruleType) {
        eth := data[p..p + ETH_SIZE];
        p := p + ETH_SIZE;
      }
      if actionType == REDIRECT {
        target := data[p..p + IP_SIZE];
        p := p + IP_SIZE;
      }
      r := Rule(ruleType, actionType, ipd, eth, target);
      next := p;
    }

    /** Calls `nextRule` for the rules `from` up to `to`: the "skip" and "go to the end" loops. */
    method Skip(t: nat, from: nat, to: nat, ghost rs: seq<Rule>) returns (next: nat)
      requires Holds(rs) && from <= to <= |rs| && t == Cursor(rs, from)
      ensures next == Cursor(rs, to)
    {
      hide Refines, Cursor;
      next := t;
      var i := from;
      while i < to
        invariant from <= i <= to
        invariant next == Cursor(rs, i)
      {
        var _, n := Next(next, rs, i);
        next := n;
        i := i + 1;
      }
    }

    /** `insertRules`, with its shifting loop as written. */
    method InsertRules(news: seq<Rule>, index: nat, ghost rs: seq<Rule>) returns (count: nat)
      requires Holds(rs) && AllShaped(news)
      modifies this`size, data
      ensures State() == Insert(AsWritten, old(State()), rs, news, index)
      ensures count == if Fits(rs, news, index) then |news| else 0
    {
      hide EncodeAll, DecodesTo, AllShaped, InsertBytes, Cursor;
      count := 0;
      if index > size {
        return;
      }
      var bytes := PackedSize(news);
      CursorEnds(rs);
      var insertionPoint := Skip(0, 0, index, rs);
      var end := Skip(insertionPoint, index, size, rs);
      if end + bytes > DATA_SIZE {
        return;
      }
      ShiftUp(insertionPoint, end, bytes);
      CopyRules(insertionPoint, news);
      InsertBytesSteps(old(data[..]), insertionPoint, end, EncodeAll(news));
      size := size + |news|;
      count := |news|;
    }

    /** The shifting loop of `insertRules`, src/rule/shm.cpp:255-257. */
    method ShiftUp(insertionPoint: nat, end: nat, bytes: nat)
      requires insertionPoint <= end && end + bytes < data.Length
      modifies data
      ensures data[..] == ShiftedUp(old(data[..]), insertionPoint, end, bytes)
    {
      var t := end + bytes;
      while t > insertionPoint + bytes
        invariant insertionPoint + bytes <= t <= end + bytes
        invariant forall k :: 0 <= k <= t ==> data[k] == old(data[k])
        invariant forall k :: t < k <= end + bytes ==> data[k] == old(data[k - bytes])
        invariant forall k :: end + bytes < k < data.Length ==> data[k] == old(data[k])
      {
        data[t] := data[t - bytes];
        t := t - 1;
      }
    }

    /** `std::memcpy` into the store. */
    method Copy(t: nat, s: seq<byte>)
      requires t + |s| <= data.Length
      modifies data
      ensures data[..] == Overwrite(old(data[..]), t, s)
    {
      hide Overwrite;
      var i := 0;
      OverwriteNone(data[..], t);
      while i < |s|
        invariant 0 <= i <= |s|
        invariant data[..] == Overwrite(old(data[..]), t, s[..i])
      {
        OverwriteNext(old(data[..]), t, s, i);
        ghost var before := data[..];
        data[t + i] := s[i];
        assert data[..] == before[t + i := s[i]];
        i := i + 1;
      }
      assert s[..i] == s;
    }

    /** The copying loop of `insertRules`. */
    method CopyRules(insertionPoint: nat, news: seq<Rule>)
      requires AllShaped(news) && insertionPoint + |EncodeAll(news)| <= data.Length
      modifies data
      ensures data[..] == Overwrite(old(data[..]), insertionPoint, EncodeAll(news))
    {
      hide EncodeAll, Overwrite, AllShaped;
      var t, i := insertionPoint, 0;
      CursorEnds(news);
      EncodeNone();
      assert news[..0] == [];
      OverwriteNone(data[..], t);
      while i < |news|
        invariant 0 <= i <= |news|
        invariant t == insertionPoint + Cursor(news, i)
        invariant data[..] == Overwrite(old(data[..]), insertionPoint, EncodeAll(news[..i]))
      {
        PrefixStep(news, i);
        OverwriteMore(old(data[..]), insertionPoint, EncodeAll(news[..i]), Encode(news[i]));
        t := CopyRule(t, news[i]);
        i := i + 1;
      }
      assert news[..i] == news;
    }

    /** The copies of the header and of the fields present. */
    method CopyRule(t: nat, r: Rule) returns (next: nat)
      requires Shaped(r) && t + |Encode(r)| <= data.Length
      modifies data
      ensures data[..] == Overwrite(old(data[..]), t, Encode(r))
      ensures next == t + |Encode(r)|
    {
      hide Overwrite, HasIp, HasEth, EncodeWord;
      ghost var d := data[..];
      var header := EncodeWord(r.ruleType) + EncodeWord(r.actionType);
      Copy(t, header);
      next := t + HEADER_SIZE;
      OverwriteMore(d, t, header, r.ipd);
      if HasIp(r.ruleType) {
        Copy(next, r.ipd);
        next := next + IP_SIZE;
      } else {
        OverwriteNone(data[..], next);
      }
      OverwriteMore(d, t, header + r.ipd, r.eth);
      if HasEth(r.ruleType) {
        Copy(next, r.eth);
        next := next + ETH_SIZE;
      } else {
        OverwriteNone(data[..], next);
      }
      OverwriteMore(d, t, header + r.ipd + r.eth, r.target);
      if r.actionType == REDIRECT {
        Copy(next, r.target);
        next := next + IP_SIZE;
      } else {
        OverwriteNone(data[..], next);
      }
    }

    /** `AppendRule`: it always refines appending to the list. */
    method AppendRule(r: Rule) returns (ok: bool)
      requires Valid() && Shaped(r)
      modifies this`size, data
      ensures Valid() && Rules() == ListInsert(old(Rules()), [r], |old(Rules())|) && policy == old(policy)
      ensures ok <==> Fits(old(Rules()), [r], |old(Rules())|)
      ensures !ok ==> State() == old(State())
    {
      hide EncodeAll, DecodesTo, InsertBytes, Decode;
      ghost var rs := Rules();
      var count := InsertRules([r], size, rs);
      InsertRefines(AsWritten, old(State()), rs, [r], |rs|);
      HeldRules(ListInsert(rs, [r], |rs|));
      ok := count > 0;
    }

    /** `InsertRule`: it refines list insertion exactly when the seam condition holds. */
    method InsertRule(r: Rule, index: nat) returns (ok: bool)
      requires Valid() && Shaped(r)
      modifies this`size, data
      ensures State() == Insert(AsWritten, old(State()), old(Rules()), [r], index)
      ensures ok <==> Fits(old(Rules()), [r], index)
      ensures !ok ==> State() == old(State())
      ensures ok ==> (Valid() && Rules() == ListInsert(old(Rules()), [r], index)
                      <==> SeamOk(AsWritten, old(data[..]), old(Rules()), [r], index))
    {
      hide EncodeAll, DecodesTo, InsertBytes, Decode, ListInsert;
      ghost var rs := Rules();
      var count := InsertRules([r], index, rs);
      InsertRefines(AsWritten, old(State()), rs, [r], index);
      ghost var rs' := ListInsert(rs, [r], index);
      if Fits(rs, [r], index) {
        ListInsertEncoding(rs, [r], index);
        if Refines(State(), rs') {
          HeldRules(rs');
        }
      }
      ok := count > 0;
    }

    /** `DeleteRule`. */
    method DeleteRule(index: nat) returns (ok: bool)
      requires Valid()
      modifies this`size, data
      ensures State() == Delete(old(State()), old(Rules()), index)
      ensures Valid() && Rules() == ListDelete(old(Rules()), index) && policy == old(policy)
      ensures ok <==> index < |old(Rules())|
      ensures !ok ==> State() == old(State())
    {
      hide EncodeAll, DecodesTo, AllShaped, DeleteBytes, Cursor, ListDelete, Decode;
      ghost var rs := Rules();
      DeleteRefines(State(), rs, index);
      ListDeleteShaped(rs, index);
      ok := DeleteAt(index, rs);
      HeldRules(ListDelete(rs, index));
    }

    /** `deleteRule`. */
    method DeleteAt(index: nat, ghost rs: seq<Rule>) returns (ok: bool)
      requires Holds(rs)
      modifies this`size, data
      ensures State() == Delete(old(State()), rs, index)
      ensures ok <==> index < |rs|
    {
      hide EncodeAll, DecodesTo, AllShaped, DeleteBytes, Cursor;
      if size == 0 || index >= size {
        return false;
      }
      if index == size - 1 {
        size := size - 1;
        return true;
      }
      CursorEnds(rs);
      CursorMonotone(rs, index);
      var deletionPoint := Skip(0, 0, index, rs);
      var t := Skip(deletionPoint, index, index + 1, rs);
      var end := Skip(t, index + 1, size, rs);
      ShiftDown(deletionPoint, t, end);
      DeleteBytesShift(old(data[..]), deletionPoint, t, end);
      size := size - 1;
      ok := true;
    }

    /** The loop of `deleteRule`, src/rule/shm.cpp:319-321. */
    method ShiftDown(deletionPoint: nat, next: nat, end: nat)
      requires deletionPoint <= next <= end <= data.Length
      modifies data
      ensures data[..] == ShiftedDown(old(data[..]), deletionPoint, end, next - deletionPoint)
    {
      var t := deletionPoint;
      var bytes := next - deletionPoint;
      while t + bytes < end
        invariant deletionPoint <= t && t + bytes <= end
        invariant forall k :: 0 <= k < deletionPoint ==> data[k] == old(data[k])
        invariant forall k :: deletionPoint <= k < t ==> data[k] == old(data[k + bytes])
        invariant forall k :: t <= k < data.Length ==> data[k] == old(data[k])
      {
        data[t] := data[t + bytes];
        t := t + 1;
      }
    }

    /** `ClearRules`. */
    method ClearRules() returns (ok: bool)
      requires Valid()
      modifies this`size
      ensures ok && Valid() && Rules() == [] && State() == old(State()).(size := 0)
    {
      size := 0;
      EncodeNone();
      RefinesIff(State(), []);
      HeldRules([]);
      ok := true;
    }

    /** `SetPolicy`. */
    method SetPolicy(p: Policy) returns (ok: bool)
      requires Valid()
      modifies this`policy
      ensures ok && Valid() && Rules() == old(Rules()) && State() == old(State()).(policy := p)
    {
      hide Refines, Decode;
      RefinesIgnoresPolicy(State(), Rules(), p);
      policy := p;
      ok := true;
    }

    /** `Evaluate`: first match over the packed bytes. */
    method Evaluate(x: Input) returns (decision: Decision)
      requires Valid() && ValidInput(x)
      ensures decision == Decide(Rules(), policy, x)
    {
      decision := EvaluateRules(x, Rules());
    }

    /** The loop of `Evaluate`. */
    method EvaluateRules(x: Input, ghost rs: seq<Rule>) returns (decision: Decision)
      requires Holds(rs) && ValidInput(x)
      ensures decision == Decide(rs, policy, x)
    {
      hide Refines, Cursor, Matches, Decide, Action, AllShaped;
      var t, i := 0, 0;
      CursorEnds(rs);
      DecideStep(rs, policy, x, 0);
      assert size == |rs| by { RefinesSize(State(), rs); }
      while i < size
        invariant 0 <= i <= |rs|
        invariant t == Cursor(rs, i)
        invariant AllShaped(rs[i..]) && Decide(rs, policy, x) == Decide(rs[i..], policy, x)
      {
        DecideStep(rs, policy, x, i);
        var r, next := Next(t, rs, i);
        t := next;
        i := i + 1;
        var passed := Tests(r, x);
        if passed {
          return Action(r);
        }
      }
      DecideStep(rs, policy, x, i);
      return PolicyAction(policy, x);
    }
  }

  /** The tests of `Evaluate` on one rule, in order; each failure is a `continue`. */
  method Tests(r: Rule, x: Input) returns (passed: bool)
    requires Shaped(r) && ValidInput(x)
    ensures passed <==> Matches(r, x)
  {
    if HasIp(r.ruleType) {
      if IsV4(r.ipd) != x.ipv4 {
        return false;
      }
      if (IsV4(r.ipd) && r.ipd[4..8] != x.ip[..4]) || (!IsV4(r.ipd) && r.ipd[4..] != x.ip) {
        return false;
      }
    }
    if HasEth(r.ruleType) && r.eth != x.eth {
      return false;
    }
    if r.actionType == REDIRECT && x.ipv4 != IsV4(r.target) {
      return false;
    }
    return true;
  }

  /** The loop that adds up sizes in `insertRules`. */
  method PackedSize(news: seq<Rule>) returns (bytes: nat)
    requires AllShaped(news)
    ensures bytes == |EncodeAll(news)|
  {
    hide EncodeAll, Encode, HasIp, HasEth, Cursor;
    bytes := 0;
    var i := 0;
    CursorEnds(news);
    while i < |news|
      invariant 0 <= i <= |news|
      invariant bytes == Cursor(news, i)
    {
      var r := news[i];
      CursorMonotone(news, i);
      assert Shaped(r);
      bytes := bytes + HEADER_SIZE;
      if HasIp(r.ruleType) {
        bytes := bytes + IP_SIZE;
      }
      if HasEth(r.ruleType) {
        bytes := bytes + ETH_SIZE;
      }
      if r.actionType == REDIRECT {
        bytes := bytes + IP_SIZE;
      }
      i := i + 1;
    }
  }

  /** The bytes after the shifting loop, position by position. */
  function ShiftedUp(d: seq<byte>, ip: nat, end: nat, w: nat): (r: seq<byte>)
    requires ip <= end && end + w < |d|
  {
    seq(|d|, k requires 0 <= k < |d| => if ip + w < k <= end + w then d[k - w] else d[k])
  }

  /** The bytes after the loop of `deleteRule`, position by position. */
  function ShiftedDown(d: seq<byte>, from: nat, end: nat, w: nat): (r: seq<byte>)
    requires from + w <= end <= |d|
  {
    seq(|d|, k requires 0 <= k < |d| => if from <= k < end - w then d[k + w] else d[k])
  }

  lemma {:induction false} DeleteBytesShift(d: seq<byte>, from: nat, to: nat, end: nat)
    requires from <= to <= end <= |d|
    ensures ShiftedDown(d, from, end, to - from) == DeleteBytes(d, from, to, end)
  {
  }

  lemma {:induction false} DecideStep(rs: seq<Rule>, p: Policy, x: Input, i: nat)
    requires AllShaped(rs) && ValidInput(x) && i <= |rs|
    ensures AllShaped(rs[i..]) && rs[0..] == rs
    ensures i < |rs| ==> Shaped(rs[i]) && AllShaped(rs[i + 1..])
    ensures Decide(rs[i..], p, x)
         == if i == |rs| then PolicyAction(p, x)
            else if Matches(rs[i], x) then Action(rs[i]) else Decide(rs[i + 1..], p, x)
  {
    hide Matches, Action, Shaped;
    if i < |rs| {
      assert rs[i..][1..] == rs[i + 1..];
    }
  }

  lemma {:induction false} InsertBytesSteps(d: seq<byte>, ip: nat, end: nat, s: seq<byte>)
    requires ip <= end && end + |s| < |d|
    ensures Overwrite(ShiftedUp(d, ip, end, |s|), ip, s) == InsertBytes(AsWritten, d, ip, end, s)
  {
  }

  lemma {:induction false} CursorEnds(rs: seq<Rule>)
    ensures Cursor(rs, 0) == 0 && Cursor(rs, |rs|) == |EncodeAll(rs)|
  {
    assert rs[..|rs|] == rs && rs[..0] == [];
  }

  lemma {:induction false} PrefixStep(rs: seq<Rule>, i: nat)
    requires AllShaped(rs) && i < |rs|
    ensures Shaped(rs[i])
    ensures EncodeAll(rs[..i + 1]) == EncodeAll(rs[..i]) + Encode(rs[i])
    ensures Cursor(rs, i) + |Encode(rs[i])| == Cursor(rs, i + 1) == |EncodeAll(rs[..i + 1])|
    ensures Cursor(rs, i + 1) <= |EncodeAll(rs)|
  {
    hide Encode;
    assert rs[..i + 1][..i] == rs[..i];
  }

  lemma {:induction false} ListDeleteShaped(rs: seq<Rule>, index: nat)
    requires AllShaped(rs)
    ensures AllShaped(ListDelete(rs, index))
  {
    hide Shaped;
  }

  lemma {:induction false} RefinesIgnoresPolicy(st: Store, rs: seq<Rule>, p: Policy)
    ensures Refines(st, rs) <==> Refines(st.(policy := p), rs)
  {
  }

  lemma {:induction false} RefinesSize(st: Store, rs: seq<Rule>)
    requires Refines(st, rs)
    ensures st.size == |rs|
  {
  }

  /** What `nextRule` finds at the cursor of rule `i`. */
  lemma {:induction false} NextRuleAt(d: seq<byte>, rs: seq<Rule>, i: nat)
    requires |d| == DATA_SIZE + 1 && AllShaped(rs) && i < |rs| && DecodesTo(d, 0, rs)
    ensures var t, r := Cursor(rs, i), rs[i];
            && t + Width(r.ruleType, r.actionType) <= |d|
            && DecodeWord(d, t) == r.ruleType && DecodeWord(d, t + 4) == r.actionType
            && r == Cut(d, t, r.ruleType, r.actionType)
            && Cursor(rs, i + 1) == t + Width(r.ruleType, r.actionType)
  {
    hide EncodeAll, Encode, DecodesTo;
    DecodeIff(d, 0, rs);
    var r := rs[i];
    assert Shaped(r);
    EncodeAllSplit(rs, i + 1);
    assert rs[..i + 1] == rs[..i] + [r];
    EncodeAllAppend(rs[..i], [r]);
    EncodeOne(r);
    AtAppend(d, 0, EncodeAll(rs[..i + 1]), EncodeAll(rs[i + 1..]));
    AtAppend(d, 0, EncodeAll(rs[..i]), Encode(r));
    NextRuleOfEncode(d, Cursor(rs, i), r);
  }
}

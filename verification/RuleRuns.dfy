/** What rules decide, and what holds over every run of the store's operations. */
module RuleMatch {
  import opened Bytes
  import opened RuleCodec
  import opened RuleStore

  /** The part of `Input` that rules look at: the query's family, and the client's addresses. */
  datatype Input = Input(ipv4: bool, eth: seq<byte>, ip: seq<byte>)

  /** Forward upstream, or answer with the given address. `NullTarget` stands for the null
      dereference of an action type that is neither of the two. */
  datatype Decision = Resolve | Redirect(target: seq<byte>) | NullTarget

  predicate ValidInput(x: Input) {
    |x.eth| == ETH_SIZE && |x.ip| == 16
  }

  predicate IsV4(ipd: seq<byte>)
    requires |ipd| == IP_SIZE
  {
    ipd[0] != 0
  }

  function Address(ipd: seq<byte>): seq<byte>
    requires |ipd| == IP_SIZE
  {
    ipd[4..]
  }

  predicate SameIp(ipd: seq<byte>, x: Input)
    requires |ipd| == IP_SIZE && ValidInput(x)
  {
    IsV4(ipd) == x.ipv4 && (if x.ipv4 then Address(ipd)[..4] == x.ip[..4] else Address(ipd) == x.ip)
  }

  /** The tests that lead to `continue` in `Evaluate`. */
  predicate Matches(r: Rule, x: Input)
    requires Shaped(r) && ValidInput(x)
  {
    && (HasIp(r.ruleType) ==> SameIp(r.ipd, x))
    && (HasEth(r.ruleType) ==> r.eth == x.eth)
    && (r.actionType == REDIRECT ==> IsV4(r.target) == x.ipv4)
  }

  function Action(r: Rule): Decision
    requires Shaped(r)
  {
    if r.actionType == DNS then Resolve
    else if r.actionType == REDIRECT then Redirect(Address(r.target))
    else NullTarget
  }

  function PolicyAction(p: Policy, x: Input): Decision {
    if p.action == DNS then Resolve else Redirect(if x.ipv4 then p.target4 else p.target6)
  }

  /** First match, else the policy. */
  function Decide(rs: seq<Rule>, p: Policy, x: Input): Decision
    requires AllShaped(rs) && ValidInput(x)
  {
    if rs == [] then PolicyAction(p, x)
    else if Matches(rs[0], x) then Action(rs[0])
    else Decide(rs[1..], p, x)
  }

  /** The decision `d` follows the policy: action 0 resolves, any other redirects to the target of
      the query's family. */
  predicate FollowsPolicy(d: Decision, p: Policy, x: Input) {
    && (p.action == Word(0, 0, 0, 0) ==> d == Resolve)
    && (p.action != Word(0, 0, 0, 0) && x.ipv4 ==> d == Redirect(p.target4))
    && (p.action != Word(0, 0, 0, 0) && !x.ipv4 ==> d == Redirect(p.target6))
  }

  /** The decision `d` follows the rule: action 0 resolves, action 1 redirects to the 16 octets
      behind the flag and padding of its target. */
  predicate FollowsRule(d: Decision, r: Rule)
    requires Shaped(r)
  {
    && (r.actionType == Word(0, 0, 0, 0) ==> d == Resolve)
    && (r.actionType == Word(1, 0, 0, 0) ==> |r.target| == 20 && d == Redirect(r.target[4..20]))
    && (r.actionType != Word(0, 0, 0, 0) && r.actionType != Word(1, 0, 0, 0) ==> d == NullTarget)
  }

  /** `Decide` is first match: rule `k` decides when it matches and none before it does. */
  lemma {:induction false} FirstMatchDecides(rs: seq<Rule>, p: Policy, x: Input, k: nat)
    requires AllShaped(rs) && ValidInput(x) && k <= |rs|
    requires forall j :: 0 <= j < k ==> !Matches(rs[j], x)
    ensures k == |rs| ==> Decide(rs, p, x) == PolicyAction(p, x) && FollowsPolicy(Decide(rs, p, x), p, x)
    ensures k < |rs| && Matches(rs[k], x) ==> Decide(rs, p, x) == Action(rs[k]) && FollowsRule(Decide(rs, p, x), rs[k])
    decreases k
  {
    if k > 0 {
      FirstMatchDecides(rs[1..], p, x, k - 1);
    } else if rs != [] {
      ActionFollows(rs[0]);
    }
  }

  lemma {:induction false} ActionFollows(r: Rule)
    requires Shaped(r)
    ensures FollowsRule(Action(r), r)
  {
    if |r.target| == 20 {
      assert r.target[4..20] == r.target[4..];
    }
  }

  /** Exactly one rule, or the policy, is responsible and is followed, and a redirect by a rule
      carries a target of the query's own family. */
  lemma {:induction false} DecisionSource(rs: seq<Rule>, p: Policy, x: Input) returns (k: nat)
    requires AllShaped(rs) && ValidInput(x)
    ensures k <= |rs|
    ensures forall j :: 0 <= j < k ==> !Matches(rs[j], x)
    ensures k == |rs| ==> Decide(rs, p, x) == PolicyAction(p, x) && FollowsPolicy(Decide(rs, p, x), p, x)
    ensures k < |rs| ==>
              Matches(rs[k], x) && Decide(rs, p, x) == Action(rs[k]) && FollowsRule(Decide(rs, p, x), rs[k])
    ensures k < |rs| && rs[k].actionType == Word(1, 0, 0, 0) ==>
              |rs[k].target| == 20 && (rs[k].target[0] != 0 <==> x.ipv4)
  {
    k := 0;
    while k < |rs| && !Matches(rs[k], x)
      invariant k <= |rs|
      invariant forall j :: 0 <= j < k ==> !Matches(rs[j], x)
    {
      k := k + 1;
    }
    FirstMatchDecides(rs, p, x, k);
  }

  // ---------------------------------------------------------------- rules made for a client

  /** The 20 octets of an IpAddressData: the flag, three octets of padding, the address. */
  function PackedIp(ipv4: bool, address: seq<byte>): (s: seq<byte>)
    requires |address| == 16
    ensures |s| == 20
  {
    [if ipv4 then 1 else 0, 0, 0, 0] + address
  }

  /** Same family, and the same 4 or 16 octets. */
  predicate SameAddress(x: Input, y: Input)
    requires ValidInput(x) && ValidInput(y)
  {
    x.ipv4 == y.ipv4 && (if x.ipv4 then x.ip[..4] == y.ip[..4] else x.ip == y.ip)
  }

  /** A rule made for client `y` matches exactly the queries with its address (type 0), its
      hardware address (type 1), or both (type 2). A redirecting rule matches only queries of
      its target's family, and answers with the target. */
  lemma {:induction false} RuleForClient(y: Input, x: Input, t: byte, v4: bool, target: seq<byte>)
    requires ValidInput(y) && ValidInput(x) && t <= 2 && |target| == 16
    ensures var r := Rule(Word(t, 0, 0, 0), Word(0, 0, 0, 0),
                          if t == 1 then [] else PackedIp(y.ipv4, y.ip), if t == 0 then [] else y.eth, []);
            var r' := r.(actionType := Word(1, 0, 0, 0), target := PackedIp(v4, target));
            && Shaped(r) && Shaped(r')
            && (Matches(r, x) <==> (t != 1 ==> SameAddress(x, y)) && (t != 0 ==> x.eth == y.eth))
            && (Matches(r', x) <==> Matches(r, x) && x.ipv4 == v4)
            && Action(r) == Resolve && Action(r') == Redirect(target)
  {
    assert PackedIp(y.ipv4, y.ip)[4..] == y.ip && PackedIp(v4, target)[4..] == target;
  }

  /** Appending changes the decision only where no existing rule matches. */
  lemma {:induction false} AppendOnlyExtends(rs: seq<Rule>, r: Rule, p: Policy, x: Input)
    requires AllShaped(rs) && Shaped(r) && ValidInput(x)
    ensures AllShaped(rs + [r])
    ensures (exists k :: 0 <= k < |rs| && Matches(rs[k], x)) ==> Decide(rs + [r], p, x) == Decide(rs, p, x)
    ensures !(exists k :: 0 <= k < |rs| && Matches(rs[k], x)) ==>
              Decide(rs + [r], p, x) == if Matches(r, x) then Action(r) else PolicyAction(p, x)
  {
    var k := DecisionSource(rs, p, x);
    var more := rs + [r];
    assert forall j :: 0 <= j < |rs| ==> more[j] == rs[j];
    if k < |rs| || Matches(r, x) {
      FirstMatchDecides(more, p, x, k);
    } else {
      FirstMatchDecides(more, p, x, k + 1);
    }
  }
}

module RuleRuns {
  import opened Bytes
  import opened RuleCodec
  import opened RuleStore

  datatype Op =
    | Append(rule: Rule)
    | InsertAt(rule: Rule, index: nat)
    | DeleteAt(index: nat)
    | Clear
    | SetPolicy(policy: Policy)

  /** The specification: a plain list of rules and a policy. */
  datatype RuleList = RuleList(rules: seq<Rule>, policy: Policy)

  predicate OpShaped(op: Op) {
    (op.Append? || op.InsertAt?) ==> Shaped(op.rule)
  }

  ghost predicate Good(l: RuleList) {
    AllShaped(l.rules) && |EncodeAll(l.rules)| <= DATA_SIZE
  }

  ghost predicate Implements(st: Store, l: RuleList) {
    AllShaped(l.rules) && Refines(st, l.rules) && st.policy == l.policy
  }

  function ListApply(l: RuleList, op: Op): RuleList {
    match op
    case Append(r) => l.(rules := ListInsert(l.rules, [r], |l.rules|))
    case InsertAt(r, i) => l.(rules := ListInsert(l.rules, [r], i))
    case DeleteAt(i) => l.(rules := ListDelete(l.rules, i))
    case Clear => l.(rules := [])
    case SetPolicy(p) => l.(policy := p)
  }

  /** One operation on the bytes of a store that implements `l`. */
  /** What the operations do to list and policy: a rule that does not fit into 8192 octets, or an
      index past the end, changes nothing. */
  lemma {:induction false} OperationsMean(l: RuleList, r: Rule, i: nat, p: Policy)
    ensures var fits := |EncodeAll(l.rules)| + |Encode(r)| <= 8192;
            && ListApply(l, Append(r)) == (if fits then RuleList(l.rules + [r], l.policy) else l)
            && ListApply(l, InsertAt(r, i))
            == (if fits && i <= |l.rules| then RuleList(l.rules[..i] + [r] + l.rules[i..], l.policy) else l)
    ensures ListApply(l, DeleteAt(i)) == if i < |l.rules| then RuleList(l.rules[..i] + l.rules[i + 1..], l.policy) else l
    ensures ListApply(l, Clear) == RuleList([], l.policy) && ListApply(l, SetPolicy(p)) == RuleList(l.rules, p)
  {
    hide Encode, EncodeAll;
    EncodeOne(r);
    var n := |l.rules|;
    assert l.rules[..n] == l.rules && l.rules[n..] == [] && l.rules + [r] + [] == l.rules + [r];
  }

  function Apply(shift: Shift, st: Store, l: RuleList, op: Op): Store
    requires |st.data| == DATA_SIZE + 1 && st.size == |l.rules| && |EncodeAll(l.rules)| <= DATA_SIZE
  {
    match op
    case Append(r) => Insert(shift, st, l.rules, [r], |l.rules|)
    case InsertAt(r, i) => Insert(shift, st, l.rules, [r], i)
    case DeleteAt(i) => Delete(st, l.rules, i)
    case Clear => st.(size := 0)
    case SetPolicy(p) => st.(policy := p)
  }

  predicate StepSafe(shift: Shift, st: Store, l: RuleList, op: Op)
    requires |st.data| == DATA_SIZE + 1
  {
    op.InsertAt? && Fits(l.rules, [op.rule], op.index) ==>
      SeamOk(shift, st.data, l.rules, [op.rule], op.index)
  }

  lemma {:induction false} StepImplements(shift: Shift, st: Store, l: RuleList, op: Op)
    requires Implements(st, l) && OpShaped(op)
    ensures Implements(Apply(shift, st, l, op), ListApply(l, op)) <==> StepSafe(shift, st, l, op)
    ensures Good(ListApply(l, op))
  {
    hide EncodeAll, DecodesTo, InsertBytes, DeleteBytes, Shaped;
    RefinesIff(st, l.rules);
    var l' := ListApply(l, op);
    match op
    case Append(r) =>
      InsertRefines(shift, st, l.rules, [r], |l.rules|);
      EncodeThree(l.rules, [r], []);
      ListInsertGood(l, r, |l.rules|);
    case InsertAt(r, i) =>
      InsertRefines(shift, st, l.rules, [r], i);
      ListInsertGood(l, r, i);
    case DeleteAt(i) =>
      DeleteRefines(st, l.rules, i);
    case Clear =>
      EncodeNone();
      RefinesIff(st.(size := 0), []);
    case SetPolicy(p) =>
  }

  lemma {:induction false} ListInsertGood(l: RuleList, r: Rule, i: nat)
    requires Good(l) && Shaped(r)
    ensures Good(l.(rules := ListInsert(l.rules, [r], i)))
  {
    hide EncodeAll, Shaped;
    if Fits(l.rules, [r], i) {
      EncodeAllSplit(l.rules, i);
      EncodeThree(l.rules[..i], [r], l.rules[i..]);
    }
  }

  /** After every prefix of the run the bytes decode to what the list operations give. */
  ghost predicate RunImplements(shift: Shift, st: Store, l: RuleList, ops: seq<Op>)
    requires forall op :: op in ops ==> OpShaped(op)
    decreases |ops|
  {
    && Implements(st, l)
    && (ops != [] ==> RunImplements(shift, Apply(shift, st, l, ops[0]), ListApply(l, ops[0]), ops[1..]))
  }

  /** Every insertion of the run meets the seam condition at its turn. */
  ghost predicate RunSafe(shift: Shift, st: Store, l: RuleList, ops: seq<Op>)
    requires |st.data| == DATA_SIZE + 1 && st.size == |l.rules| && |EncodeAll(l.rules)| <= DATA_SIZE
    requires forall op :: op in ops ==> OpShaped(op)
    decreases |ops|
  {
    ops != [] ==>
      && StepSafe(shift, st, l, ops[0])
      && var st', l' := Apply(shift, st, l, ops[0]), ListApply(l, ops[0]);
         |st'.data| == DATA_SIZE + 1 && st'.size == |l'.rules| && |EncodeAll(l'.rules)| <= DATA_SIZE
         && RunSafe(shift, st', l', ops[1..])
  }

  /** The store refines the list over a whole run exactly when every insertion is safe. */
  lemma {:induction false} RunIff(shift: Shift, st: Store, l: RuleList, ops: seq<Op>)
    requires Implements(st, l)
    requires forall op :: op in ops ==> OpShaped(op)
    ensures RunImplements(shift, st, l, ops) <==> RunSafe(shift, st, l, ops)
    decreases |ops|
  {
    hide EncodeAll, DecodesTo, Shaped, Apply, ListApply, StepSafe;
    if ops != [] {
      StepImplements(shift, st, l, ops[0]);
      if StepSafe(shift, st, l, ops[0]) {
        RunIff(shift, Apply(shift, st, l, ops[0]), ListApply(l, ops[0]), ops[1..]);
      } else {
        RunFirst(shift, st, l, ops);
      }
    }
  }

  lemma {:induction false} RunFirst(shift: Shift, st: Store, l: RuleList, ops: seq<Op>)
    requires ops != [] && forall op :: op in ops ==> OpShaped(op)
    ensures RunImplements(shift, st, l, ops) ==> Implements(Apply(shift, st, l, ops[0]), ListApply(l, ops[0]))
  {
    hide EncodeAll, DecodesTo, Shaped, Apply, ListApply;
    if RunImplements(shift, st, l, ops) {
      assert RunImplements(shift, Apply(shift, st, l, ops[0]), ListApply(l, ops[0]), ops[1..]);
    }
  }

  function EmptyStore(d: seq<byte>): Store {
    Store(d, 0, Policy(DNS, Repeat(0, 16), Repeat(0, 16)))
  }

  lemma {:induction false} EmptyImplements(d: seq<byte>)
    requires |d| == DATA_SIZE + 1
    ensures Implements(EmptyStore(d), RuleList([], EmptyStore(d).policy))
  {
    hide Repeat;
    EncodeNone();
    RefinesIff(EmptyStore(d), []);
  }

  /** With the intended shift every run refines the list. */
  lemma {:induction false} IntendedRunsImplement(st: Store, l: RuleList, ops: seq<Op>)
    requires Implements(st, l)
    requires forall op :: op in ops ==> OpShaped(op)
    ensures RunImplements(Intended, st, l, ops)
    decreases |ops|
  {
    hide EncodeAll, DecodesTo, Shaped, Apply, ListApply;
    if ops != [] {
      StepImplements(Intended, st, l, ops[0]);
      IntendedRunsImplement(Apply(Intended, st, l, ops[0]), ListApply(l, ops[0]), ops[1..]);
    }
  }

  /** Runs without insertion before the end, as `AppendRule` and loading a file make them. */
  lemma {:induction false} AppendRunsImplement(st: Store, l: RuleList, ops: seq<Op>)
    requires Implements(st, l)
    requires forall op :: op in ops ==> OpShaped(op) && !op.InsertAt?
    ensures RunImplements(AsWritten, st, l, ops)
    decreases |ops|
  {
    hide EncodeAll, DecodesTo, Shaped, Apply, ListApply;
    if ops != [] {
      StepImplements(AsWritten, st, l, ops[0]);
      AppendRunsImplement(Apply(AsWritten, st, l, ops[0]), ListApply(l, ops[0]), ops[1..]);
    }
  }

  /** From an empty store, whatever its bytes: with the intended shift every run refines the
      list; as written exactly the runs whose insertions are safe, among them all that only
      append, delete, clear and set the policy. */
  lemma {:induction false} RunsFromEmpty(d: seq<byte>, ops: seq<Op>)
    requires |d| == DATA_SIZE + 1 && forall op :: op in ops ==> OpShaped(op)
    ensures var st := EmptyStore(d);
            var l := RuleList([], st.policy);
            && Implements(st, l)
            && RunImplements(Intended, st, l, ops)
            && (RunImplements(AsWritten, st, l, ops) <==> RunSafe(AsWritten, st, l, ops))
            && ((forall op :: op in ops ==> !op.InsertAt?) ==> RunSafe(AsWritten, st, l, ops))
  {
    hide EncodeAll, DecodesTo, Shaped, Apply, ListApply, RunImplements, RunSafe;
    var st := EmptyStore(d);
    var l := RuleList([], st.policy);
    EmptyImplements(d);
    IntendedRunsImplement(st, l, ops);
    RunIff(AsWritten, st, l, ops);
    if forall op :: op in ops ==> !op.InsertAt? {
      AppendRunsImplement(st, l, ops);
    }
  }

  /** Some list is what the store decodes to after the insertion, and deleting at `index` then
      restores the live bytes and the count. */
  ghost predicate DeletionRestores(st: Store, mid: Store, rs: seq<Rule>, index: nat, rs': seq<Rule>) {
    && AllShaped(rs') && Refines(mid, rs')
    && var back := Delete(mid, rs', index);
       back.size == st.size && back.policy == st.policy && At(back.data, 0, EncodeAll(rs))
  }

  /** Inserting at `index` and deleting there restores the live bytes and the count exactly
      when the seam was right. */
  lemma {:induction false} InsertThenDelete(shift: Shift, st: Store, rs: seq<Rule>, r: Rule, index: nat)
    requires Refines(st, rs) && AllShaped(rs) && Shaped(r) && Fits(rs, [r], index)
    ensures SeamOk(shift, st.data, rs, [r], index)
            <==> exists rs' :: DeletionRestores(st, Insert(shift, st, rs, [r], index), rs, index, rs')
  {
    hide EncodeAll, DecodesTo, Shaped, Insert, DeletionRestores, SeamOk;
    if SeamOk(shift, st.data, rs, [r], index) {
      SafeDeletionRestores(shift, st, rs, r, index);
    }
    if rs' :| DeletionRestores(st, Insert(shift, st, rs, [r], index), rs, index, rs') {
      if !SeamOk(shift, st.data, rs, [r], index) {
        UnsafeDeletionFails(shift, st, rs, r, index, rs');
      }
    }
  }

  lemma {:induction false} SafeDeletionRestores(shift: Shift, st: Store, rs: seq<Rule>, r: Rule, index: nat)
    requires Refines(st, rs) && AllShaped(rs) && Shaped(r) && Fits(rs, [r], index)
    requires SeamOk(shift, st.data, rs, [r], index)
    ensures DeletionRestores(st, Insert(shift, st, rs, [r], index), rs, index, ListInsert(rs, [r], index))
  {
    hide EncodeAll, InsertBytes, DeleteBytes, DecodesTo, Shaped;
    var mid, rs' := Insert(shift, st, rs, [r], index), ListInsert(rs, [r], index);
    InsertRefines(shift, st, rs, [r], index);
    DeleteRefines(mid, rs', index);
    assert ListDelete(rs', index) == rs;
    RefinesIff(Delete(mid, rs', index), rs);
  }

  lemma {:induction false} UnsafeDeletionFails(shift: Shift, st: Store, rs: seq<Rule>, r: Rule, index: nat, rs': seq<Rule>)
    requires Refines(st, rs) && AllShaped(rs) && Shaped(r) && Fits(rs, [r], index)
    requires !SeamOk(shift, st.data, rs, [r], index)
    ensures !DeletionRestores(st, Insert(shift, st, rs, [r], index), rs, index, rs')
  {
    hide EncodeAll, InsertBytes, DeleteBytes, DecodesTo, Shaped, At;
    var mid := Insert(shift, st, rs, [r], index);
    if AllShaped(rs') && Refines(mid, rs') {
      UnsafeInsertLeavesSeam(st, rs, r, index, rs');
      RefinesIff(st, rs);
      CursorBeforeEnd(rs, index);
      SameStart(st.data, Delete(mid, rs', index).data, EncodeAll(rs), Cursor(rs, index));
    }
  }

  lemma {:induction false} SameStart(d: seq<byte>, d': seq<byte>, s: seq<byte>, k: nat)
    requires At(d, 0, s) && k < |s|
    ensures At(d', 0, s) ==> d'[k] == d[k]
  {
    AtIndex(d, 0, s, k);
    if At(d', 0, s) {
      AtIndex(d', 0, s, k);
    }
  }

  lemma {:induction false} UnsafeInsertLeavesSeam(st: Store, rs: seq<Rule>, r: Rule, index: nat, rs': seq<Rule>)
    requires Refines(st, rs) && AllShaped(rs) && Shaped(r) && Fits(rs, [r], index) && index < |rs|
    requires AllShaped(rs') && Refines(Insert(AsWritten, st, rs, [r], index), rs')
    ensures var back := Delete(Insert(AsWritten, st, rs, [r], index), rs', index);
            back.data[Cursor(rs, index)] == st.data[Cursor(rs, index) + |EncodeAll([r])|]
  {
    hide EncodeAll, DecodesTo, Insert, Shaped, DeleteBytes, At, Cursor;
    var mid := Insert(AsWritten, st, rs, [r], index);
    InsertedStore(st, rs, r, index);
    RefinesIff(mid, rs');
    CursorsOfPrefix(mid.data, rs', rs[..index], r);
    DeletedByte(mid.data, Cursor(rs', index), Cursor(rs', index + 1), |EncodeAll(rs')|);
  }

  /** The store after the insertion: front and new rule are in place, the byte behind is not moved. */
  lemma {:induction false} InsertedStore(st: Store, rs: seq<Rule>, r: Rule, index: nat)
    requires Refines(st, rs) && AllShaped(rs) && Shaped(r) && Fits(rs, [r], index) && index < |rs|
    ensures var mid, to := Insert(AsWritten, st, rs, [r], index), Cursor(rs, index) + |EncodeAll([r])|;
            && |mid.data| == |st.data| == DATA_SIZE + 1 && mid.size == |rs| + 1 && to < |st.data|
            && Cursor(rs, index) == |EncodeAll(rs[..index])|
            && At(mid.data, 0, EncodeAll(rs[..index]) + EncodeAll([r]))
            && mid.data[to] == st.data[to]
  {
    hide EncodeAll, DecodesTo, Shaped, InsertBytes, At;
    RefinesIff(st, rs);
    CursorBeforeEnd(rs, index);
    EncodeAllSplit(rs, index);
    InsertedBytes(st.data, EncodeAll(rs[..index]), EncodeAll([r]), EncodeAll(rs[index..]));
  }

  lemma {:induction false} CursorsOfPrefix(d: seq<byte>, rs: seq<Rule>, front: seq<Rule>, r: Rule)
    requires AllShaped(rs) && AllShaped(front) && Shaped(r) && |front| + 1 < |rs|
    requires At(d, 0, EncodeAll(rs)) && At(d, 0, EncodeAll(front) + EncodeAll([r]))
    ensures var n := |front|;
            && Cursor(rs, n) == |EncodeAll(front)|
            && Cursor(rs, n + 1) == |EncodeAll(front)| + |EncodeAll([r])| < |EncodeAll(rs)|
  {
    hide EncodeAll, Shaped, At;
    var n := |front|;
    EncodeAllAppend(front, [r]);
    SharedPrefix(d, rs, front + [r]);
    assert rs[..n + 1] == front + [r] && rs[..n] == front;
    CursorBeforeEnd(rs, n);
    CursorBeforeEnd(rs, n + 1);
  }

  lemma {:induction false} InsertedBytes(d: seq<byte>, a: seq<byte>, s: seq<byte>, c: seq<byte>)
    requires At(d, 0, a + c) && c != [] && |a + c| + |s| < |d|
    ensures var r := InsertBytes(AsWritten, d, |a|, |a + c|, s);
            At(r, 0, a + s) && r[|a| + |s|] == d[|a| + |s|]
  {
    var r := InsertBytes(AsWritten, d, |a|, |a + c|, s);
    AtAppend(d, 0, a, c);
    assert r[..|a|] == a && r[|a|..|a| + |s|] == s;
    AtAppend(r, 0, a, s);
  }

  lemma {:induction false} DeletedByte(d: seq<byte>, from: nat, to: nat, end: nat)
    requires from <= to < end <= |d|
    ensures DeleteBytes(d, from, to, end)[from] == d[to]
  {
  }

  /** Rules packed at the start of the bytes are the first rules the walk meets. */
  lemma {:induction false} SharedPrefix(d: seq<byte>, rs: seq<Rule>, front: seq<Rule>)
    requires AllShaped(rs) && AllShaped(front) && |front| <= |rs|
    requires At(d, 0, EncodeAll(rs)) && At(d, 0, EncodeAll(front))
    ensures rs[..|front|] == front
  {
    hide EncodeAll, Decode;
    var n := |front|;
    DecodeIff(d, 0, front);
    EncodeAllSplit(rs, n);
    AtAppend(d, 0, EncodeAll(rs[..n]), EncodeAll(rs[n..]));
    DecodeIff(d, 0, rs[..n]);
  }

  /** The loop as written loses a rule: a host rule for 192.168.1.1 becomes a rule of another
      type when a rule for a hardware address is inserted in front of it. */
  lemma {:induction false} InsertionLosesARule() returns (st: Store, a: Rule, b: Rule)
    ensures Shaped(a) && Shaped(b)
    ensures Refines(st, [a]) && Fits([a], [b], 0)
    ensures !Refines(Insert(AsWritten, st, [a], [b], 0), [b, a])
  {
    hide EncodeAll, InsertBytes, DecodesTo, Encode, Repeat;
    var ip: seq<byte> := [1, 0, 0, 0, 192, 168, 1, 1];
    a := Rule(IP_ADDRESS, DNS, ip + Repeat(0, 12), [], []);
    b := Rule(ETH_ADDRESS, DNS, [], Repeat(0, 6), []);
    EncodeOne(a);
    EncodeOne(b);
    st := Store(Encode(a) + Repeat(0, DATA_SIZE + 1 - 28), 1, Policy(DNS, Repeat(0, 16), Repeat(0, 16)));
    RefinesIff(st, [a]);
    InsertRefines(AsWritten, st, [a], [b], 0);
    EncodeNone();
    assert [a][..0] == [];
    HeaderByte(a);
    IpByte(a, 6);
    assert ListInsert([a], [b], 0) == [b, a];
  }

  lemma {:induction false} HeaderByte(r: Rule)
    ensures Encode(r)[0] == r.ruleType.b0
  {
  }

  lemma {:induction false} IpByte(r: Rule, k: nat)
    requires k < |r.ipd|
    ensures |Encode(r)| > HEADER_SIZE + k && Encode(r)[HEADER_SIZE + k] == r.ipd[k]
  {
  }

  lemma {:induction false} EncodeCopies(r: Rule, n: nat)
    ensures |EncodeAll(Repeat(r, n))| == n * |Encode(r)|
  {
    hide Encode;
    if n > 0 {
      EncodeCopies(r, n - 1);
      assert Repeat(r, n)[..n - 1] == Repeat(r, n - 1);
      assert n * |Encode(r)| == (n - 1) * |Encode(r)| + |Encode(r)|;
    }
  }

  /** The loop as written stores behind the array: five rules of 34 bytes and 572 of 14 are held,
      and one more of 14, inserted in front, fills the 8192 bytes. */
  lemma {:induction false} InsertionSpills() returns (st: Store, rs: seq<Rule>, r: Rule)
    ensures AllShaped(rs) && Shaped(r) && Refines(st, rs) && Fits(rs, [r], 0)
    ensures Insert(AsWritten, st, rs, [r], 0).data[DATA_SIZE] != st.data[DATA_SIZE]
  {
    hide EncodeAll, Insert, DecodesTo, Encode;
    var both := Rule(IP_AND_ETH_ADDRESS, DNS, Repeat(0, 20), Repeat(0, 6), []);
    r := Rule(ETH_ADDRESS, DNS, [], Repeat(0, 6), []);
    var five, many := Repeat(both, 5), Repeat(r, 572);
    rs := five + many;
    EncodeCopies(both, 5);
    EncodeCopies(r, 572);
    EncodeAllAppend(five, many);
    EncodeOne(r);
    assert |EncodeAll(rs)| == 8178 && |EncodeAll([r])| == 14;
    st := Store(EncodeAll(rs) + [1] + Repeat(0, 14), |rs|, Policy(DNS, Repeat(0, 16), Repeat(0, 16)));
    RefinesIff(st, rs);
    ByteBehind(AsWritten, st, rs, [r], 0);
  }
}

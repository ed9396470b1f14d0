/** What holds over every run of the forwarder. */
module ServerRuns {
  import opened Bytes
  import opened Packets
  import opened PeerTable
  import opened ServerStep

  // ---------------------------------------------------------------- clients and history

  ghost predicate IsClient(t: Table, i: int, a: int) {
    0 <= i < |t.records| && 0 <= a < |Clients(t.records[i])|
  }

  function ClientAt(t: Table, i: int, a: int): Source
    requires IsClient(t, i, a)
  {
    Clients(t.records[i])[a]
  }

  /** Client `c` registered with the query of its step, which had this digest. */
  ghost predicate FromQuery(events: seq<Event>, c: Source, digest: Digest) {
    && c.token < |events|
    && var e := events[c.token];
       e.Query? && e.endpoint == c.endpoint && e.ipv4 == c.ipv4 && e.packet.header.id == c.originalId
       && e.digest == digest
  }

  // ---------------------------------------------------------------- packets, field by field

  /** Everything but the ID and the second flag octet. */
  predicate SameRest(p: Packet, q: Packet) {
    && p.header.hb3 == q.header.hb3
    && p.header.questionCount == q.header.questionCount && p.header.answerCount == q.header.answerCount
    && p.header.authorityCount == q.header.authorityCount && p.header.additionalCount == q.header.additionalCount
    && p.questions == q.questions && p.answers == q.answers
    && p.authorities == q.authorities && p.additionals == q.additionals
  }

  /** `p` is `q` under the ID `id`. */
  predicate IsUnder(p: Packet, q: Packet, id: u16) {
    p.header.id == id && p.header.hb4 == q.header.hb4 && SameRest(p, q)
  }

  /** `p` is `q` under the ID `id` and with the bit for available recursion, the highest of the
      second flag octet, set. */
  predicate IsAnswerUnder(p: Packet, q: Packet, id: u16) {
    p.header.id == id && p.header.hb4 >= 128 && p.header.hb4 % 128 == q.header.hb4 % 128 && SameRest(p, q)
  }

  /** `p` is `q` with the bits of the response code 5, refused, set. */
  predicate IsRefused(p: Packet, q: Packet) {
    && p.header.id == q.header.id
    && p.header.hb4 % 2 == 1 && p.header.hb4 / 2 % 2 == q.header.hb4 / 2 % 2
    && p.header.hb4 / 4 % 2 == 1 && p.header.hb4 / 8 == q.header.hb4 / 8
    && SameRest(p, q)
  }

  lemma {:induction false} PacketFields(p: Packet, id: u16)
    ensures IsUnder(WithId(p, id), p, id)
    ensures IsAnswerUnder(WithId(WithRecursionAvailable(p), id), p, id)
    ensures IsRefused(Refused(p), p)
  {
    hide SetBit0, SetBit2, SetBit7;
    RefusedBits(p.header.hb4);
  }

  lemma {:induction false} RefusedBits(b: byte)
    ensures var r := SetBit0(SetBit2(b));
            r % 2 == 1 && r / 2 % 2 == b / 2 % 2 && r / 4 % 2 == 1 && r / 8 == b / 8
  {
    var q, y := b / 8, b / 2 % 2;
    Bits(b);
    hide SetBit0, SetBit2;
    var r := SetBit0(SetBit2(b));
    assert r == 8 * q + 2 * y + 5;
    FiveBits(q, y);
  }

  lemma {:induction false} Bits(b: byte)
    ensures b % 4 == 2 * (b / 2 % 2) + b % 2 && SetBit0(SetBit2(b)) == b / 8 * 8 + (2 + b / 2 % 2) * 2 + 1
  {
    var y, z := b / 2 % 2, b % 2;
    assert b % 4 == 2 * y + z;
    var m := SetBit2(b);
    assert m == 2 * (b / 8 * 4 + 2 + y) + z;
    assert m / 2 == b / 8 * 4 + 2 + y;
  }

  lemma {:induction false} FiveBits(q: nat, y: nat)
    requires y <= 1
    ensures var r := 8 * q + 2 * y + 5;
            r % 2 == 1 && r / 2 % 2 == y && r / 4 % 2 == 1 && r / 8 == q
  {
    var r := 8 * q + 2 * y + 5;
    Half(4 * q + 2 + y, 1);
    Half(2 * q + 1, y);
    Half(q, 1);
    Quarter(r);
    Quarter(r / 2);
    assert r / 8 == r / 2 / 4;
  }

  /** The answer `o` goes to the client of the query of step `o.token`, carries that client's
      own ID, and is the response of step `o.step`, whose digest is that of the query. */
  ghost predicate RightAnswer(events: seq<Event>, o: Output)
    requires o.Answer?
  {
    && o.token < o.step < |events|
    && events[o.token].Query? && events[o.step].Response?
    && var q, r := events[o.token], events[o.step];
       && o.endpoint == q.endpoint && o.ipv4 == q.ipv4
       && o.digest == q.digest == r.digest
       && IsAnswerUnder(o.packet, r.packet, q.packet.header.id)
  }

  /** The refusal `o` goes back to the client of the query of step `o.token`, with its packet. */
  ghost predicate RightRefusal(events: seq<Event>, o: Output)
    requires o.Refusal?
  {
    && o.token < |events| && events[o.token].Query?
    && var q := events[o.token];
       o.endpoint == q.endpoint && o.ipv4 == q.ipv4 && IsRefused(o.packet, q.packet)
  }

  /** What a client gets. */
  predicate IsReply(o: Output) {
    o.Refusal? || o.Answer?
  }

  ghost predicate RightReply(events: seq<Event>, o: Output)
    requires IsReply(o)
  {
    if o.Answer? then RightAnswer(events, o) else RightRefusal(events, o)
  }

  ghost predicate Registered(t: Table, events: seq<Event>) {
    forall i, a :: IsClient(t, i, a) ==> FromQuery(events, ClientAt(t, i, a), t.records[i].hash)
  }

  ghost predicate TokensDistinct(t: Table) {
    forall i, a, j, b ::
      IsClient(t, i, a) && IsClient(t, j, b) && ClientAt(t, i, a).token == ClientAt(t, j, b).token ==>
        i == j && a == b
  }

  ghost predicate RepliesRight(outs: seq<Output>, events: seq<Event>) {
    forall m :: 0 <= m < |outs| && IsReply(outs[m]) ==> RightReply(events, outs[m])
  }

  /** No query has two replies, be they answers or refusals. */
  ghost predicate RepliesOnce(outs: seq<Output>) {
    forall m, n :: 0 <= m < n < |outs| && IsReply(outs[m]) && IsReply(outs[n]) ==> outs[m].token != outs[n].token
  }

  /** The queries with which waiting clients registered have had no reply. */
  ghost predicate WaitingUnanswered(t: Table, outs: seq<Output>) {
    forall i, a, m :: IsClient(t, i, a) && 0 <= m < |outs| && IsReply(outs[m]) ==>
                        ClientAt(t, i, a).token != outs[m].token
  }

  ghost predicate History(t: Table, outs: seq<Output>, events: seq<Event>) {
    && Registered(t, events)
    && TokensDistinct(t)
    && RepliesRight(outs, events)
    && RepliesOnce(outs)
    && WaitingUnanswered(t, outs)
  }

  /** What holds after the steps `events`. */
  ghost predicate Inv(s: State, events: seq<Event>) {
    && s.steps == |events|
    && TableInv(s.table)
    && History(s.table, s.outputs, events)
  }

  // ---------------------------------------------------------------- history lemmas

  /** Every client of `u` was already a client of `t`, on the same record. */
  ghost predicate Shrinks(t: Table, u: Table) {
    forall i, a :: IsClient(u, i, a) ==>
                     IsClient(t, i, a) && ClientAt(u, i, a) == ClientAt(t, i, a) && u.records[i].hash == t.records[i].hash
  }

  ghost predicate NoReplies(outs: seq<Output>) {
    forall m :: 0 <= m < |outs| ==> !IsReply(outs[m])
  }

  /** Dropping clients and sending packets to servers keeps the history. */
  lemma {:induction false} HistoryShrink(t: Table, u: Table, outs: seq<Output>, more: seq<Output>, events: seq<Event>)
    requires History(t, outs, events) && Shrinks(t, u) && NoReplies(more)
    ensures History(u, outs + more, events)
  {
    hide IsClient, ClientAt;
    assert forall m :: 0 <= m < |outs + more| && IsReply((outs + more)[m]) ==> m < |outs| && (outs + more)[m] == outs[m];
  }

  lemma {:induction false} HistoryLater(t: Table, outs: seq<Output>, events: seq<Event>, e: Event)
    requires History(t, outs, events)
    ensures History(t, outs, events + [e])
  {
    hide IsClient, ClientAt;
    assert forall k :: 0 <= k < |events| ==> (events + [e])[k] == events[k];
  }

  /** Refusing a query is a right reply and the only one to it. */
  lemma {:induction false} HistoryRefuse(t: Table, outs: seq<Output>, events: seq<Event>, e: Event)
    requires History(t, outs, events) && e.Query?
    ensures History(t, outs + [Refusal(e.endpoint, e.ipv4, Refused(e.packet), |events|)], events + [e])
  {
    hide IsClient, ClientAt, Refused, IsRefused;
    HistoryLater(t, outs, events, e);
    var o := Refusal(e.endpoint, e.ipv4, Refused(e.packet), |events|);
    PacketFields(e.packet, 0);
    assert RightRefusal(events + [e], o);
    assert forall i, a :: IsClient(t, i, a) ==> ClientAt(t, i, a).token < |events|;
    assert forall m :: 0 <= m < |outs| && IsReply(outs[m]) ==> RightReply(events, outs[m]) && outs[m].token < |events|;
  }

  /** The clients of `u` other than the one at `(x, y)` were clients of `t`. */
  ghost predicate ShrinksBut(t: Table, u: Table, x: int, y: int) {
    forall i, a :: IsClient(u, i, a) && (i, a) != (x, y) ==>
                     IsClient(t, i, a) && ClientAt(u, i, a) == ClientAt(t, i, a) && u.records[i].hash == t.records[i].hash
  }

  /** Adding one client, at `(x, y)`, that registers with this step. */
  lemma {:induction false} HistoryAdd(t: Table, u: Table, outs: seq<Output>, more: seq<Output>, events: seq<Event>, e: Event,
                                      x: int, y: int)
    requires History(t, outs, events) && NoReplies(more)
    requires IsClient(u, x, y) && ClientAt(u, x, y).token == |events|
    requires FromQuery(events + [e], ClientAt(u, x, y), u.records[x].hash)
    requires ShrinksBut(t, u, x, y)
    ensures History(u, outs + more, events + [e])
  {
    hide IsClient, ClientAt;
    HistoryLater(t, outs, events, e);
    assert forall m :: 0 <= m < |outs + more| && IsReply((outs + more)[m]) ==> m < |outs| && (outs + more)[m] == outs[m];
    assert forall i, a :: IsClient(u, i, a) && (i, a) != (x, y) ==> ClientAt(u, i, a).token < |events|;
  }

  /** A record whose clients are among the first of the record it replaces. */
  lemma {:induction false} ShrinksReplace(t: Table, u: Table, i: nat, r: Request)
    requires i < |t.records| && u.records == t.records[i := r]
    requires InFlight(r) ==> Clients(r) <= Clients(t.records[i]) && r.hash == t.records[i].hash
    ensures Shrinks(t, u)
  {
  }

  // ---------------------------------------------------------------- queries

  lemma {:induction false} QuietStep(s: State, u: State, more: seq<Output>, events: seq<Event>, e: Event)
    requires Inv(s, events) && TableInv(u.table) && Shrinks(s.table, u.table) && NoReplies(more)
    requires u.outputs == s.outputs + more && u.steps == s.steps + 1
    ensures Inv(u, events + [e])
  {
    hide TableInv, Shrinks, Registered, TokensDistinct, RepliesRight, RepliesOnce, WaitingUnanswered;
    HistoryShrink(s.table, u.table, s.outputs, more, events);
    HistoryLater(u.table, u.outputs, events, e);
  }

  lemma {:induction false} RefuseKeeps(s: State, e: Event, events: seq<Event>)
    requires Inv(s, events) && e.Query?
    ensures Inv(Refuse(s, e).(steps := s.steps + 1), events + [e])
  {
    hide TableInv, Registered, TokensDistinct, RepliesRight, RepliesOnce, WaitingUnanswered, Refused;
    HistoryRefuse(s.table, s.outputs, events, e);
  }

  lemma {:induction false} SameKeeps(s: State, e: Event, events: seq<Event>)
    requires Inv(s, events)
    ensures Inv(s.(steps := s.steps + 1), events + [e])
  {
    QuietStep(s, s.(steps := s.steps + 1), [], events, e);
  }

  lemma {:induction false} AttachKeeps(t: Table, i: nat, c: Source)
    requires TableInv(t) && i < |t.records| && InFlight(t.records[i]) && GetNewPeerSource(t).1
    requires !Waiting(t.records[i], c)
    ensures var r := t.records[i];
            TableInv(GetNewPeerSource(t).0.(records := t.records[i := r.(chain := r.chain + [c])]))
  {
    hide TableInv;
    var r := t.records[i];
    var r' := r.(chain := r.chain + [c]);
    assert Clients(r') == Clients(r) + [c];
    TableFacts(t, i);
    ReplaceKeeps(t, GetNewPeerSource(t).0.(records := t.records[i := r']), i, r');
  }

  lemma {:induction false} TableFacts(t: Table, i: nat)
    requires TableInv(t) && i < |t.records|
    ensures RecordOk(t.records[i]) && |t.sources| <= t.sourceCount <= MAX_FWD_QUERIES
    ensures InFlight(t.records[i]) ==> forall k :: 0 <= k < |t.records| && k != i && InFlight(t.records[k]) ==>
              t.records[k].newId != t.records[i].newId && t.records[k].hash != t.records[i].hash
  {
    hide RecordOk;
  }

  lemma {:induction false} JoinKeeps(s: State, e: Event, i: nat, events: seq<Event>)
    requires Inv(s, events) && e.Query? && i < |s.table.records| && InFlight(s.table.records[i])
    requires s.table.records[i].hash == e.digest
    ensures Inv(Join(s, e, i).(steps := s.steps + 1), events + [e])
  {
    hide TableInv, History, Waiting, FromQuery;
    var r, c := s.table.records[i], NewSource(s, e);
    RefuseKeeps(s, e, events);
    SameKeeps(s, e, events);
    if !Waiting(r, c) && GetNewPeerSource(s.table).1 {
      var u := Join(s, e, i);
      AttachKeeps(s.table, i, c);
      AttachHistory(s.table, u.table, s.outputs, i, c, e, events);
    }
  }

  lemma {:induction false} AttachHistory(t: Table, u: Table, outs: seq<Output>, i: nat, c: Source, e: Event, events: seq<Event>)
    requires History(t, outs, events) && i < |t.records| && InFlight(t.records[i])
    requires u.records == t.records[i := t.records[i].(chain := t.records[i].chain + [c])]
    requires e.Query? && c == Source(e.endpoint, e.ipv4, e.packet.header.id, |events|) && t.records[i].hash == e.digest
    ensures History(u, outs, events + [e])
  {
    hide History;
    var n := |Clients(t.records[i])|;
    assert Clients(u.records[i]) == Clients(t.records[i]) + [c];
    HistoryAdd(t, u, outs, [], events, e, i, n);
    assert outs + [] == outs;
  }

  /** Handing out a record only drops clients. */
  lemma {:induction false} GrantShrinks(t: Table, now: int)
    requires TableInv(t) && GetNewRecord(t, now, false).1.Some?
    ensures Shrinks(t, GetNewRecord(t, now, false).0)
    ensures var u := GetNewRecord(t, now, false).0;
            forall k :: 0 <= k < |u.records| && InFlight(u.records[k]) ==> k < |t.records| && u.records[k] == t.records[k]
  {
    hide TableInv, GetNewRecord;
    GrantedMeaning(t, now);
    var u := GetNewRecord(t, now, false).0;
    forall k | 0 <= k < |u.records| && InFlight(u.records[k])
      ensures k < |t.records| && u.records[k] == t.records[k]
    {
    }
  }

  lemma {:induction false} OpenKeeps(s: State, e: Event, events: seq<Event>)
    requires Inv(s, events) && e.Query? && s.servers != [] && Find(s, e.digest).None? && OpenEnabled(s, e)
    ensures Inv(Open(s, e).(steps := s.steps + 1), events + [e])
  {
    hide TableInv, History, GetNewRecord, FromQuery, FirstFresh;
    var (t, i) := GetNewRecord(s.table, e.now, false);
    if i.None? {
      RefusedIff(s.table, e.now);
      RefuseKeeps(s, e, events);
    } else {
      GrantedMeaning(s.table, e.now);
      GrantShrinks(s.table, e.now);
      HistoryShrink(s.table, t, s.outputs, [], events);
      assert s.outputs + [] == s.outputs;
      var u := Open(s, e);
      var r := u.table.records[i.value];
      TableFacts(t, i.value);
      NobodyAsks(s, t, e.digest);
      assert u.table.records == t.records[i.value := r];
      ReplaceKeeps(t, u.table, i.value, r);
      OpenHistory(t, u.table, s.outputs, Forwards(s.servers, WithId(e.packet, r.newId)), i.value, r, e, events);
    }
  }

  lemma {:induction false} NobodyAsks(s: State, t: Table, digest: Digest)
    requires TableInv(s.table) && Find(s, digest).None?
    requires forall k :: 0 <= k < |t.records| && InFlight(t.records[k]) ==> k < |s.table.records| && t.records[k] == s.table.records[k]
    ensures forall k :: 0 <= k < |t.records| && InFlight(t.records[k]) ==> t.records[k].hash != digest
  {
    forall k | 0 <= k < |t.records| && InFlight(t.records[k])
      ensures t.records[k].hash != digest
    {
      assert RecordOk(s.table.records[k]);
    }
  }

  lemma {:induction false} OpenHistory(t: Table, u: Table, outs: seq<Output>, more: seq<Output>, i: nat, r: Request,
                                       e: Event, events: seq<Event>)
    requires History(t, outs, events) && i < |t.records| && !InFlight(t.records[i]) && NoReplies(more)
    requires u.records == t.records[i := r] && InFlight(r) && r.chain == [] && e.Query?
    requires r.source == Source(e.endpoint, e.ipv4, e.packet.header.id, |events|) && r.hash == e.digest
    ensures History(u, outs + more, events + [e])
  {
    hide History;
    assert Clients(r) == [r.source];
    HistoryAdd(t, u, outs, more, events, e, i, 0);
  }

  lemma {:induction false} ResendKeeps(s: State, e: Event, i: nat, events: seq<Event>)
    requires Inv(s, events) && e.Query? && s.servers != [] && i < |s.table.records| && InFlight(s.table.records[i])
    ensures Inv(Forward(s.(table := Free(s.table, i)), i, e.packet).(steps := s.steps + 1), events + [e])
  {
    hide TableInv, History;
    var u := Forward(s.(table := Free(s.table, i)), i, e.packet).(steps := s.steps + 1);
    var r := s.table.records[i];
    var r' := Freed(r).(sentTo := Some(|s.servers| - 1));
    assert u.table.records == s.table.records[i := r'];
    assert Clients(r) == [r.source] + r.chain && Clients(r') == [r.source] + [];
    TableFacts(s.table, i);
    ReplaceKeeps(s.table, u.table, i, r');
    ShrinksReplace(s.table, u.table, i, r');
    QuietStep(s, u, Forwards(s.servers, e.packet), events, e);
  }

  lemma {:induction false} ResolveKeeps(s: State, e: Event, events: seq<Event>)
    requires Inv(s, events) && e.Query? && Enabled(s, e)
    ensures Inv(Resolve(s, e).(steps := s.steps + 1), events + [e])
  {
    hide Inv, Join, Open, Forward, Free;
    SameKeeps(s, e, events);
    if s.servers != [] {
      var i := Find(s, e.digest);
      if i.None? {
        OpenKeeps(s, e, events);
      } else if !e.timedOut {
        JoinKeeps(s, e, i.value, events);
      } else {
        ResendKeeps(s, e, i.value, events);
      }
    }
  }

  // ---------------------------------------------------------------- responses

  /** The answers to the clients of record `i` are right, new, and mutually distinct. */
  lemma {:induction false} NewAnswers(t: Table, outs: seq<Output>, i: nat, e: Event, events: seq<Event>)
    requires History(t, outs, events) && i < |t.records| && InFlight(t.records[i])
    requires e.Response? && t.records[i].hash == e.digest
    ensures var ans := Answers(t.records[i], e, |events|);
            && RepliesRight(ans, events + [e])
            && RepliesOnce(ans)
            && forall m, k :: 0 <= m < |outs| && IsReply(outs[m]) && 0 <= k < |ans| && IsReply(ans[k]) ==> outs[m].token != ans[k].token
  {
    hide FromQuery, RightAnswer;
    var cs, ans := Clients(t.records[i]), Answers(t.records[i], e, |events|);
    forall k | 0 <= k < |ans|
      ensures ans[k].Answer? && RightAnswer(events + [e], ans[k])
      ensures forall m :: 0 <= m < |outs| && IsReply(outs[m]) ==> outs[m].token != ans[k].token
    {
      var a := Turn(|cs|, k);
      assert IsClient(t, i, a) && ClientAt(t, i, a) == cs[a];
      AnswerIsRight(events, cs[a], e, t.records[i].hash);
    }
    forall k, l | 0 <= k < l < |ans|
      ensures ans[k].token != ans[l].token
    {
      assert IsClient(t, i, Turn(|cs|, k)) && IsClient(t, i, Turn(|cs|, l));
    }
  }

  lemma {:induction false} AnswerIsRight(events: seq<Event>, c: Source, e: Event, digest: Digest)
    requires FromQuery(events, c, digest) && e.Response? && e.digest == digest
    ensures RightAnswer(events + [e], AnswerTo(c, e, |events|))
  {
    hide WithId, WithRecursionAvailable, IsAnswerUnder;
    PacketFields(e.packet, c.originalId);
  }

  lemma {:induction false} AnswerHistory(t: Table, outs: seq<Output>, i: nat, e: Event, events: seq<Event>)
    requires History(t, outs, events) && i < |t.records| && InFlight(t.records[i])
    requires e.Response? && t.records[i].hash == e.digest
    ensures History(Free(t, i), outs + Answers(t.records[i], e, |events|), events + [e])
  {
    hide FromQuery, RightAnswer, IsClient, ClientAt, Free, Answers;
    var u, ans := Free(t, i), Answers(t.records[i], e, |events|);
    NewAnswers(t, outs, i, e, events);
    FreeClients(t, i);
    HistoryLater(t, outs, events, e);
    HistoryShrink(t, u, outs, [], events + [e]);
    assert outs + [] == outs;
    forall j, b, k | IsClient(u, j, b) && 0 <= k < |ans| && IsReply(ans[k])
      ensures ClientAt(u, j, b).token != ans[k].token
    {
      NotAnswered(t, i, e, |events|, j, b, k);
    }
  }

  lemma {:induction false} FreeClients(t: Table, i: nat)
    requires i < |t.records|
    ensures Shrinks(t, Free(t, i))
    ensures forall j, b :: IsClient(Free(t, i), j, b) ==> j != i
  {
    ShrinksReplace(t, Free(t, i), i, Freed(t.records[i]));
  }

  lemma {:induction false} NotAnswered(t: Table, i: nat, e: Event, step: nat, j: int, b: int, k: int)
    requires TokensDistinct(t) && i < |t.records| && e.Response? && IsClient(t, j, b) && j != i
    requires 0 <= k < |Answers(t.records[i], e, step)| && IsReply(Answers(t.records[i], e, step)[k])
    ensures ClientAt(t, j, b).token != Answers(t.records[i], e, step)[k].token
  {
    hide Answers;
    AnswersToken(t, i, e, step, k);
  }

  lemma {:induction false} AnswersToken(t: Table, i: nat, e: Event, step: nat, k: int)
    requires i < |t.records| && e.Response? && 0 <= k < |Answers(t.records[i], e, step)|
    ensures var a := Turn(|Clients(t.records[i])|, k);
            && IsClient(t, i, a)
            && Answers(t.records[i], e, step)[k] == AnswerTo(ClientAt(t, i, a), e, step)
  {
    hide AnswerTo;
  }

  lemma {:induction false} RespondKeeps(s: State, e: Event, events: seq<Event>)
    requires Inv(s, events) && e.Response?
    ensures Inv(Respond(s, e).(steps := s.steps + 1), events + [e])
  {
    hide TableInv, History, Free, Answers, Lookup, FindServer;
    var u := Respond(s, e).(steps := s.steps + 1);
    if u.table == s.table && u.outputs == s.outputs {
      SameKeeps(s, e, events);
    } else {
      var i := Lookup(s.table.records, |s.table.records|, e.packet.header.id, e.digest);
      FreeKeeps(s.table, i.value);
      AnswerHistory(s.table, s.outputs, i.value, e, events);
    }
  }

  // ---------------------------------------------------------------- runs

  /** A run: the states before and after each event, from a state with an empty table. */
  ghost predicate Execution(states: seq<State>, events: seq<Event>) {
    && |states| == |events| + 1
    && states[0].table == Table([], [], 0) && states[0].outputs == [] && states[0].steps == 0
    && forall n :: 0 <= n < |events| ==> Enabled(states[n], events[n]) && states[n + 1] == Step(states[n], events[n])
  }

  lemma {:induction false} StepKeeps(s: State, e: Event, events: seq<Event>)
    requires Inv(s, events) && Enabled(s, e)
    ensures Inv(Step(s, e), events + [e])
  {
    hide Inv, Resolve, Respond, Enabled;
    if e.Query? {
      ResolveKeeps(s, e, events);
    } else {
      RespondKeeps(s, e, events);
    }
  }

  /** In every state of every run the invariant holds. */
  lemma {:induction false} RunKeeps(states: seq<State>, events: seq<Event>, n: nat)
    requires Execution(states, events) && n <= |events|
    ensures Inv(states[n], events[..n])
    decreases n
  {
    hide Step, Enabled;
    if n == 0 {
      assert events[..0] == [];
    } else {
      hide Inv;
      RunKeeps(states, events, n - 1);
      StepKeeps(states[n - 1], events[n - 1], events[..n - 1]);
      assert events[..n] == events[..n - 1] + [events[n - 1]];
    }
  }

  /** Over every run: each answer goes to the client of one query, under that client's own ID,
      and is a response whose digest is that of the query; each refusal returns the packet of
      one query to its client; and no query gets two replies of either kind. */
  lemma {:induction false} EveryReplyRightAndOnce(states: seq<State>, events: seq<Event>, n: nat)
    requires Execution(states, events) && n <= |events|
    ensures RepliesRight(states[n].outputs, events[..n]) && RepliesOnce(states[n].outputs)
  {
    hide Execution, RepliesRight, RepliesOnce, Registered, TokensDistinct, WaitingUnanswered, TableInv;
    RunKeeps(states, events, n);
  }

  /** In every reachable state a generator that comes up with 151 different IDs, none of them
      zero, leaves no query stuck. */
  lemma {:induction false} NeverStuck(states: seq<State>, events: seq<Event>, n: nat, e: Event)
    requires Execution(states, events) && n <= |events|
    requires e.Query? ==> |Values(e.draws)| > 150 && 0 !in e.draws
    ensures Enabled(states[n], e)
  {
    hide History, TableInv, GetNewRecord, FirstFresh, Step, Values;
    RunKeeps(states, events, n);
    var s := states[n];
    if e.Query? && GetNewRecord(s.table, e.now, false).1.Some? {
      GrantedMeaning(s.table, e.now);
      var t := GetNewRecord(s.table, e.now, false).0;
      assert |t.records| <= MAX_FWD_QUERIES by { TableSize(t); }
      FairDrawsSucceed(t.records, e.draws);
    }
  }
}

/** What every step sends and counts, by conditions on the state before it. */
module ServerReplies {
  import opened Bytes
  import opened Packets
  import opened PeerTable
  import opened ServerStep
  import opened ServerRuns
  import ServerDelivery
  import Latency

  // ---------------------------------------------------------------- conditions

  /** Record `i` carries a request for this digest. */
  ghost predicate Asked(t: Table, digest: Digest, i: int) {
    0 <= i < |t.records| && InFlight(t.records[i]) && t.records[i].hash == digest
  }

  /** The client of the query already waits on the record, under the same ID. */
  ghost predicate RepeatedBy(r: Request, e: Event)
    requires e.Query?
  {
    exists c :: c in [r.source] + r.chain && c.endpoint == e.endpoint && c.ipv4 == e.ipv4 && c.originalId == e.packet.header.id
  }

  /** 150 requests are in flight and none is 10 s old. */
  ghost predicate Full(t: Table, now: int) {
    |t.records| == 150 && forall k :: 0 <= k < |t.records| ==> InFlight(t.records[k]) && now - t.records[k].time < 10
  }

  /** A query is refused in three cases: for a new question when the table is full; for one
      already asked when its client repeats it within 2 s; and when a further client finds all
      150 source nodes attached to requests. */
  ghost predicate MustRefuse(s: State, e: Event) {
    && e.Query? && s.servers != []
    && (((forall i :: !Asked(s.table, e.digest, i)) && Full(s.table, e.now))
        || (!e.timedOut
            && exists i :: Asked(s.table, e.digest, i)
                           && if RepeatedBy(s.table.records[i], e) then e.now - s.table.records[i].time < 2
                              else Attached(s.table.records) == 150))
  }

  /** It opens a request, for a new question when the table is not full. */
  ghost predicate MustOpen(s: State, e: Event) {
    e.Query? && s.servers != [] && (forall i :: !Asked(s.table, e.digest, i)) && !Full(s.table, e.now)
  }

  /** It is sent again, when the request for its question counts as timed out. */
  ghost predicate MustResend(s: State, e: Event) {
    e.Query? && s.servers != [] && e.timedOut && exists i :: Asked(s.table, e.digest, i)
  }

  // ---------------------------------------------------------------- outcomes

  /** One output more: the refusal of this query. */
  ghost predicate Refuses(s: State, u: State, e: Event) {
    && |u.outputs| == |s.outputs| + 1 && s.outputs <= u.outputs
    && var o := u.outputs[|s.outputs|];
       && o.Refusal? && e.Query? && o.endpoint == e.endpoint && o.ipv4 == e.ipv4 && o.token == s.steps
       && IsRefused(o.packet, e.packet)
  }

  /** One output more for every server, in order: the query under the ID `id`. */
  ghost predicate ForwardsUnder(s: State, u: State, e: Event, id: u16) {
    && |u.outputs| == |s.outputs| + |s.servers| && s.outputs <= u.outputs
    && forall m :: |s.outputs| <= m < |u.outputs| ==>
                     var o, server := u.outputs[m], s.servers[m - |s.outputs|];
                     o.ToServer? && o.endpoint == server.endpoint && o.ipv4 == server.ipv4 && IsUnder(o.packet, e.packet, id)
  }

  /** That, under the ID of record `i`, which now carries a request for the query's digest. */
  ghost predicate OpensOn(s: State, u: State, e: Event, i: int)
    requires e.Query?
  {
    && 0 <= i < |u.table.records| && InFlight(u.table.records[i]) && u.table.records[i].hash == e.digest
    && ForwardsUnder(s, u, e, u.table.records[i].newId)
  }

  lemma {:induction false} FindIff(s: State, events: seq<Event>, digest: Digest)
    requires Inv(s, events)
    ensures Find(s, digest).None? <==> forall i :: !Asked(s.table, digest, i)
    ensures forall i :: Asked(s.table, digest, i) ==> Find(s, digest) == Some(i)
    ensures Find(s, digest).Some? ==> Asked(s.table, digest, Find(s, digest).value)
  {
    hide History, TableInv;
    forall i | Asked(s.table, digest, i)
      ensures Find(s, digest) == Some(i)
    {
      LookupsUnique(s.table, i);
    }
  }

  lemma {:induction false} ForwardSends(s: State, i: nat, p: Packet, e: Event, id: u16)
    requires i < |s.table.records| && s.servers != [] && IsUnder(p, e.packet, id)
    ensures ForwardsUnder(s, Forward(s, i, p), e, id)
    ensures Forward(s, i, p).table.records == s.table.records[i := s.table.records[i].(sentTo := Some(|s.servers| - 1))]
  {
    hide IsUnder;
  }

  lemma {:induction false} ForwardsFrom(s: State, v: State, u: State, e: Event, id: u16)
    requires ForwardsUnder(v, u, e, id) && s.outputs == v.outputs && s.servers == v.servers
    ensures ForwardsUnder(s, u, e, id)
  {
  }

  lemma {:induction false} RefuseSends(s: State, e: Event)
    requires e.Query?
    ensures Refuses(s, Refuse(s, e), e)
  {
    hide Refused, IsRefused;
    PacketFields(e.packet, 0);
  }

  lemma {:induction false} OpenOutputs(s: State, e: Event, events: seq<Event>)
    requires Inv(s, events) && e.Query? && s.servers != [] && OpenEnabled(s, e)
    ensures var u := Open(s, e);
            && (Full(s.table, e.now) ==> Refuses(s, u, e))
            && (!Full(s.table, e.now) ==>
                  exists i :: OpensOn(s, u, e, i))
  {
    hide TableInv, History, GetNewRecord, FirstFresh, WithId, IsUnder, Refuses, Forward, ForwardsUnder;
    RefusedIff(s.table, e.now);
    RefuseSends(s, e);
    if !Full(s.table, e.now) {
      GrantedMeaning(s.table, e.now);
      var (t, i) := GetNewRecord(s.table, e.now, false);
      var id := FirstFresh(t.records, e.draws).value;
      var v := s.(table := t.(records := t.records[i.value := Opened(t.records[i.value], NewSource(s, e), id, e.digest)]));
      PacketFields(e.packet, id);
      ForwardSends(v, i.value, WithId(e.packet, id), e, id);
      ForwardsFrom(s, v, Open(s, e), e, id);
      assert OpensOn(s, Open(s, e), e, i.value);
    }
  }

  lemma {:induction false} JoinOutputs(s: State, e: Event, events: seq<Event>, i: nat)
    requires Inv(s, events) && e.Query? && Asked(s.table, e.digest, i)
    ensures var u := Join(s, e, i);
            if if RepeatedBy(s.table.records[i], e) then e.now - s.table.records[i].time < 2 else Attached(s.table.records) == 150
            then Refuses(s, u, e) else u.outputs == s.outputs
  {
    hide TableInv, History, Refuses, Attached;
    RefuseSends(s, e);
    NoSourceIff(s.table);
    RepeatedIff(s.table.records[i], s, e);
  }

  lemma {:induction false} RepeatedIff(r: Request, s: State, e: Event)
    requires e.Query? && InFlight(r)
    ensures Waiting(r, NewSource(s, e)) <==> RepeatedBy(r, e)
  {
    var cs, c := [r.source] + r.chain, NewSource(s, e);
    if a :| 0 <= a < |cs| && SameClient(cs[a], c) {
      assert cs[a] in cs;
    }
    if d :| d in cs && d.endpoint == e.endpoint && d.ipv4 == e.ipv4 && d.originalId == e.packet.header.id {
      var a :| 0 <= a < |cs| && cs[a] == d;
      assert SameClient(Clients(r)[a], c);
    }
  }

  /** Every query step sends exactly this. */
  lemma {:induction false} QueryOutputs(s: State, e: Event, events: seq<Event>)
    requires Inv(s, events) && Enabled(s, e) && e.Query?
    ensures var u := Step(s, e);
            && (MustRefuse(s, e) ==> Refuses(s, u, e))
            && (MustOpen(s, e) ==>
                  exists i :: OpensOn(s, u, e, i))
            && (MustResend(s, e) ==> ForwardsUnder(s, u, e, e.packet.header.id))
            && (!MustRefuse(s, e) && !MustOpen(s, e) && !MustResend(s, e) ==> u.outputs == s.outputs)
  {
    hide Inv, Open, OpenEnabled, Join, Forward, Find, Full, RepeatedBy, IsRefused, IsUnder, Attached;
    FindIff(s, events, e.digest);
    if s.servers != [] {
      var k := Find(s, e.digest);
      if k.None? {
        OpenOutputs(s, e, events);
        if i :| OpensOn(s, Open(s, e), e, i) {
          assert OpensOn(s, Step(s, e), e, i);
        }
      } else if !e.timedOut {
        JoinOutputs(s, e, events, k.value);
      } else {
        SameFields(e.packet);
        ForwardSends(s.(table := Free(s.table, k.value)), k.value, e.packet, e, e.packet.header.id);
      }
    }
  }

  lemma {:induction false} SameFields(p: Packet)
    ensures IsUnder(p, p, p.header.id)
  {
  }

  // ---------------------------------------------------------------- runs

  /** A step only adds outputs, and among them a refusal exactly when it must refuse. */
  lemma {:induction false} NewRefusals(s: State, e: Event, events: seq<Event>)
    requires Inv(s, events) && Enabled(s, e)
    ensures var u := Step(s, e);
            && s.outputs <= u.outputs
            && (forall m :: |s.outputs| <= m < |u.outputs| && u.outputs[m].Refusal? ==> u.outputs[m].token == s.steps)
            && ((exists m :: |s.outputs| <= m < |u.outputs| && u.outputs[m].Refusal?) <==> MustRefuse(s, e))
  {
    hide Inv, Step, IsRefused, IsUnder, Asked, Full, RepeatedBy, Attached;
    if e.Query? {
      QueryOutputs(s, e, events);
      NotBoth(s, e);
    } else {
      ResponseOutputs(s, e);
    }
  }

  lemma {:induction false} NotBoth(s: State, e: Event)
    ensures !(MustRefuse(s, e) && MustOpen(s, e)) && !(MustRefuse(s, e) && MustResend(s, e))
  {
    hide Asked, Full, RepeatedBy, Attached;
  }

  lemma {:induction false} ResponseOutputs(s: State, e: Event)
    requires e.Response?
    ensures var u := Step(s, e);
            s.outputs <= u.outputs && forall m :: |s.outputs| <= m < |u.outputs| ==> u.outputs[m].Answer?
  {
    hide Lookup, FindServer;
  }

  /** Over every run a query has been refused exactly when its step had to refuse it. */
  lemma {:induction false} RefusedExactly(states: seq<State>, events: seq<Event>, n: nat, m: nat)
    requires Execution(states, events) && n < m <= |events|
    ensures (exists o :: o in states[m].outputs && o.Refusal? && o.token == n) <==> MustRefuse(states[n], events[n])
    decreases m
  {
    hide Inv, Step, Enabled, MustRefuse;
    var s, e := states[m - 1], events[m - 1];
    RunKeeps(states, events, m - 1);
    ServerDelivery.InvTable(s, events[..m - 1]);
    NewRefusals(s, e, events[..m - 1]);
    assert states[m] == Step(s, e);
    var outs := states[m].outputs;
    if n < m - 1 {
      RefusedExactly(states, events, n, m - 1);
      SameRefusals(s.outputs, outs, n, m - 1);
    } else {
      OldRefusals(s, events[..m - 1]);
      OwnRefusal(s.outputs, outs, n);
    }
  }

  /** What was sent before came from earlier steps. */
  lemma {:induction false} OldRefusals(s: State, events: seq<Event>)
    requires Inv(s, events)
    ensures forall m :: 0 <= m < |s.outputs| && s.outputs[m].Refusal? ==> s.outputs[m].token < |events|
  {
    hide TableInv, Registered, TokensDistinct, RepliesOnce, WaitingUnanswered, IsRefused;
    forall m | 0 <= m < |s.outputs| && s.outputs[m].Refusal?
      ensures s.outputs[m].token < |events|
    {
      assert RightReply(events, s.outputs[m]);
    }
  }

  lemma {:induction false} SameRefusals(outs: seq<Output>, more: seq<Output>, n: nat, now: nat)
    requires outs <= more && n < now
    requires forall m :: |outs| <= m < |more| && more[m].Refusal? ==> more[m].token == now
    ensures (exists o :: o in more && o.Refusal? && o.token == n) <==> exists o :: o in outs && o.Refusal? && o.token == n
  {
    if o :| o in outs && o.Refusal? && o.token == n {
      assert o in more;
    }
    if o :| o in more && o.Refusal? && o.token == n {
      var m :| 0 <= m < |more| && more[m] == o;
      assert m < |outs|;
      assert outs[m] == o;
    }
  }

  lemma {:induction false} OwnRefusal(outs: seq<Output>, more: seq<Output>, n: nat)
    requires outs <= more && forall m :: 0 <= m < |outs| && outs[m].Refusal? ==> outs[m].token < n
    requires forall m :: |outs| <= m < |more| && more[m].Refusal? ==> more[m].token == n
    ensures (exists o :: o in more && o.Refusal? && o.token == n) <==>
            exists m :: |outs| <= m < |more| && more[m].Refusal?
  {
    if o :| o in more && o.Refusal? && o.token == n {
      var m :| 0 <= m < |more| && more[m] == o;
    }
    if m :| |outs| <= m < |more| && more[m].Refusal? {
      assert more[m] in more;
    }
  }

  // ---------------------------------------------------------------- counters

  /** The server is the same but for its counters. */
  predicate SameServer(v: Server, w: Server) {
    v.endpoint == w.endpoint && v.ipv4 == w.ipv4
  }

  /** Of a 32-bit counter: one more, or zero after the greatest value. */
  predicate OneMore(after: u32, before: u32) {
    if before == 0xFFFF_FFFF then after == 0 else after == before + 1
  }

  /** Every server has sent one query more, and nothing else has changed. */
  predicate AllCounted(after: seq<Server>, before: seq<Server>) {
    |after| == |before|
    && forall k :: 0 <= k < |before| ==>
                     && SameServer(after[k], before[k])
                     && OneMore(after[k].stats.queries, before[k].stats.queries)
                     && after[k].stats == before[k].stats.(queries := after[k].stats.queries)
  }

  lemma {:induction false} ForwardCounts(s: State, i: nat, p: Packet)
    requires i < |s.table.records| && s.servers != []
    ensures AllCounted(Forward(s, i, p).servers, s.servers)
  {
    hide Forwards;
  }

  lemma {:induction false} OpenCounts(s: State, e: Event)
    requires TableInv(s.table) && e.Query? && s.servers != [] && OpenEnabled(s, e)
    ensures if Full(s.table, e.now) then Open(s, e).servers == s.servers else AllCounted(Open(s, e).servers, s.servers)
  {
    hide TableInv, GetNewRecord, FirstFresh, Forward, WithId, AllCounted;
    RefusedIff(s.table, e.now);
    var (t, i) := GetNewRecord(s.table, e.now, false);
    if i.Some? {
      var id := FirstFresh(t.records, e.draws).value;
      var v := s.(table := t.(records := t.records[i.value := Opened(t.records[i.value], NewSource(s, e), id, e.digest)]));
      ForwardCounts(v, i.value, WithId(e.packet, id));
    }
  }

  lemma {:induction false} JoinCounts(s: State, e: Event, i: nat)
    requires e.Query? && i < |s.table.records|
    ensures Join(s, e, i).servers == s.servers
  {
    hide Waiting, GetNewPeerSource;
  }

  /** A query that is forwarded counts once at every server; any other changes nothing. */
  lemma {:induction false} QueryCounts(s: State, e: Event, events: seq<Event>)
    requires Inv(s, events) && Enabled(s, e) && e.Query?
    ensures var u := Step(s, e);
            if MustOpen(s, e) || MustResend(s, e) then AllCounted(u.servers, s.servers) else u.servers == s.servers
  {
    hide Inv, Open, OpenEnabled, Join, Forward, Find, Full, AllCounted;
    FindIff(s, events, e.digest);
    ServerDelivery.InvTable(s, events);
    if s.servers != [] {
      var k := Find(s, e.digest);
      if k.None? {
        OpenCounts(s, e);
      } else if !e.timedOut {
        JoinCounts(s, e, k.value);
      } else {
        ForwardCounts(s.(table := Free(s.table, k.value)), k.value, e.packet);
      }
    }
  }

  /** Of a response only the first server with its endpoint takes note: of an invalid packet, of one
      that no request matches, or else of the latency and, unless the response code is zero, a
      failure. */
  lemma {:induction false} ResponseCounts(s: State, e: Event, events: seq<Event>, k: nat)
    requires Inv(s, events) && e.Response? && k < |s.servers| && s.servers[k].endpoint == e.endpoint
    requires forall j :: 0 <= j < k ==> s.servers[j].endpoint != e.endpoint
    ensures var u := Step(s, e);
            && |u.servers| == |s.servers| && (forall j :: 0 <= j < |s.servers| && j != k ==> u.servers[j] == s.servers[j])
            && SameServer(u.servers[k], s.servers[k])
            && var v, w := u.servers[k].stats, s.servers[k].stats;
               && v.queries == w.queries
               && (if e.valid then v.invalids == w.invalids else OneMore(v.invalids, w.invalids))
               && (if e.valid && !exists i: nat :: ServerDelivery.Echoes(s, e, i) then OneMore(v.nosources, w.nosources)
                   else v.nosources == w.nosources)
               && (if (exists i: nat :: ServerDelivery.Echoes(s, e, i)) && e.packet.header.hb4 % 16 != 0 then OneMore(v.failed, w.failed)
                   else v.failed == w.failed)
               && v.average == (if exists i: nat :: ServerDelivery.Echoes(s, e, i) then Latency.Next(w.average, e.sample) else w.average)
  {
    hide Inv, Lookup, Answers, Free, Latency.Next, ServerDelivery.Echoes, FindServer;
    FirstServer(s.servers, e.endpoint, 0, k);
    EchoIff(s, e, events);
  }

  lemma {:induction false} EchoIff(s: State, e: Event, events: seq<Event>)
    requires Inv(s, events) && e.Response? && FindServer(s.servers, e.endpoint, 0).Some?
    ensures (exists i: nat :: ServerDelivery.Echoes(s, e, i)) <==>
            e.valid && Lookup(s.table.records, |s.table.records|, e.packet.header.id, e.digest).Some?
  {
    hide TableInv, History, Lookup, FindServer;
    if i: nat :| ServerDelivery.Echoes(s, e, i) {
      LookupsUnique(s.table, i);
    }
    var j := Lookup(s.table.records, |s.table.records|, e.packet.header.id, e.digest);
    if e.valid && j.Some? {
      assert ServerDelivery.Echoes(s, e, j.value);
    }
  }

  lemma {:induction false} FirstServer(servers: seq<Server>, endpoint: Endpoint, n: nat, k: nat)
    requires n <= k < |servers| && servers[k].endpoint == endpoint
    requires forall j :: n <= j < k ==> servers[j].endpoint != endpoint
    ensures FindServer(servers, endpoint, n) == Some(k)
    decreases k - n
  {
    var f := FindServer(servers, endpoint, n);
    if n < k {
      FirstServer(servers, endpoint, n + 1, k);
    }
  }

  /** A response from an endpoint that is none of the servers' changes nothing. */
  lemma {:induction false} StrangerIgnored(s: State, e: Event)
    requires e.Response? && forall j :: 0 <= j < |s.servers| ==> s.servers[j].endpoint != e.endpoint
    ensures Step(s, e) == s.(steps := s.steps + 1)
  {
  }
}

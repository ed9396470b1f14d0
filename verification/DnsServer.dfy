/** The forwarder as an object: `resolve` and `processUpstreamResponse` of src/dns/server.cpp. */
module DnsServer {
  import opened Bytes
  import opened Packets
  import opened PacketHash
  import opened PeerTable
  import opened PeerRequests
  import opened ServerStep
  import ServerDelivery
  import ServerRuns
  import Latency

  /** PeerRequestRecord::HasTimedOut as written: an absolute time is compared with the timeout. */
  predicate HasTimedOut(r: Request) {
    r.time > TIMEOUT
  }

  /** The event that a client's packet amounts to in state `s`. */
  function AsQuery(s: State, now: int, packet: Packet, endpoint: Endpoint, ipv4: bool, draws: seq<u16>): Event {
    var digest := PacketDigest(packet);
    var i := Find(s, digest);
    Query(now, packet, digest, endpoint, ipv4, i.Some? && HasTimedOut(s.table.records[i.value]), draws)
  }

  function AsResponse(packet: Packet, endpoint: Endpoint, valid: bool, sample: int): Event {
    Response(packet, PacketDigest(packet), endpoint, valid, sample)
  }

  class Forwarder {
    const peers: Requests
    var servers: seq<Server>
    var outputs: seq<Output>
    var steps: nat

    function Current(): State
      reads this, peers
    {
      State(peers.Contents(), servers, outputs, steps)
    }

    constructor (upstream: seq<Server>)
      ensures Current() == State(Table([], [], 0), upstream, [], 0) && fresh(peers)
    {
      peers := new Requests();
      servers, outputs, steps := upstream, [], 0;
    }

    /** `resolve`. */
    method Resolve(now: int, packet: Packet, endpoint: Endpoint, ipv4: bool, draws: seq<u16>)
      requires packet.header.questionCount == |packet.questions| && NamesFit(packet)
      requires Enabled(Current(), AsQuery(Current(), now, packet, endpoint, ipv4, draws))
      modifies this, peers
      ensures Current() == Step(old(Current()), AsQuery(old(Current()), now, packet, endpoint, ipv4, draws))
    {
      hide PacketDigest, Forward, Open, Join, OpenEnabled, PeerTable.LookupByQuery;
      if servers != [] {
        var digest := Hash(packet);
        var i := peers.LookupByQuery(digest);
        var c := Source(endpoint, ipv4, packet.header.id, steps);
        ghost var e := AsQuery(Current(), now, packet, endpoint, ipv4, draws);
        if i.None? {
          OpenRequest(now, packet, digest, c, draws, e);
        } else if !HasTimedOut(peers.records[i.value]) {
          JoinRequest(now, packet, c, i.value, e);
        } else {
          ghost var s := Current();
          peers.FreePeerRequestRecord(i.value);
          assert Current() == s.(table := Free(s.table, i.value));
          ForwardToAll(i.value, packet);
        }
        assert Current() == ServerStep.Resolve(old(Current()), e);
      }
      steps := steps + 1;
    }

    method JoinRequest(now: int, packet: Packet, c: Source, i: nat, ghost e: Event)
      requires i < |peers.records|
      requires e.Query? && e.now == now && e.packet == packet && c == NewSource(Current(), e)
      modifies this`outputs, peers
      ensures Current() == Join(old(Current()), e, i)
    {
      hide PeerTable.GetNewPeerSource;
      var r := peers.records[i];
      var repeated := IsWaiting(r, c);
      if repeated {
        if now - r.time < 2 {
          Send(Refusal(c.endpoint, c.ipv4, Refused(packet), steps));
        }
        return;
      }
      SourceKeepsRecords(peers.Contents());
      var ok := peers.GetNewPeerSource();
      if !ok {
        Send(Refusal(c.endpoint, c.ipv4, Refused(packet), steps));
      } else {
        peers.records := peers.records[i := r.(chain := r.chain + [c])];
      }
    }

    method OpenRequest(now: int, packet: Packet, digest: Digest, c: Source, draws: seq<u16>, ghost e: Event)
      requires servers != []
      requires e.Query? && e.now == now && e.packet == packet && c == NewSource(Current(), e)
      requires e.digest == digest && e.draws == draws && OpenEnabled(Current(), e)
      modifies this, peers
      ensures Current() == Open(old(Current()), e) && steps == old(steps)
    {
      hide PeerTable.GetNewRecord, FirstFresh, Forward;
      var i := peers.GetNewRecord(now, false);
      if i.None? {
        Send(Refusal(c.endpoint, c.ipv4, Refused(packet), steps));
        return;
      }
      var id := peers.GetNewId(draws);
      peers.records := peers.records[i.value := Opened(peers.records[i.value], c, id.value, digest)];
      ForwardToAll(i.value, WithId(packet, id.value));
    }

    /** `processUpstreamResponse`. */
    method ProcessUpstreamResponse(packet: Packet, endpoint: Endpoint, valid: bool, sample: int)
      requires packet.header.questionCount == |packet.questions| && NamesFit(packet)
      modifies this, peers
      ensures Current() == Step(old(Current()), AsResponse(packet, endpoint, valid, sample))
    {
      hide PacketDigest, Answers, Measured, Free, PeerTable.Lookup;
      ghost var e := AsResponse(packet, endpoint, valid, sample);
      var k := SearchServer(endpoint);
      if k.Some? {
        var server := servers[k.value];
        if !valid {
          servers := servers[k.value := server.(stats := server.stats.(invalids := Bump(server.stats.invalids)))];
        } else {
          var digest := Hash(packet);
          var i := peers.Lookup(packet.header.id, digest);
          if i.None? {
            servers := servers[k.value := server.(stats := server.stats.(nosources := Bump(server.stats.nosources)))];
          } else {
            PassOn(k.value, i.value, packet, digest, sample, e);
          }
        }
      }
      steps := steps + 1;
    }

    /** Its end: statistics, the answers, and the record is free. */
    method PassOn(k: nat, i: nat, packet: Packet, digest: Digest, sample: int, ghost e: Event)
      requires k < |servers| && i < |peers.records| && InFlight(peers.records[i])
      requires e.Response? && e.packet == packet && e.digest == digest && e.sample == sample
      modifies this, peers
      ensures var s := old(Current());
              Current() == s.(servers := s.servers[k := Measured(s.servers[k], e)],
                              outputs := s.outputs + Answers(s.table.records[i], e, s.steps),
                              table := Free(s.table, i))
    {
      hide Answers, Latency.Next;
      var server := servers[k];
      if ResponseCode(packet) != 0 {
        server := server.(stats := server.stats.(failed := Bump(server.stats.failed)));
      }
      server := server.(stats := server.stats.(average := Latency.Next(server.stats.average, sample)));
      servers := servers[k := server];
      AnswerAll(peers.records[i], packet, digest, e);
      peers.FreePeerRequestRecord(i);
    }

    /** The loop that looks for the server a response came from. */
    method SearchServer(endpoint: Endpoint) returns (k: Option<nat>)
      ensures k == FindServer(servers, endpoint, 0)
    {
      var n := 0;
      while n < |servers|
        invariant 0 <= n <= |servers|
        invariant FindServer(servers, endpoint, 0) == FindServer(servers, endpoint, n)
      {
        if servers[n].endpoint == endpoint {
          return Some(n);
        }
        n := n + 1;
      }
      return None;
    }

    /** The loop over a record's sources: the packet's ID is set anew for each. */
    method AnswerAll(r: Request, packet: Packet, digest: Digest, ghost e: Event)
      requires InFlight(r) && e.Response? && e.packet == packet && e.digest == digest
      modifies this`outputs
      ensures outputs == old(outputs) + Answers(r, e, steps)
    {
      hide WithRecursionAvailable, WithId, Answers, AnswerTo, Clients, FirstOf;
      ghost var all, ready, id := Answers(r, e, steps), WithRecursionAvailable(packet), r.source.originalId;
      AnswersAt(r, e, steps, 0);
      FirstNone(outputs, all);
      FirstNext(outputs, all, 0);
      var reply := WithId(WithRecursionAvailable(packet), r.source.originalId);
      AnswerIs(r.source, e, steps);
      Send(Answer(r.source.endpoint, r.source.ipv4, reply, r.source.token, digest, steps));
      var k := |r.chain|;
      while k > 0
        invariant 0 <= k <= |r.chain|
        invariant outputs == FirstOf(old(outputs), all, 1 + |r.chain| - k)
        invariant reply == WithId(ready, id)
      {
        AnswersAt(r, e, steps, 1 + |r.chain| - k);
        FirstNext(old(outputs), all, 1 + |r.chain| - k);
        k := k - 1;
        var c := r.chain[k];
        SetIdTwice(ready, id, c.originalId);
        AnswerIs(c, e, steps);
        reply, id := WithId(reply, c.originalId), c.originalId;
        Send(Answer(c.endpoint, c.ipv4, reply, c.token, digest, steps));
      }
      FirstAll(old(outputs), all);
    }

    /** `sendPacket` as an output event. */
    method Send(o: Output)
      modifies this`outputs
      ensures outputs == old(outputs) + [o]
    {
      outputs := outputs + [o];
    }

    /** The loop over the servers at the end of `resolve`. */
    method ForwardToAll(i: nat, packet: Packet)
      requires i < |peers.records| && servers != []
      modifies this, peers
      ensures Current() == Forward(old(Current()), i, packet) && steps == old(steps)
    {
      hide Forwards, FirstOf, CountQuery;
      ghost var all := Forwards(servers, packet);
      FirstNone(outputs, all);
      var k := 0;
      while k < |servers|
        invariant 0 <= k <= |servers| == |old(servers)|
        invariant steps == old(steps) && peers.sources == old(peers.sources) && peers.sourceCount == old(peers.sourceCount)
        invariant peers.records == if k == 0 then old(peers.records)
                                   else old(peers.records)[i := old(peers.records)[i].(sentTo := Some(k - 1))]
        invariant forall j :: 0 <= j < |servers| ==> servers[j] == if j < k then CountQuery(old(servers)[j]) else old(servers)[j]
        invariant outputs == FirstOf(old(outputs), all, k)
      {
        ForwardsAt(old(servers), packet, k);
        FirstNext(old(outputs), all, k);
        peers.records := peers.records[i := peers.records[i].(sentTo := Some(k))];
        Send(ToServer(servers[k].endpoint, servers[k].ipv4, packet));
        servers := servers[k := CountQuery(servers[k])];
        k := k + 1;
      }
      FirstAll(old(outputs), all);
    }
  }

  /** The search through the sources of a record. */
  method IsWaiting(r: Request, c: Source) returns (found: bool)
    ensures found <==> Waiting(r, c)
  {
    var cs := Clients(r);
    var a := 0;
    while a < |cs|
      invariant 0 <= a <= |cs|
      invariant forall b :: 0 <= b < a ==> !SameClient(cs[b], c)
    {
      if SameClient(cs[a], c) {
        return true;
      }
      a := a + 1;
    }
    return false;
  }

  /** The answers in the order in which the loop sends them. */
  lemma {:induction false} AnswersAt(r: Request, e: Event, step: nat, k: nat)
    requires InFlight(r) && e.Response? && k <= |r.chain|
    ensures |Answers(r, e, step)| == 1 + |r.chain|
    ensures Answers(r, e, step)[k] == AnswerTo(if k == 0 then r.source else r.chain[|r.chain| - k], e, step)
  {
    hide AnswerTo;
  }

  lemma {:induction false} AnswerIs(c: Source, e: Event, step: nat)
    requires e.Response?
    ensures AnswerTo(c, e, step)
         == Answer(c.endpoint, c.ipv4, WithId(WithRecursionAvailable(e.packet), c.originalId), c.token, e.digest, step)
  {
  }

  lemma {:induction false} SetIdTwice(p: Packet, id: u16, id': u16)
    ensures WithId(WithId(p, id), id') == WithId(p, id')
  {
  }

  lemma {:induction false} ForwardsAt(servers: seq<Server>, packet: Packet, k: nat)
    requires k < |servers|
    ensures Forwards(servers, packet)[k] == ToServer(servers[k].endpoint, servers[k].ipv4, packet)
  {
  }

  /** The outputs before, and the first `k` of those in `all`. */
  ghost function FirstOf(before: seq<Output>, all: seq<Output>, k: nat): seq<Output>
    requires k <= |all|
  {
    before + all[..k]
  }

  lemma {:induction false} FirstNone(before: seq<Output>, all: seq<Output>)
    ensures FirstOf(before, all, 0) == before
  {
  }

  lemma {:induction false} FirstNext(before: seq<Output>, all: seq<Output>, k: nat)
    requires k < |all|
    ensures FirstOf(before, all, k) + [all[k]] == FirstOf(before, all, k + 1)
  {
  }

  lemma {:induction false} FirstAll(before: seq<Output>, all: seq<Output>)
    ensures FirstOf(before, all, |all|) == before + all
  {
    assert all[..|all|] == all;
  }

  lemma {:induction false} SourceKeepsRecords(t: Table)
    ensures PeerTable.GetNewPeerSource(t).0.records == t.records
  {
  }

  /** With the test as written, a client that asks what is already being asked is registered
      exactly when the request was sent within the first ten seconds of the clock's epoch. */
  lemma {:induction false} RepeatRegistersAsWritten(s: State, events: seq<Event>, now: int, packet: Packet, endpoint: Endpoint,
                                                    ipv4: bool, draws: seq<u16>, i: nat)
    requires ServerRuns.Inv(s, events) && s.servers != [] && Find(s, PacketDigest(packet)) == Some(i)
    requires !Waiting(s.table.records[i], Source(endpoint, ipv4, packet.header.id, s.steps))
    requires PeerTable.GetNewPeerSource(s.table).1
    ensures var u := Step(s, AsQuery(s, now, packet, endpoint, ipv4, draws)).table;
            (exists a :: ServerRuns.IsClient(u, i, a)
                         && ServerRuns.ClientAt(u, i, a) == Source(endpoint, ipv4, packet.header.id, s.steps))
            <==> s.table.records[i].time <= 10
  {
    hide PacketDigest, Step, Find, Waiting, PeerTable.GetNewPeerSource, ServerRuns.Inv;
    ServerDelivery.RepeatRegistersIff(s, AsQuery(s, now, packet, endpoint, ipv4, draws), events, i);
  }

  // ---------------------------------------------------------------- runs of the test as written

  /** The timeout test of a query is the one of the code, as in `AsQuery`. */
  predicate AsWritten(s: State, e: Event) {
    e.Query? ==>
      var i := Find(s, e.digest);
      e.timedOut == (i.Some? && HasTimedOut(s.table.records[i.value]))
  }

  /** Only requests sent within the first ten seconds of the epoch have more than one client. */
  ghost predicate EarlyChains(t: Table) {
    forall k :: 0 <= k < |t.records| && t.records[k].chain != [] ==> !HasTimedOut(t.records[k])
  }

  lemma {:induction false} OpenKeepsChains(s: State, e: Event)
    requires TableInv(s.table) && e.Query? && s.servers != [] && OpenEnabled(s, e) && EarlyChains(s.table)
    ensures EarlyChains(Open(s, e).table)
  {
    hide TableInv, PeerTable.GetNewRecord, FirstFresh, Forwards;
    var (t, i) := PeerTable.GetNewRecord(s.table, e.now, false);
    if i.None? {
      RefusedIff(s.table, e.now);
    } else {
      GrantedMeaning(s.table, e.now);
      ServerRuns.GrantShrinks(s.table, e.now);
      forall k | 0 <= k < |t.records| && t.records[k].chain != []
        ensures !HasTimedOut(t.records[k])
      {
        ServerRuns.TableFacts(t, k);
      }
    }
  }

  lemma {:induction false} StepKeepsChains(s: State, e: Event)
    requires TableInv(s.table) && Enabled(s, e) && AsWritten(s, e) && EarlyChains(s.table)
    ensures EarlyChains(Step(s, e).table)
  {
    hide TableInv, Open, OpenEnabled, Waiting, Forwards, Answers, PeerTable.Lookup, FindServer;
    if e.Query? && s.servers != [] && Find(s, e.digest).None? {
      OpenKeepsChains(s, e);
    }
  }

  lemma {:induction false} ChainsEarly(states: seq<State>, events: seq<Event>, n: nat)
    requires ServerRuns.Execution(states, events) && n <= |events|
    requires forall j :: 0 <= j < n ==> AsWritten(states[j], events[j])
    ensures EarlyChains(states[n].table)
  {
    hide Step, Enabled, AsWritten, EarlyChains, ServerRuns.Inv;
    if n == 0 {
      NoChains();
    } else {
      ChainsEarly(states, events, n - 1);
      ServerRuns.RunKeeps(states, events, n - 1);
      ServerDelivery.InvTable(states[n - 1], events[..n - 1]);
      StepKeepsChains(states[n - 1], events[n - 1]);
      assert states[n] == Step(states[n - 1], events[n - 1]);
    }
  }

  lemma {:induction false} NoChains()
    ensures EarlyChains(Table([], [], 0))
  {
  }

  /** In a run of the code as written the timeout branch never drops a waiting client: what it
      takes for timed out never has a second one. */
  lemma {:induction false} NeverDropsAsWritten(states: seq<State>, events: seq<Event>, n: nat, i: nat, a: nat)
    requires ServerRuns.Execution(states, events) && n < |events| && ServerRuns.IsClient(states[n].table, i, a)
    requires forall j :: 0 <= j <= n ==> AsWritten(states[j], events[j])
    ensures !ServerDelivery.TimeoutDrops(states[n], events[n], i, a)
  {
    hide ServerRuns.Execution, Find;
    ChainsEarly(states, events, n);
  }

  lemma {:induction false} FirstGrant(now: int, draws: seq<u16>)
    ensures var t := PeerTable.GetNewRecord(Table([], [], 0), now, false).0;
            && PeerTable.GetNewRecord(Table([], [], 0), now, false).1 == Some(0) && t == Table([NewRequest(now)], [], 0)
            && (draws != [] ==> FirstFresh(t.records, draws) == Some(draws[0]))
  {
    assert !InUse([NewRequest(now)], if draws == [] then 0 else draws[0]);
  }

  /** A run that shows it: at second 11 one client asks, at second 12 another asks the same,
      and the second is neither registered nor refused. */
  lemma {:induction false} SecondClientIsLost(p: Packet) returns (states: seq<State>, events: seq<Event>)
    ensures ServerRuns.Execution(states, events) && |events| == 2
    ensures var a, b := Endpoint([], 1), Endpoint([], 2);
            && events[0] == AsQuery(states[0], 11, p, a, true, [7])
            && events[1] == AsQuery(states[1], 12, p, b, true, [])
    ensures |states[1].table.records| == 1 && InFlight(states[1].table.records[0]) && states[1].table.records[0].time == 11
    ensures ServerDelivery.Gone(states[2].table, 1)
    ensures forall o :: o in states[2].outputs ==> !ServerRuns.IsReply(o)
  {
    hide PacketDigest, PeerTable.GetNewRecord, FirstFresh;
    var server := Server(Endpoint([], 53), true, Stats(0, 0, 0, 0, Latency.Average(0, 0)));
    var s0 := State(Table([], [], 0), [server], [], 0);
    var e0 := AsQuery(s0, 11, p, Endpoint([], 1), true, [7]);
    FirstGrant(11, [7]);
    var s1 := Step(s0, e0);
    var e1 := AsQuery(s1, 12, p, Endpoint([], 2), true, []);
    states, events := [s0, s1, Step(s1, e1)], [e0, e1];
  }
}

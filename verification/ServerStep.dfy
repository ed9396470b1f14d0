/** `DnsServer::resolve` and `DnsServer::processUpstreamResponse` (src/dns/server.cpp) as steps
    of a state machine. */
module ServerStep {
  import opened Bytes
  import opened Packets
  import opened PeerTable
  import Latency

  datatype Stats = Stats(queries: u32, invalids: u32, nosources: u32, failed: u32, average: Latency.Average)

  datatype Server = Server(endpoint: Endpoint, ipv4: bool, stats: Stats)

  /** What `sendPacket` puts on the wire. As history, a refusal records the step of its query
      and an answer the client it is for, the digest of the response and the step. */
  datatype Output =
    | ToServer(endpoint: Endpoint, ipv4: bool, packet: Packet)
    | Refusal(endpoint: Endpoint, ipv4: bool, packet: Packet, token: nat)
    | Answer(endpoint: Endpoint, ipv4: bool, packet: Packet, token: nat, digest: Digest, step: nat)

  datatype State = State(table: Table, servers: seq<Server>, outputs: seq<Output>, steps: nat)

  /** A client query, with what the clock, the random generator and the timeout test yield,
      or an upstream response, with what validation and the latency clock yield. */
  datatype Event =
    | Query(now: int, packet: Packet, digest: Digest, endpoint: Endpoint, ipv4: bool,
            timedOut: bool, draws: seq<u16>)
    | Response(packet: Packet, digest: Digest, endpoint: Endpoint, valid: bool, sample: int)

  // ---------------------------------------------------------------- packets

  function WithId(p: Packet, id: u16): Packet {
    p.(header := p.header.(id := id))
  }

  /** `hb4 |= 1`: the other bits stay. */
  function SetBit0(b: byte): (r: byte)
    ensures r % 2 == 1 && r / 2 == b / 2
  {
    b / 2 * 2 + 1
  }

  /** `hb4 |= 4`. */
  function SetBit2(b: byte): (r: byte)
    ensures r % 8 == 4 + b % 4 && r / 8 == b / 8
  {
    b / 8 * 8 + (4 + b % 4)
  }

  /** `hb4 |= 128`. */
  function SetBit7(b: byte): (r: byte)
    ensures r / 128 == 1 && r % 128 == b % 128
  {
    128 + b % 128
  }

  /** SetRecursionAvailable(true). */
  function WithRecursionAvailable(p: Packet): Packet {
    p.(header := p.header.(hb4 := SetBit7(p.header.hb4)))
  }

  /** SetResponseCode(E_REFUSED): five has the bits 4 and 1. */
  function Refused(p: Packet): Packet {
    p.(header := p.header.(hb4 := SetBit0(SetBit2(p.header.hb4))))
  }

  function ResponseCode(p: Packet): nat {
    p.header.hb4 % 16
  }

  // ---------------------------------------------------------------- client queries

  function NewSource(s: State, e: Event): Source
    requires e.Query?
  {
    Source(e.endpoint, e.ipv4, e.packet.header.id, s.steps)
  }

  /** The search through a record's sources. */
  predicate Waiting(r: Request, c: Source) {
    exists a :: 0 <= a < |Clients(r)| && SameClient(Clients(r)[a], c)
  }

  function Refuse(s: State, e: Event): State
    requires e.Query?
  {
    s.(outputs := s.outputs + [Refusal(e.endpoint, e.ipv4, Refused(e.packet), s.steps)])
  }

  function Forwards(servers: seq<Server>, p: Packet): (outs: seq<Output>)
    ensures |outs| == |servers|
  {
    seq(|servers|, k requires 0 <= k < |servers| => ToServer(servers[k].endpoint, servers[k].ipv4, p))
  }

  function Bump(v: u32): u32 {
    (v + 1) % 0x1_0000_0000
  }

  function CountQuery(server: Server): Server {
    server.(stats := server.stats.(queries := Bump(server.stats.queries)))
  }

  /** The loop over the servers: `sentTo` ends at the last one. */
  function Forward(s: State, i: nat, p: Packet): State
    requires i < |s.table.records| && s.servers != []
  {
    s.(table := s.table.(records := s.table.records[i := s.table.records[i].(sentTo := Some(|s.servers| - 1))]),
       servers := seq(|s.servers|, k requires 0 <= k < |s.servers| => CountQuery(s.servers[k])),
       outputs := s.outputs + Forwards(s.servers, p))
  }

  /** The query joins a request in flight. */
  function Join(s: State, e: Event, i: nat): State
    requires e.Query? && i < |s.table.records|
  {
    var r := s.table.records[i];
    var c := NewSource(s, e);
    if Waiting(r, c) then (if e.now - r.time < 2 then Refuse(s, e) else s)
    else
      var (t, ok) := GetNewPeerSource(s.table);
      if !ok then Refuse(s.(table := t), e)
      else s.(table := t.(records := t.records[i := r.(chain := r.chain + [c])]))
  }

  /** The fields that `resolve` fills in. */
  function Opened(r: Request, c: Source, id: u16, digest: Digest): Request {
    r.(source := c, newId := id, hash := digest, flags := 0)
  }

  /** The query opens a new request. */
  function Open(s: State, e: Event): State
    requires e.Query? && s.servers != [] && OpenEnabled(s, e)
  {
    var (t, i) := GetNewRecord(s.table, e.now, false);
    if i.None? then Refuse(s.(table := t), e)
    else
      var id := FirstFresh(t.records, e.draws).value;
      var u := t.(records := t.records[i.value := Opened(t.records[i.value], NewSource(s, e), id, e.digest)]);
      Forward(s.(table := u), i.value, WithId(e.packet, id))
  }

  /** The random generator comes up with an unused ID. */
  predicate OpenEnabled(s: State, e: Event)
    requires e.Query?
  {
    var (t, i) := GetNewRecord(s.table, e.now, false);
    i.Some? ==> i.value < |t.records| && FirstFresh(t.records, e.draws).Some? && FirstFresh(t.records, e.draws).value > 0
  }

  function Find(s: State, digest: Digest): (i: Option<nat>)
    ensures i.Some? ==> i.value < |s.table.records| && InFlight(s.table.records[i.value])
                        && s.table.records[i.value].hash == digest
  {
    LookupByQuery(s.table.records, |s.table.records|, digest)
  }

  predicate Enabled(s: State, e: Event) {
    e.Query? && s.servers != [] && Find(s, e.digest).None? ==> OpenEnabled(s, e)
  }

  /** `resolve`. In the timeout branch the freed record is sent again under the client's own ID. */
  function Resolve(s: State, e: Event): State
    requires e.Query? && Enabled(s, e)
  {
    if s.servers == [] then s
    else
      var i := Find(s, e.digest);
      if i.None? then Open(s, e)
      else if !e.timedOut then Join(s, e, i.value)
      else Forward(s.(table := Free(s.table, i.value)), i.value, e.packet)
  }

  // ---------------------------------------------------------------- upstream responses

  function FindServer(servers: seq<Server>, endpoint: Endpoint, n: nat): (k: Option<nat>)
    requires n <= |servers|
    ensures k.Some? ==> n <= k.value < |servers| && servers[k.value].endpoint == endpoint
    ensures k.None? ==> forall j :: n <= j < |servers| ==> servers[j].endpoint != endpoint
    decreases |servers| - n
  {
    if n == |servers| then None
    else if servers[n].endpoint == endpoint then Some(n) else FindServer(servers, endpoint, n + 1)
  }

  /** Position in `Clients(r)` of the client answered in turn `k`: the embedded source first,
      then the chain from its head. */
  function Turn(n: nat, k: nat): nat
    requires k < n
  {
    if k == 0 then 0 else n - k
  }

  function AnswerTo(c: Source, e: Event, step: nat): Output
    requires e.Response?
  {
    Answer(c.endpoint, c.ipv4, WithId(WithRecursionAvailable(e.packet), c.originalId), c.token, e.digest, step)
  }

  function Answers(r: Request, e: Event, step: nat): (outs: seq<Output>)
    requires e.Response?
    ensures |outs| == |Clients(r)|
  {
    var cs := Clients(r);
    seq(|cs|, k requires 0 <= k < |cs| => AnswerTo(cs[Turn(|cs|, k)], e, step))
  }

  function Measured(server: Server, e: Event): Server
    requires e.Response?
  {
    var failed := if ResponseCode(e.packet) != 0 then Bump(server.stats.failed) else server.stats.failed;
    server.(stats := server.stats.(failed := failed, average := Latency.Next(server.stats.average, e.sample)))
  }

  /** `processUpstreamResponse`. */
  function Respond(s: State, e: Event): State
    requires e.Response?
  {
    var k := FindServer(s.servers, e.endpoint, 0);
    if k.None? then s
    else
      var server := s.servers[k.value];
      if !e.valid then
        s.(servers := s.servers[k.value := server.(stats := server.stats.(invalids := Bump(server.stats.invalids)))])
      else
        var i := Lookup(s.table.records, |s.table.records|, e.packet.header.id, e.digest);
        if i.None? then
          s.(servers := s.servers[k.value := server.(stats := server.stats.(nosources := Bump(server.stats.nosources)))])
        else
          s.(servers := s.servers[k.value := Measured(server, e)],
             outputs := s.outputs + Answers(s.table.records[i.value], e, s.steps),
             table := Free(s.table, i.value))
  }

  function Step(s: State, e: Event): State
    requires Enabled(s, e)
  {
    var u := if e.Query? then Resolve(s, e) else Respond(s, e);
    u.(steps := s.steps + 1)
  }
}

/** From a client's query to its answer. */
module ServerDelivery {
  import opened Bytes
  import opened Packets
  import opened PeerTable
  import opened ServerStep
  import opened ServerRuns

  /** What a waiting client depends on: itself and the ID, digest and time of its record. */
  datatype Wait = Wait(client: Source, newId: u16, hash: Digest, time: int)

  ghost function WaitAt(t: Table, i: nat, a: nat): Wait
    requires IsClient(t, i, a)
  {
    var r := t.records[i];
    Wait(ClientAt(t, i, a), r.newId, r.hash, r.time)
  }

  ghost predicate Waits(t: Table, i: nat, a: nat, w: Wait) {
    IsClient(t, i, a) && WaitAt(t, i, a) == w
  }

  /** The client is still at its place. */
  ghost predicate Stays(t: Table, u: Table, i: nat, a: nat)
    requires IsClient(t, i, a)
  {
    IsClient(u, i, a) && ClientAt(u, i, a) == ClientAt(t, i, a)
  }

  /** Nobody waits who registered in step `token`. */
  ghost predicate Gone(t: Table, token: nat) {
    forall j, b :: IsClient(t, j, b) ==> ClientAt(t, j, b).token != token
  }

  /** One of the outputs from `from` on answers the client `token`. */
  ghost predicate AnswersFrom(outs: seq<Output>, from: nat, token: nat) {
    exists m :: from <= m < |outs| && outs[m].Answer? && outs[m].token == token
  }

  /** A repeated query takes the timeout branch, which frees the chain of record `i`: all its
      clients but the first. */
  ghost predicate TimeoutDrops(s: State, e: Event, i: nat, a: nat) {
    e.Query? && s.servers != [] && e.timedOut && Find(s, e.digest) == Some(i) && a > 0
  }

  /** A query for a question nobody is asking takes the request off record `i`. */
  ghost predicate Evicts(s: State, e: Event, i: nat) {
    && e.Query? && s.servers != [] && Find(s, e.digest).None?
    && i < |s.table.records| && Evicted(s.table, e.now, i)
  }

  /** A valid response from a known server, with the ID and the digest of record `i`. */
  ghost predicate Echoes(s: State, e: Event, i: nat) {
    && e.Response? && e.valid && FindServer(s.servers, e.endpoint, 0).Some?
    && i < |s.table.records| && InFlight(s.table.records[i])
    && e.packet.header.id == s.table.records[i].newId && e.digest == s.table.records[i].hash
  }

  /** What ends the wait of client `a` of record `i`, as seen before the step. */
  ghost predicate Ends(s: State, e: Event, i: nat, a: nat) {
    Evicts(s, e, i) || TimeoutDrops(s, e, i, a) || Echoes(s, e, i)
  }

  // ---------------------------------------------------------------- where clients come from

  /** Every client of `u` was a client of `t` at the same place, or registered in step `now`. */
  ghost predicate Grows(t: Table, u: Table, now: nat) {
    forall i, a :: IsClient(u, i, a) ==>
                     ClientAt(u, i, a).token == now
                     || (IsClient(t, i, a) && ClientAt(u, i, a) == ClientAt(t, i, a))
  }

  lemma {:induction false} JoinGrows(s: State, e: Event, i: nat)
    requires e.Query? && i < |s.table.records| && InFlight(s.table.records[i])
    ensures Grows(s.table, Join(s, e, i).table, s.steps)
  {
    hide Waiting;
  }

  lemma {:induction false} OpenGrows(s: State, e: Event)
    requires TableInv(s.table) && e.Query? && s.servers != [] && OpenEnabled(s, e)
    ensures Grows(s.table, Open(s, e).table, s.steps)
  {
    hide TableInv, GetNewRecord, FirstFresh, Forwards;
    var (t, i) := GetNewRecord(s.table, e.now, false);
    if i.Some? {
      GrantedMeaning(s.table, e.now);
      GrantShrinks(s.table, e.now);
      TableFacts(t, i.value);
      var u := Open(s, e).table;
      assert forall k :: 0 <= k < |u.records| && k != i.value ==> u.records[k] == t.records[k];
      assert Clients(u.records[i.value]) == [NewSource(s, e)] + [];
    } else {
      RefusedIff(s.table, e.now);
    }
  }

  lemma {:induction false} ResolveGrows(s: State, e: Event)
    requires TableInv(s.table) && e.Query? && Enabled(s, e)
    ensures Grows(s.table, Resolve(s, e).table, s.steps)
  {
    hide TableInv, Join, Open, OpenEnabled;
    if s.servers != [] {
      var i := Find(s, e.digest);
      if i.None? {
        OpenGrows(s, e);
      } else if !e.timedOut {
        JoinGrows(s, e, i.value);
      }
    }
  }

  lemma {:induction false} StepGrows(s: State, e: Event)
    requires TableInv(s.table) && Enabled(s, e)
    ensures Grows(s.table, Step(s, e).table, s.steps)
  {
    hide TableInv, Resolve, Enabled, Answers, Grows;
    if e.Query? {
      ResolveGrows(s, e);
    } else {
      RespondGrows(s, e);
    }
  }

  lemma {:induction false} RespondGrows(s: State, e: Event)
    requires e.Response?
    ensures Grows(s.table, Respond(s, e).table, s.steps)
  {
    hide Answers, Lookup, FindServer;
  }

  /** A client that is no longer at its place is nowhere. */
  lemma {:induction false} Vanished(s: State, u: Table, events: seq<Event>, i: nat, a: nat)
    requires Inv(s, events) && Grows(s.table, u, s.steps) && IsClient(s.table, i, a)
    requires IsClient(u, i, a) ==> ClientAt(u, i, a) != ClientAt(s.table, i, a)
    ensures Gone(u, ClientAt(s.table, i, a).token)
  {
    hide IsClient, ClientAt, TableInv, RepliesRight, RepliesOnce, WaitingUnanswered;
    OldToken(s, events, i, a);
  }

  /** And it never comes back. */
  lemma {:induction false} GoneStays(t: Table, u: Table, now: nat, token: nat)
    requires Gone(t, token) && Grows(t, u, now) && token < now
    ensures Gone(u, token)
  {
    hide IsClient, ClientAt;
  }

  // ---------------------------------------------------------------- one step

  /** Opening a request keeps every client of the records that are not evicted, and no other. */
  lemma {:induction false} OpenCarriesIff(s: State, e: Event, i: nat, a: nat)
    requires TableInv(s.table) && e.Query? && s.servers != [] && OpenEnabled(s, e)
    requires IsClient(s.table, i, a) && ClientAt(s.table, i, a).token < s.steps
    ensures !Evicted(s.table, e.now, i) ==> Waits(Open(s, e).table, i, a, WaitAt(s.table, i, a))
    ensures Evicted(s.table, e.now, i) ==> !Stays(s.table, Open(s, e).table, i, a)
  {
    hide TableInv, GetNewRecord, FirstFresh, Forwards, Evicted;
    var (t, j) := GetNewRecord(s.table, e.now, false);
    EvictedIff(s.table, e.now, i);
    if j.Some? {
      GrantedMeaning(s.table, e.now);
      TableFacts(t, j.value);
      assert Clients(Open(s, e).table.records[j.value]) == [NewSource(s, e)] + [];
    } else {
      RefusedIff(s.table, e.now);
    }
  }

  lemma {:induction false} JoinCarries(s: State, e: Event, k: nat, i: nat, a: nat)
    requires e.Query? && k < |s.table.records| && IsClient(s.table, i, a)
    ensures Waits(Join(s, e, k).table, i, a, WaitAt(s.table, i, a))
  {
    hide Waiting;
  }

  lemma {:induction false} TimeoutEmpties(s: State, e: Event, i: nat, a: nat)
    requires TimeoutDrops(s, e, i, a) && Enabled(s, e)
    ensures !IsClient(Resolve(s, e).table, i, a)
  {
    hide Find, Forwards;
  }

  lemma {:induction false} ResendCarries(s: State, e: Event, i: nat, a: nat)
    requires e.Query? && s.servers != [] && e.timedOut && Find(s, e.digest).Some? && Enabled(s, e)
    requires IsClient(s.table, i, a) && !(Find(s, e.digest) == Some(i) && a > 0)
    ensures Waits(Resolve(s, e).table, i, a, WaitAt(s.table, i, a))
  {
    hide Find, Forwards;
  }

  lemma {:induction false} QueryCarriesIff(s: State, e: Event, events: seq<Event>, i: nat, a: nat)
    requires Inv(s, events) && e.Query? && Enabled(s, e) && IsClient(s.table, i, a)
    ensures !Ends(s, e, i, a) ==> Waits(Step(s, e).table, i, a, WaitAt(s.table, i, a))
    ensures Ends(s, e, i, a) ==> !Stays(s.table, Step(s, e).table, i, a)
  {
    hide Inv, Open, OpenEnabled, Join, Forward, Free, Find, Evicted, ClientAt;
    InvTable(s, events);
    OldToken(s, events, i, a);
    if s.servers != [] {
      var k := Find(s, e.digest);
      if k.None? {
        OpenCarriesIff(s, e, i, a);
      } else if !e.timedOut {
        JoinCarries(s, e, k.value, i, a);
      } else if TimeoutDrops(s, e, i, a) {
        TimeoutEmpties(s, e, i, a);
      } else {
        ResendCarries(s, e, i, a);
      }
    }
  }

  lemma {:induction false} ResponseCarriesIff(s: State, e: Event, events: seq<Event>, i: nat, a: nat)
    requires Inv(s, events) && e.Response? && IsClient(s.table, i, a)
    ensures !Ends(s, e, i, a) ==> Waits(Step(s, e).table, i, a, WaitAt(s.table, i, a))
    ensures Ends(s, e, i, a) ==> !Stays(s.table, Step(s, e).table, i, a)
  {
    hide TableInv, History, Answers, Lookup, FindServer;
    LookupsUnique(s.table, i);
  }

  /** A step leaves a waiting client alone exactly when it does not end its wait. If it does, the
      client is gone, answered exactly by a response that echoes its record. */
  lemma {:induction false} StepCarries(s: State, e: Event, events: seq<Event>, i: nat, a: nat)
    requires Inv(s, events) && Enabled(s, e) && IsClient(s.table, i, a)
    ensures var w, u := WaitAt(s.table, i, a), Step(s, e);
            && (Waits(u.table, i, a, w) <==> !Ends(s, e, i, a))
            && (Ends(s, e, i, a) ==> Gone(u.table, w.client.token))
            && (AnswersFrom(u.outputs, |s.outputs|, w.client.token) <==> Echoes(s, e, i))
  {
    hide Inv, Step, Enabled, IsClient, ClientAt, AnswersFrom, TimeoutDrops, Evicts, Gone;
    var w := WaitAt(s.table, i, a);
    if e.Query? {
      QueryCarriesIff(s, e, events, i, a);
      QueryAnswersNobody(s, e, w.client.token);
    } else {
      ResponseCarriesIff(s, e, events, i, a);
      AnsweredIff(s, e, events, i, a);
    }
    if Ends(s, e, i, a) {
      InvTable(s, events);
      StepGrows(s, e);
      Vanished(s, Step(s, e).table, events, i, a);
    }
  }

  lemma {:induction false} QueryAnswersNobody(s: State, e: Event, token: nat)
    requires e.Query? && Enabled(s, e)
    ensures !AnswersFrom(Step(s, e).outputs, |s.outputs|, token)
  {
    hide GetNewRecord, GetNewPeerSource, FirstFresh, Waiting, Find;
  }

  lemma {:induction false} AnsweredIff(s: State, e: Event, events: seq<Event>, i: nat, a: nat)
    requires Inv(s, events) && e.Response? && IsClient(s.table, i, a)
    ensures AnswersFrom(Step(s, e).outputs, |s.outputs|, ClientAt(s.table, i, a).token) <==> Echoes(s, e, i)
  {
    hide Inv, Step, FindServer, Gone, Find, Evicted;
    var w := WaitAt(s.table, i, a);
    if Echoes(s, e, i) {
      ResponseDelivers(s, e, events, i, a);
    } else if AnswersFrom(Step(s, e).outputs, |s.outputs|, w.client.token) {
      ResponseCarriesIff(s, e, events, i, a);
      AnsweredIsGone(s, e, events, w.client.token);
      GoneWaitsNot(Step(s, e).table, i, a, w);
    }
  }

  lemma {:induction false} AnsweredIsGone(s: State, e: Event, events: seq<Event>, token: nat)
    requires Inv(s, events) && Enabled(s, e) && AnswersFrom(Step(s, e).outputs, |s.outputs|, token)
    ensures Gone(Step(s, e).table, token)
  {
    hide Step, Enabled, IsClient, ClientAt, TableInv, RepliesRight, RepliesOnce, Registered, TokensDistinct;
    StepKeeps(s, e, events);
  }

  /** Below an age of 10 s a query keeps a waiting client exactly when the timeout branch does
      not drop it; if it does, the client is gone. */
  lemma {:induction false} QueryKeepsIff(s: State, e: Event, events: seq<Event>, i: nat, a: nat)
    requires Inv(s, events) && e.Query? && Enabled(s, e) && IsClient(s.table, i, a)
    requires e.now - s.table.records[i].time < 10
    ensures Waits(Step(s, e).table, i, a, WaitAt(s.table, i, a)) <==> !TimeoutDrops(s, e, i, a)
    ensures TimeoutDrops(s, e, i, a) ==> Gone(Step(s, e).table, ClientAt(s.table, i, a).token)
  {
    hide Inv, Step, Enabled, Gone, TimeoutDrops, Find;
    StepCarries(s, e, events, i, a);
  }

  // ---------------------------------------------------------------- runs

  /** Through any run a client waits on, under the same ID and digest, exactly until a step
      ends its wait, and then it is gone for good. */
  lemma {:induction false} CarriedUntilEnded(states: seq<State>, events: seq<Event>, m: nat, n: nat, i: nat, a: nat)
    requires Execution(states, events) && m <= n <= |events| && IsClient(states[m].table, i, a)
    ensures var w := WaitAt(states[m].table, i, a);
            && (Waits(states[n].table, i, a, w) <==> forall j :: m <= j < n ==> !Ends(states[j], events[j], i, a))
            && (Waits(states[n].table, i, a, w) || Gone(states[n].table, w.client.token))
            && w.client.token < m
    decreases n
  {
    hide Inv, Step, Enabled, Ends, IsClient, ClientAt, Gone;
    var w := WaitAt(states[m].table, i, a);
    RunKeeps(states, events, m);
    OldToken(states[m], events[..m], i, a);
    InvTable(states[m], events[..m]);
    if m < n {
      hide Waits;
      CarriedUntilEnded(states, events, m, n - 1, i, a);
      RunKeeps(states, events, n - 1);
      InvTable(states[n - 1], events[..n - 1]);
      WaitStep(states[n - 1], events[n - 1], events[..n - 1], i, a, w);
      assert states[n] == Step(states[n - 1], events[n - 1]);
    }
  }

  /** Waiting on takes waiting before and a step that does not end it; being gone is for good. */
  lemma {:induction false} WaitStep(s: State, e: Event, events: seq<Event>, i: nat, a: nat, w: Wait)
    requires Inv(s, events) && Enabled(s, e) && w.client.token < s.steps
    requires Waits(s.table, i, a, w) || Gone(s.table, w.client.token)
    ensures Waits(Step(s, e).table, i, a, w) <==> Waits(s.table, i, a, w) && !Ends(s, e, i, a)
    ensures Waits(Step(s, e).table, i, a, w) || Gone(Step(s, e).table, w.client.token)
  {
    hide Inv, Step, Enabled, Ends, IsClient, ClientAt, Gone;
    if Waits(s.table, i, a, w) {
      StepCarries(s, e, events, i, a);
    } else {
      InvTable(s, events);
      StepGrows(s, e);
      GoneStays(s.table, Step(s, e).table, s.steps, w.client.token);
      GoneWaitsNot(Step(s, e).table, i, a, w);
    }
  }

  lemma {:induction false} GoneWaitsNot(t: Table, i: nat, a: nat, w: Wait)
    requires Gone(t, w.client.token)
    ensures !Waits(t, i, a, w)
  {
  }

  /** A query for a question nobody is asking, when a record is to be had. */
  ghost predicate Opens(s: State, e: Event, i: nat) {
    e.Query? && s.servers != [] && Find(s, e.digest).None? && GetNewRecord(s.table, e.now, false).1 == Some(i)
  }

  /** It puts the client first on record `i`, under a fresh ID, and sends the query to every
      server under that ID. */
  lemma {:induction false} OpeningRegisters(s: State, e: Event, i: nat)
    requires Opens(s, e, i) && Enabled(s, e) && TableInv(s.table)
    ensures var u := Step(s, e);
            && i < |u.table.records| && InFlight(u.table.records[i])
            && var r := u.table.records[i];
               && r.source == Source(e.endpoint, e.ipv4, e.packet.header.id, s.steps)
               && r.hash == e.digest && r.newId > 0 && r.time == e.now
               && |u.outputs| == |s.outputs| + |s.servers|
               && forall k :: 0 <= k < |s.servers| ==>
                    var o := u.outputs[|s.outputs| + k];
                    o.ToServer? && o.endpoint == s.servers[k].endpoint && o.ipv4 == s.servers[k].ipv4
                    && IsUnder(o.packet, e.packet, r.newId)
  {
    hide GetNewRecord, FirstFresh, TableInv;
    GrantedMeaning(s.table, e.now);
  }

  /** The output is the response, sent to client `c` under the client's own ID. */
  ghost predicate IsAnswerTo(o: Output, c: Source, e: Event, step: nat) {
    && o.Answer? && e.Response?
    && o.endpoint == c.endpoint && o.ipv4 == c.ipv4 && IsAnswerUnder(o.packet, e.packet, c.originalId)
    && o.token == c.token && o.digest == e.digest && o.step == step
  }

  lemma {:induction false} AnswerToFields(c: Source, e: Event, step: nat)
    requires e.Response?
    ensures IsAnswerTo(AnswerTo(c, e, step), c, e, step)
  {
    hide WithId, WithRecursionAvailable, IsAnswerUnder;
    PacketFields(e.packet, c.originalId);
  }

  /** A valid response from a known server with the ID and the digest of record `i` is found
      and goes to every client of the record, each under its own ID. */
  lemma {:induction false} ResponseDelivers(s: State, e: Event, events: seq<Event>, i: nat, a: nat)
    requires Inv(s, events) && e.Response? && i < |s.table.records| && a < |Clients(s.table.records[i])|
    requires FindServer(s.servers, e.endpoint, 0).Some? && e.valid
    requires e.packet.header.id == s.table.records[i].newId && e.digest == s.table.records[i].hash
    ensures var u, c := Step(s, e), Clients(s.table.records[i])[a];
            exists m :: |s.outputs| <= m < |u.outputs| && IsAnswerTo(u.outputs[m], c, e, s.steps)
    ensures Step(s, e).table == Free(s.table, i)
  {
    hide TableInv, History, Lookup, Answers, AnswerTo, FindServer;
    LookupsUnique(s.table, i);
    var n := |Clients(s.table.records[i])|;
    var k := if a == 0 then 0 else n - a;
    AnswersToken(s.table, i, e, s.steps, k);
    assert Turn(n, k) == a;
    AnswerToFields(Clients(s.table.records[i])[a], e, s.steps);
    assert IsAnswerTo(Step(s, e).outputs[|s.outputs| + k], Clients(s.table.records[i])[a], e, s.steps);
  }

  /** The client that registered in step `m` is answered by the response of step `n`. */
  ghost predicate Answered(outs: seq<Output>, events: seq<Event>, m: nat, n: nat)
    requires m < |events| && n < |events| && events[m].Query? && events[n].Response?
  {
    exists o :: o in outs && AnswersQuery(o, events[m], events[n]) && o.token == m && o.step == n
  }

  /** End to end: a client that registered with its query, whether it opened the request or
      joined it, is answered at its endpoint and under its own ID by a valid upstream
      response that echoes the forwarded ID and the questions, exactly when no step in
      between ended its wait. */
  lemma {:induction false} EndToEnd(states: seq<State>, events: seq<Event>, m: nat, n: nat, i: nat, a: nat)
    requires Execution(states, events) && m < n < |events|
    requires IsClient(states[m + 1].table, i, a) && ClientAt(states[m + 1].table, i, a).token == m
    requires var e := events[n]; e.Response? && e.valid && FindServer(states[n].servers, e.endpoint, 0).Some?
    requires events[n].packet.header.id == states[m + 1].table.records[i].newId
    requires events[m].Query? ==> events[n].digest == events[m].digest
    ensures events[m].Query?
    ensures Answered(states[n + 1].outputs, events, m, n)
            <==> forall j :: m < j < n ==> !Ends(states[j], events[j], i, a)
  {
    hide Inv, Step, Enabled, Ends, FindServer, IsClient, ClientAt, Gone, IsAnswerUnder;
    var w := WaitAt(states[m + 1].table, i, a);
    RunKeeps(states, events, m + 1);
    ClientQuery(states[m + 1], events[..m + 1], i, a);
    assert events[..m + 1][m] == events[m];
    CarriedUntilEnded(states, events, m + 1, n, i, a);
    RunKeeps(states, events, n);
    InvTable(states[n], events[..n]);
    assert states[n + 1] == Step(states[n], events[n]);
    if Waits(states[n].table, i, a, w) {
      DeliversTo(states[n], events[n], events[..n], i, a, events[m], w);
    } else {
      GoneUnanswered(states[n], events[n], events[..n], m);
    }
  }

  lemma {:induction false} ClientQuery(s: State, events: seq<Event>, i: nat, a: nat)
    requires Inv(s, events) && IsClient(s.table, i, a)
    ensures FromQuery(events, ClientAt(s.table, i, a), s.table.records[i].hash)
  {
    hide IsClient, ClientAt, FromQuery, TableInv, RepliesRight, RepliesOnce, WaitingUnanswered, TokensDistinct;
  }

  lemma {:induction false} DeliversTo(s: State, e: Event, events: seq<Event>, i: nat, a: nat, q: Event, w: Wait)
    requires Inv(s, events) && e.Response? && e.valid && FindServer(s.servers, e.endpoint, 0).Some?
    requires Waits(s.table, i, a, w) && w.newId == e.packet.header.id && w.hash == e.digest
    requires q.Query? && w.client == Source(q.endpoint, q.ipv4, q.packet.header.id, w.client.token)
    ensures exists o :: o in Step(s, e).outputs && AnswersQuery(o, q, e) && o.token == w.client.token && o.step == s.steps
  {
    hide Inv, Step, FindServer, IsAnswerUnder;
    ResponseDelivers(s, e, events, i, a);
    var outs := Step(s, e).outputs;
    var m :| |s.outputs| <= m < |outs| && IsAnswerTo(outs[m], w.client, e, s.steps);
    assert outs[m] in outs && AnswersQuery(outs[m], q, e);
  }

  /** A client that is gone gets no answer in this step. */
  lemma {:induction false} GoneUnanswered(s: State, e: Event, events: seq<Event>, token: nat)
    requires Inv(s, events) && e.Response? && Gone(s.table, token)
    ensures forall o :: o in Step(s, e).outputs && o.Answer? && o.step == s.steps ==> o.token != token
  {
    hide TableInv, Registered, TokensDistinct, RepliesOnce, WaitingUnanswered, Lookup, FindServer, Answers, Gone, AnswerTo;
    var outs := Step(s, e).outputs;
    forall k | 0 <= k < |outs| && outs[k].Answer?
      ensures outs[k].step == s.steps ==> outs[k].token != token
    {
      if k < |s.outputs| {
        assert RightReply(events, s.outputs[k]);
      } else {
        var i := Lookup(s.table.records, |s.table.records|, e.packet.header.id, e.digest).value;
        AnswersToken(s.table, i, e, s.steps, k - |s.outputs|);
        GoneToken(s.table, token, i, Turn(|Clients(s.table.records[i])|, k - |s.outputs|), e, s.steps);
      }
    }
  }

  lemma {:induction false} GoneToken(t: Table, token: nat, i: nat, a: nat, e: Event, step: nat)
    requires Gone(t, token) && IsClient(t, i, a) && e.Response?
    ensures AnswerTo(ClientAt(t, i, a), e, step).token != token
  {
  }

  lemma {:induction false} InvTable(s: State, events: seq<Event>)
    requires Inv(s, events)
    ensures TableInv(s.table) && s.steps == |events|
  {
  }

  /** The output is the response, sent to the asking client under the client's ID. */
  ghost predicate AnswersQuery(o: Output, q: Event, r: Event)
    requires q.Query? && r.Response?
  {
    && o.Answer? && o.endpoint == q.endpoint && o.ipv4 == q.ipv4
    && IsAnswerUnder(o.packet, r.packet, q.packet.header.id)
  }

  /** A client that asks what is already being asked is registered exactly when the request
      counts as not timed out. The code tests `time > 10` on an absolute time, so with a clock
      past ten seconds such clients are never registered. */
  lemma {:induction false} RepeatRegistersIff(s: State, e: Event, events: seq<Event>, i: nat)
    requires Inv(s, events) && e.Query? && s.servers != [] && Find(s, e.digest) == Some(i) && Enabled(s, e)
    requires !Waiting(s.table.records[i], NewSource(s, e)) && GetNewPeerSource(s.table).1
    ensures (exists a :: IsClient(Step(s, e).table, i, a) && ClientAt(Step(s, e).table, i, a) == NewSource(s, e))
            <==> !e.timedOut
  {
    hide TableInv, History, Waiting, Find;
    var r, u := s.table.records[i], Step(s, e).table;
    var n := |Clients(r)|;
    if !e.timedOut {
      assert Clients(u.records[i]) == Clients(r) + [NewSource(s, e)];
      assert IsClient(u, i, n) && ClientAt(u, i, n) == NewSource(s, e);
    } else {
      assert Clients(u.records[i]) == [r.source] + [];
      OldToken(s, events, i, 0);
    }
  }

  lemma {:induction false} OldToken(s: State, events: seq<Event>, i: nat, a: nat)
    requires Inv(s, events) && IsClient(s.table, i, a)
    ensures ClientAt(s.table, i, a).token < s.steps
  {
    hide IsClient, ClientAt, TableInv, RepliesRight, RepliesOnce, WaitingUnanswered, TokensDistinct;
  }
}

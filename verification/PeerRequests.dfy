/** The loops of src/bookkeeping/peer.cpp, on an object that owns the table. */
module PeerRequests {
  import opened Bytes
  import opened PeerTable

  class Requests {
    var records: seq<Request>
    var sources: seq<Source>
    var sourceCount: nat

    function Contents(): Table
      reads this
    {
      Table(records, sources, sourceCount)
    }

    constructor ()
      ensures Contents() == Table([], [], 0)
    {
      records, sources, sourceCount := [], [], 0;
    }

    method FreePeerRequestRecord(i: nat)
      requires i < |records|
      modifies this
      ensures Contents() == Free(old(Contents()), i)
    {
      var r := records[i];
      sources := sources + r.chain;
      records := records[i := r.(chain := [], sentTo := None, flags := 0)];
    }

    method GetNewRecord(now: int, force: bool) returns (target: Option<nat>)
      modifies this
      ensures (Contents(), target) == PeerTable.GetNewRecord(old(Contents()), now, force)
    {
      hide Expire, Free;
      ghost var t := Contents();
      var oldest: Option<nat>, count: nat;
      target, oldest, count := Collect(now);
      if !force && count >= MAX_FWD_QUERIES {
        return None;
      }
      if target.None? && oldest.Some? && now - records[oldest.value].time >= TIMEOUT {
        ExpireRecord(oldest.value);
        target := oldest;
      }
      if target.None? {
        records := records + [NewRequest(now)];
        return Some(|records| - 1);
      }
      records := records[target.value := records[target.value].(time := now)];
    }

    /** Frees a record because of its age. */
    method ExpireRecord(i: nat)
      requires i < |records|
      modifies this
      ensures Contents() == Expire(old(Contents()), i)
      ensures |records| == old(|records|) && !InFlight(records[i])
      ensures forall k :: 0 <= k < |records| && k != i ==> records[k] == old(records[k])
    {
      FreePeerRequestRecord(i);
      records := records[i := records[i].(fromTimedOut := true)];
    }

    /** The loop of GetNewRecord: collect garbage, look for a free record and for the oldest,
        and count the young ones. */
    method Collect(now: int) returns (target: Option<nat>, oldest: Option<nat>, count: nat)
      modifies this
      ensures Contents() == Swept(old(Contents()), 0, now)
      ensures target == LastFree(records, 0) && oldest == Oldest(records, 0) && count == YoungCount(records, 0, now)
    {
      hide Visited, Expire, Swept, LastFree, Oldest, YoungCount;
      ghost var t := Contents();
      NothingVisited(t, now);
      target, oldest, count := None, None, 0;
      var n := |records|;
      while n > 0
        invariant 0 <= n <= |records|
        invariant oldest.Some? ==> n <= oldest.value < |records|
        invariant Visited(t, Contents(), n, now, target, oldest, count)
      {
        ghost var u, target', oldest', count' := Contents(), target, oldest, count;
        n := n - 1;
        target, oldest := Visit(n, now, target, oldest);
        if records[n].sentTo.Some? && now - records[n].time < TIMEOUT {
          count := count + 1;
        }
        VisitedStep(t, u, n, now, target', oldest', count', Contents());
      }
      assert Visited(t, Contents(), 0, now, target, oldest, count);
      AllVisited(t, Contents(), now, target, oldest, count);
    }

    /** One round: free the record if stale, and bring `target` and `oldest` up to date. */
    method Visit(n: nat, now: int, target0: Option<nat>, oldest0: Option<nat>)
      returns (target: Option<nat>, oldest: Option<nat>)
      requires n < |records| && (oldest0.Some? ==> n < oldest0.value < |records|)
      modifies this
      ensures Contents() == VisitedTable(old(Contents()), n, now) && |records| == old(|records|)
      ensures target == NextTarget(records[n], n, target0) && oldest == NextOldest(records, n, oldest0)
    {
      hide Expire;
      target, oldest := target0, oldest0;
      var r := records[n];
      if r.sentTo.None? {
        target := Some(n);
      } else if now - r.time >= 4 * TIMEOUT {
        ExpireRecord(n);
        target := Some(n);
      } else if oldest.None? || r.time <= records[oldest.value].time {
        oldest := Some(n);
      }
    }

    method Lookup(id: u16, hash: Digest) returns (i: Option<nat>)
      ensures i == PeerTable.Lookup(records, |records|, id, hash)
    {
      var n := |records|;
      while n > 0
        invariant 0 <= n <= |records|
        invariant PeerTable.Lookup(records, |records|, id, hash) == PeerTable.Lookup(records, n, id, hash)
      {
        n := n - 1;
        var r := records[n];
        if r.sentTo.Some? && r.newId == id && r.hash == hash {
          return Some(n);
        }
      }
      return None;
    }

    method LookupByQuery(hash: Digest) returns (i: Option<nat>)
      ensures i == PeerTable.LookupByQuery(records, |records|, hash)
    {
      var n := |records|;
      while n > 0
        invariant 0 <= n <= |records|
        invariant PeerTable.LookupByQuery(records, |records|, hash) == PeerTable.LookupByQuery(records, n, hash)
      {
        n := n - 1;
        var r := records[n];
        if r.sentTo.Some? && r.flags % 8 == 0 && r.hash == hash {
          return Some(n);
        }
      }
      return None;
    }

    method GetNewPeerSource() returns (ok: bool)
      modifies this
      ensures (Contents(), ok) == PeerTable.GetNewPeerSource(old(Contents()))
    {
      if sources == [] && sourceCount < MAX_FWD_QUERIES {
        sources := [NO_SOURCE];
        sourceCount := sourceCount + 1;
      }
      if sources != [] {
        sources := sources[..|sources| - 1];
        return true;
      }
      return false;
    }

    /** Tries the random draws in order; None when none of them is free. */
    method GetNewId(draws: seq<u16>) returns (id: Option<u16>)
      ensures id == FirstFresh(records, draws)
    {
      var k := 0;
      assert draws[0..] == draws;
      while k < |draws|
        invariant 0 <= k <= |draws|
        invariant FirstFresh(records, draws) == FirstFresh(records, draws[k..])
      {
        assert draws[k..][1..] == draws[k + 1..];
        var found := IsUsed(draws[k]);
        if !found {
          return Some(draws[k]);
        }
        k := k + 1;
      }
      return None;
    }

    method IsUsed(id: u16) returns (found: bool)
      ensures found <==> InUse(records, id)
    {
      var n := |records|;
      while n > 0
        invariant 0 <= n <= |records|
        invariant forall k :: n <= k < |records| ==> !(InFlight(records[k]) && records[k].newId == id)
      {
        n := n - 1;
        if records[n].sentTo.Some? && records[n].newId == id {
          return true;
        }
      }
      return false;
    }
  }

  /** One round of the loop of GetNewRecord: the table and two of its variables. */
  function VisitedTable(u: Table, n: nat, now: int): (v: Table)
    requires n < |u.records|
    ensures |v.records| == |u.records| && forall k :: 0 <= k < |u.records| && k != n ==> v.records[k] == u.records[k]
  {
    if Stale(u.records[n], now) then Expire(u, n) else u
  }

  function NextTarget(r: Request, n: nat, target: Option<nat>): Option<nat> {
    if InFlight(r) then target else Some(n)
  }

  function NextOldest(rs: seq<Request>, n: nat, oldest: Option<nat>): Option<nat>
    requires n < |rs| && (oldest.Some? ==> oldest.value < |rs|)
  {
    if InFlight(rs[n]) && (oldest.None? || rs[n].time <= rs[oldest.value].time) then Some(n) else oldest
  }

  /** The state of the loop when it has visited the records of `t` from `n` on. */
  ghost predicate Visited(t: Table, u: Table, n: nat, now: int, target: Option<nat>, oldest: Option<nat>, count: nat) {
    && n <= |t.records| == |u.records|
    && u == Swept(t, n, now)
    && target == LastFree(u.records, n) && oldest == Oldest(u.records, n) && count == YoungCount(u.records, n, now)
  }

  lemma {:induction false} NothingVisited(t: Table, now: int)
    ensures Visited(t, t, |t.records|, now, None, None, 0)
  {
  }

  lemma {:induction false} VisitedStep(t: Table, u: Table, n: nat, now: int, target: Option<nat>, oldest: Option<nat>, count: nat,
                                       v: Table)
    requires Visited(t, u, n + 1, now, target, oldest, count) && n < |u.records| && v == VisitedTable(u, n, now)
    requires oldest.Some? ==> oldest.value < |u.records|
    ensures Visited(t, v, n, now, NextTarget(v.records[n], n, target), NextOldest(v.records, n, oldest),
                    count + if Young(v.records[n], now) then 1 else 0)
  {
    hide VisitedTable, Swept, LastFree, Oldest, YoungCount, NextTarget, NextOldest, Young;
    SweptStep(t, n, now);
    SameSuffix(u.records, v.records, n + 1, now);
    VariablesStep(v.records, n, now);
  }

  lemma {:induction false} SweptStep(t: Table, n: nat, now: int)
    requires n < |t.records|
    ensures Swept(t, n, now) == VisitedTable(Swept(t, n + 1, now), n, now)
  {
    hide Expire, Stale;
  }

  lemma {:induction false} VariablesStep(rs: seq<Request>, n: nat, now: int)
    requires n < |rs|
    ensures LastFree(rs, n) == NextTarget(rs[n], n, LastFree(rs, n + 1))
    ensures Oldest(rs, n) == NextOldest(rs, n, Oldest(rs, n + 1))
    ensures YoungCount(rs, n, now) == YoungCount(rs, n + 1, now) + if Young(rs[n], now) then 1 else 0
  {
  }

  lemma {:induction false} AllVisited(t: Table, u: Table, now: int, target: Option<nat>, oldest: Option<nat>, count: nat)
    requires Visited(t, u, 0, now, target, oldest, count)
    ensures u == Swept(t, 0, now)
    ensures target == LastFree(u.records, 0) && oldest == Oldest(u.records, 0) && count == YoungCount(u.records, 0, now)
  {
  }

  /** The variables of the loop depend only on the records visited. */
  lemma {:induction false} SameSuffix(rs: seq<Request>, rs': seq<Request>, n: nat, now: int)
    requires |rs| == |rs'| && n <= |rs| && forall k :: n <= k < |rs| ==> rs[k] == rs'[k]
    ensures LastFree(rs, n) == LastFree(rs', n) && Oldest(rs, n) == Oldest(rs', n)
    ensures YoungCount(rs, n, now) == YoungCount(rs', n, now)
    decreases |rs| - n
  {
    if n < |rs| {
      SameSuffix(rs, rs', n + 1, now);
    }
  }
}

/** The table of in-flight requests (src/bookkeeping/peer.cpp) on values. Lists are kept tail
    first: the head of the C++ list is the last element, so that putting a node in front of
    a list keeps all other positions. */
module PeerTable {
  import opened Bytes

  const MAX_FWD_QUERIES: nat := 150
  const TIMEOUT: int := 10

  type Digest = seq<bv8>

  datatype Endpoint = Endpoint(address: seq<byte>, port: u16)

  /** PeerSource. `token` is a history variable: the step in which the client registered. */
  datatype Source = Source(endpoint: Endpoint, ipv4: bool, originalId: u16, token: nat)

  /** PeerRequestRecord: `source` is the embedded node, `chain` the nodes behind it. */
  datatype Request = Request(source: Source, chain: seq<Source>, sentTo: Option<nat>, newId: u16,
                             flags: nat, time: int, hash: Digest, fromTimedOut: bool)

  datatype Table = Table(records: seq<Request>, sources: seq<Source>, sourceCount: nat)

  const NO_SOURCE := Source(Endpoint([], 0), false, 0, 0)

  predicate InFlight(r: Request) {
    r.sentTo.Some?
  }

  /** The clients waiting on a record. */
  function Clients(r: Request): seq<Source> {
    if InFlight(r) then [r.source] + r.chain else []
  }

  // ---------------------------------------------------------------- operations

  function Freed(r: Request): (f: Request)
    ensures !InFlight(f) && f.chain == [] && PlainFlags(f) && f.time == r.time && f.source == r.source
  {
    r.(chain := [], sentTo := None, flags := 0)
  }

  /** FreePeerRequestRecord: the chain is spliced in front of the free list. */
  function Free(t: Table, i: nat): Table
    requires i < |t.records|
  {
    t.(records := t.records[i := Freed(t.records[i])], sources := t.sources + t.records[i].chain)
  }

  /** Freeing because of age, which is noted in the record. */
  function Expire(t: Table, i: nat): Table
    requires i < |t.records|
  {
    var u := Free(t, i);
    u.(records := u.records[i := u.records[i].(fromTimedOut := true)])
  }

  predicate Stale(r: Request, now: int) {
    InFlight(r) && now - r.time >= 4 * TIMEOUT
  }

  predicate Young(r: Request, now: int) {
    InFlight(r) && now - r.time < TIMEOUT
  }

  /** The table after the garbage collecting loop has visited the records from `n` on. */
  function Swept(t: Table, n: nat, now: int): (u: Table)
    requires n <= |t.records|
    ensures |u.records| == |t.records| && forall k :: 0 <= k < n ==> u.records[k] == t.records[k]
    decreases |t.records| - n
  {
    if n == |t.records| then t
    else
      var u := Swept(t, n + 1, now);
      if Stale(t.records[n], now) then Expire(u, n) else u
  }

  /** The variable `target` of that loop: the free record visited last. */
  function LastFree(rs: seq<Request>, n: nat): (i: Option<nat>)
    requires n <= |rs|
    ensures i.Some? ==> n <= i.value < |rs| && !InFlight(rs[i.value])
    ensures i.None? ==> forall k :: n <= k < |rs| ==> InFlight(rs[k])
    decreases |rs| - n
  {
    if n == |rs| then None
    else if !InFlight(rs[n]) then Some(n) else LastFree(rs, n + 1)
  }

  /** The variable `oldest`. */
  function Oldest(rs: seq<Request>, n: nat): (i: Option<nat>)
    requires n <= |rs|
    ensures i.Some? ==> n <= i.value < |rs| && InFlight(rs[i.value])
    ensures forall k :: n <= k < |rs| && InFlight(rs[k]) ==> i.Some? && rs[i.value].time <= rs[k].time
    decreases |rs| - n
  {
    if n == |rs| then None
    else
      var o := Oldest(rs, n + 1);
      if InFlight(rs[n]) && (o.None? || rs[n].time <= rs[o.value].time) then Some(n) else o
  }

  /** The variable `count`. */
  function YoungCount(rs: seq<Request>, n: nat, now: int): (c: nat)
    requires n <= |rs|
    ensures c <= |rs| - n
    ensures c == |rs| - n <==> forall k :: n <= k < |rs| ==> Young(rs[k], now)
    decreases |rs| - n
  {
    if n == |rs| then 0
    else (if Young(rs[n], now) then 1 else 0) + YoungCount(rs, n + 1, now)
  }

  function NewRequest(now: int): Request {
    Request(NO_SOURCE, [], None, 0, 0, now, [], false)
  }

  function Claim(t: Table, i: nat, now: int): Table
    requires i < |t.records|
  {
    t.(records := t.records[i := t.records[i].(time := now)])
  }

  /** GetNewRecord: the new table and the position of the record handed out. */
  function GetNewRecord(t: Table, now: int, force: bool): (Table, Option<nat>) {
    var u := Swept(t, 0, now);
    if !force && YoungCount(u.records, 0, now) >= MAX_FWD_QUERIES then (u, None)
    else
      var target := LastFree(u.records, 0);
      var oldest := Oldest(u.records, 0);
      if target.Some? then (Claim(u, target.value, now), target)
      else if oldest.Some? && now - u.records[oldest.value].time >= TIMEOUT then
        (Claim(Expire(u, oldest.value), oldest.value, now), oldest)
      else (u.(records := u.records + [NewRequest(now)]), Some(|u.records|))
  }

  /** Lookup among the records below `n`, from the head of the list. */
  function Lookup(rs: seq<Request>, n: nat, id: u16, hash: Digest): (i: Option<nat>)
    requires n <= |rs|
    ensures i.Some? ==> i.value < n && InFlight(rs[i.value]) && rs[i.value].newId == id && rs[i.value].hash == hash
    ensures i.None? ==> forall k :: 0 <= k < n && InFlight(rs[k]) ==> !(rs[k].newId == id && rs[k].hash == hash)
  {
    if n == 0 then None
    else if InFlight(rs[n - 1]) && rs[n - 1].newId == id && rs[n - 1].hash == hash then Some(n - 1)
    else Lookup(rs, n - 1, id, hash)
  }

  /** The mask of the three flags that LookupByQuery compares with zero. */
  predicate PlainFlags(r: Request) {
    r.flags % 8 == 0
  }

  /** The three lowest bits are clear. */
  lemma {:induction false} PlainFlagsIff(r: Request)
    ensures PlainFlags(r) <==> r.flags % 2 == 0 && r.flags / 2 % 2 == 0 && r.flags / 4 % 2 == 0
  {
    BitsOfLow(r.flags / 8, r.flags % 8);
    LowBits(r.flags % 8);
  }

  lemma {:induction false} BitsOfLow(q: nat, n: nat)
    requires n < 8
    ensures var f := 8 * q + n;
            f % 2 == n % 2 && f / 2 % 2 == n / 2 % 2 && f / 4 % 2 == n / 4 % 2
  {
    var h, z := n / 2, n % 2;
    var g, y := h / 2, h % 2;
    Half(4 * q + h, z);
    Half(2 * q + g, y);
    Half(q, g);
    Quarter(8 * q + n);
    Quarter(n);
  }

  lemma {:induction false} LowBits(n: nat)
    requires n < 8
    ensures n == 0 <==> n % 2 == 0 && n / 2 % 2 == 0 && n / 4 % 2 == 0
  {
  }

  function LookupByQuery(rs: seq<Request>, n: nat, hash: Digest): (i: Option<nat>)
    requires n <= |rs|
    ensures i.Some? ==> i.value < n && InFlight(rs[i.value]) && rs[i.value].hash == hash
    ensures i.None? ==> forall k :: 0 <= k < n && InFlight(rs[k]) && PlainFlags(rs[k]) ==> rs[k].hash != hash
  {
    if n == 0 then None
    else if InFlight(rs[n - 1]) && PlainFlags(rs[n - 1]) && rs[n - 1].hash == hash then Some(n - 1)
    else LookupByQuery(rs, n - 1, hash)
  }

  /** GetNewPeerSource: whether a node was obtained. The node belongs to the caller from then on. */
  function GetNewPeerSource(t: Table): (Table, bool) {
    if t.sources == [] && t.sourceCount < MAX_FWD_QUERIES then (t.(sourceCount := t.sourceCount + 1), true)
    else if t.sources != [] then (t.(sources := t.sources[..|t.sources| - 1]), true)
    else (t, false)
  }

  predicate InUse(rs: seq<Request>, id: u16) {
    exists k :: 0 <= k < |rs| && InFlight(rs[k]) && rs[k].newId == id
  }

  /** GetNewId: the first of the random draws that no request in flight uses. */
  function FirstFresh(rs: seq<Request>, draws: seq<u16>): (id: Option<u16>)
    ensures id.Some? ==> id.value in draws && !InUse(rs, id.value)
    ensures id.None? ==> forall d :: d in draws ==> InUse(rs, d)
  {
    if draws == [] then None
    else if !InUse(rs, draws[0]) then Some(draws[0]) else FirstFresh(rs, draws[1..])
  }

  // ---------------------------------------------------------------- invariant

  /** Nodes attached to records. */
  function Attached(rs: seq<Request>): nat {
    if rs == [] then 0 else Attached(rs[..|rs| - 1]) + |rs[|rs| - 1].chain|
  }

  predicate SameClient(a: Source, b: Source) {
    a.endpoint == b.endpoint && a.ipv4 == b.ipv4 && a.originalId == b.originalId
  }

  predicate NoRepeat(cs: seq<Source>) {
    forall a, b :: 0 <= a < b < |cs| ==> !SameClient(cs[a], cs[b])
  }

  predicate RecordOk(r: Request) {
    r.flags == 0 && if InFlight(r) then r.newId > 0 && NoRepeat(Clients(r)) else r.chain == []
  }

  predicate Distinct(rs: seq<Request>) {
    forall i, j :: 0 <= i < j < |rs| && InFlight(rs[i]) && InFlight(rs[j]) ==>
                     rs[i].newId != rs[j].newId && rs[i].hash != rs[j].hash
  }

  /** What every step keeps. */
  predicate TableInv(t: Table) {
    && |t.records| <= MAX_FWD_QUERIES
    && (forall i :: 0 <= i < |t.records| ==> RecordOk(t.records[i]))
    && Distinct(t.records)
    && |t.sources| + Attached(t.records) == t.sourceCount <= MAX_FWD_QUERIES
  }

  lemma {:induction false} AttachedUpdate(rs: seq<Request>, i: nat, r: Request)
    requires i < |rs|
    ensures Attached(rs[i := r]) == Attached(rs) - |rs[i].chain| + |r.chain|
    decreases |rs|
  {
    var n := |rs| - 1;
    if i < n {
      AttachedUpdate(rs[..n], i, r);
      assert rs[i := r][..n] == rs[..n][i := r];
    } else {
      assert rs[i := r][..n] == rs[..n];
    }
  }

  /** Replacing one record keeps the invariant if the record is in order, its ID and digest
      are its own, and nodes are accounted for. */
  lemma {:induction false} ReplaceKeeps(t: Table, u: Table, i: nat, r: Request)
    requires TableInv(t) && i < |t.records| && u.records == t.records[i := r] && RecordOk(r)
    requires InFlight(r) ==> forall k :: 0 <= k < |t.records| && k != i && InFlight(t.records[k]) ==>
                               t.records[k].newId != r.newId && t.records[k].hash != r.hash
    requires |u.sources| + |r.chain| + t.sourceCount == |t.sources| + |t.records[i].chain| + u.sourceCount
    requires u.sourceCount <= MAX_FWD_QUERIES
    ensures TableInv(u)
  {
    hide RecordOk;
    AttachedUpdate(t.records, i, r);
  }

  lemma {:induction false} FreeKeeps(t: Table, i: nat)
    requires TableInv(t) && i < |t.records|
    ensures TableInv(Free(t, i))
  {
    ReplaceKeeps(t, Free(t, i), i, Freed(t.records[i]));
  }

  lemma {:induction false} ExpireKeeps(t: Table, i: nat)
    requires TableInv(t) && i < |t.records|
    ensures TableInv(Expire(t, i))
    ensures Expire(t, i).records == t.records[i := Freed(t.records[i]).(fromTimedOut := true)]
  {
    ReplaceKeeps(t, Expire(t, i), i, Freed(t.records[i]).(fromTimedOut := true));
  }

  lemma {:induction false} SweptKeeps(t: Table, n: nat, now: int)
    requires TableInv(t) && n <= |t.records|
    ensures TableInv(Swept(t, n, now))
    ensures forall k :: n <= k < |t.records| ==>
              Swept(t, n, now).records[k]
              == if Stale(t.records[k], now) then Freed(t.records[k]).(fromTimedOut := true) else t.records[k]
    ensures (forall k :: n <= k < |t.records| ==> !Stale(t.records[k], now)) ==> Swept(t, n, now) == t
    decreases |t.records| - n
  {
    hide TableInv, Expire;
    if n < |t.records| {
      SweptKeeps(t, n + 1, now);
      ExpireKeeps(Swept(t, n + 1, now), n);
    }
  }

  // ---------------------------------------------------------------- what GetNewRecord does

  /** A query is refused exactly when all 150 records are in flight and younger than 10 s, and
      then nothing changes. */
  lemma {:induction false} RefusedIff(t: Table, now: int)
    requires TableInv(t)
    ensures GetNewRecord(t, now, false).1.None? <==>
            |t.records| == 150 && forall k :: 0 <= k < |t.records| ==> InFlight(t.records[k]) && now - t.records[k].time < 10
    ensures GetNewRecord(t, now, false).1.None? ==> GetNewRecord(t, now, false).0 == t
  {
    hide TableInv, Expire, LastFree, Oldest, Claim;
    TableSize(t);
    SweptYoung(t, now);
  }

  lemma {:induction false} TableSize(t: Table)
    requires TableInv(t)
    ensures |t.records| <= MAX_FWD_QUERIES
  {
  }

  /** The garbage collection frees no young record, and nothing when all are young. */
  lemma {:induction false} SweptYoung(t: Table, now: int)
    requires TableInv(t)
    ensures var u := Swept(t, 0, now);
            && (forall k :: 0 <= k < |t.records| ==> (Young(u.records[k], now) <==> Young(t.records[k], now)))
            && ((forall k :: 0 <= k < |t.records| ==> Young(t.records[k], now)) ==> u == t)
  {
    hide TableInv, Swept;
    SweptKeeps(t, 0, now);
    assert forall k :: 0 <= k < |t.records| && Young(t.records[k], now) ==> !Stale(t.records[k], now);
  }

  /** What a grant does: the record handed out is free and stamped, the last visited of those that
      are, records of 40 s and more are
      freed, and at most one other is evicted: the oldest, when no record is free and it is
      10 s old. Records younger than 10 s are never touched, and the table grows only when all
      are. */
  predicate Grants(t: Table, u: Table, i: nat, now: int) {
    && |t.records| <= |u.records| && i < |u.records|
    && !InFlight(u.records[i]) && u.records[i].time == now
    && (forall k :: 0 <= k < |t.records| && Stale(t.records[k], now) ==> !InFlight(u.records[k]) && u.records[k].fromTimedOut)
    && (forall k :: 0 <= k < |t.records| && Young(t.records[k], now) ==> u.records[k] == t.records[k])
    && (forall k :: 0 <= k < |t.records| && k != i && !Stale(t.records[k], now) ==> u.records[k] == t.records[k])
    && (forall k :: 0 <= k < i ==> k < |t.records| && InFlight(t.records[k]) && !Stale(t.records[k], now))
    && (i < |t.records| && InFlight(t.records[i]) && !Stale(t.records[i], now) ==>
          now - t.records[i].time >= TIMEOUT && EvictsOldest(t, i) && u.records[i].fromTimedOut)
    && (|u.records| > |t.records| ==>
          i == |t.records| == |u.records| - 1 && forall k :: 0 <= k < |t.records| ==> Young(t.records[k], now))
  }

  /** Unless the query is refused, this is what happens, and the invariant is kept. */
  lemma {:induction false} GrantedMeaning(t: Table, now: int)
    requires TableInv(t) && GetNewRecord(t, now, false).1.Some?
    ensures var (u, i) := GetNewRecord(t, now, false);
            TableInv(u) && Grants(t, u, i.value, now)
  {
    hide TableInv, Expire, Swept, LastFree, Oldest, YoungCount, Claim, Stale;
    SweptKeeps(t, 0, now);
    var v := Swept(t, 0, now);
    var target, oldest := LastFree(v.records, 0), Oldest(v.records, 0);
    if target.Some? {
      LastFreeLowest(v.records, 0);
      ClaimGrants(t, v, target.value, now);
    } else {
      NothingSwept(t, v, now);
      if oldest.Some? && now - v.records[oldest.value].time >= TIMEOUT {
        OldestFirst(v.records, 0);
        EvictGrants(v, oldest.value, now);
      } else {
        TableSize(v);
        ExtendGrants(v, now);
      }
    }
  }

  /** The table after the garbage collection, record by record. */
  predicate SweptFrom(t: Table, v: Table, now: int) {
    && |v.records| == |t.records|
    && forall k :: 0 <= k < |t.records| ==>
                     v.records[k] == if Stale(t.records[k], now) then Freed(t.records[k]).(fromTimedOut := true) else t.records[k]
  }

  /** If it leaves no record free, it has changed none. */
  lemma {:induction false} NothingSwept(t: Table, v: Table, now: int)
    requires SweptFrom(t, v, now) && v == Swept(t, 0, now) && TableInv(t)
    requires forall k :: 0 <= k < |v.records| ==> InFlight(v.records[k])
    ensures v == t && forall k :: 0 <= k < |t.records| ==> !Stale(t.records[k], now)
  {
    hide TableInv, Swept;
    SweptKeeps(t, 0, now);
    assert forall k :: 0 <= k < |t.records| ==> InFlight(v.records[k]) && !Stale(t.records[k], now);
  }

  lemma {:induction false} ClaimGrants(t: Table, v: Table, j: nat, now: int)
    requires SweptFrom(t, v, now) && TableInv(v) && j < |v.records| && !InFlight(v.records[j])
    requires forall k :: 0 <= k < j ==> InFlight(v.records[k])
    ensures TableInv(Claim(v, j, now)) && Grants(t, Claim(v, j, now), j, now)
  {
    hide TableInv;
    ClaimKeeps(v, j, now);
  }

  lemma {:induction false} EvictGrants(t: Table, j: nat, now: int)
    requires TableInv(t) && j < |t.records| && InFlight(t.records[j]) && now - t.records[j].time >= TIMEOUT
    requires EvictsOldest(t, j) && forall k :: 0 <= k < |t.records| ==> !Stale(t.records[k], now)
    ensures var u := Claim(Expire(t, j), j, now);
            TableInv(u) && Grants(t, u, j, now)
  {
    hide TableInv, Expire;
    ExpireKeeps(t, j);
    ClaimKeeps(Expire(t, j), j, now);
  }

  lemma {:induction false} ExtendGrants(t: Table, now: int)
    requires TableInv(t) && |t.records| < MAX_FWD_QUERIES
    requires forall k :: 0 <= k < |t.records| ==> Young(t.records[k], now)
    ensures var u := t.(records := t.records + [NewRequest(now)]);
            TableInv(u) && Grants(t, u, |t.records|, now)
  {
    hide TableInv;
    ExtendKeeps(t, now);
  }

  /** Of the free records, `LastFree` is the one visited last. */
  lemma {:induction false} LastFreeLowest(rs: seq<Request>, n: nat)
    requires n <= |rs|
    ensures var i := LastFree(rs, n);
            i.Some? ==> forall k :: n <= k < i.value ==> InFlight(rs[k])
    decreases |rs| - n
  {
    if n < |rs| {
      LastFreeLowest(rs, n + 1);
    }
  }

  /** Of the records sent first, `Oldest` is the one visited last. */
  lemma {:induction false} OldestFirst(rs: seq<Request>, n: nat)
    requires n <= |rs|
    ensures var i := Oldest(rs, n);
            i.Some? ==> forall k :: n <= k < i.value && InFlight(rs[k]) ==> rs[i.value].time < rs[k].time
    decreases |rs| - n
  {
    if n < |rs| {
      OldestFirst(rs, n + 1);
    }
  }

  /** Every record is in flight and none was sent before this one; of those sent at the same
      time it is the one visited last. */
  predicate EvictsOldest(t: Table, i: nat)
    requires i < |t.records|
  {
    forall k :: 0 <= k < |t.records| ==>
                  InFlight(t.records[k])
                  && (t.records[i].time < t.records[k].time || (t.records[i].time == t.records[k].time && i <= k))
  }

  /** When a new request costs record `i` its request: it is 40 s old, or no record is free or
      that old, it is 10 s old, and it is the oldest. */
  predicate Evicted(t: Table, now: int, i: nat)
    requires i < |t.records|
  {
    || (InFlight(t.records[i]) && now - t.records[i].time >= 40)
    || (now - t.records[i].time >= 10 && EvictsOldest(t, i))
  }

  /** GetNewRecord takes a request in flight off its record exactly then. */
  lemma {:induction false} EvictedIff(t: Table, now: int, i: nat)
    requires TableInv(t) && i < |t.records| && InFlight(t.records[i])
    ensures var (u, j) := GetNewRecord(t, now, false);
            && i < |u.records|
            && (u.records[i] == t.records[i] <==> !Evicted(t, now, i))
            && (Evicted(t, now, i) ==> j.Some? && !InFlight(u.records[i]) && u.records[i].fromTimedOut)
            && (j == Some(i) ==> Evicted(t, now, i))
  {
    hide TableInv, GetNewRecord;
    var (u, j) := GetNewRecord(t, now, false);
    RefusedIff(t, now);
    if j.Some? {
      GrantedMeaning(t, now);
      if EvictsOldest(t, i) && now - t.records[i].time >= TIMEOUT && !Stale(t.records[i], now) {
        assert !Young(t.records[i], now);
        assert j.value < |t.records| && InFlight(t.records[j.value]);
        assert !Stale(t.records[j.value], now);
        assert j.value == i;
      }
    }
  }

  lemma {:induction false} ClaimKeeps(t: Table, i: nat, now: int)
    requires TableInv(t) && i < |t.records| && !InFlight(t.records[i])
    ensures TableInv(Claim(t, i, now))
  {
    ReplaceKeeps(t, Claim(t, i, now), i, t.records[i].(time := now));
  }

  lemma {:induction false} ExtendKeeps(t: Table, now: int)
    requires TableInv(t) && |t.records| < MAX_FWD_QUERIES
    ensures TableInv(t.(records := t.records + [NewRequest(now)]))
  {
    hide NoRepeat;
    var rs := t.records + [NewRequest(now)];
    assert rs[..|rs| - 1] == t.records;
  }

  // ---------------------------------------------------------------- nodes and IDs

  /** GetNewPeerSource fails exactly when all 150 nodes are attached to requests in flight. */
  lemma {:induction false} NoSourceIff(t: Table)
    requires TableInv(t)
    ensures !GetNewPeerSource(t).1 <==> Attached(t.records) == 150
    ensures !GetNewPeerSource(t).1 ==> GetNewPeerSource(t).0 == t
  {
  }

  /** More candidates than records: one of them is not in use. */
  lemma {:induction false} FreshAmong(rs: seq<Request>, candidates: set<int>) returns (id: int)
    requires |rs| < |candidates|
    ensures id in candidates && id !in UsedIds(rs)
  {
    var used := UsedIds(rs);
    if forall x :: x in candidates ==> x in used {
      Contained(candidates, used);
      assert false;
    }
    id :| id in candidates && id !in used;
  }

  /** IDs below 152 cannot all be taken by 150 records. */
  lemma {:induction false} FreshIdExists(rs: seq<Request>) returns (id: u16)
    requires |rs| <= 150
    ensures 1 <= id <= 151 && !InUse(rs, id)
  {
    id := FreshAmong(rs, Upto(151));
  }

  function UsedIds(rs: seq<Request>): (s: set<int>)
    ensures forall k :: 0 <= k < |rs| ==> rs[k].newId in s
    ensures |s| <= |rs|
  {
    if rs == [] then {}
    else
      var front := UsedIds(rs[..|rs| - 1]);
      front + {rs[|rs| - 1].newId}
  }

  function Upto(n: nat): (s: set<int>)
    ensures forall x :: x in s <==> 1 <= x <= n
    ensures |s| == n
  {
    if n == 0 then {} else Upto(n - 1) + {n}
  }

  lemma {:induction false} Contained(a: set<int>, b: set<int>)
    requires a <= b
    ensures |a| <= |b|
  {
    assert b == a + (b - a);
  }

  /** The ID is the first of the draws that is not in use. */
  lemma {:induction false} FirstFreshIsFirst(rs: seq<Request>, draws: seq<u16>) returns (k: nat)
    requires FirstFresh(rs, draws).Some?
    ensures k < |draws| && FirstFresh(rs, draws) == Some(draws[k]) && !InUse(rs, draws[k])
    ensures forall j :: 0 <= j < k ==> InUse(rs, draws[j])
  {
    hide InUse;
    k := 0;
    if InUse(rs, draws[0]) {
      k := FirstFreshIsFirst(rs, draws[1..]);
      assert forall j :: 1 <= j <= k ==> draws[j] == draws[1..][j - 1];
      k := k + 1;
    }
  }

  /** The different values among the draws. */
  function Values(draws: seq<u16>): set<int> {
    set d | d in draws
  }

  /** So the loop of GetNewId ends as soon as it has drawn more values than there are records. */
  lemma {:induction false} FairDrawsSucceed(rs: seq<Request>, draws: seq<u16>)
    requires |rs| < |Values(draws)|
    ensures FirstFresh(rs, draws).Some?
  {
    var id := FreshAmong(rs, Values(draws));
    assert id in draws && !InUse(rs, id);
  }

  /** At most one record can answer either lookup, whatever the order of the list. */
  lemma {:induction false} LookupsUnique(t: Table, i: nat)
    requires TableInv(t) && i < |t.records| && InFlight(t.records[i])
    ensures LookupByQuery(t.records, |t.records|, t.records[i].hash) == Some(i)
    ensures Lookup(t.records, |t.records|, t.records[i].newId, t.records[i].hash) == Some(i)
  {
    hide NoRepeat;
    assert RecordOk(t.records[i]);
    var j := LookupByQuery(t.records, |t.records|, t.records[i].hash);
    assert j.Some? ==> j.value == i;
    var k := Lookup(t.records, |t.records|, t.records[i].newId, t.records[i].hash);
    assert k.Some? ==> k.value == i;
  }
}

/** The table from hardware to IP addresses (src/bookkeeping/ethmappings.cpp). */
module EthMappings {
  import opened Bytes

  const MAX_MAC_IP_MAPPINGS: nat := 100
  const TIMEOUT: int := 5

  /** MacMappingRecord: `ip` holds the 16 octets of the union. */
  datatype Mapping = Mapping(mac: seq<byte>, ipv4: bool, ip: seq<byte>, time: int)

  /** What an entry says: the family and the octets that count for it. */
  datatype Value = Value(ipv4: bool, address: seq<byte>)

  function ValueOf(ipv4: bool, ip: seq<byte>): Value
    requires |ip| == 16
  {
    Value(ipv4, if ipv4 then ip[..4] else ip)
  }

  predicate Valid(rs: seq<Mapping>) {
    && |rs| <= MAX_MAC_IP_MAPPINGS
    && (forall k :: 0 <= k < |rs| ==> |rs[k].ip| == 16)
    && (forall j, k :: 0 <= j < k < |rs| ==> rs[j].mac != rs[k].mac)
  }

  /** Position of the entry for `mac` among those from `n` on. */
  function IndexOf(rs: seq<Mapping>, mac: seq<byte>, n: nat): (i: Option<nat>)
    requires n <= |rs|
    ensures i.Some? ==> n <= i.value < |rs| && rs[i.value].mac == mac
    ensures i.None? ==> forall k :: n <= k < |rs| ==> rs[k].mac != mac
    decreases |rs| - n
  {
    if n == |rs| then None else if rs[n].mac == mac then Some(n) else IndexOf(rs, mac, n + 1)
  }

  /** The map that the table stands for. */
  function Get(rs: seq<Mapping>, mac: seq<byte>): Option<Value>
    requires Valid(rs)
  {
    var i := IndexOf(rs, mac, 0);
    if i.None? then None else Some(ValueOf(rs[i.value].ipv4, rs[i.value].ip))
  }

  /** The variable `oldest` after the entries before `n`, as the comparison is written: an
      entry with the greatest time. */
  function Chosen(rs: seq<Mapping>, n: nat): (i: Option<nat>)
    requires n <= |rs|
    ensures i.None? <==> n == 0
    ensures i.Some? ==> i.value < n && forall k :: 0 <= k < n ==> rs[k].time <= rs[i.value].time
  {
    if n == 0 then None
    else
      var o := Chosen(rs, n - 1);
      if o.None? || rs[o.value].time < rs[n - 1].time then Some(n - 1) else o
  }

  /** The entry as `Add` leaves it; an IPv4 address overwrites four octets only. */
  function Filled(slot: Mapping, mac: seq<byte>, ipv4: bool, ip: seq<byte>, now: int): Mapping
    requires |slot.ip| == 16 && |ip| == 16
  {
    Mapping(mac, ipv4, if ipv4 then ip[..4] + slot.ip[4..] else ip, now)
  }

  /** The place where `Add` puts the entry, if any. */
  function Target(rs: seq<Mapping>, mac: seq<byte>, now: int): (i: Option<nat>)
    requires |rs| <= MAX_MAC_IP_MAPPINGS
    ensures i.Some? ==> i.value <= |rs| && i.value < MAX_MAC_IP_MAPPINGS
  {
    var found, chosen := IndexOf(rs, mac, 0), Chosen(rs, |rs|);
    if found.Some? then found
    else if |rs| < MAX_MAC_IP_MAPPINGS then Some(|rs|)
    else if chosen.Some? && now - rs[chosen.value].time > TIMEOUT then chosen
    else None
  }

  /** The table after `Add`; `spare` is the next unused slot. */
  function Added(rs: seq<Mapping>, spare: Mapping, mac: seq<byte>, ipv4: bool, ip: seq<byte>, now: int): seq<Mapping>
    requires Valid(rs) && |spare.ip| == 16 && |ip| == 16
  {
    var i := Target(rs, mac, now);
    if i.None? then rs
    else if i.value == |rs| then rs + [Filled(spare, mac, ipv4, ip, now)]
    else rs[i.value := Filled(rs[i.value], mac, ipv4, ip, now)]
  }

  /** `Add` fails exactly when the table is full of other addresses and one entry is not yet
      older than 5 s, and then nothing changes. */
  lemma {:induction false} AddFailsIff(rs: seq<Mapping>, spare: Mapping, mac: seq<byte>, ipv4: bool, ip: seq<byte>, now: int)
    requires Valid(rs) && |spare.ip| == 16 && |ip| == 16
    ensures Target(rs, mac, now).None? <==>
            && |rs| == 100
            && (forall k :: 0 <= k < |rs| ==> rs[k].mac != mac)
            && exists k :: 0 <= k < |rs| && now - rs[k].time <= 5
    ensures Target(rs, mac, now).None? ==> Added(rs, spare, mac, ipv4, ip, now) == rs
  {
    if |rs| == MAX_MAC_IP_MAPPINGS {
      var c := Chosen(rs, |rs|).value;
      assert rs[c].time <= rs[c].time;
    }
  }

  /** Whether `Add` drops the entry for `m`: it takes the place of another address. */
  predicate Drops(rs: seq<Mapping>, mac: seq<byte>, now: int, m: seq<byte>)
    requires |rs| <= MAX_MAC_IP_MAPPINGS
  {
    var i := Target(rs, mac, now);
    m != mac && i.Some? && i.value < |rs| && rs[i.value].mac == m
  }

  /** A successful `Add` sets the entry of `mac` and stamps it, drops at most one other, and that
      one is older than 5 s and none is younger; all else stays. */
  lemma {:induction false} AddRefines(rs: seq<Mapping>, spare: Mapping, mac: seq<byte>, ipv4: bool, ip: seq<byte>, now: int,
                                      m: seq<byte>)
    requires Valid(rs) && |spare.ip| == 16 && |ip| == 16 && Target(rs, mac, now).Some?
    ensures var rs' := Added(rs, spare, mac, ipv4, ip, now);
            && Valid(rs')
            && Get(rs', m) == if m == mac then Some(ValueOf(ipv4, ip))
                              else if Drops(rs, mac, now, m) then None else Get(rs, m)
    ensures var rs', t := Added(rs, spare, mac, ipv4, ip, now), Target(rs, mac, now).value;
            && |rs'| == (if t == |rs| then |rs| + 1 else |rs|)
            && forall k :: 0 <= k < |rs'| ==> if k == t then rs'[k].mac == mac && rs'[k].time == now else rs'[k] == rs[k]
    ensures Drops(rs, mac, now, m) ==> |rs| == 100 && forall k :: 0 <= k < |rs| ==> now - rs[k].time > 5
  {
    var rs' := Added(rs, spare, mac, ipv4, ip, now);
    AddedPositions(rs, spare, mac, ipv4, ip, now);
    var t := Target(rs, mac, now).value;
    GetAt(rs', t);
    var i := IndexOf(rs, m, 0);
    if m != mac && i.Some? && i.value != t {
      GetAt(rs', i.value);
    }
  }

  lemma {:induction false} AddedPositions(rs: seq<Mapping>, spare: Mapping, mac: seq<byte>, ipv4: bool, ip: seq<byte>, now: int)
    requires Valid(rs) && |spare.ip| == 16 && |ip| == 16 && Target(rs, mac, now).Some?
    ensures var rs', t := Added(rs, spare, mac, ipv4, ip, now), Target(rs, mac, now).value;
            && Valid(rs') && |rs| <= |rs'| && t < |rs'|
            && rs'[t].mac == mac && rs'[t].time == now && |rs'| == (if t == |rs| then |rs| + 1 else |rs|)
            && ValueOf(rs'[t].ipv4, rs'[t].ip) == ValueOf(ipv4, ip)
            && (forall k :: 0 <= k < |rs'| && k != t ==> k < |rs| && rs'[k] == rs[k])
  {
    var rs', t := Added(rs, spare, mac, ipv4, ip, now), Target(rs, mac, now).value;
    assert forall k :: 0 <= k < |rs| && k != t ==> rs[k].mac != mac;
  }

  lemma {:induction false} GetAt(rs: seq<Mapping>, i: nat)
    requires Valid(rs) && i < |rs|
    ensures Get(rs, rs[i].mac) == Some(ValueOf(rs[i].ipv4, rs[i].ip))
  {
    var j := IndexOf(rs, rs[i].mac, 0);
    assert j.Some? && j.value == i;
  }

  /** The dropped entry is an oldest one, as the variable's name says, only if all entries have
      the same time. */
  lemma {:induction false} DropsOldestIff(rs: seq<Mapping>)
    requires rs != []
    ensures var c := Chosen(rs, |rs|).value;
            (forall k :: 0 <= k < |rs| ==> rs[c].time <= rs[k].time)
            <==> forall j, k :: 0 <= j < |rs| && 0 <= k < |rs| ==> rs[j].time == rs[k].time
  {
    var c := Chosen(rs, |rs|).value;
    if forall k :: 0 <= k < |rs| ==> rs[c].time <= rs[k].time {
      forall j, k | 0 <= j < |rs| && 0 <= k < |rs|
        ensures rs[j].time == rs[k].time
      {
        assert rs[j].time == rs[c].time && rs[k].time == rs[c].time;
      }
    }
  }

  /** A full table, seen at successive seconds, that gives up the entry seen last. */
  lemma {:induction false} NewestIsDropped() returns (rs: seq<Mapping>)
    ensures Valid(rs) && |rs| == 100
    ensures forall k :: 0 <= k < |rs| - 1 ==> rs[k].time < rs[|rs| - 1].time
    ensures Drops(rs, [200], 200, rs[|rs| - 1].mac)
  {
    hide IndexOf, Chosen;
    var ip: seq<byte> := Repeat(0, 16);
    rs := seq(MAX_MAC_IP_MAPPINGS, k requires 0 <= k < MAX_MAC_IP_MAPPINGS => Mapping([k], true, ip, k));
    assert forall k :: 0 <= k < |rs| ==> rs[k].mac[0] == k && rs[k].mac != [200] && |rs[k].ip| == 16;
    forall j, k | 0 <= j < k < |rs|
      ensures rs[j].mac != rs[k].mac
    {
      assert rs[j].mac[0] != rs[k].mac[0];
    }
    assert rs[|rs| - 1].time == 99;
    assert Chosen(rs, |rs|).value == 99;
  }

  class Mappings {
    const records: array<Mapping>
    var count: nat

    ghost predicate Ok()
      reads this, records
    {
      && records.Length == MAX_MAC_IP_MAPPINGS && count <= records.Length
      && (forall k :: 0 <= k < records.Length ==> |records[k].ip| == 16)
      && Valid(records[..count])
    }

    ghost function Live(): seq<Mapping>
      requires count <= records.Length
      reads this, records
    {
      records[..count]
    }

    constructor (now: int)
      ensures Ok() && count == 0 && fresh(records)
    {
      records := new Mapping[MAX_MAC_IP_MAPPINGS](_ => Mapping([], false, Repeat(0, 16), now));
      count := 0;
    }

    method Add(mac: seq<byte>, ipv4: bool, ip: seq<byte>, now: int) returns (ok: bool)
      requires Ok() && |ip| == 16
      modifies this, records
      ensures Ok()
      ensures ok <==> Target(old(Live()), mac, now).Some?
      ensures exists spare: Mapping :: |spare.ip| == 16 && Live() == Added(old(Live()), spare, mac, ipv4, ip, now)
    {
      hide IndexOf, Chosen, ValueOf;
      ghost var rs := Live();
      ghost var spare := if count < records.Length then records[count] else records[0];
      var target, oldest := Scan(mac);
      if target.None? && count < MAX_MAC_IP_MAPPINGS {
        target := Some(count);
        count := count + 1;
      }
      if target.None? && oldest.Some? && now - records[oldest.value].time > TIMEOUT {
        target := oldest;
      }
      assert target == Target(rs, mac, now);
      if target.Some? {
        AddedPositions(rs, spare, mac, ipv4, ip, now);
        var i := target.value;
        var filled := Filled(records[i], mac, ipv4, ip, now);
        records[i] := filled;
        ok := true;
      } else {
        ok := false;
      }
      assert Live() == Added(rs, spare, mac, ipv4, ip, now);
    }

    /** The loop of `Add`. */
    method Scan(mac: seq<byte>) returns (target: Option<nat>, oldest: Option<nat>)
      requires Ok()
      ensures target == IndexOf(Live(), mac, 0)
      ensures target.None? ==> oldest == Chosen(Live(), count)
    {
      hide Valid;
      ghost var rs := Live();
      target, oldest := None, None;
      var i := 0;
      while i < count
        invariant 0 <= i <= count
        invariant IndexOf(rs, mac, 0) == IndexOf(rs, mac, i)
        invariant oldest == Chosen(rs, i)
      {
        if records[i].mac == mac {
          target := Some(i);
          return;
        }
        if oldest.None? || records[oldest.value].time < records[i].time {
          oldest := Some(i);
        }
        i := i + 1;
      }
    }

    /** `LookUp` finds an entry exactly when a live one holds the address, and it is the first. */
    method LookUp(ip: seq<byte>, ipv4: bool) returns (i: Option<nat>)
      requires Ok() && |ip| == 16
      ensures i.Some? <==> exists k :: 0 <= k < count && HoldsAddress(records[k], ipv4, ip)
      ensures i.Some? ==> i.value < count && HoldsAddress(records[i.value], ipv4, ip)
                          && forall k :: 0 <= k < i.value ==> !HoldsAddress(records[k], ipv4, ip)
    {
      var n := 0;
      while n < count
        invariant 0 <= n <= count
        invariant forall k :: 0 <= k < n ==> !HoldsAddress(records[k], ipv4, ip)
      {
        var r := records[n];
        if r.ipv4 == ipv4 && ((ipv4 && ip[..4] == r.ip[..4]) || (!ipv4 && ip == r.ip)) {
          return Some(n);
        }
        n := n + 1;
      }
      return None;
    }
  }

  predicate HoldsAddress(r: Mapping, ipv4: bool, ip: seq<byte>)
    requires |r.ip| == 16 && |ip| == 16
  {
    ValueOf(r.ipv4, r.ip) == ValueOf(ipv4, ip)
  }
}

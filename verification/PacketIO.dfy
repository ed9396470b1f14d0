/** `Read` and `Write` of headers, questions, records and packets on a buffer. */
module PacketIO {
  import opened Bytes
  import opened Names
  import opened PacketBuffer
  import opened Packets
  import PacketRoundTrip

  // ---------------------------------------------------------------- reading

  method GetU8(bb: Buffer) returns (o: Outcome<byte>)
    requires bb.size <= bb.buf.Length
    modifies bb`pos
    ensures o == ReadU8(bb.buf[..], bb.size, old(bb.pos))
    ensures o.Ok? ==> bb.pos == o.pos
  {
    if bb.pos + 1 > bb.size {
      return Err(FORMERR);
    }
    var v := bb.buf[bb.pos];
    bb.pos := bb.pos + 1;
    return Ok(v, bb.pos);
  }

  method GetU16(bb: Buffer) returns (o: Outcome<u16>)
    requires bb.size <= bb.buf.Length
    modifies bb`pos
    ensures o == ReadU16(bb.buf[..], bb.size, old(bb.pos))
    ensures o.Ok? ==> bb.pos == o.pos
  {
    if bb.pos + 2 > bb.size {
      return Err(FORMERR);
    }
    var v := Join16(bb.buf[bb.pos], bb.buf[bb.pos + 1]);
    bb.pos := bb.pos + 2;
    return Ok(v, bb.pos);
  }

  method GetU32(bb: Buffer) returns (o: Outcome<u32>)
    requires bb.size <= bb.buf.Length
    modifies bb`pos
    ensures o == ReadU32(bb.buf[..], bb.size, old(bb.pos))
    ensures o.Ok? ==> bb.pos == o.pos
  {
    if bb.pos + 2 > bb.size {
      return Err(FORMERR);
    }
    if bb.pos + 4 > bb.buf.Length {
      return Undefined;
    }
    var v := Join32(bb.buf[bb.pos], bb.buf[bb.pos + 1], bb.buf[bb.pos + 2], bb.buf[bb.pos + 3]);
    bb.pos := bb.pos + 4;
    return Ok(v, bb.pos);
  }

  method GetHost(bb: Buffer) returns (o: Outcome<seq<byte>>)
    requires bb.size <= bb.buf.Length
    modifies bb`pos
    ensures o == ReadHost(bb.buf[..], bb.size, old(bb.pos))
    ensures o.Ok? ==> bb.pos == o.pos
  {
    hide ReadName, CString;
    assert bb.buf[..][..bb.size] == bb.buf[..bb.size];
    var text :- bb.ReadLabel();
    return Ok(CString(text.0), bb.pos);
  }

  /** `DnsHeader::Read`. */
  method GetHeader(bb: Buffer) returns (o: Outcome<Header>)
    requires bb.size <= bb.buf.Length
    modifies bb`pos
    ensures o == ReadHeader(bb.buf[..], bb.size, old(bb.pos))
    ensures o.Ok? ==> bb.pos == o.pos
  {
    hide ReadU16, ReadU8;
    if bb.pos + HEADER_SIZE > bb.size {
      return Err(FORMERR);
    }
    var id :- GetU16(bb);
    var hb3 :- GetU8(bb);
    var hb4 :- GetU8(bb);
    var qd :- GetU16(bb);
    var an :- GetU16(bb);
    var ns :- GetU16(bb);
    var ar :- GetU16(bb);
    return Ok(Header(id.0, hb3.0, hb4.0, qd.0, an.0, ns.0, ar.0), bb.pos);
  }

  /** `DnsQuestion::Read`. */
  method GetQuestion(bb: Buffer) returns (o: Outcome<Question>)
    requires bb.size <= bb.buf.Length
    modifies bb`pos
    ensures o == ReadQuestion(bb.buf[..], bb.size, old(bb.pos))
    ensures o.Ok? ==> bb.pos == o.pos
  {
    hide ReadU16, ReadHost;
    var name :- GetHost(bb);
    var t :- GetU16(bb);
    var c :- GetU16(bb);
    return Ok(Question(name.0, t.0, c.0), bb.pos);
  }

  /** The octet loop for OPT. */
  method GetOctets(bb: Buffer, n: nat) returns (o: Outcome<seq<byte>>)
    requires bb.size <= bb.buf.Length
    modifies bb`pos
    ensures o == ReadOctets(bb.buf[..], bb.size, old(bb.pos), n)
    ensures o.Ok? ==> bb.pos == o.pos
  {
    var octets: seq<byte> := [];
    var i := 0;
    while i < n
      invariant 0 <= i <= n
      invariant bb.pos == old(bb.pos) + i
      invariant i == 0 || bb.pos <= bb.size
      invariant octets == if i == 0 then [] else bb.buf[old(bb.pos)..bb.pos]
    {
      var v :- GetU8(bb);
      octets := octets + [v.0];
      i := i + 1;
    }
    return Ok(octets, bb.pos);
  }

  /** The switch of `DnsRecord::Read`. */
  method GetData(bb: Buffer, qtype: u16, len: u16, additional: bool) returns (o: Outcome<Data>)
    requires bb.size <= bb.buf.Length
    modifies bb`pos
    ensures o == ReadData(bb.buf[..], bb.size, old(bb.pos), qtype, len, additional)
    ensures o.Ok? ==> bb.pos == o.pos
  {
    hide ReadU16, ReadU32, ReadHost, ReadOctets;
    if qtype == QT_A {
      var n :- GetU32(bb);
      return Ok(A(n.0), bb.pos);
    } else if qtype == QT_NS {
      var host :- GetHost(bb);
      return Ok(NS(host.0), bb.pos);
    } else if qtype == QT_CNAME {
      var host :- GetHost(bb);
      return Ok(CName(host.0), bb.pos);
    } else if qtype == QT_MX {
      var priority :- GetU16(bb);
      var host :- GetHost(bb);
      return Ok(MX(priority.0, host.0), bb.pos);
    } else if qtype == QT_AAAA {
      var n1 :- GetU32(bb);
      var n2 :- GetU32(bb);
      var n3 :- GetU32(bb);
      var n4 :- GetU32(bb);
      return Ok(AAAA(n1.0, n2.0, n3.0, n4.0), bb.pos);
    } else if qtype == QT_OPT {
      if !additional {
        return Err(FORMERR);
      }
      var octets :- GetOctets(bb, len);
      return Ok(Opt(octets.0), bb.pos);
    }
    return Err(SERVFAIL);
  }

  /** `DnsRecord::Read`. */
  method GetRecord(bb: Buffer, additional: bool) returns (o: Outcome<Record>)
    requires bb.size <= bb.buf.Length
    modifies bb`pos
    ensures o == ReadRecord(bb.buf[..], bb.size, old(bb.pos), additional)
    ensures o.Ok? ==> bb.pos == o.pos
  {
    hide ReadU16, ReadU32, ReadQuestion, ReadData;
    var q :- GetQuestion(bb);
    var ttl :- GetU32(bb);
    var len :- GetU16(bb);
    var data :- GetData(bb, q.0.qtype, len.0, additional);
    return Ok(Record(q.0, ttl.0, len.0, data.0), bb.pos);
  }

  /** A section read up to some point, continued by what follows. */
  function Prepend<T>(front: seq<T>, o: Outcome<seq<T>>): Outcome<seq<T>> {
    match o
    case Ok(rest, p) => Ok(front + rest, p)
    case Err(c) => Err(c)
    case Undefined => Undefined
  }

  lemma {:induction false} PrependMore<T>(front: seq<T>, x: T, o: Outcome<seq<T>>)
    ensures Prepend(front, Prepend([x], o)) == Prepend(front + [x], o)
  {
    match o
    case Ok(rest, p) => assert front + ([x] + rest) == front + [x] + rest;
    case _ =>
  }

  lemma {:induction false} PrependNone<T>(front: seq<T>, o: Outcome<seq<T>>, p: nat)
    ensures Prepend([], o) == o
    ensures Prepend(front, Ok([], p)) == Ok(front, p)
  {
    if o.Ok? {
      assert [] + o.value == o.value;
    }
    assert front + [] == front;
  }

  method GetQuestions(bb: Buffer, n: nat) returns (o: Outcome<seq<Question>>)
    requires bb.size <= bb.buf.Length
    modifies bb`pos
    ensures o == ReadQuestions(bb.buf[..], bb.size, old(bb.pos), n)
    ensures o.Ok? ==> bb.pos == o.pos
  {
    hide ReadQuestion;
    ghost var b := bb.buf[..];
    var qs: seq<Question> := [];
    var i := 0;
    PrependNone(qs, ReadQuestions(b, bb.size, bb.pos, n), 0);
    while i < n
      invariant 0 <= i <= n && |qs| == i
      invariant ReadQuestions(b, bb.size, old(bb.pos), n) == Prepend(qs, ReadQuestions(b, bb.size, bb.pos, n - i))
    {
      ghost var p := bb.pos;
      var q :- GetQuestion(bb);
      PrependMore(qs, q.0, ReadQuestions(b, bb.size, bb.pos, n - i - 1));
      assert ReadQuestions(b, bb.size, p, n - i) == Prepend([q.0], ReadQuestions(b, bb.size, bb.pos, n - i - 1));
      qs := qs + [q.0];
      i := i + 1;
    }
    PrependNone(qs, Ok([], bb.pos), bb.pos);
    return Ok(qs, bb.pos);
  }

  method GetRecords(bb: Buffer, n: nat, additional: bool) returns (o: Outcome<seq<Record>>)
    requires bb.size <= bb.buf.Length
    modifies bb`pos
    ensures o == ReadRecords(bb.buf[..], bb.size, old(bb.pos), n, additional)
    ensures o.Ok? ==> bb.pos == o.pos
  {
    hide ReadRecord;
    ghost var b := bb.buf[..];
    var rs: seq<Record> := [];
    var i := 0;
    PrependNone(rs, ReadRecords(b, bb.size, bb.pos, n, additional), 0);
    while i < n
      invariant 0 <= i <= n && |rs| == i
      invariant ReadRecords(b, bb.size, old(bb.pos), n, additional)
             == Prepend(rs, ReadRecords(b, bb.size, bb.pos, n - i, additional))
    {
      ghost var p := bb.pos;
      var r :- GetRecord(bb, additional);
      PrependMore(rs, r.0, ReadRecords(b, bb.size, bb.pos, n - i - 1, additional));
      assert ReadRecords(b, bb.size, p, n - i, additional)
          == Prepend([r.0], ReadRecords(b, bb.size, bb.pos, n - i - 1, additional));
      rs := rs + [r.0];
      i := i + 1;
    }
    PrependNone(rs, Ok([], bb.pos), bb.pos);
    return Ok(rs, bb.pos);
  }

  /** `DnsPacket::Read`. */
  method GetPacket(bb: Buffer) returns (o: Outcome<Packet>)
    requires bb.size <= bb.buf.Length
    modifies bb`pos
    ensures o == ReadPacket(bb.buf[..], bb.size, old(bb.pos))
    ensures o.Ok? ==> bb.pos == o.pos
  {
    hide ReadHeader, ReadQuestions, ReadRecords;
    var h :- GetHeader(bb);
    var qs :- GetQuestions(bb, h.0.questionCount);
    var an :- GetRecords(bb, h.0.answerCount, false);
    var ns :- GetRecords(bb, h.0.authorityCount, false);
    var ar :- GetRecords(bb, h.0.additionalCount, true);
    return Ok(Packet(h.0, qs.0, an.0, ns.0, ar.0), bb.pos);
  }

  // ---------------------------------------------------------------- writing

  /** The octets `s` were written at the cursor, over a zero tail that is still zero behind
      them: what `WriteLabel` needs of the next call. */
  ghost predicate Wrote(d: seq<byte>, pos: nat, d': seq<byte>, pos': nat, s: seq<byte>) {
    pos' == pos + |s| < |d| && d' == Overwrite(d, pos, s) && ZeroFrom(d', pos')
  }

  /** Room for `s`, on a zero tail. */
  ghost predicate Room(d: seq<byte>, pos: nat, s: seq<byte>) {
    pos + |s| < |d| && ZeroFrom(d, pos)
  }

  lemma {:induction false} WroteNothing(d: seq<byte>, pos: nat)
    requires Room(d, pos, [])
    ensures Wrote(d, pos, d, pos, [])
  {
    OverwriteNone(d, pos);
  }

  /** Two writes in a row are one write. */
  lemma {:induction false} WroteMore(d: seq<byte>, pos: nat, d1: seq<byte>, pos1: nat, d2: seq<byte>, pos2: nat,
                                     s: seq<byte>, t: seq<byte>)
    requires Wrote(d, pos, d1, pos1, s) && Wrote(d1, pos1, d2, pos2, t)
    ensures Wrote(d, pos, d2, pos2, s + t)
  {
    hide Overwrite;
    OverwriteMore(d, pos, s, t);
  }

  method PutOctets(bb: Buffer, s: seq<byte>)
    requires Room(bb.buf[..], bb.pos, s)
    modifies bb`pos, bb.buf
    ensures Wrote(old(bb.buf[..]), old(bb.pos), bb.buf[..], bb.pos, s)
  {
    var i := 0;
    while i < |s|
      invariant 0 <= i <= |s|
      invariant bb.pos == old(bb.pos) + i
      invariant bb.buf[..] == Overwrite(old(bb.buf[..]), old(bb.pos), s[..i])
    {
      bb.buf[bb.pos] := s[i];
      bb.pos := bb.pos + 1;
      i := i + 1;
    }
    assert s[..i] == s;
    OverwriteZeroTail(old(bb.buf[..]), old(bb.pos), s);
  }

  method PutHost(bb: Buffer, name: seq<byte>)
    requires Room(bb.buf[..], bb.pos, EncodeHost(name))
    modifies bb`pos, bb.buf
    ensures Wrote(old(bb.buf[..]), old(bb.pos), bb.buf[..], bb.pos, EncodeHost(name))
  {
    hide WireName, WrittenName, Overwrite;
    var s := CString(name);
    WrittenNameIff(bb.buf[..], bb.pos, s);
    bb.WriteLabel(s);
    OverwriteZeroTail(old(bb.buf[..]), old(bb.pos), WireName(s));
  }

  /** `DnsQuestion::Write`. */
  method PutQuestion(bb: Buffer, q: Question)
    requires Room(bb.buf[..], bb.pos, EncodeQuestion(q))
    modifies bb`pos, bb.buf
    ensures Wrote(old(bb.buf[..]), old(bb.pos), bb.buf[..], bb.pos, EncodeQuestion(q))
  {
    hide EncodeHost, Split16, Overwrite, ZeroFrom;
    ghost var d, p := bb.buf[..], bb.pos;
    PutHost(bb, q.name);
    ghost var d1, p1 := bb.buf[..], bb.pos;
    PutOctets(bb, Split16(q.qtype));
    WroteMore(d, p, d1, p1, bb.buf[..], bb.pos, EncodeHost(q.name), Split16(q.qtype));
    d1, p1 := bb.buf[..], bb.pos;
    PutOctets(bb, Split16(q.qclass));
    WroteMore(d, p, d1, p1, bb.buf[..], bb.pos, EncodeHost(q.name) + Split16(q.qtype), Split16(q.qclass));
  }

  /** The switch of `DnsRecord::Write`. */
  method PutData(bb: Buffer, data: Data)
    requires Room(bb.buf[..], bb.pos, EncodeData(data))
    modifies bb`pos, bb.buf
    ensures Wrote(old(bb.buf[..]), old(bb.pos), bb.buf[..], bb.pos, EncodeData(data))
  {
    hide EncodeHost, Split16, Split32, Overwrite, ZeroFrom;
    ghost var d, p := bb.buf[..], bb.pos;
    match data
    case A(n) => PutOctets(bb, Split32(n));
    case NS(host) => PutHost(bb, host);
    case CName(host) => PutHost(bb, host);
    case MX(priority, host) =>
      PutOctets(bb, Split16(priority));
      ghost var d1, p1 := bb.buf[..], bb.pos;
      PutHost(bb, host);
      WroteMore(d, p, d1, p1, bb.buf[..], bb.pos, Split16(priority), EncodeHost(host));
    case AAAA(n1, n2, n3, n4) =>
      PutOctets(bb, Split32(n1) + Split32(n2) + Split32(n3) + Split32(n4));
    case Opt(_) => WroteNothing(d, p);
  }

  /** `DnsRecord::Write`. */
  method PutRecord(bb: Buffer, r: Record)
    requires Room(bb.buf[..], bb.pos, EncodeRecord(r))
    modifies bb`pos, bb.buf
    ensures Wrote(old(bb.buf[..]), old(bb.pos), bb.buf[..], bb.pos, EncodeRecord(r))
  {
    hide EncodeQuestion, EncodeData, Split16, Split32, Overwrite, ZeroFrom;
    ghost var d, p := bb.buf[..], bb.pos;
    var fixed := Split32(r.ttl) + Split16(r.len);
    PutQuestion(bb, r.question);
    ghost var d1, p1 := bb.buf[..], bb.pos;
    PutOctets(bb, fixed);
    WroteMore(d, p, d1, p1, bb.buf[..], bb.pos, EncodeQuestion(r.question), fixed);
    d1, p1 := bb.buf[..], bb.pos;
    PutData(bb, r.data);
    WroteMore(d, p, d1, p1, bb.buf[..], bb.pos, EncodeQuestion(r.question) + fixed, EncodeData(r.data));
    assert EncodeQuestion(r.question) + fixed + EncodeData(r.data) == EncodeRecord(r);
  }

  method PutQuestions(bb: Buffer, qs: seq<Question>)
    requires Room(bb.buf[..], bb.pos, EncodeQuestions(qs))
    modifies bb`pos, bb.buf
    ensures Wrote(old(bb.buf[..]), old(bb.pos), bb.buf[..], bb.pos, EncodeQuestions(qs))
  {
    hide EncodeQuestion, Overwrite, ZeroFrom;
    ghost var d, p := bb.buf[..], bb.pos;
    ghost var done: seq<byte> := [];
    WroteNothing(d, p);
    var i := 0;
    assert qs[0..] == qs;
    while i < |qs|
      invariant 0 <= i <= |qs|
      invariant Wrote(d, p, bb.buf[..], bb.pos, done)
      invariant done + EncodeQuestions(qs[i..]) == EncodeQuestions(qs)
    {
      ghost var d1, p1, s := bb.buf[..], bb.pos, EncodeQuestion(qs[i]);
      assert EncodeQuestions(qs[i..]) == s + EncodeQuestions(qs[i + 1..]) by { assert qs[i..][1..] == qs[i + 1..]; }
      assert done + (s + EncodeQuestions(qs[i + 1..])) == done + s + EncodeQuestions(qs[i + 1..]);
      PutQuestion(bb, qs[i]);
      WroteMore(d, p, d1, p1, bb.buf[..], bb.pos, done, s);
      done := done + s;
      i := i + 1;
    }
    assert done == EncodeQuestions(qs);
  }

  method PutRecords(bb: Buffer, rs: seq<Record>)
    requires Room(bb.buf[..], bb.pos, EncodeRecords(rs))
    modifies bb`pos, bb.buf
    ensures Wrote(old(bb.buf[..]), old(bb.pos), bb.buf[..], bb.pos, EncodeRecords(rs))
  {
    hide EncodeRecord, Overwrite, ZeroFrom;
    ghost var d, p := bb.buf[..], bb.pos;
    ghost var done: seq<byte> := [];
    WroteNothing(d, p);
    var i := 0;
    assert rs[0..] == rs;
    while i < |rs|
      invariant 0 <= i <= |rs|
      invariant Wrote(d, p, bb.buf[..], bb.pos, done)
      invariant done + EncodeRecords(rs[i..]) == EncodeRecords(rs)
    {
      ghost var d1, p1, s := bb.buf[..], bb.pos, EncodeRecord(rs[i]);
      assert EncodeRecords(rs[i..]) == s + EncodeRecords(rs[i + 1..]) by { assert rs[i..][1..] == rs[i + 1..]; }
      assert done + (s + EncodeRecords(rs[i + 1..])) == done + s + EncodeRecords(rs[i + 1..]);
      PutRecord(bb, rs[i]);
      WroteMore(d, p, d1, p1, bb.buf[..], bb.pos, done, s);
      done := done + s;
      i := i + 1;
    }
    assert done == EncodeRecords(rs);
  }

  /** `DnsPacket::Write`. */
  method PutPacket(bb: Buffer, packet: Packet)
    requires Room(bb.buf[..], bb.pos, EncodePacket(packet))
    modifies bb`pos, bb.buf
    ensures Wrote(old(bb.buf[..]), old(bb.pos), bb.buf[..], bb.pos, EncodePacket(packet))
  {
    hide EncodeHeader, EncodeQuestions, EncodeRecords, Overwrite, ZeroFrom;
    ghost var d, p := bb.buf[..], bb.pos;
    var h := EncodeHeader(packet.header);
    ghost var qs, an := EncodeQuestions(packet.questions), EncodeRecords(packet.answers);
    ghost var ns, ar := EncodeRecords(packet.authorities), EncodeRecords(packet.additionals);
    PutOctets(bb, h);
    ghost var d1, p1 := bb.buf[..], bb.pos;
    PutQuestions(bb, packet.questions);
    WroteMore(d, p, d1, p1, bb.buf[..], bb.pos, h, qs);
    d1, p1 := bb.buf[..], bb.pos;
    PutRecords(bb, packet.answers);
    WroteMore(d, p, d1, p1, bb.buf[..], bb.pos, h + qs, an);
    d1, p1 := bb.buf[..], bb.pos;
    PutRecords(bb, packet.authorities);
    WroteMore(d, p, d1, p1, bb.buf[..], bb.pos, h + qs + an, ns);
    d1, p1 := bb.buf[..], bb.pos;
    PutRecords(bb, packet.additionals);
    WroteMore(d, p, d1, p1, bb.buf[..], bb.pos, h + qs + an + ns, ar);
  }

  /** A packet written into a fresh buffer, as `sendPacket` does, and read back from it. */
  method WriteThenRead(packet: Packet, capacity: nat) returns (o: Outcome<Packet>)
    requires GoodPacket(packet) && |EncodePacket(packet)| < capacity
    ensures o == Ok(packet, |EncodePacket(packet)|)
  {
    hide EncodePacket, ReadPacket, GoodPacket, Overwrite;
    var bb := new Buffer(capacity);
    ghost var d := bb.buf[..];
    PutPacket(bb, packet);
    bb.size := bb.pos;
    bb.pos := 0;
    OverwriteAt(d, 0, EncodePacket(packet));
    PacketRoundTrip.PacketBack(bb.buf[..], bb.size, packet);
    o := GetPacket(bb);
  }
}

/** DNS packets: header, questions and resource records (src/dns/dnsheader.cpp,
    src/dns/dnsquestion.cpp, src/dns/dnsrecord.cpp, src/dns/dnspacket.cpp). */
module Packets {
  import opened Bytes
  import opened Names

  const HEADER_SIZE: nat := 12

  const QT_A: u16 := 1
  const QT_NS: u16 := 2
  const QT_CNAME: u16 := 5
  const QT_MX: u16 := 15
  const QT_AAAA: u16 := 28
  const QT_OPT: u16 := 41

  /** The two flag octets are kept as they are. */
  datatype Header = Header(id: u16, hb3: byte, hb4: byte, questionCount: u16, answerCount: u16,
                           authorityCount: u16, additionalCount: u16)

  /** `name` is the C string held by the `Name` array. */
  datatype Question = Question(name: seq<byte>, qtype: u16, qclass: u16)

  /** The union `Address`, told apart by the record's type. */
  datatype Data =
    | A(address: u32)
    | NS(host: seq<byte>)
    | CName(host: seq<byte>)
    | MX(priority: u16, host: seq<byte>)
    | AAAA(n1: u32, n2: u32, n3: u32, n4: u32)
    | Opt(octets: seq<byte>)

  /** A record is a question with more fields; `len` is carried along unchanged. */
  datatype Record = Record(question: Question, ttl: u32, len: u16, data: Data)

  datatype Packet = Packet(header: Header, questions: seq<Question>, answers: seq<Record>,
                           authorities: seq<Record>, additionals: seq<Record>)

  function TypeOf(data: Data): u16 {
    match data
    case A(_) => QT_A
    case NS(_) => QT_NS
    case CName(_) => QT_CNAME
    case MX(_, _) => QT_MX
    case AAAA(_, _, _, _) => QT_AAAA
    case Opt(_) => QT_OPT
  }

  // ---------------------------------------------------------------- reading
  // `b` is the whole buffer, `size` the length of the message in it.

  function ReadU8(b: seq<byte>, size: nat, pos: nat): Outcome<byte>
    requires size <= |b|
  {
    if pos + 1 > size then Err(FORMERR) else Ok(b[pos], pos + 1)
  }

  function ReadU16(b: seq<byte>, size: nat, pos: nat): Outcome<u16>
    requires size <= |b|
  {
    if pos + 2 > size then Err(FORMERR) else Ok(Join16(b[pos], b[pos + 1]), pos + 2)
  }

  /** VREAD_U32: it asks for two octets and takes four, so it can read behind the message. */
  function ReadU32(b: seq<byte>, size: nat, pos: nat): Outcome<u32>
    requires size <= |b|
  {
    if pos + 2 > size then Err(FORMERR)
    else if pos + 4 > |b| then Undefined
    else Ok(Join32(b[pos], b[pos + 1], b[pos + 2], b[pos + 3]), pos + 4)
  }

  function ReadHost(b: seq<byte>, size: nat, pos: nat): Outcome<seq<byte>>
    requires size <= |b|
  {
    var (text, p) :- ReadName(b[..size], pos);
    Ok(CString(text), p)
  }

  function ReadHeader(b: seq<byte>, size: nat, pos: nat): Outcome<Header>
    requires size <= |b|
  {
    if pos + HEADER_SIZE > size then Err(FORMERR)
    else
      var (id, p1) :- ReadU16(b, size, pos);
      var (hb3, p2) :- ReadU8(b, size, p1);
      var (hb4, p3) :- ReadU8(b, size, p2);
      var (qd, p4) :- ReadU16(b, size, p3);
      var (an, p5) :- ReadU16(b, size, p4);
      var (ns, p6) :- ReadU16(b, size, p5);
      var (ar, p7) :- ReadU16(b, size, p6);
      Ok(Header(id, hb3, hb4, qd, an, ns, ar), p7)
  }

  function ReadQuestion(b: seq<byte>, size: nat, pos: nat): Outcome<Question>
    requires size <= |b|
  {
    var (name, p1) :- ReadHost(b, size, pos);
    var (t, p2) :- ReadU16(b, size, p1);
    var (c, p3) :- ReadU16(b, size, p2);
    Ok(Question(name, t, c), p3)
  }

  function ReadOctets(b: seq<byte>, size: nat, pos: nat, n: nat): Outcome<seq<byte>>
    requires size <= |b|
  {
    if n == 0 then Ok([], pos)
    else if pos + n > size then Err(FORMERR)
    else Ok(b[pos..pos + n], pos + n)
  }

  /** The switch of `DnsRecord::Read`. OPT is allowed only among the additional records. */
  function ReadData(b: seq<byte>, size: nat, pos: nat, qtype: u16, len: u16, additional: bool): Outcome<Data>
    requires size <= |b|
  {
    if qtype == QT_A then
      var (n, p) :- ReadU32(b, size, pos);
      Ok(A(n), p)
    else if qtype == QT_NS then
      var (host, p) :- ReadHost(b, size, pos);
      Ok(NS(host), p)
    else if qtype == QT_CNAME then
      var (host, p) :- ReadHost(b, size, pos);
      Ok(CName(host), p)
    else if qtype == QT_MX then
      var (priority, p1) :- ReadU16(b, size, pos);
      var (host, p2) :- ReadHost(b, size, p1);
      Ok(MX(priority, host), p2)
    else if qtype == QT_AAAA then
      var (n1, p1) :- ReadU32(b, size, pos);
      var (n2, p2) :- ReadU32(b, size, p1);
      var (n3, p3) :- ReadU32(b, size, p2);
      var (n4, p4) :- ReadU32(b, size, p3);
      Ok(AAAA(n1, n2, n3, n4), p4)
    else if qtype == QT_OPT then
      if !additional then Err(FORMERR)
      else
        var (octets, p) :- ReadOctets(b, size, pos, len);
        Ok(Opt(octets), p)
    else Err(SERVFAIL)
  }

  function ReadRecord(b: seq<byte>, size: nat, pos: nat, additional: bool): Outcome<Record>
    requires size <= |b|
  {
    var (q, p1) :- ReadQuestion(b, size, pos);
    var (ttl, p2) :- ReadU32(b, size, p1);
    var (len, p3) :- ReadU16(b, size, p2);
    var (data, p4) :- ReadData(b, size, p3, q.qtype, len, additional);
    Ok(Record(q, ttl, len, data), p4)
  }

  function ReadQuestions(b: seq<byte>, size: nat, pos: nat, n: nat): Outcome<seq<Question>>
    requires size <= |b|
    decreases n
  {
    if n == 0 then Ok([], pos)
    else
      var (q, p1) :- ReadQuestion(b, size, pos);
      var (qs, p2) :- ReadQuestions(b, size, p1, n - 1);
      Ok([q] + qs, p2)
  }

  function ReadRecords(b: seq<byte>, size: nat, pos: nat, n: nat, additional: bool): Outcome<seq<Record>>
    requires size <= |b|
    decreases n
  {
    if n == 0 then Ok([], pos)
    else
      var (r, p1) :- ReadRecord(b, size, pos, additional);
      var (rs, p2) :- ReadRecords(b, size, p1, n - 1, additional);
      Ok([r] + rs, p2)
  }

  /** `DnsPacket::Read`. */
  function ReadPacket(b: seq<byte>, size: nat, pos: nat): Outcome<Packet>
    requires size <= |b|
  {
    var (h, p0) :- ReadHeader(b, size, pos);
    var (qs, p1) :- ReadQuestions(b, size, p0, h.questionCount);
    var (an, p2) :- ReadRecords(b, size, p1, h.answerCount, false);
    var (ns, p3) :- ReadRecords(b, size, p2, h.authorityCount, false);
    var (ar, p4) :- ReadRecords(b, size, p3, h.additionalCount, true);
    Ok(Packet(h, qs, an, ns, ar), p4)
  }

  // ---------------------------------------------------------------- writing

  function EncodeHeader(h: Header): (s: seq<byte>)
    ensures |s| == HEADER_SIZE
  {
    Split16(h.id) + [h.hb3] + [h.hb4] + Split16(h.questionCount) + Split16(h.answerCount)
    + Split16(h.authorityCount) + Split16(h.additionalCount)
  }

  function EncodeHost(name: seq<byte>): seq<byte> {
    WireName(CString(name))
  }

  function EncodeQuestion(q: Question): seq<byte> {
    EncodeHost(q.name) + Split16(q.qtype) + Split16(q.qclass)
  }

  /** The switch of `DnsRecord::Write`, which has no case for OPT. */
  function EncodeData(d: Data): seq<byte> {
    match d
    case A(n) => Split32(n)
    case NS(host) => EncodeHost(host)
    case CName(host) => EncodeHost(host)
    case MX(priority, host) => Split16(priority) + EncodeHost(host)
    case AAAA(n1, n2, n3, n4) => Split32(n1) + Split32(n2) + Split32(n3) + Split32(n4)
    case Opt(_) => []
  }

  function EncodeRecord(r: Record): seq<byte> {
    EncodeQuestion(r.question) + Split32(r.ttl) + Split16(r.len) + EncodeData(r.data)
  }

  function EncodeQuestions(qs: seq<Question>): seq<byte> {
    if qs == [] then [] else EncodeQuestion(qs[0]) + EncodeQuestions(qs[1..])
  }

  function EncodeRecords(rs: seq<Record>): seq<byte> {
    if rs == [] then [] else EncodeRecord(rs[0]) + EncodeRecords(rs[1..])
  }

  /** `DnsPacket::Write`. */
  function EncodePacket(p: Packet): seq<byte> {
    EncodeHeader(p.header) + EncodeQuestions(p.questions) + EncodeRecords(p.answers)
    + EncodeRecords(p.authorities) + EncodeRecords(p.additionals)
  }

  /** The counts in the header are those of the sections. */
  predicate Consistent(p: Packet) {
    && p.header.questionCount == |p.questions|
    && p.header.answerCount == |p.answers|
    && p.header.authorityCount == |p.authorities|
    && p.header.additionalCount == |p.additionals|
  }

  /** A nonempty name without NUL, with labels of 1 to 63 octets, that fits a name array. */
  predicate GoodName(s: seq<byte>) {
    0 !in s && LabelsOk(s) && |s| < MAXDNAME
  }

  predicate GoodData(d: Data) {
    match d
    case NS(host) => GoodName(host)
    case CName(host) => GoodName(host)
    case MX(_, host) => GoodName(host)
    case Opt(_) => false
    case _ => true
  }

  predicate GoodRecord(r: Record) {
    GoodName(r.question.name) && r.question.qtype == TypeOf(r.data) && GoodData(r.data)
  }

  predicate GoodPacket(p: Packet) {
    && Consistent(p)
    && (forall q :: q in p.questions ==> GoodName(q.name))
    && (forall r :: r in p.answers + p.authorities + p.additionals ==> GoodRecord(r))
  }
}

/** Round trips. */
module PacketRoundTrip {
  import opened Bytes
  import opened Names
  import opened Packets

  /** `s` lies at `pos` and within the message. */
  ghost predicate In(b: seq<byte>, size: nat, pos: nat, s: seq<byte>) {
    size <= |b| && pos + |s| <= size && At(b, pos, s)
  }

  lemma {:induction false} InAppend(b: seq<byte>, size: nat, pos: nat, x: seq<byte>, y: seq<byte>)
    requires In(b, size, pos, x + y)
    ensures In(b, size, pos, x) && In(b, size, pos + |x|, y)
  {
    AtAppend(b, pos, x, y);
  }

  lemma {:induction false} U16Back(b: seq<byte>, size: nat, pos: nat, v: u16)
    requires In(b, size, pos, Split16(v))
    ensures ReadU16(b, size, pos) == Ok(v, pos + 2)
  {
    hide Split16, Join16;
    SplitJoin16(v);
    AtIndex(b, pos, Split16(v), 0);
    AtIndex(b, pos, Split16(v), 1);
  }

  lemma {:induction false} U32Back(b: seq<byte>, size: nat, pos: nat, v: u32)
    requires In(b, size, pos, Split32(v))
    ensures ReadU32(b, size, pos) == Ok(v, pos + 4)
  {
    hide Split32, Join32;
    SplitJoin32(v);
    AtIndex(b, pos, Split32(v), 0);
    AtIndex(b, pos, Split32(v), 1);
    AtIndex(b, pos, Split32(v), 2);
    AtIndex(b, pos, Split32(v), 3);
  }

  lemma {:induction false} CStringOfGood(s: seq<byte>)
    requires 0 !in s
    ensures CString(s) == s
  {
    if s != [] {
      assert s == [s[0]] + s[1..];
      CStringOfGood(s[1..]);
    }
  }

  lemma {:induction false} HostBack(b: seq<byte>, size: nat, pos: nat, name: seq<byte>)
    requires GoodName(name) && In(b, size, pos, EncodeHost(name))
    ensures ReadHost(b, size, pos) == Ok(name, pos + |EncodeHost(name)|)
  {
    hide WireName, ReadName, LabelsOk;
    CStringOfGood(name);
    AtTake(b, pos, WireName(name), size);
    NameRoundTripIff(b[..size], pos, name);
  }

  lemma {:induction false} HeaderBack(b: seq<byte>, size: nat, pos: nat, h: Header)
    requires In(b, size, pos, EncodeHeader(h))
    ensures ReadHeader(b, size, pos) == Ok(h, pos + HEADER_SIZE)
  {
    hide Split16, ReadU16, At;
    var s1 := Split16(h.id);
    var s2 := s1 + [h.hb3];
    var s3 := s2 + [h.hb4];
    var s4 := s3 + Split16(h.questionCount);
    var s5 := s4 + Split16(h.answerCount);
    var s6 := s5 + Split16(h.authorityCount);
    InAppend(b, size, pos, s6, Split16(h.additionalCount));
    InAppend(b, size, pos, s5, Split16(h.authorityCount));
    InAppend(b, size, pos, s4, Split16(h.answerCount));
    InAppend(b, size, pos, s3, Split16(h.questionCount));
    InAppend(b, size, pos, s2, [h.hb4]);
    InAppend(b, size, pos, s1, [h.hb3]);
    U16Back(b, size, pos, h.id);
    AtIndex(b, pos + 2, [h.hb3], 0);
    AtIndex(b, pos + 3, [h.hb4], 0);
    U16Back(b, size, pos + 4, h.questionCount);
    U16Back(b, size, pos + 6, h.answerCount);
    U16Back(b, size, pos + 8, h.authorityCount);
    U16Back(b, size, pos + 10, h.additionalCount);
  }

  lemma {:induction false} QuestionBack(b: seq<byte>, size: nat, pos: nat, q: Question)
    requires GoodName(q.name) && In(b, size, pos, EncodeQuestion(q))
    ensures ReadQuestion(b, size, pos) == Ok(q, pos + |EncodeQuestion(q)|)
  {
    hide Split16, ReadU16, EncodeHost, ReadHost, In;
    var s := EncodeHost(q.name);
    InAppend(b, size, pos, s + Split16(q.qtype), Split16(q.qclass));
    InAppend(b, size, pos, s, Split16(q.qtype));
    InSize(b, size, pos, s);
    HostBack(b, size, pos, q.name);
    U16Back(b, size, pos + |s|, q.qtype);
    U16Back(b, size, pos + |s| + 2, q.qclass);
  }

  lemma {:induction false} InSize(b: seq<byte>, size: nat, pos: nat, s: seq<byte>)
    requires In(b, size, pos, s)
    ensures pos + |s| <= size <= |b|
  {
  }

  lemma {:induction false} DataBack(b: seq<byte>, size: nat, pos: nat, d: Data, len: u16, additional: bool)
    requires GoodData(d) && In(b, size, pos, EncodeData(d))
    ensures ReadData(b, size, pos, TypeOf(d), len, additional) == Ok(d, pos + |EncodeData(d)|)
  {
    hide Split16, Split32, ReadU16, ReadU32, EncodeHost, ReadHost, In, GoodName;
    InSize(b, size, pos, EncodeData(d));
    match d
    case A(n) => U32Back(b, size, pos, n);
    case NS(host) => HostBack(b, size, pos, host);
    case CName(host) => HostBack(b, size, pos, host);
    case MX(priority, host) =>
      InAppend(b, size, pos, Split16(priority), EncodeHost(host));
      U16Back(b, size, pos, priority);
      HostBack(b, size, pos + 2, host);
    case AAAA(n1, n2, n3, n4) =>
      InAppend(b, size, pos, Split32(n1) + Split32(n2) + Split32(n3), Split32(n4));
      InAppend(b, size, pos, Split32(n1) + Split32(n2), Split32(n3));
      InAppend(b, size, pos, Split32(n1), Split32(n2));
      U32Back(b, size, pos, n1);
      U32Back(b, size, pos + 4, n2);
      U32Back(b, size, pos + 8, n3);
      U32Back(b, size, pos + 12, n4);
  }

  lemma {:induction false} RecordBack(b: seq<byte>, size: nat, pos: nat, r: Record, additional: bool)
    requires GoodRecord(r) && In(b, size, pos, EncodeRecord(r))
    ensures ReadRecord(b, size, pos, additional) == Ok(r, pos + |EncodeRecord(r)|)
  {
    hide Split16, Split32, ReadU16, ReadU32, EncodeQuestion, ReadQuestion, EncodeData, ReadData, In, GoodName, GoodData;
    var s := EncodeQuestion(r.question);
    InSize(b, size, pos, EncodeRecord(r));
    InAppend(b, size, pos, s + Split32(r.ttl) + Split16(r.len), EncodeData(r.data));
    InAppend(b, size, pos, s + Split32(r.ttl), Split16(r.len));
    InAppend(b, size, pos, s, Split32(r.ttl));
    QuestionBack(b, size, pos, r.question);
    U32Back(b, size, pos + |s|, r.ttl);
    U16Back(b, size, pos + |s| + 4, r.len);
    DataBack(b, size, pos + |s| + 6, r.data, r.len, additional);
  }

  lemma {:induction false} QuestionsBack(b: seq<byte>, size: nat, pos: nat, qs: seq<Question>)
    requires (forall q :: q in qs ==> GoodName(q.name)) && In(b, size, pos, EncodeQuestions(qs))
    ensures ReadQuestions(b, size, pos, |qs|) == Ok(qs, pos + |EncodeQuestions(qs)|)
    decreases |qs|
  {
    hide EncodeQuestion, EncodeQuestions, ReadQuestion, ReadQuestions, In, GoodName;
    InSize(b, size, pos, EncodeQuestions(qs));
    QuestionsUnfold(b, size, pos, qs);
    if qs != [] {
      InAppend(b, size, pos, EncodeQuestion(qs[0]), EncodeQuestions(qs[1..]));
      QuestionBack(b, size, pos, qs[0]);
      QuestionsBack(b, size, pos + |EncodeQuestion(qs[0])|, qs[1..]);
      assert qs == [qs[0]] + qs[1..];
    }
  }

  lemma {:induction false} QuestionsUnfold(b: seq<byte>, size: nat, pos: nat, qs: seq<Question>)
    requires size <= |b|
    ensures qs == [] ==> EncodeQuestions(qs) == [] && ReadQuestions(b, size, pos, |qs|) == Ok([], pos)
    ensures qs != [] ==> EncodeQuestions(qs) == EncodeQuestion(qs[0]) + EncodeQuestions(qs[1..])
    ensures var o := ReadQuestion(b, size, pos);
            qs != [] && o.Ok? && ReadQuestions(b, size, o.pos, |qs| - 1).Ok? ==>
              var o' := ReadQuestions(b, size, o.pos, |qs| - 1);
              ReadQuestions(b, size, pos, |qs|) == Ok([o.value] + o'.value, o'.pos)
  {
    hide EncodeQuestion, ReadQuestion;
  }

  lemma {:induction false} RecordsBack(b: seq<byte>, size: nat, pos: nat, rs: seq<Record>, additional: bool)
    requires (forall r :: r in rs ==> GoodRecord(r)) && In(b, size, pos, EncodeRecords(rs))
    ensures ReadRecords(b, size, pos, |rs|, additional) == Ok(rs, pos + |EncodeRecords(rs)|)
    decreases |rs|
  {
    hide EncodeRecord, EncodeRecords, ReadRecord, ReadRecords, In, GoodRecord;
    InSize(b, size, pos, EncodeRecords(rs));
    RecordsUnfold(b, size, pos, rs, additional);
    if rs != [] {
      InAppend(b, size, pos, EncodeRecord(rs[0]), EncodeRecords(rs[1..]));
      RecordBack(b, size, pos, rs[0], additional);
      RecordsBack(b, size, pos + |EncodeRecord(rs[0])|, rs[1..], additional);
      assert rs == [rs[0]] + rs[1..];
    }
  }

  lemma {:induction false} RecordsUnfold(b: seq<byte>, size: nat, pos: nat, rs: seq<Record>, additional: bool)
    requires size <= |b|
    ensures rs == [] ==> EncodeRecords(rs) == [] && ReadRecords(b, size, pos, |rs|, additional) == Ok([], pos)
    ensures rs != [] ==> EncodeRecords(rs) == EncodeRecord(rs[0]) + EncodeRecords(rs[1..])
    ensures var o := ReadRecord(b, size, pos, additional);
            rs != [] && o.Ok? && ReadRecords(b, size, o.pos, |rs| - 1, additional).Ok? ==>
              var o' := ReadRecords(b, size, o.pos, |rs| - 1, additional);
              ReadRecords(b, size, pos, |rs|, additional) == Ok([o.value] + o'.value, o'.pos)
  {
    hide EncodeRecord, ReadRecord;
  }

  /** Reading what was written gives the packet back, and the cursor ends where writing ended. */
  lemma {:induction false} PacketBack(b: seq<byte>, size: nat, p: Packet)
    requires GoodPacket(p) && In(b, size, 0, EncodePacket(p))
    ensures ReadPacket(b, size, 0) == Ok(p, |EncodePacket(p)|)
  {
    hide EncodeHeader, EncodeQuestions, EncodeRecords, ReadHeader, ReadQuestions, ReadRecords, In, GoodRecord, GoodName;
    var h, qs := EncodeHeader(p.header), EncodeQuestions(p.questions);
    var an, ns, ar := EncodeRecords(p.answers), EncodeRecords(p.authorities), EncodeRecords(p.additionals);
    InSize(b, size, 0, EncodePacket(p));
    InAppend(b, size, 0, h + qs + an + ns, ar);
    InAppend(b, size, 0, h + qs + an, ns);
    InAppend(b, size, 0, h + qs, an);
    InAppend(b, size, 0, h, qs);
    HeaderBack(b, size, 0, p.header);
    QuestionsBack(b, size, |h|, p.questions);
    RecordsBack(b, size, |h| + |qs|, p.answers, false);
    RecordsBack(b, size, |h| + |qs| + |an|, p.authorities, false);
    RecordsBack(b, size, |h| + |qs| + |an| + |ns|, p.additionals, true);
  }

  // ------------------------------------------- only good names survive

  /** Leaves out OPT, and what the datatypes allow and a C++ packet cannot hold: a NUL inside a
      name, and a record whose type is not that of its data. */
  predicate SaneData(d: Data) {
    match d
    case NS(host) => 0 !in host
    case CName(host) => 0 !in host
    case MX(_, host) => 0 !in host
    case Opt(_) => false
    case _ => true
  }

  predicate SaneQuestion(q: Question) {
    0 !in q.name
  }

  predicate SaneRecord(r: Record) {
    0 !in r.question.name && r.question.qtype == TypeOf(r.data) && SaneData(r.data)
  }

  /** A host read as it was written is good, or it is empty and the cursor is one octet short. */
  lemma {:induction false} HostOnlyIf(b: seq<byte>, size: nat, pos: nat, host: seq<byte>)
    requires 0 !in host && In(b, size, pos, EncodeHost(host))
    requires ReadHost(b, size, pos).Ok? && ReadHost(b, size, pos).value == host
    ensures if host == [] then ReadHost(b, size, pos).pos == pos + 1 && Short(b, size, pos + 1, pos + |EncodeHost(host)|)
            else GoodName(host)
  {
    hide ReadName, LabelsOk, WireName;
    CStringOfGood(host);
    AtTake(b, pos, WireName(host), size);
    if host == [] {
      EmptyHost(b, size, pos);
    } else {
      ReadAsWrittenIsGood(b[..size], pos, host);
    }
  }

  /** The cursor lies in front of where the next item starts, with only zeros in between. */
  ghost predicate Short(b: seq<byte>, size: nat, p: nat, end: nat) {
    p < end <= size <= |b| && forall k :: p <= k < end ==> b[k] == 0
  }

  /** A name that was read, through pointers or not, and is written again anywhere, is read back
      exactly when it has 1 to 63 octets between dots. Both directions go through C strings:
      the reader and the writer stop at the first NUL of a label. */
  lemma {:induction false} DecompressionPreserves(b: seq<byte>, size: nat, pos: nat, b': seq<byte>, size': nat, pos': nat)
    requires size <= |b| && ReadHost(b, size, pos).Ok?
    requires In(b', size', pos', EncodeHost(ReadHost(b, size, pos).value))
    ensures var name := ReadHost(b, size, pos).value;
            ReadHost(b', size', pos') == Ok(name, pos' + |EncodeHost(name)|) <==> LabelsOk(name)
  {
    hide LabelsOk, EncodeHost, In;
    var name := ReadHost(b, size, pos).value;
    HostFits(b, size, pos);
    InSize(b', size', pos', EncodeHost(name));
    if LabelsOk(name) {
      HostBack(b', size', pos', name);
    }
    if ReadHost(b', size', pos') == Ok(name, pos' + |EncodeHost(name)|) {
      HostOnlyIf(b', size', pos', name);
      if name == [] {
        EmptyEncoding(b', size', pos');
      }
    }
  }

  lemma {:induction false} HostFits(b: seq<byte>, size: nat, pos: nat)
    requires size <= |b| && ReadHost(b, size, pos).Ok?
    ensures var name := ReadHost(b, size, pos).value; 0 !in name && |name| < MAXDNAME
  {
    hide NameLoop, Expands, LastResume, Text;
    var labels, k := ReadNameSound(b[..size], pos);
    ReadNameOfExpansion(b[..size], pos, labels, k);
  }

  lemma {:induction false} EmptyHost(b: seq<byte>, size: nat, pos: nat)
    requires In(b, size, pos, WireName([]))
    ensures ReadName(b[..size], pos) == Ok([], pos + 1) && b[pos] == 0 && b[pos + 1] == 0
  {
    EmptyText();
    assert WireName([]) == [0, 0];
    AtIndex(b, pos, [0, 0], 0);
    AtIndex(b, pos, [0, 0], 1);
  }

  const NOTHING := Question([], 0, 0)

  lemma {:induction false} NothingIsZeros(b: seq<byte>, size: nat, pos: nat)
    requires In(b, size, pos, EncodeQuestion(NOTHING))
    ensures |EncodeQuestion(NOTHING)| == 6 && forall k :: pos <= k < pos + 6 ==> b[k] == 0
  {
    var s := EncodeQuestion(NOTHING);
    EmptyText();
    assert CString([]) == [];
    assert s == [0, 0, 0, 0, 0, 0];
    forall k | pos <= k < pos + 6
      ensures b[k] == 0
    {
      AtIndex(b, pos, s, k - pos);
    }
  }

  /** A question read as it was written has a good name, or it is all zeros and the cursor is
      short. */
  lemma {:induction false} QuestionOnlyIf(b: seq<byte>, size: nat, pos: nat, q: Question)
    requires SaneQuestion(q) && In(b, size, pos, EncodeQuestion(q))
    requires ReadQuestion(b, size, pos).Ok? && ReadQuestion(b, size, pos).value == q
    ensures GoodName(q.name)
            || (q == NOTHING && Short(b, size, ReadQuestion(b, size, pos).pos, pos + |EncodeQuestion(q)|))
  {
    hide ReadName, LabelsOk, WireName, Split16, CString, ReadHost, In;
    var s := EncodeHost(q.name);
    InAppend(b, size, pos, s + Split16(q.qtype), Split16(q.qclass));
    InAppend(b, size, pos, s, Split16(q.qtype));
    InSize(b, size, pos, EncodeQuestion(q));
    HostOnlyIf(b, size, pos, q.name);
    if q.name == [] {
      CStringOfGood(q.name);
      EmptyHost(b, size, pos);
      ShiftedIsZero(b, size, pos + 2, q.qtype);
      ShiftedIsZero(b, size, pos + 4, q.qclass);
      NothingIsZeros(b, size, pos);
    }
  }

  /** A number read one octet early, from behind a zero, is the same number only if it is zero. */
  lemma {:induction false} ShiftedIsZero(b: seq<byte>, size: nat, pos: nat, v: u16)
    requires In(b, size, pos, Split16(v))
    ensures Join16(0, b[pos]) == v ==> v == 0
    ensures v == 0 ==> b[pos] == 0 && b[pos + 1] == 0
  {
    AtIndex(b, pos, Split16(v), 0);
    AtIndex(b, pos, Split16(v), 1);
  }

  /** From a short cursor only the question of zeros is read as it was written, and the cursor
      stays short. */
  lemma {:induction false} ShortQuestion(b: seq<byte>, size: nat, p: nat, end: nat, q: Question)
    requires SaneQuestion(q) && Short(b, size, p, end) && In(b, size, end, EncodeQuestion(q))
    requires ReadQuestion(b, size, p).Ok? && ReadQuestion(b, size, p).value == q
    ensures q == NOTHING && Short(b, size, ReadQuestion(b, size, p).pos, end + |EncodeQuestion(q)|)
  {
    hide EncodeHost, ReadHost, Split16, Join16, ReadU16, In;
    var s := EncodeHost(q.name);
    InAppend(b, size, end, s + Split16(q.qtype), Split16(q.qclass));
    InAppend(b, size, end, s, Split16(q.qtype));
    InSize(b, size, end, EncodeQuestion(q));
    ZeroName(b, size, p);
    EmptyEncoding(b, size, end);
    ZeroNumber(b, size, p + 1);
    ShiftedIsZero(b, size, end + 2, q.qtype);
    ZeroNumber(b, size, p + 3);
    assert q == NOTHING;
    NothingIsZeros(b, size, end);
  }

  lemma {:induction false} ZeroNumber(b: seq<byte>, size: nat, p: nat)
    requires p + 2 <= size <= |b| && b[p] == 0 && b[p + 1] == 0
    ensures ReadU16(b, size, p) == Ok(0, p + 2)
  {
  }

  lemma {:induction false} ZeroName(b: seq<byte>, size: nat, p: nat)
    requires p < size <= |b| && b[p] == 0
    ensures ReadHost(b, size, p) == Ok([], p + 1)
  {
    hide NameLoop;
    CStringOfGood([]);
  }

  lemma {:induction false} EmptyEncoding(b: seq<byte>, size: nat, pos: nat)
    requires In(b, size, pos, EncodeHost([]))
    ensures |EncodeHost([])| == 2 && b[pos] == 0 && b[pos + 1] == 0
  {
    CStringOfGood([]);
    EmptyHost(b, size, pos);
  }

  lemma {:induction false} DataOnlyIf(b: seq<byte>, size: nat, pos: nat, d: Data, len: u16, additional: bool)
    requires SaneData(d) && In(b, size, pos, EncodeData(d))
    requires ReadData(b, size, pos, TypeOf(d), len, additional).Ok?
    requires ReadData(b, size, pos, TypeOf(d), len, additional).value == d
    ensures GoodData(d) || Short(b, size, ReadData(b, size, pos, TypeOf(d), len, additional).pos, pos + |EncodeData(d)|)
  {
    hide Split16, ReadU32, EncodeHost, ReadHost, In, GoodName, Short;
    InSize(b, size, pos, EncodeData(d));
    match d
    case NS(host) => HostOnlyIf(b, size, pos, host);
    case CName(host) => HostOnlyIf(b, size, pos, host);
    case MX(priority, host) =>
      InAppend(b, size, pos, Split16(priority), EncodeHost(host));
      HostOnlyIf(b, size, pos + 2, host);
    case _ =>
  }

  lemma {:induction false} RecordOnlyIf(b: seq<byte>, size: nat, pos: nat, r: Record, additional: bool)
    requires SaneRecord(r) && In(b, size, pos, EncodeRecord(r))
    requires ReadRecord(b, size, pos, additional).Ok? && ReadRecord(b, size, pos, additional).value == r
    ensures GoodRecord(r) || Short(b, size, ReadRecord(b, size, pos, additional).pos, pos + |EncodeRecord(r)|)
  {
    hide Split16, Split32, ReadU16, ReadU32, EncodeQuestion, ReadQuestion, EncodeData, ReadData, In, GoodName, GoodData, SaneData, Short;
    var s := EncodeQuestion(r.question);
    InSize(b, size, pos, EncodeRecord(r));
    InAppend(b, size, pos, s + Split32(r.ttl) + Split16(r.len), EncodeData(r.data));
    InAppend(b, size, pos, s + Split32(r.ttl), Split16(r.len));
    InAppend(b, size, pos, s, Split32(r.ttl));
    QuestionOnlyIf(b, size, pos, r.question);
    assert TypeOf(r.data) != 0;
    QuestionBack(b, size, pos, r.question);
    U32Back(b, size, pos + |s|, r.ttl);
    U16Back(b, size, pos + |s| + 4, r.len);
    DataOnlyIf(b, size, pos + |s| + 6, r.data, r.len, additional);
  }

  lemma {:induction false} QuestionsOnlyIf(b: seq<byte>, size: nat, pos: nat, qs: seq<Question>)
    requires (forall q :: q in qs ==> SaneQuestion(q)) && In(b, size, pos, EncodeQuestions(qs))
    requires ReadQuestions(b, size, pos, |qs|).Ok? && ReadQuestions(b, size, pos, |qs|).value == qs
    ensures (forall q :: q in qs ==> GoodName(q.name))
            || Short(b, size, ReadQuestions(b, size, pos, |qs|).pos, pos + |EncodeQuestions(qs)|)
    decreases |qs|
  {
    hide EncodeQuestion, ReadQuestion, In, GoodName, SaneQuestion, Short, ReadQuestions;
    InSize(b, size, pos, EncodeQuestions(qs));
    QuestionsCons(b, size, pos, qs);
    if qs != [] {
      InAppend(b, size, pos, EncodeQuestion(qs[0]), EncodeQuestions(qs[1..]));
      QuestionOnlyIf(b, size, pos, qs[0]);
      assert qs == [qs[0]] + qs[1..];
      var end := pos + |EncodeQuestion(qs[0])|;
      if GoodName(qs[0].name) {
        QuestionBack(b, size, pos, qs[0]);
        QuestionsOnlyIf(b, size, end, qs[1..]);
      } else {
        ShortQuestions(b, size, ReadQuestion(b, size, pos).pos, end, qs[1..]);
      }
    }
  }

  lemma {:induction false} ShortQuestions(b: seq<byte>, size: nat, p: nat, end: nat, qs: seq<Question>)
    requires (forall q :: q in qs ==> SaneQuestion(q)) && Short(b, size, p, end) && In(b, size, end, EncodeQuestions(qs))
    requires ReadQuestions(b, size, p, |qs|).Ok? && ReadQuestions(b, size, p, |qs|).value == qs
    ensures Short(b, size, ReadQuestions(b, size, p, |qs|).pos, end + |EncodeQuestions(qs)|)
    decreases |qs|
  {
    hide EncodeQuestion, ReadQuestion, In, SaneQuestion, Short, ReadQuestions;
    InSize(b, size, end, EncodeQuestions(qs));
    QuestionsCons(b, size, p, qs);
    if qs != [] {
      InAppend(b, size, end, EncodeQuestion(qs[0]), EncodeQuestions(qs[1..]));
      ShortQuestion(b, size, p, end, qs[0]);
      ShortQuestions(b, size, ReadQuestion(b, size, p).pos, end + |EncodeQuestion(qs[0])|, qs[1..]);
    }
  }

  /** Questions read as `qs` are the first of them followed by the rest. */
  lemma {:induction false} QuestionsCons(b: seq<byte>, size: nat, p: nat, qs: seq<Question>)
    requires size <= |b| && ReadQuestions(b, size, p, |qs|).Ok? && ReadQuestions(b, size, p, |qs|).value == qs
    ensures qs == [] ==> ReadQuestions(b, size, p, |qs|).pos == p
    ensures qs != [] ==> ReadQuestion(b, size, p).Ok? && ReadQuestion(b, size, p).value == qs[0]
    ensures qs != [] ==>
              var o := ReadQuestions(b, size, ReadQuestion(b, size, p).pos, |qs| - 1);
              o == Ok(qs[1..], ReadQuestions(b, size, p, |qs|).pos)
  {
    hide ReadQuestion;
  }

  lemma {:induction false} RecordsCons(b: seq<byte>, size: nat, p: nat, rs: seq<Record>, additional: bool)
    requires size <= |b| && ReadRecords(b, size, p, |rs|, additional).Ok?
    requires ReadRecords(b, size, p, |rs|, additional).value == rs
    ensures rs == [] ==> ReadRecords(b, size, p, |rs|, additional).pos == p
    ensures rs != [] ==> ReadRecord(b, size, p, additional).Ok? && ReadRecord(b, size, p, additional).value == rs[0]
    ensures rs != [] ==>
              var o := ReadRecords(b, size, ReadRecord(b, size, p, additional).pos, |rs| - 1, additional);
              o == Ok(rs[1..], ReadRecords(b, size, p, |rs|, additional).pos)
  {
    hide ReadRecord;
  }

  /** A section read as it was written is good, or the cursor behind it is short. */
  lemma {:induction false} RecordsOnlyIf(b: seq<byte>, size: nat, pos: nat, rs: seq<Record>, additional: bool)
    requires (forall r :: r in rs ==> SaneRecord(r)) && In(b, size, pos, EncodeRecords(rs))
    requires ReadRecords(b, size, pos, |rs|, additional).Ok? && ReadRecords(b, size, pos, |rs|, additional).value == rs
    ensures (forall r :: r in rs ==> GoodRecord(r))
            || Short(b, size, ReadRecords(b, size, pos, |rs|, additional).pos, pos + |EncodeRecords(rs)|)
    decreases |rs|
  {
    hide EncodeRecord, ReadRecord, In, GoodRecord, SaneRecord, Short, ReadRecords;
    InSize(b, size, pos, EncodeRecords(rs));
    RecordsCons(b, size, pos, rs, additional);
    if rs != [] {
      InAppend(b, size, pos, EncodeRecord(rs[0]), EncodeRecords(rs[1..]));
      RecordOnlyIf(b, size, pos, rs[0], additional);
      assert rs == [rs[0]] + rs[1..];
      var end := pos + |EncodeRecord(rs[0])|;
      if GoodRecord(rs[0]) {
        RecordBack(b, size, pos, rs[0], additional);
        RecordsOnlyIf(b, size, end, rs[1..], additional);
      } else {
        ShortSection(b, size, ReadRecord(b, size, pos, additional).pos, end, rs[1..], additional);
        RecordsCons(b, size, ReadRecord(b, size, pos, additional).pos, rs[1..], additional);
      }
    }
  }

  /** From a short cursor only an empty section is read as it was written. */
  lemma {:induction false} ShortSection(b: seq<byte>, size: nat, p: nat, end: nat, rs: seq<Record>, additional: bool)
    requires Short(b, size, p, end) && In(b, size, end, EncodeRecords(rs)) && forall r :: r in rs ==> SaneRecord(r)
    requires ReadRecords(b, size, p, |rs|, additional).Ok? && ReadRecords(b, size, p, |rs|, additional).value == rs
    ensures rs == []
  {
    hide ReadQuestion, EncodeQuestion, ReadU32, ReadU16, ReadData, EncodeData, Split32, Split16, In;
    if rs != [] {
      var r := rs[0];
      var s := EncodeQuestion(r.question);
      assert SaneRecord(r);
      InAppend(b, size, end, EncodeRecord(r), EncodeRecords(rs[1..]));
      InAppend(b, size, end, s + Split32(r.ttl) + Split16(r.len), EncodeData(r.data));
      InAppend(b, size, end, s + Split32(r.ttl), Split16(r.len));
      InAppend(b, size, end, s, Split32(r.ttl));
      assert TypeOf(r.data) != 0;
      ShortQuestion(b, size, p, end, r.question);
    }
  }

  /** Every record, OPT included: it comes back exactly when its names are good and, for OPT, it
      has no octets, length zero and a place among the additional records, because the writer
      drops the octets and the reader counts on `len`. */
  lemma {:induction false} RecordBackIff(b: seq<byte>, size: nat, pos: nat, r: Record, additional: bool)
    requires 0 !in r.question.name && r.question.qtype == TypeOf(r.data) && (SaneData(r.data) || r.data.Opt?)
    requires In(b, size, pos, EncodeRecord(r))
    ensures ReadRecord(b, size, pos, additional) == Ok(r, pos + |EncodeRecord(r)|)
            <==> && GoodName(r.question.name)
                 && (if r.data.Opt? then additional && r.len == 0 && r.data.octets == [] else GoodData(r.data))
  {
    hide EncodeRecord, ReadRecord, In, GoodName, GoodData, SaneData;
    InSize(b, size, pos, EncodeRecord(r));
    if ReadRecord(b, size, pos, additional) == Ok(r, pos + |EncodeRecord(r)|) {
      if r.data.Opt? {
        OptNameGood(b, size, pos, r, additional);
        OptBackIff(b, size, pos, r, additional);
      } else {
        RecordOnlyIf(b, size, pos, r, additional);
      }
    } else if GoodName(r.question.name) {
      if r.data.Opt? {
        OptBackIff(b, size, pos, r, additional);
      } else if GoodData(r.data) {
        RecordBack(b, size, pos, r, additional);
      }
    }
  }

  lemma {:induction false} OptNameGood(b: seq<byte>, size: nat, pos: nat, r: Record, additional: bool)
    requires 0 !in r.question.name && r.data.Opt? && r.question.qtype == QT_OPT && In(b, size, pos, EncodeRecord(r))
    requires ReadRecord(b, size, pos, additional).Ok? && ReadRecord(b, size, pos, additional).value == r
    ensures GoodName(r.question.name)
  {
    hide Split16, Split32, ReadU16, ReadU32, EncodeQuestion, ReadQuestion, ReadData, In, GoodName;
    InSize(b, size, pos, EncodeRecord(r));
    InAppend(b, size, pos, EncodeQuestion(r.question) + Split32(r.ttl) + Split16(r.len), EncodeData(r.data));
    InAppend(b, size, pos, EncodeQuestion(r.question) + Split32(r.ttl), Split16(r.len));
    InAppend(b, size, pos, EncodeQuestion(r.question), Split32(r.ttl));
    QuestionOnlyIf(b, size, pos, r.question);
  }

  lemma {:induction false} OptBackIff(b: seq<byte>, size: nat, pos: nat, r: Record, additional: bool)
    requires GoodName(r.question.name) && r.data.Opt? && r.question.qtype == QT_OPT && In(b, size, pos, EncodeRecord(r))
    ensures ReadRecord(b, size, pos, additional) == Ok(r, pos + |EncodeRecord(r)|)
            <==> additional && r.len == 0 && r.data.octets == []
  {
    hide Split16, Split32, ReadU16, ReadU32, EncodeQuestion, ReadQuestion, ReadData, In, GoodName;
    var s := EncodeQuestion(r.question);
    assert EncodeRecord(r) == s + Split32(r.ttl) + Split16(r.len);
    InSize(b, size, pos, EncodeRecord(r));
    InAppend(b, size, pos, s + Split32(r.ttl), Split16(r.len));
    InAppend(b, size, pos, s, Split32(r.ttl));
    QuestionBack(b, size, pos, r.question);
    U32Back(b, size, pos + |s|, r.ttl);
    U16Back(b, size, pos + |s| + 4, r.len);
    OptData(b, size, pos + |s| + 6, r.len, additional);
  }

  lemma {:induction false} OptData(b: seq<byte>, size: nat, pos: nat, len: u16, additional: bool)
    requires size <= |b|
    ensures var o := ReadData(b, size, pos, QT_OPT, len, additional);
            && (o.Ok? ==> additional && o.pos == pos + len)
            && (additional && len == 0 ==> o == Ok(Opt([]), pos))
  {
  }

  /** An OPT record with one octet does not come back. */
  lemma {:induction false} OptOctetIsLost() returns (r: Record, b: seq<byte>)
    ensures r.data == Opt([7]) && r.len == 1 && GoodName(r.question.name)
    ensures In(b, |b|, 0, EncodeRecord(r)) && ReadRecord(b, |b|, 0, true) != Ok(r, |b|)
  {
    hide EncodeRecord, ReadRecord;
    r := Record(Question([97], QT_OPT, 0), 0, 1, Opt([7]));
    b := EncodeRecord(r);
    assert FirstDot([97]) == 1;
    RecordBackIff(b, |b|, 0, r, true);
  }

  /** A 32-bit read of a two-octet message takes two octets from behind it, or from behind the
      buffer when the message fills it. */
  lemma {:induction false} U32ReadsBehind()
    ensures var b: seq<byte> := [1, 2, 3, 4]; ReadU32(b, 2, 0) == Ok(0x0102_0304, 4)
    ensures var b: seq<byte> := [1, 2]; ReadU32(b, 2, 0) == Undefined
  {
  }

  /** For packets without OPT, writing then reading gives the packet back, with the cursor at
      the written length, exactly when every name is nonempty with labels of 1 to 63 octets. */
  lemma {:induction false} PacketBackIff(b: seq<byte>, size: nat, p: Packet)
    requires Consistent(p) && In(b, size, 0, EncodePacket(p))
    requires forall q :: q in p.questions ==> SaneQuestion(q)
    requires forall r :: r in p.answers + p.authorities + p.additionals ==> SaneRecord(r)
    ensures ReadPacket(b, size, 0) == Ok(p, |EncodePacket(p)|) <==> GoodPacket(p)
  {
    hide EncodePacket, ReadPacket, In, GoodRecord, GoodName, SaneQuestion, SaneRecord;
    InSize(b, size, 0, EncodePacket(p));
    if GoodPacket(p) {
      PacketBack(b, size, p);
    }
    if ReadPacket(b, size, 0) == Ok(p, |EncodePacket(p)|) {
      PacketOnlyIf(b, size, p);
    }
  }

  lemma {:induction false} PacketOnlyIf(b: seq<byte>, size: nat, p: Packet)
    requires Consistent(p) && In(b, size, 0, EncodePacket(p))
    requires forall q :: q in p.questions ==> SaneQuestion(q)
    requires forall r :: r in p.answers + p.authorities + p.additionals ==> SaneRecord(r)
    requires ReadPacket(b, size, 0) == Ok(p, |EncodePacket(p)|)
    ensures GoodPacket(p)
  {
    hide EncodeHeader, EncodeQuestions, EncodeRecords, ReadHeader, ReadQuestions, ReadRecords, In;
    hide GoodRecord, GoodName, SaneQuestion, SaneRecord;
    var h, qs := EncodeHeader(p.header), EncodeQuestions(p.questions);
    var an, ns, ar := EncodeRecords(p.answers), EncodeRecords(p.authorities), EncodeRecords(p.additionals);
    InSize(b, size, 0, EncodePacket(p));
    InAppend(b, size, 0, h + qs + an + ns, ar);
    InAppend(b, size, 0, h + qs + an, ns);
    InAppend(b, size, 0, h + qs, an);
    InAppend(b, size, 0, h, qs);
    HeaderBack(b, size, 0, p.header);
    QuestionsOnlyIf(b, size, |h|, p.questions);
    var o := ReadQuestions(b, size, |h|, |p.questions|);
    if !(forall q :: q in p.questions ==> GoodName(q.name)) {
      ShortSections(b, size, o.pos, |h| + |qs|, p.answers, p.authorities, p.additionals);
    }
    QuestionsBack(b, size, |h|, p.questions);
    SectionsOnlyIf(b, size, |h| + |qs|, p.answers, p.authorities, p.additionals);
  }

  /** From a short cursor the sections are never read up to their end. */
  lemma {:induction false} ShortSections(b: seq<byte>, size: nat, p: nat, end: nat, x: seq<Record>, y: seq<Record>, z: seq<Record>)
    requires Short(b, size, p, end) && forall r :: r in x + y + z ==> SaneRecord(r)
    requires In(b, size, end, EncodeRecords(x))
    requires In(b, size, end + |EncodeRecords(x)|, EncodeRecords(y))
    requires In(b, size, end + |EncodeRecords(x)| + |EncodeRecords(y)|, EncodeRecords(z))
    ensures var o := ReadRecords(b, size, p, |x|, false);
            o.Ok? && o.value == x ==>
              var o' := ReadRecords(b, size, o.pos, |y|, false);
              o'.Ok? && o'.value == y ==>
                var o'' := ReadRecords(b, size, o'.pos, |z|, true);
                o''.Ok? && o''.value == z ==> o''.pos < end + |EncodeRecords(x)| + |EncodeRecords(y)| + |EncodeRecords(z)|
  {
    hide EncodeRecords, ReadRecords, In, SaneRecord;
    assert forall r :: r in x + y + z <==> r in x || r in y || r in z;
    NoRecords(b, size, p, false);
    NoRecords(b, size, p, true);
    var o := ReadRecords(b, size, p, |x|, false);
    if o.Ok? && o.value == x {
      ShortSection(b, size, p, end, x, false);
      var o' := ReadRecords(b, size, p, |y|, false);
      if o'.Ok? && o'.value == y {
        ShortSection(b, size, p, end, y, false);
        var o'' := ReadRecords(b, size, p, |z|, true);
        if o''.Ok? && o''.value == z {
          ShortSection(b, size, p, end, z, true);
        }
      }
    }
  }

  /** The three sections one behind the other, read up to their common end. */
  lemma {:induction false} SectionsOnlyIf(b: seq<byte>, size: nat, pos: nat, x: seq<Record>, y: seq<Record>, z: seq<Record>)
    requires forall r :: r in x + y + z ==> SaneRecord(r)
    requires In(b, size, pos, EncodeRecords(x))
    requires In(b, size, pos + |EncodeRecords(x)|, EncodeRecords(y))
    requires In(b, size, pos + |EncodeRecords(x)| + |EncodeRecords(y)|, EncodeRecords(z))
    requires var o := ReadRecords(b, size, pos, |x|, false);
             && o.Ok? && o.value == x
             && var o' := ReadRecords(b, size, o.pos, |y|, false);
                && o'.Ok? && o'.value == y
                && ReadRecords(b, size, o'.pos, |z|, true)
                   == Ok(z, pos + |EncodeRecords(x)| + |EncodeRecords(y)| + |EncodeRecords(z)|)
    ensures forall r :: r in x + y + z ==> GoodRecord(r)
  {
    hide EncodeRecords, ReadRecords, In, GoodRecord, SaneRecord;
    assert forall r :: r in x + y + z <==> r in x || r in y || r in z;
    InSize(b, size, pos, EncodeRecords(x));
    var p1 := pos + |EncodeRecords(x)|;
    var p2 := p1 + |EncodeRecords(y)|;
    RecordsOnlyIf(b, size, pos, x, false);
    var o := ReadRecords(b, size, pos, |x|, false);
    if !(forall r :: r in x ==> GoodRecord(r)) {
      ShortSection(b, size, o.pos, p1, y, false);
      NoRecords(b, size, o.pos, false);
      ShortSection(b, size, o.pos, p1, z, true);
      NoRecords(b, size, o.pos, true);
    } else {
      RecordsBack(b, size, pos, x, false);
      RecordsOnlyIf(b, size, p1, y, false);
      var o' := ReadRecords(b, size, p1, |y|, false);
      if !(forall r :: r in y ==> GoodRecord(r)) {
        ShortSection(b, size, o'.pos, p2, z, true);
        NoRecords(b, size, o'.pos, true);
      } else {
        RecordsBack(b, size, p1, y, false);
        RecordsOnlyIf(b, size, p2, z, true);
      }
    }
  }

  lemma {:induction false} NoRecords(b: seq<byte>, size: nat, pos: nat, additional: bool)
    requires size <= |b|
    ensures EncodeRecords([]) == [] && ReadRecords(b, size, pos, 0, additional) == Ok([], pos)
  {
  }

  /** VREAD_U32 stays within the buffer and takes its value from the message alone exactly when
      the message does not end behind the second or third of its octets. */
  lemma {:induction false} U32DependsOnMessageOnlyIff(b: seq<byte>, size: nat, pos: nat)
    requires size <= |b|
    ensures (ReadU32(b, size, pos) != Undefined
             && forall b' :: SameMessage(b, b', size) ==> ReadU32(b', size, pos) == ReadU32(b, size, pos))
            <==> !(pos + 2 <= size < pos + 4)
  {
    hide Join32;
    if pos + 2 <= size < pos + 4 <= |b| {
      var b' := b[pos + 3 := if b[pos + 3] == 0 then 1 else 0];
      assert SameMessage(b, b', size);
      LastOctetCounts(b[pos], b[pos + 1], b[pos + 2], b[pos + 3], b'[pos + 3]);
      assert ReadU32(b', size, pos) != ReadU32(b, size, pos);
    }
  }

  ghost predicate SameMessage(b: seq<byte>, b': seq<byte>, size: nat) {
    |b| == |b'| && size <= |b| && forall k :: 0 <= k < size ==> b[k] == b'[k]
  }
}

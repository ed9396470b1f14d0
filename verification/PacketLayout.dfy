/** Packets in octets: where fields lie and which numbers stand for types and errors. With the
    round trips this fixes reader and writer alike. */
module PacketLayout {
  import opened Bytes
  import opened Names
  import opened Packets
  import opened PacketRoundTrip

  /** Section 4.1.1 of RFC 1035: six fields of two octets, the high octet first. */
  lemma {:induction false} HeaderOctets(h: Header)
    ensures EncodeHeader(h)
         == [h.id / 256, h.id % 256, h.hb3, h.hb4,
             h.questionCount / 256, h.questionCount % 256, h.answerCount / 256, h.answerCount % 256,
             h.authorityCount / 256, h.authorityCount % 256, h.additionalCount / 256, h.additionalCount % 256]
  {
  }

  /** Section 4.1.2, for a name of one letter. */
  lemma {:induction false} QuestionOctets(c: byte, t: u16, cl: u16)
    requires c != 0 && c != 46
    ensures EncodeQuestion(Question([c], t, cl)) == [1, c, 0, t / 256, t % 256, cl / 256, cl % 256]
  {
    hide WireName;
    LetterName(c);
  }

  lemma {:induction false} LetterName(c: byte)
    requires c != 0 && c != 46
    ensures EncodeHost([c]) == [1, c, 0] && GoodName([c])
  {
    assert [c][1..] == [];
    assert CString([c]) == [c];
    assert FirstDot([c]) == 1;
  }

  /** The number of four octets, high octet first. */
  function Number(a: byte, b: byte, c: byte, d: byte): u32 {
    a * 0x100_0000 + b * 0x1_0000 + c * 0x100 + d
  }

  lemma {:induction false} NumberOctets(a: byte, b: byte, c: byte, d: byte)
    ensures Split32(Number(a, b, c, d)) == [a, b, c, d]
  {
    var v := Number(a, b, c, d);
    assert v / 0x1_0000 == a * 256 + b && v % 0x1_0000 == c * 256 + d;
  }

  /** Section 4.1.3: the fixed fields, and behind them the data. */
  lemma {:induction false} RecordOctets(letter: byte, t: u16, cl: u16, a: byte, b: byte, c: byte, d: byte, len: u16, data: Data)
    requires letter != 0 && letter != 46
    ensures EncodeRecord(Record(Question([letter], t, cl), Number(a, b, c, d), len, data))
         == [1, letter, 0, t / 256, t % 256, cl / 256, cl % 256, a, b, c, d, len / 256, len % 256] + EncodeData(data)
  {
    hide EncodeQuestion, Split32, Number;
    QuestionOctets(letter, t, cl);
    NumberOctets(a, b, c, d);
  }

  /** The data of each type. */
  lemma {:induction false} DataOctets(c: byte, p: u16)
    requires c != 0 && c != 46
    ensures EncodeData(NS([c])) == EncodeData(CName([c])) == [1, c, 0]
    ensures EncodeData(MX(p, [c])) == [p / 256, p % 256, 1, c, 0]
    ensures EncodeData(Opt([c])) == []
  {
    hide EncodeHost;
    LetterName(c);
  }

  lemma {:induction false} AddressOctets(n: seq<byte>)
    requires |n| == 16
    ensures EncodeData(A(Number(n[0], n[1], n[2], n[3]))) == n[0..4]
    ensures EncodeData(AAAA(Number(n[0], n[1], n[2], n[3]), Number(n[4], n[5], n[6], n[7]),
                            Number(n[8], n[9], n[10], n[11]), Number(n[12], n[13], n[14], n[15]))) == n
  {
    hide Split32, Number;
    FourOctets(n, 0);
    FourOctets(n, 4);
    FourOctets(n, 8);
    FourOctets(n, 12);
    assert n == n[0..4] + n[4..8] + n[8..12] + n[12..16];
  }

  lemma {:induction false} FourOctets(n: seq<byte>, k: nat)
    requires k + 4 <= |n|
    ensures Split32(Number(n[k], n[k + 1], n[k + 2], n[k + 3])) == n[k..k + 4]
  {
    hide Split32, Number;
    NumberOctets(n[k], n[k + 1], n[k + 2], n[k + 3]);
  }

  /** The type numbers of section 3.2.2, of RFC 3596 for AAAA and of RFC 6891 for OPT: what is read
      as data of a kind had the number of that kind, and other numbers are a server failure. */
  lemma {:induction false} TypeNumbers(b: seq<byte>, size: nat, pos: nat, t: u16, len: u16, additional: bool)
    requires size <= |b|
    ensures var o := ReadData(b, size, pos, t, len, additional);
            && (o.Ok? ==>
                  && (o.value.A? <==> t == 1) && (o.value.NS? <==> t == 2) && (o.value.CName? <==> t == 5)
                  && (o.value.MX? <==> t == 15) && (o.value.AAAA? <==> t == 28) && (o.value.Opt? <==> t == 41)
                  && TypeOf(o.value) == t)
            && (t != 1 && t != 2 && t != 5 && t != 15 && t != 28 && t != 41 ==> o == Err(2))
            && (t == 41 && !additional ==> o == Err(1))
            && (t == 41 && additional && len > 0 && pos + len > size ==> o == Err(1))
  {
    hide ReadHost, ReadU16, ReadU32;
  }

  /** Reads that find too few octets report a format error. */
  lemma {:induction false} ShortReads(b: seq<byte>, size: nat, pos: nat)
    requires size <= |b|
    ensures pos >= size ==> ReadU8(b, size, pos) == Err(1)
    ensures pos + 2 > size ==> ReadU16(b, size, pos) == Err(1) && ReadU32(b, size, pos) == Err(1)
    ensures pos + 12 > size ==> ReadHeader(b, size, pos) == Err(1)
  {
  }

  /** The sections in order: a question, an answer of type A, an authority of type NS and an
      additional record of type MX, read from octets. */
  lemma {:induction false} KnownMessage()
    ensures var b: seq<byte> :=
              [0x12, 0x34, 0x81, 0x80, 0, 1, 0, 1, 0, 1, 0, 1]
              + [1, 97, 0, 0, 1, 0, 1]
              + [1, 98, 0, 0, 1, 0, 1, 0, 0, 14, 16, 0, 4, 192, 0, 2, 1]
              + [1, 99, 0, 0, 2, 0, 1, 0, 1, 0, 0, 0, 3, 1, 100, 0]
              + [1, 101, 0, 0, 15, 0, 1, 1, 0, 0, 0, 0, 5, 0, 10, 1, 102, 0];
            ReadPacket(b, |b|, 0)
            == Ok(Packet(Header(0x1234, 0x81, 0x80, 1, 1, 1, 1),
                         [Question([97], 1, 1)],
                         [Record(Question([98], 1, 1), 3600, 4, A(0xC000_0201))],
                         [Record(Question([99], 2, 1), 0x1_0000, 3, NS([100]))],
                         [Record(Question([101], 15, 1), 0x100_0000, 5, MX(10, [102]))]), |b|)
  {
    hide EncodeHeader, EncodeQuestion, EncodeRecord, ReadPacket, GoodName, In;
    var h := Header(0x1234, 0x81, 0x80, 1, 1, 1, 1);
    var q := Question([97], 1, 1);
    var an, ns := Record(Question([98], 1, 1), 3600, 4, A(0xC000_0201)), Record(Question([99], 2, 1), 0x1_0000, 3, NS([100]));
    var ar := Record(Question([101], 15, 1), 0x100_0000, 5, MX(10, [102]));
    var p := Packet(h, [q], [an], [ns], [ar]);
    var b := EncodePacket(p);
    KnownParts();
    KnownAnswer();
    KnownAuthority();
    KnownAdditional();
    OneOfEach(q, an, ns, ar);
    Letters();
    WholeBuffer(b);
    PacketBack(b, |b|, p);
  }

  lemma {:induction false} KnownParts()
    ensures EncodeHeader(Header(0x1234, 0x81, 0x80, 1, 1, 1, 1)) == [0x12, 0x34, 0x81, 0x80, 0, 1, 0, 1, 0, 1, 0, 1]
    ensures EncodeQuestion(Question([97], 1, 1)) == [1, 97, 0, 0, 1, 0, 1]
  {
    hide EncodeHeader, EncodeQuestion;
    HeaderOctets(Header(0x1234, 0x81, 0x80, 1, 1, 1, 1));
    QuestionOctets(97, 1, 1);
  }

  lemma {:induction false} KnownAnswer()
    ensures EncodeRecord(Record(Question([98], 1, 1), 3600, 4, A(0xC000_0201)))
         == [1, 98, 0, 0, 1, 0, 1, 0, 0, 14, 16, 0, 4, 192, 0, 2, 1]
  {
    hide EncodeRecord, Split32;
    RecordOctets(98, 1, 1, 0, 0, 14, 16, 4, A(0xC000_0201));
    NumberOctets(192, 0, 2, 1);
  }

  lemma {:induction false} KnownAuthority()
    ensures EncodeRecord(Record(Question([99], 2, 1), 0x1_0000, 3, NS([100])))
         == [1, 99, 0, 0, 2, 0, 1, 0, 1, 0, 0, 0, 3, 1, 100, 0]
  {
    hide EncodeRecord, EncodeHost;
    RecordOctets(99, 2, 1, 0, 1, 0, 0, 3, NS([100]));
    LetterName(100);
  }

  lemma {:induction false} KnownAdditional()
    ensures EncodeRecord(Record(Question([101], 15, 1), 0x100_0000, 5, MX(10, [102])))
         == [1, 101, 0, 0, 15, 0, 1, 1, 0, 0, 0, 0, 5, 0, 10, 1, 102, 0]
  {
    hide EncodeRecord, EncodeHost;
    RecordOctets(101, 15, 1, 1, 0, 0, 0, 5, MX(10, [102]));
    LetterName(102);
  }

  lemma {:induction false} WholeBuffer(b: seq<byte>)
    ensures In(b, |b|, 0, b)
  {
  }

  lemma {:induction false} Letters()
    ensures GoodName([97]) && GoodName([98]) && GoodName([99]) && GoodName([100]) && GoodName([101]) && GoodName([102])
  {
    hide GoodName, EncodeHost;
    LetterName(97);
    LetterName(98);
    LetterName(99);
    LetterName(100);
    LetterName(101);
    LetterName(102);
  }

  lemma {:induction false} OneOfEach(q: Question, an: Record, ns: Record, ar: Record)
    ensures EncodeQuestions([q]) == EncodeQuestion(q) && EncodeRecords([an]) == EncodeRecord(an)
    ensures EncodeRecords([ns]) == EncodeRecord(ns) && EncodeRecords([ar]) == EncodeRecord(ar)
  {
    hide EncodeQuestion, EncodeRecord;
    assert [q][1..] == [] && [an][1..] == [] && [ns][1..] == [] && [ar][1..] == [];
  }
}

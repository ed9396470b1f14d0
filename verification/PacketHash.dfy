/** The digest that identifies a packet's questions (DnsPacket::Hash, DnsQuestion::UpdateDigest). */
module PacketHash {
  import opened Bytes
  import opened Names
  import opened Packets
  import Sha256
  import Sha256Spec

  /** The two octets of a `uint16_t` in memory. */
  function Memory16(v: u16): (s: seq<byte>)
    ensures |s| == 2
  {
    var b := Split16(v);
    [b[1], b[0]]
  }

  function QuestionInput(q: Question): seq<byte> {
    CString(q.name) + (Memory16(q.qtype) + Memory16(q.qclass))
  }

  function HashInput(qs: seq<Question>): seq<byte> {
    if qs == [] then [] else HashInput(qs[..|qs| - 1]) + QuestionInput(qs[|qs| - 1])
  }

  function PacketDigest(p: Packet): (d: seq<bv8>)
    ensures |d| == 32
  {
    Sha256Spec.Digest(HashInput(p.questions))
  }

  /** Names a C array can hold. */
  predicate NamesFit(p: Packet) {
    forall q :: q in p.questions ==> |q.name| < 0x1_0000_0000
  }

  /** `DnsPacket::Hash`. */
  method Hash(p: Packet) returns (digest: seq<bv8>)
    requires p.header.questionCount == |p.questions| && NamesFit(p)
    ensures digest == PacketDigest(p)
  {
    hide Sha256Spec.Digest, Sha256.Context.Valid, Memory16;
    var ctx := new Sha256.Context();
    var i := 0;
    assert p.questions[..0] == [];
    while i < p.header.questionCount
      invariant 0 <= i <= |p.questions|
      invariant ctx.Valid() && fresh(ctx) && fresh(ctx.data)
      invariant ctx.message == HashInput(p.questions[..i])
    {
      var q := p.questions[i];
      assert p.questions[..i + 1][..i] == p.questions[..i];
      UpdateDigest(ctx, q);
      i := i + 1;
    }
    assert p.questions[..i] == p.questions;
    var hash := ctx.Final();
    digest := hash[..];
  }

  /** That is the SHA-256 digest of all questions' octets, and of nothing else in the packet. */
  lemma {:induction false} DigestOfQuestions(p: Packet, q: Packet)
    ensures PacketDigest(p) == Sha256Spec.Digest(HashInput(p.questions))
    ensures HashInput(p.questions) == HashInput(q.questions) ==> PacketDigest(p) == PacketDigest(q)
  {
    hide Sha256Spec.Digest, HashInput;
  }

  /** `DnsQuestion::UpdateDigest`. */
  method UpdateDigest(ctx: Sha256.Context, q: Question)
    requires ctx.Valid() && |q.name| < 0x1_0000_0000
    modifies ctx, ctx.data
    ensures ctx.Valid() && ctx.message == old(ctx.message) + QuestionInput(q)
  {
    hide Sha256.Context.Valid;
    ctx.Update(CString(q.name));
    ctx.Update(Memory16(q.qtype));
    ctx.Update(Memory16(q.qclass));
  }

  /** The digest does not depend on how names are compressed: two questions with the same type
      and class whose names expand to the same labels contribute the same octets. */
  lemma {:induction false} CompressionIrrelevant(b: seq<byte>, size: nat, pos: nat, b': seq<byte>, size': nat, pos': nat,
                                                 labels: seq<seq<byte>>, k: nat, k': nat)
    requires size <= |b| && size' <= |b'| && labels != []
    requires Denotes(b[..size], pos, labels, k) && Denotes(b'[..size'], pos', labels, k')
    requires ReadQuestion(b, size, pos).Ok? && ReadQuestion(b', size', pos').Ok?
    requires var q, q' := ReadQuestion(b, size, pos).value, ReadQuestion(b', size', pos').value;
             q.qtype == q'.qtype && q.qclass == q'.qclass
    ensures QuestionInput(ReadQuestion(b, size, pos).value) == QuestionInput(ReadQuestion(b', size', pos').value)
  {
    hide Denotes, ReadName, CString;
    ReadNameOfExpansion(b[..size], pos, labels, k);
    ReadNameOfExpansion(b'[..size'], pos', labels, k');
  }

  // ---------------------------------------------------------------- what the input determines

  /** Same C string, type and class. */
  predicate SameQuestion(q: Question, q': Question) {
    CString(q.name) == CString(q'.name) && q.qtype == q'.qtype && q.qclass == q'.qclass
  }

  predicate SameQuestions(qs: seq<Question>, qs': seq<Question>) {
    |qs| == |qs'| && forall k :: 0 <= k < |qs| ==> SameQuestion(qs[k], qs'[k])
  }

  predicate SmallClasses(qs: seq<Question>) {
    forall k :: 0 <= k < |qs| ==> qs[k].qclass < 0x100
  }

  /** Cutting the last question off the same octets: both cuts fall on the same place when what
      precedes each question is empty or ends with a zero octet, since C strings have none. */
  lemma {:induction false} SameCut(a: seq<byte>, name: seq<byte>, x: seq<byte>, a': seq<byte>, name': seq<byte>, x': seq<byte>)
    requires a + (name + x) == a' + (name' + x') && |x| == |x'| && 0 !in name && 0 !in name'
    requires (a == [] || a[|a| - 1] == 0) && (a' == [] || a'[|a'| - 1] == 0)
    ensures a == a' && name == name' && x == x'
  {
    var s := a + (name + x);
    assert |a| + |name| == |a'| + |name'|;
    if |a| > |a'| {
      ZeroInName(a, name, x, a', name', x');
    }
    if |a'| > |a| {
      ZeroInName(a', name', x', a, name, x);
    }
    assert a == s[..|a|] && a' == s[..|a|];
    assert name == s[|a|..][..|name|] && name' == s[|a|..][..|name|];
    assert x == s[|a|..][|name|..] && x' == s[|a|..][|name|..];
  }

  lemma {:induction false} ZeroInName(a: seq<byte>, name: seq<byte>, x: seq<byte>, a': seq<byte>, name': seq<byte>, x': seq<byte>)
    requires a + (name + x) == a' + (name' + x') && |x| == |x'| && |a| > |a'| && a[|a| - 1] == 0
    ensures 0 in name'
  {
    assert (a + (name + x))[|a| - 1] == 0;
    assert name'[|a| - 1 - |a'|] == 0;
  }

  lemma {:induction false} Memory16Injective(t: u16, c: u16, t': u16, c': u16)
    requires Memory16(t) + Memory16(c) == Memory16(t') + Memory16(c')
    ensures t == t' && c == c'
  {
    var s, s' := Memory16(t) + Memory16(c), Memory16(t') + Memory16(c');
    assert s[0] == s'[0] && s[1] == s'[1] && s[2] == s'[2] && s[3] == s'[3];
  }

  /** The octets of questions of small class end with the high octet of the last class. */
  lemma {:induction false} EndsWithZero(qs: seq<Question>)
    requires SmallClasses(qs)
    ensures var s := HashInput(qs); if qs == [] then s == [] else |s| >= 4 && s[|s| - 1] == 0
  {
    hide CString;
    if qs != [] {
      var q := qs[|qs| - 1];
      assert Memory16(q.qclass)[1] == 0;
    }
  }

  lemma {:induction false} LastDetermined(qs: seq<Question>, q: Question, qs': seq<Question>, q': Question)
    requires SmallClasses(qs) && SmallClasses(qs')
    requires HashInput(qs) + QuestionInput(q) == HashInput(qs') + QuestionInput(q')
    ensures HashInput(qs) == HashInput(qs') && SameQuestion(q, q')
  {
    hide CString, Memory16, HashInput, SmallClasses;
    EndsWithZero(qs);
    EndsWithZero(qs');
    SameCut(HashInput(qs), CString(q.name), Memory16(q.qtype) + Memory16(q.qclass),
            HashInput(qs'), CString(q'.name), Memory16(q'.qtype) + Memory16(q'.qclass));
    Memory16Injective(q.qtype, q.qclass, q'.qtype, q'.qclass);
  }

  /** All classes but the last are below 256. */
  predicate FrontSmall(qs: seq<Question>) {
    forall k :: 0 <= k < |qs| - 1 ==> qs[k].qclass < 0x100
  }

  lemma {:induction false} InputDetermines(qs: seq<Question>, qs': seq<Question>)
    requires FrontSmall(qs) && FrontSmall(qs') && HashInput(qs) == HashInput(qs')
    ensures SameQuestions(qs, qs')
  {
    hide QuestionInput, SameQuestion;
    InputLength(qs);
    InputLength(qs');
    if qs != [] {
      var n, n' := |qs| - 1, |qs'| - 1;
      LastDetermined(qs[..n], qs[n], qs'[..n'], qs'[n']);
      InputDetermines(qs[..n], qs'[..n']);
      assert forall k :: 0 <= k < n ==> qs[k] == qs[..n][k] && qs'[k] == qs'[..n'][k];
    }
  }

  lemma {:induction false} InputLength(qs: seq<Question>)
    ensures if qs == [] then HashInput(qs) == [] else |HashInput(qs)| >= 4
  {
    hide CString, Memory16;
  }

  lemma {:induction false} SameInput(qs: seq<Question>, qs': seq<Question>)
    requires SameQuestions(qs, qs')
    ensures HashInput(qs) == HashInput(qs')
  {
    hide CString, Memory16;
    if qs != [] {
      var n := |qs| - 1;
      assert SameQuestion(qs[n], qs'[n]);
      SameInput(qs[..n], qs'[..n]);
    }
  }

  /** Requests are coalesced and answered by digest: for questions whose classes but the last are
      below 256, the hashed octets are the same exactly when the questions are, in number and
      order. */
  lemma {:induction false} SameInputIff(qs: seq<Question>, qs': seq<Question>)
    requires FrontSmall(qs) && FrontSmall(qs')
    ensures HashInput(qs) == HashInput(qs') <==> SameQuestions(qs, qs')
  {
    hide HashInput, SameQuestions, FrontSmall;
    if SameQuestions(qs, qs') {
      SameInput(qs, qs');
    }
    if HashInput(qs) == HashInput(qs') {
      InputDetermines(qs, qs');
    }
  }

  /** A single question therefore needs no condition. */
  lemma {:induction false} OneQuestionIff(q: Question, q': Question)
    ensures HashInput([q]) == HashInput([q']) <==> SameQuestion(q, q')
  {
    hide HashInput, SameQuestion;
    SameInputIff([q], [q']);
    assert SameQuestions([q], [q']) <==> SameQuestion([q][0], [q'][0]);
  }

  // ---------------------------------------------------------------- and what it does not

  /** The classes of all questions but the last are among `classes`. */
  ghost predicate FrontIn(qs: seq<Question>, classes: set<u16>) {
    forall k :: 0 <= k < |qs| - 1 ==> qs[k].qclass in classes
  }

  ghost predicate Collide(qs: seq<Question>, qs': seq<Question>) {
    HashInput(qs) == HashInput(qs') && !SameQuestions(qs, qs')
  }

  /** The hashed octets determine the questions exactly when the classes that may stand before
      the last question, that of the Internet among them, are all below 256. */
  lemma {:induction false} InputDeterminesIff(classes: set<u16>)
    requires 1 in classes
    ensures (forall qs, qs' :: FrontIn(qs, classes) && FrontIn(qs', classes) ==> !Collide(qs, qs'))
            <==> forall c :: c in classes ==> c < 0x100
  {
    hide HashInput, SameQuestions;
    if forall c :: c in classes ==> c < 0x100 {
      forall qs, qs' | FrontIn(qs, classes) && FrontIn(qs', classes)
        ensures !Collide(qs, qs')
      {
        SameInputIff(qs, qs');
      }
    } else {
      var c :| c in classes && c >= 0x100;
      var qs, qs' := ClassCollides(c, 1, 1);
      assert FrontIn(qs, classes) && FrontIn(qs', classes) && Collide(qs, qs');
    }
  }

  /** Every class of 256 and more makes fields run into each other: if its low octet is not zero,
      both octets can belong to a name; if it is, the type before it can end with the class of
      another question. */
  lemma {:induction false} ClassCollides(c: u16, t: u16, last: u16) returns (qs: seq<Question>, qs': seq<Question>)
    requires c >= 0x100
    ensures FrontIn(qs, {c, 1}) && FrontIn(qs', {c, 1}) && Collide(qs, qs')
  {
    hide HashInput, SameQuestions;
    var lo, hi := c % 0x100, c / 0x100;
    if lo != 0 {
      qs, qs' := [Question([1, 1, lo, hi], t, last)], [Question([], 0x0101, c), Question([], t, last)];
      NameHidesQuestion(1, 1, lo, hi, t, last);
    } else {
      qs, qs' := [Question([1], 0x0101, c), Question([], t, last)], [Question([], 0x0101, 1), Question([hi], t, last)];
      TypeHidesClass(hi, t, last);
    }
  }

  lemma {:induction false} NameHidesQuestion(x0: byte, x1: byte, lo: byte, hi: byte, t: u16, last: u16)
    requires x0 != 0 && x1 != 0 && lo != 0 && hi != 0
    ensures Collide([Question([x0, x1, lo, hi], t, last)],
                    [Question([], Join16(x1, x0), Join16(hi, lo)), Question([], t, last)])
  {
    hide HashInput, CString, Memory16;
    var name := [x0, x1, lo, hi];
    var q, q1, q2 := Question(name, t, last), Question([], Join16(x1, x0), Join16(hi, lo)), Question([], t, last);
    CStringAppend(name, []);
    assert CString([]) == [] && name + [] == name;
    Memory16Octets(x0, x1);
    Memory16Octets(lo, hi);
    HashOne(q);
    HashTwo(q1, q2);
    assert QuestionInput(q1) == name;
    assert QuestionInput(q) == QuestionInput(q1) + QuestionInput(q2);
  }

  lemma {:induction false} TypeHidesClass(hi: byte, t: u16, last: u16)
    requires hi != 0
    ensures Collide([Question([1], 0x0101, hi * 0x100), Question([], t, last)],
                    [Question([], 0x0101, 1), Question([hi], t, last)])
  {
    hide HashInput, CString, Memory16, SameQuestions;
    var q1, q2 := Question([1], 0x0101, hi * 0x100), Question([], t, last);
    var q1', q2' := Question([], 0x0101, 1), Question([hi], t, last);
    CStringAppend([1], []);
    CStringAppend([hi], []);
    assert CString([]) == [] && [1] + [] == [1] && [hi] + [] == [hi];
    Memory16Octets(1, 1);
    Memory16Octets(0, hi);
    Memory16Octets(1, 0);
    HashTwo(q1, q2);
    HashTwo(q1', q2');
    var rest := Memory16(t) + Memory16(last);
    assert QuestionInput(q1) == [1, 1, 1, 0, hi] && QuestionInput(q2) == rest;
    assert QuestionInput(q1') == [1, 1, 1, 0] && QuestionInput(q2') == [hi] + rest;
    assert QuestionInput(q1) + QuestionInput(q2) == QuestionInput(q1') + QuestionInput(q2');
    assert !SameQuestion(q1, q1');
    FirstDiffers([q1, q2], [q1', q2']);
  }

  lemma {:induction false} FirstDiffers(qs: seq<Question>, qs': seq<Question>)
    requires qs != [] && qs' != [] && !SameQuestion(qs[0], qs'[0])
    ensures !SameQuestions(qs, qs')
  {
  }

  lemma {:induction false} Memory16Octets(lo: byte, hi: byte)
    ensures Memory16(Join16(hi, lo)) == [lo, hi]
  {
  }

  /** For instance one question for the name `wxyz` and two questions without a name. */
  lemma {:induction false} QuestionsCollide(t: u16, c: u16)
    ensures Collide([Question([0x77, 0x78, 0x79, 0x7A], t, c)], [Question([], 0x7877, 0x7A79), Question([], t, c)])
  {
    hide HashInput, SameQuestions;
    NameHidesQuestion(0x77, 0x78, 0x79, 0x7A, t, c);
  }

  lemma {:induction false} HashOne(q: Question)
    ensures HashInput([q]) == QuestionInput(q)
  {
    hide QuestionInput;
    assert [q][..0] == [];
  }

  lemma {:induction false} HashTwo(q: Question, q': Question)
    ensures HashInput([q, q']) == QuestionInput(q) + QuestionInput(q')
  {
    hide QuestionInput;
    HashOne(q);
    assert [q, q'][..1] == [q];
  }
}

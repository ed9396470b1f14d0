/** Domain names on the wire: `ReadLabel` and `WriteLabel` of src/dns/dnsquestion.cpp, against
    the expansion that section 4.1.4 of RFC 1035 describes. */
module Names {
  import opened Bytes

  const MAX_JUMPS: nat := 5
  const MAXDNAME: nat := 1025
  const FORMERR: nat := 1
  const SERVFAIL: nat := 2
  const NOTIMP: nat := 4
  const DOT: byte := 46

  /** The result of a read: a value and the cursor after it, an error code, or `Undefined`
      where the code touches memory it does not own. */
  datatype Outcome<+T> = Ok(value: T, pos: nat) | Err(code: nat) | Undefined {
    predicate IsFailure() {
      !Ok?
    }

    function PropagateFailure<U>(): Outcome<U>
      requires IsFailure()
    {
      if Err? then Err(code) else Undefined
    }

    function Extract(): (T, nat)
      requires !IsFailure()
    {
      (value, pos)
    }
  }

  // ---------------------------------------------------------------- reading

  /** Offset held by a two-octet pointer. */
  function Target(c: byte, d: byte): nat
    requires c >= 192
  {
    (c - 192) * 256 + d
  }

  /** The loop of `ReadLabel` on the message `b`, entered with the cursor on the next length
      octet. `resume` is the variable `pos`, `text` what has been stored; storing more than
      the name array holds is undefined. */
  function NameLoop(b: seq<byte>, pos: nat, jumps: nat, resume: nat, text: seq<byte>): (r: Outcome<seq<byte>>)
    requires jumps <= MAX_JUMPS
    decreases MAX_JUMPS - jumps, |b| - pos
  {
    if pos >= |b| then Err(FORMERR)
    else if jumps == MAX_JUMPS then Err(FORMERR)
    else
      var c := b[pos];
      if c == 0 then
        if text == [] then Undefined
        else Ok(text[..|text| - 1], if resume > 0 then resume else pos + 1)
      else if c >= 192 then
        if pos + 1 >= |b| || Target(c, b[pos + 1]) >= |b| then Err(FORMERR)
        else NameLoop(b, Target(c, b[pos + 1]), jumps + 1, pos + 2, text)
      else if c >= 64 then Err(NOTIMP)
      else if pos + 1 + c >= |b| then Err(FORMERR)
      else if |text| + c + 1 > MAXDNAME then Undefined
      else NameLoop(b, pos + 1 + c, jumps, resume, text + Stored(b[pos + 1..pos + 1 + c]))
  }

  lemma {:induction false} LoopUnfold(b: seq<byte>, pos: nat, jumps: nat, resume: nat, text: seq<byte>)
    requires jumps <= MAX_JUMPS
    ensures var r := NameLoop(b, pos, jumps, resume, text);
            if pos >= |b| || jumps == MAX_JUMPS then r == Err(FORMERR)
            else
              var c := b[pos];
              if c == 0 then
                r == if text == [] then Undefined else Ok(text[..|text| - 1], if resume > 0 then resume else pos + 1)
              else if c >= 192 then
                if pos + 1 >= |b| || Target(c, b[pos + 1]) >= |b| then r == Err(FORMERR)
                else r == NameLoop(b, Target(c, b[pos + 1]), jumps + 1, pos + 2, text)
              else if c >= 64 then r == Err(NOTIMP)
              else if pos + 1 + c >= |b| then r == Err(FORMERR)
              else if |text| + c + 1 > MAXDNAME then r == Undefined
              else r == NameLoop(b, pos + 1 + c, jumps, resume, text + Stored(b[pos + 1..pos + 1 + c]))
  {
  }

  /** A label as it is stored. */
  function Stored(part: seq<byte>): seq<byte> {
    part + [DOT]
  }

  /** `ReadLabel`. */
  function ReadName(b: seq<byte>, pos: nat): (r: Outcome<seq<byte>>) {
    if pos < |b| && b[pos] == 0 then Ok([], pos + 1) else NameLoop(b, pos, 0, 0, [])
  }

  /** Section 4.1.4: the octets at `pos` stand for `labels` and following them takes `k` pointers. */
  ghost predicate Expands(b: seq<byte>, pos: nat, labels: seq<seq<byte>>, k: nat)
    decreases k, |labels|
  {
    && pos < |b|
    && var c := b[pos];
       if c == 0 then labels == [] && k == 0
       else if c >= 192 then
         && pos + 1 < |b| && k > 0
         && Expands(b, Target(c, b[pos + 1]), labels, k - 1)
       else
         && c < 64 && pos + 1 + c < |b| && labels != []
         && labels[0] == b[pos + 1..pos + 1 + c]
         && Expands(b, pos + 1 + c, labels[1..], k)
  }

  /** An expansion that takes at most four pointers. */
  ghost predicate Denotes(b: seq<byte>, pos: nat, labels: seq<seq<byte>>, k: nat) {
    k <= 4 && Expands(b, pos, labels, k)
  }

  /** Where section 4.1.4 puts the octet after the name: behind the terminating zero, or
      behind the first pointer. */
  ghost function NameEnd(b: seq<byte>, pos: nat, labels: seq<seq<byte>>, k: nat): nat
    requires Expands(b, pos, labels, k)
    decreases |labels|
  {
    var c := b[pos];
    if c == 0 then pos + 1 else if c >= 192 then pos + 2 else NameEnd(b, pos + 1 + c, labels[1..], k)
  }

  /** Where the code resumes: behind the last pointer. */
  ghost function LastResume(b: seq<byte>, pos: nat, labels: seq<seq<byte>>, k: nat, resume: nat): nat
    requires Expands(b, pos, labels, k)
    decreases k, |labels|
  {
    var c := b[pos];
    if c == 0 then (if resume > 0 then resume else pos + 1)
    else if c >= 192 then LastResume(b, Target(c, b[pos + 1]), labels, k - 1, pos + 2)
    else LastResume(b, pos + 1 + c, labels[1..], k, resume)
  }

  /** Labels as stored by the code, each followed by a dot. */
  function Text(labels: seq<seq<byte>>): (t: seq<byte>)
    ensures labels != [] ==> t != [] && t[|t| - 1] == DOT
  {
    if labels == [] then [] else Stored(labels[0]) + Text(labels[1..])
  }

  /** The dotted name: the text without its last dot. */
  function Dotted(labels: seq<seq<byte>>): seq<byte>
    requires labels != []
  {
    Text(labels)[..|Text(labels)| - 1]
  }

  /** What the loop returns for a name whose labels are known. */
  ghost function Expected(text: seq<byte>, resume: nat): Outcome<seq<byte>> {
    if text == [] || |text| > MAXDNAME then Undefined else Ok(text[..|text| - 1], resume)
  }

  /** Every accepted name is an expansion with at most four pointers. */
  lemma {:induction false} LoopSound(b: seq<byte>, pos: nat, jumps: nat, resume: nat, text: seq<byte>)
    returns (labels: seq<seq<byte>>, k: nat)
    requires jumps <= MAX_JUMPS && NameLoop(b, pos, jumps, resume, text).Ok?
    ensures Expands(b, pos, labels, k) && jumps + k < MAX_JUMPS
    decreases MAX_JUMPS - jumps, |b| - pos
  {
    var c := b[pos];
    if c == 0 {
      labels, k := [], 0;
    } else if c >= 192 {
      labels, k := LoopSound(b, Target(c, b[pos + 1]), jumps + 1, pos + 2, text);
      k := k + 1;
    } else {
      var part := b[pos + 1..pos + 1 + c];
      var rest;
      rest, k := LoopSound(b, pos + 1 + c, jumps, resume, text + Stored(part));
      labels := [part] + rest;
      assert labels[1..] == rest;
    }
  }

  /** Every expansion with few enough pointers is accepted, with the expected text. */
  lemma {:induction false} LoopComplete(b: seq<byte>, pos: nat, jumps: nat, resume: nat, text: seq<byte>,
                                        labels: seq<seq<byte>>, k: nat)
    requires Expands(b, pos, labels, k) && jumps + k < MAX_JUMPS && |text| <= MAXDNAME
    ensures NameLoop(b, pos, jumps, resume, text)
         == Expected(text + Text(labels), LastResume(b, pos, labels, k, resume))
    decreases k, |labels|
  {
    hide NameLoop, Text, Stored;
    LoopUnfold(b, pos, jumps, resume, text);
    var c := b[pos];
    if c == 0 {
      NoText();
      assert text + Text(labels) == text;
    } else if c >= 192 {
      LoopComplete(b, Target(c, b[pos + 1]), jumps + 1, pos + 2, text, labels, k - 1);
    } else {
      var part := labels[0];
      TextFirst(labels);
      assert text + Text(labels) == text + Stored(part) + Text(labels[1..]);
      if |text| + c + 1 <= MAXDNAME {
        LoopComplete(b, pos + 1 + c, jumps, resume, text + Stored(part), labels[1..], k);
      }
    }
  }

  /** The octets determine the labels and the number of pointers. */
  lemma {:induction false} ExpansionUnique(b: seq<byte>, pos: nat, labels: seq<seq<byte>>, k: nat,
                                           labels': seq<seq<byte>>, k': nat)
    requires Expands(b, pos, labels, k) && Expands(b, pos, labels', k')
    ensures labels == labels' && k == k'
    decreases k, |labels|
  {
    var c := b[pos];
    if c >= 192 {
      ExpansionUnique(b, Target(c, b[pos + 1]), labels, k - 1, labels', k' - 1);
    } else if c > 0 {
      ExpansionUnique(b, pos + 1 + c, labels[1..], k, labels'[1..], k');
      assert labels == [labels[0]] + labels[1..] && labels' == [labels'[0]] + labels'[1..];
    }
  }

  /** `ReadLabel` yields a nonempty name exactly when section 4.1.4 does with at most four
      pointers and the name fits its array; pointer cycles never expand, so they are rejected. */
  lemma {:induction false} ReadNameIffExpands(b: seq<byte>, pos: nat, name: seq<byte>)
    requires name != []
    ensures (ReadName(b, pos).Ok? && ReadName(b, pos).value == name)
            <==> |name| < 1025
                 && exists labels, k: nat :: Denotes(b, pos, labels, k) && labels != [] && Dotted(labels) == name
  {
    hide NameLoop, Expands;
    if ReadName(b, pos).Ok? && ReadName(b, pos).value == name {
      var labels, k := ReadNameSound(b, pos);
      ReadNameOfExpansion(b, pos, labels, k);
    }
    if labels, k: nat :| Denotes(b, pos, labels, k) && labels != [] && Dotted(labels) == name {
      ReadNameOfExpansion(b, pos, labels, k);
    }
  }

  /** The exact outcome for a name that expands within four pointers. */
  lemma {:induction false} ReadNameOfExpansion(b: seq<byte>, pos: nat, labels: seq<seq<byte>>, k: nat)
    requires Denotes(b, pos, labels, k)
    ensures labels != [] ==>
              ReadName(b, pos)
              == if |Dotted(labels)| >= MAXDNAME then Undefined
                 else Ok(Dotted(labels), LastResume(b, pos, labels, k, 0))
    ensures labels == [] ==> ReadName(b, pos) == if k == 0 then Ok([], pos + 1) else Undefined
  {
    hide NameLoop, LastResume, Text;
    LoopComplete(b, pos, 0, 0, [], labels, k);
    NoText();
    assert [] + Text(labels) == Text(labels);
  }

  lemma {:induction false} TextFirst(labels: seq<seq<byte>>)
    requires labels != []
    ensures Text(labels) == Stored(labels[0]) + Text(labels[1..]) && |Stored(labels[0])| == |labels[0]| + 1
  {
  }

  lemma {:induction false} NoText()
    ensures Text([]) == []
  {
  }

  lemma {:induction false} ReadNameSound(b: seq<byte>, pos: nat) returns (labels: seq<seq<byte>>, k: nat)
    requires ReadName(b, pos).Ok?
    ensures Denotes(b, pos, labels, k)
  {
    if b[pos] == 0 {
      labels, k := [], 0;
    } else {
      labels, k := LoopSound(b, pos, 0, 0, []);
    }
  }

  /** The octets from `pos` start with `labels`, and reading those takes `k` pointers. */
  ghost predicate Starts(b: seq<byte>, pos: nat, labels: seq<seq<byte>>, k: nat)
    decreases k, |labels|
  {
    if labels == [] then k == 0
    else
      && pos < |b|
      && var c := b[pos];
         if c >= 192 then
           && pos + 1 < |b| && k > 0 && Target(c, b[pos + 1]) < |b|
           && Starts(b, Target(c, b[pos + 1]), labels, k - 1)
         else
           && 0 < c < 64 && pos + 1 + c < |b|
           && labels[0] == b[pos + 1..pos + 1 + c]
           && Starts(b, pos + 1 + c, labels[1..], k)
  }

  /** Within four pointers the labels alone outgrow the name array. */
  ghost predicate Overflows(b: seq<byte>, pos: nat, labels: seq<seq<byte>>, k: nat) {
    k < MAX_JUMPS && Starts(b, pos, labels, k) && |Text(labels)| > MAXDNAME
  }

  /** An error is reported exactly for what neither expands within four pointers nor overflows
      the name array on the way. */
  lemma {:induction false} ReadNameErrIff(b: seq<byte>, pos: nat)
    ensures ReadName(b, pos).Err? <==>
            && (!exists labels, k: nat :: Denotes(b, pos, labels, k))
            && !exists labels, k: nat :: Overflows(b, pos, labels, k)
  {
    hide NameLoop, Expands, Starts, Text;
    if labels, k: nat :| Denotes(b, pos, labels, k) {
      ReadNameOfExpansion(b, pos, labels, k);
    }
    if labels, k: nat :| Overflows(b, pos, labels, k) {
      ReadNameOfOverflow(b, pos, labels, k);
    }
    if ReadName(b, pos).Ok? {
      var labels, k := ReadNameSound(b, pos);
    } else if ReadName(b, pos).Undefined? {
      var labels, k := ReadNameUndefined(b, pos);
    }
  }

  lemma {:induction false} ReadNameUndefined(b: seq<byte>, pos: nat) returns (labels: seq<seq<byte>>, k: nat)
    requires ReadName(b, pos).Undefined?
    ensures Denotes(b, pos, labels, k) || Overflows(b, pos, labels, k)
  {
    labels, k := LoopUndefined(b, pos, 0, 0, []);
  }

  lemma {:induction false} ReadNameOfOverflow(b: seq<byte>, pos: nat, labels: seq<seq<byte>>, k: nat)
    requires Overflows(b, pos, labels, k)
    ensures ReadName(b, pos) == Undefined
  {
    assert labels != [];
    LoopOverflow(b, pos, 0, 0, [], labels, k);
  }

  lemma {:induction false} LoopOverflow(b: seq<byte>, pos: nat, jumps: nat, resume: nat, text: seq<byte>,
                                        labels: seq<seq<byte>>, k: nat)
    requires Starts(b, pos, labels, k) && jumps + k < MAX_JUMPS && |text| <= MAXDNAME < |text| + |Text(labels)|
    ensures NameLoop(b, pos, jumps, resume, text) == Undefined
    decreases k, |labels|
  {
    hide NameLoop;
    LoopUnfold(b, pos, jumps, resume, text);
    var c := b[pos];
    if c >= 192 {
      LoopOverflow(b, Target(c, b[pos + 1]), jumps + 1, pos + 2, text, labels, k - 1);
    } else if |text| + c + 1 <= MAXDNAME {
      LoopOverflow(b, pos + 1 + c, jumps, resume, text + Stored(labels[0]), labels[1..], k);
    }
  }

  /** An undefined outcome comes from a pointer to an empty name or from an overflow. */
  lemma {:induction false} LoopUndefined(b: seq<byte>, pos: nat, jumps: nat, resume: nat, text: seq<byte>)
    returns (labels: seq<seq<byte>>, k: nat)
    requires jumps <= MAX_JUMPS && |text| <= MAXDNAME && NameLoop(b, pos, jumps, resume, text).Undefined?
    ensures jumps + k < MAX_JUMPS
    ensures Expands(b, pos, labels, k) || (Starts(b, pos, labels, k) && |text| + |Text(labels)| > MAXDNAME)
    decreases MAX_JUMPS - jumps, |b| - pos
  {
    hide NameLoop, Expands, Starts, Text, Stored, Target;
    LoopUnfold(b, pos, jumps, resume, text);
    var c := b[pos];
    if c == 0 {
      labels, k := [], 0;
      ExpandsEnd(b, pos);
    } else if c >= 192 {
      labels, k := LoopUndefined(b, Target(c, b[pos + 1]), jumps + 1, pos + 2, text);
      NoText();
      PointerInFront(b, pos, labels, k);
      k := k + 1;
    } else {
      var part, rest := b[pos + 1..pos + 1 + c], [];
      k := 0;
      StoredLength(part);
      if |text| + c + 1 <= MAXDNAME {
        rest, k := LoopUndefined(b, pos + 1 + c, jumps, resume, text + Stored(part));
      }
      labels := [part] + rest;
      LabelInFront(b, pos, rest, k);
    }
  }

  lemma {:induction false} StoredLength(part: seq<byte>)
    ensures |Stored(part)| == |part| + 1
  {
  }

  lemma {:induction false} PointerInFront(b: seq<byte>, pos: nat, labels: seq<seq<byte>>, k: nat)
    requires pos + 1 < |b| && b[pos] >= 192 && Target(b[pos], b[pos + 1]) < |b|
    ensures Expands(b, Target(b[pos], b[pos + 1]), labels, k) ==> Expands(b, pos, labels, k + 1)
    ensures Starts(b, Target(b[pos], b[pos + 1]), labels, k) && labels != [] ==> Starts(b, pos, labels, k + 1)
  {
  }

  lemma {:induction false} LabelInFront(b: seq<byte>, pos: nat, rest: seq<seq<byte>>, k: nat)
    requires pos < |b| && 0 < b[pos] < 64 && pos + 1 + b[pos] < |b|
    ensures var labels := [b[pos + 1..pos + 1 + b[pos]]] + rest;
            && (Expands(b, pos + 1 + b[pos], rest, k) ==> Expands(b, pos, labels, k))
            && (Starts(b, pos + 1 + b[pos], rest, k) ==> Starts(b, pos, labels, k))
            && |Text(labels)| == b[pos] + 1 + |Text(rest)|
            && Starts(b, pos + 1 + b[pos], [], 0)
  {
    var part := b[pos + 1..pos + 1 + b[pos]];
    TextCons(part, rest);
    assert ([part] + rest)[1..] == rest;
  }

  /** A name that took no pointer or one leaves the cursor where section 4.1.4 puts it; a
      name that took more never does. */
  lemma {:induction false} CursorRightIff(b: seq<byte>, pos: nat, labels: seq<seq<byte>>, k: nat)
    requires Expands(b, pos, labels, k)
    ensures LastResume(b, pos, labels, k, 0) == NameEnd(b, pos, labels, k) <==> k <= 1
  {
    hide LastResume, NameEnd, Expands;
    var p, rest := FirstPointer(b, pos, labels, k, 0);
    if k > 0 {
      var t := Target(b[p], b[p + 1]);
      if k == 1 {
        NoPointerKeepsResume(b, t, rest, p + 2);
      } else {
        LastPointerDiffers(b, t, rest, k - 1, p + 2, p, rest, k);
      }
    }
  }

  /** Up to the first pointer, at `p`, the name is a plain sequence of labels. */
  lemma {:induction false} FirstPointer(b: seq<byte>, pos: nat, labels: seq<seq<byte>>, k: nat, resume: nat)
    returns (p: nat, rest: seq<seq<byte>>)
    requires Expands(b, pos, labels, k)
    ensures k == 0 ==> LastResume(b, pos, labels, k, resume) == if resume > 0 then resume else NameEnd(b, pos, labels, k)
    ensures k > 0 ==> p + 1 < |b| && b[p] >= 192 && NameEnd(b, pos, labels, k) == p + 2
    ensures k > 0 ==> Expands(b, Target(b[p], b[p + 1]), rest, k - 1)
                      && LastResume(b, pos, labels, k, resume)
                      == LastResume(b, Target(b[p], b[p + 1]), rest, k - 1, p + 2)
    decreases |labels|
  {
    hide Expands, LastResume, NameEnd, Target;
    ExpansionUnfold(b, pos, labels, k, resume);
    var c := b[pos];
    p, rest := pos, labels;
    if 0 < c < 192 {
      p, rest := FirstPointer(b, pos + 1 + c, labels[1..], k, resume);
    }
  }

  lemma {:induction false} ExpansionUnfold(b: seq<byte>, pos: nat, labels: seq<seq<byte>>, k: nat, resume: nat)
    requires Expands(b, pos, labels, k)
    ensures pos < |b| && (b[pos] == 0 ==> k == 0 && NameEnd(b, pos, labels, k) == pos + 1)
    ensures b[pos] == 0 ==> LastResume(b, pos, labels, k, resume) == if resume > 0 then resume else pos + 1
    ensures b[pos] >= 192 ==>
              && pos + 1 < |b| && k > 0 && Expands(b, Target(b[pos], b[pos + 1]), labels, k - 1)
              && NameEnd(b, pos, labels, k) == pos + 2
              && LastResume(b, pos, labels, k, resume)
              == LastResume(b, Target(b[pos], b[pos + 1]), labels, k - 1, pos + 2)
    ensures 0 < b[pos] < 192 ==>
              && labels != [] && Expands(b, pos + 1 + b[pos], labels[1..], k)
              && NameEnd(b, pos, labels, k) == NameEnd(b, pos + 1 + b[pos], labels[1..], k)
              && LastResume(b, pos, labels, k, resume) == LastResume(b, pos + 1 + b[pos], labels[1..], k, resume)
  {
    hide Target;
  }

  lemma {:induction false} NoPointerKeepsResume(b: seq<byte>, pos: nat, labels: seq<seq<byte>>, resume: nat)
    requires Expands(b, pos, labels, 0) && resume > 0
    ensures LastResume(b, pos, labels, 0, resume) == resume
    decreases |labels|
  {
    if b[pos] != 0 {
      NoPointerKeepsResume(b, pos + 1 + b[pos], labels[1..], resume);
    }
  }

  /** The code does not resume behind a pointer `p` from which `total` pointers lead on while
      fewer are left to follow: the same octets cannot lead to two ends. */
  lemma {:induction false} LastPointerDiffers(b: seq<byte>, pos: nat, labels: seq<seq<byte>>, k: nat, resume: nat,
                                              p: nat, after: seq<seq<byte>>, total: nat)
    requires Expands(b, pos, labels, k) && 0 < k < total
    requires p + 1 < |b| && b[p] >= 192 && Expands(b, Target(b[p], b[p + 1]), after, total - 1)
    ensures LastResume(b, pos, labels, k, resume) != p + 2
    decreases k
  {
    hide LastResume, Expands;
    var q, rest := FirstPointer(b, pos, labels, k, resume);
    var t := Target(b[q], b[q + 1]);
    if k == 1 {
      NoPointerKeepsResume(b, t, rest, q + 2);
      if q == p {
        ExpansionUnique(b, t, rest, 0, after, total - 1);
      }
    } else {
      LastPointerDiffers(b, t, rest, k - 1, q + 2, p, after, total);
    }
  }

  /** Two pointers in a row: the name is read, and the cursor ends behind the second one. */
  lemma {:induction false} TwoJumpsMisplaceTheCursor()
    ensures var b: seq<byte> := [192, 2, 192, 4, 1, 97, 0];
            Expands(b, 0, [[97]], 2) && NameEnd(b, 0, [[97]], 2) == 2 && ReadName(b, 0) == Ok([97], 4)
  {
    hide Expands, NameEnd, LastResume, Text, ReadName;
    var b: seq<byte> := [192, 2, 192, 4, 1, 97, 0];
    var name: seq<seq<byte>> := [[97]];
    OneLabel(b, 4, 97, 4);
    ExpandsJump(b, 2, name, 0, 2);
    ExpandsJump(b, 0, name, 1, 0);
    TextCons([97], []);
    NameOf(b, 0, name, 2, [97], 4);
  }

  /** A pointer holds an offset of 14 bits behind two ones, high octet first. */
  lemma {:induction false} PointerHoldsOffset(o: nat)
    requires o < 0x4000
    ensures var s := Split16(0xC000 + o); s[0] >= 192 && Target(s[0], s[1]) == o
  {
  }

  /** A pointer to a written name reads as that name, from any offset, and takes two octets. */
  lemma {:induction false} NameBehindPointer(b: seq<byte>, pos: nat, o: nat, s: seq<byte>)
    requires o < 0x4000 && At(b, pos, Split16(0xC000 + o)) && At(b, o, WireName(s)) && LabelsOk(s) && |s| < 1025
    ensures ReadName(b, pos) == Ok(s, pos + 2)
  {
    hide Expands, LastResume, NameEnd, Text, ReadName, WireName, LabelsOk, Labels, Split16, Target;
    var p := Split16(0xC000 + o);
    AtIndex(b, pos, p, 0);
    AtIndex(b, pos, p, 1);
    PointerHoldsOffset(o);
    WireNameExpands(b, o, s);
    TextOfLabels(s);
    ExpandsJump(b, pos, Labels(s), 0, 0);
    NoPointerKeepsResume(b, o, Labels(s), pos + 2);
    NameOf(b, pos, Labels(s), 1, s, pos + 2);
  }

  /** For instance the name `a` at offset 256 of a message. */
  lemma {:induction false} NameBeyond255()
    ensures ReadName([0xC1, 0x00] + Repeat(7, 254) + [1, 97, 0], 0) == Ok([97], 2)
  {
    var b: seq<byte> := [0xC1, 0x00] + Repeat(7, 254) + [1, 97, 0];
    OneOctetName();
    assert Split16(0xC000 + 256) == [0xC1, 0x00];
    assert b[0..2] == [0xC1, 0x00] && b[256..259] == [1, 97, 0];
    hide WireName, LabelsOk, ReadName, Split16;
    NameBehindPointer(b, 0, 256, [97]);
  }

  lemma {:induction false} OneOctetName()
    ensures WireName([97]) == [1, 97, 0] && LabelsOk([97])
  {
    assert FirstDot([97]) == 1;
  }

  /** Octets of a written name: the labels `a` and `bc`, joined by a dot. */
  lemma {:induction false} TwoLabelsInOctets()
    ensures WireName([97, 46, 98, 99]) == [1, 97, 2, 98, 99, 0]
    ensures ReadName([1, 97, 2, 98, 99, 0], 0) == Ok([97, 46, 98, 99], 6)
  {
    var s: seq<byte> := [97, 46, 98, 99];
    assert FirstDot(s[1..]) == 0 && FirstDot(s) == 1 && s[2..] == [98, 99];
    TwoOctetLabel(98, 99);
    assert WireText(s) == [1] + [97] + WireText([98, 99]);
    assert LabelsOk(s);
    var b := WireName(s);
    assert b == [1, 97, 2, 98, 99, 0];
    hide WireName, LabelsOk, ReadName;
    NameRoundTripIff(b, 0, s);
  }

  lemma {:induction false} TwoOctetLabel(x: byte, y: byte)
    requires x != DOT && y != DOT
    ensures FirstDot([x, y]) == 2 && WireText([x, y]) == [2, x, y] && LabelsOk([x, y])
  {
    var s := [x, y];
    assert s[1..] == [y] && [y][1..] == [];
    assert FirstDot([y]) == 1;
  }

  /** The length octet of a label is its length modulo 256, however long the label is. */
  lemma {:induction false} LengthOctetOfLabel(s: seq<byte>)
    requires 46 !in s
    ensures WireName(s)[0] == |s| % 256
  {
    NoDot(s);
  }

  lemma {:induction false} NoDot(s: seq<byte>)
    requires 46 !in s
    ensures FirstDot(s) == |s|
  {
    if s != [] {
      NoDot(s[1..]);
    }
  }

  /** Errors in numbers: 1 behind the end of the message, for a label or a pointer that leads
      there; 4 for the reserved length octets. */
  lemma {:induction false} ErrorNumbers(b: seq<byte>, pos: nat)
    ensures pos >= |b| ==> ReadName(b, pos) == Err(1)
    ensures pos < |b| && 64 <= b[pos] < 192 ==> ReadName(b, pos) == Err(4)
    ensures pos < |b| && 0 < b[pos] < 64 && pos + 1 + b[pos] >= |b| ==> ReadName(b, pos) == Err(1)
    ensures pos < |b| && b[pos] >= 192 && pos + 1 >= |b| ==> ReadName(b, pos) == Err(1)
    ensures pos + 1 < |b| && b[pos] >= 192 && (b[pos] - 192) * 256 + b[pos + 1] >= |b| ==> ReadName(b, pos) == Err(1)
  {
    hide NameLoop;
    LoopUnfold(b, pos, 0, 0, []);
  }

  /** The C string is the part before the first NUL. */
  lemma {:induction false} CStringIs(s: seq<byte>)
    ensures var t := CString(s);
            |t| <= |s| && t == s[..|t|] && 0 !in t && (|t| < |s| ==> s[|t|] == 0)
  {
    if s != [] && s[0] != 0 {
      CStringIs(s[1..]);
    }
  }

  lemma {:induction false} OneLabel(b: seq<byte>, pos: nat, c: byte, resume: nat)
    requires pos + 2 < |b| && b[pos] == 1 && b[pos + 1] == c && b[pos + 2] == 0 && resume > 0
    ensures Expands(b, pos, [[c]], 0) && LastResume(b, pos, [[c]], 0, resume) == resume
  {
    ExpandsEnd(b, pos + 2);
    assert b[pos + 1..pos + 2] == [c] && [[c]][1..] == [];
  }

  lemma {:induction false} ExpandsJump(b: seq<byte>, pos: nat, labels: seq<seq<byte>>, k: nat, resume: nat)
    requires pos + 1 < |b| && b[pos] >= 192 && Expands(b, Target(b[pos], b[pos + 1]), labels, k)
    ensures Expands(b, pos, labels, k + 1) && NameEnd(b, pos, labels, k + 1) == pos + 2
    ensures LastResume(b, pos, labels, k + 1, resume) == LastResume(b, Target(b[pos], b[pos + 1]), labels, k, pos + 2)
  {
  }

  lemma {:induction false} NameOf(b: seq<byte>, pos: nat, labels: seq<seq<byte>>, k: nat, name: seq<byte>, end: nat)
    requires Denotes(b, pos, labels, k) && labels != [] && Text(labels) == name + [DOT] && |name| < MAXDNAME
    requires LastResume(b, pos, labels, k, 0) == end
    ensures ReadName(b, pos) == Ok(name, end)
  {
    hide NameLoop, Expands, LastResume, Text;
    ReadNameOfExpansion(b, pos, labels, k);
  }

  lemma {:induction false} ExpandsEnd(b: seq<byte>, pos: nat)
    requires pos < |b| && b[pos] == 0
    ensures Expands(b, pos, [], 0) && LastResume(b, pos, [], 0, 0) == pos + 1
    ensures forall resume: nat :: resume > 0 ==> LastResume(b, pos, [], 0, resume) == resume
  {
  }

  // ---------------------------------------------------------------- writing

  /** What a C string holds: the octets before the first NUL. */
  function CString(s: seq<byte>): (t: seq<byte>)
    ensures |t| <= |s| && 0 !in t
  {
    if s == [] || s[0] == 0 then [] else [s[0]] + CString(s[1..])
  }

  function FirstDot(s: seq<byte>): (i: nat)
    ensures i <= |s|
    ensures i < |s| ==> s[i] == DOT
  {
    if s == [] || s[0] == DOT then 0 else 1 + FirstDot(s[1..])
  }

  lemma {:induction false} NoDotBefore(s: seq<byte>, j: nat)
    requires j < |s| && s[j] == DOT
    ensures FirstDot(s) <= j
  {
    if j > 0 && s[0] != DOT {
      NoDotBefore(s[1..], j - 1);
    }
  }

  /** `uint8_t len`. */
  function LengthOctet(n: nat): (c: byte)
    ensures n < 256 ==> c == n
  {
    n % 256
  }

  /** The octets `WriteLabel` puts from its start up to the terminator slot: each stretch
      between dots behind its length, which is kept in one octet. */
  function WireText(s: seq<byte>): (w: seq<byte>)
    ensures |w| == |s| + 1
    decreases |s|
  {
    var n := FirstDot(s);
    [LengthOctet(n)] + s[..n] + (if n < |s| then WireText(s[n + 1..]) else [])
  }

  /** The wire form of a name: the text and the terminating zero. */
  function WireName(s: seq<byte>): (w: seq<byte>)
    ensures |w| == |s| + 2
  {
    WireText(s) + [0]
  }

  /** Every stretch between dots has 1 to 63 octets. */
  predicate LabelsOk(s: seq<byte>)
    decreases |s|
  {
    var n := FirstDot(s);
    1 <= n <= 63 && (n < |s| ==> LabelsOk(s[n + 1..]))
  }

  function Labels(s: seq<byte>): (labels: seq<seq<byte>>)
    ensures labels != []
    decreases |s|
  {
    var n := FirstDot(s);
    [s[..n]] + (if n < |s| then Labels(s[n + 1..]) else [])
  }

  lemma {:induction false} TextOfLabels(s: seq<byte>)
    ensures Text(Labels(s)) == s + [DOT]
    decreases |s|
  {
    hide FirstDot, Text;
    var n := FirstDot(s);
    if n < |s| {
      var rest := Labels(s[n + 1..]);
      TextOfLabels(s[n + 1..]);
      TextCons(s[..n], rest);
      JoinAtDot(s, n);
    } else {
      assert s[..n] == s && Labels(s) == [s];
      TextCons(s, []);
    }
  }

  lemma {:induction false} JoinAtDot(s: seq<byte>, n: nat)
    requires n < |s| && s[n] == DOT
    ensures s[..n] + [DOT] + (s[n + 1..] + [DOT]) == s + [DOT]
  {
  }

  lemma {:induction false} TextCons(part: seq<byte>, rest: seq<seq<byte>>)
    ensures Text([part] + rest) == part + [DOT] + Text(rest)
    ensures Text([part]) == part + [DOT]
  {
    assert ([part] + rest)[1..] == rest;
  }

  /** The wire form of the name expands, without pointers, to its labels. */
  lemma {:induction false} WireNameExpands(b: seq<byte>, pos: nat, s: seq<byte>)
    requires LabelsOk(s) && At(b, pos, WireName(s))
    ensures Expands(b, pos, Labels(s), 0) && LastResume(b, pos, Labels(s), 0, 0) == pos + |s| + 2
    decreases |s|
  {
    hide FirstDot, WireName, Expands, LastResume, At;
    var n := FirstDot(s);
    WireNameParts(b, pos, s);
    if n < |s| {
      WireNameExpands(b, pos + 1 + n, s[n + 1..]);
      ExpandsCons(b, pos, s[..n], Labels(s[n + 1..]));
    } else {
      AtIndex(b, pos + 1 + n, [0], 0);
      ExpandsEnd(b, pos + 1 + n);
      ExpandsCons(b, pos, s[..n], []);
      assert [s[..n]] + [] == Labels(s);
    }
  }

  /** A label in front of an expansion without pointers. */
  lemma {:induction false} ExpandsCons(b: seq<byte>, pos: nat, part: seq<byte>, rest: seq<seq<byte>>)
    requires 1 <= |part| <= 63 && At(b, pos + 1, part) && b[pos] == |part|
    requires Expands(b, pos + 1 + |part|, rest, 0)
    ensures Expands(b, pos, [part] + rest, 0)
    ensures LastResume(b, pos, [part] + rest, 0, 0) == LastResume(b, pos + 1 + |part|, rest, 0, 0)
  {
    assert ([part] + rest)[1..] == rest;
  }

  /** The first label and its length, and behind them the rest or the terminator. */
  lemma {:induction false} WireNameParts(b: seq<byte>, pos: nat, s: seq<byte>)
    requires At(b, pos, WireName(s))
    ensures var n := FirstDot(s);
            && pos + 1 + n < |b|
            && b[pos] == LengthOctet(n) && At(b, pos + 1, s[..n])
            && At(b, pos + 1 + n, if n < |s| then WireName(s[n + 1..]) else [0])
  {
    hide FirstDot, WireName, LengthOctet;
    var n, w := FirstDot(s), WireName(s);
    WireNameSlices(s);
    AtIndex(b, pos, w, 0);
    AtSlice(b, pos, w, 1, 1 + n);
    AtSlice(b, pos, w, 1 + n, |w|);
  }

  lemma {:induction false} WireNameSlices(s: seq<byte>)
    ensures var n, w := FirstDot(s), WireName(s);
            && w[0] == LengthOctet(n) && w[1..1 + n] == s[..n]
            && w[1 + n..] == (if n < |s| then WireName(s[n + 1..]) else [0])
  {
    hide FirstDot, LengthOctet, WireText;
    var n := FirstDot(s);
    var rest := if n < |s| then WireText(s[n + 1..]) else [];
    WireTextUnfold(s);
    ThreeParts(LengthOctet(n), s[..n], rest, [0]);
  }

  lemma {:induction false} WireTextUnfold(s: seq<byte>)
    ensures var n := FirstDot(s);
            WireText(s) == [LengthOctet(n)] + s[..n] + (if n < |s| then WireText(s[n + 1..]) else [])
  {
    hide FirstDot, LengthOctet;
  }

  lemma {:induction false} ThreeParts(x: byte, part: seq<byte>, rest: seq<byte>, end: seq<byte>)
    ensures var w := [x] + part + rest + end;
            w[0] == x && w[1..1 + |part|] == part && w[1 + |part|..] == rest + end
  {
  }

  /** Writing then reading a name gives it back, with the cursor behind what was written,
      exactly when every label has 1 to 63 octets and the name fits its array; in particular
      not for the empty name. */
  lemma {:induction false} NameRoundTripIff(b: seq<byte>, pos: nat, s: seq<byte>)
    requires At(b, pos, WireName(s))
    ensures ReadName(b, pos) == Ok(s, pos + |s| + 2) <==> LabelsOk(s) && |s| < MAXDNAME
  {
    hide NameLoop, Expands, LastResume, LabelsOk, WireName, At, Labels, Text;
    if LabelsOk(s) {
      WireNameExpands(b, pos, s);
      TextOfLabels(s);
      ReadNameOfExpansion(b, pos, Labels(s), 0);
    }
    if ReadName(b, pos) == Ok(s, pos + |s| + 2) {
      var labels, k := ReadNameSound(b, pos);
      ReadNameOfExpansion(b, pos, labels, k);
      assert Text(labels) == s + [DOT];
      OnlyGoodLabelsReturn(b, pos, s, labels, k);
    }
  }

  /** If the octets written for `s` expand to the text of `s`, its labels were good. */
  lemma {:induction false} OnlyGoodLabelsReturn(b: seq<byte>, pos: nat, s: seq<byte>, labels: seq<seq<byte>>, k: nat)
    requires At(b, pos, WireName(s)) && Expands(b, pos, labels, k) && Text(labels) == s + [DOT]
    ensures LabelsOk(s)
    decreases |s|
  {
    hide FirstDot, WireName, Text, Expands, At;
    var n := FirstDot(s);
    TextHead(labels);
    ExpandedLabel(b, pos, labels, k);
    assert n <= |labels[0]| by { DotBehindLabel(s, labels[0], Text(labels[1..])); }
    WireNameParts(b, pos, s);
    ExpandsStep(b, pos, labels, k);
    if n < |s| {
      AtSame(b, pos + 1, labels[0], s[..n]);
      TextTail(s, n, Text(labels[1..]));
      OnlyGoodLabelsReturn(b, pos + 1 + n, s[n + 1..], labels[1..], k);
    }
  }

  lemma {:induction false} AtSame(b: seq<byte>, pos: nat, x: seq<byte>, y: seq<byte>)
    requires At(b, pos, x) && At(b, pos, y) && |x| == |y|
    ensures x == y
  {
  }

  lemma {:induction false} DotBehindLabel(s: seq<byte>, part: seq<byte>, rest: seq<byte>)
    requires s + [DOT] == part + [DOT] + rest
    ensures FirstDot(s) <= |part|
  {
    hide FirstDot;
    assert (s + [DOT])[|part|] == DOT;
    if |part| < |s| {
      NoDotBefore(s, |part|);
    }
  }

  lemma {:induction false} TextTail(s: seq<byte>, n: nat, rest: seq<byte>)
    requires n < |s| && s + [DOT] == s[..n] + [DOT] + rest
    ensures rest == s[n + 1..] + [DOT]
  {
    assert (s + [DOT])[n + 1..] == rest;
  }

  /** A length octet below 64 is followed by the first label and the expansion of the rest. */
  lemma {:induction false} ExpandsStep(b: seq<byte>, pos: nat, labels: seq<seq<byte>>, k: nat)
    requires Expands(b, pos, labels, k) && labels != [] && b[pos] < 64
    ensures At(b, pos + 1, labels[0]) && |labels[0]| == b[pos] > 0
    ensures Expands(b, pos + 1 + b[pos], labels[1..], k)
  {
  }

  lemma {:induction false} TextHead(labels: seq<seq<byte>>)
    requires Text(labels) != []
    ensures labels != [] && Text(labels) == labels[0] + [DOT] + Text(labels[1..])
  {
  }

  lemma {:induction false} ExpandedLabel(b: seq<byte>, pos: nat, labels: seq<seq<byte>>, k: nat)
    requires Expands(b, pos, labels, k) && labels != []
    ensures 1 <= |labels[0]| <= 63 && pos < |b|
    decreases k
  {
    if b[pos] >= 192 {
      ExpandedLabel(b, Target(b[pos], b[pos + 1]), labels, k - 1);
    }
  }

  /** The text of labels without dots has 1 to 63 octets between dots. */
  lemma {:induction false} DotFreeLabelsAreGood(b: seq<byte>, pos: nat, labels: seq<seq<byte>>, k: nat)
    requires Denotes(b, pos, labels, k) && labels != []
    requires forall l :: l in labels ==> DOT !in l
    ensures LabelsOk(Dotted(labels))
  {
    hide Expands, LabelsOk, Text;
    ExpandedLabels(b, pos, labels, k);
    DottedOk(labels);
  }

  lemma {:induction false} ExpandedLabels(b: seq<byte>, pos: nat, labels: seq<seq<byte>>, k: nat)
    requires Expands(b, pos, labels, k)
    ensures forall l :: l in labels ==> 1 <= |l| <= 63
    decreases k, |labels|
  {
    var c := b[pos];
    if c >= 192 {
      ExpandedLabels(b, Target(c, b[pos + 1]), labels, k - 1);
    } else if c > 0 {
      ExpandedLabels(b, pos + 1 + c, labels[1..], k);
      assert labels == [labels[0]] + labels[1..];
    }
  }

  lemma {:induction false} DottedOk(labels: seq<seq<byte>>)
    requires labels != [] && forall l :: l in labels ==> 1 <= |l| <= 63 && DOT !in l
    ensures LabelsOk(Dotted(labels))
    decreases |labels|
  {
    hide FirstDot, Dotted;
    var s, part := Dotted(labels), labels[0];
    DottedCons(labels);
    if |labels| == 1 {
      FirstDotIs(s, part, []);
    } else {
      DottedOk(labels[1..]);
      FirstDotIs(s, part, Dotted(labels[1..]));
    }
  }

  /** The first stretch of a text that starts with a label free of dots. */
  lemma {:induction false} FirstDotIs(s: seq<byte>, part: seq<byte>, rest: seq<byte>)
    requires DOT !in part && (s == part || s == part + [DOT] + rest)
    ensures FirstDot(s) == |part|
    ensures s != part ==> s[|part| + 1..] == rest
    decreases |part|
  {
    if part != [] {
      assert part == [part[0]] + part[1..];
      assert s == part + [DOT] + rest ==> s[1..] == part[1..] + [DOT] + rest;
      assert s == part ==> s[1..] == part[1..];
      FirstDotIs(s[1..], part[1..], rest);
    }
  }

  /** What precedes the first NUL of a concatenation. */
  lemma {:induction false} CStringAppend(a: seq<byte>, x: seq<byte>)
    requires 0 !in a
    ensures CString(a + x) == a + CString(x)
    decreases |a|
  {
    if a == [] {
      assert a + x == x;
    } else {
      assert (a + x)[1..] == a[1..] + x && a == [a[0]] + a[1..];
      CStringAppend(a[1..], x);
    }
  }

  lemma {:induction false} CStringPrefix(x: seq<byte>, k: nat)
    requires k < |CString(x)|
    ensures k < |x| && x[k] == CString(x)[k]
  {
    if k > 0 {
      CStringPrefix(x[1..], k - 1);
    }
  }

  lemma {:induction false} DottedCons(labels: seq<seq<byte>>)
    requires labels != []
    ensures |labels| == 1 ==> Dotted(labels) == labels[0]
    ensures |labels| > 1 ==> Dotted(labels) == labels[0] + [DOT] + Dotted(labels[1..])
  {
    if |labels| == 1 {
      assert labels[1..] == [];
    }
  }

  /** A written name that is read as the C string it was has good labels, wherever the cursor
      ends: no misreading of lengths, terminators or pointers can make up for a bad label. */
  lemma {:induction false} ReadAsWrittenIsGood(b: seq<byte>, pos: nat, s: seq<byte>)
    requires At(b, pos, WireName(s)) && s != []
    requires ReadName(b, pos).Ok? && CString(ReadName(b, pos).value) == s
    ensures LabelsOk(s) && |s| < MAXDNAME
  {
    hide NameLoop, Expands, LastResume, LabelsOk, WireName, At, Dotted;
    var labels, k := ReadNameSound(b, pos);
    ReadNameOfExpansion(b, pos, labels, k);
    assert CString([]) == [];
    CutExpansionIsGood(b, pos, s, labels, k);
  }

  lemma {:induction false} CutExpansionIsGood(b: seq<byte>, pos: nat, s: seq<byte>, labels: seq<seq<byte>>, k: nat)
    requires At(b, pos, WireName(s)) && s != [] && Expands(b, pos, labels, k)
    requires labels != [] && CString(Dotted(labels)) == s
    ensures LabelsOk(s)
    decreases |s|
  {
    hide FirstDot, WireName, Expands, Dotted, CString, At;
    var n := FirstDot(s);
    ExpandedLabel(b, pos, labels, k);
    DottedCons(labels);
    FirstLabelLength(s, labels);
    WireNameParts(b, pos, s);
    if n == 0 {
      NoLabelAtZero(b, pos, labels, k);
    }
    ExpandsStep(b, pos, labels, k);
    if n < |s| {
      assert labels[0] == s[..n] by { AtSame(b, pos + 1, labels[0], s[..n]); }
      CStringPrefix(Dotted(labels), n);
      var tail, rest := s[n + 1..], labels[1..];
      CutTail(s, n, labels);
      NonemptyTail(b, pos + 1 + n, tail, rest, k);
      CutExpansionIsGood(b, pos + 1 + n, tail, rest, k);
    }
  }

  lemma {:induction false} NoLabelAtZero(b: seq<byte>, pos: nat, labels: seq<seq<byte>>, k: nat)
    requires Expands(b, pos, labels, k) && b[pos] == 0
    ensures labels == []
  {
  }

  /** The first stretch of the C string is no longer than the first label. */
  lemma {:induction false} FirstLabelLength(s: seq<byte>, labels: seq<seq<byte>>)
    requires labels != [] && s != [] && CString(Dotted(labels)) == s
    ensures FirstDot(s) <= |labels[0]|
  {
    hide FirstDot, CString, Dotted;
    var m := |labels[0]|;
    DottedCons(labels);
    if m < |s| {
      CStringPrefix(Dotted(labels), m);
      NoDotBefore(s, m);
    }
  }

  lemma {:induction false} CutTail(s: seq<byte>, n: nat, labels: seq<seq<byte>>)
    requires n < |s| && |labels| > 1 && CString(Dotted(labels)) == s && labels[0] == s[..n]
    ensures CString(Dotted(labels[1..])) == s[n + 1..]
  {
    hide CString, Dotted;
    DottedCons(labels);
    assert 0 !in s;
    assert forall x :: x in s[..n] ==> x in s;
    CStringAppend(labels[0] + [DOT], Dotted(labels[1..]));
  }

  lemma {:induction false} NonemptyTail(b: seq<byte>, pos: nat, s: seq<byte>, labels: seq<seq<byte>>, k: nat)
    requires At(b, pos, WireName(s)) && Expands(b, pos, labels, k) && labels != []
    ensures s != []
  {
    if s == [] {
      AtIndex(b, pos, WireName(s), 0);
      EmptyText();
      NoLabelAtZero(b, pos, labels, k);
    }
  }

  // ------------------------------------------- the text grows at its end

  /** Position of the length octet of the last label within the text. */
  function LengthSlot(s: seq<byte>): (i: nat)
    ensures i <= |s|
    decreases |s|
  {
    var n := FirstDot(s);
    if n == |s| then 0 else n + 1 + LengthSlot(s[n + 1..])
  }

  lemma {:induction false} FirstDotSnoc(s: seq<byte>, c: byte)
    ensures FirstDot(s + [c]) == if FirstDot(s) == |s| && c != DOT then |s| + 1 else FirstDot(s)
  {
    if s != [] {
      assert (s + [c])[1..] == s[1..] + [c];
      if s[0] != DOT {
        FirstDotSnoc(s[1..], c);
      }
    }
  }

  /** The octets of the first label. */
  function Head(s: seq<byte>): (h: seq<byte>)
    ensures |h| == FirstDot(s) + 1
  {
    [LengthOctet(FirstDot(s))] + s[..FirstDot(s)]
  }

  lemma {:induction false} Unfold(s: seq<byte>)
    ensures FirstDot(s) < |s| ==>
              && WireText(s) == Head(s) + WireText(s[FirstDot(s) + 1..])
              && LengthSlot(s) == |Head(s)| + LengthSlot(s[FirstDot(s) + 1..])
    ensures FirstDot(s) == |s| ==> WireText(s) == [LengthOctet(|s|)] + s && LengthSlot(s) == 0
  {
    hide FirstDot, LengthOctet;
    assert FirstDot(s) == |s| ==> s[..FirstDot(s)] == s;
  }

  /** What one more octet does to the text of the first label and of the rest. */
  lemma {:induction false} UnfoldSnoc(s: seq<byte>, c: byte)
    requires FirstDot(s) < |s|
    ensures var rest := s[FirstDot(s) + 1..];
            && WireText(s + [c]) == Head(s) + WireText(rest + [c])
            && LengthSlot(s + [c]) == |Head(s)| + LengthSlot(rest + [c])
  {
    hide FirstDot, LengthOctet, WireText, LengthSlot;
    var n, t := FirstDot(s), s + [c];
    FirstDotSnoc(s, c);
    Unfold(t);
    assert t[..n] == s[..n] && t[n + 1..] == s[n + 1..] + [c];
  }

  /** A dot closes the last label and opens one of length zero. */
  lemma {:induction false} WireTextDot(s: seq<byte>)
    ensures WireText(s + [DOT]) == WireText(s) + [0] && LengthSlot(s + [DOT]) == |s| + 1
    decreases |s|
  {
    hide FirstDot, LengthOctet, WireText, LengthSlot, Head;
    var n := FirstDot(s);
    Unfold(s);
    if n < |s| {
      var rest := s[n + 1..];
      UnfoldSnoc(s, DOT);
      WireTextDot(rest);
      assert Head(s) + (WireText(rest) + [0]) == Head(s) + WireText(rest) + [0];
    } else {
      WireTextLastDot(s);
    }
  }

  lemma {:induction false} WireTextLastDot(s: seq<byte>)
    requires FirstDot(s) == |s|
    ensures WireText(s + [DOT]) == WireText(s) + [0] && LengthSlot(s + [DOT]) == |s| + 1
  {
    hide FirstDot, LengthOctet, WireText, LengthSlot;
    var t := s + [DOT];
    FirstDotSnoc(s, DOT);
    Unfold(s);
    Unfold(t);
    assert t[..|s|] == s && t[|s| + 1..] == [];
    EmptyText();
  }

  lemma {:induction false} EmptyText()
    ensures WireText([]) == [0] && LengthSlot([]) == 0
  {
  }

  /** Any other octet lengthens the last label. */
  lemma {:induction false} WireTextChar(s: seq<byte>, c: byte)
    requires c != DOT
    ensures LengthSlot(s + [c]) == LengthSlot(s)
    ensures WireText(s + [c]) == WireText(s)[LengthSlot(s) := LengthOctet(|s| + 1 - LengthSlot(s))] + [c]
    decreases |s|
  {
    hide FirstDot, LengthOctet, WireText, LengthSlot, Head;
    var n := FirstDot(s);
    Unfold(s);
    if n < |s| {
      var rest := s[n + 1..];
      UnfoldSnoc(s, c);
      WireTextChar(rest, c);
      UpdateInTail(Head(s), WireText(rest), LengthSlot(rest), LengthOctet(|rest| + 1 - LengthSlot(rest)), c);
    } else {
      FirstDotSnoc(s, c);
      Unfold(s + [c]);
    }
  }

  lemma {:induction false} UpdateInTail(h: seq<byte>, w: seq<byte>, k: nat, x: byte, c: byte)
    requires k < |w|
    ensures (h + w)[|h| + k := x] + [c] == h + (w[k := x] + [c])
  {
  }

  lemma {:induction false} LengthSlotHoldsLength(s: seq<byte>)
    ensures WireText(s)[LengthSlot(s)] == LengthOctet(|s| - LengthSlot(s))
    decreases |s|
  {
    hide FirstDot, LengthOctet, WireText, LengthSlot, Head;
    Unfold(s);
    if FirstDot(s) < |s| {
      LengthSlotHoldsLength(s[FirstDot(s) + 1..]);
    }
  }
}

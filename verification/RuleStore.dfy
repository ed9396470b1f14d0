/** The packed store of src/rule/shm.cpp as a function of its bytes, and what the rules mean. */
module RuleStore {
  import opened Bytes
  import opened RuleCodec

  datatype Policy = Policy(action: Word, target4: seq<byte>, target6: seq<byte>)

  /** RuleData without its mutex. `data` has one byte more than the array of the source: the
      insertion loop can write the byte just after that array. */
  datatype Store = Store(data: seq<byte>, size: nat, policy: Policy)

  /** How `insertRules` moves the rules behind the insertion point: as src/rule/shm.cpp:255-257
      is written, or one byte further at both ends, as its comment intends. */
  datatype Shift = AsWritten | Intended

  /** Walking `size` rules through the bytes yields exactly `rs`, within the array. */
  ghost predicate Refines(st: Store, rs: seq<Rule>) {
    && |st.data| == DATA_SIZE + 1
    && st.size == |rs|
    && DecodesTo(st.data, 0, rs)
    && |EncodeAll(rs)| <= DATA_SIZE
  }

  lemma {:induction false} RefinesIff(st: Store, rs: seq<Rule>)
    requires |st.data| == DATA_SIZE + 1 && AllShaped(rs)
    ensures Refines(st, rs) <==>
            st.size == |rs| && |EncodeAll(rs)| <= DATA_SIZE && At(st.data, 0, EncodeAll(rs))
    ensures Refines(st, rs) ==> Decode(st.data, 0, |rs|) == Some((rs, |EncodeAll(rs)|))
  {
    hide EncodeAll, Decode;
    DecodeIff(st.data, 0, rs);
  }

  /** The cursor after `i` calls of `nextRule`. */
  function Cursor(rs: seq<Rule>, i: nat): (p: nat)
    requires i <= |rs|
    ensures p <= |EncodeAll(rs)|
  {
    EncodeAllSplit(rs, i);
    |EncodeAll(rs[..i])|
  }

  /** The data after the shifting loop and the copying loop of `insertRules`. */
  function InsertBytes(shift: Shift, d: seq<byte>, ip: nat, end: nat, s: seq<byte>): (r: seq<byte>)
    requires ip <= end && end + |s| < |d|
    ensures |r| == |d|
  {
    var w := |s|;
    d[..ip] + s
    + (if shift.Intended? then d[ip..end] + d[end + w..]
       else if ip == end then d[end + w..]
       else [d[ip + w]] + d[ip + 1..end] + [d[end]] + d[end + w + 1..])
  }

  /** `insertRules` on a store that holds `rs`. */
  function Insert(shift: Shift, st: Store, rs: seq<Rule>, news: seq<Rule>, index: nat): (r: Store)
    requires |st.data| == DATA_SIZE + 1
    ensures |r.data| == |st.data|
  {
    var s := EncodeAll(news);
    if index > |rs| || |EncodeAll(rs)| + |s| > DATA_SIZE then st
    else st.(data := InsertBytes(shift, st.data, Cursor(rs, index), |EncodeAll(rs)|, s),
             size := st.size + |news|)
  }

  /** The data after the loop of `deleteRule`. */
  function DeleteBytes(d: seq<byte>, from: nat, to: nat, end: nat): (r: seq<byte>)
    requires from <= to <= end <= |d|
    ensures |r| == |d|
  {
    d[..from] + d[to..end] + d[end - (to - from)..]
  }

  /** `deleteRule` on a store that holds `rs`. */
  function Delete(st: Store, rs: seq<Rule>, index: nat): (r: Store)
    requires |st.data| == DATA_SIZE + 1 && |EncodeAll(rs)| <= DATA_SIZE && st.size == |rs|
  {
    if index >= |rs| then st
    else if index == |rs| - 1 then st.(size := st.size - 1)
    else
      CursorMonotone(rs, index);
      st.(data := DeleteBytes(st.data, Cursor(rs, index), Cursor(rs, index + 1), |EncodeAll(rs)|),
          size := st.size - 1)
  }

  lemma {:induction false} CursorMonotone(rs: seq<Rule>, i: nat)
    requires i < |rs|
    ensures Cursor(rs, i + 1) == Cursor(rs, i) + |Encode(rs[i])|
  {
    assert rs[..i + 1] == rs[..i] + [rs[i]];
  }

  /** The same operations on a plain list with the same capacity. */
  function Fits(rs: seq<Rule>, news: seq<Rule>, index: nat): bool {
    index <= |rs| && |EncodeAll(rs)| + |EncodeAll(news)| <= DATA_SIZE
  }

  function ListInsert(rs: seq<Rule>, news: seq<Rule>, index: nat): seq<Rule> {
    if Fits(rs, news, index) then rs[..index] + news + rs[index..] else rs
  }

  function ListDelete(rs: seq<Rule>, index: nat): seq<Rule> {
    if index < |rs| then rs[..index] + rs[index + 1..] else rs
  }

  /** Checkable before the call: nothing lies behind the insertion point, or the byte the
      loop forgets to move already has the value that belongs there. */
  predicate SeamOk(shift: Shift, d: seq<byte>, rs: seq<Rule>, news: seq<Rule>, index: nat)
    requires index <= |rs| && |EncodeAll(rs)| + |EncodeAll(news)| < |d|
  {
    || shift.Intended?
    || index == |rs|
    || d[Cursor(rs, index) + |EncodeAll(news)|] == d[Cursor(rs, index)]
  }

  lemma {:induction false} CursorBeforeEnd(rs: seq<Rule>, i: nat)
    requires AllShaped(rs) && i < |rs|
    ensures Cursor(rs, i) + HEADER_SIZE <= |EncodeAll(rs)|
  {
    hide Encode, EncodeAll;
    CursorMonotone(rs, i);
    assert Shaped(rs[i]);
  }

  /** Where the pieces of a three-part list lie. */
  lemma {:induction false} AtThree(d: seq<byte>, a: seq<byte>, b: seq<byte>, c: seq<byte>)
    ensures At(d, 0, a + b + c) <==> At(d, 0, a) && At(d, |a|, b) && At(d, |a| + |b|, c)
  {
    AtAppend(d, 0, a + b, c);
    AtAppend(d, 0, a, b);
  }

  lemma {:induction false} EncodeThree(a: seq<Rule>, b: seq<Rule>, c: seq<Rule>)
    ensures EncodeAll(a + b + c) == EncodeAll(a) + EncodeAll(b) + EncodeAll(c)
  {
    hide EncodeAll;
    EncodeAllAppend(a + b, c);
    EncodeAllAppend(a, b);
  }

  /** The bytes behind the inserted ones, as the loop leaves them. */
  lemma {:induction false} InsertBytesTail(shift: Shift, d: seq<byte>, ip: nat, end: nat, s: seq<byte>, tail: seq<byte>)
    requires ip <= end && end + |s| < |d| && |tail| == end - ip && At(d, ip, tail)
    ensures var r := InsertBytes(shift, d, ip, end, s);
            && At(r, 0, d[..ip]) && At(r, ip, s)
            && (At(r, ip + |s|, tail) <==> shift.Intended? || ip == end || d[ip + |s|] == d[ip])
  {
    var r := InsertBytes(shift, d, ip, end, s);
    var w := |s|;
    assert r[..ip] == d[..ip];
    assert r[ip..ip + w] == s;
    if shift.AsWritten? && ip < end {
      assert r[ip + w..end + w] == [d[ip + w]] + d[ip + 1..end];
      assert tail == [d[ip]] + d[ip + 1..end];
    } else {
      assert r[ip + w..end + w] == d[ip..end];
    }
  }

  /** Insertion refines list insertion exactly when the seam is right; a rejected insertion
      changes nothing. */
  lemma {:induction false} InsertRefines(shift: Shift, st: Store, rs: seq<Rule>, news: seq<Rule>, index: nat)
    requires Refines(st, rs) && AllShaped(rs) && AllShaped(news)
    ensures !Fits(rs, news, index) ==> Insert(shift, st, rs, news, index) == st
    ensures Fits(rs, news, index) ==>
              (Refines(Insert(shift, st, rs, news, index), ListInsert(rs, news, index))
               <==> SeamOk(shift, st.data, rs, news, index))
  {
    hide EncodeAll, InsertBytes, DecodesTo, At, AllShaped, Cursor, ListInsert, Insert, SeamOk;
    if Fits(rs, news, index) {
      var st', rs' := Insert(shift, st, rs, news, index), ListInsert(rs, news, index);
      var a, b, c := EncodeAll(rs[..index]), EncodeAll(news), EncodeAll(rs[index..]);
      ListInsertEncoding(rs, news, index);
      RefinesIff(st, rs);
      RefinesIff(st', rs');
      InsertBytesThree(shift, st.data, a, b, c);
      InsertedParts(shift, st, rs, news, index);
    } else {
      NotInserted(shift, st, rs, news, index);
    }
  }

  lemma {:induction false} InsertedParts(shift: Shift, st: Store, rs: seq<Rule>, news: seq<Rule>, index: nat)
    requires |st.data| == DATA_SIZE + 1 && AllShaped(rs) && AllShaped(news) && Fits(rs, news, index)
    ensures var a, b, c := EncodeAll(rs[..index]), EncodeAll(news), EncodeAll(rs[index..]);
            && |a + c| + |b| < |st.data|
            && Insert(shift, st, rs, news, index)
            == st.(data := InsertBytes(shift, st.data, |a|, |a + c|, b), size := st.size + |news|)
            && (SeamOk(shift, st.data, rs, news, index) <==>
                shift.Intended? || c == [] || st.data[|a| + |b|] == st.data[|a|])
  {
    hide EncodeAll, InsertBytes, AllShaped, Cursor, ListInsert;
    ListInsertEncoding(rs, news, index);
    TailEmptyIff(rs, index);
  }

  lemma {:induction false} NotInserted(shift: Shift, st: Store, rs: seq<Rule>, news: seq<Rule>, index: nat)
    requires |st.data| == DATA_SIZE + 1 && !Fits(rs, news, index)
    ensures Insert(shift, st, rs, news, index) == st
  {
  }

  /** The loop as written stores a byte behind the array: an insertion before the end that
      fills the array exactly. */
  predicate Spills(shift: Shift, rs: seq<Rule>, news: seq<Rule>, index: nat) {
    shift.AsWritten? && index < |rs| && |EncodeAll(rs)| + |EncodeAll(news)| == DATA_SIZE
  }

  /** What lies behind the array after an insertion: the byte behind the live ones when the
      insertion spills, and what was there before in every other case. */
  lemma {:induction false} ByteBehind(shift: Shift, st: Store, rs: seq<Rule>, news: seq<Rule>, index: nat)
    requires |st.data| == DATA_SIZE + 1 && AllShaped(rs) && |EncodeAll(rs)| <= DATA_SIZE
    ensures Insert(shift, st, rs, news, index).data[DATA_SIZE]
         == st.data[if Spills(shift, rs, news, index) then |EncodeAll(rs)| else DATA_SIZE]
  {
    hide EncodeAll, InsertBytes;
    if Fits(rs, news, index) {
      InsertBytesLast(shift, st.data, Cursor(rs, index), |EncodeAll(rs)|, EncodeAll(news));
    }
    if index < |rs| {
      CursorBeforeEnd(rs, index);
    }
    assert rs[..|rs|] == rs;
  }

  lemma {:induction false} InsertBytesLast(shift: Shift, d: seq<byte>, ip: nat, end: nat, s: seq<byte>)
    requires ip <= end && end + |s| < |d|
    ensures var last := |d| - 1;
            InsertBytes(shift, d, ip, end, s)[last]
            == d[if shift.AsWritten? && ip < end && end + |s| == last then end else last]
  {
  }

  /** So the byte behind the array keeps its value, whatever the bytes are, exactly when the
      insertion does not spill or inserts nothing. */
  lemma {:induction false} WithinArrayIff(shift: Shift, rs: seq<Rule>, news: seq<Rule>, index: nat)
    requires AllShaped(rs) && |EncodeAll(rs)| <= DATA_SIZE
    ensures (forall st: Store :: |st.data| == DATA_SIZE + 1 ==>
                                   Insert(shift, st, rs, news, index).data[DATA_SIZE] == st.data[DATA_SIZE])
            <==> !Spills(shift, rs, news, index) || EncodeAll(news) == []
  {
    hide EncodeAll, Insert;
    if Spills(shift, rs, news, index) && EncodeAll(news) != [] {
      var d: seq<byte> := Repeat(0, DATA_SIZE + 1);
      var policy := Policy(DNS, Repeat(0, 16), Repeat(0, 16));
      var st := Store(d[|EncodeAll(rs)| := 1], 0, policy);
      ByteBehind(shift, st, rs, news, index);
      assert Insert(shift, st, rs, news, index).data[DATA_SIZE] != st.data[DATA_SIZE];
    } else {
      forall st: Store | |st.data| == DATA_SIZE + 1
        ensures Insert(shift, st, rs, news, index).data[DATA_SIZE] == st.data[DATA_SIZE]
      {
        ByteBehind(shift, st, rs, news, index);
      }
    }
  }

  lemma {:induction false} ListInsertEncoding(rs: seq<Rule>, news: seq<Rule>, index: nat)
    requires AllShaped(rs) && AllShaped(news) && Fits(rs, news, index)
    ensures var a, b, c := EncodeAll(rs[..index]), EncodeAll(news), EncodeAll(rs[index..]);
            var rs' := ListInsert(rs, news, index);
            && EncodeAll(rs) == a + c && Cursor(rs, index) == |a|
            && EncodeAll(rs') == a + b + c
            && AllShaped(rs') && |rs'| == |rs| + |news|
  {
    hide EncodeAll, Shaped;
    EncodeAllSplit(rs, index);
    EncodeThree(rs[..index], news, rs[index..]);
  }

  lemma {:induction false} TailEmptyIff(rs: seq<Rule>, index: nat)
    requires AllShaped(rs) && index <= |rs|
    ensures EncodeAll(rs[index..]) == [] <==> index == |rs|
  {
    hide Encode;
    if index < |rs| {
      EncodeAllSplit(rs, index);
      CursorBeforeEnd(rs, index);
    }
  }

  lemma {:induction false} InsertBytesThree(shift: Shift, d: seq<byte>, a: seq<byte>, b: seq<byte>, c: seq<byte>)
    requires At(d, 0, a + c) && |a| + |b| + |c| < |d|
    ensures At(InsertBytes(shift, d, |a|, |a + c|, b), 0, a + b + c)
            <==> shift.Intended? || c == [] || d[|a| + |b|] == d[|a|]
  {
    hide InsertBytes;
    AtAppend(d, 0, a, c);
    InsertBytesTail(shift, d, |a|, |a| + |c|, b, c);
    AtThree(InsertBytes(shift, d, |a|, |a| + |c|, b), a, b, c);
  }

  /** Deletion refines list deletion, and rejects exactly an index past the end. */
  lemma {:induction false} DeleteRefines(st: Store, rs: seq<Rule>, index: nat)
    requires Refines(st, rs) && AllShaped(rs)
    ensures Refines(Delete(st, rs, index), ListDelete(rs, index))
    ensures index >= |rs| ==> Delete(st, rs, index) == st
  {
    hide EncodeAll, DecodesTo, At, Shaped, DeleteBytes;
    if index < |rs| {
      var st', rs' := Delete(st, rs, index), ListDelete(rs, index);
      RefinesIff(st, rs);
      RefinesIff(st', rs');
      var front, back := rs[..index], rs[index + 1..];
      assert rs == front + [rs[index]] + back;
      EncodeThree(front, [rs[index]], back);
      EncodeAllAppend(front, back);
      EncodeOne(rs[index]);
      var a, b, c := EncodeAll(front), EncodeAll([rs[index]]), EncodeAll(back);
      CursorMonotone(rs, index);
      DeleteBytesMiddle(st.data, a, b, c);
      if index == |rs| - 1 {
        EncodeNone();
        assert back == [] && a + c == a;
      }
    }
  }

  lemma {:induction false} DeleteBytesMiddle(d: seq<byte>, a: seq<byte>, b: seq<byte>, c: seq<byte>)
    requires At(d, 0, a + b + c)
    ensures At(DeleteBytes(d, |a|, |a| + |b|, |a + b + c|), 0, a + c)
    ensures At(d, 0, a)
  {
    AtThree(d, a, b, c);
    var r := DeleteBytes(d, |a|, |a| + |b|, |a + b + c|);
    assert r[..|a|] == a && r[|a|..|a| + |c|] == c;
    AtAppend(r, 0, a, c);
  }

  lemma {:induction false} EncodeOne(r: Rule)
    ensures EncodeAll([r]) == Encode(r)
  {
  }

  lemma {:induction false} EncodeNone()
    ensures EncodeAll([]) == []
  {
  }
}

/** The cursor-moving reader and writer of names (include/net/netcommon.h,
    src/dns/dnsquestion.cpp). */
module PacketBuffer {
  import opened Bytes
  import opened Names

  /** The buffer after `WriteLabel`: the text is back-patched, the terminator slot behind it
      keeps its old octet, and the octet behind that slot is cleared. */
  function WrittenName(d: seq<byte>, pos: nat, s: seq<byte>): (r: seq<byte>)
    requires pos + |s| + 2 < |d|
    ensures |r| == |d|
  {
    Overwrite(d, pos, WireText(s))[pos + |s| + 2 := 0]
  }

  /** `WriteLabel` leaves a terminated name exactly when the terminator slot was zero. */
  lemma {:induction false} WrittenNameIff(d: seq<byte>, pos: nat, s: seq<byte>)
    requires pos + |s| + 2 < |d|
    ensures At(WrittenName(d, pos, s), pos, WireName(s)) <==> d[pos + |s| + 1] == 0
    ensures ZeroFrom(d, pos) ==> WrittenName(d, pos, s) == Overwrite(d, pos, WireName(s))
  {
    hide WireText;
    var r := WrittenName(d, pos, s);
    assert r[pos..pos + |s| + 2] == WireText(s) + [d[pos + |s| + 1]];
    if At(r, pos, WireName(s)) {
      AtIndex(r, pos, WireName(s), |s| + 1);
    }
  }

  /** In a buffer full of ones the one-letter name has no terminator. */
  lemma {:induction false} UnterminatedName()
    ensures !At(WrittenName(Repeat(1, 8), 0, [97]), 0, WireName([97]))
  {
    hide WrittenName, WireName, At;
    WrittenNameIff(Repeat(1, 8), 0, [97]);
  }

  /** Where an error leaves the cursor: behind the last octet that was read. */
  function ErrorCursor(b: seq<byte>, pos: nat, jumps: nat): (p: nat)
    requires jumps <= MAX_JUMPS
    ensures p <= if pos <= |b| then |b| else pos
    decreases MAX_JUMPS - jumps, |b| - pos
  {
    if pos >= |b| then pos
    else
      var c := b[pos];
      if jumps == MAX_JUMPS || c == 0 then pos + 1
      else if c >= 192 then
        if pos + 1 >= |b| then pos + 1
        else if Target(c, b[pos + 1]) >= |b| then pos + 2
        else ErrorCursor(b, Target(c, b[pos + 1]), jumps + 1)
      else if c >= 64 || pos + 1 + c >= |b| then pos + 1
      else ErrorCursor(b, pos + 1 + c, jumps)
  }

  lemma {:induction false} CursorUnfold(b: seq<byte>, pos: nat, jumps: nat)
    requires jumps <= MAX_JUMPS
    ensures var p := ErrorCursor(b, pos, jumps);
            if pos >= |b| then p == pos
            else
              var c := b[pos];
              if jumps == MAX_JUMPS || c == 0 then p == pos + 1
              else if c >= 192 then
                if pos + 1 >= |b| then p == pos + 1
                else if Target(c, b[pos + 1]) >= |b| then p == pos + 2
                else p == ErrorCursor(b, Target(c, b[pos + 1]), jumps + 1)
              else if c >= 64 || pos + 1 + c >= |b| then p == pos + 1
              else p == ErrorCursor(b, pos + 1 + c, jumps)
  {
  }

  /** An error in a name that starts within the message leaves the cursor within the message, and
      behind at least one octet. */
  lemma {:induction false} ErrorCursorMoves(b: seq<byte>, pos: nat, jumps: nat)
    requires jumps <= MAX_JUMPS && pos < |b|
    ensures 0 < ErrorCursor(b, pos, jumps) <= |b|
    decreases MAX_JUMPS - jumps, |b| - pos
  {
    var c := b[pos];
    if jumps < MAX_JUMPS && c >= 192 && pos + 1 < |b| && Target(c, b[pos + 1]) < |b| {
      ErrorCursorMoves(b, Target(c, b[pos + 1]), jumps + 1);
    } else if jumps < MAX_JUMPS && 0 < c < 64 && pos + 1 + c < |b| {
      ErrorCursorMoves(b, pos + 1 + c, jumps);
    }
  }

  /** The body of `ReadLabel` on the octets of the message; `stop` is the cursor it leaves. It ends
      for every message, pointer cycles included: a jump uses up one of the five allowed, a label
      moves the cursor on. */
  method ScanLabels(b: seq<byte>, start: nat) returns (r: Outcome<seq<byte>>, stop: nat)
    ensures r == ReadName(b, start)
    ensures r.Ok? ==> stop == r.pos
    ensures r.Err? ==> stop == ErrorCursor(b, start, 0)
  {
    hide Target, Stored, NameLoop, ErrorCursor;
    var pos: nat, jumps: nat, resume: nat := start, 0, 0;
    var storage: seq<byte> := [];
    LoopUnfold(b, pos, 0, 0, []);
    CursorUnfold(b, pos, 0);
    if pos >= |b| {
      return Err(FORMERR), pos;
    }
    var c := b[pos];
    pos := pos + 1;
    if c == 0 {
      return Ok([], pos), pos;
    }
    while c != 0 && jumps < MAX_JUMPS
      invariant 1 <= pos <= |b| && c == b[pos - 1] && jumps <= MAX_JUMPS
      invariant NameLoop(b, start, 0, 0, []) == NameLoop(b, pos - 1, jumps, resume, storage)
      invariant ErrorCursor(b, start, 0) == ErrorCursor(b, pos - 1, jumps)
      decreases MAX_JUMPS - jumps, |b| - pos
    {
      LoopUnfold(b, pos - 1, jumps, resume, storage);
      CursorUnfold(b, pos - 1, jumps);
      if c >= 192 {
        if pos >= |b| {
          return Err(FORMERR), pos;
        }
        var t := Target(c, b[pos]);
        pos := pos + 1;
        if t >= |b| {
          return Err(FORMERR), pos;
        }
        resume := pos;
        pos := t;
        jumps := jumps + 1;
      } else if c >= 64 {
        return Err(NOTIMP), pos;
      } else {
        if pos + c >= |b| {
          return Err(FORMERR), pos;
        }
        if |storage| + c + 1 > MAXDNAME {
          return Undefined, pos;
        }
        storage := storage + Stored(b[pos..pos + c]);
        pos := pos + c;
      }
      if pos >= |b| {
        return Err(FORMERR), pos;
      }
      c := b[pos];
      pos := pos + 1;
    }
    LoopUnfold(b, pos - 1, jumps, resume, storage);
    CursorUnfold(b, pos - 1, jumps);
    if jumps == MAX_JUMPS {
      return Err(FORMERR), pos;
    }
    if resume > 0 {
      pos := resume;
    }
    if storage == [] {
      return Undefined, pos;
    }
    return Ok(storage[..|storage| - 1], pos), pos;
  }

  class Buffer {
    const buf: array<byte>
    var pos: nat
    var size: nat

    constructor (capacity: nat)
      ensures fresh(buf) && buf.Length == capacity && pos == 0 && size == 0
      ensures ZeroFrom(buf[..], 0)
    {
      buf := new byte[capacity](_ => 0);
      pos := 0;
      size := 0;
    }

    /** `ReadLabel`. */
    method ReadLabel() returns (r: Outcome<seq<byte>>)
      requires size <= buf.Length
      modifies this`pos
      ensures r == ReadName(buf[..size], old(pos))
      ensures r.Ok? ==> pos == r.pos
      ensures r.Err? ==> pos == ErrorCursor(buf[..size], old(pos), 0)
    {
      hide Target, Stored, ErrorCursor;
      r, pos := ScanLabels(buf[..size], pos);
    }

    /** `WriteLabel` on a C string, with its back-patched lengths. */
    method WriteLabel(name: seq<byte>)
      requires 0 !in name && pos + |name| + 2 < buf.Length
      modifies this`pos, buf
      ensures buf[..] == WrittenName(old(buf[..]), old(pos), name)
      ensures pos == old(pos) + |name| + 2
    {
      hide LengthOctet, WireText, LengthSlot, Overwrite, Pending, WrittenName;
      ghost var d, start := buf[..], pos;
      var slot := pos;
      pos := pos + 1;
      var len, i := 0, 0;
      assert name[..0] == [];
      EmptyText();
      PendingStart(d, start);
      while i < |name|
        invariant 0 <= i <= |name|
        invariant pos == start + 1 + i
        invariant slot == start + LengthSlot(name[..i]) && len == i - LengthSlot(name[..i])
        invariant buf[..] == Pending(d, start, name[..i])
      {
        var c := name[i];
        assert name[..i + 1] == name[..i] + [c];
        if c == DOT {
          WireTextDot(name[..i]);
          PendingDot(d, start, name[..i]);
          buf[slot] := LengthOctet(len);
          len := 0;
          slot := pos;
          pos := pos + 1;
        } else {
          WireTextChar(name[..i], c);
          PendingChar(d, start, name[..i], c);
          buf[pos] := c;
          pos := pos + 1;
          len := len + 1;
        }
        i := i + 1;
      }
      assert name[..i] == name;
      PendingEnd(d, start, name);
      buf[slot] := LengthOctet(len);
      slot := pos;
      pos := pos + 1;
      buf[pos] := 0;
    }
  }

  /** The buffer while `WriteLabel` is under way: the text so far, with the length of the
      last label not yet filled in. */
  ghost function Pending(d: seq<byte>, start: nat, s: seq<byte>): (r: seq<byte>)
    requires start + |s| + 1 <= |d|
    ensures |r| == |d|
  {
    Overwrite(d, start, WireText(s))[start + LengthSlot(s) := d[start + LengthSlot(s)]]
  }

  lemma {:induction false} PendingStart(d: seq<byte>, start: nat)
    requires start < |d|
    ensures Pending(d, start, []) == d
  {
    EmptyText();
  }

  lemma {:induction false} PendingDot(d: seq<byte>, start: nat, s: seq<byte>)
    requires start + |s| + 2 <= |d|
    ensures Pending(d, start, s + [DOT])
         == Pending(d, start, s)[start + LengthSlot(s) := LengthOctet(|s| - LengthSlot(s))]
  {
    hide WireText, LengthSlot, LengthOctet;
    WireTextDot(s);
    LengthSlotHoldsLength(s);
  }

  lemma {:induction false} PendingChar(d: seq<byte>, start: nat, s: seq<byte>, c: byte)
    requires start + |s| + 2 <= |d| && c != DOT
    ensures Pending(d, start, s + [c]) == Pending(d, start, s)[start + |s| + 1 := c]
  {
    hide WireText, LengthSlot, LengthOctet;
    WireTextChar(s, c);
  }

  lemma {:induction false} PendingEnd(d: seq<byte>, start: nat, s: seq<byte>)
    requires start + |s| + 2 < |d|
    ensures WrittenName(d, start, s)
         == Pending(d, start, s)[start + LengthSlot(s) := LengthOctet(|s| - LengthSlot(s))][start + |s| + 2 := 0]
  {
    hide WireText, LengthSlot, LengthOctet;
    LengthSlotHoldsLength(s);
  }
}

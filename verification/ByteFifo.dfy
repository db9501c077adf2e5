/** The byte ring buffer as a bounded stream. */
module ByteFifo {
  import opened Bytes

  /** A slot number that ran at most once around a ring of `n` slots. */
  function Wrap(k: nat, n: nat): (r: nat)
    requires k < 2 * n
    ensures r < n
  {
    if k < n then k else k - n
  }

  lemma WrapIsMod(k: nat, n: nat)
    requires k < 2 * n
    ensures k % n == Wrap(k, n)
  {
    if k >= n {
      assert k == n + (k - n);
      assert k / n == 1;
    }
  }

  /** The `len` bytes of a ring from slot `tail` on. */
  function Ring(slots: seq<byte>, tail: nat, len: nat): (r: seq<byte>)
    requires len <= |slots| && (slots == [] || tail < |slots|)
  {
    seq(len, i requires 0 <= i < len => slots[Wrap(tail + i, |slots|)])
  }

  lemma RingPush(slots: seq<byte>, tail: nat, len: nat, b: byte)
    requires len < |slots| && tail < |slots|
    ensures var head := Wrap(tail + len, |slots|);
            && Ring(slots[head := b], tail, len + 1) == Ring(slots, tail, len) + [b]
            && (head + 1) % |slots| == Wrap(tail + len + 1, |slots|)
  {
    var n := |slots|;
    var head := Wrap(tail + len, n);
    WrapIsMod(head + 1, n);
    var pushed := Ring(slots[head := b], tail, len + 1);
    assert pushed[len] == b;
    forall i | 0 <= i < len
      ensures pushed[i] == Ring(slots, tail, len)[i]
    {
      assert Wrap(tail + i, n) != head;
    }
  }

  lemma RingShift(slots: seq<byte>, tail: nat, len: nat)
    requires 0 < len <= |slots| && tail < |slots|
    ensures var next := (tail + 1) % |slots|;
            && next == Wrap(tail + 1, |slots|)
            && Ring(slots, tail, len) == [slots[tail]] + Ring(slots, next, len - 1)
            && Wrap(tail + len, |slots|) == Wrap(next + (len - 1), |slots|)
  {
    var next := (tail + 1) % |slots|;
    WrapIsMod(tail + 1, |slots|);
    var shifted := [slots[tail]] + Ring(slots, next, len - 1);
    forall i | 0 <= i < len
      ensures Ring(slots, tail, len)[i] == shifted[i]
    {
      assert Wrap(tail + i, |slots|) == if i == 0 then tail else Wrap(next + (i - 1), |slots|);
    }
  }

  /** A value of the signed `int` in which the cursors and the loop counters are kept. */
  type Cursor = x: int | 0 <= x <= INT_MAX

  function Min(a: int, b: int): (r: int)
    ensures r <= a && r <= b && (r == a || r == b)
  {
    if a <= b then a else b
  }

  /** One call on a fifo, as its caller sees it. */
  datatype Call = Putting(data: seq<byte>) | Popping(maxlen: nat)

  datatype Stream = Stream(contents: seq<byte>, accepted: seq<byte>, delivered: seq<byte>)

  /** The bounded stream that the fifo implements. */
  function Perform(size: nat, s: Stream, c: Call): Stream
    requires |s.contents| <= size
  {
    match c
    case Putting(data) =>
      var taken := data[..Min(|data|, size - |s.contents|)];
      s.(contents := s.contents + taken, accepted := s.accepted + taken)
    case Popping(maxlen) =>
      var n := Min(maxlen, |s.contents|);
      s.(contents := s.contents[n..], delivered := s.delivered + s.contents[..n])
  }

  /** A buffer whose first `i` bytes have been replaced by those of a message. */
  function Front(message: seq<byte>, was: seq<byte>, i: nat): seq<byte>
    requires i <= |message| && i <= |was|
  {
    message[..i] + was[i..]
  }

  /** Popping one more byte after `i`. */
  lemma PopOneMore(size: nat, s: Stream, was: seq<byte>, i: nat)
    requires i < |s.contents| <= size && i < |was|
    ensures var t := Perform(size, s, Popping(i));
            && |t.contents| <= size
            && Perform(size, t, Popping(1)) == Perform(size, s, Popping(i + 1))
            && Front(s.contents, was, i)[i := t.contents[0]] == Front(s.contents, was, i + 1)
  {
    var t := Perform(size, s, Popping(i));
    assert t.contents == s.contents[i..] && t.contents[1..] == s.contents[i + 1..];
    assert s.contents[..i] + t.contents[..1] == s.contents[..i + 1] == s.contents[..i] + [s.contents[i]];
    assert s.delivered + s.contents[..i] + t.contents[..1] == s.delivered + s.contents[..i + 1];
  }

  /** What the buffer and the stream hold when no more bytes are popped. */
  lemma PopEnd(size: nat, s: Stream, was: seq<byte>, i: nat, maxlen: nat)
    requires |s.contents| <= size && i == Min(maxlen, |s.contents|) && i <= |was|
    ensures var t := Perform(size, s, Popping(i));
            && t == Perform(size, s, Popping(maxlen))
            && t.contents == s.contents[i..] && t.delivered == s.delivered + s.contents[..i]
    ensures var b := Front(s.contents, was, i);
            |b| == |was| && b[..i] == s.contents[..i] && forall j :: i <= j < |was| ==> b[j] == was[j]
  {
  }

  class Fifo {
    var buffer: array<byte>
    var bufSize: nat
    var head: Cursor
    var tail: Cursor
    var dataLen: nat
    ghost var accepted: seq<byte>  // every byte ever put in
    ghost var delivered: seq<byte> // every byte ever popped

    ghost predicate Shape()
      reads this
    {
      && buffer.Length == bufSize <= UINT_MAX
      && dataLen <= bufSize
      && (if bufSize == 0 then head == tail == 0 else tail < bufSize && head == Wrap(tail + dataLen, bufSize))
    }

    ghost function Contents(): (r: seq<byte>)
      requires Shape()
      reads this, buffer
      ensures |r| == dataLen
    {
      Ring(buffer[..], tail, dataLen)
    }

    /** The stream: what came in is what went out followed by what is inside. */
    ghost predicate Valid()
      reads this, buffer
    {
      && Shape()
      && accepted == delivered + Contents()
      && CanCarry(|accepted|)
      && (bufSize > INT_MAX ==> tail == |delivered|)
    }

    /** A ring longer than INT_MAX takes only INT_MAX bytes over its lifetime, any other ring takes any number. */
    predicate CanCarry(total: nat)
      reads this`bufSize
    {
      bufSize <= INT_MAX || total <= INT_MAX
    }

    ghost function AsStream(): Stream
      requires Shape()
      reads this, buffer
    {
      Stream(Contents(), accepted, delivered)
    }

    constructor (length: nat)
      requires length <= UINT_MAX
      ensures Valid() && fresh(buffer) && bufSize == length && AsStream() == Stream([], [], [])
    {
      buffer := new byte[length](_ => 0);
      bufSize := length;
      head, tail, dataLen := 0, 0, 0;
      accepted, delivered := [], [];
    }

    /** The relation between the two cursors and the fill level, in the terms of the source. */
    lemma HeadFollowsTail()
      requires Valid() && bufSize > 0
      ensures head == (tail + dataLen) % bufSize && head < bufSize && tail < bufSize
    {
      WrapIsMod(tail + dataLen, bufSize);
    }

    /** In a ring longer than INT_MAX a cursor is the number of bytes that ever passed it, because it overflows
        before it could wrap around. */
    lemma LongRingCursors()
      requires Valid() && bufSize > INT_MAX
      ensures tail == |delivered| && head == |accepted|
    {
      assert tail + dataLen < bufSize;
    }

    /** The next increment of the put cursor overflows exactly if the ring is longer than INT_MAX and INT_MAX
        bytes have ever been put. */
    lemma NextPutOverflowsIff()
      requires Valid() && dataLen < bufSize
      ensures head == 0x7fff_ffff <==> bufSize > 0x7fff_ffff && |accepted| == 0x7fff_ffff
    {
      if bufSize > INT_MAX {
        LongRingCursors();
      }
    }

    method PutByte(b: byte)
      requires Valid() && dataLen < bufSize && CanCarry(|accepted| + 1)
      modifies this`head, this`dataLen, this`accepted, buffer
      ensures Valid() && Contents() == old(Contents()) + [b] && accepted == old(accepted) + [b]
    {
      RingPush(buffer[..], tail, dataLen, b);
      buffer[head] := b;
      head := head + 1;
      head := head % bufSize;
      dataLen := dataLen + 1;
      accepted := accepted + [b];
      assert buffer[..] == old(buffer[..])[old(head) := b];
    }

    method PopByte() returns (b: byte)
      requires Valid() && dataLen > 0
      modifies this`tail, this`dataLen, this`delivered
      ensures Valid() && [b] + Contents() == old(Contents()) && delivered == old(delivered) + [b]
    {
      b := buffer[tail];
      RingShift(buffer[..], tail, dataLen);
      tail := tail + 1;
      dataLen := dataLen - 1;
      tail := tail % bufSize;
      delivered := delivered + [b];
    }

    /** Delivers the oldest byte into slot `i` of a buffer. */
    method PopInto(buf: array<byte>, i: Cursor)
      requires Valid() && dataLen > 0 && buf != buffer && i < buf.Length
      modifies this`tail, this`dataLen, this`delivered, buf
      ensures Valid() && AsStream() == Perform(bufSize, old(AsStream()), Popping(1))
      ensures buf[..] == old(buf[..])[i := old(Contents())[0]]
    {
      ghost var was := Contents();
      var b := PopByte();
      assert was[0] == b && was[..1] == [b] && was[1..] == Contents();
      buf[i] := b;
    }

    /** The `i`-th pop of a call that began with the given stream and buffer. */
    method PopNext(buf: array<byte>, i: Cursor, ghost start: Stream, ghost was: seq<byte>)
      requires Valid() && dataLen > 0 && buf != buffer && i < buf.Length == |was| && i <= |start.contents| <= bufSize
      requires AsStream() == Perform(bufSize, start, Popping(i)) && buf[..] == Front(start.contents, was, i)
      modifies this`tail, this`dataLen, this`delivered, buf
      ensures Valid() && i < |start.contents|
      ensures AsStream() == Perform(bufSize, start, Popping(i + 1)) && buf[..] == Front(start.contents, was, i + 1)
    {
      PopOneMore(bufSize, start, was, i);
      PopInto(buf, i);
    }

    /** Takes as many of the bytes as there is room for, from the front. */
    method Put(data: seq<byte>) returns (i: Cursor)
      requires Valid() && CanCarry(|accepted| + Min(|data|, bufSize - |Contents()|))
      modifies this, buffer
      ensures Valid() && buffer == old(buffer) && bufSize == old(bufSize)
      ensures i == Min(|data|, bufSize - |old(Contents())|)
      ensures AsStream() == Perform(bufSize, old(AsStream()), Putting(data))
      ensures Contents() == old(Contents()) + data[..i] && accepted == old(accepted) + data[..i]
      ensures delivered == old(delivered)
    {
      i := 0;
      while i < |data|
        invariant 0 <= i <= |data| && Valid()
        invariant buffer == old(buffer) && bufSize == old(bufSize) && delivered == old(delivered)
        invariant Contents() == old(Contents()) + data[..i] && accepted == old(accepted) + data[..i]
      {
        if dataLen == bufSize {
          break;
        }
        PutByte(data[i]);
        assert data[..i + 1] == data[..i] + [data[i]];
        i := i + 1;
      }
    }

    /** Delivers the oldest bytes, at most `maxlen`. */
    method Pop(buf: array<byte>, maxlen: nat) returns (i: Cursor)
      requires Valid() && buf != buffer
      requires Min(maxlen, |Contents()|) <= buf.Length
      modifies this, buf
      ensures Valid() && buffer == old(buffer) && bufSize == old(bufSize)
      ensures i == Min(maxlen, |old(Contents())|) && buf[..i] == old(Contents())[..i]
      ensures AsStream() == Perform(bufSize, old(AsStream()), Popping(maxlen))
      ensures Contents() == old(Contents())[i..] && delivered == old(delivered) + old(Contents())[..i]
      ensures forall j :: i <= j < buf.Length ==> buf[j] == old(buf[j])
    {
      i := 0;
      ghost var start, was := AsStream(), buf[..];
      while i < maxlen
        invariant i <= maxlen && i <= buf.Length && i <= |start.contents| && Valid()
        invariant buffer == old(buffer) && bufSize == old(bufSize)
        invariant AsStream() == Perform(bufSize, start, Popping(i)) && buf[..] == Front(start.contents, was, i)
      {
        if dataLen == 0 {
          break;
        }
        PopNext(buf, i, start, was);
        i := i + 1;
      }
      PopEnd(bufSize, start, was, i, maxlen);
      assert buf[..i] == buf[..][..i];
    }
  }

  /** 1, 0, or -1 without a fifo. A fifo of size zero is full and empty at once. */
  method IsFull(f: Fifo?) returns (ret: int)
    requires f != null ==> f.Valid()
    ensures ret == if f == null then -1 else if |f.Contents()| == f.bufSize then 1 else 0
  {
    ret := -1;
    if f != null {
      ret := if f.dataLen == f.bufSize then 1 else 0;
    }
  }

  method IsEmpty(f: Fifo?) returns (ret: int)
    requires f != null ==> f.Valid()
    ensures ret == if f == null then -1 else if f.Contents() == [] then 1 else 0
  {
    ret := -1;
    if f != null {
      ret := if f.dataLen == 0 then 1 else 0;
    }
  }

  method InitDataFifo(length: nat, gotMemory: bool) returns (ret: int, f: Fifo?)
    requires length <= UINT_MAX
    ensures ret == (if gotMemory then 0 else -1) && (f == null <==> ret == -1)
    ensures f != null ==> fresh(f) && f.Valid() && f.bufSize == length && f.Contents() == []
  {
    if !gotMemory {
      return -1, null;
    }
    f := new Fifo(length);
    ret := 0;
  }

  /** The stream after the first `n` calls. */
  function PerformAll(size: nat, calls: seq<Call>, n: nat): (r: Stream)
    requires n <= |calls|
    ensures |r.contents| <= size
  {
    if n == 0 then Stream([], [], []) else Perform(size, PerformAll(size, calls, n - 1), calls[n - 1])
  }

  /** One put brings a ring one byte longer than INT_MAX to that point, with room for one more byte. */
  lemma LongRingFills()
    ensures var s := PerformAll(INT_MAX + 1, [Putting(Fill(0, INT_MAX))], 1);
            |s.accepted| == INT_MAX && |s.contents| == INT_MAX
  {
    var calls := [Putting(Fill(0, INT_MAX))];
    assert PerformAll(INT_MAX + 1, calls, 1) == Perform(INT_MAX + 1, PerformAll(INT_MAX + 1, calls, 0), calls[0]);
  }

  /** How full the ring is after a sequence of calls, by the lengths alone. */
  function Level(size: nat, calls: seq<Call>, n: nat): (r: nat)
    requires n <= |calls|
    ensures r <= size
  {
    if n == 0 then 0
    else
      var before := Level(size, calls, n - 1);
      match calls[n - 1]
      case Putting(data) => if before + |data| <= size then before + |data| else size
      case Popping(maxlen) => if maxlen <= before then before - maxlen else 0
  }

  /** Put by put, the front of the data, as long as the room there was. */
  function Taken(size: nat, calls: seq<Call>, n: nat): seq<byte>
    requires n <= |calls|
  {
    if n == 0 then []
    else if calls[n - 1].Popping? then Taken(size, calls, n - 1)
    else
      var data, room := calls[n - 1].data, size - Level(size, calls, n - 1);
      Taken(size, calls, n - 1) + if |data| <= room then data else data[..room]
  }

  /** The bytes taken are those delivered followed by those inside, which are the last `level`. */
  predicate Holds(s: Stream, taken: seq<byte>, level: nat)
  {
    s.accepted == taken && s.delivered + s.contents == taken && |s.contents| == level
  }

  lemma PutHolds(size: nat, s: Stream, taken: seq<byte>, level: nat, data: seq<byte>, n: nat)
    requires Holds(s, taken, level) && level <= size && n == Min(|data|, size - level)
    ensures Holds(Perform(size, s, Putting(data)), taken + data[..n], level + n)
  {
    assert s.delivered + (s.contents + data[..n]) == s.delivered + s.contents + data[..n];
  }

  lemma PopHolds(size: nat, s: Stream, taken: seq<byte>, level: nat, maxlen: nat)
    requires Holds(s, taken, level) && level <= size
    ensures Holds(Perform(size, s, Popping(maxlen)), taken, level - Min(maxlen, level))
  {
    var n, c := Min(maxlen, level), s.contents;
    assert c == c[..n] + c[n..];
    assert s.delivered + c[..n] + c[n..] == s.delivered + (c[..n] + c[n..]);
  }

  /** Which bytes any sequence of calls accepts and delivers: what is accepted is, put by put, the front of the data
      passed; all of it but what the level says is still inside has been delivered, in order. */
  lemma {:induction false} StreamIsExact(size: nat, calls: seq<Call>, n: nat)
    requires n <= |calls|
    ensures Holds(PerformAll(size, calls, n), Taken(size, calls, n), Level(size, calls, n))
  {
    if n > 0 {
      StreamIsExact(size, calls, n - 1);
      CallHolds(size, calls, n);
    }
  }

  /** One call in the terms of lengths and bytes taken. */
  lemma CallIs(size: nat, calls: seq<Call>, n: nat)
    requires 0 < n <= |calls|
    ensures var s, taken, level := PerformAll(size, calls, n - 1), Taken(size, calls, n - 1), Level(size, calls, n - 1);
            && PerformAll(size, calls, n) == Perform(size, s, calls[n - 1])
            && match calls[n - 1]
               case Putting(data) =>
                 var k := Min(|data|, size - level);
                 k >= 0 && Taken(size, calls, n) == taken + data[..k] && Level(size, calls, n) == level + k
               case Popping(maxlen) =>
                 Taken(size, calls, n) == taken && Level(size, calls, n) == level - Min(maxlen, level)
  {
  }

  lemma CallHolds(size: nat, calls: seq<Call>, n: nat)
    requires 0 < n <= |calls|
    requires Holds(PerformAll(size, calls, n - 1), Taken(size, calls, n - 1), Level(size, calls, n - 1))
    ensures Holds(PerformAll(size, calls, n), Taken(size, calls, n), Level(size, calls, n))
  {
    var s, taken, level := PerformAll(size, calls, n - 1), Taken(size, calls, n - 1), Level(size, calls, n - 1);
    CallIs(size, calls, n);
    match calls[n - 1] {
      case Putting(data) => PutHolds(size, s, taken, level, data, Min(|data|, size - level));
      case Popping(maxlen) => PopHolds(size, s, taken, level, maxlen);
    }
  }

  /** Bytes leave in the order in which they were accepted, and none is lost, duplicated or invented. */
  lemma NothingLost(size: nat, calls: seq<Call>, n: nat)
    requires n <= |calls|
    ensures var s := PerformAll(size, calls, n); s.accepted == s.delivered + s.contents
  {
    StreamIsExact(size, calls, n);
  }
}

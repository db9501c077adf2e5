/** Collecting one UART message from a run of short reads. */
module ChunkedRead {
  import opened Bytes

  /** The results of successive `read` calls; an empty result stands for every non-positive return value, and
      after the last listed call nothing more arrives. */
  type Reads = seq<seq<byte>>

  function Concat(chunks: Reads): seq<byte>
  {
    if chunks == [] then [] else Concat(chunks[..|chunks| - 1]) + chunks[|chunks| - 1]
  }

  /** Every read stands whole in the concatenation, behind the reads before it and in front of those after it. */
  lemma {:induction false} ConcatHolds(chunks: Reads, k: nat)
    requires k < |chunks|
    ensures Concat([]) == []
    ensures Concat(chunks) == Concat(chunks[..k]) + chunks[k] + Concat(chunks[k + 1..])
  {
    var init, last := chunks[..|chunks| - 1], chunks[|chunks| - 1];
    if k < |init| {
      ConcatHolds(init, k);
      assert init[..k] == chunks[..k];
      assert chunks[k + 1..][..|chunks| - k - 2] == init[k + 1..];
    }
  }

  /** The first `k` reads all brought data, and together less than `count` bytes. */
  predicate Fits(arrivals: Reads, count: nat, k: nat)
  {
    && k <= |arrivals|
    && (forall i :: 0 <= i < k ==> arrivals[i] != [])
    && (k > 0 ==> |Concat(arrivals[..k])| < count)
  }

  predicate LongestFit(arrivals: Reads, count: nat, k: nat)
  {
    Fits(arrivals, count, k) && !Fits(arrivals, count, k + 1)
  }

  lemma {:induction false} ConcatGrows(arrivals: Reads, j: nat, k: nat)
    requires j <= k <= |arrivals|
    ensures Concat(arrivals[..j]) <= Concat(arrivals[..k])
    decreases k
  {
    if j < k {
      assert arrivals[..k][..k - 1] == arrivals[..k - 1];
      ConcatGrows(arrivals, j, k - 1);
    }
  }

  /** A prefix that stops fitting never fits again, so the longest fitting prefix is unique. */
  lemma LongestFitIsLongest(arrivals: Reads, count: nat, k: nat, j: nat)
    requires LongestFit(arrivals, count, k)
    ensures Fits(arrivals, count, j) <==> j <= k
  {
    if j <= k {
      ConcatGrows(arrivals, j, k);
    } else if Fits(arrivals, count, j) {
      ConcatGrows(arrivals, k + 1, j);
    }
  }

  ghost function LongestFrom(arrivals: Reads, count: nat, k: nat): (r: nat)
    requires Fits(arrivals, count, k)
    ensures LongestFit(arrivals, count, r)
    decreases |arrivals| - k
  {
    if Fits(arrivals, count, k + 1) then LongestFrom(arrivals, count, k + 1) else k
  }

  /** How many reads `whole_read` keeps, and the bytes it delivers. */
  ghost function KeptReads(arrivals: Reads, count: nat): (r: nat)
    ensures LongestFit(arrivals, count, r)
  {
    LongestFrom(arrivals, count, 0)
  }

  ghost function Kept(arrivals: Reads, count: nat): seq<byte>
  {
    Concat(arrivals[..KeptReads(arrivals, count)])
  }

  /** The bytes taken from the descriptor: the kept reads and the one that ended the loop. */
  ghost function Consumed(arrivals: Reads, count: nat): seq<byte>
  {
    var k := KeptReads(arrivals, count);
    Concat(if k < |arrivals| then arrivals[..k + 1] else arrivals)
  }

  /** No byte read is lost exactly if all bytes read stay below the limit; else the last read is lost whole. */
  lemma NothingLostIff(arrivals: Reads, count: nat)
    ensures Consumed(arrivals, count) == Kept(arrivals, count)
            <==> Consumed(arrivals, count) == [] || |Consumed(arrivals, count)| < count
  {
    var k := KeptReads(arrivals, count);
    KeptIsShort(arrivals, count);
    if k < |arrivals| {
      assert arrivals[..k + 1][..k] == arrivals[..k];
      assert Consumed(arrivals, count) == Kept(arrivals, count) + arrivals[k];
      assert k + 1 > 0 && !Fits(arrivals, count, k + 1);
      assert arrivals[k] != [] ==> |Consumed(arrivals, count)| >= count;
    } else {
      assert arrivals[..k] == arrivals;
    }
  }

  /** A first read that reaches the limit is lost whole. */
  lemma FirstReadLost(chunk: seq<byte>, count: nat)
    requires 0 < count <= |chunk|
    ensures Kept([chunk], count) == [] && Consumed([chunk], count) == chunk
  {
    assert [chunk][..0] == [] && [chunk][..1] == [chunk];
    assert Concat([chunk]) == Concat([]) + chunk;
    assert !Fits([chunk], count, 1);
    LongestFitIsLongest([chunk], count, KeptReads([chunk], count), 1);
  }

  /** The result never fills the buffer, except for the empty result into an empty buffer. */
  lemma KeptIsShort(arrivals: Reads, count: nat)
    ensures count > 0 ==> |Kept(arrivals, count)| < count
  {
    assert Concat(arrivals[..0]) == [];
  }

  /** `calls` counts the reads issued: those kept and the one that ended the loop, whose bytes, if any, are lost. */
  method WholeRead(arrivals: Reads, buf: array<byte>, count: nat) returns (c: nat, calls: nat)
    requires count <= buf.Length
    modifies buf
    ensures c <= buf.Length && buf[..c] == Kept(arrivals, count)
    ensures forall i :: c <= i < buf.Length ==> buf[i] == old(buf[i])
    ensures calls == KeptReads(arrivals, count) + 1
    ensures count > 0 ==> c < count
  {
    c, calls := 0, 0;
    while true
      invariant calls <= |arrivals| && Fits(arrivals, count, calls)
      invariant c <= buf.Length && buf[..c] == Concat(arrivals[..calls])
      invariant forall i :: c <= i < buf.Length ==> buf[i] == old(buf[i])
      decreases |arrivals| - calls
    {
      var chunk := if calls < |arrivals| then arrivals[calls] else [];
      assert calls < |arrivals| ==> arrivals[..calls + 1][..calls] == arrivals[..calls];
      if |chunk| > 0 {
        if c + |chunk| >= count {
          break;
        }
        CopyAt(buf, c, chunk);
        c := c + |chunk|;
        calls := calls + 1;
      } else {
        break;
      }
    }
    LongestFitIsLongest(arrivals, count, KeptReads(arrivals, count), calls);
    LongestFitIsLongest(arrivals, count, KeptReads(arrivals, count), calls + 1);
    calls := calls + 1;
    KeptIsShort(arrivals, count);
  }
}

/** Bytes, machine limits and the scans shared by the modules. */
module Bytes {
  newtype byte = x: int | 0 <= x < 256

  const INT_MAX: int := 0x7fff_ffff
  const UINT_MAX: int := 0xffff_ffff

  /** `memcpy` to position `c` of a buffer. */
  method CopyAt(buf: array<byte>, c: nat, chunk: seq<byte>)
    requires c + |chunk| <= buf.Length
    modifies buf
    ensures buf[..c + |chunk|] == old(buf[..c]) + chunk
    ensures forall i :: c + |chunk| <= i < buf.Length ==> buf[i] == old(buf[i])
    ensures buf[c + |chunk|..] == old(buf[c + |chunk|..])
  {
    forall i | 0 <= i < |chunk| {
      buf[c + i] := chunk[i];
    }
  }

  function Fill(b: byte, n: nat): (r: seq<byte>)
    ensures |r| == n && forall i :: 0 <= i < n ==> r[i] == b
  {
    seq(n, _ => b)
  }

  /** The first place of `b` from position `from` on, or the end. */
  function Find(s: seq<byte>, b: byte, from: nat): (r: nat)
    requires from <= |s|
    ensures from <= r <= |s| && (r < |s| ==> s[r] == b) && forall i :: from <= i < r ==> s[i] != b
    decreases |s| - from
  {
    if from == |s| || s[from] == b then from else Find(s, b, from + 1)
  }

  lemma FindStopsAt(s: seq<byte>, b: byte, from: nat, k: nat)
    requires from <= k < |s| && s[k] == b && forall i :: from <= i < k ==> s[i] != b
    ensures Find(s, b, from) == k
  {
    var r := Find(s, b, from);
    assert r < |s| ==> s[r] == b;
  }
}

module Wrappers {
  datatype Option<+T> = None | Some(value: T)
}

/** Strings that end at a zero byte, and their bounded comparison. */
module CStrings {
  import opened Bytes

  predicate NoZero(s: seq<byte>)
  {
    forall i :: 0 <= i < |s| ==> s[i] != 0
  }

  /** The byte at `i` of a string followed by zero bytes. */
  function At(s: seq<byte>, i: nat): byte
  {
    if i < |s| then s[i] else 0
  }

  /** `strncmp(a, b, n) == 0`, compared from position `i` on. */
  predicate StrnEqual(a: seq<byte>, b: seq<byte>, n: nat, i: nat)
    decreases n - i
  {
    i >= n || (At(a, i) == At(b, i) && (At(a, i) == 0 || StrnEqual(a, b, n, i + 1)))
  }

  lemma {:induction false} StrnEqualAgrees(a: seq<byte>, b: seq<byte>, i: nat)
    requires NoZero(a) && StrnEqual(a, b, |a|, i)
    ensures forall j :: i <= j < |a| ==> a[j] == At(b, j)
    decreases |a| - i
  {
    if i < |a| {
      StrnEqualAgrees(a, b, i + 1);
    }
  }

  lemma {:induction false} PrefixIsStrnEqual(a: seq<byte>, b: seq<byte>, i: nat)
    requires a <= b
    ensures StrnEqual(a, b, |a|, i)
    decreases |a| - i
  {
    if i < |a| {
      PrefixIsStrnEqual(a, b, i + 1);
    }
  }
}

/** Text as bytes, and decimal numbers in it. */
module Text {
  import opened Bytes

  function Ascii(s: string): (r: seq<byte>)
    ensures |r| == |s|
    ensures forall i :: 0 <= i < |s| ==> r[i] == (s[i] as int % 256) as byte
  {
    seq(|s|, i requires 0 <= i < |s| => (s[i] as int % 256) as byte)
  }

  predicate IsDigit(b: byte)
  {
    48 <= b <= 57
  }

  predicate AllDigits(s: seq<byte>)
  {
    forall i :: 0 <= i < |s| ==> IsDigit(s[i])
  }

  /** `%d` of a non-negative number. */
  function Decimal(n: nat): (r: seq<byte>)
    ensures r != [] && AllDigits(r)
  {
    var last := [(48 + n % 10) as byte];
    if n < 10 then last else Decimal(n / 10) + last
  }

  /** A text moved to the right in a field of at least `width` bytes. */
  function PadLeft(s: seq<byte>, width: nat, b: byte): seq<byte>
  {
    if |s| < width then Fill(b, width - |s|) + s else s
  }

  /** The number written by a run of digits. */
  function ParseDecimal(s: seq<byte>): (r: nat)
    requires AllDigits(s)
  {
    if s == [] then 0
    else ParseDecimal(s[..|s| - 1]) * 10 + (s[|s| - 1] as int - 48)
  }

  lemma {:induction false} DecimalRoundTrip(n: nat)
    ensures ParseDecimal(Decimal(n)) == n
  {
    var s := Decimal(n);
    if n < 10 {
      assert s[..|s| - 1] == [];
    } else {
      DecimalRoundTrip(n / 10);
      assert s[..|s| - 1] == Decimal(n / 10);
    }
  }

  function Power10(k: nat): nat
  {
    if k == 0 then 1 else 10 * Power10(k - 1)
  }

  lemma {:induction false} DecimalLength(n: nat, k: nat)
    requires k > 0
    ensures |Decimal(n)| <= k <==> n < Power10(k)
  {
    if n >= 10 && k > 1 {
      DecimalLength(n / 10, k - 1);
    } else if n < 10 {
      PowerGrows(k);
    }
  }

  lemma {:induction false} PowerGrows(k: nat)
    requires k > 0
    ensures Power10(k) >= 10
  {
    if k > 1 {
      PowerGrows(k - 1);
    }
  }

  /** Up to two digits, as `%02d` writes them. */
  function TwoDigits(n: nat): seq<byte>
  {
    PadLeft(Decimal(n), 2, 48)
  }

  lemma TwoDigitsRoundTrip(n: nat)
    requires n < 100
    ensures |TwoDigits(n)| == 2 && AllDigits(TwoDigits(n)) && ParseDecimal(TwoDigits(n)) == n
  {
    var s := TwoDigits(n);
    if n >= 10 {
      assert Decimal(n) == Decimal(n / 10) + [(48 + n % 10) as byte];
    }
    assert s == [(48 + n / 10) as byte, (48 + n % 10) as byte];
    assert s[..1][..0] == [];
    assert ParseDecimal(s[..1]) == n / 10;
  }
}

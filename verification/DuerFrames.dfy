/** The frames sent to the dueros process: a type, then arguments, each followed by a delimiter of which the
    last is replaced by a terminator. */
module DuerFrames {
  import opened Bytes
  import opened CStrings
  import opened Wrappers

  newtype int32 = x: int | -0x8000_0000 <= x < 0x8000_0000

  const DELIMITER: byte := 96
  const TERMINATOR: byte := 10
  const PERCENT: byte := 37
  const BUTTON: int32 := 0
  const URL: int32 := 1
  const BUTTON_BUFSIZE: nat := 64
  const URL_BUFSIZE: nat := 1024

  /** The memory image of an `int` on a little-endian machine. */
  function IntBytes(v: int32): (r: seq<byte>)
    ensures |r| == 4
  {
    var u := if v < 0 then v as int + 0x1_0000_0000 else v as int;
    var u1 := u / 0x100;
    var u2 := u1 / 0x100;
    var u3 := u2 / 0x100;
    [(u % 0x100) as byte, (u1 % 0x100) as byte, (u2 % 0x100) as byte, u3 as byte]
  }

  function BytesInt(s: seq<byte>): int32
    requires |s| == 4
  {
    var u := s[0] as int + 0x100 * (s[1] as int + 0x100 * (s[2] as int + 0x100 * s[3] as int));
    if u >= 0x8000_0000 then (u - 0x1_0000_0000) as int32 else u as int32
  }

  /** The value of four bytes, lowest first, at position `i`. */
  function ValueAt(s: seq<byte>, i: nat): int
    requires i + 4 <= |s|
  {
    s[i] as int + 0x100 * s[i + 1] as int + 0x1_0000 * s[i + 2] as int + 0x100_0000 * s[i + 3] as int
  }

  lemma IntBytesValue(v: int32)
    ensures ValueAt(IntBytes(v), 0) == if v < 0 then v as int + 0x1_0000_0000 else v as int
  {
    var u := if v < 0 then v as int + 0x1_0000_0000 else v as int;
    var u1 := u / 0x100;
    var u2 := u1 / 0x100;
    assert u == 0x100 * u1 + u % 0x100;
    assert u1 == 0x100 * u2 + u1 % 0x100;
    assert u2 == 0x100 * (u2 / 0x100) + u2 % 0x100;
  }

  lemma IntRoundTrip(v: int32)
    ensures BytesInt(IntBytes(v)) == v
  {
    var u := if v < 0 then v as int + 0x1_0000_0000 else v as int;
    var u1 := u / 0x100;
    var u2 := u1 / 0x100;
    assert u == 0x100 * u1 + u % 0x100;
    assert u1 == 0x100 * u2 + u1 % 0x100;
    assert u2 == 0x100 * (u2 / 0x100) + u2 % 0x100;
  }

  /** The first `n` integers, each followed by a delimiter. */
  function Fields(vs: seq<int32>, n: nat): (r: seq<byte>)
    requires n <= |vs|
    ensures |r| == 5 * n
  {
    if n == 0 then [] else Fields(vs, n - 1) + IntBytes(vs[n - 1]) + [DELIMITER]
  }

  /** The frame before its terminator, when the first `n` integers have been written. */
  function OpenedButton(args: seq<int32>, n: nat): (r: seq<byte>)
    requires n <= |args|
    ensures |r| == 5 * n + 5
  {
    IntBytes(BUTTON) + [DELIMITER] + Fields(args, n)
  }

  function ButtonFrame(args: seq<int32>): (r: seq<byte>)
    ensures |r| == 5 * |args| + 5
  {
    OpenedButton(args, |args|)[..5 * |args| + 4] + [TERMINATOR]
  }

  /** The integer in the `k`-th five-byte field. */
  function FieldAt(frame: seq<byte>, k: nat): int32
    requires 5 * k + 4 <= |frame|
  {
    BytesInt(frame[5 * k..5 * k + 4])
  }

  /** A fixed-width reader, which never looks for delimiters among the bytes of the integers. */
  function DecodeButton(frame: seq<byte>): Option<seq<int32>>
  {
    if |frame| < 10 || |frame| % 5 != 0 || frame[|frame| - 1] != TERMINATOR || FieldAt(frame, 0) != BUTTON
       || exists k | 0 <= k < |frame| / 5 - 1 :: frame[5 * k + 4] != DELIMITER
    then None
    else Some(seq(|frame| / 5 - 1, k requires 0 <= k < |frame| / 5 - 1 => FieldAt(frame, k + 1)))
  }

  lemma {:induction false} FieldsAt(vs: seq<int32>, n: nat, k: nat)
    requires k < n <= |vs|
    ensures Fields(vs, n)[5 * k..5 * k + 4] == IntBytes(vs[k]) && Fields(vs, n)[5 * k + 4] == DELIMITER
  {
    if k < n - 1 {
      FieldsAt(vs, n - 1, k);
      assert Fields(vs, n)[5 * k..5 * k + 4] == Fields(vs, n - 1)[5 * k..5 * k + 4];
    } else {
      assert Fields(vs, n)[5 * k..5 * k + 4] == IntBytes(vs[k]);
    }
  }

  lemma HeaderAt(header: seq<byte>, tail: seq<byte>)
    requires |header| == 4
    ensures (header + [DELIMITER] + tail)[0..4] == header && (header + [DELIMITER] + tail)[4] == DELIMITER
  {
  }

  /** Four bytes of the fields, found in a frame behind its header. */
  lemma FrameAt(header: seq<byte>, fields: seq<byte>, j: nat)
    requires |header| == 4 && j + 5 <= |fields|
    ensures var frame := (header + [DELIMITER] + fields)[..|fields| + 4] + [TERMINATOR];
            && frame[j + 5..j + 9] == fields[j..j + 4]
            && (j + 5 < |fields| ==> frame[j + 9] == fields[j + 4])
  {
  }

  lemma ButtonFrameAt(args: seq<int32>, k: nat)
    requires k < |args|
    ensures FieldAt(ButtonFrame(args), k + 1) == args[k]
    ensures k < |args| - 1 ==> ButtonFrame(args)[5 * (k + 1) + 4] == DELIMITER
  {
    FieldsAt(args, |args|, k);
    IntRoundTrip(args[k]);
    FrameAt(IntBytes(BUTTON), Fields(args, |args|), 5 * k);
  }

  /** Reading back a button frame recovers every integer, whatever bytes it is made of. */
  lemma ButtonRoundTrip(args: seq<int32>)
    requires args != []
    ensures DecodeButton(ButtonFrame(args)) == Some(args)
  {
    var frame := ButtonFrame(args);
    IntRoundTrip(BUTTON);
    HeaderAt(IntBytes(BUTTON), Fields(args, |args|));
    assert frame[0..4] == OpenedButton(args, |args|)[0..4] && frame[4] == DELIMITER;
    forall k | 0 <= k < |args|
      ensures FieldAt(frame, k + 1) == args[k]
    {
      ButtonFrameAt(args, k);
    }
    forall k | 0 <= k < |args|
      ensures frame[5 * k + 4] == DELIMITER
    {
      if k > 0 {
        ButtonFrameAt(args, k - 1);
      }
    }
    assert DecodeButton(frame).value == args;
  }

  /** A button frame byte by byte: the type 0, then every integer, lowest byte first, with '`' between and a newline
      behind. */
  lemma ButtonFrameBytes(args: seq<int32>, k: nat)
    requires k < |args|
    ensures var f, i := ButtonFrame(args), 5 * k + 5;
            && |f| == 5 * |args| + 5 && f[..5] == [0, 0, 0, 0, 96]
            && ValueAt(f, i) == (if args[k] < 0 then args[k] as int + 0x1_0000_0000 else args[k] as int)
            && f[i + 4] == if k < |args| - 1 then 96 else 10
  {
    var f, i := ButtonFrame(args), 5 * k + 5;
    ButtonHeader(args);
    ButtonFrameAt(args, k);
    FieldsAt(args, |args|, k);
    FrameAt(IntBytes(BUTTON), Fields(args, |args|), 5 * k);
    IntBytesValue(args[k]);
    ValueOfSlice(f, i);
  }

  lemma ValueOfSlice(s: seq<byte>, i: nat)
    requires i + 4 <= |s|
    ensures ValueAt(s[i..i + 4], 0) == ValueAt(s, i)
  {
  }

  lemma ButtonHeader(args: seq<int32>)
    requires args != []
    ensures ButtonFrame(args)[..5] == [0, 0, 0, 0, 96]
  {
    assert IntBytes(BUTTON) == [0, 0, 0, 0];
    assert OpenedButton(args, |args|)[..5] == [0, 0, 0, 0, 96];
  }

  function Max(a: int, b: int): (r: int)
    ensures r >= a && r >= b && (r == a || r == b)
  {
    if a >= b then a else b
  }

  /** Writes a value and the delimiter behind it, and moves the cursor past both. */
  method PutField(dest: array<byte>, i: nat, bytes: seq<byte>) returns (next: nat)
    requires i + |bytes| < dest.Length
    modifies dest
    ensures next == i + |bytes| + 1
    ensures dest[..next] == old(dest[..i]) + bytes + [DELIMITER]
    ensures forall j :: next <= j < dest.Length ==> dest[j] == old(dest[j])
  {
    CopyAt(dest, i, bytes);
    next := i + |bytes|;
    dest[next] := DELIMITER;
    next := next + 1;
  }

  /** The last delimiter becomes the terminator. */
  method Terminate(dest: array<byte>, i: nat)
    requires 0 < i <= dest.Length
    modifies dest
    ensures dest[..i] == old(dest[..])[..i - 1] + [TERMINATOR]
  {
    dest[i - 1] := TERMINATOR;
  }

  lemma ButtonEnd(buf: seq<byte>, i: nat, args: seq<int32>)
    requires 0 < i <= |buf| && buf[..i] == OpenedButton(args, |args|)
    ensures buf[..i - 1] + [TERMINATOR] == ButtonFrame(args)
  {
    assert buf[..i - 1] == buf[..i][..i - 1];
  }

  /** `args` are the integers passed, the first one always used; `sum` says how many there are. */
  method FormatDuerButtonData(sum: int, args: seq<int32>, gotMemory: bool) returns (dest: array?<byte>, len: nat)
    requires 1 <= |args| && sum <= |args|
    requires 5 + 5 * Max(sum, 1) <= 64
    ensures dest == null <==> !gotMemory
    ensures dest != null ==>
              && dest.Length == 64 && len == 5 + 5 * Max(sum, 1)
              && dest[..len] == ButtonFrame(args[..Max(sum, 1)])
              && DecodeButton(dest[..len]) == Some(args[..Max(sum, 1)])
  {
    if !gotMemory {
      return null, 0;
    }
    dest := new byte[BUTTON_BUFSIZE](_ => 0);
    ghost var used := args[..Max(sum, 1)];
    var i := PutField(dest, 0, IntBytes(BUTTON));
    i := PutField(dest, i, IntBytes(args[0]));
    var argno := 1;
    while argno < sum
      invariant 1 <= argno <= |used| && i == 5 + 5 * argno && dest[..i] == OpenedButton(used, argno)
    {
      var para := args[argno];
      i := PutField(dest, i, IntBytes(para));
      argno := argno + 1;
    }
    assert dest[..i] == dest[..][..i];
    ButtonEnd(dest[..], i, used);
    Terminate(dest, i);
    len := i;
    ButtonRoundTrip(used);
  }

  /** The arguments separated by delimiters. */
  function Join(args: seq<seq<byte>>): seq<byte>
    requires args != []
  {
    if |args| == 1 then args[0] else args[0] + [DELIMITER] + Join(args[1..])
  }

  function StringFrame(args: seq<seq<byte>>): seq<byte>
    requires args != []
  {
    IntBytes(URL) + [DELIMITER] + Join(args) + [TERMINATOR]
  }

  /** A string frame byte by byte: the type 1, then the arguments and a newline behind. */
  lemma StringFrameBytes(args: seq<seq<byte>>)
    requires args != []
    ensures StringFrame(args) == [1, 0, 0, 0, 96] + Join(args) + [10]
  {
    assert IntBytes(URL) == [1, 0, 0, 0];
    assert [1, 0, 0, 0] + [DELIMITER] == [1, 0, 0, 0, 96];
  }

  /** A '`' stands between two arguments and nowhere else. */
  lemma JoinMeans(args: seq<seq<byte>>)
    requires args != []
    ensures if |args| == 1 then Join(args) == args[0] else Join(args) == args[0] + [96] + Join(args[1..])
  {
  }

  function Split(s: seq<byte>): (r: seq<seq<byte>>)
    ensures r != []
    decreases |s|
  {
    var k := Find(s, DELIMITER, 0);
    if k == |s| then [s] else [s[..k]] + Split(s[k + 1..])
  }

  /** A reader of one string frame at the front of a byte stream: up to the first terminator, split at the
      delimiters. It yields the arguments and the number of bytes used. */
  function DecodeString(s: seq<byte>): Option<(seq<seq<byte>>, nat)>
  {
    if |s| < 5 || BytesInt(s[..4]) != URL || s[4] != DELIMITER then None
    else
      var end := Find(s, TERMINATOR, 5);
      if end == |s| then None else Some((Split(s[5..end]), end + 1))
  }

  /** Free of the two bytes that structure a frame. */
  predicate Clean(s: seq<byte>)
  {
    forall i :: 0 <= i < |s| ==> s[i] != DELIMITER && s[i] != TERMINATOR
  }

  predicate AllClean(args: seq<seq<byte>>)
  {
    forall i :: 0 <= i < |args| ==> Clean(args[i])
  }

  lemma SplitFirst(a: seq<byte>, rest: seq<byte>)
    requires Clean(a)
    ensures Split(a + [DELIMITER] + rest) == [a] + Split(rest)
  {
    var s := a + [DELIMITER] + rest;
    FindStopsAt(s, DELIMITER, 0, |a|);
    assert s[..|a|] == a && s[|a| + 1..] == rest;
  }

  lemma {:induction false} SplitJoin(args: seq<seq<byte>>)
    requires args != [] && AllClean(args)
    ensures Split(Join(args)) == args
  {
    if |args| == 1 {
      assert Find(args[0], DELIMITER, 0) == |args[0]|;
    } else {
      SplitJoin(args[1..]);
      SplitFirst(args[0], Join(args[1..]));
    }
  }

  lemma {:induction false} JoinHasNoTerminator(args: seq<seq<byte>>)
    requires args != [] && AllClean(args)
    ensures forall i :: 0 <= i < |Join(args)| ==> Join(args)[i] != TERMINATOR
  {
    if |args| > 1 {
      JoinHasNoTerminator(args[1..]);
    }
  }

  lemma {:induction false} SplitIsClean(s: seq<byte>)
    requires forall i :: 0 <= i < |s| ==> s[i] != TERMINATOR
    ensures AllClean(Split(s))
    decreases |s|
  {
    var k := Find(s, DELIMITER, 0);
    if k < |s| {
      SplitIsClean(s[k + 1..]);
    }
  }

  /** Reading a string frame back from a stream recovers its arguments and its length exactly if no argument
      contains a delimiter or a terminator. */
  lemma StringRoundTripIff(args: seq<seq<byte>>, rest: seq<byte>)
    requires args != []
    ensures DecodeString(StringFrame(args) + rest) == Some((args, |StringFrame(args)|)) <==> AllClean(args)
  {
    var stream := StringFrame(args) + rest;
    var last := |StringFrame(args)| - 1;
    IntRoundTrip(URL);
    assert stream[..4] == IntBytes(URL) && stream[4] == DELIMITER;
    assert stream[5..last] == Join(args) && stream[last] == TERMINATOR;
    if AllClean(args) {
      SplitJoin(args);
      JoinHasNoTerminator(args);
      assert forall i :: 5 <= i < last ==> stream[i] == Join(args)[i - 5];
      FindStopsAt(stream, TERMINATOR, 5, last);
    } else {
      DecodedIsClean(stream);
    }
  }

  /** Two lists without structuring bytes never share a frame. */
  lemma StringFrameInjective(a: seq<seq<byte>>, b: seq<seq<byte>>)
    requires a != [] && b != [] && AllClean(a) && AllClean(b) && StringFrame(a) == StringFrame(b)
    ensures a == b
  {
    StringRoundTripIff(a, []);
    StringRoundTripIff(b, []);
  }

  lemma {:induction false} JoinSplit(s: seq<byte>)
    ensures Join(Split(s)) == s
    decreases |s|
  {
    var k := Find(s, DELIMITER, 0);
    if k < |s| {
      JoinSplit(s[k + 1..]);
      assert Split(s)[1..] == Split(s[k + 1..]);
      assert s == s[..k] + [DELIMITER] + s[k + 1..];
    }
  }

  predicate SameLengths(a: seq<seq<byte>>, b: seq<seq<byte>>)
  {
    |a| == |b| && forall k :: 0 <= k < |a| ==> |a[k]| == |b[k]|
  }

  lemma {:induction false} JoinInjective(a: seq<seq<byte>>, b: seq<seq<byte>>)
    requires a != [] && b != [] && SameLengths(a, b) && Join(a) == Join(b)
    ensures a == b
  {
    if |a| > 1 {
      var n := |a[0]|;
      assert Join(a)[..n] == a[0] && Join(b)[..n] == b[0];
      assert Join(a)[n + 1..] == Join(a[1..]) && Join(b)[n + 1..] == Join(b[1..]);
      JoinInjective(a[1..], b[1..]);
    }
  }

  /** A text passed to the formatter, and what `vsprintf` prints for it. */
  datatype Field = Field(text: seq<byte>, out: seq<byte>)

  /** Text and print of each field from the `k`-th on fit what is left of a buffer, with a byte to spare. */
  predicate Room(n: nat, fields: seq<Field>, k: nat)
    requires k <= |fields|
    decreases |fields| - k
  {
    k == |fields|
    || (|fields[k].text| < n && |fields[k].out| < n && Room(n - |fields[k].text| - 1, fields, k + 1))
  }

  /** What is left of a buffer after a print into it: the print, its zero byte, the old bytes behind. */
  function Overwritten(rest: seq<byte>, out: seq<byte>): (r: seq<byte>)
    requires |out| < |rest|
    ensures |r| == |rest|
  {
    out + [0] + rest[|out| + 1..]
  }

  /** The fields of the frame from the `k`-th on. The cursor moves by the length of the text and not of its print,
      so that a longer print is cut off and leaves bytes behind it, and a shorter one shows its zero byte and what
      lies there. */
  function Shown(rest: seq<byte>, fields: seq<Field>, k: nat): (r: seq<seq<byte>>)
    requires k <= |fields| && Room(|rest|, fields, k)
    ensures |r| == |fields| - k && forall j :: 0 <= j < |r| ==> |r[j]| == |fields[k + j].text|
    decreases |fields| - k
  {
    if k == |fields| then []
    else
      var now, n := Overwritten(rest, fields[k].out), |fields[k].text|;
      [now[..n]] + Shown(now[n + 1..], fields, k + 1)
  }

  function Texts(fields: seq<Field>): (r: seq<seq<byte>>)
    ensures |r| == |fields| && forall k :: 0 <= k < |fields| ==> r[k] == fields[k].text
  {
    seq(|fields|, k requires 0 <= k < |fields| => fields[k].text)
  }

  /** The texts are C strings. */
  predicate AllStrings(fields: seq<Field>)
  {
    forall k :: 0 <= k < |fields| ==> NoZero(fields[k].text)
  }

  /** A field of the frame is the text passed exactly if the print of the text begins with the text. */
  lemma {:induction false} ShownIsTextIff(rest: seq<byte>, fields: seq<Field>, k: nat, j: nat)
    requires k <= j < |fields| && Room(|rest|, fields, k) && AllStrings(fields)
    ensures Shown(rest, fields, k)[j - k] == fields[j].text <==> fields[j].text <= fields[j].out
    decreases |fields| - k
  {
    var now, n := Overwritten(rest, fields[k].out), |fields[k].text|;
    if k < j {
      ShownIsTextIff(now[n + 1..], fields, k + 1, j);
    } else if |fields[k].out| < n {
      assert now[..n][|fields[k].out|] == 0;
    } else {
      assert now[..n] == fields[k].out[..n];
    }
  }

  /** What a field of the frame holds: the print as far as it goes, then its zero byte. */
  lemma {:induction false} ShownIsPrint(rest: seq<byte>, fields: seq<Field>, k: nat, j: nat, x: nat)
    requires k <= j < |fields| && Room(|rest|, fields, k)
    requires x < |fields[j].text| && x <= |fields[j].out|
    ensures Shown(rest, fields, k)[j - k][x] == if x < |fields[j].out| then fields[j].out[x] else 0
    decreases |fields| - k
  {
    if k < j {
      ShownIsPrint(Overwritten(rest, fields[k].out)[|fields[k].text| + 1..], fields, k + 1, j, x);
    }
  }

  lemma ShownAreTextsIff(rest: seq<byte>, fields: seq<Field>)
    requires Room(|rest|, fields, 0) && AllStrings(fields)
    ensures Shown(rest, fields, 0) == Texts(fields)
            <==> forall k :: 0 <= k < |fields| ==> fields[k].text <= fields[k].out
  {
    forall k | 0 <= k < |fields|
      ensures Shown(rest, fields, 0)[k] == Texts(fields)[k] <==> fields[k].text <= fields[k].out
    {
      ShownIsTextIff(rest, fields, 0, k);
    }
  }

  lemma DecodedIsClean(stream: seq<byte>)
    ensures var d := DecodeString(stream); d.Some? ==> AllClean(d.value.0)
  {
    if DecodeString(stream).Some? {
      SplitIsClean(stream[5..Find(stream, TERMINATOR, 5)]);
    }
  }

  lemma DecodedIsSplit(shown: seq<seq<byte>>, rest: seq<byte>)
    requires shown != []
    ensures var d := DecodeString(StringFrame(shown) + rest);
            d.Some? && d.value.1 == |StringFrame(shown)| ==> d.value.0 == Split(Join(shown))
  {
    var stream := StringFrame(shown) + rest;
    assert stream[5..|StringFrame(shown)| - 1] == Join(shown);
  }

  /** Decoding a frame yields arguments of the right lengths only if they are those of the frame. */
  lemma DecodedAreShown(shown: seq<seq<byte>>, texts: seq<seq<byte>>, rest: seq<byte>)
    requires shown != [] && texts != [] && SameLengths(shown, texts)
    requires DecodeString(StringFrame(shown) + rest) == Some((texts, |StringFrame(shown)|))
    ensures shown == texts && AllClean(texts)
  {
    DecodedIsClean(StringFrame(shown) + rest);
    DecodedIsSplit(shown, rest);
    JoinSplit(Join(shown));
    JoinInjective(shown, texts);
  }

  /** A receiver reads back the texts passed exactly if none contains a delimiter or a terminator and the print of
      each begins with the text itself. */
  lemma TextsRoundTripIff(buffer: seq<byte>, fields: seq<Field>, rest: seq<byte>)
    requires fields != [] && Room(|buffer|, fields, 0) && AllStrings(fields)
    ensures var frame := StringFrame(Shown(buffer, fields, 0));
            DecodeString(frame + rest) == Some((Texts(fields), |frame|))
            <==> AllClean(Texts(fields)) && forall k :: 0 <= k < |fields| ==> fields[k].text <= fields[k].out
  {
    var shown, texts := Shown(buffer, fields, 0), Texts(fields);
    ShownAreTextsIff(buffer, fields);
    if DecodeString(StringFrame(shown) + rest) == Some((texts, |StringFrame(shown)|)) {
      DecodedAreShown(shown, texts, rest);
    }
    if shown == texts {
      StringRoundTripIff(shown, rest);
    }
  }

  /** A C string that `vsprintf` prints without looking for an argument: its only directive is `%%`. */
  predicate Literal(s: seq<byte>)
    decreases |s|
  {
    || s == []
    || (if s[0] == PERCENT then |s| > 1 && s[1] == PERCENT && Literal(s[2..]) else s[0] != 0 && Literal(s[1..]))
  }

  /** What `vsprintf` prints of such a string. */
  function Expand(s: seq<byte>): (r: seq<byte>)
    requires Literal(s)
    ensures |r| <= |s|
    decreases |s|
  {
    if s == [] then [] else [s[0]] + Expand(if s[0] == PERCENT then s[2..] else s[1..])
  }

  predicate NoPercent(s: seq<byte>)
  {
    forall i :: 0 <= i < |s| ==> s[i] != PERCENT
  }

  /** The print of a string is the string or shorter, the latter exactly if it contains a percent sign. */
  lemma {:induction false} ExpandIsIdentityIff(s: seq<byte>)
    requires Literal(s)
    ensures if NoPercent(s) then Expand(s) == s else |Expand(s)| < |s|
    decreases |s|
  {
    if s != [] {
      if s[0] == PERCENT {
        ExpandIsIdentityIff(s[2..]);
        assert |Expand(s)| == 1 + |Expand(s[2..])|;
      } else {
        ExpandIsIdentityIff(s[1..]);
        assert s == [s[0]] + s[1..];
        assert Expand(s) == [s[0]] + Expand(s[1..]);
      }
    }
  }

  lemma {:induction false} LiteralHasNoZero(s: seq<byte>)
    requires Literal(s)
    ensures NoZero(s)
    decreases |s|
  {
    if s != [] {
      LiteralHasNoZero(if s[0] == PERCENT then s[2..] else s[1..]);
    }
  }

  /** The fields of texts without argument-consuming directives. */
  predicate Printed(fields: seq<Field>)
  {
    forall k :: 0 <= k < |fields| ==> Literal(fields[k].text) && fields[k].out == Expand(fields[k].text)
  }

  /** With `%%` as the only directive, a receiver reads back the texts exactly if none contains a delimiter, a
      terminator or a percent sign. */
  lemma PrintedRoundTripIff(buffer: seq<byte>, fields: seq<Field>, rest: seq<byte>)
    requires fields != [] && Room(|buffer|, fields, 0) && Printed(fields)
    ensures var frame := StringFrame(Shown(buffer, fields, 0));
            DecodeString(frame + rest) == Some((Texts(fields), |frame|))
            <==> AllClean(Texts(fields)) && forall k :: 0 <= k < |fields| ==> NoPercent(fields[k].text)
  {
    forall k | 0 <= k < |fields|
      ensures NoZero(fields[k].text)
      ensures fields[k].text <= fields[k].out <==> NoPercent(fields[k].text)
    {
      LiteralHasNoZero(fields[k].text);
      ExpandIsIdentityIff(fields[k].text);
    }
    TextsRoundTripIff(buffer, fields, rest);
  }

  /** The first `n` arguments, each followed by a delimiter. */
  function Delimited(args: seq<seq<byte>>, n: nat): seq<byte>
    requires n <= |args|
  {
    if n == 0 then [] else Delimited(args, n - 1) + args[n - 1] + [DELIMITER]
  }

  lemma {:induction false} DelimitedShift(args: seq<seq<byte>>, n: nat)
    requires n < |args|
    ensures Delimited(args, n + 1) == args[0] + [DELIMITER] + Delimited(args[1..], n)
  {
    if n > 0 {
      DelimitedShift(args, n - 1);
    }
  }

  lemma {:induction false} DelimitedIsJoin(args: seq<seq<byte>>)
    requires args != []
    ensures Delimited(args, |args|) == Join(args) + [DELIMITER]
  {
    DelimitedShift(args, |args| - 1);
    if |args| > 1 {
      DelimitedIsJoin(args[1..]);
    }
  }

  /** The room that the first `n` texts take, delimiters included. */
  function TotalLength(fields: seq<Field>, n: nat): nat
    requires n <= |fields|
  {
    if n == 0 then 0 else TotalLength(fields, n - 1) + |fields[n - 1].text| + 1
  }

  lemma {:induction false} DelimitedLength(args: seq<seq<byte>>, fields: seq<Field>, n: nat)
    requires n <= |args| == |fields| && forall k :: 0 <= k < |args| ==> |args[k]| == |fields[k].text|
    ensures |Delimited(args, n)| == TotalLength(fields, n)
  {
    if n > 0 {
      DelimitedLength(args, fields, n - 1);
    }
  }

  /** A buffer after a field has been printed at `i`: the delimiter stands behind the length of the text. */
  function After(buf: seq<byte>, i: nat, f: Field): (r: seq<byte>)
    requires i + |f.text| < |buf| && i + |f.out| < |buf|
    ensures |r| == |buf|
  {
    (buf[..i] + Overwritten(buf[i..], f.out))[i + |f.text| := DELIMITER]
  }

  /** The first `k` fields stand before the cursor `i`, and the rest of the buffer will show the others. */
  predicate Progress(buf: seq<byte>, i: nat, fields: seq<Field>, k: nat, shown: seq<seq<byte>>)
  {
    && i <= |buf| && k <= |fields| == |shown|
    && Room(|buf| - i, fields, k) && Shown(buf[i..], fields, k) == shown[k..]
    && buf[..i] == IntBytes(URL) + [DELIMITER] + Delimited(shown, k)
  }

  lemma ProgressStep(buf: seq<byte>, i: nat, fields: seq<Field>, k: nat, shown: seq<seq<byte>>)
    requires k < |fields| && Progress(buf, i, fields, k, shown)
    ensures i + |fields[k].text| < |buf| && i + |fields[k].out| < |buf|
    ensures Progress(After(buf, i, fields[k]), i + |fields[k].text| + 1, fields, k + 1, shown)
  {
    var f := fields[k];
    var now, n := Overwritten(buf[i..], f.out), |f.text|;
    var t, next := After(buf, i, f), i + n + 1;
    assert shown[k..] == [now[..n]] + Shown(now[n + 1..], fields, k + 1);
    assert shown[k] == now[..n] && shown[k..][1..] == shown[k + 1..];
    assert t[next..] == now[n + 1..];
    assert t[..next] == buf[..i] + now[..n] + [DELIMITER];
  }

  lemma ProgressStart(buf: seq<byte>, fields: seq<Field>)
    requires |buf| >= 5 && Room(|buf| - 5, fields, 0)
    requires buf == IntBytes(URL) + [DELIMITER] + Fill(0, |buf| - 5)
    ensures Progress(buf, 5, fields, 0, Shown(Fill(0, |buf| - 5), fields, 0))
  {
    assert buf[5..] == Fill(0, |buf| - 5) && buf[..5] == IntBytes(URL) + [DELIMITER];
  }

  lemma ProgressEnd(buf: seq<byte>, i: nat, fields: seq<Field>, shown: seq<seq<byte>>)
    requires fields != [] && Progress(buf, i, fields, |fields|, shown)
    requires forall k :: 0 <= k < |shown| ==> |shown[k]| == |fields[k].text|
    ensures i == 5 + TotalLength(fields, |fields|) && i <= |buf| && buf[..i - 1] + [TERMINATOR] == StringFrame(shown)
  {
    DelimitedLength(shown, fields, |fields|);
    DelimitedIsJoin(shown);
    assert buf[..i - 1] == buf[..i][..i - 1] == IntBytes(URL) + [DELIMITER] + Join(shown);
  }

  /** `vsprintf` with the given output. */
  method Print(dest: array<byte>, i: nat, out: seq<byte>)
    requires i + |out| < dest.Length
    modifies dest
    ensures dest[..] == old(dest[..])[..i] + Overwritten(old(dest[..])[i..], out)
  {
    ghost var was := dest[..];
    CopyAt(dest, i, out + [0]);
    OverwrittenAt(was, i, out);
    assert dest[..] == dest[..i + |out| + 1] + dest[i + |out| + 1..];
  }

  lemma OverwrittenAt(was: seq<byte>, i: nat, out: seq<byte>)
    requires i + |out| < |was|
    ensures was[..i] + Overwritten(was[i..], out) == was[..i] + (out + [0]) + was[i + |out| + 1..]
  {
    assert was[i..][|out| + 1..] == was[i + |out| + 1..];
  }

  /** One more field, the `k`-th. */
  method PrintField(dest: array<byte>, i: nat, f: Field, ghost fields: seq<Field>, ghost k: nat,
                    ghost shown: seq<seq<byte>>) returns (next: nat)
    requires k < |fields| && fields[k] == f && Progress(dest[..], i, fields, k, shown)
    modifies dest
    ensures Progress(dest[..], next, fields, k + 1, shown)
  {
    ProgressStep(dest[..], i, fields, k, shown);
    Print(dest, i, f.out);
    next := i + |f.text|;
    dest[next] := DELIMITER;
    next := next + 1;
  }

  /** `fields` are the texts passed, the first one always used, with what `vsprintf` prints for each. */
  method FormatDuerStringData(sum: int, fields: seq<Field>, gotMemory: bool) returns (dest: array?<byte>, len: nat)
    requires 1 <= |fields| && sum <= |fields| && AllStrings(fields[..Max(sum, 1)])
    requires Room(1024 - 5, fields[..Max(sum, 1)], 0)
    ensures dest == null <==> !gotMemory
    ensures dest != null ==>
              var used := fields[..Max(sum, 1)];
              && dest.Length == 1024 && len == 5 + TotalLength(used, |used|) <= dest.Length
              && dest[..len] == StringFrame(Shown(Fill(0, 1024 - 5), used, 0))
  {
    if !gotMemory {
      return null, 0;
    }
    dest := new byte[URL_BUFSIZE](_ => 0);
    ghost var used := fields[..Max(sum, 1)];
    ghost var shown := Shown(Fill(0, URL_BUFSIZE - 5), used, 0);
    var i: nat := PutField(dest, 0, IntBytes(URL));
    assert dest[..] == dest[..i] + Fill(0, URL_BUFSIZE - i);
    ProgressStart(dest[..], used);
    i := PrintField(dest, i, fields[0], used, 0, shown);
    var argno := 1;
    while argno < sum
      invariant 1 <= argno <= |used| && Progress(dest[..], i, used, argno, shown)
    {
      var para := fields[argno];
      i := PrintField(dest, i, para, used, argno, shown);
      argno := argno + 1;
    }
    ProgressEnd(dest[..], i, used, shown);
    Terminate(dest, i);
    len := i;
  }

  /** Any bytes that fit; they are framed as the single argument of a string frame. */
  method FormatDuerBinaryData(data: seq<byte>, gotMemory: bool) returns (dest: array?<byte>, len: nat)
    requires |data| + 6 <= 1024
    ensures dest == null <==> !gotMemory
    ensures dest != null ==>
              && dest.Length == 1024 && len == |data| + 6 && dest[..len] == StringFrame([data])
              && dest[..len] == [1, 0, 0, 0, 96] + data + [10]
  {
    if !gotMemory {
      return null, 0;
    }
    dest := new byte[URL_BUFSIZE](_ => 0);
    var i := 0;
    CopyAt(dest, i, IntBytes(URL));
    i := i + 4;
    dest[i] := DELIMITER;
    i := i + 1;
    CopyAt(dest, i, data);
    i := i + |data|;
    dest[i] := TERMINATOR;
    i := i + 1;
    len := i;
    assert dest[..len] == IntBytes(URL) + [DELIMITER] + data + [TERMINATOR];
    StringFrameBytes([data]);
  }
}

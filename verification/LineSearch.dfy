/** Looking up a URL in a text file, line by line. */
module LineSearch {
  import opened Bytes
  import opened CStrings

  const NEWLINE: byte := 10
  const LINE_BUF: nat := 512
  const SIZE_MAX: nat := 0xffff_ffff_ffff_ffff

  /** What opening a file yields: mode "r" needs a readable file, mode "r+" one that can also be written. */
  datatype File = Unreadable | Readable(bytes: seq<byte>, writable: bool)

  function Newlines(f: seq<byte>): nat
  {
    if f == [] then 0 else (if f[0] == NEWLINE then 1 else 0) + Newlines(f[1..])
  }

  /** The newline-terminated lines, newline included; an unterminated rest is no line. */
  function Lines(f: seq<byte>): seq<seq<byte>>
    decreases |f|
  {
    var k := Find(f, NEWLINE, 0);
    if k == |f| then [] else [f[..k + 1]] + Lines(f[k + 1..])
  }

  lemma {:induction false} NewlinesSkip(f: seq<byte>, k: nat)
    requires k <= |f| && forall i :: 0 <= i < k ==> f[i] != NEWLINE
    ensures Newlines(f) == Newlines(f[k..])
  {
    if k > 0 {
      NewlinesSkip(f[1..], k - 1);
      assert f[1..][k - 1..] == f[k..];
    } else {
      assert f[k..] == f;
    }
  }

  /** Every newline ends one line. */
  lemma {:induction false} LinesCount(f: seq<byte>)
    ensures |Lines(f)| == Newlines(f)
    decreases |f|
  {
    var k := Find(f, NEWLINE, 0);
    NewlinesSkip(f, k);
    if k < |f| {
      LinesCount(f[k + 1..]);
      assert f[k..][1..] == f[k + 1..];
    }
  }

  function Flatten(ls: seq<seq<byte>>): seq<byte>
  {
    if ls == [] then [] else ls[0] + Flatten(ls[1..])
  }

  lemma FlattenCons(l: seq<byte>, ls: seq<seq<byte>>)
    ensures Flatten([l] + ls) == l + Flatten(ls)
  {
    assert ([l] + ls)[1..] == ls;
  }

  /** A line: its one newline is its last byte. */
  predicate IsLine(l: seq<byte>)
  {
    l != [] && l[|l| - 1] == 10 && forall i :: 0 <= i < |l| - 1 ==> l[i] != 10
  }

  /** What stands behind the last newline. */
  function Rest(f: seq<byte>): (r: seq<byte>)
    ensures forall i :: 0 <= i < |r| ==> r[i] != 10
    decreases |f|
  {
    var k := Find(f, NEWLINE, 0);
    if k == |f| then f else Rest(f[k + 1..])
  }

  lemma InFront(f: seq<byte>, k: nat, a: seq<byte>, b: seq<byte>)
    requires k <= |f| && f[k..] == a + b
    ensures f == f[..k] + a + b
  {
    assert f == f[..k] + f[k..];
  }

  /** The lines cut the file up, from its beginning to its last newline. */
  lemma {:induction false} LinesPartition(f: seq<byte>)
    ensures f == Flatten(Lines(f)) + Rest(f)
    decreases |f|
  {
    var k := Find(f, NEWLINE, 0);
    if k < |f| {
      LinesPartition(f[k + 1..]);
      FlattenCons(f[..k + 1], Lines(f[k + 1..]));
      InFront(f, k + 1, Flatten(Lines(f[k + 1..])), Rest(f[k + 1..]));
    }
  }

  lemma {:induction false} LinesAreLines(f: seq<byte>, i: nat)
    requires i < |Lines(f)|
    ensures IsLine(Lines(f)[i])
    decreases |f|
  {
    var k := Find(f, NEWLINE, 0);
    if i > 0 {
      LinesAreLines(f[k + 1..], i - 1);
    }
  }

  method Hangshu(file: File) returns (n: int)
    ensures n == if file.Unreadable? then -1 else |Lines(file.bytes)|
  {
    if file.Unreadable? {
      return -1;
    }
    var f := file.bytes;
    n := 0;
    var i := 0;
    while i < |f|
      invariant 0 <= i <= |f| && n + Newlines(f[i..]) == Newlines(f)
    {
      var ch := f[i];
      assert f[i..][1..] == f[i + 1..];
      if ch == NEWLINE {
        n := n + 1;
      }
      i := i + 1;
    }
    LinesCount(f);
  }

  /** How many bytes `fgets` takes from the rest of the file: up to and with a newline, at most 511. */
  function FgetsLength(rest: seq<byte>): (r: nat)
    ensures r <= |rest| && r <= 511 && (rest != [] ==> r > 0)
  {
    var k := Find(rest, NEWLINE, 0);
    var n := if k == |rest| then k else k + 1;
    if n < LINE_BUF then n else LINE_BUF - 1
  }

  /** `fgets` stops behind the first newline, at 511 bytes or at the end of the file, and nowhere else. */
  lemma FgetsStops(rest: seq<byte>)
    ensures var r := FgetsLength(rest);
            && (forall i :: 0 <= i < r - 1 ==> rest[i] != 10)
            && (rest != [] ==> rest[r - 1] == 10 || r == 511 || r == |rest|)
  {
  }

  /** The results of the first `n` calls of `fgets`, fewer if the file ends. */
  function Fetched(f: seq<byte>, n: nat): (r: seq<seq<byte>>)
    ensures forall i :: 0 <= i < |r| ==> 0 < |r[i]| < LINE_BUF
  {
    if n == 0 || f == [] then []
    else [f[..FgetsLength(f)]] + Fetched(f[FgetsLength(f)..], n - 1)
  }

  /** What `n` calls leave of a file. */
  function Unread(f: seq<byte>, n: nat): seq<byte>
  {
    if n == 0 || f == [] then f else Unread(f[FgetsLength(f)..], n - 1)
  }

  /** The pieces cut the front of the file up. */
  lemma {:induction false} FetchedPartition(f: seq<byte>, n: nat)
    ensures f == Flatten(Fetched(f, n)) + Unread(f, n)
  {
    if n > 0 && f != [] {
      var k := FgetsLength(f);
      FetchedPartition(f[k..], n - 1);
      FlattenCons(f[..k], Fetched(f[k..], n - 1));
      InFront(f, k, Flatten(Fetched(f[k..], n - 1)), Unread(f[k..], n - 1));
    }
  }

  /** The calls stop early only at the end of the file. */
  lemma {:induction false} FetchedCount(f: seq<byte>, n: nat)
    ensures |Fetched(f, n)| == n || (|Fetched(f, n)| < n && Unread(f, n) == [])
  {
    if n > 0 && f != [] {
      FetchedCount(f[FgetsLength(f)..], n - 1);
    }
  }

  /** The comparison with all but the last byte of the URL; the length of an empty URL wraps around. */
  predicate Compares(line: seq<byte>, url: seq<byte>)
  {
    StrnEqual(line, url, if url == [] then SIZE_MAX else |url| - 1, 0)
  }

  /** The 1-based position of the first piece that compares equal, or 0. */
  function FirstEqual(pieces: seq<seq<byte>>, url: seq<byte>): (r: nat)
    ensures r <= |pieces| && (r > 0 ==> Compares(pieces[r - 1], url))
    ensures forall i :: 0 <= i < (if r == 0 then |pieces| else r - 1) ==> !Compares(pieces[i], url)
  {
    if pieces == [] then 0
    else if Compares(pieces[0], url) then 1
    else
      var r := FirstEqual(pieces[1..], url);
      if r == 0 then 0 else r + 1
  }

  /** The search among the first `n` pieces of the rest of a file. */
  function Search(rest: seq<byte>, n: nat, url: seq<byte>): nat
  {
    FirstEqual(Fetched(rest, n), url)
  }

  /** The search yields the position of the first piece that compares equal, counted from 1. */
  lemma SearchMeans(rest: seq<byte>, n: nat, url: seq<byte>)
    ensures var pieces, r := Fetched(rest, n), Search(rest, n, url);
            && r <= |pieces| && (r > 0 ==> Compares(pieces[r - 1], url))
            && forall i :: 0 <= i < (if r == 0 then |pieces| else r - 1) ==> !Compares(pieces[i], url)
  {
  }

  lemma SearchStep(rest: seq<byte>, n: nat, url: seq<byte>)
    requires n > 0 && rest != []
    ensures var k := FgetsLength(rest);
            var r := Search(rest[k..], n - 1, url);
            Search(rest, n, url) == if Compares(rest[..k], url) then 1 else if r == 0 then 0 else r + 1
  {
    var k := FgetsLength(rest);
    assert Fetched(rest, n) == [rest[..k]] + Fetched(rest[k..], n - 1);
    assert Fetched(rest, n)[1..] == Fetched(rest[k..], n - 1);
  }

  /** -1 unless the file can be opened for update, even when its lines can be counted. */
  method CompareFileAndUrl(file: File, url: seq<byte>) returns (index: int)
    ensures index == if file.Readable? && file.writable then Search(file.bytes, |Lines(file.bytes)|, url) else -1
  {
    var hangnum := Hangshu(file);
    if file.Unreadable? || !file.writable {
      return -1;
    }
    var rest := file.bytes;
    for i := 0 to hangnum
      invariant Search(file.bytes, hangnum, url) ==
                var r := Search(rest, hangnum - i, url); if r == 0 then 0 else i + r
    {
      if rest == [] {
        return 0;
      }
      var deline := rest[..FgetsLength(rest)];
      SearchStep(rest, hangnum - i, url);
      if Compares(deline, url) {
        return i + 1;
      }
      rest := rest[FgetsLength(rest)..];
    }
    return 0;
  }

  /** The URL without its last byte begins the line. */
  predicate Begins(url: seq<byte>, line: seq<byte>)
  {
    url != [] && url[..|url| - 1] <= line
  }

  lemma {:induction false} EqualUpTo(a: seq<byte>, b: seq<byte>, n: nat, i: nat)
    requires NoZero(b) && i <= n <= |b|
    ensures StrnEqual(a, b, n, i) <==> forall j :: i <= j < n ==> At(a, j) == b[j]
    decreases n - i
  {
    if i < n {
      EqualUpTo(a, b, n, i + 1);
      assert b[i] == At(b, i) != 0;
      assert (forall j :: i <= j < n ==> At(a, j) == b[j])
        <==> At(a, i) == b[i] && forall j :: i + 1 <= j < n ==> At(a, j) == b[j];
    }
  }

  /** On C strings the comparison is a prefix test. */
  lemma ComparesIsBegins(line: seq<byte>, url: seq<byte>)
    requires NoZero(line) && NoZero(url) && line != []
    ensures Compares(line, url) <==> Begins(url, line)
  {
    if url != [] {
      var n := |url| - 1;
      EqualUpTo(line, url, n, 0);
      if Compares(line, url) {
        assert n > 0 ==> At(line, n - 1) == url[n - 1];
        forall j | 0 <= j < n
          ensures j < |line| && line[j] == url[j]
        {
          assert At(line, j) == url[j];
        }
        assert url[..n] == line[..n];
      }
      if url[..n] <= line {
        forall j | 0 <= j < n
          ensures At(line, j) == url[j]
        {
          assert url[..n][j] == line[j];
        }
      }
    }
  }

  /** With an empty URL only a piece that begins with a zero byte compares equal. */
  lemma EmptyUrlCompares(line: seq<byte>)
    ensures Compares(line, []) <==> line == [] || line[0] == 0
  {
  }

  /** The 1-based position of the first line that begins with the URL without its last byte, or 0. */
  function FirstLine(lines: seq<seq<byte>>, url: seq<byte>): (r: nat)
    ensures r <= |lines|
    ensures r > 0 ==> Begins(url, lines[r - 1])
    ensures forall i :: 0 <= i < (if r == 0 then |lines| else r - 1) ==> !Begins(url, lines[i])
  {
    if lines == [] then 0
    else if Begins(url, lines[0]) then 1
    else
      var r := FirstLine(lines[1..], url);
      if r == 0 then 0 else r + 1
  }

  predicate ShortLines(f: seq<byte>)
  {
    forall i :: 0 <= i < |Lines(f)| ==> |Lines(f)[i]| < LINE_BUF
  }

  /** When every line fits the buffer, the counted calls of `fgets` deliver exactly the lines. */
  lemma {:induction false} FetchedAreLines(f: seq<byte>)
    requires ShortLines(f)
    ensures Fetched(f, |Lines(f)|) == Lines(f)
    decreases |f|
  {
    var k := Find(f, NEWLINE, 0);
    if k < |f| {
      var tail := f[k + 1..];
      assert Lines(f)[0] == f[..k + 1];
      forall i | 0 <= i < |Lines(tail)|
        ensures |Lines(tail)[i]| < LINE_BUF
      {
        assert Lines(f)[i + 1] == Lines(tail)[i];
      }
      FetchedAreLines(tail);
    }
  }

  lemma {:induction false} LinesAreParts(f: seq<byte>)
    requires NoZero(f)
    ensures forall i :: 0 <= i < |Lines(f)| ==> Lines(f)[i] != [] && NoZero(Lines(f)[i])
    decreases |f|
  {
    var k := Find(f, NEWLINE, 0);
    if k < |f| {
      LinesAreParts(f[k + 1..]);
    }
  }

  lemma {:induction false} FetchedAreParts(f: seq<byte>, n: nat)
    requires NoZero(f)
    ensures forall i :: 0 <= i < |Fetched(f, n)| ==> NoZero(Fetched(f, n)[i])
  {
    if n > 0 && f != [] {
      FetchedAreParts(f[FgetsLength(f)..], n - 1);
    }
  }

  lemma {:induction false} FirstEqualIsFirstLine(pieces: seq<seq<byte>>, url: seq<byte>)
    requires NoZero(url) && forall i :: 0 <= i < |pieces| ==> pieces[i] != [] && NoZero(pieces[i])
    ensures FirstEqual(pieces, url) == FirstLine(pieces, url)
  {
    if pieces != [] {
      ComparesIsBegins(pieces[0], url);
      FirstEqualIsFirstLine(pieces[1..], url);
    }
  }

  /** A URL that a long line begins with, but that no piece of at most 511 bytes can begin with. */
  lemma LongLineIsMissed(f: seq<byte>, i: nat) returns (url: seq<byte>)
    requires NoZero(f) && i < |Lines(f)| && |Lines(f)[i]| >= LINE_BUF
    ensures NoZero(url)
    ensures Search(f, |Lines(f)|, url) == 0 < FirstLine(Lines(f), url)
  {
    var line := Lines(f)[i];
    LinesAreParts(f);
    url := line[..LINE_BUF] + [1];
    assert url[..|url| - 1] == line[..LINE_BUF];
    assert Begins(url, line);
    FetchedAreParts(f, |Lines(f)|);
    FirstEqualIsFirstLine(Fetched(f, |Lines(f)|), url);
  }

  /** The search finds the first matching line, whatever the URL. */
  ghost predicate SearchIsExact(f: seq<byte>)
  {
    forall url :: NoZero(url) ==> Search(f, |Lines(f)|, url) == FirstLine(Lines(f), url)
  }

  /** For a file of C characters, the search agrees with its specification for every URL exactly if every
      newline-terminated line, newline included, has at most 511 bytes. */
  lemma SearchIsExactIff(f: seq<byte>)
    requires NoZero(f)
    ensures SearchIsExact(f) <==> forall i :: 0 <= i < |Lines(f)| ==> |Lines(f)[i]| <= 511
  {
    if ShortLines(f) {
      FetchedAreLines(f);
      LinesAreParts(f);
      forall url | NoZero(url)
        ensures Search(f, |Lines(f)|, url) == FirstLine(Lines(f), url)
      {
        FirstEqualIsFirstLine(Lines(f), url);
      }
    } else {
      var i :| 0 <= i < |Lines(f)| && |Lines(f)[i]| >= LINE_BUF;
      var url := LongLineIsMissed(f, i);
    }
  }
}

/** The interactive session over one list: each line typed is inserted, "pop" pops, "quit" destroys the list. */
module ListSession {
  import opened Bytes
  import opened CStrings
  import opened LinkedQueue
  import opened Messages
  import opened Text

  predicate IsPop(line: seq<byte>)
  {
    StrnEqual(Ascii("pop"), line, 3, 0)
  }

  predicate IsQuit(line: seq<byte>)
  {
    StrnEqual(Ascii("quit"), line, 4, 0)
  }

  /** A typed line as a message: its bytes up to the first zero. */
  function MessageOf(line: seq<byte>): (r: Payload)
    ensures r.data <= line && NoZero(r.data) && (r.data == line || line[|r.data|] == 0)
  {
    Payload(line[..Find(line, 0, 0)], 0, NoPort)
  }

  /** The commands are the lines that begin with "pop" and "quit". */
  lemma CommandsAreWords(line: seq<byte>)
    ensures IsPop(line) <==> [112, 111, 112] <= line
    ensures IsQuit(line) <==> [113, 117, 105, 116] <= line
  {
    StrnIsPrefix(Ascii("pop"), line);
    StrnIsPrefix(Ascii("quit"), line);
    assert Ascii("pop") == [112, 111, 112] && Ascii("quit") == [113, 117, 105, 116];
  }

  lemma StrnIsPrefix(word: seq<byte>, line: seq<byte>)
    requires NoZero(word)
    ensures StrnEqual(word, line, |word|, 0) <==> word <= line
  {
    if StrnEqual(word, line, |word|, 0) {
      StrnEqualAgrees(word, line, 0);
      assert word != [] ==> word[|word| - 1] == At(line, |word| - 1);
      assert word == line[..|word|];
    }
    if word <= line {
      PrefixIsStrnEqual(word, line, 0);
    }
  }

  datatype Command = Pop | Quit | Text(m: Payload)

  function CommandOf(line: seq<byte>): Command
  {
    if IsPop(line) then Pop else if IsQuit(line) then Quit else Text(MessageOf(line))
  }

  function CommandsOf(lines: seq<seq<byte>>): (r: seq<Command>)
    ensures |r| == |lines| && forall i :: 0 <= i < |lines| ==> r[i] == CommandOf(lines[i])
  {
    seq(|lines|, i requires 0 <= i < |lines| => CommandOf(lines[i]))
  }

  /** What a session has done: the queue left, the messages popped, and whether it has ended. */
  datatype Transcript = Transcript(queue: seq<Payload>, popped: seq<Payload>, quit: bool)

  function Type(t: Transcript, c: Command): Transcript
  {
    if t.quit then t
    else
      match c
      case Pop => if t.queue == [] then t else t.(queue := t.queue[1..], popped := t.popped + [t.queue[0]])
      case Quit => t.(quit := true)
      case Text(m) => t.(queue := t.queue + [m])
  }

  /** The session after the first `n` commands. */
  function Replay(cs: seq<Command>, n: nat): Transcript
    requires n <= |cs|
  {
    if n == 0 then Transcript([], [], false) else Type(Replay(cs, n - 1), cs[n - 1])
  }

  /** The messages inserted, in order: the lines typed before the end that are no commands. */
  function Entered(cs: seq<Command>, n: nat): seq<Payload>
    requires n <= |cs|
  {
    if n == 0 then []
    else if Replay(cs, n - 1).quit || !cs[n - 1].Text? then Entered(cs, n - 1)
    else Entered(cs, n - 1) + [cs[n - 1].m]
  }

  lemma TypeConserves(t: Transcript, c: Command)
    ensures var u := Type(t, c);
            u.popped + u.queue == t.popped + t.queue + if t.quit || !c.Text? then [] else [c.m]
  {
    assert t.queue != [] ==> t.queue == [t.queue[0]] + t.queue[1..];
  }

  /** What each command does: a pop moves the oldest message, if there is one, a text joins the queue at its end. */
  lemma CommandMeans(cs: seq<Command>, n: nat)
    requires n < |cs|
    ensures Replay(cs, 0) == Transcript([], [], false)
    ensures var t, u := Replay(cs, n), Replay(cs, n + 1);
            if t.quit then u == t
            else
              match cs[n]
              case Pop =>
                !u.quit && if t.queue == [] then u == t
                           else t.queue == [t.queue[0]] + u.queue && u.popped == t.popped + [t.queue[0]]
              case Quit => u.quit && u.queue == t.queue && u.popped == t.popped
              case Text(m) => !u.quit && u.queue == t.queue + [m] && u.popped == t.popped
  {
  }

  /** Whatever is typed, the messages inserted are those popped followed by those still queued, in order. */
  lemma {:induction false} SessionConserves(cs: seq<Command>, n: nat)
    requires n <= |cs|
    ensures Entered(cs, n) == Replay(cs, n).popped + Replay(cs, n).queue
  {
    if n > 0 {
      SessionConserves(cs, n - 1);
      TypeConserves(Replay(cs, n - 1), cs[n - 1]);
    }
  }

  lemma {:induction false} StaysQuit(cs: seq<Command>, n: nat, m: nat)
    requires n <= m <= |cs| && Replay(cs, n).quit
    ensures Replay(cs, m) == Replay(cs, n) && Entered(cs, m) == Entered(cs, n)
  {
    if n < m {
      StaysQuit(cs, n, m - 1);
    }
  }

  method EnterLine(list: List, line: seq<byte>)
    requires list.Valid() && |line| < NODE_SIZE
    modifies list, list.linklistTail`next
    ensures list.Valid() && list.contents == old(list.contents) + [MessageOf(line)]
    ensures |list.inserted| == |old(list.inserted)| + 1
    ensures list.nodes == old(list.nodes) + [list.linklistTail] && fresh(list.linklistTail)
  {
    var node := new Node(NODE_SIZE);
    node.Print(line);
    var k := Find(line, 0, 0);
    var bytes := node.pdata[..];
    assert bytes[|line|] == 0;
    assert forall i :: 0 <= i < k ==> bytes[i] == line[i];
    assert k < |line| ==> bytes[k] == line[k];
    FindStopsAt(bytes, 0, 0, k);
    node.Measure();
    assert node.pdata[..node.dataLen] == line[..k];
    list.InsertNode(node);
  }

  /** Every message fits the node of a pop. */
  ghost predicate Short(list: List)
    reads list
  {
    forall j :: 0 <= j < |list.contents| ==> |list.contents[j].data| < NODE_SIZE
  }

  method PopLine(list: List)
    requires list.Valid() && Short(list)
    modifies list, list.nodes
    ensures list.Valid() && list.contents == if old(list.contents) == [] then [] else old(list.contents)[1..]
    ensures list.inserted == old(list.inserted)
    ensures list.nodes == if old(list.contents) == [] then old(list.nodes)
                          else [list.linklistHead] + old(list.nodes)[2..]
  {
    var node2 := new Node(NODE_SIZE);
    list.PopNode(node2);
    node2.Free();
    assert forall i :: 0 <= i < list.linknodeCount ==> list.Element(i);
  }

  /** One line typed. */
  method Obey(list: List, line: seq<byte>) returns (quit: bool)
    requires list.Valid() && Short(list) && |line| < NODE_SIZE
    modifies list, list.nodes
    ensures quit == CommandOf(line).Quit?
    ensures quit ==> list.inserted == old(list.inserted) && forall n :: n in list.inserted ==> n.frees == 1
    ensures !quit ==> list.Valid() && Short(list)
    ensures match CommandOf(line)
            case Pop => list.contents == if old(list.contents) == [] then [] else old(list.contents)[1..]
            case Text(m) => list.contents == old(list.contents) + [m]
            case Quit => true
    ensures |list.inserted| == |old(list.inserted)| + if CommandOf(line).Text? then 1 else 0
    ensures !quit ==> forall k :: 0 <= k < |list.nodes| ==> list.nodes[k] in old(list.nodes) || fresh(list.nodes[k])
  {
    quit := false;
    assert list.linklistTail == list.nodes[list.linknodeCount];
    match CommandOf(line)
    case Pop => PopLine(list);
    case Quit => list.Destroy(); quit := true;
    case Text(_) => EnterLine(list, line);
  }

  /** Every node ever inserted has been freed once if it was popped or the session has ended, else never. */
  ghost predicate FreedExactly(list: List, t: Transcript)
    reads list, list.inserted
  {
    forall i :: 0 <= i < |list.inserted| ==> list.inserted[i].frees == if i < |t.popped| || t.quit then 1 else 0
  }

  /** The list of a session that goes on. */
  ghost predicate Follows(list: List, cs: seq<Command>, n: nat)
    requires n <= |cs|
    reads list, list.nodes, list.buffers, list.inserted
  {
    && list.Valid() && Short(list)
    && !Replay(cs, n).quit && list.contents == Replay(cs, n).queue
    && |list.inserted| == |Entered(cs, n)|
  }

  lemma FreedOnce(list: List, cs: seq<Command>, n: nat)
    requires n <= |cs| && Follows(list, cs, n)
    ensures FreedExactly(list, Replay(cs, n))
  {
    SessionConserves(cs, n);
    var older := |Replay(cs, n).popped|;
    forall i | older <= i < |list.inserted|
      ensures list.inserted[i].frees == 0
    {
      assert list.Element(i - older);
      assert list.inserted[older..][i - older] == list.nodes[1..][i - older];
    }
  }

  method Follow(list: List, line: seq<byte>, ghost cs: seq<Command>, n: nat) returns (quit: bool)
    requires n < |cs| && cs[n] == CommandOf(line) && |line| < NODE_SIZE && Follows(list, cs, n)
    modifies list, list.nodes
    ensures quit == Replay(cs, n + 1).quit
    ensures if quit then |list.inserted| == |Entered(cs, n + 1)| && FreedExactly(list, Replay(cs, n + 1))
            else Follows(list, cs, n + 1)
    ensures !quit ==> forall k :: 0 <= k < |list.nodes| ==> list.nodes[k] in old(list.nodes) || fresh(list.nodes[k])
  {
    quit := Obey(list, line);
  }

  /** The session from line `i` on. */
  method Continue(list: List, lines: seq<seq<byte>>, i: nat, ghost cs: seq<Command>)
    requires i <= |lines| && cs == CommandsOf(lines) && Follows(list, cs, i)
    requires forall i :: 0 <= i < |lines| ==> |lines[i]| < NODE_SIZE
    modifies list, list.nodes
    ensures !Replay(cs, |lines|).quit ==> list.Valid() && list.contents == Replay(cs, |lines|).queue
    ensures |list.inserted| == |Entered(cs, |lines|)| && FreedExactly(list, Replay(cs, |lines|))
    decreases |lines| - i
  {
    if i == |lines| {
      FreedOnce(list, cs, i);
      return;
    }
    var quit := Follow(list, lines[i], cs, i);
    if quit {
      StaysQuit(cs, i + 1, |lines|);
    } else {
      Continue(list, lines, i + 1, cs);
    }
  }

  /** After any sequence of insertions and pops the heap list holds the queue of the transcript, and no node is
      freed too early, twice or not at all. */
  method Session(lines: seq<seq<byte>>) returns (list: List)
    requires forall i :: 0 <= i < |lines| ==> |lines[i]| < NODE_SIZE
    ensures var cs, n := CommandsOf(lines), |lines|;
            && (!Replay(cs, n).quit ==> list.Valid() && list.contents == Replay(cs, n).queue)
            && |list.inserted| == |Entered(cs, n)| && FreedExactly(list, Replay(cs, n))
  {
    list := new List();
    Continue(list, lines, 0, CommandsOf(lines));
  }
}

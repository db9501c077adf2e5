/** Protocol handlers and the dispatch of one received message. */
module Dispatch {
  import opened Bytes
  import opened CStrings
  import opened Text
  import opened Wrappers
  import opened Messages
  import opened LinkedQueue
  import opened TimeMessage

  const WORD: nat := 0x1_0000_0000

  datatype Handler = TimeCmd | UsbOul

  datatype Entry = Entry(protocol: seq<byte>, handler: Handler)

  datatype Config = Config(uartFd: int, pipeFd: int, uartTable: seq<Entry>, pipeTable: seq<Entry>)

  /** The UART answers "time", the pipe "usb". */
  function ShippedTables(uartFd: int, pipeFd: int): (r: Config)
    ensures r.uartFd == uartFd && r.uartTable == [Entry([116, 105, 109, 101], TimeCmd)]
    ensures r.pipeFd == pipeFd && r.pipeTable == [Entry([117, 115, 98], UsbOul)]
  {
    assert Ascii("time") == [116, 105, 109, 101] && Ascii("usb") == [117, 115, 98];
    Config(uartFd, pipeFd, [Entry(Ascii("time"), TimeCmd)], [Entry(Ascii("usb"), UsbOul)])
  }

  /** A handler's protocol name is a non-empty C string that fits the consumer's buffer. */
  predicate Named(table: seq<Entry>, bufLen: nat)
  {
    forall i :: 0 <= i < |table| ==>
      table[i].protocol != [] && NoZero(table[i].protocol) && |table[i].protocol| <= bufLen
  }

  lemma ShippedTablesAreNamed(uartFd: int, pipeFd: int, bufLen: nat)
    requires bufLen >= 4
    ensures Named(ShippedTables(uartFd, pipeFd).uartTable, bufLen)
    ensures Named(ShippedTables(uartFd, pipeFd).pipeTable, bufLen)
  {
  }

  /** The comparison with each name stays inside the buffer. */
  predicate Comparable(table: seq<Entry>, bytes: seq<byte>)
  {
    forall i :: 0 <= i < |table| ==> |table[i].protocol| <= |bytes|
  }

  predicate Matches(e: Entry, bytes: seq<byte>)
  {
    StrnEqual(e.protocol, bytes, |e.protocol|, 0)
  }

  /** In a zeroed buffer a handler matches exactly the messages that begin with its protocol name. */
  lemma MatchesIsPrefix(e: Entry, message: seq<byte>, zeros: nat)
    requires NoZero(e.protocol)
    ensures Matches(e, message + Fill(0, zeros)) <==> e.protocol <= message
  {
    var bytes := message + Fill(0, zeros);
    if Matches(e, bytes) {
      StrnEqualAgrees(e.protocol, bytes, 0);
      forall j | 0 <= j < |e.protocol|
        ensures e.protocol[j] == At(message, j)
      {
        assert e.protocol[j] == At(bytes, j);
      }
      assert e.protocol != [] ==> At(message, |e.protocol| - 1) == e.protocol[|e.protocol| - 1];
      assert e.protocol == message[..|e.protocol|];
    }
    if e.protocol <= message {
      assert bytes[..|e.protocol|] == message[..|e.protocol|];
      PrefixIsStrnEqual(e.protocol, bytes, 0);
    }
  }

  function TableFor(c: Config, fd: int): seq<Entry>
  {
    if fd == c.uartFd then c.uartTable else if fd == c.pipeFd then c.pipeTable else []
  }

  /** The handlers among the first `i` entries that match, in table order. */
  function Fired(table: seq<Entry>, bytes: seq<byte>, i: nat): seq<Handler>
    requires i <= |table|
  {
    if i == 0 then []
    else Fired(table, bytes, i - 1) + if Matches(table[i - 1], bytes) then [table[i - 1].handler] else []
  }

  function UsbText(): (r: seq<byte>)
    ensures r == [65, 88, 88, 43, 85, 83, 66, 43, 79, 85, 76, 38]
  {
    Ascii("AXX+USB+OUL&")
  }

  function HandlersAt(table: seq<Entry>, places: seq<nat>): (r: seq<Handler>)
    requires forall j :: 0 <= j < |places| ==> places[j] < |table|
    ensures |r| == |places| && forall j :: 0 <= j < |places| ==> r[j] == table[places[j]].handler
  {
    seq(|places|, j requires 0 <= j < |places| => table[places[j]].handler)
  }

  /** The matching entries below `i`, each once, in table order. */
  function Places(table: seq<Entry>, bytes: seq<byte>, i: nat): (r: seq<nat>)
    requires i <= |table|
    ensures forall j :: 0 <= j < |r| ==> r[j] < i
    ensures forall j, k :: 0 <= j < k < |r| ==> r[j] < r[k]
    ensures forall n: nat :: n < i ==> (n in r <==> Matches(table[n], bytes))
  {
    if i == 0 then [] else Places(table, bytes, i - 1) + if Matches(table[i - 1], bytes) then [i - 1] else []
  }

  lemma FiredNext(table: seq<Entry>, bytes: seq<byte>, i: nat, places: seq<nat>)
    requires i < |table| && (forall j :: 0 <= j < |places| ==> places[j] < |table|)
    requires Fired(table, bytes, i) == HandlersAt(table, places)
    ensures Fired(table, bytes, i + 1) == HandlersAt(table, places + if Matches(table[i], bytes) then [i] else [])
  {
    var next := places + if Matches(table[i], bytes) then [i] else [];
    assert HandlersAt(table, next)[..|places|] == HandlersAt(table, places);
  }

  /** The handlers fired are those of the matching entries, each entry once, in table order. */
  lemma {:induction false} FiredAreMatches(table: seq<Entry>, bytes: seq<byte>, i: nat)
    requires i <= |table|
    ensures Fired(table, bytes, i) == HandlersAt(table, Places(table, bytes, i))
  {
    if i > 0 {
      FiredAreMatches(table, bytes, i - 1);
      FiredNext(table, bytes, i - 1, Places(table, bytes, i - 1));
    }
  }

  /** What a handler queues for sending when the clock shows `now`. */
  function Reply(h: Handler, now: Time): Payload
  {
    match h
    case TimeCmd => Payload(TimeText(now), 0, UART)
    case UsbOul => Payload(UsbText(), 0, UART)
  }

  /** A message for the UART that begins with `AXX+TIM+` and from which the time can be read back. */
  predicate TellsTime(m: Payload, now: Time)
  {
    && m.sendTo == UART && [65, 88, 88, 43, 84, 73, 77, 43] <= m.data
    && ParseTime(m.data) == Some((now, |m.data|))
  }

  /** The message `AXX+USB+OUL&` for the UART. */
  predicate TellsUsb(m: Payload)
  {
    m.sendTo == UART && m.data == [65, 88, 88, 43, 85, 83, 66, 43, 79, 85, 76, 38]
  }

  /** What each handler answers, to somebody who reads the message. */
  lemma ReplyMeans(h: Handler, now: Time)
    requires Calendar(now)
    ensures if h.TimeCmd? then TellsTime(Reply(h, now), now) else TellsUsb(Reply(h, now))
  {
    if h.TimeCmd? {
      TimeRoundTrip(now, []);
      TextLayout(now);
      assert TimeText(now) + [] == TimeText(now);
    }
  }

  lemma ReplyFits(h: Handler, now: Time)
    requires Calendar(now)
    ensures 0 < |Reply(h, now).data| < 64
  {
    TextLength(now);
  }

  function Replies(handlers: seq<Handler>, clock: seq<Time>): (r: seq<Payload>)
    requires |handlers| <= |clock|
    ensures |r| == |handlers|
    ensures forall i :: 0 <= i < |r| ==> r[i] == Reply(handlers[i], clock[i])
  {
    seq(|handlers|, i requires 0 <= i < |handlers| => Reply(handlers[i], clock[i]))
  }

  /** `snprintf` into a local buffer of 64 bytes, and `strlen` of what is there. */
  method FormatClock(now: Time) returns (run: array<byte>, len: nat)
    requires Calendar(now)
    ensures fresh(run) && run.Length == 64 && len < 64 && run[..len] == TimeText(now)
  {
    run := new byte[RUN_SIZE](_ => 0);
    var text := TimeText(now);
    TextLength(now);
    TextHasNoZero(now);
    var n := if |text| < RUN_SIZE then |text| else RUN_SIZE - 1;
    forall i | 0 <= i < n {
      run[i] := text[i];
    }
    run[n] := 0;
    len := 0;
    while run[len] != 0
      invariant 0 <= len <= n
      decreases n - len
    {
      len := len + 1;
    }
  }

  /** Queues the clock message for the UART. */
  method ProcessAtTimeCmd(list: List, now: Time)
    requires list.Valid() && Calendar(now)
    modifies list, list.linklistTail`next
    ensures list.Valid() && list.contents == old(list.contents) + [Reply(TimeCmd, now)]
    ensures |list.contents| == |old(list.contents)| + 1 && TellsTime(list.contents[|old(list.contents)|], now)
    ensures fresh(list.linklistTail)
  {
    ReplyFits(TimeCmd, now);
    var run, len := FormatClock(now);
    var bytes := run[..];
    assert bytes[..len] == TimeText(now);
    var code := list.ReadySendData(UART, Some(bytes), len);
    assert list.contents == old(list.contents) + [Reply(TimeCmd, now)];
    assert list.contents[|old(list.contents)|] == Reply(TimeCmd, now);
    assert TellsTime(Reply(TimeCmd, now), now) by {
      ReplyMeans(TimeCmd, now);
    }
  }

  method PipeUsboulHandler(list: List)
    requires list.Valid()
    modifies list, list.linklistTail`next
    ensures list.Valid()
    ensures list.contents == old(list.contents) + [Payload([65, 88, 88, 43, 85, 83, 66, 43, 79, 85, 76, 38], 0, UART)]
    ensures fresh(list.linklistTail)
  {
    var data := UsbText();
    var code := list.ReadySendData(UART, Some(data), |data|);
    assert data[..|data|] == data;
  }

  method RunHandler(h: Handler, list: List, now: Time)
    requires list.Valid() && Calendar(now)
    modifies list, list.linklistTail`next
    ensures list.Valid() && list.contents == old(list.contents) + [Reply(h, now)]
    ensures fresh(list.linklistTail)
  {
    match h
    case TimeCmd => ProcessAtTimeCmd(list, now);
    case UsbOul => PipeUsboulHandler(list);
  }

  /** Dispatches one message: every matching handler of the table for its source is counted and run, in table
      order, and each answers with one queued message. `clock` lists the successive readings of the clock. */
  method DataParse(c: Config, src: Option<Buffer>, clock: seq<Time>, list: List,
                   uartAnaly: array<nat>, pipeAnaly: array<nat>)
    requires list.Valid() && uartAnaly != pipeAnaly
    requires |c.uartTable| <= uartAnaly.Length && |c.pipeTable| <= pipeAnaly.Length
    requires |c.uartTable| <= |clock| && |c.pipeTable| <= |clock|
    requires forall i :: 0 <= i < |clock| ==> Calendar(clock[i])
    requires src.Some? ==> Comparable(TableFor(c, src.value.recvFd), src.value.bytes)
    modifies list, list.linklistTail`next, uartAnaly, pipeAnaly
    ensures list.Valid()
    ensures src.None? ==> list.contents == old(list.contents)
    ensures src.Some? ==>
              var fd := src.value.recvFd;
              var table := if fd == c.uartFd then c.uartTable else if fd == c.pipeFd then c.pipeTable else [];
              var fired := Fired(table, src.value.bytes, |table|);
              |fired| <= |clock| && list.contents == old(list.contents) + Replies(fired, clock)
    ensures forall i :: 0 <= i < uartAnaly.Length ==>
              uartAnaly[i] == if && src.Some? && src.value.recvFd == c.uartFd
                                 && i < |c.uartTable| && Matches(c.uartTable[i], src.value.bytes)
                              then (old(uartAnaly[i]) + 1) % 0x1_0000_0000 else old(uartAnaly[i])
    ensures forall i :: 0 <= i < pipeAnaly.Length ==>
              pipeAnaly[i] == if && src.Some? && src.value.recvFd != c.uartFd && src.value.recvFd == c.pipeFd
                                 && i < |c.pipeTable| && Matches(c.pipeTable[i], src.value.bytes)
                              then (old(pipeAnaly[i]) + 1) % 0x1_0000_0000 else old(pipeAnaly[i])
  {
    if src.None? {
      return;
    }
    if src.value.recvFd == c.uartFd {
      RunTable(c.uartTable, src.value.bytes, clock, list, uartAnaly);
    } else if src.value.recvFd == c.pipeFd {
      RunTable(c.pipeTable, src.value.bytes, clock, list, pipeAnaly);
    }
  }

  /** A handler counter after a message: one up, modulo the word size, if its entry matched. */
  function Counted(table: seq<Entry>, bytes: seq<byte>, i: nat, before: nat): nat
  {
    if i < |table| && Matches(table[i], bytes) then (before + 1) % WORD else before
  }

  /** One entry of a table: if it matches, its counter goes up and its handler runs. */
  method RunEntry(table: seq<Entry>, i: nat, bytes: seq<byte>, now: Time, list: List, analy: array<nat>)
    requires list.Valid() && i < |table| && i < analy.Length && Calendar(now)
    requires |table[i].protocol| <= |bytes|
    modifies list, list.linklistTail`next, analy
    ensures list.Valid() && (list.linklistTail == old(list.linklistTail) || fresh(list.linklistTail))
    ensures list.contents ==
            old(list.contents) + if Matches(table[i], bytes) then [Reply(table[i].handler, now)] else []
    ensures forall j :: 0 <= j < analy.Length ==>
              analy[j] == if j == i then Counted(table, bytes, i, old(analy[i])) else old(analy[j])
  {
    if Matches(table[i], bytes) {
      analy[i] := (analy[i] + 1) % WORD;
      RunHandler(table[i].handler, list, now);
    }
  }

  lemma RepliesSnoc(handlers: seq<Handler>, h: Handler, clock: seq<Time>)
    requires |handlers| < |clock|
    ensures Replies(handlers + [h], clock) == Replies(handlers, clock) + [Reply(h, clock[|handlers|])]
  {
  }

  method RunTable(table: seq<Entry>, bytes: seq<byte>, clock: seq<Time>, list: List, analy: array<nat>)
    requires list.Valid() && |table| <= analy.Length && |table| <= |clock|
    requires forall i :: 0 <= i < |clock| ==> Calendar(clock[i])
    requires Comparable(table, bytes)
    modifies list, list.linklistTail`next, analy
    ensures list.Valid()
    ensures |Fired(table, bytes, |table|)| <= |table|
    ensures list.contents == old(list.contents) + Replies(Fired(table, bytes, |table|), clock)
    ensures forall j :: 0 <= j < analy.Length ==> analy[j] == Counted(table, bytes, j, old(analy[j]))
  {
    var i, used := 0, 0;
    while i < |table|
      invariant 0 <= i <= |table| && list.Valid()
      invariant used == |Fired(table, bytes, i)| <= i
      invariant list.linklistTail == old(list.linklistTail) || fresh(list.linklistTail)
      invariant list.contents == old(list.contents) + Replies(Fired(table, bytes, i), clock)
      invariant forall j :: 0 <= j < analy.Length ==>
                  analy[j] == if j < i then Counted(table, bytes, j, old(analy[j])) else old(analy[j])
    {
      RunEntry(table, i, bytes, clock[used], list, analy);
      if Matches(table[i], bytes) {
        RepliesSnoc(Fired(table, bytes, i), table[i].handler, clock);
        used := used + 1;
      }
      i := i + 1;
    }
  }
}

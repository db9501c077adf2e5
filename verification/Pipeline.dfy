/** The daemon's message pipeline as a state machine: receivers fill the receive list, the parser thread
    (`data_process`) answers through the send list, other producers may add to the send list, and the sender
    thread (`send_out_handler`) empties it. Both consumers test their list once and then wait; producers
    signal without holding the mutex of that wait. */
module Pipeline {
  import opened Bytes
  import opened Messages
  import opened TimeMessage
  import opened Dispatch

  /** A message in a list, and whether the parser put it there. */
  datatype Queued = Queued(message: Payload, fromParser: bool)

  /** A list with its histories: everything inserted, everything popped, and how many insertions have yet to
      be signalled. */
  datatype Channel = Channel(list: seq<Queued>, inserted: seq<Queued>, popped: seq<Queued>, unsignalled: nat)

  /** Where `data_process` stands. `AboutToWait` is between the test of the list and the wait; `At(i)` tests
      entry `i` of the table; `Inserting` and `Signalling` are inside the handler of the entry. */
  datatype ParserPc =
    | Checking
    | AboutToWait
    | Asleep
    | Zeroing
    | Popping
    | PopLocked
    | At(entry: nat)
    | Inserting(entry: nat)
    | Signalling(entry: nat)

  datatype SenderPc = SChecking | SAboutToWait | SAsleep | SPopping | SPopLocked | SSending | SClearing

  /** A consumer's node, whether its latest pop filled it, and whether a signal found the consumer between its
      test and its wait with a message in the list. */
  datatype Parser = Parser(pc: ParserPc, node: Buffer, holds: bool, missed: bool)

  datatype Sender = Sender(pc: SenderPc, node: Buffer, holds: bool, missed: bool)

  /** `fired`, `readings` and `requests` are histories: the handlers run by the parser, the clock readings they
      took, and what each pass through the sender's switch was asked to send: to the UART, to the dueros process,
      or to no port at all, and possibly zero bytes. */
  datatype State = State(
    config: Config,
    recv: Channel,
    send: Channel,
    parser: Parser,
    sender: Sender,
    fired: seq<Handler>,
    readings: seq<Time>,
    requests: seq<Payload>)

  datatype ProducerStep =
    | Receive(message: Payload)
    | SignalReceived
    | Enqueue(message: Payload)
    | SignalEnqueued

  datatype ParserStep = Check | Wait | Wake | Zero | Pop | PopInLock | Test | Insert(now: Time) | Signal

  datatype SenderStep = SCheck | SWait | SWake | SPop | SPopInLock | SSend | SClear

  datatype Step = ByProducer(p: ProducerStep) | ByParser(q: ParserStep) | BySender(r: SenderStep)

  /** What fits the consumers' nodes: between 1 and 1024 bytes. */
  predicate Fitting(p: Payload)
  {
    0 < |p.data| <= NODE_SIZE
  }

  function Zeros(): (r: seq<byte>)
    ensures |r| == NODE_SIZE
  {
    Fill(0, NODE_SIZE)
  }

  /** The handler table for the message in the parser's node. */
  function Table(s: State): seq<Entry>
  {
    TableFor(s.config, s.parser.node.recvFd)
  }

  predicate Init(s: State)
  {
    && Named(s.config.uartTable, NODE_SIZE) && Named(s.config.pipeTable, NODE_SIZE)
    && s.recv == s.send == Channel([], [], [], 0)
    && s.parser == Parser(Checking, Buffer(Zeros(), 0, 0, NoPort), false, false)
    && s.sender == Sender(SChecking, Buffer(Zeros(), 0, 0, NoPort), false, false)
    && s.fired == [] && s.readings == [] && s.requests == []
  }

  function Add(c: Channel, q: Queued): Channel
  {
    c.(list := c.list + [q], inserted := c.inserted + [q])
  }

  function Remove(c: Channel): Channel
    requires c.list != []
  {
    c.(list := c.list[1..], popped := c.popped + [c.list[0]])
  }

  predicate Loadable(c: Channel, node: Buffer)
  {
    c.list != [] && |c.list[0].message.data| <= |node.bytes|
  }

  /** A signal on a consumer's condition wakes it if it is asleep, and is lost otherwise. */
  function SignalParser(c: Channel, p: Parser): Parser
  {
    if p.pc.Asleep? then p.(pc := Zeroing)
    else p.(missed := p.missed || (p.pc.AboutToWait? && c.list != []))
  }

  function SignalSender(c: Channel, p: Sender): Sender
  {
    if p.pc.SAsleep? then p.(pc := SPopping)
    else p.(missed := p.missed || (p.pc.SAboutToWait? && c.list != []))
  }

  predicate ProducerCan(s: State, step: ProducerStep)
  {
    match step
    case Receive(message) => Fitting(message)
    case SignalReceived => s.recv.unsignalled > 0
    case Enqueue(message) => Fitting(message)
    case SignalEnqueued => s.send.unsignalled > 0
  }

  /** A receiver inserts a message; its signal is still to come. */
  function Received(s: State, message: Payload): State
  {
    s.(recv := Add(s.recv, Queued(message, false)).(unsignalled := s.recv.unsignalled + 1))
  }

  function ProducerDoes(s: State, step: ProducerStep): State
    requires ProducerCan(s, step)
  {
    match step
    case Receive(message) => Received(s, message)
    case SignalReceived =>
      s.(parser := SignalParser(s.recv, s.parser), recv := s.recv.(unsignalled := s.recv.unsignalled - 1))
    case Enqueue(message) =>
      s.(send := Add(s.send, Queued(message, false)).(unsignalled := s.send.unsignalled + 1))
    case SignalEnqueued =>
      s.(sender := SignalSender(s.send, s.sender), send := s.send.(unsignalled := s.send.unsignalled - 1))
  }

  predicate ParserCan(s: State, step: ParserStep)
  {
    match step
    case Check => s.parser.pc.Checking?
    case Wait => s.parser.pc.AboutToWait?
    case Wake => s.parser.pc.Asleep?
    case Zero => s.parser.pc.Zeroing?
    case Pop => s.parser.pc.Popping?
    case PopInLock => s.parser.pc.PopLocked? && Loadable(s.recv, s.parser.node)
    case Test => s.parser.pc.At?
    case Insert(now) => s.parser.pc.Inserting? && s.parser.pc.entry < |Table(s)| && Calendar(now)
    case Signal => s.parser.pc.Signalling?
  }

  function TestResult(table: seq<Entry>, i: nat, bytes: seq<byte>): ParserPc
  {
    if i >= |table| then Checking
    else if Matches(table[i], bytes) then Inserting(i)
    else At(i + 1)
  }

  function ParserDoes(s: State, step: ParserStep): State
    requires ParserCan(s, step)
  {
    match step
    case Check =>
      if s.recv.list == [] then s.(parser := s.parser.(pc := AboutToWait, missed := false))
      else s.(parser := s.parser.(pc := Zeroing))
    case Wait => s.(parser := s.parser.(pc := Asleep))
    case Wake => s.(parser := s.parser.(pc := Zeroing))
    case Zero =>
      s.(parser := s.parser.(pc := Popping, node := s.parser.node.(bytes := Zeros()), holds := false))
    case Pop => s.(parser := s.parser.(pc := if s.recv.list == [] then At(0) else PopLocked))
    case PopInLock =>
      s.(parser := s.parser.(pc := At(0), node := Load(s.parser.node, s.recv.list[0].message), holds := true),
         recv := Remove(s.recv))
    case Test => s.(parser := s.parser.(pc := TestResult(Table(s), s.parser.pc.entry, s.parser.node.bytes)))
    case Insert(now) =>
      var h := Table(s)[s.parser.pc.entry].handler;
      s.(parser := s.parser.(pc := Signalling(s.parser.pc.entry)),
         send := Add(s.send, Queued(Reply(h, now), true)),
         fired := s.fired + [h], readings := s.readings + [now])
    case Signal =>
      s.(parser := s.parser.(pc := At(s.parser.pc.entry + 1)), sender := SignalSender(s.send, s.sender))
  }

  predicate SenderCan(s: State, step: SenderStep)
  {
    match step
    case SCheck => s.sender.pc.SChecking?
    case SWait => s.sender.pc.SAboutToWait?
    case SWake => s.sender.pc.SAsleep?
    case SPop => s.sender.pc.SPopping?
    case SPopInLock => s.sender.pc.SPopLocked? && Loadable(s.send, s.sender.node)
    case SSend => s.sender.pc.SSending? && s.sender.node.dataLen <= |s.sender.node.bytes|
    case SClear => s.sender.pc.SClearing?
  }

  /** The request made of the channel named in a node: its first `dataLen` bytes. */
  function Request(n: Buffer): Payload
    requires n.dataLen <= |n.bytes|
  {
    Payload(n.bytes[..n.dataLen], n.recvFd, n.sendTo)
  }

  function SenderDoes(s: State, step: SenderStep): State
    requires SenderCan(s, step)
  {
    match step
    case SCheck =>
      if s.send.list == [] then s.(sender := s.sender.(pc := SAboutToWait, missed := false))
      else s.(sender := s.sender.(pc := SPopping))
    case SWait => s.(sender := s.sender.(pc := SAsleep))
    case SWake => s.(sender := s.sender.(pc := SPopping))
    case SPop =>
      if s.send.list == [] then s.(sender := s.sender.(pc := SSending, holds := false))
      else s.(sender := s.sender.(pc := SPopLocked))
    case SPopInLock =>
      s.(sender := s.sender.(pc := SSending, node := Load(s.sender.node, s.send.list[0].message), holds := true),
         send := Remove(s.send))
    case SSend => s.(sender := s.sender.(pc := SClearing), requests := s.requests + [Request(s.sender.node)])
    case SClear =>
      s.(sender := s.sender.(pc := SChecking, node := Buffer(Zeros(), 0, -1, s.sender.node.sendTo), holds := false))
  }

  predicate Enabled(s: State, step: Step)
  {
    match step
    case ByProducer(p) => ProducerCan(s, p)
    case ByParser(q) => ParserCan(s, q)
    case BySender(r) => SenderCan(s, r)
  }

  function Next(s: State, step: Step): State
    requires Enabled(s, step)
  {
    match step
    case ByProducer(p) => ProducerDoes(s, p)
    case ByParser(q) => ParserDoes(s, q)
    case BySender(r) => SenderDoes(s, r)
  }

  datatype Run = Run(states: seq<State>, steps: seq<Step>)

  ghost predicate StepAt(run: Run, i: nat)
    requires |run.states| == |run.steps| + 1 && i < |run.steps|
  {
    Enabled(run.states[i], run.steps[i]) && run.states[i + 1] == Next(run.states[i], run.steps[i])
  }

  ghost predicate IsRun(run: Run)
  {
    && |run.states| == |run.steps| + 1
    && Init(run.states[0])
    && forall i :: 0 <= i < |run.steps| ==> StepAt(run, i)
  }
}

/** What every reachable state of the pipeline satisfies. */
module PipelineInvariant {
  import opened Bytes
  import opened CStrings
  import opened Messages
  import opened TimeMessage
  import opened Dispatch
  import opened Pipeline

  /** A list holds what was inserted and not yet popped, and only messages that fit a consumer's node. */
  predicate Conserved(c: Channel)
  {
    c.inserted == c.popped + c.list && forall i :: 0 <= i < |c.inserted| ==> Fitting(c.inserted[i].message)
  }

  /** A consumer that found its list non-empty outside the list mutex still finds it so inside. */
  predicate PopsHaveANode(s: State)
  {
    && (s.parser.pc.PopLocked? ==> s.recv.list != [])
    && (s.sender.pc.SPopLocked? ==> s.send.list != [])
    && |s.parser.node.bytes| == NODE_SIZE && |s.sender.node.bytes| == NODE_SIZE
  }

  predicate Parsing(pc: ParserPc)
  {
    pc.At? || pc.Inserting? || pc.Signalling?
  }

  function Padded(data: seq<byte>): seq<byte>
    requires |data| <= NODE_SIZE
  {
    data + Fill(0, NODE_SIZE - |data|)
  }

  /** The node shows message `m`, zero-padded. */
  predicate Shows(node: Buffer, m: Payload)
  {
    |m.data| <= NODE_SIZE && node.bytes == Padded(m.data) && node.recvFd == m.recvFd
  }

  predicate NamedTables(c: Config)
  {
    Named(c.uartTable, NODE_SIZE) && Named(c.pipeTable, NODE_SIZE)
  }

  /** While a message is dispatched the node shows exactly that message; without a popped message it shows
      zeros only, and no handler runs. */
  predicate NodeShowsMessage(s: State)
  {
    && NamedTables(s.config)
    && (s.parser.pc.Popping? || s.parser.pc.PopLocked? ==> !s.parser.holds && s.parser.node.bytes == Zeros())
    && (Parsing(s.parser.pc) && !s.parser.holds ==> s.parser.pc.At? && s.parser.node.bytes == Zeros())
    && (Parsing(s.parser.pc) && s.parser.holds ==>
          s.recv.popped != [] && Shows(s.parser.node, s.recv.popped[|s.recv.popped| - 1].message))
    && (Parsing(s.parser.pc) && s.parser.holds ==> EntriesDone(s.parser.pc) <= |Table(s)|)
    && (s.parser.pc.Inserting? || s.parser.pc.Signalling? ==>
          && s.parser.holds && s.parser.pc.entry < |Table(s)|
          && Matches(Table(s)[s.parser.pc.entry], s.parser.node.bytes))
  }

  /** How many entries of the current table have been dealt with. */
  function EntriesDone(pc: ParserPc): nat
  {
    match pc
    case At(i) => i
    case Inserting(i) => i
    case Signalling(i) => i + 1
    case _ => 0
  }

  /** The handlers, in table order, of the first `i` entries whose name begins the message. */
  function Answering(table: seq<Entry>, data: seq<byte>, i: nat): seq<Handler>
    requires i <= |table|
  {
    if i == 0 then []
    else Answering(table, data, i - 1) + if table[i - 1].protocol <= data then [table[i - 1].handler] else []
  }

  function AnsweringAll(c: Config, m: Payload): seq<Handler>
  {
    var table := TableFor(c, m.recvFd);
    Answering(table, m.data, |table|)
  }

  /** The handlers answering a sequence of messages, message by message. */
  function Answers(c: Config, qs: seq<Queued>): seq<Handler>
  {
    if qs == [] then [] else Answers(c, qs[..|qs| - 1]) + AnsweringAll(c, qs[|qs| - 1].message)
  }

  /** What the parser should have fired by now. */
  function Expected(s: State): seq<Handler>
    requires NodeShowsMessage(s)
  {
    if Parsing(s.parser.pc) && s.parser.holds then
      var n := |s.recv.popped|;
      Answers(s.config, s.recv.popped[..n - 1])
      + Answering(Table(s), s.recv.popped[n - 1].message.data, EntriesDone(s.parser.pc))
    else
      Answers(s.config, s.recv.popped)
  }

  predicate FiredAsExpected(s: State)
  {
    NodeShowsMessage(s) && s.fired == Expected(s)
  }

  /** The messages among `qs` that the parser inserted. */
  function FromParser(qs: seq<Queued>): seq<Payload>
  {
    if qs == [] then []
    else
      var last := qs[|qs| - 1];
      FromParser(qs[..|qs| - 1]) + if last.fromParser then [last.message] else []
  }

  /** The parser's insertions into the send list are the replies of the handlers it ran, in order. */
  predicate RepliesQueued(s: State)
  {
    && |s.fired| == |s.readings|
    && (forall i :: 0 <= i < |s.readings| ==> Calendar(s.readings[i]))
    && FromParser(s.send.inserted) == Replies(s.fired, s.readings)
  }

  function MessagesOf(qs: seq<Queued>): (r: seq<Payload>)
    ensures |r| == |qs| && forall i :: 0 <= i < |qs| ==> r[i] == qs[i].message
  {
    seq(|qs|, i requires 0 <= i < |qs| => qs[i].message)
  }

  function NonEmpty(ps: seq<Payload>): seq<Payload>
  {
    if ps == [] then []
    else
      var last := ps[|ps| - 1];
      NonEmpty(ps[..|ps| - 1]) + if last.data != [] then [last] else []
  }

  predicate InFlight(p: Sender)
  {
    p.pc.SSending? && p.holds
  }

  /** The messages popped for sending whose request has been made. */
  function Requested(s: State): seq<Queued>
  {
    if InFlight(s.sender) && s.send.popped != [] then s.send.popped[..|s.send.popped| - 1] else s.send.popped
  }

  /** The sender's node holds a message only from its pop to its request, and every popped message becomes
      exactly one request. */
  predicate RequestsConserved(s: State)
  {
    && (InFlight(s.sender) ==>
          && s.send.popped != []
          && s.sender.node.dataLen <= |s.sender.node.bytes|
          && s.send.popped[|s.send.popped| - 1].message == Request(s.sender.node))
    && (!InFlight(s.sender) && !s.sender.pc.SClearing? ==> s.sender.node.dataLen == 0)
    && NonEmpty(s.requests) == MessagesOf(Requested(s))
  }

  /** A message behind the back of the waiting parser has a signal still to come, or its signal was missed. */
  predicate ReceiveSignalsAccounted(s: State)
  {
    s.parser.pc.AboutToWait? || s.parser.pc.Asleep? ==>
      && (s.parser.missed ==> s.recv.list != [])
      && (s.recv.list != [] && !s.parser.missed ==> s.recv.unsignalled > 0)
  }

  predicate SendSignalsAccounted(s: State)
  {
    s.sender.pc.SAboutToWait? || s.sender.pc.SAsleep? ==>
      && (s.sender.missed ==> s.send.list != [])
      && (s.send.list != [] && !s.sender.missed ==> s.send.unsignalled > 0 || s.parser.pc.Signalling?)
  }

  predicate Inv(s: State)
  {
    && Conserved(s.recv) && Conserved(s.send)
    && PopsHaveANode(s)
    && FiredAsExpected(s)
    && RepliesQueued(s)
    && RequestsConserved(s)
    && ReceiveSignalsAccounted(s) && SendSignalsAccounted(s)
  }

  lemma StepKeepsRecv(s: State, step: Step)
    requires Conserved(s.recv) && Enabled(s, step)
    ensures Conserved(Next(s, step).recv)
  {
  }

  lemma StepKeepsSend(s: State, step: Step)
    requires Conserved(s.send) && Enabled(s, step)
    ensures Conserved(Next(s, step).send)
  {
    if step.ByParser? && step.q.Insert? {
      ReplyFits(Table(s)[s.parser.pc.entry].handler, step.q.now);
    }
  }

  lemma ParserKeepsPops(s: State, step: ParserStep)
    requires PopsHaveANode(s) && ParserCan(s, step)
    ensures PopsHaveANode(ParserDoes(s, step))
  {
  }

  lemma SenderKeepsPops(s: State, step: SenderStep)
    requires PopsHaveANode(s) && SenderCan(s, step)
    ensures PopsHaveANode(SenderDoes(s, step))
  {
  }

  lemma ProducerKeepsPops(s: State, step: ProducerStep)
    requires PopsHaveANode(s) && ProducerCan(s, step)
    ensures PopsHaveANode(ProducerDoes(s, step))
  {
  }

  lemma StepKeepsPops(s: State, step: Step)
    requires PopsHaveANode(s) && Enabled(s, step)
    ensures PopsHaveANode(Next(s, step))
  {
    match step {
      case ByParser(q) => ParserKeepsPops(s, q);
      case BySender(r) => SenderKeepsPops(s, r);
      case ByProducer(p) => ProducerKeepsPops(s, p);
    }
  }

  lemma StepKeepsReceiveSignals(s: State, step: Step)
    requires ReceiveSignalsAccounted(s) && Enabled(s, step)
    ensures ReceiveSignalsAccounted(Next(s, step))
  {
  }

  lemma StepKeepsSendSignals(s: State, step: Step)
    requires SendSignalsAccounted(s) && Enabled(s, step)
    ensures SendSignalsAccounted(Next(s, step))
  {
  }

  /** Named handlers never match a zeroed node. */
  lemma ZerosMatchNothing(e: Entry)
    requires e.protocol != [] && NoZero(e.protocol)
    ensures !Matches(e, Zeros())
  {
    MatchesIsPrefix(e, [], NODE_SIZE);
    assert [] + Zeros() == Zeros();
  }

  lemma TestKeepsNode(s: State)
    requires NodeShowsMessage(s) && ParserCan(s, Test)
    ensures NodeShowsMessage(ParserDoes(s, Test))
  {
    var i := s.parser.pc.entry;
    if i < |Table(s)| {
      ZerosMatchNothing(Table(s)[i]);
    }
  }

  lemma PopKeepsNode(s: State)
    requires NodeShowsMessage(s) && Conserved(s.recv) && ParserCan(s, PopInLock)
    requires |s.parser.node.bytes| == NODE_SIZE
    ensures NodeShowsMessage(ParserDoes(s, PopInLock))
  {
    var m := s.recv.list[0].message;
    assert s.recv.list[0] == s.recv.inserted[|s.recv.popped|];
    assert Load(s.parser.node, m).bytes == Padded(m.data);
  }

  lemma ParserKeepsNode(s: State, step: ParserStep)
    requires NodeShowsMessage(s) && PopsHaveANode(s) && Conserved(s.recv) && ParserCan(s, step)
    ensures NodeShowsMessage(ParserDoes(s, step))
  {
    match step {
      case Test => TestKeepsNode(s);
      case PopInLock => PopKeepsNode(s);
      case _ =>
    }
  }

  /** All that the other threads do to the parser is to wake it. */
  predicate OnlyWoken(s: State, t: State)
  {
    && t.config == s.config && t.recv.popped == s.recv.popped && t.fired == s.fired
    && t.parser.node == s.parser.node && t.parser.holds == s.parser.holds
    && (t.parser.pc == s.parser.pc || (s.parser.pc.Asleep? && t.parser.pc.Zeroing?))
  }

  lemma OthersOnlyWakeParser(s: State, step: Step)
    requires Enabled(s, step) && !step.ByParser?
    ensures OnlyWoken(s, Next(s, step))
  {
  }

  lemma WakingKeepsNode(s: State, t: State)
    requires NodeShowsMessage(s) && OnlyWoken(s, t)
    ensures NodeShowsMessage(t)
  {
  }

  /** In the node of a parsed message an entry matches exactly if its name begins the message. */
  lemma MatchInNode(s: State, i: nat)
    requires NodeShowsMessage(s) && Parsing(s.parser.pc) && s.parser.holds && i < |Table(s)|
    ensures Matches(Table(s)[i], s.parser.node.bytes)
            <==> Table(s)[i].protocol <= s.recv.popped[|s.recv.popped| - 1].message.data
  {
    var m := s.recv.popped[|s.recv.popped| - 1].message;
    MatchesIsPrefix(Table(s)[i], m.data, NODE_SIZE - |m.data|);
  }

  /** The end of the table: every answer to the message has been given. */
  lemma TableEndKeepsFired(s: State)
    requires FiredAsExpected(s) && ParserCan(s, Test) && s.parser.pc.entry >= |Table(s)|
    ensures FiredAsExpected(ParserDoes(s, Test))
  {
    TestKeepsNode(s);
    var t := ParserDoes(s, Test);
    var n := |s.recv.popped|;
    if s.parser.holds {
      assert Answers(s.config, s.recv.popped)
          == Answers(s.config, s.recv.popped[..n - 1]) + AnsweringAll(s.config, s.recv.popped[n - 1].message);
    }
    assert Expected(t) == Answers(s.config, s.recv.popped);
  }

  /** What has been fired stays as expected while message, node source and, during a dispatch, table position stay. */
  lemma SamePositionKeepsFired(s: State, t: State)
    requires FiredAsExpected(s) && NodeShowsMessage(t)
    requires t.config == s.config && t.recv.popped == s.recv.popped && t.fired == s.fired
    requires (Parsing(t.parser.pc) && t.parser.holds) == (Parsing(s.parser.pc) && s.parser.holds)
    requires t.parser.node.recvFd == s.parser.node.recvFd
    requires Parsing(s.parser.pc) && s.parser.holds ==> EntriesDone(t.parser.pc) == EntriesDone(s.parser.pc)
    ensures FiredAsExpected(t)
  {
  }

  /** Past one more entry, its handler has been fired exactly if its name begins the message. */
  lemma NextPositionKeepsFired(s: State, t: State)
    requires FiredAsExpected(s) && NodeShowsMessage(t)
    requires t.config == s.config && t.recv.popped == s.recv.popped && t.parser.node == s.parser.node
    requires Parsing(s.parser.pc) && s.parser.holds && Parsing(t.parser.pc) && t.parser.holds
    requires EntriesDone(t.parser.pc) == EntriesDone(s.parser.pc) + 1 <= |Table(s)|
    requires var e := Table(s)[EntriesDone(s.parser.pc)];
             t.fired == s.fired + if Matches(e, s.parser.node.bytes) then [e.handler] else []
    ensures FiredAsExpected(t)
  {
    MatchInNode(s, EntriesDone(s.parser.pc));
  }

  lemma TestKeepsFired(s: State)
    requires FiredAsExpected(s) && ParserCan(s, Test) && s.parser.pc.entry < |Table(s)|
    ensures FiredAsExpected(ParserDoes(s, Test))
  {
    TestKeepsNode(s);
    ZerosMatchNothing(Table(s)[s.parser.pc.entry]);
    var t := ParserDoes(s, Test);
    if s.parser.holds && t.parser.pc.At? {
      NextPositionKeepsFired(s, t);
    } else {
      SamePositionKeepsFired(s, t);
    }
  }

  lemma InsertKeepsNode(s: State, now: Time)
    requires NodeShowsMessage(s) && ParserCan(s, Insert(now))
    ensures NodeShowsMessage(ParserDoes(s, Insert(now)))
  {
  }

  lemma InsertKeepsFired(s: State, now: Time)
    requires FiredAsExpected(s) && ParserCan(s, Insert(now))
    ensures FiredAsExpected(ParserDoes(s, Insert(now)))
  {
    InsertKeepsNode(s, now);
    NextPositionKeepsFired(s, ParserDoes(s, Insert(now)));
  }

  lemma PopKeepsFired(s: State)
    requires FiredAsExpected(s) && PopsHaveANode(s) && Conserved(s.recv) && ParserCan(s, PopInLock)
    ensures FiredAsExpected(ParserDoes(s, PopInLock))
  {
    PopKeepsNode(s);
    var t := ParserDoes(s, PopInLock);
    assert t.recv.popped[..|t.recv.popped| - 1] == s.recv.popped;
    assert Expected(t) == Answers(s.config, s.recv.popped) + [];
  }

  lemma QuietStepKeepsPosition(s: State, step: ParserStep)
    requires NodeShowsMessage(s) && ParserCan(s, step)
    requires !step.Test? && !step.Insert? && !step.PopInLock?
    ensures var t := ParserDoes(s, step);
            && t.config == s.config && t.recv.popped == s.recv.popped && t.fired == s.fired
            && (Parsing(t.parser.pc) && t.parser.holds) == (Parsing(s.parser.pc) && s.parser.holds)
            && t.parser.node.recvFd == s.parser.node.recvFd && EntriesDone(t.parser.pc) == EntriesDone(s.parser.pc)
  {
  }

  lemma QuietStepKeepsFired(s: State, step: ParserStep)
    requires FiredAsExpected(s) && PopsHaveANode(s) && Conserved(s.recv) && ParserCan(s, step)
    requires !step.Test? && !step.Insert? && !step.PopInLock?
    ensures FiredAsExpected(ParserDoes(s, step))
  {
    ParserKeepsNode(s, step);
    QuietStepKeepsPosition(s, step);
    SamePositionKeepsFired(s, ParserDoes(s, step));
  }

  lemma ParserKeepsFired(s: State, step: ParserStep)
    requires FiredAsExpected(s) && PopsHaveANode(s) && Conserved(s.recv) && ParserCan(s, step)
    ensures FiredAsExpected(ParserDoes(s, step))
  {
    match step {
      case Test =>
        if s.parser.pc.entry < |Table(s)| {
          TestKeepsFired(s);
        } else {
          TableEndKeepsFired(s);
        }
      case Insert(now) => InsertKeepsFired(s, now);
      case PopInLock => PopKeepsFired(s);
      case _ => QuietStepKeepsFired(s, step);
    }
  }

  lemma OthersKeepFired(s: State, step: Step)
    requires FiredAsExpected(s) && Enabled(s, step) && !step.ByParser?
    ensures FiredAsExpected(Next(s, step))
  {
    OthersOnlyWakeParser(s, step);
    WakingKeepsNode(s, Next(s, step));
    SamePositionKeepsFired(s, Next(s, step));
  }

  /** Appending to the send list appends to the parser's part of it just when the parser did it. */
  lemma FromParserAppend(qs: seq<Queued>, q: Queued)
    ensures FromParser(qs + [q]) == FromParser(qs) + if q.fromParser then [q.message] else []
  {
    assert (qs + [q])[..|qs|] == qs;
  }

  lemma InsertKeepsReplies(s: State, now: Time)
    requires RepliesQueued(s) && ParserCan(s, Insert(now))
    ensures RepliesQueued(ParserDoes(s, Insert(now)))
  {
    var h := Table(s)[s.parser.pc.entry].handler;
    FromParserAppend(s.send.inserted, Queued(Reply(h, now), true));
    assert Replies(s.fired + [h], s.readings + [now]) == Replies(s.fired, s.readings) + [Reply(h, now)];
  }

  lemma EnqueueKeepsReplies(s: State, message: Payload)
    requires RepliesQueued(s) && ProducerCan(s, Enqueue(message))
    ensures RepliesQueued(ProducerDoes(s, Enqueue(message)))
  {
    FromParserAppend(s.send.inserted, Queued(message, false));
  }

  lemma OthersInsertNothing(s: State, step: Step)
    requires Enabled(s, step)
    requires !(step.ByParser? && step.q.Insert?) && !(step.ByProducer? && step.p.Enqueue?)
    ensures var t := Next(s, step);
            t.fired == s.fired && t.readings == s.readings && t.send.inserted == s.send.inserted
  {
  }

  lemma StepKeepsReplies(s: State, step: Step)
    requires RepliesQueued(s) && Enabled(s, step)
    ensures RepliesQueued(Next(s, step))
  {
    if step.ByParser? && step.q.Insert? {
      InsertKeepsReplies(s, step.q.now);
    } else if step.ByProducer? && step.p.Enqueue? {
      EnqueueKeepsReplies(s, step.p.message);
    } else {
      OthersInsertNothing(s, step);
    }
  }

  lemma NonEmptyAppend(ps: seq<Payload>, p: Payload)
    ensures NonEmpty(ps + [p]) == NonEmpty(ps) + if p.data != [] then [p] else []
  {
    assert (ps + [p])[..|ps|] == ps;
  }

  lemma MessagesOfLast(qs: seq<Queued>)
    requires qs != []
    ensures MessagesOf(qs) == MessagesOf(qs[..|qs| - 1]) + [qs[|qs| - 1].message]
  {
  }

  lemma SendKeepsRequests(s: State)
    requires RequestsConserved(s) && Conserved(s.send) && SenderCan(s, SSend)
    ensures RequestsConserved(SenderDoes(s, SSend))
  {
    NonEmptyAppend(s.requests, Request(s.sender.node));
    if s.sender.holds {
      var n := |s.send.popped|;
      assert s.send.popped[n - 1] == s.send.inserted[n - 1];
      MessagesOfLast(s.send.popped);
    }
  }

  lemma SenderKeepsRequests(s: State, step: SenderStep)
    requires RequestsConserved(s) && Conserved(s.send) && SenderCan(s, step)
    ensures RequestsConserved(SenderDoes(s, step))
  {
    match step {
      case SSend => SendKeepsRequests(s);
      case SPopInLock =>
        var t := SenderDoes(s, step);
        assert t.send.popped[..|t.send.popped| - 1] == s.send.popped;
      case _ =>
    }
  }

  /** All that the other threads do to the sender is to wake it. */
  lemma OthersOnlyWakeSender(s: State, step: Step)
    requires Enabled(s, step) && !step.BySender?
    ensures var t := Next(s, step);
            && t.requests == s.requests && t.send.popped == s.send.popped
            && t.sender.node == s.sender.node && t.sender.holds == s.sender.holds
            && (t.sender.pc == s.sender.pc || (s.sender.pc.SAsleep? && t.sender.pc.SPopping?))
  {
  }

  lemma OthersKeepRequests(s: State, t: State)
    requires RequestsConserved(s)
    requires t.requests == s.requests && t.send.popped == s.send.popped
    requires t.sender.node == s.sender.node && t.sender.holds == s.sender.holds
    requires t.sender.pc == s.sender.pc || (s.sender.pc.SAsleep? && t.sender.pc.SPopping?)
    ensures RequestsConserved(t)
  {
  }

  lemma StepKeepsInv(s: State, step: Step)
    requires Inv(s) && Enabled(s, step)
    ensures Inv(Next(s, step))
  {
    StepKeepsRecv(s, step);
    StepKeepsSend(s, step);
    StepKeepsPops(s, step);
    StepKeepsReplies(s, step);
    StepKeepsReceiveSignals(s, step);
    StepKeepsSendSignals(s, step);
    match step {
      case ByParser(q) =>
        ParserKeepsFired(s, q);
        OthersOnlyWakeSender(s, step);
        OthersKeepRequests(s, Next(s, step));
      case BySender(r) =>
        SenderKeepsRequests(s, r);
        OthersKeepFired(s, step);
      case ByProducer(p) =>
        OthersKeepFired(s, step);
        OthersOnlyWakeSender(s, step);
        OthersKeepRequests(s, Next(s, step));
    }
  }

  lemma InitSatisfiesInv(s: State)
    requires Init(s)
    ensures Inv(s)
  {
  }

  lemma StepAtKeepsInv(run: Run, i: nat)
    requires IsRun(run) && i < |run.steps| && Inv(run.states[i])
    ensures Inv(run.states[i + 1])
  {
    assert StepAt(run, i);
    StepKeepsInv(run.states[i], run.steps[i]);
  }

  /** Every state of every run satisfies the invariant. */
  lemma {:induction false} RunSatisfiesInv(run: Run, i: nat)
    requires IsRun(run) && i < |run.states|
    ensures Inv(run.states[i])
  {
    InitSatisfiesInv(run.states[0]);
    if i > 0 {
      RunSatisfiesInv(run, i - 1);
      StepAtKeepsInv(run, i - 1);
    }
  }
}

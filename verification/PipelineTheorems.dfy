/** Order, completeness and wakeups of the pipeline, for every interleaving. */
module PipelineTheorems {
  import opened Bytes
  import opened Messages
  import opened Dispatch
  import opened Pipeline
  import opened PipelineInvariant

  /** The pop inside the list mutex never meets an empty list or a message too long for the node, and both
      consumers pop in the order of insertion. */
  lemma PopsAreSafeAndInOrder(run: Run, i: nat)
    requires IsRun(run) && i < |run.states|
    ensures var s := run.states[i];
            && (s.parser.pc.PopLocked? ==> ParserCan(s, PopInLock))
            && (s.sender.pc.SPopLocked? ==> SenderCan(s, SPopInLock))
            && s.recv.popped <= s.recv.inserted && s.send.popped <= s.send.inserted
            && |s.parser.node.bytes| == |s.sender.node.bytes| == 1024
  {
    RunSatisfiesInv(run, i);
    var s := run.states[i];
    if s.parser.pc.PopLocked? {
      assert s.recv.list[0] == s.recv.inserted[|s.recv.popped|];
    }
    if s.sender.pc.SPopLocked? {
      assert s.send.list[0] == s.send.inserted[|s.send.popped|];
    }
  }

  lemma {:induction false} AnsweringGrows(table: seq<Entry>, data: seq<byte>, i: nat, j: nat)
    requires i <= j <= |table|
    ensures Answering(table, data, i) <= Answering(table, data, j)
    decreases j
  {
    if i < j {
      AnsweringGrows(table, data, i, j - 1);
    }
  }

  lemma {:induction false} AnswersGrow(c: Config, qs: seq<Queued>, n: nat)
    requires n <= |qs|
    ensures Answers(c, qs[..n]) <= Answers(c, qs)
    decreases |qs|
  {
    if n < |qs| {
      AnswersGrow(c, qs[..|qs| - 1], n);
      assert qs[..|qs| - 1][..n] == qs[..n];
    } else {
      assert qs[..n] == qs;
    }
  }

  lemma FiredIsPrefix(s: State)
    requires FiredAsExpected(s) && Conserved(s.recv)
    ensures s.fired <= Answers(s.config, s.recv.popped) <= Answers(s.config, s.recv.inserted)
  {
    AnswersGrow(s.config, s.recv.inserted, |s.recv.popped|);
    assert s.recv.inserted[..|s.recv.popped|] == s.recv.popped;
    if Parsing(s.parser.pc) && s.parser.holds {
      var m := s.recv.popped[|s.recv.popped| - 1].message;
      AnsweringGrows(Table(s), m.data, EntriesDone(s.parser.pc), |Table(s)|);
    }
  }

  /** What the parser puts into the send list: the replies, message by message and in table order, of exactly
      the handlers whose name begins the message. Between two messages nothing is missing. */
  lemma RepliesAreExact(run: Run, i: nat)
    requires IsRun(run) && i < |run.states|
    ensures var s := run.states[i];
            && |s.fired| == |s.readings|
            && FromParser(s.send.inserted) == Replies(s.fired, s.readings)
            && s.fired <= Answers(s.config, s.recv.popped)
            && (!Parsing(s.parser.pc) ==> s.fired == Answers(s.config, s.recv.popped))
  {
    RunSatisfiesInv(run, i);
    FiredIsPrefix(run.states[i]);
  }

  function ForUart(ps: seq<Payload>): seq<Payload>
  {
    if ps == [] then []
    else
      var last := ps[|ps| - 1];
      ForUart(ps[..|ps| - 1]) + if last.sendTo == UART then [last] else []
  }

  lemma {:induction false} ForUartGrows(ps: seq<Payload>, n: nat)
    requires n <= |ps|
    ensures ForUart(ps[..n]) <= ForUart(ps)
    decreases |ps|
  {
    if n < |ps| {
      ForUartGrows(ps[..|ps| - 1], n);
      assert ps[..|ps| - 1][..n] == ps[..n];
    } else {
      assert ps[..n] == ps;
    }
  }

  lemma RequestsArePrefix(s: State)
    requires Inv(s)
    ensures NonEmpty(s.requests) <= MessagesOf(s.send.inserted)
    ensures ForUart(NonEmpty(s.requests)) <= ForUart(MessagesOf(s.send.inserted))
    ensures |s.send.popped| - 1 <= |NonEmpty(s.requests)| <= |s.send.popped|
  {
    var done := NonEmpty(s.requests);
    assert Requested(s) <= s.send.inserted;
    assert done == MessagesOf(s.send.inserted)[..|done|];
    ForUartGrows(MessagesOf(s.send.inserted), |done|);
  }

  /** Leaving out the empty requests, the sender asks for the queued messages in their order of insertion, each
      once; in particular the UART writes are a prefix of the messages queued for the UART. */
  lemma RequestsFollowQueue(run: Run, i: nat)
    requires IsRun(run) && i < |run.states|
    ensures var s := run.states[i];
            && NonEmpty(s.requests) <= MessagesOf(s.send.inserted)
            && ForUart(NonEmpty(s.requests)) <= ForUart(MessagesOf(s.send.inserted))
            && |s.send.popped| - 1 <= |NonEmpty(s.requests)| <= |s.send.popped|
  {
    RunSatisfiesInv(run, i);
    RequestsArePrefix(run.states[i]);
  }

  lemma {:induction false} AllFromParser(qs: seq<Queued>)
    requires forall i :: 0 <= i < |qs| ==> qs[i].fromParser
    ensures FromParser(qs) == MessagesOf(qs)
  {
    if qs != [] {
      AllFromParser(qs[..|qs| - 1]);
      assert MessagesOf(qs) == MessagesOf(qs[..|qs| - 1]) + [qs[|qs| - 1].message];
    }
  }

  predicate OnlyParserQueues(s: State)
  {
    forall j :: 0 <= j < |s.send.inserted| ==> s.send.inserted[j].fromParser
  }

  lemma {:induction false} FromParserGrows(qs: seq<Queued>, n: nat)
    requires n <= |qs|
    ensures FromParser(qs[..n]) <= FromParser(qs)
    decreases |qs|
  {
    if n < |qs| {
      FromParserGrows(qs[..|qs| - 1], n);
      assert qs[..|qs| - 1][..n] == qs[..n];
    } else {
      assert qs[..n] == qs;
    }
  }

  /** What is sent are messages from the front of the send list; those among them that the parser queued are
      replies to what was received, with none missing in between. */
  predicate AnswersReceived(s: State)
  {
    && Requested(s) <= s.send.inserted
    && NonEmpty(s.requests) == MessagesOf(Requested(s))
    && |s.fired| == |s.readings|
    && FromParser(Requested(s)) <= Replies(s.fired, s.readings)
    && s.fired <= Answers(s.config, s.recv.inserted)
  }

  lemma RequestsAnswerReceived(s: State)
    requires Inv(s)
    ensures AnswersReceived(s)
    ensures OnlyParserQueues(s) ==> NonEmpty(s.requests) <= Replies(s.fired, s.readings)
  {
    FiredIsPrefix(s);
    assert Requested(s) == s.send.inserted[..|Requested(s)|];
    FromParserGrows(s.send.inserted, |Requested(s)|);
    if OnlyParserQueues(s) {
      AllFromParser(Requested(s));
    }
  }

  /** End to end, whoever else queues messages. When nobody but the parser does, what leaves the daemon is a
      prefix of the replies to what entered it, in the order in which it entered. */
  lemma EndToEnd(run: Run, i: nat)
    requires IsRun(run) && i < |run.states|
    ensures var s := run.states[i];
            && AnswersReceived(s)
            && (OnlyParserQueues(s) ==> NonEmpty(s.requests) <= Replies(s.fired, s.readings))
  {
    RunSatisfiesInv(run, i);
    RequestsAnswerReceived(run.states[i]);
  }

  /** A consumer that woke to an empty list does nothing: the parser runs a handler only on a message it has
      just popped and that begins with the handler's name, and the sender's request is for zero bytes. */
  lemma EarlyWakeupsAreHarmless(run: Run, i: nat)
    requires IsRun(run) && i < |run.states|
    ensures var s := run.states[i];
            && (s.parser.pc.Inserting? || s.parser.pc.Signalling? ==>
                  && s.parser.holds && s.recv.popped != [] && s.parser.pc.entry < |Table(s)|
                  && Table(s)[s.parser.pc.entry].protocol <= s.recv.popped[|s.recv.popped| - 1].message.data)
            && (s.sender.pc.SSending? ==> SenderCan(s, SSend))
            && (s.sender.pc.SSending? && !s.sender.holds ==> Request(s.sender.node).data == [])
  {
    RunSatisfiesInv(run, i);
    var s := run.states[i];
    if s.parser.pc.Inserting? || s.parser.pc.Signalling? {
      MatchInNode(s, s.parser.pc.entry);
    }
  }

  lemma {:induction false} ListsOnlyGrow(run: Run, i: nat, j: nat)
    requires IsRun(run) && i <= j < |run.states|
    ensures run.states[i].recv.inserted <= run.states[j].recv.inserted
    ensures run.states[i].send.inserted <= run.states[j].send.inserted
    decreases j - i
  {
    if i < j {
      ListsOnlyGrow(run, i, j - 1);
      assert StepAt(run, j - 1);
      StepExtendsLists(run.states[j - 1], run.steps[j - 1]);
    }
  }

  lemma StepExtendsLists(s: State, step: Step)
    requires Enabled(s, step)
    ensures s.recv.inserted <= Next(s, step).recv.inserted && s.send.inserted <= Next(s, step).send.inserted
  {
  }

  /** A consumer decides to wait only when it has popped everything inserted up to that moment. */
  lemma DrainedBeforeWaiting(run: Run, i: nat, j: nat)
    requires IsRun(run) && i <= j < |run.steps|
    ensures run.steps[j] == ByParser(Check) && run.states[j + 1].parser.pc.AboutToWait? ==>
              run.states[i].recv.inserted <= run.states[j].recv.popped
    ensures run.steps[j] == BySender(SCheck) && run.states[j + 1].sender.pc.SAboutToWait? ==>
              run.states[i].send.inserted <= run.states[j].send.popped
  {
    assert StepAt(run, j);
    RunSatisfiesInv(run, j);
    ListsOnlyGrow(run, i, j);
  }

  predicate ParserWaiting(s: State)
  {
    s.parser.pc.AboutToWait? || s.parser.pc.Asleep?
  }

  predicate SenderWaiting(s: State)
  {
    s.sender.pc.SAboutToWait? || s.sender.pc.SAsleep?
  }

  /** The step signals the parser while it stands between its test and its wait with a message in its list. */
  predicate SignalsPastParser(s: State, step: Step)
  {
    step == ByProducer(SignalReceived) && s.parser.pc.AboutToWait? && s.recv.list != []
  }

  predicate SignalsPastSender(s: State, step: Step)
  {
    (step == ByProducer(SignalEnqueued) || step == ByParser(Signal)) && s.sender.pc.SAboutToWait? && s.send.list != []
  }

  /** Such a step lies in the past of state `i`, and the parser has been waiting ever since. */
  ghost predicate ParserSignalMissed(run: Run, i: nat)
    requires IsRun(run) && i < |run.states|
  {
    exists j: nat | j < i ::
      SignalsPastParser(run.states[j], run.steps[j]) && forall k :: j < k <= i ==> ParserWaiting(run.states[k])
  }

  ghost predicate SenderSignalMissed(run: Run, i: nat)
    requires IsRun(run) && i < |run.states|
  {
    exists j: nat | j < i ::
      SignalsPastSender(run.states[j], run.steps[j]) && forall k :: j < k <= i ==> SenderWaiting(run.states[k])
  }

  lemma ParserMissedStep(s: State, step: Step)
    requires Enabled(s, step) && ParserWaiting(Next(s, step))
    ensures Next(s, step).parser.missed <==> ParserWaiting(s) && (s.parser.missed || SignalsPastParser(s, step))
  {
  }

  lemma SenderMissedStep(s: State, step: Step)
    requires Enabled(s, step) && SenderWaiting(Next(s, step))
    ensures Next(s, step).sender.missed <==> SenderWaiting(s) && (s.sender.missed || SignalsPastSender(s, step))
  {
  }

  /** The history bit of a waiting parser records exactly that event of the run. */
  lemma {:induction false} ParserMissedIsEvent(run: Run, i: nat)
    requires IsRun(run) && i < |run.states| && ParserWaiting(run.states[i])
    ensures run.states[i].parser.missed <==> ParserSignalMissed(run, i)
  {
    if i > 0 {
      assert StepAt(run, i - 1);
      var s, step := run.states[i - 1], run.steps[i - 1];
      ParserMissedStep(s, step);
      if ParserWaiting(s) {
        ParserMissedIsEvent(run, i - 1);
        if ParserSignalMissed(run, i - 1) {
          var j: nat :| j < i - 1 && SignalsPastParser(run.states[j], run.steps[j])
                        && forall k :: j < k <= i - 1 ==> ParserWaiting(run.states[k]);
          assert forall k :: j < k <= i ==> ParserWaiting(run.states[k]);
        }
        if SignalsPastParser(s, step) {
          assert forall k :: i - 1 < k <= i ==> ParserWaiting(run.states[k]);
        }
      }
    }
  }

  lemma {:induction false} SenderMissedIsEvent(run: Run, i: nat)
    requires IsRun(run) && i < |run.states| && SenderWaiting(run.states[i])
    ensures run.states[i].sender.missed <==> SenderSignalMissed(run, i)
  {
    if i > 0 {
      assert StepAt(run, i - 1);
      var s, step := run.states[i - 1], run.steps[i - 1];
      SenderMissedStep(s, step);
      if SenderWaiting(s) {
        SenderMissedIsEvent(run, i - 1);
        if SenderSignalMissed(run, i - 1) {
          var j: nat :| j < i - 1 && SignalsPastSender(run.states[j], run.steps[j])
                        && forall k :: j < k <= i - 1 ==> SenderWaiting(run.states[k]);
          assert forall k :: j < k <= i ==> SenderWaiting(run.states[k]);
        }
        if SignalsPastSender(s, step) {
          assert forall k :: i - 1 < k <= i ==> SenderWaiting(run.states[k]);
        }
      }
    }
  }

  /** When a sleeping consumer is stranded: with no signal still to come, it sleeps on a non-empty list exactly
      if, since its test of the list, a signal was sent before it slept and with a message in the list. */
  lemma StrandedIff(run: Run, i: nat)
    requires IsRun(run) && i < |run.states|
    ensures var s := run.states[i];
            && (s.parser.pc.Asleep? && s.recv.unsignalled == 0 ==>
                  (s.recv.list != [] <==> ParserSignalMissed(run, i)))
            && (s.sender.pc.SAsleep? && s.send.unsignalled == 0 && !s.parser.pc.Signalling? ==>
                  (s.send.list != [] <==> SenderSignalMissed(run, i)))
  {
    RunSatisfiesInv(run, i);
    if run.states[i].parser.pc.Asleep? {
      ParserMissedIsEvent(run, i);
    }
    if run.states[i].sender.pc.SAsleep? {
      SenderMissedIsEvent(run, i);
    }
  }

  /** The signal of a first message arrives between the parser's test of the list and its wait. */
  function StrandedRun(c: Config, m: Payload): Run
  {
    var nobody := Buffer(Zeros(), 0, 0, NoPort);
    var q := Queued(m, false);
    var s0 := State(c, Channel([], [], [], 0), Channel([], [], [], 0), Parser(Checking, nobody, false, false),
                    Sender(SChecking, nobody, false, false), [], [], []);
    var s1 := s0.(parser := Parser(AboutToWait, nobody, false, false));
    var s2 := s1.(recv := Channel([q], [q], [], 1));
    var s3 := s2.(recv := Channel([q], [q], [], 0), parser := Parser(AboutToWait, nobody, false, true));
    var s4 := s3.(parser := Parser(Asleep, nobody, false, true));
    Run([s0, s1, s2, s3, s4],
        [ByParser(Check), ByProducer(Receive(m)), ByProducer(SignalReceived), ByParser(Wait)])
  }

  /** The wait is not safe: this run leaves the parser asleep on a received message with no signal to come. */
  lemma WakeupCanBeLost(c: Config, m: Payload)
    requires NamedTables(c) && Fitting(m)
    ensures var run := StrandedRun(c, m);
            && IsRun(run)
            && var s := run.states[4];
               s.parser.pc.Asleep? && s.recv.unsignalled == 0 && s.recv.list == [Queued(m, false)]
  {
    var run := StrandedRun(c, m);
    assert StepAt(run, 0);
    assert StepAt(run, 1);
    assert StepAt(run, 2);
    assert StepAt(run, 3);
    forall i | 0 <= i < |run.steps|
      ensures StepAt(run, i)
    {
      assert i == 0 || i == 1 || i == 2 || i == 3;
    }
  }

  /** The same for the sender, with a message queued by another producer. */
  function StrandedSenderRun(c: Config, m: Payload): Run
  {
    var nobody := Buffer(Zeros(), 0, 0, NoPort);
    var q := Queued(m, false);
    var s0 := State(c, Channel([], [], [], 0), Channel([], [], [], 0), Parser(Checking, nobody, false, false),
                    Sender(SChecking, nobody, false, false), [], [], []);
    var s1 := s0.(sender := Sender(SAboutToWait, nobody, false, false));
    var s2 := s1.(send := Channel([q], [q], [], 1));
    var s3 := s2.(send := Channel([q], [q], [], 0), sender := Sender(SAboutToWait, nobody, false, true));
    var s4 := s3.(sender := Sender(SAsleep, nobody, false, true));
    Run([s0, s1, s2, s3, s4],
        [BySender(SCheck), ByProducer(Enqueue(m)), ByProducer(SignalEnqueued), BySender(SWait)])
  }

  /** This run leaves the sender asleep on a queued message with no signal to come. */
  lemma SenderWakeupCanBeLost(c: Config, m: Payload)
    requires NamedTables(c) && Fitting(m)
    ensures var run := StrandedSenderRun(c, m);
            && IsRun(run)
            && var s := run.states[4];
               && s.sender.pc.SAsleep? && s.send.unsignalled == 0 && !s.parser.pc.Signalling?
               && s.send.list == [Queued(m, false)]
  {
    var run := StrandedSenderRun(c, m);
    assert StepAt(run, 0);
    assert StepAt(run, 1);
    assert StepAt(run, 2);
    assert StepAt(run, 3);
    forall i | 0 <= i < |run.steps|
      ensures StepAt(run, i)
    {
      assert i == 0 || i == 1 || i == 2 || i == 3;
    }
  }
}

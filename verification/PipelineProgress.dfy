/** What a pass of either consumer does, and that the consumers get through their lists. */
module PipelineProgress {
  import Bytes
  import CStrings
  import opened Messages
  import opened TimeMessage
  import opened Dispatch
  import opened Pipeline
  import opened PipelineInvariant

  /** The messages received in the first `n` steps. */
  function ReceivedIn(steps: seq<Step>, n: nat): seq<Payload>
    requires n <= |steps|
  {
    if n == 0 then []
    else
      var step := steps[n - 1];
      ReceivedIn(steps, n - 1) + if step.ByProducer? && step.p.Receive? then [step.p.message] else []
  }

  /** The messages that producers other than the parser queued for sending in the first `n` steps. */
  function EnqueuedIn(steps: seq<Step>, n: nat): seq<Payload>
    requires n <= |steps|
  {
    if n == 0 then []
    else
      var step := steps[n - 1];
      EnqueuedIn(steps, n - 1) + if step.ByProducer? && step.p.Enqueue? then [step.p.message] else []
  }

  function FromOthers(qs: seq<Queued>): seq<Payload>
  {
    if qs == [] then []
    else
      var last := qs[|qs| - 1];
      FromOthers(qs[..|qs| - 1]) + if last.fromParser then [] else [last.message]
  }

  lemma FromOthersAppend(qs: seq<Queued>, q: Queued)
    ensures FromOthers(qs + [q]) == FromOthers(qs) + if q.fromParser then [] else [q.message]
  {
    assert (qs + [q])[..|qs|] == qs;
  }

  /** What a step appends to the two lists. */
  lemma StepInserts(s: State, step: Step)
    requires Enabled(s, step)
    ensures var t := Next(s, step);
            && t.recv.inserted
               == s.recv.inserted
                  + (if step.ByProducer? && step.p.Receive? then [Queued(step.p.message, false)] else [])
            && (if step.ByProducer? && step.p.Enqueue? then
                  t.send.inserted == s.send.inserted + [Queued(step.p.message, false)]
                else if step.ByParser? && step.q.Insert? then
                  |t.send.inserted| == |s.send.inserted| + 1 && s.send.inserted <= t.send.inserted
                  && t.send.inserted[|s.send.inserted|].fromParser
                else t.send.inserted == s.send.inserted)
  {
  }

  /** The lists hold what came in: the receive list what was received, the send list, but for the parser's part,
      what the other producers queued, each once and in order. */
  lemma {:induction false} ListsHoldWhatCame(run: Run, i: nat)
    requires IsRun(run) && i < |run.states|
    ensures MessagesOf(run.states[i].recv.inserted) == ReceivedIn(run.steps, i)
    ensures FromOthers(run.states[i].send.inserted) == EnqueuedIn(run.steps, i)
  {
    if i > 0 {
      ListsHoldWhatCame(run, i - 1);
      assert StepAt(run, i - 1);
      var s, t := run.states[i - 1], run.states[i];
      StepInserts(s, run.steps[i - 1]);
      MessagesOfAppend(s.recv.inserted, t.recv.inserted);
      if t.send.inserted != s.send.inserted {
        var q := t.send.inserted[|s.send.inserted|];
        assert t.send.inserted == s.send.inserted + [q];
        FromOthersAppend(s.send.inserted, q);
      }
    }
  }

  /** The clock as read by the handlers in the first `n` steps. */
  function ReadIn(steps: seq<Step>, n: nat): seq<Time>
    requires n <= |steps|
  {
    if n == 0 then []
    else
      var step := steps[n - 1];
      ReadIn(steps, n - 1) + if step.ByParser? && step.q.Insert? then [step.q.now] else []
  }

  lemma StepReads(s: State, step: Step)
    requires Enabled(s, step)
    ensures Next(s, step).readings
            == s.readings + if step.ByParser? && step.q.Insert? then [step.q.now] else []
  {
  }

  /** Each handler run has its own reading of the clock, taken when it ran. */
  lemma {:induction false} ReadingsAreTaken(run: Run, i: nat)
    requires IsRun(run) && i < |run.states|
    ensures run.states[i].readings == ReadIn(run.steps, i)
  {
    if i > 0 {
      ReadingsAreTaken(run, i - 1);
      assert StepAt(run, i - 1);
      StepReads(run.states[i - 1], run.steps[i - 1]);
    }
  }

  lemma MessagesOfAppend(qs: seq<Queued>, rs: seq<Queued>)
    requires qs <= rs && |rs| <= |qs| + 1
    ensures MessagesOf(rs) == MessagesOf(qs) + if |rs| > |qs| then [rs[|qs|].message] else []
  {
  }

  /** The state `s` after a `Pop` of the parser in state `s0`, up to its next `Pop`: if there was a message, exactly
      the first one is taken. */
  predicate ParserPassed(s0: State, s: State)
  {
    if s0.recv.list == [] then
      s.recv.popped == s0.recv.popped && !s.parser.pc.PopLocked?
    else if s.parser.pc.PopLocked? then
      s.recv.popped == s0.recv.popped && s.recv.list != [] && s.recv.list[0] == s0.recv.list[0]
    else
      s.recv.popped == s0.recv.popped + [s0.recv.list[0]]
  }

  lemma PopStartsPass(s: State)
    requires ParserCan(s, Pop)
    ensures ParserPassed(s, ParserDoes(s, Pop))
  {
  }

  lemma StepKeepsParserPass(s0: State, s: State, step: Step)
    requires ParserPassed(s0, s) && Enabled(s, step) && step != ByParser(Pop)
    ensures ParserPassed(s0, Next(s, step))
  {
  }

  /** Each pass of the parser over a non-empty list takes exactly its first message, whatever the other threads do
      meanwhile; over an empty list it takes nothing. */
  lemma {:induction false} ParserPass(run: Run, j: nat, m: nat)
    requires IsRun(run) && j < m < |run.states| && run.steps[j] == ByParser(Pop)
    requires forall k :: j < k < m ==> run.steps[k] != ByParser(Pop)
    ensures ParserPassed(run.states[j], run.states[m])
  {
    assert StepAt(run, m - 1);
    if m == j + 1 {
      PopStartsPass(run.states[j]);
    } else {
      ParserPass(run, j, m - 1);
      StepKeepsParserPass(run.states[j], run.states[m - 1], run.steps[m - 1]);
    }
  }

  /** The same of the sender, with its request: a pass over a non-empty list requests exactly the first message, a
      pass over an empty list zero bytes, and each makes one request. */
  predicate SenderPassed(s0: State, s: State)
  {
    var before := s.sender.pc.SPopLocked? || s.sender.pc.SSending?;
    if s0.send.list == [] then
      && s.send.popped == s0.send.popped && !s.sender.pc.SPopLocked?
      && (s.sender.pc.SSending? ==> !s.sender.holds)
      && (if before then s.requests == s0.requests
          else && |s.requests| == |s0.requests| + 1 && s0.requests <= s.requests
               && s.requests[|s0.requests|].data == [])
    else if s.sender.pc.SPopLocked? then
      && s.send.popped == s0.send.popped && s.requests == s0.requests
      && s.send.list != [] && s.send.list[0] == s0.send.list[0]
    else
      && s.send.popped == s0.send.popped + [s0.send.list[0]]
      && (s.sender.pc.SSending? ==> s.sender.holds)
      && s.requests == s0.requests + if before then [] else [s0.send.list[0].message]
  }

  lemma SPopStartsPass(s: State)
    requires SenderCan(s, SPop)
    ensures SenderPassed(s, SenderDoes(s, SPop))
  {
  }

  lemma SenderKeepsPass(s0: State, s: State, step: SenderStep)
    requires SenderPassed(s0, s) && RequestsConserved(s) && SenderCan(s, step) && step != SPop
    ensures SenderPassed(s0, SenderDoes(s, step))
  {
    if step.SSend? && s0.send.list != [] {
      assert s.send.popped[|s.send.popped| - 1] == s0.send.list[0];
    }
  }

  lemma OthersKeepSenderPass(s0: State, s: State, step: Step)
    requires SenderPassed(s0, s) && Enabled(s, step) && !step.BySender?
    ensures SenderPassed(s0, Next(s, step))
  {
  }

  lemma {:induction false} SenderPass(run: Run, j: nat, m: nat)
    requires IsRun(run) && j < m < |run.states| && run.steps[j] == BySender(SPop)
    requires forall k :: j < k < m ==> run.steps[k] != BySender(SPop)
    ensures SenderPassed(run.states[j], run.states[m])
  {
    assert StepAt(run, m - 1);
    if m == j + 1 {
      SPopStartsPass(run.states[j]);
    } else {
      SenderPass(run, j, m - 1);
      SenderPassStep(run, j, m - 1);
    }
  }

  lemma SenderPassStep(run: Run, j: nat, m: nat)
    requires IsRun(run) && j < m < |run.steps| && run.steps[m] != BySender(SPop)
    requires SenderPassed(run.states[j], run.states[m])
    ensures SenderPassed(run.states[j], run.states[m + 1])
  {
    RunSatisfiesInv(run, m);
    assert StepAt(run, m);
    match run.steps[m] {
      case BySender(r) => SenderKeepsPass(run.states[j], run.states[m], r);
      case _ => OthersKeepSenderPass(run.states[j], run.states[m], run.steps[m]);
    }
  }

  /** After its test of the list a consumer turns to its wait exactly if the list was empty. A message is cleared from
      the sender's node with its length and its source. */
  lemma TestDecidesWait(s: State)
    ensures ParserCan(s, Check) ==>
              ParserDoes(s, Check).parser.pc == if s.recv.list == [] then AboutToWait else Zeroing
    ensures SenderCan(s, SCheck) ==>
              SenderDoes(s, SCheck).sender.pc == if s.send.list == [] then SAboutToWait else SPopping
    ensures SenderCan(s, SClear) ==>
              SenderDoes(s, SClear).sender.node == Buffer(Bytes.Fill(0, 1024), 0, -1, s.sender.node.sendTo)
  {
  }

  /** Any message that fits a consumer's node can come in at any time, and every signal owed can be sent. */
  lemma ProducersCanGoOn(s: State, m: Payload)
    ensures Enabled(s, ByProducer(Receive(m))) <==> 0 < |m.data| <= 1024
    ensures Enabled(s, ByProducer(Enqueue(m))) <==> 0 < |m.data| <= 1024
    ensures Enabled(s, ByProducer(SignalReceived)) <==> s.recv.unsignalled > 0
    ensures Enabled(s, ByProducer(SignalEnqueued)) <==> s.send.unsignalled > 0
  {
  }

  /** How many steps of each kind lie between two states. */
  function Count(steps: seq<Step>, i: nat, j: nat, p: Step -> bool): nat
    requires i <= j <= |steps|
    decreases j - i
  {
    if i == j then 0 else Count(steps, i, j - 1, p) + if p(steps[j - 1]) then 1 else 0
  }

  predicate Receives(step: Step)
  {
    step.ByProducer? && step.p.Receive?
  }

  /** What can end a sleep of the parser: a signal, or a spurious wakeup. */
  predicate WakesParser(step: Step)
  {
    step == ByProducer(SignalReceived) || step == ByParser(Wake)
  }

  predicate ParserWorks(step: Step)
  {
    step.ByParser? && step.q != Wake
  }

  /** A bound on the length of both handler tables. */
  function TableBound(c: Config): nat
  {
    if |c.uartTable| < |c.pipeTable| then |c.pipeTable| else |c.uartTable|
  }

  /** The most steps the parser may take from a place to its next wait, apart from those for messages in the list. */
  function ParserRank(pc: ParserPc, empty: bool, n: nat): nat
  {
    match pc
    case Asleep => 0
    case AboutToWait => 1
    case Checking => 3
    case Zeroing => if empty then 3 * n + 6 else 2
    case Popping => if empty then 3 * n + 5 else 1
    case PopLocked => 0
    case At(i) => if i < n then 3 * (n - i) + 4 else 4
    case Inserting(i) => if i < n then 3 * (n - i) + 3 else 4
    case Signalling(i) => if i < n then 3 * (n - i) + 2 else 4
  }

  /** What one message in the list may cost the parser. */
  function MessageCost(c: Config): nat
  {
    3 * TableBound(c) + 5
  }

  function ParserPlace(s: State): nat
  {
    ParserRank(s.parser.pc, s.recv.list == [], TableBound(s.config))
  }

  function ParserMeasure(s: State): nat
  {
    MessageCost(s.config) * |s.recv.list| + ParserPlace(s)
  }

  lemma ParserStepLowersPlace(s: State, q: ParserStep)
    requires PopsHaveANode(s) && NodeShowsMessage(s) && ParserCan(s, q) && q != Wake
    ensures var t := ParserDoes(s, q);
            && t.config == s.config
            && if q.PopInLock? then
                 |t.recv.list| + 1 == |s.recv.list| && ParserPlace(t) + 1 <= ParserPlace(s) + MessageCost(s.config)
               else t.recv.list == s.recv.list && ParserPlace(t) + 1 <= ParserPlace(s)
  {
  }

  lemma OtherStepsOfPlace(s: State, step: Step)
    requires Enabled(s, step) && !ParserWorks(step)
    ensures var t := Next(s, step);
            && t.config == s.config
            && if Receives(step) then |t.recv.list| == |s.recv.list| + 1 && ParserPlace(t) <= ParserPlace(s)
               else && t.recv.list == s.recv.list
                    && ParserPlace(t) <= ParserPlace(s) + if WakesParser(step) then MessageCost(s.config) + 1 else 0
  {
  }

  lemma OneMore(k: nat, n: nat)
    ensures k * (n + 1) == k * n + k
  {
  }

  /** A step of the parser lowers its measure; a message received and a wakeup raise it by a constant that depends on
      the tables only; nothing else raises it. */
  lemma StepAgainstParserMeasure(s: State, step: Step)
    requires PopsHaveANode(s) && NodeShowsMessage(s) && Enabled(s, step)
    ensures var t, k := Next(s, step), MessageCost(s.config);
            && t.config == s.config
            && ParserMeasure(t) + (if ParserWorks(step) then 1 else 0)
               <= ParserMeasure(s) + (if Receives(step) then k else 0) + (if WakesParser(step) then k + 1 else 0)
  {
    var t, k := Next(s, step), MessageCost(s.config);
    if ParserWorks(step) {
      ParserStepLowersPlace(s, step.q);
      OneMore(k, |t.recv.list|);
    } else {
      OtherStepsOfPlace(s, step);
      OneMore(k, |s.recv.list|);
    }
  }

  lemma {:induction false} ConfigIsFixed(run: Run, i: nat)
    requires IsRun(run) && i < |run.states|
    ensures run.states[i].config == run.states[0].config
  {
    if i > 0 {
      ConfigIsFixed(run, i - 1);
      assert StepAt(run, i - 1);
    }
  }

  lemma RunStepAgainstParserMeasure(run: Run, i: nat)
    requires IsRun(run) && i < |run.steps|
    ensures var s, step, k := run.states[i], run.steps[i], MessageCost(run.states[0].config);
            ParserMeasure(run.states[i + 1]) + (if ParserWorks(step) then 1 else 0)
            <= ParserMeasure(s) + (if Receives(step) then k else 0) + (if WakesParser(step) then k + 1 else 0)
  {
    RunSatisfiesInv(run, i);
    ConfigIsFixed(run, i);
    assert StepAt(run, i);
    StepAgainstParserMeasure(run.states[i], run.steps[i]);
  }

  /** However the threads interleave, the parser's steps are at most its measure plus a constant for each message
      received and each wakeup: it gets through its list. */
  lemma {:induction false} ParserIsBounded(run: Run, i: nat, j: nat)
    requires IsRun(run) && i <= j < |run.states|
    ensures var k := MessageCost(run.states[0].config);
            ParserMeasure(run.states[j]) + Count(run.steps, i, j, ParserWorks)
            <= ParserMeasure(run.states[i]) + k * Count(run.steps, i, j, Receives)
               + (k + 1) * Count(run.steps, i, j, WakesParser)
    decreases j - i
  {
    if i < j {
      var k := MessageCost(run.states[0].config);
      ParserIsBounded(run, i, j - 1);
      RunStepAgainstParserMeasure(run, j - 1);
      OneMore(k, Count(run.steps, i, j - 1, Receives));
      OneMore(k + 1, Count(run.steps, i, j - 1, WakesParser));
    }
  }

  /** The parser is held up by nothing but its wait: everywhere else it has a step to take. */
  lemma ParserCanGoOn(run: Run, i: nat, now: Time)
    requires IsRun(run) && i < |run.states| && !run.states[i].parser.pc.Asleep? && Calendar(now)
    ensures exists q :: q != Wake && ParserCan(run.states[i], q)
  {
    RunSatisfiesInv(run, i);
    ParserHasStep(run.states[i], now);
  }

  lemma ParserHasStep(s: State, now: Time)
    requires Conserved(s.recv) && PopsHaveANode(s) && NodeShowsMessage(s) && Calendar(now) && !s.parser.pc.Asleep?
    ensures exists q :: q != Wake && ParserCan(s, q)
  {
    match s.parser.pc {
      case Checking => assert ParserCan(s, Check);
      case AboutToWait => assert ParserCan(s, Wait);
      case Zeroing => assert ParserCan(s, Zero);
      case Popping => assert ParserCan(s, Pop);
      case PopLocked =>
        assert s.recv.list[0] == s.recv.inserted[|s.recv.popped|];
        assert ParserCan(s, PopInLock);
      case At(_) => assert ParserCan(s, Test);
      case Inserting(_) => assert ParserCan(s, Insert(now));
      case Signalling(_) => assert ParserCan(s, Signal);
    }
  }

  /** A parser at its wait has an empty list behind it. */
  predicate ParserDrained(s: State)
  {
    s.parser.pc.AboutToWait? || s.parser.pc.Asleep? ==> s.recv.list == []
  }

  lemma StepKeepsParserDrained(s: State, step: Step)
    requires ParserDrained(s) && Enabled(s, step) && !Receives(step)
    ensures ParserDrained(Next(s, step))
  {
  }

  /** Without further messages the parser gets to its wait within a bounded number of its steps, and then it has
      popped everything that was ever inserted. */
  lemma {:induction false} ParserDrains(run: Run, i: nat, j: nat)
    requires IsRun(run) && i <= j < |run.states| && ParserDrained(run.states[i])
    requires forall k :: i <= k < j ==> !Receives(run.steps[k])
    ensures ParserDrained(run.states[j])
    ensures run.states[j].parser.pc.Asleep? ==> run.states[j].recv.popped == run.states[j].recv.inserted
    decreases j - i
  {
    RunSatisfiesInv(run, j);
    if i < j {
      ParserDrains(run, i, j - 1);
      assert StepAt(run, j - 1);
      StepKeepsParserDrained(run.states[j - 1], run.steps[j - 1]);
    }
  }

  /** A step that puts a message into the send list. */
  predicate Queues(step: Step)
  {
    (step.ByProducer? && step.p.Enqueue?) || (step.ByParser? && step.q.Insert?)
  }

  predicate WakesSender(step: Step)
  {
    step == ByProducer(SignalEnqueued) || step == ByParser(Signal) || step == BySender(SWake)
  }

  predicate SenderWorks(step: Step)
  {
    step.BySender? && step.r != SWake
  }

  function SenderRank(pc: SenderPc, empty: bool): nat
  {
    match pc
    case SAsleep => 0
    case SAboutToWait => 1
    case SChecking => 3
    case SPopping => if empty then 6 else 2
    case SPopLocked => 1
    case SSending => 5
    case SClearing => 4
  }

  function SenderMeasure(s: State): nat
  {
    5 * |s.send.list| + SenderRank(s.sender.pc, s.send.list == [])
  }

  lemma SenderStepLowersMeasure(s: State, r: SenderStep)
    requires PopsHaveANode(s) && SenderCan(s, r) && r != SWake
    ensures SenderMeasure(SenderDoes(s, r)) + 1 <= SenderMeasure(s)
  {
  }

  lemma OtherStepsOfSenderMeasure(s: State, step: Step)
    requires Enabled(s, step) && !SenderWorks(step)
    ensures SenderMeasure(Next(s, step))
            <= SenderMeasure(s) + (if Queues(step) then 5 else 0) + (if WakesSender(step) then 6 else 0)
  {
  }

  lemma RunStepAgainstSenderMeasure(run: Run, i: nat)
    requires IsRun(run) && i < |run.steps|
    ensures var step := run.steps[i];
            SenderMeasure(run.states[i + 1]) + (if SenderWorks(step) then 1 else 0)
            <= SenderMeasure(run.states[i]) + (if Queues(step) then 5 else 0) + (if WakesSender(step) then 6 else 0)
  {
    RunSatisfiesInv(run, i);
    assert StepAt(run, i);
    if SenderWorks(run.steps[i]) {
      SenderStepLowersMeasure(run.states[i], run.steps[i].r);
    } else {
      OtherStepsOfSenderMeasure(run.states[i], run.steps[i]);
    }
  }

  /** The same of the sender: at most five steps for each message queued and six for each wakeup. */
  lemma {:induction false} SenderIsBounded(run: Run, i: nat, j: nat)
    requires IsRun(run) && i <= j < |run.states|
    ensures SenderMeasure(run.states[j]) + Count(run.steps, i, j, SenderWorks)
            <= SenderMeasure(run.states[i]) + 5 * Count(run.steps, i, j, Queues)
               + 6 * Count(run.steps, i, j, WakesSender)
    decreases j - i
  {
    if i < j {
      SenderIsBounded(run, i, j - 1);
      RunStepAgainstSenderMeasure(run, j - 1);
    }
  }

  lemma SenderCanGoOn(run: Run, i: nat)
    requires IsRun(run) && i < |run.states| && !run.states[i].sender.pc.SAsleep?
    ensures exists r :: r != SWake && SenderCan(run.states[i], r)
  {
    RunSatisfiesInv(run, i);
    SenderHasStep(run.states[i]);
  }

  lemma SenderHasStep(s: State)
    requires Conserved(s.send) && PopsHaveANode(s) && RequestsConserved(s) && !s.sender.pc.SAsleep?
    ensures exists r :: r != SWake && SenderCan(s, r)
  {
    match s.sender.pc {
      case SChecking => assert SenderCan(s, SCheck);
      case SAboutToWait => assert SenderCan(s, SWait);
      case SPopping => assert SenderCan(s, SPop);
      case SPopLocked =>
        assert s.send.list[0] == s.send.inserted[|s.send.popped|];
        assert SenderCan(s, SPopInLock);
      case SSending => assert SenderCan(s, SSend);
      case SClearing => assert SenderCan(s, SClear);
    }
  }

  predicate SenderDrained(s: State)
  {
    s.sender.pc.SAboutToWait? || s.sender.pc.SAsleep? ==> s.send.list == []
  }

  lemma StepKeepsSenderDrained(s: State, step: Step)
    requires SenderDrained(s) && Enabled(s, step) && !Queues(step)
    ensures SenderDrained(Next(s, step))
  {
  }

  lemma {:induction false} SenderDrains(run: Run, i: nat, j: nat)
    requires IsRun(run) && i <= j < |run.states| && SenderDrained(run.states[i])
    requires forall k :: i <= k < j ==> !Queues(run.steps[k])
    ensures SenderDrained(run.states[j])
    ensures run.states[j].sender.pc.SAsleep? ==>
              && run.states[j].send.popped == run.states[j].send.inserted
              && NonEmpty(run.states[j].requests) == MessagesOf(run.states[j].send.inserted)
    decreases j - i
  {
    RunSatisfiesInv(run, j);
    if i < j {
      SenderDrains(run, i, j - 1);
      assert StepAt(run, j - 1);
      StepKeepsSenderDrained(run.states[j - 1], run.steps[j - 1]);
    }
  }

  /** A message from the UART that begins with "time" asks for the clock, one from the pipe that begins with "usb" for
      the USB text, and any other for nothing. */
  function Asked(uartFd: int, pipeFd: int, m: Payload): seq<Handler>
  {
    if m.recvFd == uartFd then if [116, 105, 109, 101] <= m.data then [TimeCmd] else []
    else if m.recvFd == pipeFd && [117, 115, 98] <= m.data then [UsbOul]
    else []
  }

  function AllAsked(uartFd: int, pipeFd: int, ms: seq<Payload>): seq<Handler>
  {
    if ms == [] then [] else AllAsked(uartFd, pipeFd, ms[..|ms| - 1]) + Asked(uartFd, pipeFd, ms[|ms| - 1])
  }

  lemma AnsweringOne(e: Entry, data: seq<Bytes.byte>)
    ensures Answering([e], data, 1) == if e.protocol <= data then [e.handler] else []
  {
    assert Answering([e], data, 0) == [];
  }

  lemma ShippedAnswering(u: int, p: int, m: Payload)
    ensures AnsweringAll(ShippedTables(u, p), m) == Asked(u, p, m)
  {
    AnsweringOne(ShippedTables(u, p).uartTable[0], m.data);
    AnsweringOne(ShippedTables(u, p).pipeTable[0], m.data);
  }

  lemma {:induction false} ShippedAnswers(u: int, p: int, qs: seq<Queued>)
    ensures Answers(ShippedTables(u, p), qs) == AllAsked(u, p, MessagesOf(qs))
  {
    if qs != [] {
      var init := qs[..|qs| - 1];
      ShippedAnswers(u, p, init);
      ShippedAnswering(u, p, qs[|qs| - 1].message);
      assert MessagesOf(qs)[..|qs| - 1] == MessagesOf(init);
    }
  }

  /** The daemon's answers, in plain bytes. With the tables of the source, a parser between two messages has queued
      for each message so far that asks for something one message, in order: the clock text, from which the reading of
      the clock can be recovered, or the USB text, both for the UART. */
  lemma ShippedRepliesAreExact(run: Run, i: nat)
    requires IsRun(run) && i < |run.states| && !Parsing(run.states[i].parser.pc)
    requires var c := run.states[i].config; c == ShippedTables(c.uartFd, c.pipeFd)
    ensures var s := run.states[i];
            var asked := AllAsked(s.config.uartFd, s.config.pipeFd, MessagesOf(s.recv.popped));
            var replies := FromParser(s.send.inserted);
            && |replies| == |asked| == |s.readings|
            && forall k :: 0 <= k < |asked| ==>
                 if asked[k].TimeCmd? then TellsTime(replies[k], s.readings[k]) else TellsUsb(replies[k])
  {
    RunSatisfiesInv(run, i);
    var s := run.states[i];
    ShippedAnswers(s.config.uartFd, s.config.pipeFd, s.recv.popped);
    forall k | 0 <= k < |s.fired|
      ensures if s.fired[k].TimeCmd? then TellsTime(Reply(s.fired[k], s.readings[k]), s.readings[k])
              else TellsUsb(Reply(s.fired[k], s.readings[k]))
    {
      ReplyMeans(s.fired[k], s.readings[k]);
    }
  }

  /** The pipeline's answers to a message are those of the dispatch on the heap. */
  lemma {:induction false} AnsweringIsFired(table: seq<Entry>, m: seq<Bytes.byte>, zeros: nat, i: nat)
    requires i <= |table| && forall j :: 0 <= j < |table| ==> CStrings.NoZero(table[j].protocol)
    ensures Answering(table, m, i) == Fired(table, m + Bytes.Fill(0, zeros), i)
  {
    if i > 0 {
      AnsweringIsFired(table, m, zeros, i - 1);
      MatchesIsPrefix(table[i - 1], m, zeros);
    }
  }
}

/** The UART readers on the thread pool and the message pipeline together: what a reading job stores is what
    enters the receive list. */
module Daemon {
  import opened Bytes
  import opened Dispatch
  import opened Messages
  import P = Pipeline
  import PI = PipelineInvariant
  import PT = PipelineTheorems
  import U = UartReader

  datatype State = State(uart: U.State, pipe: P.State)

  datatype Step = UartStep(a: U.Action) | PipeStep(p: P.Step)

  /** The message a reading job inserts for the bytes it read. */
  function UartMessage(s: State, data: seq<byte>): Payload
  {
    Payload(data, s.pipe.config.uartFd, NoPort)
  }

  ghost predicate Can(s: State, step: Step)
  {
    match step
    case UartStep(a) => U.CanAct(s.uart, a)
    case PipeStep(p) =>
      // Messages from the UART enter through the reading jobs only.
      P.Enabled(s.pipe, p) && (p.ByProducer? && p.p.Receive? ==> p.p.message.recvFd != s.pipe.config.uartFd)
  }

  /** An insertion by a reading job is an insertion into the receive list. */
  ghost function Next(s: State, step: Step): State
    requires Can(s, step)
  {
    match step
    case UartStep(a) =>
      var t := U.Act(s.uart, a);
      var n := |s.uart.inserted|;
      State(t, if |t.inserted| > n then P.Received(s.pipe, UartMessage(s, t.inserted[n].1)) else s.pipe)
    case PipeStep(p) => s.(pipe := P.Next(s.pipe, p))
  }

  predicate Init(s: State)
  {
    U.Start(s.uart) && P.Init(s.pipe)
  }

  /** The messages among `qs` that came from descriptor `fd`. */
  function From(fd: int, qs: seq<P.Queued>): seq<seq<byte>>
  {
    if qs == [] then []
    else
      var last := qs[|qs| - 1].message;
      From(fd, qs[..|qs| - 1]) + if last.recvFd == fd then [last.data] else []
  }

  function Stored(log: seq<(nat, seq<byte>)>): (r: seq<seq<byte>>)
    ensures |r| == |log| && forall i :: 0 <= i < |log| ==> r[i] == log[i].1
  {
    seq(|log|, i requires 0 <= i < |log| => log[i].1)
  }

  /** The UART messages of the receive list are what the reading jobs stored. */
  predicate Logged(s: State)
  {
    From(s.pipe.config.uartFd, s.pipe.recv.inserted) == Stored(s.uart.inserted)
  }

  lemma FromAppend(fd: int, qs: seq<P.Queued>, q: P.Queued)
    ensures From(fd, qs + [q]) == From(fd, qs) + if q.message.recvFd == fd then [q.message.data] else []
  {
    assert (qs + [q])[..|qs|] == qs;
  }

  /** Either nothing was stored, or one message that fits the node of the parser went into log and list. */
  predicate Delivered(s: State, t: State)
  {
    var n := |s.uart.inserted|;
    || (t.uart.inserted == s.uart.inserted && t.pipe == s.pipe)
    || (&& |t.uart.inserted| == n + 1 && t.uart.inserted == s.uart.inserted + [t.uart.inserted[n]]
        && P.Fitting(UartMessage(s, t.uart.inserted[n].1))
        && t.pipe == P.Received(s.pipe, UartMessage(s, t.uart.inserted[n].1)))
  }

  lemma UartStepDelivers(s: State, a: U.Action)
    requires U.InsertionsTracked(s.uart) && U.ReadsShort(s.uart) && U.CanAct(s.uart, a)
    ensures Delivered(s, Next(s, UartStep(a)))
  {
    var t := U.Act(s.uart, a);
    if a.Settle? && t.inserted != s.uart.inserted {
      var k := s.uart.pool.workers[a.w].ticket;
      assert t.inserted == s.uart.inserted + [(k, s.uart.got[k])];
    } else {
      assert t.inserted == s.uart.inserted;
    }
  }

  lemma DeliveryKeepsLog(s: State, t: State)
    requires Logged(s) && Delivered(s, t)
    ensures Logged(t)
  {
    var n := |s.uart.inserted|;
    if |t.uart.inserted| > n {
      FromAppend(s.pipe.config.uartFd, s.pipe.recv.inserted,
                 P.Queued(UartMessage(s, t.uart.inserted[n].1), false));
      assert Stored(t.uart.inserted) == Stored(s.uart.inserted) + [t.uart.inserted[n].1];
    }
  }

  /** What a step of the pipeline adds to the receive list. */
  lemma PipeStepReceives(s: P.State, p: P.Step)
    requires P.Enabled(s, p)
    ensures P.Next(s, p).config == s.config
    ensures P.Next(s, p).recv.inserted ==
            s.recv.inserted + if p.ByProducer? && p.p.Receive? then [P.Queued(p.p.message, false)] else []
  {
  }

  lemma PipeStepKeepsLog(s: State, p: P.Step)
    requires Logged(s) && Can(s, PipeStep(p))
    ensures Logged(Next(s, PipeStep(p)))
  {
    PipeStepReceives(s.pipe, p);
    if p.ByProducer? && p.p.Receive? {
      FromAppend(s.pipe.config.uartFd, s.pipe.recv.inserted, P.Queued(p.p.message, false));
    }
  }

  lemma StepKeepsLog(s: State, step: Step)
    requires Logged(s) && U.InsertionsTracked(s.uart) && U.ReadsShort(s.uart) && Can(s, step)
    ensures Logged(Next(s, step))
  {
    match step {
      case UartStep(a) =>
        UartStepDelivers(s, a);
        DeliveryKeepsLog(s, Next(s, step));
      case PipeStep(p) =>
        PipeStepKeepsLog(s, p);
    }
  }

  datatype Run = Run(states: seq<State>, steps: seq<Step>)

  ghost predicate StepAt(run: Run, i: nat)
    requires |run.states| == |run.steps| + 1 && i < |run.steps|
  {
    Can(run.states[i], run.steps[i]) && run.states[i + 1] == Next(run.states[i], run.steps[i])
  }

  ghost predicate IsRun(run: Run)
  {
    && |run.states| == |run.steps| + 1
    && Init(run.states[0])
    && forall i :: 0 <= i < |run.steps| ==> StepAt(run, i)
  }

  function ExtendHistory(h: U.History, a: U.Action, t: U.State): U.History
  {
    U.History(h.states + [t], h.actions + [a])
  }

  lemma ExtendIsHistory(h: U.History, a: U.Action, t: U.State)
    requires U.IsHistory(h) && U.CanAct(h.states[|h.actions|], a) && t == U.Act(h.states[|h.actions|], a)
    ensures U.IsHistory(ExtendHistory(h, a, t))
  {
    var g := ExtendHistory(h, a, t);
    forall i | 0 <= i < |g.actions|
      ensures U.ActionAt(g, i)
    {
      assert i < |h.actions| ==> U.ActionAt(h, i);
    }
  }

  function ExtendRun(r: P.Run, p: P.Step, t: P.State): P.Run
  {
    P.Run(r.states + [t], r.steps + [p])
  }

  lemma ExtendIsRun(r: P.Run, p: P.Step, t: P.State)
    requires P.IsRun(r) && P.Enabled(r.states[|r.steps|], p) && t == P.Next(r.states[|r.steps|], p)
    ensures P.IsRun(ExtendRun(r, p, t))
  {
    var q := ExtendRun(r, p, t);
    forall i | 0 <= i < |q.steps|
      ensures P.StepAt(q, i)
    {
      assert i < |r.steps| ==> P.StepAt(r, i);
    }
  }

  /** The first `i` steps of a run as the UART machine sees them. */
  function UartPart(run: Run, i: nat): U.History
    requires i <= |run.steps| < |run.states|
  {
    if i == 0 then U.History([run.states[0].uart], [])
    else
      match run.steps[i - 1]
      case UartStep(a) => ExtendHistory(UartPart(run, i - 1), a, run.states[i].uart)
      case PipeStep(_) => UartPart(run, i - 1)
  }

  /** The first `i` steps of a run as the pipeline sees them: an insertion by a reading job is a message received. */
  function PipePart(run: Run, i: nat): P.Run
    requires i <= |run.steps| < |run.states|
  {
    if i == 0 then P.Run([run.states[0].pipe], [])
    else
      var before := PipePart(run, i - 1);
      var s, t := run.states[i - 1], run.states[i];
      match run.steps[i - 1]
      case UartStep(_) =>
        var n := |s.uart.inserted|;
        if |t.uart.inserted| > n then
          ExtendRun(before, P.ByProducer(P.Receive(UartMessage(s, t.uart.inserted[n].1))), t.pipe)
        else before
      case PipeStep(p) => ExtendRun(before, p, t.pipe)
  }

  /** To the UART machine a run of the daemon is one of its histories: its theorems hold of the daemon. */
  lemma {:induction false} UartPartIsHistory(run: Run, i: nat)
    requires IsRun(run) && i < |run.states|
    ensures var h := UartPart(run, i); U.IsHistory(h) && h.states[|h.actions|] == run.states[i].uart
  {
    if i > 0 {
      UartPartIsHistory(run, i - 1);
      assert StepAt(run, i - 1);
      if run.steps[i - 1].UartStep? {
        ExtendIsHistory(UartPart(run, i - 1), run.steps[i - 1].a, run.states[i].uart);
      }
    }
  }

  lemma UartHolds(run: Run, i: nat)
    requires IsRun(run) && i < |run.states|
    ensures U.UartInv(run.states[i].uart)
  {
    UartPartIsHistory(run, i);
    var h := UartPart(run, i);
    U.HistorySatisfiesInv(h, |h.actions|);
  }

  /** To the pipeline a run of the daemon is one of its runs: its theorems hold of the daemon. */
  lemma {:induction false} PipePartIsRun(run: Run, i: nat)
    requires IsRun(run) && i < |run.states|
    ensures var r := PipePart(run, i); P.IsRun(r) && r.states[|r.steps|] == run.states[i].pipe
  {
    if i > 0 {
      PipePartIsRun(run, i - 1);
      PipePartStep(run, i - 1);
    }
  }

  lemma PipePartStep(run: Run, i: nat)
    requires IsRun(run) && i < |run.steps|
    requires var r := PipePart(run, i); P.IsRun(r) && r.states[|r.steps|] == run.states[i].pipe
    ensures var r := PipePart(run, i + 1); P.IsRun(r) && r.states[|r.steps|] == run.states[i + 1].pipe
  {
    assert StepAt(run, i);
    var before, s, t := PipePart(run, i), run.states[i], run.states[i + 1];
    match run.steps[i] {
      case UartStep(a) =>
        UartHolds(run, i);
        UartStepDelivers(s, a);
        var n := |s.uart.inserted|;
        if |t.uart.inserted| > n {
          ExtendIsRun(before, P.ByProducer(P.Receive(UartMessage(s, t.uart.inserted[n].1))), t.pipe);
        }
      case PipeStep(p) =>
        ExtendIsRun(before, p, t.pipe);
    }
  }

  lemma PipeHolds(run: Run, i: nat)
    requires IsRun(run) && i < |run.states|
    ensures PI.Inv(run.states[i].pipe)
  {
    PipePartIsRun(run, i);
    var r := PipePart(run, i);
    PI.RunSatisfiesInv(r, |r.steps|);
  }

  lemma {:induction false} RunKeepsLog(run: Run, i: nat)
    requires IsRun(run) && i < |run.states|
    ensures Logged(run.states[i])
  {
    if i > 0 {
      RunKeepsLog(run, i - 1);
      RunKeepsLogStep(run, i - 1);
    }
  }

  lemma RunKeepsLogStep(run: Run, i: nat)
    requires IsRun(run) && i < |run.steps| && Logged(run.states[i])
    ensures Logged(run.states[i + 1])
  {
    UartHolds(run, i);
    assert StepAt(run, i);
    StepKeepsLog(run.states[i], run.steps[i]);
  }

  lemma {:induction false} FromGrows(fd: int, qs: seq<P.Queued>, n: nat)
    requires n <= |qs|
    ensures From(fd, qs[..n]) <= From(fd, qs)
    decreases |qs|
  {
    if n < |qs| {
      FromGrows(fd, qs[..|qs| - 1], n);
      assert qs[..|qs| - 1][..n] == qs[..n];
    } else {
      assert qs[..n] == qs;
    }
  }

  /** A step of the run is the read of the job with ticket `k`, and `data` is what it kept. */
  ghost predicate ReadAt(run: Run, j: nat, k: nat, data: seq<byte>)
    requires IsRun(run)
  {
    && j < |run.steps| && run.steps[j].UartStep? && run.steps[j].a.Rearm?
    && U.Reading(run.states[j].uart, run.steps[j].a.w)
    && run.states[j].uart.pool.workers[run.steps[j].a.w].ticket == k
    && U.KeptOf(data, run.steps[j].a.chunks)
  }

  /** The `j`-th message stored up to state `i` is what its job kept of the chunks it read before. */
  ghost predicate StoredWasRead(run: Run, i: nat, j: nat)
    requires IsRun(run) && i < |run.states| && j < |run.states[i].uart.inserted|
  {
    exists at: nat ::
      at < i && ReadAt(run, at, run.states[i].uart.inserted[j].0, run.states[i].uart.inserted[j].1)
  }

  lemma {:induction false} GotWasRead(run: Run, i: nat, k: nat) returns (j: nat)
    requires IsRun(run) && i < |run.states| && k in run.states[i].uart.got
    ensures j < i && ReadAt(run, j, k, run.states[i].uart.got[k])
  {
    assert i > 0;
    assert StepAt(run, i - 1);
    var s, step := run.states[i - 1].uart, run.steps[i - 1];
    if step.UartStep? {
      U.RearmKeepsChunks(s, step.a);
    }
    if step.UartStep? && step.a.Rearm? && s.pool.workers[step.a.w].ticket == k {
      j := i - 1;
    } else {
      j := GotWasRead(run, i - 1, k);
    }
  }

  /** From the wire to the parser: the UART messages in the receive list are what the reading jobs kept of what
      they read, in the order in which they stored it, each job at most once; the parsed ones are a prefix of that. */
  lemma UartMessagesAreReads(run: Run, i: nat)
    requires IsRun(run) && i < |run.states|
    ensures var s := run.states[i];
            var fd := s.pipe.config.uartFd;
            && From(fd, s.pipe.recv.popped) <= From(fd, s.pipe.recv.inserted) == Stored(s.uart.inserted)
            && (forall j :: 0 <= j < |s.uart.inserted| ==>
                  var (k, data) := s.uart.inserted[j];
                  && k in s.uart.got && data == s.uart.got[k]
                  && k < |s.uart.pool.taken| && k < |s.uart.pool.accepted| && U.IsUart(s.uart.pool.accepted[k]))
            && (forall j, l :: 0 <= j < l < |s.uart.inserted| ==> s.uart.inserted[j].0 != s.uart.inserted[l].0)
            && (forall j :: 0 <= j < |s.uart.inserted| ==> StoredWasRead(run, i, j))
  {
    UartHolds(run, i);
    PipeHolds(run, i);
    RunKeepsLog(run, i);
    forall j | 0 <= j < |run.states[i].uart.inserted|
      ensures StoredWasRead(run, i, j)
    {
      var at := GotWasRead(run, i, run.states[i].uart.inserted[j].0);
    }
    var c := run.states[i].pipe.recv;
    FromGrows(run.states[i].pipe.config.uartFd, c.inserted, |c.popped|);
    assert c.inserted[..|c.popped|] == c.popped;
  }

  /** What a finished reading job kept is in the receive list, unless it is empty or its node was not allocated. */
  lemma ReadsAreReceived(run: Run, i: nat, k: nat)
    requires IsRun(run) && i < |run.states|
    requires k in run.states[i].uart.pool.finished && k < |run.states[i].uart.pool.accepted|
    requires U.IsUart(run.states[i].uart.pool.accepted[k])
    ensures var s := run.states[i];
            && k in s.uart.got
            && (s.uart.got[k] != [] && k !in s.uart.dropped ==>
                  s.uart.got[k] in From(s.pipe.config.uartFd, s.pipe.recv.inserted))
            && (exists at: nat :: at < i && ReadAt(run, at, k, s.uart.got[k]))
  {
    UartHolds(run, i);
    RunKeepsLog(run, i);
    var at := GotWasRead(run, i, k);
    var s := run.states[i];
    if s.uart.got[k] != [] && k !in s.uart.dropped {
      var j :| 0 <= j < |s.uart.inserted| && s.uart.inserted[j] == (k, s.uart.got[k]);
      assert Stored(s.uart.inserted)[j] == s.uart.got[k];
    }
  }

  /** From the wire to the ports: the end-to-end statement of the pipeline holds with the reading jobs as the
      source of its UART messages. */
  lemma ReadsAreAnswered(run: Run, i: nat)
    requires IsRun(run) && i < |run.states|
    ensures var s := run.states[i];
            && PT.AnswersReceived(s.pipe)
            && From(s.pipe.config.uartFd, s.pipe.recv.inserted) == Stored(s.uart.inserted)
            && (PT.OnlyParserQueues(s.pipe) ==> PI.NonEmpty(s.pipe.requests) <= Replies(s.pipe.fired, s.pipe.readings))
  {
    PipeHolds(run, i);
    RunKeepsLog(run, i);
    PT.RequestsAnswerReceived(run.states[i].pipe);
  }
}

/** The hand-over of the right to read the UART, on top of the thread pool: the event loop takes the UART out
    of the epoll set, submits a reading job, and the job puts the UART back before it stores what it read. */
module UartReader {
  import opened Bytes
  import ChunkedRead
  import opened PoolSections
  import opened PoolMonitor
  import opened PoolInvariant
  import PoolExactlyOnce

  const UART_CONNECT: nat := 1
  const EVENT_LOOP: nat := 0
  const READ_LIMIT: nat := 1024

  predicate IsUart(job: Job)
  {
    job.callback == UART_CONNECT
  }

  datatype LoopPc = Elsewhere | SawUart | Disarmed | Submitting

  /** `got` maps the ticket of each reading job that has re-registered the UART to the bytes it kept;
      `settled` are those past the insertion, `dropped` those whose node allocation failed, `inserted` the
      log of insertions into the receive list, and `lost` counts reading jobs the pool refused. */
  datatype State = State(
    pool: Pool,
    registered: bool,
    loop: LoopPc,
    got: map<nat, seq<byte>>,
    settled: set<nat>,
    dropped: set<nat>,
    inserted: seq<(nat, seq<byte>)>,
    lost: nat)

  datatype Action =
    | SeeUart
    | Disarm
    | Submit(arg: nat)
    | Within(step: Step)
    | Rearm(w: nat, chunks: ChunkedRead.Reads)
    | Settle(w: nat, gotNode: bool)

  predicate Reading(s: State, w: nat)
  {
    && w < |s.pool.workers| && s.pool.workers[w].Running? && IsUart(s.pool.workers[w].job)
    && s.pool.workers[w].ticket !in s.got
  }

  ghost predicate CanAct(s: State, a: Action)
  {
    && EVENT_LOOP < |s.pool.producers|
    && match a
       case SeeUart => s.loop.Elsewhere? && s.registered && s.pool.producers[EVENT_LOOP].Outside?
       case Disarm => s.loop.SawUart?
       case Submit(arg) => s.loop.Disarmed? && Enabled(s.pool, AddCall(EVENT_LOOP, Job(UART_CONNECT, arg)))
       case Within(step) =>
         && Enabled(s.pool, step)
         && (step.AddCall? ==> !IsUart(step.job) && (step.p == EVENT_LOOP ==> s.loop.Elsewhere?))
         && (step.WorkerFinish? && IsUart(s.pool.workers[step.w].job) ==>
               s.pool.workers[step.w].ticket in s.settled)
       case Rearm(w, _) => Reading(s, w)
       case Settle(w, _) =>
         && w < |s.pool.workers| && s.pool.workers[w].Running? && IsUart(s.pool.workers[w].job)
         && s.pool.workers[w].ticket in s.got && s.pool.workers[w].ticket !in s.settled
  }

  ghost function Act(s: State, a: Action): State
    requires CanAct(s, a)
  {
    match a
    case SeeUart => s.(loop := SawUart)
    case Disarm => s.(registered := false, loop := Disarmed)
    case Submit(arg) =>
      s.(pool := Next(s.pool, AddCall(EVENT_LOOP, Job(UART_CONNECT, arg))), loop := Submitting)
    case Within(step) =>
      var t := s.(pool := Next(s.pool, step));
      if s.loop.Submitting? && t.pool.producers[EVENT_LOOP].Outside? then
        t.(loop := Elsewhere, lost := if |t.pool.accepted| > |s.pool.accepted| then s.lost else s.lost + 1)
      else
        t
    case Rearm(w, chunks) =>
      s.(registered := true,
         got := s.got[s.pool.workers[w].ticket := ChunkedRead.Kept(chunks, READ_LIMIT)])
    case Settle(w, gotNode) =>
      var k := s.pool.workers[w].ticket;
      var t := s.(settled := s.settled + {k});
      if s.got[k] == [] then t
      else if !gotNode then t.(dropped := s.dropped + {k})
      else t.(inserted := s.inserted + [(k, s.got[k])])
  }

  /** The reading jobs accepted by the pool that have not yet put the UART back. */
  function Outstanding(s: State): set<nat>
  {
    set k | 0 <= k < |s.pool.accepted| && IsUart(s.pool.accepted[k]) && k !in s.got
  }

  function Tokens(s: State): nat
  {
    (if s.registered then 1 else 0)
    + (if s.loop.Disarmed? || s.loop.Submitting? then 1 else 0)
    + |Outstanding(s)|
  }

  predicate Start(s: State)
  {
    && Init(s.pool) && EVENT_LOOP < |s.pool.producers|
    && s.registered && s.loop == Elsewhere
    && s.got == map[] && s.settled == {} && s.dropped == {} && s.inserted == [] && s.lost == 0
  }

  /** Only the event loop submits reading jobs, and only while it is in its submission. */
  predicate SubmissionsTracked(s: State)
  {
    && EVENT_LOOP < |s.pool.producers|
    && (forall p :: 0 <= p < |s.pool.producers| && !s.pool.producers[p].Outside? ==>
          (IsUart(s.pool.producers[p].pending) <==> p == EVENT_LOOP && s.loop.Submitting?))
    && (s.loop.Submitting? ==> !s.pool.producers[EVENT_LOOP].Outside?)
    && (s.loop.SawUart? || s.loop.Disarmed? ==> s.pool.producers[EVENT_LOOP].Outside?)
    && (s.loop.SawUart? ==> s.registered)
  }

  predicate ReadsTracked(s: State)
  {
    && (forall k :: k in s.got ==> k < |s.pool.taken| && k < |s.pool.accepted| && IsUart(s.pool.accepted[k]))
    && s.settled <= s.got.Keys
    && (forall k :: k in s.pool.finished && k < |s.pool.accepted| && IsUart(s.pool.accepted[k]) ==> k in s.settled)
  }

  predicate ReadsShort(s: State)
  {
    forall k :: k in s.got ==> |s.got[k]| < READ_LIMIT
  }

  predicate InsertionsTracked(s: State)
  {
    && s.settled <= s.got.Keys
    && s.dropped <= s.settled
    && (forall i :: 0 <= i < |s.inserted| ==>
          var (k, data) := s.inserted[i];
          k in s.settled && k !in s.dropped && data == s.got[k] && data != [])
    && (forall i, j :: 0 <= i < j < |s.inserted| ==> s.inserted[i].0 != s.inserted[j].0)
    && (forall k :: k in s.settled && k !in s.dropped && s.got[k] != [] ==>
          (k, s.got[k]) in s.inserted)
  }

  predicate UartInv(s: State)
  {
    && Inv(s.pool)
    && SubmissionsTracked(s)
    && ReadsTracked(s)
    && ReadsShort(s)
    && InsertionsTracked(s)
    && Tokens(s) + s.lost == 1
  }

  /** What a pool step does to the list of accepted jobs. */
  lemma StepAccepts(s: Pool, step: Step)
    requires Enabled(s, step)
    ensures var t := Next(s, step);
            || t.accepted == s.accepted
            || (step.AddEnter? && t.producers[step.p].Outside?
                && t.accepted == s.accepted + [s.producers[step.p].pending])
  {
  }

  /** A producer is outside, or goes on with the job it has, or has just been given one. */
  predicate SamePending(before: ProducerPc, after: ProducerPc)
  {
    after.Outside? || (!before.Outside? && after.pending == before.pending)
  }

  lemma StepKeepsPending(s: Pool, step: Step)
    requires Enabled(s, step)
    ensures var t := Next(s, step);
            && |t.producers| == |s.producers|
            && forall p :: 0 <= p < |t.producers| ==>
                 if step.AddCall? && step.p == p then s.producers[p].Outside? && t.producers[p] == AtLock(step.job)
                 else SamePending(s.producers[p], t.producers[p])
  {
  }

  lemma PoolStepKeepsSubmissions(s: State, step: Step)
    requires SubmissionsTracked(s) && CanAct(s, Within(step))
    ensures SubmissionsTracked(Act(s, Within(step)))
  {
    StepKeepsPending(s.pool, step);
  }

  /** Accepting a job adds it to the outstanding ones exactly if it is a reading job. */
  lemma AcceptedIsOutstanding(s: State, t: State)
    requires t.got == s.got && forall k :: k in s.got ==> k < |s.pool.accepted|
    requires |t.pool.accepted| == |s.pool.accepted| + 1 && s.pool.accepted <= t.pool.accepted
    ensures var n := |s.pool.accepted|;
            |Outstanding(t)| == |Outstanding(s)| + if IsUart(t.pool.accepted[n]) then 1 else 0
  {
    var n := |s.pool.accepted|;
    if IsUart(t.pool.accepted[n]) {
      assert Outstanding(t) == Outstanding(s) + {n};
    } else {
      assert Outstanding(t) == Outstanding(s);
    }
  }

  lemma PoolStepKeepsTokens(s: State, step: Step)
    requires SubmissionsTracked(s) && ReadsTracked(s) && CanAct(s, Within(step))
    ensures var t := Act(s, Within(step)); Tokens(t) + t.lost == Tokens(s) + s.lost
  {
    StepAccepts(s.pool, step);
    StepKeepsPending(s.pool, step);
    var t := Act(s, Within(step));
    if t.pool.accepted == s.pool.accepted {
      SameReadsSameOutstanding(s, t);
    } else {
      AcceptedIsOutstanding(s, t);
    }
  }

  lemma StepFinishes(s: Pool, step: Step)
    requires Enabled(s, step)
    ensures var t := Next(s, step);
            t.finished == s.finished + if step.WorkerFinish? then [s.workers[step.w].ticket] else []
  {
  }

  lemma ReadsTrackedLater(s: State, t: State)
    requires ReadsTracked(s) && t.got == s.got && t.settled == s.settled
    requires QueueIsPending(s.pool)
    requires s.pool.accepted <= t.pool.accepted && s.pool.taken <= t.pool.taken
    requires forall i :: 0 <= i < |s.pool.finished| ==> s.pool.finished[i] < |s.pool.taken|
    requires forall k :: k in t.pool.finished ==>
               k in s.pool.finished || (k < |s.pool.accepted| && (IsUart(s.pool.accepted[k]) ==> k in s.settled))
    ensures ReadsTracked(t)
  {
  }

  lemma PoolStepKeepsReads(s: State, step: Step)
    requires ReadsTracked(s) && TicketsOwned(s.pool) && QueueIsPending(s.pool) && CanAct(s, Within(step))
    ensures ReadsTracked(Act(s, Within(step)))
  {
    PoolExactlyOnce.StepExtendsHistories(s.pool, step);
    StepFinishes(s.pool, step);
    ReadsTrackedLater(s, Act(s, Within(step)));
  }

  lemma PoolStepKeepsUartInv(s: State, step: Step)
    requires UartInv(s) && CanAct(s, Within(step))
    ensures UartInv(Act(s, Within(step)))
  {
    StepKeepsInv(s.pool, step);
    PoolStepKeepsSubmissions(s, step);
    PoolStepKeepsTokens(s, step);
    PoolStepKeepsReads(s, step);
  }

  lemma RearmKeepsInv(s: State, w: nat, chunks: ChunkedRead.Reads)
    requires UartInv(s) && CanAct(s, Rearm(w, chunks))
    ensures UartInv(Act(s, Rearm(w, chunks)))
  {
    var t := Act(s, Rearm(w, chunks));
    var k := s.pool.workers[w].ticket;
    ChunkedRead.KeptIsShort(chunks, READ_LIMIT);
    assert k in Outstanding(s);
    assert Outstanding(t) == Outstanding(s) - {k};
  }

  lemma SettleKeepsInsertions(s: State, w: nat, gotNode: bool)
    requires InsertionsTracked(s) && CanAct(s, Settle(w, gotNode))
    ensures InsertionsTracked(Act(s, Settle(w, gotNode)))
  {
    var t := Act(s, Settle(w, gotNode));
    forall k | k in t.settled && k !in t.dropped && t.got[k] != []
      ensures (k, t.got[k]) in t.inserted
    {
      assert k in s.settled ==> (k, s.got[k]) in s.inserted;
    }
  }

  /** Settling and the loop's own actions leave reads and accepted jobs alone. */
  lemma SameReadsSameOutstanding(s: State, t: State)
    requires t.got == s.got && t.pool.accepted == s.pool.accepted
    ensures Outstanding(t) == Outstanding(s)
  {
  }

  lemma SettleKeepsRest(s: State, w: nat, gotNode: bool)
    requires SubmissionsTracked(s) && ReadsTracked(s) && ReadsShort(s) && CanAct(s, Settle(w, gotNode))
    ensures var t := Act(s, Settle(w, gotNode));
            && t.pool == s.pool && t.got == s.got && t.lost == s.lost
            && t.registered == s.registered && t.loop == s.loop
            && SubmissionsTracked(t) && ReadsTracked(t) && ReadsShort(t)
  {
  }

  lemma SettleKeepsInv(s: State, w: nat, gotNode: bool)
    requires UartInv(s) && CanAct(s, Settle(w, gotNode))
    ensures UartInv(Act(s, Settle(w, gotNode)))
  {
    SettleKeepsRest(s, w, gotNode);
    SettleKeepsInsertions(s, w, gotNode);
    SameReadsSameOutstanding(s, Act(s, Settle(w, gotNode)));
  }

  lemma LoopKeepsSubmissions(s: State, a: Action)
    requires SubmissionsTracked(s) && CanAct(s, a) && (a.SeeUart? || a.Disarm? || a.Submit?)
    ensures SubmissionsTracked(Act(s, a))
  {
  }

  lemma LoopKeepsTokens(s: State, a: Action)
    requires SubmissionsTracked(s) && CanAct(s, a) && (a.SeeUart? || a.Disarm? || a.Submit?)
    ensures Tokens(Act(s, a)) == Tokens(s) && Act(s, a).lost == s.lost
  {
    SameReadsSameOutstanding(s, Act(s, a));
  }

  lemma LoopKeepsRecords(s: State, a: Action)
    requires ReadsTracked(s) && ReadsShort(s) && InsertionsTracked(s)
    requires CanAct(s, a) && (a.SeeUart? || a.Disarm? || a.Submit?)
    ensures var t := Act(s, a); ReadsTracked(t) && ReadsShort(t) && InsertionsTracked(t)
  {
  }

  lemma LoopKeepsPool(s: State, a: Action)
    requires Inv(s.pool) && CanAct(s, a) && (a.SeeUart? || a.Disarm? || a.Submit?)
    ensures Inv(Act(s, a).pool)
  {
    if a.Submit? {
      StepKeepsInv(s.pool, AddCall(EVENT_LOOP, Job(UART_CONNECT, a.arg)));
    }
  }

  lemma LoopKeepsInv(s: State, a: Action)
    requires UartInv(s) && CanAct(s, a) && (a.SeeUart? || a.Disarm? || a.Submit?)
    ensures UartInv(Act(s, a))
  {
    LoopKeepsPool(s, a);
    LoopKeepsSubmissions(s, a);
    LoopKeepsTokens(s, a);
    LoopKeepsRecords(s, a);
  }

  lemma ActionKeepsInv(s: State, a: Action)
    requires UartInv(s) && CanAct(s, a)
    ensures UartInv(Act(s, a))
  {
    match a {
      case Within(step) => PoolStepKeepsUartInv(s, step);
      case Rearm(w, chunks) => RearmKeepsInv(s, w, chunks);
      case Settle(w, gotNode) => SettleKeepsInv(s, w, gotNode);
      case _ => LoopKeepsInv(s, a);
    }
  }

  datatype History = History(states: seq<State>, actions: seq<Action>)

  ghost predicate ActionAt(h: History, i: nat)
    requires |h.states| == |h.actions| + 1 && i < |h.actions|
  {
    CanAct(h.states[i], h.actions[i]) && h.states[i + 1] == Act(h.states[i], h.actions[i])
  }

  ghost predicate IsHistory(h: History)
  {
    && |h.states| == |h.actions| + 1
    && Start(h.states[0])
    && forall i :: 0 <= i < |h.actions| ==> ActionAt(h, i)
  }

  lemma StartSatisfiesInv(s: State)
    requires Start(s)
    ensures UartInv(s)
  {
    PoolInvariant.InitSatisfiesInv(s.pool);
    assert Outstanding(s) == {};
  }

  lemma {:induction false} HistorySatisfiesInv(h: History, i: nat)
    requires IsHistory(h) && i < |h.states|
    ensures UartInv(h.states[i])
  {
    if i == 0 {
      StartSatisfiesInv(h.states[0]);
    } else {
      HistorySatisfiesInv(h, i - 1);
      assert ActionAt(h, i - 1);
      ActionKeepsInv(h.states[i - 1], h.actions[i - 1]);
    }
  }

  /** How many reading jobs were refused, by the values their add calls returned. */
  function Refusals(rs: seq<Return>): nat
  {
    if rs == [] then 0
    else
      var last := rs[|rs| - 1];
      Refusals(rs[..|rs| - 1]) + if IsUart(last.job) && last.code == -1 then 1 else 0
  }

  /** The count of lost reading jobs is that of the refused ones. */
  predicate Counted(s: State)
  {
    s.lost == Refusals(s.pool.results)
  }

  lemma RefusalsAppend(rs: seq<Return>, r: Return)
    ensures Refusals(rs + [r]) == Refusals(rs) + if IsUart(r.job) && r.code == -1 then 1 else 0
  {
    assert (rs + [r])[..|rs|] == rs;
  }

  /** Only the end of an add call returns a value, and only it lets a producer go. */
  lemma StepReturnsValue(s: Pool, step: Step)
    requires Enabled(s, step)
    ensures var t := Next(s, step);
            if step.AddEnter? && t.producers[step.p].Outside? then
              t.results == s.results
                           + [Return(step.p, s.producers[step.p].pending, if t.accepted != s.accepted then 0 else -1)]
            else t.results == s.results && t.accepted == s.accepted
    ensures var t := Next(s, step);
            forall p :: 0 <= p < |s.producers| && !s.producers[p].Outside? && t.producers[p].Outside? ==>
              step.AddEnter? && step.p == p
  {
  }

  lemma PoolStepCountsRefusals(s: State, step: Step)
    requires SubmissionsTracked(s) && CanAct(s, Within(step)) && Counted(s)
    ensures Counted(Act(s, Within(step)))
  {
    StepReturnsValue(s.pool, step);
    StepAccepts(s.pool, step);
    var t := Next(s.pool, step);
    if t.results != s.pool.results {
      RefusalsAppend(s.pool.results, t.results[|s.pool.results|]);
    }
  }

  lemma ActionCountsRefusals(s: State, a: Action)
    requires SubmissionsTracked(s) && CanAct(s, a) && Counted(s)
    ensures Counted(Act(s, a))
  {
    if a.Within? {
      PoolStepCountsRefusals(s, a.step);
    }
  }

  lemma ActionAtCountsRefusals(h: History, i: nat)
    requires IsHistory(h) && i < |h.actions| && Counted(h.states[i])
    ensures Counted(h.states[i + 1])
  {
    HistorySatisfiesInv(h, i);
    assert ActionAt(h, i);
    ActionCountsRefusals(h.states[i], h.actions[i]);
  }

  lemma {:induction false} LostAreRefusals(h: History, i: nat)
    requires IsHistory(h) && i < |h.states|
    ensures Counted(h.states[i])
  {
    if i > 0 {
      LostAreRefusals(h, i - 1);
      ActionAtCountsRefusals(h, i - 1);
    }
  }

  /** The right to read the UART exists exactly once, until an add call returns -1 for a reading job; then it is
      gone, and no second reading job is ever refused. */
  lemma TokenConserved(h: History, i: nat)
    requires IsHistory(h) && i < |h.states|
    ensures Tokens(h.states[i]) + Refusals(h.states[i].pool.results) == 1
  {
    HistorySatisfiesInv(h, i);
    LostAreRefusals(h, i);
  }

  lemma SingletonAtMost(xs: set<nat>, a: nat, b: nat)
    requires |xs| <= 1 && a in xs && b in xs
    ensures a == b
  {
    assert |xs - {a}| == 0;
    assert xs == (xs - {a}) + {a};
  }

  /** No two workers are ever inside the read loop of the UART together, and while one is, the UART is not
      in the epoll set and no other reading job is queued or being submitted. */
  lemma ReadersNeverOverlap(h: History, i: nat, v: nat, w: nat)
    requires IsHistory(h) && i < |h.states| && Reading(h.states[i], v) && Reading(h.states[i], w)
    ensures v == w
    ensures !h.states[i].registered && !h.states[i].loop.Disarmed? && !h.states[i].loop.Submitting?
    ensures Outstanding(h.states[i]) == {h.states[i].pool.workers[v].ticket}
  {
    HistorySatisfiesInv(h, i);
    var s := h.states[i];
    var k := s.pool.workers[v].ticket;
    assert k in Outstanding(s) && s.pool.workers[w].ticket in Outstanding(s);
    SingletonAtMost(Outstanding(s), k, s.pool.workers[w].ticket);
    forall j | j in Outstanding(s)
      ensures j == k
    {
      SingletonAtMost(Outstanding(s), j, k);
    }
  }

  lemma ReaderHoldsToken(s: State, w: nat)
    requires TicketsOwned(s.pool) && QueueIsPending(s.pool) && Tokens(s) + s.lost == 1
    ensures Reading(s, w) ==> s.lost == 0 && s.pool.workers[w].ticket in Outstanding(s)
  {
    if Reading(s, w) {
      assert s.pool.workers[w].ticket in Outstanding(s);
    }
  }

  /** After a refused reading job the UART is never watched, submitted or read again. */
  lemma RefusalSilencesUart(h: History, i: nat, w: nat)
    requires IsHistory(h) && i < |h.states| && Refusals(h.states[i].pool.results) > 0
    ensures !h.states[i].registered && h.states[i].loop == Elsewhere && !Reading(h.states[i], w)
  {
    HistorySatisfiesInv(h, i);
    LostAreRefusals(h, i);
    ReaderHoldsToken(h.states[i], w);
  }

  /** The pool refuses the first reading job, for want of memory. */
  function RefusedHistory(arg: nat): History
  {
    var job := Job(UART_CONNECT, arg);
    var pool := PoolMonitor.Pool(1, Shared([], false, false), [Ready], [Outside], [], false, [], [], [], [], 0);
    var s0 := State(pool, true, Elsewhere, map[], {}, {}, [], 0);
    var s1 := s0.(loop := SawUart);
    var s2 := s0.(registered := false, loop := Disarmed);
    var s3 := s2.(pool := pool.(producers := [AtLock(job)]), loop := Submitting);
    var s4 := s2.(pool := pool.(results := [Return(EVENT_LOOP, job, -1)]), loop := Elsewhere, lost := 1);
    History([s0, s1, s2, s3, s4], [SeeUart, Disarm, Submit(arg), Within(AddEnter(EVENT_LOOP, false))])
  }

  /** The token can be lost: this history ends with no reading job, the UART unregistered and the loop back at
      its wait. */
  lemma RefusalHappens(arg: nat)
    ensures var h := RefusedHistory(arg); IsHistory(h) && Refusals(h.states[4].pool.results) == 1
  {
    var h := RefusedHistory(arg);
    var results := h.states[4].pool.results;
    assert results[..0] == [];
    assert ActionAt(h, 0);
    assert ActionAt(h, 1);
    assert ActionAt(h, 2);
    assert ActionAt(h, 3);
    forall i | 0 <= i < |h.actions|
      ensures ActionAt(h, i)
    {
      assert i == 0 || i == 1 || i == 2 || i == 3;
    }
  }

  function TicketsOf(log: seq<(nat, seq<byte>)>): (r: seq<nat>)
    ensures |r| == |log| && forall i :: 0 <= i < |log| ==> r[i] == log[i].0
  {
    seq(|log|, i requires 0 <= i < |log| => log[i].0)
  }

  /** What a reading job keeps of the chunks it reads: as many whole chunks as stay below 1024 bytes together. */
  ghost predicate KeptOf(data: seq<byte>, chunks: ChunkedRead.Reads)
  {
    exists n: nat :: ChunkedRead.LongestFit(chunks, 1024, n) && data == ChunkedRead.Concat(chunks[..n])
  }

  /** Action `j` is the read of the job with ticket `k`, and `data` is what it kept. */
  ghost predicate ReadAt(h: History, j: nat, k: nat, data: seq<byte>)
    requires IsHistory(h)
  {
    && j < |h.actions| && h.actions[j].Rearm? && Reading(h.states[j], h.actions[j].w)
    && h.states[j].pool.workers[h.actions[j].w].ticket == k
    && KeptOf(data, h.actions[j].chunks)
  }

  /** Only the job's own read changes what it is known to have kept, and it puts the UART back. */
  lemma RearmKeepsChunks(s: State, a: Action)
    requires CanAct(s, a)
    ensures var t := Act(s, a);
            if a.Rearm? then
              var k := s.pool.workers[a.w].ticket;
              && t.registered && k in t.got && KeptOf(t.got[k], a.chunks)
              && t.got.Keys == s.got.Keys + {k} && forall j :: j in s.got && j != k ==> t.got[j] == s.got[j]
            else t.got == s.got
  {
    if a.Rearm? {
      var n := ChunkedRead.KeptReads(a.chunks, READ_LIMIT);
      assert ChunkedRead.LongestFit(a.chunks, 1024, n);
      assert Act(s, a).got[s.pool.workers[a.w].ticket] == ChunkedRead.Concat(a.chunks[..n]);
    }
  }

  /** Whatever a reading job is known to have kept, it has read: there is one read of its own in the past, and the
      data are the longest prefix of whole chunks of it that stays below 1024 bytes. */
  lemma {:induction false} GotWasRead(h: History, i: nat, k: nat) returns (j: nat)
    requires IsHistory(h) && i < |h.states| && k in h.states[i].got
    ensures j < i && ReadAt(h, j, k, h.states[i].got[k])
  {
    assert i > 0;
    assert ActionAt(h, i - 1);
    var s, a := h.states[i - 1], h.actions[i - 1];
    RearmKeepsChunks(s, a);
    if a.Rearm? && s.pool.workers[a.w].ticket == k {
      j := i - 1;
    } else {
      j := GotWasRead(h, i - 1, k);
    }
  }

  /** Action `j` is the end of the reading job with ticket `k`, which tries to allocate a node if there is a message. */
  ghost predicate SettledAt(h: History, j: nat, k: nat)
    requires IsHistory(h)
  {
    && j < |h.actions| && h.actions[j].Settle?
    && h.actions[j].w < |h.states[j].pool.workers| && h.states[j].pool.workers[h.actions[j].w].Running?
    && h.states[j].pool.workers[h.actions[j].w].ticket == k
  }

  /** What storing changes: it drops a message exactly if its node could not be allocated. */
  lemma SettleDecides(s: State, a: Action)
    requires CanAct(s, a)
    ensures var t := Act(s, a);
            if a.Settle? then
              var k := s.pool.workers[a.w].ticket;
              && k in s.got && t.settled == s.settled + {k}
              && t.dropped == s.dropped + (if s.got[k] != [] && !a.gotNode then {k} else {})
              && t.inserted == s.inserted + (if s.got[k] != [] && a.gotNode then [(k, s.got[k])] else [])
            else t.settled == s.settled && t.dropped == s.dropped && t.inserted == s.inserted
  {
  }

  lemma RecordsNested(h: History, i: nat)
    requires IsHistory(h) && i < |h.states|
    ensures h.states[i].settled <= h.states[i].got.Keys && h.states[i].dropped <= h.states[i].settled
  {
    HistorySatisfiesInv(h, i);
  }

  lemma SettledStep(s: State, a: Action, k: nat)
    requires s.settled <= s.got.Keys && s.dropped <= s.settled && CanAct(s, a) && k in Act(s, a).settled
    ensures var t := Act(s, a);
            && k in t.got
            && if a.Settle? && s.pool.workers[a.w].ticket == k then
                 k in t.dropped <==> t.got[k] != [] && !a.gotNode
               else k in s.settled && t.got[k] == s.got[k] && (k in t.dropped <==> k in s.dropped)
  {
    SettleDecides(s, a);
    RearmKeepsChunks(s, a);
  }

  /** Messages are dropped for want of memory only: each past settlement is on record, with the outcome of its
      allocation. */
  lemma {:induction false} SettledByAllocation(h: History, i: nat, k: nat) returns (j: nat)
    requires IsHistory(h) && i < |h.states| && k in h.states[i].settled
    ensures j < i && k in h.states[i].got
    ensures SettledAt(h, j, k)
    ensures k in h.states[i].dropped <==> h.states[i].got[k] != [] && !h.actions[j].gotNode
  {
    assert i > 0;
    assert ActionAt(h, i - 1);
    RecordsNested(h, i - 1);
    var s, a := h.states[i - 1], h.actions[i - 1];
    SettledStep(s, a, k);
    if a.Settle? && s.pool.workers[a.w].ticket == k {
      j := i - 1;
    } else {
      j := SettledByAllocation(h, i - 1, k);
    }
  }

  /** The event loop is held up by the pool only: it takes up the UART whenever it is watched, and submits what it took
      up. */
  lemma LoopCanGoOn(s: State, arg: nat)
    requires EVENT_LOOP < |s.pool.producers| && (s.loop.Submitting? || s.pool.producers[EVENT_LOOP].Outside?)
    ensures s.loop.Elsewhere? && s.registered ==> CanAct(s, SeeUart) && Act(s, SeeUart).loop == SawUart
    ensures s.loop.SawUart? ==>
              CanAct(s, Disarm) && !Act(s, Disarm).registered && Act(s, Disarm).loop == Disarmed
    ensures s.loop.Disarmed? && !s.pool.reclaimed ==>
              && CanAct(s, Submit(arg))
              && Act(s, Submit(arg)).pool.producers[EVENT_LOOP] == AtLock(Job(UART_CONNECT, arg))
              && Act(s, Submit(arg)).loop == Submitting
  {
  }

  /** A reading job is never held up: it can read, then store, then end. */
  lemma ReaderCanGoOn(s: State, w: nat, chunks: ChunkedRead.Reads)
    requires EVENT_LOOP < |s.pool.producers| && w < |s.pool.workers| && s.pool.workers[w].Running?
    requires IsUart(s.pool.workers[w].job)
    ensures var k := s.pool.workers[w].ticket;
            if k !in s.got then CanAct(s, Rearm(w, chunks))
            else if k !in s.settled then CanAct(s, Settle(w, true)) && CanAct(s, Settle(w, false))
            else CanAct(s, Within(WorkerFinish(w)))
  {
  }

  /** Each finished reading job has stored its message exactly once if it kept anything and got a node for it, and
      not at all otherwise; what it stored is what it kept, and is shorter than the node of its consumer. */
  lemma EachReadInsertedOnce(h: History, i: nat, k: nat)
    requires IsHistory(h) && i < |h.states|
    requires k in h.states[i].pool.finished && k < |h.states[i].pool.accepted|
    requires IsUart(h.states[i].pool.accepted[k])
    ensures var s := h.states[i];
            && k in s.got
            && multiset(TicketsOf(s.inserted))[k] == (if s.got[k] != [] && k !in s.dropped then 1 else 0)
            && (forall data :: (k, data) in s.inserted ==> data == s.got[k] && 0 < |data| < READ_LIMIT)
            && (exists j: nat :: j < i && ReadAt(h, j, k, s.got[k]))
  {
    HistorySatisfiesInv(h, i);
    var read := GotWasRead(h, i, k);
    var s := h.states[i];
    PoolExactlyOnce.DistinctOccursOnce(TicketsOf(s.inserted), k);
    if s.got[k] != [] && k !in s.dropped {
      var j :| 0 <= j < |s.inserted| && s.inserted[j] == (k, s.got[k]);
      assert TicketsOf(s.inserted)[j] == k;
    }
  }
}

/** No thread of the pool sleeps through a change it waits for, although most changes notify nobody. */
module PoolWakeups {
  import opened PoolSections
  import opened PoolMonitor
  import opened PoolInvariant

  /** Who may be asleep in a reachable state. A sleeping worker or destroyer would go back to sleep if it
      ran its section now, except a worker that the closing destroyer is just about to wake; a sleeping
      producer faces a full queue, so the next take from the queue wakes it. */
  lemma NoLostWakeups(run: Run, i: nat)
    requires IsRun(run) && i < |run.states|
    ensures var s := run.states[i];
            && (s.shared.queue != [] ==> forall w :: 0 <= w < |s.workers| ==> !s.workers[w].Asleep?)
            && (forall w :: 0 <= w < |s.workers| && s.workers[w].Asleep? ==>
                  || WorkerSection(s.cap, s.shared).1.WorkerWait?
                  || (s.closer < |s.destroyers| && s.destroyers[s.closer].BeforeWakeWorkers?))
            && (forall p :: 0 <= p < |s.producers| && s.producers[p].AsleepFull? ==> |s.shared.queue| == s.cap)
            && (forall d :: 0 <= d < |s.destroyers| && s.destroyers[d].AsleepEmpty? ==>
                  s.shared.queueClose && s.shared.queue != [] && DrainSection(s.shared).1.DestroyWait?)
            && (forall d, e | 0 <= d < |s.destroyers| && 0 <= e < |s.destroyers| ::
                  s.destroyers[d].AsleepEmpty? && s.destroyers[e].AsleepEmpty? ==> d == e)
  {
    RunSatisfiesInv(run, i);
    var s := run.states[i];
    if s.shared.poolClose {
      var pc := s.destroyers[s.closer];
      assert pc.BeforeWakeWorkers? || WokeWorkers(pc);
    }
  }

  lemma AcceptNotifies(s: Pool, p: nat, gotNode: bool)
    requires SleepersJustified(s) && Enabled(s, AddEnter(p, gotNode))
    ensures var t := AfterAddEnter(s, p, gotNode);
            t.accepted != s.accepted ==> forall w :: 0 <= w < |t.workers| ==> !t.workers[w].Asleep?
  {
  }

  lemma TakeNotifies(s: Pool, w: nat, woken: set<nat>)
    requires SleepersJustified(s) && Enabled(s, WorkerEnter(w, woken))
    ensures var t := AfterWorkerEnter(s, w, woken);
            t.taken != s.taken ==>
              && (forall p :: 0 <= p < |t.producers| ==> !t.producers[p].AsleepFull?)
              && (t.shared.queue == [] ==> forall d :: 0 <= d < |t.destroyers| ==> !t.destroyers[d].AsleepEmpty?)
  {
  }

  lemma OtherStepsNeitherAcceptNorTake(s: Pool, step: Step)
    requires Enabled(s, step)
    ensures !step.AddEnter? ==> Next(s, step).accepted == s.accepted
    ensures !step.WorkerEnter? ==> Next(s, step).taken == s.taken
  {
  }

  /** The few notifications the code sends are all that is needed: whoever sleeps through a change that
      concerns him is woken by that very change. An accepted job leaves no worker asleep, a taken job leaves no
      producer asleep, and the take of the last job leaves no destroyer asleep. */
  lemma EveryChangeNotifies(run: Run, i: nat)
    requires IsRun(run) && i < |run.steps|
    ensures var s, t := run.states[i], run.states[i + 1];
            && (t.accepted != s.accepted ==>
                  forall w :: 0 <= w < |t.workers| ==> !t.workers[w].Asleep?)
            && (t.taken != s.taken ==>
                  forall p :: 0 <= p < |t.producers| ==> !t.producers[p].AsleepFull?)
            && (t.taken != s.taken && t.shared.queue == [] ==>
                  forall d :: 0 <= d < |t.destroyers| ==> !t.destroyers[d].AsleepEmpty?)
  {
    assert StepAt(run, i);
    RunSatisfiesInv(run, i);
    var s, step := run.states[i], run.steps[i];
    OtherStepsNeitherAcceptNorTake(s, step);
    match step {
      case AddEnter(p, gotNode) => AcceptNotifies(s, p, gotNode);
      case WorkerEnter(w, woken) => TakeNotifies(s, w, woken);
      case _ =>
    }
  }

  lemma {:induction false} CapacityIsFixed(run: Run, i: nat)
    requires IsRun(run) && i < |run.states|
    ensures run.states[i].cap == run.states[0].cap
  {
    if i > 0 {
      CapacityIsFixed(run, i - 1);
      assert StepAt(run, i - 1);
    }
  }

  /** In some reachable state of a pool of capacity `cap` the closing destroyer stands before its broadcast to
      the producers and one of them is asleep. */
  ghost predicate BroadcastFindsProducer(cap: int)
  {
    exists run: Run, i: nat, p: nat, d: nat ::
      && IsRun(run) && run.states[0].cap == cap && i < |run.states|
      && p < |run.states[i].producers| && run.states[i].producers[p].AsleepFull?
      && d < |run.states[i].destroyers| && run.states[i].destroyers[d].BeforeWakeProducers?
  }

  /** With capacity zero the only producer sleeps, the destroyer closes the pool over it, and its second
      broadcast releases the producer. */
  function ZeroCapacityRun(job: Job): Run
  {
    var s0 := Pool(0, Shared([], false, false), [], [Outside], [NotCalled], false, [], [], [], [], 0);
    var s1 := s0.(producers := [AtLock(job)]);
    var s2 := s0.(producers := [AsleepFull(job)]);
    var s3 := s2.(destroyers := [AtEntry]);
    var s4 := s3.(shared := Shared([], true, true), destroyers := [BeforeWakeWorkers]);
    var s5 := s4.(destroyers := [BeforeWakeProducers]);
    var s6 := s5.(destroyers := [Joining(0)], producers := [AtLock(job)]);
    Run([s0, s1, s2, s3, s4, s5, s6],
        [AddCall(0, job), AddEnter(0, true), DestroyCall(0), DestroyEnter(0), WakeAllWorkers(0), WakeAllProducers(0)])
  }

  lemma ZeroCapacityLeavesProducer(job: Job)
    ensures var run := ZeroCapacityRun(job);
            && IsRun(run) && run.states[5].producers == [AsleepFull(job)]
            && run.states[5].destroyers == [BeforeWakeProducers] && run.states[6].producers == [AtLock(job)]
  {
    var run := ZeroCapacityRun(job);
    assert StepAt(run, 0);
    assert StepAt(run, 1);
    assert StepAt(run, 2);
    assert StepAt(run, 3);
    assert StepAt(run, 4);
    assert StepAt(run, 5);
    forall i | 0 <= i < |run.steps|
      ensures StepAt(run, i)
    {
      assert i == 0 || i == 1 || i == 2 || i == 3 || i == 4 || i == 5;
    }
  }

  /** The destroyer's broadcast to the producers has somebody to wake only in a pool of capacity zero. */
  lemma ProducerBroadcastNeededIff(cap: int)
    ensures BroadcastFindsProducer(cap) <==> cap == 0
  {
    if cap == 0 {
      var run := ZeroCapacityRun(Job(0, 0));
      ZeroCapacityLeavesProducer(Job(0, 0));
      assert run.states[5].producers[0].AsleepFull? && run.states[5].destroyers[0].BeforeWakeProducers?;
    }
    if BroadcastFindsProducer(cap) {
      var run: Run, i: nat, p: nat, d: nat :|
        && IsRun(run) && run.states[0].cap == cap && i < |run.states|
        && p < |run.states[i].producers| && run.states[i].producers[p].AsleepFull?
        && d < |run.states[i].destroyers| && run.states[i].destroyers[d].BeforeWakeProducers?;
      CapacityIsFixed(run, i);
      RunSatisfiesInv(run, i);
    }
  }

  lemma WokenAreRefused(s: Pool, d: nat, p: nat, gotNode: bool)
    requires CloseProtocol(s) && ProducersWoken(s)
    requires d < |s.destroyers| && WokeProducers(s.destroyers[d]) && p < |s.producers|
    ensures !s.producers[p].AsleepFull?
    ensures s.producers[p].AtLock? ==>
              AddSection(s.cap, s.shared, s.producers[p].pending, gotNode) == (s.shared, AddRejected)
  {
  }

  /** Past its broadcasts the closing destroyer finds no producer asleep, and an add call that obtains the mutex
      returns -1 at once. */
  lemma NoAddSleepsAfterClose(run: Run, i: nat, d: nat, p: nat, gotNode: bool)
    requires IsRun(run) && i < |run.states|
    requires d < |run.states[i].destroyers| && WokeProducers(run.states[i].destroyers[d])
    requires p < |run.states[i].producers|
    ensures var s := run.states[i];
            && !s.producers[p].AsleepFull?
            && (s.producers[p].AtLock? ==>
                  AddSection(s.cap, s.shared, s.producers[p].pending, gotNode) == (s.shared, AddRejected))
  {
    RunSatisfiesInv(run, i);
    WokenAreRefused(run.states[i], d, p, gotNode);
  }
}

/** Every accepted job is taken once, in acceptance order, and has run when the destroyer returns. */
module PoolExactlyOnce {
  import opened PoolMonitor
  import opened PoolInvariant

  lemma StepExtendsHistories(s: Pool, step: Step)
    requires Enabled(s, step)
    ensures var t := Next(s, step);
            s.accepted <= t.accepted && s.taken <= t.taken && s.finished <= t.finished && s.results <= t.results
  {
  }

  lemma {:induction false} HistoriesGrow(run: Run, i: nat, j: nat)
    requires IsRun(run) && i <= j < |run.states|
    ensures run.states[i].accepted <= run.states[j].accepted
    ensures run.states[i].taken <= run.states[j].taken
    ensures run.states[i].finished <= run.states[j].finished
    ensures run.states[i].results <= run.states[j].results
    decreases j - i
  {
    if i < j {
      HistoriesGrow(run, i, j - 1);
      assert StepAt(run, j - 1);
      StepExtendsHistories(run.states[j - 1], run.steps[j - 1]);
    }
  }

  /** Step `i` of the run hands out ticket `k`. */
  ghost predicate TakesTicket(run: Run, i: nat, k: nat)
    requires IsRun(run)
  {
    && i < |run.steps| && run.steps[i].WorkerEnter?
    && |run.states[i].taken| == k
    && run.states[i + 1].taken == run.states[i].taken + [run.steps[i].w]
  }

  /** A take gives its worker the oldest accepted job that no worker has had. */
  lemma TakesFollowAcceptance(run: Run, i: nat, k: nat)
    requires IsRun(run) && TakesTicket(run, i, k)
    ensures k < |run.states[i].accepted|
    ensures run.steps[i].w < |run.states[i + 1].workers|
    ensures run.states[i + 1].workers[run.steps[i].w] == Running(k, run.states[i].accepted[k])
  {
    assert StepAt(run, i);
    RunSatisfiesInv(run, i);
  }

  lemma {:induction false} TicketHasTake(run: Run, n: nat, k: nat) returns (i: nat)
    requires IsRun(run) && n < |run.states| && k < |run.states[n].taken|
    ensures i < n && TakesTicket(run, i, k)
  {
    assert n > 0;
    assert StepAt(run, n - 1);
    if k < |run.states[n - 1].taken| {
      i := TicketHasTake(run, n - 1, k);
    } else {
      i := n - 1;
    }
  }

  /** Each ticket handed out is handed out by exactly one step of the run, to exactly one worker. */
  lemma EachTicketTakenOnce(run: Run, n: nat, k: nat)
    requires IsRun(run) && n < |run.states| && k < |run.states[n].taken|
    ensures exists i: nat :: TakesTicket(run, i, k) && run.steps[i].w == run.states[n].taken[k]
    ensures forall i: nat, j: nat :: TakesTicket(run, i, k) && TakesTicket(run, j, k) ==> i == j
  {
    var i := TicketHasTake(run, n, k);
    HistoriesGrow(run, i + 1, n);
    assert run.states[i + 1].taken[k] == run.steps[i].w;
    forall a: nat, b: nat | TakesTicket(run, a, k) && TakesTicket(run, b, k)
      ensures a == b
    {
      if a < b {
        HistoriesGrow(run, a + 1, b);
      } else if b < a {
        HistoriesGrow(run, b + 1, a);
      }
    }
  }

  lemma {:induction false} DistinctOccursOnce(xs: seq<nat>, k: nat)
    requires forall i, j :: 0 <= i < j < |xs| ==> xs[i] != xs[j]
    ensures multiset(xs)[k] == if k in xs then 1 else 0
  {
    if xs != [] {
      var init, last := xs[..|xs| - 1], xs[|xs| - 1];
      assert xs == init + [last];
      DistinctOccursOnce(init, k);
    }
  }

  /** At no point has a callback returned more often than its job was accepted and taken. */
  lemma NeverExecutedTwice(run: Run, i: nat, k: nat)
    requires IsRun(run) && i < |run.states|
    ensures var s := run.states[i];
            && multiset(s.finished)[k] <= 1
            && (k in s.finished ==> k < |s.taken| <= |s.accepted|)
            && (forall v, w :: 0 <= v < |s.workers| && 0 <= w < |s.workers|
                               && RunsTicket(s.workers[v], k) && RunsTicket(s.workers[w], k) ==>
                  v == w && k !in s.finished)
  {
    RunSatisfiesInv(run, i);
    DistinctOccursOnce(run.states[i].finished, k);
  }

  /** Once the closing destroyer has joined the workers, the jobs whose add call returned 0 have all run, each
      exactly once, and the destroyer's own loop over the job list has nothing left to free. */
  lemma ShutdownRanEverything(run: Run, i: nat, d: nat)
    requires IsRun(run) && i < |run.states|
    requires d < |run.states[i].destroyers| && JoinedAll(run.states[i].destroyers[d])
    ensures var s := run.states[i];
            && s.shared.queue == []
            && (forall w :: 0 <= w < |s.workers| ==> s.workers[w].Exited?)
            && |s.taken| == |s.accepted| && s.accepted == SucceededJobs(s.results)
            && (forall k: nat :: multiset(s.finished)[k] == if k < |s.accepted| then 1 else 0)
  {
    RunSatisfiesInv(run, i);
    var s := run.states[i];
    assert forall w :: 0 <= w < |s.workers| ==> Joined(s.destroyers[d], w);
    forall k: nat
      ensures multiset(s.finished)[k] == if k < |s.accepted| then 1 else 0
    {
      DistinctOccursOnce(s.finished, k);
    }
  }

  lemma ReclaimedIsStuck(s: Pool, step: Step)
    requires CloseProtocol(s) && JoinedHaveExited(s) && ReclaimedIsQuiet(s) && s.reclaimed
    ensures !Enabled(s, step)
  {
    assert forall w :: 0 <= w < |s.workers| ==> Joined(s.destroyers[s.closer], w);
  }

  /** Nobody touches the pool after it has been freed: no step at all is possible any more. */
  lemma NothingFollowsReclaim(run: Run, i: nat, step: Step)
    requires IsRun(run) && i < |run.states| && run.states[i].reclaimed
    ensures !Enabled(run.states[i], step)
  {
    RunSatisfiesInv(run, i);
    ReclaimedIsStuck(run.states[i], step);
  }
}

/** Shutdown ends: after the queue is closed the workers and the closing destroyer take boundedly many steps,
    and they are never all stuck before the destroyer has joined every worker. */
module PoolShutdown {
  import opened PoolSections
  import opened PoolMonitor
  import opened PoolInvariant

  /** The steps by which the pool itself makes progress; the rest are calls from outside and spurious wakeups. */
  predicate PoolStep(step: Step)
  {
    || step.WorkerEnter? || step.WorkerFinish? || step.DestroyResume? || step.WakeAllWorkers?
    || step.WakeAllProducers? || step.Join? || step.Reclaim?
  }

  predicate SpuriousStep(step: Step)
  {
    step.WorkerSpurious? || step.DestroySpurious?
  }

  function WorkerRank(pc: WorkerPc): nat
  {
    match pc
    case Exited => 0
    case Asleep => 1
    case Ready => 2
    case Running(_, _) => 3
  }

  function DestroyerRank(pc: DestroyerPc, n: nat): nat
  {
    match pc
    case AtRetest => 2 * n + 6
    case AsleepEmpty => 2 * n + 5
    case BeforeWakeWorkers => 2 * n + 4
    case BeforeWakeProducers => n + 3
    case Joining(i) => if i < n then n - i + 2 else 2
    case Reclaiming => 1
    case _ => 0
  }

  function WorkerSum(ws: seq<WorkerPc>): nat
  {
    if ws == [] then 0 else WorkerRank(ws[0]) + WorkerSum(ws[1..])
  }

  function DestroyerSum(ds: seq<DestroyerPc>, n: nat): nat
  {
    if ds == [] then 0 else DestroyerRank(ds[0], n) + DestroyerSum(ds[1..], n)
  }

  function Measure(s: Pool): nat
  {
    3 * |s.shared.queue| + WorkerSum(s.workers) + DestroyerSum(s.destroyers, |s.workers|)
  }

  lemma {:induction false} WorkerSumUpdate(ws: seq<WorkerPc>, w: nat, pc: WorkerPc)
    requires w < |ws|
    ensures WorkerSum(ws[w := pc]) == WorkerSum(ws) - WorkerRank(ws[w]) + WorkerRank(pc)
  {
    if w > 0 {
      assert ws[w := pc][1..] == ws[1..][w - 1 := pc];
      WorkerSumUpdate(ws[1..], w - 1, pc);
    } else {
      assert ws[w := pc][1..] == ws[1..];
    }
  }

  lemma {:induction false} DestroyerSumUpdate(ds: seq<DestroyerPc>, n: nat, d: nat, pc: DestroyerPc)
    requires d < |ds|
    ensures DestroyerSum(ds[d := pc], n) == DestroyerSum(ds, n) - DestroyerRank(ds[d], n) + DestroyerRank(pc, n)
  {
    if d > 0 {
      assert ds[d := pc][1..] == ds[1..][d - 1 := pc];
      DestroyerSumUpdate(ds[1..], n, d - 1, pc);
    } else {
      assert ds[d := pc][1..] == ds[1..];
    }
  }

  lemma {:induction false} WakingRaisesSum(ws: seq<WorkerPc>)
    ensures WorkerSum(WakeWorkers(ws)) <= WorkerSum(ws) + |ws|
  {
    if ws != [] {
      assert WakeWorkers(ws)[1..] == WakeWorkers(ws[1..]);
      WakingRaisesSum(ws[1..]);
    }
  }

  lemma SignalRaisesSum(s: Pool, woken: set<nat>)
    requires SleepersJustified(s) && SignalOk(s.destroyers, woken)
    ensures DestroyerSum(WakeDestroyers(s.destroyers, woken), |s.workers|)
            <= DestroyerSum(s.destroyers, |s.workers|) + 1
  {
    var ds := s.destroyers;
    if woken == {} {
      assert WakeDestroyers(ds, woken) == ds;
    } else {
      var d :| d in woken;
      assert WakeDestroyers(ds, woken) == ds[d := AtRetest];
      DestroyerSumUpdate(ds, |s.workers|, d, AtRetest);
    }
  }

  /** A step of the pool lowers the measure, a spurious wakeup raises it by at most one, and no other step, add
      calls included, raises it. */
  ghost predicate PaysItsWay(s: Pool, step: Step)
    requires Enabled(s, step)
  {
    Measure(Next(s, step)) + (if PoolStep(step) then 1 else 0) <= Measure(s) + (if SpuriousStep(step) then 1 else 0)
  }

  lemma EnteringPays(s: Pool, w: nat, woken: set<nat>)
    requires Inv(s) && s.shared.queueClose && Enabled(s, WorkerEnter(w, woken))
    ensures PaysItsWay(s, WorkerEnter(w, woken))
  {
    var t := AfterWorkerEnter(s, w, woken);
    WorkerSumUpdate(s.workers, w, t.workers[w]);
    var o := WorkerSection(s.cap, s.shared).1;
    if o.WorkerTook? && o.signalEmpty {
      SignalRaisesSum(s, woken);
    }
  }

  lemma LeavingPays(s: Pool, step: Step)
    requires Enabled(s, step) && (step.WorkerFinish? || step.WorkerSpurious?)
    ensures PaysItsWay(s, step)
  {
    WorkerSumUpdate(s.workers, step.w, Ready);
  }

  lemma WakingPays(s: Pool, d: nat)
    requires Enabled(s, WakeAllWorkers(d))
    ensures PaysItsWay(s, WakeAllWorkers(d))
  {
    DestroyerSumUpdate(s.destroyers, |s.workers|, d, BeforeWakeProducers);
    WakingRaisesSum(s.workers);
  }

  /** A step that replaces one destroyer and no worker is weighed by the rank of that destroyer. */
  lemma ReplacingDestroyerPays(s: Pool, step: Step, d: nat)
    requires Enabled(s, step) && d < |s.destroyers|
    requires var t := Next(s, step);
             && d < |t.destroyers| && t.destroyers == s.destroyers[d := t.destroyers[d]]
             && t.workers == s.workers && |t.shared.queue| <= |s.shared.queue|
             && DestroyerRank(t.destroyers[d], |s.workers|) + (if PoolStep(step) then 1 else 0)
                <= DestroyerRank(s.destroyers[d], |s.workers|) + (if SpuriousStep(step) then 1 else 0)
    ensures PaysItsWay(s, step)
  {
    DestroyerSumUpdate(s.destroyers, |s.workers|, d, Next(s, step).destroyers[d]);
  }

  lemma DestroyerPays(s: Pool, step: Step)
    requires s.shared.queueClose && Enabled(s, step) && ByDestroyer(step) && !step.WakeAllWorkers?
    ensures PaysItsWay(s, step)
  {
    ReplacingDestroyerPays(s, step, step.d);
  }

  lemma AddingPays(s: Pool, step: Step)
    requires Enabled(s, step) && s.shared.queueClose && (step.AddCall? || step.AddEnter? || step.AddSpurious?)
    ensures PaysItsWay(s, step)
  {
  }

  lemma StepAgainstMeasure(s: Pool, step: Step)
    requires Inv(s) && s.shared.queueClose && Enabled(s, step)
    ensures PaysItsWay(s, step)
  {
    if step.WorkerEnter? {
      EnteringPays(s, step.w, step.woken);
    } else if step.WorkerFinish? || step.WorkerSpurious? {
      LeavingPays(s, step);
    } else if step.WakeAllWorkers? {
      WakingPays(s, step.d);
    } else if ByDestroyer(step) {
      DestroyerPays(s, step);
    } else {
      AddingPays(s, step);
    }
  }

  function Count(steps: seq<Step>, p: Step -> bool): nat
  {
    if steps == [] then 0
    else Count(steps[..|steps| - 1], p) + if p(steps[|steps| - 1]) then 1 else 0
  }

  lemma {:induction false} StaysClosed(run: Run, i: nat, j: nat)
    requires IsRun(run) && i <= j < |run.states| && run.states[i].shared.queueClose
    ensures run.states[j].shared.queueClose
    decreases j - i
  {
    if i < j {
      StaysClosed(run, i, j - 1);
      assert StepAt(run, j - 1);
    }
  }

  lemma RunStepAgainstMeasure(run: Run, i: nat)
    requires IsRun(run) && i < |run.steps| && run.states[i].shared.queueClose
    ensures Measure(run.states[i + 1]) + (if PoolStep(run.steps[i]) then 1 else 0)
            <= Measure(run.states[i]) + (if SpuriousStep(run.steps[i]) then 1 else 0)
  {
    assert StepAt(run, i);
    RunSatisfiesInv(run, i);
    StepAgainstMeasure(run.states[i], run.steps[i]);
  }

  lemma CountOneMore(steps: seq<Step>, i: nat, j: nat, p: Step -> bool)
    requires i < j <= |steps|
    ensures Count(steps[i..j], p) == Count(steps[i..j - 1], p) + if p(steps[j - 1]) then 1 else 0
  {
    assert steps[i..j][..j - i - 1] == steps[i..j - 1];
  }

  /** From a closed queue on, however the callers interleave, the pool takes at most `Measure` steps, plus one
      for each spurious wakeup of a worker or of the destroyer. */
  lemma {:induction false} ShutdownIsBounded(run: Run, i: nat, j: nat)
    requires IsRun(run) && i <= j < |run.states| && run.states[i].shared.queueClose
    ensures Measure(run.states[j]) + Count(run.steps[i..j], PoolStep)
            <= Measure(run.states[i]) + Count(run.steps[i..j], SpuriousStep)
    decreases j - i
  {
    if i < j {
      ShutdownIsBounded(run, i, j - 1);
      StaysClosed(run, i, j - 1);
      RunStepAgainstMeasure(run, j - 1);
      CountOneMore(run.steps, i, j, PoolStep);
      CountOneMore(run.steps, i, j, SpuriousStep);
    }
  }

  /** A way for the pool to go on towards the end of its shutdown. */
  ghost predicate CanProceed(s: Pool)
  {
    exists step :: PoolStep(step) && !step.Reclaim? && Enabled(s, step)
  }

  lemma WorkerCanProceed(s: Pool, w: nat)
    requires w < |s.workers| && (s.workers[w].Ready? || s.workers[w].Running?)
    ensures CanProceed(s)
  {
    if s.workers[w].Running? {
      assert Enabled(s, WorkerFinish(w));
    } else {
      var woken := set d | 0 <= d < |s.destroyers| && s.destroyers[d].AsleepEmpty?;
      var o := WorkerSection(s.cap, s.shared).1;
      assert forall d :: 0 <= d < |s.destroyers| && s.destroyers[d].AsleepEmpty? ==> d in woken;
      assert Enabled(s, WorkerEnter(w, if o.WorkerTook? && o.signalEmpty then woken else {}));
    }
  }

  /** During a shutdown the pool is stuck exactly when the destroyer is past its joins, or when it waits for a
      non-empty queue in a pool that was created without any worker. */
  lemma StuckIff(run: Run, i: nat)
    requires IsRun(run) && i < |run.states| && run.states[i].shared.queueClose
    ensures var s := run.states[i];
            s.closer < |s.destroyers| &&
            (!CanProceed(s) <==> (JoinedAll(s.destroyers[s.closer])
                                  || (|s.workers| == 0 && s.destroyers[s.closer].AsleepEmpty?)))
  {
    RunSatisfiesInv(run, i);
    var s := run.states[i];
    var d := s.closer;
    match s.destroyers[d] {
      case AtRetest => assert Enabled(s, DestroyResume(d));
      case BeforeWakeWorkers => assert Enabled(s, WakeAllWorkers(d));
      case BeforeWakeProducers => assert Enabled(s, WakeAllProducers(d));
      case Joining(next) =>
        if next < |s.workers| && !s.workers[next].Exited? {
          WorkerCanProceed(s, next);
        } else {
          assert Enabled(s, Join(d));
        }
      case AsleepEmpty =>
        if |s.workers| > 0 {
          WorkerCanProceed(s, 0);
        }
      case Reclaiming =>
        assert forall w :: 0 <= w < |s.workers| ==> Joined(s.destroyers[d], w);
      case Destroyed =>
        assert forall w :: 0 <= w < |s.workers| ==> Joined(s.destroyers[d], w);
    }
  }

  lemma WorkerlessStep(s: Pool, step: Step)
    requires CloseProtocol(s) && Enabled(s, step) && |s.workers| == 0 && s.shared.queue != []
    ensures |Next(s, step).workers| == 0 && s.shared.queue <= Next(s, step).shared.queue
  {
  }

  lemma WorkerlessNext(run: Run, i: nat)
    requires IsRun(run) && i < |run.steps| && |run.states[i].workers| == 0 && run.states[i].shared.queue != []
    ensures |run.states[i + 1].workers| == 0 && run.states[i].shared.queue <= run.states[i + 1].shared.queue
  {
    RunSatisfiesInv(run, i);
    assert StepAt(run, i);
    WorkerlessStep(run.states[i], run.steps[i]);
  }

  lemma {:induction false} WorkerlessKeepsJobs(run: Run, i: nat, j: nat)
    requires IsRun(run) && i <= j < |run.states|
    requires |run.states[i].workers| == 0 && run.states[i].shared.queue != []
    ensures |run.states[j].workers| == 0 && run.states[i].shared.queue <= run.states[j].shared.queue
    decreases j - i
  {
    if i < j {
      WorkerlessKeepsJobs(run, i, j - 1);
      WorkerlessNext(run, j - 1);
    }
  }

  /** A pool without workers never serves a queued job and never closes over it, whatever happens. */
  lemma WorkerlessNeverCloses(run: Run, i: nat, j: nat)
    requires IsRun(run) && i <= j < |run.states|
    requires |run.states[i].workers| == 0 && run.states[i].shared.queue != []
    ensures run.states[i].shared.queue <= run.states[j].shared.queue && !run.states[j].shared.poolClose
  {
    WorkerlessKeepsJobs(run, i, j);
    RunSatisfiesInv(run, j);
  }

  /** A pool of no workers accepts a job, and its destroyer goes to sleep over it. */
  function WorkerlessRun(job: Job): Run
  {
    var s0 := Pool(1, Shared([], false, false), [], [Outside], [NotCalled], false, [], [], [], [], 0);
    var s1 := s0.(producers := [AtLock(job)]);
    var s2 := s0.(shared := Shared([job], false, false), accepted := [job], results := [Return(0, job, 0)]);
    var s3 := s2.(destroyers := [AtEntry]);
    var s4 := s3.(shared := Shared([job], true, false), destroyers := [AsleepEmpty]);
    Run([s0, s1, s2, s3, s4], [AddCall(0, job), AddEnter(0, true), DestroyCall(0), DestroyEnter(0)])
  }

  lemma WorkerlessDestroyerSleeps(job: Job)
    ensures var run := WorkerlessRun(job);
            && IsRun(run) && run.states[4].workers == [] && run.states[4].shared == Shared([job], true, false)
            && run.states[4].destroyers == [AsleepEmpty]
  {
    var run := WorkerlessRun(job);
    assert StepAt(run, 0);
    assert StepAt(run, 1);
    assert StepAt(run, 2);
    assert StepAt(run, 3);
    forall i | 0 <= i < |run.steps|
      ensures StepAt(run, i)
    {
      assert i == 0 || i == 1 || i == 2 || i == 3;
    }
  }
}

/** A pool with jobs that never return keeps serving as long as it has more workers than such jobs. */
module PoolAvailability {
  import opened PoolSections
  import opened PoolMonitor
  import opened PoolInvariant

  /** The workers neither asleep, nor exited, nor occupied by one of the given tickets. */
  function Available(s: Pool, permanent: set<nat>): set<nat>
  {
    set w | 0 <= w < |s.workers|
            && (s.workers[w].Ready? || (s.workers[w].Running? && s.workers[w].ticket !in permanent))
  }

  function Indices(n: nat): (r: set<nat>)
    ensures forall i: nat :: i in r <==> i < n
  {
    if n == 0 then {} else Indices(n - 1) + {n - 1}
  }

  lemma {:induction false} IndicesCount(n: nat)
    ensures |Indices(n)| == n
  {
    if n > 0 {
      IndicesCount(n - 1);
    }
  }

  /** The workers running tickets of `ks` are no more than the tickets. */
  lemma {:induction false} OccupiedCount(s: Pool, ks: set<nat>)
    requires TicketsOwned(s)
    ensures |set w | 0 <= w < |s.workers| && s.workers[w].Running? && s.workers[w].ticket in ks| <= |ks|
  {
    var busy := set w | 0 <= w < |s.workers| && s.workers[w].Running? && s.workers[w].ticket in ks;
    if busy != {} {
      var v :| v in busy;
      var k := s.workers[v].ticket;
      OccupiedCount(s, ks - {k});
      assert busy == {v} +
        set w | 0 <= w < |s.workers| && s.workers[w].Running? && s.workers[w].ticket in ks - {k};
    }
  }

  /** While the queue is non-empty, all workers but those running permanent jobs can take a job or will be
      able to when their callback returns. */
  lemma WorkersStayAvailable(run: Run, i: nat, permanent: set<nat>)
    requires IsRun(run) && i < |run.states| && run.states[i].shared.queue != []
    ensures |Available(run.states[i], permanent)| >= |run.states[i].workers| - |permanent|
    ensures forall w :: w in Available(run.states[i], permanent) && run.states[i].workers[w].Ready? ==>
              WorkerSection(run.states[i].cap, run.states[i].shared).1.WorkerTook?
  {
    RunSatisfiesInv(run, i);
    var s := run.states[i];
    var busy := set w | 0 <= w < |s.workers| && s.workers[w].Running? && s.workers[w].ticket in permanent;
    OccupiedCount(s, permanent);
    IndicesCount(|s.workers|);
    assert Indices(|s.workers|) == Available(s, permanent) + busy;
  }
}

/** What every reachable state of the pool satisfies. */
module PoolInvariant {
  import opened PoolSections
  import opened PoolMonitor

  /** The destroyer that closed the queue, from then on. */
  predicate Closing(pc: DestroyerPc)
  {
    !(pc.NotCalled? || pc.AtEntry? || pc.TurnedAway?)
  }

  predicate WokeWorkers(pc: DestroyerPc)
  {
    pc.BeforeWakeProducers? || pc.Joining? || pc.Reclaiming? || pc.Destroyed?
  }

  predicate WokeProducers(pc: DestroyerPc)
  {
    pc.Joining? || JoinedAll(pc)
  }

  predicate JoinedAll(pc: DestroyerPc)
  {
    pc.Reclaiming? || pc.Destroyed?
  }

  /** The destroyer at `pc` has joined worker `w`. */
  predicate Joined(pc: DestroyerPc, w: nat)
  {
    JoinedAll(pc) || (pc.Joining? && w < pc.next)
  }

  /** No lost wakeup: who may be asleep, and on which condition. */
  predicate SleepersJustified(s: Pool)
  {
    && (s.shared.queue != [] ==> forall w :: 0 <= w < |s.workers| ==> !s.workers[w].Asleep?)
    && (forall p :: 0 <= p < |s.producers| && s.producers[p].AsleepFull? ==> |s.shared.queue| == s.cap)
    && (forall d :: 0 <= d < |s.destroyers| && s.destroyers[d].AsleepEmpty? ==>
          d == s.closer && s.shared.queueClose && s.shared.queue != [])
  }

  /** The flags against the progress of the closing destroyer and of the workers. */
  predicate CloseProtocol(s: Pool)
  {
    && (s.shared.poolClose ==> s.shared.queueClose && s.shared.queue == [])
    && (s.shared.queueClose ==> s.closer < |s.destroyers| && Closing(s.destroyers[s.closer]))
    && (forall d :: 0 <= d < |s.destroyers| && Closing(s.destroyers[d]) ==>
          && s.shared.queueClose && d == s.closer
          && (s.shared.poolClose <==> !s.destroyers[d].AsleepEmpty? && !s.destroyers[d].AtRetest?))
    && (forall w :: 0 <= w < |s.workers| && s.workers[w].Exited? ==> s.shared.poolClose)
  }

  /** Behind each broadcast of the closing destroyer nobody is asleep on that condition any more. */
  predicate WorkersWoken(s: Pool)
  {
    forall d, w :: 0 <= d < |s.destroyers| && WokeWorkers(s.destroyers[d]) && 0 <= w < |s.workers| ==>
      !s.workers[w].Asleep?
  }

  predicate ProducersWoken(s: Pool)
  {
    forall d, p :: 0 <= d < |s.destroyers| && WokeProducers(s.destroyers[d]) && 0 <= p < |s.producers| ==>
      !s.producers[p].AsleepFull?
  }

  predicate JoinedHaveExited(s: Pool)
  {
    forall d, w :: 0 <= d < |s.destroyers| && 0 <= w < |s.workers| && Joined(s.destroyers[d], w) ==>
      s.workers[w].Exited?
  }

  predicate ReclaimedIsQuiet(s: Pool)
  {
    && (forall d :: 0 <= d < |s.destroyers| && s.destroyers[d].Destroyed? ==> s.reclaimed)
    && (s.reclaimed ==>
          && s.shared.queueClose && s.closer < |s.destroyers| && s.destroyers[s.closer].Destroyed?
          && (forall p :: 0 <= p < |s.producers| ==> s.producers[p].Outside?)
          && (forall d :: 0 <= d < |s.destroyers| ==> !s.destroyers[d].AtEntry?))
  }

  /** The queue holds exactly the accepted jobs not yet taken. */
  predicate QueueIsPending(s: Pool)
  {
    && |s.taken| <= |s.accepted|
    && s.shared.queue == s.accepted[|s.taken|..]
    && (0 <= s.cap ==> |s.shared.queue| <= s.cap)
  }

  predicate RunningOwned(s: Pool)
  {
    forall w :: 0 <= w < |s.workers| && s.workers[w].Running? ==>
      var k := s.workers[w].ticket;
      && k < |s.taken| && k < |s.accepted| && s.taken[k] == w
      && s.workers[w].job == s.accepted[k] && k !in s.finished
  }

  predicate TakenAccounted(s: Pool)
  {
    forall k :: 0 <= k < |s.taken| ==>
      s.taken[k] < |s.workers| && (k in s.finished || RunsTicket(s.workers[s.taken[k]], k))
  }

  predicate FinishedOnce(s: Pool)
  {
    && (forall i :: 0 <= i < |s.finished| ==> s.finished[i] < |s.taken|)
    && (forall i, j :: 0 <= i < j < |s.finished| ==> s.finished[i] != s.finished[j])
  }

  /** Each taken ticket is either finished, once, or running at the one worker that took it. */
  predicate TicketsOwned(s: Pool)
  {
    RunningOwned(s) && TakenAccounted(s) && FinishedOnce(s)
  }

  predicate RunsTicket(pc: WorkerPc, k: nat)
  {
    pc.Running? && pc.ticket == k
  }

  /** The jobs of the add calls that returned 0, in the order of their results. */
  function SucceededJobs(rs: seq<Return>): seq<Job>
  {
    if rs == [] then []
    else
      var last := rs[|rs| - 1];
      SucceededJobs(rs[..|rs| - 1]) + if last.code == 0 then [last.job] else []
  }

  predicate Inv(s: Pool)
  {
    && SleepersJustified(s)
    && CloseProtocol(s)
    && WorkersWoken(s)
    && ProducersWoken(s)
    && JoinedHaveExited(s)
    && ReclaimedIsQuiet(s)
    && QueueIsPending(s)
    && TicketsOwned(s)
    && s.accepted == SucceededJobs(s.results)
  }


  predicate ByDestroyer(step: Step)
  {
    || step.DestroyCall? || step.DestroyEnter? || step.DestroyResume? || step.DestroySpurious?
    || step.WakeAllWorkers? || step.WakeAllProducers? || step.Join? || step.Reclaim?
  }

  lemma DestroyerKeepsSleepersJustified(s: Pool, step: Step)
    requires SleepersJustified(s) && CloseProtocol(s)
    requires Enabled(s, step) && ByDestroyer(step)
    ensures SleepersJustified(Next(s, step))
  {
  }

  lemma OthersKeepSleepersJustified(s: Pool, step: Step)
    requires SleepersJustified(s) && CloseProtocol(s)
    requires Enabled(s, step) && !ByDestroyer(step)
    ensures SleepersJustified(Next(s, step))
  {
  }

  lemma DestroyerKeepsCloseProtocol(s: Pool, step: Step)
    requires SleepersJustified(s) && CloseProtocol(s)
    requires Enabled(s, step) && ByDestroyer(step)
    ensures CloseProtocol(Next(s, step))
  {
  }

  lemma OthersKeepCloseProtocol(s: Pool, step: Step)
    requires SleepersJustified(s) && CloseProtocol(s)
    requires Enabled(s, step) && !ByDestroyer(step)
    ensures CloseProtocol(Next(s, step))
  {
  }

  lemma StepKeepsWorkersWoken(s: Pool, step: Step)
    requires CloseProtocol(s) && WorkersWoken(s)
    requires Enabled(s, step)
    ensures WorkersWoken(Next(s, step))
  {
  }

  lemma StepKeepsProducersWoken(s: Pool, step: Step)
    requires CloseProtocol(s) && ProducersWoken(s)
    requires Enabled(s, step)
    ensures ProducersWoken(Next(s, step))
  {
  }

  lemma ExitedStay(s: Pool, step: Step)
    requires Enabled(s, step)
    ensures var t := Next(s, step);
            && |t.workers| == |s.workers|
            && forall w :: 0 <= w < |s.workers| && s.workers[w].Exited? ==> t.workers[w].Exited?
  {
  }

  /** A worker counts as joined only once it has been joined, and it is joined only once it has exited. */
  lemma OnlyExitedAreJoined(s: Pool, step: Step)
    requires Enabled(s, step) && JoinedHaveExited(s)
    ensures var t := Next(s, step);
            forall d, w :: 0 <= d < |t.destroyers| && 0 <= w < |s.workers| && Joined(t.destroyers[d], w) ==>
              s.workers[w].Exited?
  {
  }

  lemma StepKeepsJoinedHaveExited(s: Pool, step: Step)
    requires JoinedHaveExited(s) && Enabled(s, step)
    ensures JoinedHaveExited(Next(s, step))
  {
    ExitedStay(s, step);
    OnlyExitedAreJoined(s, step);
  }

  lemma StepKeepsReclaimedIsQuiet(s: Pool, step: Step)
    requires CloseProtocol(s) && ReclaimedIsQuiet(s)
    requires Enabled(s, step)
    ensures ReclaimedIsQuiet(Next(s, step))
  {
  }

  lemma TakingKeepsQueueIsPending(s: Pool, w: nat, woken: set<nat>)
    requires QueueIsPending(s)
    requires Enabled(s, WorkerEnter(w, woken))
    ensures QueueIsPending(AfterWorkerEnter(s, w, woken))
  {
  }

  lemma StepKeepsQueueIsPending(s: Pool, step: Step)
    requires CloseProtocol(s) && QueueIsPending(s)
    requires Enabled(s, step) && !step.WorkerEnter?
    ensures QueueIsPending(Next(s, step))
  {
  }

  /** The same jobs at the same workers. */
  predicate SameTickets(s: Pool, t: Pool)
  {
    && t.accepted == s.accepted && t.taken == s.taken && t.finished == s.finished && |t.workers| == |s.workers|
    && forall w :: 0 <= w < |s.workers| && (s.workers[w].Running? || t.workers[w].Running?) ==>
         t.workers[w] == s.workers[w]
  }

  lemma OthersKeepTickets(s: Pool, step: Step)
    requires Enabled(s, step) && !step.WorkerEnter? && !step.WorkerFinish? && !step.AddEnter?
    ensures SameTickets(s, Next(s, step))
  {
  }

  lemma SameTicketsOwned(s: Pool, t: Pool)
    requires TicketsOwned(s) && SameTickets(s, t)
    ensures TicketsOwned(t)
  {
  }

  lemma TakingKeepsRunningOwned(s: Pool, w: nat, woken: set<nat>)
    requires QueueIsPending(s) && RunningOwned(s) && FinishedOnce(s)
    requires Enabled(s, WorkerEnter(w, woken))
    ensures RunningOwned(AfterWorkerEnter(s, w, woken))
  {
  }

  lemma TakingKeepsTakenAccounted(s: Pool, w: nat, woken: set<nat>)
    requires TakenAccounted(s)
    requires Enabled(s, WorkerEnter(w, woken))
    ensures TakenAccounted(AfterWorkerEnter(s, w, woken))
  {
  }

  lemma TakingKeepsTicketsOwned(s: Pool, w: nat, woken: set<nat>)
    requires QueueIsPending(s) && TicketsOwned(s)
    requires Enabled(s, WorkerEnter(w, woken))
    ensures TicketsOwned(AfterWorkerEnter(s, w, woken))
  {
    TakingKeepsRunningOwned(s, w, woken);
    TakingKeepsTakenAccounted(s, w, woken);
  }

  lemma FinishingKeepsTicketsOwned(s: Pool, w: nat)
    requires TicketsOwned(s)
    requires Enabled(s, WorkerFinish(w))
    ensures TicketsOwned(Next(s, WorkerFinish(w)))
  {
  }

  lemma AddingKeepsTicketsOwned(s: Pool, p: nat, gotNode: bool)
    requires TicketsOwned(s)
    requires Enabled(s, AddEnter(p, gotNode))
    ensures TicketsOwned(AfterAddEnter(s, p, gotNode))
  {
  }

  lemma SucceededAppend(rs: seq<Return>, r: Return)
    ensures SucceededJobs(rs + [r]) == SucceededJobs(rs) + if r.code == 0 then [r.job] else []
  {
    assert (rs + [r])[..|rs|] == rs;
  }

  /** A step returns at most one result, and accepts the job exactly if the result is 0. */
  lemma StepReturns(s: Pool, step: Step)
    requires Enabled(s, step)
    ensures var t := Next(s, step);
            || (t.results == s.results && t.accepted == s.accepted)
            || (|t.results| == |s.results| + 1
                && var r := t.results[|s.results|];
                   t.results == s.results + [r] && t.accepted == s.accepted + if r.code == 0 then [r.job] else [])
  {
  }

  lemma StepKeepsSucceeded(s: Pool, step: Step)
    requires Enabled(s, step) && s.accepted == SucceededJobs(s.results)
    ensures Next(s, step).accepted == SucceededJobs(Next(s, step).results)
  {
    StepReturns(s, step);
    var t := Next(s, step);
    if t.results != s.results {
      SucceededAppend(s.results, t.results[|s.results|]);
    }
  }

  lemma StepKeepsInv(s: Pool, step: Step)
    requires Inv(s) && Enabled(s, step)
    ensures Inv(Next(s, step))
  {
    if ByDestroyer(step) {
      DestroyerKeepsSleepersJustified(s, step);
      DestroyerKeepsCloseProtocol(s, step);
    } else {
      OthersKeepSleepersJustified(s, step);
      OthersKeepCloseProtocol(s, step);
    }
    StepKeepsWorkersWoken(s, step);
    StepKeepsProducersWoken(s, step);
    StepKeepsJoinedHaveExited(s, step);
    StepKeepsReclaimedIsQuiet(s, step);
    StepKeepsSucceeded(s, step);
    match step {
      case WorkerEnter(w, woken) =>
        TakingKeepsQueueIsPending(s, w, woken);
        TakingKeepsTicketsOwned(s, w, woken);
      case WorkerFinish(w) =>
        StepKeepsQueueIsPending(s, step);
        FinishingKeepsTicketsOwned(s, w);
      case AddEnter(p, gotNode) =>
        StepKeepsQueueIsPending(s, step);
        AddingKeepsTicketsOwned(s, p, gotNode);
      case _ =>
        StepKeepsQueueIsPending(s, step);
        OthersKeepTickets(s, step);
        SameTicketsOwned(s, Next(s, step));
    }
  }

  lemma InitSatisfiesInv(s: Pool)
    requires Init(s)
    ensures Inv(s)
  {
  }

  /** Every state of every run satisfies the invariant. */
  lemma {:induction false} RunSatisfiesInv(run: Run, i: nat)
    requires IsRun(run) && i < |run.states|
    ensures Inv(run.states[i])
  {
    if i == 0 {
      InitSatisfiesInv(run.states[0]);
    } else {
      RunSatisfiesInv(run, i - 1);
      assert StepAt(run, i - 1);
      StepKeepsInv(run.states[i - 1], run.steps[i - 1]);
    }
  }
}

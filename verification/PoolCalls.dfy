/** What each call on the pool is answered, in the terms of the guarded fields, and over whole runs. */
module PoolCalls {
  import opened PoolSections
  import opened PoolMonitor
  import opened PoolInvariant

  predicate Closed(s: Pool)
  {
    s.shared.queueClose || s.shared.poolClose
  }

  predicate Full(s: Pool)
  {
    |s.shared.queue| == s.cap
  }

  /** One pass of an add: asleep exactly on a full open queue; else returned, with -1 exactly if the pool is closed
      or has no memory for the node, and with 0 and the job at the end of the queue otherwise. The workers are woken
      exactly if the job went into an empty queue. */
  lemma AddStep(s: Pool, p: nat, gotNode: bool)
    requires Enabled(s, AddEnter(p, gotNode))
    ensures var t, job := Next(s, AddEnter(p, gotNode)), s.producers[p].pending;
            var accepts := !Closed(s) && !Full(s) && gotNode;
            && t.shared == s.shared.(queue := s.shared.queue + if accepts then [job] else [])
            && t.accepted == s.accepted + (if accepts then [job] else [])
            && (if Full(s) && !Closed(s) then
                  t.producers == s.producers[p := AsleepFull(job)] && t.results == s.results
                else
                  && t.producers == s.producers[p := Outside]
                  && t.results == s.results + [Return(p, job, if Closed(s) || !gotNode then -1 else 0)])
            && |t.workers| == |s.workers|
            && (forall w :: 0 <= w < |s.workers| ==>
                  t.workers[w] == if accepts && s.shared.queue == [] && s.workers[w].Asleep?
                                  then Ready else s.workers[w])
            && t.destroyers == s.destroyers && t.taken == s.taken && t.finished == s.finished
  {
  }

  /** One pass of a worker: out on a closed pool, asleep on an empty open one, else running the first job of the
      queue. The producers are woken exactly on the change from a full queue, and a destroyer is signalled exactly
      on the last job. */
  lemma WorkerStep(s: Pool, w: nat, woken: set<nat>)
    requires Enabled(s, WorkerEnter(w, woken))
    ensures var t := Next(s, WorkerEnter(w, woken));
            var takes := !s.shared.poolClose && s.shared.queue != [];
            && t.workers == s.workers[w := if s.shared.poolClose then Exited
                                           else if s.shared.queue == [] then Asleep
                                           else Running(|s.taken|, s.shared.queue[0])]
            && t.shared == (if takes then s.shared.(queue := s.shared.queue[1..]) else s.shared)
            && t.taken == s.taken + (if takes then [w] else [])
            && |t.producers| == |s.producers| && |t.destroyers| == |s.destroyers|
            && (forall p :: 0 <= p < |s.producers| ==>
                  t.producers[p] == if takes && Full(s) && s.producers[p].AsleepFull?
                                    then AtLock(s.producers[p].pending) else s.producers[p])
            && (forall d :: 0 <= d < |s.destroyers| ==>
                  t.destroyers[d] == if takes && |s.shared.queue| == 1 && d in woken then AtRetest else s.destroyers[d])
            && (takes && |s.shared.queue| == 1 ==> SignalOk(s.destroyers, woken))
            && t.accepted == s.accepted && t.finished == s.finished && t.results == s.results
  {
  }

  /** A destroyer that holds the mutex closes the queue unless it is closed; it then sleeps on a non-empty queue and
      closes the pool over an empty one. */
  lemma DestroyStep(s: Pool, d: nat, step: Step)
    requires Enabled(s, step) && (step == DestroyEnter(d) || step == DestroyResume(d))
    ensures var t := Next(s, step);
            && (if step.DestroyEnter? && Closed(s) then
                  t.shared == s.shared && t.destroyers == s.destroyers[d := TurnedAway]
                else if s.shared.queue != [] then
                  && t.shared == s.shared.(queueClose := step.DestroyEnter? || s.shared.queueClose)
                  && t.destroyers == s.destroyers[d := AsleepEmpty]
                else
                  && t.shared == Shared([], step.DestroyEnter? || s.shared.queueClose, true)
                  && t.destroyers == s.destroyers[d := BeforeWakeWorkers])
            && t.workers == s.workers && t.producers == s.producers && t.results == s.results
            && t.accepted == s.accepted && t.taken == s.taken && t.finished == s.finished
  {
  }

  /** Nobody is held up but by a condition he sleeps on, or a destroyer by a worker it joins or by a caller still
      inside the pool. */
  lemma NobodyIsBlocked(s: Pool, i: nat)
    ensures i < |s.producers| ==>
              match s.producers[i]
              case Outside => !s.reclaimed ==> forall job :: Enabled(s, AddCall(i, job))
              case AtLock(_) => Enabled(s, AddEnter(i, true)) && Enabled(s, AddEnter(i, false))
              case AsleepFull(_) => Enabled(s, AddSpurious(i))
    ensures i < |s.workers| ==>
              match s.workers[i]
              case Ready => exists woken :: Enabled(s, WorkerEnter(i, woken))
              case Asleep => Enabled(s, WorkerSpurious(i))
              case Running(_, _) => Enabled(s, WorkerFinish(i))
              case Exited => true
    ensures i < |s.destroyers| ==>
              match s.destroyers[i]
              case NotCalled => !s.reclaimed ==> Enabled(s, DestroyCall(i))
              case AtEntry => Enabled(s, DestroyEnter(i))
              case AsleepEmpty => Enabled(s, DestroySpurious(i))
              case AtRetest => Enabled(s, DestroyResume(i))
              case BeforeWakeWorkers => Enabled(s, WakeAllWorkers(i))
              case BeforeWakeProducers => Enabled(s, WakeAllProducers(i))
              case Joining(w) => (w < |s.workers| && !s.workers[w].Exited?) || Enabled(s, Join(i))
              case Reclaiming =>
                || Enabled(s, Reclaim(i))
                || (exists p :: 0 <= p < |s.producers| && !s.producers[p].Outside?)
                || (exists e :: 0 <= e < |s.destroyers| && s.destroyers[e].AtEntry?)
              case Destroyed => true
              case TurnedAway => true
  {
    if i < |s.workers| && s.workers[i].Ready? {
      var asleep := set d | 0 <= d < |s.destroyers| && s.destroyers[d].AsleepEmpty?;
      assert forall d :: 0 <= d < |s.destroyers| && s.destroyers[d].AsleepEmpty? ==> d in asleep;
      var o := WorkerSection(s.cap, s.shared).1;
      assert Enabled(s, WorkerEnter(i, if o.WorkerTook? && o.signalEmpty then asleep else {}));
    }
  }

  /** The jobs with which producer `p` has called in the first `n` steps. */
  function CallsOf(steps: seq<Step>, n: nat, p: nat): seq<Job>
    requires n <= |steps|
  {
    if n == 0 then []
    else
      var step := steps[n - 1];
      CallsOf(steps, n - 1, p) + if step.AddCall? && step.p == p then [step.job] else []
  }

  /** The jobs for which producer `p` has got an answer, in the order of the answers. */
  function AnswersTo(rs: seq<Return>, p: nat): seq<Job>
  {
    if rs == [] then []
    else
      var last := rs[|rs| - 1];
      AnswersTo(rs[..|rs| - 1], p) + if last.producer == p then [last.job] else []
  }

  lemma AnswersAppend(rs: seq<Return>, r: Return, p: nat)
    ensures AnswersTo(rs + [r], p) == AnswersTo(rs, p) + if r.producer == p then [r.job] else []
  {
    assert (rs + [r])[..|rs|] == rs;
  }

  /** The job a producer is in a call with. */
  function InCall(pc: ProducerPc): seq<Job>
  {
    if pc.Outside? then [] else [pc.pending]
  }

  predicate Answered(run: Run, i: nat, p: nat)
    requires i < |run.states| == |run.steps| + 1 && p < |run.states[i].producers|
  {
    CallsOf(run.steps, i, p) == AnswersTo(run.states[i].results, p) + InCall(run.states[i].producers[p])
  }

  lemma AddAnswers(s: Pool, q: nat, gotNode: bool, p: nat)
    requires Enabled(s, AddEnter(q, gotNode)) && p < |s.producers|
    ensures var t := Next(s, AddEnter(q, gotNode));
            && |t.producers| == |s.producers|
            && AnswersTo(t.results, p) + InCall(t.producers[p]) == AnswersTo(s.results, p) + InCall(s.producers[p])
  {
    AddStep(s, q, gotNode);
    var t := Next(s, AddEnter(q, gotNode));
    if t.results != s.results {
      AnswersAppend(s.results, t.results[|s.results|], p);
    }
  }

  lemma OthersKeepCalls(s: Pool, step: Step, p: nat)
    requires Enabled(s, step) && !step.AddEnter? && p < |s.producers|
    ensures var t := Next(s, step);
            && |t.producers| == |s.producers| && t.results == s.results
            && InCall(t.producers[p])
               == InCall(s.producers[p]) + if step.AddCall? && step.p == p then [step.job] else []
  {
  }

  /** A step appends to the answers and changes the call of a producer, together, or neither. */
  lemma StepAnswers(s: Pool, step: Step, p: nat)
    requires Enabled(s, step) && p < |s.producers|
    ensures var t := Next(s, step);
            && |t.producers| == |s.producers|
            && AnswersTo(t.results, p) + InCall(t.producers[p])
               == AnswersTo(s.results, p) + InCall(s.producers[p])
                  + if step.AddCall? && step.p == p then [step.job] else []
  {
    if step.AddEnter? {
      AddAnswers(s, step.p, step.gotNode, p);
    } else {
      OthersKeepCalls(s, step, p);
    }
  }

  /** Every call of a producer is answered once and in order, with the job it was made for, and nothing else is
      answered; only the call he is still in has no answer. */
  lemma {:induction false} CallsAreAnswered(run: Run, i: nat, p: nat)
    requires IsRun(run) && i < |run.states| && p < |run.states[0].producers|
    ensures |run.states[i].producers| == |run.states[0].producers| && Answered(run, i, p)
  {
    if i > 0 {
      CallsAreAnswered(run, i - 1, p);
      assert StepAt(run, i - 1);
      StepAnswers(run.states[i - 1], run.steps[i - 1], p);
    }
  }

  /** Step `i` of the run returns result `k`. */
  ghost predicate ReturnsResult(run: Run, i: nat, k: nat)
    requires IsRun(run)
  {
    i < |run.steps| && run.steps[i].AddEnter? && |run.states[i].results| == k < |run.states[i + 1].results|
  }

  lemma OnlyAddsReturn(s: Pool, step: Step)
    requires Enabled(s, step) && !step.AddEnter?
    ensures Next(s, step).results == s.results && Next(s, step).accepted == s.accepted
  {
  }

  lemma {:induction false} ResultHasStep(run: Run, n: nat, k: nat) returns (i: nat)
    requires IsRun(run) && n < |run.states| && k < |run.states[n].results|
    ensures i < n && ReturnsResult(run, i, k) && run.states[i + 1].results <= run.states[n].results
  {
    assert n > 0;
    assert StepAt(run, n - 1);
    var s, step := run.states[n - 1], run.steps[n - 1];
    if step.AddEnter? {
      AddStep(s, step.p, step.gotNode);
    } else {
      OnlyAddsReturn(s, step);
    }
    if k < |s.results| {
      i := ResultHasStep(run, n - 1, k);
    } else {
      i := n - 1;
    }
  }

  /** When an add call returns what: each result of a run was returned by one step, in a state in which the queue
      was open and not full or else the pool closed, and it is -1 exactly if the pool was closed or there was no
      memory. Exactly with 0 the job is accepted, behind the jobs accepted before. */
  lemma ReturnIsExact(run: Run, n: nat, k: nat)
    requires IsRun(run) && n < |run.states| && k < |run.states[n].results|
    ensures exists i: nat ::
              && ReturnsResult(run, i, k) && i < n
              && var s, t, step, r := run.states[i], run.states[i + 1], run.steps[i], run.states[n].results[k];
                 && step.p < |s.producers| && s.producers[step.p] == AtLock(r.job) && r.producer == step.p
                 && (Closed(s) || !Full(s))
                 && r.code == (if Closed(s) || !step.gotNode then -1 else 0)
                 && t.accepted == s.accepted + if r.code == 0 then [r.job] else []
  {
    var i := ResultHasStep(run, n, k);
    assert StepAt(run, i);
    AddStep(run.states[i], run.steps[i].p, run.steps[i].gotNode);
    assert run.states[n].results[k] == run.states[i + 1].results[k];
  }

  lemma OnlyEntryCloses(s: Pool, step: Step)
    requires CloseProtocol(s) && Enabled(s, step)
    ensures Closed(Next(s, step)) <==> Closed(s) || step.DestroyEnter?
  {
  }

  lemma ClosedStep(run: Run, i: nat)
    requires IsRun(run) && i < |run.steps|
    ensures Closed(run.states[i + 1]) <==> Closed(run.states[i]) || run.steps[i].DestroyEnter?
  {
    RunSatisfiesInv(run, i);
    assert StepAt(run, i);
    OnlyEntryCloses(run.states[i], run.steps[i]);
  }

  /** The queue is closed exactly from the first entry of a destroyer on. */
  lemma {:induction false} ClosedByFirstEntry(run: Run, i: nat)
    requires IsRun(run) && i < |run.states|
    ensures Closed(run.states[i]) <==> exists j :: 0 <= j < i && run.steps[j].DestroyEnter?
  {
    if i > 0 {
      ClosedByFirstEntry(run, i - 1);
      ClosedStep(run, i - 1);
    }
  }

  /** Of all destroy calls the first to get the mutex goes on, and every later one is turned away. */
  lemma FirstDestroyerWins(run: Run, i: nat)
    requires IsRun(run) && i < |run.steps| && run.steps[i].DestroyEnter?
    ensures run.steps[i].d < |run.states[i + 1].destroyers|
    ensures run.states[i + 1].destroyers[run.steps[i].d].TurnedAway?
            <==> exists j :: 0 <= j < i && run.steps[j].DestroyEnter?
  {
    assert StepAt(run, i);
    ClosedByFirstEntry(run, i);
    DestroyStep(run.states[i], run.steps[i].d, run.steps[i]);
  }
}

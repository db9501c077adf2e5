/** The critical sections of the thread pool, as pure functions on the fields guarded by the pool mutex.

    One call of a section is one pass between two points where the mutex is free: it starts where the
    thread has just obtained the mutex (by locking it, or by returning from a condition wait) and ends
    where the thread gives it up (by unlocking, or by going to sleep in a condition wait). */
module PoolSections {

  datatype Job = Job(callback: nat, arg: nat)

  /** The job list and the two close flags. The list is read from `head` to `tail`. */
  datatype Shared = Shared(queue: seq<Job>, queueClose: bool, poolClose: bool)

  datatype AddOutcome = AddWait | AddRejected | AddAccepted(wakeWorkers: bool)

  datatype WorkerOutcome = WorkerWait | WorkerExit | WorkerTook(job: Job, signalEmpty: bool, wakeProducers: bool)

  datatype DestroyOutcome = DestroyRejected | DestroyWait | DestroyProceed

  function AddSection(cap: int, m: Shared, job: Job, gotNode: bool): (Shared, AddOutcome)
  {
    if |m.queue| == cap && !(m.queueClose || m.poolClose) then
      (m, AddWait)
    else if m.queueClose || m.poolClose || !gotNode then
      (m, AddRejected)
    else
      (m.(queue := m.queue + [job]), AddAccepted(m.queue == []))
  }

  function WorkerSection(cap: int, m: Shared): (Shared, WorkerOutcome)
  {
    if m.queue == [] && !m.poolClose then
      (m, WorkerWait)
    else if m.poolClose then
      (m, WorkerExit)
    else
      var rest := m.queue[1..];
      (m.(queue := rest), WorkerTook(m.queue[0], rest == [], |rest| == cap - 1))
  }

  /** The loop at the end of the destroyer's critical section: wait for an empty queue, then close the pool. */
  function DrainSection(m: Shared): (Shared, DestroyOutcome)
  {
    if m.queue != [] then (m, DestroyWait) else (m.(poolClose := true), DestroyProceed)
  }

  function DestroySection(m: Shared): (Shared, DestroyOutcome)
  {
    if m.queueClose || m.poolClose then (m, DestroyRejected) else DrainSection(m.(queueClose := true))
  }
}

/** The thread pool as a state machine: any number of workers, producers and destroyers, interleaved at
    the granularity of critical sections and of the calls made outside the mutex. */
module PoolMonitor {
  import opened PoolSections

  /** `Ready` is a worker about to obtain the mutex: at the top of its loop, or woken from its wait. */
  datatype WorkerPc = Ready | Asleep | Running(ticket: nat, job: Job) | Exited

  datatype ProducerPc = Outside | AtLock(pending: Job) | AsleepFull(pending: Job)

  datatype DestroyerPc =
    | NotCalled
    | AtEntry
    | AsleepEmpty
    | AtRetest
    | BeforeWakeWorkers
    | BeforeWakeProducers
    | Joining(next: nat)
    | Reclaiming
    | Destroyed
    | TurnedAway

  datatype Return = Return(producer: nat, job: Job, code: int)

  /** `accepted`, `taken`, `finished`, `results` and `closer` are histories: the accepted jobs in order (the
      index of a job is its ticket), the worker that took each ticket, the tickets whose callback has
      returned, the values returned by add calls, and the destroyer that closed the queue. */
  datatype Pool = Pool(
    cap: int,
    shared: Shared,
    workers: seq<WorkerPc>,
    producers: seq<ProducerPc>,
    destroyers: seq<DestroyerPc>,
    reclaimed: bool,
    accepted: seq<Job>,
    taken: seq<nat>,
    finished: seq<nat>,
    results: seq<Return>,
    closer: nat)

  datatype Step =
    | WorkerEnter(w: nat, woken: set<nat>)
    | WorkerFinish(w: nat)
    | WorkerSpurious(w: nat)
    | AddCall(p: nat, job: Job)
    | AddEnter(p: nat, gotNode: bool)
    | AddSpurious(p: nat)
    | DestroyCall(d: nat)
    | DestroyEnter(d: nat)
    | DestroyResume(d: nat)
    | DestroySpurious(d: nat)
    | WakeAllWorkers(d: nat)
    | WakeAllProducers(d: nat)
    | Join(d: nat)
    | Reclaim(d: nat)

  function WakeWorkers(ws: seq<WorkerPc>): (r: seq<WorkerPc>)
    ensures |r| == |ws|
    ensures forall i :: 0 <= i < |ws| ==> r[i] == if ws[i].Asleep? then Ready else ws[i]
  {
    seq(|ws|, i requires 0 <= i < |ws| => if ws[i].Asleep? then Ready else ws[i])
  }

  function WakeProducers(ps: seq<ProducerPc>): (r: seq<ProducerPc>)
    ensures |r| == |ps|
    ensures forall i :: 0 <= i < |ps| ==> r[i] == if ps[i].AsleepFull? then AtLock(ps[i].pending) else ps[i]
  {
    seq(|ps|, i requires 0 <= i < |ps| => if ps[i].AsleepFull? then AtLock(ps[i].pending) else ps[i])
  }

  function WakeDestroyers(ds: seq<DestroyerPc>, woken: set<nat>): (r: seq<DestroyerPc>)
    ensures |r| == |ds|
    ensures forall i :: 0 <= i < |ds| ==> r[i] == if i in woken then AtRetest else ds[i]
  {
    seq(|ds|, i requires 0 <= i < |ds| => if i in woken then AtRetest else ds[i])
  }

  /** `pthread_cond_signal` wakes at least one of the threads asleep on the condition, if there is one. */
  predicate SignalOk(ds: seq<DestroyerPc>, woken: set<nat>)
  {
    && (forall d :: d in woken ==> d < |ds| && ds[d].AsleepEmpty?)
    && (woken == {} ==> forall d :: 0 <= d < |ds| ==> !ds[d].AsleepEmpty?)
  }

  predicate Enabled(s: Pool, step: Step)
  {
    match step
    case WorkerEnter(w, woken) =>
      && w < |s.workers| && s.workers[w].Ready?
      && (var o := WorkerSection(s.cap, s.shared).1;
          if o.WorkerTook? && o.signalEmpty then SignalOk(s.destroyers, woken) else woken == {})
    case WorkerFinish(w) => w < |s.workers| && s.workers[w].Running?
    case WorkerSpurious(w) => w < |s.workers| && s.workers[w].Asleep?
    case AddCall(p, _) => p < |s.producers| && s.producers[p].Outside? && !s.reclaimed
    case AddEnter(p, _) => p < |s.producers| && s.producers[p].AtLock?
    case AddSpurious(p) => p < |s.producers| && s.producers[p].AsleepFull?
    case DestroyCall(d) => d < |s.destroyers| && s.destroyers[d].NotCalled? && !s.reclaimed
    case DestroyEnter(d) => d < |s.destroyers| && s.destroyers[d].AtEntry?
    case DestroyResume(d) => d < |s.destroyers| && s.destroyers[d].AtRetest?
    case DestroySpurious(d) => d < |s.destroyers| && s.destroyers[d].AsleepEmpty?
    case WakeAllWorkers(d) => d < |s.destroyers| && s.destroyers[d].BeforeWakeWorkers?
    case WakeAllProducers(d) => d < |s.destroyers| && s.destroyers[d].BeforeWakeProducers?
    case Join(d) =>
      && d < |s.destroyers| && s.destroyers[d].Joining?
      && (s.destroyers[d].next < |s.workers| ==> s.workers[s.destroyers[d].next].Exited?)
    case Reclaim(d) =>
      // The callers' obligation: nobody is inside the pool any more when its mutex is destroyed.
      && d < |s.destroyers| && s.destroyers[d].Reclaiming?
      && (forall p :: 0 <= p < |s.producers| ==> s.producers[p].Outside?)
      && (forall e :: 0 <= e < |s.destroyers| ==> !s.destroyers[e].AtEntry?)
  }

  function AfterWorkerEnter(s: Pool, w: nat, woken: set<nat>): Pool
    requires w < |s.workers|
  {
    var (m, outcome) := WorkerSection(s.cap, s.shared);
    match outcome
    case WorkerWait => s.(workers := s.workers[w := Asleep])
    case WorkerExit => s.(workers := s.workers[w := Exited])
    case WorkerTook(job, signalEmpty, wakeProducers) =>
      s.(shared := m,
         workers := s.workers[w := Running(|s.taken|, job)],
         producers := if wakeProducers then WakeProducers(s.producers) else s.producers,
         destroyers := if signalEmpty then WakeDestroyers(s.destroyers, woken) else s.destroyers,
         taken := s.taken + [w])
  }

  function AfterAddEnter(s: Pool, p: nat, gotNode: bool): Pool
    requires p < |s.producers| && s.producers[p].AtLock?
  {
    var job := s.producers[p].pending;
    var (m, outcome) := AddSection(s.cap, s.shared, job, gotNode);
    match outcome
    case AddWait => s.(producers := s.producers[p := AsleepFull(job)])
    case AddRejected => s.(producers := s.producers[p := Outside], results := s.results + [Return(p, job, -1)])
    case AddAccepted(wakeWorkers) =>
      s.(shared := m,
         producers := s.producers[p := Outside],
         workers := if wakeWorkers then WakeWorkers(s.workers) else s.workers,
         accepted := s.accepted + [job],
         results := s.results + [Return(p, job, 0)])
  }

  function AfterDestroySection(s: Pool, d: nat, result: (Shared, DestroyOutcome), closer: nat): Pool
    requires d < |s.destroyers|
  {
    match result.1
    case DestroyRejected => s.(destroyers := s.destroyers[d := TurnedAway])
    case DestroyWait => s.(shared := result.0, destroyers := s.destroyers[d := AsleepEmpty], closer := closer)
    case DestroyProceed => s.(shared := result.0, destroyers := s.destroyers[d := BeforeWakeWorkers], closer := closer)
  }

  function Next(s: Pool, step: Step): Pool
    requires Enabled(s, step)
  {
    match step
    case WorkerEnter(w, woken) => AfterWorkerEnter(s, w, woken)
    case WorkerFinish(w) =>
      s.(workers := s.workers[w := Ready], finished := s.finished + [s.workers[w].ticket])
    case WorkerSpurious(w) => s.(workers := s.workers[w := Ready])
    case AddCall(p, job) => s.(producers := s.producers[p := AtLock(job)])
    case AddEnter(p, gotNode) => AfterAddEnter(s, p, gotNode)
    case AddSpurious(p) => s.(producers := s.producers[p := AtLock(s.producers[p].pending)])
    case DestroyCall(d) => s.(destroyers := s.destroyers[d := AtEntry])
    case DestroyEnter(d) => AfterDestroySection(s, d, DestroySection(s.shared), d)
    case DestroyResume(d) => AfterDestroySection(s, d, DrainSection(s.shared), s.closer)
    case DestroySpurious(d) => s.(destroyers := s.destroyers[d := AtRetest])
    case WakeAllWorkers(d) =>
      s.(workers := WakeWorkers(s.workers), destroyers := s.destroyers[d := BeforeWakeProducers])
    case WakeAllProducers(d) =>
      s.(producers := WakeProducers(s.producers), destroyers := s.destroyers[d := Joining(0)])
    case Join(d) =>
      var i := s.destroyers[d].next;
      s.(destroyers := s.destroyers[d := if i < |s.workers| then Joining(i + 1) else Reclaiming])
    case Reclaim(d) =>
      s.(destroyers := s.destroyers[d := Destroyed], shared := s.shared.(queue := []), reclaimed := true)
  }

  /** The state left by initialisation: an empty open queue and every thread at its starting point. */
  predicate Init(s: Pool)
  {
    && s.shared == Shared([], false, false)
    && (forall w :: 0 <= w < |s.workers| ==> s.workers[w] == Ready)
    && (forall p :: 0 <= p < |s.producers| ==> s.producers[p] == Outside)
    && (forall d :: 0 <= d < |s.destroyers| ==> s.destroyers[d] == NotCalled)
    && !s.reclaimed
    && s.accepted == [] && s.taken == [] && s.finished == [] && s.results == []
  }

  /** A run: `states[i + 1]` follows from `states[i]` by `steps[i]`. */
  datatype Run = Run(states: seq<Pool>, steps: seq<Step>)

  ghost predicate IsRun(run: Run)
  {
    && |run.states| == |run.steps| + 1
    && Init(run.states[0])
    && forall i :: 0 <= i < |run.steps| ==> StepAt(run, i)
  }

  ghost predicate StepAt(run: Run, i: nat)
    requires |run.states| == |run.steps| + 1 && i < |run.steps|
  {
    Enabled(run.states[i], run.steps[i]) && run.states[i + 1] == Next(run.states[i], run.steps[i])
  }
}

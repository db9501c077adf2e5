/** The pool object: the linked job list and the flags, mutated by the critical sections. */
module ThreadPoolObject {
  import opened PoolSections

  class JobNode {
    var callback: nat
    var arg: nat
    var next: JobNode?
    ghost var live: bool  // allocated and not yet freed

    constructor (callback: nat, arg: nat)
      ensures this.callback == callback && this.arg == arg && next == null && live
    {
      this.callback := callback;
      this.arg := arg;
      next := null;
      live := true;
    }

    /** The link of a node, which may be followed only until the node is freed. */
    function Next(): JobNode?
      requires live
      reads this
    {
      next
    }

    /** Only a live node may be written to. */
    method Link(n: JobNode)
      requires live
      modifies this`next
      ensures next == n
    {
      next := n;
    }

    method Free()
      requires live
      modifies this`live
      ensures !live
    {
      live := false;
    }
  }

  /** The jobs in a sequence of nodes. */
  ghost function JobsOf(ns: seq<JobNode>): (r: seq<Job>)
    reads ns
    ensures |r| == |ns| && forall i :: 0 <= i < |ns| ==> r[i] == Job(ns[i].callback, ns[i].arg)
  {
    seq(|ns|, i requires 0 <= i < |ns| reads ns => Job(ns[i].callback, ns[i].arg))
  }

  /** A duplicate-free linked list of live nodes. */
  ghost predicate Chain(ns: seq<JobNode>, head: JobNode?, tail: JobNode?)
    reads ns
  {
    && (ns == [] ==> head == null && tail == null)
    && (ns != [] ==> head == ns[0] && tail == ns[|ns| - 1] && ns[|ns| - 1].next == null)
    && (forall i :: 0 <= i < |ns| ==> ns[i].live)
    && (forall i {:trigger ns[i].next} :: 0 <= i < |ns| - 1 ==> ns[i].next == ns[i + 1])
    && (forall i, j :: 0 <= i < j < |ns| ==> ns[i] != ns[j])
  }

  /** Without its first node a chain is a chain. */
  lemma ChainTail(ns: seq<JobNode>, head: JobNode, tail: JobNode?)
    requires ns != [] && Chain(ns, head, tail)
    ensures head == ns[0] && head !in ns[1..] && head.live
    ensures if |ns| == 1 then Chain(ns[1..], null, null) else Chain(ns[1..], head.next, tail)
    ensures JobsOf(ns)[0] == Job(head.callback, head.arg) && JobsOf(ns)[1..] == JobsOf(ns[1..])
  {
  }

  class ThreadPool {
    const queueMaxNum: int
    var queueCurNum: int
    var head: JobNode?
    var tail: JobNode?
    var queueClose: bool
    var poolClose: bool
    ghost var nodes: seq<JobNode>  // the list from head to tail

    ghost predicate Valid()
      reads this, nodes
    {
      queueCurNum == |nodes| && Chain(nodes, head, tail)
    }

    ghost function Jobs(): seq<Job>
      reads this, nodes
    {
      JobsOf(nodes)
    }

    ghost function Abs(): Shared
      reads this, nodes
    {
      Shared(Jobs(), queueClose, poolClose)
    }

    constructor (queueMaxNum: int)
      ensures Valid() && Abs() == Shared([], false, false) && this.queueMaxNum == queueMaxNum
    {
      this.queueMaxNum := queueMaxNum;
      queueCurNum := 0;
      head, tail := null, null;
      queueClose, poolClose := false, false;
      nodes := [];
    }

    /** One pass of the adding section. `gotNode` is the outcome of the allocation. */
    method AddJob(callback: nat, arg: nat, gotNode: bool) returns (outcome: AddOutcome)
      requires Valid()
      modifies this, nodes
      ensures Valid()
      ensures (Abs(), outcome) == AddSection(queueMaxNum, old(Abs()), Job(callback, arg), gotNode)
      ensures outcome.AddWait? <==> old(queueCurNum) == queueMaxNum && !old(queueClose || poolClose)
      ensures outcome.AddRejected? <==> old(queueClose || poolClose) || (old(queueCurNum) != queueMaxNum && !gotNode)
      ensures if outcome.AddAccepted? then
                && Jobs() == old(Jobs()) + [Job(callback, arg)] && queueCurNum == old(queueCurNum) + 1
                && (outcome.wakeWorkers <==> old(queueCurNum) == 0)
              else Jobs() == old(Jobs()) && queueCurNum == old(queueCurNum)
      ensures queueClose == old(queueClose) && poolClose == old(poolClose)
      ensures old(nodes) <= nodes && fresh(set n | n in nodes && n !in old(nodes))
    {
      if queueCurNum == queueMaxNum && !(queueClose || poolClose) {
        return AddWait;
      }
      if queueClose || poolClose {
        return AddRejected;
      }
      if !gotNode {
        return AddRejected;
      }
      var pjob := new JobNode(callback, arg);
      var wasEmpty := head == null;
      if head == null {
        head := pjob;
        tail := pjob;
      } else {
        tail.Link(pjob);
        tail := pjob;
      }
      nodes := nodes + [pjob];
      queueCurNum := queueCurNum + 1;
      assert Chain(nodes, head, tail);
      assert Jobs() == old(Jobs()) + [Job(callback, arg)];
      return AddAccepted(wasEmpty);
    }

    /** One pass of a worker's section. A job that is taken leaves the list and belongs to the worker. */
    method TakeJob() returns (outcome: WorkerOutcome, pjob: JobNode?)
      requires Valid()
      modifies this
      ensures Valid()
      ensures (Abs(), outcome) == WorkerSection(queueMaxNum, old(Abs()))
      ensures outcome.WorkerExit? <==> old(poolClose)
      ensures outcome.WorkerWait? <==> !old(poolClose) && old(queueCurNum) == 0
      ensures outcome.WorkerTook? ==>
                && old(Jobs()) != [] && outcome.job == old(Jobs())[0] && Jobs() == old(Jobs())[1..]
                && queueCurNum == old(queueCurNum) - 1
                && (outcome.signalEmpty <==> old(queueCurNum) == 1)
                && (outcome.wakeProducers <==> old(queueCurNum) == queueMaxNum)
      ensures queueClose == old(queueClose) && poolClose == old(poolClose)
      ensures if outcome.WorkerTook? then
                && old(nodes) != [] && pjob == old(nodes)[0] && nodes == old(nodes)[1..] && pjob !in nodes && pjob.live
                && outcome.job == Job(pjob.callback, pjob.arg)
              else pjob == null && nodes == old(nodes)
    {
      if queueCurNum == 0 && !poolClose {
        return WorkerWait, null;
      }
      if poolClose {
        return WorkerExit, null;
      }
      assert nodes != [] by { assert |nodes| != 0; }
      ChainTail(nodes, head, tail);
      queueCurNum := queueCurNum - 1;
      pjob := head;
      if queueCurNum == 0 {
        head, tail := null, null;
      } else {
        head := pjob.Next();
      }
      nodes := nodes[1..];
      assert Chain(nodes, head, tail);
      assert Jobs() == old(Jobs())[1..];
      outcome := WorkerTook(Job(pjob.callback, pjob.arg), queueCurNum == 0, queueCurNum == queueMaxNum - 1);
    }

    /** The destroyer's section when it resumes from its wait, and the second half of its first pass. */
    method Drain() returns (outcome: DestroyOutcome)
      requires Valid()
      modifies this`poolClose
      ensures Valid()
      ensures (Abs(), outcome) == DrainSection(old(Abs()))
      ensures outcome == if queueCurNum != 0 then DestroyWait else DestroyProceed
      ensures poolClose <==> old(poolClose) || queueCurNum == 0
    {
      assert queueCurNum == |Jobs()|;
      if queueCurNum != 0 {
        return DestroyWait;
      }
      poolClose := true;
      return DestroyProceed;
    }

    method Destroy() returns (outcome: DestroyOutcome)
      requires Valid()
      modifies this`queueClose, this`poolClose
      ensures Valid()
      ensures (Abs(), outcome) == DestroySection(old(Abs()))
      ensures outcome == if old(queueClose || poolClose) then DestroyRejected
                         else if queueCurNum != 0 then DestroyWait else DestroyProceed
      ensures (queueClose <==> old(queueClose) || !old(poolClose)) && Jobs() == old(Jobs())
      ensures poolClose <==> old(poolClose) || (!old(queueClose) && queueCurNum == 0)
    {
      if queueClose || poolClose {
        return DestroyRejected;
      }
      queueClose := true;
      assert Jobs() == old(Jobs());
      outcome := Drain();
      assert Jobs() == old(Jobs());
    }

    /** The loop that frees what is left of the job list. */
    method FreeRemaining()
      requires Valid()
      modifies this, nodes
      ensures head == null
      ensures forall n :: n in old(nodes) ==> !n.live
    {
      ghost var all := nodes;
      ghost var done := 0;
      while head != null
        invariant done <= |all|
        invariant head == if done < |all| then all[done] else null
        invariant forall i :: 0 <= i < done ==> !all[i].live
        invariant forall i :: done <= i < |all| ==> all[i].live
        invariant forall i :: 0 <= i < |all| ==> all[i].next == old(all[i].next)
        decreases |all| - done
      {
        var p := head;
        head := p.Next();
        p.Free();
        done := done + 1;
      }
    }
  }
}

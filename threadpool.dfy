/**
 * The bounded work queue of the thread pool (Assignment_03/threadpool.c).
 *
 * The pool is a monitor: a singly linked FIFO of work items (qhead, qtail,
 * qsize) bounded by max_qsize, and two one-way flags, dont_accept and
 * shutdown. Threads are not modelled. Each operation is one critical section
 * run to completion; a `pthread_cond_wait` loop becomes the precondition
 * under which that loop has ended (the moment the waiting thread holds the
 * lock again with its predicate false).
 *
 * Besides the real fields the class keeps three ghost views: `nodes`, the
 * list from qhead to qtail; `accepted`, every task a dispatch has enqueued;
 * and `taken`, every task a worker has dequeued. The invariant
 * `accepted == taken + Contents()` is the "no lost work" property: an
 * accepted task is either still queued or has been handed to exactly one
 * worker, and tasks leave in the order they arrived.
 */
module ThreadPool {

  datatype Option<T> = None | Some(value: T)

  /** The identity of a `dispatch_fn`; what it does is opaque to the pool. */
  type Routine = nat

  /** A work item's payload: the routine and its argument. */
  datatype Task = Task(routine: Routine, arg: int)

  /** What one pass of a worker's loop in `do_work` ends with. */
  datatype WorkerStep =
    | Exit                             // shutdown seen: pthread_exit
    | Run(task: Task, drained: bool)   // dequeued `task`; `drained`: q_empty was signalled

  /** A `work_t` node of the queue's linked list. */
  class WorkNode {
    const task: Task
    var next: WorkNode?

    constructor (t: Task)
      ensures task == t && next == null
    {
      task := t;
      next := null;
    }
  }

  /** The tasks held by a list of nodes, in list order. */
  function TasksOf(ns: seq<WorkNode>): (ts: seq<Task>)
    ensures |ts| == |ns|
  {
    if ns == [] then [] else [ns[0].task] + TasksOf(ns[1..])
  }

  lemma {:induction false} TasksOfAppend(ns: seq<WorkNode>, n: WorkNode)
    ensures TasksOf(ns + [n]) == TasksOf(ns) + [n.task]
  {
    if ns != [] {
      assert (ns + [n])[1..] == ns[1..] + [n];
      TasksOfAppend(ns[1..], n);
    }
  }

  /**
   * `ns` is the linked list from `head` to `tail`: each node's `next` is the
   * one after it, the tail ends the list, and the tail occurs only once (so
   * linking a node after it leaves the earlier links alone).
   */
  ghost predicate Chain(ns: seq<WorkNode>, head: WorkNode?, tail: WorkNode?)
    reads ns
  {
    && (head == null <==> ns == [])
    && (tail == null <==> ns == [])
    && (ns != [] ==> head == ns[0] && tail == ns[|ns| - 1] && tail.next == null)
    && (forall i {:trigger ns[i].next} :: 0 <= i < |ns| - 1 ==> ns[i].next == ns[i + 1] && ns[i] != ns[|ns| - 1])
  }

  /** Unlinking the head of a chain leaves a chain from the head's successor. */
  lemma ChainPop(ns: seq<WorkNode>, head: WorkNode, tail: WorkNode)
    requires Chain(ns, head, tail)
    ensures |ns| > 1 ==> Chain(ns[1..], head.next, tail)
    ensures |ns| == 1 ==> Chain(ns[1..], null, null)
  {
    if |ns| > 1 {
      assert head.next == ns[1];
    }
  }

  /** The argument check of `create_threadpool`; the two maxima come from threadpool.h. */
  predicate ValidParameters(numThreads: int, maxQueue: int, maxThreads: int, maxWork: int) {
    0 < numThreads <= maxThreads && 0 < maxQueue <= maxWork
  }

  /** Moving the first of the waiting tasks to the end of those already run. */
  lemma MoveFirst(ran: seq<Task>, t: Task, rest: seq<Task>)
    ensures ran + ([t] + rest) == (ran + [t]) + rest
  {
  }

  /** Taking one more task after `ran`. */
  lemma AppendLast(start: seq<Task>, ran: seq<Task>, t: Task)
    ensures (start + ran) + [t] == start + (ran + [t])
  {
  }

  class Pool {
    const numThreads: int
    const maxQsize: int
    var qsize: int
    var qhead: WorkNode?
    var qtail: WorkNode?
    var dontAccept: bool
    var shutdown: bool

    ghost var nodes: seq<WorkNode>
    ghost var accepted: seq<Task>
    ghost var taken: seq<Task>

    /** The monitor invariant, which every critical section re-establishes. */
    ghost predicate Valid()
      reads this, nodes
    {
      && 0 < maxQsize
      && qsize == |nodes| && qsize <= maxQsize
      && Chain(nodes, qhead, qtail)
      && accepted == taken + TasksOf(nodes)
      && (shutdown ==> dontAccept && qsize == 0)
    }

    /** The queued tasks, head first. */
    ghost function Contents(): seq<Task>
      reads this
    {
      TasksOf(nodes)
    }

    /** The state `create_threadpool` leaves a pool in once its checks pass. */
    constructor (numThreadsInPool: int, maxQueueSize: int)
      requires 0 < maxQueueSize
      ensures Valid()
      ensures numThreads == numThreadsInPool && maxQsize == maxQueueSize
      ensures qsize == 0 && qhead == null && qtail == null
      ensures !dontAccept && !shutdown
      ensures Contents() == [] && accepted == [] && taken == []
    {
      numThreads := numThreadsInPool;
      maxQsize := maxQueueSize;
      qsize := 0;
      qhead := null;
      qtail := null;
      shutdown := false;
      dontAccept := false;
      nodes := [];
      accepted := [];
      taken := [];
    }

    /**
     * `create_threadpool`: NULL for a thread count or queue size outside
     * 1..maximum, or when an allocation, a primitive's initialisation or a
     * thread's creation fails (`resourcesOk` false); otherwise a fresh pool.
     */
    static method Create(numThreadsInPool: int, maxQueueSize: int, maxThreads: int, maxWork: int,
                         resourcesOk: bool) returns (p: Pool?)
      ensures p != null <==> ValidParameters(numThreadsInPool, maxQueueSize, maxThreads, maxWork) && resourcesOk
      ensures p != null ==> fresh(p) && p.Valid() && p.Contents() == [] && p.accepted == []
      ensures p != null ==> p.numThreads == numThreadsInPool && p.maxQsize == maxQueueSize
      ensures p != null ==> p.qsize == 0 && p.qhead == null && p.qtail == null && !p.dontAccept && !p.shutdown
    {
      if !ValidParameters(numThreadsInPool, maxQueueSize, maxThreads, maxWork) || !resourcesOk {
        return null;
      }
      p := new Pool(numThreadsInPool, maxQueueSize);
    }

    /**
     * `dispatch`. A missing routine, a failed `malloc` of the work node
     * (`allocOk` false), or a pool whose destruction has begun leaves the
     * queue as it was; otherwise the task is linked in at the tail. The
     * precondition is the exit condition of the "queue full" wait, which only
     * a dispatcher that got past the routine and allocation checks reaches:
     * it runs on only when there is room or `dont_accept` is set, and the
     * checks before and after that wait read the same flag here.
     */
    method Dispatch(routine: Option<Routine>, arg: int, allocOk: bool)
      requires Valid()
      requires routine.None? || !allocOk || dontAccept || qsize < maxQsize
      modifies this, qtail
      ensures Valid()
      ensures qtail != old(qtail) ==> fresh(qtail)
      ensures dontAccept == old(dontAccept) && shutdown == old(shutdown) && taken == old(taken)
      ensures routine.None? || !allocOk || old(dontAccept) ==>
                Contents() == old(Contents()) && accepted == old(accepted) && qsize == old(qsize)
      ensures routine.Some? && allocOk && !old(dontAccept) ==>
                Contents() == old(Contents()) + [Task(routine.value, arg)]
                && accepted == old(accepted) + [Task(routine.value, arg)]
                && qsize == old(qsize) + 1
    {
      if routine.None? {
        return;
      }
      if !allocOk {
        return;
      }
      if dontAccept {
        return;
      }
      var work := new WorkNode(Task(routine.value, arg));
      if qsize == 0 {
        qhead := work;
        qtail := work;
      } else {
        qtail.next := work;
        qtail := work;
      }
      qsize := qsize + 1;
      nodes := nodes + [work];
      accepted := accepted + [work.task];
      TasksOfAppend(old(nodes), work);
    }

    /**
     * One pass of a worker's loop in `do_work`, up to the point where it runs
     * the routine outside the lock. The precondition is the exit condition of
     * the "queue empty" wait. A worker exits when it sees `shutdown`, which by
     * the invariant only happens on an empty queue; otherwise it unlinks the
     * head, and signals the drained condition exactly when that empties the
     * queue while `dont_accept` is set.
     */
    method WorkerStep() returns (step: WorkerStep)
      requires Valid()
      requires shutdown || qsize > 0
      modifies this
      ensures Valid()
      ensures dontAccept == old(dontAccept) && shutdown == old(shutdown) && accepted == old(accepted)
      ensures step.Exit? <==> old(shutdown)
      ensures step.Exit? ==> Contents() == old(Contents()) == [] && taken == old(taken)
      ensures step.Run? ==>
                && old(Contents()) != []
                && step.task == old(Contents())[0]
                && Contents() == old(Contents())[1..]
                && qsize == old(qsize) - 1
                && taken == old(taken) + [step.task]
                && step.drained == (Contents() == [] && dontAccept)
    {
      if shutdown {
        return Exit;
      }
      var work := qhead;
      ghost var rest := nodes[1..];
      assert TasksOf(nodes) == [work.task] + TasksOf(rest);
      assert taken + TasksOf(nodes) == (taken + [work.task]) + TasksOf(rest);
      ChainPop(nodes, qhead, qtail);
      qsize := qsize - 1;
      var drained := false;
      if qsize == 0 {
        qhead := null;
        qtail := null;
        drained := dontAccept;
      } else {
        qhead := work.next;
      }
      nodes := rest;
      taken := taken + [work.task];
      step := Run(work.task, drained);
    }

    /** The first critical section of `destroy_threadpool`: stop admissions. */
    method BeginDestroy()
      requires Valid()
      modifies this
      ensures Valid() && dontAccept
      ensures shutdown == old(shutdown) && qsize == old(qsize)
      ensures Contents() == old(Contents()) && accepted == old(accepted) && taken == old(taken)
    {
      dontAccept := true;
    }

    /**
     * The rest of that critical section, once the drained wait has ended
     * (`qsize == 0`): set `shutdown` so that every worker exits.
     */
    method FinishDestroy()
      requires Valid() && dontAccept && qsize == 0
      modifies this
      ensures Valid() && dontAccept && shutdown
      ensures Contents() == [] && accepted == old(accepted) && taken == old(taken)
    {
      shutdown := true;
    }

    /**
     * `destroy_threadpool` with the workers doing their dequeues while it
     * waits for the queue to drain. `ran` is what the workers take, in
     * order: exactly the tasks queued when destruction began, so every task
     * ever accepted has been taken once shutdown is set, and later
     * dispatches are no-ops. Joining the threads is not modelled.
     */
    method Destroy() returns (ran: seq<Task>)
      requires Valid() && !shutdown
      modifies this
      ensures Valid() && dontAccept && shutdown
      ensures ran == old(Contents()) && Contents() == []
      ensures taken == old(taken) + ran && taken == accepted && accepted == old(accepted)
    {
      BeginDestroy();
      ran := [];
      while qsize > 0
        invariant Valid() && dontAccept && !shutdown
        invariant old(Contents()) == ran + Contents()
        invariant taken == old(taken) + ran && accepted == old(accepted)
        decreases qsize
      {
        ghost var before := Contents();
        var step := WorkerStep();
        assert before == [step.task] + Contents();
        MoveFirst(ran, step.task, Contents());
        AppendLast(old(taken), ran, step.task);
        ran := ran + [step.task];
      }
      FinishDestroy();
    }
  }

  /**
   * Example: a pool of two threads and capacity four takes four tasks and
   * drops one whose work node cannot be allocated; destroying it runs each
   * accepted task exactly once, in dispatch order, and a dispatch after that
   * is dropped. A pool with no threads is refused.
   */
  method ExampleDrain()
  {
    var refused := Pool.Create(0, 4, 200, 200, true);
    assert refused == null;
    var p := Pool.Create(2, 4, 200, 200, true);
    p.Dispatch(Some(7), 1, true);
    p.Dispatch(Some(7), 2, true);
    assert p.Contents() == [Task(7, 1), Task(7, 2)];
    p.Dispatch(Some(7), 9, false);
    p.Dispatch(Some(7), 3, true);
    p.Dispatch(Some(7), 4, true);
    assert p.Contents() == [Task(7, 1), Task(7, 2), Task(7, 3), Task(7, 4)];
    var ran := p.Destroy();
    assert ran == [Task(7, 1), Task(7, 2), Task(7, 3), Task(7, 4)];
    p.Dispatch(Some(7), 5, true);
    assert p.Contents() == [];
  }
}

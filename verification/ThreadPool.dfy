// The pool's linked job queue as threadpool.c keeps it, and the critical
// sections that change it, each shown to be the corresponding step of
// PoolProtocol.
module ThreadPool {
  import opened PoolProtocol

  class JobNode {
    const job: Job
    var next: JobNode?

    constructor (job: Job)
      ensures this.job == job && next == null
    {
      this.job := job;
      next := null;
    }
  }

  datatype AddOutcome = MustWait | Refused | Added
  datatype TakeOutcome = Idle | Leave | Took(job: Job)

  class Queue {
    var queueMaxNum: int
    var queueCurNum: int
    var head: JobNode?
    var tail: JobNode?
    var queueClose: bool
    var poolClose: bool
    ghost var nodes: seq<JobNode>

    // The chain from head visits each node once and ends at tail.
    ghost predicate Valid()
      reads this, nodes
    {
      && queueCurNum == |nodes|
      && (forall i, j | 0 <= i < j < |nodes| :: nodes[i] != nodes[j])
      && (forall i | 0 <= i < |nodes| - 1 :: nodes[i].next == nodes[i + 1])
      && (if nodes == [] then head == null && tail == null
          else head == nodes[0] && tail == nodes[|nodes| - 1] && tail.next == null)
    }

    static ghost function Jobs(nodes: seq<JobNode>): (js: seq<Job>)
      ensures |js| == |nodes| && forall i | 0 <= i < |nodes| :: js[i] == nodes[i].job
    {
      seq(|nodes|, i requires 0 <= i < |nodes| => nodes[i].job)
    }

    // The shared data are those of the protocol state s.
    ghost predicate Represents(s: Pool)
      reads this, nodes
    {
      && Valid() && Jobs(nodes) == s.queue
      && queueMaxNum == s.max && queueClose == s.queueClose && poolClose == s.poolClose
    }

    // threadpool_init for the queue.
    constructor (queueMax: int)
      ensures Valid() && nodes == [] && queueMaxNum == queueMax && !queueClose && !poolClose
      ensures forall threads: nat, callers: nat :: Represents(Init(threads, queueMax, callers))
    {
      queueMaxNum := queueMax;
      queueCurNum := 0;
      head, tail := null, null;
      queueClose, poolClose := false, false;
      nodes := [];
    }

    // The new job is linked behind the last one.
    method LinkTail(pjob: JobNode)
      requires Valid() && pjob !in nodes && pjob.next == null
      modifies this`head, this`tail, this`nodes, this`queueCurNum, tail
      ensures Valid() && nodes == old(nodes) + [pjob]
    {
      if head == null {
        head := pjob;
        tail := pjob;
      } else {
        tail.next := pjob;
        tail := pjob;
      }
      nodes := nodes + [pjob];
      queueCurNum := queueCurNum + 1;
    }

    // The first job is unlinked.
    method UnlinkHead() returns (pjob: JobNode)
      requires Valid() && nodes != []
      modifies this`head, this`tail, this`nodes, this`queueCurNum
      ensures Valid() && nodes == old(nodes)[1..] && pjob == old(nodes)[0]
    {
      queueCurNum := queueCurNum - 1;
      pjob := head;
      nodes := nodes[1..];
      if queueCurNum == 0 {
        head, tail := null, null;
      } else {
        head := pjob.next;
      }
    }

    lemma HeadAndCount()
      requires Valid()
      ensures queueCurNum == |nodes| && (head == null <==> nodes == [])
    {
    }

    // threadpool_add_job while it holds the mutex. wakeWorkers: the broadcast on
    // queue_not_empty.
    method Add(job: Job, ghost s: Pool, ghost p: nat) returns (outcome: AddOutcome, wakeWorkers: bool)
      requires Represents(s) && p < |s.producers|
      modifies this, tail
      ensures Represents(AddTurn(s, p, job))
      ensures queueClose == old(queueClose) && poolClose == old(poolClose) && queueMaxNum == old(queueMaxNum)
      ensures outcome == Refused <==> queueClose || poolClose
      ensures outcome == MustWait <==> !queueClose && !poolClose && old(queueCurNum) == queueMaxNum
      ensures Jobs(nodes) == Jobs(old(nodes)) + if outcome == Added then [job] else []
      ensures queueCurNum == |nodes|
      ensures wakeWorkers <==> outcome == Added && old(nodes) == []
      ensures AddTurn(s, p, job).workers == if wakeWorkers then WakeAll(s.workers) else s.workers
      ensures fresh(set n | n in nodes && n !in old(nodes))
    {
      HeadAndCount();
      hide Valid;
      wakeWorkers := false;
      if queueCurNum == queueMaxNum && !(queueClose || poolClose) {
        return MustWait, false;
      }
      if queueClose || poolClose {
        return Refused, false;
      }
      var pjob := new JobNode(job);
      wakeWorkers := head == null;
      LinkTail(pjob);
      assert Jobs(nodes) == Jobs(old(nodes)) + [job];
      outcome := Added;
    }

    // threadpool_function while it holds the mutex. The flags are the signal on
    // queue_empty and the broadcast on queue_not_full.
    method Take(ghost s: Pool, ghost w: nat) returns (outcome: TakeOutcome, wakeDestroyer: bool, rouseCallers: bool)
      requires Represents(s) && w < |s.workers|
      modifies this
      ensures Represents(WorkerTurn(s, w))
      ensures WorkerTurn(s, w).workers[w] ==
              (match outcome case Idle => Sleeping case Leave => Exited case Took(job) => Running(job))
      ensures WorkerTurn(s, w).producers == if rouseCallers then RouseAll(s.producers) else s.producers
      ensures WorkerTurn(s, w).destroyer ==
              if wakeDestroyer && s.destroyer == Draining then DrainWoken else s.destroyer
      ensures queueClose == old(queueClose) && poolClose == old(poolClose) && queueMaxNum == old(queueMaxNum)
      ensures match outcome
              case Idle => old(queueCurNum) == 0 && !poolClose
              case Leave => poolClose
              case Took(job) => old(queueCurNum) > 0 && !poolClose && job == Jobs(old(nodes))[0]
      ensures nodes == if outcome.Took? then old(nodes)[1..] else old(nodes)
      ensures wakeDestroyer <==> outcome.Took? && queueCurNum == 0
      ensures rouseCallers <==> outcome.Took? && queueCurNum == queueMaxNum - 1
    {
      HeadAndCount();
      hide Valid, RouseAll;
      wakeDestroyer, rouseCallers := false, false;
      if queueCurNum == 0 && !poolClose {
        return Idle, false, false;
      }
      if poolClose {
        return Leave, false, false;
      }
      var pjob := UnlinkHead();
      HeadAndCount();
      assert Jobs(nodes) == Jobs(old(nodes))[1..];
      if queueCurNum == 0 {
        wakeDestroyer := true;
      }
      if queueCurNum == queueMaxNum - 1 {
        rouseCallers := true;
      }
      outcome := Took(pjob.job);
    }

    // threadpool_destroy, first time with the mutex.
    method BeginDestroy(ghost s: Pool) returns (refused: bool, mustWait: bool)
      requires Represents(s)
      modifies this`queueClose, this`poolClose
      ensures refused <==> s.queueClose || s.poolClose
      ensures Represents(if refused then s else DrainTurn(s.(queueClose := true)))
      ensures !refused ==> (mustWait <==> s.queue != [])
      ensures refused <==> old(queueClose || poolClose)
      ensures !refused ==> queueClose && (poolClose <==> queueCurNum == 0)
      ensures refused ==> queueClose == old(queueClose) && poolClose == old(poolClose)
    {
      refused, mustWait := queueClose || poolClose, false;
      if !refused {
        queueClose := true;
        mustWait := queueCurNum != 0;
        if !mustWait {
          poolClose := true;
        }
      }
    }

    // The same after each wakeup.
    method ContinueDestroy(ghost s: Pool) returns (mustWait: bool)
      requires Represents(s)
      modifies this`poolClose
      ensures Represents(DrainTurn(s))
      ensures mustWait <==> s.queue != []
      ensures poolClose <==> old(poolClose) || queueCurNum == 0
    {
      mustWait := queueCurNum != 0;
      if !mustWait {
        poolClose := true;
      }
    }

    // The loop at the end of threadpool_destroy: it frees one node a turn.
    method FreeRest() returns (freed: nat)
      requires Valid()
      modifies this
      ensures freed == old(|nodes|)
      ensures head == null
    {
      freed := 0;
      while head != null
        invariant freed <= old(|nodes|) && nodes == old(nodes)
        invariant head == if freed == |nodes| then null else nodes[freed]
        invariant forall i | 0 <= i < |nodes| :: nodes[i].next == old(nodes[i].next)
        decreases |nodes| - freed
      {
        var p := head;
        head := p.next;
        freed := freed + 1;
      }
    }
  }
}

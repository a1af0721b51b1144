// The thread pool as a state machine over all interleavings of its workers,
// the threads that add jobs and the one that destroys it. Shared data is only
// touched under the mutex, so what a thread does between two waits or unlocks
// is one step. A wait is split: a sleeping thread must first be woken, and then
// takes the mutex and tests its condition again in a later step.
module PoolProtocol {

  type Job = nat

  // threadpool_function. Sleeping: in queue_not_empty's wait, not woken.
  datatype Worker = Ready | Sleeping | Woken | Running(job: Job) | Exited

  // threadpool_add_job. Entered: called, but not yet with the mutex. Blocked: in
  // queue_not_full's wait, not woken.
  datatype Producer = Outside | Entered(job: Job) | Blocked(job: Job) | Roused(job: Job)

  // threadpool_destroy. Draining: in queue_empty's wait; Closed and Announced:
  // before the broadcasts on queue_not_empty and on queue_not_full.
  datatype Destroyer = NotCalled | Draining | DrainWoken | Closed | Announced | Joining(next: nat) | Finished

  datatype Pool = Pool(
    max: int,              // queue_max_num
    queue: seq<Job>,
    queueClose: bool,
    poolClose: bool,
    workers: seq<Worker>,
    producers: seq<Producer>,
    destroyer: Destroyer,
    accepted: seq<Job>,    // jobs for which add_job returned 0
    taken: seq<Job>,       // jobs workers dequeued
    ran: multiset<Job>)    // jobs whose callback has run

  datatype Event =
    | Turn(w: nat)               // a worker gets the mutex
    | Work(w: nat)               // a worker runs its job
    | Enter(p: nat, job: Job)    // add_job is called
    | Call(p: nat)               // it gets the mutex for the first time
    | Retry(p: nat)              // a woken add_job gets the mutex again
    | Destroy                    // destroy is called and gets the mutex
    | Recheck                    // a woken destroy gets the mutex again
    | AnnounceNotEmpty
    | AnnounceNotFull
    | Join                       // pthread_join of the next worker returns
    | Free                       // all are joined, the pool is freed
    | SpuriousWorker(w: nat)     // wakeups without a signal
    | SpuriousProducer(p: nat)
    | SpuriousDestroyer

  function WakeWorker(w: Worker): Worker { if w == Sleeping then Woken else w }

  function RouseProducer(p: Producer): Producer { if p.Blocked? then Roused(p.job) else p }

  // pthread_cond_broadcast.
  function WakeAll(ws: seq<Worker>): (r: seq<Worker>)
    ensures |r| == |ws| && forall i | 0 <= i < |ws| :: r[i] == WakeWorker(ws[i])
  {
    seq(|ws|, i requires 0 <= i < |ws| => WakeWorker(ws[i]))
  }

  function RouseAll(ps: seq<Producer>): (r: seq<Producer>)
    ensures |r| == |ps| && forall i | 0 <= i < |ps| :: r[i] == RouseProducer(ps[i])
  {
    seq(|ps|, i requires 0 <= i < |ps| => RouseProducer(ps[i]))
  }

  // One worker with the mutex: wait, exit, or take the first job.
  function WorkerTurn(s: Pool, w: nat): Pool
    requires w < |s.workers|
  {
    if s.queue == [] && !s.poolClose then s.(workers := s.workers[w := Sleeping])
    else if s.poolClose then s.(workers := s.workers[w := Exited])
    else
      var job, left := s.queue[0], s.queue[1..];
      s.(queue := left,
         taken := s.taken + [job],
         workers := s.workers[w := Running(job)],
         destroyer := if left == [] && s.destroyer == Draining then DrainWoken else s.destroyer,
         producers := if |left| == s.max - 1 then RouseAll(s.producers) else s.producers)
  }

  // One caller of add_job with the mutex: wait, be refused, or append.
  function AddTurn(s: Pool, p: nat, job: Job): Pool
    requires p < |s.producers|
  {
    if |s.queue| == s.max && !(s.queueClose || s.poolClose) then
      s.(producers := s.producers[p := Blocked(job)])
    else if s.queueClose || s.poolClose then
      s.(producers := s.producers[p := Outside])
    else
      s.(queue := s.queue + [job],
         accepted := s.accepted + [job],
         workers := if s.queue == [] then WakeAll(s.workers) else s.workers,
         producers := s.producers[p := Outside])
  }

  // What add_job answers: it refuses on a closed pool only, waits on a full open
  // one only, and otherwise appends its job.
  lemma AddAnswers(s: Pool, p: nat, job: Job)
    requires p < |s.producers|
    ensures var t, closed := AddTurn(s, p, job), s.queueClose || s.poolClose;
            && (closed ==> t == s.(producers := s.producers[p := Outside]))
            && (!closed && |s.queue| == s.max ==> t == s.(producers := s.producers[p := Blocked(job)]))
            && (!closed && |s.queue| != s.max ==>
                  && t.queue == s.queue + [job] && t.accepted == s.accepted + [job]
                  && t.producers == s.producers[p := Outside])
  {
  }

  // The destroyer with the mutex: wait for the queue to drain, or close.
  function DrainTurn(s: Pool): Pool {
    if s.queue != [] then s.(destroyer := Draining)
    else s.(poolClose := true, destroyer := Closed)
  }

  // After the free nobody can use the mutex any more; PoolShutdown.FreeIsSafeIff
  // and LateCallIsUnsafe say when a call of add_job is cut off by that.
  predicate Enabled(s: Pool, e: Event) {
    match e
    case Turn(w) => w < |s.workers| && s.workers[w] in {Ready, Woken}
    case Work(w) => w < |s.workers| && s.workers[w].Running?
    case Enter(p, job) => s.destroyer != Finished && p < |s.producers| && s.producers[p].Outside?
    case Call(p) => s.destroyer != Finished && p < |s.producers| && s.producers[p].Entered?
    case Retry(p) => s.destroyer != Finished && p < |s.producers| && s.producers[p].Roused?
    case Destroy => s.destroyer == NotCalled
    case Recheck => s.destroyer == DrainWoken
    case AnnounceNotEmpty => s.destroyer == Closed
    case AnnounceNotFull => s.destroyer == Announced
    case Join => s.destroyer.Joining? && s.destroyer.next < |s.workers| && s.workers[s.destroyer.next] == Exited
    case Free => s.destroyer.Joining? && s.destroyer.next >= |s.workers|
    case SpuriousWorker(w) => w < |s.workers| && s.workers[w] == Sleeping
    case SpuriousProducer(p) => s.destroyer != Finished && p < |s.producers| && s.producers[p].Blocked?
    case SpuriousDestroyer => s.destroyer == Draining
  }

  function Step(s: Pool, e: Event): Pool
    requires Enabled(s, e)
  {
    match e
    case Turn(w) => WorkerTurn(s, w)
    case Work(w) =>
      s.(workers := s.workers[w := Ready], ran := s.ran + multiset{s.workers[w].job})
    case Enter(p, job) => s.(producers := s.producers[p := Entered(job)])
    case Call(p) => AddTurn(s, p, s.producers[p].job)
    case Retry(p) => AddTurn(s, p, s.producers[p].job)
    case Destroy => DrainTurn(s.(queueClose := true))
    case Recheck => DrainTurn(s)
    case AnnounceNotEmpty => s.(workers := WakeAll(s.workers), destroyer := Announced)
    case AnnounceNotFull => s.(producers := RouseAll(s.producers), destroyer := Joining(0))
    case Join => s.(destroyer := Joining(s.destroyer.next + 1))
    case Free => s.(destroyer := Finished)
    case SpuriousWorker(w) => s.(workers := s.workers[w := Woken])
    case SpuriousProducer(p) => s.(producers := s.producers[p := Roused(s.producers[p].job)])
    case SpuriousDestroyer => s.(destroyer := DrainWoken)
  }

  // Until the free, a caller only has to wait in queue_not_full.
  lemma CallersGoOn(s: Pool, p: nat, job: Job)
    requires s.destroyer != Finished && p < |s.producers|
    ensures match s.producers[p]
            case Outside => Enabled(s, Enter(p, job))
            case Entered(_) => Enabled(s, Call(p))
            case Roused(_) => Enabled(s, Retry(p))
            case Blocked(_) => !Enabled(s, Call(p)) && !Enabled(s, Retry(p))
  {
  }

  // Events that are not enabled are skipped.
  function Run(s: Pool, events: seq<Event>): Pool
    decreases |events|
  {
    if events == [] then s
    else Run(if Enabled(s, events[0]) then Step(s, events[0]) else s, events[1..])
  }

  // threadpool_init with some number of threads that will call add_job.
  function Init(threads: nat, max: int, callers: nat): Pool {
    Pool(max, [], false, false, seq(threads, _ => Ready), seq(callers, _ => Outside), NotCalled, [], [], multiset{})
  }

  // ---- invariants ----

  // How many workers are running a given job.
  function Runs(w: Worker, job: Job): nat { if w == Running(job) then 1 else 0 }

  function Busy(ws: seq<Worker>, job: Job): nat {
    if ws == [] then 0 else Runs(ws[0], job) + Busy(ws[1..], job)
  }

  // No lost wakeup: whoever sleeps has nothing to do yet, or is about to be
  // woken by the destroyer's broadcast.
  predicate NoLostWakeup(s: Pool) {
    && (forall i | 0 <= i < |s.workers| && s.workers[i] == Sleeping ::
          s.queue == [] && (s.poolClose ==> s.destroyer == Closed))
    && (forall i | 0 <= i < |s.producers| && s.producers[i].Blocked? :: |s.queue| == s.max)
    && (s.destroyer == Draining ==> s.queue != [])
  }

  // How far the shutdown is, as seen in the two flags and the workers.
  predicate Stages(s: Pool) {
    && (s.queueClose <==> s.destroyer != NotCalled)
    && (s.poolClose <==> s.destroyer in {Closed, Announced, Finished} || s.destroyer.Joining?)
    && (s.poolClose ==> s.queue == [])
    && (forall i | 0 <= i < |s.workers| && s.workers[i] == Exited :: s.poolClose)
    && (s.destroyer.Joining? ==> forall i | 0 <= i < s.destroyer.next && i < |s.workers| :: s.workers[i] == Exited)
    && (s.destroyer == Finished ==> forall i | 0 <= i < |s.workers| :: s.workers[i] == Exited)
  }

  // Every accepted job is dequeued or queued, in order, and every dequeued job
  // has run or is running.
  ghost predicate Accounted(s: Pool) {
    && s.accepted == s.taken + s.queue
    && forall job :: multiset(s.taken)[job] == s.ran[job] + Busy(s.workers, job)
  }

  ghost predicate Inv(s: Pool) {
    1 <= s.max && |s.queue| <= s.max && NoLostWakeup(s) && Stages(s) && Accounted(s)
  }

  lemma {:induction false} BusyUpdate(ws: seq<Worker>, w: nat, x: Worker, job: Job)
    requires w < |ws|
    ensures Busy(ws[w := x], job) + Runs(ws[w], job) == Busy(ws, job) + Runs(x, job)
  {
    if w == 0 {
      assert ws[w := x][1..] == ws[1..];
    } else {
      BusyUpdate(ws[1..], w - 1, x, job);
      assert ws[w := x][1..] == ws[1..][w - 1 := x];
    }
  }

  lemma {:induction false} BusyWake(ws: seq<Worker>, job: Job)
    ensures Busy(WakeAll(ws), job) == Busy(ws, job)
  {
    if ws != [] {
      BusyWake(ws[1..], job);
      assert WakeAll(ws)[1..] == WakeAll(ws[1..]);
    }
  }

  // What the accounts of two states have to do with each other when one worker
  // changed: a job moved from the queue to it, or from it to those that ran.
  lemma WorkerAccounted(s: Pool, t: Pool, w: nat, x: Worker, took: seq<Job>, finished: multiset<Job>)
    requires Accounted(s) && w < |s.workers| && t.workers == s.workers[w := x]
    requires t.taken == s.taken + took && t.ran == s.ran + finished && t.accepted == t.taken + t.queue
    requires forall job :: multiset(took)[job] + Runs(s.workers[w], job) == finished[job] + Runs(x, job)
    ensures Accounted(t)
  {
    hide Busy, Runs;
    forall job
      ensures multiset(t.taken)[job] == t.ran[job] + Busy(t.workers, job)
    {
      BusyUpdate(s.workers, w, x, job);
      assert multiset(s.taken + took) == multiset(s.taken) + multiset(took);
    }
  }

  lemma IdleTurnAccounted(s: Pool, w: nat)
    requires Accounted(s) && w < |s.workers| && s.workers[w] in {Ready, Woken} && (s.queue == [] || s.poolClose)
    ensures Accounted(WorkerTurn(s, w))
  {
    hide Busy, WakeAll, RouseAll, Accounted;
    AccountedQueue(s);
    assert s.taken + [] == s.taken;
    var t := WorkerTurn(s, w);
    WorkerAccounted(s, t, w, t.workers[w], [], multiset{});
  }

  lemma TakingTurnAccounted(s: Pool, w: nat)
    requires Accounted(s) && w < |s.workers| && s.workers[w] in {Ready, Woken} && s.queue != [] && !s.poolClose
    ensures Accounted(WorkerTurn(s, w))
  {
    hide Busy, WakeAll, RouseAll, Accounted;
    AccountedQueue(s);
    var t, job := WorkerTurn(s, w), s.queue[0];
    assert s.queue == [job] + t.queue;
    assert s.taken + ([job] + t.queue) == s.taken + [job] + t.queue;
    WorkerAccounted(s, t, w, Running(job), [job], multiset{});
  }

  lemma TurnAccounted(s: Pool, e: Event)
    requires Accounted(s) && Enabled(s, e) && e.Turn?
    ensures Accounted(Step(s, e))
  {
    hide Accounted, WorkerTurn;
    if s.queue == [] || s.poolClose {
      IdleTurnAccounted(s, e.w);
    } else {
      TakingTurnAccounted(s, e.w);
    }
  }

  lemma AccountedQueue(s: Pool)
    requires Accounted(s)
    ensures s.accepted == s.taken + s.queue
  {
  }

  lemma WorkAccounted(s: Pool, e: Event)
    requires Accounted(s) && Enabled(s, e) && (e.Work? || e.SpuriousWorker?)
    ensures Accounted(Step(s, e))
  {
    hide Busy, WorkerTurn, AddTurn, DrainTurn, WakeAll, RouseAll, Accounted;
    AccountedQueue(s);
    var t, w := Step(s, e), e.w;
    assert s.taken + [] == s.taken;
    WorkerAccounted(s, t, w, t.workers[w], [], if e.Work? then multiset{s.workers[w].job} else multiset{});
  }

  // No job moves between workers; one may be accepted.
  lemma SameWorkAccounted(s: Pool, t: Pool)
    requires Accounted(s) && (t.workers == s.workers || t.workers == WakeAll(s.workers))
    requires t.taken == s.taken && t.ran == s.ran && t.accepted == t.taken + t.queue
    ensures Accounted(t)
  {
    hide Busy, WakeAll;
    forall job
      ensures Busy(WakeAll(s.workers), job) == Busy(s.workers, job)
    {
      BusyWake(s.workers, job);
    }
  }

  lemma OthersAccounted(s: Pool, e: Event)
    requires Accounted(s) && Enabled(s, e) && !e.Turn? && !e.Work? && !e.SpuriousWorker?
    ensures Accounted(Step(s, e))
  {
    hide Busy, WorkerTurn, WakeAll, RouseAll, Accounted;
    AccountedQueue(s);
    var t := Step(s, e);
    if t.queue != s.queue {
      var job := t.accepted[|s.accepted|];
      assert s.taken + s.queue + [job] == s.taken + (s.queue + [job]);
    }
    SameWorkAccounted(s, t);
  }

  lemma StepAccounted(s: Pool, e: Event)
    requires Accounted(s) && Enabled(s, e)
    ensures Accounted(Step(s, e))
  {
    hide Accounted, Step, Enabled;
    if e.Turn? {
      TurnAccounted(s, e);
    } else if e.Work? || e.SpuriousWorker? {
      WorkAccounted(s, e);
    } else {
      OthersAccounted(s, e);
    }
  }

  // The other steps of the destroyer, and spurious wakeups.
  predicate Silent(e: Event) { !e.Turn? && !e.Work? && !e.Call? && !e.Retry? }

  lemma WorkerStages(s: Pool, e: Event)
    requires Inv(s) && Enabled(s, e) && (e.Turn? || e.Work?)
    ensures Stages(Step(s, e))
  {
    hide Accounted, AddTurn, DrainTurn, WakeAll, RouseAll, NoLostWakeup;
  }

  lemma CallerStages(s: Pool, e: Event)
    requires Inv(s) && Enabled(s, e) && (e.Call? || e.Retry?)
    ensures Stages(Step(s, e))
  {
    hide Accounted, WorkerTurn, DrainTurn, RouseAll, NoLostWakeup;
  }

  lemma SilentStages(s: Pool, e: Event)
    requires Inv(s) && Enabled(s, e) && Silent(e)
    ensures Stages(Step(s, e))
  {
    hide Accounted, WorkerTurn, AddTurn, RouseAll, NoLostWakeup;
  }

  lemma StepStages(s: Pool, e: Event)
    requires Inv(s) && Enabled(s, e)
    ensures Stages(Step(s, e))
  {
    hide Inv, Enabled, Step, Stages;
    if e.Turn? || e.Work? {
      WorkerStages(s, e);
    } else if e.Call? || e.Retry? {
      CallerStages(s, e);
    } else {
      SilentStages(s, e);
    }
  }

  lemma WorkerKeepsWakeups(s: Pool, e: Event)
    requires Inv(s) && Enabled(s, e) && (e.Turn? || e.Work?)
    ensures NoLostWakeup(Step(s, e)) && |Step(s, e).queue| <= s.max
  {
    hide Accounted, AddTurn, DrainTurn, WakeAll;
  }

  lemma CallerKeepsWakeups(s: Pool, e: Event)
    requires Inv(s) && Enabled(s, e) && (e.Call? || e.Retry?)
    ensures NoLostWakeup(Step(s, e)) && |Step(s, e).queue| <= s.max
  {
    hide Accounted, WorkerTurn, DrainTurn, RouseAll;
  }

  lemma SilentKeepsWakeups(s: Pool, e: Event)
    requires Inv(s) && Enabled(s, e) && Silent(e)
    ensures NoLostWakeup(Step(s, e)) && |Step(s, e).queue| <= s.max
  {
    hide Accounted, WorkerTurn, AddTurn;
  }

  lemma StepNoLostWakeup(s: Pool, e: Event)
    requires Inv(s) && Enabled(s, e)
    ensures NoLostWakeup(Step(s, e)) && |Step(s, e).queue| <= s.max
  {
    hide Inv, Enabled, Step, NoLostWakeup;
    if e.Turn? || e.Work? {
      WorkerKeepsWakeups(s, e);
    } else if e.Call? || e.Retry? {
      CallerKeepsWakeups(s, e);
    } else {
      SilentKeepsWakeups(s, e);
    }
  }

  lemma StepInv(s: Pool, e: Event)
    requires Inv(s) && Enabled(s, e)
    ensures Inv(Step(s, e))
  {
    hide Accounted, Stages, NoLostWakeup, Enabled;
    StepAccounted(s, e);
    StepStages(s, e);
    StepNoLostWakeup(s, e);
  }
}

// What the invariants of the pool give over whole runs: jobs are neither lost
// nor run twice, nobody waits for a wakeup that was missed, and a shutdown
// that was started always finishes.
module PoolShutdown {
  import opened PoolProtocol

  lemma InitInv(threads: nat, max: int, callers: nat)
    requires max >= 1
    ensures Inv(Init(threads, max, callers))
  {
    hide Busy;
    forall job
      ensures Busy(Init(threads, max, callers).workers, job) == 0
    {
      BusyIdle(Init(threads, max, callers).workers, job);
    }
  }

  lemma {:induction false} BusyIdle(ws: seq<Worker>, job: Job)
    requires forall i | 0 <= i < |ws| :: !ws[i].Running?
    ensures Busy(ws, job) == 0
  {
    if ws != [] {
      BusyIdle(ws[1..], job);
    }
  }

  lemma {:induction false} RunInv(s: Pool, events: seq<Event>)
    requires Inv(s)
    ensures Inv(Run(s, events))
    decreases |events|
  {
    hide Inv, Enabled, Step;
    if events != [] {
      if Enabled(s, events[0]) {
        StepInv(s, events[0]);
        RunInv(Step(s, events[0]), events[1..]);
      } else {
        RunInv(s, events[1..]);
      }
    }
  }

  // Can this worker go on without being woken?
  predicate Runnable(w: Worker) { w in {Ready, Woken} || w.Running? }

  // No lost wakeup, in every reachable state: while a job is queued every
  // worker is runnable; a blocked caller means a full queue, so the workers
  // that will make room are runnable too; a waiting destroyer means a queued
  // job.
  lemma QueuedJobsAreServed(threads: nat, max: int, callers: nat, events: seq<Event>)
    requires max >= 1
    ensures var s := Run(Init(threads, max, callers), events);
            && (s.queue != [] ==> forall i | 0 <= i < |s.workers| :: Runnable(s.workers[i]))
            && (forall p | 0 <= p < |s.producers| && s.producers[p].Blocked? :: |s.queue| == max)
            && (s.destroyer == Draining ==> s.queue != [])
            && |s.queue| <= max
  {
    hide Run, Accounted;
    InitInv(threads, max, callers);
    RunInv(Init(threads, max, callers), events);
    RunConstants(Init(threads, max, callers), events);
  }

  lemma StepConstants(s: Pool, e: Event)
    requires Enabled(s, e)
    ensures var t := Step(s, e);
            t.max == s.max && |t.workers| == |s.workers| && |t.producers| == |s.producers|
  {
    hide WakeAll, RouseAll;
    if e.Turn? {
      hide AddTurn, DrainTurn;
    } else if e.Call? || e.Retry? {
      hide WorkerTurn, DrainTurn;
    } else {
      hide AddTurn, WorkerTurn;
    }
  }

  lemma {:induction false} RunConstants(s: Pool, events: seq<Event>)
    ensures var t := Run(s, events);
            t.max == s.max && |t.workers| == |s.workers| && |t.producers| == |s.producers|
    decreases |events|
  {
    hide Step, Enabled;
    if events != [] {
      if Enabled(s, events[0]) {
        StepConstants(s, events[0]);
        RunConstants(Step(s, events[0]), events[1..]);
      } else {
        RunConstants(s, events[1..]);
      }
    }
  }

  // Dequeued jobs followed by the queue are the accepted jobs in the order of
  // acceptance, and a dequeued job has run once or is being run.
  lemma ExactlyOnce(threads: nat, max: int, callers: nat, events: seq<Event>)
    requires max >= 1
    ensures var s := Run(Init(threads, max, callers), events);
            && s.accepted == s.taken + s.queue
            && (forall job :: multiset(s.taken)[job] == s.ran[job] + Busy(s.workers, job))
            && (s.poolClose ==> s.queue == [])
            && (s.destroyer == Finished ==> s.ran == multiset(s.accepted) && s.queue == [])
  {
    hide Run, Busy;
    InitInv(threads, max, callers);
    RunInv(Init(threads, max, callers), events);
    var s := Run(Init(threads, max, callers), events);
    if s.destroyer == Finished {
      forall job
        ensures s.ran[job] == multiset(s.accepted)[job]
      {
        BusyIdle(s.workers, job);
      }
      assert s.accepted == s.taken;
    }
  }

  // ---- an open pool accepts ----

  // How many callers are inside add_job with a given job.
  function InsideWith(p: Producer, job: Job): nat { if !p.Outside? && p.job == job then 1 else 0 }

  function Pending(ps: seq<Producer>, job: Job): nat {
    if ps == [] then 0 else InsideWith(ps[0], job) + Pending(ps[1..], job)
  }

  // The jobs with which add_job was called along a run.
  function Requested(s: Pool, events: seq<Event>): multiset<Job>
    decreases |events|
  {
    if events == [] then multiset{}
    else if !Enabled(s, events[0]) then Requested(s, events[1..])
    else (if events[0].Enter? then multiset{events[0].job} else multiset{}) + Requested(Step(s, events[0]), events[1..])
  }

  lemma {:induction false} PendingUpdate(ps: seq<Producer>, p: nat, x: Producer, job: Job)
    requires p < |ps|
    ensures Pending(ps[p := x], job) + InsideWith(ps[p], job) == Pending(ps, job) + InsideWith(x, job)
  {
    if p == 0 {
      assert ps[p := x][1..] == ps[1..];
    } else {
      PendingUpdate(ps[1..], p - 1, x, job);
      assert ps[p := x][1..] == ps[1..][p - 1 := x];
    }
  }

  lemma {:induction false} PendingRouse(ps: seq<Producer>, job: Job)
    ensures Pending(RouseAll(ps), job) == Pending(ps, job)
  {
    if ps != [] {
      PendingRouse(ps[1..], job);
      assert RouseAll(ps)[1..] == RouseAll(ps[1..]);
    }
  }

  lemma {:induction false} NonePending(ps: seq<Producer>, job: Job)
    requires forall i | 0 <= i < |ps| :: ps[i].Outside?
    ensures Pending(ps, job) == 0
  {
    if ps != [] {
      NonePending(ps[1..], job);
    }
  }

  // A turn of a caller on an open pool: its job is accepted or still pending.
  lemma CallerPending(s: Pool, e: Event, job: Job)
    requires Enabled(s, e) && (e.Enter? || e.Call? || e.Retry? || e.SpuriousProducer?)
    requires !s.queueClose && !s.poolClose
    ensures var t := Step(s, e);
            multiset(t.accepted)[job] + Pending(t.producers, job)
            == multiset(s.accepted)[job] + Pending(s.producers, job) + if e.Enter? && e.job == job then 1 else 0
  {
    hide Pending, WorkerTurn, DrainTurn, RouseAll, WakeAll;
    var t := Step(s, e);
    PendingUpdate(s.producers, e.p, t.producers[e.p], job);
  }

  lemma OtherPending(s: Pool, e: Event, job: Job)
    requires Enabled(s, e) && !e.Enter? && !e.Call? && !e.Retry? && !e.SpuriousProducer?
    ensures var t := Step(s, e);
            t.accepted == s.accepted && Pending(t.producers, job) == Pending(s.producers, job)
  {
    hide Pending, AddTurn, RouseAll, WakeAll;
    PendingRouse(s.producers, job);
  }

  lemma OpenAtFirst(s: Pool, events: seq<Event>)
    requires Inv(s) && !Run(s, events).queueClose
    ensures !s.queueClose && !s.poolClose
  {
    if s.queueClose {
      ClosedQueueShrinks(s, events);
    }
    hide Accounted, NoLostWakeup, Run;
  }

  lemma {:induction false} RunPending(s: Pool, events: seq<Event>, job: Job)
    requires Inv(s) && !Run(s, events).queueClose
    ensures var t := Run(s, events);
            multiset(t.accepted)[job] + Pending(t.producers, job)
            == multiset(s.accepted)[job] + Pending(s.producers, job) + Requested(s, events)[job]
    decreases |events|
  {
    hide Inv, Enabled, Step, Pending;
    if events != [] {
      var e := events[0];
      if Enabled(s, e) {
        OpenAtFirst(s, events);
        StepInv(s, e);
        if e.Enter? || e.Call? || e.Retry? || e.SpuriousProducer? {
          CallerPending(s, e, job);
        } else {
          OtherPending(s, e, job);
        }
        RunPending(Step(s, e), events[1..], job);
      } else {
        RunPending(s, events[1..], job);
      }
    }
  }

  // On a pool that was never closed every call that has left had its job
  // accepted: the jobs asked for are those accepted and those still inside.
  lemma OpenPoolAccepts(threads: nat, max: int, callers: nat, events: seq<Event>)
    requires max >= 1
    ensures var s := Run(Init(threads, max, callers), events);
            !s.queueClose ==>
              && (forall job :: multiset(s.accepted)[job] + Pending(s.producers, job)
                                == Requested(Init(threads, max, callers), events)[job])
              && (NobodyInside(s) ==> multiset(s.accepted) == Requested(Init(threads, max, callers), events))
  {
    hide Run, Requested, Inv, Pending;
    var a := Init(threads, max, callers);
    InitInv(threads, max, callers);
    var s := Run(a, events);
    if !s.queueClose {
      forall job
        ensures multiset(s.accepted)[job] + Pending(s.producers, job) == Requested(a, events)[job]
        ensures NobodyInside(s) ==> Pending(s.producers, job) == 0
      {
        RunPending(a, events, job);
        NonePending(a.producers, job);
        if NobodyInside(s) {
          NonePending(s.producers, job);
        }
      }
    }
  }

  // Once the queue is closed nothing is accepted and the queue never grows.
  lemma {:induction false} ClosedQueueShrinks(s: Pool, events: seq<Event>)
    requires Inv(s) && s.queueClose
    ensures var t := Run(s, events);
            t.queueClose && t.accepted == s.accepted && |t.queue| <= |s.queue|
    decreases |events|
  {
    hide Inv;
    if events != [] {
      if Enabled(s, events[0]) {
        StepInv(s, events[0]);
        ClosedStep(s, events[0]);
        ClosedQueueShrinks(Step(s, events[0]), events[1..]);
      } else {
        ClosedQueueShrinks(s, events[1..]);
      }
    }
  }

  lemma ClosedStep(s: Pool, e: Event)
    requires Inv(s) && s.queueClose && Enabled(s, e)
    ensures var t := Step(s, e);
            t.queueClose && t.accepted == s.accepted && |t.queue| <= |s.queue|
  {
    hide Accounted, NoLostWakeup;
  }

  // ---- termination of threadpool_destroy ----

  // A step of a worker or of the destroyer that needs no spurious wakeup.
  predicate Productive(e: Event) {
    e.Turn? || e.Work? || e in {Recheck, AnnounceNotEmpty, AnnounceNotFull, Join, Free}
  }

  predicate Spurious(e: Event) { e.SpuriousWorker? || e.SpuriousProducer? || e.SpuriousDestroyer? }

  // While a shutdown is under way some worker or the destroyer can go on.
  lemma NeverStuck(s: Pool) returns (e: Event)
    requires Inv(s) && |s.workers| >= 1 && s.destroyer !in {NotCalled, Finished}
    ensures Enabled(s, e) && Productive(e)
  {
    hide Accounted;
    match s.destroyer
    case Draining => e := if s.workers[0].Running? then Work(0) else Turn(0);
    case DrainWoken => e := Recheck;
    case Closed => e := AnnounceNotEmpty;
    case Announced => e := AnnounceNotFull;
    case Joining(i) =>
      if i >= |s.workers| {
        e := Free;
      } else if s.workers[i] == Exited {
        e := Join;
      } else {
        e := if s.workers[i].Running? then Work(i) else Turn(i);
      }
  }

  function Weight(w: Worker): nat {
    match w
    case Ready => 1
    case Woken => 1
    case Running(_) => 2
    case Sleeping => 0
    case Exited => 0
  }

  function Weights(ws: seq<Worker>): nat {
    if ws == [] then 0 else Weight(ws[0]) + Weights(ws[1..])
  }

  function Stage(d: Destroyer, n: nat): nat {
    match d
    case NotCalled => 2 * n + 6
    case DrainWoken => 2 * n + 5
    case Draining => 2 * n + 4
    case Closed => 2 * n + 3
    case Announced => n + 2
    case Joining(i) => if i <= n then n + 1 - i else 1
    case Finished => 0
  }

  // Bound on the productive steps left.
  function Measure(s: Pool): nat {
    3 * |s.queue| + Weights(s.workers) + Stage(s.destroyer, |s.workers|)
  }

  lemma {:induction false} WeightsUpdate(ws: seq<Worker>, w: nat, x: Worker)
    requires w < |ws|
    ensures Weights(ws[w := x]) + Weight(ws[w]) == Weights(ws) + Weight(x)
  {
    if w == 0 {
      assert ws[w := x][1..] == ws[1..];
    } else {
      WeightsUpdate(ws[1..], w - 1, x);
      assert ws[w := x][1..] == ws[1..][w - 1 := x];
    }
  }

  lemma {:induction false} WeightsWake(ws: seq<Worker>)
    ensures Weights(WakeAll(ws)) <= Weights(ws) + |ws|
  {
    if ws != [] {
      WeightsWake(ws[1..]);
      assert WakeAll(ws)[1..] == WakeAll(ws[1..]);
    }
  }

  function Count(events: seq<Event>, p: Event -> bool): nat {
    if events == [] then 0 else (if p(events[0]) then 1 else 0) + Count(events[1..], p)
  }

  // Every event is possible when its turn comes.
  predicate Legal(s: Pool, events: seq<Event>)
    decreases |events|
  {
    events == [] || (Enabled(s, events[0]) && Legal(Step(s, events[0]), events[1..]))
  }

  lemma WorkerMeasure(s: Pool, e: Event)
    requires Enabled(s, e) && (e.Turn? || e.Work? || e.SpuriousWorker?)
    ensures !e.SpuriousWorker? ==> Measure(Step(s, e)) < Measure(s)
    ensures e.SpuriousWorker? ==> Measure(Step(s, e)) <= Measure(s) + 1
  {
    hide Weights, RouseAll, AddTurn, DrainTurn, WakeAll;
    WeightsUpdate(s.workers, e.w, Step(s, e).workers[e.w]);
  }

  lemma OtherMeasure(s: Pool, e: Event)
    requires Stages(s) && s.queueClose && Enabled(s, e) && !e.Turn? && !e.Work? && !e.SpuriousWorker?
    ensures Productive(e) ==> Measure(Step(s, e)) < Measure(s)
    ensures Spurious(e) ==> Measure(Step(s, e)) <= Measure(s) + 1
    ensures !Productive(e) && !Spurious(e) ==> Measure(Step(s, e)) <= Measure(s)
  {
    hide Weights, Weight, RouseAll, WorkerTurn, WakeAll;
    WeightsWake(s.workers);
  }

  lemma StepMeasure(s: Pool, e: Event)
    requires Inv(s) && s.queueClose && Enabled(s, e)
    ensures Productive(e) ==> Measure(Step(s, e)) < Measure(s)
    ensures Spurious(e) ==> Measure(Step(s, e)) <= Measure(s) + 1
    ensures !Productive(e) && !Spurious(e) ==> Measure(Step(s, e)) <= Measure(s)
  {
    hide Accounted, NoLostWakeup, Stages, Measure, Step, Enabled;
    if e.Turn? || e.Work? || e.SpuriousWorker? {
      WorkerMeasure(s, e);
    } else {
      OtherMeasure(s, e);
    }
  }

  // After the queue was closed, any run makes at most Measure productive steps
  // plus one for each spurious wakeup, in whatever order threads are scheduled.
  lemma {:induction false} ShutdownIsBounded(s: Pool, events: seq<Event>)
    requires Inv(s) && s.queueClose && Legal(s, events)
    ensures Count(events, Productive) + Measure(Run(s, events)) <= Measure(s) + Count(events, Spurious)
    decreases |events|
  {
    hide Inv, Measure, Enabled, Step, Productive, Spurious;
    if events != [] {
      var e := events[0];
      StepInv(s, e);
      StepMeasure(s, e);
      ProductiveNotSpurious(e);
      ClosedStep(s, e);
      ShutdownIsBounded(Step(s, e), events[1..]);
    }
  }

  lemma ProductiveNotSpurious(e: Event)
    ensures !(Productive(e) && Spurious(e))
  {
  }

  // threadpool_destroy returns 0 exactly where such a run has to stop: when no
  // worker and no destroyer step is left, every accepted job has run once, all
  // workers have exited and the queue it would free is empty.
  lemma ShutdownCompletes(threads: nat, max: int, callers: nat, events: seq<Event>)
    requires max >= 1 && threads >= 1
    ensures var s := Run(Init(threads, max, callers), events);
            s.queueClose && (forall e | Productive(e) :: !Enabled(s, e)) ==>
              && s.destroyer == Finished
              && s.ran == multiset(s.accepted)
              && s.queue == []
              && forall i | 0 <= i < |s.workers| :: s.workers[i] == Exited
  {
    hide Run, Accounted, Busy;
    var s := Run(Init(threads, max, callers), events);
    InitInv(threads, max, callers);
    RunInv(Init(threads, max, callers), events);
    RunConstants(Init(threads, max, callers), events);
    ExactlyOnce(threads, max, callers, events);
    if s.destroyer !in {NotCalled, Finished} {
      var e := NeverStuck(s);
    }
  }

  // ---- callers that still wait when the pool is freed ----

  // No call of add_job is under way.
  predicate NobodyInside(s: Pool) { forall p | 0 <= p < |s.producers| :: s.producers[p].Outside? }

  // No call of add_job begins.
  predicate NoEntry(events: seq<Event>) { forall e | e in events :: !e.Enter? }

  lemma ClosedCaller(s: Pool, e: Event, p: nat)
    requires Inv(s) && s.queueClose && Enabled(s, e) && !e.Enter? && p < |s.producers|
    ensures var t := Step(s, e);
            && |t.producers| == |s.producers|
            && (t.producers[p].Outside? <==> s.producers[p].Outside? || e == Call(p) || e == Retry(p))
  {
    hide Accounted, NoLostWakeup, WakeAll;
  }

  // Once the queue is closed, a call that was under way has left exactly when
  // it got the mutex, for the first time or again.
  lemma {:induction false} CallersLeave(s: Pool, events: seq<Event>, p: nat)
    requires Inv(s) && s.queueClose && Legal(s, events) && NoEntry(events) && p < |s.producers|
    ensures var t := Run(s, events);
            && |t.producers| == |s.producers|
            && (t.producers[p].Outside? <==> s.producers[p].Outside? || Call(p) in events || Retry(p) in events)
    decreases |events|
  {
    hide Inv, Enabled, Step;
    if events != [] {
      var e := events[0];
      StepInv(s, e);
      ClosedStep(s, e);
      ClosedCaller(s, e, p);
      assert events == [e] + events[1..];
      assert forall x | x in events[1..] :: x in events;
      CallersLeave(Step(s, e), events[1..], p);
    }
  }

  // A shutdown can always be finished by workers and destroyer alone.
  lemma {:induction false} CanFinish(s: Pool) returns (events: seq<Event>)
    requires Inv(s) && s.queueClose && |s.workers| >= 1
    ensures Legal(s, events) && Run(s, events).destroyer == Finished
    ensures forall e | e in events :: Productive(e)
    decreases Measure(s)
  {
    hide Inv, Enabled, Measure, Productive, Step;
    events := [];
    if s.destroyer != Finished {
      ClosedIsUnderWay(s);
      var e := NeverStuck(s);
      StepInv(s, e);
      StepMeasure(s, e);
      ClosedStep(s, e);
      StepConstants(s, e);
      var later := CanFinish(Step(s, e));
      events := [e] + later;
      assert events[1..] == later;
    }
  }

  lemma ClosedIsUnderWay(s: Pool)
    requires Inv(s) && s.queueClose
    ensures s.destroyer != NotCalled
  {
    hide Accounted, NoLostWakeup;
  }

  // Workers and destroyer finish the shutdown before caller p gets the mutex.
  lemma OvertakesCaller(s: Pool, p: nat) returns (events: seq<Event>)
    requires Inv(s) && s.queueClose && |s.workers| >= 1
    requires p < |s.producers| && !s.producers[p].Outside?
    ensures Legal(s, events) && NoEntry(events) && Run(s, events).destroyer == Finished
    ensures !NobodyInside(Run(s, events))
  {
    hide Inv, Legal, Run, Productive;
    events := CanFinish(s);
    forall e | e in events
      ensures !e.Enter? && e != Call(p) && e != Retry(p)
    {
      NotOfCallers(e);
    }
    CallersLeave(s, events, p);
  }

  lemma NotOfCallers(e: Event)
    requires Productive(e)
    ensures !e.Enter? && !e.Call? && !e.Retry?
  {
  }

  // If no call of add_job begins after the queue was closed, the pool is freed
  // only with nobody inside, whatever the schedule, if and only if nobody was
  // inside at the close: destroy waits neither for a call blocked on a full
  // queue, which it only broadcasts to, nor for one that has not locked the
  // mutex yet.
  lemma FreeIsSafeIff(s: Pool)
    requires Inv(s) && s.queueClose && |s.workers| >= 1
    ensures NobodyInside(s)
            <==> forall events | Legal(s, events) && NoEntry(events) && Run(s, events).destroyer == Finished ::
                   NobodyInside(Run(s, events))
  {
    hide Inv, Legal, Run, NoEntry;
    if NobodyInside(s) {
      forall events | Legal(s, events) && NoEntry(events) && Run(s, events).destroyer == Finished
        ensures NobodyInside(Run(s, events))
      {
        RunConstants(s, events);
        forall p | 0 <= p < |s.producers|
          ensures Run(s, events).producers[p].Outside?
        {
          CallersLeave(s, events, p);
        }
      }
    } else {
      var p: nat :| p < |s.producers| && !s.producers[p].Outside?;
      var events := OvertakesCaller(s, p);
    }
  }

  // A call that begins after the close, which add_job means to refuse, can lose
  // the same race: as long as there is a thread to make it, no state of a
  // shutdown is safe.
  lemma LateCallIsUnsafe(s: Pool, job: Job) returns (events: seq<Event>)
    requires Inv(s) && s.queueClose && s.destroyer != Finished && |s.workers| >= 1 && |s.producers| >= 1
    ensures Legal(s, events) && Run(s, events).destroyer == Finished
    ensures !NobodyInside(Run(s, events))
  {
    if s.producers[0].Outside? {
      var e := Enter(0, job);
      EnterKeeps(s, job);
      StepInv(s, e);
      hide Inv, NoEntry, NobodyInside, Step, Enabled;
      var later := OvertakesCaller(Step(s, e), 0);
      events := [e] + later;
      assert events[1..] == later;
    } else {
      hide Inv, NoEntry, NobodyInside, Legal, Run;
      events := OvertakesCaller(s, 0);
    }
  }

  lemma EnterKeeps(s: Pool, job: Job)
    requires s.destroyer != Finished && |s.producers| >= 1 && s.producers[0].Outside?
    ensures var e := Enter(0, job);
            && Enabled(s, e)
            && Step(s, e) == s.(producers := s.producers[0 := Entered(job)])
  {
    hide WakeAll, RouseAll, AddTurn, WorkerTurn, DrainTurn;
  }

  lemma OneEvent(s: Pool, e: Event, events: seq<Event>)
    requires Enabled(s, e)
    ensures Run(s, [e] + events) == Run(Step(s, e), events)
  {
    hide Enabled, Step;
    assert ([e] + events)[1..] == events;
  }

  // One worker that never ran, one caller, room for one job.
  function Scene(jobs: seq<Job>, p: Producer): Pool {
    Init(1, 1, 1).(queue := jobs, accepted := jobs, producers := [p])
  }

  lemma SceneCalls(jobs: seq<Job>, job: Job)
    requires |jobs| <= 1
    ensures var s, t := Scene(jobs, Outside), Scene(jobs, Entered(job));
            && Enabled(s, Enter(0, job)) && Step(s, Enter(0, job)) == t
            && Enabled(t, Call(0))
            && Step(t, Call(0)) == if jobs == [] then Scene([job], Outside) else Scene(jobs, Blocked(job))
  {
    hide WorkerTurn, DrainTurn, RouseAll;
    assert Scene(jobs, Outside).workers == [Ready] && WakeAll([Ready]) == [Ready];
  }

  lemma SceneDestroy(jobs: seq<Job>, p: Producer)
    ensures var s := Scene(jobs, p);
            && Enabled(s, Destroy)
            && Step(s, Destroy).queueClose && |Step(s, Destroy).workers| == 1 && Step(s, Destroy).producers == [p]
  {
    hide WorkerTurn, AddTurn;
  }

  // Two calls of add_job by one thread, one after the other.
  function TwoCalls(): seq<Event> { [Enter(0, 7)] + ([Call(0)] + ([Enter(0, 8)] + ([Call(0)] + [Destroy]))) }

  lemma SecondCallWaits()
    ensures Run(Scene([], Outside), TwoCalls()) == Run(Scene([7], Blocked(8)), [Destroy])
  {
    SceneCalls([], 7);
    SceneCalls([7], 8);
    hide Run, Scene, Step, Enabled;
    OneEvent(Scene([], Outside), Enter(0, 7), [Call(0)] + ([Enter(0, 8)] + ([Call(0)] + [Destroy])));
    OneEvent(Scene([], Entered(7)), Call(0), [Enter(0, 8)] + ([Call(0)] + [Destroy]));
    OneEvent(Scene([7], Outside), Enter(0, 8), [Call(0)] + [Destroy]);
    OneEvent(Scene([7], Entered(8)), Call(0), [Destroy]);
  }

  lemma DestroyOnly(jobs: seq<Job>, p: Producer)
    ensures var s := Run(Scene(jobs, p), [Destroy]);
            s.queueClose && |s.workers| == 1 && s.producers == [p]
  {
    SceneDestroy(jobs, p);
    hide *;
    assert [Destroy] + [] == [Destroy];
    OneEvent(Scene(jobs, p), Destroy, []);
    NoEvents(Step(Scene(jobs, p), Destroy));
  }

  // Such a state: the queue of one job is full, a second call waits, and destroy
  // is called.
  lemma CallerWaitsAtDestroy()
    ensures var s := Run(Init(1, 1, 1), TwoCalls());
            Inv(s) && s.queueClose && |s.workers| == 1 && s.producers == [Blocked(8)]
  {
    assert Init(1, 1, 1) == Scene([], Outside);
    hide *;
    InitInv(1, 1, 1);
    RunInv(Init(1, 1, 1), TwoCalls());
    SecondCallWaits();
    DestroyOnly([7], Blocked(8));
  }

  // Another: destroy overtakes a call on its way to the mutex.
  lemma CallerOvertakenByDestroy()
    ensures var s := Run(Init(1, 1, 1), [Enter(0, 7), Destroy]);
            Inv(s) && s.queueClose && |s.workers| == 1 && s.producers == [Entered(7)]
  {
    assert Init(1, 1, 1) == Scene([], Outside);
    SceneCalls([], 7);
    hide *;
    InitInv(1, 1, 1);
    RunInv(Init(1, 1, 1), [Enter(0, 7), Destroy]);
    assert [Enter(0, 7)] + [Destroy] == [Enter(0, 7), Destroy];
    OneEvent(Scene([], Outside), Enter(0, 7), [Destroy]);
    DestroyOnly([], Entered(7));
  }

  lemma NoEvents(s: Pool)
    ensures Run(s, []) == s
  {
  }
}

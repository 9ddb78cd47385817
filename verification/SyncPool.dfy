/**
 The sync pool's job queue and its standby protocol. `JobQueue` is the state behind the lock, one
 method per critical section. The pool is then a state machine over every thread's place in the
 worker loop, with one step per critical section, so any interleaving of threads, submitters,
 spurious wakeups and panics is a run.
 */
module SyncPool {
  import opened Options

  type Job = nat

  // ----- the queue under its lock

  datatype Queue = Queue(jobs: seq<Job>, parked: nat, standby: bool)

  /** `wake_standby`: at most one standby at a time, and only if some thread is parked. */
  function WithStandby(q: Queue): (r: (Queue, bool)) {
    if !q.standby && q.parked > 0 then (q.(standby := true), true) else (q, false)
  }

  /** `submit`: the queue after it, whether the job was accepted, and whether `notify_one` ran. */
  function Submitted(q: Queue, job: Job, capacity: nat): (Queue, bool, bool) {
    if |q.jobs| >= capacity then (q, false, false)
    else var r := WithStandby(q.(jobs := q.jobs + [job])); (r.0, true, r.1)
  }

  /** `take`: the queue after it, the job, and whether `notify_one` ran. */
  function Taken(q: Queue, arrived: bool): (Queue, Option<Job>, bool) {
    var q1 := if arrived then q.(standby := false) else q;
    if q1.jobs == [] then (q1, None, false)
    else
      var q2 := q1.(jobs := q1.jobs[1..]);
      var r := if q2.jobs != [] then WithStandby(q2) else (q2, false);
      (r.0, Some(q1.jobs[0]), r.1)
  }

  /** The first lock section of `wait_for_job`: park on an empty queue, else go on. */
  function Entered(q: Queue): (Queue, bool) {
    if q.jobs == [] then (q.(parked := q.parked + 1), true) else (q, false)
  }

  /** The lock reacquired after a wakeup: a thread that finds nothing stands down and parks again. */
  function Woke(q: Queue): (Queue, bool)
    requires q.parked > 0
  {
    if q.jobs == [] then (q.(standby := false), true) else (q.(parked := q.parked - 1), false)
  }

  class JobQueue {
    var jobs: seq<Job>
    var parked: nat
    var standby: bool
    const capacity: nat

    ghost function State(): Queue
      reads this
    {
      Queue(jobs, parked, standby)
    }

    constructor (queueCapacity: nat)
      ensures State() == Queue([], 0, false)
      ensures capacity == if queueCapacity == 0 then 1 else queueCapacity
    {
      jobs, parked, standby := [], 0, false;
      capacity := if queueCapacity == 0 then 1 else queueCapacity;
    }

    method WakeStandby() returns (notified: bool)
      modifies this
      ensures (State(), notified) == WithStandby(old(State()))
      ensures notified <==> !old(standby) && old(parked) > 0
      ensures State() == Queue(old(jobs), old(parked), old(standby) || old(parked) > 0)
    {
      notified := !standby && parked > 0;
      if notified {
        standby := true;
      }
    }

    method Submit(job: Job) returns (accepted: bool, notified: bool)
      modifies this
      ensures (State(), accepted, notified) == Submitted(old(State()), job, capacity)
      ensures accepted <==> |old(jobs)| < capacity
      ensures accepted ==> State() == Queue(old(jobs) + [job], old(parked), old(standby) || old(parked) > 0)
      ensures !accepted ==> State() == old(State())
      ensures notified <==> accepted && !old(standby) && old(parked) > 0
    {
      if |jobs| >= capacity {
        return false, false;
      }
      jobs := jobs + [job];
      notified := WakeStandby();
      accepted := true;
    }

    method Take(arrived: bool) returns (job: Option<Job>, notified: bool)
      modifies this
      ensures (State(), job, notified) == Taken(old(State()), arrived)
      ensures if old(jobs) == [] then job.None? && jobs == [] else job == Some(old(jobs)[0]) && jobs == old(jobs)[1..]
      ensures notified <==> jobs != [] && (arrived || !old(standby)) && parked > 0
      ensures parked == old(parked) && standby == ((old(standby) && !arrived) || notified)
    {
      if arrived {
        standby := false;
      }
      job, notified := None, false;
      if jobs != [] {
        job := Some(jobs[0]);
        jobs := jobs[1..];
      }
      if jobs != [] {
        notified := WakeStandby();
      }
    }

    /** From taking the lock to waiting on the condition variable, or to leaving the loop. */
    method EnterWait() returns (parks: bool)
      modifies this
      ensures (State(), parks) == Entered(old(State()))
      ensures parks <==> old(jobs) == []
      ensures State() == Queue(old(jobs), old(parked) + (if parks then 1 else 0), old(standby))
    {
      parks := jobs == [];
      if parks {
        parked := parked + 1;
      }
    }

    /** From returning out of the wait to waiting again, or to leaving the loop. */
    method AfterWait() returns (parks: bool)
      requires parked > 0
      modifies this
      ensures (State(), parks) == Woke(old(State()))
      ensures parks <==> old(jobs) == []
      ensures State() == Queue(old(jobs), old(parked) - (if parks then 0 else 1), old(standby) && !parks)
    {
      parked := parked - 1;
      if jobs == [] {
        standby := false;
      }
      parks := EnterWait();
    }
  }

  // ----- the pool

  /** Where a thread is. `Woken` has been notified (or woke spuriously) and still needs the lock;
      `Arriving` has seen work and is on its way to the interpreter lock and `take(true)`. */
  datatype Phase =
    | Outside
    | Waiting
    | Woken
    | Arriving
    | Holding(job: Job)
    | Running(job: Job)
    | Between
    | Gone

  /** `submitted`, `taken` and `started` are histories; `abandoned` holds the jobs whose
      dispatcher stopped waiting. */
  datatype Pool = Pool(
    q: Queue, threads: seq<Phase>,
    submitted: seq<Job>, taken: seq<Job>, started: seq<Job>, abandoned: set<Job>)

  datatype Step =
    | Spawn
    | Submit(job: Job, woken: nat)
    | Enter(t: nat)
    | Spurious(t: nat)
    | Wake(t: nat)
    | Take(t: nat, woken: nat)
    | Begin(t: nat)
    | Done(t: nat)
    | Die(t: nat)
    | Abandon(job: Job)

  predicate Init(p: Pool, threads: nat) {
    p == Pool(Queue([], 0, false), seq(threads, _ => Outside), [], [], [], {})
  }

  predicate At(p: Pool, t: nat, phase: Phase) {
    t < |p.threads| && p.threads[t] == phase
  }

  /** `notify_one`: some waiting thread wakes, or none is waiting and the signal is lost. */
  predicate Notified(threads: seq<Phase>, woken: nat, threads': seq<Phase>) {
    if Waiting in threads
    then woken < |threads| && threads[woken] == Waiting && threads' == threads[woken := Woken]
    else threads' == threads
  }

  predicate Submits(p: Pool, job: Job, woken: nat, capacity: nat, p': Pool) {
    var (q, accepted, notified) := Submitted(p.q, job, capacity);
    && job !in p.submitted
    && (if notified then Notified(p.threads, woken, p'.threads) else p'.threads == p.threads)
    && p' == p.(q := q, threads := p'.threads,
                submitted := if accepted then p.submitted + [job] else p.submitted)
  }

  predicate Enters(p: Pool, t: nat, p': Pool) {
    && At(p, t, Outside)
    && var (q, parks) := Entered(p.q);
       p' == p.(q := q, threads := p.threads[t := if parks then Waiting else Arriving])
  }

  predicate Wakes(p: Pool, t: nat, p': Pool) {
    && At(p, t, Woken) && p.q.parked > 0
    && var (q, parks) := Woke(p.q);
       p' == p.(q := q, threads := p.threads[t := if parks then Waiting else Arriving])
  }

  /** The first take of a burst and the later ones; an empty queue ends the burst. */
  predicate Takes(p: Pool, t: nat, woken: nat, p': Pool) {
    && (At(p, t, Arriving) || At(p, t, Between))
    && var (q, job, notified) := Taken(p.q, p.threads[t].Arriving?);
       var threads := p.threads[t := if job.Some? then Holding(job.value) else Outside];
       && (if notified then Notified(threads, woken, p'.threads) else p'.threads == threads)
       && p' == p.(q := q, threads := p'.threads,
                   taken := if job.Some? then p.taken + [job.value] else p.taken)
  }

  /** `run_sync_job`: an abandoned job is skipped, any other is started. */
  predicate Begins(p: Pool, t: nat, p': Pool) {
    && t < |p.threads| && p.threads[t].Holding?
    && var job := p.threads[t].job;
       p' == if job in p.abandoned then p.(threads := p.threads[t := Between])
             else p.(threads := p.threads[t := Running(job)], started := p.started + [job])
  }

  predicate StepOf(p: Pool, capacity: nat, step: Step, p': Pool) {
    match step
    case Spawn => p' == p.(threads := p.threads + [Outside])
    case Submit(job, woken) => Submits(p, job, woken, capacity, p')
    case Enter(t) => Enters(p, t, p')
    case Spurious(t) => At(p, t, Waiting) && p' == p.(threads := p.threads[t := Woken])
    case Wake(t) => Wakes(p, t, p')
    case Take(t, woken) => Takes(p, t, woken, p')
    case Begin(t) => Begins(p, t, p')
    case Done(t) => t < |p.threads| && p.threads[t].Running? && p' == p.(threads := p.threads[t := Between])
    case Die(t) => t < |p.threads| && p.threads[t].Running? && p' == p.(threads := p.threads[t := Gone])
    case Abandon(job) => p' == p.(abandoned := p.abandoned + {job})
  }

  ghost predicate Next(p: Pool, capacity: nat, p': Pool) {
    exists step :: StepOf(p, capacity, step, p')
  }

  ghost predicate Run(capacity: nat, pools: seq<Pool>) {
    && |pools| > 0 && (exists n :: Init(pools[0], n))
    && forall i :: 0 <= i < |pools| - 1 ==> Next(pools[i], capacity, pools[i + 1])
  }

  // ----- the invariant

  /** Threads the `parked` count includes: a woken thread leaves it only with the lock. */
  function Parked(threads: seq<Phase>): nat {
    if threads == [] then 0
    else Parked(threads[..|threads| - 1])
         + if threads[|threads| - 1] in {Waiting, Woken} then 1 else 0
  }

  lemma {:induction false} ParkedUpdate(threads: seq<Phase>, t: nat, phase: Phase)
    requires t < |threads|
    ensures Parked(threads[t := phase]) + (if threads[t] in {Waiting, Woken} then 1 else 0)
         == Parked(threads) + (if phase in {Waiting, Woken} then 1 else 0)
  {
    var last := |threads| - 1;
    if t == last {
      assert threads[t := phase][..last] == threads[..last];
    } else {
      assert threads[t := phase][..last] == threads[..last][t := phase];
      ParkedUpdate(threads[..last], t, phase);
    }
  }

  lemma {:induction false} ParkedMeansSomeone(threads: seq<Phase>)
    ensures Parked(threads) > 0 <==> Waiting in threads || Woken in threads
  {
    if threads != [] {
      var last := |threads| - 1;
      ParkedMeansSomeone(threads[..last]);
      assert threads == threads[..last] + [threads[last]];
    }
  }

  /** A thread that will reach `take(true)` without waiting for any job to finish. */
  predicate OnItsWay(threads: seq<Phase>) {
    Woken in threads || Arriving in threads
  }

  predicate Inv(p: Pool, capacity: nat) {
    && p.q.parked == Parked(p.threads)
    && (p.q.jobs != [] ==> p.q.standby || p.q.parked == 0)
    && (p.q.standby ==> OnItsWay(p.threads))
    && p.submitted == p.taken + p.q.jobs
    && |p.q.jobs| <= capacity
  }

  lemma NotifiedKeeps(threads: seq<Phase>, woken: nat, threads': seq<Phase>)
    requires Notified(threads, woken, threads') && Parked(threads) > 0
    ensures Parked(threads') == Parked(threads) && Woken in threads'
  {
    ParkedMeansSomeone(threads);
    if Waiting in threads {
      ParkedUpdate(threads, woken, Woken);
      assert threads'[woken] == Woken;
    }
  }

  lemma MoveKeeps(threads: seq<Phase>, t: nat, phase: Phase)
    requires t < |threads|
    ensures Parked(threads[t := phase]) + (if threads[t] in {Waiting, Woken} then 1 else 0)
         == Parked(threads) + (if phase in {Waiting, Woken} then 1 else 0)
    ensures phase in threads[t := phase]
    ensures OnItsWay(threads) && !OnItsWay(threads[t := phase]) ==> threads[t] in {Woken, Arriving}
  {
    ParkedUpdate(threads, t, phase);
    assert threads[t := phase][t] == phase;
    if OnItsWay(threads) && threads[t] !in {Woken, Arriving} {
      var u :| 0 <= u < |threads| && threads[u] in {Woken, Arriving};
      assert threads[t := phase][u] == threads[u];
    }
  }

  lemma SubmitKeeps(p: Pool, job: Job, woken: nat, capacity: nat, p': Pool)
    requires Inv(p, capacity) && Submits(p, job, woken, capacity, p')
    ensures Inv(p', capacity)
  {
    var (q, accepted, notified) := Submitted(p.q, job, capacity);
    if notified { NotifiedKeeps(p.threads, woken, p'.threads); }
  }

  lemma TakeKeeps(p: Pool, t: nat, woken: nat, capacity: nat, p': Pool)
    requires Inv(p, capacity) && Takes(p, t, woken, p')
    ensures Inv(p', capacity)
  {
    var (q, job, notified) := Taken(p.q, p.threads[t].Arriving?);
    var phase := if job.Some? then Holding(job.value) else Outside;
    MoveKeeps(p.threads, t, phase);
    if notified { NotifiedKeeps(p.threads[t := phase], woken, p'.threads); }
  }

  lemma EnterKeeps(p: Pool, t: nat, capacity: nat, p': Pool)
    requires Inv(p, capacity) && (Enters(p, t, p') || Wakes(p, t, p'))
    ensures Inv(p', capacity)
  {
    MoveKeeps(p.threads, t, p'.threads[t]);
  }

  /** A step that only moves one thread, neither into nor out of the parked count, and takes no
      woken or arriving thread off its way. */
  lemma PhaseKeeps(p: Pool, t: nat, phase: Phase, capacity: nat, p': Pool)
    requires Inv(p, capacity) && t < |p.threads| && p'.threads == p.threads[t := phase]
    requires p'.q == p.q && p'.submitted == p.submitted && p'.taken == p.taken
    requires p.threads[t].Waiting? <==> phase.Woken?
    requires !p.threads[t].Woken? && !p.threads[t].Arriving? && !phase.Waiting?
    ensures Inv(p', capacity)
  {
    MoveKeeps(p.threads, t, phase);
  }

  lemma SpawnKeeps(p: Pool, capacity: nat, p': Pool)
    requires Inv(p, capacity) && p' == p.(threads := p.threads + [Outside])
    ensures Inv(p', capacity)
  {
    assert p'.threads[..|p.threads|] == p.threads;
  }

  lemma InvKept(p: Pool, capacity: nat, p': Pool)
    requires Inv(p, capacity) && Next(p, capacity, p')
    ensures Inv(p', capacity)
  {
    var step :| StepOf(p, capacity, step, p');
    StepKeeps(p, capacity, step, p');
  }

  lemma StepKeeps(p: Pool, capacity: nat, step: Step, p': Pool)
    requires Inv(p, capacity) && StepOf(p, capacity, step, p')
    ensures Inv(p', capacity)
  {
    match step
    case Spawn => SpawnKeeps(p, capacity, p');
    case Submit(job, woken) => SubmitKeeps(p, job, woken, capacity, p');
    case Enter(t) => EnterKeeps(p, t, capacity, p');
    case Spurious(t) => PhaseKeeps(p, t, Woken, capacity, p');
    case Wake(t) => EnterKeeps(p, t, capacity, p');
    case Take(t, woken) => TakeKeeps(p, t, woken, capacity, p');
    case Begin(t) => PhaseKeeps(p, t, p'.threads[t], capacity, p');
    case Done(t) => PhaseKeeps(p, t, Between, capacity, p');
    case Die(t) => PhaseKeeps(p, t, Gone, capacity, p');
    case Abandon(_) =>
  }

  lemma {:induction false} NobodyParked(n: nat)
    ensures Parked(seq(n, _ => Outside)) == 0
  {
    if n > 0 {
      assert seq(n, _ => Outside)[..n - 1] == seq(n - 1, _ => Outside);
      NobodyParked(n - 1);
    }
  }

  lemma {:induction false} RunInv(capacity: nat, pools: seq<Pool>, i: nat)
    requires Run(capacity, pools) && i < |pools|
    ensures Inv(pools[i], capacity)
  {
    if i == 0 {
      var n :| Init(pools[0], n);
      NobodyParked(n);
    } else {
      RunInv(capacity, pools, i - 1);
      assert Next(pools[i - 1], capacity, pools[i - 1 + 1]);
      InvKept(pools[i - 1], capacity, pools[i]);
    }
  }

  // ----- what the pool promises

  /** A submission is possible at any time, and a queue with room accepts it: the job goes last. Only a full
      queue refuses, and then nothing changes. A parked thread is notified iff the job was accepted and none
      was on its way for an earlier one. */
  lemma RoomAccepts(p: Pool, job: Job, capacity: nat)
    requires Inv(p, capacity) && job !in p.submitted
    ensures exists woken, p' :: StepOf(p, capacity, Submit(job, woken), p')
    ensures forall woken: nat, p' :: StepOf(p, capacity, Submit(job, woken), p') ==>
              if |p.q.jobs| < capacity then
                && p'.submitted == p.submitted + [job] && p'.q.jobs == p.q.jobs + [job]
                && p'.q.parked == p.q.parked && p'.q.standby == (p.q.standby || p.q.parked > 0)
                && (p'.threads == p.threads
                    || (!p.q.standby && At(p, woken, Waiting) && p'.threads == p.threads[woken := Woken]))
                && (!p.q.standby && Waiting in p.threads ==> p'.threads != p.threads)
              else
                p' == p
  {
    ParkedMeansSomeone(p.threads);
    var (q, accepted, notified) := Submitted(p.q, job, capacity);
    var woken, threads := 0, p.threads;
    if notified && Waiting in threads {
      woken :| 0 <= woken < |threads| && threads[woken] == Waiting;
      threads := threads[woken := Woken];
    }
    var p' := p.(q := q, threads := threads, submitted := if accepted then p.submitted + [job] else p.submitted);
    assert StepOf(p, capacity, Submit(job, woken), p');
    forall w: nat, s | StepOf(p, capacity, Submit(job, w), s) && notified && Waiting in p.threads
      ensures s.threads != p.threads
    {
      assert s.threads[w] == Woken && p.threads[w] == Waiting;
    }
  }

  /** The next step of a thread holding a job starts it, unless whoever asked for it has given up. */
  lemma HeldJobStarts(p: Pool, t: nat, job: Job, capacity: nat)
    requires At(p, t, Holding(job))
    ensures exists p' :: StepOf(p, capacity, Begin(t), p')
    ensures forall p' :: StepOf(p, capacity, Begin(t), p') ==>
              if job in p.abandoned then p'.started == p.started && At(p', t, Between)
              else p'.started == p.started + [job] && At(p', t, Running(job))
  {
    var phase := if job in p.abandoned then Between else Running(job);
    var p' := p.(threads := p.threads[t := phase],
                 started := if job in p.abandoned then p.started else p.started + [job]);
    assert StepOf(p, capacity, Begin(t), p');
  }

  /** A queued job is never stranded behind a sleeping pool: while any thread sleeps, another is
      on its way to it, whatever the running jobs do. */
  lemma QueuedJobIsNeverStranded(capacity: nat, pools: seq<Pool>, i: nat)
    requires Run(capacity, pools) && i < |pools|
    requires pools[i].q.jobs != [] && Waiting in pools[i].threads
    ensures OnItsWay(pools[i].threads)
  {
    RunInv(capacity, pools, i);
    ParkedMeansSomeone(pools[i].threads);
  }

  /** Thread `t` takes the oldest queued job in its next step. */
  ghost predicate TakesTheOldest(p: Pool, t: nat, capacity: nat) {
    p.q.jobs != []
    && exists woken, p' ::
         StepOf(p, capacity, Take(t, woken), p')
         && p'.taken == p.taken + [p.q.jobs[0]] && p'.q.jobs == p.q.jobs[1..]
         && At(p', t, Holding(p.q.jobs[0]))
  }

  /** A thread that is not inside a job takes the oldest job in at most two steps, both its own. */
  lemma FreeThreadTakesTheOldestJob(p: Pool, t: nat, capacity: nat)
    requires Inv(p, capacity) && p.q.jobs != [] && t < |p.threads|
    requires p.threads[t] in {Outside, Woken, Arriving, Between}
    ensures exists m ::
              && (m == p || StepOf(p, capacity, Enter(t), m) || StepOf(p, capacity, Wake(t), m))
              && m.taken == p.taken && m.q.jobs == p.q.jobs
              && TakesTheOldest(m, t, capacity)
  {
    var m := p;
    if p.threads[t] == Outside {
      m := p.(threads := p.threads[t := Arriving]);
      assert StepOf(p, capacity, Enter(t), m);
    } else if p.threads[t] == Woken {
      ParkedMeansSomeone(p.threads);
      assert p.threads[t] in p.threads;
      m := p.(q := Woke(p.q).0, threads := p.threads[t := Arriving]);
      assert StepOf(p, capacity, Wake(t), m);
    }
    TakeIsPossible(m, t, capacity);
  }

  lemma TakeIsPossible(p: Pool, t: nat, capacity: nat)
    requires p.q.jobs != [] && t < |p.threads| && p.threads[t] in {Arriving, Between}
    ensures TakesTheOldest(p, t, capacity)
  {
    var (q, job, notified) := Taken(p.q, p.threads[t].Arriving?);
    var threads := p.threads[t := Holding(job.value)];
    var woken := 0;
    if notified && Waiting in threads {
      woken :| 0 <= woken < |threads| && threads[woken] == Waiting;
      threads := threads[woken := Woken];
    }
    var p' := p.(q := q, threads := threads, taken := p.taken + [job.value]);
    assert StepOf(p, capacity, Take(t, woken), p');
  }

  /** So a job can wait only while every live thread is busy with another job. */
  lemma JobWaitsOnlyBehindBusyThreads(capacity: nat, pools: seq<Pool>, i: nat)
    requires Run(capacity, pools) && i < |pools| && pools[i].q.jobs != []
    ensures (exists t :: 0 <= t < |pools[i].threads| && pools[i].threads[t] in {Outside, Woken, Arriving, Between})
            || forall phase :: phase in pools[i].threads ==> phase.Holding? || phase.Running? || phase.Gone?
  {
    RunInv(capacity, pools, i);
    ParkedMeansSomeone(pools[i].threads);
  }

  /** Jobs leave in the order they were accepted, each at most once, and never more than
      `capacity` wait. */
  lemma JobsLeaveInOrder(capacity: nat, pools: seq<Pool>, i: nat)
    requires Run(capacity, pools) && i < |pools|
    ensures pools[i].taken <= pools[i].submitted
    ensures pools[i].submitted[|pools[i].taken|..] == pools[i].q.jobs
    ensures |pools[i].q.jobs| <= capacity
    ensures forall j, k :: 0 <= j < k < |pools[i].submitted| ==> pools[i].submitted[j] != pools[i].submitted[k]
  {
    RunInv(capacity, pools, i);
    AcceptedOnce(capacity, pools, i);
  }

  lemma {:induction false} AcceptedOnce(capacity: nat, pools: seq<Pool>, i: nat)
    requires Run(capacity, pools) && i < |pools|
    ensures forall j, k :: 0 <= j < k < |pools[i].submitted| ==> pools[i].submitted[j] != pools[i].submitted[k]
  {
    if i > 0 {
      AcceptedOnce(capacity, pools, i - 1);
      assert Next(pools[i - 1], capacity, pools[i - 1 + 1]);
    }
  }

  lemma StepNeverStartsAbandoned(p: Pool, capacity: nat, p': Pool, job: Job)
    requires Next(p, capacity, p') && job in p.abandoned && job !in p.started
    ensures job in p'.abandoned && job !in p'.started
  {
    var step :| StepOf(p, capacity, step, p');
  }

  /** A job abandoned before it starts is never run as a zombie. */
  lemma {:induction false} AbandonedJobNeverStarts(capacity: nat, pools: seq<Pool>, i: nat, j: nat, job: Job)
    requires Run(capacity, pools) && i <= j < |pools|
    requires job in pools[i].abandoned && job !in pools[i].started
    ensures job in pools[j].abandoned && job !in pools[j].started
    decreases j
  {
    if i < j {
      AbandonedJobNeverStarts(capacity, pools, i, j - 1, job);
      assert Next(pools[j - 1], capacity, pools[j - 1 + 1]);
      StepNeverStartsAbandoned(pools[j - 1], capacity, pools[j], job);
    }
  }
}

/** The background job queue of bio.c for one type of job: submitters, waiters and the worker, interleaved
    at every point where the lock changes hands. */
module Bio {
  type Job = nat

  /** What the worker is doing. Holding means that it has the lock and stands at the top of its loop; with
      Running it works on the head of the queue without the lock; Waiting is pthread_cond_wait. */
  datatype Worker = Starting | Holding | Waiting | Running(job: Job) | Done(job: Job)

  /** What another thread is doing: submitting a job, or waiting for a step with bioWaitStepOfType. */
  datatype Client =
    | Free
    | Adding(job: Job)      // has the lock, has not yet added its job
    | Counting(job: Job)    // has added it, has not yet counted it
    | Reading               // has the lock in bioPendingJobsOfType or bioWaitStepOfType
    | Blocked               // in pthread_cond_wait on bio_step_cond
    | Returned(value: nat)

  datatype Owner = Nobody | TheWorker | TheClient(id: nat)

  /** bio_jobs, bio_pending and the mutex; submitted and finished record what happened so far. */
  datatype State = State(
    jobs: seq<Job>, pending: nat, owner: Owner, worker: Worker, clients: map<nat, Client>,
    submitted: seq<Job>, finished: seq<Job>)

  const START := State([], 0, Nobody, Starting, map[], [], [])

  datatype Event =
    | LockToSubmit(id: nat, job: Job)
    | AddJob(id: nat)
    | CountAndUnlock(id: nat)
    | LockToRead(id: nat)
    | ReadPending(id: nat, wait: bool)
    | WakeWaiter(id: nat)
    | WorkerLock
    | WorkerSleep
    | WorkerTake
    | WorkerProcess
    | WorkerRemove

  function ClientOf(s: State, id: nat): Client {
    if id in s.clients then s.clients[id] else Free
  }

  predicate Enabled(s: State, e: Event) {
    match e
    case LockToSubmit(id, _) => s.owner == Nobody && (ClientOf(s, id).Free? || ClientOf(s, id).Returned?)
    case AddJob(id) => s.owner == TheClient(id) && ClientOf(s, id).Adding?
    case CountAndUnlock(id) => s.owner == TheClient(id) && ClientOf(s, id).Counting?
    case LockToRead(id) => s.owner == Nobody && (ClientOf(s, id).Free? || ClientOf(s, id).Returned?)
    case ReadPending(id, _) => s.owner == TheClient(id) && ClientOf(s, id).Reading?
    // A waiter gets the lock back after a broadcast, or for no reason, and reads the counter.
    case WakeWaiter(id) => s.owner == Nobody && ClientOf(s, id).Blocked?
    // At the start, after a signal or a spurious wakeup, and after a job.
    case WorkerLock => s.owner == Nobody && (s.worker.Starting? || s.worker.Waiting? || s.worker.Done?)
    case WorkerSleep => s.owner == TheWorker && s.worker.Holding? && s.jobs == []
    case WorkerTake => s.owner == TheWorker && s.worker.Holding? && s.jobs != []
    case WorkerProcess => s.worker.Running?
    case WorkerRemove => s.owner == TheWorker && s.worker.Done?
  }

  function Next(s: State, e: Event): State
    requires Enabled(s, e)
  {
    match e
    case LockToSubmit(id, job) => s.(owner := TheClient(id), clients := s.clients[id := Adding(job)])
    case AddJob(id) =>
      var job := ClientOf(s, id).job;
      s.(jobs := s.jobs + [job], submitted := s.submitted + [job], clients := s.clients[id := Counting(job)])
    case CountAndUnlock(id) => s.(pending := s.pending + 1, owner := Nobody, clients := s.clients[id := Free])
    case LockToRead(id) => s.(owner := TheClient(id), clients := s.clients[id := Reading])
    case ReadPending(id, wait) =>
      s.(owner := Nobody, clients := s.clients[id := if wait && s.pending != 0 then Blocked else Returned(s.pending)])
    case WakeWaiter(id) => s.(clients := s.clients[id := Returned(s.pending)])
    case WorkerLock => s.(owner := TheWorker, worker := if s.worker.Done? then s.worker else Holding)
    case WorkerSleep => s.(owner := Nobody, worker := Waiting)
    case WorkerTake => s.(owner := Nobody, worker := Running(s.jobs[0]))
    case WorkerProcess => s.(worker := Done(s.worker.job), finished := s.finished + [s.worker.job])
    case WorkerRemove =>
      s.(jobs := if s.jobs == [] then [] else s.jobs[1..],
         pending := if s.pending == 0 then 0 else s.pending - 1,
         worker := Holding)
  }

  // ----- what every reachable state keeps

  // The client that holds the lock has added its job and not yet counted it.
  predicate MidSubmit(s: State) {
    s.owner.TheClient? && ClientOf(s, s.owner.id).Counting?
  }

  // Jobs that are in the queue but already finished: the head, between its end and its removal.
  function Lingering(s: State): nat {
    if s.worker.Done? then 1 else 0
  }

  predicate Inv(s: State) {
    // the counter
    && s.pending + (if MidSubmit(s) then 1 else 0) == |s.jobs|
    // the running job is the head of the queue
    && (s.worker.Running? || s.worker.Done? ==> s.jobs != [] && s.jobs[0] == s.worker.job)
    // jobs are finished once each, in the order of submission
    && Lingering(s) <= |s.finished|
    && s.submitted == s.finished[..|s.finished| - Lingering(s)] + s.jobs
    && (s.worker.Done? ==> s.finished[|s.finished| - 1] == s.worker.job)
    // the lock
    && (s.owner == TheWorker ==> s.worker.Holding? || s.worker.Done?)
    && (s.worker.Holding? ==> s.owner == TheWorker)
    && forall id :: id in s.clients && (s.clients[id].Adding? || s.clients[id].Counting? || s.clients[id].Reading?)
         ==> s.owner == TheClient(id)
  }

  lemma NextKeeps(s: State, e: Event)
    requires Inv(s) && Enabled(s, e)
    ensures Inv(Next(s, e))
  {
    var s' := Next(s, e);
    var done := s.finished[..|s.finished| - Lingering(s)];
    match e {
      case AddJob(id) =>
        assert done + (s.jobs + [s.clients[id].job]) == (done + s.jobs) + [s.clients[id].job];
      case WorkerProcess =>
        assert s'.finished[..|s.finished|] == s.finished;
      case WorkerRemove =>
        assert s.finished == done + [s.worker.job];
        assert done + s.jobs == s.finished + s.jobs[1..];
      case _ =>
    }
  }

  /** The worker only removes a job that is there and counted, so the unsigned counter never wraps. */
  lemma NeverBelowZero(s: State)
    requires Inv(s) && Enabled(s, WorkerRemove)
    ensures s.jobs != [] && s.pending > 0
  {
  }

  predicate IsRun(states: seq<State>, es: seq<Event>) {
    && |states| == |es| + 1
    && states[0] == START
    && forall i :: 0 <= i < |es| ==> Enabled(states[i], es[i]) && states[i + 1] == Next(states[i], es[i])
  }

  lemma {:induction false} RunKeeps(states: seq<State>, es: seq<Event>, k: nat)
    requires IsRun(states, es) && k < |states|
    ensures Inv(states[k])
    decreases k
  {
    if k > 0 {
      RunKeeps(states, es, k - 1);
      assert Enabled(states[k - 1], es[k - 1]);
      NextKeeps(states[k - 1], es[k - 1]);
    }
  }

  /** Whenever the lock is free the counter is the length of the queue, and a counter of zero means that every
      submitted job has finished; jobs finish once each in the order of submission. */
  lemma QueueIsFair(states: seq<State>, es: seq<Event>, k: nat)
    requires IsRun(states, es) && k < |states|
    ensures states[k].finished <= states[k].submitted
    ensures states[k].owner == Nobody ==> states[k].pending == |states[k].jobs|
    ensures states[k].owner == Nobody && states[k].pending == 0 ==> states[k].finished == states[k].submitted
  {
    RunKeeps(states, es, k);
    var s := states[k];
    var n := |s.finished| - Lingering(s);
    if s.worker.Done? {
      assert s.finished == s.finished[..n] + [s.jobs[0]];
    } else {
      assert s.finished[..n] == s.finished;
    }
  }

  /** A caller that is told zero pending jobs knows that every job submitted so far has finished. */
  lemma ZeroMeansIdle(states: seq<State>, es: seq<Event>, k: nat, id: nat)
    requires IsRun(states, es) && k < |es| && (es[k] == WakeWaiter(id) || (es[k].ReadPending? && es[k].id == id))
    requires ClientOf(states[k + 1], id) == Returned(0)
    ensures states[k + 1].finished == states[k + 1].submitted
  {
    RunKeeps(states, es, k);
    assert Enabled(states[k], es[k]) && states[k + 1] == Next(states[k], es[k]);
    var s := states[k];
    assert s.pending == 0 && !MidSubmit(s);
    assert s.jobs == [] && s.finished[..|s.finished|] == s.finished;
  }

  /** What a caller is told is the number of jobs in the queue at that moment, finished or not: those submitted so far
      that the worker has not removed. It is told at once unless it waits and there are some. */
  lemma ToldIsQueued(states: seq<State>, es: seq<Event>, k: nat, id: nat)
    requires IsRun(states, es) && k < |es| && (es[k] == WakeWaiter(id) || (es[k].ReadPending? && es[k].id == id))
    ensures var s, c := states[k], ClientOf(states[k + 1], id);
      && (c.Returned? ==> c.value == |s.jobs|)
      && (es[k].ReadPending? ==> if es[k].wait && s.jobs != [] then c.Blocked? else c.Returned?)
      && (es[k].WakeWaiter? ==> c.Returned?)
      && s.jobs == states[k + 1].jobs && |s.jobs| + |s.finished| == |s.submitted| + Lingering(s)
  {
    RunKeeps(states, es, k);
    assert Enabled(states[k], es[k]) && states[k + 1] == Next(states[k], es[k]);
    assert !MidSubmit(states[k]);
  }

  /** The job being processed stays the head of the queue until the worker removes it. */
  lemma HeadStays(states: seq<State>, es: seq<Event>, k: nat)
    requires IsRun(states, es) && k < |es| && states[k].worker.Running?
    ensures states[k + 1].jobs != [] && states[k + 1].jobs[0] == states[k].worker.job
  {
    RunKeeps(states, es, k);
    assert Enabled(states[k], es[k]) && states[k + 1] == Next(states[k], es[k]);
  }
}

/**
 * The queue with any number of workers: Redis plus the runs in progress. A `Task` is one
 * invocation of `process_queue`; `held` maps it to its own copy of the job it dequeued.
 */
module QueueProtocol {
  import opened Common
  import opened QueueStore

  type Task = nat

  /** A dequeued job; `running` once the attempt has been counted. */
  datatype Held = Held(job: Job, running: bool)

  datatype System = System(store: Store, held: map<Task, Held>)

  datatype Step =
    | DoEnqueue(job: Job)
    | DoSchedule(now: real, lock: real, due: seq<Id>)
    | DoDequeue(task: Task)
    | DoDrop(task: Task)                        // crash, rejected job, or a cancelled run left behind
    | DoStart(task: Task)
    | DoUpdate(task: Task)                      // heartbeat from inside the job
    | DoEnd(task: Task, outcome: Outcome)
    | DoReschedule(task: Task, wait: real)
    | DoAbort(job: Job, ttl: int)
    | DoAbortRun(task: Task)
    | DoSweepLock(lock: real)
    | DoSweep(id: Id, overdue: bool)
    | DoCheckStuck(id: Id, cron: bool)
    | DoTick(t: real)
    // a copy of a job that no live run owns: late writes of crashed, aborted or swept runs
    | StrayFinish(job: Job, status: Status)
    | StrayRetry(job: Job, delay: real)
    | StrayReschedule(job: Job, wait: real)
    | StrayUpdate(job: Job)

  /** A delay that is used is a moment after the epoch's first second. */
  predicate DelayOk(s: Store, delay: real) {
    delay != 0.0 ==> s.clock + delay >= 1.0
  }

  predicate OutcomeOk(s: Store, outcome: Outcome) {
    DelayOk(s, DelayOf(outcome))
  }

  /** What the code itself needs to take the step. */
  ghost predicate Enabled(s: System, step: Step) {
    match step
    case DoEnqueue(_) => true
    case DoSchedule(now, lock, due) => now <= s.store.clock && lock > 0.0 && IsDueListing(s.store, now, due)
    case DoDequeue(task) => task !in s.held && s.store.queued != []
    case DoDrop(task) => task in s.held
    case DoStart(task) => task in s.held && !s.held[task].running
    case DoUpdate(task) => task in s.held && s.held[task].running
    case DoEnd(task, outcome) => task in s.held && s.held[task].running && OutcomeOk(s.store, outcome)
    case DoReschedule(task, wait) => task in s.held && s.held[task].running && s.store.clock + wait >= 1.0
    case DoAbort(_, ttl) => ttl > 0
    case DoAbortRun(task) => task in s.held && s.held[task].running && s.held[task].job.id in s.store.aborts
    case DoSweepLock(lock) => lock > 0.0
    case DoSweep(_, _) => true
    case DoCheckStuck(_, _) => true
    case DoTick(t) => s.store.clock <= t
    case StrayFinish(_, _) => true
    case StrayRetry(_, delay) => DelayOk(s.store, delay)
    case StrayReschedule(_, wait) => s.store.clock + wait >= 1.0
    case StrayUpdate(_) => true
  }

  function Apply(s: System, step: Step): System
    requires Enabled(s, step)
  {
    match step
    case DoEnqueue(job) => s.(store := Enqueue(s.store, job))
    case DoSchedule(now, lock, due) => s.(store := Schedule(s.store, lock, due))
    case DoDequeue(task) =>
      var id := Next(s.store);
      // a missing record raises in deserialize: the id stays active and nobody holds it
      System(Dequeue(s.store),
             if id in s.store.records then s.held[task := Held(s.store.records[id].job, false)] else s.held)
    case DoDrop(task) => s.(held := s.held - {task})
    case DoStart(task) =>
      var job := Started(s.held[task].job);
      System(Update(s.store, job), s.held[task := Held(job, true)])
    case DoUpdate(task) => s.(store := Update(s.store, s.held[task].job))
    case DoEnd(task, outcome) => System(EndRun(s.store, s.held[task].job, outcome), s.held - {task})
    case DoReschedule(task, wait) => System(Reschedule(s.store, s.held[task].job, wait), s.held - {task})
    case DoAbort(job, ttl) => s.(store := Abort(s.store, job, ttl))
    case DoAbortRun(task) => System(AbortRun(s.store, s.held[task].job), s.held - {task})
    case DoSweepLock(lock) => s.(store := TakeSweepLock(s.store, lock))
    case DoSweep(id, overdue) => s.(store := SweepOne(s.store, id, overdue))
    case DoCheckStuck(id, cron) => s.(store := CheckStuck(s.store, id, cron))
    case DoTick(t) => s.(store := Tick(s.store, t))
    case StrayFinish(job, status) => s.(store := Finish(s.store, job, status))
    case StrayRetry(job, delay) => s.(store := Retry(s.store, job, delay))
    case StrayReschedule(job, wait) => s.(store := Reschedule(s.store, job, wait))
    case StrayUpdate(job) => s.(store := Update(s.store, job))
  }

  ghost predicate Holds(s: System, task: Task, id: Id) {
    task in s.held && s.held[task].job.id == id
  }

  ghost predicate IsHeld(s: System, id: Id) {
    exists task :: Holds(s, task, id)
  }

  /** The immediate branch of `retry` is taken only by a job without a schedule of its own. */
  predicate ImmediateOk(job: Job, outcome: Outcome) {
    Retries(job, outcome) && DelayOf(outcome) == 0.0 ==> job.scheduled == 0
  }

  /**
   * What the ownership results assume of a step: no stray copies and no stuck checker, the
   * sweep takes only active ids that no run holds, an abort key outlives the run it aborts
   * (one that lapses under a holder belongs to a job that was put back and is active again),
   * and an immediate retry is of an unscheduled job.
   */
  ghost predicate Disciplined(s: System, step: Step) {
    match step
    case DoEnd(task, outcome) => task in s.held && ImmediateOk(s.held[task].job, outcome)
    case DoSweep(id, _) => id in s.store.active && !IsHeld(s, id)
    case DoTick(t) =>
      forall id :: id in s.store.aborts && s.store.aborts[id] <= t && IsHeld(s, id) ==> id in s.store.active
    case DoCheckStuck(_, _) => false
    case StrayFinish(_, _) => false
    case StrayRetry(_, _) => false
    case StrayReschedule(_, _) => false
    case StrayUpdate(_) => false
    case _ => true
  }

  /** A finite run: states[i] goes to states[i + 1] by steps[i]. */
  datatype Run = Run(states: seq<System>, steps: seq<Step>)

  ghost predicate IsRun(r: Run) {
    && |r.states| == |r.steps| + 1
    && forall i :: 0 <= i < |r.steps| ==>
         Enabled(r.states[i], r.steps[i]) && r.states[i + 1] == Apply(r.states[i], r.steps[i])
  }

  ghost predicate IsDisciplinedRun(r: Run) {
    && IsRun(r)
    && forall i :: 0 <= i < |r.steps| ==> Disciplined(r.states[i], r.steps[i])
  }

  ghost predicate StartsEmpty(r: Run) {
    |r.states| > 0 && IsEmpty(r.states[0].store) && r.states[0].held == map[]
  }
}

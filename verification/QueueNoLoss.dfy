/**
 * No job is lost: whatever the workers do, an id marked as runnable is in one of the lists.
 * This needs none of the ownership assumptions.
 */
module QueueNoLoss {
  import opened Common
  import opened QueueStore
  import opened QueueEffects
  import opened QueueProtocol

  ghost predicate NothingLost(s: Store) {
    forall id :: Ready(s, id) ==> Occurrences(s, id) > 0
  }

  lemma LocalStep(s: Store, s': Store, id: Id)
    requires NothingLost(s) && TouchesOnly(s, s', id)
    requires Ready(s', id) ==> Occurrences(s', id) > 0
    ensures NothingLost(s')
  {
    forall x | Ready(s', x) ensures Occurrences(s', x) > 0 {
      if x != id {
        assert SameFor(s, s', x);
        assert Ready(s, x);
      }
    }
  }

  lemma SameListsKeep(s: Store, s': Store)
    requires NothingLost(s)
    requires s'.incomplete == s.incomplete && s'.queued == s.queued && s'.active == s.active
    ensures NothingLost(s')
  {
    assert forall x :: Ready(s', x) ==> Ready(s, x);
  }

  lemma FinishKeeps(s: Store, job: Job, status: Status)
    requires NothingLost(s)
    ensures NothingLost(Finish(s, job, status))
  {
    FinishEffect(s, job, status);
    LocalStep(s, Finish(s, job, status), job.id);
  }

  lemma RetryKeeps(s: Store, job: Job, delay: real)
    requires NothingLost(s) && DelayOk(s, delay)
    ensures NothingLost(Retry(s, job, delay))
  {
    RetryEffect(s, job, delay);
    LocalStep(s, Retry(s, job, delay), job.id);
  }

  lemma RescheduleKeeps(s: Store, job: Job, wait: real)
    requires NothingLost(s) && s.clock + wait >= 1.0
    ensures NothingLost(Reschedule(s, job, wait))
  {
    RescheduleEffect(s, job, wait);
    LocalStep(s, Reschedule(s, job, wait), job.id);
  }

  lemma SweepKeeps(s: Store, id: Id, overdue: bool)
    requires NothingLost(s)
    ensures NothingLost(SweepOne(s, id, overdue))
  {
    if id in s.records {
      FinishKeeps(s, s.records[id].job, Aborted);
    } else {
      SweepMissingEffect(s, id, overdue);
      LocalStep(s, SweepOne(s, id, overdue), id);
    }
  }

  lemma ScheduleKeeps(s: Store, now: real, lock: real, due: seq<Id>)
    requires NothingLost(s) && IsDueListing(s, now, due)
    ensures NothingLost(Schedule(s, lock, due))
  {
    if s.scheduleLock.None? {
      var s' := Schedule(s, lock, due);
      ScheduleEffect(s, now, lock, due);
      forall x | Ready(s', x) ensures Occurrences(s', x) > 0 {
        if x !in due {
          assert SameFor(s, s', x);
          assert Ready(s, x);
        }
      }
    }
  }

  lemma EndKeeps(s: Store, job: Job, outcome: Outcome)
    requires NothingLost(s) && OutcomeOk(s, outcome)
    ensures NothingLost(EndRun(s, job, outcome))
  {
    match outcome
    case Returned => FinishKeeps(s, job, Complete);
    case Raised(_, delay) =>
      FinishKeeps(s, job, Failed);
      FinishKeeps(s, job.(retries := 0), Failed);
      RetryKeeps(s, job, delay);
    case Cancelled(_, delay) => RetryKeeps(s, job, delay);
  }

  /** Every step of the code, disciplined or not, keeps every runnable id in a list. */
  lemma NoLossStep(s: System, step: Step)
    requires NothingLost(s.store) && Enabled(s, step)
    ensures NothingLost(Apply(s, step).store)
  {
    match step
    case DoEnqueue(job) =>
      if Accepts(s.store, job.id) {
        EnqueueEffect(s.store, job);
        LocalStep(s.store, Enqueue(s.store, job), job.id);
      }
    case DoSchedule(now, lock, due) => ScheduleKeeps(s.store, now, lock, due);
    case DoDequeue(task) =>
      DequeueEffect(s.store);
      LocalStep(s.store, Dequeue(s.store), Next(s.store));
    case DoEnd(task, outcome) => EndKeeps(s.store, s.held[task].job, outcome);
    case DoReschedule(task, wait) => RescheduleKeeps(s.store, s.held[task].job, wait);
    case DoAbort(job, ttl) =>
      AbortEffect(s.store, job, ttl);
      LocalStep(s.store, Abort(s.store, job, ttl), job.id);
    case DoAbortRun(task) =>
      AbortRunEffect(s.store, s.held[task].job);
      LocalStep(s.store, AbortRun(s.store, s.held[task].job), s.held[task].job.id);
    case DoSweep(id, overdue) => SweepKeeps(s.store, id, overdue);
    case DoCheckStuck(id, cron) =>
      if LooksStuck(s.store, id, cron) && id in s.store.stuck {
        RequeueStuckEffect(s.store, id, cron);
        LocalStep(s.store, CheckStuck(s.store, id, cron), id);
      } else {
        SameListsKeep(s.store, CheckStuck(s.store, id, cron));
      }
    case StrayFinish(job, status) => FinishKeeps(s.store, job, status);
    case StrayRetry(job, delay) => RetryKeeps(s.store, job, delay);
    case StrayReschedule(job, wait) => RescheduleKeeps(s.store, job, wait);
    case _ => SameListsKeep(s.store, Apply(s, step).store);
  }

  /** In every state of every run from the empty queue, each runnable id is queued or active. */
  lemma {:induction false} NoJobIsLost(r: Run, i: nat)
    requires IsRun(r) && StartsEmpty(r) && i < |r.states|
    ensures forall id :: Ready(r.states[i].store, id) ==>
        id in r.states[i].store.queued || id in r.states[i].store.active
    ensures NothingLost(r.states[i].store)
  {
    if i > 0 {
      NoJobIsLost(r, i - 1);
      NoLossStep(r.states[i - 1], r.steps[i - 1]);
    }
    var s := r.states[i].store;
    forall id | Ready(s, id) ensures id in s.queued || id in s.active {
      CountPositive(s.queued, id);
      CountPositive(s.active, id);
    }
  }
}

/**
 * Scheduling: an id that waits for its time is queued by a scheduling pass that is late
 * enough, once per (re)scheduling, and passes keep their distance.
 */
module QueueTimers {
  import opened Common
  import opened QueueStore
  import opened QueueEffects
  import opened QueueProtocol
  import opened QueueOwnership

  /** The id waits for the moment given by its score. */
  ghost predicate Waiting(s: System, id: Id) {
    id in s.store.incomplete && s.store.incomplete[id] >= 1.0
  }

  datatype Event =
    | TimerSet        // an accepted enqueue with a schedule, a delayed retry, or a reschedule
    | TimerFired      // a scheduling pass moves the id to the queue
    | TimerCancelled  // the id is aborted while it waits

  ghost predicate Happens(e: Event, s: System, step: Step, id: Id) {
    match e
    case TimerSet =>
      (match step
       case DoEnqueue(job) => job.id == id && Accepts(s.store, id) && job.scheduled >= 1
       case DoEnd(task, outcome) => Holds(s, task, id) && Retries(s.held[task].job, outcome) && DelayOf(outcome) != 0.0
       case DoReschedule(task, _) => Holds(s, task, id)
       case _ => false)
    case TimerFired => step.DoSchedule? && s.store.scheduleLock.None? && id in step.due
    case TimerCancelled => step.DoAbort? && step.job.id == id && Waiting(s, id)
  }

  /** The three events are the only ways in and out of waiting, and they never coincide. */
  ghost predicate TimerLaw(s: System, step: Step, s': System, id: Id) {
    && (Happens(TimerSet, s, step, id) ==> !Waiting(s, id) && Waiting(s', id))
    && (Happens(TimerFired, s, step, id) ==>
          Waiting(s, id) && s.store.incomplete[id] <= s.store.clock && !Waiting(s', id) &&
              Count(s'.store.queued, id) == 1)
    && (Happens(TimerCancelled, s, step, id) ==> !Waiting(s', id))
    && (Waiting(s, id) && !Happens(TimerFired, s, step, id) && !Happens(TimerCancelled, s, step, id) ==>
          Waiting(s', id) && s'.store.incomplete[id] == s.store.incomplete[id])
    && (!Waiting(s, id) && !Happens(TimerSet, s, step, id) ==> !Waiting(s', id))
  }

  lemma TimerStepEnd(s: System, step: Step, id: Id)
    requires Owned(s) && Enabled(s, step) && Disciplined(s, step) && step.DoEnd?
    ensures TimerLaw(s, step, Apply(s, step), id)
  {
    var job := s.held[step.task].job;
    assert Holds(s, step.task, job.id);
    UnheldUnlessAnchored(s, job.id);
    match step.outcome {
      case Returned => FinishEffect(s.store, job, Complete);
      case Raised(_, delay) =>
        FinishEffect(s.store, job, Failed);
        FinishEffect(s.store, job.(retries := 0), Failed);
        RetryEffect(s.store, job, delay);
      case Cancelled(_, delay) => RetryEffect(s.store, job, delay);
    }
  }

  lemma TimerStepRelease(s: System, step: Step, id: Id)
    requires Owned(s) && Enabled(s, step) && (step.DoReschedule? || step.DoAbortRun?)
    ensures TimerLaw(s, step, Apply(s, step), id)
  {
    var job := s.held[step.task].job;
    assert Holds(s, step.task, job.id);
    UnheldUnlessAnchored(s, job.id);
    if step.DoReschedule? {
      RescheduleEffect(s.store, job, step.wait);
    } else {
      AbortRunEffect(s.store, job);
    }
  }

  lemma TimerStep(s: System, step: Step, id: Id)
    requires Owned(s) && Enabled(s, step) && Disciplined(s, step)
    ensures TimerLaw(s, step, Apply(s, step), id)
  {
    assert Tidy(s.store, id);
    match step
    case DoSchedule(now, lock, due) =>
      if s.store.scheduleLock.None? {
        ScheduleEffect(s.store, now, lock, due);
        assert id !in due ==> SameFor(s.store, Apply(s, step).store, id);
      }
    case DoEnd(_, _) => TimerStepEnd(s, step, id);
    case DoReschedule(_, _) => TimerStepRelease(s, step, id);
    case DoAbort(job, ttl) => AbortEffect(s.store, job, ttl);
    case DoAbortRun(_) => TimerStepRelease(s, step, id);
    case DoSweep(x, _) =>
      assert Tidy(s.store, x);
      CountPositive(s.store.active, x);
      FinishEffect(s.store, s.store.records[x].job, Aborted);
    case _ =>
  }

  /** How often an event happened to an id in the first n steps. */
  ghost function Tally(r: Run, n: nat, e: Event, id: Id): nat
    requires IsRun(r) && n <= |r.steps|
  {
    if n == 0 then 0
    else Tally(r, n - 1, e, id) + if Happens(e, r.states[n - 1], r.steps[n - 1], id) then 1 else 0
  }

  /**
   * Every timer that was set has fired once, was cancelled once, or is still running: however
   * many workers schedule, an id enters the queue exactly once per (re)scheduling.
   */
  lemma {:induction false} TimersAreConserved(r: Run, n: nat, id: Id)
    requires IsDisciplinedRun(r) && StartsEmpty(r) && n <= |r.steps|
    ensures Tally(r, n, TimerSet, id) ==
            Tally(r, n, TimerFired, id) + Tally(r, n, TimerCancelled, id) + (if Waiting(r.states[n], id) then 1 else 0)
  {
    if n > 0 {
      TimersAreConserved(r, n - 1, id);
      OwnedAlong(r, n - 1);
      TimerStep(r.states[n - 1], r.steps[n - 1], id);
    }
  }

  /**
   * Never early: an id that waits for time T at state i and no longer does at state j was
   * aborted in between, or a pass whose clock had reached T put it in the queue, where it
   * then was exactly once.
   */
  lemma {:induction false} NeverEarly(r: Run, i: nat, j: nat, id: Id) returns (k: nat)
    requires IsDisciplinedRun(r) && StartsEmpty(r) && i <= j < |r.states| && Waiting(r.states[i], id)
    requires !Waiting(r.states[j], id) || r.states[j].store.incomplete[id] != r.states[i].store.incomplete[id]
    ensures i <= k < j && Waiting(r.states[k], id)
    ensures r.states[k].store.incomplete[id] == r.states[i].store.incomplete[id]
    ensures || Happens(TimerCancelled, r.states[k], r.steps[k], id)
            || (&& Happens(TimerFired, r.states[k], r.steps[k], id)
                && r.states[i].store.incomplete[id] <= r.states[k].store.clock
                && Count(r.states[k + 1].store.queued, id) == 1)
    decreases j - i
  {
    OwnedAlong(r, i);
    var s, step := r.states[i], r.steps[i];
    TimerStep(s, step, id);
    if Happens(TimerFired, s, step, id) || Happens(TimerCancelled, s, step, id) {
      k := i;
    } else {
      k := NeverEarly(r, i + 1, j, id);
    }
  }

  /** A scheduling call that finds the lock free. */
  ghost predicate Passes(s: System, step: Step) {
    step.DoSchedule? && s.store.scheduleLock.None?
  }

  /** The lock key of a pass stays until its deadline, and the clock never runs back. */
  lemma LockStep(s: System, step: Step, deadline: real)
    requires Enabled(s, step)
    requires s.store.clock >= deadline || s.store.scheduleLock == Some(deadline)
    ensures var s' := Apply(s, step);
      s'.store.clock >= deadline || s'.store.scheduleLock == Some(deadline)
  {
    match step
    case DoEnd(task, outcome) => match outcome { case Returned => case Raised(_, _) => case Cancelled(_, _) => }
    case _ =>
  }

  lemma PassSetsLock(s: System, step: Step)
    requires Enabled(s, step) && Passes(s, step)
    ensures Apply(s, step).store.scheduleLock == Some(s.store.clock + step.lock)
  {
  }

  lemma {:induction false} LockHolds(r: Run, i: nat, j: nat)
    requires IsRun(r) && i < j < |r.states| && Passes(r.states[i], r.steps[i])
    ensures var deadline := r.states[i].store.clock + r.steps[i].lock;
      r.states[j].store.clock >= deadline || r.states[j].store.scheduleLock == Some(deadline)
    decreases j
  {
    if i < j - 1 {
      LockHolds(r, i, j - 1);
      LockStep(r.states[j - 1], r.steps[j - 1], r.states[i].store.clock + r.steps[i].lock);
    } else {
      PassSetsLock(r.states[i], r.steps[i]);
    }
  }

  /** Any two successful passes of any run are at least the first one's lock time apart. */
  lemma PassesKeepDistance(r: Run, i: nat, j: nat)
    requires IsRun(r) && i < j < |r.steps| && Passes(r.states[i], r.steps[i]) && Passes(r.states[j], r.steps[j])
    ensures r.states[j].store.clock >= r.states[i].store.clock + r.steps[i].lock
  {
    LockHolds(r, i, j);
  }
}

/**
 * No lost wakeup: a task that is parked un-notified never waits beside an idle connection that
 * nobody has been woken for.
 */
module PoolWakeup {
  import opened Common
  import opened PoolState
  import opened PoolProtocol
  import opened PoolSafety

  /** A connection has been given back and its notify is still to come. */
  predicate SomeReleasing(s: System) {
    s.lock.Some? && s.lock.value in s.tasks && s.tasks[s.lock.value].Releasing?
  }

  /** While somebody is parked: the pool is exhausted, and every idle connection has a waiter on its way. */
  predicate Covered(s: System) {
    s.pool.parked != [] ==>
      && s.pool.created >= s.pool.max
      && !SomeWarming(s)
      && |s.pool.available| <= |s.pool.notified| + One(SomeReleasing(s))
  }

  /** The condition's waiters are the tasks in `wait()`, each once. */
  ghost predicate WaitersKnown(s: System) {
    && (forall t :: t in s.pool.parked ==> t in s.tasks && s.tasks[t].Waiting? && t !in s.pool.notified)
    && (forall t :: t in s.pool.notified ==> t in s.tasks && s.tasks[t].Waiting?)
    && (forall t :: t in s.tasks && s.tasks[t].Waiting? ==> t in s.pool.parked || t in s.pool.notified)
    && (forall i, j :: 0 <= i < j < |s.pool.parked| ==> s.pool.parked[i] != s.pool.parked[j])
  }

  ghost predicate Attended(s: System) {
    Safe(s) && WaitersKnown(s) && Covered(s)
  }

  /** A notify moves the oldest parked task to the notified ones. */
  lemma NotifyStep(s: System, t: Task)
    requires Attended(s) && Enabled(s, FinishRelease(t))
    ensures WaitersKnown(Apply(s, FinishRelease(t)))
  {
    if s.pool.parked != [] {
      var parked, rest := s.pool.parked, s.pool.parked[1..];
      assert parked[0] in parked;
      forall u ensures u in rest <==> u in parked && u != parked[0] {
        if u in parked {
          var i :| 0 <= i < |parked| && parked[i] == u;
          assert i > 0 ==> rest[i - 1] == u;
        }
      }
    }
  }

  /** The task enters the condition, for the first time or again. */
  lemma ParkStep(s: System, step: Step)
    requires Attended(s) && Enabled(s, step) && (step.EnterBlocked? || step.Wake?)
    ensures WaitersKnown(Apply(s, step))
  {
    assert step.task !in s.pool.parked;
    if s.pool.available != [] {
      NotInUse(s, LastAvailable(s.pool));
    }
  }

  lemma WaitersStep(s: System, step: Step)
    requires Attended(s) && Enabled(s, step)
    ensures WaitersKnown(Apply(s, step))
  {
    match step
    case EnterBlocked(_) => ParkStep(s, step);
    case Wake(_) => ParkStep(s, step);
    case FinishRelease(t) => NotifyStep(s, t);
    case _ =>
  }

  lemma CoverStep(s: System, step: Step)
    requires Attended(s) && Enabled(s, step)
    ensures Covered(Apply(s, step))
  {
    var s' := Apply(s, step);
    match step
    case EnterBlocked(t) =>
      if s.pool.available != [] {
        NotInUse(s, LastAvailable(s.pool));
      }
    case Wake(t) =>
      if s.pool.available != [] {
        NotInUse(s, LastAvailable(s.pool));
      }
    case EnterFast(t) =>
      assert InFlight(s.tasks, t, s.tasks[t].conn);
      NotInUse(s, s.tasks[t].conn);
    case FinishRelease(t) =>
      if s.pool.parked != [] {
        assert s.pool.parked[0] in s.pool.parked;
      }
    case _ =>
  }

  lemma {:induction false} AttendedAlong(r: Run, i: nat)
    requires IsRun(r) && i < |r.states|
    ensures Attended(r.states[i])
  {
    if i > 0 {
      AttendedAlong(r, i - 1);
      SafetyStep(r.states[i - 1], r.steps[i - 1]);
      WaitersStep(r.states[i - 1], r.steps[i - 1]);
      CoverStep(r.states[i - 1], r.steps[i - 1]);
    }
  }

  /** Nothing is on its way: the lock is free and no notified waiter is left to run. */
  predicate Settled(s: System) {
    s.lock.None? && s.pool.notified == {}
  }

  /**
   * Whenever a task is parked un-notified, the counter is at the maximum and the idle
   * connections are at most the notified waiters, plus the one whose release is about to
   * notify. So no settled state has both a parked task and an idle connection.
   */
  lemma NoLostWakeup(r: Run, i: nat)
    requires IsRun(r) && i < |r.states| && r.states[i].pool.parked != []
    ensures var s := r.states[i];
      && s.pool.created >= s.pool.max
      && |s.pool.available| <= |s.pool.notified| + One(SomeReleasing(s))
      && (s.lock.None? ==> |s.pool.available| <= |s.pool.notified|)
      && (Settled(s) ==> s.pool.available == [])
  {
    AttendedAlong(r, i);
  }

  /** A notify goes to the task that has been parked longest, and only a notified task wakes. */
  lemma OldestIsWoken(r: Run, i: nat)
    requires IsRun(r) && i < |r.steps| && r.steps[i].FinishRelease? && r.states[i].pool.parked != []
    ensures var t := r.states[i].pool.parked[0];
      && t !in r.states[i + 1].pool.parked && t in r.states[i + 1].pool.notified
      && Enabled(r.states[i + 1], Wake(t))
  {
    AttendedAlong(r, i);
    AttendedAlong(r, i + 1);
    assert r.states[i].pool.parked[0] in r.states[i].pool.parked;
    assert r.states[i].pool.parked[0] in r.states[i + 1].pool.notified;
  }

  /**
   * The pool blocks at half its limit: whenever a task is parked, twice the live connections and
   * the lost ones make up the limit, or one more.
   */
  lemma BlocksAtHalf(r: Run, i: nat)
    requires IsRun(r) && i < |r.states| && r.states[i].pool.parked != []
    ensures var p := r.states[i].pool; |Live(r.states[i])| == (p.max + 1 - |p.lost|) / 2
  {
    AttendedAlong(r, i);
    CounterIsDouble(r, i);
  }
}

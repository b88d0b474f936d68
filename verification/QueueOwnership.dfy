/**
 * Exclusive ownership: in every disciplined run an id is in at most one list, at most once,
 * exactly when it is marked runnable, and at most one run holds it.
 */
module QueueOwnership {
  import opened Common
  import opened QueueStore
  import opened QueueEffects
  import opened QueueProtocol

  /** One id: listed at most once, exactly when runnable, and backed by a lasting record of its own. */
  ghost predicate Tidy(s: Store, id: Id) {
    && Occurrences(s, id) <= 1
    && (Occurrences(s, id) == 1 <==> Ready(s, id))
    && (id in s.records ==> s.records[id].job.id == id)
    && (id in s.incomplete ==> id in s.records && s.records[id].expires.None?)
  }

  /** A run may hold an id that is active, or one whose abort is still pending. */
  ghost predicate Anchored(s: Store, id: Id) {
    Count(s.active, id) > 0 || (id in s.aborts && id !in s.incomplete)
  }

  ghost predicate SoleHolder(s: System, id: Id) {
    forall t, u :: Holds(s, t, id) && Holds(s, u, id) ==> t == u
  }

  ghost predicate Owned(s: System) {
    && (forall id :: Tidy(s.store, id))
    && (forall t :: t in s.held ==> Anchored(s.store, s.held[t].job.id))
    && (forall id :: SoleHolder(s, id))
  }

  /** An id that is queued, waiting for its time, or unknown and not being aborted has no holder. */
  lemma UnheldUnlessAnchored(s: System, id: Id)
    requires Owned(s)
    ensures IsHeld(s, id) ==> Anchored(s.store, id)
    ensures Count(s.store.queued, id) > 0 ==> !IsHeld(s, id)
    ensures id in s.store.incomplete && s.store.incomplete[id] != 0.0 ==> !IsHeld(s, id)
    ensures Accepts(s.store, id) ==> !IsHeld(s, id) && Occurrences(s.store, id) == 0
  {
    assert Tidy(s.store, id);
  }

  lemma SameHolders(s: System, s': System)
    requires s'.held == s.held && forall id :: SoleHolder(s, id)
    ensures forall id :: SoleHolder(s', id)
  {
    forall id, t, u | Holds(s', t, id) && Holds(s', u, id) ensures t == u {
      assert SoleHolder(s, id) && Holds(s, t, id) && Holds(s, u, id);
    }
  }

  /** The step is about one id only: check that id, the others follow. */
  lemma LocalStep(s: System, s': System, id: Id)
    requires Owned(s) && TouchesOnly(s.store, s'.store, id)
    requires Tidy(s'.store, id)
    requires forall t :: t in s'.held && s'.held[t].job.id != id ==> Holds(s, t, s'.held[t].job.id)
    requires IsHeld(s', id) ==> Anchored(s'.store, id)
    requires SoleHolder(s', id)
    ensures Owned(s')
  {
    forall x ensures Tidy(s'.store, x) {
      if x != id {
        assert SameFor(s.store, s'.store, x);
        assert Tidy(s.store, x);
      }
    }
    forall t | t in s'.held ensures Anchored(s'.store, s'.held[t].job.id) {
      var x := s'.held[t].job.id;
      if x == id {
        assert Holds(s', t, id);
      } else {
        assert SameFor(s.store, s'.store, x);
      }
    }
    forall x ensures SoleHolder(s', x) {
      if x != id {
        assert SoleHolder(s, x);
      }
    }
  }

  /** A holder acts on its own id and lets go of it. */
  lemma ReleaseStep(s: System, s': System, task: Task)
    requires Owned(s) && task in s.held && s'.held == s.held - {task}
    requires TouchesOnly(s.store, s'.store, s.held[task].job.id)
    requires Tidy(s'.store, s.held[task].job.id)
    ensures Owned(s') && !IsHeld(s', s.held[task].job.id)
  {
    var id := s.held[task].job.id;
    assert SoleHolder(s, id) && Holds(s, task, id);
    forall t | Holds(s', t, id) ensures false {
      assert Holds(s, t, id);
    }
    forall t | t in s'.held && s'.held[t].job.id != id ensures Holds(s, t, s'.held[t].job.id) {
      assert t in s.held;
    }
    LocalStep(s, s', id);
  }

  lemma EnqueueKeeps(s: System, job: Job)
    requires Owned(s)
    ensures Owned(Apply(s, DoEnqueue(job)))
  {
    if Accepts(s.store, job.id) {
      var s' := Apply(s, DoEnqueue(job));
      UnheldUnlessAnchored(s, job.id);
      EnqueueEffect(s.store, job);
      forall t | Holds(s', t, job.id) ensures false {
        assert Holds(s, t, job.id);
      }
      LocalStep(s, s', job.id);
    }
  }

  lemma ScheduleKeeps(s: System, step: Step)
    requires Owned(s) && step.DoSchedule? && Enabled(s, step)
    ensures Owned(Apply(s, step))
  {
    if s.store.scheduleLock.None? {
      var s' := Apply(s, step);
      ScheduleEffect(s.store, step.now, step.lock, step.due);
      forall x ensures Tidy(s'.store, x) {
        assert Tidy(s.store, x);
        if x !in step.due {
          assert SameFor(s.store, s'.store, x);
        }
      }
      forall t | t in s'.held ensures Anchored(s'.store, s'.held[t].job.id) {
        assert Anchored(s.store, s.held[t].job.id);
      }
      SameHolders(s, s');
    }
  }

  lemma DequeueKeeps(s: System, task: Task)
    requires Owned(s) && Enabled(s, DoDequeue(task))
    ensures var s' := Apply(s, DoDequeue(task)); Owned(s') && Holds(s', task, Next(s.store))
  {
    var s', id := Apply(s, DoDequeue(task)), Next(s.store);
    DequeueEffect(s.store);
    UnheldUnlessAnchored(s, id);
    assert Tidy(s.store, id);
    assert Holds(s', task, id);
    forall t | Holds(s', t, id) ensures t == task {
      assert t != task ==> Holds(s, t, id);
    }
    LocalStep(s, s', id);
  }

  lemma StartKeeps(s: System, step: Step)
    requires Owned(s) && Enabled(s, step) && (step.DoStart? || step.DoUpdate?)
    ensures Owned(Apply(s, step))
  {
    var s', id := Apply(s, step), s.held[step.task].job.id;
    assert Tidy(s.store, id) && SoleHolder(s, id) && Holds(s, step.task, id);
    forall x | x != id ensures SameFor(s.store, s'.store, x) {
    }
    forall t, u | Holds(s', t, id) && Holds(s', u, id) ensures t == u {
      assert Holds(s, t, id) && Holds(s, u, id);
    }
    LocalStep(s, s', id);
  }

  lemma DropKeeps(s: System, task: Task)
    requires Owned(s) && task in s.held
    ensures Owned(Apply(s, DoDrop(task)))
  {
    assert Tidy(s.store, s.held[task].job.id);
    ReleaseStep(s, Apply(s, DoDrop(task)), task);
  }

  /** Finishing an id that its holder may hold leaves it in no list and out of `incomplete`. */
  lemma FinishTidies(s: Store, job: Job, status: Status)
    requires Tidy(s, job.id) && Anchored(s, job.id)
    ensures Tidy(Finish(s, job, status), job.id) && TouchesOnly(s, Finish(s, job, status), job.id)
  {
    FinishEffect(s, job, status);
  }

  /** A retry puts it into the queue once and marks it runnable, or makes it wait. */
  lemma RetryTidies(s: Store, job: Job, delay: real)
    requires Tidy(s, job.id) && Anchored(s, job.id) && DelayOk(s, delay)
    requires delay == 0.0 ==> job.scheduled == 0
    ensures Tidy(Retry(s, job, delay), job.id) && TouchesOnly(s, Retry(s, job, delay), job.id)
  {
    RetryEffect(s, job, delay);
  }

  lemma EndKeeps(s: System, task: Task, outcome: Outcome)
    requires Owned(s) && Enabled(s, DoEnd(task, outcome)) && Disciplined(s, DoEnd(task, outcome))
    ensures Owned(Apply(s, DoEnd(task, outcome)))
  {
    var job := s.held[task].job;
    assert Tidy(s.store, job.id) && Anchored(s.store, job.id);
    if Retries(job, outcome) {
      RetryTidies(s.store, job, DelayOf(outcome));
    } else {
      match outcome {
        case Returned => FinishTidies(s.store, job, Complete);
        case Raised(retryable, _) =>
          FinishTidies(s.store, if job.attempts > job.retries then job else job.(retries := 0), Failed);
        case Cancelled(_, _) =>
      }
    }
    ReleaseStep(s, Apply(s, DoEnd(task, outcome)), task);
  }

  lemma RescheduleKeeps(s: System, task: Task, wait: real)
    requires Owned(s) && Enabled(s, DoReschedule(task, wait))
    ensures Owned(Apply(s, DoReschedule(task, wait)))
  {
    var job := s.held[task].job;
    assert Tidy(s.store, job.id) && Anchored(s.store, job.id);
    RescheduleEffect(s.store, job, wait);
    ReleaseStep(s, Apply(s, DoReschedule(task, wait)), task);
  }

  lemma AbortKeeps(s: System, job: Job, ttl: int)
    requires Owned(s) && ttl > 0
    ensures Owned(Apply(s, DoAbort(job, ttl)))
  {
    var s' := Apply(s, DoAbort(job, ttl));
    assert Tidy(s.store, job.id);
    AbortEffect(s.store, job, ttl);
    UnheldUnlessAnchored(s, job.id);
    CountPositive(s.store.queued, job.id);
    assert SoleHolder(s, job.id);
    forall t ensures Holds(s', t, job.id) <==> Holds(s, t, job.id) {
    }
    LocalStep(s, s', job.id);
  }

  lemma AbortRunKeeps(s: System, task: Task)
    requires Owned(s) && Enabled(s, DoAbortRun(task))
    ensures Owned(Apply(s, DoAbortRun(task)))
  {
    var job := s.held[task].job;
    assert Tidy(s.store, job.id) && Anchored(s.store, job.id);
    AbortRunEffect(s.store, job);
    ReleaseStep(s, Apply(s, DoAbortRun(task)), task);
  }

  lemma SweepKeeps(s: System, id: Id, overdue: bool)
    requires Owned(s) && Disciplined(s, DoSweep(id, overdue))
    ensures Owned(Apply(s, DoSweep(id, overdue)))
  {
    var s' := Apply(s, DoSweep(id, overdue));
    assert Tidy(s.store, id);
    CountPositive(s.store.active, id);
    FinishEffect(s.store, s.store.records[id].job, Aborted);
    forall t ensures !Holds(s', t, id) {
      assert !Holds(s, t, id);
    }
    if s'.store != s.store {
      LocalStep(s, s', id);
    }
  }

  lemma TickKeeps(s: System, t: real)
    requires Owned(s) && Enabled(s, DoTick(t)) && Disciplined(s, DoTick(t))
    ensures Owned(Apply(s, DoTick(t)))
  {
    var s' := Apply(s, DoTick(t));
    forall x ensures Tidy(s'.store, x) {
      assert Tidy(s.store, x);
    }
    forall u | u in s'.held ensures Anchored(s'.store, s'.held[u].job.id) {
      var x := s.held[u].job.id;
      assert Anchored(s.store, x) && Holds(s, u, x);
      CountPositive(s.store.active, x);
    }
    SameHolders(s, s');
  }

  /** Every disciplined step keeps ownership exclusive. */
  lemma OwnershipStep(s: System, step: Step)
    requires Owned(s) && Enabled(s, step) && Disciplined(s, step)
    ensures Owned(Apply(s, step))
  {
    match step
    case DoEnqueue(job) => EnqueueKeeps(s, job);
    case DoSchedule(_, _, _) => ScheduleKeeps(s, step);
    case DoDequeue(task) => DequeueKeeps(s, task);
    case DoDrop(task) => DropKeeps(s, task);
    case DoStart(_) => StartKeeps(s, step);
    case DoUpdate(_) => StartKeeps(s, step);
    case DoEnd(task, outcome) => EndKeeps(s, task, outcome);
    case DoReschedule(task, wait) => RescheduleKeeps(s, task, wait);
    case DoAbort(job, ttl) => AbortKeeps(s, job, ttl);
    case DoAbortRun(task) => AbortRunKeeps(s, task);
    case DoSweepLock(_) => SameKeys(s, Apply(s, step));
    case DoSweep(id, overdue) => SweepKeeps(s, id, overdue);
    case DoTick(t) => TickKeeps(s, t);
  }

  lemma SameKeys(s: System, s': System)
    requires Owned(s) && s'.held == s.held
    requires s'.store == s.store.(sweepLock := s'.store.sweepLock)
    ensures Owned(s')
  {
    forall x ensures Tidy(s'.store, x) {
      assert Tidy(s.store, x);
    }
    SameHolders(s, s');
    forall t | t in s'.held ensures Anchored(s'.store, s'.held[t].job.id) {
      assert Anchored(s.store, s.held[t].job.id);
    }
  }

  lemma {:induction false} OwnedAlong(r: Run, i: nat)
    requires IsDisciplinedRun(r) && StartsEmpty(r) && i < |r.states|
    ensures Owned(r.states[i])
  {
    if i > 0 {
      OwnedAlong(r, i - 1);
      OwnershipStep(r.states[i - 1], r.steps[i - 1]);
    }
  }

  /**
   * In every state of every disciplined run: an id occurs at most once in queued ++ active,
   * it occurs there exactly when its score in incomplete is 0, and no two runs hold it.
   */
  lemma ExclusiveOwnership(r: Run, i: nat, id: Id)
    requires IsDisciplinedRun(r) && StartsEmpty(r) && i < |r.states|
    ensures var s := r.states[i];
      && Count(s.store.queued + s.store.active, id) <= 1
      && (id in s.store.queued + s.store.active <==> Ready(s.store, id))
      && (forall t, u :: Holds(s, t, id) && Holds(s, u, id) ==> t == u)
      && (IsHeld(s, id) ==> id in s.store.active || id in s.store.aborts)
  {
    OwnedAlong(r, i);
    var s := r.states[i];
    assert Tidy(s.store, id) && SoleHolder(s, id);
    CountConcat(s.store.queued, s.store.active, id);
    CountPositive(s.store.queued + s.store.active, id);
    CountPositive(s.store.active, id);
  }
}

/**
 * Where exclusive ownership stops: for every step the exact condition under which it keeps it, and
 * when the stuck checker puts a finished job back.
 */
module QueueBoundaries {
  import opened Common
  import opened QueueStore
  import opened QueueEffects
  import opened QueueProtocol
  import opened QueueOwnership
  import opened QueueLifeCycle

  /**
   * The end of a run keeps ownership exactly when it is no immediate retry of a job with a schedule
   * of its own: `reset` keeps `scheduled`, and the immediate branch, of a failed or a cancelled run,
   * writes it back as the score of an id that is in the queue.
   */
  lemma ImmediateRetryBoundary(s: System, task: Task, outcome: Outcome)
    requires Owned(s) && Enabled(s, DoEnd(task, outcome))
    ensures Owned(Apply(s, DoEnd(task, outcome))) <==>
            (Retries(s.held[task].job, outcome) && DelayOf(outcome) == 0.0 ==> s.held[task].job.scheduled == 0)
  {
    var job, s' := s.held[task].job, Apply(s, DoEnd(task, outcome));
    if ImmediateOk(job, outcome) {
      EndKeeps(s, task, outcome);
    } else {
      assert Holds(s, task, job.id);
      UnheldUnlessAnchored(s, job.id);
      RetryEffect(s.store, job, 0.0);
      assert Tidy(s.store, job.id);
      assert !Tidy(s'.store, job.id);
    }
  }

  ghost predicate MayRequeue(s: System, id: Id)
    requires id in s.store.records
  {
    && id !in s.store.queued && !IsHeld(s, id)
    && s.store.records[id].job.scheduled == 0 && s.store.records[id].expires.None?
  }

  /**
   * The stuck checker's second sight of an id keeps ownership exactly when the id is not
   * already queued, nobody holds it, the job is unscheduled, and its record is not about to lapse.
   */
  lemma StuckRequeueBoundary(s: System, id: Id, cron: bool)
    requires Owned(s) && LooksStuck(s.store, id, cron) && id in s.store.stuck
    ensures Owned(Apply(s, DoCheckStuck(id, cron))) <==> MayRequeue(s, id)
  {
    var s' := Apply(s, DoCheckStuck(id, cron));
    RequeueStuckEffect(s.store, id, cron);
    CountPositive(s.store.queued, id);
    assert Tidy(s.store, id);
    if MayRequeue(s, id) {
      forall t ensures !Holds(s', t, id) {
        assert !Holds(s, t, id);
      }
      LocalStep(s, s', id);
    } else if IsHeld(s, id) {
      var t :| Holds(s, t, id);
      UnheldUnlessAnchored(s, id);
      assert !Anchored(s'.store, s'.held[t].job.id);
    } else {
      assert !Tidy(s'.store, id);
    }
  }

  /** Letting time pass keeps ownership exactly when no abort key lapses under a run it still shields. */
  lemma AbortLapseBoundary(s: System, t: real)
    requires Owned(s) && s.store.clock <= t
    ensures Owned(Apply(s, DoTick(t))) <==> Disciplined(s, DoTick(t))
  {
    var s' := Apply(s, DoTick(t));
    if Disciplined(s, DoTick(t)) {
      TickKeeps(s, t);
    } else {
      var id :| id in s.store.aborts && s.store.aborts[id] <= t && IsHeld(s, id) && id !in s.store.active;
      var task :| Holds(s, task, id);
      CountPositive(s.store.active, id);
      assert !Anchored(s'.store, s'.held[task].job.id);
    }
  }

  /** Finishing an id from outside is harmless when it is not queued and any holder of it is being aborted. */
  ghost predicate MayFinish(s: System, id: Id) {
    id !in s.store.queued && (IsHeld(s, id) ==> id in s.store.aborts)
  }

  /** A step on one id by somebody who does not hold it. */
  lemma OutsideStep(s: System, s': System, id: Id)
    requires Owned(s) && s'.held == s.held && TouchesOnly(s.store, s'.store, id)
    ensures Owned(s') <==> Tidy(s'.store, id) && (IsHeld(s, id) ==> Anchored(s'.store, id))
  {
    assert forall t :: Holds(s', t, id) <==> Holds(s, t, id);
    assert SoleHolder(s, id);
    if Tidy(s'.store, id) && (IsHeld(s, id) ==> Anchored(s'.store, id)) {
      LocalStep(s, s', id);
    }
  }

  lemma FinishBoundary(s: System, s': System, job: Job, status: Status)
    requires Owned(s) && s' == s.(store := Finish(s.store, job, status))
    ensures Owned(s') <==> MayFinish(s, job.id)
  {
    assert Tidy(s.store, job.id);
    FinishEffect(s.store, job, status);
    CountPositive(s.store.queued, job.id);
    OutsideStep(s, s', job.id);
  }

  /**
   * Sweeping an id keeps ownership exactly when the sweep leaves the job alone, or the id is not
   * queued and no run holds it that is not being aborted.
   */
  lemma SweepBoundary(s: System, id: Id, overdue: bool)
    requires Owned(s)
    ensures Owned(Apply(s, DoSweep(id, overdue))) <==>
            (id in s.store.records && Sweepable(s.store.records[id].job, overdue) ==> MayFinish(s, id))
  {
    var s' := Apply(s, DoSweep(id, overdue));
    assert Tidy(s.store, id);
    if id !in s.store.records {
      SweepMissingEffect(s.store, id, overdue);
      OutsideStep(s, s', id);
    } else if Sweepable(s.store.records[id].job, overdue) {
      FinishBoundary(s, s', s.store.records[id].job, Aborted);
    } else {
      assert s'.store == s.store;
    }
  }

  /** What late writes by runs that lost their job may do. */
  ghost predicate HarmlessStray(s: System, step: Step) {
    match step
    case StrayFinish(job, _) => MayFinish(s, job.id)
    case StrayRetry(job, delay) => !IsHeld(s, job.id) && (delay == 0.0 ==> job.scheduled == 0)
    case StrayReschedule(job, _) => !IsHeld(s, job.id)
    case _ => true
  }

  lemma StrayRetryBoundary(s: System, job: Job, delay: real)
    requires Owned(s) && DelayOk(s.store, delay)
    ensures Owned(Apply(s, StrayRetry(job, delay))) <==> HarmlessStray(s, StrayRetry(job, delay))
  {
    assert Tidy(s.store, job.id);
    RetryEffect(s.store, job, delay);
    OutsideStep(s, Apply(s, StrayRetry(job, delay)), job.id);
  }

  lemma StrayRescheduleBoundary(s: System, job: Job, wait: real)
    requires Owned(s) && s.store.clock + wait >= 1.0
    ensures Owned(Apply(s, StrayReschedule(job, wait))) <==> !IsHeld(s, job.id)
  {
    assert Tidy(s.store, job.id);
    RescheduleEffect(s.store, job, wait);
    OutsideStep(s, Apply(s, StrayReschedule(job, wait)), job.id);
  }

  /** Late writes keep ownership exactly under these conditions; a late update always does. */
  lemma StrayBoundary(s: System, step: Step)
    requires Owned(s) && Enabled(s, step)
    requires step.StrayFinish? || step.StrayRetry? || step.StrayReschedule? || step.StrayUpdate?
    ensures Owned(Apply(s, step)) <==> HarmlessStray(s, step)
  {
    match step
    case StrayFinish(job, status) => FinishBoundary(s, Apply(s, step), job, status);
    case StrayRetry(job, delay) => StrayRetryBoundary(s, job, delay);
    case StrayReschedule(job, wait) => StrayRescheduleBoundary(s, job, wait);
    case StrayUpdate(job) =>
      assert Tidy(s.store, job.id);
      OutsideStep(s, Apply(s, step), job.id);
  }

  /** The condition on each step, in terms of the state before it. */
  ghost predicate Harmless(s: System, step: Step) {
    match step
    case DoEnd(task, outcome) => task in s.held && ImmediateOk(s.held[task].job, outcome)
    case DoTick(_) => Disciplined(s, step)
    case DoSweep(id, overdue) =>
      id in s.store.records && Sweepable(s.store.records[id].job, overdue) ==> MayFinish(s, id)
    case DoCheckStuck(id, cron) =>
      LooksStuck(s.store, id, cron) && id in s.store.stuck ==> MayRequeue(s, id)
    case _ => HarmlessStray(s, step)
  }

  /** Any step at all keeps ownership exclusive exactly when it is harmless. */
  lemma OwnershipBoundary(s: System, step: Step)
    requires Owned(s) && Enabled(s, step)
    ensures Owned(Apply(s, step)) <==> Harmless(s, step)
  {
    match step
    case DoEnd(task, outcome) => ImmediateRetryBoundary(s, task, outcome);
    case DoTick(t) => AbortLapseBoundary(s, t);
    case DoSweep(id, overdue) => SweepBoundary(s, id, overdue);
    case DoCheckStuck(id, cron) => StuckBoundary(s, id, cron);
    case _ =>
      if step.StrayFinish? || step.StrayRetry? || step.StrayReschedule? || step.StrayUpdate? {
        StrayBoundary(s, step);
      } else {
        OwnershipStep(s, step);
      }
  }

  lemma StuckBoundary(s: System, id: Id, cron: bool)
    requires Owned(s)
    ensures Owned(Apply(s, DoCheckStuck(id, cron))) <==> Harmless(s, DoCheckStuck(id, cron))
  {
    var s' := Apply(s, DoCheckStuck(id, cron));
    if LooksStuck(s.store, id, cron) && id in s.store.stuck {
      StuckRequeueBoundary(s, id, cron);
    } else {
      assert Tidy(s.store, id);
      OutsideStep(s, s', id);
    }
  }

  /** A run from the empty queue has exclusive ownership in all its states exactly when all its steps are harmless. */
  lemma OwnedThroughout(r: Run)
    requires IsRun(r) && StartsEmpty(r)
    ensures (forall i :: 0 <= i < |r.states| ==> Owned(r.states[i])) <==>
            (forall i :: 0 <= i < |r.steps| ==> Harmless(r.states[i], r.steps[i]))
  {
    if forall i :: 0 <= i < |r.states| ==> Owned(r.states[i]) {
      forall i | 0 <= i < |r.steps| ensures Harmless(r.states[i], r.steps[i]) {
        OwnershipBoundary(r.states[i], r.steps[i]);
        assert Owned(r.states[i + 1]);
      }
    } else {
      var n :| 0 <= n < |r.states| && !Owned(r.states[n]);
      if forall i :: 0 <= i < |r.steps| ==> Harmless(r.states[i], r.steps[i]) {
        OwnedUpTo(r, n);
      }
    }
  }

  lemma {:induction false} OwnedUpTo(r: Run, n: nat)
    requires IsRun(r) && StartsEmpty(r) && n < |r.states|
    requires forall i :: 0 <= i < |r.steps| ==> Harmless(r.states[i], r.steps[i])
    ensures Owned(r.states[n])
  {
    if n > 0 {
      OwnedUpTo(r, n - 1);
      OwnershipBoundary(r.states[n - 1], r.steps[n - 1]);
    }
  }

  /**
   * A look of the stuck checker at a gone id leaves it gone exactly when it is not the second at a
   * record that looks stuck.
   */
  lemma StuckRevivalBoundary(s: System, id: Id, cron: bool)
    requires Gone(s, id)
    ensures Gone(Apply(s, DoCheckStuck(id, cron)), id) <==> !(LooksStuck(s.store, id, cron) && id in s.store.stuck)
  {
    var s' := Apply(s, DoCheckStuck(id, cron));
    if s'.store.incomplete == s.store.incomplete {
      assert forall t :: Holds(s', t, id) <==> Holds(s, t, id);
    }
  }

  /**
   * So two looks after a job has ended put it back, ownership notwithstanding, exactly when its
   * record is kept for good (`ttl` 0) and it is neither scheduled nor a cron job.
   */
  lemma FinishedJobRevives(s: System, job: Job, status: Status, cron: bool)
    requires status != Active && Gone(s.(store := Finish(s.store, job, status)), job.id)
    ensures var s0 := s.(store := Finish(s.store, job, status));
      var s2 := Apply(Apply(s0, DoCheckStuck(job.id, cron)), DoCheckStuck(job.id, cron));
      Gone(s2, job.id) <==> job.ttl != 0 || job.scheduled > 0 || cron
  {
    var id, s0 := job.id, s.(store := Finish(s.store, job, status));
    assert LooksStuck(s0.store, id, cron) <==> job.ttl == 0 && job.scheduled <= 0 && !cron;
    StuckRevivalBoundary(s0, id, cron);
    var s1 := Apply(s0, DoCheckStuck(id, cron));
    if Gone(s1, id) {
      StuckRevivalBoundary(s1, id, cron);
    } else {
      assert s1.store.stuck == s0.store.stuck - {id};
    }
  }
}

/**
 * The life of a job: from its accepted enqueue to its end the id is taken and its record
 * stays; after its end the id is gone until it is enqueued again.
 */
module QueueLifeCycle {
  import opened Common
  import opened QueueStore
  import opened QueueEffects
  import opened QueueProtocol
  import opened QueueOwnership

  ghost predicate AcceptedEnqueue(s: System, step: Step, id: Id) {
    step.DoEnqueue? && step.job.id == id && Accepts(s.store, id)
  }

  /** The outcome finishes the job for good. */
  predicate Settles(job: Job, outcome: Outcome) {
    !Retries(job, outcome) && !outcome.Cancelled?
  }

  /** The step finishes, aborts or sweeps the id. */
  ghost predicate EndsJob(s: System, step: Step, id: Id) {
    match step
    case DoEnd(task, outcome) => Holds(s, task, id) && Settles(s.held[task].job, outcome)
    case DoAbort(job, _) => job.id == id
    case DoAbortRun(task) => Holds(s, task, id)
    case DoSweep(x, overdue) => x == id && id in s.store.records && Sweepable(s.store.records[id].job, overdue)
    case _ => false
  }

  lemma LiveStep(s: System, step: Step, id: Id)
    requires Owned(s) && Enabled(s, step) && Disciplined(s, step)
    requires id in s.store.incomplete && !EndsJob(s, step, id)
    ensures id in Apply(s, step).store.incomplete
  {
    match step
    case DoEnd(task, outcome) =>
      match outcome {
        case Returned =>
        case Raised(_, _) =>
        case Cancelled(_, _) =>
      }
    case DoSweep(x, _) => assert Tidy(s.store, x);
    case _ =>
  }

  /** Once accepted, an id stays in `incomplete` until a step ends the job. */
  lemma {:induction false} LiveUntilEnded(r: Run, i: nat, j: nat, id: Id)
    requires IsDisciplinedRun(r) && StartsEmpty(r) && i < j < |r.states|
    requires AcceptedEnqueue(r.states[i], r.steps[i], id)
    requires forall k :: i < k < j ==> !EndsJob(r.states[k], r.steps[k], id)
    ensures id in r.states[j].store.incomplete
    decreases j
  {
    if i < j - 1 {
      LiveUntilEnded(r, i, j - 1, id);
      OwnedAlong(r, j - 1);
      LiveStep(r.states[j - 1], r.steps[j - 1], id);
    }
  }

  /**
   * Between an accepted enqueue and the end of the job every other enqueue of the id is
   * refused without effect, and its record is there, is its own and carries no TTL.
   */
  lemma TakenUntilEnded(r: Run, i: nat, j: nat, id: Id, job: Job)
    requires IsDisciplinedRun(r) && StartsEmpty(r) && i < j < |r.states|
    requires AcceptedEnqueue(r.states[i], r.steps[i], id) && job.id == id
    requires forall k :: i < k < j ==> !EndsJob(r.states[k], r.steps[k], id)
    ensures var s := r.states[j].store;
      && !Accepts(s, id) && Enqueue(s, job) == s
      && id in s.records && s.records[id].expires.None? && s.records[id].job.id == id
  {
    LiveUntilEnded(r, i, j, id);
    OwnedAlong(r, j);
    assert Tidy(r.states[j].store, id);
  }

  /** A worker that takes an id from the queue always finds its record and becomes its only holder. */
  lemma DequeueFindsRecord(r: Run, i: nat)
    requires IsDisciplinedRun(r) && StartsEmpty(r) && i < |r.steps| && r.steps[i].DoDequeue?
    ensures var id := Next(r.states[i].store);
      && !IsHeld(r.states[i], id)
      && Holds(r.states[i + 1], r.steps[i].task, id)
      && r.states[i + 1].held[r.steps[i].task] == Held(r.states[i].store.records[id].job, false)
  {
    var s, id := r.states[i], Next(r.states[i].store);
    OwnedAlong(r, i);
    DequeueEffect(s.store);
    UnheldUnlessAnchored(s, id);
    assert Tidy(s.store, id);
  }

  /** The id is in no list, not in `incomplete`, and no run holds it. */
  ghost predicate Gone(s: System, id: Id) {
    id !in s.store.incomplete && Occurrences(s.store, id) == 0 && !IsHeld(s, id)
  }

  /** A run that finishes its job, or is finished by the worker's abort, leaves nothing of the id behind. */
  lemma RunLeavesNothing(s: System, step: Step, id: Id)
    requires Owned(s) && Enabled(s, step) && Disciplined(s, step) && EndsJob(s, step, id)
    requires step.DoEnd? || step.DoAbortRun?
    ensures Gone(Apply(s, step), id)
  {
    var s', job := Apply(s, step), s.held[step.task].job;
    OwnershipStep(s, step);
    assert Tidy(s'.store, id);
    FinishEffect(s.store, job, Complete);
    FinishEffect(s.store, job, Failed);
    FinishEffect(s.store, job.(retries := 0), Failed);
    AbortRunEffect(s.store, job);
    UnheldUnlessAnchored(s, id);
    assert SoleHolder(s, id) && Holds(s, step.task, id);
    forall t | Holds(s', t, id) ensures false {
      assert Holds(s, t, id);
    }
  }

  lemma SweptIsGone(s: System, id: Id, overdue: bool)
    requires Owned(s) && id in s.store.active && !IsHeld(s, id)
    requires id !in s.store.records || Sweepable(s.store.records[id].job, overdue)
    ensures Gone(Apply(s, DoSweep(id, overdue)), id)
  {
    var s' := Apply(s, DoSweep(id, overdue));
    assert Tidy(s.store, id);
    CountPositive(s.store.active, id);
    if id in s.store.records {
      FinishEffect(s.store, s.store.records[id].job, Aborted);
    } else {
      SweepMissingEffect(s.store, id, overdue);
    }
    forall t ensures !Holds(s', t, id) {
      assert !Holds(s, t, id);
    }
  }

  /** An abort leaves nothing behind, but for a run that still holds the id. */
  lemma AbortLeavesNothing(s: System, job: Job, ttl: int)
    requires Owned(s) && ttl > 0
    ensures Gone(Apply(s, DoAbort(job, ttl)), job.id) <==> !IsHeld(s, job.id)
  {
    var s' := Apply(s, DoAbort(job, ttl));
    assert Tidy(s.store, job.id);
    AbortEffect(s.store, job, ttl);
    CountPositive(s.store.queued, job.id);
    assert forall t :: Holds(s', t, job.id) <==> Holds(s, t, job.id);
  }

  /**
   * Whatever ends a job leaves nothing of its id in the queue's structures and no run that holds
   * it, except for the run that an abort from outside has yet to reach.
   */
  lemma EndingLeavesNothing(s: System, step: Step, id: Id)
    requires Owned(s) && Enabled(s, step) && Disciplined(s, step) && EndsJob(s, step, id)
    ensures Gone(Apply(s, step), id) <==> !(step.DoAbort? && IsHeld(s, id))
  {
    match step
    case DoAbort(job, ttl) => AbortLeavesNothing(s, job, ttl);
    case DoSweep(_, overdue) => SweptIsGone(s, id, overdue);
    case _ => RunLeavesNothing(s, step, id);
  }

  lemma HoldersOnlyByDequeue(s: System, step: Step, id: Id)
    requires Enabled(s, step) && Disciplined(s, step) && !IsHeld(s, id)
    requires !(step.DoDequeue? && Next(s.store) in s.store.records && s.store.records[Next(s.store)].job.id == id)
    ensures !IsHeld(Apply(s, step), id)
  {
    var s' := Apply(s, step);
    forall t ensures !Holds(s', t, id) {
      assert !Holds(s, t, id);
    }
  }

  lemma GoneStep(s: System, step: Step, id: Id)
    requires Owned(s) && Enabled(s, step) && Disciplined(s, step)
    requires Gone(s, id) && !AcceptedEnqueue(s, step, id)
    ensures Gone(Apply(s, step), id)
  {
    var s' := Apply(s, step);
    OwnershipStep(s, step);
    assert Tidy(s.store, id) && Tidy(s'.store, id);
    if step.DoDequeue? {
      DequeueEffect(s.store);
      assert Tidy(s.store, Next(s.store));
    }
    HoldersOnlyByDequeue(s, step, id);
    StaysOut(s, step, id);
  }

  lemma StaysOut(s: System, step: Step, id: Id)
    requires Enabled(s, step) && Disciplined(s, step)
    requires Gone(s, id) && !AcceptedEnqueue(s, step, id)
    ensures id !in Apply(s, step).store.incomplete
  {
    match step
    case DoEnd(task, outcome) =>
      assert !Holds(s, task, id);
      match outcome {
        case Returned =>
        case Raised(_, _) =>
        case Cancelled(_, _) =>
      }
    case DoReschedule(task, _) => assert !Holds(s, task, id);
    case _ =>
  }

  /** After the id is gone, no step but an accepted enqueue of it puts it back in any structure. */
  lemma {:induction false} GoneUntilEnqueued(r: Run, i: nat, j: nat, id: Id)
    requires IsDisciplinedRun(r) && StartsEmpty(r) && i <= j < |r.states| && Gone(r.states[i], id)
    requires forall k :: i <= k < j ==> !AcceptedEnqueue(r.states[k], r.steps[k], id)
    ensures Gone(r.states[j], id)
    decreases j
  {
    if i < j {
      GoneUntilEnqueued(r, i, j - 1, id);
      OwnedAlong(r, j - 1);
      GoneStep(r.states[j - 1], r.steps[j - 1], id);
    }
  }

  /**
   * From the step that ends a job, the id stays gone until it is enqueued and accepted again; after
   * an abort from outside that finds a holder, from the step that ends the aborted run.
   */
  lemma EndedStaysGone(r: Run, i: nat, j: nat, id: Id)
    requires IsDisciplinedRun(r) && StartsEmpty(r) && i < j < |r.states|
    requires EndsJob(r.states[i], r.steps[i], id) && !(r.steps[i].DoAbort? && IsHeld(r.states[i], id))
    requires forall k :: i < k < j ==> !AcceptedEnqueue(r.states[k], r.steps[k], id)
    ensures Gone(r.states[j], id)
  {
    OwnedAlong(r, i);
    EndingLeavesNothing(r.states[i], r.steps[i], id);
    GoneUntilEnqueued(r, i + 1, j, id);
  }

  /** The id is in no list and not in `incomplete`, though an aborted run may still hold it. */
  ghost predicate Withdrawn(s: System, id: Id) {
    id !in s.store.incomplete && Occurrences(s.store, id) == 0
  }

  /** What brings a withdrawn id back: an accepted enqueue, or its holder by a retry or a reschedule. */
  ghost predicate PutsBack(s: System, step: Step, id: Id) {
    match step
    case DoEnd(task, outcome) => Holds(s, task, id) && Retries(s.held[task].job, outcome)
    case DoReschedule(task, _) => Holds(s, task, id)
    case _ => AcceptedEnqueue(s, step, id)
  }

  lemma WithdrawnStep(s: System, step: Step, id: Id)
    requires Owned(s) && Enabled(s, step) && Disciplined(s, step) && Withdrawn(s, id)
    ensures Withdrawn(Apply(s, step), id) <==> !PutsBack(s, step, id)
  {
    var s' := Apply(s, step);
    OwnershipStep(s, step);
    assert Tidy(s.store, id) && Tidy(s'.store, id);
    match step
    case DoEnd(task, outcome) =>
      match outcome {
        case Returned =>
        case Raised(_, _) =>
        case Cancelled(_, _) =>
      }
    case _ =>
  }

  lemma EndingWithdraws(s: System, step: Step, id: Id)
    requires Owned(s) && Enabled(s, step) && Disciplined(s, step) && EndsJob(s, step, id)
    ensures Withdrawn(Apply(s, step), id)
  {
    if step.DoAbort? {
      assert Tidy(s.store, id);
      AbortEffect(s.store, step.job, step.ttl);
      CountPositive(s.store.queued, id);
    } else {
      EndingLeavesNothing(s, step, id);
    }
  }

  lemma {:induction false} WithdrawnUntilPutBack(r: Run, i: nat, j: nat, id: Id)
    requires IsDisciplinedRun(r) && StartsEmpty(r) && i <= j < |r.states| && Withdrawn(r.states[i], id)
    requires forall k :: i <= k < j ==> !PutsBack(r.states[k], r.steps[k], id)
    ensures Withdrawn(r.states[j], id)
    decreases j
  {
    if i < j {
      WithdrawnUntilPutBack(r, i, j - 1, id);
      OwnedAlong(r, j - 1);
      WithdrawnStep(r.states[j - 1], r.steps[j - 1], id);
    }
  }

  /**
   * From whatever step ends a job, an abort that finds a holder included: the id stays out of the
   * queue's structures exactly as long as no enqueue of it is accepted and its holder, if an abort
   * left one, neither retries nor reschedules it. It is gone as soon as nobody holds it.
   */
  lemma EndedStaysOut(r: Run, i: nat, j: nat, id: Id)
    requires IsDisciplinedRun(r) && StartsEmpty(r) && i < j < |r.states| && EndsJob(r.states[i], r.steps[i], id)
    ensures (forall k :: i < k <= j ==> Withdrawn(r.states[k], id)) <==>
            (forall k :: i < k < j ==> !PutsBack(r.states[k], r.steps[k], id))
    ensures Withdrawn(r.states[j], id) ==> (Gone(r.states[j], id) <==> !IsHeld(r.states[j], id))
  {
    OwnedAlong(r, i);
    EndingWithdraws(r.states[i], r.steps[i], id);
    if forall k :: i < k < j ==> !PutsBack(r.states[k], r.steps[k], id) {
      forall k | i < k <= j ensures Withdrawn(r.states[k], id) {
        WithdrawnUntilPutBack(r, i + 1, k, id);
      }
    } else {
      var k :| i < k < j && PutsBack(r.states[k], r.steps[k], id);
      OwnedAlong(r, k);
      if Withdrawn(r.states[k], id) {
        WithdrawnStep(r.states[k], r.steps[k], id);
        assert !Withdrawn(r.states[k + 1], id);
      }
    }
  }
}

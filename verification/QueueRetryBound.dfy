/**
 * Retries are bounded: since its accepted enqueue, a job is started at most once more than its
 * retries allow, plus once for every run that ended by cancellation or reschedule.
 */
module QueueRetryBound {
  import opened Common
  import opened QueueStore
  import opened QueueEffects
  import opened QueueProtocol
  import opened QueueOwnership
  import opened QueueLifeCycle

  /** What happened to an id since its last accepted enqueue: the job, its starts, and its cut-short runs. */
  datatype History = History(job: Job, starts: nat, cuts: nat)

  /** The run of the id ends by a cancellation that is retried, or by a reschedule. */
  ghost predicate CutShort(s: System, step: Step, id: Id) {
    match step
    case DoEnd(task, outcome) => Holds(s, task, id) && outcome.Cancelled? && Retries(s.held[task].job, outcome)
    case DoReschedule(task, _) => Holds(s, task, id)
    case _ => false
  }

  ghost predicate StartsRun(s: System, step: Step, id: Id) {
    step.DoStart? && Holds(s, step.task, id)
  }

  ghost function Advance(h: Option<History>, s: System, step: Step, id: Id): Option<History> {
    if AcceptedEnqueue(s, step, id) then Some(History(step.job, 0, 0))
    else if h.None? then None
    else if StartsRun(s, step, id) then Some(h.value.(starts := h.value.starts + 1))
    else if CutShort(s, step, id) then Some(h.value.(cuts := h.value.cuts + 1))
    else h
  }

  /** The history of an id after the first n steps of a run. */
  ghost function HistoryOf(r: Run, n: nat, id: Id): Option<History>
    requires IsRun(r) && n <= |r.steps|
  {
    if n == 0 then None
    else Advance(HistoryOf(r, n - 1, id), r.states[n - 1], r.steps[n - 1], id)
  }

  /** The retries a job had left when it was enqueued. */
  function Allowance(job: Job): nat {
    if job.retries > job.attempts then job.retries - job.attempts else 0
  }

  /** A copy of the job that has counted every start of the history. */
  predicate UpToDate(h: History, job: Job) {
    job.retries == h.job.retries && job.attempts == h.job.attempts + h.starts
  }

  /** The id can still be started: it is queued or waits for its time. */
  ghost predicate Startable(s: Store, id: Id) {
    id in s.incomplete && (Count(s.queued, id) > 0 || s.incomplete[id] != 0.0)
  }

  /** The bound, one start tighter while the id can still be started. */
  ghost predicate Bounded(s: System, h: Option<History>, id: Id) {
    && (h.None? ==> id !in s.store.incomplete && !IsHeld(s, id))
    && (h.Some? ==> h.value.starts <= h.value.cuts + Allowance(h.value.job) + 1)
    && (h.Some? && Startable(s.store, id) ==>
          id in s.store.records && UpToDate(h.value, s.store.records[id].job)
          && h.value.starts <= h.value.cuts + Allowance(h.value.job))
    && (forall t :: h.Some? && Holds(s, t, id) ==>
          UpToDate(h.value, s.held[t].job)
          && (!s.held[t].running ==> h.value.starts <= h.value.cuts + Allowance(h.value.job)))
  }

  lemma EndBounded(s: System, h: Option<History>, step: Step, id: Id)
    requires Owned(s) && Enabled(s, step) && Disciplined(s, step) && Bounded(s, h, id) && step.DoEnd?
    ensures Bounded(Apply(s, step), Advance(h, s, step, id), id)
  {
    var s', job := Apply(s, step), s.held[step.task].job;
    EndKeeps(s, step.task, step.outcome);
    assert Holds(s, step.task, job.id) && SoleHolder(s, job.id) && Tidy(s.store, job.id);
    UnheldUnlessAnchored(s, job.id);
    forall t | Holds(s', t, id) ensures Holds(s, t, id) && s'.held[t] == s.held[t] {
    }
    match step.outcome {
      case Returned => FinishEffect(s.store, job, Complete);
      case Raised(_, delay) =>
        FinishEffect(s.store, job, Failed);
        FinishEffect(s.store, job.(retries := 0), Failed);
        RetryEffect(s.store, job, delay);
      case Cancelled(_, delay) => RetryEffect(s.store, job, delay);
    }
    assert id != job.id ==> SameFor(s.store, s'.store, id);
  }

  lemma HeldStepBounded(s: System, h: Option<History>, step: Step, id: Id)
    requires Owned(s) && Enabled(s, step) && Disciplined(s, step) && Bounded(s, h, id)
    requires step.DoDequeue? || step.DoStart? || step.DoUpdate? || step.DoDrop?
    ensures Bounded(Apply(s, step), Advance(h, s, step, id), id)
  {
    var s' := Apply(s, step);
    assert SoleHolder(s, id) && Tidy(s.store, id);
    UnheldUnlessAnchored(s, id);
    if step.DoDequeue? {
      assert Tidy(s.store, Next(s.store));
      DequeueEffect(s.store);
      assert id != Next(s.store) ==> SameFor(s.store, s'.store, id);
    }
    forall t | Holds(s', t, id) && !(step.DoDequeue? && t == step.task) ensures Holds(s, t, id) {
    }
  }

  lemma OtherStepBounded(s: System, h: Option<History>, step: Step, id: Id)
    requires Owned(s) && Enabled(s, step) && Disciplined(s, step) && Bounded(s, h, id)
    requires step.DoEnqueue? || step.DoSchedule? || step.DoSweepLock? || step.DoSweep? || step.DoTick?
    ensures Bounded(Apply(s, step), Advance(h, s, step, id), id)
  {
    var s' := Apply(s, step);
    assert Tidy(s.store, id);
    UnheldUnlessAnchored(s, id);
    forall t ensures Holds(s', t, id) <==> Holds(s, t, id) {
    }
    if step.DoEnqueue? && Accepts(s.store, step.job.id) {
      EnqueueEffect(s.store, step.job);
      assert id != step.job.id ==> SameFor(s.store, s'.store, id);
    }
    if step.DoSchedule? && s.store.scheduleLock.None? {
      ScheduleEffect(s.store, step.now, step.lock, step.due);
      assert id !in step.due ==> SameFor(s.store, s'.store, id);
    }
    if step.DoSweep? {
      assert Tidy(s.store, step.id);
      CountPositive(s.store.active, step.id);
      FinishEffect(s.store, s.store.records[step.id].job, Aborted);
      assert id != step.id && s'.store != s.store ==> SameFor(s.store, s'.store, id);
    }
  }

  lemma RemovalBounded(s: System, h: Option<History>, step: Step, id: Id)
    requires Owned(s) && Enabled(s, step) && Disciplined(s, step) && Bounded(s, h, id)
    requires step.DoReschedule? || step.DoAbort? || step.DoAbortRun?
    ensures Bounded(Apply(s, step), Advance(h, s, step, id), id)
  {
    var s' := Apply(s, step);
    var x := if step.DoAbort? then step.job.id else s.held[step.task].job.id;
    assert Tidy(s.store, x) && SoleHolder(s, x);
    UnheldUnlessAnchored(s, x);
    match step {
      case DoReschedule(task, wait) =>
        assert Holds(s, task, x);
        RescheduleEffect(s.store, s.held[task].job, wait);
      case DoAbort(job, ttl) => AbortEffect(s.store, job, ttl);
      case DoAbortRun(task) => AbortRunEffect(s.store, s.held[task].job);
    }
    assert id != x ==> SameFor(s.store, s'.store, id);
    forall t | Holds(s', t, id) ensures Holds(s, t, id) && s'.held[t] == s.held[t] {
    }
  }

  /** Every disciplined step keeps the bound. */
  lemma BoundStep(s: System, h: Option<History>, step: Step, id: Id)
    requires Owned(s) && Enabled(s, step) && Disciplined(s, step) && Bounded(s, h, id)
    ensures Bounded(Apply(s, step), Advance(h, s, step, id), id)
  {
    match step
    case DoEnd(_, _) => EndBounded(s, h, step, id);
    case DoDequeue(_) => HeldStepBounded(s, h, step, id);
    case DoStart(_) => HeldStepBounded(s, h, step, id);
    case DoUpdate(_) => HeldStepBounded(s, h, step, id);
    case DoDrop(_) => HeldStepBounded(s, h, step, id);
    case DoReschedule(_, _) => RemovalBounded(s, h, step, id);
    case DoAbort(_, _) => RemovalBounded(s, h, step, id);
    case DoAbortRun(_) => RemovalBounded(s, h, step, id);
    case _ => OtherStepBounded(s, h, step, id);
  }

  lemma {:induction false} BoundedAlong(r: Run, n: nat, id: Id)
    requires IsDisciplinedRun(r) && StartsEmpty(r) && n <= |r.steps|
    ensures Bounded(r.states[n], HistoryOf(r, n, id), id)
  {
    if n > 0 {
      BoundedAlong(r, n - 1, id);
      OwnedAlong(r, n - 1);
      BoundStep(r.states[n - 1], HistoryOf(r, n - 1, id), r.steps[n - 1], id);
    }
  }

  /**
   * A job enqueued without earlier attempts is started at most retries + 1 + c times, where c
   * counts its runs that were cancelled and put back, or rescheduled.
   */
  lemma StartsAreBounded(r: Run, n: nat, id: Id)
    requires IsDisciplinedRun(r) && StartsEmpty(r) && n <= |r.steps| && HistoryOf(r, n, id).Some?
    ensures var h := HistoryOf(r, n, id).value;
      && h.starts <= h.cuts + Allowance(h.job) + 1
      && (h.job.attempts == 0 && h.job.retries >= 0 ==> h.starts <= h.job.retries + 1 + h.cuts)
  {
    BoundedAlong(r, n, id);
  }

  /** The starts that remain without another cut: it falls with every start of the id. */
  function StartsLeft(h: History): int {
    Allowance(h.job) + 1 + h.cuts - h.starts
  }

  /** `StartsLeft` is a termination measure: never negative, and each start takes one away. */
  lemma StartUsesOneUp(r: Run, n: nat, id: Id)
    requires IsDisciplinedRun(r) && StartsEmpty(r) && n < |r.steps| && StartsRun(r.states[n], r.steps[n], id)
    ensures HistoryOf(r, n, id).Some? && HistoryOf(r, n + 1, id).Some?
    ensures 0 <= StartsLeft(HistoryOf(r, n + 1, id).value) == StartsLeft(HistoryOf(r, n, id).value) - 1
  {
    BoundedAlong(r, n, id);
    BoundedAlong(r, n + 1, id);
  }
}

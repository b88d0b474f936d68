/** What each queue operation does to the id it is about, and that it leaves every other id alone. */
module QueueEffects {
  import opened Common
  import opened QueueStore

  /** Everything the store knows about x is the same before and after. */
  ghost predicate SameFor(s: Store, s': Store, x: Id) {
    && Count(s'.queued, x) == Count(s.queued, x)
    && Count(s'.active, x) == Count(s.active, x)
    && (x in s'.incomplete <==> x in s.incomplete)
    && (x in s.incomplete ==> s'.incomplete[x] == s.incomplete[x])
    && (x in s'.records <==> x in s.records)
    && (x in s.records ==> s'.records[x] == s.records[x])
    && (x in s'.aborts <==> x in s.aborts)
  }

  ghost predicate TouchesOnly(s: Store, s': Store, id: Id) {
    forall x :: x != id ==> SameFor(s, s', x)
  }

  lemma EnqueueEffect(s: Store, job: Job)
    requires Accepts(s, job.id)
    ensures var s' := Enqueue(s, job);
      && TouchesOnly(s, s', job.id)
      && Count(s'.queued, job.id) == Count(s.queued, job.id) + (if job.scheduled == 0 then 1 else 0)
      && s'.active == s.active
      && job.id in s'.incomplete && s'.incomplete[job.id] == job.scheduled as real
      && job.id in s'.records && s'.records[job.id] == Record(job.(status := Queued), None)
  {
    var s' := Enqueue(s, job);
    forall x ensures Count(s'.queued, x) == Count(s.queued, x) + (if x == job.id && job.scheduled == 0 then 1 else 0) {
      CountConcat(s.queued, [job.id], x);
    }
  }

  lemma ScheduleEffect(s: Store, now: real, lock: real, due: seq<Id>)
    requires IsDueListing(s, now, due) && s.scheduleLock.None?
    ensures var s' := Schedule(s, lock, due);
      && (forall x :: x !in due ==> SameFor(s, s', x))
      && (forall x :: x in due ==>
            && Count(s'.queued, x) == Count(s.queued, x) + 1
            && x in s.incomplete && 1.0 <= s.incomplete[x] <= now
            && x in s'.incomplete && s'.incomplete[x] == 0.0)
      && s'.active == s.active && s'.records == s.records && s'.aborts == s.aborts
  {
    var s' := Schedule(s, lock, due);
    forall x ensures Count(s'.queued, x) == Count(s.queued, x) + (if x in due then 1 else 0) {
      CountConcat(s.queued, due, x);
      CountPositive(due, x);
      assert Count(due, x) <= 1;
    }
  }

  lemma DequeueEffect(s: Store)
    requires s.queued != []
    ensures var s' := Dequeue(s);
      && TouchesOnly(s, s', Next(s))
      && Count(s.queued, Next(s)) > 0
      && Count(s'.queued, Next(s)) == Count(s.queued, Next(s)) - 1
      && Count(s'.active, Next(s)) == Count(s.active, Next(s)) + 1
      && s'.incomplete == s.incomplete && s'.records == s.records && s'.aborts == s.aborts
  {
    var s' := Dequeue(s);
    forall x ensures Count(s.queued, x) == Count(s'.queued, x) + (if x == Next(s) then 1 else 0) {
      CountLast(s.queued, x);
    }
    forall x ensures Count(s'.active, x) == Count(s.active, x) + (if x == Next(s) then 1 else 0) {
      CountConcat([Next(s)], s.active, x);
    }
  }

  lemma FinishEffect(s: Store, job: Job, status: Status)
    ensures var s' := Finish(s, job, status);
      && TouchesOnly(s, s', job.id)
      && s'.queued == s.queued
      && Count(s'.active, job.id) == Less(Count(s.active, job.id))
      && job.id !in s'.incomplete
      && s'.aborts == s.aborts
  {
    var s' := Finish(s, job, status);
    forall x ensures Count(s'.active, x) == if x == job.id then Less(Count(s.active, x)) else Count(s.active, x) {
      RemoveFirstCount(s.active, job.id, x);
    }
  }

  lemma RetryEffect(s: Store, job: Job, delay: real)
    ensures var s' := Retry(s, job, delay);
      && TouchesOnly(s, s', job.id)
      && Count(s'.queued, job.id) == Less(Count(s.queued, job.id)) + (if delay == 0.0 then 1 else 0)
      && Count(s'.active, job.id) == Less(Count(s.active, job.id))
      && job.id in s'.incomplete
      && s'.incomplete[job.id] == (if delay == 0.0 then job.scheduled as real else s.clock + delay)
      && job.id in s'.records && s'.records[job.id] == Record(job.(status := Queued), None)
      && s'.aborts == s.aborts
  {
    var s' := Retry(s, job, delay);
    var trimmed := RemoveFirst(s.queued, job.id);
    forall x ensures Count(s'.active, x) == if x == job.id then Less(Count(s.active, x)) else Count(s.active, x) {
      RemoveFirstCount(s.active, job.id, x);
    }
    forall x ensures Count(s'.queued, x) ==
      if x == job.id then Less(Count(s.queued, x)) + (if delay == 0.0 then 1 else 0) else Count(s.queued, x)
    {
      RemoveFirstCount(s.queued, job.id, x);
      CountConcat(trimmed, [job.id], x);
    }
  }

  lemma RescheduleEffect(s: Store, job: Job, wait: real)
    ensures var s' := Reschedule(s, job, wait);
      && TouchesOnly(s, s', job.id)
      && Count(s'.queued, job.id) == Less(Count(s.queued, job.id))
      && Count(s'.active, job.id) == Less(Less(Count(s.active, job.id)))
      && job.id in s'.incomplete && s'.incomplete[job.id] == s.clock + wait
      && job.id in s'.records && s'.records[job.id] == Record(job.(status := Queued), None)
      && s'.aborts == s.aborts
  {
    var done, s' := Finish(s, job, Rescheduled), Reschedule(s, job, wait);
    FinishEffect(s, job, Rescheduled);
    RemoveFirstCount(done.active, job.id, job.id);
    RemoveFirstCount(done.queued, job.id, job.id);
    forall x | x != job.id ensures SameFor(s, s', x) {
      assert SameFor(s, done, x);
      RemoveFirstCount(done.active, job.id, x);
      RemoveFirstCount(done.queued, job.id, x);
    }
  }

  lemma AbortEffect(s: Store, job: Job, ttl: int)
    ensures var s' := Abort(s, job, ttl);
      && TouchesOnly(s, s', job.id)
      && Count(s'.queued, job.id) == 0
      && Count(s'.active, job.id) == (if job.id in s.queued then Less(Count(s.active, job.id)) else 0)
      && job.id !in s'.incomplete
      && (job.id in s'.aborts <==> job.id !in s.queued)
  {
    var s' := Abort(s, job, ttl);
    forall x ensures Count(s'.queued, x) == if x == job.id then 0 else Count(s.queued, x) {
      RemoveAllCount(s.queued, job.id, x);
    }
    forall x ensures Count(s'.active, x) ==
      if x != job.id then Count(s.active, x) else if job.id in s.queued then Less(Count(s.active, x)) else 0
    {
      RemoveAllCount(s.active, job.id, x);
      RemoveFirstCount(s.active, job.id, x);
    }
  }

  lemma AbortRunEffect(s: Store, job: Job)
    ensures var s' := AbortRun(s, job);
      && TouchesOnly(s, s', job.id)
      && s'.queued == s.queued
      && Count(s'.active, job.id) == Less(Count(s.active, job.id))
      && job.id !in s'.incomplete && job.id !in s'.aborts
  {
    var done := Finish(s, job, Aborted);
    FinishEffect(s, job, Aborted);
    forall x | x != job.id ensures SameFor(s, AbortRun(s, job), x) {
      assert SameFor(s, done, x);
    }
  }

  lemma SweepMissingEffect(s: Store, id: Id, overdue: bool)
    requires id !in s.records
    ensures var s' := SweepOne(s, id, overdue);
      && TouchesOnly(s, s', id)
      && s'.queued == s.queued && Count(s'.active, id) == 0 && id !in s'.incomplete && s'.aborts == s.aborts
  {
    forall x ensures Count(RemoveAll(s.active, id), x) == if x == id then 0 else Count(s.active, x) {
      RemoveAllCount(s.active, id, x);
    }
  }

  lemma RequeueStuckEffect(s: Store, id: Id, cron: bool)
    requires LooksStuck(s, id, cron) && id in s.stuck
    ensures var s' := CheckStuck(s, id, cron);
      && TouchesOnly(s, s', id)
      && Count(s'.queued, id) == Count(s.queued, id) + 1
      && Count(s'.active, id) == Less(Count(s.active, id))
      && id in s'.incomplete && s'.incomplete[id] == s.records[id].job.scheduled as real
      && s'.records == s.records && s'.aborts == s.aborts
  {
    var s' := CheckStuck(s, id, cron);
    forall x ensures Count(s'.active, x) == if x == id then Less(Count(s.active, x)) else Count(s.active, x) {
      RemoveFirstCount(s.active, id, x);
    }
    forall x ensures Count(s'.queued, x) == Count(s.queued, x) + (if x == id then 1 else 0) {
      CountConcat([id], s.queued, x);
    }
  }
}

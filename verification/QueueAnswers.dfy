/**
 * What the queue's operations leave behind, told from what was there before: the record of a job
 * after a turn of `process_queue`, the outcome of a whole sweep, the order in which jobs are taken.
 */
module QueueAnswers {
  import opened Common
  import opened QueueStore
  import opened TaskQueueModel

  /** A job that is over is kept for its ttl, for good when that is 0, and not at all when it is negative. */
  predicate KeptByTtl(records: map<Id, Record>, job: Job, clock: real) {
    if job.ttl > 0 then Lookup(records, job.id) == Some(Record(job, Some(clock + job.ttl as real)))
    else if job.ttl == 0 then Lookup(records, job.id) == Some(Record(job, None))
    else Lookup(records, job.id) == None
  }

  ghost predicate OthersKept(before: map<Id, Record>, after: map<Id, Record>, id: Id) {
    forall x :: x != id ==> Lookup(after, x) == Lookup(before, x)
  }

  /** Each job is stored under its own id. */
  ghost predicate WellKeyed(s: Store) {
    forall id :: id in s.records ==> s.records[id].job.id == id
  }

  /**
   * The record after a turn: completed or failed and kept by its ttl, queued again, or left as
   * active by a cancellation; the attempt is counted in every case.
   */
  lemma TurnLeavesRecord(s: Store, outcome: Outcome)
    requires s.queued != [] && WellKeyed(s) && Next(s) in s.records
    ensures var id, s' := Next(s), Process(s, true, outcome);
      var job := s.records[id].job;
      var run := Job(id, Active, job.attempts + 1, job.retries, job.ttl, job.scheduled);
      && OthersKept(s.records, s'.records, id)
      && match outcome
         case Returned => KeptByTtl(s'.records, run.(status := Complete), s.clock)
         case Raised(retryable, _) =>
           if job.attempts + 1 > job.retries then KeptByTtl(s'.records, run.(status := Failed), s.clock)
           else if retryable then Lookup(s'.records, id) == Some(Record(run.(status := Queued), None))
           else KeptByTtl(s'.records, run.(status := Failed, retries := 0), s.clock)
         case Cancelled(retryable, _) =>
           Lookup(s'.records, id) == Some(Record(run.(status := if retryable then Queued else Active), None))
  {
  }

  /** The run's outcome puts the job back. */
  predicate PutBack(job: Job, outcome: Outcome) {
    (outcome.Raised? && outcome.retryable && job.attempts < job.retries) || (outcome.Cancelled? && outcome.retryable)
  }

  lemma {:induction false} RemoveFirstAbsent(ids: seq<Id>, id: Id)
    requires id !in ids
    ensures RemoveFirst(ids, id) == ids
  {
    if ids != [] {
      RemoveFirstAbsent(ids[1..], id);
    }
  }

  /**
   * Where the id is after a turn: nowhere, queued behind the others, waiting, or still active when the
   * run was left.
   */
  lemma TurnLeavesLists(s: Store, outcome: Outcome)
    requires s.queued != [] && WellKeyed(s) && Next(s) in s.records
    requires Next(s) !in s.queued[..|s.queued| - 1] && Next(s) !in s.active
    ensures var id, s', rest := Next(s), Process(s, true, outcome), s.queued[..|s.queued| - 1];
      var job, delay := s.records[id].job, if outcome.Returned? then 0.0 else outcome.delay;
      && s'.queued == rest + (if PutBack(job, outcome) && delay == 0.0 then [id] else [])
      && s'.active == (if outcome.Cancelled? && !outcome.retryable then [id] else []) + s.active
      && Lookup(s'.incomplete, id) ==
         (if PutBack(job, outcome) then Some(if delay == 0.0 then job.scheduled as real else s.clock + delay)
          else if outcome.Cancelled? then Lookup(s.incomplete, id)
          else None)
      && (forall x :: x != id ==> Lookup(s'.incomplete, x) == Lookup(s.incomplete, x))
      && s' == s.(queued := s'.queued, active := s'.active, incomplete := s'.incomplete, records := s'.records)
  {
    RemoveFirstAbsent(s.queued[..|s.queued| - 1], Next(s));
    assert RemoveFirst([Next(s)] + s.active, Next(s)) == s.active;
  }

  /** A job that is rejected, or has no record, is only moved. */
  lemma RejectedTurn(s: Store, fits: bool, outcome: Outcome)
    requires s.queued != [] && (!fits || Next(s) !in s.records)
    ensures Process(s, fits, outcome) == s.(queued := s.queued[..|s.queued| - 1], active := [Next(s)] + s.active)
  {
  }

  /** What an update leaves: the job as given, for good, and nothing else changed. */
  lemma UpdateLeaves(s: Store, job: Job)
    ensures Lookup(Update(s, job).records, job.id) == Some(Record(job, None))
    ensures OthersKept(s.records, Update(s, job).records, job.id)
    ensures Update(s, job) == s.(records := Update(s, job).records)
  {
  }

  /** What `finish` and the worker's side of an abort leave of a job. */
  lemma FinishLeaves(s: Store, job: Job, status: Status)
    ensures KeptByTtl(Finish(s, job, status).records, job.(status := status), s.clock)
    ensures KeptByTtl(AbortRun(s, job).records, job.(status := Aborted), s.clock)
    ensures OthersKept(s.records, Finish(s, job, status).records, job.id)
    ensures OthersKept(s.records, AbortRun(s, job).records, job.id)
  {
  }

  /**
   * What an abort leaves: a queued job is finished and no abort key stays; of any other the record
   * is left to lapse one second after the abort key.
   */
  lemma AbortLeaves(s: Store, job: Job, ttl: int)
    ensures var s' := Abort(s, job, ttl);
      && OthersKept(s.records, s'.records, job.id)
      && (job.id in s.queued ==>
            KeptByTtl(s'.records, job.(status := Aborted), s.clock) && job.id !in s'.aborts)
      && (job.id !in s.queued ==>
            && Lookup(s'.aborts, job.id) == Some(s.clock + ttl as real)
            && (job.id in s'.records <==> job.id in s.records)
            && (job.id in s.records ==>
                  s'.records[job.id] == Record(s.records[job.id].job, Some(s.clock + ttl as real + 1.0))))
  {
  }

  /** Keys with a deadline are gone from the moment it is reached, and others stay. */
  lemma TickLeaves(s: Store, t: real, id: Id)
    ensures var s' := Tick(s, t);
      && s'.clock == t && (s'.queued, s'.active, s'.incomplete, s'.stuck) == (s.queued, s.active, s.incomplete, s.stuck)
      && (id in s'.records <==> id in s.records && (s.records[id].expires.None? || t < s.records[id].expires.value))
      && (id in s'.records ==> s'.records[id] == s.records[id])
      && (id in s'.aborts <==> id in s.aborts && t < s.aborts[id])
      && (id in s'.aborts ==> s'.aborts[id] == s.aborts[id])
      && s'.scheduleLock == (if s.scheduleLock.Some? && t < s.scheduleLock.value then s.scheduleLock else None)
      && s'.sweepLock == (if s.sweepLock.Some? && t < s.sweepLock.value then s.sweepLock else None)
  {
  }

  /** The dequeues of a store with enough in its queue. */
  function Taken(s: Store, n: nat): Store
    requires n <= |s.queued|
    ensures Taken(s, n).queued == s.queued[..|s.queued| - n]
  {
    if n == 0 then s else Dequeue(Taken(s, n - 1))
  }

  lemma TakenNext(s: Store, n: nat)
    requires n < |s.queued|
    ensures Next(Taken(s, n)) == s.queued[|s.queued| - 1 - n]
  {
  }

  /** Jobs are taken from where they are put: of those that a pass queues, the one due last is taken first. */
  lemma LastDueFirst(s: Store, lock: real, due: seq<Id>, n: nat)
    requires s.scheduleLock.None? && n < |due|
    ensures var s' := Schedule(s, lock, due);
      && s'.queued == s.queued + due && Next(Taken(s', n)) == due[|due| - 1 - n]
      && Taken(s', |due|).queued == s.queued
  {
    var s' := Schedule(s, lock, due);
    TakenNext(s', n);
    assert s'.queued == s.queued + due && s'.queued[..|s.queued|] == s.queued;
  }

  /** While their locks are held, passes and sweeps do nothing; otherwise they take them for the lock time. */
  lemma LocksHold(s: Store, lock: real, due: seq<Id>)
    ensures Schedule(s, lock, due).scheduleLock ==
            if s.scheduleLock.Some? then s.scheduleLock else Some(s.clock + lock)
    ensures s.scheduleLock.Some? ==> Schedule(s, lock, due) == s
    ensures TakeSweepLock(s, lock) == if s.sweepLock.Some? then s else s.(sweepLock := Some(s.clock + lock))
  {
  }

  /** A job that is enqueued for now, and one that is retried at once, is the next to be taken. */
  lemma NewestFirst(s: Store, job: Job)
    ensures job.id !in s.incomplete && job.id !in s.aborts && job.scheduled == 0 ==>
              var s' := Enqueue(s, job);
              s'.queued == s.queued + [job.id] && Next(s') == job.id && Dequeue(s').active == [job.id] + s.active
    ensures job.scheduled != 0 ==> Enqueue(s, job).queued == s.queued
    ensures job.id in s.incomplete || job.id in s.aborts ==> Enqueue(s, job) == s
    ensures var s' := Retry(s, job, 0.0); s'.queued != [] && Next(s') == job.id
  {
  }

  /** What the stuck checker takes for stuck. */
  predicate Stale(s: Store, id: Id, cron: bool) {
    && id in s.records && !cron
    && (s.records[id].expires.None? || s.records[id].expires.value - s.clock < 0.5)
    && s.records[id].job.scheduled <= 0
    && s.records[id].job.status in {New, Deferred, Queued, Aborted, Failed, Complete, Rescheduled}
  }

  /**
   * A record that is not stale is left alone however often the checker comes by; a stale one is
   * put at the end of the queue that is taken last, by every second look.
   */
  lemma StuckLooks(s: Store, id: Id, cron: bool)
    ensures !Stale(s, id, cron) ==> CheckStuck(s, id, cron) == s
    ensures Stale(s, id, cron) && id !in s.stuck ==>
              var s1 := CheckStuck(s, id, cron);
              var s2 := CheckStuck(s1, id, cron);
              && s1 == s.(stuck := s.stuck + {id})
              && s2 == s.(queued := [id] + s.queued, active := RemoveFirst(s.active, id),
                          incomplete := s.incomplete[id := s.records[id].job.scheduled as real])
  {
    if Stale(s, id, cron) && id !in s.stuck {
      assert s.stuck + {id} - {id} == s.stuck;
    }
  }

  /** The reasons for which a sweep reports an active id. */
  predicate MustGo(records: map<Id, Record>, overdue: set<Id>, id: Id) {
    || id !in records
    || records[id].job.status in {Aborted, Failed, Complete}
    || (records[id].job.status == Active && id in overdue)
  }

  lemma SweepableReasons(job: Job, late: bool)
    ensures Sweepable(job, late) <==> job.status in {Aborted, Failed, Complete} || (job.status == Active && late)
  {
  }

  /** The report follows the listing. */
  lemma {:induction false} SweptInOrder(a: seq<Id>, b: seq<Id>, records: map<Id, Record>, overdue: set<Id>)
    ensures Swept(a + b, records, overdue) == Swept(a, records, overdue) + Swept(b, records, overdue)
  {
    if b == [] {
      assert a + b == a;
    } else {
      assert (a + b)[..|a + b| - 1] == a + b[..|b| - 1];
      SweptInOrder(a, b[..|b| - 1], records, overdue);
    }
  }

  /** Each listing of an id is reported exactly for these reasons. */
  lemma {:induction false} SweptReasons(ids: seq<Id>, records: map<Id, Record>, overdue: set<Id>, id: Id)
    ensures Count(Swept(ids, records, overdue), id) == if MustGo(records, overdue, id) then Count(ids, id) else 0
  {
    if ids != [] {
      var n := |ids| - 1;
      SweptReasons(ids[..n], records, overdue, id);
      CountLast(ids, id);
      CountConcat(Swept(ids[..n], records, overdue), [ids[n]], id);
      if ids[n] in records {
        SweepableReasons(records[ids[n]].job, ids[n] in overdue);
      }
    }
  }

  /** An id as it was before. */
  predicate AsBefore(s: Store, s': Store, id: Id) {
    && Lookup(s'.records, id) == Lookup(s.records, id) && Lookup(s'.incomplete, id) == Lookup(s.incomplete, id)
    && Count(s'.active, id) == Count(s.active, id)
  }

  /** What a sweep that has settled `listed` listings of an id has made of it. */
  predicate SweptSoFar(s: Store, s': Store, overdue: set<Id>, id: Id, listed: nat) {
    if listed == 0 || !MustGo(s.records, overdue, id) then AsBefore(s, s', id)
    else
      && id !in s'.incomplete
      && (if id in s.records then
            && KeptByTtl(s'.records, s.records[id].job.(status := Aborted), s.clock)
            && Count(s'.active, id) == (if listed <= Count(s.active, id) then Count(s.active, id) - listed else 0)
          else id !in s'.records && Count(s'.active, id) == 0)
  }

  lemma SettleOne(s: Store, s1: Store, overdue: set<Id>, last: Id, id: Id, listed: nat)
    requires WellKeyed(s) && s1.clock == s.clock && SweptSoFar(s, s1, overdue, id, listed)
    ensures var s2 := SweepSeen(s1, last, JobOf(s.records, last), last in overdue);
      && SweptSoFar(s, s2, overdue, id, listed + if last == id then 1 else 0)
      && s2.clock == s1.clock && s2.queued == s1.queued && s2.aborts == s1.aborts
      && s2.stuck == s1.stuck && s2.scheduleLock == s1.scheduleLock && s2.sweepLock == s1.sweepLock
  {
    RemoveFirstCount(s1.active, last, id);
    RemoveAllCount(s1.active, last, id);
    if last in s.records {
      SweepableReasons(s.records[last].job, last in overdue);
    }
  }

  lemma {:induction false} SweepSoFar(s: Store, start: Store, ids: seq<Id>, overdue: set<Id>, id: Id)
    requires WellKeyed(s) && start == s.(sweepLock := start.sweepLock)
    ensures var s' := SweepAll(start, ids, s.records, overdue);
      && SweptSoFar(s, s', overdue, id, Count(ids, id))
      && s'.clock == s.clock && s'.queued == s.queued && s'.aborts == s.aborts
      && s'.stuck == s.stuck && s'.scheduleLock == s.scheduleLock && s'.sweepLock == start.sweepLock
  {
    if ids != [] {
      var n := |ids| - 1;
      SweepSoFar(s, start, ids[..n], overdue, id);
      CountLast(ids, id);
      SettleOne(s, SweepAll(start, ids[..n], s.records, overdue), overdue, ids[n], id, Count(ids[..n], id));
    }
  }

  /**
   * A whole sweep, for every id: a listed one is reported exactly when it has no record, its job
   * is over, or it is active and overdue. A reported one leaves the active list and `incomplete`
   * and, if it has a record, ends as aborted; any other id is as it was, and so is the queue.
   */
  lemma SweepLeaves(s: Store, lock: real, overdue: set<Id>, id: Id)
    requires WellKeyed(s) && s.sweepLock.None?
    ensures var s' := SweepAll(TakeSweepLock(s, lock), s.active, s.records, overdue);
      var reported := id in Swept(s.active, s.records, overdue);
      && s'.queued == s.queued && s'.aborts == s.aborts && s'.sweepLock == Some(s.clock + lock)
      && (reported <==> id in s.active && MustGo(s.records, overdue, id))
      && (!reported ==> AsBefore(s, s', id))
      && (reported ==> id !in s'.incomplete && id !in s'.active)
      && (reported && id in s.records ==> KeptByTtl(s'.records, s.records[id].job.(status := Aborted), s.clock))
  {
    var s' := SweepAll(TakeSweepLock(s, lock), s.active, s.records, overdue);
    SweptReasons(s.active, s.records, overdue, id);
    SweepSoFar(s, TakeSweepLock(s, lock), s.active, overdue, id);
    CountPositive(Swept(s.active, s.records, overdue), id);
    CountPositive(s.active, id);
    CountPositive(s'.active, id);
  }
}

/**
 * `TaskQueue` as it runs: each method issues its Redis commands one by one on the queue's
 * keys, and its contract says which atomic change of the store they add up to.
 */
module TaskQueueModel {
  import opened Common
  import opened QueueStore

  /** What `dequeue` comes back with. */
  datatype Taken =
    | TimedOut         // nothing was queued
    | Vanished(id: Id) // an id without a record: deserializing raises
    | Taken(job: Job)

  /** One listed id after the other, each judged by the job read for it beforehand. */
  function SweepAll(s: Store, ids: seq<Id>, seen: map<Id, Record>, overdue: set<Id>): Store {
    if ids == [] then s
    else
      var last := ids[|ids| - 1];
      SweepSeen(SweepAll(s, ids[..|ids| - 1], seen, overdue), last, JobOf(seen, last), last in overdue)
  }

  /** The listed ids that a sweep reports. */
  function Swept(ids: seq<Id>, seen: map<Id, Record>, overdue: set<Id>): seq<Id> {
    if ids == [] then []
    else
      var last := ids[|ids| - 1];
      var rest := Swept(ids[..|ids| - 1], seen, overdue);
      var job := JobOf(seen, last);
      if job.None? || Sweepable(job.value, last in overdue) then rest + [last] else rest
  }

  function CheckAllStuck(s: Store, ids: seq<Id>, crons: set<Id>): Store {
    if ids == [] then s
    else
      var last := ids[|ids| - 1];
      CheckStuck(CheckAllStuck(s, ids[..|ids| - 1], crons), last, last in crons)
  }

  /** `ZADD` with a list of score and member pairs, later pairs winning. */
  function ZAdded(scores: map<Id, real>, pairs: seq<(real, Id)>): map<Id, real> {
    if pairs == [] then scores
    else
      var last := pairs[|pairs| - 1];
      ZAdded(scores, pairs[..|pairs| - 1])[last.1 := last.0]
  }

  lemma ZeroedGrows(scores: map<Id, real>, ids: seq<Id>, n: nat)
    requires n + 1 == |ids|
    ensures Zeroed(scores, ids) == Zeroed(scores, ids[..n])[ids[n] := 0.0]
  {
    assert forall id :: id in ids <==> id in ids[..n] || id == ids[n];
  }

  lemma {:induction false} ZeroPairs(scores: map<Id, real>, ids: seq<Id>, pairs: seq<(real, Id)>)
    requires |pairs| == |ids| && forall i :: 0 <= i < |ids| ==> pairs[i] == (0.0, ids[i])
    ensures ZAdded(scores, pairs) == Zeroed(scores, ids)
  {
    if ids != [] {
      var n := |ids| - 1;
      ZeroPairs(scores, ids[..n], pairs[..n]);
      ZeroedGrows(scores, ids, n);
    }
  }

  /** Rewriting a record just before finishing the same job changes nothing. */
  lemma UpdateThenFinish(s: Store, job: Job, status: Status)
    ensures Finish(Update(s, job), job, status) == Finish(s, job, status)
  {
    assert s.records[job.id := Record(job, None)] - {job.id} == s.records - {job.id};
  }

  /** `process_queue` on a queue with something in it: take, perhaps reject, count the attempt, run, settle. */
  function Process(s: Store, fits: bool, outcome: Outcome): Store
    requires s.queued != []
  {
    var id, s' := Next(s), Dequeue(s);
    if id !in s.records || !fits then s'
    else
      var job := Started(s.records[id].job);
      EndRun(Update(s', job), job, outcome)
  }

  class TaskQueue {
    var incomplete: map<Id, real>
    var queued: seq<Id>
    var active: seq<Id>
    var records: map<Id, Record>
    var aborts: map<Id, real>
    var scheduleLock: Option<real>
    var sweepLock: Option<real>
    var stuck: set<Id>
    var clock: real

    constructor (clock: real)
      requires clock >= 1.0
      ensures IsEmpty(View()) && View().clock == clock
    {
      incomplete, queued, active, records, aborts := map[], [], [], map[], map[];
      scheduleLock, sweepLock, stuck := None, None, {};
      this.clock := clock;
    }

    /** The keys of the queue as one value. */
    ghost function View(): Store
      reads this
    {
      Store(incomplete, queued, active, records, aborts, scheduleLock, sweepLock, stuck, clock)
    }

    method Enqueue(job: Job) returns (accepted: bool)
      modifies this
      ensures accepted == Accepts(old(View()), job.id)
      ensures View() == QueueStore.Enqueue(old(View()), job)
    {
      var queuedJob := job.(status := Queued);
      if job.id !in incomplete && job.id !in aborts {
        records := records[job.id := Record(queuedJob, None)];
        incomplete := incomplete[job.id := job.scheduled as real];
        if job.scheduled == 0 {
          queued := queued + [job.id];
        }
        return true;
      }
      return false;
    }

    method ZAdd(pairs: seq<(real, Id)>)
      modifies this`incomplete
      ensures incomplete == ZAdded(old(incomplete), pairs)
    {
      for i := 0 to |pairs|
        invariant incomplete == ZAdded(old(incomplete), pairs[..i])
      {
        assert pairs[..i + 1][..i] == pairs[..i];
        incomplete := incomplete[pairs[i].1 := pairs[i].0];
      }
      assert pairs[..|pairs|] == pairs;
    }

    /** The schedule script; `due` is the reply of its range query. */
    method Schedule(now: real, lock: real, due: seq<Id>) returns (jobs: Option<seq<Id>>)
      requires IsDueListing(View(), now, due)
      modifies this
      ensures View() == QueueStore.Schedule(old(View()), lock, due)
      ensures jobs == if old(scheduleLock).None? then Some(due) else None
    {
      if scheduleLock.None? {
        scheduleLock := Some(clock + lock);
        if due != [] {
          var scores: seq<(real, Id)> := [];
          for i := 0 to |due|
            invariant |scores| == i && forall k :: 0 <= k < i ==> scores[k] == (0.0, due[k])
          {
            scores := scores + [(0.0, due[i])];
          }
          ZeroPairs(incomplete, due, scores);
          ZAdd(scores);
          queued := queued + due;
        } else {
          assert Zeroed(incomplete, due) == incomplete;
        }
        return Some(due);
      }
      return None;
    }

    method Dequeue() returns (taken: Taken)
      modifies this
      ensures old(queued) == [] ==> taken == TimedOut && View() == old(View())
      ensures old(queued) != [] ==>
                var id := Next(old(View()));
                && View() == QueueStore.Dequeue(old(View()))
                && taken == (if id in old(records) then Taken(old(records)[id].job) else Vanished(id))
    {
      if queued == [] {
        return TimedOut;
      }
      var id := queued[|queued| - 1];
      queued := queued[..|queued| - 1];
      active := [id] + active;
      return if id in records then Taken(records[id].job) else Vanished(id);
    }

    method Update(job: Job)
      modifies this
      ensures View() == QueueStore.Update(old(View()), job)
    {
      records := records[job.id := Record(job, None)];
    }

    method Finish(job: Job, status: Status)
      modifies this
      ensures View() == QueueStore.Finish(old(View()), job, status)
    {
      var done := job.(status := status);
      active := RemoveFirst(active, job.id);
      incomplete := incomplete - {job.id};
      if job.ttl > 0 {
        records := records[job.id := Record(done, Some(clock + job.ttl as real))];
      } else if job.ttl == 0 {
        records := records[job.id := Record(done, None)];
      } else {
        records := records - {job.id};
      }
    }

    method Retry(job: Job, delay: real)
      modifies this
      ensures View() == QueueStore.Retry(old(View()), job, delay)
    {
      var again := job.(status := Queued);
      active := RemoveFirst(active, job.id);
      queued := RemoveFirst(queued, job.id);
      if delay != 0.0 {
        incomplete := incomplete[job.id := clock + delay];
      } else {
        incomplete := incomplete[job.id := again.scheduled as real];
        queued := queued + [job.id];
      }
      records := records[job.id := Record(again, None)];
    }

    method Reschedule(job: Job, wait: real)
      modifies this
      ensures View() == QueueStore.Reschedule(old(View()), job, wait)
    {
      Finish(job, Rescheduled);
      active := RemoveFirst(active, job.id);
      queued := RemoveFirst(queued, job.id);
      incomplete := incomplete[job.id := clock + wait];
      records := records[job.id := Record(job.(status := Queued), None)];
    }

    method Abort(job: Job, ttl: int)
      modifies this
      ensures View() == QueueStore.Abort(old(View()), job, ttl)
    {
      var dequeued := job.id in queued;
      queued := RemoveAll(queued, job.id);
      incomplete := incomplete - {job.id};
      if job.id in records {
        records := records[job.id := records[job.id].(expires := Some(clock + (ttl + 1) as real))];
      }
      aborts := aborts[job.id := clock + ttl as real];
      if dequeued {
        Finish(job, Aborted);
        aborts := aborts - {job.id};
      } else {
        active := RemoveAll(active, job.id);
      }
    }

    /** The worker cancels its own run of an aborted job. */
    method AbortRun(job: Job)
      modifies this
      ensures View() == QueueStore.AbortRun(old(View()), job)
    {
      Finish(job, Aborted);
      aborts := aborts - {job.id};
    }

    /** A sweep: list the active ids under the lock, read all their jobs, then settle them in turn. */
    method Sweep(lock: real, overdue: set<Id>) returns (swept: seq<Id>)
      modifies this
      ensures old(sweepLock).Some? ==> View() == old(View()) && swept == []
      ensures old(sweepLock).None? ==>
                && View() == SweepAll(TakeSweepLock(old(View()), lock), old(active), old(records), overdue)
                && swept == Swept(old(active), old(records), overdue)
    {
      swept := [];
      if sweepLock.Some? {
        return;
      }
      sweepLock := Some(clock + lock);
      var ids, seen := active, records;
      ghost var start := View();
      for i := 0 to |ids|
        invariant View() == SweepAll(start, ids[..i], seen, overdue)
        invariant swept == Swept(ids[..i], seen, overdue)
      {
        var id := ids[i];
        assert ids[..i + 1][..i] == ids[..i];
        if id !in seen {
          swept := swept + [id];
          active := RemoveAll(active, id);
          incomplete := incomplete - {id};
        } else if Sweepable(seen[id].job, id in overdue) {
          swept := swept + [id];
          Finish(seen[id].job, Aborted);
        }
      }
      assert ids[..|ids|] == ids;
    }

    /** The checker's look at one key. */
    method CheckStuckJob(id: Id, cron: bool)
      modifies this
      ensures View() == CheckStuck(old(View()), id, cron)
    {
      if id in records && LooksLasting(records[id], clock) {
        var job := records[id].job;
        if job.scheduled <= 0 && !cron && job.status != Active {
          if id !in stuck {
            stuck := stuck + {id};
          } else {
            active := RemoveFirst(active, id);
            queued := [id] + queued;
            incomplete := incomplete - {id};
            incomplete := incomplete[id := job.scheduled as real];
            stuck := stuck - {id};
          }
        }
      }
    }

    /** The stuck checker goes through a listing of job keys. */
    method CheckStuckJobs(ids: seq<Id>, crons: set<Id>)
      modifies this
      ensures View() == CheckAllStuck(old(View()), ids, crons)
    {
      for i := 0 to |ids|
        invariant View() == CheckAllStuck(old(View()), ids[..i], crons)
      {
        assert ids[..i + 1][..i] == ids[..i];
        CheckStuckJob(ids[i], ids[i] in crons);
      }
      assert ids[..|ids|] == ids;
    }

    /**
     * One turn of `process_queue`. `fits` is the worker id and name check; `outcome` is how the
     * function ends, and `jobError` tells the JobError branch from the general one.
     */
    method ProcessQueue(fits: bool, outcome: Outcome, jobError: bool)
      modifies this
      ensures old(queued) == [] ==> View() == old(View())
      ensures old(queued) != [] ==> View() == Process(old(View()), fits, outcome)
    {
      var taken := Dequeue();
      if !taken.Taken? || !fits {
        return;
      }
      var job := taken.job;
      job := job.(status := Active, attempts := job.attempts + 1);
      Update(job);
      match outcome {
        case Returned => Finish(job, Complete);
        case Raised(retryable, delay) =>
          if job.attempts > job.retries {
            Finish(job, Failed);
          } else if retryable {
            Retry(job, delay);
          } else {
            job := job.(retries := 0);
            if jobError {
              UpdateThenFinish(View(), job, Failed);
              Update(job);
            }
            Finish(job, Failed);
          }
        case Cancelled(retryable, delay) =>
          if retryable {
            Retry(job, delay);
          }
      }
    }
  }
}

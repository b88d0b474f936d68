/**
 * Runs from the empty queue that end with two holders of one id, because of a few steps that are not
 * disciplined: an immediate retry of a scheduled job, a lapsing abort key, a sweep of a running job, two
 * looks of the stuck checker. And a disciplined run in which an aborted job comes back.
 */
module QueueRuns {
  import opened Common
  import opened QueueStore
  import opened QueueProtocol

  /** An empty queue ten seconds after the epoch. */
  function Fresh(): (s: System)
    ensures IsEmpty(s.store) && s.held == map[]
  {
    System(Store(map[], [], [], map[], map[], None, None, {}, 10.0), map[])
  }

  ghost function Last(r: Run): System
    requires r.states != []
  {
    r.states[|r.states| - 1]
  }

  ghost function Extend(r: Run, step: Step): Run
    requires r.states != [] && Enabled(Last(r), step)
  {
    Run(r.states + [Apply(Last(r), step)], r.steps + [step])
  }

  /** A run that starts empty and whose steps are disciplined, but perhaps for those from `lo` to below `hi`. */
  ghost predicate RunWithSlips(r: Run, lo: nat, hi: nat) {
    && IsRun(r) && StartsEmpty(r)
    && forall i :: 0 <= i < |r.steps| && !(lo <= i < hi) ==> Disciplined(r.states[i], r.steps[i])
  }

  lemma ExtendRun(r: Run, step: Step, lo: nat, hi: nat) returns (r': Run)
    requires RunWithSlips(r, lo, hi) && Enabled(Last(r), step)
    requires !(lo <= |r.steps| < hi) ==> Disciplined(Last(r), step)
    ensures r' == Extend(r, step) && RunWithSlips(r', lo, hi)
    ensures Last(r') == Apply(Last(r), step) && |r'.steps| == |r.steps| + 1
  {
    r' := Extend(r, step);
    forall i | 0 <= i < |r'.steps|
      ensures Enabled(r'.states[i], r'.steps[i]) && r'.states[i + 1] == Apply(r'.states[i], r'.steps[i])
      ensures !(lo <= i < hi) ==> Disciplined(r'.states[i], r'.steps[i])
    {
      if i < |r.steps| {
        assert r'.states[i] == r.states[i] && r'.steps[i] == r.steps[i] && r'.states[i + 1] == r.states[i + 1];
      }
    }
  }

  /** A job that was due at second 5 and may be retried once. */
  function LateJob(status: Status, attempts: nat): Job {
    Job(7, status, attempts, 1, 60, 5)
  }

  /** The queue that knows only the late job. */
  function With(score: real, queued: seq<Id>, active: seq<Id>, job: Job, lock: Option<real>, clock: real): Store {
    Store(map[7 := score], queued, active, map[7 := Record(job, None)], map[], lock, None, {}, clock)
  }

  lemma DueAlone(s: Store, now: real)
    requires s.incomplete == map[7 := 5.0] && now >= 5.0
    ensures IsDueListing(s, now, [7])
  {
    forall id ensures Count([7], id) <= 1 {
      assert [7][1..] == [];
    }
  }

  /** The job is accepted and, being overdue, queued by the first scheduling pass. */
  lemma AcceptLateJob() returns (r: Run)
    ensures RunWithSlips(r, 4, 5) && |r.steps| == 2
    ensures Last(r) == System(With(0.0, [7], [], LateJob(Queued, 0), Some(11.0), 10.0), map[])
  {
    var s := With(5.0, [], [], LateJob(Queued, 0), None, 10.0);
    r := Run([Fresh()], []);
    r := ExtendRun(r, DoEnqueue(LateJob(Queued, 0)), 4, 5);
    assert Last(r).store == s;
    DueAlone(s, 10.0);
    assert Zeroed(s.incomplete, [7]) == map[7 := 0.0];
    r := ExtendRun(r, DoSchedule(10.0, 1.0, [7]), 4, 5);
  }

  /** Its first run begins. */
  lemma StartLateJob() returns (r: Run)
    ensures RunWithSlips(r, 4, 5) && |r.steps| == 4
    ensures Last(r) == System(With(0.0, [], [7], LateJob(Active, 1), Some(11.0), 10.0),
        map[0 := Held(LateJob(Active, 1), true)])
  {
    r := AcceptLateJob();
    r := ExtendRun(r, DoDequeue(0), 4, 5);
    assert Last(r) == System(With(0.0, [], [7], LateJob(Queued, 0), Some(11.0), 10.0),
        map[0 := Held(LateJob(Queued, 0), false)]);
    r := ExtendRun(r, DoStart(0), 4, 5);
  }

  lemma RetryLateJob()
    ensures Retry(With(0.0, [], [7], LateJob(Active, 1), Some(11.0), 10.0), LateJob(Active, 1), 0.0)
         == With(5.0, [7], [], LateJob(Queued, 1), Some(11.0), 10.0)
  {
  }

  /** It fails and is retried at once: queued again, yet still marked as due at second 5. */
  lemma FailLateJob() returns (r: Run)
    ensures RunWithSlips(r, 4, 5) && |r.steps| == 5 && r.steps[4] == DoEnd(0, Raised(true, 0.0))
    ensures Last(r) == System(With(5.0, [7], [], LateJob(Queued, 1), Some(11.0), 10.0), map[])
  {
    r := StartLateJob();
    RetryLateJob();
    r := ExtendRun(r, DoEnd(0, Raised(true, 0.0)), 4, 5);
  }

  lemma PassOneSecond()
    ensures Tick(With(5.0, [7], [], LateJob(Queued, 1), Some(11.0), 10.0), 11.0)
         == With(5.0, [7], [], LateJob(Queued, 1), None, 11.0)
  {
    assert map[7 := Record(LateJob(Queued, 1), None)] ==
           map id | id in map[7 := Record(LateJob(Queued, 1), None)] :: Record(LateJob(Queued, 1), None);
  }

  lemma QueueAgain()
    ensures Schedule(With(5.0, [7], [], LateJob(Queued, 1), None, 11.0), 1.0, [7])
         == With(0.0, [7, 7], [], LateJob(Queued, 1), Some(12.0), 11.0)
  {
    assert Zeroed(map[7 := 5.0], [7]) == map[7 := 0.0];
  }

  /** The next scheduling pass queues the id a second time. */
  lemma QueueLateJobTwice() returns (r: Run)
    ensures RunWithSlips(r, 4, 5) && |r.steps| == 7 && r.steps[4] == DoEnd(0, Raised(true, 0.0))
    ensures Last(r) == System(With(0.0, [7, 7], [], LateJob(Queued, 1), Some(12.0), 11.0), map[])
  {
    r := FailLateJob();
    PassOneSecond();
    r := ExtendRun(r, DoTick(11.0), 4, 5);
    DueAlone(Last(r).store, 11.0);
    QueueAgain();
    r := ExtendRun(r, DoSchedule(11.0, 1.0, [7]), 4, 5);
  }

  /** One undisciplined step, an immediate retry of a scheduled job, and two runs hold the same id. */
  lemma ScheduledRetryRunsTwice() returns (r: Run)
    ensures RunWithSlips(r, 4, 5) && |r.steps| == 9 && r.steps[4] == DoEnd(0, Raised(true, 0.0))
    ensures Holds(Last(r), 0, 7) && Holds(Last(r), 1, 7)
  {
    r := QueueLateJobTwice();
    r := ExtendRun(r, DoDequeue(0), 4, 5);
    assert Last(r).store.queued == [7];
    r := ExtendRun(r, DoDequeue(1), 4, 5);
  }

  /** A job without a schedule that may be retried once. */
  function PlainJob(): Job {
    Job(7, Queued, 0, 1, 60, 0)
  }

  lemma QueueJob(lo: nat, hi: nat) returns (r: Run)
    requires lo == hi || lo > 0
    ensures RunWithSlips(r, lo, hi) && r.steps == [DoEnqueue(PlainJob())]
    ensures Last(r) == System(With(0.0, [7], [], PlainJob(), None, 10.0), map[])
  {
    r := ExtendRun(Run([Fresh()], []), DoEnqueue(PlainJob()), lo, hi);
  }

  lemma TakeJob(lo: nat, hi: nat) returns (r: Run)
    requires lo == hi || lo > 1
    ensures RunWithSlips(r, lo, hi) && |r.steps| == 2
    ensures Last(r) == System(With(0.0, [], [7], PlainJob(), None, 10.0), map[0 := Held(PlainJob(), false)])
  {
    r := QueueJob(lo, hi);
    r := ExtendRun(r, DoDequeue(0), lo, hi);
  }

  /** Enqueue job 7, let task 0 take and start it. */
  lemma StartJob(lo: nat, hi: nat) returns (r: Run)
    requires lo == hi || lo > 2
    ensures RunWithSlips(r, lo, hi) && |r.steps| == 3
    ensures Last(r) == System(With(0.0, [], [7], Started(PlainJob()), None, 10.0),
        map[0 := Held(Started(PlainJob()), true)])
  {
    r := TakeJob(lo, hi);
    r := ExtendRun(r, DoStart(0), lo, hi);
  }

  /** Once the id is enqueued anew beside its holder, a second task gets it. */
  lemma TakeAgain(r: Run, lo: nat, hi: nat) returns (r': Run)
    requires RunWithSlips(r, lo, hi) && |r.steps| >= hi
    requires Last(r).store.queued == [] && Accepts(Last(r).store, 7) && Last(r).held.Keys == {0} && Holds(Last(r), 0, 7)
    ensures RunWithSlips(r', lo, hi) && |r'.steps| == |r.steps| + 2 && r'.steps[..|r.steps|] == r.steps
    ensures Holds(Last(r'), 0, 7) && Holds(Last(r'), 1, 7)
  {
    r' := ExtendRun(r, DoEnqueue(PlainJob()), lo, hi);
    assert Last(r').store.queued == [7];
    r' := ExtendRun(r', DoDequeue(1), lo, hi);
  }

  /** The running job is aborted from outside, for five seconds. */
  lemma AbortJob(lo: nat, hi: nat) returns (r: Run)
    requires lo == hi || lo > 3
    ensures RunWithSlips(r, lo, hi) && |r.steps| == 4 && r.steps[3] == DoAbort(PlainJob(), 5)
    ensures var s := Last(r);
      && s.store.queued == [] && s.store.incomplete == map[] && s.store.aborts == map[7 := 15.0]
      && s.store.clock == 10.0
      && s.held == map[0 := Held(Started(PlainJob()), true)]
  {
    r := StartJob(lo, hi);
    r := ExtendRun(r, DoAbort(PlainJob(), 5), lo, hi);
  }

  /** The abort key lapses, so that the id can be enqueued again beside its holder. */
  lemma AbortLapses(s: System)
    requires s.store.queued == [] && s.store.incomplete == map[] && s.store.aborts == map[7 := 15.0]
    ensures var s' := Tick(s.store, 15.0); s'.queued == [] && s'.incomplete == map[] && 7 !in s'.aborts
  {
  }

  /** One abort key that lapses before the aborted run has ended, and two runs hold the same id. */
  lemma LapsedAbortRunsTwice() returns (r: Run)
    ensures RunWithSlips(r, 4, 5) && |r.steps| == 7 && r.steps[4] == DoTick(15.0)
    ensures Holds(Last(r), 0, 7) && Holds(Last(r), 1, 7)
  {
    r := AbortJob(4, 5);
    AbortLapses(Last(r));
    r := ExtendRun(r, DoTick(15.0), 4, 5);
    r := TakeAgain(r, 4, 5);
  }

  /** One sweep of a job that is still running, and two runs hold the same id. */
  lemma SweptHolderRunsTwice() returns (r: Run)
    ensures RunWithSlips(r, 3, 4) && |r.steps| == 6 && r.steps[3] == DoSweep(7, true)
    ensures Holds(Last(r), 0, 7) && Holds(Last(r), 1, 7)
  {
    r := StartJob(3, 4);
    r := ExtendRun(r, DoSweep(7, true), 3, 4);
    assert Last(r).store.incomplete == map[];
    r := TakeAgain(r, 3, 4);
  }

  /** What the checker makes of the waiting job: it marks it, then queues it a second time. */
  lemma CheckTwice()
    ensures var s := With(0.0, [7], [], PlainJob(), None, 10.0);
      && CheckStuck(s, 7, false) == s.(stuck := {7})
      && CheckStuck(s.(stuck := {7}), 7, false) == With(0.0, [7, 7], [], PlainJob(), None, 10.0)
  {
    var s := With(0.0, [7], [], PlainJob(), None, 10.0);
    assert s.stuck + {7} == {7} && {7} - {7} == s.stuck;
    assert [7] + s.queued == [7, 7] && RemoveFirst(s.active, 7) == [];
  }

  lemma QueueStuckJobTwice() returns (r: Run)
    ensures RunWithSlips(r, 1, 3) && Last(r) == System(With(0.0, [7, 7], [], PlainJob(), None, 10.0), map[])
    ensures r.steps == [DoEnqueue(PlainJob()), DoCheckStuck(7, false), DoCheckStuck(7, false)]
  {
    var s := With(0.0, [7], [], PlainJob(), None, 10.0);
    CheckTwice();
    r := QueueJob(1, 3);
    r := ExtendRun(r, DoCheckStuck(7, false), 1, 3);
    assert Last(r) == System(s.(stuck := {7}), map[]);
    r := ExtendRun(r, DoCheckStuck(7, false), 1, 3);
  }

  /** Two looks of the stuck checker at a job that waits in the queue, and two runs hold the same id. */
  lemma StuckJobRunsTwice() returns (r: Run)
    ensures RunWithSlips(r, 1, 3) && Holds(Last(r), 0, 7) && Holds(Last(r), 1, 7)
    ensures r.steps == [DoEnqueue(PlainJob()), DoCheckStuck(7, false), DoCheckStuck(7, false), DoDequeue(0),
                    DoDequeue(1)]
  {
    r := QueueStuckJobTwice();
    r := ExtendRun(r, DoDequeue(0), 1, 3);
    assert Last(r).store.queued == [7] && Holds(Last(r), 0, 7);
    r := ExtendRun(r, DoDequeue(1), 1, 3);
  }

  /** Disciplined steps only: a job is aborted while it runs, its run fails instead, and the retry queues it again. */
  lemma AbortedJobReturns() returns (r: Run)
    ensures RunWithSlips(r, 0, 0) && |r.steps| == 5
    ensures r.steps[3] == DoAbort(PlainJob(), 5) && r.steps[4] == DoEnd(0, Raised(true, 0.0))
    ensures Last(r).store.queued == [7] && 7 in Last(r).store.aborts
  {
    r := AbortJob(0, 0);
    r := ExtendRun(r, DoEnd(0, Raised(true, 0.0)), 0, 0);
  }
}

/**
 * When the pool is exhausted for good. A connection that warming could not connect keeps one count,
 * and one whose caller failed keeps both, so enough of them leave no room for a usable connection.
 */
module PoolExhaustion {
  import opened Common
  import opened PoolState
  import opened PoolProtocol
  import opened PoolSafety
  import opened PoolWakeup

  /** The connection is idle, popped, or with a task that has not given it back. */
  ghost predicate Usable(s: System, c: Conn) {
    c in s.pool.available || IsInFlight(s.tasks, c) || IsHeld(s.tasks, c)
  }

  ghost predicate SomeoneHolds(s: System) {
    exists c :: IsHeld(s.tasks, c)
  }

  /** No usable connection is left, none is being warmed, and the counter allows no new one. */
  ghost predicate Dead(s: System) {
    s.pool.created >= s.pool.max && !SomeWarming(s) && forall c :: !Usable(s, c)
  }

  /** The counts that lost and leaked connections keep. */
  function Wasted(s: System): nat {
    |s.pool.lost| + 2 * |s.leaked|
  }

  /** The usable connections are the live ones that were not leaked. */
  lemma UsableCount(s: System)
    requires Safe(s)
    ensures forall c :: Usable(s, c) <==> c in Live(s) - s.leaked
    ensures |Live(s) - s.leaked| == |Live(s)| - |s.leaked|
  {
    forall c ensures Usable(s, c) <==> c in Live(s) - s.leaked {
      assert Placed(s, c);
      CountPositive(s.pool.available, c);
    }
    forall c | c in s.leaked ensures c in Live(s) {
      assert Placed(s, c);
    }
    assert Live(s) == (Live(s) - s.leaked) + s.leaked;
  }

  /** The pool is dead exactly when the wasted counts reach the limit. */
  lemma DeadBoundary(r: Run, i: nat)
    requires IsRun(r) && i < |r.states|
    ensures Dead(r.states[i]) <==> Wasted(r.states[i]) >= r.states[i].pool.max
  {
    var s := r.states[i];
    SafeAlong(r, i);
    CounterIsDouble(r, i);
    UsableCount(s);
    if Wasted(s) >= s.pool.max || Dead(s) {
      assert Live(s) - s.leaked == {};
    }
  }

  /**
   * In a settled state with a parked task and no connection popped, some task holds a connection,
   * which it can give back, exactly when the wasted counts are below the limit.
   */
  lemma SomeoneCanRelease(r: Run, i: nat)
    requires IsRun(r) && i < |r.states| && r.states[i].pool.parked != []
    requires Settled(r.states[i]) && forall c :: !IsInFlight(r.states[i].tasks, c)
    ensures SomeoneHolds(r.states[i]) <==> Wasted(r.states[i]) < r.states[i].pool.max
  {
    NoLostWakeup(r, i);
    DeadBoundary(r, i);
    assert forall c :: Usable(r.states[i], c) <==> IsHeld(r.states[i].tasks, c);
  }

  /** A dead pool stays dead. */
  lemma DeadStays(s: System, step: Step)
    requires Safe(s) && Dead(s) && Enabled(s, step)
    ensures Dead(Apply(s, step))
  {
    var s' := Apply(s, step);
    assert forall c :: !Usable(s, c);
    assert s.pool.available != [] ==> Usable(s, LastAvailable(s.pool));
    if step.EnterFast? {
      assert InFlight(s.tasks, step.task, s.tasks[step.task].conn);
      assert Usable(s, s.tasks[step.task].conn);
    }
    if step.Release? || step.EnterRelease? || step.Fail? {
      assert Holds(s.tasks, step.task, s.tasks[step.task].conn);
      assert Usable(s, s.tasks[step.task].conn);
    }
    forall c ensures !Usable(s', c) {
      assert !Usable(s, c);
      assert Placed(s, c);
      Moved(s, s'.tasks, step.task, c);
    }
  }

  /** From then on no task of the run ever has a connection. */
  lemma {:induction false} DeadForever(r: Run, i: nat, j: nat)
    requires IsRun(r) && i <= j < |r.states| && Dead(r.states[i])
    ensures Dead(r.states[j]) && !SomeoneHolds(r.states[j])
    decreases j
  {
    if i < j {
      DeadForever(r, i, j - 1);
      SafeAlong(r, j - 1);
      DeadStays(r.states[j - 1], r.steps[j - 1]);
    }
    forall c ensures !IsHeld(r.states[j].tasks, c) {
      assert !Usable(r.states[j], c);
    }
  }

  ghost function Last(r: Run): System
    requires r.states != []
  {
    r.states[|r.states| - 1]
  }

  /** The second run goes on where the first one ends. */
  ghost predicate Continues(r: Run, r': Run) {
    && IsRun(r') && 0 < |r.states| <= |r'.states|
    && r'.states[..|r.states|] == r.states && r'.steps[..|r.states| - 1] == r.steps
  }

  lemma Extend(r: Run, step: Step) returns (r': Run)
    requires IsRun(r) && Enabled(Last(r), step)
    ensures Continues(r, r') && Last(r') == Apply(Last(r), step)
    ensures r'.states == r.states + [Last(r')] && r'.steps == r.steps + [step]
  {
    r' := Run(r.states + [Apply(Last(r), step)], r.steps + [step]);
    forall i | 0 <= i < |r'.steps|
      ensures Enabled(r'.states[i], r'.steps[i]) && r'.states[i + 1] == Apply(r'.states[i], r'.steps[i])
    {
      if i < |r.steps| {
        assert r'.states[i] == r.states[i] && r'.steps[i] == r.steps[i] && r'.states[i + 1] == r.states[i + 1];
      }
    }
  }

  lemma ContinuesTrans(a: Run, b: Run, c: Run)
    requires Continues(a, b) && Continues(b, c)
    ensures Continues(a, c)
  {
    var n := |a.states|;
    assert c.states[..n] == c.states[..|b.states|][..n] == b.states[..n];
    assert c.steps[..n - 1] == c.steps[..|b.states| - 1][..n - 1] == b.steps[..n - 1];
  }

  /** There is always a task that is not busy with the pool. */
  lemma NewTask(tasks: map<Task, At>) returns (t: Task)
    ensures t !in tasks
  {
    var n := |tasks.Keys| + 1;
    if forall u: Task :: u < n ==> u in tasks.Keys {
      SubsetSize(Numbers(n), tasks.Keys);
      assert false;
    }
    t :| t < n && t !in tasks.Keys;
  }

  /** The lock holder can always go on to where it lets go of the lock, and the pool is not dead then. */
  lemma FreeLock(r: Run) returns (r': Run)
    requires IsRun(r) && !Dead(Last(r))
    ensures Continues(r, r') && Last(r').lock.None? && !Dead(Last(r'))
  {
    r' := r;
    var s := Last(r);
    SafeAlong(r, |r.states| - 1);
    if s.lock.Some? {
      var t := s.lock.value;
      if s.tasks[t].Releasing? {
        r' := Extend(r, FinishRelease(t));
        var s' := Last(r');
        forall c | Usable(s, c) ensures Usable(s', c) {
          assert Placed(s, c);
          Moved(s, s'.tasks, t, c);
        }
      } else {
        var c := s.tasks[t].conn;
        r' := Extend(r, Connected(t));
        assert c in Last(r').pool.available && Usable(Last(r'), c);
        if Last(r').lock.Some? {
          var r1 := r';
          r' := Extend(r1, ConnectFailed(t));
          ContinuesTrans(r, r1, r');
          assert Usable(Last(r'), c);
        }
      }
    }
  }

  /** A popped connection is claimed by its task. */
  lemma ClaimPopped(r: Run, t: Task, c: Conn) returns (r': Run)
    requires IsRun(r) && Last(r).lock.None? && InFlight(Last(r).tasks, t, c)
    ensures Continues(r, r') && SomeoneHolds(Last(r'))
  {
    SafeAlong(r, |r.states| - 1);
    NotInUse(Last(r), c);
    r' := Extend(r, EnterFast(t));
    assert Holds(Last(r').tasks, t, c);
    assert IsHeld(Last(r').tasks, c);
  }

  /** A new task is served when something is idle or the counter is below the limit. */
  lemma ServeNew(r: Run) returns (r': Run)
    requires IsRun(r) && Last(r).lock.None? && (Last(r).pool.available != [] || MayMake(Last(r).pool))
    ensures Continues(r, r') && SomeoneHolds(Last(r'))
  {
    var s := Last(r);
    var t := NewTask(s.tasks);
    var r1 := Extend(r, Get(t));
    if s.pool.available != [] {
      r' := ClaimPopped(r1, t, LastAvailable(s.pool));
    } else {
      r' := Extend(r1, EnterSlow(t));
      assert Holds(Last(r').tasks, t, s.pool.made);
      assert IsHeld(Last(r').tasks, s.pool.made);
    }
    ContinuesTrans(r, r1, r');
  }

  /** Unless the pool is dead, some continuation hands out a connection. */
  lemma ServeAgain(r: Run) returns (r': Run)
    requires IsRun(r) && !Dead(Last(r))
    ensures Continues(r, r') && SomeoneHolds(Last(r'))
  {
    var r1 := FreeLock(r);
    var s := Last(r1);
    if c :| IsHeld(s.tasks, c) {
      r' := r1;
    } else if c :| IsInFlight(s.tasks, c) {
      var t :| InFlight(s.tasks, t, c);
      r' := ClaimPopped(r1, t, c);
    } else {
      assert s.pool.available == [] ==> forall c :: !Usable(s, c);
      r' := ServeNew(r1);
    }
    ContinuesTrans(r, r1, r');
  }

  /** Some task can still get a connection, or has one, exactly when the wasted counts are below the limit. */
  lemma ServiceBoundary(r: Run)
    requires IsRun(r)
    ensures (exists r' :: Continues(r, r') && SomeoneHolds(Last(r'))) <==> Wasted(Last(r)) < Last(r).pool.max
  {
    var n := |r.states| - 1;
    DeadBoundary(r, n);
    if Dead(Last(r)) {
      forall r' | Continues(r, r') ensures !SomeoneHolds(Last(r')) {
        assert r'.states[..|r.states|][n] == r.states[n];
        DeadForever(r', n, |r'.states| - 1);
      }
    } else {
      var r' := ServeAgain(r);
    }
  }

  /** A pool of one connection. */
  function Single(): System {
    System(Pool(1, 0, [], {}, 0, {}, [], {}), None, map[], {})
  }

  lemma WarmSingle() returns (r: Run)
    ensures IsRun(r) && |r.steps| == 2
    ensures Last(r) == System(Pool(1, 1, [], {}, 1, {}, [], {}), Some(0), map[0 := Warming(1, 0)], {})
  {
    r := Extend(Run([Single()], []), Warm(0, 1));
    assert Last(r).tasks == map[0 := WarmLock(1)];
    r := Extend(r, EnterWarm(0));
  }

  /** It is dead after a single failed warm-up. */
  lemma OneFailureKills() returns (r: Run)
    ensures IsRun(r) && |r.steps| == 3 && r.steps[2] == ConnectFailed(0)
    ensures r.states[3].pool.max == 1 && Dead(r.states[3])
  {
    r := WarmSingle();
    r := Extend(r, ConnectFailed(0));
    DeadBoundary(r, 3);
  }

  /** Or after a single failed health check; the next caller is parked for good, though nothing was lost. */
  lemma OneLeakKills() returns (r: Run)
    ensures IsRun(r) && |r.steps| == 6 && r.steps[2] == Fail(0) && r.states[6].pool.max == 1
    ensures Dead(r.states[3]) && r.states[6].pool.parked == [1] && r.states[6].pool.lost == {}
  {
    r := Extend(Run([Single()], []), Get(0));
    r := Extend(r, EnterSlow(0));
    r := Extend(r, Fail(0));
    DeadBoundary(r, 3);
    r := Extend(r, Get(1));
    r := Extend(r, EnterSlow(1));
    r := Extend(r, EnterBlocked(1));
  }
}

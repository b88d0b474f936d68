/**
 * Safety of the pool: every connection is in exactly one place, a handed-out connection has
 * one user, the counter is twice the connections, and their number stays within the limit.
 */
module PoolSafety {
  import opened Common
  import opened PoolState
  import opened PoolProtocol

  ghost predicate InFlight(tasks: map<Task, At>, t: Task, c: Conn) {
    t in tasks && tasks[t] == FastLock(c)
  }

  ghost predicate IsInFlight(tasks: map<Task, At>, c: Conn) {
    exists t :: InFlight(tasks, t, c)
  }

  /** The task has the connection and has not given it back. */
  ghost predicate Holds(tasks: map<Task, At>, t: Task, c: Conn) {
    t in tasks && (tasks[t] == Using(c) || tasks[t] == ReleaseLock(c))
  }

  ghost predicate IsHeld(tasks: map<Task, At>, c: Conn) {
    exists t :: Holds(tasks, t, c)
  }

  /** The connection that the lock holder is warming up. */
  predicate IsWarming(s: System, c: Conn) {
    s.lock.Some? && s.lock.value in s.tasks && s.tasks[s.lock.value].Warming? && s.tasks[s.lock.value].conn == c
  }

  predicate SomeWarming(s: System) {
    s.lock.Some? && s.lock.value in s.tasks && s.tasks[s.lock.value].Warming?
  }

  function One(b: bool): nat {
    if b then 1 else 0
  }

  /** In how many places the connection is: idle list, in use, lost, popped by a task, being warmed. */
  ghost function Places(s: System, c: Conn): nat {
    Count(s.pool.available, c) + One(c in s.pool.inUse) + One(c in s.pool.lost)
    + One(IsInFlight(s.tasks, c)) + One(IsWarming(s, c))
  }

  /**
   * Connections that exist are in one place, others in none; one task pops it, one task uses it.
   * What is in use has either a holder or been leaked.
   */
  ghost predicate Placed(s: System, c: Conn) {
    && Places(s, c) == One(c < s.pool.made)
    && (forall t, u :: InFlight(s.tasks, t, c) && InFlight(s.tasks, u, c) ==> t == u)
    && (forall t, u :: Holds(s.tasks, t, c) && Holds(s.tasks, u, c) ==> t == u)
    && One(c in s.pool.inUse) == One(IsHeld(s.tasks, c)) + One(c in s.leaked)
  }

  /** The lock is held exactly by a task in the middle of a release or of warming. */
  ghost predicate LockHeld(s: System) {
    && (forall t :: t in s.tasks && (s.tasks[t].Releasing? || s.tasks[t].Warming?) ==> s.lock == Some(t))
    && (s.lock.Some? ==>
          && s.lock.value in s.tasks
          && (s.tasks[s.lock.value].Releasing? || s.tasks[s.lock.value].Warming?))
  }

  /** Both counts of a connection, one for a lost one, one for the connection being warmed. */
  ghost predicate Counted(s: System) {
    && s.pool.created == 2 * s.pool.made - |s.pool.lost| - One(SomeWarming(s))
    && s.pool.created + One(SomeWarming(s)) <= s.pool.max + 1
    && (forall t :: t in s.tasks && s.tasks[t].WarmLock? ==> s.tasks[t].target <= s.pool.max)
    && (forall t :: t in s.tasks && s.tasks[t].Warming? ==> s.tasks[t].target <= s.pool.max)
  }

  ghost predicate Safe(s: System) {
    LockHeld(s) && Counted(s) && forall c :: Placed(s, c)
  }

  /** Only task t moved. */
  ghost predicate OnlyMoves(tasks: map<Task, At>, tasks': map<Task, At>, t: Task) {
    forall u :: u != t ==> (u in tasks <==> u in tasks') && (u in tasks ==> tasks[u] == tasks'[u])
  }

  /** What a move of task t does to the two ways of having connection c. */
  lemma Moved(s: System, tasks': map<Task, At>, t: Task, c: Conn)
    requires Placed(s, c) && OnlyMoves(s.tasks, tasks', t)
    ensures IsInFlight(tasks', c) <==> InFlight(tasks', t, c) || (IsInFlight(s.tasks, c) && !InFlight(s.tasks, t, c))
    ensures (InFlight(tasks', t, c) ==> InFlight(s.tasks, t, c) || !IsInFlight(s.tasks, c)) ==>
            forall u, v :: InFlight(tasks', u, c) && InFlight(tasks', v, c) ==> u == v
    ensures IsHeld(tasks', c) <==> Holds(tasks', t, c) || (IsHeld(s.tasks, c) && !Holds(s.tasks, t, c))
    ensures (Holds(tasks', t, c) ==> Holds(s.tasks, t, c) || !IsHeld(s.tasks, c)) ==>
            forall u, v :: Holds(tasks', u, c) && Holds(tasks', v, c) ==> u == v
  {
    forall u ensures u != t ==> (InFlight(tasks', u, c) <==> InFlight(s.tasks, u, c)) {
    }
    forall u ensures u != t ==> (Holds(tasks', u, c) <==> Holds(s.tasks, u, c)) {
    }
  }

  lemma PopPlaces(p: Pool, c: Conn)
    requires p.available != []
    ensures Count(PopLast(p).available, c) + One(c == LastAvailable(p)) == Count(p.available, c)
  {
    CountLast(p.available, c);
  }

  lemma GetSafe(s: System, t: Task, c: Conn)
    requires Safe(s) && Enabled(s, Get(t))
    ensures Placed(Apply(s, Get(t)), c)
  {
    var s' := Apply(s, Get(t));
    assert Placed(s, c);
    Moved(s, s'.tasks, t, c);
    if s.pool.available != [] {
      PopPlaces(s.pool, c);
    }
  }

  /** An idle or popped connection is not in use, so neither put-back branch is ever taken. */
  lemma NotInUse(s: System, c: Conn)
    requires Safe(s)
    ensures c in s.pool.available || IsInFlight(s.tasks, c) ==>
            c !in s.pool.inUse && !IsHeld(s.tasks, c)
  {
    assert Placed(s, c);
    CountPositive(s.pool.available, c);
  }

  /** The locked half of the fast path claims the connection it popped. */
  lemma FastClaimSafe(s: System, t: Task, c: Conn)
    requires Safe(s) && Enabled(s, EnterFast(t))
    ensures Placed(Apply(s, EnterFast(t)), c)
  {
    var s' := Apply(s, EnterFast(t));
    assert Placed(s, c);
    assert InFlight(s.tasks, t, s.tasks[t].conn);
    NotInUse(s, s.tasks[t].conn);
    Moved(s, s'.tasks, t, c);
  }

  /** A task claims an idle connection. */
  lemma IdleClaimSafe(s: System, step: Step, c: Conn)
    requires Safe(s) && Enabled(s, step) && (step.EnterSlow? || step.EnterBlocked? || step.Wake?)
    requires s.pool.available != []
    ensures Placed(Apply(s, step), c)
  {
    var s' := Apply(s, step);
    assert Placed(s, c);
    PopPlaces(s.pool, c);
    NotInUse(s, LastAvailable(s.pool));
    Moved(s, s'.tasks, step.task, c);
  }

  /** A task claims a new connection or gets none. */
  lemma NewClaimSafe(s: System, step: Step, c: Conn)
    requires Safe(s) && Enabled(s, step) && (step.EnterSlow? || step.EnterBlocked? || step.Wake?)
    requires s.pool.available == []
    ensures Placed(Apply(s, step), c)
  {
    assert Placed(s, c) && Placed(s, s.pool.made);
    Moved(s, Apply(s, step).tasks, step.task, c);
  }

  lemma ClaimSafe(s: System, step: Step, c: Conn)
    requires Safe(s) && Enabled(s, step) && (step.EnterSlow? || step.EnterBlocked? || step.Wake?)
    ensures Placed(Apply(s, step), c)
  {
    if s.pool.available != [] {
      IdleClaimSafe(s, step, c);
    } else {
      NewClaimSafe(s, step, c);
    }
  }

  lemma GiveBackSafe(s: System, step: Step, c: Conn)
    requires Safe(s) && Enabled(s, step)
    requires step.Fail? || step.Release? || step.EnterRelease? || step.FinishRelease? || step.Warm?
    ensures Placed(Apply(s, step), c)
  {
    var s' := Apply(s, step);
    assert Placed(s, c);
    if step.EnterRelease? {
      assert Holds(s.tasks, step.task, s.tasks[step.task].conn);
      CountConcat(s.pool.available, [s.tasks[step.task].conn], c);
    }
    if step.Release? || step.Fail? {
      assert Holds(s.tasks, step.task, s.tasks[step.task].conn);
    }
    Moved(s, s'.tasks, step.task, c);
  }

  lemma WarmSafe(s: System, step: Step, c: Conn)
    requires Safe(s) && Enabled(s, step)
    requires step.EnterWarm? || step.Connected? || step.ConnectFailed?
    ensures Placed(Apply(s, step), c)
  {
    var s' := Apply(s, step);
    assert Placed(s, c);
    if !step.EnterWarm? {
      assert IsWarming(s, s.tasks[step.task].conn);
      CountConcat(s.pool.available, [s.tasks[step.task].conn], c);
    }
    Moved(s, s'.tasks, step.task, c);
  }

  lemma LockSafe(s: System, step: Step)
    requires Safe(s) && Enabled(s, step)
    ensures LockHeld(Apply(s, step))
  {
  }

  /** Warming adds one to the counter when a connection is made and one more when it is connected. */
  lemma WarmCounted(s: System, step: Step)
    requires Safe(s) && Enabled(s, step) && (step.EnterWarm? || step.Connected? || step.ConnectFailed?)
    ensures Counted(Apply(s, step))
  {
    LockSafe(s, step);
    if step.ConnectFailed? {
      assert Placed(s, s.tasks[step.task].conn);
    }
  }

  lemma OthersCounted(s: System, step: Step)
    requires Safe(s) && Enabled(s, step) && !(step.EnterWarm? || step.Connected? || step.ConnectFailed?)
    ensures Counted(Apply(s, step))
  {
    LockSafe(s, step);
    assert SomeWarming(Apply(s, step)) == SomeWarming(s);
  }

  /** Every step keeps the pool safe. */
  lemma SafetyStep(s: System, step: Step)
    requires Safe(s) && Enabled(s, step)
    ensures Safe(Apply(s, step))
  {
    LockSafe(s, step);
    if step.EnterWarm? || step.Connected? || step.ConnectFailed? {
      WarmCounted(s, step);
    } else {
      OthersCounted(s, step);
    }
    forall c ensures Placed(Apply(s, step), c) {
      match step
      case Get(t) => GetSafe(s, t, c);
      case EnterFast(t) => FastClaimSafe(s, t, c);
      case EnterSlow(_) => ClaimSafe(s, step, c);
      case EnterBlocked(_) => ClaimSafe(s, step, c);
      case Wake(_) => ClaimSafe(s, step, c);
      case EnterWarm(_) => WarmSafe(s, step, c);
      case Connected(_) => WarmSafe(s, step, c);
      case ConnectFailed(_) => WarmSafe(s, step, c);
      case _ => GiveBackSafe(s, step, c);
    }
  }

  lemma {:induction false} SafeAlong(r: Run, i: nat)
    requires IsRun(r) && i < |r.states|
    ensures Safe(r.states[i])
  {
    if i > 0 {
      SafeAlong(r, i - 1);
      SafetyStep(r.states[i - 1], r.steps[i - 1]);
    }
  }

  /** The connections that the pool still has: built, connected as far as warming goes, and not lost. */
  ghost function Live(s: System): set<Conn> {
    set c: Conn | c < s.pool.made && c !in s.pool.lost && !IsWarming(s, c)
  }

  /** The numbers of the connections built so far. */
  ghost function Numbers(n: nat): (s: set<Conn>)
    ensures |s| == n && forall c: Conn :: c in s <==> c < n
  {
    if n == 0 then {} else Numbers(n - 1) + {n - 1}
  }

  /** The connection being warmed, if there is one. */
  function WarmingSet(s: System): set<Conn> {
    if SomeWarming(s) then {s.tasks[s.lock.value].conn} else {}
  }

  /** Lost connections and the one being warmed have been built, and are not the same. */
  lemma LostOrWarming(s: System, c: Conn)
    requires Placed(s, c)
    ensures IsWarming(s, c) <==> c in WarmingSet(s)
    ensures c in s.pool.lost ==> c < s.pool.made && c !in WarmingSet(s)
    ensures c in WarmingSet(s) ==> c < s.pool.made
  {
  }

  lemma LiveSplit(s: System)
    requires Safe(s)
    ensures s.pool.lost !! WarmingSet(s) && s.pool.lost + WarmingSet(s) <= Numbers(s.pool.made)
    ensures Live(s) == Numbers(s.pool.made) - (s.pool.lost + WarmingSet(s))
  {
    forall c: Conn
      ensures c in s.pool.lost ==> c < s.pool.made && c !in WarmingSet(s)
      ensures c in WarmingSet(s) ==> c < s.pool.made
      ensures IsWarming(s, c) <==> c in WarmingSet(s)
    {
      assert Placed(s, c);
      LostOrWarming(s, c);
    }
  }

  lemma DifferenceSize(all: set<Conn>, gone: set<Conn>)
    requires gone <= all
    ensures |all - gone| == |all| - |gone|
  {
    assert all == (all - gone) + gone;
  }

  lemma LiveCount(s: System)
    requires Safe(s)
    ensures |Live(s)| == s.pool.made - |s.pool.lost| - One(SomeWarming(s))
  {
    LiveSplit(s);
    DifferenceSize(Numbers(s.pool.made), s.pool.lost + WarmingSet(s));
    assert |s.pool.lost + WarmingSet(s)| == |s.pool.lost| + |WarmingSet(s)|;
  }

  /**
   * In every reachable state the idle, popped and in-use connections are pairwise disjoint and
   * together are the live ones, and the counter runs at twice their number, so they never
   * outnumber `max_connections`.
   */
  lemma PoolIsSafe(r: Run, i: nat, c: Conn)
    requires IsRun(r) && i < |r.states|
    ensures var s := r.states[i];
      && One(c in s.pool.available) + One(IsInFlight(s.tasks, c)) + One(c in s.pool.inUse) == One(c in Live(s))
      && Count(s.pool.available, c) <= 1
      && (forall t, u :: Holds(s.tasks, t, c) && Holds(s.tasks, u, c) ==> t == u)
      && 2 * |Live(s)| <= s.pool.created <= r.states[0].pool.max + 1
      && |Live(s)| <= r.states[0].pool.max
  {
    SafeAlong(r, i);
    var s := r.states[i];
    assert Placed(s, c);
    CountPositive(s.pool.available, c);
    LiveCount(s);
    MaxStays(r, i);
  }

  /** Without lost connections the counter is exactly twice the live ones, plus one while warming. */
  lemma CounterIsDouble(r: Run, i: nat)
    requires IsRun(r) && i < |r.states|
    ensures var s := r.states[i];
      s.pool.created == 2 * |Live(s)| + |s.pool.lost| + One(SomeWarming(s))
  {
    SafeAlong(r, i);
    LiveCount(r.states[i]);
  }

  lemma {:induction false} MaxStays(r: Run, i: nat)
    requires IsRun(r) && i < |r.states|
    ensures r.states[i].pool.max == r.states[0].pool.max
  {
    if i > 0 {
      MaxStays(r, i - 1);
    }
  }

  /**
   * Neither branch that puts a popped connection back is reachable, `make_connection` is never
   * called with the counter at the maximum, so it never raises, and what is given back is in use.
   */
  lemma NoPutBackNoRaise(r: Run, i: nat)
    requires IsRun(r) && i < |r.steps|
    ensures var s, step := r.states[i], r.steps[i];
      && (step.EnterFast? ==> s.tasks[step.task].conn !in s.pool.inUse)
      && ((step.EnterBlocked? || step.Wake?) && s.pool.available != [] ==> LastAvailable(s.pool) !in s.pool.inUse)
      && (r.states[i + 1].pool.made != s.pool.made ==>
            MayMake(if step.Connected? then WarmStore(s.pool, s.tasks[step.task].conn) else s.pool))
      && (step.EnterRelease? ==> s.tasks[step.task].conn in s.pool.inUse)
  {
    SafeAlong(r, i);
    var s, step := r.states[i], r.steps[i];
    if step.EnterFast? {
      assert InFlight(s.tasks, step.task, s.tasks[step.task].conn);
      NotInUse(s, s.tasks[step.task].conn);
    } else if (step.EnterBlocked? || step.Wake?) && s.pool.available != [] {
      NotInUse(s, LastAvailable(s.pool));
    } else if step.EnterRelease? {
      assert Placed(s, s.tasks[step.task].conn) && Holds(s.tasks, step.task, s.tasks[step.task].conn);
    }
  }

  /** While a task has the lock, all that the others can do to the pool is pop without it. */
  lemma OnlyPopsWhileLocked(r: Run, i: nat)
    requires IsRun(r) && i < |r.steps| && r.states[i].lock.Some? && r.steps[i].task != r.states[i].lock.value
    ensures var p, p' := r.states[i].pool, r.states[i + 1].pool;
      p' == p || (r.steps[i].Get? && p.available != [] && p' == PopLast(p))
    ensures r.states[i + 1].lock == r.states[i].lock
  {
    SafeAlong(r, i);
  }
}

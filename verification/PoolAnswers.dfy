/** Which connection a task gets, when one is built, and in which order waiters are served. */
module PoolAnswers {
  import opened Common
  import opened PoolState
  import opened PoolProtocol
  import opened PoolSafety

  /** Under the lock a task gets the connection that became idle last, else a new one, else none. */
  lemma ClaimAnswers(p: Pool, task: Task)
    requires p.available != [] ==> p.available[|p.available| - 1] !in p.inUse
    ensures p.available != [] ==>
              var (n, idle) := (|p.available| - 1, p.available);
              var p' := p.(available := idle[..n], inUse := p.inUse + {idle[n]});
              SlowClaim(p) == (Conn(idle[n]), p') && BlockedClaim(p, task) == (Conn(idle[n]), p')
    ensures p.available == [] && p.created < p.max ==>
              var p' := p.(created := p.created + 2, made := p.made + 1, inUse := p.inUse + {p.made});
              SlowClaim(p) == (Conn(p.made), p') && BlockedClaim(p, task) == (Conn(p.made), p')
    ensures p.available == [] && p.created >= p.max ==>
              SlowClaim(p) == (Nothing, p) && BlockedClaim(p, task) == (Nothing, p.(parked := p.parked + [task]))
  {
  }

  predicate Claims(step: Step) {
    step.EnterSlow? || step.EnterBlocked? || step.Wake?
  }

  /**
   * Every claim of every run: with something idle, the task uses the last idle connection and
   * nothing is built or counted; with nothing idle, one is built below the limit and counted
   * twice; else the task goes to wait.
   */
  lemma IdleFirst(r: Run, i: nat)
    requires IsRun(r) && i < |r.steps| && Claims(r.steps[i])
    ensures var p, p', step := r.states[i].pool, r.states[i + 1].pool, r.steps[i];
      var at' := r.states[i + 1].tasks[step.task];
      if p.available != [] then
        && at' == Using(p.available[|p.available| - 1]) && p'.available == p.available[..|p.available| - 1]
        && p'.made == p.made && p'.created == p.created && p'.parked == p.parked
      else if p.created < p.max then
        && at' == Using(p.made) && p'.made == p.made + 1 && p'.created == p.created + 2
        && p'.available == [] && p'.parked == p.parked
      else
        && at' == (if step.EnterSlow? then BlockLock else Waiting)
        && p'.made == p.made && p'.created == p.created && p'.inUse == p.inUse
        && p'.parked == p.parked + (if step.EnterSlow? then [] else [step.task])
  {
    SafeAlong(r, i);
    if r.states[i].pool.available != [] {
      NotInUse(r.states[i], LastAvailable(r.states[i].pool));
    }
  }

  /** The lock-free path: the last idle connection is popped, and then used by the task that popped it. */
  lemma FastPathUses(r: Run, i: nat)
    requires IsRun(r) && i < |r.steps|
    ensures r.steps[i].Get? ==>
              var p, at' := r.states[i].pool, r.states[i + 1].tasks[r.steps[i].task];
              if p.available == [] then at' == SlowLock && r.states[i + 1].pool == p
              else
                && at' == FastLock(p.available[|p.available| - 1])
                && r.states[i + 1].pool == p.(available := p.available[..|p.available| - 1])
    ensures r.steps[i].EnterFast? ==>
              var s, s', t := r.states[i], r.states[i + 1], r.steps[i].task;
              && s'.tasks[t] == Using(s.tasks[t].conn)
              && s'.pool == s.pool.(inUse := s.pool.inUse + {s.tasks[t].conn})
  {
    SafeAlong(r, i);
    if r.steps[i].EnterFast? {
      assert InFlight(r.states[i].tasks, r.steps[i].task, r.states[i].tasks[r.steps[i].task].conn);
      NotInUse(r.states[i], r.states[i].tasks[r.steps[i].task].conn);
    }
  }

  /** A connection is built only by a claim that finds nothing idle and the counter below the limit, or by warming. */
  lemma BuiltWhenNeeded(r: Run, i: nat)
    requires IsRun(r) && i < |r.steps| && r.states[i + 1].pool.made != r.states[i].pool.made
    ensures var p, step := r.states[i].pool, r.steps[i];
      || (Claims(step) && p.available == [] && p.created < p.max)
      || (step.EnterWarm? && p.created < r.states[i].tasks[step.task].target)
      || (step.Connected? && p.created + 1 < r.states[i].tasks[step.task].target)
    ensures r.states[i + 1].pool.made == r.states[i].pool.made + 1
  {
    if Claims(r.steps[i]) {
      IdleFirst(r, i);
    } else {
      FastPathUses(r, i);
    }
  }

  /** A connection that is given back is the next to be handed out, and its release wakes the oldest waiter. */
  lemma GivenBackIsNext(r: Run, i: nat)
    requires IsRun(r) && i < |r.steps|
    ensures r.steps[i].EnterRelease? ==>
              var s, p' := r.states[i], r.states[i + 1].pool;
              var conn := s.tasks[r.steps[i].task].conn;
              && p' == s.pool.(inUse := s.pool.inUse - {conn}, available := s.pool.available + [conn])
              && p'.available[|p'.available| - 1] == conn && r.states[i + 1].lock == Some(r.steps[i].task)
    ensures r.steps[i].FinishRelease? ==>
              var p := r.states[i].pool;
              && r.states[i + 1].lock == None && r.steps[i].task !in r.states[i + 1].tasks
              && r.states[i + 1].pool ==
                 if p.parked == [] then p
                 else p.(parked := p.parked[1..], notified := p.notified + {p.parked[0]})
  {
  }

  /** Waiters keep their order: they come in at the end and leave from the front. */
  lemma WaitersKeepOrder(r: Run, i: nat)
    requires IsRun(r) && i < |r.steps|
    ensures var before, after := r.states[i].pool.parked, r.states[i + 1].pool.parked;
      || after == before
      || ((r.steps[i].EnterBlocked? || r.steps[i].Wake?) && after == before + [r.steps[i].task])
      || (r.steps[i].FinishRelease? && before != [] && after == before[1..])
  {
    if Claims(r.steps[i]) {
      IdleFirst(r, i);
    } else {
      FastPathUses(r, i);
    }
  }

  /** Warming stores a connection that connects as the next to be handed out, and drops one that does not. */
  lemma WarmingAnswers(r: Run, i: nat)
    requires IsRun(r) && i < |r.steps|
    ensures r.steps[i].Warm? ==>
              r.states[i + 1].tasks[r.steps[i].task] ==
              WarmLock(if r.steps[i].target < r.states[i].pool.max then r.steps[i].target else r.states[i].pool.max)
    ensures r.steps[i].Connected? ==>
              var s, p' := r.states[i], r.states[i + 1].pool;
              && p'.available == s.pool.available + [s.tasks[r.steps[i].task].conn] && p'.lost == s.pool.lost
              && (p'.created == s.pool.created + 1 || p'.created == s.pool.created + 2)
              && p'.created - s.pool.created == p'.made - s.pool.made + 1
              && (r.states[i + 1].lock.None? <==>
                  p'.created >= s.tasks[r.steps[i].task].target && p'.made == s.pool.made)
    ensures r.steps[i].ConnectFailed? ==>
              var s, p' := r.states[i], r.states[i + 1].pool;
              && p' == s.pool.(lost := s.pool.lost + {s.tasks[r.steps[i].task].conn})
              && r.states[i + 1].lock == None && r.steps[i].task !in r.states[i + 1].tasks
  {
  }
}

/** Any number of asyncio tasks on one pool, each at an await of its own. */
module PoolProtocol {
  import opened Common
  import opened PoolState

  /** Where a task is suspended. */
  datatype At =
    | FastLock(conn: Conn)            // popped without the lock, waiting for it
    | SlowLock
    | BlockLock                       // waiting to enter the condition for the first time
    | Waiting                         // in condition.wait(), parked or notified
    | Using(conn: Conn)
    | ReleaseLock(conn: Conn)
    | Releasing                       // holds the lock; the connection is back, notify is next
    | WarmLock(target: int)
    | Warming(target: int, conn: Conn) // holds the lock while the connection connects

  /** `leaked` remembers the connections whose callers failed before they got them: in use for good. */
  datatype System = System(pool: Pool, lock: Option<Task>, tasks: map<Task, At>, leaked: set<Conn>)

  datatype Step =
    | Get(task: Task)
    | EnterFast(task: Task)
    | EnterSlow(task: Task)
    | EnterBlocked(task: Task)
    | Wake(task: Task)
    | Fail(task: Task)       // a health check or reconnect raises: the caller never gets the connection
    | Release(task: Task)
    | EnterRelease(task: Task)
    | FinishRelease(task: Task)
    | Warm(task: Task, target: int)
    | EnterWarm(task: Task)
    | Connected(task: Task)
    | ConnectFailed(task: Task)

  predicate Enabled(s: System, step: Step) {
    match step
    case Get(t) => t !in s.tasks
    case EnterFast(t) => t in s.tasks && s.tasks[t].FastLock? && s.lock.None?
    case EnterSlow(t) => t in s.tasks && s.tasks[t].SlowLock? && s.lock.None?
    case EnterBlocked(t) => t in s.tasks && s.tasks[t].BlockLock? && s.lock.None?
    case Wake(t) => t in s.tasks && s.tasks[t].Waiting? && t in s.pool.notified && s.lock.None?
    case Fail(t) => t in s.tasks && s.tasks[t].Using?
    case Release(t) => t in s.tasks && s.tasks[t].Using?
    case EnterRelease(t) => t in s.tasks && s.tasks[t].ReleaseLock? && s.lock.None?
    case FinishRelease(t) => t in s.tasks && s.tasks[t].Releasing?
    case Warm(t, _) => t !in s.tasks
    case EnterWarm(t) => t in s.tasks && s.tasks[t].WarmLock? && s.lock.None?
    case Connected(t) => t in s.tasks && s.tasks[t].Warming?
    case ConnectFailed(t) => t in s.tasks && s.tasks[t].Warming?
  }

  /** The guard of the warming loop, which makes the next connection or leaves with the lock. */
  function WarmTurn(s: System, t: Task, target: int): System {
    if s.pool.created < target then
      s.(pool := WarmMake(s.pool), lock := Some(t), tasks := s.tasks[t := Warming(target, s.pool.made)])
    else s.(lock := None, tasks := s.tasks - {t})
  }

  function Apply(s: System, step: Step): System
    requires Enabled(s, step)
  {
    match step
    case Get(t) =>
      var (got, pool) := FastPop(s.pool);
      s.(pool := pool, tasks := s.tasks[t := if got.Conn? then FastLock(got.conn) else SlowLock])
    case EnterFast(t) =>
      var (got, pool) := FastClaim(s.pool, s.tasks[t].conn);
      s.(pool := pool, tasks := s.tasks[t := if got.Conn? then Using(got.conn) else SlowLock])
    case EnterSlow(t) =>
      var (got, pool) := SlowClaim(s.pool);
      s.(pool := pool, tasks := s.tasks[t := if got.Conn? then Using(got.conn) else BlockLock])
    case EnterBlocked(t) =>
      var (got, pool) := BlockedClaim(s.pool, t);
      s.(pool := pool, tasks := s.tasks[t := if got.Conn? then Using(got.conn) else Waiting])
    case Wake(t) =>
      var (got, pool) := BlockedClaim(Resume(s.pool, t), t);
      s.(pool := pool, tasks := s.tasks[t := if got.Conn? then Using(got.conn) else Waiting])
    case Fail(t) => s.(tasks := s.tasks - {t}, leaked := s.leaked + {s.tasks[t].conn})
    case Release(t) => s.(tasks := s.tasks[t := ReleaseLock(s.tasks[t].conn)])
    case EnterRelease(t) => s.(pool := GiveBack(s.pool, s.tasks[t].conn), lock := Some(t),
        tasks := s.tasks[t := Releasing])
    case FinishRelease(t) => s.(pool := Notify(s.pool), lock := None, tasks := s.tasks - {t})
    case Warm(t, target) => s.(tasks := s.tasks[t := WarmLock(Min(target, s.pool.max))])
    case EnterWarm(t) => WarmTurn(s, t, s.tasks[t].target)
    case Connected(t) => WarmTurn(s.(pool := WarmStore(s.pool, s.tasks[t].conn)), t, s.tasks[t].target)
    case ConnectFailed(t) => s.(pool := WarmLose(s.pool, s.tasks[t].conn), lock := None, tasks := s.tasks - {t})
  }

  datatype Run = Run(states: seq<System>, steps: seq<Step>)

  ghost predicate IsRun(r: Run) {
    && |r.states| == |r.steps| + 1
    && IsFresh(r.states[0].pool) && r.states[0].lock.None? && r.states[0].tasks == map[] && r.states[0].leaked == {}
    && forall i :: 0 <= i < |r.steps| ==>
         Enabled(r.states[i], r.steps[i]) && r.states[i + 1] == Apply(r.states[i], r.steps[i])
  }
}

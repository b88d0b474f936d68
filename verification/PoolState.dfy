/**
 * The hybrid-blocking connection pool: its fields, and what each stretch of code between two
 * awaits does to them. asyncio switches tasks only at an await, so each stretch is atomic.
 */
module PoolState {
  import opened Common

  type Conn = nat
  type Task = nat

  datatype Pool = Pool(
    max: nat,               // max_connections
    created: nat,           // _created_connections
    available: seq<Conn>,   // _available_connections; pop takes the last
    inUse: set<Conn>,       // _in_use_connections
    made: nat,              // connections constructed so far; they are numbered from 0
    lost: set<Conn>,        // connections that warming built but could not connect
    parked: seq<Task>,      // waiters of the condition that nobody has notified, oldest first
    notified: set<Task>)    // notified waiters that have not got the lock back yet

  predicate IsFresh(p: Pool) {
    p.created == 0 && p.available == [] && p.inUse == {} && p.made == 0 && p.lost == {} && p.parked == [] &&
    p.notified == {}
  }

  /** What a stretch of `get_connection_optimized` comes to. */
  datatype Got = Conn(conn: Conn) | Nothing

  /** `make_connection` raises once the counter has reached the maximum. */
  predicate MayMake(p: Pool) {
    p.created < p.max
  }

  function PopLast(p: Pool): Pool
    requires p.available != []
  {
    p.(available := p.available[..|p.available| - 1])
  }

  function LastAvailable(p: Pool): Conn
    requires p.available != []
  {
    p.available[|p.available| - 1]
  }

  /** A new connection handed out directly: `make_connection` counts it, and the caller counts it again. */
  function MakeInUse(p: Pool): Pool
    requires MayMake(p)
  {
    p.(created := p.created + 2, made := p.made + 1, inUse := p.inUse + {p.made})
  }

  /** The lock-free pop of the fast path. */
  function FastPop(p: Pool): (Got, Pool) {
    if p.available == [] then (Nothing, p) else (Conn(LastAvailable(p)), PopLast(p))
  }

  /** Its locked half: claim the popped connection, or put it back if it is in use after all. */
  function FastClaim(p: Pool, conn: Conn): (Got, Pool) {
    if conn !in p.inUse then (Conn(conn), p.(inUse := p.inUse + {conn}))
    else (Nothing, p.(available := p.available + [conn]))
  }

  /** The locked slow path: pop, else create, else give up. */
  function SlowClaim(p: Pool): (Got, Pool) {
    if p.available != [] then
      (Conn(LastAvailable(p)), PopLast(p).(inUse := p.inUse + {LastAvailable(p)}))
    else if MayMake(p) then (Conn(p.made), MakeInUse(p))
    else (Nothing, p)
  }

  /** One turn of the blocking loop; without a connection the task parks itself in the condition. */
  function BlockedClaim(p: Pool, task: Task): (Got, Pool) {
    if p.available != [] then
      var conn := LastAvailable(p);
      if conn in p.inUse then (Nothing, p.(parked := p.parked + [task]))
      else (Conn(conn), PopLast(p).(inUse := p.inUse + {conn}))
    else if MayMake(p) then (Conn(p.made), MakeInUse(p))
    else (Nothing, p.(parked := p.parked + [task]))
  }

  /** A notified waiter has the lock again. */
  function Resume(p: Pool, task: Task): Pool {
    p.(notified := p.notified - {task})
  }

  /** redis-py's `release`: the connection moves from in use to available. */
  function GiveBack(p: Pool, conn: Conn): Pool {
    p.(inUse := p.inUse - {conn}, available := p.available + [conn])
  }

  /** `notify()` wakes the oldest waiter, if there is one. */
  function Notify(p: Pool): Pool {
    if p.parked == [] then p else p.(parked := p.parked[1..], notified := p.notified + {p.parked[0]})
  }

  /** Warming makes a connection and counts it once; the second count follows when it is connected. */
  function WarmMake(p: Pool): Pool {
    p.(created := p.created + 1, made := p.made + 1)
  }

  function WarmStore(p: Pool, conn: Conn): Pool {
    p.(available := p.available + [conn], created := p.created + 1)
  }

  /** Connecting failed: the connection is dropped, its first count stays. */
  function WarmLose(p: Pool, conn: Conn): Pool {
    p.(lost := p.lost + {conn})
  }

  function Min(a: int, b: int): int {
    if a < b then a else b
  }
}

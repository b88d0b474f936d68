/** `OptimizedAsyncConnectionPool` as it runs: its fields, updated in place between two awaits. */
module OptimizedPoolModel {
  import opened Common
  import opened PoolState

  /** What n lock-free pops leave, the only thing that other tasks do to the pool while the lock is held. */
  function Robbed(p: Pool, n: nat): Pool {
    p.(available := p.available[..|p.available| - Min(n, |p.available|)])
  }

  /**
   * The warming loop and the number of connections it stored; `connects` says which connections
   * connect, and `pops` how often other tasks pop while one is connecting.
   */
  function WarmLoop(p: Pool, target: int, connects: nat -> bool, pops: nat -> nat): (Pool, nat)
    decreases target - p.created
  {
    if p.created >= target then (p, 0)
    else
      var made := Robbed(WarmMake(p), pops(p.made));
      if connects(p.made) then
        var (end, warmed) := WarmLoop(WarmStore(made, p.made), target, connects, pops);
        (end, warmed + 1)
      else (WarmLose(made, p.made), 0)
  }

  /** What one turn leaves when the connection connects. */
  function Warmed(p: Pool, pops: nat -> nat): Pool {
    WarmStore(Robbed(WarmMake(p), pops(p.made)), p.made)
  }

  lemma WarmTurn(p: Pool, target: int, connects: nat -> bool, pops: nat -> nat)
    requires p.created < target
    ensures var (end, warmed) := WarmLoop(p, target, connects, pops);
      if connects(p.made) then
        end == WarmLoop(Warmed(p, pops), target, connects, pops).0
        && warmed == WarmLoop(Warmed(p, pops), target, connects, pops).1 + 1
      else end == WarmLose(Robbed(WarmMake(p), pops(p.made)), p.made) && warmed == 0
  {
  }

  class OptimizedPool {
    const maxConnections: nat
    var created: nat
    var available: seq<Conn>
    var inUse: set<Conn>
    var made: nat
    var lost: set<Conn>
    var parked: seq<Task>
    var notified: set<Task>

    /** A pool without a limit of its own gets 2 ** 31. */
    constructor (limit: Option<nat>)
      ensures IsFresh(View())
      ensures maxConnections == if limit.None? || limit.value == 0 then 0x8000_0000 else limit.value
    {
      maxConnections := if limit.None? || limit.value == 0 then 0x8000_0000 else limit.value;
      created, available, inUse, made, lost, parked, notified := 0, [], {}, 0, {}, [], {};
    }

    ghost function View(): Pool
      reads this
    {
      Pool(maxConnections, created, available, inUse, made, lost, parked, notified)
    }

    /** Raises when the counter is at the maximum; otherwise counts and builds a connection. */
    method MakeConnection() returns (conn: Option<Conn>)
      modifies this`created, this`made
      ensures conn.Some? <==> MayMake(old(View()))
      ensures conn.Some? ==> conn.value == old(made) && created == old(created) + 1 && made == old(made) + 1
      ensures conn.None? ==> View() == old(View())
    {
      if created >= maxConnections {
        return None;
      }
      conn := Some(made);
      created, made := created + 1, made + 1;
    }

    /** Fast path, without the lock. */
    method PopFast() returns (got: Got)
      modifies this`available
      ensures (got, View()) == FastPop(old(View()))
    {
      if available == [] {
        return Nothing;
      }
      got := Conn(available[|available| - 1]);
      available := available[..|available| - 1];
    }

    /** Fast path, under the lock. */
    method ClaimFast(conn: Conn) returns (got: Got)
      modifies this`available, this`inUse
      ensures (got, View()) == FastClaim(old(View()), conn)
    {
      if conn !in inUse {
        inUse := inUse + {conn};
        return Conn(conn);
      }
      available := available + [conn];
      return Nothing;
    }

    /** Slow path, under the lock. */
    method ClaimSlow() returns (got: Got)
      modifies this
      ensures (got, View()) == SlowClaim(old(View()))
    {
      if available != [] {
        var conn := available[|available| - 1];
        available := available[..|available| - 1];
        inUse := inUse + {conn};
        return Conn(conn);
      }
      if created >= maxConnections {
        return Nothing;
      }
      var built := MakeConnection();
      created := created + 1;
      inUse := inUse + {built.value};
      return Conn(built.value);
    }

    /** One turn of the blocking loop, under the lock. */
    method ClaimBlocked(task: Task) returns (got: Got)
      modifies this
      ensures (got, View()) == BlockedClaim(old(View()), task)
    {
      if available != [] {
        var conn := available[|available| - 1];
        available := available[..|available| - 1];
        if conn in inUse {
          available := available + [conn];
          assert available == old(available);
          parked := parked + [task];
          return Nothing;
        }
        inUse := inUse + {conn};
        return Conn(conn);
      }
      if created < maxConnections {
        var built := MakeConnection();
        created := created + 1;
        inUse := inUse + {built.value};
        return Conn(built.value);
      }
      parked := parked + [task];
      return Nothing;
    }

    /** `release`: hand the connection back, then notify one waiter. */
    method Release(conn: Conn)
      requires conn in inUse
      modifies this
      ensures View() == Notify(GiveBack(old(View()), conn))
    {
      inUse := inUse - {conn};
      available := available + [conn];
      if parked != [] {
        notified := notified + {parked[0]};
        parked := parked[1..];
      }
    }

    /** Waiting for a connect: meanwhile other tasks pop n times. */
    method AwaitConnect(n: nat)
      modifies this`available
      ensures View() == Robbed(old(View()), n)
    {
      available := available[..|available| - Min(n, |available|)];
    }

    /** `warm_pool`, under the lock; while a connection connects, other tasks may pop without it. */
    method WarmPool(target: int, connects: nat -> bool, pops: nat -> nat) returns (warmed: nat)
      modifies this
      ensures (View(), warmed) == WarmLoop(old(View()), Min(target, maxConnections), connects, pops)
    {
      var goal := Min(target, maxConnections);
      warmed := 0;
      while created < goal
        invariant WarmLoop(View(), goal, connects, pops).0 == WarmLoop(old(View()), goal, connects, pops).0
        invariant warmed + WarmLoop(View(), goal, connects, pops).1 == WarmLoop(old(View()), goal, connects, pops).1
        decreases goal - created
      {
        ghost var before := View();
        WarmTurn(before, goal, connects, pops);
        var built := MakeConnection();
        assert View() == WarmMake(before);
        AwaitConnect(pops(built.value));
        if !connects(built.value) {
          lost := lost + {built.value};
          return;
        }
        available := available + [built.value];
        created := created + 1;
        assert View() == Warmed(before, pops);
        warmed := warmed + 1;
      }
    }
  }

  /**
   * Warming asks for a number of connections and stops at half of it, as each one counts twice;
   * it stores all that it makes, whatever other tasks pop meanwhile.
   */
  lemma {:induction false} WarmsHalf(p: Pool, target: int, connects: nat -> bool, pops: nat -> nat)
    requires forall c: nat :: connects(c)
    requires p.created <= target
    ensures var (end, warmed) := WarmLoop(p, target, connects, pops);
      && warmed == (target - p.created + 1) / 2
      && end.made == p.made + warmed && end.created == p.created + 2 * warmed && end.lost == p.lost
    decreases target - p.created
  {
    if p.created < target {
      var p' := WarmStore(Robbed(WarmMake(p), pops(p.made)), p.made);
      if p'.created <= target {
        WarmsHalf(p', target, connects, pops);
      }
    }
  }

  /** At a failed connect warming stops, and the connection is lost with the count it had. */
  lemma WarmingStops(p: Pool, target: int, connects: nat -> bool, pops: nat -> nat)
    requires pops(p.made) == 0
    ensures p.created >= target ==> WarmLoop(p, target, connects, pops) == (p, 0)
    ensures p.created < target && !connects(p.made) ==>
              WarmLoop(p, target, connects, pops) ==
              (p.(created := p.created + 1, made := p.made + 1, lost := p.lost + {p.made}), 0)
  {
    assert p.available[..|p.available|] == p.available;
  }

  /** The connections are stored in the order in which they were made, so the last one made is handed out first. */
  lemma {:induction false} WarmedInOrder(p: Pool, target: int, connects: nat -> bool, pops: nat -> nat)
    requires forall c: nat :: connects(c) && pops(c) == 0
    ensures var (end, warmed) := WarmLoop(p, target, connects, pops);
      end.available == p.available + seq(warmed, i requires 0 <= i < warmed => p.made + i)
    decreases target - p.created
  {
    if p.created < target {
      assert p.available[..|p.available|] == p.available;
      WarmedInOrder(Warmed(p, pops), target, connects, pops);
    }
  }
}

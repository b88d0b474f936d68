/**
 * The HSET-backed dictionary: a data hash and a side hash of deadlines. Reads remove lapsed
 * keys either lazily (the get script) or eagerly (the sweep), and all report the same view.
 */
module HashExpiry {
  import opened Common

  type Key = nat
  type Val = nat

  datatype Hashes = Hashes(data: map<Key, Val>, exp: map<Key, int>)

  /** The key has a deadline before t. */
  predicate Lapsed(h: Hashes, k: Key, t: int) {
    k in h.exp && h.exp[k] < t
  }

  /** What a reader is entitled to see at time t. */
  function View(h: Hashes, t: int): map<Key, Val> {
    map k | k in h.data && !Lapsed(h, k, t) :: h.data[k]
  }

  /** HDEL of some keys from both hashes. */
  function Without(h: Hashes, keys: set<Key>): Hashes {
    Hashes(h.data - keys, h.exp - keys)
  }

  /** The get script. */
  function LuaGet(h: Hashes, k: Key, t: int): (Option<Val>, Hashes) {
    if k !in h.data then (None, h)
    else if Lapsed(h, k, t) then (None, Without(h, {k}))
    else (Some(h.data[k]), h)
  }

  /** The set script; an absent deadline leaves the side hash alone. */
  function LuaSet(h: Hashes, k: Key, v: Val, deadline: Option<int>): Hashes {
    Hashes(h.data[k := v], if deadline.Some? then h.exp[k := deadline.value] else h.exp)
  }

  /** The lapsed keys among some. */
  function LapsedAmong(h: Hashes, keys: set<Key>, t: int): set<Key> {
    set k | k in keys && Lapsed(h, k, t)
  }

  /** The eager sweep of some keys, or of all keys that have a deadline. */
  function SweptOf(h: Hashes, keys: set<Key>, t: int): Hashes {
    Without(h, LapsedAmong(h, keys, t))
  }

  function Swept(h: Hashes, t: int): Hashes {
    SweptOf(h, h.exp.Keys, t)
  }

  /** `contains`: check the one key, then look. */
  function Contains(h: Hashes, k: Key, t: int): (bool, Hashes) {
    var h' := SweptOf(h, {k}, t);
    (k in h'.data, h')
  }

  /** The sweep as it runs: the clock is read anew for each key, the deadlines once beforehand. */
  function SweepAt(h: Hashes, deadlines: map<Key, int>, keys: seq<Key>, times: seq<int>): Hashes
    requires |times| == |keys|
  {
    if keys == [] then h
    else
      var n := |keys| - 1;
      var h' := SweepAt(h, deadlines, keys[..n], times[..n]);
      if keys[n] in deadlines && deadlines[keys[n]] < times[n] then Without(h', {keys[n]}) else h'
  }

  /** The keys that such a sweep deletes. */
  function Doomed(deadlines: map<Key, int>, keys: seq<Key>, times: seq<int>): set<Key>
    requires |times| == |keys|
  {
    set i | 0 <= i < |keys| && keys[i] in deadlines && deadlines[keys[i]] < times[i] :: keys[i]
  }

  lemma {:induction false} SweepAtRemoves(h: Hashes, deadlines: map<Key, int>, keys: seq<Key>, times: seq<int>)
    requires |times| == |keys|
    ensures SweepAt(h, deadlines, keys, times) == Without(h, Doomed(deadlines, keys, times))
  {
    if keys != [] {
      var n := |keys| - 1;
      SweepAtRemoves(h, deadlines, keys[..n], times[..n]);
      var rest, last := Doomed(deadlines, keys[..n], times[..n]), keys[n];
      if last in deadlines && deadlines[last] < times[n] {
        assert Doomed(deadlines, keys, times) == rest + {last};
      } else {
        assert Doomed(deadlines, keys, times) == rest;
      }
    }
  }

  /** With one clock reading for all keys the running sweep is the eager sweep. */
  lemma SweepAtOneTime(h: Hashes, keys: seq<Key>, times: seq<int>, t: int)
    requires |times| == |keys| && forall i :: 0 <= i < |times| ==> times[i] == t
    ensures SweepAt(h, h.exp, keys, times) == SweptOf(h, (set k | k in keys), t)
  {
    SweepAtRemoves(h, h.exp, keys, times);
    assert Doomed(h.exp, keys, times) == LapsedAmong(h, (set k | k in keys), t);
  }

  /** Deleting keys that have lapsed by t is invisible from t on. */
  lemma RemovalInvisible(h: Hashes, gone: set<Key>, t: int, later: int)
    requires t <= later && forall k :: k in gone ==> Lapsed(h, k, t)
    ensures View(Without(h, gone), later) == View(h, later)
  {
  }

  /**
   * However the clock moves during a full sweep, between readings lo and hi: what it leaves in the
   * data hash is visible at lo, everything visible at hi is left, and from hi on nothing has changed.
   */
  lemma SweepBetween(h: Hashes, keys: seq<Key>, times: seq<int>, lo: int, hi: int, later: int)
    requires |times| == |keys| && (forall i :: 0 <= i < |times| ==> lo <= times[i] <= hi)
    requires (forall k :: k in h.exp ==> k in keys) && hi <= later
    ensures var h' := SweepAt(h, h.exp, keys, times);
      && View(h, hi).Keys <= h'.data.Keys <= View(h, lo).Keys
      && View(h', later) == View(h, later)
  {
    SweepAtRemoves(h, h.exp, keys, times);
    var gone := Doomed(h.exp, keys, times);
    RemovalInvisible(h, gone, hi, later);
    forall k | Lapsed(h, k, lo) ensures k in gone {
      var i :| 0 <= i < |keys| && keys[i] == k;
    }
  }

  lemma SweptIsView(h: Hashes, t: int)
    ensures Swept(h, t).data == View(h, t)
  {
    assert forall k :: k in LapsedAmong(h, h.exp.Keys, t) <==> Lapsed(h, k, t);
  }

  lemma ContainsAgrees(h: Hashes, k: Key, t: int)
    ensures Contains(h, k, t) == (k in View(h, t), SweptOf(h, {k}, t))
  {
    assert k in LapsedAmong(h, {k}, t) <==> Lapsed(h, k, t);
  }

  /**
   * Lazy and eager expiry agree: at any time the get script, `contains`, `length` and the
   * listings report one and the same view, and what each of them deletes leaves the view as it
   * is at that time and at every later one.
   */
  lemma ReadsAgree(h: Hashes, k: Key, t: int, later: int)
    requires t <= later
    ensures LuaGet(h, k, t).0 == (if k in View(h, t) then Some(View(h, t)[k]) else None)
    ensures Contains(h, k, t).0 <==> k in View(h, t)
    ensures Swept(h, t).data == View(h, t) && |Swept(h, t).data| == |View(h, t)|
    ensures View(LuaGet(h, k, t).1, later) == View(h, later)
    ensures View(Contains(h, k, t).1, later) == View(h, later)
    ensures View(Swept(h, t), later) == View(h, later)
  {
    RemovalInvisible(h, LapsedAmong(h, {k}, t), t, later);
    RemovalInvisible(h, LapsedAmong(h, h.exp.Keys, t), t, later);
    if Lapsed(h, k, t) {
      RemovalInvisible(h, {k}, t, later);
    }
    assert LapsedAmong(h, {k}, t) == if Lapsed(h, k, t) then {k} else {};
  }

  /** What the reads delete: a get and a check their key, a sweep every key, when it has lapsed, from both hashes. */
  lemma ReadsDelete(h: Hashes, k: Key, t: int, other: Key)
    ensures var h' := LuaGet(h, k, t).1;
      if k in h.data && k in h.exp && h.exp[k] < t then k !in h'.data && k !in h'.exp else h' == h
    ensures var h' := Contains(h, k, t).1;
      if k in h.exp && h.exp[k] < t then k !in h'.data && k !in h'.exp else h' == h
    ensures other != k ==>
              && Lookup(LuaGet(h, k, t).1.data, other) == Lookup(h.data, other)
              && Lookup(LuaGet(h, k, t).1.exp, other) == Lookup(h.exp, other)
              && Lookup(Contains(h, k, t).1.data, other) == Lookup(h.data, other)
              && Lookup(Contains(h, k, t).1.exp, other) == Lookup(h.exp, other)
    ensures var h', lapsed := Swept(h, t), k in h.exp && h.exp[k] < t;
      && Lookup(h'.data, k) == (if lapsed then None else Lookup(h.data, k))
      && Lookup(h'.exp, k) == (if lapsed then None else Lookup(h.exp, k))
  {
    assert k in LapsedAmong(h, {k}, t) <==> Lapsed(h, k, t);
    if !Lapsed(h, k, t) {
      assert LapsedAmong(h, {k}, t) == {};
      assert Without(h, {}) == h;
    }
  }

  /** A write without a deadline stays visible for good exactly when no old deadline is left for its key. */
  lemma UndatedWriteBoundary(h: Hashes, k: Key, v: Val, t: int)
    ensures (forall later :: later >= t ==> k in View(LuaSet(h, k, v, None), later)) <==> k !in h.exp
  {
    var h' := LuaSet(h, k, v, None);
    if k in h.exp {
      var later := if h.exp[k] >= t then h.exp[k] + 1 else t;
      assert Lapsed(h', k, later);
      assert k !in View(h', later);
    }
  }

  /** Clearing the dictionary leaves the side hash behind, so a later undated write expires with the old entry. */
  lemma ClearedKeyExpires(k: Key, v: Val, w: Val)
    ensures var written := LuaSet(Hashes(map[], map[]), k, v, Some(110));
      var cleared := written.(data := map[]);
      var again := LuaSet(cleared, k, w, None);
      k in View(again, 105) && k !in View(again, 111)
  {
  }
}

/**
 * Refinement: with a default expiration, so that every write carries a deadline, the two hashes
 * behave like one map from key to value and deadline, under every sequence of calls.
 */
module TtlRefinement {
  import opened Common
  import opened HashExpiry

  /** How decoding ends; one listing catches only the error of a missing attribute. */
  datatype Verdict = Decodes | NoAttribute | OtherError

  /** What decoding does with a stored value, or with the absent one that a batch read hands it. */
  type Codec = Option<Val> -> Verdict

  datatype Op =
    | Set(key: Key, val: Val, ex: Option<int>)
    | SetBatch(vals: map<Key, Val>, ex: Option<int>)
    | Get(key: Key)
    | GetValues(keys: seq<Key>)
    | ContainsKey(key: Key)
    | Delete(key: Key)
    | Clear(several: set<Key>)  // with at least one key
    | ClearAll
    | Length
    | Keys
    | Entries(order: seq<Key>)  // in the order in which the reply lists the keys
    | Expire(key: Key, ex: Option<int>)

  datatype Reply =
    | Done
    | Failed                    // the call raises: HSET and HMGET refuse an empty list, or decoding fails
    | One(val: Option<Val>)
    | Many(vals: seq<Option<Val>>)
    | Yes(b: bool)
    | Size(n: nat)
    | Names(keys: set<Key>)
    | All(entries: map<Key, Val>)

  /** `ex or self.expiration` */
  function Effective(ex: Option<int>, default: int): int {
    if ex.Some? && ex.value != 0 then ex.value else default
  }

  /** What a read of a stored value hands out. */
  function Decoded(codec: Codec, v: Option<Val>): Option<Val> {
    if codec(v).Decodes? then v else None
  }

  /** The keys that a read deletes because what it got for them does not decode. */
  function Broken(codec: Codec, data: map<Key, Val>, keys: seq<Key>): set<Key> {
    set k | k in keys && !codec(Lookup(data, k)).Decodes?
  }

  /** How far a listing has come: its entries, the keys it deletes, and whether it was left by an error. */
  datatype Scan = Scan(entries: map<Key, Val>, broken: set<Key>, raised: bool)

  /** A listing of all entries deletes those that fail for a missing attribute and stops at any other failure. */
  function Scanned(codec: Codec, data: map<Key, Val>, order: seq<Key>): Scan {
    if order == [] then Scan(map[], {}, false)
    else
      var n := |order| - 1;
      var scan, k := Scanned(codec, data, order[..n]), order[n];
      if scan.raised || k !in data then scan
      else
        match codec(Some(data[k]))
        case Decodes => scan.(entries := scan.entries[k := data[k]])
        case NoAttribute => scan.(broken := scan.broken + {k})
        case OtherError => scan.(raised := true)
  }

  /** What a listing of all keys comes to, whatever the order. */
  lemma {:induction false} ScanMeaning(codec: Codec, data: map<Key, Val>, order: seq<Key>, n: nat)
    requires n <= |order|
    ensures var scan := Scanned(codec, data, order[..n]);
      && (scan.raised <==> exists k :: k in order[..n] && k in data && codec(Some(data[k])).OtherError?)
      && (!scan.raised ==>
            && scan.entries == (map k | k in order[..n] && k in data && codec(Some(data[k])).Decodes? :: data[k])
            && scan.broken == (set k | k in order[..n] && k in data && codec(Some(data[k])).NoAttribute?))
  {
    if n > 0 {
      ScanMeaning(codec, data, order, n - 1);
      assert order[..n][..n - 1] == order[..n - 1];
      assert forall k :: k in order[..n] <==> k in order[..n - 1] || k == order[n - 1];
    }
  }

  lemma {:induction false} ScanStopped(codec: Codec, data: map<Key, Val>, order: seq<Key>, n: nat)
    requires n <= |order| && Scanned(codec, data, order[..n]).raised
    ensures Scanned(codec, data, order) == Scanned(codec, data, order[..n])
    decreases |order| - n
  {
    if n < |order| {
      assert order[..n + 1][..n] == order[..n];
      ScanStopped(codec, data, order, n + 1);
    } else {
      assert order[..n] == order;
    }
  }

  function Fetch(codec: Codec, data: map<Key, Val>, keys: seq<Key>): seq<Option<Val>> {
    seq(|keys|, i requires 0 <= i < |keys| => Decoded(codec, Lookup(data, keys[i])))
  }

  /** One deadline for every key of a batch. */
  function Deadlines(keys: set<Key>, deadline: int): map<Key, int> {
    map k | k in keys :: deadline
  }

  /** A call on the two hashes at time t. */
  function Concrete(h: Hashes, op: Op, t: int, default: int, codec: Codec): (Reply, Hashes) {
    match op
    case Set(k, v, ex) => (Done, LuaSet(h, k, v, Some(t + Effective(ex, default))))
    case SetBatch(vals, ex) =>
      if vals == map[] then (Failed, h)
      else (Done, Hashes(h.data + vals, h.exp + Deadlines(vals.Keys, t + Effective(ex, default))))
    case Get(k) =>
      var (v, h') := LuaGet(h, k, t);
      (One(Decoded(codec, v)), if v.Some? && !codec(v).Decodes? then Without(h', {k}) else h')
    case GetValues(keys) =>
      var h' := if keys == [] then Swept(h, t) else SweptOf(h, (set k | k in keys), t);
      if keys == [] then (Failed, h')
      else (Many(Fetch(codec, h'.data, keys)), Without(h', Broken(codec, h'.data, keys)))
    case ContainsKey(k) => var (b, h') := Contains(h, k, t); (Yes(b), h')
    case Delete(k) => (Done, Without(h, {k}))
    case Clear(keys) => (Done, Without(h, keys))
    case ClearAll => (Done, h.(data := map[]))
    case Length => (Size(|Swept(h, t).data|), Swept(h, t))
    case Keys => (Names(Swept(h, t).data.Keys), Swept(h, t))
    case Entries(order) =>
      var h' := Swept(h, t);
      var scan := Scanned(codec, h'.data, order);
      (if scan.raised then Failed else All(scan.entries), Without(h', scan.broken))
    case Expire(k, ex) => (Done, if ex.None? then h else h.(exp := h.exp[k := t + ex.value]))
  }

  /** The specification: a map with a deadline per key. */
  type TtlMap = map<Key, (Val, int)>

  /** The entries whose deadline is not before t. */
  function Alive(m: TtlMap, t: int): TtlMap {
    map k | k in m && t <= m[k].1 :: m[k]
  }

  function Values(m: TtlMap): map<Key, Val> {
    map k | k in m :: m[k].0
  }

  /** The same call on the single map. */
  function Abstract(m: TtlMap, op: Op, t: int, default: int, codec: Codec): (Reply, TtlMap) {
    var now := Alive(m, t);
    match op
    case Set(k, v, ex) => (Done, now[k := (v, t + Effective(ex, default))])
    case SetBatch(vals, ex) =>
      if vals == map[] then (Failed, now)
      else (Done, now + map k | k in vals :: (vals[k], t + Effective(ex, default)))
    case Get(k) =>
      (One(Decoded(codec, Lookup(Values(now), k))), now - Broken(codec, Values(now), [k]))
    case GetValues(keys) =>
      if keys == [] then (Failed, now)
      else (Many(Fetch(codec, Values(now), keys)), now - Broken(codec, Values(now), keys))
    case ContainsKey(k) => (Yes(k in now), now)
    case Delete(k) => (Done, now - {k})
    case Clear(keys) => (Done, now - keys)
    case ClearAll => (Done, map[])
    case Length => (Size(|Values(now)|), now)
    case Keys => (Names(now.Keys), now)
    case Entries(order) =>
      var scan := Scanned(codec, Values(now), order);
      (if scan.raised then Failed else All(scan.entries), now - scan.broken)
    case Expire(k, ex) => (Done, if k in now && ex.Some? then now[k := (now[k].0, t + ex.value)] else now)
  }

  /** The live part of the two hashes. */
  function Live(h: Hashes, t: int): TtlMap {
    map k | k in h.data && k in h.exp && t <= h.exp[k] :: (h.data[k], h.exp[k])
  }

  /** Every stored key has a deadline, and what is alive in the hashes is what is alive in the map. */
  predicate Refines(h: Hashes, m: TtlMap, t: int) {
    h.data.Keys <= h.exp.Keys && Live(h, t) == Alive(m, t)
  }

  /** The one call that can tell the difference: `expire` on a key that has lapsed but is still stored. */
  predicate Faithful(h: Hashes, op: Op, t: int) {
    op.Expire? ==> op.ex.None? || op.ex.value < 0 || !(op.key in h.data && Lapsed(h, op.key, t))
  }

  lemma ViewIsLive(h: Hashes, m: TtlMap, t: int)
    requires Refines(h, m, t)
    ensures View(h, t) == Values(Alive(m, t))
    ensures Swept(h, t).data == Values(Alive(m, t))
  {
    assert forall k :: k in View(h, t) <==> k in Live(h, t);
    SweptIsView(h, t);
  }

  /** Time alone keeps the refinement. */
  lemma Later(h: Hashes, m: TtlMap, t: int, t': int)
    requires Refines(h, m, t) && t <= t'
    ensures Refines(h, m, t')
  {
    forall k ensures k in Live(h, t') <==> k in Alive(m, t') {
      assert k in Live(h, t) <==> k in Alive(m, t);
    }
    forall k | k in Live(h, t') ensures Live(h, t')[k] == Alive(m, t')[k] {
      assert Live(h, t)[k] == Alive(m, t)[k];
    }
  }

  /** Removing keys from both sides, lapsed ones perhaps from one side only. */
  lemma RemoveBoth(h: Hashes, m: TtlMap, t: int, gone: set<Key>, dropped: set<Key>)
    requires Refines(h, m, t)
    requires forall k :: k in gone && k !in dropped ==> Lapsed(h, k, t)
    requires forall k :: k in dropped && k !in gone ==> k !in Alive(m, t)
    ensures Refines(Without(h, gone), Alive(m, t) - dropped, t)
  {
    var h', m' := Without(h, gone), Alive(m, t) - dropped;
    forall k ensures k in Live(h', t) <==> k in Alive(m', t) {
      assert k in Live(h, t) <==> k in Alive(m, t);
    }
    forall k | k in Live(h', t) ensures Live(h', t)[k] == Alive(m', t)[k] {
      assert Live(h, t)[k] == Alive(m, t)[k];
    }
  }

  /** Hashes and map agree on one key. */
  predicate SameAt(h: Hashes, m: TtlMap, t: int, k: Key) {
    && (k in h.data ==> k in h.exp)
    && (k in h.data && t <= h.exp[k] <==> k in m && t <= m[k].1)
    && (k in h.data && t <= h.exp[k] ==> m[k] == (h.data[k], h.exp[k]))
  }

  lemma Pointwise(h: Hashes, m: TtlMap, t: int)
    ensures Refines(h, m, t) <==> forall k :: SameAt(h, m, t, k)
  {
    if Refines(h, m, t) {
      forall k ensures SameAt(h, m, t, k) {
        assert k in Live(h, t) <==> k in Alive(m, t);
        assert k in Live(h, t) ==> Live(h, t)[k] == Alive(m, t)[k];
      }
    } else if forall k :: SameAt(h, m, t, k) {
      assert forall k :: k in h.data ==> SameAt(h, m, t, k);
      forall k ensures k in Live(h, t) <==> k in Alive(m, t) {
        assert SameAt(h, m, t, k);
      }
      forall k | k in Live(h, t) ensures Live(h, t)[k] == Alive(m, t)[k] {
        assert SameAt(h, m, t, k);
      }
    }
  }

  lemma SetAt(h: Hashes, m: TtlMap, op: Op, t: int, default: int, codec: Codec, k: Key)
    requires SameAt(h, m, t, k) && (op.Set? || op.SetBatch? || op.ClearAll?)
    ensures SameAt(Concrete(h, op, t, default, codec).1, Abstract(m, op, t, default, codec).1, t, k)
  {
    if op.SetBatch? && op.vals != map[] {
      var deadlines := Deadlines(op.vals.Keys, t + Effective(op.ex, default));
      assert k in deadlines <==> k in op.vals;
    }
  }

  lemma ExpireAt(h: Hashes, m: TtlMap, op: Op, t: int, default: int, codec: Codec, k: Key)
    requires SameAt(h, m, t, k) && op.Expire? && Faithful(h, op, t)
    ensures SameAt(Concrete(h, op, t, default, codec).1, Abstract(m, op, t, default, codec).1, t, k)
  {
  }

  lemma WriteStep(h: Hashes, m: TtlMap, op: Op, t: int, default: int, codec: Codec)
    requires Refines(h, m, t) && (op.Set? || op.SetBatch? || op.ClearAll? || (op.Expire? && Faithful(h, op, t)))
    ensures Refines(Concrete(h, op, t, default, codec).1, Abstract(m, op, t, default, codec).1, t)
  {
    Pointwise(h, m, t);
    Pointwise(Concrete(h, op, t, default, codec).1, Abstract(m, op, t, default, codec).1, t);
    forall k ensures SameAt(Concrete(h, op, t, default, codec).1, Abstract(m, op, t, default, codec).1, t, k) {
      if op.Expire? {
        ExpireAt(h, m, op, t, default, codec, k);
      } else {
        SetAt(h, m, op, t, default, codec, k);
      }
    }
  }

  /** The keys that a get deletes: the key itself when it has lapsed or does not decode. */
  function GoneByGet(h: Hashes, key: Key, t: int, codec: Codec): set<Key> {
    if key in h.data && (Lapsed(h, key, t) || !codec(Some(h.data[key])).Decodes?) then {key} else {}
  }

  lemma GetForm(h: Hashes, key: Key, t: int, default: int, codec: Codec)
    ensures Concrete(h, Get(key), t, default, codec) ==
            (One(Decoded(codec, Lookup(View(h, t), key))), Without(h, GoneByGet(h, key, t, codec)))
  {
    assert Without(h, {}) == h;
  }

  lemma GetStep(h: Hashes, m: TtlMap, key: Key, t: int, default: int, codec: Codec)
    requires Refines(h, m, t)
    ensures Concrete(h, Get(key), t, default, codec).0 == Abstract(m, Get(key), t, default, codec).0
    ensures Refines(Concrete(h, Get(key), t, default, codec).1, Abstract(m, Get(key), t, default, codec).1, t)
  {
    ViewIsLive(h, m, t);
    GetForm(h, key, t, default, codec);
    var broken := Broken(codec, View(h, t), [key]);
    assert key in broken <==> !codec(Lookup(View(h, t), key)).Decodes?;
    RemoveBoth(h, m, t, GoneByGet(h, key, t, codec), broken);
  }

  /** What a sweep of the asked keys leaves of them is what is visible of them. */
  lemma FetchSame(h: Hashes, swept: set<Key>, keys: seq<Key>, t: int, codec: Codec)
    requires forall k :: k in keys ==> k in swept || k !in h.exp
    ensures var h' := SweptOf(h, swept, t);
      && Fetch(codec, h'.data, keys) == Fetch(codec, View(h, t), keys)
      && Broken(codec, h'.data, keys) == Broken(codec, View(h, t), keys)
  {
    assert forall k :: k in keys ==> Lookup(SweptOf(h, swept, t).data, k) == Lookup(View(h, t), k);
  }

  lemma GetValuesStep(h: Hashes, m: TtlMap, keys: seq<Key>, t: int, default: int, codec: Codec)
    requires Refines(h, m, t)
    ensures Concrete(h, GetValues(keys), t, default, codec).0 == Abstract(m, GetValues(keys), t, default, codec).0
    ensures Refines(Concrete(h, GetValues(keys), t, default, codec).1,
        Abstract(m, GetValues(keys), t, default, codec).1, t)
  {
    if keys == [] {
      SweepOnly(h, m, t, h.exp.Keys);
      return;
    }
    ViewIsLive(h, m, t);
    var swept := set k | k in keys;
    var lapsed := LapsedAmong(h, swept, t);
    FetchSame(h, swept, keys, t, codec);
    var broken := Broken(codec, View(h, t), keys);
    assert Without(Without(h, lapsed), broken) == Without(h, lapsed + broken);
    RemoveBoth(h, m, t, lapsed + broken, broken);
  }

  /** Sweeping some keys changes nothing for the map. */
  lemma SweepOnly(h: Hashes, m: TtlMap, t: int, keys: set<Key>)
    requires Refines(h, m, t)
    ensures Refines(SweptOf(h, keys, t), Alive(m, t), t)
  {
    assert Alive(m, t) - {} == Alive(m, t);
    RemoveBoth(h, m, t, LapsedAmong(h, keys, t), {});
  }

  lemma ContainsStep(h: Hashes, m: TtlMap, key: Key, t: int, default: int, codec: Codec)
    requires Refines(h, m, t)
    ensures Concrete(h, ContainsKey(key), t, default, codec).0 == Abstract(m, ContainsKey(key), t, default, codec).0
    ensures Refines(Concrete(h, ContainsKey(key), t, default, codec).1,
        Abstract(m, ContainsKey(key), t, default, codec).1, t)
  {
    ViewIsLive(h, m, t);
    ContainsAgrees(h, key, t);
    SweepOnly(h, m, t, {key});
  }

  lemma ListingStep(h: Hashes, m: TtlMap, op: Op, t: int, default: int, codec: Codec)
    requires Refines(h, m, t) && (op.Length? || op.Keys?)
    ensures Concrete(h, op, t, default, codec).0 == Abstract(m, op, t, default, codec).0
    ensures Refines(Concrete(h, op, t, default, codec).1, Abstract(m, op, t, default, codec).1, t)
  {
    ViewIsLive(h, m, t);
    SweepOnly(h, m, t, h.exp.Keys);
  }

  lemma EntriesStep(h: Hashes, m: TtlMap, order: seq<Key>, t: int, default: int, codec: Codec)
    requires Refines(h, m, t)
    ensures Concrete(h, Entries(order), t, default, codec).0 == Abstract(m, Entries(order), t, default, codec).0
    ensures Refines(Concrete(h, Entries(order), t, default, codec).1,
        Abstract(m, Entries(order), t, default, codec).1, t)
  {
    ViewIsLive(h, m, t);
    var lapsed, broken := LapsedAmong(h, h.exp.Keys, t), Scanned(codec, Values(Alive(m, t)), order).broken;
    assert Without(Without(h, lapsed), broken) == Without(h, lapsed + broken);
    RemoveBoth(h, m, t, lapsed + broken, broken);
  }

  lemma DeleteStep(h: Hashes, m: TtlMap, op: Op, t: int, default: int, codec: Codec)
    requires Refines(h, m, t) && (op.Delete? || op.Clear?)
    ensures Concrete(h, op, t, default, codec).0 == Abstract(m, op, t, default, codec).0
    ensures Refines(Concrete(h, op, t, default, codec).1, Abstract(m, op, t, default, codec).1, t)
  {
    var keys := if op.Delete? then {op.key} else op.several;
    RemoveBoth(h, m, t, keys, keys);
  }

  /** Each call gets the same reply from both, and they go on agreeing. */
  lemma SimulationStep(h: Hashes, m: TtlMap, op: Op, t: int, default: int, codec: Codec)
    requires Refines(h, m, t) && Faithful(h, op, t)
    ensures Concrete(h, op, t, default, codec).0 == Abstract(m, op, t, default, codec).0
    ensures Refines(Concrete(h, op, t, default, codec).1, Abstract(m, op, t, default, codec).1, t)
  {
    match op
    case Get(k) => GetStep(h, m, k, t, default, codec);
    case GetValues(keys) => GetValuesStep(h, m, keys, t, default, codec);
    case Delete(_) => DeleteStep(h, m, op, t, default, codec);
    case Clear(_) => DeleteStep(h, m, op, t, default, codec);
    case Set(_, _, _) => WriteStep(h, m, op, t, default, codec);
    case SetBatch(_, _) => WriteStep(h, m, op, t, default, codec);
    case ClearAll => WriteStep(h, m, op, t, default, codec);
    case Expire(_, _) => WriteStep(h, m, op, t, default, codec);
    case ContainsKey(k) => ContainsStep(h, m, k, t, default, codec);
    case Entries(order) => EntriesStep(h, m, order, t, default, codec);
    case _ => ListingStep(h, m, op, t, default, codec);
  }

  /**
   * `expire` is faithful exactly when the key is not a lapsed one that is still stored: such a
   * key comes back to life, while the single map has forgotten it.
   */
  lemma ExpireBoundary(h: Hashes, m: TtlMap, k: Key, ex: Option<int>, t: int, default: int, codec: Codec)
    requires Refines(h, m, t)
    ensures Refines(Concrete(h, Expire(k, ex), t, default, codec).1, Abstract(m, Expire(k, ex), t, default, codec).1, t)
            <==> Faithful(h, Expire(k, ex), t)
  {
    if Faithful(h, Expire(k, ex), t) {
      WriteStep(h, m, Expire(k, ex), t, default, codec);
    } else {
      var h', m' := Concrete(h, Expire(k, ex), t, default, codec).1, Abstract(m, Expire(k, ex), t, default, codec).1;
      assert k !in Live(h, t) && k !in Alive(m, t);
      assert k in Live(h', t) && k !in Alive(m', t);
    }
  }

  datatype Call = Call(op: Op, at: int)

  /** The replies to a sequence of calls on the two hashes. */
  function ConcreteReplies(h: Hashes, calls: seq<Call>, default: int, codec: Codec): seq<Reply>
    decreases |calls|
  {
    if calls == [] then []
    else
      var (reply, h') := Concrete(h, calls[0].op, calls[0].at, default, codec);
      [reply] + ConcreteReplies(h', calls[1..], default, codec)
  }

  function AbstractReplies(m: TtlMap, calls: seq<Call>, default: int, codec: Codec): seq<Reply>
    decreases |calls|
  {
    if calls == [] then []
    else
      var (reply, m') := Abstract(m, calls[0].op, calls[0].at, default, codec);
      [reply] + AbstractReplies(m', calls[1..], default, codec)
  }

  /** The clock does not run back, and `expire` is never called on a lapsed key that is still stored. */
  predicate Proper(h: Hashes, calls: seq<Call>, since: int, default: int, codec: Codec)
    decreases |calls|
  {
    calls == [] ||
    (&& since <= calls[0].at
     && Faithful(h, calls[0].op, calls[0].at)
     && Proper(Concrete(h, calls[0].op, calls[0].at, default, codec).1, calls[1..], calls[0].at, default, codec))
  }

  lemma {:induction false} RunsAgree(h: Hashes, m: TtlMap, calls: seq<Call>, since: int, default: int, codec: Codec)
    requires Refines(h, m, since) && Proper(h, calls, since, default, codec)
    ensures ConcreteReplies(h, calls, default, codec) == AbstractReplies(m, calls, default, codec)
    decreases |calls|
  {
    if calls != [] {
      var op, t := calls[0].op, calls[0].at;
      Later(h, m, since, t);
      SimulationStep(h, m, op, t, default, codec);
      RunsAgree(Concrete(h, op, t, default, codec).1, Abstract(m, op, t, default, codec).1, calls[1..], t, default,
          codec);
    }
  }

  /**
   * From empty hashes, every proper sequence of calls gets the replies of the single map, stale side
   * entries or not.
   */
  lemma DictionaryIsTtlMap(calls: seq<Call>, since: int, default: int, codec: Codec)
    requires Proper(Hashes(map[], map[]), calls, since, default, codec)
    ensures ConcreteReplies(Hashes(map[], map[]), calls, default, codec) ==
        AbstractReplies(map[], calls, default, codec)
  {
    RunsAgree(Hashes(map[], map[]), map[], calls, since, default, codec);
  }
}

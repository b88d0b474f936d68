/** `KVDBStatefulBackend` in HSET mode as it runs: two hashes, updated command by command. */
module StatefulBackendModel {
  import opened Common
  import opened HashExpiry
  import opened TtlRefinement

  class StatefulBackend {
    const expiration: Option<int>
    var data: map<Key, Val>
    var exp: map<Key, int>

    constructor (expiration: Option<int>)
      ensures View() == Hashes(map[], map[]) && this.expiration == expiration
    {
      this.expiration := expiration;
      data, exp := map[], map[];
    }

    ghost function View(): Hashes
      reads this
    {
      Hashes(data, exp)
    }

    /**
     * `_run_expiration_check`: `keys` are the caller's, or none for all keys of the side hash, which
     * `listing` lists; `times` are the clock readings.
     */
    method RunExpirationCheck(keys: seq<Key>, listing: seq<Key>, times: seq<int>)
      requires forall k :: k in listing <==> k in exp
      requires |times| == |if keys == [] then listing else keys|
      modifies this
      ensures View() == SweepAt(old(View()), old(exp), if keys == [] then listing else keys, times)
    {
      var asked := if keys == [] then listing else keys;
      var deadlines := exp;
      for i := 0 to |asked|
        invariant View() == SweepAt(old(View()), deadlines, asked[..i], times[..i])
      {
        assert asked[..i + 1][..i] == asked[..i] && times[..i + 1][..i] == times[..i];
        if asked[i] in deadlines {
          if deadlines[asked[i]] < times[i] {
            exp := exp - {asked[i]};
            data := data - {asked[i]};
          }
        }
      }
      assert asked[..|asked|] == asked && times[..|times|] == times;
    }

    /** The full sweep with one reading of the clock. */
    method Sweep(listing: seq<Key>, t: int)
      requires forall k :: k in listing <==> k in exp
      modifies this
      ensures View() == Swept(old(View()), t)
    {
      ghost var before := View();
      var times := seq(|listing|, i => t);
      SweepAtOneTime(before, listing, times, t);
      assert (set k | k in listing) == before.exp.Keys;
      RunExpirationCheck([], listing, times);
    }

    /** `hset_expiration_check` */
    method ExpirationCheck(k: Key, t: int)
      modifies this
      ensures View() == SweptOf(old(View()), {k}, t)
    {
      if k in exp && exp[k] < t {
        assert LapsedAmong(View(), {k}, t) == {k};
        exp := exp - {k};
        data := data - {k};
      } else {
        assert LapsedAmong(View(), {k}, t) == {};
      }
    }

    method GetItem(k: Key, t: int, default: Option<Val>, codec: Codec) returns (v: Option<Val>)
      modifies this
      ensures View() == Concrete(old(View()), Get(k), t, 0, codec).1
      ensures var read := Concrete(old(View()), Get(k), t, 0, codec).0.val; v == if read.Some? then read else default
    {
      if k !in data {
        return default;
      }
      if k in exp && exp[k] < t {
        data := data - {k};
        exp := exp - {k};
        return default;
      }
      if !codec(Some(data[k])).Decodes? {
        DeleteItem(k);
        return default;
      }
      return Some(data[k]);
    }

    /** `set`: a zero or missing `ex` falls back to the default expiration, if there is one. */
    method SetItem(k: Key, v: Val, ex: Option<int>, t: int)
      modifies this
      ensures expiration.Some? ==>
                forall codec: Codec :: View() == Concrete(old(View()), Set(k, v, ex), t, expiration.value, codec).1
      ensures expiration.None? ==>
                View() == LuaSet(old(View()), k, v, if ex.Some? && ex.value != 0 then Some(t + ex.value) else None)
    {
      var effective := if ex.Some? && ex.value != 0 then ex else expiration;
      data := data[k := v];
      if effective.Some? {
        exp := exp[k := t + effective.value];
      }
    }

    method SetItems(vals: map<Key, Val>, ex: Option<int>, t: int) returns (ok: bool)
      modifies this
      ensures ok <==> vals != map[]
      ensures !ok ==> View() == old(View())
      ensures expiration.None? && ok ==>
                data == old(data) + vals &&
                exp == if ex.Some? && ex.value != 0 then old(exp) + Deadlines(vals.Keys, t + ex.value) else old(exp)
      ensures expiration.Some? ==>
                forall codec: Codec :: View() == Concrete(old(View()), SetBatch(vals, ex), t, expiration.value, codec).1
    {
      if vals == map[] {
        return false;
      }
      var effective := if ex.Some? && ex.value != 0 then ex else expiration;
      data := data + vals;
      if effective.Some? {
        exp := exp + map k | k in vals :: t + effective.value;
      }
      return true;
    }

    /** The delete script. */
    method DeleteItem(k: Key)
      modifies this
      ensures View() == Without(old(View()), {k})
    {
      data := data - {k};
      exp := exp - {k};
    }

    /** `clear`: given keys go from both hashes; a full clear deletes the data hash only. */
    method ClearItems(keys: set<Key>)
      modifies this
      ensures View() == if keys != {} then Without(old(View()), keys) else old(View()).(data := map[])
    {
      if keys != {} {
        data := data - keys;
        exp := exp - keys;
      } else {
        data := map[];
      }
    }

    method ContainsItem(k: Key, t: int) returns (found: bool)
      modifies this
      ensures (found, View()) == Contains(old(View()), k, t)
    {
      ExpirationCheck(k, t);
      found := k in data;
    }

    method CountItems(listing: seq<Key>, t: int) returns (n: nat)
      requires forall k :: k in listing <==> k in exp
      modifies this
      ensures n == |HashExpiry.View(old(View()), t)| && View() == Swept(old(View()), t)
    {
      SweptIsView(View(), t);
      Sweep(listing, t);
      n := |data|;
    }

    /** The decoding loop of `get_all_data`. */
    method DecodeAll(stored: map<Key, Val>, order: seq<Key>, codec: Codec) returns (items: Option<map<Key, Val>>)
      requires forall k :: k in order ==> k in stored
      modifies this
      ensures View() == Without(old(View()), Scanned(codec, stored, order).broken)
      ensures var scan := Scanned(codec, stored, order); items == if scan.raised then None else Some(scan.entries)
    {
      var found: map<Key, Val> := map[];
      for i := 0 to |order|
        invariant !Scanned(codec, stored, order[..i]).raised && found == Scanned(codec, stored, order[..i]).entries
        invariant View() == Without(old(View()), Scanned(codec, stored, order[..i]).broken)
      {
        assert order[..i + 1][..i] == order[..i];
        var k := order[i];
        assert k in order;
        match codec(Some(stored[k])) {
          case Decodes => found := found[k := stored[k]];
          case NoAttribute => DeleteItem(k);
          case OtherError =>
            ScanStopped(codec, stored, order, i + 1);
            return None;
        }
      }
      assert order[..|order|] == order;
      return Some(found);
    }

    /** `get_all_data`: a value that fails for a missing attribute is deleted, any other failure raises. */
    method AllItems(listing: seq<Key>, order: seq<Key>, t: int, codec: Codec) returns (items: Option<map<Key, Val>>)
      requires forall k :: k in listing <==> k in exp
      requires forall k :: k in order <==> k in HashExpiry.View(View(), t)
      modifies this
      ensures var (reply, h) := Concrete(old(View()), Entries(order), t, 0, codec);
        View() == h && items == if reply.All? then Some(reply.entries) else None
    {
      SweptIsView(View(), t);
      Sweep(listing, t);
      items := DecodeAll(data, order, codec);
    }

    /** The decoding loop of `get_values`. */
    method DecodeEach(stored: map<Key, Val>, keys: seq<Key>, codec: Codec) returns (vals: seq<Option<Val>>)
      modifies this
      ensures View() == Without(old(View()), Broken(codec, stored, keys)) && vals == Fetch(codec, stored, keys)
    {
      vals := [];
      for i := 0 to |keys|
        invariant vals == Fetch(codec, stored, keys[..i])
        invariant View() == Without(old(View()), Broken(codec, stored, keys[..i]))
      {
        BrokenGrows(codec, stored, keys, i);
        var value := Lookup(stored, keys[i]);
        if codec(value).Decodes? {
          vals := vals + [value];
        } else {
          DeleteItem(keys[i]);
          vals := vals + [None];
        }
      }
      assert keys[..|keys|] == keys;
    }

    /** `get_values`: an empty list sweeps everything and is then refused by HMGET. */
    method GetItems(keys: seq<Key>, listing: seq<Key>, t: int, codec: Codec) returns (vals: Option<seq<Option<Val>>>)
      requires forall k :: k in listing <==> k in exp
      modifies this
      ensures var (reply, h) := Concrete(old(View()), GetValues(keys), t, 0, codec);
        View() == h && vals == if reply.Many? then Some(reply.vals) else None
    {
      if keys == [] {
        Sweep(listing, t);
        return None;
      }
      var times := seq(|keys|, i => t);
      SweepAtOneTime(View(), keys, times, t);
      RunExpirationCheck(keys, listing, times);
      var found := DecodeEach(data, keys, codec);
      return Some(found);
    }

    method ExpireItem(k: Key, ex: Option<int>, t: int)
      modifies this
      ensures forall codec: Codec, default: int :: View() == Concrete(old(View()), Expire(k, ex), t, default, codec).1
    {
      if ex.Some? {
        exp := exp[k := t + ex.value];
      }
    }
  }

  lemma BrokenGrows(codec: Codec, data: map<Key, Val>, keys: seq<Key>, i: nat)
    requires i < |keys|
    ensures Broken(codec, data, keys[..i + 1]) ==
            Broken(codec, data, keys[..i]) + (if codec(Lookup(data, keys[i])).Decodes? then {} else {keys[i]})
    ensures Fetch(codec, data, keys[..i + 1]) == Fetch(codec, data, keys[..i]) + [Decoded(codec, Lookup(data, keys[i]))]
  {
    assert forall k :: k in keys[..i + 1] <==> k in keys[..i] || k == keys[i];
  }
}

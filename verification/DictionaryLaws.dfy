/** What the dictionary's calls answer, told from what is visible and from the writes before. */
module DictionaryLaws {
  import opened Common
  import opened HashExpiry
  import opened TtlRefinement

  /** The value that a caller can be given for a key at time t. */
  function Readable(h: Hashes, k: Key, t: int, codec: Codec): Option<Val> {
    if k in View(h, t) && codec(Some(View(h, t)[k])) == Decodes then Some(View(h, t)[k]) else None
  }

  /** A get answers the visible value if it decodes, and nothing otherwise. */
  lemma GetAnswers(h: Hashes, k: Key, t: int, default: int, codec: Codec)
    ensures Concrete(h, Get(k), t, default, codec).0 == One(Readable(h, k, t, codec))
  {
  }

  /** A batch of gets does so position by position; none at all raises. */
  lemma GetValuesAnswers(h: Hashes, keys: seq<Key>, t: int, default: int, codec: Codec)
    ensures keys == [] ==> Concrete(h, GetValues(keys), t, default, codec).0 == Failed
    ensures keys != [] ==>
              Concrete(h, GetValues(keys), t, default, codec).0 ==
              Many(seq(|keys|, i requires 0 <= i < |keys| => Readable(h, keys[i], t, codec)))
  {
    var swept := set k | k in keys;
    FetchSame(h, swept, keys, t, codec);
    forall i | 0 <= i < |keys| ensures Decoded(codec, Lookup(View(h, t), keys[i])) == Readable(h, keys[i], t, codec) {
    }
  }

  /** The other reads answer what is visible. */
  lemma ListingsAnswer(h: Hashes, k: Key, t: int, default: int, codec: Codec)
    ensures Concrete(h, ContainsKey(k), t, default, codec).0 == Yes(k in View(h, t))
    ensures Concrete(h, Length, t, default, codec).0 == Size(|View(h, t)|)
    ensures Concrete(h, Keys, t, default, codec).0 == Names(View(h, t).Keys)
  {
    ContainsAgrees(h, k, t);
    SweptIsView(h, t);
  }

  /** A listing of entries answers the visible ones that decode, unless some failure raises. */
  lemma EntriesAnswer(h: Hashes, order: seq<Key>, t: int, default: int, codec: Codec)
    requires forall k :: k in order <==> k in View(h, t)
    ensures var reply := Concrete(h, Entries(order), t, default, codec).0;
      if exists k :: k in View(h, t) && codec(Some(View(h, t)[k])) == OtherError then reply == Failed
      else reply.All? && forall k :: Lookup(reply.entries, k) == Readable(h, k, t, codec)
  {
    SweptIsView(h, t);
    ScanMeaning(codec, View(h, t), order, |order|);
    assert order[..|order|] == order;
  }

  /** The lifetime that a write asks for: the given one unless missing or zero, else the default. */
  function Lifetime(ex: Option<int>, default: int): int {
    match ex
    case None => default
    case Some(n) => if n == 0 then default else n
  }

  /** What is seen of a key after a write at t, at any later time. */
  function SeenAfter(h: Hashes, op: Op, t: int, default: int, later: int, k: Key): Option<Val> {
    match op
    case Set(key, v, ex) =>
      if k != key then Lookup(View(h, later), k)
      else if later <= t + Lifetime(ex, default) then Some(v) else None
    case SetBatch(vals, ex) =>
      if k !in vals then Lookup(View(h, later), k)
      else if later <= t + Lifetime(ex, default) then Some(vals[k]) else None
    case Delete(key) => if k == key then None else Lookup(View(h, later), k)
    case Clear(keys) => if k in keys then None else Lookup(View(h, later), k)
    case ClearAll => None
    case Expire(key, ex) =>
      if k != key || ex.None? then Lookup(View(h, later), k)
      else if later <= t + ex.value then Lookup(h.data, k) else None
    case _ => Lookup(View(h, later), k)
  }

  predicate Writes(op: Op) {
    op.Set? || op.SetBatch? || op.Delete? || op.Clear? || op.ClearAll? || op.Expire?
  }

  /** After a write each key is seen as the write says, from its deadline on not at all, and the others as before. */
  lemma WriteIsSeen(h: Hashes, op: Op, t: int, default: int, codec: Codec, later: int, k: Key)
    requires Writes(op)
    ensures Lookup(View(Concrete(h, op, t, default, codec).1, later), k) == SeenAfter(h, op, t, default, later, k)
    ensures Concrete(h, op, t, default, codec).0 == if op.SetBatch? && op.vals == map[] then Failed else Done
  {
  }

  /** A get in time answers the value that was written, if it decodes, and a get too late nothing. */
  lemma WriteThenRead(h: Hashes, k: Key, v: Val, ex: Option<int>, t: int, t': int, default: int, codec: Codec)
    requires t <= t'
    ensures var written := Concrete(h, Set(k, v, ex), t, default, codec).1;
      Concrete(written, Get(k), t', default, codec).0 ==
      One(if t' <= t + Lifetime(ex, default) && codec(Some(v)) == Decodes then Some(v) else None)
  {
    var written := Concrete(h, Set(k, v, ex), t, default, codec).1;
    WriteIsSeen(h, Set(k, v, ex), t, default, codec, t', k);
    GetAnswers(written, k, t', default, codec);
  }

  /** A write without any deadline leaves the side hash, and so all other keys, as they were. */
  lemma UndatedWriteIsSeen(h: Hashes, k: Key, v: Val, later: int, other: Key)
    ensures var h' := LuaSet(h, k, v, None);
      && h'.exp == h.exp && Lookup(h'.data, k) == Some(v)
      && (other != k ==> Lookup(View(h', later), other) == Lookup(View(h, later), other))
  {
  }

  /** The keys that a read at t deletes although they are visible: what it was to hand out does not decode. */
  predicate Spoiled(h: Hashes, op: Op, t: int, codec: Codec, k: Key) {
    k in View(h, t) &&
    match op
    case Get(key) => k == key && codec(Some(View(h, t)[k])) != Decodes
    case GetValues(keys) => k in keys && codec(Some(View(h, t)[k])) != Decodes
    case _ => false
  }

  lemma GetValuesIsHarmless(h: Hashes, keys: seq<Key>, t: int, default: int, codec: Codec, later: int, k: Key)
    requires t <= later
    ensures Lookup(View(Concrete(h, GetValues(keys), t, default, codec).1, later), k) ==
            if Spoiled(h, GetValues(keys), t, codec, k) then None else Lookup(View(h, later), k)
  {
    var asked := if keys == [] then h.exp.Keys else set key | key in keys;
    FetchSame(h, asked, keys, t, codec);
    assert k in Broken(codec, View(h, t), keys) <==> k in keys && !codec(Lookup(View(h, t), k)).Decodes?;
    assert k in LapsedAmong(h, asked, t) ==> Lapsed(h, k, later);
  }

  lemma GetIsHarmless(h: Hashes, key: Key, t: int, default: int, codec: Codec, later: int, k: Key)
    requires t <= later
    ensures Lookup(View(Concrete(h, Get(key), t, default, codec).1, later), k) ==
            if Spoiled(h, Get(key), t, codec, k) then None else Lookup(View(h, later), k)
  {
    GetForm(h, key, t, default, codec);
  }

  /** After a read every other visible key is seen as before, at once and later. */
  lemma ReadIsHarmless(h: Hashes, op: Op, t: int, default: int, codec: Codec, later: int, k: Key)
    requires !Writes(op) && !op.Entries? && t <= later
    ensures Lookup(View(Concrete(h, op, t, default, codec).1, later), k) ==
            if Spoiled(h, op, t, codec, k) then None else Lookup(View(h, later), k)
  {
    match op
    case Get(key) => GetIsHarmless(h, key, t, default, codec, later, k);
    case GetValues(keys) => GetValuesIsHarmless(h, keys, t, default, codec, later, k);
    case ContainsKey(key) => RemovalInvisible(h, LapsedAmong(h, {key}, t), t, later);
    case _ => RemovalInvisible(h, LapsedAmong(h, h.exp.Keys, t), t, later);
  }

  /** After a listing of entries that did not raise, exactly those that failed for a missing attribute are gone. */
  lemma EntriesDelete(h: Hashes, order: seq<Key>, t: int, default: int, codec: Codec, later: int, k: Key)
    requires (forall key :: key in order <==> key in View(h, t)) && t <= later
    requires forall key :: key in View(h, t) ==> codec(Some(View(h, t)[key])) != OtherError
    ensures Lookup(View(Concrete(h, Entries(order), t, default, codec).1, later), k) ==
            if k in View(h, t) && codec(Some(View(h, t)[k])) == NoAttribute then None else Lookup(View(h, later), k)
  {
    SweptIsView(h, t);
    ScanMeaning(codec, View(h, t), order, |order|);
    assert order[..|order|] == order;
    assert k in Scanned(codec, View(h, t), order).broken <==>
           k in View(h, t) && codec(Some(View(h, t)[k])) == NoAttribute;
  }

  /** The deadline that a write leaves of a key; a full clear leaves all of them. */
  lemma DeadlineAfter(h: Hashes, op: Op, t: int, default: int, codec: Codec, k: Key)
    requires Writes(op)
    ensures Lookup(Concrete(h, op, t, default, codec).1.exp, k) ==
            match op
            case Set(key, _, ex) => if k == key then Some(t + Lifetime(ex, default)) else Lookup(h.exp, k)
            case SetBatch(vals, ex) => if k in vals then Some(t + Lifetime(ex, default)) else Lookup(h.exp, k)
            case Delete(key) => if k == key then None else Lookup(h.exp, k)
            case Clear(keys) => if k in keys then None else Lookup(h.exp, k)
            case Expire(key, ex) => if k == key && ex.Some? then Some(t + ex.value) else Lookup(h.exp, k)
            case _ => Lookup(h.exp, k)
  {
  }
}

/** What cloning leaves of the target: the exact condition for clobbering nothing, and what arrives. */
module CloneSafety {
  import opened Common
  import opened Text
  import opened CloneModel

  /** Every text key and every hash field of the first store is unchanged in the second. */
  ghost predicate Preserves(before: Store, after: Store) {
    forall key :: key in before ==>
      && (before[key].TargetText? ==> key in after && after[key] == before[key])
      && (before[key].TargetHash? ==>
            && key in after && after[key].TargetHash?
            && forall f :: f in before[key].fields ==>
                 f in after[key].fields && after[key].fields[f] == before[key].fields[f])
  }

  /** Field i is copied, and no later field of the hash is copied to the same name. */
  ghost predicate Arrives(c: Config, held: set<string>, fields: seq<Field>, i: int) {
    && 0 <= i < |fields| && !HeldBack(c, held, fields[i].0)
    && forall j :: i < j < |fields| && !HeldBack(c, held, fields[j].0) ==>
         Renamed(c, fields[j].0) != Renamed(c, fields[i].0)
  }

  ghost predicate ArrivesAs(c: Config, held: set<string>, fields: seq<Field>, i: int, name: string) {
    Arrives(c, held, fields, i) && Renamed(c, fields[i].0) == name
  }

  /** The fields that a copy of the hash writes, in any of the branches. */
  function Results(c: Config, held: set<string>, fields: seq<Field>): map<string, Val> {
    if FieldByField(c, held) then CopyFields(c, "", held, fields).results else AsMap(fields)
  }

  /** One field more. */
  lemma ResultsGrow(c: Config, held: set<string>, fields: seq<Field>)
    requires fields != []
    ensures var rest, last := Results(c, held, fields[..|fields| - 1]), fields[|fields| - 1];
      Results(c, held, fields) == if HeldBack(c, held, last.0) then rest else rest[Renamed(c, last.0) := last.1]
  {
  }

  lemma {:induction false} ResultsIgnoreKey(c: Config, toKey: string, held: set<string>, fields: seq<Field>)
    ensures CopyFields(c, toKey, held, fields).results == CopyFields(c, "", held, fields).results
  {
    if fields != [] {
      ResultsIgnoreKey(c, toKey, held, fields[..|fields| - 1]);
    }
  }

  lemma ArrivesEarlier(c: Config, held: set<string>, fields: seq<Field>, i: nat)
    requires fields != [] && i < |fields| - 1
    ensures var n := |fields| - 1;
      Arrives(c, held, fields, i) <==>
      && Arrives(c, held, fields[..n], i)
      && (HeldBack(c, held, fields[n].0) || Renamed(c, fields[n].0) != Renamed(c, fields[i].0))
  {
    var n := |fields| - 1;
    assert forall j :: 0 <= j < n ==> fields[..n][j] == fields[j];
  }

  /** An arriving field is written with the source's value. */
  lemma {:induction false} ArrivingIsWritten(c: Config, held: set<string>, fields: seq<Field>, i: nat)
    requires Arrives(c, held, fields, i)
    ensures Renamed(c, fields[i].0) in Results(c, held, fields)
    ensures Results(c, held, fields)[Renamed(c, fields[i].0)] == fields[i].1
  {
    ResultsGrow(c, held, fields);
    if i < |fields| - 1 {
      ArrivesEarlier(c, held, fields, i);
      ArrivingIsWritten(c, held, fields[..|fields| - 1], i);
    }
  }

  /** Only arriving fields are written. */
  lemma {:induction false} WrittenHasArrived(c: Config, held: set<string>, fields: seq<Field>, name: string)
      returns (i: nat)
    requires name in Results(c, held, fields)
    ensures ArrivesAs(c, held, fields, i, name)
  {
    assert fields != [];
    var n := |fields| - 1;
    ResultsGrow(c, held, fields);
    if !HeldBack(c, held, fields[n].0) && Renamed(c, fields[n].0) == name {
      i := n;
    } else {
      i := WrittenHasArrived(c, held, fields[..n], name);
      ArrivesEarlier(c, held, fields, i);
    }
  }

  /** A copy of a hash writes its results, when it gets as far as writing. */
  lemma HashWrites(c: Config, s: State, toKey: string, fields: seq<Field>)
    ensures var results, s' := Results(c, Held(c, s.target, toKey), fields), CloneHash(c, s, toKey, fields).0;
      if HashWritable(s.target, toKey)
      then FieldsOf(s'.target, toKey) == FieldsOf(s.target, toKey) + results && HashWritable(s'.target, toKey)
      else s'.target == s.target
    ensures forall key :: key != toKey ==>
              var after := CloneHash(c, s, toKey, fields).0.target;
              (key in after <==> key in s.target) && (key in s.target ==> after[key] == s.target[key])
    ensures toKey in s.target ==> toKey in CloneHash(c, s, toKey, fields).0.target
  {
    ResultsIgnoreKey(c, toKey, Held(c, s.target, toKey), fields);
  }

  /**
   * After a hash was copied: a field name to which a field arrived has the source's value, and
   * every other name is as it was.
   */
  lemma HashIsCopied(c: Config, s: State, toKey: string, fields: seq<Field>, name: string)
    requires CloneHash(c, s, toKey, fields).1
    ensures var held, before := Held(c, s.target, toKey), FieldsOf(s.target, toKey);
      var after := FieldsOf(CloneHash(c, s, toKey, fields).0.target, toKey);
      && (forall i :: ArrivesAs(c, held, fields, i, name) ==> name in after && after[name] == fields[i].1)
      && ((forall i :: !ArrivesAs(c, held, fields, i, name)) ==> Lookup(after, name) == Lookup(before, name))
  {
    var held := Held(c, s.target, toKey);
    HashWrites(c, s, toKey, fields);
    ResultsIgnoreKey(c, toKey, held, fields);
    forall i | ArrivesAs(c, held, fields, i, name)
      ensures name in Results(c, held, fields) && Results(c, held, fields)[name] == fields[i].1
    {
      ArrivingIsWritten(c, held, fields, i);
    }
    if name in Results(c, held, fields) {
      var i := WrittenHasArrived(c, held, fields, name);
    }
  }

  /** Some arriving field puts another value under a name that these fields have. */
  ghost predicate HitsField(c: Config, held: set<string>, fields: seq<Field>, there: map<string, Val>) {
    exists i :: Arrives(c, held, fields, i)
      && Renamed(c, fields[i].0) in there && there[Renamed(c, fields[i].0)] != fields[i].1
  }

  /** Writing the results over some fields leaves those of a part of them exactly when no field hits one. */
  lemma HitBoundary(c: Config, held: set<string>, fields: seq<Field>, there: map<string, Val>, now: map<string, Val>)
    requires forall f :: f in there ==> f in now && now[f] == there[f]
    ensures (forall f :: f in there ==> (now + Results(c, held, fields))[f] == there[f]) <==>
        !HitsField(c, held, fields, there)
  {
    var results := Results(c, held, fields);
    if f :| f in there && (now + results)[f] != there[f] {
      var i := WrittenHasArrived(c, held, fields, f);
      ArrivingIsWritten(c, held, fields, i);
    }
    forall i | Arrives(c, held, fields, i)
      ensures Renamed(c, fields[i].0) in results && results[Renamed(c, fields[i].0)] == fields[i].1
    {
      ArrivingIsWritten(c, held, fields, i);
    }
  }

  /**
   * The copying of one source key overwrites something that the target had before the clone: a
   * text or a hash by `SET`, unless `overwrite` is False and the listing covers its name, or a
   * hash field by a field that arrives under its name.
   */
  ghost predicate Overwrites(c: Config, source: map<string, Source>, target: Store, s: State, key: string) {
    OverwritesText(c, source, target, key) || OverwritesField(c, source, target, s, key)
  }

  predicate OverwritesText(c: Config, source: map<string, Source>, target: Store, key: string) {
    var toKey := ToKey(c, key);
    && key in source && source[key].SourceText? && !KeySkipped(c, source, key)
    && toKey in target && !target[toKey].TargetOther? && target[toKey] != TargetText(source[key].v)
    && !(c.overwrite == Some(false) && Covered(c, toKey))
  }

  ghost predicate OverwritesField(c: Config, source: map<string, Source>, target: Store, s: State, key: string) {
    var toKey := ToKey(c, key);
    && key in source && source[key].SourceHash? && !KeySkipped(c, source, key)
    && HitsField(c, Held(c, s.target, toKey), source[key].fields, FieldsOf(target, toKey))
  }

  lemma HashStepBoundary(c: Config, target: Store, s: State, toKey: string, fields: seq<Field>)
    requires Preserves(target, s.target)
    ensures Preserves(target, CloneHash(c, s, toKey, fields).0.target)
            <==> !HitsField(c, Held(c, s.target, toKey), fields, FieldsOf(target, toKey))
  {
    var held, after := Held(c, s.target, toKey), CloneHash(c, s, toKey, fields).0.target;
    HashWrites(c, s, toKey, fields);
    HitBoundary(c, held, fields, FieldsOf(target, toKey), FieldsOf(s.target, toKey));
    if toKey in target && target[toKey].TargetHash? {
      assert FieldsOf(after, toKey) == FieldsOf(s.target, toKey) + Results(c, held, fields);
      assert Preserves(target, after) <==>
             forall f :: f in FieldsOf(target, toKey) ==> FieldsOf(after, toKey)[f] == FieldsOf(target, toKey)[f];
    }
  }

  lemma StepBoundary(c: Config, source: map<string, Source>, target: Store, s: State, key: string)
    requires Preserves(target, s.target)
    ensures Preserves(target, CloneOne(c, source, Existing(c, target), s, key).target)
            <==> !Overwrites(c, source, target, s, key)
  {
    if key in source && source[key].SourceHash? {
      HashStepBoundary(c, target, s, ToKey(c, key), source[key].fields);
    }
  }

  /** The clone after the first n keys. */
  function At(c: Config, source: map<string, Source>, keys: seq<string>, target: Store, n: nat): State
    requires n <= |keys|
  {
    CloneAll(c, source, Existing(c, target), Fresh(target), keys[..n])
  }

  lemma NextAt(c: Config, source: map<string, Source>, keys: seq<string>, target: Store, n: nat)
    requires n < |keys|
    ensures var s := At(c, source, keys, target, n);
      At(c, source, keys, target, n + 1) == if s.raised then s else CloneOne(c, source, Existing(c, target), s, keys[n])
  {
    assert keys[..n + 1][..n] == keys[..n];
  }

  lemma {:induction false} UnharmedUpTo(c: Config, source: map<string, Source>, keys: seq<string>, target: Store,
                                        n: nat)
    requires n <= |keys|
    requires forall k :: 0 <= k < n && !At(c, source, keys, target, k).raised ==>
               !Overwrites(c, source, target, At(c, source, keys, target, k), keys[k])
    ensures Preserves(target, At(c, source, keys, target, n).target)
  {
    if n > 0 {
      UnharmedUpTo(c, source, keys, target, n - 1);
      NextAt(c, source, keys, target, n - 1);
      StepBoundary(c, source, target, At(c, source, keys, target, n - 1), keys[n - 1]);
    }
  }

  /**
   * The exact condition, for every configuration: nothing of the target is clobbered at any moment
   * of the loop if and only if no key that is reached overwrites a text, a hash or a field.
   */
  lemma ClobberBoundary(c: Config, source: map<string, Source>, keys: seq<string>, target: Store)
    ensures (forall n :: 0 <= n <= |keys| ==> Preserves(target, At(c, source, keys, target, n).target)) <==>
            (forall n :: 0 <= n < |keys| && !At(c, source, keys, target, n).raised ==>
               !Overwrites(c, source, target, At(c, source, keys, target, n), keys[n]))
  {
    if forall n :: 0 <= n <= |keys| ==> Preserves(target, At(c, source, keys, target, n).target) {
      forall n | 0 <= n < |keys| && !At(c, source, keys, target, n).raised
        ensures !Overwrites(c, source, target, At(c, source, keys, target, n), keys[n])
      {
        NextAt(c, source, keys, target, n);
        StepBoundary(c, source, target, At(c, source, keys, target, n), keys[n]);
        assert Preserves(target, At(c, source, keys, target, n + 1).target);
      }
    } else {
      var n :| 0 <= n <= |keys| && !Preserves(target, At(c, source, keys, target, n).target);
      if forall k :: 0 <= k < n && !At(c, source, keys, target, k).raised ==>
           !Overwrites(c, source, target, At(c, source, keys, target, k), keys[k]) {
        UnharmedUpTo(c, source, keys, target, n);
      }
    }
  }

  /** With errors only counted, the loop gets to every key. */
  lemma {:induction false} NeverRaises(c: Config, source: map<string, Source>, keys: seq<string>, target: Store, n: nat)
    requires n <= |keys| && !c.raises
    ensures !At(c, source, keys, target, n).raised
  {
    if n > 0 {
      NeverRaises(c, source, keys, target, n - 1);
      NextAt(c, source, keys, target, n - 1);
    }
  }

  /**
   * With `overwrite` True nothing depends on what the loop has done so far: nothing is clobbered
   * if and only if no key that is reached overwrites something of the target as it was, and
   * every key is reached when errors are only counted.
   */
  lemma ForcedClobberBoundary(c: Config, source: map<string, Source>, keys: seq<string>, target: Store)
    requires c.overwrite == Some(true)
    ensures (forall n :: 0 <= n <= |keys| ==> Preserves(target, At(c, source, keys, target, n).target)) <==>
            (forall n :: 0 <= n < |keys| && !At(c, source, keys, target, n).raised ==>
               !Overwrites(c, source, target, Fresh(target), keys[n]))
    ensures !c.raises ==> forall n :: 0 <= n < |keys| ==> !At(c, source, keys, target, n).raised
  {
    ClobberBoundary(c, source, keys, target);
    assert forall s: State, key :: Overwrites(c, source, target, s, key) <==>
        Overwrites(c, source, target, Fresh(target), key);
    if !c.raises {
      forall n | 0 <= n < |keys| ensures !At(c, source, keys, target, n).raised {
        NeverRaises(c, source, keys, target, n);
      }
    }
  }

  /** Without renaming and unless `overwrite` is True, no field arrives under a name that is there. */
  lemma NoFieldHit(c: Config, s: State, toKey: string, fields: seq<Field>, there: map<string, Val>)
    requires c.overwrite != Some(true) && c.rename.None? && there.Keys <= FieldsOf(s.target, toKey).Keys
    ensures !HitsField(c, Held(c, s.target, toKey), fields, there)
  {
  }

  /** Copying a hash never touches a field that is there, for any `overwrite` but True. */
  lemma HashPreserves(c: Config, s: State, toKey: string, fields: seq<Field>)
    requires c.overwrite != Some(true) && c.rename.None?
    ensures Preserves(s.target, CloneHash(c, s, toKey, fields).0.target)
  {
    HashStepBoundary(c, s.target, s, toKey, fields);
    NoFieldHit(c, s, toKey, fields, FieldsOf(s.target, toKey));
  }

  lemma {:induction false} TextsUnharmedUpTo(c: Config, source: map<string, Source>, keys: seq<string>, target: Store,
                                             n: nat)
    requires n <= |keys| && c.overwrite != Some(true) && c.rename.None?
    requires forall k :: 0 <= k < n && !At(c, source, keys, target, k).raised ==>
        !OverwritesText(c, source, target, keys[k])
    ensures Preserves(target, At(c, source, keys, target, n).target)
  {
    if n > 0 {
      TextsUnharmedUpTo(c, source, keys, target, n - 1);
      var s, key := At(c, source, keys, target, n - 1), keys[n - 1];
      NextAt(c, source, keys, target, n - 1);
      StepBoundary(c, source, target, s, key);
      if key in source && source[key].SourceHash? {
        NoFieldHit(c, s, ToKey(c, key), source[key].fields, FieldsOf(target, ToKey(c, key)));
      }
    }
  }

  /**
   * Without renaming and unless `overwrite` is True only text keys do harm: nothing is clobbered
   * if and only if every text key that is reached finds no other text and no hash under its name,
   * or `overwrite` is False and the listing covers that name. In particular the default,
   * `overwrite` None, overwrites existing texts.
   */
  lemma TextClobberBoundary(c: Config, source: map<string, Source>, keys: seq<string>, target: Store)
    requires c.overwrite != Some(true) && c.rename.None?
    ensures (forall n :: 0 <= n <= |keys| ==> Preserves(target, At(c, source, keys, target, n).target)) <==>
            (forall n :: 0 <= n < |keys| && !At(c, source, keys, target, n).raised ==>
               !OverwritesText(c, source, target, keys[n]))
  {
    ClobberBoundary(c, source, keys, target);
    if forall n :: 0 <= n < |keys| && !At(c, source, keys, target, n).raised ==>
        !OverwritesText(c, source, target, keys[n]) {
      forall n | 0 <= n <= |keys| ensures Preserves(target, At(c, source, keys, target, n).target) {
        TextsUnharmedUpTo(c, source, keys, target, n);
      }
    }
  }

  /** The text keys of the source are copied to names that the listing of existing keys covers. */
  ghost predicate TextsCovered(c: Config, source: map<string, Source>, keys: seq<string>) {
    forall key :: key in keys && key in source && source[key].SourceText? ==> Covered(c, ToKey(c, key))
  }

  /**
   * With `overwrite` False and no renaming function, cloning leaves every text key and every hash
   * field that the target had, even when it stops at an error half-way.
   */
  lemma CloneDoesNotClobber(c: Config, source: map<string, Source>, keys: seq<string>, target: Store)
    requires c.overwrite == Some(false) && c.rename.None? && TextsCovered(c, source, keys)
    ensures Preserves(target, CloneAll(c, source, Existing(c, target), Fresh(target), keys).target)
  {
    assert keys[..|keys|] == keys;
    TextsUnharmedUpTo(c, source, keys, target, |keys|);
  }

  /** Prefix replacement sends every key under the source's base key under the target's. */
  lemma DataKeysAreCovered(c: Config, key: string)
    requires c.fromBase != "" && StartsWith(key, c.fromBase)
    ensures StartsWith(ToKey(c, key), c.toBase) && Covered(c, ToKey(c, key))
  {
    if c.fromBase != c.toBase {
      assert ToKey(c, key) == c.toBase + Replace(key[|c.fromBase|..], c.fromBase, c.toBase);
    }
  }
}

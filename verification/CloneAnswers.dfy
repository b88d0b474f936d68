/** What becomes of each source key: which counter it enters, and what the target holds for it in the end. */
module CloneAnswers {
  import opened Common
  import opened Text
  import opened CloneModel
  import opened CloneSafety

  /** The filters hold a name back. */
  predicate Refused(c: Config, name: string, kind: Kind) {
    name in c.excluded || (c.filter.Some? && c.filter.value(name, kind))
  }

  /** The kind that a filter is told. */
  predicate IsKind(source: map<string, Source>, key: string, kind: Kind) {
    match kind
    case StringKind => key in source && source[key].SourceText?
    case HashKind => key in source && source[key].SourceHash?
    case OtherKind => key in source && source[key].SourceOther?
    case NoKind => key !in source
    case HashItem => false
  }

  /** The key was found in the target when the loop began: only asked with `overwrite` False. */
  predicate WasThere(c: Config, start: Store, key: string) {
    && c.overwrite == Some(false) && key in start
    && (StartsWith(key, c.toBase) || StartsWith(key, "_exp_:" + c.toBase))
  }

  /** The key is passed over: a filter refuses its old or its new name, or something is there already. */
  predicate PassedOver(c: Config, source: map<string, Source>, start: Store, key: string, kind: Kind) {
    || Refused(c, key, kind) || Refused(c, ToKey(c, key), kind)
    || (kind == StringKind && WasThere(c, start, ToKey(c, key)))
    || (kind == OtherKind && WasThere(c, start, key))
  }

  /** The target holds something of another type under the new name, which makes the copying fail. */
  predicate Clashes(c: Config, s: State, key: string, kind: Kind) {
    var toKey := ToKey(c, key);
    && toKey in s.target
    && ((kind == HashKind && !s.target[toKey].TargetHash?) || (kind == OtherKind && !s.target[toKey].TargetOther?))
  }

  /**
   * A failed hash: unless a loop over its fields leaves nothing to be written, which nobody notices
   * with `overwrite` True.
   */
  predicate Fails(c: Config, source: map<string, Source>, s: State, key: string, kind: Kind) {
    && Clashes(c, s, key, kind)
    && (kind == HashKind && c.overwrite == Some(true) && key in source && source[key].SourceHash? ==>
          Results(c, {}, source[key].fields) != map[])
  }

  /**
   * The counter that a key enters: skipped if it is passed over, an error (or the end of the loop)
   * if its type clashes, completed otherwise. A skipped key changes nothing else.
   */
  lemma KeyOutcome(c: Config, source: map<string, Source>, start: Store, s: State, key: string, kind: Kind)
    requires IsKind(source, key, kind) && !s.raised
    ensures var s' := CloneOne(c, source, Existing(c, start), s, key);
      if PassedOver(c, source, start, key, kind) then s' == s.(skipped := s.skipped + 1)
      else if Fails(c, source, s, key, kind) then
        && s'.target == s.target && s'.completedKeys == s.completedKeys
        && (s'.completed, s'.skipped) == (s.completed, s.skipped)
        && s'.raised == c.raises && s'.errors == s.errors + (if c.raises then 0 else 1)
      else
        && s'.completed == s.completed + 1 && s'.completedKeys == s.completedKeys + [key]
        && (s'.skipped, s'.errors, s'.raised) == (s.skipped, s.errors, false)
  {
    if kind == HashKind {
      HashSucceeds(c, s, ToKey(c, key), source[key].fields);
    }
  }

  /** When copying a hash succeeds, and that it leaves the counters alone, and the target too when it fails. */
  lemma HashSucceeds(c: Config, s: State, toKey: string, fields: Listing)
    ensures var (s', ok) := CloneHash(c, s, toKey, fields);
      && (ok <==> HashWritable(s.target, toKey) || (c.overwrite == Some(true) && Results(c, {}, fields) == map[]))
      && (!ok ==> s'.target == s.target)
      && s'.completedKeys == s.completedKeys && s'.raised == s.raised
      && (s'.completed, s'.skipped, s'.errors) == (s.completed, s.skipped, s.errors)
  {
    ResultsIgnoreKey(c, toKey, Held(c, s.target, toKey), fields);
    if !HashWritable(s.target, toKey) {
      WholesaleWrites(c, fields);
    }
  }

  /** A hash that is copied wholesale has something to write. */
  lemma WholesaleWrites(c: Config, fields: Listing)
    ensures !FieldByField(c, {}) ==> Results(c, {}, fields) != map[]
  {
    assert AsMap(fields) == AsMap(fields[..|fields| - 1])[fields[|fields| - 1].0 := fields[|fields| - 1].1];
    assert fields[|fields| - 1].0 in AsMap(fields);
  }

  /** The target is as it was but for one name. */
  ghost predicate OthersKept(before: Store, after: Store, name: string) {
    forall k :: k != name ==> Lookup(after, k) == Lookup(before, k)
  }

  /** No key changes the target but under its own new name. */
  lemma StepKeepsOthers(c: Config, source: map<string, Source>, existing: set<string>, s: State, key: string)
    ensures OthersKept(s.target, CloneOne(c, source, existing, s, key).target, ToKey(c, key))
  {
    if key in source && source[key].SourceHash? {
      HashWrites(c, s, ToKey(c, key), source[key].fields);
    }
  }

  /** A text key that is not passed over leaves exactly its value under its new name. */
  lemma TextIsCopied(c: Config, source: map<string, Source>, start: Store, s: State, key: string)
    requires key in source && source[key].SourceText? && !s.raised
    ensures var s' := CloneOne(c, source, Existing(c, start), s, key);
      && OthersKept(s.target, s'.target, ToKey(c, key))
      && Lookup(s'.target, ToKey(c, key)) ==
         if PassedOver(c, source, start, key, StringKind) then Lookup(s.target, ToKey(c, key))
         else Some(TargetText(source[key].v))
  {
    KeyOutcome(c, source, start, s, key, StringKind);
  }

  lemma {:induction false} KeptUntil(c: Config, source: map<string, Source>, keys: seq<string>, start: Store, n: nat,
                                     m: nat, name: string)
    requires n <= m <= |keys| && forall k :: n <= k < m ==> ToKey(c, keys[k]) != name
    ensures Lookup(At(c, source, keys, start, m).target, name) == Lookup(At(c, source, keys, start, n).target, name)
    decreases m
  {
    if n < m {
      KeptUntil(c, source, keys, start, n, m - 1, name);
      NextAt(c, source, keys, start, m - 1);
      StepKeepsOthers(c, source, Existing(c, start), At(c, source, keys, start, m - 1), keys[m - 1]);
    }
  }

  /**
   * Over the whole loop: a text key that counts as completed has the source's value under its new
   * name in the end, unless a later key goes to the same name.
   */
  lemma CompletedTextArrives(c: Config, source: map<string, Source>, keys: seq<string>, start: Store, n: nat)
    requires n < |keys| && keys[n] in source && source[keys[n]].SourceText?
    requires At(c, source, keys, start, n + 1).completed > At(c, source, keys, start, n).completed
    requires forall k :: n < k < |keys| ==> ToKey(c, keys[k]) != ToKey(c, keys[n])
    ensures Lookup(At(c, source, keys, start, |keys|).target, ToKey(c, keys[n])) == Some(TargetText(source[keys[n]].v))
  {
    var s := At(c, source, keys, start, n);
    NextAt(c, source, keys, start, n);
    KeyOutcome(c, source, start, s, keys[n], StringKind);
    TextIsCopied(c, source, start, s, keys[n]);
    KeptUntil(c, source, keys, start, n + 1, |keys|, ToKey(c, keys[n]));
  }

  /** And what no key goes to is as it was. */
  lemma UntouchedStays(c: Config, source: map<string, Source>, keys: seq<string>, start: Store, name: string)
    requires forall k :: 0 <= k < |keys| ==> ToKey(c, keys[k]) != name
    ensures Lookup(At(c, source, keys, start, |keys|).target, name) == Lookup(start, name)
  {
    KeptUntil(c, source, keys, start, 0, |keys|, name);
  }

  /** A set, list or sorted set that is not passed over and does not clash is there afterwards. */
  lemma OtherIsCopied(c: Config, source: map<string, Source>, start: Store, s: State, key: string)
    requires key in source && source[key].SourceOther? && !s.raised
    ensures var s' := CloneOne(c, source, Existing(c, start), s, key);
      Lookup(s'.target, ToKey(c, key)) ==
      if PassedOver(c, source, start, key, OtherKind) || Clashes(c, s, key, OtherKind)
      then Lookup(s.target, ToKey(c, key)) else Some(TargetOther)
  {
    KeyOutcome(c, source, start, s, key, OtherKind);
  }

  /**
   * When a field is held back: the copying goes field by field, because the target hash has fields
   * that are asked for, or there is a filter or a renaming, and the field is refused or there.
   */
  lemma HeldBackReasons(c: Config, target: Store, toKey: string, field: string)
    ensures var there := if toKey in target && target[toKey].TargetHash? then target[toKey].fields.Keys else {};
      var asked := c.overwrite != Some(true);
      HeldBack(c, Held(c, target, toKey), field) <==>
        && (c.filter.Some? || c.rename.Some? || (asked && there != {}))
        && (Refused(c, field, HashItem) || (asked && field in there))
  {
  }

  /** The base key in front of a name in which it does not occur again is replaced, and a name without it is kept. */
  lemma NewNames(c: Config, rest: string)
    requires c.fromBase != "" && !Occurs(c.fromBase, rest)
    ensures ToKey(c, c.fromBase + rest) == c.toBase + rest && ToKey(c, rest) == rest
  {
    ReplaceAbsent(rest, c.fromBase, c.toBase);
    ReplacePrefix(c.fromBase, rest, c.toBase);
  }
}

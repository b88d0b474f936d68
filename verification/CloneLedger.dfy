/** The clone's bookkeeping adds up, key by key and field by field, in every branch and however it ends. */
module CloneLedger {
  import opened Common
  import opened CloneModel
  import opened CloneSafety

  /** One key adds one to exactly one of the three counters, or raises. */
  lemma KeyAddsUp(c: Config, source: map<string, Source>, existing: set<string>, s: State, key: string)
    requires !s.raised
    ensures var s' := CloneOne(c, source, existing, s, key);
      && s'.completed + s'.skipped + s'.errors == s.completed + s.skipped + s.errors + (if s'.raised then 0 else 1)
      && s'.completed - s.completed == |s'.completedKeys| - |s.completedKeys|
  {
    if key in source && source[key].SourceHash? {
      CountersUntouched(c, s, ToKey(c, key), source[key].fields);
    }
  }

  lemma CountersUntouched(c: Config, s: State, toKey: string, fields: seq<Field>)
    ensures var s' := CloneHash(c, s, toKey, fields).0;
      && s'.completed == s.completed && s'.skipped == s.skipped && s'.errors == s.errors
      && s'.completedKeys == s.completedKeys && s'.raised == s.raised
  {
  }

  /** Every processed key is completed, skipped or an error, and the completed ones are listed. */
  lemma {:induction false} KeysAddUp(c: Config, source: map<string, Source>, existing: set<string>, target: Store,
                                     keys: seq<string>)
    ensures var s := CloneAll(c, source, existing, Fresh(target), keys);
      && s.completed == |s.completedKeys|
      && (!s.raised ==> s.completed + s.skipped + s.errors == |keys|)
      && s.completed + s.skipped + s.errors <= |keys|
  {
    if keys != [] {
      var n := |keys| - 1;
      KeysAddUp(c, source, existing, target, keys[..n]);
      var s := CloneAll(c, source, existing, Fresh(target), keys[..n]);
      if !s.raised {
        KeyAddsUp(c, source, existing, s, keys[n]);
      }
    }
  }

  /** What becomes of one field: it is copied, or held back, and entered under a label. */
  datatype Entry = Entry(name: string, copied: bool)

  function EntryOf(c: Config, toKey: string, held: set<string>, field: string): Entry {
    if HeldBack(c, held, field) then Entry(Label(toKey, field), false) else Entry(Label(toKey, Renamed(c, field)), true)
  }

  /** One entry for each field of a hash. */
  function Entries(c: Config, toKey: string, held: set<string>, fields: seq<Field>): seq<Entry> {
    seq(|fields|, i requires 0 <= i < |fields| => EntryOf(c, toKey, held, fields[i].0))
  }

  /** The fields are entered unless the target key is seen to hold something else before the copying begins. */
  predicate IsEntered(c: Config, s: State, toKey: string) {
    HashWritable(s.target, toKey) || (c.overwrite == Some(true) && FieldByField(c, {}))
  }

  predicate IsProcessedHash(c: Config, source: map<string, Source>, key: string) {
    key in source && source[key].SourceHash? && !KeySkipped(c, source, key)
  }

  function KeyEntries(c: Config, source: map<string, Source>, s: State, key: string): seq<Entry> {
    var toKey := ToKey(c, key);
    if !s.raised && IsProcessedHash(c, source, key) && IsEntered(c, s, toKey)
    then Entries(c, toKey, Held(c, s.target, toKey), source[key].fields) else []
  }

  /** The entries of the whole loop, in the order of the keys and of their fields. */
  function AllEntries(c: Config, source: map<string, Source>, existing: set<string>, target: Store,
                      keys: seq<string>): seq<Entry>
  {
    if keys == [] then []
    else
      var front := keys[..|keys| - 1];
      AllEntries(c, source, existing, target, front)
      + KeyEntries(c, source, CloneAll(c, source, existing, Fresh(target), front), keys[|keys| - 1])
  }

  /** The labels of the entries that were copied, or of those that were not. */
  function Labels(entries: seq<Entry>, copied: bool): seq<string> {
    if entries == [] then []
    else
      var rest, last := Labels(entries[..|entries| - 1], copied), entries[|entries| - 1];
      if last.copied == copied then rest + [last.name] else rest
  }

  lemma {:induction false} LabelsConcat(a: seq<Entry>, b: seq<Entry>, copied: bool)
    ensures Labels(a + b, copied) == Labels(a, copied) + Labels(b, copied)
  {
    if b == [] {
      assert a + b == a;
    } else {
      assert (a + b)[..|a + b| - 1] == a + b[..|b| - 1];
      LabelsConcat(a, b[..|b| - 1], copied);
    }
  }

  /** Each entry is in exactly one of the two lists. */
  lemma {:induction false} LabelsSplit(entries: seq<Entry>)
    ensures |Labels(entries, true)| + |Labels(entries, false)| == |entries|
  {
    if entries != [] {
      LabelsSplit(entries[..|entries| - 1]);
    }
  }

  lemma EntriesGrow(c: Config, toKey: string, held: set<string>, fields: seq<Field>)
    requires fields != []
    ensures var entries, n := Entries(c, toKey, held, fields), |fields| - 1;
      && |entries| == |fields| && entries[..n] == Entries(c, toKey, held, fields[..n])
      && entries[n] == EntryOf(c, toKey, held, fields[n].0)
  {
  }

  /** The copying loop enters each field once. */
  lemma {:induction false} CopyEnters(c: Config, toKey: string, held: set<string>, fields: seq<Field>)
    requires FieldByField(c, held)
    ensures var copy, entries := CopyFields(c, toKey, held, fields), Entries(c, toKey, held, fields);
      copy.done == Labels(entries, true) && copy.passed == Labels(entries, false)
  {
    if fields != [] {
      CopyEnters(c, toKey, held, fields[..|fields| - 1]);
      EntriesGrow(c, toKey, held, fields);
    }
  }

  /** Copying wholesale enters every field as copied. */
  lemma {:induction false} WholesaleEnters(c: Config, toKey: string, held: set<string>, fields: seq<Field>)
    requires !FieldByField(c, held)
    ensures var entries := Entries(c, toKey, held, fields);
      AllLabels(toKey, fields) == Labels(entries, true) && Labels(entries, false) == []
  {
    if fields != [] {
      WholesaleEnters(c, toKey, held, fields[..|fields| - 1]);
      EntriesGrow(c, toKey, held, fields);
    }
  }

  lemma KeyEnters(c: Config, source: map<string, Source>, existing: set<string>, s: State, key: string)
    requires !s.raised
    ensures var s', entries := CloneOne(c, source, existing, s, key), KeyEntries(c, source, s, key);
      && s'.completedFields == s.completedFields + Labels(entries, true)
      && s'.skippedFields == s.skippedFields + Labels(entries, false)
  {
    if IsProcessedHash(c, source, key) {
      var toKey := ToKey(c, key);
      var held := Held(c, s.target, toKey);
      if FieldByField(c, held) {
        CopyEnters(c, toKey, held, source[key].fields);
      } else {
        WholesaleEnters(c, toKey, held, source[key].fields);
      }
    }
  }

  /**
   * For every configuration, renaming included, and however the loop ends: the completed fields are
   * the labels of the copied entries and the skipped fields those of the others, each list in the
   * order of the keys and fields.
   */
  lemma {:induction false} FieldLists(c: Config, source: map<string, Source>, existing: set<string>, target: Store,
                                      keys: seq<string>)
    ensures var s := CloneAll(c, source, existing, Fresh(target), keys);
      var entries := AllEntries(c, source, existing, target, keys);
      s.completedFields == Labels(entries, true) && s.skippedFields == Labels(entries, false)
  {
    if keys != [] {
      var front, key := keys[..|keys| - 1], keys[|keys| - 1];
      var s := CloneAll(c, source, existing, Fresh(target), front);
      var before, own := AllEntries(c, source, existing, target, front), KeyEntries(c, source, s, key);
      FieldLists(c, source, existing, target, front);
      LabelsConcat(before, own, true);
      LabelsConcat(before, own, false);
      if !s.raised {
        KeyEnters(c, source, existing, s, key);
      }
    }
  }

  /** The fields of all hashes that pass the key filters, each with the target key it goes to. */
  function AllFields(c: Config, source: map<string, Source>, keys: seq<string>): seq<(string, string)> {
    if keys == [] then []
    else AllFields(c, source, keys[..|keys| - 1]) + KeyFields(c, source, keys[|keys| - 1])
  }

  function KeyFields(c: Config, source: map<string, Source>, key: string): seq<(string, string)> {
    if !IsProcessedHash(c, source, key) then []
    else
      var fields := source[key].fields;
      seq(|fields|, i requires 0 <= i < |fields| => (ToKey(c, key), fields[i].0))
  }

  /** The entry is about the field: under its new name when it was copied, under its own when not. */
  predicate IsAbout(c: Config, entry: Entry, field: (string, string)) {
    entry.name == field.0 + ":" + (if entry.copied && c.rename.Some? then c.rename.value(field.1) else field.1)
  }

  ghost predicate MatchUp(c: Config, entries: seq<Entry>, fields: seq<(string, string)>) {
    |entries| == |fields| && forall i :: 0 <= i < |fields| ==> IsAbout(c, entries[i], fields[i])
  }

  /** The copying of the key, if it comes to a hash, did not fail. */
  predicate HashCopied(c: Config, source: map<string, Source>, s: State, key: string) {
    IsProcessedHash(c, source, key) && !s.raised ==> CloneHash(c, s, ToKey(c, key), source[key].fields).1
  }

  ghost predicate HashesCopied(c: Config, source: map<string, Source>, existing: set<string>, target: Store,
                               keys: seq<string>)
  {
    forall n :: 0 <= n < |keys| ==>
      HashCopied(c, source, CloneAll(c, source, existing, Fresh(target), keys[..n]), keys[n])
  }

  /** The number of keys that the loop got through. */
  function Through(s: State): nat {
    s.completed + s.skipped + s.errors
  }

  /** What a key without a failed hash copy adds to the entries, unless the loop is left at it. */
  lemma KeyMatches(c: Config, source: map<string, Source>, existing: set<string>, s: State, key: string)
    requires !s.raised && HashCopied(c, source, s, key)
    ensures MatchUp(c, KeyEntries(c, source, s, key), KeyFields(c, source, key))
    ensures CloneOne(c, source, existing, s, key).raised ==> KeyFields(c, source, key) == []
  {
  }

  lemma MatchGrows(c: Config, entries: seq<Entry>, fields: seq<(string, string)>, more: seq<Entry>,
                   others: seq<(string, string)>)
    requires MatchUp(c, entries, fields) && MatchUp(c, more, others)
    ensures MatchUp(c, entries + more, fields + others)
  {
  }

  lemma FieldsGrow(c: Config, source: map<string, Source>, keys: seq<string>, n: nat)
    requires n < |keys|
    ensures AllFields(c, source, keys[..n + 1]) == AllFields(c, source, keys[..n]) + KeyFields(c, source, keys[n])
  {
    assert keys[..n + 1][..n] == keys[..n];
  }

  /** One key more, at the state that the keys before it left. */
  lemma ThroughGrows(c: Config, source: map<string, Source>, existing: set<string>, target: Store, keys: seq<string>)
    requires keys != []
    ensures var n := |keys| - 1;
      var s, s' := CloneAll(c, source, existing, Fresh(target), keys[..n]),
          CloneAll(c, source, existing, Fresh(target), keys);
      && Through(s) <= n && (!s.raised ==> Through(s) == n)
      && Through(s') == Through(s) + (if s'.raised then 0 else 1)
      && (s.raised ==> s' == s)
  {
    var n := |keys| - 1;
    KeysAddUp(c, source, existing, target, keys[..n]);
    var s := CloneAll(c, source, existing, Fresh(target), keys[..n]);
    if !s.raised {
      KeyAddsUp(c, source, existing, s, keys[n]);
    }
  }

  lemma EntriesStep(c: Config, source: map<string, Source>, existing: set<string>, s: State, key: string,
                    entries: seq<Entry>, fields: seq<(string, string)>)
    requires !s.raised && HashCopied(c, source, s, key) && MatchUp(c, entries, fields)
    ensures var more := if CloneOne(c, source, existing, s, key).raised then [] else KeyFields(c, source, key);
      MatchUp(c, entries + KeyEntries(c, source, s, key), fields + more)
  {
    KeyMatches(c, source, existing, s, key);
    MatchGrows(c, entries, fields, KeyEntries(c, source, s, key), KeyFields(c, source, key));
  }

  /** The fields of the hashes that the loop gets through. */
  function FieldsThrough(c: Config, source: map<string, Source>, existing: set<string>, target: Store,
                         keys: seq<string>): seq<(string, string)>
  {
    var s := CloneAll(c, source, existing, Fresh(target), keys);
    if Through(s) <= |keys| then AllFields(c, source, keys[..Through(s)]) else []
  }

  lemma FieldsThroughGrow(c: Config, source: map<string, Source>, existing: set<string>, target: Store,
                          keys: seq<string>)
    requires keys != []
    ensures var n := |keys| - 1;
      var before, s' := FieldsThrough(c, source, existing, target, keys[..n]),
          CloneAll(c, source, existing, Fresh(target), keys);
      FieldsThrough(c, source, existing, target, keys) ==
          before + if s'.raised then [] else KeyFields(c, source, keys[n])
  {
    var n := |keys| - 1;
    var s := CloneAll(c, source, existing, Fresh(target), keys[..n]);
    ThroughGrows(c, source, existing, target, keys);
    assert keys[..n][..Through(s)] == keys[..Through(s)];
    if !s.raised {
      FieldsGrow(c, source, keys, n);
    }
  }

  lemma {:induction false} EntriesMatch(c: Config, source: map<string, Source>, existing: set<string>, target: Store,
                                        keys: seq<string>)
    requires HashesCopied(c, source, existing, target, keys)
    ensures MatchUp(c, AllEntries(c, source, existing, target, keys), FieldsThrough(c, source, existing, target, keys))
  {
    if keys != [] {
      var n := |keys| - 1;
      var s := CloneAll(c, source, existing, Fresh(target), keys[..n]);
      assert forall k :: 0 <= k < n ==> keys[..n][..k] == keys[..k];
      EntriesMatch(c, source, existing, target, keys[..n]);
      FieldsThroughGrow(c, source, existing, target, keys);
      if !s.raised {
        EntriesStep(c, source, existing, s, keys[n], AllEntries(c, source, existing, target, keys[..n]),
                    FieldsThrough(c, source, existing, target, keys[..n]));
      }
    }
  }

  /**
   * When no hash copy failed, whatever else did: the entries match the fields of the hashes that
   * the loop got through, one by one. So each field is in exactly one of the two lists: in the
   * completed ones under its new name, or in the skipped ones under its own.
   */
  lemma FieldsAddUp(c: Config, source: map<string, Source>, existing: set<string>, target: Store, keys: seq<string>)
    requires HashesCopied(c, source, existing, target, keys)
    ensures var s := CloneAll(c, source, existing, Fresh(target), keys);
      && Through(s) <= |keys| && (!s.raised ==> Through(s) == |keys|)
      && MatchUp(c, AllEntries(c, source, existing, target, keys), AllFields(c, source, keys[..Through(s)]))
      && |s.completedFields| + |s.skippedFields| == |AllFields(c, source, keys[..Through(s)])|
  {
    KeysAddUp(c, source, existing, target, keys);
    EntriesMatch(c, source, existing, target, keys);
    FieldLists(c, source, existing, target, keys);
    LabelsSplit(AllEntries(c, source, existing, target, keys));
  }

  /** An excluded field is copied all the same exactly when its hash is copied wholesale. */
  lemma ExcludedFieldBoundary(c: Config, s: State, toKey: string, fields: seq<Field>, i: nat)
    requires i < |fields| && fields[i].0 in c.excluded
    requires forall j :: i < j < |fields| ==> fields[j].0 != fields[i].0
    requires CloneHash(c, s, toKey, fields).1 && fields[i].0 !in Held(c, s.target, toKey)
    ensures var held := Held(c, s.target, toKey);
      && (Entries(c, toKey, held, fields)[i].copied <==> !FieldByField(c, held))
      && (!FieldByField(c, held) ==>
            Lookup(FieldsOf(CloneHash(c, s, toKey, fields).0.target, toKey), fields[i].0) == Some(fields[i].1))
  {
    var held := Held(c, s.target, toKey);
    if !FieldByField(c, held) {
      assert ArrivesAs(c, held, fields, i, fields[i].0);
      HashIsCopied(c, s, toKey, fields, fields[i].0);
    }
  }
}

/**
 * `_aclone` without schema migration: copying the keys of one store into another, with the
 * bookkeeping of what was completed, skipped and failed.
 */
module CloneModel {
  import opened Common
  import opened Text

  type Val = nat
  type Field = (string, Val)

  /** The reply of HGETALL: each field once, in some order, and at least one, as Redis keeps no empty hash. */
  type Listing = fields: seq<Field> |
    fields != [] && forall i, j :: 0 <= i < j < |fields| ==> fields[i].0 != fields[j].0
    witness [("", 0)]

  /** What a source key holds; sets, lists and sorted sets are lumped together. */
  datatype Source = SourceText(v: Val) | SourceHash(fields: Listing) | SourceOther

  /** What a target key holds. */
  datatype Target = TargetText(v: Val) | TargetHash(fields: map<string, Val>) | TargetOther

  type Store = map<string, Target>

  /** What a filter function is told about the name it judges. */
  datatype Kind = StringKind | HashKind | OtherKind | NoKind | HashItem

  function KindOf(source: map<string, Source>, key: string): Kind {
    if key !in source then NoKind
    else match source[key]
      case SourceText(_) => StringKind
      case SourceHash(_) => HashKind
      case SourceOther => OtherKind
  }

  datatype Config = Config(
    fromBase: string,
    toBase: string,
    excluded: set<string>,
    filter: Option<(string, Kind) -> bool>,
    rename: Option<string -> string>,
    overwrite: Option<bool>,
    raises: bool)

  /** The target and the ledger. */
  datatype State = State(
    target: Store,
    completed: nat, errors: nat, skipped: nat,
    completedKeys: seq<string>, completedFields: seq<string>, skippedFields: seq<string>,
    raised: bool)

  function Fresh(target: Store): State {
    State(target, 0, 0, 0, [], [], [], false)
  }

  /** A key that the listing of existing target keys covers. */
  predicate Covered(c: Config, key: string) {
    StartsWith(key, c.toBase) || StartsWith(key, "_exp_:" + c.toBase)
  }

  /** `existing_keys`: listed only for `overwrite is False`. */
  function Existing(c: Config, target: Store): set<string> {
    if c.overwrite == Some(false) then set k | k in target && Covered(c, k) else {}
  }

  function ToKey(c: Config, key: string): string {
    if c.fromBase != c.toBase && c.fromBase != "" then Replace(key, c.fromBase, c.toBase) else key
  }

  predicate Filtered(c: Config, name: string, kind: Kind) {
    name in c.excluded || (c.filter.Some? && c.filter.value(name, kind))
  }

  /** The ledger's name of a field. */
  function Label(toKey: string, field: string): string {
    toKey + ":" + field
  }

  function Renamed(c: Config, field: string): string {
    if c.rename.Some? then c.rename.value(field) else field
  }

  predicate FieldSkipped(c: Config, held: set<string>, field: string) {
    Filtered(c, field, HashItem) || field in held
  }

  /** What the copying loops collect: the fields to write and the two lists of labels. */
  datatype Copy = Copy(results: map<string, Val>, done: seq<string>, passed: seq<string>)

  function CopyFields(c: Config, toKey: string, held: set<string>, fields: seq<Field>): Copy {
    if fields == [] then Copy(map[], [], [])
    else
      var rest, last := CopyFields(c, toKey, held, fields[..|fields| - 1]), fields[|fields| - 1];
      if FieldSkipped(c, held, last.0) then rest.(passed := rest.passed + [Label(toKey, last.0)])
      else rest.(results := rest.results[Renamed(c, last.0) := last.1],
                 done := rest.done + [Label(toKey, Renamed(c, last.0))])
  }

  /** `HSET key` with a mapping: refused when the key holds something else. */
  predicate HashWritable(target: Store, key: string) {
    key in target ==> target[key].TargetHash?
  }

  function FieldsOf(target: Store, key: string): map<string, Val> {
    if key in target && target[key].TargetHash? then target[key].fields else map[]
  }

  function WriteHash(target: Store, key: string, fields: map<string, Val>): Store {
    target[key := TargetHash(FieldsOf(target, key) + fields)]
  }

  function AsMap(fields: seq<Field>): map<string, Val> {
    if fields == [] then map[] else AsMap(fields[..|fields| - 1])[fields[|fields| - 1].0 := fields[|fields| - 1].1]
  }

  function AllLabels(toKey: string, fields: seq<Field>): seq<string> {
    if fields == [] then [] else AllLabels(toKey, fields[..|fields| - 1]) + [Label(toKey, fields[|fields| - 1].0)]
  }

  /** The fields that the target hash has already, asked for unless overwriting. */
  function Held(c: Config, target: Store, toKey: string): set<string> {
    if c.overwrite == Some(true) then {} else FieldsOf(target, toKey).Keys
  }

  /** The copy goes field by field when something is there, filtered or renamed, and wholesale otherwise. */
  predicate FieldByField(c: Config, held: set<string>) {
    held != {} || c.filter.Some? || c.rename.Some?
  }

  /** The field is not copied; copying wholesale holds nothing back, not even an excluded field. */
  predicate HeldBack(c: Config, held: set<string>, field: string) {
    FieldByField(c, held) && FieldSkipped(c, held, field)
  }

  /** One hash; false when a command raised. */
  function CloneHash(c: Config, s: State, toKey: string, fields: seq<Field>): (State, bool) {
    var held := Held(c, s.target, toKey);
    if c.overwrite != Some(true) && !HashWritable(s.target, toKey) then (s, false)
    else if FieldByField(c, held) then
      var copy := CopyFields(c, toKey, held, fields);
      var s' := s.(completedFields := s.completedFields + copy.done, skippedFields := s.skippedFields + copy.passed);
      if copy.results == map[] then (s', true)
      else if !HashWritable(s.target, toKey) then (s', false)
      else (s'.(target := WriteHash(s.target, toKey, copy.results)), true)
    else if !HashWritable(s.target, toKey) then (s, false)
    else (s.(target := WriteHash(s.target, toKey, AsMap(fields)),
             completedFields := s.completedFields + AllLabels(toKey, fields)), true)
  }

  function Complete(s: State, key: string): State {
    s.(completed := s.completed + 1, completedKeys := s.completedKeys + [key])
  }

  function Fail(c: Config, s: State): State {
    if c.raises then s.(raised := true) else s.(errors := s.errors + 1)
  }

  function Skip(s: State): State {
    s.(skipped := s.skipped + 1)
  }

  predicate KeySkipped(c: Config, source: map<string, Source>, key: string) {
    Filtered(c, key, KindOf(source, key)) || Filtered(c, ToKey(c, key), KindOf(source, key))
  }

  /** One key of the source; a key that is gone meanwhile counts as completed. */
  function CloneOne(c: Config, source: map<string, Source>, existing: set<string>, s: State, key: string): State {
    var toKey := ToKey(c, key);
    if KeySkipped(c, source, key) then Skip(s)
    else if key !in source then Complete(s, key)
    else
      match source[key]
      case SourceText(v) =>
        if toKey in existing then Skip(s) else Complete(s.(target := s.target[toKey := TargetText(v)]), key)
      case SourceHash(fields) =>
        var (s', ok) := CloneHash(c, s, toKey, fields);
        if ok then Complete(s', key) else Fail(c, s')
      case SourceOther =>
        // the existence check looks for the source name, not the target name
        if key in existing then Skip(s)
        else if toKey in s.target && !s.target[toKey].TargetOther? then Fail(c, s)
        else Complete(s.(target := s.target[toKey := TargetOther]), key)
  }

  /** All keys, up to the first that raises. */
  function CloneAll(c: Config, source: map<string, Source>, existing: set<string>, s: State, keys: seq<string>): State {
    if keys == [] then s
    else
      var s' := CloneAll(c, source, existing, s, keys[..|keys| - 1]);
      if s'.raised then s' else CloneOne(c, source, existing, s', keys[|keys| - 1])
  }

  lemma {:induction false} RaisedStays(c: Config, source: map<string, Source>, existing: set<string>, s: State,
                                       keys: seq<string>, n: nat)
    requires n <= |keys| && CloneAll(c, source, existing, s, keys[..n]).raised
    ensures CloneAll(c, source, existing, s, keys) == CloneAll(c, source, existing, s, keys[..n])
    decreases |keys| - n
  {
    if n < |keys| {
      assert keys[..n + 1][..n] == keys[..n];
      RaisedStays(c, source, existing, s, keys, n + 1);
    } else {
      assert keys[..n] == keys;
    }
  }

  /** The copying loop of one hash. */
  method CopyLoop(c: Config, toKey: string, held: set<string>, fields: seq<Field>)
      returns (results: map<string, Val>, done: seq<string>, passed: seq<string>)
    ensures Copy(results, done, passed) == CopyFields(c, toKey, held, fields)
  {
    results, done, passed := map[], [], [];
    for i := 0 to |fields|
      invariant Copy(results, done, passed) == CopyFields(c, toKey, held, fields[..i])
    {
      assert fields[..i + 1][..i] == fields[..i];
      var (k, v) := fields[i];
      if k in c.excluded || (c.filter.Some? && c.filter.value(k, HashItem)) || k in held {
        passed := passed + [toKey + ":" + k];
      } else {
        if c.rename.Some? {
          k := c.rename.value(k);
        }
        results := results[k := v];
        done := done + [toKey + ":" + k];
      }
    }
    assert fields[..|fields|] == fields;
  }

  /** The whole loop over the source keys. */
  method Clone(c: Config, source: map<string, Source>, keys: seq<string>, target: Store) returns (s: State)
    ensures s == CloneAll(c, source, Existing(c, target), Fresh(target), keys)
  {
    var existing: set<string> := {};
    if c.overwrite == Some(false) {
      existing := set k | k in target && (StartsWith(k, c.toBase) || StartsWith(k, "_exp_:" + c.toBase));
    }
    assert existing == Existing(c, target);
    s := Fresh(target);
    for i := 0 to |keys|
      invariant s == CloneAll(c, source, existing, Fresh(target), keys[..i])
      invariant !s.raised
    {
      assert keys[..i + 1][..i] == keys[..i];
      s := CopyKey(c, source, existing, s, keys[i]);
      if s.raised {
        RaisedStays(c, source, existing, Fresh(target), keys, i + 1);
        return;
      }
    }
    assert keys[..|keys|] == keys;
  }

  /** The body of the loop. */
  method CopyKey(c: Config, source: map<string, Source>, existing: set<string>, s0: State, key: string)
      returns (s: State)
    ensures s == CloneOne(c, source, existing, s0, key)
  {
    s := s0;
    var kind := KindOf(source, key);
    if Filtered(c, key, kind) {
      return s.(skipped := s.skipped + 1);
    }
    var toKey := ToKey(c, key);
    if Filtered(c, toKey, kind) {
      return s.(skipped := s.skipped + 1);
    }
    var ok := true;
    if kind == StringKind {
      if toKey in existing {
        return s.(skipped := s.skipped + 1);
      }
      s := s.(target := s.target[toKey := TargetText(source[key].v)]);
    } else if kind == HashKind {
      s, ok := CopyHash(c, s, toKey, source[key].fields);
    } else if kind == OtherKind {
      if key in existing {
        return s.(skipped := s.skipped + 1);
      }
      ok := !(toKey in s.target && !s.target[toKey].TargetOther?);
      if ok {
        s := s.(target := s.target[toKey := TargetOther]);
      }
    }
    if ok {
      s := s.(completed := s.completed + 1, completedKeys := s.completedKeys + [key]);
    } else if c.raises {
      s := s.(raised := true);
    } else {
      s := s.(errors := s.errors + 1);
    }
  }

  /** The branches for a hash: what is there already, field by field, or all at once. */
  method CopyHash(c: Config, s0: State, toKey: string, fields: seq<Field>) returns (s: State, ok: bool)
    ensures (s, ok) == CloneHash(c, s0, toKey, fields)
  {
    s := s0;
    var held: set<string> := {};
    if c.overwrite != Some(true) {
      if toKey in s.target && !s.target[toKey].TargetHash? {
        return s, false;
      }
      held := FieldsOf(s.target, toKey).Keys;
    }
    if held != {} || c.filter.Some? || c.rename.Some? {
      var results, done, passed := CopyLoop(c, toKey, held, fields);
      s := s.(completedFields := s.completedFields + done, skippedFields := s.skippedFields + passed);
      if results != map[] {
        if toKey in s.target && !s.target[toKey].TargetHash? {
          return s, false;
        }
        s := s.(target := WriteHash(s.target, toKey, results));
      }
    } else {
      if toKey in s.target && !s.target[toKey].TargetHash? {
        return s, false;
      }
      s := s.(target := WriteHash(s.target, toKey, AsMap(fields)));
      s := s.(completedFields := s.completedFields + AllLabels(toKey, fields));
    }
    return s, true;
  }
}

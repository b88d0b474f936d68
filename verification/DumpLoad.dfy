/**
 * `dump_data_raw` and `load_data_raw` in HSET mode: a hash of bytes travels as a dictionary of
 * text, with the values that are not UTF-8 as hex, and under names with or without the base key.
 */
module DumpLoad {
  import opened Common
  import opened Text
  import opened Hex

  const EXP := "_exp_"
  const HEXED := "_hexed_"

  predicate Special(name: string) {
    name == EXP || name == HEXED
  }

  /** Python's UTF-8: decoding may fail, and encoding undoes it. */
  datatype Utf8 = Utf8(decode: Bytes -> Option<string>, encode: string -> Bytes)

  ghost predicate IsUtf8(u: Utf8) {
    forall b: Bytes :: u.decode(b).Some? ==> u.encode(u.decode(b).value) == b
  }

  /** What a dump's dictionary holds. */
  datatype Raw = Str(s: string) | Bin(b: Bytes) | Names(names: seq<string>) | Deadlines

  /** The backend's key settings. */
  datatype Keys = Keys(base: string, join: string)

  /** The prefix that `get_key` puts in front, base key and separator, does not occur in the key. */
  ghost predicate Usable(ks: Keys, key: string) {
    ks.base + ks.join != "" && !Occurs(ks.base + ks.join, key)
  }

  /** `get_key` */
  function GetKey(ks: Keys, key: string): string {
    if ks.base == "" || Contains(ks.base, key) then key else ks.base + ks.join + key
  }

  /** The name a key is dumped under. */
  function DumpName(ks: Keys, full: bool, key: string): string
    requires ks.base + ks.join != ""
  {
    if full then GetKey(ks, key) else Replace(key, ks.base + ks.join, "")
  }

  /** The key a name is loaded under. */
  function LoadName(ks: Keys, full: bool, name: string): string
    requires ks.base + ks.join != ""
  {
    if full then Replace(name, ks.base + ks.join, "") else name
  }

  lemma PrefixContainsBase(ks: Keys, key: string)
    requires Occurs(ks.base + ks.join, key)
    ensures Contains(ks.base, key)
  {
    var pat := ks.base + ks.join;
    var i: nat :| StartsAt(pat, key, i);
    assert key[i..i + |ks.base|] == key[i..i + |pat|][..|ks.base|] == ks.base;
    assert StartsAt(ks.base, key, i);
    ContainsIsOccurs(ks.base, key);
  }

  /** Loading undoes naming exactly for the keys in which the prefix does not occur. */
  lemma NamesRoundTrip(ks: Keys, full: bool, key: string)
    requires ks.base + ks.join != ""
    ensures LoadName(ks, full, DumpName(ks, full, key)) == key <==> Usable(ks, key)
  {
    var pat := ks.base + ks.join;
    DeletingChanges(key, pat);
    if Occurs(pat, key) {
      PrefixContainsBase(ks, key);
    } else if full && GetKey(ks, key) != key {
      ReplacePrefix(pat, key, "");
      assert GetKey(ks, key) == pat + key;
    }
  }

  type Item = (string, Bytes)

  /** One item added to the dictionary; fails when the name of the hex list is taken by a value. */
  function DumpOne(ks: Keys, u: Utf8, full: bool, results: map<string, Raw>, item: Item): Option<map<string, Raw>>
    requires ks.base + ks.join != ""
  {
    var name := DumpName(ks, full, item.0);
    var text := u.decode(item.1);
    if text.Some? then Some(results[name := Str(text.value)])
    else
      var listed := if HEXED in results then results[HEXED] else Names([]);
      if !listed.Names? then None
      else Some(results[HEXED := Names(listed.names + [name])][name := Str(Hexlify(item.1))])
  }

  function DumpAll(ks: Keys, u: Utf8, full: bool, dated: bool, items: seq<Item>): Option<map<string, Raw>>
    requires ks.base + ks.join != ""
  {
    if items == [] then Some(if dated then map[EXP := Deadlines] else map[])
    else
      var n := |items| - 1;
      var rest := DumpAll(ks, u, full, dated, items[..n]);
      if rest.None? then None else DumpOne(ks, u, full, rest.value, items[n])
  }

  /** The hex list as the loop finds it: made when it is not there yet. */
  function WithList(results: map<string, Raw>): map<string, Raw> {
    if HEXED in results then results else results[HEXED := Names([])]
  }

  /** The loop's way of adding a value that is not UTF-8. */
  lemma DumpOneHexed(ks: Keys, u: Utf8, full: bool, results: map<string, Raw>, item: Item)
    requires ks.base + ks.join != "" && u.decode(item.1).None?
    ensures var listed, name := WithList(results), DumpName(ks, full, item.0);
      DumpOne(ks, u, full, results, item) ==
      if !listed[HEXED].Names? then None
      else Some(listed[HEXED := Names(listed[HEXED].names + [name])][name := Str(Hexlify(item.1))])
  {
    var listed, name := WithList(results), DumpName(ks, full, item.0);
    if listed[HEXED].Names? {
      var names := Names(listed[HEXED].names + [name]);
      assert listed[HEXED := names] == results[HEXED := names];
    }
  }

  /** The dump; `dated` tells whether the side hash has entries. */
  method DumpRaw(ks: Keys, u: Utf8, full: bool, dated: bool, items: seq<Item>)
      returns (results: Option<map<string, Raw>>)
    requires ks.base + ks.join != ""
    ensures results == DumpAll(ks, u, full, dated, items)
  {
    var dump: map<string, Raw> := map[];
    if dated {
      dump := dump[EXP := Deadlines];
    }
    for i := 0 to |items|
      invariant DumpAll(ks, u, full, dated, items[..i]) == Some(dump)
    {
      assert items[..i + 1][..i] == items[..i];
      var (key, value) := items[i];
      key := if full then GetKey(ks, key) else Replace(key, ks.base + ks.join, "");
      var text := u.decode(value);
      if text.Some? {
        dump := dump[key := Str(text.value)];
      } else {
        DumpOneHexed(ks, u, full, dump, items[i]);
        if HEXED !in dump {
          dump := dump[HEXED := Names([])];
        }
        if !dump[HEXED].Names? {
          DumpFails(ks, u, full, dated, items, i + 1);
          return None;
        }
        dump := dump[HEXED := Names(dump[HEXED].names + [key])];
        dump := dump[key := Str(Hexlify(value))];
      }
    }
    assert items[..|items|] == items;
    return Some(dump);
  }

  lemma {:induction false} DumpFails(ks: Keys, u: Utf8, full: bool, dated: bool, items: seq<Item>, n: nat)
    requires ks.base + ks.join != "" && n <= |items| && DumpAll(ks, u, full, dated, items[..n]).None?
    ensures DumpAll(ks, u, full, dated, items).None?
    decreases |items| - n
  {
    if n < |items| {
      assert items[..n + 1][..n] == items[..n];
      DumpFails(ks, u, full, dated, items, n + 1);
    } else {
      assert items[..n] == items;
    }
  }

  /** What iterating over the popped `_hexed_` entry yields: a string is iterated by characters. */
  function Listed(data: map<string, Raw>): seq<string> {
    if HEXED !in data then []
    else match data[HEXED]
      case Names(names) => names
      case Str(s) => seq(|s|, i requires 0 <= i < |s| => [s[i]])
      case _ => []
  }

  /** What unhexlify is given: a text, or the bytes of a name that is listed again. */
  function HexText(r: Raw): Option<string> {
    match r
    case Str(s) => Some(s)
    case Bin(b) => Some(seq(|b|, i requires 0 <= i < |b| => b[i] as char))
    case _ => None
  }

  function Unhex(data: map<string, Raw>, name: string): map<string, Raw> {
    if name in data && HexText(data[name]).Some? && Unhexlify(HexText(data[name]).value).Some?
    then data[name := Bin(Unhexlify(HexText(data[name]).value).value)] else data
  }

  function UnhexAll(data: map<string, Raw>, names: seq<string>): map<string, Raw> {
    if names == [] then data else Unhex(UnhexAll(data, names[..|names| - 1]), names[|names| - 1])
  }

  /** The bytes that HSET stores for an entry. */
  function Stored(u: Utf8, r: Raw): Bytes {
    match r
    case Str(s) => u.encode(s)
    case Bin(b) => b
    case _ => []
  }

  /** The entries written into the hash, in the order of the dictionary. */
  function Written(ks: Keys, u: Utf8, full: bool, data: map<string, Raw>, order: seq<string>): map<string, Bytes>
    requires ks.base + ks.join != "" && forall i :: 0 <= i < |order| ==> order[i] in data
  {
    if order == [] then map[]
    else
      var n := |order| - 1;
      Written(ks, u, full, data, order[..n])[LoadName(ks, full, order[n]) := Stored(u, data[order[n]])]
  }

  /** What a load into an empty hash leaves in it, and whether it raises. */
  datatype Load = Load(hash: map<string, Bytes>, raised: bool)

  /**
   * HSET of a popped `_exp_` entry that is not a dictionary raises, unless it is empty: then it is
   * not attempted.
   */
  predicate RaisesAsIndex(r: Raw) {
    match r
    case Str(s) => s != ""
    case Bin(b) => b != []
    case Names(names) => names != []
    case Deadlines => false
  }

  /**
   * The load into an empty hash; `order` is the dictionary's order once the two special entries are
   * popped. HSET refuses an empty mapping, so the load raises when no entry is left; a bad `_exp_`
   * entry makes it raise once the data has been written.
   */
  method LoadRaw(ks: Keys, u: Utf8, full: bool, results: map<string, Raw>, order: seq<string>)
      returns (loaded: Load)
    requires ks.base + ks.join != ""
    requires forall name :: name in order <==> name in results && !Special(name)
    ensures loaded == Loaded(ks, u, full, results, order)
  {
    var data := UnhexListed(results - {HEXED, EXP}, Listed(results));
    OrderKnown(results, order);
    var mapping := map[];
    for i := 0 to |order|
      invariant mapping == Written(ks, u, full, data, order[..i])
    {
      assert order[..i + 1][..i] == order[..i];
      mapping := mapping[LoadName(ks, full, order[i]) := Stored(u, data[order[i]])];
    }
    assert order[..|order|] == order;
    if order != [] {
      WrittenAll(ks, u, full, data, order, 0);
    }
    if mapping == map[] {
      return Load(map[], true);
    }
    return Load(mapping, EXP in results && RaisesAsIndex(results[EXP]));
  }

  /** The loop over the hex list; a name whose value does not unhexlify is left as it is. */
  method UnhexListed(start: map<string, Raw>, hexed: seq<string>) returns (data: map<string, Raw>)
    ensures data == UnhexAll(start, hexed)
  {
    data := start;
    for i := 0 to |hexed|
      invariant data == UnhexAll(start, hexed[..i])
    {
      assert hexed[..i + 1][..i] == hexed[..i];
      var name := hexed[i];
      if name in data && HexText(data[name]).Some? {
        var b := Unhexlify(HexText(data[name]).value);
        if b.Some? {
          data := data[name := Bin(b.value)];
        }
      }
    }
    assert hexed[..|hexed|] == hexed;
  }

  lemma {:induction false} UnhexKeys(data: map<string, Raw>, names: seq<string>)
    ensures UnhexAll(data, names).Keys == data.Keys
  {
    if names != [] {
      UnhexKeys(data, names[..|names| - 1]);
    }
  }

  lemma OrderKnown(results: map<string, Raw>, order: seq<string>)
    requires forall name :: name in order <==> name in results && !Special(name)
    ensures forall i :: 0 <= i < |order| ==> order[i] in UnhexAll(results - {HEXED, EXP}, Listed(results))
  {
    UnhexKeys(results - {HEXED, EXP}, Listed(results));
    forall i | 0 <= i < |order| ensures order[i] in results - {HEXED, EXP} {
      assert order[i] in order;
      assert !Special(order[i]);
    }
  }

  function Loaded(ks: Keys, u: Utf8, full: bool, results: map<string, Raw>, order: seq<string>): Load
    requires ks.base + ks.join != ""
    requires forall name :: name in order <==> name in results && !Special(name)
  {
    OrderKnown(results, order);
    if order == [] then Load(map[], true)
    else
      Load(Written(ks, u, full, UnhexAll(results - {HEXED, EXP}, Listed(results)), order),
           EXP in results && RaisesAsIndex(results[EXP]))
  }

  /** The text a value travels as. */
  function TextOf(u: Utf8, v: Bytes): string {
    if u.decode(v).Some? then u.decode(v).value else Hexlify(v)
  }

  ghost predicate DistinctKeys(items: seq<Item>) {
    forall i, j :: 0 <= i < j < |items| ==> items[i].0 != items[j].0
  }

  /** Every name of a dump is one of the two special ones or comes from an item. */
  lemma {:induction false} DumpNames(ks: Keys, u: Utf8, full: bool, dated: bool, items: seq<Item>, name: string)
      returns (i: nat)
    requires ks.base + ks.join != "" && DumpAll(ks, u, full, dated, items).Some?
    requires name in DumpAll(ks, u, full, dated, items).value && !Special(name)
    ensures i < |items| && name == DumpName(ks, full, items[i].0)
  {
    var n := |items| - 1;
    if name == DumpName(ks, full, items[n].0) {
      i := n;
    } else {
      i := DumpNames(ks, u, full, dated, items[..n], name);
    }
  }

  /** The items can be dumped under names of their own. */
  ghost predicate WellNamed(ks: Keys, full: bool, items: seq<Item>) {
    && ks.base + ks.join != "" && DistinctKeys(items)
    && forall i :: 0 <= i < |items| ==> Usable(ks, items[i].0) && !Special(DumpName(ks, full, items[i].0))
  }

  lemma NamesDiffer(ks: Keys, full: bool, items: seq<Item>, i: nat, j: nat)
    requires ks.base + ks.join != "" && i < |items| && j < |items| && items[i].0 != items[j].0
    requires Usable(ks, items[i].0) && Usable(ks, items[j].0)
    ensures DumpName(ks, full, items[i].0) != DumpName(ks, full, items[j].0)
  {
    NamesRoundTrip(ks, full, items[i].0);
    NamesRoundTrip(ks, full, items[j].0);
  }

  /** Position i of the dump: its text is there, and its name is in the hex list exactly when it is not UTF-8. */
  ghost predicate DumpedAt(ks: Keys, u: Utf8, full: bool, results: map<string, Raw>, item: Item)
    requires ks.base + ks.join != ""
  {
    var name := DumpName(ks, full, item.0);
    && name in results && results[name] == Str(TextOf(u, item.1))
    && (name in Listed(results) <==> u.decode(item.1).None?)
  }

  /** The hex list is a list, without repetitions, of names that are not special. */
  ghost predicate ListSound(results: map<string, Raw>) {
    && (HEXED in results ==> results[HEXED].Names?)
    && Distinct(Listed(results))
  }

  /** Adding a well-named item keeps what the dump says of the others. */
  lemma DumpOneKeeps(ks: Keys, u: Utf8, full: bool, results: map<string, Raw>, items: seq<Item>, i: nat, j: nat)
    requires WellNamed(ks, full, items) && i < j < |items| && ListSound(results)
    requires DumpedAt(ks, u, full, results, items[i])
    ensures var r := DumpOne(ks, u, full, results, items[j]); r.Some? && DumpedAt(ks, u, full, r.value, items[i])
  {
    NamesDiffer(ks, full, items, i, j);
  }

  lemma DumpOneAdds(ks: Keys, u: Utf8, full: bool, results: map<string, Raw>, items: seq<Item>, j: nat)
    requires WellNamed(ks, full, items) && j < |items| && ListSound(results)
    requires DumpName(ks, full, items[j].0) !in Listed(results)
    ensures var r := DumpOne(ks, u, full, results, items[j]);
      r.Some? && ListSound(r.value) && DumpedAt(ks, u, full, r.value, items[j])
  {
    var name := DumpName(ks, full, items[j].0);
    var r := DumpOne(ks, u, full, results, items[j]).value;
    if u.decode(items[j].1).None? {
      assert Listed(r) == Listed(results) + [name];
      assert Listed(r)[|Listed(results)|] == name;
    } else {
      assert Listed(r) == Listed(results);
    }
  }

  /** The names in the hex list come from items. */
  lemma {:induction false} ListedNames(ks: Keys, u: Utf8, full: bool, dated: bool, items: seq<Item>, name: string)
      returns (i: nat)
    requires WellNamed(ks, full, items) && DumpAll(ks, u, full, dated, items).Some?
    requires name in Listed(DumpAll(ks, u, full, dated, items).value)
    ensures i < |items| && name == DumpName(ks, full, items[i].0)
  {
    var n := |items| - 1;
    if items == [] {
      assert false;
    }
    var before := DumpAll(ks, u, full, dated, items[..n]).value;
    if name == DumpName(ks, full, items[n].0) {
      i := n;
    } else {
      assert name in Listed(before);
      i := ListedNames(ks, u, full, dated, items[..n], name);
    }
  }

  /** A dump of well-named items holds each of them. */
  lemma {:induction false} DumpMeaning(ks: Keys, u: Utf8, full: bool, dated: bool, items: seq<Item>)
    requires WellNamed(ks, full, items)
    ensures var r := DumpAll(ks, u, full, dated, items);
      && r.Some? && ListSound(r.value)
      && forall i :: 0 <= i < |items| ==> DumpedAt(ks, u, full, r.value, items[i])
  {
    if items != [] {
      var n := |items| - 1;
      DumpMeaning(ks, u, full, dated, items[..n]);
      var before := DumpAll(ks, u, full, dated, items[..n]).value;
      var name := DumpName(ks, full, items[n].0);
      if name in Listed(before) {
        var i := ListedNames(ks, u, full, dated, items[..n], name);
        NamesDiffer(ks, full, items, i, n);
      }
      DumpOneAdds(ks, u, full, before, items, n);
      forall i | 0 <= i < n ensures DumpedAt(ks, u, full, DumpOne(ks, u, full, before, items[n]).value, items[i]) {
        assert items[..n][i] == items[i];
        DumpOneKeeps(ks, u, full, before, items, i, n);
      }
    }
  }

  /** Only listed names are turned back into bytes, each once. */
  lemma {:induction false} UnhexMeaning(data: map<string, Raw>, names: seq<string>, name: string)
    requires Distinct(names) && name in data
    ensures name in UnhexAll(data, names)
    ensures UnhexAll(data, names)[name] ==
            if name in names && HexText(data[name]).Some? && Unhexlify(HexText(data[name]).value).Some?
            then Bin(Unhexlify(HexText(data[name]).value).value) else data[name]
  {
    UnhexKeys(data, names);
    if names != [] {
      var n := |names| - 1;
      UnhexMeaning(data, names[..n], name);
      UnhexKeys(data, names[..n]);
      assert names == names[..n] + [names[n]];
    }
  }

  /** Every written key comes from a name, and the value of the last such name stays. */
  lemma {:induction false} WrittenFrom(ks: Keys, u: Utf8, full: bool, data: map<string, Raw>, order: seq<string>,
                                       key: string) returns (i: nat)
    requires ks.base + ks.join != "" && forall k :: 0 <= k < |order| ==> order[k] in data
    requires key in Written(ks, u, full, data, order)
    ensures i < |order| && LoadName(ks, full, order[i]) == key
    ensures Written(ks, u, full, data, order)[key] == Stored(u, data[order[i]])
  {
    var n := |order| - 1;
    if LoadName(ks, full, order[n]) == key {
      i := n;
    } else {
      i := WrittenFrom(ks, u, full, data, order[..n], key);
    }
  }

  lemma {:induction false} WrittenAll(ks: Keys, u: Utf8, full: bool, data: map<string, Raw>, order: seq<string>, i: nat)
    requires ks.base + ks.join != "" && i < |order| && forall k :: 0 <= k < |order| ==> order[k] in data
    ensures LoadName(ks, full, order[i]) in Written(ks, u, full, data, order)
  {
    var n := |order| - 1;
    if i < n {
      WrittenAll(ks, u, full, data, order[..n], i);
    }
  }

  /** The items list a hash. */
  ghost predicate Lists(items: seq<Item>, hash: map<string, Bytes>) {
    && DistinctKeys(items)
    && (forall i :: 0 <= i < |items| ==> items[i].0 in hash && hash[items[i].0] == items[i].1)
    && (forall key :: key in hash ==> exists i :: 0 <= i < |items| && items[i].0 == key)
  }

  /** A name that alone is loaded under its key puts its own value there. */
  lemma WrittenUnder(ks: Keys, u: Utf8, full: bool, data: map<string, Raw>, order: seq<string>, name: string)
    requires ks.base + ks.join != "" && name in order && forall k :: 0 <= k < |order| ==> order[k] in data
    requires forall k :: 0 <= k < |order| && LoadName(ks, full, order[k]) == LoadName(ks, full, name) ==>
        order[k] == name
    ensures var written := Written(ks, u, full, data, order);
      LoadName(ks, full, name) in written && written[LoadName(ks, full, name)] == Stored(u, data[name])
  {
    var p :| 0 <= p < |order| && order[p] == name;
    WrittenAll(ks, u, full, data, order, p);
    var q := WrittenFrom(ks, u, full, data, order, LoadName(ks, full, name));
  }

  /** A dumped value comes back as the bytes it was, as text or by way of the hex list. */
  lemma ValueTravels(ks: Keys, u: Utf8, full: bool, results: map<string, Raw>, item: Item)
    requires IsUtf8(u) && ks.base + ks.join != "" && ListSound(results) && !Special(DumpName(ks, full, item.0))
    requires DumpedAt(ks, u, full, results, item)
    ensures var data, name := UnhexAll(results - {HEXED, EXP}, Listed(results)), DumpName(ks, full, item.0);
      name in data && Stored(u, data[name]) == item.1
  {
    var name := DumpName(ks, full, item.0);
    UnhexMeaning(results - {HEXED, EXP}, Listed(results), name);
    UnhexlifyHexlify(item.1);
  }

  /** What is loaded under a key is what the item with that key held. */
  lemma LoadedValue(ks: Keys, u: Utf8, full: bool, dated: bool, items: seq<Item>, order: seq<string>, i: nat)
    requires IsUtf8(u) && WellNamed(ks, full, items) && i < |items|
    requires DumpAll(ks, u, full, dated, items).Some?
    requires var r := DumpAll(ks, u, full, dated, items).value;
      forall name :: name in order <==> name in r && !Special(name)
    ensures var loaded := Loaded(ks, u, full, DumpAll(ks, u, full, dated, items).value, order);
      items[i].0 in loaded.hash && loaded.hash[items[i].0] == items[i].1
  {
    DumpMeaning(ks, u, full, dated, items);
    var r, name := DumpAll(ks, u, full, dated, items).value, DumpName(ks, full, items[i].0);
    assert DumpedAt(ks, u, full, r, items[i]);
    ValueTravels(ks, u, full, r, items[i]);
    NamesRoundTrip(ks, full, items[i].0);
    OrderKnown(r, order);
    forall k | 0 <= k < |order| && LoadName(ks, full, order[k]) == items[i].0 ensures order[k] == name {
      assert order[k] in order;
      var j := DumpNames(ks, u, full, dated, items, order[k]);
      NamesRoundTrip(ks, full, items[j].0);
    }
    WrittenUnder(ks, u, full, UnhexAll(r - {HEXED, EXP}, Listed(r)), order, name);
  }

  /**
   * Round trip: for keys in which the prefix does not occur, loading the dump of a hash that is not
   * empty into an empty one restores exactly its keys and bytes, with full or short names, provided
   * that no key is dumped under a special name.
   */
  lemma DumpLoadRoundTrip(ks: Keys, u: Utf8, full: bool, dated: bool, hash: map<string, Bytes>, items: seq<Item>,
                          order: seq<string>)
    requires IsUtf8(u) && WellNamed(ks, full, items) && Lists(items, hash) && hash != map[]
    requires var r := DumpAll(ks, u, full, dated, items);
      r.Some? ==> forall name :: name in order <==> name in r.value && !Special(name)
    ensures DumpAll(ks, u, full, dated, items).Some?
    ensures Loaded(ks, u, full, DumpAll(ks, u, full, dated, items).value, order) == Load(hash, false)
  {
    DumpMeaning(ks, u, full, dated, items);
    var r := DumpAll(ks, u, full, dated, items).value;
    var loaded := Loaded(ks, u, full, r, order);
    forall i | 0 <= i < |items| ensures items[i].0 in loaded.hash && loaded.hash[items[i].0] == items[i].1 {
      LoadedValue(ks, u, full, dated, items, order, i);
    }
    forall key | key in loaded.hash ensures key in hash {
      var i := LoadedFrom(ks, u, full, dated, items, order, key);
      NamesRoundTrip(ks, full, items[i].0);
    }
    SameMap(items, hash, loaded.hash);
    DumpHolds(ks, u, full, dated, items, EXP);
  }

  lemma SameMap(items: seq<Item>, hash: map<string, Bytes>, loaded: map<string, Bytes>)
    requires Lists(items, hash) && forall key :: key in loaded ==> key in hash
    requires forall i :: 0 <= i < |items| ==> items[i].0 in loaded && loaded[items[i].0] == items[i].1
    ensures loaded == hash
  {
    forall key | key in hash ensures key in loaded && loaded[key] == hash[key] {
      var i :| 0 <= i < |items| && items[i].0 == key;
    }
  }

  /** Every loaded key comes from an item that was dumped under a name that is not special. */
  lemma LoadedFrom(ks: Keys, u: Utf8, full: bool, dated: bool, items: seq<Item>, order: seq<string>, key: string)
      returns (i: nat)
    requires ks.base + ks.join != "" && DumpAll(ks, u, full, dated, items).Some?
    requires var r := DumpAll(ks, u, full, dated, items).value;
      forall name :: name in order <==> name in r && !Special(name)
    requires key in Loaded(ks, u, full, DumpAll(ks, u, full, dated, items).value, order).hash
    ensures i < |items| && !Special(DumpName(ks, full, items[i].0))
    ensures LoadName(ks, full, DumpName(ks, full, items[i].0)) == key
  {
    var r := DumpAll(ks, u, full, dated, items).value;
    OrderKnown(r, order);
    assert forall p :: 0 <= p < |order| ==> order[p] in order;
    var q := WrittenFrom(ks, u, full, UnhexAll(r - {HEXED, EXP}, Listed(r)), order, key);
    i := DumpNames(ks, u, full, dated, items, order[q]);
  }

  /** A key in which the prefix occurs comes back shorter. */
  lemma UnusableShrinks(ks: Keys, full: bool, key: string)
    requires ks.base + ks.join != "" && !Usable(ks, key)
    ensures |LoadName(ks, full, DumpName(ks, full, key))| < |key|
  {
    DeletingShortens(key, ks.base + ks.join);
    PrefixContainsBase(ks, key);
  }

  lemma {:induction false} LengthBound(hash: map<string, Bytes>) returns (n: nat)
    ensures forall key :: key in hash ==> |key| <= n
    decreases |hash|
  {
    n := 0;
    if hash != map[] {
      var key :| key in hash;
      n := LengthBound(hash - {key});
      n := if |key| > n then |key| else n;
    }
  }

  /**
   * Whatever comes back whole has no key in which the prefix occurs: such a key could only come
   * from a longer one of its kind.
   */
  lemma {:induction false} RestoredIsUsable(ks: Keys, u: Utf8, full: bool, dated: bool, items: seq<Item>,
                                            order: seq<string>, hash: map<string, Bytes>, key: string, bound: nat)
    requires ks.base + ks.join != "" && Lists(items, hash) && DumpAll(ks, u, full, dated, items).Some?
    requires var r := DumpAll(ks, u, full, dated, items).value;
      forall name :: name in order <==> name in r && !Special(name)
    requires Loaded(ks, u, full, DumpAll(ks, u, full, dated, items).value, order).hash == hash
    requires key in hash && forall k :: k in hash ==> |k| <= bound
    ensures Usable(ks, key) && !Special(DumpName(ks, full, key))
    decreases bound - |key|
  {
    var i := LoadedFrom(ks, u, full, dated, items, order, key);
    var origin := items[i].0;
    if !Usable(ks, origin) {
      UnusableShrinks(ks, full, origin);
      RestoredIsUsable(ks, u, full, dated, items, order, hash, origin, bound);
    } else {
      NamesRoundTrip(ks, full, origin);
    }
  }

  /**
   * The exact condition: dump and load restore a hash if and only if it is not empty, the prefix
   * occurs in none of its keys, and no key is dumped as `_exp_` or `_hexed_`.
   */
  lemma RoundTripBoundary(ks: Keys, u: Utf8, full: bool, dated: bool, hash: map<string, Bytes>, items: seq<Item>,
                          order: seq<string>)
    requires IsUtf8(u) && ks.base + ks.join != "" && Lists(items, hash)
    requires var r := DumpAll(ks, u, full, dated, items);
      r.Some? ==> forall name :: name in order <==> name in r.value && !Special(name)
    ensures (DumpAll(ks, u, full, dated, items).Some? &&
             Loaded(ks, u, full, DumpAll(ks, u, full, dated, items).value, order) == Load(hash, false))
            <==> hash != map[] && forall key :: key in hash ==> Usable(ks, key) && !Special(DumpName(ks, full, key))
  {
    if hash != map[] && forall key :: key in hash ==> Usable(ks, key) && !Special(DumpName(ks, full, key)) {
      DumpLoadRoundTrip(ks, u, full, dated, hash, items, order);
    } else if DumpAll(ks, u, full, dated, items).Some? {
      var loaded := Loaded(ks, u, full, DumpAll(ks, u, full, dated, items).value, order);
      if loaded == Load(hash, false) {
        LoadRaisesBoundary(ks, u, full, dated, items, order);
        var bound := LengthBound(hash);
        forall key | key in hash ensures Usable(ks, key) && !Special(DumpName(ks, full, key)) {
          RestoredIsUsable(ks, u, full, dated, items, order, hash, key, bound);
        }
      }
    }
  }

  /** Item i is the last one that is dumped under the name. */
  ghost predicate LastUnder(ks: Keys, full: bool, items: seq<Item>, i: int, name: string)
    requires ks.base + ks.join != ""
  {
    && 0 <= i < |items| && DumpName(ks, full, items[i].0) == name
    && forall j :: i < j < |items| ==> DumpName(ks, full, items[j].0) != name
  }

  lemma DumpOneHolds(ks: Keys, u: Utf8, full: bool, results: map<string, Raw>, item: Item, name: string)
    requires ks.base + ks.join != "" && DumpOne(ks, u, full, results, item).Some? && name != HEXED
    ensures Lookup(DumpOne(ks, u, full, results, item).value, name) ==
            if DumpName(ks, full, item.0) == name then Some(Str(TextOf(u, item.1))) else Lookup(results, name)
  {
  }

  /** Under any name but the hex list's, a dump holds the text of the last item, if there is one. */
  lemma {:induction false} DumpHolds(ks: Keys, u: Utf8, full: bool, dated: bool, items: seq<Item>, name: string)
    requires ks.base + ks.join != "" && DumpAll(ks, u, full, dated, items).Some? && name != HEXED
    ensures var r := DumpAll(ks, u, full, dated, items).value;
      && (forall i :: LastUnder(ks, full, items, i, name) ==> Lookup(r, name) == Some(Str(TextOf(u, items[i].1))))
      && ((forall i :: !LastUnder(ks, full, items, i, name)) ==> name in r ==> r[name] == Deadlines)
  {
    if items != [] {
      var n := |items| - 1;
      DumpHolds(ks, u, full, dated, items[..n], name);
      DumpOneHolds(ks, u, full, DumpAll(ks, u, full, dated, items[..n]).value, items[n], name);
      if DumpName(ks, full, items[n].0) == name {
        assert LastUnder(ks, full, items, n, name);
      } else {
        forall i ensures LastUnder(ks, full, items, i, name) <==> LastUnder(ks, full, items[..n], i, name) {
        }
      }
    }
  }

  /**
   * Loading a dump raises exactly when all its names are special, above all when the hash is empty,
   * or when the last key that was dumped as `_exp_` has a text; then the data has been written.
   */
  lemma LoadRaisesBoundary(ks: Keys, u: Utf8, full: bool, dated: bool, items: seq<Item>, order: seq<string>)
    requires ks.base + ks.join != "" && DumpAll(ks, u, full, dated, items).Some?
    requires var r := DumpAll(ks, u, full, dated, items).value;
      forall name :: name in order <==> name in r && !Special(name)
    ensures var loaded := Loaded(ks, u, full, DumpAll(ks, u, full, dated, items).value, order);
      var allSpecial := forall i :: 0 <= i < |items| ==> Special(DumpName(ks, full, items[i].0));
      && (loaded.hash == map[] <==> allSpecial)
      && (loaded.raised <==>
            allSpecial || exists i :: LastUnder(ks, full, items, i, EXP) && TextOf(u, items[i].1) != "")
  {
    var r := DumpAll(ks, u, full, dated, items).value;
    DumpHolds(ks, u, full, dated, items, EXP);
    if order != [] {
      assert order[0] in order;
      var i := DumpNames(ks, u, full, dated, items, order[0]);
      OrderKnown(r, order);
      WrittenAll(ks, u, full, UnhexAll(r - {HEXED, EXP}, Listed(r)), order, 0);
    } else {
      forall i | 0 <= i < |items| ensures Special(DumpName(ks, full, items[i].0)) {
        NamesStay(ks, u, full, dated, items, i);
        assert DumpName(ks, full, items[i].0) !in order;
      }
    }
  }

  /** Every item's name is in the dump. */
  lemma {:induction false} NamesStay(ks: Keys, u: Utf8, full: bool, dated: bool, items: seq<Item>, i: nat)
    requires ks.base + ks.join != "" && i < |items| && DumpAll(ks, u, full, dated, items).Some?
    ensures DumpName(ks, full, items[i].0) in DumpAll(ks, u, full, dated, items).value
  {
    var n := |items| - 1;
    if i < n {
      NamesStay(ks, u, full, dated, items[..n], i);
    }
  }

  /** A key without a character of the prefix is dumped under itself, in short form. */
  lemma ShortName(key: string)
    requires 'b' !in key
    ensures DumpName(Keys("b", ":"), false, key) == key
  {
    assert "b" + ":" == "b:";
    ReplaceForeign(key, "b:", "");
  }

  lemma DumpWithIndexText(u: Utf8, dated: bool)
    requires u.decode([49]) == Some("1") && u.decode([118]) == Some("v")
    ensures DumpAll(Keys("b", ":"), u, false, dated, [(EXP, [49]), ("k", [118])]) ==
            Some(map[EXP := Str("1"), "k" := Str("v")])
  {
    var ks, first: Item, second: Item := Keys("b", ":"), (EXP, [49]), ("k", [118]);
    ShortName(EXP);
    ShortName("k");
    var none, one, both: seq<Item> := [], [first], [first, second];
    assert one[..0] == none && both[..1] == one;
    assert DumpAll(ks, u, false, dated, none) == Some(if dated then map[EXP := Deadlines] else map[]);
    assert DumpAll(ks, u, false, dated, one).value == map[EXP := Str("1")];
    assert DumpAll(ks, u, false, dated, both).value == map[EXP := Str("1"), "k" := Str("v")];
  }

  /** A key `_exp_` beside another: the other one is loaded, and then the load raises. */
  lemma IndexTextRaises(u: Utf8, dated: bool)
    requires IsUtf8(u) && u.decode([49]) == Some("1") && u.decode([118]) == Some("v")
    ensures var ks, dump := Keys("b", ":"), map[EXP := Str("1"), "k" := Str("v")];
      && DumpAll(ks, u, false, dated, [(EXP, [49]), ("k", [118])]) == Some(dump)
      && Loaded(ks, u, false, dump, ["k"]) == Load(map["k" := [118]], true)
  {
    var ks, dump := Keys("b", ":"), map[EXP := Str("1"), "k" := Str("v")];
    DumpWithIndexText(u, dated);
    var data := dump - {HEXED, EXP};
    assert data == map["k" := Str("v")] && Listed(dump) == [];
    assert ["k"][..0] == [];
    assert Written(ks, u, false, data, ["k"]) == map["k" := u.encode("v")];
    var v: Bytes := [118];
    assert u.encode(u.decode(v).value) == v;
  }

  /**
   * Taking the dump raises exactly when a value that is not UTF-8 follows a key that was dumped as
   * `_hexed_`: the list's place is taken by a text.
   */
  lemma {:induction false} DumpRaisesBoundary(ks: Keys, u: Utf8, full: bool, dated: bool, items: seq<Item>, n: nat)
    requires ks.base + ks.join != "" && n <= |items|
    ensures var r := DumpAll(ks, u, full, dated, items[..n]);
      && (r.None? <==>
            exists i, j :: 0 <= i < j < n && DumpName(ks, full, items[i].0) == HEXED && u.decode(items[j].1).None?)
      && (r.Some? && HEXED in r.value && !r.value[HEXED].Names? <==>
            r.Some? && exists i :: 0 <= i < n && DumpName(ks, full, items[i].0) == HEXED)
  {
    if n > 0 {
      DumpRaisesBoundary(ks, u, full, dated, items, n - 1);
      assert items[..n][..n - 1] == items[..n - 1];
    }
  }

  /** A text in the place of the hex list is gone through character by character. */
  lemma TextIsListed(s: string, i: nat)
    requires i < |s|
    ensures |Listed(map[HEXED := Str(s)])| == |s| && Listed(map[HEXED := Str(s)])[i] == [s[i]]
  {
  }

  /** A name that is listed twice is unhexlified twice, the second time from the bytes of the first. */
  lemma ListedTwice(name: string, s: string, first: Bytes, second: Bytes)
    requires Unhexlify(s) == Some(first)
    requires Unhexlify(seq(|first|, i requires 0 <= i < |first| => first[i] as char)) == Some(second)
    ensures UnhexAll(map[name := Str(s)], [name, name]) == map[name := Bin(second)]
  {
    assert [name, name][..1] == [name] && [name][..0] == [];
    assert UnhexAll(map[name := Str(s)], [name]) == map[name := Bin(first)];
  }

  /** In full, a key without the base key is dumped with base key and separator in front; in short, as it is. */
  lemma NamesMeaning(ks: Keys, key: string)
    requires ks.base != "" && !Occurs(ks.base, key)
    ensures DumpName(ks, true, key) == ks.base + ks.join + key && DumpName(ks, false, key) == key
    ensures DumpName(ks, true, ks.base + ks.join + key) == ks.base + ks.join + key
    ensures DumpName(ks, false, ks.base + ks.join + key) == key
  {
    var pat := ks.base + ks.join;
    ContainsIsOccurs(ks.base, key);
    if Occurs(pat, key) {
      PrefixContainsBase(ks, key);
    }
    ReplaceAbsent(key, pat, "");
    ReplacePrefix(pat, key, "");
    assert (pat + key)[..|ks.base|] == ks.base;
  }
}

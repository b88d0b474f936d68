/** `prepare_job_kws`: expanding m argument sets over n workers, one job key for each job. */
module Broadcast {
  import opened Common

  /** Argument names: the queue's two special ones, the two that pick a worker, and any other. */
  datatype Name = Timeout | Key | WorkerId | WorkerName | Other(n: nat)

  /** Argument values are opaque, but for what Python's `or` falls through on. */
  datatype Value = Falsy(n: nat) | Truthy(n: nat)

  /** A dictionary of keyword arguments. */
  type Kw = map<Name, Value>

  /** The queue's default timeout and its key generator: what its n-th call returns. */
  datatype Config = Config(timeout: Value, generate: nat -> Value)

  /** How the caller names the workers. */
  datatype Request = Request(broadcast: bool, selected: seq<Kw>, selector: Option<seq<Kw>>, names: seq<Value>)

  /** The workers to expand over; none means that nothing is broadcast. */
  function Workers(r: Request, ids: seq<Value>): Option<seq<Kw>> {
    if !r.broadcast && r.selector.None? && r.names == [] && r.selected == [] then None
    else if r.selected != [] then Some(r.selected)
    else if r.selector.Some? then r.selector
    else if r.names != [] then Some(seq(|r.names|, i requires 0 <= i < |r.names| => map[WorkerName := r.names[i]]))
    else Some(seq(|ids|, i requires 0 <= i < |ids| => map[WorkerId := ids[i]]))
  }

  /** The key an item brings along, unless it is missing or falsy. */
  function Supplied(c: Config, item: Kw): Option<Value> {
    if Key in item && item[Key].Truthy? then Some(item[Key]) else None
  }

  /** One job's arguments: later dictionaries win over earlier ones. */
  function Row(c: Config, timeout: Value, key: Value, extra: Kw, item: Kw, worker: Kw): Kw {
    map[Timeout := timeout][Key := key] + extra + (item - {Key}) + worker
  }

  /** n generated keys, from the given call of the generator on. */
  function Generated(c: Config, calls: nat, n: nat): seq<Value> {
    seq(n, i requires 0 <= i < n => c.generate(calls + i))
  }

  /** The keys of one item: the first worker pops the supplied key, all others get a generated one. */
  function ItemKeys(c: Config, item: Kw, n: nat, calls: nat): (keys: seq<Value>)
    ensures |keys| == n
  {
    if n > 0 && Supplied(c, item).Some? then [Supplied(c, item).value] + Generated(c, calls, n - 1)
    else Generated(c, calls, n)
  }

  /** How often the generator was called for one item. */
  function ItemCalls(c: Config, item: Kw, n: nat): nat {
    if n > 0 && Supplied(c, item).Some? then n - 1 else n
  }

  function AllCalls(c: Config, items: seq<Kw>, n: nat): nat {
    if items == [] then 0
    else AllCalls(c, items[..|items| - 1], n) + ItemCalls(c, items[|items| - 1], n)
  }

  /** Rows one after the other. */
  function Flat<T>(table: seq<seq<T>>): seq<T> {
    if table == [] then [] else Flat(table[..|table| - 1]) + table[|table| - 1]
  }

  /** The keys, item by item. */
  function KeyTable(c: Config, items: seq<Kw>, n: nat): (table: seq<seq<Value>>)
    ensures |table| == |items| && forall i :: 0 <= i < |table| ==> |table[i]| == n
  {
    if items == [] then []
    else
      var front := items[..|items| - 1];
      KeyTable(c, front, n) + [ItemKeys(c, items[|items| - 1], n, AllCalls(c, front, n))]
  }

  function AllKeys(c: Config, items: seq<Kw>, n: nat): seq<Value> {
    Flat(KeyTable(c, items, n))
  }

  function ItemRows(c: Config, timeout: Value, extra: Kw, item: Kw, workers: seq<Kw>, keys: seq<Value>): seq<Kw>
    requires |keys| == |workers|
  {
    seq(|workers|, j requires 0 <= j < |workers| => Row(c, timeout, keys[j], extra, item, workers[j]))
  }

  /** The argument sets, item by item and within an item worker by worker. */
  function RowTable(c: Config, timeout: Value, extra: Kw, items: seq<Kw>, workers: seq<Kw>): (table: seq<seq<Kw>>)
    ensures |table| == |items|
  {
    seq(|items|, i requires 0 <= i < |items| =>
      ItemRows(c, timeout, extra, items[i], workers, KeyTable(c, items, |workers|)[i]))
  }

  function AllRows(c: Config, timeout: Value, extra: Kw, items: seq<Kw>, workers: seq<Kw>): seq<Kw> {
    Flat(RowTable(c, timeout, extra, items, workers))
  }

  /** The table of the first m + 1 items is that of the first m and one row more. */
  lemma TableGrows(c: Config, timeout: Value, extra: Kw, items: seq<Kw>, workers: seq<Kw>, m: nat)
    requires m < |items|
    ensures var keys := ItemKeys(c, items[m], |workers|, AllCalls(c, items[..m], |workers|));
      RowTable(c, timeout, extra, items[..m + 1], workers) ==
      RowTable(c, timeout, extra, items[..m], workers) + [ItemRows(c, timeout, extra, items[m], workers, keys)]
  {
    assert items[..m + 1][..m] == items[..m];
  }

  /** One more item appends its rows. */
  lemma RowsGrow(c: Config, timeout: Value, extra: Kw, items: seq<Kw>, workers: seq<Kw>, m: nat)
    requires m < |items|
    ensures var keys := ItemKeys(c, items[m], |workers|, AllCalls(c, items[..m], |workers|));
      AllRows(c, timeout, extra, items[..m + 1], workers) ==
      AllRows(c, timeout, extra, items[..m], workers) + ItemRows(c, timeout, extra, items[m], workers, keys)
  {
    TableGrows(c, timeout, extra, items, workers, m);
    var table, table' := RowTable(c, timeout, extra, items[..m], workers),
        RowTable(c, timeout, extra, items[..m + 1], workers);
    assert table'[..m] == table;
  }

  /** The jobs of one item: its key is popped by the first worker and gone for the others. */
  method ExpandItem(c: Config, timeout: Value, extra: Kw, item: Kw, workers: seq<Kw>, calls: nat)
      returns (rows: seq<Kw>, calls': nat)
    ensures rows == ItemRows(c, timeout, extra, item, workers, ItemKeys(c, item, |workers|, calls))
    ensures calls' == calls + ItemCalls(c, item, |workers|)
    ensures calls' == calls + |workers| - (if workers != [] && Key in item && item[Key].Truthy? then 1 else 0)
  {
    var kw := item;
    ghost var keys := ItemKeys(c, item, |workers|, calls);
    rows, calls' := [], calls;
    for j := 0 to |workers|
      invariant kw == if j == 0 then item else item - {Key}
      invariant calls' == calls + ItemCalls(c, item, j)
      invariant |rows| == j
      invariant forall k :: 0 <= k < j ==> rows[k] == Row(c, timeout, keys[k], extra, item, workers[k])
    {
      var popped := if Key in kw then kw[Key] else Falsy(0);
      kw := kw - {Key};
      assert kw == item - {Key};
      var key := popped;
      if popped.Falsy? {
        key := c.generate(calls');
        calls' := calls' + 1;
      }
      assert key == keys[j];
      rows := rows + [map[Timeout := timeout][Key := key] + extra + kw + workers[j]];
    }
  }

  /** The loop over the items. */
  method ExpandItems(c: Config, timeout: Value, extra: Kw, items: seq<Kw>, workers: seq<Kw>) returns (rows: seq<Kw>)
    ensures rows == AllRows(c, timeout, extra, items, workers)
  {
    rows := [];
    var calls := 0;
    for i := 0 to |items|
      invariant rows == AllRows(c, timeout, extra, items[..i], workers)
      invariant calls == AllCalls(c, items[..i], |workers|)
    {
      RowsGrow(c, timeout, extra, items, workers, i);
      assert items[..i + 1][..i] == items[..i];
      var more, calls' := ExpandItem(c, timeout, extra, items[i], workers, calls);
      rows, calls := rows + more, calls';
    }
    assert items[..|items|] == items;
  }

  /** The expansion of all items over the chosen workers. */
  method PrepareJobKws(c: Config, items: seq<Kw>, request: Request, ids: seq<Value>, kwargs: Kw)
      returns (rows: seq<Kw>, chosen: Option<seq<Kw>>)
    ensures chosen == Workers(request, ids)
    ensures var workers := if chosen.Some? then chosen.value else [map[]];
      var timeout := if Timeout in kwargs then kwargs[Timeout] else c.timeout;
      rows == AllRows(c, timeout, kwargs - {Timeout} - {Key}, items, workers)
  {
    var timeout := if Timeout in kwargs then kwargs[Timeout] else c.timeout;
    chosen := Workers(request, ids);
    rows := ExpandItems(c, timeout, kwargs - {Timeout} - {Key}, items, if chosen.Some? then chosen.value else [map[]]);
  }

  /** Where row i of a table with n columns begins: i * n. */
  function Offset(i: nat, n: nat): nat {
    if i == 0 then 0 else Offset(i - 1, n) + n
  }

  lemma {:induction false} OffsetIsProduct(i: nat, n: nat)
    ensures Offset(i, n) == i * n
  {
    if i > 0 {
      OffsetIsProduct(i - 1, n);
      assert (i - 1) * n + n == i * n;
    }
  }

  lemma {:induction false} OffsetGrows(i: nat, m: nat, n: nat)
    requires i < m
    ensures Offset(i, n) + n <= Offset(m, n)
  {
    if i < m - 1 {
      OffsetGrows(i, m - 1, n);
    }
  }

  ghost predicate Columns<T>(table: seq<seq<T>>, n: nat) {
    forall i :: 0 <= i < |table| ==> |table[i]| == n
  }

  lemma {:induction false} FlatSize<T>(table: seq<seq<T>>, n: nat)
    requires Columns(table, n)
    ensures |Flat(table)| == Offset(|table|, n)
  {
    if table != [] {
      FlatSize(table[..|table| - 1], n);
    }
  }

  /** Laid out row by row, cell (i, j) of a table lands at i * n + j. */
  lemma {:induction false} FlatAt<T>(table: seq<seq<T>>, n: nat, i: nat, j: nat)
    requires Columns(table, n) && i < |table| && j < n
    ensures Offset(i, n) + j < |Flat(table)| && Flat(table)[Offset(i, n) + j] == table[i][j]
  {
    var m := |table| - 1;
    FlatSize(table, n);
    FlatSize(table[..m], n);
    OffsetGrows(i, |table|, n);
    if i < m {
      OffsetGrows(i, m, n);
      FlatAt(table[..m], n, i, j);
    }
  }

  /** There are m * n argument sets and as many keys. */
  lemma RowCount(c: Config, timeout: Value, extra: Kw, items: seq<Kw>, workers: seq<Kw>)
    ensures |AllRows(c, timeout, extra, items, workers)| == |items| * |workers| == |AllKeys(c, items, |workers|)|
  {
    FlatSize(KeyTable(c, items, |workers|), |workers|);
    FlatSize(RowTable(c, timeout, extra, items, workers), |workers|);
    OffsetIsProduct(|items|, |workers|);
  }

  /** m items over n workers: the argument set at i * n + j joins item i with worker j. */
  lemma RowAt(c: Config, timeout: Value, extra: Kw, items: seq<Kw>, workers: seq<Kw>, i: nat, j: nat)
    requires i < |items| && j < |workers|
    ensures 0 <= i * |workers| + j < |AllRows(c, timeout, extra, items, workers)|
    ensures i * |workers| + j < |AllKeys(c, items, |workers|)|
    ensures AllRows(c, timeout, extra, items, workers)[i * |workers| + j] ==
            Row(c, timeout, AllKeys(c, items, |workers|)[i * |workers| + j], extra, items[i], workers[j])
  {
    FlatAt(KeyTable(c, items, |workers|), |workers|, i, j);
    FlatAt(RowTable(c, timeout, extra, items, workers), |workers|, i, j);
    OffsetIsProduct(i, |workers|);
  }

  /** Each position of the result belongs to a pair of an item and a worker. */
  lemma {:induction false} PairOf(k: nat, m: nat, n: nat) returns (i: nat, j: nat)
    requires k < Offset(m, n)
    ensures i < m && j < n && k == Offset(i, n) + j
  {
    if k >= Offset(m - 1, n) {
      i, j := m - 1, k - Offset(m - 1, n);
    } else {
      i, j := PairOf(k, m - 1, n);
    }
  }

  /** Different pairs have different positions. */
  lemma PairsApart(i: nat, j: nat, i': nat, j': nat, n: nat)
    requires j < n && j' < n && i * n + j == i' * n + j'
    ensures i == i' && j == j'
  {
    OffsetIsProduct(i, n);
    OffsetIsProduct(i', n);
    if i' < i {
      OffsetGrows(i', i, n);
    } else if i < i' {
      OffsetGrows(i, i', n);
    }
  }

  /** The generator never repeats itself nor any key that an item supplies; supplied keys differ. */
  ghost predicate KeysApart(c: Config, items: seq<Kw>) {
    && (forall p: nat, q: nat :: p != q ==> c.generate(p) != c.generate(q))
    && (forall i, p: nat :: 0 <= i < |items| ==> Supplied(c, items[i]) != Some(c.generate(p)))
    && (forall i, j :: 0 <= i < j < |items| && Supplied(c, items[i]).Some? ==>
        Supplied(c, items[i]) != Supplied(c, items[j]))
  }

  /** Where a key comes from: an item, or a call of the generator made so far. */
  ghost predicate Origin(c: Config, items: seq<Kw>, calls: nat, key: Value) {
    || (exists i :: 0 <= i < |items| && Supplied(c, items[i]) == Some(key))
    || (exists p: nat :: p < calls && key == c.generate(p))
  }

  lemma {:induction false} KeysOrigin(c: Config, items: seq<Kw>, n: nat, k: nat)
    requires k < |AllKeys(c, items, n)|
    ensures Origin(c, items, AllCalls(c, items, n), AllKeys(c, items, n)[k])
  {
    var m := |items| - 1;
    var front, item := items[..m], items[m];
    var before, calls := AllKeys(c, front, n), AllCalls(c, front, n);
    var key := AllKeys(c, items, n)[k];
    if k < |before| {
      KeysOrigin(c, front, n, k);
      assert key == before[k];
      if i :| 0 <= i < m && Supplied(c, front[i]) == Some(key) {
        assert Supplied(c, items[i]) == Some(key);
      }
    } else {
      var j := k - |before|;
      assert key == ItemKeys(c, item, n, calls)[j];
      if Supplied(c, item).Some? {
        if j > 0 {
          assert key == c.generate(calls + (j - 1));
        }
      } else {
        assert key == c.generate(calls + j);
      }
    }
  }

  lemma DistinctConcat(a: seq<Value>, b: seq<Value>)
    requires Distinct(a) && Distinct(b)
    requires forall p, q :: 0 <= p < |a| && 0 <= q < |b| ==> a[p] != b[q]
    ensures Distinct(a + b)
  {
  }

  lemma ItemKeysDistinct(c: Config, items: seq<Kw>, item: Kw, n: nat, calls: nat)
    requires KeysApart(c, items) && item in items
    ensures Distinct(ItemKeys(c, item, n, calls))
  {
    var i :| 0 <= i < |items| && items[i] == item;
    assert Distinct(Generated(c, calls, n));
    if n > 0 && Supplied(c, item).Some? {
      var rest := Generated(c, calls, n - 1);
      forall q | 0 <= q < |rest| ensures Supplied(c, item).value != rest[q] {
        assert rest[q] == c.generate(calls + q) && Supplied(c, items[i]) != Some(c.generate(calls + q));
      }
      DistinctConcat([Supplied(c, item).value], rest);
    }
  }

  /** A key of the m-th item is none of the keys of the items before. */
  lemma KeyIsNew(c: Config, items: seq<Kw>, m: nat, n: nat, p: nat, q: nat)
    requires KeysApart(c, items) && m < |items| && p < |AllKeys(c, items[..m], n)| && q < n
    ensures AllKeys(c, items[..m], n)[p] != ItemKeys(c, items[m], n, AllCalls(c, items[..m], n))[q]
  {
    var front, item, calls := items[..m], items[m], AllCalls(c, items[..m], n);
    var old', new' := AllKeys(c, front, n)[p], ItemKeys(c, item, n, calls)[q];
    KeysOrigin(c, front, n, p);
    var supplied := Supplied(c, item).Some? && q == 0;
    var call := if Supplied(c, item).Some? && q > 0 then calls + (q - 1) else calls + q;
    assert new' == if supplied then Supplied(c, item).value else c.generate(call);
    if i :| 0 <= i < m && Supplied(c, front[i]) == Some(old') {
      assert Supplied(c, items[i]) == Some(old') && Supplied(c, items[i]) != Some(c.generate(call));
      assert Supplied(c, items[i]) != Supplied(c, items[m]);
    } else {
      var g: nat :| g < calls && old' == c.generate(g);
      assert c.generate(g) != c.generate(call) && Supplied(c, items[m]) != Some(c.generate(g));
    }
  }

  /** All job keys differ, although only the first worker of an item gets the supplied one. */
  lemma {:induction false} AllKeysDistinct(c: Config, items: seq<Kw>, m: nat, n: nat)
    requires KeysApart(c, items) && m <= |items|
    ensures Distinct(AllKeys(c, items[..m], n))
  {
    if m > 0 {
      assert items[..m][..m - 1] == items[..m - 1];
      var before := AllKeys(c, items[..m - 1], n);
      var own := ItemKeys(c, items[m - 1], n, AllCalls(c, items[..m - 1], n));
      AllKeysDistinct(c, items, m - 1, n);
      ItemKeysDistinct(c, items, items[m - 1], n, AllCalls(c, items[..m - 1], n));
      forall p, q | 0 <= p < |before| && 0 <= q < |own| ensures before[p] != own[q] {
        KeyIsNew(c, items, m - 1, n, p, q);
      }
      DistinctConcat(before, own);
    }
  }

  /** The key of a row is its entry of `AllKeys`. */
  lemma RowKey(c: Config, timeout: Value, extra: Kw, items: seq<Kw>, workers: seq<Kw>, k: nat)
    requires Key !in extra && forall w :: w in workers ==> Key !in w
    requires k < |AllRows(c, timeout, extra, items, workers)|
    ensures k < |AllKeys(c, items, |workers|)|
    ensures Key in AllRows(c, timeout, extra, items, workers)[k]
    ensures AllRows(c, timeout, extra, items, workers)[k][Key] == AllKeys(c, items, |workers|)[k]
  {
    FlatSize(RowTable(c, timeout, extra, items, workers), |workers|);
    var i, j := PairOf(k, |items|, |workers|);
    FlatAt(KeyTable(c, items, |workers|), |workers|, i, j);
    FlatAt(RowTable(c, timeout, extra, items, workers), |workers|, i, j);
  }

  /** The jobs are enqueued under pairwise different keys. */
  lemma JobKeysDistinct(c: Config, timeout: Value, extra: Kw, items: seq<Kw>, workers: seq<Kw>, k: nat, l: nat)
    requires KeysApart(c, items) && Key !in extra && forall w :: w in workers ==> Key !in w
    requires k < l < |AllRows(c, timeout, extra, items, workers)|
    ensures var rows := AllRows(c, timeout, extra, items, workers);
      && Key in rows[k] && Key in rows[l] && rows[k][Key] != rows[l][Key]
  {
    RowKey(c, timeout, extra, items, workers, k);
    RowKey(c, timeout, extra, items, workers, l);
    AllKeysDistinct(c, items, |items|, |workers|);
    assert items[..|items|] == items;
  }

  /**
   * An argument of a job comes from the worker, else from the item, else from the call, else it is the
   * timeout or the key.
   */
  lemma RowValues(c: Config, timeout: Value, key: Value, extra: Kw, item: Kw, worker: Kw, name: Name)
    ensures Lookup(Row(c, timeout, key, extra, item, worker), name) ==
            if name in worker then Some(worker[name])
            else if name in item && name != Key then Some(item[name])
            else if name in extra then Some(extra[name])
            else if name == Timeout then Some(timeout)
            else if name == Key then Some(key)
            else None
  {
  }

  /** A truthy key that an item brings along goes to its first worker; every other key is generated. */
  lemma SuppliedKeyFirst(c: Config, items: seq<Kw>, n: nat, i: nat, j: nat)
    requires i < |items| && j < n
    ensures i * n + j < |AllKeys(c, items, n)|
    ensures var key := AllKeys(c, items, n)[i * n + j];
      if j == 0 && Key in items[i] && items[i][Key].Truthy? then key == items[i][Key]
      else exists p: nat :: key == c.generate(p)
  {
    var calls := AllCalls(c, items[..i], n);
    FlatAt(KeyTable(c, items, n), n, i, j);
    OffsetIsProduct(i, n);
    TableAt(c, items, n, i);
    if Supplied(c, items[i]).Some? {
      assert j > 0 ==> ItemKeys(c, items[i], n, calls)[j] == c.generate(calls + (j - 1));
    } else {
      assert ItemKeys(c, items[i], n, calls)[j] == c.generate(calls + j);
    }
  }

  lemma {:induction false} TableAt(c: Config, items: seq<Kw>, n: nat, i: nat)
    requires i < |items|
    ensures KeyTable(c, items, n)[i] == ItemKeys(c, items[i], n, AllCalls(c, items[..i], n))
  {
    var m := |items| - 1;
    if i < m {
      TableAt(c, items[..m], n, i);
      assert items[..m][..i] == items[..i];
    }
  }

  /** Who gets the jobs: the selected workers, else what the selector picks, else the named ones, else all of them. */
  lemma WorkersChosen(r: Request, ids: seq<Value>)
    ensures r.selected != [] ==> Workers(r, ids) == Some(r.selected)
    ensures r.selected == [] && r.selector.Some? ==> Workers(r, ids) == r.selector
    ensures r.selected == [] && r.selector.None? && r.names != [] ==>
              var workers := Workers(r, ids);
              && workers.Some? && |workers.value| == |r.names|
              && forall i :: 0 <= i < |r.names| ==> workers.value[i] == map[WorkerName := r.names[i]]
    ensures r.selected == [] && r.selector.None? && r.names == [] && r.broadcast ==>
              var workers := Workers(r, ids);
              && workers.Some? && |workers.value| == |ids|
              && forall i :: 0 <= i < |ids| ==> workers.value[i] == map[WorkerId := ids[i]]
    ensures r.selected == [] && r.selector.None? && r.names == [] && !r.broadcast ==> Workers(r, ids) == None
  {
  }
}

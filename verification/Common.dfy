/** Shared vocabulary: optional values and the list commands the queue scripts issue. */
module Common {

  datatype Option<+T> = None | Some(value: T)

  function Lookup<K, V>(m: map<K, V>, k: K): Option<V> {
    if k in m then Some(m[k]) else None
  }

  ghost predicate Distinct<T>(s: seq<T>) {
    forall i, j :: 0 <= i < j < |s| ==> s[i] != s[j]
  }

  lemma SubsetSize<T>(a: set<T>, b: set<T>)
    requires a <= b
    ensures |a| <= |b|
  {
    assert b == a + (b - a);
  }

  /** How often x occurs in s. */
  function Count<T(==)>(s: seq<T>, x: T): nat {
    if s == [] then 0 else (if s[0] == x then 1 else 0) + Count(s[1..], x)
  }

  /** `LREM key 1 x`: drops the first occurrence, counting from the head. */
  function RemoveFirst<T(==)>(s: seq<T>, x: T): seq<T> {
    if s == [] then []
    else if s[0] == x then s[1..]
    else [s[0]] + RemoveFirst(s[1..], x)
  }

  /** `LREM key 0 x`: drops every occurrence. */
  function RemoveAll<T(==)>(s: seq<T>, x: T): seq<T> {
    if s == [] then []
    else if s[0] == x then RemoveAll(s[1..], x)
    else [s[0]] + RemoveAll(s[1..], x)
  }

  /** One less, but never below zero. */
  function Less(n: nat): nat {
    if n == 0 then 0 else n - 1
  }

  lemma {:induction false} CountPositive<T>(s: seq<T>, x: T)
    ensures Count(s, x) > 0 <==> x in s
  {
    if s != [] {
      CountPositive(s[1..], x);
    }
  }

  lemma {:induction false} CountConcat<T>(a: seq<T>, b: seq<T>, x: T)
    ensures Count(a + b, x) == Count(a, x) + Count(b, x)
  {
    if a == [] {
      assert a + b == b;
    } else {
      assert (a + b)[1..] == a[1..] + b;
      CountConcat(a[1..], b, x);
    }
  }

  /** LREM 1 takes away exactly one occurrence of x, if there is one, and nothing else. */
  lemma {:induction false} RemoveFirstCount<T>(s: seq<T>, x: T, y: T)
    ensures Count(RemoveFirst(s, x), y) == if x == y then Less(Count(s, y)) else Count(s, y)
  {
    if s != [] && s[0] != x {
      RemoveFirstCount(s[1..], x, y);
      CountConcat([s[0]], RemoveFirst(s[1..], x), y);
    }
  }

  /** LREM 0 takes away every occurrence of x and nothing else. */
  lemma {:induction false} RemoveAllCount<T>(s: seq<T>, x: T, y: T)
    ensures Count(RemoveAll(s, x), y) == if x == y then 0 else Count(s, y)
  {
    if s != [] {
      RemoveAllCount(s[1..], x, y);
      CountConcat([s[0]], RemoveAll(s[1..], x), y);
    }
  }

  /** A non-empty list is its front plus its last element. */
  lemma CountLast<T>(s: seq<T>, x: T)
    requires s != []
    ensures Count(s, x) == Count(s[..|s| - 1], x) + (if s[|s| - 1] == x then 1 else 0)
  {
    assert s == s[..|s| - 1] + [s[|s| - 1]];
    CountConcat(s[..|s| - 1], [s[|s| - 1]], x);
  }
}

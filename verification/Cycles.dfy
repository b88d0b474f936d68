/** Replacing a pattern whose first occurrence begins inside what stands in front of it. */
module Cycles {
  import opened Common
  import opened Text

  /** The string repeats the cycle: it goes on as itself behind it. */
  predicate Repeats(cycle: string, s: string) {
    StartsWith(cycle + s, s)
  }

  /** What is left over when k goes round n. */
  function Left(k: nat, n: nat): (left: nat)
    requires n > 0
    ensures left < n
  {
    if k < n then k else Left(k - n, n)
  }

  lemma {:induction false} LeftAdds(a: nat, k: nat, n: nat)
    requires n > 0
    ensures Left(a + k, n) == Left(Left(a, n) + k, n)
  {
    if a >= n {
      LeftAdds(a - n, k, n);
    }
  }

  /** In a string that repeats a cycle, and in the cycle with the string behind it, the characters go round. */
  lemma {:induction false} GoesRound(cycle: string, s: string, m: nat)
    requires cycle != "" && Repeats(cycle, s) && m < |cycle + s|
    ensures (cycle + s)[m] == cycle[Left(m, |cycle|)]
    ensures m < |s| ==> s[m] == cycle[Left(m, |cycle|)]
  {
    if m >= |cycle| {
      GoesRound(cycle, s, m - |cycle|);
    }
    assert m < |s| ==> (cycle + s)[..|s|][m] == (cycle + s)[m];
  }

  /** What is left of the cycle behind the first occurrence of a string that repeats it. */
  function Tail(cycle: string, s: string): (tail: string)
    ensures |tail| == |cycle|
  {
    (cycle + s)[|s|..]
  }

  lemma TailGoesRound(cycle: string, s: string, k: nat)
    requires cycle != "" && Repeats(cycle, s) && k < |cycle|
    ensures Tail(cycle, s)[k] == cycle[Left(|s| + k, |cycle|)]
  {
    GoesRound(cycle, s, |s| + k);
  }

  /** Replacing passes over the head, and goes on in the tail behind the first occurrence. */
  lemma ReplaceInside(head: string, cycle: string, from: string, to: string, rest: string)
    requires from != "" && Repeats(cycle, from)
    requires forall k: nat :: k < |head| ==> !StartsAt(from, head + (cycle + from), k)
    ensures Replace(head + (cycle + from) + rest, from, to) == head + (to + Replace(Tail(cycle, from) + rest, from, to))
  {
    var behind, marked := from + (Tail(cycle, from) + rest), head + (cycle + from);
    assert cycle + from == from + Tail(cycle, from);
    assert marked + rest == head + behind;
    forall k: nat | k < |head| ensures !StartsAt(from, head + behind, k) {
      assert StartsWith(marked + rest, marked);
      OccurrenceInPrefix(from, marked, marked + rest, k);
    }
    ReplaceBehind(head, behind, from, to);
    ReplacePrefix(from, Tail(cycle, from) + rest, to);
  }

  /** Both strings repeat a cycle of different characters, and leave off at the same place of it. */
  predicate InStep(cycle: string, from: string, to: string) {
    && cycle != "" && Repeats(cycle, from) && Repeats(cycle, to)
    && Left(|to|, |cycle|) == Left(|from|, |cycle|)
  }

  /** An occurrence in the tail begins where the cycle does, and there the new string goes on with it. */
  lemma TailMeets(cycle: string, from: string, to: string, d: nat)
    requires Distinct(cycle) && InStep(cycle, from, to) && from != "" && to != ""
    requires d < |cycle| && Tail(cycle, from)[d] == from[0]
    ensures StartsWith(to, Tail(cycle, from)[d..])
  {
    var n, tail := |cycle|, Tail(cycle, from);
    TailGoesRound(cycle, from, d);
    GoesRound(cycle, from, 0);
    assert Left(|from| + d, n) == 0;
    LeftAdds(|from|, d, n);
    LeftAdds(|to|, d, n);
    assert |to| + d >= n;
    forall k | 0 <= k < n - d ensures to[k] == tail[d..][k] {
      GoesRound(cycle, to, k);
      TailGoesRound(cycle, from, d + k);
      LeftAdds(|from| + d, k, n);
    }
    assert to[..n - d] == tail[d..];
  }

  /** So replacing leaves the beginning of the tail as it was. */
  lemma {:induction false} TailPasses(cycle: string, from: string, to: string, rest: string, d: nat)
    requires Distinct(cycle) && InStep(cycle, from, to) && from != "" && to != "" && d <= |cycle|
    ensures StartsWith(Replace(Tail(cycle, from)[d..] + rest, from, to), Tail(cycle, from)[d..])
    decreases |cycle| - d
  {
    var n, tail := |cycle|, Tail(cycle, from);
    var s := tail[d..] + rest;
    if d < n && |s| >= |from| {
      if s[..|from|] == from {
        assert s[0] == tail[d];
        TailMeets(cycle, from, to, d);
        StartsFurther(to, Replace(s[|from|..], from, to), tail[d..]);
      } else {
        assert s[1..] == tail[d + 1..] + rest && tail[d..] == [tail[d]] + tail[d + 1..];
        TailPasses(cycle, from, to, rest, d + 1);
        StartsBehind(tail[d], Replace(s[1..], from, to), tail[d + 1..]);
      }
    } else {
      assert s[..n - d] == tail[d..];
    }
  }

  lemma StartsFurther(s: string, more: string, prefix: string)
    requires StartsWith(s, prefix)
    ensures StartsWith(s + more, prefix)
  {
    assert (s + more)[..|prefix|] == s[..|prefix|];
  }

  lemma StartsBehind(c: char, s: string, prefix: string)
    requires StartsWith(s, prefix)
    ensures StartsWith([c] + s, [c] + prefix)
  {
    assert ([c] + s)[..|prefix| + 1] == [c] + s[..|prefix|];
  }

  /** In step: the new string, with the replaced tail behind it, goes on behind the cycle. */
  lemma InStepStarts(cycle: string, from: string, to: string, end: string)
    requires InStep(cycle, from, to) && StartsWith(end, Tail(cycle, from))
    ensures StartsWith(to + end, cycle + to)
  {
    var n := |cycle|;
    forall k | 0 <= k < n + |to| ensures (to + end)[k] == (cycle + to)[k] {
      GoesRound(cycle, to, k);
      if k >= |to| {
        TailGoesRound(cycle, from, k - |to|);
        LeftAdds(|to|, k - |to|, n);
        LeftAdds(|from|, k - |to|, n);
        assert end[..n][k - |to|] == end[k - |to|];
      }
    }
    assert (to + end)[..n + |to|] == cycle + to;
  }

  /** The tail replaced on its own begins as it did, as long as the new string begins like the cycle. */
  lemma EndBegins(cycle: string, from: string, to: string)
    requires Distinct(cycle) && cycle != "" && from != "" && to != "" && Repeats(cycle, from) && Repeats(cycle, to)
    ensures var end := Replace(Tail(cycle, from), from, to);
      end != "" && end[0] == cycle[Left(|from|, |cycle|)]
  {
    var tail := Tail(cycle, from);
    TailGoesRound(cycle, from, 0);
    GoesRound(cycle, from, 0);
    GoesRound(cycle, to, 0);
    if |tail| >= |from| && tail[..|from|] == from {
      assert tail[0] == from[0];
    }
  }

  /** Out of step it does not. */
  lemma StartsInStep(cycle: string, from: string, to: string)
    requires Distinct(cycle) && cycle != "" && from != "" && to != "" && Repeats(cycle, from)
    requires StartsWith(to + Replace(Tail(cycle, from), from, to), cycle + to)
    ensures InStep(cycle, from, to)
  {
    var n, end := |cycle|, Replace(Tail(cycle, from), from, to);
    var same := (to + end)[..n + |to|];
    assert to == same[..|to|] && same[..|to|] == (cycle + to)[..|to|];
    assert same[|to|] == end[0];
    EndBegins(cycle, from, to);
    GoesRound(cycle, to, |to|);
  }
}

/**
 * `wait_for_jobs`: polls a list of jobs and removes the finished ones from the very list it
 * is iterating, so that each removal makes the loop skip the next job of that pass.
 */
module WaitForJobs {
  import opened Common

  type Key = nat

  /** What the job's status is once it has been refreshed, or has failed to be. */
  datatype View<R> = Pending | Done(result: R) | Bad

  /** How the refresh itself goes: it may raise RuntimeError or AttributeError. */
  datatype Refresh = Fresh | Lost | Unreadable

  datatype Look<R> = Look(refresh: Refresh, view: View<R>)

  /** The refreshes: what the n-th one of the call, made for the given job, comes to. */
  type Looks<!R> = (nat, Key) -> Look<R>

  /**
   * In the middle of a pass: the list, the position of its iterator, the refreshes made so far,
   * the jobs whose results were collected, the failed ones, those that could not be read, those
   * that were enqueued again, and whether the call has raised.
   */
  datatype Poll<R> = Poll(jobs: seq<Key>, at: nat, calls: nat, collected: seq<(Key, R)>, failed: seq<Key>,
                          unread: seq<Key>, requeued: seq<Key>, raised: bool)

  function Start<R>(jobs: seq<Key>): Poll<R> {
    Poll(jobs, 0, 0, [], [], [], [], false)
  }

  /** What follows the refresh; `strict` is `raise_exceptions`. */
  function Refreshed<R>(p: Poll<R>, job: Key, refresh: Refresh, strict: bool): Poll<R> {
    match refresh
    case Fresh => p
    case Lost => p.(requeued := p.requeued + [job])
    case Unreadable =>
      if strict then p.(raised := true) else p.(unread := p.unread + [job], jobs := RemoveFirst(p.jobs, job))
  }

  /** What follows from the status; removing a job that is no longer in the list raises. */
  function Settled<R>(p: Poll<R>, job: Key, view: View<R>, strict: bool): Poll<R> {
    match view
    case Pending => p
    case Done(result) =>
      var seen := p.(collected := p.collected + [(job, result)]);
      if job in p.jobs then seen.(jobs := RemoveFirst(p.jobs, job)) else seen.(raised := true)
    case Bad =>
      if strict || job !in p.jobs then p.(raised := true)
      else p.(failed := p.failed + [job], jobs := RemoveFirst(p.jobs, job))
  }

  /** One turn of the inner loop; the iterator moves on before the body runs. */
  function Turn<R>(p: Poll<R>, looks: Looks<R>, strict: bool): Poll<R>
    requires p.at < |p.jobs|
  {
    var job := p.jobs[p.at];
    var look := looks(p.calls, job);
    var seen := Refreshed(p.(at := p.at + 1, calls := p.calls + 1), job, look.refresh, strict);
    if seen.raised then seen else Settled(seen, job, look.view, strict)
  }

  lemma {:induction false} RemoveFirstLength(s: seq<Key>, x: Key)
    requires x in s
    ensures |RemoveFirst(s, x)| == |s| - 1
  {
    if s[0] != x {
      RemoveFirstLength(s[1..], x);
    }
  }

  lemma TurnShrinks<R>(p: Poll<R>, looks: Looks<R>, strict: bool)
    requires p.at < |p.jobs|
    ensures |Turn(p, looks, strict).jobs| - Turn(p, looks, strict).at < |p.jobs| - p.at
    ensures |Turn(p, looks, strict).jobs| <= |p.jobs|
  {
    var job := p.jobs[p.at];
    RemoveFirstLength(p.jobs, job);
    if job in RemoveFirst(p.jobs, job) {
      RemoveFirstLength(RemoveFirst(p.jobs, job), job);
    }
  }

  /** The rest of a pass. */
  function Finished<R>(p: Poll<R>, looks: Looks<R>, strict: bool): Poll<R>
    decreases |p.jobs| - p.at
  {
    if p.raised || p.at >= |p.jobs| then p
    else
      TurnShrinks(p, looks, strict);
      Finished(Turn(p, looks, strict), looks, strict)
  }

  /** The first `rounds` passes of the outer loop. */
  function Polled<R>(p: Poll<R>, looks: Looks<R>, strict: bool, rounds: nat): Poll<R>
    decreases rounds
  {
    if rounds == 0 || p.raised || p.jobs == [] then p
    else Polled(Finished(p.(at := 0), looks, strict), looks, strict, rounds - 1)
  }

  /** The body of the inner loop. */
  method PollOne<R>(p: Poll<R>, looks: Looks<R>, strict: bool) returns (p': Poll<R>)
    requires p.at < |p.jobs| && !p.raised
    ensures p' == Turn(p, looks, strict)
  {
    var job := p.jobs[p.at];
    var look := looks(p.calls, job);
    p' := p.(at := p.at + 1, calls := p.calls + 1);
    if look.refresh.Lost? {
      p' := p'.(requeued := p'.requeued + [job]);
    } else if look.refresh.Unreadable? {
      if strict {
        return p'.(raised := true);
      }
      p' := p'.(unread := p'.unread + [job], jobs := RemoveFirst(p'.jobs, job));
    }
    if look.view.Done? {
      p' := p'.(collected := p'.collected + [(job, look.view.result)]);
      if job !in p'.jobs {
        return p'.(raised := true);
      }
      p' := p'.(jobs := RemoveFirst(p'.jobs, job));
    } else if look.view.Bad? {
      if strict || job !in p'.jobs {
        return p'.(raised := true);
      }
      p' := p'.(failed := p'.failed + [job], jobs := RemoveFirst(p'.jobs, job));
    }
  }

  /** The loops themselves, watched for at most `rounds` passes. */
  method WaitForJobs<R>(jobs: seq<Key>, looks: Looks<R>, strict: bool, rounds: nat) returns (p: Poll<R>)
    ensures p == Polled(Start(jobs), looks, strict, rounds)
  {
    p := Start(jobs);
    var round := 0;
    while p.jobs != [] && !p.raised && round < rounds
      invariant round <= rounds
      invariant Polled(Start(jobs), looks, strict, rounds) == Polled(p, looks, strict, rounds - round)
      decreases rounds - round
    {
      p := p.(at := 0);
      ghost var start := p;
      while !p.raised && p.at < |p.jobs|
        invariant Finished(p, looks, strict) == Finished(start, looks, strict)
        decreases |p.jobs| - p.at
      {
        TurnShrinks(p, looks, strict);
        p := PollOne(p, looks, strict);
      }
      round := round + 1;
    }
  }

  /**
   * When a turn raises: for any bad news when `strict`, and otherwise exactly for a job that could
   * not be read, is listed once, and was known to be over, because it is then removed twice.
   */
  lemma RaiseBoundary<R>(p: Poll<R>, looks: Looks<R>, strict: bool)
    requires p.at < |p.jobs| && !p.raised
    ensures var look, once := looks(p.calls, p.jobs[p.at]), Count(p.jobs, p.jobs[p.at]) == 1;
      Turn(p, looks, strict).raised <==>
      if strict then look.refresh.Unreadable? || look.view.Bad?
      else look.refresh.Unreadable? && !look.view.Pending? && once
  {
    var job := p.jobs[p.at];
    RemoveFirstCount(p.jobs, job, job);
    CountPositive(p.jobs, job);
    CountPositive(RemoveFirst(p.jobs, job), job);
  }

  /**
   * What a turn enters where: a lost job is enqueued again, an unreadable one is noted, a completed
   * one is collected with its result, a failed one is noted. With `strict` the call raises before
   * the last two, and over an unreadable job it raises at once.
   */
  lemma TurnEnters<R>(p: Poll<R>, looks: Looks<R>, strict: bool)
    requires p.at < |p.jobs| && !p.raised
    ensures var job, p' := p.jobs[p.at], Turn(p, looks, strict);
      var look := looks(p.calls, job);
      && p'.at == p.at + 1 && p'.calls == p.calls + 1
      && p'.requeued == p.requeued + (if look.refresh == Lost then [job] else [])
      && p'.unread == p.unread + (if look.refresh == Unreadable && !strict then [job] else [])
      && p'.collected == p.collected +
           (if look.view.Done? && !(look.refresh == Unreadable && strict) then [(job, look.view.result)] else [])
      && (!p'.raised ==> p'.failed == p.failed + (if look.view.Bad? then [job] else []))
      && (look.view.Pending? && look.refresh != Unreadable ==> p'.jobs == p.jobs)
  {
  }

  /** The jobs whose results were collected. */
  function Keys<R>(collected: seq<(Key, R)>): seq<Key> {
    seq(|collected|, i requires 0 <= i < |collected| => collected[i].0)
  }

  /** How often a job occurs in the list, and among the collected, the failed and the unreadable. */
  function Total<R>(p: Poll<R>, k: Key): nat {
    Count(p.jobs, k) + Count(Keys(p.collected), k) + Count(p.failed, k) + Count(p.unread, k)
  }

  lemma RefreshConserves<R>(p: Poll<R>, job: Key, refresh: Refresh, strict: bool, k: Key)
    requires job in p.jobs
    ensures Total(Refreshed(p, job, refresh, strict), k) == Total(p, k)
  {
    RemoveFirstCount(p.jobs, job, k);
    CountPositive(p.jobs, job);
    CountConcat(p.unread, [job], k);
  }

  lemma SettleConserves<R>(p: Poll<R>, job: Key, view: View<R>, strict: bool, k: Key)
    requires !p.raised && !Settled(p, job, view, strict).raised
    ensures Total(Settled(p, job, view, strict), k) == Total(p, k)
  {
    RemoveFirstCount(p.jobs, job, k);
    CountPositive(p.jobs, job);
    CountConcat(p.failed, [job], k);
    match view
    case Done(result) =>
      assert Keys(p.collected + [(job, result)]) == Keys(p.collected) + [job];
      CountConcat(Keys(p.collected), [job], k);
    case _ =>
  }

  lemma TurnConserves<R>(p: Poll<R>, looks: Looks<R>, strict: bool, k: Key)
    requires p.at < |p.jobs| && !p.raised && !Turn(p, looks, strict).raised
    ensures Total(Turn(p, looks, strict), k) == Total(p, k)
  {
    var job := p.jobs[p.at];
    var look, moved := looks(p.calls, job), p.(at := p.at + 1, calls := p.calls + 1);
    var seen := Refreshed(moved, job, look.refresh, strict);
    assert !seen.raised && Turn(p, looks, strict) == Settled(seen, job, look.view, strict);
    RefreshConserves(moved, job, look.refresh, strict, k);
    SettleConserves(seen, job, look.view, strict, k);
  }

  lemma {:induction false} PassConserves<R>(p: Poll<R>, looks: Looks<R>, strict: bool, k: Key)
    requires !Finished(p, looks, strict).raised
    ensures Total(Finished(p, looks, strict), k) == Total(p, k)
    decreases |p.jobs| - p.at
  {
    if !p.raised && p.at < |p.jobs| {
      TurnShrinks(p, looks, strict);
      PassConserves(Turn(p, looks, strict), looks, strict, k);
      TurnConserves(p, looks, strict, k);
    }
  }

  /**
   * Whatever the refreshes come to and whenever one looks, as long as the call has not raised: the
   * remaining, the collected, the failed and the unreadable jobs together are a permutation of the
   * jobs that were passed in.
   */
  lemma {:induction false} NothingLostOrDoubled<R>(p: Poll<R>, looks: Looks<R>, strict: bool, rounds: nat, k: Key)
    requires !Polled(p, looks, strict, rounds).raised
    ensures Total(Polled(p, looks, strict, rounds), k) == Total(p, k)
    decreases rounds
  {
    if rounds > 0 && !p.raised && p.jobs != [] {
      NothingLostOrDoubled(Finished(p.(at := 0), looks, strict), looks, strict, rounds - 1, k);
      PassConserves(p.(at := 0), looks, strict, k);
    }
  }

  /** The jobs are over and refresh cleanly: each refresh shows the same final state, which is not raised. */
  ghost predicate AllOver<R>(looks: Looks<R>, fate: Key -> View<R>, strict: bool) {
    forall n: nat, k: Key :: looks(n, k) == Look(Fresh, fate(k)) && !fate(k).Pending? && (strict ==> !fate(k).Bad?)
  }

  /** Then a turn takes the job out of the list, and nothing else. */
  lemma TurnRemoves<R>(p: Poll<R>, looks: Looks<R>, fate: Key -> View<R>, strict: bool)
    requires AllOver(looks, fate, strict) && p.at < |p.jobs| && !p.raised
    ensures var job, p' := p.jobs[p.at], Turn(p, looks, strict);
      p'.jobs == RemoveFirst(p.jobs, job) && p'.at == p.at + 1 && !p'.raised && p'.unread == p.unread
  {
    assert looks(p.calls, p.jobs[p.at]) == Look(Fresh, fate(p.jobs[p.at]));
  }

  /** Every second job, starting with the second. */
  function Odds(s: seq<Key>): seq<Key> {
    seq(|s| / 2, i requires 0 <= i < |s| / 2 => s[2 * i + 1])
  }

  /** The list after i turns of a pass in which every job is over. */
  function Thinned(s: seq<Key>, i: nat): seq<Key>
    requires 2 * i <= |s|
  {
    Odds(s[..2 * i]) + s[2 * i..]
  }

  lemma {:induction false} RemoveAt(s: seq<Key>, i: nat)
    requires i < |s| && forall j :: 0 <= j < i ==> s[j] != s[i]
    ensures RemoveFirst(s, s[i]) == s[..i] + s[i + 1..]
  {
    if i > 0 {
      assert s[1..][i - 1] == s[i] && forall j :: 0 <= j < i - 1 ==> s[1..][j] == s[j + 1];
      RemoveAt(s[1..], i - 1);
      assert s[1..][..i - 1] + s[1..][i..] == s[1..i] + s[i + 1..];
    }
  }

  /** Turn i visits job 2i and drops it. */
  lemma ThinningTurn(s: seq<Key>, i: nat)
    requires Distinct(s) && 2 * i < |s|
    ensures |Thinned(s, i)| == |s| - i && Thinned(s, i)[i] == s[2 * i]
    ensures RemoveFirst(Thinned(s, i), s[2 * i]) == Odds(s[..2 * i]) + s[2 * i + 1..]
  {
    var t := Thinned(s, i);
    forall j | 0 <= j < i ensures t[j] != t[i] {
      assert t[j] == s[2 * j + 1];
    }
    RemoveAt(t, i);
    assert t[..i] == Odds(s[..2 * i]) && t[i + 1..] == s[2 * i + 1..];
  }

  /** What turn i leaves is the list for the next turn, or the end of the pass. */
  lemma ThinnedNext(s: seq<Key>, i: nat)
    requires 2 * i < |s|
    ensures 2 * i + 1 < |s| ==> Odds(s[..2 * i]) + s[2 * i + 1..] == Thinned(s, i + 1)
    ensures 2 * i + 1 == |s| ==> Odds(s[..2 * i]) + s[2 * i + 1..] == Odds(s)
  {
  }

  /** The rest of a pass over jobs that are all over leaves every second one. */
  lemma {:induction false} ThinningPass<R>(s: seq<Key>, p: Poll<R>, looks: Looks<R>, fate: Key -> View<R>, strict: bool)
    requires Distinct(s) && AllOver(looks, fate, strict) && 2 * p.at <= |s| && p.jobs == Thinned(s, p.at) && !p.raised
    ensures var end := Finished(p, looks, strict); end.jobs == Odds(s) && !end.raised && end.unread == p.unread
    decreases |s| - p.at
  {
    if 2 * p.at == |s| {
      assert Thinned(s, p.at) == Odds(s);
    } else {
      ThinningTurn(s, p.at);
      ThinnedNext(s, p.at);
      TurnRemoves(p, looks, fate, strict);
      if 2 * p.at + 1 < |s| {
        ThinningPass(s, Turn(p, looks, strict), looks, fate, strict);
      }
    }
  }

  /** One pass over n jobs that are all over leaves n / 2 of them. */
  lemma PassHalves<R>(p: Poll<R>, looks: Looks<R>, fate: Key -> View<R>, strict: bool)
    requires Distinct(p.jobs) && AllOver(looks, fate, strict) && p.at == 0 && !p.raised
    ensures Finished(p, looks, strict).jobs == Odds(p.jobs) && |Odds(p.jobs)| == |p.jobs| / 2
    ensures Distinct(Finished(p, looks, strict).jobs) && !Finished(p, looks, strict).raised
    ensures Finished(p, looks, strict).unread == p.unread
  {
    assert Thinned(p.jobs, 0) == p.jobs;
    ThinningPass(p.jobs, p, looks, fate, strict);
  }

  /** floor(log2 n) + 1 for positive n. */
  function Passes(n: nat): nat {
    if n == 0 then 0 else 1 + Passes(n / 2)
  }

  function Pow2(k: nat): nat {
    if k == 0 then 1 else 2 * Pow2(k - 1)
  }

  lemma {:induction false} PassesIsLogarithm(n: nat)
    requires n > 0
    ensures Pow2(Passes(n) - 1) <= n < Pow2(Passes(n))
  {
    if n > 1 {
      PassesIsLogarithm(n / 2);
    }
  }

  /** Jobs that are all over at entry are drained by exactly floor(log2 n) + 1 passes, and by no fewer. */
  lemma {:induction false} DrainsInLogPasses<R>(p: Poll<R>, looks: Looks<R>, fate: Key -> View<R>, strict: bool,
                                                rounds: nat)
    requires Distinct(p.jobs) && AllOver(looks, fate, strict) && !p.raised
    ensures Polled(p, looks, strict, rounds).jobs == [] <==> rounds >= Passes(|p.jobs|)
    ensures !Polled(p, looks, strict, rounds).raised && Polled(p, looks, strict, rounds).unread == p.unread
    decreases rounds
  {
    if rounds > 0 && p.jobs != [] {
      PassHalves(p.(at := 0), looks, fate, strict);
      DrainsInLogPasses(Finished(p.(at := 0), looks, strict), looks, fate, strict, rounds - 1);
    }
  }

  /** Everything collected so far is a job that is done, with its result; everything failed is bad. */
  ghost predicate Sorted<R>(p: Poll<R>, fate: Key -> View<R>) {
    && (forall i :: 0 <= i < |p.collected| ==> fate(p.collected[i].0) == Done(p.collected[i].1))
    && (forall i :: 0 <= i < |p.failed| ==> fate(p.failed[i]) == Bad)
  }

  lemma {:induction false} PassSorts<R>(p: Poll<R>, looks: Looks<R>, fate: Key -> View<R>, strict: bool)
    requires AllOver(looks, fate, strict) && Sorted(p, fate)
    ensures Sorted(Finished(p, looks, strict), fate)
    decreases |p.jobs| - p.at
  {
    if !p.raised && p.at < |p.jobs| {
      TurnShrinks(p, looks, strict);
      assert looks(p.calls, p.jobs[p.at]) == Look(Fresh, fate(p.jobs[p.at]));
      PassSorts(Turn(p, looks, strict), looks, fate, strict);
    }
  }

  lemma {:induction false} PollSorts<R>(p: Poll<R>, looks: Looks<R>, fate: Key -> View<R>, strict: bool, rounds: nat)
    requires AllOver(looks, fate, strict) && Sorted(p, fate)
    ensures Sorted(Polled(p, looks, strict, rounds), fate)
    decreases rounds
  {
    if rounds > 0 && !p.raised && p.jobs != [] {
      PassSorts(p.(at := 0), looks, fate, strict);
      PollSorts(Finished(p.(at := 0), looks, strict), looks, fate, strict, rounds - 1);
    }
  }

  /**
   * With all of n distinct jobs over at entry, the call ends after floor(log2 n) + 1 passes
   * and has collected each completed job exactly once, with its result, and no other.
   */
  lemma CollectsExactlyTheCompleted<R>(jobs: seq<Key>, looks: Looks<R>, fate: Key -> View<R>, strict: bool, k: Key)
    requires Distinct(jobs) && AllOver(looks, fate, strict)
    ensures var p := Polled(Start(jobs), looks, strict, Passes(|jobs|));
      && p.jobs == [] && !p.raised
      && Count(Keys(p.collected), k) == (if fate(k).Done? then Count(jobs, k) else 0)
      && (forall i :: 0 <= i < |p.collected| ==> fate(p.collected[i].0) == Done(p.collected[i].1))
  {
    var start: Poll<R> := Start(jobs);
    var p := Polled(start, looks, strict, Passes(|jobs|));
    DrainsInLogPasses(start, looks, fate, strict, Passes(|jobs|));
    NothingLostOrDoubled(start, looks, strict, Passes(|jobs|), k);
    PollSorts(start, looks, fate, strict, Passes(|jobs|));
    CountPositive(p.failed, k);
    CountPositive(Keys(p.collected), k);
  }
}

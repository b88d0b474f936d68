/** The methods of `TaskQueue` seen as runs of the protocol. */
module QueueWorker {
  import opened Common
  import opened QueueStore
  import opened QueueEffects
  import opened QueueProtocol
  import opened QueueOwnership
  import opened QueueLifeCycle
  import opened TaskQueueModel

  /** Steps one after the other, each of which the code can take. */
  ghost predicate Leads(s: System, steps: seq<Step>, s': System)
    decreases |steps|
  {
    if steps == [] then s == s' else Enabled(s, steps[0]) && Leads(Apply(s, steps[0]), steps[1..], s')
  }

  /** The protocol's steps in a turn of `process_queue`. */
  function StepsOfTurn(s: Store, task: Task, fits: bool, outcome: Outcome): seq<Step> {
    if s.queued == [] then []
    else if Next(s) !in s.records then [DoDequeue(task)]
    else if !fits then [DoDequeue(task), DoDrop(task)]
    else [DoDequeue(task), DoStart(task), DoEnd(task, outcome)]
  }

  function Turn(s: Store, fits: bool, outcome: Outcome): Store {
    if s.queued == [] then s else Process(s, fits, outcome)
  }

  /**
   * A turn of `process_queue` by an idle task is a run of the protocol that leaves the task idle:
   * nothing on an empty queue, else a dequeue and, for a job that has a record, a rejection or a
   * start and an end.
   */
  lemma ProcessIsRun(s: System, task: Task, fits: bool, outcome: Outcome)
    requires task !in s.held && OutcomeOk(s.store, outcome)
    ensures Leads(s, StepsOfTurn(s.store, task, fits, outcome), System(Turn(s.store, fits, outcome), s.held))
  {
    if s.store.queued != [] {
      var s1 := Apply(s, DoDequeue(task));
      if Next(s.store) in s.store.records {
        var taken := s.store.records[Next(s.store)].job;
        assert s1.held - {task} == s.held;
        if fits {
          var s2 := Apply(s1, DoStart(task));
          assert s2.held - {task} == s.held;
          assert [DoStart(task), DoEnd(task, outcome)][1..] == [DoEnd(task, outcome)];
          assert Leads(s1, [DoStart(task), DoEnd(task, outcome)], Apply(s2, DoEnd(task, outcome)));
        }
      }
      assert s1.store == Dequeue(s.store);
    }
  }

  /** Under exclusive ownership the record is always there, and the turn is a dequeue, a start and an end. */
  lemma ProcessIsThreeSteps(s: System, task: Task, outcome: Outcome)
    requires Owned(s) && Enabled(s, DoDequeue(task)) && OutcomeOk(s.store, outcome)
    ensures Enabled(Apply(s, DoDequeue(task)), DoStart(task))
    ensures Enabled(Apply(Apply(s, DoDequeue(task)), DoStart(task)), DoEnd(task, outcome))
    ensures Apply(Apply(Apply(s, DoDequeue(task)), DoStart(task)), DoEnd(task, outcome)).store ==
        Process(s.store, true, outcome)
  {
    DequeueKeeps(s, task);
    assert Tidy(s.store, Next(s.store));
    DequeueEffect(s.store);
    assert Next(s.store) in s.store.records by {
      UnheldUnlessAnchored(s, Next(s.store));
    }
  }

  /** A turn that ends the job for good leaves nothing of the id it took. */
  lemma ProcessSettles(s: System, task: Task, outcome: Outcome)
    requires Owned(s) && Enabled(s, DoDequeue(task)) && OutcomeOk(s.store, outcome)
    requires Next(s.store) in s.store.records
    requires Settles(Started(s.store.records[Next(s.store)].job), outcome)
    ensures Next(s.store) !in Process(s.store, true, outcome).incomplete
    ensures Occurrences(Process(s.store, true, outcome), Next(s.store)) == 0
  {
    var id, s1 := Next(s.store), Apply(s, DoDequeue(task));
    assert Tidy(s.store, id);
    ProcessIsThreeSteps(s, task, outcome);
    DequeueKeeps(s, task);
    StartKeeps(s1, DoStart(task));
    var s2 := Apply(s1, DoStart(task));
    assert Holds(s2, task, id);
    EndingLeavesNothing(s2, DoEnd(task, outcome), id);
  }

  /**
   * A whole sweep, which judges every listed id by a job it read before the first of them was
   * settled, keeps ownership exclusive when no run holds an id it reports; the ids it has not
   * reached yet are as they were.
   */
  lemma {:induction false} SweepKeepsOwnership(s: System, n: nat, overdue: set<Id>)
    requires Owned(s) && n <= |s.store.active|
    requires forall id :: id in Swept(s.store.active[..n], s.store.records, overdue) ==> !IsHeld(s, id)
    ensures var s' := System(SweepAll(s.store, s.store.active[..n], s.store.records, overdue), s.held);
      && Owned(s')
      && (forall id :: id !in s.store.active[..n] ==> SameFor(s.store, s'.store, id))
      && (forall id :: id in Swept(s.store.active[..n], s.store.records, overdue) ==> Gone(s', id))
  {
    if n > 0 {
      var ids, seen := s.store.active[..n], s.store.records;
      var last := ids[n - 1];
      assert ids[..n - 1] == s.store.active[..n - 1];
      SweepKeepsOwnership(s, n - 1, overdue);
      var s1 := System(SweepAll(s.store, ids[..n - 1], seen, overdue), s.held);
      ListedOnce(s, n - 1);
      assert SameFor(s.store, s1.store, last);
      CountPositive(s.store.active, last);
      CountPositive(s1.store.active, last);
      SweepLast(s, s1, n, overdue);
    } else {
      assert s.store.active[..0] == [];
    }
  }

  /** Under exclusive ownership an active id is listed only once. */
  lemma ListedOnce(s: System, k: nat)
    requires Owned(s) && k < |s.store.active|
    ensures s.store.active[k] !in s.store.active[..k]
  {
    var id := s.store.active[k];
    assert Tidy(s.store, id);
    assert s.store.active == s.store.active[..k] + s.store.active[k..];
    CountConcat(s.store.active[..k], s.store.active[k..], id);
    CountPositive(s.store.active[..k], id);
    CountPositive(s.store.active[k..], id);
    assert s.store.active[k..][0] == id;
  }

  /** The last listed id is settled; those settled before stay gone. */
  lemma SweepLast(s: System, s1: System, n: nat, overdue: set<Id>)
    requires Owned(s) && 0 < n <= |s.store.active| && Owned(s1) && s1.held == s.held
    requires s1.store == SweepAll(s.store, s.store.active[..n - 1], s.store.records, overdue)
    requires s.store.active[n - 1] in s1.store.active && SameFor(s.store, s1.store, s.store.active[n - 1])
    requires forall id :: id in Swept(s.store.active[..n], s.store.records, overdue) ==> !IsHeld(s, id)
    requires forall id :: id !in s.store.active[..n - 1] ==> SameFor(s.store, s1.store, id)
    requires forall id :: id in Swept(s.store.active[..n - 1], s.store.records, overdue) ==> Gone(s1, id)
    ensures var s' := System(SweepAll(s.store, s.store.active[..n], s.store.records, overdue), s.held);
      && Owned(s')
      && (forall id :: id !in s.store.active[..n] ==> SameFor(s.store, s'.store, id))
      && (forall id :: id in Swept(s.store.active[..n], s.store.records, overdue) ==> Gone(s', id))
  {
    var ids, seen, last := s.store.active[..n], s.store.records, s.store.active[n - 1];
    assert ids[..n - 1] == s.store.active[..n - 1] && ids[n - 1] == last;
    var s' := System(SweepAll(s.store, ids, seen, overdue), s.held);
    var step := DoSweep(last, last in overdue);
    assert s' == Apply(s1, step);
    var swept := Swept(ids, seen, overdue);
    if last in swept && swept == Swept(ids[..n - 1], seen, overdue) + [last] {
      assert !IsHeld(s, last);
      forall t ensures !Holds(s1, t, last) {
        assert !Holds(s, t, last);
      }
      SweepKeeps(s1, last, last in overdue);
      SweptIsGone(s1, last, last in overdue);
      forall id | id in swept ensures Gone(s', id) {
        if id != last {
          GoneStep(s1, step, id);
        }
      }
    }
    SweepFrame(s, s1, s', n, overdue);
  }

  lemma SweepFrame(s: System, s1: System, s': System, n: nat, overdue: set<Id>)
    requires 0 < n <= |s.store.active| && Owned(s1)
    requires s' == Apply(s1, DoSweep(s.store.active[n - 1], s.store.active[n - 1] in overdue))
    requires forall id :: id !in s.store.active[..n - 1] ==> SameFor(s.store, s1.store, id)
    ensures forall id :: id !in s.store.active[..n] ==> SameFor(s.store, s'.store, id)
  {
    var last := s.store.active[n - 1];
    SweepTouches(s1.store, last, last in overdue);
    assert s.store.active[..n] == s.store.active[..n - 1] + [last];
    forall id | id !in s.store.active[..n] ensures SameFor(s.store, s'.store, id) {
      assert SameFor(s.store, s1.store, id) && SameFor(s1.store, s'.store, id);
    }
  }

  lemma SweepTouches(s: Store, id: Id, overdue: bool)
    requires Tidy(s, id)
    ensures TouchesOnly(s, SweepOne(s, id, overdue), id)
  {
    if id in s.records {
      FinishEffect(s, s.records[id].job, Aborted);
    } else {
      SweepMissingEffect(s, id, overdue);
    }
  }
}

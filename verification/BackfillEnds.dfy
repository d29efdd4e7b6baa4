/** How backfill jobs end: with their finalization or without, and with which ids and pages left behind for good. */
module BackfillEnds {
  import opened Prelude
  import opened Backfill
  import opened BackfillJob
  import opened BackfillRuns
  import opened BackfillClean

  /** Nothing more can be executed. */
  ghost predicate Over(job: Job) { forall c: Choice :: !Executes(job, c) }

  lemma {:induction false} OverExactlyWhen(job: Job)
    ensures Over(job) <==> job.ended || Drained(job)
  {
    if !job.ended && !Drained(job) {
      var i :| 0 <= i < |job.entries| && !job.entries[i].done;
      assert Executes(job, Choice(i, 0, (k: nat) => Report(Settled, 0), Page([], None)));
    }
  }

  /** What is pending when the finalization is executed stays so. */
  lemma {:induction false} EndedForGood(job: Job, maxAttempts: nat, choices: seq<Choice>)
    requires job.ended
    ensures Run(job, maxAttempts, choices) == job
    decreases |choices|
  {
    if choices != [] {
      EndedForGood(job, maxAttempts, choices[..|choices| - 1]);
    }
  }

  // ---- a job is terminal exactly when its finalization is done ----

  ghost predicate Finalized(entries: seq<Entry>) {
    exists i :: 0 <= i < |entries| && entries[i].done && entries[i].work.Finalization?
  }

  lemma FinalizedSnoc(entries: seq<Entry>, e: Entry)
    requires !e.done
    ensures Finalized(entries + [e]) <==> Finalized(entries)
  {
    var more := entries + [e];
    if i :| 0 <= i < |entries| && entries[i].done && entries[i].work.Finalization? {
      assert more[i] == entries[i];
    }
  }

  lemma OptionKeepsEnd(job: Job, o: Option<Order>)
    ensures var r := EnqueueOption(job, o); r.ended == job.ended && (Finalized(r.entries) <==> Finalized(job.entries))
  {
    if o.Some? {
      FinalizedSnoc(job.entries, Entry(o.value.key, o.value.work, false));
    }
  }

  lemma {:induction false} SpawnKeepsEnd(job: Job, s: Spawn, parent: nat)
    ensures var r := EnqueueSpawn(job, s, parent);
            r.ended == job.ended && (Finalized(r.entries) <==> Finalized(job.entries))
  {
    var one := EnqueueOption(job, RetryOrder(s));
    OptionKeepsEnd(job, RetryOrder(s));
    OptionKeepsEnd(one, ContinuationOrder(s, parent));
    OptionKeepsEnd(EnqueueOption(one, ContinuationOrder(s, parent)), NextOrder(s));
  }

  lemma {:induction false} ClosedEnds(job: Job, c: Choice)
    requires Executes(job, c)
    ensures Finalized(Closed(job, c).entries) <==> Finalized(job.entries) || job.entries[c.index].work.Finalization?
  {
    var closed := Closed(job, c).entries;
    if i :| 0 <= i < |job.entries| && job.entries[i].done && job.entries[i].work.Finalization? {
      assert closed[i] == job.entries[i];
    }
    if job.entries[c.index].work.Finalization? {
      assert closed[c.index].done && closed[c.index].work.Finalization?;
    }
  }

  lemma {:induction false} StepEnds(job: Job, maxAttempts: nat, c: Choice)
    requires job.ended <==> Finalized(job.entries)
    ensures var next := Step(job, maxAttempts, c); next.ended <==> Finalized(next.entries)
  {
    if Executes(job, c) {
      ClosedEnds(job, c);
      match job.entries[c.index].work
      case Finalization =>
      case Discovery(_) => OptionKeepsEnd(Discovered(job, c), Some(PageOrder(c.page)));
      case Resolve(_) => SpawnKeepsEnd(Resolved(job, maxAttempts, c), Spawned(job, maxAttempts, c), c.index);
    }
  }

  lemma {:induction false} RunEnds(cursor: string, maxAttempts: nat, choices: seq<Choice>)
    ensures var r := Run(Initial(cursor), maxAttempts, choices); r.ended <==> Finalized(r.entries)
    decreases |choices|
  {
    if choices != [] {
      var front := choices[..|choices| - 1];
      RunEnds(cursor, maxAttempts, front);
      StepEnds(Run(Initial(cursor), maxAttempts, front), maxAttempts, choices[|choices| - 1]);
    }
  }

  /**
   * A job that can execute nothing more is terminal exactly when a finalization was created; and it is not, exactly
   * when all its tasks are done and more duties were missed than deferred batches strayed.
   */
  lemma {:induction false} OverJobEndsExactlyWhen(cursor: string, maxAttempts: nat, choices: seq<Choice>)
    requires Over(Run(Initial(cursor), maxAttempts, choices))
    ensures var r := Run(Initial(cursor), maxAttempts, choices);
            && (r.ended <==> Known(r.entries, FinalizeKey))
            && (!r.ended <==> Drained(r) && Ignored(r) > r.tally.strays)
  {
    var r := Run(Initial(cursor), maxAttempts, choices);
    OverExactlyWhen(r);
    RunEnds(cursor, maxAttempts, choices);
    RunIsSound(cursor, maxAttempts, choices);
    FinalizedIsKnown(r);
    if Drained(r) {
      DrainedJobFinalizesExactlyWhen(cursor, maxAttempts, choices);
    }
  }

  lemma FinalizedIsKnown(job: Job)
    requires Sound(job)
    ensures Finalized(job.entries) ==> Known(job.entries, FinalizeKey)
    ensures Drained(job) && Known(job.entries, FinalizeKey) ==> Finalized(job.entries)
  {
    if i :| 0 <= i < |job.entries| && job.entries[i].done && job.entries[i].work.Finalization? {
      assert IsProper(job.entries[i].key, job.entries[i].work);
    }
    if i :| 0 <= i < |job.entries| && job.entries[i].key == FinalizeKey {
      assert IsProper(job.entries[i].key, job.entries[i].work);
    }
  }

  // ---- ids that are left behind ----

  /** The id stands in a batch that waits. */
  ghost predicate Waits(entries: seq<Entry>, x: string) {
    exists i :: 0 <= i < |entries| && !entries[i].done && x in IdsOf(entries[i].work)
  }

  /** The id stands in a batch that was not enqueued. */
  ghost predicate Missed(job: Job, x: string) { InSome(job.tally.missed, x) }

  lemma {:induction false} WaitsExactlyWhen(entries: seq<Entry>, x: string)
    ensures Waits(entries, x) <==> Total(OCC(x), entries) > 0
  {
    if i :| 0 <= i < |entries| && !entries[i].done && x in IdsOf(entries[i].work) {
      TotalAtLeast(OCC(x), entries, i);
    } else {
      TotalZero(OCC(x), entries);
    }
  }

  ghost predicate InSome(works: seq<Work>, x: string) { exists i :: 0 <= i < |works| && x in IdsOf(works[i]) }

  lemma {:induction false} SumAtLeast(weight: Work -> nat, works: seq<Work>, i: nat)
    requires i < |works|
    ensures Sum(weight, works) >= weight(works[i])
    decreases |works|
  {
    if i < |works| - 1 {
      SumAtLeast(weight, works[..|works| - 1], i);
    }
  }

  lemma {:induction false} SumZero(weight: Work -> nat, works: seq<Work>)
    requires forall i :: 0 <= i < |works| ==> weight(works[i]) == 0
    ensures Sum(weight, works) == 0
    decreases |works|
  {
    if works != [] {
      SumZero(weight, works[..|works| - 1]);
    }
  }

  lemma {:induction false} MissedExactlyWhen(works: seq<Work>, x: string)
    ensures InSome(works, x) <==> Sum(OCC(x), works) > 0
  {
    if i :| 0 <= i < |works| && x in IdsOf(works[i]) {
      SumAtLeast(OCC(x), works, i);
    } else {
      SumZero(OCC(x), works);
    }
  }

  /** An id that is not complete was discovered exactly if it stands in a batch that waits or was missed. */
  lemma {:induction false} IncompleteExactlyWhen(cursor: string, maxAttempts: nat, choices: seq<Choice>, x: string)
    requires x !in Run(Initial(cursor), maxAttempts, choices).log
    ensures var r := Run(Initial(cursor), maxAttempts, choices);
            x in r.tally.discovered <==> Waits(r.entries, x) || Missed(r, x)
  {
    var r := Run(Initial(cursor), maxAttempts, choices);
    RunConserves(cursor, maxAttempts, choices);
    WaitsExactlyWhen(r.entries, x);
    MissedExactlyWhen(r.tally.missed, x);
    assert multiset(r.log)[x] == 0;
    assert r.tally.discovered[x] <= Held(r, x);
  }

  ghost predicate AllComplete(job: Job) { forall x :: x in job.tally.discovered ==> x in job.log }

  /**
   * In every run all discovered ids are complete exactly when every id that waits or was missed is complete elsewhere.
   */
  lemma {:induction false} AllCompleteExactlyWhen(cursor: string, maxAttempts: nat, choices: seq<Choice>)
    ensures var r := Run(Initial(cursor), maxAttempts, choices);
            AllComplete(r) <==> forall x :: Waits(r.entries, x) || Missed(r, x) ==> x in r.log
  {
    var r := Run(Initial(cursor), maxAttempts, choices);
    forall x | x !in r.log ensures x in r.tally.discovered <==> Waits(r.entries, x) || Missed(r, x) {
      IncompleteExactlyWhen(cursor, maxAttempts, choices, x);
    }
  }

  /**
   * Without a cut-off after a failure they are complete, each as often as discovered, exactly when none waits or was
   * missed.
   */
  lemma {:induction false} CompleteOnceExactlyWhen(cursor: string, maxAttempts: nat, choices: seq<Choice>)
    requires NeverCutsOff(cursor, maxAttempts, choices)
    ensures var r := Run(Initial(cursor), maxAttempts, choices);
            multiset(r.log) == r.tally.discovered <==> forall x :: !Waits(r.entries, x) && !Missed(r, x)
  {
    var r := Run(Initial(cursor), maxAttempts, choices);
    RunConserves(cursor, maxAttempts, choices);
    forall x ensures r.tally.discovered[x]
      == multiset(r.log)[x] + Total(OCC(x), r.entries) + Sum(OCC(x), r.tally.missed)
                     && (Waits(r.entries, x) <==> Total(OCC(x), r.entries) > 0)
                     && (Missed(r, x) <==> Sum(OCC(x), r.tally.missed) > 0) {
      assert r.tally.discovered[x] == Held(r, x);
      WaitsExactlyWhen(r.entries, x);
      MissedExactlyWhen(r.tally.missed, x);
    }
    if multiset(r.log) == r.tally.discovered {
      forall x ensures !Waits(r.entries, x) && !Missed(r, x) {
        assert multiset(r.log)[x] == r.tally.discovered[x];
      }
    }
    if forall x :: !Waits(r.entries, x) && !Missed(r, x) {
      forall x ensures multiset(r.log)[x] == r.tally.discovered[x] {
        assert !Waits(r.entries, x) && !Missed(r, x);
      }
    }
  }

  // ---- the execution of the finalization ----

  predicate Finalizes(job: Job, c: Choice) { Executes(job, c) && job.entries[c.index].work.Finalization? }

  lemma {:induction false} FinalizationLeaves(job: Job, maxAttempts: nat, c: Choice)
    requires Finalizes(job, c)
    ensures var after := Step(job, maxAttempts, c);
            && after.ended && after.log == job.log && after.tally == job.tally
            && (forall x :: Waits(after.entries, x) <==> Waits(job.entries, x))
            && (WorkPending(after.entries) <==> WorkPending(job.entries))
  {
    var after := Step(job, maxAttempts, c);
    assert after.entries == Closed(job, c).entries;
    forall x ensures Waits(after.entries, x) <==> Waits(job.entries, x) {
      TotalDone(OCC(x), job.entries, c.index);
      WaitsExactlyWhen(job.entries, x);
      WaitsExactlyWhen(after.entries, x);
    }
    SameWork(job.entries, c.index);
  }

  lemma SameWork(entries: seq<Entry>, k: nat)
    requires k < |entries| && entries[k].work.Finalization?
    ensures WorkPending(entries[k := entries[k].(done := true)]) <==> WorkPending(entries)
  {
    var closed := entries[k := entries[k].(done := true)];
    if i :| 0 <= i < |entries| && !entries[i].done && !entries[i].work.Finalization? {
      assert closed[i] == entries[i];
    }
    if i :| 0 <= i < |closed| && !closed[i].done && !closed[i].work.Finalization? {
      assert closed[i] == entries[i];
    }
  }

  /**
   * The execution of the finalization: whatever is chosen afterwards, the ids that are discovered and not complete are
   * for good those of the batches that wait or were missed before; and work is left behind exactly when more deferred
   * batches had strayed than duties were missed and calls repeated, or a deferred batch waits.
   */
  lemma {:induction false} FinalizationLosesExactly(
    cursor: string, maxAttempts: nat, choices: seq<Choice>, c: Choice, later: seq<Choice>)
    requires Finalizes(Run(Initial(cursor), maxAttempts, choices), c)
    ensures var before := Run(Initial(cursor), maxAttempts, choices);
            var end := Run(Step(before, maxAttempts, c), maxAttempts, later);
            && end.ended && end.log == before.log && end.tally == before.tally
            && (forall x :: x !in end.log ==>
                  (x in end.tally.discovered <==> Waits(before.entries, x) || Missed(before, x)))
            && (WorkPending(end.entries)
                <==> 1 + before.tally.strays > before.tally.calls + Ignored(before) || DeferredPending(before.entries))
  {
    var before := Run(Initial(cursor), maxAttempts, choices);
    FinalizationLeaves(before, maxAttempts, c);
    EndedForGood(Step(before, maxAttempts, c), maxAttempts, later);
    forall x | x !in before.log ensures x in before.tally.discovered
      <==> Waits(before.entries, x) || Missed(before, x) {
      IncompleteExactlyWhen(cursor, maxAttempts, choices, x);
    }
    DutiesBalance(cursor, maxAttempts, choices);
    PendingExactlyWhen(before.entries);
    PendingKinds(before.entries);
  }

  // ---- clean jobs ----

  ghost predicate BatchPending(entries: seq<Entry>) {
    exists i :: 0 <= i < |entries| && !entries[i].done && entries[i].work.Resolve?
  }

  ghost predicate DiscoveryPending(entries: seq<Entry>) {
    exists i :: 0 <= i < |entries| && !entries[i].done && entries[i].work.Discovery?
  }

  lemma {:induction false} BatchesHaveIds(job: Job)
    requires Sound(job)
    ensures BatchPending(job.entries) <==> exists x :: Waits(job.entries, x)
  {
    if i :| 0 <= i < |job.entries| && !job.entries[i].done && job.entries[i].work.Resolve? {
      assert IsProper(job.entries[i].key, job.entries[i].work);
      assert Waits(job.entries, IdsOf(job.entries[i].work)[0]);
    }
  }

  lemma CleanNeverCutsOff(cursor: string, maxAttempts: nat, choices: seq<Choice>)
    requires CleanRun(cursor, maxAttempts, choices)
    ensures NeverCutsOff(cursor, maxAttempts, choices)
    decreases |choices|
  {
    if choices != [] {
      CleanNeverCutsOff(cursor, maxAttempts, choices[..|choices| - 1]);
    }
  }

  lemma {:induction false} CleanMissesNoId(cursor: string, maxAttempts: nat, choices: seq<Choice>, x: string)
    requires CleanRun(cursor, maxAttempts, choices)
    ensures !Missed(Run(Initial(cursor), maxAttempts, choices), x)
  {
    var r := Run(Initial(cursor), maxAttempts, choices);
    CleanRunsMissNothing(cursor, maxAttempts, choices);
    MissedExactlyWhen(r.tally.missed, x);
    assert Sum(OCC(x), r.tally.missed) == 0;
  }

  /**
   * A clean job that can execute nothing more is terminal. It has completed every discovered id, each once, exactly
   * when no batch was left waiting, and the ids it has lost are those of the waiting batches. It has also left no page,
   * exactly when the finalization was called for once for every deferred batch that strayed and once more, and no
   * deferred batch waits.
   */
  lemma {:induction false} CleanJobCompletesExactlyWhen(cursor: string, maxAttempts: nat, choices: seq<Choice>)
    requires CleanRun(cursor, maxAttempts, choices) && Over(Run(Initial(cursor), maxAttempts, choices))
    ensures var r := Run(Initial(cursor), maxAttempts, choices);
            && r.ended && (forall x :: multiset(r.log)[x] <= 1)
            && (multiset(r.log) == r.tally.discovered <==> !BatchPending(r.entries))
            && (forall x :: x in r.tally.discovered && x !in r.log <==> Waits(r.entries, x))
            && (!BatchPending(r.entries) && !DiscoveryPending(r.entries)
                <==> r.tally.calls == 1 + r.tally.strays && !DeferredPending(r.entries))
  {
    var r := Run(Initial(cursor), maxAttempts, choices);
    CleanRunIsSettled(cursor, maxAttempts, choices);
    CleanRunsMissNothing(cursor, maxAttempts, choices);
    OverJobEndsExactlyWhen(cursor, maxAttempts, choices);
    CleanNeverCutsOff(cursor, maxAttempts, choices);
    CompleteOnceExactlyWhen(cursor, maxAttempts, choices);
    forall x ensures !Missed(r, x) && multiset(r.log)[x] <= 1
      && (x in r.tally.discovered && x !in r.log <==> Waits(r.entries, x)) {
      CleanMissesNoId(cursor, maxAttempts, choices, x);
      CleanIdIsLostExactlyWhen(cursor, maxAttempts, choices, x);
    }
    BatchesHaveIds(r);
    DutiesBalance(cursor, maxAttempts, choices);
    PendingExactlyWhen(r.entries);
    PendingKinds(r.entries);
    WorkIsBatchOrDiscovery(r.entries);
  }

  lemma WorkIsBatchOrDiscovery(entries: seq<Entry>)
    ensures WorkPending(entries) <==> BatchPending(entries) || DiscoveryPending(entries)
  {
  }

  lemma {:induction false} CleanIdIsLostExactlyWhen(cursor: string, maxAttempts: nat, choices: seq<Choice>, x: string)
    requires CleanRun(cursor, maxAttempts, choices)
    ensures var r := Run(Initial(cursor), maxAttempts, choices);
            multiset(r.log)[x] <= 1 && (x in r.tally.discovered && x !in r.log <==> Waits(r.entries, x))
  {
    var r := Run(Initial(cursor), maxAttempts, choices);
    CleanRunIsSettled(cursor, maxAttempts, choices);
    CleanRunsMissNothing(cursor, maxAttempts, choices);
    WaitsExactlyWhen(r.entries, x);
    assert Sum(OCC(x), r.tally.missed) == 0;
    assert r.tally.discovered[x] == Held(r, x) <= 1;
    assert x in r.log <==> multiset(r.log)[x] > 0;
  }

  /**
   * The execution of the finalization of a clean job, seen before it: whatever is chosen afterwards, the job has
   * completed every discovered id exactly when no batch waits, and leaves no work of any kind exactly when the
   * finalization was called for once for every deferred batch that strayed and once more, and no deferred batch waits.
   */
  lemma {:induction false} CleanFinalizationLosesExactly(
    cursor: string, maxAttempts: nat, choices: seq<Choice>, c: Choice, later: seq<Choice>)
    requires CleanRun(cursor, maxAttempts, choices) && Finalizes(Run(Initial(cursor), maxAttempts, choices), c)
    ensures var before := Run(Initial(cursor), maxAttempts, choices);
            var end := Run(Step(before, maxAttempts, c), maxAttempts, later);
            && (multiset(end.log) == end.tally.discovered <==> !BatchPending(before.entries))
            && (forall x :: x in end.tally.discovered && x !in end.log <==> Waits(before.entries, x))
            && (!WorkPending(end.entries)
                <==> before.tally.calls == 1 + before.tally.strays && !DeferredPending(before.entries))
  {
    var before := Run(Initial(cursor), maxAttempts, choices);
    FinalizationLosesExactly(cursor, maxAttempts, choices, c, later);
    CleanRunsMissNothing(cursor, maxAttempts, choices);
    CleanNeverCutsOff(cursor, maxAttempts, choices);
    CompleteOnceExactlyWhen(cursor, maxAttempts, choices);
    RunIsSound(cursor, maxAttempts, choices);
    BatchesHaveIds(before);
    DutiesBalance(cursor, maxAttempts, choices);
    forall x ensures !Missed(before, x)
      && (x in before.tally.discovered && x !in before.log <==> Waits(before.entries, x)) {
      CleanMissesNoId(cursor, maxAttempts, choices, x);
      CleanIdIsLostExactlyWhen(cursor, maxAttempts, choices, x);
    }
  }
}

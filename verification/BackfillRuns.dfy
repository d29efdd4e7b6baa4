/** Whole backfill jobs: what every run keeps of its ids, and of the duty to start the next phase. */
module BackfillRuns {
  import opened Prelude
  import opened Backfill
  import opened BackfillLaws
  import opened BackfillJob

  // ---- sums over the pending work ----

  function Weight(weight: Work -> nat, e: Entry): nat { if e.done then 0 else weight(e.work) }

  function Total(weight: Work -> nat, entries: seq<Entry>): nat {
    if entries == [] then 0 else Total(weight, entries[..|entries| - 1]) + Weight(weight, entries[|entries| - 1])
  }

  function Sum(weight: Work -> nat, works: seq<Work>): nat {
    if works == [] then 0 else Sum(weight, works[..|works| - 1]) + weight(works[|works| - 1])
  }

  function OptionWeight(weight: Work -> nat, o: Option<Order>): nat { if o.None? then 0 else weight(o.value.work) }

  lemma TotalSnoc(weight: Work -> nat, entries: seq<Entry>, e: Entry)
    ensures Total(weight, entries + [e]) == Total(weight, entries) + Weight(weight, e)
  {
    assert (entries + [e])[..|entries|] == entries;
  }

  lemma SumSnoc(weight: Work -> nat, works: seq<Work>, w: Work)
    ensures Sum(weight, works + [w]) == Sum(weight, works) + weight(w)
  {
    assert (works + [w])[..|works|] == works;
  }

  lemma {:induction false} TotalDone(weight: Work -> nat, entries: seq<Entry>, i: nat)
    requires i < |entries| && !entries[i].done
    ensures Total(weight, entries[i := entries[i].(done := true)]) + weight(entries[i].work) == Total(weight, entries)
    decreases |entries|
  {
    var front, closed := entries[..|entries| - 1], entries[i].(done := true);
    if i < |front| {
      TotalDone(weight, front, i);
      assert entries[i := closed][..|front|] == front[i := closed];
    } else {
      assert entries[i := closed][..|front|] == front;
    }
  }

  lemma {:induction false} TotalAtLeast(weight: Work -> nat, entries: seq<Entry>, i: nat)
    requires i < |entries|
    ensures Total(weight, entries) >= Weight(weight, entries[i])
    decreases |entries|
  {
    if i < |entries| - 1 {
      TotalAtLeast(weight, entries[..|entries| - 1], i);
    }
  }

  /** Two different pending tasks. */
  lemma TotalOfTwo(weight: Work -> nat, entries: seq<Entry>, i: nat, j: nat)
    requires i < |entries| && j < |entries| && i != j && !entries[i].done
    ensures Total(weight, entries) >= weight(entries[i].work) + Weight(weight, entries[j])
  {
    TotalDone(weight, entries, i);
    TotalAtLeast(weight, entries[i := entries[i].(done := true)], j);
  }

  lemma {:induction false} TotalZero(weight: Work -> nat, entries: seq<Entry>)
    requires forall i :: 0 <= i < |entries| ==> Weight(weight, entries[i]) == 0
    ensures Total(weight, entries) == 0
    decreases |entries|
  {
    if entries != [] {
      TotalZero(weight, entries[..|entries| - 1]);
    }
  }

  /** The work that is pending and the work that was missed. */
  function Stock(weight: Work -> nat, job: Job): nat { Total(weight, job.entries) + Sum(weight, job.tally.missed) }

  lemma EnqueueStock(weight: Work -> nat, job: Job, o: Order)
    ensures Stock(weight, Enqueue(job, o)) == Stock(weight, job) + weight(o.work)
  {
    if Known(job.entries, o.key) {
      SumSnoc(weight, job.tally.missed, o.work);
    } else {
      TotalSnoc(weight, job.entries, Entry(o.key, o.work, false));
    }
  }

  lemma {:induction false} SpawnStock(weight: Work -> nat, job: Job, s: Spawn, parent: nat)
    ensures Stock(weight, EnqueueSpawn(job, s, parent)) == Stock(weight, job) + OptionWeight(weight, RetryOrder(s))
            + OptionWeight(weight, ContinuationOrder(s, parent)) + OptionWeight(weight, NextOrder(s))
  {
    OptionStock(weight, job, RetryOrder(s));
    var one := EnqueueOption(job, RetryOrder(s));
    OptionStock(weight, one, ContinuationOrder(s, parent));
    OptionStock(weight, EnqueueOption(one, ContinuationOrder(s, parent)), NextOrder(s));
  }

  lemma OptionStock(weight: Work -> nat, job: Job, o: Option<Order>)
    ensures Stock(weight, EnqueueOption(job, o)) == Stock(weight, job) + OptionWeight(weight, o)
  {
    if o.Some? {
      EnqueueStock(weight, job, o.value);
    }
  }

  lemma ClosedStock(weight: Work -> nat, job: Job, c: Choice)
    requires Executes(job, c)
    ensures Stock(weight, Closed(job, c)) + weight(job.entries[c.index].work) == Stock(weight, job)
  {
    TotalDone(weight, job.entries, c.index);
  }

  /** What the execution of a batch does to any sum. */
  lemma {:induction false} ResolveStock(weight: Work -> nat, job: Job, maxAttempts: nat, c: Choice)
    requires Resolves(job, c)
    ensures var s := Spawned(job, maxAttempts, c);
            Stock(weight, Step(job, maxAttempts, c)) + weight(job.entries[c.index].work)
            == Stock(weight, job) + OptionWeight(weight, RetryOrder(s))
               + OptionWeight(weight, ContinuationOrder(s, c.index))
               + OptionWeight(weight, NextOrder(s))
  {
    var s := Spawned(job, maxAttempts, c);
    ClosedStock(weight, job, c);
    SpawnStock(weight, Resolved(job, maxAttempts, c), s, c.index);
  }

  lemma {:induction false} DiscoverStock(weight: Work -> nat, job: Job, maxAttempts: nat, c: Choice)
    requires Executes(job, c) && job.entries[c.index].work.Discovery?
    ensures Stock(weight, Step(job, maxAttempts, c)) + weight(job.entries[c.index].work)
            == Stock(weight, job) + weight(PageOrder(c.page).work)
  {
    ClosedStock(weight, job, c);
    EnqueueStock(weight, Discovered(job, c), PageOrder(c.page));
  }

  // ---- what enqueuing leaves alone ----

  lemma OptionFrame(job: Job, o: Option<Order>)
    ensures var r := EnqueueOption(job, o);
            r.log == job.log && r.tally.discovered == job.tally.discovered && r.tally.strays == job.tally.strays
  {
  }

  lemma {:induction false} SpawnFrame(job: Job, s: Spawn, parent: nat)
    ensures var r := EnqueueSpawn(job, s, parent);
            r.log == job.log && r.tally.discovered == job.tally.discovered && r.tally.strays == job.tally.strays
  {
    var one := EnqueueOption(job, RetryOrder(s));
    OptionFrame(job, RetryOrder(s));
    OptionFrame(one, ContinuationOrder(s, parent));
    OptionFrame(EnqueueOption(one, ContinuationOrder(s, parent)), NextOrder(s));
  }

  function CallOf(w: Work): nat { if w.Finalization? then 1 else 0 }

  const CALL: Work -> nat := (w: Work) => CallOf(w)

  lemma SpawnCalls(job: Job, s: Spawn, parent: nat)
    ensures EnqueueSpawn(job, s, parent).tally.calls == job.tally.calls + OptionWeight(CALL, NextOrder(s))
  {
  }

  // ---- the shape of a job ----

  /**
   * Batches are inhabited, deferred ones have no cursor, and the keys of discoveries and finalizations tell what they
   * are.
   */
  predicate IsProper(key: Key, w: Work) {
    && (w.Resolve? ==> w.task.ids != [] && Clean(w.task.ids) == w.task.ids && BatchIds(w.task.ids) == w.task.ids)
    && (w.Resolve? && w.task.deferred ==> w.task.cursor.None?)
    && (w.Resolve? <==> key.ResolveKey?)
    && (w.Finalization? <==> key.FinalizeKey?)
    && (w.Discovery? ==> key == DiscoverKey(w.cursor))
  }

  ghost predicate Proper(entries: seq<Entry>) {
    forall i :: 0 <= i < |entries| ==> IsProper(entries[i].key, entries[i].work)
  }

  ghost predicate KeysDiffer(entries: seq<Entry>) {
    forall i, j :: 0 <= i < j < |entries| ==> entries[i].key != entries[j].key
  }

  ghost predicate Sound(job: Job) {
    Proper(job.entries) && KeysDiffer(job.entries) && (job.tally.calls > 0 <==> Known(job.entries, FinalizeKey))
  }

  ghost predicate ProperOption(o: Option<Order>) { o.Some? ==> IsProper(o.value.key, o.value.work) }

  lemma {:induction false} KnownSnoc(entries: seq<Entry>, e: Entry, key: Key)
    ensures Known(entries + [e], key) <==> Known(entries, key) || e.key == key
  {
    var more := entries + [e];
    if Known(entries, key) {
      var i :| 0 <= i < |entries| && entries[i].key == key;
      assert more[i].key == key;
    }
    if e.key == key {
      assert more[|entries|].key == key;
    }
  }

  lemma {:induction false} EnqueueKeepsSound(job: Job, o: Order)
    requires Sound(job) && IsProper(o.key, o.work)
    ensures Sound(Enqueue(job, o))
  {
    KnownSnoc(job.entries, Entry(o.key, o.work, false), FinalizeKey);
  }

  lemma {:induction false} ClosedKeepsSound(job: Job, c: Choice)
    requires Sound(job) && Executes(job, c)
    ensures Sound(Closed(job, c))
  {
    forall key ensures Known(Closed(job, c).entries, key) <==> Known(job.entries, key) {
      KnownClosed(job, c, key);
    }
  }

  lemma KnownClosed(job: Job, c: Choice, key: Key)
    requires Executes(job, c)
    ensures Known(Closed(job, c).entries, key) <==> Known(job.entries, key)
  {
    var closed := Closed(job, c).entries;
    assert forall i :: 0 <= i < |closed| ==> closed[i].key == job.entries[i].key;
  }

  lemma {:induction false} SpawnIsProper(task: Task, maxAttempts: nat, started: int, reports: nat -> Report,
                                         parent: nat)
    requires BatchIds(task.ids) != [] && (task.deferred ==> task.cursor.None?)
    ensures var s := Execution(task, maxAttempts, started, reports);
            ProperOption(RetryOrder(s)) && ProperOption(ContinuationOrder(s, parent)) && ProperOption(NextOrder(s))
  {
    var s := Execution(task, maxAttempts, started, reports);
    SpawnShape(task, maxAttempts, started, reports);
    SpawnedBatches(task, maxAttempts, started, reports);
    BatchIdsOfBatch(Ids(s.retry));
    BatchIdsOfBatch(Ids(s.continuation));
  }

  lemma PageIsProper(page: Page)
    ensures IsProper(PageOrder(page).key, PageOrder(page).work)
  {
    BatchIdsAreABatch(page.ids);
    BatchIdsOfBatch(BatchIds(page.ids));
  }

  lemma EnqueueSpawnKeepsSound(job: Job, s: Spawn, parent: nat)
    requires Sound(job) && ProperOption(RetryOrder(s)) && ProperOption(ContinuationOrder(s, parent))
             && ProperOption(NextOrder(s))
    ensures Sound(EnqueueSpawn(job, s, parent))
  {
    var one := EnqueueOption(job, RetryOrder(s));
    if RetryOrder(s).Some? {
      EnqueueKeepsSound(job, RetryOrder(s).value);
    }
    var two := EnqueueOption(one, ContinuationOrder(s, parent));
    if ContinuationOrder(s, parent).Some? {
      EnqueueKeepsSound(one, ContinuationOrder(s, parent).value);
    }
    if NextOrder(s).Some? {
      EnqueueKeepsSound(two, NextOrder(s).value);
    }
  }

  lemma {:induction false} StepKeepsSound(job: Job, maxAttempts: nat, c: Choice)
    requires Sound(job)
    ensures Sound(Step(job, maxAttempts, c))
  {
    if Executes(job, c) {
      ClosedKeepsSound(job, c);
      match job.entries[c.index].work
      case Finalization =>
      case Discovery(_) =>
        PageIsProper(c.page);
        EnqueueKeepsSound(Discovered(job, c), PageOrder(c.page));
      case Resolve(task) =>
        SpawnIsProper(task, maxAttempts, c.started, c.reports, c.index);
        EnqueueSpawnKeepsSound(Resolved(job, maxAttempts, c), Spawned(job, maxAttempts, c), c.index);
    }
  }

  lemma {:induction false} RunIsSound(cursor: string, maxAttempts: nat, choices: seq<Choice>)
    ensures Sound(Run(Initial(cursor), maxAttempts, choices))
    decreases |choices|
  {
    if choices != [] {
      var front := choices[..|choices| - 1];
      RunIsSound(cursor, maxAttempts, front);
      StepKeepsSound(Run(Initial(cursor), maxAttempts, front), maxAttempts, choices[|choices| - 1]);
    }
  }

  /**
   * At most one finalization task in every run, and the branch of a deferred batch can come to nothing but finalizing.
   */
  lemma OneFinalizeTask(cursor: string, maxAttempts: nat, choices: seq<Choice>, i: nat, j: nat)
    requires var entries := Run(Initial(cursor), maxAttempts, choices).entries;
             i < |entries| && j < |entries| && entries[i].work.Finalization? && entries[j].work.Finalization?
    ensures i == j
  {
    RunIsSound(cursor, maxAttempts, choices);
  }

  lemma DeferredBranchOnlyFinalizes(cursor: string, maxAttempts: nat, choices: seq<Choice>, i: nat)
    requires i < |Run(Initial(cursor), maxAttempts, choices).entries|
    ensures var w := Run(Initial(cursor), maxAttempts, choices).entries[i].work;
            w.Resolve? && w.task.deferred ==> w.task.cursor.None?
  {
    RunIsSound(cursor, maxAttempts, choices);
  }

  // ---- ids are conserved ----

  function OCC(x: string): Work -> nat { (w: Work) => multiset(IdsOf(w))[x] }

  /** How often an id is complete, pending or missed. */
  function Held(job: Job, x: string): nat { multiset(job.log)[x] + Stock(OCC(x), job) }

  /** The one situation that hands ids on twice: a batch with attempts left meets the limit after a failure. */
  ghost predicate CutsOff(job: Job, maxAttempts: nat, c: Choice) {
    Resolves(job, c)
    && var task := job.entries[c.index].work.task;
       task.attempt < maxAttempts && LimitAfterFailure(BatchIds(task.ids), c.started, c.reports)
  }

  lemma {:induction false} ResolveHeld(job: Job, maxAttempts: nat, c: Choice, x: string)
    requires Resolves(job, c)
    ensures Held(Step(job, maxAttempts, c), x) + multiset(IdsOf(job.entries[c.index].work))[x]
            == Held(job, x) + Left(Spawned(job, maxAttempts, c))[x]
  {
    var s, task := Spawned(job, maxAttempts, c), job.entries[c.index].work.task;
    ResolveStock(OCC(x), job, maxAttempts, c);
    SpawnFrame(Resolved(job, maxAttempts, c), s, c.index);
    LogAfter(job.log, s.progress.completed);
    SpawnedBatches(task, maxAttempts, c.started, c.reports);
    BatchIdsOfBatch(Ids(s.retry));
    BatchIdsOfBatch(Ids(s.continuation));
    SpawnOccurrences(s, c.index, x);
  }

  lemma LogAfter(log: seq<string>, more: seq<string>)
    ensures multiset(log + more) == multiset(log) + multiset(more)
  {
  }

  lemma SpawnOccurrences(s: Spawn, parent: nat, x: string)
    requires BatchIds(Ids(s.retry)) == Ids(s.retry) && BatchIds(Ids(s.continuation)) == Ids(s.continuation)
    ensures OptionWeight(OCC(x), RetryOrder(s)) == multiset(Ids(s.retry))[x]
    ensures OptionWeight(OCC(x), ContinuationOrder(s, parent)) == multiset(Ids(s.continuation))[x]
    ensures OptionWeight(OCC(x), NextOrder(s)) == 0
  {
  }

  lemma PageOccurrences(page: Page, x: string)
    ensures OCC(x)(PageOrder(page).work) == multiset(BatchIds(page.ids))[x]
  {
    BatchIdsAreABatch(page.ids);
    BatchIdsOfBatch(BatchIds(page.ids));
  }

  lemma {:induction false} OtherHeld(job: Job, maxAttempts: nat, c: Choice, x: string)
    requires !Resolves(job, c)
    ensures var next := Step(job, maxAttempts, c);
            Held(next, x) + job.tally.discovered[x] == Held(job, x) + next.tally.discovered[x]
            && next.tally.discovered[x] >= job.tally.discovered[x]
  {
    if Executes(job, c) {
      if job.entries[c.index].work.Discovery? {
        DiscoverStock(OCC(x), job, maxAttempts, c);
        PageOccurrences(c.page, x);
      } else {
        ClosedStock(OCC(x), job, c);
      }
    }
  }

  ghost predicate OnlyDiscovered(job: Job) { forall x :: Held(job, x) > 0 ==> x in job.tally.discovered }

  ghost predicate Kept(job: Job) { forall x :: job.tally.discovered[x] <= Held(job, x) }

  ghost predicate Exact(job: Job) { forall x :: job.tally.discovered[x] == Held(job, x) }

  /**
   * One task: nothing is dropped, nothing comes from elsewhere, and what is held more often than before tells the
   * cut-off.
   */
  lemma {:induction false} StepConserves(job: Job, maxAttempts: nat, c: Choice)
    requires Kept(job) && OnlyDiscovered(job)
    ensures var next := Step(job, maxAttempts, c);
            Kept(next) && OnlyDiscovered(next) && (Exact(next) <==> Exact(job) && !CutsOff(job, maxAttempts, c))
  {
    if Resolves(job, c) {
      ResolveConserves(job, maxAttempts, c);
    } else {
      var next := Step(job, maxAttempts, c);
      forall x ensures Held(next, x) + job.tally.discovered[x] == Held(job, x) + next.tally.discovered[x]
                       && next.tally.discovered[x] >= job.tally.discovered[x] {
        OtherHeld(job, maxAttempts, c, x);
      }
      SameSurplus(job, next);
    }
  }

  lemma SameSurplus(job: Job, next: Job)
    requires forall x :: Held(next, x) + job.tally.discovered[x] == Held(job, x) + next.tally.discovered[x]
    requires forall x :: next.tally.discovered[x] >= job.tally.discovered[x]
    requires Kept(job) && OnlyDiscovered(job)
    ensures Kept(next) && OnlyDiscovered(next) && (Exact(next) <==> Exact(job))
  {
    if Exact(next) {
      forall x ensures job.tally.discovered[x] == Held(job, x) {
        assert next.tally.discovered[x] == Held(next, x);
      }
    }
  }

  lemma {:induction false} ResolveConserves(job: Job, maxAttempts: nat, c: Choice)
    requires Resolves(job, c) && Kept(job) && OnlyDiscovered(job)
    ensures var next := Step(job, maxAttempts, c);
            Kept(next) && OnlyDiscovered(next) && (Exact(next) <==> Exact(job) && !CutsOff(job, maxAttempts, c))
  {
    var next, task := Step(job, maxAttempts, c), job.entries[c.index].work.task;
    var s := Spawned(job, maxAttempts, c);
    SpawnFrame(Resolved(job, maxAttempts, c), s, c.index);
    TaskConserves(task, maxAttempts, c.started, c.reports);
    CutOffExactlyWhen(task, maxAttempts, c.started, c.reports);
    var ids := multiset(BatchIds(task.ids));
    forall x ensures Held(next, x) + ids[x] == Held(job, x) + Left(s)[x] && (ids[x] > 0 ==> Held(job, x) > 0) {
      ResolveHeld(job, maxAttempts, c, x);
      TotalAtLeast(OCC(x), job.entries, c.index);
    }
    MoreSurplus(job, next, ids, Left(s));
  }

  lemma MoreSurplus(job: Job, next: Job, ids: multiset<string>, left: multiset<string>)
    requires forall x :: Held(next, x) + ids[x] == Held(job, x) + left[x]
    requires forall x :: ids[x] > 0 ==> Held(job, x) > 0
    requires ids <= left && (forall x :: x in left ==> x in ids) && next.tally.discovered == job.tally.discovered
    requires Kept(job) && OnlyDiscovered(job)
    ensures Kept(next) && OnlyDiscovered(next) && (Exact(next) <==> Exact(job) && ids == left)
  {
    forall x ensures Held(next, x) >= Held(job, x) {
      assert ids[x] <= left[x];
    }
    forall x | Held(next, x) > 0 ensures x in job.tally.discovered {
      assert left[x] > 0 ==> x in left;
      assert Held(job, x) > 0;
    }
    if Exact(next) {
      forall x ensures ids[x] == left[x] && job.tally.discovered[x] == Held(job, x) {
        assert next.tally.discovered[x] == Held(next, x);
      }
      assert ids == left;
    }
  }

  ghost predicate NeverCutsOff(cursor: string, maxAttempts: nat, choices: seq<Choice>) {
    choices == [] ||
      var front, last := choices[..|choices| - 1], choices[|choices| - 1];
      NeverCutsOff(cursor, maxAttempts, front) && !CutsOff(Run(Initial(cursor), maxAttempts, front), maxAttempts, last)
  }

  lemma InitialConserves(cursor: string)
    ensures Kept(Initial(cursor)) && OnlyDiscovered(Initial(cursor)) && Exact(Initial(cursor))
  {
    forall x ensures Held(Initial(cursor), x) == 0 {
      TotalZero(OCC(x), Initial(cursor).entries);
    }
  }

  /**
   * In every run no discovered id is dropped and none appears from elsewhere; and each stands among the completed, the
   * pending and the missed ids exactly as often as it was discovered, exactly when no batch was cut off by the
   * subrequest limit after a failure.
   */
  lemma {:induction false} RunConserves(cursor: string, maxAttempts: nat, choices: seq<Choice>)
    ensures var r := Run(Initial(cursor), maxAttempts, choices);
            Kept(r) && OnlyDiscovered(r) && (Exact(r) <==> NeverCutsOff(cursor, maxAttempts, choices))
    decreases |choices|
  {
    if choices == [] {
      InitialConserves(cursor);
    } else {
      var front := choices[..|choices| - 1];
      RunConserves(cursor, maxAttempts, front);
      StepConserves(Run(Initial(cursor), maxAttempts, front), maxAttempts, choices[|choices| - 1]);
    }
  }

  // ---- the duty to start the next phase ----

  const DUTY: Work -> nat := (w: Work) => if HasDuty(w) then 1 else 0

  /** The duties that were lost to a taken key. */
  function Ignored(job: Job): nat { Sum(DUTY, job.tally.missed) }

  function Balance(job: Job): nat { Stock(DUTY, job) + job.tally.calls }

  predicate IsStray(task: Task, s: Spawn) { task.deferred && s.continuation.Some? }

  lemma {:induction false} SpawnDuties(task: Task, maxAttempts: nat, started: int, reports: nat -> Report, parent: nat)
    requires BatchIds(task.ids) != []
    ensures var s := Execution(task, maxAttempts, started, reports);
            OptionWeight(DUTY, RetryOrder(s)) + OptionWeight(DUTY, ContinuationOrder(s, parent))
            + OptionWeight(DUTY, NextOrder(s))
            + OptionWeight(CALL, NextOrder(s))
            == (if task.deferred then 0 else 1) + (if IsStray(task, s) then 1 else 0)
  {
    SpawnShape(task, maxAttempts, started, reports);
  }

  lemma {:induction false} StepBalance(job: Job, maxAttempts: nat, c: Choice)
    requires Sound(job)
    ensures var next := Step(job, maxAttempts, c); Balance(next) + job.tally.strays == Balance(job) + next.tally.strays
  {
    if Executes(job, c) {
      match job.entries[c.index].work
      case Finalization => ClosedStock(DUTY, job, c);
      case Discovery(_) => DiscoverStock(DUTY, job, maxAttempts, c);
      case Resolve(task) =>
        ResolveStock(DUTY, job, maxAttempts, c);
        SpawnDuties(task, maxAttempts, c.started, c.reports, c.index);
        SpawnFrame(Resolved(job, maxAttempts, c), Spawned(job, maxAttempts, c), c.index);
        SpawnCalls(Resolved(job, maxAttempts, c), Spawned(job, maxAttempts, c), c.index);
    }
  }

  /**
   * The pending and the missed duties and the calls for finalization are one more than the deferred batches stopped.
   */
  lemma {:induction false} DutiesBalance(cursor: string, maxAttempts: nat, choices: seq<Choice>)
    ensures var r := Run(Initial(cursor), maxAttempts, choices);
            Total(DUTY, r.entries) + Ignored(r) + r.tally.calls == 1 + r.tally.strays
    decreases |choices|
  {
    if choices == [] {
      assert Initial(cursor).entries[..0] == [];
    } else {
      var front := choices[..|choices| - 1];
      DutiesBalance(cursor, maxAttempts, front);
      RunIsSound(cursor, maxAttempts, front);
      StepBalance(Run(Initial(cursor), maxAttempts, front), maxAttempts, choices[|choices| - 1]);
    }
  }

  predicate Drained(job: Job) { forall i :: 0 <= i < |job.entries| ==> job.entries[i].done }

  /**
   * A job that has run out of work has had its finalization exactly when no more duties were missed than batches
   * strayed.
   */
  lemma DrainedJobFinalizesExactlyWhen(cursor: string, maxAttempts: nat, choices: seq<Choice>)
    requires Drained(Run(Initial(cursor), maxAttempts, choices))
    ensures var r := Run(Initial(cursor), maxAttempts, choices);
            Known(r.entries, FinalizeKey) <==> Ignored(r) <= r.tally.strays
  {
    var r := Run(Initial(cursor), maxAttempts, choices);
    DutiesBalance(cursor, maxAttempts, choices);
    RunIsSound(cursor, maxAttempts, choices);
    TotalZero(DUTY, r.entries);
  }

  /** Discoveries, and batches that are to start a phase of their own, wait. */
  ghost predicate DutyPending(entries: seq<Entry>) {
    exists i :: 0 <= i < |entries| && !entries[i].done && HasDuty(entries[i].work)
  }

  lemma {:induction false} PendingExactlyWhen(entries: seq<Entry>)
    ensures DutyPending(entries) <==> Total(DUTY, entries) > 0
  {
    if DutyPending(entries) {
      var i :| 0 <= i < |entries| && !entries[i].done && HasDuty(entries[i].work);
      TotalAtLeast(DUTY, entries, i);
    } else {
      TotalZero(DUTY, entries);
    }
  }

  lemma StepCallsOnce(job: Job, maxAttempts: nat, c: Choice)
    ensures Step(job, maxAttempts, c).tally.calls <= job.tally.calls + 1
  {
    if Resolves(job, c) {
      SpawnCalls(Resolved(job, maxAttempts, c), Spawned(job, maxAttempts, c), c.index);
    }
  }

  /** Work of any kind other than finalizing waits; and work that is not to start a phase waits. */
  ghost predicate WorkPending(entries: seq<Entry>) {
    exists i :: 0 <= i < |entries| && !entries[i].done && !entries[i].work.Finalization?
  }

  ghost predicate DeferredPending(entries: seq<Entry>) {
    exists i :: 0 <= i < |entries| && !entries[i].done && entries[i].work.Resolve? && entries[i].work.task.deferred
  }

  /** The step that creates the finalization enqueues nothing else, and misses nothing. */
  lemma {:induction false} FinalizationAlone(job: Job, maxAttempts: nat, c: Choice)
    requires Sound(job) && !Known(job.entries, FinalizeKey) && Known(Step(job, maxAttempts, c).entries, FinalizeKey)
    ensures Step(job, maxAttempts, c).tally.strays == job.tally.strays
            && Ignored(Step(job, maxAttempts, c)) == Ignored(job)
  {
    KnownClosed(job, c, FinalizeKey);
    if job.entries[c.index].work.Resolve? {
      var task, s := job.entries[c.index].work.task, Spawned(job, maxAttempts, c);
      SpawnShape(task, maxAttempts, c.started, c.reports);
      SpawnIsProper(task, maxAttempts, c.started, c.reports, c.index);
      if s.next.None? {
        SpawnCalls(Resolved(job, maxAttempts, c), s, c.index);
        StepKeepsSound(job, maxAttempts, c);
      } else {
        assert EnqueueSpawn(Resolved(job, maxAttempts, c), s, c.index)
               == Enqueue(Resolved(job, maxAttempts, c), NextOrder(s).value);
      }
    }
  }

  /**
   * The task that creates the finalization. As many duties to start a phase are pending beside it as deferred batches
   * have strayed beyond the duties missed; so other work is still pending exactly when there are such batches or
   * deferred ones wait.
   */
  lemma FinalizeIsEarlyExactlyWhen(cursor: string, maxAttempts: nat, choices: seq<Choice>, c: Choice)
    requires var before := Run(Initial(cursor), maxAttempts, choices);
             !Known(before.entries, FinalizeKey) && Known(Step(before, maxAttempts, c).entries, FinalizeKey)
    ensures var before := Run(Initial(cursor), maxAttempts, choices);
            var after := Step(before, maxAttempts, c);
            && Total(DUTY, after.entries) + Ignored(before) == before.tally.strays
            && (DutyPending(after.entries) <==> before.tally.strays > Ignored(before))
            && (WorkPending(after.entries) <==> before.tally.strays > Ignored(before) || DeferredPending(after.entries))
  {
    var before := Run(Initial(cursor), maxAttempts, choices);
    var after := Step(before, maxAttempts, c);
    RunIsSound(cursor, maxAttempts, choices);
    StepKeepsSound(before, maxAttempts, c);
    StepCallsOnce(before, maxAttempts, c);
    DutiesBalance(cursor, maxAttempts, choices);
    StepBalance(before, maxAttempts, c);
    FinalizationAlone(before, maxAttempts, c);
    PendingExactlyWhen(after.entries);
    PendingKinds(after.entries);
  }

  lemma PendingKinds(entries: seq<Entry>)
    ensures WorkPending(entries) <==> DutyPending(entries) || DeferredPending(entries)
  {
    if WorkPending(entries) {
      var i :| 0 <= i < |entries| && !entries[i].done && !entries[i].work.Finalization?;
      assert HasDuty(entries[i].work) || (entries[i].work.Resolve? && entries[i].work.task.deferred);
    }
  }
}

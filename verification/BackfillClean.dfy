/** Backfill jobs in which every page is new and no batch is cut off after a failure: their keys never clash. */
module BackfillClean {
  import opened Prelude
  import opened Ordering
  import opened Backfill
  import opened BackfillLaws
  import opened BackfillJob
  import opened BackfillRuns

  // ---- the keys that are taken ----

  /** The task of a retry key is no later attempt than a pending batch with the key's first id. */
  predicate Below(key: Key, w: Work) {
    key.ResolveKey? && key.suffix.AsRetry? && w.Resolve? && key.first in w.task.ids
    ==> key.suffix.attempt <= w.task.attempt
  }

  ghost predicate RetriesBelow(entries: seq<Entry>) {
    forall i, j :: 0 <= i < |entries| && 0 <= j < |entries| && !entries[i].done ==>
      Below(entries[j].key, entries[i].work)
  }

  predicate HasParent(key: Key, entries: seq<Entry>) {
    key.ResolveKey? && key.suffix.AsContinuation? ==> key.suffix.parent < |entries| && entries[key.suffix.parent].done
  }

  ghost predicate ParentsDone(entries: seq<Entry>) {
    forall j :: 0 <= j < |entries| ==> HasParent(entries[j].key, entries)
  }

  predicate IsDiscovered(key: Key, discovered: multiset<string>) {
    key.ResolveKey? && key.suffix.Plain? ==> key.first in discovered
  }

  ghost predicate PlainDiscovered(job: Job) {
    forall j :: 0 <= j < |job.entries| ==> IsDiscovered(job.entries[j].key, job.tally.discovered)
  }

  ghost predicate OnlyFinalizationsMissed(job: Job) {
    forall i :: 0 <= i < |job.tally.missed| ==> job.tally.missed[i].Finalization?
  }

  ghost predicate Tidy(job: Job) {
    RetriesBelow(job.entries) && ParentsDone(job.entries) && PlainDiscovered(job) && OnlyFinalizationsMissed(job)
  }

  /** An order that can be enqueued without a clash, now or later. */
  ghost predicate Fits(job: Job, o: Order) {
    && (Known(job.entries, o.key) ==> o.work.Finalization?)
    && (forall i :: 0 <= i < |job.entries| && !job.entries[i].done ==> Below(o.key, job.entries[i].work))
    && (forall j :: 0 <= j < |job.entries| ==> Below(job.entries[j].key, o.work))
    && Below(o.key, o.work) && HasParent(o.key, job.entries) && IsDiscovered(o.key, job.tally.discovered)
  }

  lemma {:induction false} FitsKeepsTidy(job: Job, o: Order)
    requires Tidy(job) && Fits(job, o)
    ensures Tidy(Enqueue(job, o))
  {
    var next := Enqueue(job, o);
    if !Known(job.entries, o.key) {
      forall j | 0 <= j < |next.entries| ensures HasParent(next.entries[j].key, next.entries) {
        assert HasParent(next.entries[j].key, job.entries);
      }
    }
  }

  // ---- executing a batch ----

  /** The ids of the batch stand in no other pending batch. */
  ghost predicate Alone(job: Job, i: nat)
    requires i < |job.entries| && job.entries[i].work.Resolve?
  {
    forall k, x :: 0 <= k < |job.entries| && k != i && !job.entries[k].done && x in IdsOf(job.entries[k].work) ==>
      x !in job.entries[i].work.task.ids
  }

  ghost predicate EachHeldOnce(job: Job) { forall x :: Held(job, x) <= 1 }

  lemma {:induction false} BatchesAreAlone(job: Job, i: nat)
    requires Sound(job) && EachHeldOnce(job) && i < |job.entries| && !job.entries[i].done
             && job.entries[i].work.Resolve?
    ensures Alone(job, i)
  {
    forall k, x | 0 <= k < |job.entries| && k != i && !job.entries[k].done && x in IdsOf(job.entries[k].work)
      ensures x !in job.entries[i].work.task.ids {
      TotalOfTwo(OCC(x), job.entries, i, k);
      assert Held(job, x) <= 1;
      assert OCC(x)(job.entries[k].work) > 0;
      assert IsProper(job.entries[i].key, job.entries[i].work);
    }
  }

  /** Batches that are retried and continued, within the batch and apart from each other. */
  ghost predicate Parted(s: Spawn, ids: seq<string>) {
    && (forall x <- Ids(s.retry) :: x in ids && x !in Ids(s.continuation))
    && (forall x <- Ids(s.continuation) :: x in ids)
  }

  lemma {:induction false} CleanSpawnIsParted(task: Task, maxAttempts: nat, started: int, reports: nat -> Report)
    requires !(task.attempt < maxAttempts && LimitAfterFailure(BatchIds(task.ids), started, reports))
    ensures Parted(Execution(task, maxAttempts, started, reports), BatchIds(task.ids))
  {
    var s, ids := Execution(task, maxAttempts, started, reports), BatchIds(task.ids);
    TaskConserves(task, maxAttempts, started, reports);
    CutOffExactlyWhen(task, maxAttempts, started, reports);
    BatchIdsAreABatch(task.ids);
    forall x | x in Ids(s.retry) || x in Ids(s.continuation)
      ensures x in ids && !(x in Ids(s.retry) && x in Ids(s.continuation)) {
      assert x in Left(s);
      DistinctOnce(ids, x);
      assert Left(s)[x] == multiset(ids)[x] <= 1;
    }
  }

  lemma {:induction false} DistinctOnce(ids: seq<string>, x: string)
    requires Distinct(ids)
    ensures multiset(ids)[x] <= 1
    decreases |ids|
  {
    if ids != [] {
      var front, last := ids[..|ids| - 1], ids[|ids| - 1];
      assert ids == front + [last];
      DistinctOnce(front, x);
      assert last !in front;
    }
  }

  lemma {:induction false} RetryFits(job: Job, closed: Job, c: Choice, o: Order, task: Task)
    requires Tidy(job) && Sound(job) && Resolves(job, c) && Alone(job, c.index)
             && task == job.entries[c.index].work.task
    requires closed.entries == Closed(job, c).entries && closed.tally.discovered == job.tally.discovered
    requires o.work.Resolve? && o.work.task.ids != [] && Clean(o.work.task.ids) == o.work.task.ids
    requires o.work.task.attempt == task.attempt + 1 && o.key == BatchKey(o.work.task.ids, AsRetry(task.attempt + 1))
    requires forall x <- o.work.task.ids :: x in task.ids
    ensures Fits(closed, o)
  {
    var entries := job.entries;
    assert o.key.first == o.work.task.ids[0] && o.key.first in o.work.task.ids;
    forall j | 0 <= j < |entries| ensures entries[j].key != o.key && Below(entries[j].key, o.work) {
      assert Below(entries[j].key, entries[c.index].work);
    }
    forall i | 0 <= i < |closed.entries| && !closed.entries[i].done ensures Below(o.key, closed.entries[i].work) {
      if entries[i].work.Resolve? {
        assert IsProper(entries[i].key, entries[i].work);
      }
    }
  }

  lemma {:induction false} ContinuationFits(job: Job, next: Job, c: Choice, o: Order, task: Task, retry: Option<Order>)
    requires Tidy(job) && Resolves(job, c) && task == job.entries[c.index].work.task
    requires next.entries
             == Closed(job, c).entries + (if retry.None? then [] else [Entry(retry.value.key, retry.value.work, false)])
    requires o.work.Resolve? && o.work.task.attempt == task.attempt
    requires o.key.ResolveKey? && o.key.suffix.AsContinuation? && o.key.suffix.parent == c.index
    requires forall x <- o.work.task.ids :: x in task.ids
    requires retry.Some? ==> retry.value.key.ResolveKey? && retry.value.key.suffix.AsRetry?
    requires retry.Some? ==> retry.value.key.first !in o.work.task.ids
    ensures Fits(next, o)
  {
    var entries := job.entries;
    forall j | 0 <= j < |entries| ensures entries[j].key != o.key && Below(entries[j].key, o.work) {
      assert HasParent(entries[j].key, entries);
      assert Below(entries[j].key, entries[c.index].work);
    }
    assert forall j :: 0 <= j < |entries| ==> next.entries[j].key == entries[j].key;
  }

  /** At most one pending batch is to discover the page at a cursor, and none once that discovery is in the table. */
  function CURSOR(cursor: string): Work -> nat {
    (w: Work) => if w.Resolve? && w.task.cursor == Some(cursor) then 1 else 0
  }

  function Taken(entries: seq<Entry>, key: Key): nat { if Known(entries, key) then 1 else 0 }

  ghost predicate CursorOnce(job: Job, cursor: string) {
    Stock(CURSOR(cursor), job) + Taken(job.entries, DiscoverKey(cursor)) <= 1
  }

  ghost predicate CursorsOnce(job: Job) { forall cursor :: CursorOnce(job, cursor) }

  lemma PhaseFits(job: Job, o: Order)
    requires !o.work.Resolve? && !o.key.ResolveKey?
    requires Known(job.entries, o.key) ==> o.work.Finalization?
    ensures Fits(job, o)
  {
  }

  lemma {:induction false} KnownSpawn(job: Job, s: Spawn, parent: nat, cursor: string)
    ensures Known(EnqueueSpawn(job, s, parent).entries, DiscoverKey(cursor))
            <==> Known(job.entries, DiscoverKey(cursor)) || s.next == Some(Discover(cursor))
  {
    var key := DiscoverKey(cursor);
    var one := EnqueueOption(job, RetryOrder(s));
    KnownOption(job, RetryOrder(s), key);
    var two := EnqueueOption(one, ContinuationOrder(s, parent));
    KnownOption(one, ContinuationOrder(s, parent), key);
    KnownOption(two, NextOrder(s), key);
  }

  lemma KnownOption(job: Job, o: Option<Order>, key: Key)
    ensures Known(EnqueueOption(job, o).entries, key) <==> Known(job.entries, key) || (o.Some? && o.value.key == key)
  {
    if o.Some? && !Known(job.entries, o.value.key) {
      KnownSnoc(job.entries, Entry(o.value.key, o.value.work, false), key);
    }
  }

  lemma {:induction false} SpawnCursors(task: Task, maxAttempts: nat, started: int, reports: nat -> Report, parent: nat,
                                        cursor: string)
    requires BatchIds(task.ids) != [] && (task.deferred ==> task.cursor.None?)
    ensures var s := Execution(task, maxAttempts, started, reports);
            OptionWeight(CURSOR(cursor), RetryOrder(s)) + OptionWeight(CURSOR(cursor), ContinuationOrder(s, parent))
            + OptionWeight(CURSOR(cursor), NextOrder(s)) + (if s.next == Some(Discover(cursor)) then 1 else 0)
            <= CURSOR(cursor)(Resolve(task))
  {
    SpawnShape(task, maxAttempts, started, reports);
  }

  lemma {:induction false} ResolveKeepsCursors(job: Job, maxAttempts: nat, c: Choice)
    requires Sound(job) && CursorsOnce(job) && Resolves(job, c)
    ensures CursorsOnce(Step(job, maxAttempts, c))
  {
    var task, s := job.entries[c.index].work.task, Spawned(job, maxAttempts, c);
    assert IsProper(job.entries[c.index].key, job.entries[c.index].work);
    forall cursor ensures CursorOnce(Step(job, maxAttempts, c), cursor) {
      assert CursorOnce(job, cursor);
      ResolveStock(CURSOR(cursor), job, maxAttempts, c);
      SpawnCursors(task, maxAttempts, c.started, c.reports, c.index, cursor);
      KnownClosed(job, c, DiscoverKey(cursor));
      KnownSpawn(Resolved(job, maxAttempts, c), s, c.index, cursor);
    }
  }

  lemma {:induction false} NextFits(job: Job, maxAttempts: nat, c: Choice)
    requires Sound(job) && CursorsOnce(job) && Resolves(job, c) && NextOrder(Spawned(job, maxAttempts, c)).Some?
    ensures Fits(Resolved(job, maxAttempts, c), NextOrder(Spawned(job, maxAttempts, c)).value)
  {
    var task, s := job.entries[c.index].work.task, Spawned(job, maxAttempts, c);
    assert IsProper(job.entries[c.index].key, job.entries[c.index].work);
    if s.next.value.Discover? {
      var cursor := s.next.value.cursor;
      assert CursorOnce(job, cursor);
      SpawnCursors(task, maxAttempts, c.started, c.reports, c.index, cursor);
      TotalAtLeast(CURSOR(cursor), job.entries, c.index);
      KnownClosed(job, c, DiscoverKey(cursor));
    }
    PhaseFits(Resolved(job, maxAttempts, c), NextOrder(s).value);
  }

  lemma {:induction false} ClosedKeepsTidy(job: Job, c: Choice)
    requires Tidy(job) && Executes(job, c)
    ensures Tidy(Closed(job, c))
  {
    var closed := Closed(job, c);
    forall j | 0 <= j < |closed.entries| ensures HasParent(closed.entries[j].key, closed.entries) {
      assert HasParent(job.entries[j].key, job.entries);
    }
  }

  lemma OptionKeepsTidy(job: Job, o: Option<Order>)
    requires Tidy(job) && (o.Some? ==> Fits(job, o.value))
    ensures Tidy(EnqueueOption(job, o))
  {
    if o.Some? {
      FitsKeepsTidy(job, o.value);
    }
  }

  lemma {:induction false} SpawnKeepsTidy(job: Job, s: Spawn, parent: nat)
    requires Tidy(job)
    requires RetryOrder(s).Some? ==> Fits(job, RetryOrder(s).value)
    requires ContinuationOrder(s, parent).Some?
             ==> Fits(EnqueueOption(job, RetryOrder(s)), ContinuationOrder(s, parent).value)
    requires NextOrder(s).Some? ==> s.retry.None? && s.continuation.None? && Fits(job, NextOrder(s).value)
    ensures Tidy(EnqueueSpawn(job, s, parent))
  {
    OptionKeepsTidy(job, RetryOrder(s));
    OptionKeepsTidy(EnqueueOption(job, RetryOrder(s)), ContinuationOrder(s, parent));
    OptionKeepsTidy(EnqueueOption(EnqueueOption(job, RetryOrder(s)), ContinuationOrder(s, parent)), NextOrder(s));
  }

  /** What the orders of a clean batch are. */
  ghost predicate CleanOrders(task: Task, s: Spawn) {
    && (s.retry.Some? ==> s.retry.value.ids != [] && Clean(s.retry.value.ids) == s.retry.value.ids)
    && (s.retry.Some? ==> s.retry.value.attempt == task.attempt + 1 && forall x <- s.retry.value.ids :: x in task.ids)
    && (s.continuation.Some? ==> s.continuation.value.attempt == task.attempt)
    && (s.continuation.Some? ==> forall x <- s.continuation.value.ids :: x in task.ids)
    && (s.retry.Some? && s.continuation.Some? ==> s.retry.value.ids[0] !in s.continuation.value.ids)
    && (s.next.Some? ==> s.retry.None? && s.continuation.None?)
  }

  lemma {:induction false} CleanBatchOrders(task: Task, maxAttempts: nat, started: int, reports: nat -> Report)
    requires BatchIds(task.ids) == task.ids != []
    requires !(task.attempt < maxAttempts && LimitAfterFailure(BatchIds(task.ids), started, reports))
    ensures CleanOrders(task, Execution(task, maxAttempts, started, reports))
  {
    SpawnShape(task, maxAttempts, started, reports);
    SpawnedBatches(task, maxAttempts, started, reports);
    CleanSpawnIsParted(task, maxAttempts, started, reports);
    BatchIdsOfBatch(Ids(Execution(task, maxAttempts, started, reports).retry));
  }

  lemma {:induction false} RetryOrderFits(job: Job, zero: Job, c: Choice, s: Spawn)
    requires Tidy(job) && Sound(job) && Resolves(job, c) && Alone(job, c.index)
             && CleanOrders(job.entries[c.index].work.task, s)
    requires zero.entries == Closed(job, c).entries && zero.tally.discovered == job.tally.discovered
    ensures RetryOrder(s).Some? ==> Fits(zero, RetryOrder(s).value)
  {
    if s.retry.Some? {
      RetryFits(job, zero, c, RetryOrder(s).value, job.entries[c.index].work.task);
    }
  }

  lemma {:induction false} ContinuationOrderFits(job: Job, zero: Job, c: Choice, s: Spawn)
    requires Tidy(job) && Sound(job) && Resolves(job, c) && CleanOrders(job.entries[c.index].work.task, s)
    requires zero.entries == Closed(job, c).entries && (RetryOrder(s).Some? ==> Fits(zero, RetryOrder(s).value))
    ensures ContinuationOrder(s, c.index).Some?
            ==> Fits(EnqueueOption(zero, RetryOrder(s)), ContinuationOrder(s, c.index).value)
  {
    if s.continuation.Some? {
      ContinuationFits(job, EnqueueOption(zero, RetryOrder(s)), c, ContinuationOrder(s, c.index).value,
                       job.entries[c.index].work.task, RetryOrder(s));
    }
  }

  lemma {:induction false} ResolveKeepsTidy(job: Job, maxAttempts: nat, c: Choice)
    requires Sound(job) && Tidy(job) && CursorsOnce(job) && EachHeldOnce(job)
    requires Resolves(job, c) && !CutsOff(job, maxAttempts, c)
    ensures Tidy(Step(job, maxAttempts, c))
  {
    var task, s, zero := job.entries[c.index].work.task, Spawned(job, maxAttempts, c), Resolved(job, maxAttempts, c);
    assert IsProper(job.entries[c.index].key, job.entries[c.index].work);
    ClosedKeepsTidy(job, c);
    CleanBatchOrders(task, maxAttempts, c.started, c.reports);
    BatchesAreAlone(job, c.index);
    RetryOrderFits(job, zero, c, s);
    ContinuationOrderFits(job, zero, c, s);
    if NextOrder(s).Some? {
      NextFits(job, maxAttempts, c);
    }
    SpawnKeepsTidy(zero, s, c.index);
  }

  // ---- discovering a page ----

  /** The cursor has been discovered, or a batch is or was to do so. */
  ghost predicate SeenCursor(job: Job, cursor: string) {
    Known(job.entries, DiscoverKey(cursor))
    || exists i ::
         0 <= i < |job.entries| && job.entries[i].work.Resolve? && job.entries[i].work.task.cursor == Some(cursor)
  }

  /** A page of ids not seen before, ahead of a cursor not seen before. */
  ghost predicate IsNew(job: Job, page: Page) {
    && (forall x <- BatchIds(page.ids) :: x !in job.tally.discovered)
    && (page.next.Some? ==> !SeenCursor(job, page.next.value))
  }

  lemma {:induction false} UnseenCursor(job: Job, cursor: string)
    requires !SeenCursor(job, cursor) && OnlyFinalizationsMissed(job)
    ensures Stock(CURSOR(cursor), job) == 0 && Taken(job.entries, DiscoverKey(cursor)) == 0
  {
    TotalZero(CURSOR(cursor), job.entries);
    FinalizationsWeighNothing(CURSOR(cursor), job.tally.missed);
  }

  lemma {:induction false} FinalizationsWeighNothing(weight: Work -> nat, works: seq<Work>)
    requires weight(Finalization) == 0 && forall i :: 0 <= i < |works| ==> works[i].Finalization?
    ensures Sum(weight, works) == 0
    decreases |works|
  {
    if works != [] {
      FinalizationsWeighNothing(weight, works[..|works| - 1]);
    }
  }

  lemma KnownEnqueue(job: Job, o: Order, key: Key)
    ensures Known(Enqueue(job, o).entries, key) <==> Known(job.entries, key) || o.key == key
  {
    KnownOption(job, Some(o), key);
  }

  lemma {:induction false} DiscoverKeepsCursors(job: Job, maxAttempts: nat, c: Choice)
    requires CursorsOnce(job) && OnlyFinalizationsMissed(job) && IsNew(job, c.page)
    requires Executes(job, c) && job.entries[c.index].work.Discovery?
    ensures CursorsOnce(Step(job, maxAttempts, c))
  {
    forall cursor ensures CursorOnce(Step(job, maxAttempts, c), cursor) {
      assert CursorOnce(job, cursor);
      DiscoverStock(CURSOR(cursor), job, maxAttempts, c);
      KnownClosed(job, c, DiscoverKey(cursor));
      KnownEnqueue(Discovered(job, c), PageOrder(c.page), DiscoverKey(cursor));
      if c.page.next == Some(cursor) {
        UnseenCursor(job, cursor);
      }
    }
  }

  lemma DiscoveredKeepsTidy(job: Job, c: Choice)
    requires Tidy(job) && Executes(job, c)
    ensures Tidy(Discovered(job, c))
  {
    ClosedKeepsTidy(job, c);
  }

  /** Every id of a batch was discovered. */
  lemma {:induction false} BatchesWereDiscovered(job: Job, i: nat)
    requires Sound(job) && OnlyDiscovered(job) && i < |job.entries| && !job.entries[i].done
             && job.entries[i].work.Resolve?
    ensures forall x <- job.entries[i].work.task.ids :: x in job.tally.discovered
  {
    forall x | x in job.entries[i].work.task.ids ensures x in job.tally.discovered {
      TotalAtLeast(OCC(x), job.entries, i);
      assert IsProper(job.entries[i].key, job.entries[i].work);
      assert Held(job, x) > 0;
    }
  }

  /** Retry keys begin with an id that was discovered. */
  ghost predicate FirstsDiscovered(job: Job) {
    forall j :: 0 <= j < |job.entries| && job.entries[j].key.ResolveKey?
      ==> job.entries[j].key.first in job.tally.discovered
  }

  lemma {:induction false} BatchPageFits(job: Job, zero: Job, o: Order)
    requires FirstsDiscovered(job) && o.work.Resolve? && o.key.ResolveKey? && o.key.suffix.Plain?
    requires o.key.first in zero.tally.discovered && o.key.first !in job.tally.discovered
    requires forall x <- o.work.task.ids :: x !in job.tally.discovered
    requires |zero.entries| == |job.entries|
    requires forall j :: 0 <= j < |job.entries| ==> zero.entries[j].key == job.entries[j].key
    ensures Fits(zero, o)
  {
    forall j | 0 <= j < |zero.entries| ensures zero.entries[j].key != o.key && Below(zero.entries[j].key, o.work) {
      assert zero.entries[j].key == job.entries[j].key;
    }
  }

  lemma {:induction false} PageFits(job: Job, c: Choice)
    requires Sound(job) && FirstsDiscovered(job) && IsNew(job, c.page)
    requires Executes(job, c) && job.entries[c.index].work.Discovery?
    ensures Fits(Discovered(job, c), PageOrder(c.page))
  {
    var ids := BatchIds(c.page.ids);
    if ids == [] {
      KnownClosed(job, c, PageOrder(c.page).key);
      PhaseFits(Discovered(job, c), PageOrder(c.page));
    } else {
      BatchIdsAreABatch(c.page.ids);
      KeyFirst(ids);
      BatchPageFits(job, Discovered(job, c), PageOrder(c.page));
    }
  }

  lemma {:induction false} DiscoverKeepsTidy(job: Job, maxAttempts: nat, c: Choice)
    requires Sound(job) && Tidy(job) && FirstsDiscovered(job) && IsNew(job, c.page)
    requires Executes(job, c) && job.entries[c.index].work.Discovery?
    ensures Tidy(Step(job, maxAttempts, c))
  {
    DiscoveredKeepsTidy(job, c);
    PageFits(job, c);
    FitsKeepsTidy(Discovered(job, c), PageOrder(c.page));
  }

  // ---- the first ids of keys ----

  ghost predicate FirstDiscovered(o: Option<Order>, discovered: multiset<string>) {
    o.Some? && o.value.key.ResolveKey? ==> o.value.key.first in discovered
  }

  lemma OptionKeepsFirsts(job: Job, o: Option<Order>)
    requires FirstsDiscovered(job) && FirstDiscovered(o, job.tally.discovered)
    ensures FirstsDiscovered(EnqueueOption(job, o))
  {
  }

  lemma {:induction false} SpawnKeepsFirsts(job: Job, s: Spawn, parent: nat)
    requires FirstsDiscovered(job) && FirstDiscovered(RetryOrder(s), job.tally.discovered)
    requires FirstDiscovered(ContinuationOrder(s, parent), job.tally.discovered)
    ensures FirstsDiscovered(EnqueueSpawn(job, s, parent))
  {
    OptionKeepsFirsts(job, RetryOrder(s));
    OptionKeepsFirsts(EnqueueOption(job, RetryOrder(s)), ContinuationOrder(s, parent));
    OptionKeepsFirsts(EnqueueOption(EnqueueOption(job, RetryOrder(s)), ContinuationOrder(s, parent)), NextOrder(s));
  }

  lemma {:induction false} OrderFirsts(task: Task, maxAttempts: nat, started: int, reports: nat -> Report, parent: nat,
                                       discovered: multiset<string>)
    requires BatchIds(task.ids) == task.ids != [] && forall x <- task.ids :: x in discovered
    ensures var s := Execution(task, maxAttempts, started, reports);
            FirstDiscovered(RetryOrder(s), discovered) && FirstDiscovered(ContinuationOrder(s, parent), discovered)
  {
    var s := Execution(task, maxAttempts, started, reports);
    SpawnIsInhabited(task, maxAttempts, started, reports);
    TaskConserves(task, maxAttempts, started, reports);
    KeyFirst(Ids(s.retry));
    KeyFirst(Ids(s.continuation));
    LeftIds(s);
  }

  lemma LeftIds(s: Spawn)
    ensures forall x :: x in Ids(s.retry) || x in Ids(s.continuation) ==> x in Left(s)
  {
  }

  lemma KeyFirst(ids: seq<string>)
    requires IsBatch(ids)
    ensures ids != [] ==> forall suffix: Suffix :: BatchKey(ids, suffix).first in ids
  {
    BatchIdsOfBatch(ids);
  }

  lemma SpawnIsInhabited(task: Task, maxAttempts: nat, started: int, reports: nat -> Report)
    requires BatchIds(task.ids) != []
    ensures var s := Execution(task, maxAttempts, started, reports);
            && IsBatch(Ids(s.retry)) && IsBatch(Ids(s.continuation))
            && (s.retry.Some? ==> s.retry.value.ids != []) && (s.continuation.Some? ==> s.continuation.value.ids != [])
  {
    SpawnShape(task, maxAttempts, started, reports);
    SpawnedBatches(task, maxAttempts, started, reports);
  }

  lemma {:induction false} ResolveKeepsFirsts(job: Job, maxAttempts: nat, c: Choice)
    requires Sound(job) && OnlyDiscovered(job) && FirstsDiscovered(job) && Resolves(job, c)
    ensures FirstsDiscovered(Step(job, maxAttempts, c))
  {
    BatchesWereDiscovered(job, c.index);
    assert IsProper(job.entries[c.index].key, job.entries[c.index].work);
    OrderFirsts(job.entries[c.index].work.task, maxAttempts, c.started, c.reports, c.index, job.tally.discovered);
    ClosedKeepsFirsts(job, c);
    SpawnKeepsFirsts(Resolved(job, maxAttempts, c), Spawned(job, maxAttempts, c), c.index);
  }

  lemma ClosedKeepsFirsts(job: Job, c: Choice)
    requires FirstsDiscovered(job) && Executes(job, c)
    ensures FirstsDiscovered(Closed(job, c)) && FirstsDiscovered(Discovered(job, c))
  {
    assert forall j :: 0 <= j < |job.entries| ==> Closed(job, c).entries[j].key == job.entries[j].key;
  }

  lemma PageFirst(page: Page)
    ensures FirstDiscovered(Some(PageOrder(page)), multiset(BatchIds(page.ids)))
  {
    BatchIdsAreABatch(page.ids);
    BatchIdsOfBatch(BatchIds(page.ids));
  }

  lemma {:induction false} DiscoverKeepsFirsts(job: Job, maxAttempts: nat, c: Choice)
    requires FirstsDiscovered(job) && Executes(job, c) && job.entries[c.index].work.Discovery?
    ensures FirstsDiscovered(Step(job, maxAttempts, c))
  {
    ClosedKeepsFirsts(job, c);
    PageFirst(c.page);
    OptionKeepsFirsts(Discovered(job, c), Some(PageOrder(c.page)));
  }

  lemma {:induction false} StepKeepsFirsts(job: Job, maxAttempts: nat, c: Choice)
    requires Sound(job) && OnlyDiscovered(job) && FirstsDiscovered(job)
    ensures FirstsDiscovered(Step(job, maxAttempts, c))
  {
    if Executes(job, c) {
      match job.entries[c.index].work
      case Finalization => ClosedKeepsFirsts(job, c);
      case Discovery(_) => DiscoverKeepsFirsts(job, maxAttempts, c);
      case Resolve(_) => ResolveKeepsFirsts(job, maxAttempts, c);
    }
  }

  // ---- clean runs ----

  ghost predicate IsClean(job: Job, maxAttempts: nat, c: Choice) {
    && !CutsOff(job, maxAttempts, c)
    && (Executes(job, c) && job.entries[c.index].work.Discovery? ==> IsNew(job, c.page))
  }

  /** Every page is new, and no batch with attempts left meets the limit after a failure. */
  ghost predicate CleanRun(cursor: string, maxAttempts: nat, choices: seq<Choice>) {
    choices == [] ||
      var front, last := choices[..|choices| - 1], choices[|choices| - 1];
      CleanRun(cursor, maxAttempts, front) && IsClean(Run(Initial(cursor), maxAttempts, front), maxAttempts, last)
  }

  ghost predicate OnceDiscovered(job: Job) { forall x :: job.tally.discovered[x] <= 1 }

  ghost predicate Settled(job: Job) {
    && Sound(job) && Kept(job) && OnlyDiscovered(job) && Exact(job) && OnceDiscovered(job)
    && FirstsDiscovered(job) && CursorsOnce(job) && Tidy(job)
  }

  lemma {:induction false} StepKeepsOnce(job: Job, maxAttempts: nat, c: Choice)
    requires OnceDiscovered(job) && IsClean(job, maxAttempts, c)
    ensures OnceDiscovered(Step(job, maxAttempts, c))
  {
    var next := Step(job, maxAttempts, c);
    if Resolves(job, c) {
      SpawnFrame(Resolved(job, maxAttempts, c), Spawned(job, maxAttempts, c), c.index);
    } else if Executes(job, c) && job.entries[c.index].work.Discovery? {
      BatchIdsAreABatch(c.page.ids);
      forall x ensures next.tally.discovered[x] <= 1 {
        DistinctOnce(BatchIds(c.page.ids), x);
      }
    }
  }

  lemma {:induction false} StepKeepsTidy(job: Job, maxAttempts: nat, c: Choice)
    requires Settled(job) && IsClean(job, maxAttempts, c)
    ensures Tidy(Step(job, maxAttempts, c)) && CursorsOnce(Step(job, maxAttempts, c))
  {
    if Resolves(job, c) {
      assert EachHeldOnce(job);
      ResolveKeepsTidy(job, maxAttempts, c);
      ResolveKeepsCursors(job, maxAttempts, c);
    } else if Executes(job, c) {
      if job.entries[c.index].work.Discovery? {
        DiscoverKeepsTidy(job, maxAttempts, c);
        DiscoverKeepsCursors(job, maxAttempts, c);
      } else {
        ClosedKeepsTidy(job, c);
        ClosedKeepsCursors(job, c);
        forall cursor ensures CursorOnce(Step(job, maxAttempts, c), cursor) {
          assert CursorOnce(Closed(job, c), cursor);
        }
      }
    }
  }

  lemma {:induction false} ClosedKeepsCursors(job: Job, c: Choice)
    requires CursorsOnce(job) && Executes(job, c)
    ensures CursorsOnce(Closed(job, c))
  {
    forall cursor ensures CursorOnce(Closed(job, c), cursor) {
      assert CursorOnce(job, cursor);
      ClosedStock(CURSOR(cursor), job, c);
      KnownClosed(job, c, DiscoverKey(cursor));
    }
  }

  lemma StepKeepsSettled(job: Job, maxAttempts: nat, c: Choice)
    requires Settled(job) && IsClean(job, maxAttempts, c)
    ensures Settled(Step(job, maxAttempts, c))
  {
    StepKeepsSound(job, maxAttempts, c);
    StepConserves(job, maxAttempts, c);
    StepKeepsOnce(job, maxAttempts, c);
    StepKeepsFirsts(job, maxAttempts, c);
    StepKeepsTidy(job, maxAttempts, c);
  }

  lemma {:induction false} InitialIsSettled(cursor: string)
    ensures Settled(Initial(cursor))
  {
    InitialConserves(cursor);
    forall other ensures CursorOnce(Initial(cursor), other) {
      TotalZero(CURSOR(other), Initial(cursor).entries);
    }
  }

  lemma {:induction false} CleanRunIsSettled(cursor: string, maxAttempts: nat, choices: seq<Choice>)
    requires CleanRun(cursor, maxAttempts, choices)
    ensures Settled(Run(Initial(cursor), maxAttempts, choices))
    decreases |choices|
  {
    if choices == [] {
      InitialIsSettled(cursor);
    } else {
      var front := choices[..|choices| - 1];
      CleanRunIsSettled(cursor, maxAttempts, front);
      StepKeepsSettled(Run(Initial(cursor), maxAttempts, front), maxAttempts, choices[|choices| - 1]);
    }
  }

  /** In a clean run no key clashes but that of the finalization: no duty and no id is missed. */
  lemma {:induction false} CleanRunsMissNothing(cursor: string, maxAttempts: nat, choices: seq<Choice>)
    requires CleanRun(cursor, maxAttempts, choices)
    ensures var r := Run(Initial(cursor), maxAttempts, choices);
            Ignored(r) == 0 && forall x :: Sum(OCC(x), r.tally.missed) == 0
  {
    var r := Run(Initial(cursor), maxAttempts, choices);
    CleanRunIsSettled(cursor, maxAttempts, choices);
    FinalizationsWeighNothing(DUTY, r.tally.missed);
    forall x ensures Sum(OCC(x), r.tally.missed) == 0 {
      FinalizationsWeighNothing(OCC(x), r.tally.missed);
    }
  }

  /**
   * In a clean run the finalization is created while other phases are due exactly when a deferred batch has strayed.
   */
  lemma CleanFinalizeIsEarlyExactlyWhen(cursor: string, maxAttempts: nat, choices: seq<Choice>, c: Choice)
    requires var before := Run(Initial(cursor), maxAttempts, choices);
             !Known(before.entries, FinalizeKey) && Known(Step(before, maxAttempts, c).entries, FinalizeKey)
    requires CleanRun(cursor, maxAttempts, choices)
    ensures var before := Run(Initial(cursor), maxAttempts, choices);
            DutyPending(Step(before, maxAttempts, c).entries) <==> before.tally.strays > 0
  {
    CleanRunsMissNothing(cursor, maxAttempts, choices);
    FinalizeIsEarlyExactlyWhen(cursor, maxAttempts, choices, c);
  }

  // ---- runs end ----

  function WORK(maxAttempts: nat): Work -> nat {
    (w: Work) => if w.Resolve? then |BatchIds(w.task.ids)| * (AttemptsLeft(maxAttempts, w.task.attempt) + 1) else 0
  }

  /** No record of the batch meets the subrequest limit. */
  ghost predicate Unlimited(job: Job, c: Choice) {
    Resolves(job, c) ==>
      forall k :: 0 <= k < |BatchIds(job.entries[c.index].work.task.ids)|
        ==> !c.reports(k).outcome.MeetsSubrequestLimit?
  }

  ghost predicate UnlimitedRun(cursor: string, maxAttempts: nat, choices: seq<Choice>) {
    choices == [] ||
      var front, last := choices[..|choices| - 1], choices[|choices| - 1];
      UnlimitedRun(cursor, maxAttempts, front) && Unlimited(Run(Initial(cursor), maxAttempts, front), last)
  }

  /** How many batches the run has executed. */
  function Resolutions(cursor: string, maxAttempts: nat, choices: seq<Choice>): nat {
    if choices == [] then 0 else
      var front, last := choices[..|choices| - 1], choices[|choices| - 1];
      Resolutions(cursor, maxAttempts, front) + if Resolves(Run(Initial(cursor), maxAttempts, front), last) then 1
                                                else 0
  }

  lemma {:induction false} UnlimitedTask(task: Task, maxAttempts: nat, started: int, reports: nat -> Report)
    requires forall k :: 0 <= k < |BatchIds(task.ids)| ==> !reports(k).outcome.MeetsSubrequestLimit?
    ensures !Execution(task, maxAttempts, started, reports).progress.limit
  {
    var ids := BatchIds(task.ids);
    if ids != [] && Execution(task, maxAttempts, started, reports).progress.stopped {
      var m := StopIsSomewhere(ids, started, reports, task.attempt < maxAttempts);
      RecordsRunTo(ids, started, reports, task.attempt < maxAttempts, m);
    } else {
      BatchIdsAreABatch(task.ids);
      SpawnedBatches(task, maxAttempts, started, reports);
    }
  }

  lemma {:induction false} SpawnWeights(s: Spawn, maxAttempts: nat, parent: nat)
    requires BatchIds(Ids(s.retry)) == Ids(s.retry) && BatchIds(Ids(s.continuation)) == Ids(s.continuation)
    ensures OptionWeight(WORK(maxAttempts), RetryOrder(s))
            == (if s.retry.None? then 0
                else |s.retry.value.ids| * (AttemptsLeft(maxAttempts, s.retry.value.attempt) + 1))
    ensures OptionWeight(WORK(maxAttempts), ContinuationOrder(s, parent))
            == (if s.continuation.None? then 0
                else |s.continuation.value.ids| * (AttemptsLeft(maxAttempts, s.continuation.value.attempt) + 1))
    ensures OptionWeight(WORK(maxAttempts), NextOrder(s)) == 0
  {
  }

  lemma {:induction false} ExecutionWork(task: Task, maxAttempts: nat, started: int, reports: nat -> Report,
                                         parent: nat)
    requires BatchIds(task.ids) != []
    requires forall k :: 0 <= k < |BatchIds(task.ids)| ==> !reports(k).outcome.MeetsSubrequestLimit?
    ensures var s, weight := Execution(task, maxAttempts, started, reports), WORK(maxAttempts);
            OptionWeight(weight, RetryOrder(s)) + OptionWeight(weight, ContinuationOrder(s, parent))
            + OptionWeight(weight, NextOrder(s))
            < weight(Resolve(task))
  {
    var s := Execution(task, maxAttempts, started, reports);
    UnlimitedTask(task, maxAttempts, started, reports);
    assert Counted(task, maxAttempts, s) by {
      SpawnIsCounted(task, maxAttempts, started, reports);
    }
    assert BatchIds(Ids(s.retry)) == Ids(s.retry) && BatchIds(Ids(s.continuation)) == Ids(s.continuation) by {
      SpawnIsInhabited(task, maxAttempts, started, reports);
      BatchIdsOfBatch(Ids(s.retry));
      BatchIdsOfBatch(Ids(s.continuation));
    }
    SpawnWeights(s, maxAttempts, parent);
    SpawnWork(task, maxAttempts, s);
  }

  lemma {:induction false} ResolveWork(job: Job, maxAttempts: nat, c: Choice)
    requires Sound(job) && Resolves(job, c) && Unlimited(job, c)
    ensures Stock(WORK(maxAttempts), Step(job, maxAttempts, c)) + 1 <= Stock(WORK(maxAttempts), job)
  {
    assert IsProper(job.entries[c.index].key, job.entries[c.index].work);
    ResolveStock(WORK(maxAttempts), job, maxAttempts, c);
    ExecutionWork(job.entries[c.index].work.task, maxAttempts, c.started, c.reports, c.index);
  }

  lemma PageWork(page: Page, maxAttempts: nat)
    ensures WORK(maxAttempts)(PageOrder(page).work) == |BatchIds(page.ids)| * (maxAttempts + 1)
  {
    BatchIdsAreABatch(page.ids);
    BatchIdsOfBatch(BatchIds(page.ids));
  }

  lemma {:induction false} DiscoveredCount(job: Job, maxAttempts: nat, c: Choice)
    requires Executes(job, c) && job.entries[c.index].work.Discovery?
    ensures |Step(job, maxAttempts, c).tally.discovered| == |job.tally.discovered| + |BatchIds(c.page.ids)|
  {
    CountMore(job.tally.discovered, BatchIds(c.page.ids));
  }

  lemma CountMore(m: multiset<string>, s: seq<string>)
    ensures |m + multiset(s)| == |m| + |s|
  {
  }

  lemma MoreWork(before: nat, after: nat, discovered: nat, n: nat, weight: nat)
    requires after == before + n * weight
    ensures after + discovered * weight == before + (discovered + n) * weight
  {
  }

  lemma {:induction false} DiscoverGrows(weight: Work -> nat, each: nat, job: Job, maxAttempts: nat, c: Choice)
    requires Executes(job, c) && job.entries[c.index].work.Discovery?
    requires weight(job.entries[c.index].work) == 0 && weight(PageOrder(c.page).work) == |BatchIds(c.page.ids)| * each
    ensures var next := Step(job, maxAttempts, c);
            Stock(weight, next) + |job.tally.discovered| * each == Stock(weight, job) + |next.tally.discovered| * each
  {
    DiscoverStock(weight, job, maxAttempts, c);
    DiscoveredCount(job, maxAttempts, c);
    MoreWork(Stock(weight, job), Stock(weight, Step(job, maxAttempts, c)), |job.tally.discovered|,
             |BatchIds(c.page.ids)|, each);
  }

  lemma {:induction false} OtherWork(job: Job, maxAttempts: nat, c: Choice)
    requires !Resolves(job, c)
    ensures var next := Step(job, maxAttempts, c);
            Stock(WORK(maxAttempts), next) + |job.tally.discovered| * (maxAttempts + 1)
            == Stock(WORK(maxAttempts), job) + |next.tally.discovered| * (maxAttempts + 1)
  {
    if Executes(job, c) {
      if job.entries[c.index].work.Discovery? {
        PageWork(c.page, maxAttempts);
        DiscoverGrows(WORK(maxAttempts), maxAttempts + 1, job, maxAttempts, c);
      } else {
        ClosedStock(WORK(maxAttempts), job, c);
      }
    }
  }

  /**
   * Without the subrequest limit, a job executes at most as many batches as it discovers ids, times the attempts of
   * each.
   */
  lemma {:induction false} RunsEnd(cursor: string, maxAttempts: nat, choices: seq<Choice>)
    requires UnlimitedRun(cursor, maxAttempts, choices)
    ensures var r := Run(Initial(cursor), maxAttempts, choices);
            Resolutions(cursor, maxAttempts, choices) + Stock(WORK(maxAttempts), r)
            <= |r.tally.discovered| * (maxAttempts + 1)
    decreases |choices|
  {
    if choices == [] {
      TotalZero(WORK(maxAttempts), Initial(cursor).entries);
    } else {
      var front, last := choices[..|choices| - 1], choices[|choices| - 1];
      var before := Run(Initial(cursor), maxAttempts, front);
      RunsEnd(cursor, maxAttempts, front);
      RunIsSound(cursor, maxAttempts, front);
      if Resolves(before, last) {
        ResolveWork(before, maxAttempts, last);
        SpawnFrame(Resolved(before, maxAttempts, last), Spawned(before, maxAttempts, last), last.index);
      } else {
        OtherWork(before, maxAttempts, last);
      }
    }
  }
}

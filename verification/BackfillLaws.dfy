/** What one task does to its batch: which ids it completes, and which the tasks it enqueues take up. */
module BackfillLaws {
  import opened Prelude
  import opened Ordering
  import opened Backfill

  function Ids(t: Option<Task>): seq<string> { if t.None? then [] else t.value.ids }

  /** Everything a task leaves behind: what it completed and what the tasks it enqueues will take up. */
  function Left(s: Spawn): multiset<string> {
    multiset(s.progress.completed) + multiset(Ids(s.retry)) + multiset(Ids(s.continuation))
  }

  lemma {:induction false} SpawnedBatches(task: Task, maxAttempts: nat, started: int, reports: nat -> Report)
    ensures var s := Execution(task, maxAttempts, started, reports);
            && Accounts(s.progress, BatchIds(task.ids))
            && s.progress.retries == Ids(s.retry) && s.progress.remaining == Ids(s.continuation)
            && IsBatch(Ids(s.retry)) && IsBatch(Ids(s.continuation))
  {
    var ids := BatchIds(task.ids);
    var s := Execution(task, maxAttempts, started, reports);
    BatchIdsAreABatch(task.ids);
    if ids == [] {
      assert Accounts(s.progress, ids);
    } else {
      RecordsAccount(ids, started, reports, task.attempt < maxAttempts, |ids|);
      RetriesAreABatch(s.progress, ids);
    }
  }

  /** Who inherits what: attempts, and the duty to start the next phase. */
  lemma {:induction false} SpawnShape(task: Task, maxAttempts: nat, started: int, reports: nat -> Report)
    requires BatchIds(task.ids) != []
    ensures var s := Execution(task, maxAttempts, started, reports);
            && (s.retry.Some? <==> s.progress.retries != [])
            && (s.continuation.Some? <==> s.progress.stopped)
            && (s.next.Some? <==> s.retry.None? && s.continuation.None? && !task.deferred)
            && (s.retry.Some? ==> s.retry.value.ids != [] && s.retry.value.attempt == task.attempt + 1 <= maxAttempts)
            && (s.retry.Some? ==> (s.retry.value.deferred <==> s.continuation.Some? || task.deferred))
            && (s.continuation.Some? ==> s.continuation.value.ids != [] && s.continuation.value.attempt == task.attempt)
            && (s.continuation.Some? ==> !s.continuation.value.deferred)
  {
    var ids := BatchIds(task.ids);
    BatchIdsAreABatch(task.ids);
    RecordsAccount(ids, started, reports, task.attempt < maxAttempts, |ids|);
    RetriesNeedAttempts(ids, started, reports, task.attempt < maxAttempts, |ids|);
    NextIsIncomplete(Records(ids, started, reports, task.attempt < maxAttempts, |ids|), ids);
  }

  lemma {:induction false} NextIsIncomplete(p: Progress, ids: seq<string>)
    requires IsBatch(ids) && Accounts(p, ids)
    ensures Handled(p) < |ids| ==> ids[Handled(p)] !in p.completed && FirstIncomplete(ids, p.completed) <= Handled(p)
  {
    var n := Handled(p);
    forall x | x in p.completed ensures x in ids[..n] {
      assert x in multiset(ids[..n]);
    }
  }

  lemma {:induction false} RetriesNeedAttempts(ids: seq<string>, started: int, reports: nat -> Report, retryable: bool,
                                               k: nat)
    requires k <= |ids|
    ensures Records(ids, started, reports, retryable, k).retries != [] ==> retryable
    decreases k
  {
    if k > 0 {
      RetriesNeedAttempts(ids, started, reports, retryable, k - 1);
    }
  }

  lemma {:induction false} RetriesAreABatch(p: Progress, ids: seq<string>)
    requires IsBatch(ids) && Accounts(p, ids)
    ensures IsBatch(p.retries) && IsBatch(p.remaining)
  {
    var handled := ids[..Handled(p)];
    DistinctByCounts(handled);
    forall x ensures multiset(p.retries)[x] <= multiset(handled)[x] {
    }
    DistinctByCounts(p.retries);
    forall x | x in p.retries ensures x in ids {
      assert x in multiset(handled);
      assert x in handled;
    }
  }

  lemma RetryIsIncomplete(p: Progress, ids: seq<string>)
    requires IsBatch(ids) && Accounts(p, ids) && p.limit && p.retries != []
    ensures p.processed < Handled(p) <= |ids|
  {
    var n, x := Handled(p), p.retries[0];
    assert x in multiset(ids[..n]);
    var i :| 0 <= i < n && ids[i] == x;
    DistinctByCounts(ids[..n]);
    assert multiset(ids[..n])[x] <= 1;
    assert x !in multiset(p.completed);
  }

  /** Ids handed on twice: those behind the first one to be retried, when the limit cuts the task off. */
  lemma LimitRepeats(p: Progress, ids: seq<string>)
    requires IsBatch(ids) && Accounts(p, ids) && p.limit && p.retries != []
    ensures multiset(ids) < multiset(p.completed) + multiset(p.retries) + multiset(p.remaining)
  {
    RetryIsIncomplete(p, ids);
    Overlap(ids, p.processed, Handled(p));
  }

  lemma Overlap(ids: seq<string>, k: nat, n: nat)
    requires k < n <= |ids|
    ensures multiset(ids) < multiset(ids[..n]) + multiset(ids[k..])
  {
    assert ids == ids[..n] + ids[n..] && ids[k..] == ids[k..n] + ids[n..];
    assert ids[k] in ids[k..n];
    var both := multiset(ids[..n]) + multiset(ids[k..]);
    assert both == multiset(ids) + multiset(ids[k..n]);
    assert both[ids[k]] > multiset(ids)[ids[k]];
  }

  lemma {:induction false} SomethingHandled(task: Task, maxAttempts: nat, started: int, reports: nat -> Report)
    requires BatchIds(task.ids) != [] && !Execution(task, maxAttempts, started, reports).progress.limit
    ensures var p := Execution(task, maxAttempts, started, reports).progress;
            Handled(p) > 0 && Handled(p) + |p.remaining| == |BatchIds(task.ids)|
  {
    var ids := BatchIds(task.ids);
    BatchIdsAreABatch(task.ids);
    RecordsAccount(ids, started, reports, task.attempt < maxAttempts, |ids|);
  }

  lemma {:induction false} HandledOnce(p: Progress, ids: seq<string>)
    requires IsBatch(ids) && Accounts(p, ids) && !(p.limit && p.retries != []) && (p.stopped || p.processed == |ids|)
    ensures multiset(ids) == multiset(p.completed) + multiset(p.retries) + multiset(p.remaining)
  {
    var n := Handled(p);
    assert ids == ids[..n] + ids[n..];
    if p.limit {
      assert ids[n] !in p.completed;
    }
  }

  lemma NothingForeign(p: Progress, ids: seq<string>, x: string)
    requires Accounts(p, ids) && x in multiset(p.completed) + multiset(p.retries) + multiset(p.remaining)
    ensures x in ids
  {
    if x in multiset(p.completed) + multiset(p.retries) {
      assert x in ids[..Handled(p)];
    } else {
      assert x in p.remaining;
    }
  }

  /**
   * No id is ever dropped; and no id is handed on twice exactly when the task was not cut off by the
   * subrequest limit after a record had failed for a while.
   */
  lemma {:induction false} TaskConserves(task: Task, maxAttempts: nat, started: int, reports: nat -> Report)
    ensures var s := Execution(task, maxAttempts, started, reports);
            && multiset(BatchIds(task.ids)) <= Left(s)
            && (multiset(BatchIds(task.ids)) == Left(s) <==> !(s.progress.limit && s.progress.retries != []))
            && forall x :: x in Left(s) ==> x in BatchIds(task.ids)
  {
    var s := Execution(task, maxAttempts, started, reports);
    var ids := BatchIds(task.ids);
    BatchIdsAreABatch(task.ids);
    SpawnedBatches(task, maxAttempts, started, reports);
    forall x | x in Left(s) ensures x in ids {
      NothingForeign(s.progress, ids, x);
    }
    if s.progress.limit && s.progress.retries != [] {
      LimitRepeats(s.progress, ids);
    } else {
      HandledOnce(s.progress, ids);
    }
  }

  // ---- the limit, read off the reports ----

  predicate StopsHere(ids: seq<string>, started: int, reports: nat -> Report, k: nat) {
    reports(k).outcome.MeetsSubrequestLimit? || ShouldCheckpoint(started, reports(k).now, TASK_BUDGET_MS, k + 1, |ids|)
  }

  ghost predicate RunsTo(ids: seq<string>, started: int, reports: nat -> Report, k: nat) {
    forall j :: 0 <= j < k ==> !StopsHere(ids, started, reports, j)
  }

  predicate FailsBefore(reports: nat -> Report, k: nat) {
    exists j :: 0 <= j < k && reports(j).outcome.FailsTransiently?
  }

  /** Some record meets the subrequest limit, none before it stops the task, and one before it failed for a while. */
  ghost predicate LimitAfterFailure(ids: seq<string>, started: int, reports: nat -> Report) {
    exists m ::
      && 0 <= m < |ids| && reports(m).outcome.MeetsSubrequestLimit?
      && RunsTo(ids, started, reports, m) && FailsBefore(reports, m)
  }

  lemma {:induction false} RecordsRunTo(ids: seq<string>, started: int, reports: nat -> Report, retryable: bool, k: nat)
    requires k <= |ids| && RunsTo(ids, started, reports, k)
    ensures var p := Records(ids, started, reports, retryable, k);
            !p.stopped && !p.limit && (p.retries != [] <==> retryable && FailsBefore(reports, k))
    decreases k
  {
    if k > 0 {
      assert RunsTo(ids, started, reports, k - 1) && !StopsHere(ids, started, reports, k - 1);
      RecordsRunTo(ids, started, reports, retryable, k - 1);
      assert FailsBefore(reports, k) <==> FailsBefore(reports, k - 1) || reports(k - 1).outcome.FailsTransiently?;
    }
  }

  /** The task comes to its end `p` at record `m`, the first that stops it. */
  ghost predicate StopsAt(ids: seq<string>, started: int, reports: nat -> Report, retryable: bool, p: Progress,
                          m: nat) {
    && m < |ids| && RunsTo(ids, started, reports, m) && StopsHere(ids, started, reports, m)
    && var before := Records(ids, started, reports, retryable, m);
       !before.stopped && p == AfterRecord(before, ids, started, reports(m), retryable)
  }

  lemma {:induction false} LeastStop(ids: seq<string>, started: int, reports: nat -> Report, k: nat) returns (m: nat)
    requires !RunsTo(ids, started, reports, k)
    ensures m < k && RunsTo(ids, started, reports, m) && StopsHere(ids, started, reports, m)
    decreases k
  {
    if RunsTo(ids, started, reports, k - 1) {
      m := k - 1;
    } else {
      m := LeastStop(ids, started, reports, k - 1);
    }
  }

  lemma {:induction false} StopIsSomewhere(ids: seq<string>, started: int, reports: nat -> Report, retryable: bool)
      returns (m: nat)
    requires Records(ids, started, reports, retryable, |ids|).stopped
    ensures StopsAt(ids, started, reports, retryable, Records(ids, started, reports, retryable, |ids|), m)
  {
    if RunsTo(ids, started, reports, |ids|) {
      RecordsRunTo(ids, started, reports, retryable, |ids|);
    }
    m := LeastStop(ids, started, reports, |ids|);
    StoppingRecord(ids, started, reports, retryable, m);
    StoppedForGood(ids, started, reports, retryable, m + 1);
  }

  lemma {:induction false} StoppingRecord(ids: seq<string>, started: int, reports: nat -> Report, retryable: bool,
                                          m: nat)
    requires m < |ids| && RunsTo(ids, started, reports, m) && StopsHere(ids, started, reports, m)
    ensures var p := Records(ids, started, reports, retryable, m + 1);
            p.stopped && StopsAt(ids, started, reports, retryable, p, m)
  {
    RecordsRunTo(ids, started, reports, retryable, m);
    RecordsNext(ids, started, reports, retryable, m);
    StopsAfter(Records(ids, started, reports, retryable, m), ids, started, reports, retryable, m);
  }

  lemma StopsAfter(p: Progress, ids: seq<string>, started: int, reports: nat -> Report, retryable: bool, m: nat)
    requires m < |ids| && StopsHere(ids, started, reports, m) && p.processed == m
    ensures AfterRecord(p, ids, started, reports(m), retryable).stopped
  {
  }

  lemma {:induction false} NeverStoppedRunsTo(ids: seq<string>, started: int, reports: nat -> Report, retryable: bool,
                                              k: nat)
    requires k <= |ids| && !Records(ids, started, reports, retryable, k).stopped
    ensures RunsTo(ids, started, reports, k)
    decreases k
  {
    if k > 0 {
      NeverStoppedRunsTo(ids, started, reports, retryable, k - 1);
    }
  }

  /** A task is cut off by the limit with records to be retried exactly when the limit follows a failure it retries. */
  lemma CutOffExactlyWhen(task: Task, maxAttempts: nat, started: int, reports: nat -> Report)
    ensures var p := Execution(task, maxAttempts, started, reports).progress;
            p.limit && p.retries != []
            <==> task.attempt < maxAttempts && LimitAfterFailure(BatchIds(task.ids), started, reports)
  {
    var ids, retryable := BatchIds(task.ids), task.attempt < maxAttempts;
    if ids != [] {
      RecordsCutOffExactlyWhen(ids, started, reports, retryable);
    }
  }

  lemma RecordsCutOffExactlyWhen(ids: seq<string>, started: int, reports: nat -> Report, retryable: bool)
    ensures var p := Records(ids, started, reports, retryable, |ids|);
            p.limit && p.retries != [] <==> retryable && LimitAfterFailure(ids, started, reports)
  {
    var p := Records(ids, started, reports, retryable, |ids|);
    if p.stopped {
      var m := StopIsSomewhere(ids, started, reports, retryable);
      RecordsRunTo(ids, started, reports, retryable, m);
      FirstStop(ids, started, reports, m);
    } else {
      NeverStoppedRunsTo(ids, started, reports, retryable, |ids|);
      RecordsRunTo(ids, started, reports, retryable, |ids|);
      forall m | 0 <= m < |ids| ensures !reports(m).outcome.MeetsSubrequestLimit? {
        assert !StopsHere(ids, started, reports, m);
      }
    }
  }

  lemma FirstStop(ids: seq<string>, started: int, reports: nat -> Report, m: nat)
    requires m < |ids| && RunsTo(ids, started, reports, m) && StopsHere(ids, started, reports, m)
    ensures LimitAfterFailure(ids, started, reports)
            <==> reports(m).outcome.MeetsSubrequestLimit? && FailsBefore(reports, m)
  {
    forall k | 0 <= k < |ids| && reports(k).outcome.MeetsSubrequestLimit? && RunsTo(ids, started, reports, k)
      ensures k == m {
      assert StopsHere(ids, started, reports, k);
    }
  }

  // ---- chains of continuations ----

  /**
   * A continuation is never empty, and shorter than its batch exactly unless the limit struck with the first id
   * incomplete.
   */
  lemma ContinuationShrinks(task: Task, maxAttempts: nat, started: int, reports: nat -> Report)
    requires Execution(task, maxAttempts, started, reports).continuation.Some?
    ensures var s := Execution(task, maxAttempts, started, reports);
            var ids := BatchIds(task.ids);
            var next := s.continuation.value.ids;
            && ids != [] && next != [] && |next| <= |ids| && next == ids[|ids| - |next|..]
            && (|next| < |ids| <==> !(s.progress.limit && ids[0] !in s.progress.completed))
  {
    SpawnedBatches(task, maxAttempts, started, reports);
  }

  /** When nothing fails for a while, the completed ids and the continuation are the batch, in order. */
  lemma CalmTaskKeepsOrder(task: Task, maxAttempts: nat, started: int, reports: nat -> Report)
    requires Execution(task, maxAttempts, started, reports).progress.retries == []
    ensures var s := Execution(task, maxAttempts, started, reports);
            s.progress.completed + Ids(s.continuation) == BatchIds(task.ids)
  {
    var ids := BatchIds(task.ids);
    BatchIdsAreABatch(task.ids);
    SpawnedBatches(task, maxAttempts, started, reports);
    if ids != [] {
      CalmProgress(Execution(task, maxAttempts, started, reports).progress, ids);
    }
  }

  lemma CalmProgress(p: Progress, ids: seq<string>)
    requires IsBatch(ids) && Accounts(p, ids) && p.retries == [] && (p.stopped || p.processed == |ids|)
    ensures p.completed + p.remaining == ids
  {
    if p.limit {
      NextIsIncomplete(p, ids);
    }
  }

  /** When a task of a chain is executed, and how its records end. */
  datatype Link = Link(started: int, reports: nat -> Report)

  /** What a chain has completed, and the continuation it has come to. */
  datatype Chained = Chained(log: seq<string>, rest: Option<Task>)

  function Chain(task: Task, maxAttempts: nat, links: seq<Link>): Chained {
    if links == [] then Chained([], Some(task)) else
      var before, link := Chain(task, maxAttempts, links[..|links| - 1]), links[|links| - 1];
      if before.rest.None? then before else
        var s := Execution(before.rest.value, maxAttempts, link.started, link.reports);
        Chained(before.log + s.progress.completed, s.continuation)
  }

  /** No record of the chain is to be retried. */
  predicate Calm(task: Task, maxAttempts: nat, links: seq<Link>) {
    links == [] ||
      var before, link := Chain(task, maxAttempts, links[..|links| - 1]), links[|links| - 1];
      Calm(task, maxAttempts, links[..|links| - 1])
      && (before.rest.None?
          || Execution(before.rest.value, maxAttempts, link.started, link.reports).progress.retries == [])
  }

  /**
   * A chain of checkpoints completes its batch in order: what is complete, followed by what is pending, is the batch.
   */
  lemma {:induction false} ChainKeepsOrder(task: Task, maxAttempts: nat, links: seq<Link>)
    requires Calm(task, maxAttempts, links)
    ensures var r := Chain(task, maxAttempts, links); r.log + BatchIds(Ids(r.rest)) == BatchIds(task.ids)
    decreases |links|
  {
    if links == [] {
      assert [] + BatchIds(task.ids) == BatchIds(task.ids);
    } else {
      var before, link := Chain(task, maxAttempts, links[..|links| - 1]), links[|links| - 1];
      ChainKeepsOrder(task, maxAttempts, links[..|links| - 1]);
      if before.rest.Some? {
        CalmTaskKeepsOrder(before.rest.value, maxAttempts, link.started, link.reports);
        SpawnedBatches(before.rest.value, maxAttempts, link.started, link.reports);
        var s := Execution(before.rest.value, maxAttempts, link.started, link.reports);
        BatchIdsOfBatch(Ids(s.continuation));
        Regroup(before.log, s.progress.completed, Ids(s.continuation));
      }
    }
  }

  lemma Regroup(a: seq<string>, b: seq<string>, c: seq<string>)
    ensures a + b + c == a + (b + c)
  {
  }

  /** The limit at the only record: the task enqueues itself again, attempt unchanged, and without its deferral. */
  lemma LimitEnqueuesItself(id: string, attempt: nat, cursor: Option<string>, deferred: bool, maxAttempts: nat,
                            started: int)
    requires id != ""
    ensures var task := Task([id], attempt, cursor, deferred);
            Execution(task, maxAttempts, started, (k: nat) => Report(MeetsSubrequestLimit, started)).continuation
            == Some(task.(deferred := false))
  {
    BatchIdsOfBatch([id]);
    var reports := (k: nat) => Report(MeetsSubrequestLimit, started);
    assert Records([id], started, reports, attempt < maxAttempts, 0) == NO_PROGRESS;
  }

  // ---- how much work is left ----

  function AttemptsLeft(maxAttempts: nat, attempt: nat): nat { Max(0, maxAttempts - attempt) }

  lemma Lighter(completed: nat, retried: nat, remaining: nat, weight: nat)
    requires completed + retried > 0
    ensures retried * weight + remaining * (weight + 1) < (completed + retried + remaining) * (weight + 1)
  {
    assert (completed + retried + remaining) * (weight + 1)
           == completed * (weight + 1) + retried * weight + retried + remaining * (weight + 1);
    assert completed * (weight + 1) >= completed;
  }

  lemma RetryWork(maxAttempts: nat, retries: nat, attempt: nat)
    requires attempt < maxAttempts
    ensures retries * (AttemptsLeft(maxAttempts, attempt + 1) + 1) == retries * AttemptsLeft(maxAttempts, attempt)
  {
  }

  ghost predicate Counted(task: Task, maxAttempts: nat, s: Spawn) {
    && Handled(s.progress) > 0 && Handled(s.progress) + |s.progress.remaining| == |BatchIds(task.ids)|
    && s.progress.retries == Ids(s.retry) && s.progress.remaining == Ids(s.continuation)
    && (s.retry.Some? ==> s.retry.value.attempt == task.attempt + 1 <= maxAttempts)
    && (s.continuation.Some? ==> s.continuation.value.attempt == task.attempt)
  }

  lemma SpawnIsCounted(task: Task, maxAttempts: nat, started: int, reports: nat -> Report)
    requires BatchIds(task.ids) != [] && !Execution(task, maxAttempts, started, reports).progress.limit
    ensures Counted(task, maxAttempts, Execution(task, maxAttempts, started, reports))
  {
    SpawnShape(task, maxAttempts, started, reports);
    SpawnedBatches(task, maxAttempts, started, reports);
    SomethingHandled(task, maxAttempts, started, reports);
  }

  lemma {:induction false} SpawnWork(task: Task, maxAttempts: nat, s: Spawn)
    requires Counted(task, maxAttempts, s)
    ensures (if s.retry.None? then 0 else |s.retry.value.ids| * (AttemptsLeft(maxAttempts, s.retry.value.attempt) + 1))
            + (if s.continuation.None? then 0
               else |s.continuation.value.ids| * (AttemptsLeft(maxAttempts, s.continuation.value.attempt) + 1))
            < |BatchIds(task.ids)| * (AttemptsLeft(maxAttempts, task.attempt) + 1)
  {
    var w := AttemptsLeft(maxAttempts, task.attempt);
    var completed, retried, remaining := |s.progress.completed|, |s.progress.retries|, |s.progress.remaining|;
    if s.retry.Some? {
      RetryWork(maxAttempts, retried, task.attempt);
    }
    Lighter(completed, retried, remaining, w);
    assert completed + retried + remaining == |BatchIds(task.ids)|;
  }
}

/**
 * Resolving a batch of identity records in a task that may stop early, on its time budget or on the platform's
 * subrequest limit, and hands what is left to a continuation and what failed for a while to a retry task.
 */
module Backfill {
  import opened Prelude
  import opened Ordering
  import opened Seqs

  const TASK_BUDGET_MS := 18000
  const LEAST_BUDGET_MS := 1000

  /** How a record ends: settled in any final way, failed for a while, or cut off by the subrequest limit. */
  datatype Outcome = Settled | FailsTransiently | MeetsSubrequestLimit

  datatype Report = Report(outcome: Outcome, now: int)

  datatype Task = Task(ids: seq<string>, attempt: nat, cursor: Option<string>, deferred: bool)

  datatype Next = Discover(cursor: string) | Finalize

  predicate ShouldCheckpoint(started: int, now: int, budget: int, processed: int, total: int) {
    && 0 < processed < total
    && started != 0
    && Max(0, now - started) >= Max(LEAST_BUDGET_MS, if budget == 0 then TASK_BUDGET_MS else budget)
  }

  const NONEMPTY: string -> bool := (s: string) => s != ""

  /** Ids are texts already trimmed; the empty ones are dropped. */
  function Clean(ids: seq<string>): seq<string> { Filter(NONEMPTY, ids) }

  /** The ids a task works on: no empty one, each once. */
  function BatchIds(ids: seq<string>): seq<string> { Firsts(Clean(ids)) }

  ghost predicate IsBatch(ids: seq<string>) { Distinct(ids) && "" !in ids }

  lemma BatchIdsAreABatch(ids: seq<string>)
    ensures IsBatch(BatchIds(ids))
    ensures forall x :: x in BatchIds(ids) <==> x in ids && x != ""
  {
  }

  lemma {:induction false} FirstsOfDistinct(s: seq<string>)
    requires Distinct(s)
    ensures Firsts(s) == s
    decreases |s|
  {
    if s != [] {
      var front := s[..|s| - 1];
      FirstsOfDistinct(front);
      assert s == front + [s[|s| - 1]];
    }
  }

  lemma {:induction false} BatchIdsOfBatch(ids: seq<string>)
    requires IsBatch(ids)
    ensures Clean(ids) == ids && BatchIds(ids) == ids
  {
    FilterAll(NONEMPTY, ids);
    FirstsOfDistinct(ids);
  }

  function RemainingIds(ids: seq<string>, processed: int): seq<string> {
    Clean(ids)[Min(|Clean(ids)|, Max(0, processed))..]
  }

  /** The position of the first id that is not complete. */
  function FirstIncomplete(ids: seq<string>, completed: seq<string>): (n: nat)
    ensures n <= |ids|
    ensures forall i :: 0 <= i < n ==> ids[i] in completed
    ensures n < |ids| ==> ids[n] !in completed
  {
    if ids == [] || ids[0] !in completed then 0 else 1 + FirstIncomplete(ids[1..], completed)
  }

  /** Processed prefix and remainder are always the whole batch, and the remainder starts at the first incomplete id. */
  method SubrequestLimitCheckpoint(platformOrderIds: seq<string>, completedIds: seq<string>)
      returns (processed: nat, remaining: seq<string>)
    ensures processed == FirstIncomplete(Clean(platformOrderIds), completedIds)
    ensures remaining == RemainingIds(platformOrderIds, processed)
    ensures Clean(platformOrderIds)[..processed] + remaining == Clean(platformOrderIds)
    ensures forall x <- Clean(platformOrderIds)[..processed] :: x in completedIds
    ensures remaining != [] ==> remaining[0] !in completedIds
  {
    var ids := Clean(platformOrderIds);
    processed := 0;
    while processed < |ids| && ids[processed] in completedIds
      invariant processed <= |ids| && forall i :: 0 <= i < processed ==> ids[i] in completedIds
    {
      processed := processed + 1;
    }
    remaining := RemainingIds(platformOrderIds, processed);
  }

  // ---- one task ----

  datatype Progress = Progress(
    processed: nat, completed: seq<string>, retries: seq<string>, stopped: bool, limit: bool, remaining: seq<string>)

  const NO_PROGRESS := Progress(0, [], [], false, false, [])

  /** The progress after one more record. */
  function AfterRecord(p: Progress, ids: seq<string>, started: int, report: Report, retryable: bool): Progress
    requires p.processed < |ids|
  {
    if report.outcome.MeetsSubrequestLimit? then AtLimit(p, ids)
    else
      var q := OneHandled(p, ids[p.processed], report.outcome.FailsTransiently? && retryable);
      if ShouldCheckpoint(started, report.now, TASK_BUDGET_MS, q.processed, |ids|) then AtBudget(q, ids) else q
  }

  /** The progress after the first `k` records, or up to where the task stopped. */
  function Records(ids: seq<string>, started: int, reports: nat -> Report, retryable: bool, k: nat): (p: Progress)
    requires k <= |ids|
    ensures !p.stopped ==> p.processed == k
  {
    if k == 0 then NO_PROGRESS else
      var p := Records(ids, started, reports, retryable, k - 1);
      if p.stopped then p else AfterRecord(p, ids, started, reports(k - 1), retryable)
  }

  function Handled(p: Progress): nat { |p.completed| + |p.retries| }

  /** Every record handled so far is complete or to be retried, and a stop leaves the right remainder. */
  ghost predicate Accounts(p: Progress, ids: seq<string>) {
    && Handled(p) <= |ids|
    && multiset(p.completed) + multiset(p.retries) == multiset(ids[..Handled(p)])
    && (p.retries == [] ==> p.completed == ids[..Handled(p)])
    && (!p.stopped ==> p.processed == Handled(p) && p.remaining == [] && !p.limit)
    && (p.stopped && !p.limit
        ==> p.processed == Handled(p) && 0 < p.processed < |ids| && p.remaining == ids[p.processed..])
    && (p.limit ==> p.stopped && Handled(p) < |ids|)
    && (p.limit ==> p.processed == FirstIncomplete(ids, p.completed) && p.remaining == ids[p.processed..])
  }

  lemma MultisetSnoc(s: seq<string>, x: string)
    ensures multiset(s + [x]) == multiset(s) + multiset{x}
  {
  }

  function OneHandled(p: Progress, id: string, again: bool): Progress {
    p.(processed := p.processed + 1, completed := if again then p.completed else p.completed + [id],
       retries := if again then p.retries + [id] else p.retries)
  }

  lemma {:induction false} OneHandledAccounts(p: Progress, ids: seq<string>, again: bool)
    requires Accounts(p, ids) && !p.stopped && p.processed < |ids|
    ensures Accounts(OneHandled(p, ids[p.processed], again), ids)
  {
    var id := ids[p.processed];
    assert ids[..p.processed + 1] == ids[..p.processed] + [id];
    MultisetSnoc(ids[..p.processed], id);
    MultisetSnoc(p.completed, id);
    MultisetSnoc(p.retries, id);
  }

  function AtLimit(p: Progress, ids: seq<string>): Progress {
    var n := FirstIncomplete(Clean(ids), p.completed);
    p.(processed := n, stopped := true, limit := true, remaining := RemainingIds(ids, n))
  }

  function AtBudget(p: Progress, ids: seq<string>): Progress {
    p.(stopped := true, remaining := RemainingIds(ids, p.processed))
  }

  lemma {:induction false} LimitAccounts(p: Progress, ids: seq<string>)
    requires IsBatch(ids) && Accounts(p, ids) && !p.stopped && p.processed < |ids|
    ensures Accounts(AtLimit(p, ids), ids)
  {
    BatchIdsOfBatch(ids);
  }

  lemma {:induction false} BudgetAccounts(p: Progress, ids: seq<string>)
    requires IsBatch(ids) && Accounts(p, ids) && !p.stopped
    ensures 0 < p.processed < |ids| ==> Accounts(AtBudget(p, ids), ids)
  {
    BatchIdsOfBatch(ids);
  }

  lemma {:induction false} RecordAccounts(p: Progress, ids: seq<string>, started: int, report: Report, retryable: bool)
    requires IsBatch(ids) && Accounts(p, ids) && !p.stopped && p.processed < |ids|
    ensures Accounts(AfterRecord(p, ids, started, report, retryable), ids)
  {
    if report.outcome.MeetsSubrequestLimit? {
      LimitAccounts(p, ids);
    } else {
      var again := report.outcome.FailsTransiently? && retryable;
      OneHandledAccounts(p, ids, again);
      BudgetAccounts(OneHandled(p, ids[p.processed], again), ids);
    }
  }

  lemma {:induction false} RecordsAccount(ids: seq<string>, started: int, reports: nat -> Report, retryable: bool,
                                          k: nat)
    requires IsBatch(ids) && k <= |ids|
    ensures Accounts(Records(ids, started, reports, retryable, k), ids)
    decreases k
  {
    if k == 0 {
      assert multiset(NO_PROGRESS.completed) + multiset(NO_PROGRESS.retries) == multiset(ids[..0]);
    } else {
      RecordsAccount(ids, started, reports, retryable, k - 1);
      var p := Records(ids, started, reports, retryable, k - 1);
      if !p.stopped {
        RecordAccounts(p, ids, started, reports(k - 1), retryable);
      }
    }
  }

  datatype Spawn = Spawn(progress: Progress, retry: Option<Task>, continuation: Option<Task>, next: Option<Next>)

  /** What a task enqueues once it has stopped or run through its records. */
  function Enqueued(task: Task, p: Progress): Spawn {
    var retrying := p.retries != [];
    Spawn(p,
          if retrying then
            Some(Task(p.retries, task.attempt + 1, if p.stopped then None else task.cursor, p.stopped || task.deferred))
          else None,
          if p.stopped && p.remaining != [] then Some(Task(p.remaining, task.attempt, task.cursor, false)) else None,
          if (p.stopped && p.remaining != []) || retrying || task.deferred then None
          else Some(if task.cursor.Some? then Discover(task.cursor.value) else Finalize))
  }

  function Execution(task: Task, maxAttempts: nat, started: int, reports: nat -> Report): Spawn {
    var ids := BatchIds(task.ids);
    if ids == [] then Spawn(NO_PROGRESS, None, None, None)
    else Enqueued(task, Records(ids, started, reports, task.attempt < maxAttempts, |ids|))
  }

  method Execute(task: Task, maxAttempts: nat, started: int, reports: nat -> Report) returns (r: Spawn)
    ensures r == Execution(task, maxAttempts, started, reports)
  {
    var ids := BatchIds(task.ids);
    if ids == [] {
      return Spawn(NO_PROGRESS, None, None, None);
    }
    var p := RunRecords(ids, started, reports, task.attempt < maxAttempts);
    r := Enqueued(task, p);
  }

  method RunRecords(ids: seq<string>, started: int, reports: nat -> Report, retryable: bool) returns (p: Progress)
    ensures p == Records(ids, started, reports, retryable, |ids|)
  {
    p := NO_PROGRESS;
    var k := 0;
    while k < |ids| && !p.stopped
      invariant k <= |ids| && p == Records(ids, started, reports, retryable, k)
    {
      RecordsNext(ids, started, reports, retryable, k);
      p := OneRecord(p, ids, started, reports(k), retryable);
      k := k + 1;
    }
    StoppedForGood(ids, started, reports, retryable, k);
  }

  method OneRecord(p: Progress, ids: seq<string>, started: int, report: Report, retryable: bool) returns (q: Progress)
    requires p.processed < |ids|
    ensures q == AfterRecord(p, ids, started, report, retryable)
  {
    q := p;
    if report.outcome.MeetsSubrequestLimit? {
      var processed, remaining := SubrequestLimitCheckpoint(ids, p.completed);
      q := q.(processed := processed, stopped := true, limit := true, remaining := remaining);
    } else {
      if report.outcome.FailsTransiently? && retryable {
        q := q.(retries := q.retries + [ids[p.processed]]);
      } else {
        q := q.(completed := q.completed + [ids[p.processed]]);
      }
      q := q.(processed := q.processed + 1);
      if ShouldCheckpoint(started, report.now, TASK_BUDGET_MS, q.processed, |ids|) {
        q := q.(stopped := true, remaining := RemainingIds(ids, q.processed));
      }
    }
  }

  lemma RecordsNext(ids: seq<string>, started: int, reports: nat -> Report, retryable: bool, k: nat)
    requires k < |ids| && !Records(ids, started, reports, retryable, k).stopped
    ensures Records(ids, started, reports, retryable, k + 1)
            == AfterRecord(Records(ids, started, reports, retryable, k), ids, started, reports(k), retryable)
  {
  }

  lemma {:induction false} StoppedForGood(ids: seq<string>, started: int, reports: nat -> Report, retryable: bool,
                                          k: nat)
    requires k <= |ids| && (k < |ids| ==> Records(ids, started, reports, retryable, k).stopped)
    ensures Records(ids, started, reports, retryable, |ids|) == Records(ids, started, reports, retryable, k)
    decreases |ids| - k
  {
    if k < |ids| {
      StoppedForGood(ids, started, reports, retryable, k + 1);
    }
  }
}

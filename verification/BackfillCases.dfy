/**
 * Backfill jobs that go wrong: one that never has its finalization, and one that has it, and ends, before its next
 * page.
 */
module BackfillCases {
  import opened Prelude
  import opened Backfill
  import opened BackfillJob
  import opened BackfillRuns
  import opened BackfillEnds

  const MAX_ATTEMPTS := 5
  const NO_PAGE := Page([], None)

  /** Every record ends in the same way. */
  function Every(outcome: Outcome, now: int): nat -> Report { (k: nat) => Report(outcome, now) }

  /** The first record fails for a while, and the others end in the given way. */
  function FailsFirst(rest: Outcome, now: int): nat -> Report {
    (k: nat) => Report(if k == 0 then FailsTransiently else rest, now)
  }

  function Next(job: Job, c: Choice): Job { Step(job, MAX_ATTEMPTS, c) }

  lemma {:induction false} RunSnoc(cursor: string, choices: seq<Choice>, c: Choice)
    ensures Run(Initial(cursor), MAX_ATTEMPTS, choices + [c]) == Next(Run(Initial(cursor), MAX_ATTEMPTS, choices), c)
  {
    assert (choices + [c])[..|choices|] == choices;
  }

  lemma {:induction false} RunOfFour(cursor: string, c: Choice, d: Choice, e: Choice, f: Choice)
    ensures Run(Initial(cursor), MAX_ATTEMPTS, [c, d, e, f]) == Next(Next(Next(Next(Initial(cursor), c), d), e), f)
  {
    assert [c, d] == [c] + [d] && [c, d, e] == [c, d] + [e] && [c, d, e, f] == [c, d, e] + [f];
    assert Run(Initial(cursor), MAX_ATTEMPTS, []) == Initial(cursor) && [c] == [] + [c];
    RunSnoc(cursor, [], c);
    RunSnoc(cursor, [c], d);
    RunSnoc(cursor, [c, d], e);
    RunSnoc(cursor, [c, d, e], f);
  }

  lemma {:induction false} RunOfFive(cursor: string, c: Choice, d: Choice, e: Choice, f: Choice, g: Choice)
    ensures Run(Initial(cursor), MAX_ATTEMPTS, [c, d, e, f, g])
            == Next(Run(Initial(cursor), MAX_ATTEMPTS, [c, d, e, f]), g)
  {
    assert [c, d, e, f, g] == [c, d, e, f] + [g];
    RunSnoc(cursor, [c, d, e, f], g);
  }

  // ---- a batch of one, and the first two records of a batch of two ----

  lemma {:induction false} OneRecordOf(id: string, started: int, reports: nat -> Report, retryable: bool)
    requires id != ""
    ensures BatchIds([id]) == [id] && Clean([id]) == [id]
    ensures Records([id], started, reports, retryable, 1)
            == AfterRecord(NO_PROGRESS, [id], started, reports(0), retryable)
  {
    BatchIdsOfBatch([id]);
    assert Records([id], started, reports, retryable, 0) == NO_PROGRESS;
  }

  lemma {:induction false} TwoRecordsOf(a: string, b: string, started: int, reports: nat -> Report, retryable: bool)
    requires a != "" && b != "" && a != b
    ensures BatchIds([a, b]) == [a, b] && Clean([a, b]) == [a, b]
    ensures var ids := [a, b];
            var one := AfterRecord(NO_PROGRESS, ids, started, reports(0), retryable);
            Records(ids, started, reports, retryable, 2)
            == if one.stopped then one else AfterRecord(one, ids, started, reports(1), retryable)
  {
    BatchIdsOfBatch([a, b]);
    assert Records([a, b], started, reports, retryable, 0) == NO_PROGRESS;
  }

  lemma {:induction false} SingleSettles(task: Task, id: string)
    requires id != "" && task.ids == [id]
    ensures Execution(task, MAX_ATTEMPTS, 0, Every(Settled, 0))
            == Enqueued(task, Progress(1, [id], [], false, false, []))
  {
    OneRecordOf(id, 0, Every(Settled, 0), task.attempt < MAX_ATTEMPTS);
  }

  lemma {:induction false} LimitAfterFirst(task: Task, a: string, b: string)
    requires a != "" && b != "" && a != b && task.ids == [a, b] && task.attempt < MAX_ATTEMPTS
    ensures Execution(task, MAX_ATTEMPTS, 0, FailsFirst(MeetsSubrequestLimit, 0))
            == Enqueued(task, Progress(0, [], [a], true, true, [a, b]))
  {
    TwoRecordsOf(a, b, 0, FailsFirst(MeetsSubrequestLimit, 0), true);
    assert [a, b][0..] == [a, b];
  }

  lemma {:induction false} FirstIsRetried(task: Task, a: string, b: string)
    requires a != "" && b != "" && a != b && task.ids == [a, b] && task.attempt < MAX_ATTEMPTS
    ensures Execution(task, MAX_ATTEMPTS, 0, FailsFirst(Settled, 0))
            == Enqueued(task, Progress(2, [b], [a], false, false, []))
  {
    TwoRecordsOf(a, b, 0, FailsFirst(Settled, 0), true);
  }

  // ---- a job that never has its finalization ----

  function WholeKey(a: string, b: string, suffix: Suffix): Key { ResolveKey(a, b, 2, suffix) }

  function OneKey(id: string, suffix: Suffix): Key { ResolveKey(id, id, 1, suffix) }

  lemma {:induction false} KeysOf(a: string, b: string, suffix: Suffix)
    requires a != "" && b != "" && a != b
    ensures BatchKey([a, b], suffix) == WholeKey(a, b, suffix) && BatchIds([a, b]) == [a, b]
  {
    BatchIdsOfBatch([a, b]);
  }

  lemma {:induction false} KeyOfOne(id: string, suffix: Suffix)
    requires id != ""
    ensures BatchKey([id], suffix) == OneKey(id, suffix) && BatchIds([id]) == [id]
  {
    BatchIdsOfBatch([id]);
  }

  function DiscoveredPair(cursor: string, a: string, b: string, next: Option<string>): Job {
    Job([Entry(DiscoverKey(cursor), Discovery(cursor), true),
         Entry(WholeKey(a, b, Plain), Resolve(Task([a, b], 0, next, false)), false)],
        [], Tally(multiset{a, b}, 0, [], 0), false)
  }

  lemma {:induction false} PairIsDiscovered(cursor: string, a: string, b: string, next: Option<string>)
    requires a != "" && b != "" && a != b
    ensures Next(Initial(cursor), Choice(0, 0, Every(Settled, 0), Page([a, b], next)))
            == DiscoveredPair(cursor, a, b, next)
  {
    KeysOf(a, b, Plain);
    assert multiset([a, b]) == multiset{a, b};
  }

  function Closing(job: Job, c: Choice, s: Spawn): Job
    requires Resolves(job, c)
  {
    var stray := job.entries[c.index].work.task.deferred && s.continuation.Some?;
    Closed(job, c).(log := job.log + s.progress.completed,
                    tally := job.tally.(strays := job.tally.strays + if stray then 1 else 0))
  }

  lemma {:induction false} NextIs(job: Job, c: Choice, s: Spawn)
    requires Resolves(job, c) && Execution(job.entries[c.index].work.task, MAX_ATTEMPTS, c.started, c.reports) == s
    ensures Next(job, c) == EnqueueSpawn(Closing(job, c, s), s, c.index)
  {
  }

  /** A batch that is retried and continued, under new keys. */
  lemma {:induction false} BothEnqueued(job: Job, s: Spawn, parent: nat)
    requires s.retry.Some? && s.continuation.Some? && s.next.None?
    requires var retry, continuation := RetryOrder(s).value, ContinuationOrder(s, parent).value;
             retry.key != continuation.key && !Known(job.entries, retry.key) && !Known(job.entries, continuation.key)
    ensures var retry, continuation := RetryOrder(s).value, ContinuationOrder(s, parent).value;
            EnqueueSpawn(job, s, parent)
            == job.(entries := job.entries
                    + [Entry(retry.key, retry.work, false), Entry(continuation.key, continuation.work, false)])
  {
    var retry, continuation := RetryOrder(s).value, ContinuationOrder(s, parent).value;
    var one := Enqueue(job, retry);
    KnownSnoc(job.entries, Entry(retry.key, retry.work, false), continuation.key);
    assert Enqueue(one, continuation).entries
           == job.entries + [Entry(retry.key, retry.work, false), Entry(continuation.key, continuation.work, false)];
  }

  lemma {:induction false} OnlyContinued(job: Job, s: Spawn, parent: nat)
    requires s.retry.None? && s.continuation.Some? && s.next.None?
             && !Known(job.entries, ContinuationOrder(s, parent).value.key)
    ensures var continuation := ContinuationOrder(s, parent).value;
            EnqueueSpawn(job, s, parent)
            == job.(entries := job.entries + [Entry(continuation.key, continuation.work, false)])
  {
  }

  const CUT_OFF := Choice(1, 0, FailsFirst(MeetsSubrequestLimit, 0), NO_PAGE)
  const RETRIED := Choice(2, 0, Every(Settled, 0), NO_PAGE)
  const CONTINUED := Choice(3, 0, FailsFirst(Settled, 0), NO_PAGE)

  /**
   * The first id was to be retried when the limit cut the batch off: it is handed to a retry, and to a continuation
   * too.
   */
  function CutOffPair(cursor: string, a: string, b: string): Job {
    var job := DiscoveredPair(cursor, a, b, None);
    job.(entries := [job.entries[0], job.entries[1].(done := true),
                     Entry(OneKey(a, AsRetry(1)), Resolve(Task([a], 1, None, true)), false),
                     Entry(WholeKey(a, b, AsContinuation(1, 0)), Resolve(Task([a, b], 0, None, false)), false)])
  }

  lemma {:induction false} PairIsCutOff(cursor: string, a: string, b: string)
    requires a != "" && b != "" && a != b
    ensures Next(DiscoveredPair(cursor, a, b, None), CUT_OFF) == CutOffPair(cursor, a, b)
  {
    var job := DiscoveredPair(cursor, a, b, None);
    LimitAfterFirst(job.entries[1].work.task, a, b);
    var s := Enqueued(job.entries[1].work.task, Progress(0, [], [a], true, true, [a, b]));
    NextIs(job, CUT_OFF, s);
    KeyOfOne(a, AsRetry(1));
    KeysOf(a, b, AsContinuation(1, 0));
    BothEnqueued(Closing(job, CUT_OFF, s), s, 1);
  }

  /** The continuation settles the second id, and the first fails again: its retry has the key of the pending one. */
  function ContinuedPair(cursor: string, a: string, b: string): Job {
    var job := CutOffPair(cursor, a, b);
    job.(entries := job.entries[3 := job.entries[3].(done := true)], log := [b],
         tally := job.tally.(missed := [Resolve(Task([a], 1, None, false))]))
  }

  lemma {:induction false} ContinuationMisses(cursor: string, a: string, b: string)
    requires a != "" && b != "" && a != b
    ensures Next(CutOffPair(cursor, a, b), CONTINUED) == ContinuedPair(cursor, a, b)
  {
    var job := CutOffPair(cursor, a, b);
    FirstIsRetried(job.entries[3].work.task, a, b);
    var s := Enqueued(job.entries[3].work.task, Progress(2, [b], [a], false, false, []));
    NextIs(job, CONTINUED, s);
    KeyOfOne(a, AsRetry(1));
    KnownClosed(job, CONTINUED, OneKey(a, AsRetry(1)));
    assert job.entries[2].key == OneKey(a, AsRetry(1));
    OnlyRetried(Closing(job, CONTINUED, s), s, 3);
  }

  lemma {:induction false} OnlyRetried(job: Job, s: Spawn, parent: nat)
    requires s.retry.Some? && s.continuation.None? && s.next.None? && Known(job.entries, RetryOrder(s).value.key)
    ensures EnqueueSpawn(job, s, parent)
            == job.(tally := job.tally.(missed := job.tally.missed + [Resolve(s.retry.value)]))
  {
  }

  function StalledPair(cursor: string, a: string, b: string): Job {
    var job := ContinuedPair(cursor, a, b);
    job.(entries := job.entries[2 := job.entries[2].(done := true)], log := [b, a])
  }

  lemma {:induction false} RetryIsDone(cursor: string, a: string, b: string)
    requires a != "" && b != "" && a != b
    ensures Next(ContinuedPair(cursor, a, b), RETRIED) == StalledPair(cursor, a, b)
  {
    SingleSettles(ContinuedPair(cursor, a, b).entries[2].work.task, a);
  }

  /**
   * The retry of an id that fails again in the continuation has the key of the retry that is pending, a deferred one.
   * It is not enqueued, and with it the duty to finalize is gone: the job runs out of work and has no finalization.
   */
  lemma {:induction false} StalledJob(cursor: string, a: string, b: string)
    requires a != "" && b != "" && a != b
    ensures var choices := [Choice(0, 0, Every(Settled, 0), Page([a, b], None)), CUT_OFF, CONTINUED, RETRIED];
            var r := Run(Initial(cursor), MAX_ATTEMPTS, choices);
            && Drained(r) && !Known(r.entries, FinalizeKey)
            && multiset(r.log) == r.tally.discovered && Ignored(r) == 1 && r.tally.strays == 0
  {
    RunOfFour(cursor, Choice(0, 0, Every(Settled, 0), Page([a, b], None)), CUT_OFF, CONTINUED, RETRIED);
    PairIsDiscovered(cursor, a, b, None);
    PairIsCutOff(cursor, a, b);
    ContinuationMisses(cursor, a, b);
    RetryIsDone(cursor, a, b);
    StalledFacts(cursor, a, b);
  }

  lemma {:induction false} StalledFacts(cursor: string, a: string, b: string)
    ensures var r := StalledPair(cursor, a, b);
            && Drained(r) && !Known(r.entries, FinalizeKey)
            && multiset(r.log) == r.tally.discovered && Ignored(r) == 1 && r.tally.strays == 0
  {
    var r := StalledPair(cursor, a, b);
    SumSnoc(DUTY, [], r.tally.missed[0]);
    assert r.tally.missed == [] + [r.tally.missed[0]];
    assert multiset([b, a]) == multiset{a, b};
  }

  // ---- a job that has its finalization before its next page ----

  const SPENT := TASK_BUDGET_MS + 1

  lemma {:induction false} BudgetAfterFirst(task: Task, a: string, b: string)
    requires a != "" && b != "" && a != b && task.ids == [a, b] && task.attempt < MAX_ATTEMPTS
    ensures Execution(task, MAX_ATTEMPTS, 1, FailsFirst(Settled, SPENT))
            == Enqueued(task, Progress(1, [], [a], true, false, [b]))
  {
    var ids, reports := [a, b], FailsFirst(Settled, SPENT);
    TwoRecordsOf(a, b, 1, reports, true);
    assert ids[1..] == [b] && RemainingIds(ids, 1) == [b];
    assert reports(0) == Report(FailsTransiently, SPENT);
    assert AfterRecord(NO_PROGRESS, ids, 1, reports(0), true) == Progress(1, [], [a], true, false, [b]);
  }

  lemma {:induction false} LimitAtOnce(task: Task, id: string)
    requires id != "" && task.ids == [id]
    ensures Execution(task, MAX_ATTEMPTS, 0, Every(MeetsSubrequestLimit, 0))
            == Enqueued(task, Progress(0, [], [], true, true, [id]))
  {
    OneRecordOf(id, 0, Every(MeetsSubrequestLimit, 0), task.attempt < MAX_ATTEMPTS);
    assert [id][0..] == [id];
  }

  const BUDGET_SPENT := Choice(1, 1, FailsFirst(Settled, SPENT), NO_PAGE)
  const STRAYS := Choice(2, 0, Every(MeetsSubrequestLimit, 0), NO_PAGE)
  const STRAY_SETTLES := Choice(4, 0, Every(Settled, 0), NO_PAGE)

  /** The first id waits for a deferred retry, without the cursor; the second is continued. */
  function ParkedPair(cursor: string, a: string, b: string, next: string): Job {
    var job := DiscoveredPair(cursor, a, b, Some(next));
    job.(entries := [job.entries[0], job.entries[1].(done := true),
                     Entry(OneKey(a, AsRetry(1)), Resolve(Task([a], 1, None, true)), false),
                     Entry(OneKey(b, AsContinuation(1, 1)), Resolve(Task([b], 0, Some(next), false)), false)])
  }

  lemma {:induction false} ParkedOrders(s: Spawn, a: string, b: string, next: string)
    requires a != "" && b != ""
    requires s == Enqueued(Task([a, b], 0, Some(next), false), Progress(1, [], [a], true, false, [b]))
    ensures RetryOrder(s) == Some(Order(OneKey(a, AsRetry(1)), Resolve(Task([a], 1, None, true))))
    ensures ContinuationOrder(s, 1)
            == Some(Order(OneKey(b, AsContinuation(1, 1)), Resolve(Task([b], 0, Some(next), false))))
    ensures s.next.None?
  {
    KeyOfOne(a, AsRetry(1));
    KeyOfOne(b, AsContinuation(1, 1));
  }

  lemma {:induction false} PairIsParked(cursor: string, a: string, b: string, next: string)
    requires a != "" && b != "" && a != b
    ensures Next(DiscoveredPair(cursor, a, b, Some(next)), BUDGET_SPENT) == ParkedPair(cursor, a, b, next)
  {
    var job := DiscoveredPair(cursor, a, b, Some(next));
    BudgetAfterFirst(job.entries[1].work.task, a, b);
    var s := Enqueued(job.entries[1].work.task, Progress(1, [], [a], true, false, [b]));
    NextIs(job, BUDGET_SPENT, s);
    ParkedOrders(s, a, b, next);
    BothEnqueued(Closing(job, BUDGET_SPENT, s), s, 1);
  }

  /** The deferred retry is stopped: its continuation is deferred no longer. */
  function StrayedPair(cursor: string, a: string, b: string, next: string): Job {
    var job := ParkedPair(cursor, a, b, next);
    job.(entries := job.entries[2 := job.entries[2].(done := true)]
                    + [Entry(OneKey(a, AsContinuation(2, 0)), Resolve(Task([a], 1, None, false)), false)],
         tally := job.tally.(strays := 1))
  }

  lemma {:induction false} StrayOrder(s: Spawn, a: string)
    requires a != "" && s == Enqueued(Task([a], 1, None, true), Progress(0, [], [], true, true, [a]))
    ensures ContinuationOrder(s, 2) == Some(Order(OneKey(a, AsContinuation(2, 0)), Resolve(Task([a], 1, None, false))))
    ensures s.retry.None? && s.next.None?
  {
    KeyOfOne(a, AsContinuation(2, 0));
  }

  lemma {:induction false} RetryStrays(cursor: string, a: string, b: string, next: string)
    requires a != "" && b != "" && a != b
    ensures Next(ParkedPair(cursor, a, b, next), STRAYS) == StrayedPair(cursor, a, b, next)
  {
    StrayStep(ParkedPair(cursor, a, b, next), a);
  }

  /** A deferred batch of one, pending at position two, meets the limit. */
  lemma {:induction false} StrayStep(job: Job, a: string)
    requires a != "" && !job.ended && |job.entries| > 2 && !job.entries[2].done
             && job.entries[2].work == Resolve(Task([a], 1, None, true))
    requires !Known(job.entries, OneKey(a, AsContinuation(2, 0)))
    ensures Next(job, STRAYS)
            == job.(entries := job.entries[2 := job.entries[2].(done := true)]
                               + [Entry(OneKey(a, AsContinuation(2, 0)), Resolve(Task([a], 1, None, false)), false)],
                    tally := job.tally.(strays := job.tally.strays + 1))
  {
    var s := Enqueued(Task([a], 1, None, true), Progress(0, [], [], true, true, [a]));
    LimitAtOnce(job.entries[2].work.task, a);
    NextIs(job, STRAYS, s);
    StrayOrder(s, a);
    StrayCloses(job, s, a);
    KnownClosed(job, STRAYS, OneKey(a, AsContinuation(2, 0)));
    OnlyContinued(Closing(job, STRAYS, s), s, 2);
  }

  lemma {:induction false} StrayCloses(job: Job, s: Spawn, a: string)
    requires Resolves(job, STRAYS) && job.entries[2].work.task.deferred && s.continuation.Some?
    requires s.progress.completed == []
    ensures Closing(job, STRAYS, s)
            == job.(entries := job.entries[2 := job.entries[2].(done := true)],
                    tally := job.tally.(strays := job.tally.strays + 1))
  {
  }

  function EarlyPair(cursor: string, a: string, b: string, next: string): Job {
    var job := StrayedPair(cursor, a, b, next);
    Job(job.entries[4 := job.entries[4].(done := true)]
        + [Entry(FinalizeKey, Finalization, false)], [a], job.tally.(calls := 1), false)
  }

  lemma {:induction false} StrayFinalizes(cursor: string, a: string, b: string, next: string)
    requires a != "" && b != "" && a != b
    ensures Next(StrayedPair(cursor, a, b, next), STRAY_SETTLES) == EarlyPair(cursor, a, b, next)
  {
    var job := StrayedPair(cursor, a, b, next);
    SingleSettles(job.entries[4].work.task, a);
    NextIs(job, STRAY_SETTLES, Enqueued(job.entries[4].work.task, Progress(1, [a], [], false, false, [])));
  }

  lemma {:induction false} EarlyRun(cursor: string, a: string, b: string, next: string)
    requires a != "" && b != "" && a != b
    ensures var first := Choice(0, 0, Every(Settled, 0), Page([a, b], Some(next)));
            Run(Initial(cursor), MAX_ATTEMPTS, [first, BUDGET_SPENT, STRAYS, STRAY_SETTLES])
            == EarlyPair(cursor, a, b, next)
  {
    RunOfFour(cursor, Choice(0, 0, Every(Settled, 0), Page([a, b], Some(next))), BUDGET_SPENT, STRAYS, STRAY_SETTLES);
    PairIsDiscovered(cursor, a, b, Some(next));
    PairIsParked(cursor, a, b, next);
    RetryStrays(cursor, a, b, next);
    StrayFinalizes(cursor, a, b, next);
  }

  /**
   * The stray settles its one id and calls for finalization, while the next page waits for the batch that is to
   * discover it.
   */
  lemma {:induction false} EarlyFinalization(cursor: string, a: string, b: string, next: string)
    requires a != "" && b != "" && a != b
    ensures var choices := [Choice(0, 0, Every(Settled, 0), Page([a, b], Some(next))), BUDGET_SPENT, STRAYS,
                            STRAY_SETTLES];
            var r := Run(Initial(cursor), MAX_ATTEMPTS, choices);
            && Known(r.entries, FinalizeKey) && DutyPending(r.entries) && r.tally.strays == 1 && r.tally.missed == []
            && exists i ::
                 && 0 <= i < |r.entries| && !r.entries[i].done
                 && r.entries[i].work == Resolve(Task([b], 0, Some(next), false))
  {
    EarlyRun(cursor, a, b, next);
    EarlyEntries(cursor, a, b, next);
    var r := EarlyPair(cursor, a, b, next);
    assert HasDuty(r.entries[3].work) && r.entries[5].key == FinalizeKey;
  }

  const ENDS := Choice(5, 0, Every(Settled, 0), NO_PAGE)

  /** One step more makes the job terminal: whatever is chosen later, the second id and the next page are lost. */
  lemma {:induction false} EarlyFinalizationLosesIds(
    cursor: string, a: string, b: string, next: string, later: seq<Choice>)
    requires a != "" && b != "" && a != b && next != cursor
    ensures var choices := [Choice(0, 0, Every(Settled, 0), Page([a, b], Some(next))), BUDGET_SPENT, STRAYS,
                            STRAY_SETTLES, ENDS];
            var r := Run(Initial(cursor), MAX_ATTEMPTS, choices);
            && Run(r, MAX_ATTEMPTS, later) == r && r.ended && r.log == [a] && r.tally.discovered == multiset{a, b}
            && Waits(r.entries, b) && !Known(r.entries, DiscoverKey(next))
  {
    var first, early := Choice(0, 0, Every(Settled, 0), Page([a, b], Some(next))), EarlyPair(cursor, a, b, next);
    EarlyRun(cursor, a, b, next);
    RunOfFive(cursor, first, BUDGET_SPENT, STRAYS, STRAY_SETTLES, ENDS);
    EarlyEntries(cursor, a, b, next);
    EarlyPairEnds(early, b, next);
    EndedForGood(Next(early, ENDS), MAX_ATTEMPTS, later);
  }

  lemma {:induction false} EndStep(job: Job, c: Choice)
    requires Finalizes(job, c)
    ensures Next(job, c) == job.(entries := job.entries[c.index := job.entries[c.index].(done := true)], ended := true)
  {
  }

  lemma {:induction false} WaitsAt(job: Job, i: nat, id: string)
    requires id != "" && i < |job.entries| && !job.entries[i].done
    requires job.entries[i].work.Resolve? && job.entries[i].work.task.ids == [id]
    ensures Waits(job.entries, id)
  {
    KeyOfOne(id, Plain);
  }

  lemma {:induction false} EarlyEntries(cursor: string, a: string, b: string, next: string)
    ensures var job := EarlyPair(cursor, a, b, next);
            && !job.ended && |job.entries| == 6 && job.log == [a] && job.tally == Tally(multiset{a, b}, 1, [], 1)
            && job.entries[0].key == DiscoverKey(cursor)
            && (forall i :: 1 <= i < 6 ==> !job.entries[i].key.DiscoverKey?)
            && job.entries[3].work == Resolve(Task([b], 0, Some(next), false)) && !job.entries[3].done
            && job.entries[5] == Entry(FinalizeKey, Finalization, false)
  {
    var job := EarlyPair(cursor, a, b, next);
    assert job.entries[1].key.ResolveKey? && job.entries[2].key.ResolveKey? && job.entries[3].key.ResolveKey?;
    assert job.entries[4].key.ResolveKey? && job.entries[5].key.FinalizeKey?;
  }

  lemma {:induction false} EarlyPairEnds(job: Job, b: string, next: string)
    requires b != "" && !job.ended && |job.entries| == 6 && job.entries[0].key != DiscoverKey(next)
    requires forall i :: 1 <= i < 6 ==> !job.entries[i].key.DiscoverKey?
    requires job.entries[3].work == Resolve(Task([b], 0, Some(next), false)) && !job.entries[3].done
    requires job.entries[5].work == Finalization && !job.entries[5].done
    ensures var r := Next(job, ENDS);
            && r.ended && r.log == job.log && r.tally == job.tally
            && Waits(r.entries, b) && !Known(r.entries, DiscoverKey(next))
  {
    EndStep(job, ENDS);
    WaitsAt(Next(job, ENDS), 3, b);
  }

  // ---- a job whose last batch waits for nothing ----

  const SETTLES_BOTH := Choice(3, 0, Every(Settled, 0), NO_PAGE)
  const ENDS_FOURTH := Choice(4, 0, Every(Settled, 0), NO_PAGE)

  lemma {:induction false} BothSettle(task: Task, a: string, b: string)
    requires a != "" && b != "" && a != b && task.ids == [a, b]
    ensures Execution(task, MAX_ATTEMPTS, 0, Every(Settled, 0))
            == Enqueued(task, Progress(2, [a, b], [], false, false, []))
  {
    TwoRecordsOf(a, b, 0, Every(Settled, 0), task.attempt < MAX_ATTEMPTS);
    assert [] + [a] + [b] == [a, b];
  }

  function SettledPair(cursor: string, a: string, b: string): Job {
    var job := CutOffPair(cursor, a, b);
    Job(job.entries[3 := job.entries[3].(done := true)] + [Entry(FinalizeKey, Finalization, false)], [a, b],
        job.tally.(calls := 1), false)
  }

  lemma {:induction false} ContinuationSettles(cursor: string, a: string, b: string)
    requires a != "" && b != "" && a != b
    ensures Next(CutOffPair(cursor, a, b), SETTLES_BOTH) == SettledPair(cursor, a, b)
  {
    var job := CutOffPair(cursor, a, b);
    BothSettle(job.entries[3].work.task, a, b);
    NextIs(job, SETTLES_BOTH, Enqueued(job.entries[3].work.task, Progress(2, [a, b], [], false, false, [])));
  }

  /**
   * After a cut-off a batch may be left waiting though every id is complete: the retry of an id that the continuation
   * has settled.
   */
  lemma {:induction false} RepeatedIdWaits(cursor: string, a: string, b: string)
    requires a != "" && b != "" && a != b
    ensures var choices := [Choice(0, 0, Every(Settled, 0), Page([a, b], None)), CUT_OFF, SETTLES_BOTH, ENDS_FOURTH];
            var r := Run(Initial(cursor), MAX_ATTEMPTS, choices);
            r.ended && AllComplete(r) && Waits(r.entries, a)
  {
    RunOfFour(cursor, Choice(0, 0, Every(Settled, 0), Page([a, b], None)), CUT_OFF, SETTLES_BOTH, ENDS_FOURTH);
    PairIsDiscovered(cursor, a, b, None);
    PairIsCutOff(cursor, a, b);
    ContinuationSettles(cursor, a, b);
    SettledPairEnds(cursor, a, b);
  }

  lemma {:induction false} SettledPairEnds(cursor: string, a: string, b: string)
    requires a != "" && b != "" && a != b
    ensures var r := Next(SettledPair(cursor, a, b), ENDS_FOURTH); r.ended && AllComplete(r) && Waits(r.entries, a)
  {
    var r := Next(SettledPair(cursor, a, b), ENDS_FOURTH);
    EndStep(SettledPair(cursor, a, b), ENDS_FOURTH);
    WaitsAt(r, 2, a);
    assert r.log == [a, b] && r.tally.discovered == multiset{a, b};
  }
}

/** Where a backfill task stops and how each of its records ends, told by its reports alone. */
module BackfillRules {
  import opened Prelude
  import opened Backfill
  import opened BackfillLaws

  /** A batch goes on for at least a second, and by default for eighteen. */
  lemma CheckpointExactly(started: int, now: int, budget: int, processed: int, total: int)
    ensures ShouldCheckpoint(started, now, budget, processed, total) <==>
            && 1 <= processed <= total - 1 && (started < 0 || started > 0)
            && now >= started + 1000 && now - started >= (match budget case 0 => 18000 case _ => budget)
  {
  }

  ghost predicate MeetsLimit(reports: nat -> Report, i: nat) { reports(i).outcome == MeetsSubrequestLimit }

  /** The clock stands eighteen seconds or more after a known start. */
  ghost predicate IsLate(started: int, reports: nat -> Report, i: nat) {
    started != 0 && reports(i).now >= started + 18000
  }

  /** The subrequest limit stops a task at any record, the clock only while records are left. */
  ghost predicate StopsAt(started: int, reports: nat -> Report, i: nat, total: nat) {
    MeetsLimit(reports, i) || (i + 1 < total && IsLate(started, reports, i))
  }

  ghost predicate RunsThrough(started: int, reports: nat -> Report, k: nat, total: nat) {
    forall i: nat :: i < k ==> !StopsAt(started, reports, i, total)
  }

  /** The task stops at record `s`, and this record is not handled when it meets the limit. */
  ghost predicate EndsAt(p: Progress, started: int, reports: nat -> Report, s: nat, total: nat) {
    && RunsThrough(started, reports, s, total) && StopsAt(started, reports, s, total)
    && p.stopped && (p.limit <==> MeetsLimit(reports, s))
    && Handled(p) == if MeetsLimit(reports, s) then s else s + 1
  }

  ghost predicate FailsAgain(reports: nat -> Report, retryable: bool, i: nat) {
    retryable && reports(i).outcome == FailsTransiently
  }

  /** A handled record is to be retried exactly when it failed for a while and may be retried, else it is complete. */
  ghost predicate EndsWell(p: Progress, ids: seq<string>, reports: nat -> Report, retryable: bool, i: nat)
    requires i < |ids|
  {
    && (ids[i] in p.retries <==> FailsAgain(reports, retryable, i))
    && (ids[i] in p.completed <==> !FailsAgain(reports, retryable, i))
  }

  ghost predicate RecordsExactly(p: Progress, ids: seq<string>, started: int, reports: nat -> Report, retryable: bool,
                                 k: nat)
  {
    && Handled(p) <= |ids|
    && (forall i: nat :: i < Handled(p) ==> EndsWell(p, ids, reports, retryable, i))
    && (p.stopped ==> exists s: nat :: s < k && EndsAt(p, started, reports, s, |ids|))
    && (!p.stopped ==> Handled(p) == k && !p.limit && RunsThrough(started, reports, k, |ids|))
  }

  lemma OneMoreEndsWell(p: Progress, ids: seq<string>, reports: nat -> Report, retryable: bool, again: bool)
    requires IsBatch(ids) && Accounts(p, ids) && !p.stopped && p.processed < |ids|
    requires forall i: nat :: i < Handled(p) ==> EndsWell(p, ids, reports, retryable, i)
    requires again <==> FailsAgain(reports, retryable, p.processed)
    ensures var q := OneHandled(p, ids[p.processed], again);
            forall i: nat :: i < Handled(p) + 1 ==> EndsWell(q, ids, reports, retryable, i)
  {
    var n := p.processed;
    var q := OneHandled(p, ids[n], again);
    assert ids[n] !in p.completed && ids[n] !in p.retries by {
      LastIsNew(p, ids);
    }
    forall i: nat | i < Handled(p) + 1 ensures EndsWell(q, ids, reports, retryable, i) {
      if i < n {
        assert EndsWell(p, ids, reports, retryable, i) && ids[i] != ids[n];
      }
    }
  }

  lemma LastIsNew(p: Progress, ids: seq<string>)
    requires IsBatch(ids) && Accounts(p, ids) && Handled(p) < |ids|
    ensures ids[Handled(p)] !in p.completed && ids[Handled(p)] !in p.retries
  {
    var n := Handled(p);
    forall x | x in p.completed || x in p.retries ensures x in ids[..n] {
      assert x in multiset(p.completed) + multiset(p.retries);
    }
  }

  lemma RecordExactly(p: Progress, ids: seq<string>, started: int, reports: nat -> Report, retryable: bool, k: nat)
    requires IsBatch(ids) && Accounts(p, ids) && !p.stopped && k < |ids|
    requires RecordsExactly(p, ids, started, reports, retryable, k)
    ensures RecordsExactly(AfterRecord(p, ids, started, reports(k), retryable), ids, started, reports, retryable, k + 1)
  {
    var q := AfterRecord(p, ids, started, reports(k), retryable);
    if reports(k).outcome.MeetsSubrequestLimit? {
      assert EndsAt(q, started, reports, k, |ids|);
      forall i: nat | i < Handled(q) ensures EndsWell(q, ids, reports, retryable, i) {
        assert EndsWell(p, ids, reports, retryable, i);
      }
    } else {
      var again := reports(k).outcome.FailsTransiently? && retryable;
      OneMoreEndsWell(p, ids, reports, retryable, again);
      var h := OneHandled(p, ids[k], again);
      CheckpointExactly(started, reports(k).now, TASK_BUDGET_MS, h.processed, |ids|);
      if q.stopped {
        assert EndsAt(q, started, reports, k, |ids|);
      }
      forall i: nat | i < Handled(q) ensures EndsWell(q, ids, reports, retryable, i) {
        assert EndsWell(h, ids, reports, retryable, i);
      }
    }
  }

  /** After the first `k` records: where the task stopped, if it did, and how every handled record ended. */
  lemma {:induction false} TaskExactly(ids: seq<string>, started: int, reports: nat -> Report, retryable: bool, k: nat)
    requires IsBatch(ids) && k <= |ids|
    ensures RecordsExactly(Records(ids, started, reports, retryable, k), ids, started, reports, retryable, k)
    decreases k
  {
    if k > 0 {
      TaskExactly(ids, started, reports, retryable, k - 1);
      RecordsAccount(ids, started, reports, retryable, k - 1);
      var p := Records(ids, started, reports, retryable, k - 1);
      if !p.stopped {
        RecordExactly(p, ids, started, reports, retryable, k - 1);
      } else {
        var s: nat :| s < k - 1 && EndsAt(p, started, reports, s, |ids|);
        assert EndsAt(p, started, reports, s, |ids|) && s < k;
      }
    }
  }

  // ---- who goes on with the discovery ----

  /** The cursor goes to the continuation, else to the retry, else the next page is discovered; never to two of them. */
  lemma {:induction false} CursorGoesOn(task: Task, maxAttempts: nat, started: int, reports: nat -> Report)
    requires BatchIds(task.ids) != []
    ensures var s := Execution(task, maxAttempts, started, reports);
            match (s.continuation, s.retry)
            case (Some(c), None) => c.cursor == task.cursor && s.next == None
            case (Some(c), Some(r)) => c.cursor == task.cursor && r.cursor == None && r.deferred && s.next == None
            case (None, Some(r)) => r.cursor == task.cursor && r.deferred == task.deferred && s.next == None
            case (None, None) =>
              s.next == if task.deferred then None
                        else if task.cursor == None then Some(Finalize)
                        else Some(Discover(task.cursor.value))
  {
    var ids := BatchIds(task.ids);
    BatchIdsAreABatch(task.ids);
    RecordsAccount(ids, started, reports, task.attempt < maxAttempts, |ids|);
    NextIsIncomplete(Records(ids, started, reports, task.attempt < maxAttempts, |ids|), ids);
  }
}

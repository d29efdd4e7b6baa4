/**
 * When a running task counts as stale, what is then decided, and how often a lock counts, in terms of the task's row.
 */
module RuntimeTaskRules {
  import opened Prelude
  import opened RuntimeTasks

  /** The times at which the task showed life; a missing one counts as 0. */
  predicate ShowsLife(task: Task, t: int) {
    || (task.summary.heartbeatAt == Some(t) || (task.summary.heartbeatAt == None && t == 0))
    || (task.lockedAt == Some(t) || (task.lockedAt == None && t == 0))
    || (task.updatedAt == Some(t) || (task.updatedAt == None && t == 0))
  }

  /** The last of them. */
  ghost predicate LastLife(task: Task, t: int) {
    ShowsLife(task, t) && forall other :: ShowsLife(task, other) ==> other <= t
  }

  /** A task is stale exactly when it runs, has shown life at some time, and that is a staleness period ago. */
  lemma StaleExactlyWhen(task: Task, now: int, staleMs: int, last: int)
    requires LastLife(task, last)
    ensures IsStale(task, now, staleMs)
            <==> task.status == Running && last != 0 && (staleMs <= 0 || now >= last + staleMs)
  {
    assert ShowsLife(task, Millis(task.summary.heartbeatAt)) && ShowsLife(task, Millis(task.lockedAt));
    assert ShowsLife(task, Millis(task.updatedAt));
    assert ShowsLife(task, HeartbeatMs(task));
  }

  /** Five attempts unless the row sets another number, and one at least. */
  lemma BoundExactly(task: Task)
    ensures task.maxAttempts == 0 ==> MaxAttempts(task) == 5
    ensures task.maxAttempts < 0 ==> MaxAttempts(task) == 1
    ensures task.maxAttempts > 0 ==> MaxAttempts(task) == task.maxAttempts
  {
  }

  /** The diagnostics after one more event: it is the last of at most 25, behind the last of those before. */
  ghost predicate Records(before: Summary, after: Summary, e: Diagnostic) {
    && after.heartbeatAt == Some(e.at) && after.heartbeatEvent == e.event
    && after.heartbeatCount == before.heartbeatCount + 1 && after.diagnosticCount == before.diagnosticCount
    && 1 <= |after.events| <= 25 && after.events[|after.events| - 1] == e
    && |after.events| == (if |before.events| < 25 then |before.events| + 1 else 25)
    && forall i :: 0 <= i < |after.events| - 1 ==>
         after.events[i] == before.events[|before.events| - (|after.events| - 1) + i]
  }

  lemma AppendRecords(summary: Summary, e: Diagnostic)
    ensures Records(summary, Append(summary, e), e)
  {
  }

  /** What is decided on a task, and the row it leaves. */
  lemma DecisionExactly(kind: Recovery, task: Task, now: int, staleMs: int)
    ensures var d := Decide(kind, task, now, staleMs);
            && (d.Active? <==> !IsStale(task, now, staleMs))
            && (d.Fail? <==> IsStale(task, now, staleMs) && task.attempt >= MaxAttempts(task))
            && (!d.Active? ==>
                  && d.patched.updatedAt == Some(now) && d.patched.maxAttempts == task.maxAttempts
                  && d.patched.attempt == task.attempt + (if d.Fail? then 0 else 1)
                  && d.patched.status == (if d.Fail? then Failed else if kind == Reclaim then Running else Queued)
                  && d.patched.lockedAt == (if d.Recover? && kind == Reclaim then Some(now) else None)
                  && Records(task.summary, d.patched.summary,
                             if d.Fail? then Diagnostic(now, "stale_exhausted", None)
                             else if kind == Reclaim then Diagnostic(now, "stale_recovered", None)
                             else Diagnostic(now, "stale_reclaimed", Some(task.attempt + 1))))
  {
    AppendRecords(task.summary, Diagnostic(now, "stale_exhausted", None));
    AppendRecords(task.summary, Diagnostic(now, "stale_recovered", None));
    AppendRecords(task.summary, Diagnostic(now, "stale_reclaimed", Some(task.attempt + 1)));
  }

  /** A retained event says that a requeue has counted this attempt. */
  ghost predicate SaysCounted(task: Task) {
    exists e :: e in task.summary.events && e.reclaimedAttempt == Some(task.attempt)
  }

  /** A lock counts one attempt, but for one that a requeue has counted already. */
  lemma LockExactly(task: Task, now: int)
    ensures var locked := Lock(task, now);
            && locked.attempt == (if task.attempt > 0 && SaysCounted(task) then task.attempt else task.attempt + 1)
            && locked.status == Running && locked.lockedAt == Some(now) && locked.updatedAt == Some(now)
            && locked.maxAttempts == task.maxAttempts
            && Records(task.summary, locked.summary, Diagnostic(now, "lock_acquired", None))
  {
    AppendRecords(task.summary, Diagnostic(now, "lock_acquired", None));
    if SaysCounted(task) {
      var e :| e in task.summary.events && e.reclaimedAttempt == Some(task.attempt);
      var i :| 0 <= i < |task.summary.events| && task.summary.events[i] == e;
      assert Marks(task.summary.events[i], task.attempt);
    }
    if AttemptAlreadyIncremented(task) && task.attempt > 0 {
      var i :| 0 <= i < |task.summary.events| && Marks(task.summary.events[i], task.attempt);
      assert task.summary.events[i] in task.summary.events;
    }
  }

  /**
   * Requeued and then locked, with any diagnostics in between: one attempt together exactly when they are at most 24.
   */
  lemma RequeueAndLockCountOnceExactlyWhen(task: Task, now: int, staleMs: int, es: seq<Diagnostic>, later: int)
    requires Decide(Requeue, task, now, staleMs).Recover?
    requires forall e <- es :: e.reclaimedAttempt != Some(task.attempt + 1)
    ensures var requeued := Decide(Requeue, task, now, staleMs).patched;
            var locked := Lock(requeued.(summary := AppendEach(requeued.summary, es)), later);
            locked.attempt == task.attempt + (if |es| <= 24 then 1 else 2)
  {
    var requeued := Decide(Requeue, task, now, staleMs).patched;
    forall e | e in es ensures !Marks(e, task.attempt + 1) {
      MarksExactly(e, task.attempt + 1);
    }
    MarkerOutlives24Appends(task, now, staleMs, es);
    RequeueCounts(task, now, staleMs);
    LockCounts(requeued.(summary := AppendEach(requeued.summary, es)), later);
  }

  lemma MarksExactly(e: Diagnostic, attempt: nat)
    requires attempt > 0
    ensures Marks(e, attempt) <==> e.reclaimedAttempt == Some(attempt)
  {
  }

  lemma RequeueCounts(task: Task, now: int, staleMs: int)
    requires Decide(Requeue, task, now, staleMs).Recover?
    ensures Decide(Requeue, task, now, staleMs).patched.attempt == task.attempt + 1
  {
  }

  lemma LockCounts(task: Task, now: int)
    requires task.attempt > 0
    ensures Lock(task, now).attempt == task.attempt + if AttemptAlreadyIncremented(task) then 0 else 1
  {
  }

  /** A waiting task is locked, and a task in another state is left alone. */
  lemma LocksExactlyWaiting(w: World, staleMs: int)
    ensures Do(w, TakeLock, staleMs)
            == if w.task.status in {Queued, Retrying} then w.(task := Lock(w.task, w.now)) else w
  {
  }

  /** A batch of diagnostics is one heartbeat, counts each of them, and stamps those that have no time of their own. */
  lemma BatchExactly(summary: Summary, name: string, items: seq<Buffered>, now: int)
    ensures var after := AppendBatch(summary, name, items, now);
            && after.heartbeatAt == Some(now) && after.heartbeatEvent == name
            && after.heartbeatCount == summary.heartbeatCount + 1
            && after.diagnosticCount == summary.diagnosticCount + |items|
            && forall i :: 0 <= i < |items| && |items| - i <= 25 ==>
                 var e := after.events[|after.events| - |items| + i];
                 && e.event == items[i].event && e.reclaimedAttempt == items[i].reclaimedAttempt
                 && (items[i].at.Some? ==> e.at == items[i].at.value) && (items[i].at.None? ==> e.at == now)
  {
  }
}

/**
 * Connector runtime tasks: the bounded diagnostic window, the heartbeat that makes a running task
 * stale, and the two decisions that recover a stale task with bounded attempts.
 */
module RuntimeTasks {
  import opened Prelude

  const DIAGNOSTIC_EVENT_LIMIT := 25

  /** A diagnostic event; only a requeue records the attempt it already counted. */
  datatype Diagnostic = Diagnostic(at: int, event: string, reclaimedAttempt: Option<nat>)

  datatype Summary = Summary(
    heartbeatAt: Option<int>,
    heartbeatEvent: string,
    heartbeatCount: nat,
    diagnosticCount: nat,
    events: seq<Diagnostic>)

  /** `slice(-n)` for a positive n. */
  function KeepLast<T>(s: seq<T>, n: nat): seq<T> {
    if |s| <= n then s else s[|s| - n..]
  }

  function Append(summary: Summary, e: Diagnostic): Summary {
    summary.(
      heartbeatAt := Some(e.at),
      heartbeatEvent := e.event,
      heartbeatCount := summary.heartbeatCount + 1,
      events := KeepLast(summary.events, DIAGNOSTIC_EVENT_LIMIT - 1) + [e])
  }

  function AppendEach(summary: Summary, es: seq<Diagnostic>): Summary
    decreases |es|
  {
    if es == [] then summary else AppendEach(Append(summary, es[0]), es[1..])
  }

  /** A buffered event; its own time is used when it has one. */
  datatype Buffered = Buffered(event: string, at: Option<int>, reclaimedAttempt: Option<nat>)

  function Stamp(item: Buffered, now: int): Diagnostic {
    Diagnostic(if item.at.Some? then item.at.value else now, item.event, item.reclaimedAttempt)
  }

  function StampAll(items: seq<Buffered>, now: int): (es: seq<Diagnostic>)
    ensures |es| == |items|
  {
    seq(|items|, i requires 0 <= i < |items| => Stamp(items[i], now))
  }

  function AppendBatch(summary: Summary, heartbeatEvent: string, items: seq<Buffered>, now: int): Summary {
    summary.(
      heartbeatAt := Some(now),
      heartbeatEvent := heartbeatEvent,
      heartbeatCount := summary.heartbeatCount + 1,
      diagnosticCount := summary.diagnosticCount + |items|,
      events := KeepLast(summary.events + StampAll(items, now), DIAGNOSTIC_EVENT_LIMIT))
  }

  /** Any number of single appends leaves the last 25 of everything ever appended. */
  lemma {:induction false} AppendEachKeepsWindow(summary: Summary, es: seq<Diagnostic>)
    requires es != []
    ensures AppendEach(summary, es).events == KeepLast(summary.events + es, DIAGNOSTIC_EVENT_LIMIT)
    ensures |AppendEach(summary, es).events| <= DIAGNOSTIC_EVENT_LIMIT
    decreases |es|
  {
    var next := Append(summary, es[0]);
    if |es| == 1 {
      assert AppendEach(next, []) == next;
      assert es == [es[0]];
    } else {
      AppendEachKeepsWindow(next, es[1..]);
      assert summary.events + es == summary.events + [es[0]] + es[1..];
    }
  }

  /** A batch gives the event list of its single appends exactly when it is non-empty or nothing had to be cut. */
  lemma BatchMatchesSingles(summary: Summary, heartbeatEvent: string, items: seq<Buffered>, now: int)
    ensures AppendBatch(summary, heartbeatEvent, items, now).events == AppendEach(summary, StampAll(items, now)).events
            <==> items != [] || |summary.events| <= DIAGNOSTIC_EVENT_LIMIT
    ensures |AppendBatch(summary, heartbeatEvent, items, now).events| <= DIAGNOSTIC_EVENT_LIMIT
  {
    if items == [] {
      assert summary.events + StampAll(items, now) == summary.events;
    } else {
      AppendEachKeepsWindow(summary, StampAll(items, now));
    }
  }

  // ---- tasks ----

  datatype Status = Queued | Running | Retrying | Completed | Failed

  /** `maxAttempts` is 0 when the row does not set it. */
  datatype Task = Task(
    status: Status,
    lockedAt: Option<int>,
    updatedAt: Option<int>,
    attempt: nat,
    maxAttempts: int,
    summary: Summary)

  function Millis(t: Option<int>): int { if t.Some? then t.value else 0 }

  function HeartbeatMs(task: Task): int {
    Max(Millis(task.summary.heartbeatAt), Max(Millis(task.lockedAt), Millis(task.updatedAt)))
  }

  predicate IsStale(task: Task, now: int, staleMs: int) {
    task.status.Running? && HeartbeatMs(task) != 0 && Max(0, now - HeartbeatMs(task)) >= staleMs
  }

  function MaxAttempts(task: Task): int { Max(1, if task.maxAttempts == 0 then 5 else task.maxAttempts) }

  datatype Recovery = Reclaim | Requeue

  datatype Decision = Active | Fail(patched: Task) | Recover(patched: Task)

  /** The recovery decision (`Reclaim`) and the requeue decision, with their patch written to the row. */
  function Decide(kind: Recovery, task: Task, now: int, staleMs: int): Decision {
    if !IsStale(task, now, staleMs) then Active
    else if task.attempt >= MaxAttempts(task) then
      Fail(task.(status := Failed, lockedAt := None, updatedAt := Some(now),
                 summary := Append(task.summary, Diagnostic(now, "stale_exhausted", None))))
    else
      var next := task.attempt + 1;
      match kind
      case Reclaim =>
        Recover(task.(status := Running, lockedAt := Some(now), updatedAt := Some(now), attempt := next,
                      summary := Append(task.summary, Diagnostic(now, "stale_recovered", None))))
      case Requeue =>
        Recover(task.(status := Queued, lockedAt := None, updatedAt := Some(now), attempt := next,
                      summary := Append(task.summary, Diagnostic(now, "stale_reclaimed", Some(next)))))
  }

  predicate Marks(e: Diagnostic, attempt: nat) {
    (if e.reclaimedAttempt.Some? then e.reclaimedAttempt.value else 0) == attempt
  }

  predicate MarkedIn(events: seq<Diagnostic>, attempt: nat) {
    exists i :: 0 <= i < |events| && Marks(events[i], attempt)
  }

  /** True when some retained event says that this attempt was counted by a requeue. */
  predicate AttemptAlreadyIncremented(task: Task) {
    MarkedIn(task.summary.events, task.attempt)
  }

  /** Taking the lock counts an attempt unless a requeue already did. */
  function Lock(task: Task, now: int): Task {
    task.(
      status := Running, lockedAt := Some(now), updatedAt := Some(now),
      attempt := if AttemptAlreadyIncremented(task) then Max(1, task.attempt) else task.attempt + 1,
      summary := Append(task.summary, Diagnostic(now, "lock_acquired", None)))
  }

  lemma MarkerInWindow(before: seq<Diagnostic>, es: seq<Diagnostic>, attempt: nat)
    requires before != [] && Marks(before[|before| - 1], attempt)
    requires forall e <- es :: !Marks(e, attempt)
    ensures MarkedIn(KeepLast(before + es, DIAGNOSTIC_EVENT_LIMIT), attempt) <==> |es| <= 24
  {
    var window := KeepLast(before + es, DIAGNOSTIC_EVENT_LIMIT);
    if |es| <= 24 {
      assert window[|window| - |es| - 1] == before[|before| - 1];
    } else {
      forall i | 0 <= i < |window| ensures !Marks(window[i], attempt) {
        assert window[i] == es[|es| - 25 + i] && window[i] in es;
      }
    }
  }

  lemma {:induction false} MarkedAfterAppends(summary: Summary, es: seq<Diagnostic>, attempt: nat)
    requires 1 <= |summary.events| <= DIAGNOSTIC_EVENT_LIMIT && Marks(summary.events[|summary.events| - 1], attempt)
    requires forall e <- es :: !Marks(e, attempt)
    ensures MarkedIn(AppendEach(summary, es).events, attempt) <==> |es| <= 24
  {
    MarkerInWindow(summary.events, es, attempt);
    if es == [] {
      assert summary.events + es == summary.events;
    } else {
      AppendEachKeepsWindow(summary, es);
    }
  }

  /** The requeue marker survives exactly 24 further appends. */
  lemma {:induction false} MarkerOutlives24Appends(task: Task, now: int, staleMs: int, es: seq<Diagnostic>)
    requires Decide(Requeue, task, now, staleMs).Recover?
    requires forall e <- es :: !Marks(e, task.attempt + 1)
    ensures var requeued := Decide(Requeue, task, now, staleMs).patched;
            AttemptAlreadyIncremented(requeued.(summary := AppendEach(requeued.summary, es))) <==> |es| <= 24
  {
    MarkedAfterAppends(Decide(Requeue, task, now, staleMs).patched.summary, es, task.attempt + 1);
  }

  // ---- runs ----

  datatype Step = Tick(ms: nat) | Heartbeat(event: string) | StaleCheck(kind: Recovery) | TakeLock

  datatype Recovered = Recovered(at: int, before: nat, after: nat)

  /** A task, the clock, and every reclaim and requeue so far. */
  datatype World = World(task: Task, now: int, recoveries: seq<Recovered>)

  function Do(w: World, step: Step, staleMs: int): World {
    match step
    case Tick(ms) => w.(now := w.now + ms)
    case Heartbeat(name) =>
      w.(task := w.task.(updatedAt := Some(w.now), summary := Append(w.task.summary, Diagnostic(w.now, name, None))))
    case TakeLock => if w.task.status.Queued? || w.task.status.Retrying? then w.(task := Lock(w.task, w.now)) else w
    case StaleCheck(kind) =>
      match Decide(kind, w.task, w.now, staleMs)
      case Active => w
      case Fail(patched) => w.(task := patched)
      case Recover(patched) =>
        w.(task := patched, recoveries := w.recoveries + [Recovered(w.now, w.task.attempt, patched.attempt)])
  }

  function DoAll(w: World, steps: seq<Step>, staleMs: int): World
    decreases |steps|
  {
    if steps == [] then w else DoAll(Do(w, steps[0], staleMs), steps[1..], staleMs)
  }

  ghost predicate PacedLog(log: seq<Recovered>, bound: int, staleMs: int) {
    && (forall i :: 0 <= i < |log| ==> log[i].after == log[i].before + 1 && log[i].after <= bound)
    && (forall i :: 1 <= i < |log| ==> log[i].at - log[i - 1].at >= staleMs && log[i - 1].after <= log[i].before)
  }

  /** Each recovery counts one attempt within the bound, and comes at least `staleMs` after the one before. */
  ghost predicate Paced(w: World, staleMs: int) {
    && PacedLog(w.recoveries, MaxAttempts(w.task), staleMs)
    && (w.recoveries != [] ==>
         var last := w.recoveries[|w.recoveries| - 1];
         last.at <= HeartbeatMs(w.task) && last.at <= w.now && last.after <= w.task.attempt)
  }

  lemma ExtendLog(log: seq<Recovered>, bound: int, staleMs: int, r: Recovered)
    requires PacedLog(log, bound, staleMs) && r.after == r.before + 1 <= bound
    requires log != [] ==> r.at - log[|log| - 1].at >= staleMs && log[|log| - 1].after <= r.before
    ensures PacedLog(log + [r], bound, staleMs)
  {
  }

  lemma RecoverFacts(kind: Recovery, task: Task, now: int, staleMs: int)
    requires Decide(kind, task, now, staleMs).Recover?
    ensures var patched := Decide(kind, task, now, staleMs).patched;
            && patched.attempt == task.attempt + 1 <= MaxAttempts(task) && MaxAttempts(patched) == MaxAttempts(task)
            && HeartbeatMs(patched) >= now && Max(0, now - HeartbeatMs(task)) >= staleMs
  {
  }

  lemma OtherStepFacts(w: World, step: Step, staleMs: int)
    requires Do(w, step, staleMs).recoveries == w.recoveries
    ensures var next := Do(w, step, staleMs);
            && next.task.attempt >= w.task.attempt && MaxAttempts(next.task) == MaxAttempts(w.task)
            && next.now >= w.now && (HeartbeatMs(next.task) >= w.now || HeartbeatMs(next.task) == HeartbeatMs(w.task))
  {
  }

  lemma {:induction false} StepKeepsPace(w: World, step: Step, staleMs: int)
    requires Paced(w, staleMs)
    ensures Paced(Do(w, step, staleMs), staleMs)
    ensures MaxAttempts(Do(w, step, staleMs).task) == MaxAttempts(w.task)
    ensures Do(w, step, staleMs).task.attempt >= w.task.attempt
    ensures w.recoveries <= Do(w, step, staleMs).recoveries
    ensures forall r <- Do(w, step, staleMs).recoveries[|w.recoveries|..] :: r.before >= w.task.attempt
  {
    if step.StaleCheck? && Decide(step.kind, w.task, w.now, staleMs).Recover? {
      RecoverFacts(step.kind, w.task, w.now, staleMs);
      var patched := Decide(step.kind, w.task, w.now, staleMs).patched;
      var r := Recovered(w.now, w.task.attempt, patched.attempt);
      ExtendLog(w.recoveries, MaxAttempts(w.task), staleMs, r);
      assert Do(w, step, staleMs) == w.(task := patched, recoveries := w.recoveries + [r]);
    } else {
      OtherStepFacts(w, step, staleMs);
    }
  }

  /** In every run of heartbeats, ticks, locks and stale decisions the recoveries stay paced. */
  lemma {:induction false} RunKeepsPace(w: World, steps: seq<Step>, staleMs: int)
    requires Paced(w, staleMs)
    ensures Paced(DoAll(w, steps, staleMs), staleMs)
    decreases |steps|
  {
    if steps != [] {
      StepKeepsPace(w, steps[0], staleMs);
      RunKeepsPace(Do(w, steps[0], staleMs), steps[1..], staleMs);
    }
  }

  lemma {:induction false} RecoveriesClimb(w: World, staleMs: int, i: nat)
    requires Paced(w, staleMs) && i < |w.recoveries|
    ensures w.recoveries[i].after >= w.recoveries[0].before + i + 1
  {
    if i > 0 {
      RecoveriesClimb(w, staleMs, i - 1);
    }
  }

  /** A run can recover a task at most as often as it has attempts left. */
  lemma RecoveriesAreBounded(task: Task, now: int, steps: seq<Step>, staleMs: int)
    ensures |DoAll(World(task, now, []), steps, staleMs).recoveries| <= Max(0, MaxAttempts(task) - task.attempt)
  {
    RunKeepsPace(World(task, now, []), steps, staleMs);
    RunOnlyClimbs(World(task, now, []), steps, staleMs);
    var w := DoAll(World(task, now, []), steps, staleMs);
    if w.recoveries != [] {
      RecoveriesClimb(w, staleMs, |w.recoveries| - 1);
    }
  }

  lemma {:induction false} RunOnlyClimbs(w: World, steps: seq<Step>, staleMs: int)
    requires Paced(w, staleMs)
    ensures var end := DoAll(w, steps, staleMs);
            && MaxAttempts(end.task) == MaxAttempts(w.task)
            && w.recoveries <= end.recoveries
            && forall i :: |w.recoveries| <= i < |end.recoveries| ==> end.recoveries[i].before >= w.task.attempt
    decreases |steps|
  {
    if steps != [] {
      StepKeepsPace(w, steps[0], staleMs);
      RunOnlyClimbs(Do(w, steps[0], staleMs), steps[1..], staleMs);
    }
  }

  // ---- a worker that always goes silent ----

  /** The clock runs for some time, a stale decision is taken, and after a delay a requeued task is locked again. */
  datatype Round = Round(ms: nat, kind: Recovery, delay: nat)

  function Decided(w: World, r: Round, staleMs: nat): World {
    Do(Do(w, Tick(r.ms), staleMs), StaleCheck(r.kind), staleMs)
  }

  function SilentRound(w: World, r: Round, staleMs: nat): World {
    Do(Do(Decided(w, r, staleMs), Tick(r.delay), staleMs), TakeLock, staleMs)
  }

  function SilentRounds(w: World, rounds: seq<Round>, staleMs: nat): World
    decreases |rounds|
  {
    if rounds == [] then w else SilentRounds(SilentRound(w, rounds[0], staleMs), rounds[1..], staleMs)
  }

  predicate FindsStale(w: World, r: Round, staleMs: nat) { IsStale(w.task, w.now + r.ms, staleMs) }

  /** How many of the decisions find the task stale. */
  function StaleFound(w: World, rounds: seq<Round>, staleMs: nat): nat
    decreases |rounds|
  {
    if rounds == [] then 0
    else (if FindsStale(w, rounds[0], staleMs) then 1 else 0)
         + StaleFound(SilentRound(w, rounds[0], staleMs), rounds[1..], staleMs)
  }

  /** Locked by a worker that may have gone silent. */
  predicate Silent(w: World) { w.task.status.Running? && 0 < HeartbeatMs(w.task) <= w.now }

  lemma SilentRoundOutcome(w: World, r: Round, staleMs: nat)
    requires Silent(w) && FindsStale(w, r, staleMs)
    ensures var end := SilentRound(w, r, staleMs);
            if w.task.attempt >= MaxAttempts(w.task) then end.task.status.Failed?
            else Silent(end) && end.task.attempt == w.task.attempt + 1 && MaxAttempts(end.task) == MaxAttempts(w.task)
  {
    var decided := Decided(w, r, staleMs);
    if w.task.attempt < MaxAttempts(w.task) && r.kind.Requeue? {
      var events := decided.task.summary.events;
      assert Marks(events[|events| - 1], decided.task.attempt);
    }
  }

  lemma WaitingRoundOutcome(w: World, r: Round, staleMs: nat)
    requires Silent(w) && !FindsStale(w, r, staleMs)
    ensures var end := SilentRound(w, r, staleMs); Silent(end) && end.task == w.task
  {
  }

  lemma {:induction false} FailedStaysFailed(w: World, rounds: seq<Round>, staleMs: nat)
    requires w.task.status.Failed?
    ensures SilentRounds(w, rounds, staleMs).task.status.Failed? && StaleFound(w, rounds, staleMs) == 0
    decreases |rounds|
  {
    if rounds != [] {
      FailedStaysFailed(SilentRound(w, rounds[0], staleMs), rounds[1..], staleMs);
    }
  }

  /**
   * A task whose worker always goes silent, decided upon at any times, under any mix of reclaims and requeues, and
   * locked again after any delay, has failed exactly when more decisions found it stale than it had attempts left.
   */
  lemma {:induction false} SilentTaskFailsExactly(w: World, rounds: seq<Round>, staleMs: nat)
    requires Silent(w) && w.task.attempt <= MaxAttempts(w.task)
    ensures SilentRounds(w, rounds, staleMs).task.status.Failed?
            <==> StaleFound(w, rounds, staleMs) > MaxAttempts(w.task) - w.task.attempt
    decreases |rounds|
  {
    if rounds != [] {
      var next := SilentRound(w, rounds[0], staleMs);
      if !FindsStale(w, rounds[0], staleMs) {
        WaitingRoundOutcome(w, rounds[0], staleMs);
        SilentTaskFailsExactly(next, rounds[1..], staleMs);
      } else {
        SilentRoundOutcome(w, rounds[0], staleMs);
        if next.task.status.Failed? {
          FailedStaysFailed(next, rounds[1..], staleMs);
        } else {
          SilentTaskFailsExactly(next, rounds[1..], staleMs);
        }
      }
    }
  }
}

/** Cron runs one after another, with the schedules and runs they read: when an identity may be sent again. */
module ScheduleLaws {
  import opened Prelude
  import opened Schedules
  import opened Cron
  import opened CronLaws

  /** The schedules, the recorded runs, what the cron runs have done, and the time of the last one. */
  datatype Office = Office(schedules: seq<Schedule>, rows: RunRows, trace: seq<Event>, clock: int)

  /**
   * A cron run some time later; a run recorded; a schedule configured anew, which raises its version; and the time of
   * its next overlap set, perhaps by work that has just been done for it.
   */
  datatype Step =
    | RunCron(elapsed: nat, input: CronInput)
    | Record(identity: Identity, status: RunStatus)
    | Configure(index: nat, enabled: bool, nextDeep: Option<int>, deepLimit: int, floor: int)
    | Overlap(index: nat, nextOverlap: Option<int>, worked: bool)

  function Configured(s: Schedule, enabled: bool, nextDeep: Option<int>, deepLimit: int, floor: int): Schedule {
    var t := s.(enabled := enabled, nextDeep := nextDeep, deepLimit := deepLimit, floor := floor);
    if t == s then s else t.(version := s.version + 1)
  }

  function Overlapped(s: Schedule, nextOverlap: Option<int>, worked: bool, now: int): Schedule {
    s.(nextOverlap := nextOverlap, last := if worked then Some(now) else s.last)
  }

  function InputOf(o: Office, step: Step): CronInput
    requires step.RunCron?
  {
    step.input.(now := o.clock + step.elapsed)
  }

  function RunOf(o: Office, step: Step): Progress
    requires step.RunCron?
  {
    CronRun(o.schedules, o.rows, InputOf(o, step))
  }

  function Advance(o: Office, step: Step): Office {
    match step
    case RunCron(elapsed, _) =>
      var p := RunOf(o, step);
      Office(MarkAll(o.schedules, p.marked, o.clock + elapsed), o.rows, o.trace + p.trace, o.clock + elapsed)
    case Record(id, status) => o.(rows := o.rows[id := status])
    case Configure(i, enabled, nextDeep, deepLimit, floor) =>
      if i >= |o.schedules| then o
      else o.(schedules := o.schedules[i := Configured(o.schedules[i], enabled, nextDeep, deepLimit, floor)])
    case Overlap(i, nextOverlap, worked) =>
      if i >= |o.schedules| then o
      else o.(schedules := o.schedules[i := Overlapped(o.schedules[i], nextOverlap, worked, o.clock)])
  }

  function Evolve(o: Office, steps: seq<Step>): Office
    decreases |steps|
  {
    if steps == [] then o else Evolve(Advance(o, steps[0]), steps[1..])
  }

  // ---- every message is justified ----

  /** Over all histories: every message is justified, and an identity is sent at most as often as it was reserved. */
  lemma {:induction false} HistoryIsSound(o: Office, steps: seq<Step>)
    requires AllJustified(o.trace) && SentWithinGrants(o.trace)
    ensures AllJustified(Evolve(o, steps).trace) && SentWithinGrants(Evolve(o, steps).trace)
    decreases |steps|
  {
    if steps != [] {
      StepIsSound(o, steps[0]);
      HistoryIsSound(Advance(o, steps[0]), steps[1..]);
    }
  }

  lemma StepIsSound(o: Office, step: Step)
    requires AllJustified(o.trace) && SentWithinGrants(o.trace)
    ensures AllJustified(Advance(o, step).trace) && SentWithinGrants(Advance(o, step).trace)
  {
    if step.RunCron? {
      RunIsSound(o.schedules, o.rows, InputOf(o, step));
      var more := RunOf(o, step).trace;
      ConcatIsJustified(o.trace, more);
      forall id ensures Sends(o.trace + more, id) <= Granted(o.trace + more, id) {
        CountConcat(o.trace, more, id);
      }
    }
  }

  // ---- the table of schedules ----

  ghost predicate DistinctIds(schedules: seq<Schedule>) {
    forall i, j :: 0 <= i < j < |schedules| ==> schedules[i].id != schedules[j].id
  }

  ghost predicate LastsPast(schedules: seq<Schedule>, now: int) {
    forall i :: 0 <= i < |schedules| && schedules[i].last.Some? ==> schedules[i].last.value <= now
  }

  /** The schedules have ids of their own, and none was last enqueued in the future. */
  ghost predicate Kept(o: Office) { DistinctIds(o.schedules) && LastsPast(o.schedules, o.clock) }

  predicate Names(jobs: seq<Job>, id: string) { exists k :: 0 <= k < |jobs| && jobs[k].identity.key.schedule == id }

  lemma NamesSnoc(jobs: seq<Job>, job: Job, id: string)
    ensures Names(jobs + [job], id) <==> Names(jobs, id) || job.identity.key.schedule == id
  {
    var more := jobs + [job];
    if Names(jobs, id) {
      var k :| 0 <= k < |jobs| && jobs[k].identity.key.schedule == id;
      assert more[k].identity.key.schedule == id;
    }
    if job.identity.key.schedule == id {
      assert more[|jobs|].identity.key.schedule == id;
    }
  }

  lemma {:induction false} MarkedAt(schedules: seq<Schedule>, jobs: seq<Job>, now: int, i: nat)
    requires i < |schedules|
    ensures |MarkAll(schedules, jobs, now)| == |schedules|
    ensures MarkAll(schedules, jobs, now)[i]
            == if Names(jobs, schedules[i].id) then schedules[i].(last := Some(now)) else schedules[i]
    decreases |jobs|
  {
    if jobs != [] {
      var front, last := jobs[..|jobs| - 1], jobs[|jobs| - 1];
      MarkedAt(schedules, front, now, i);
      assert jobs == front + [last];
      NamesSnoc(front, last, schedules[i].id);
    }
  }

  /** What a step may do to a schedule: last enqueued only forward, and a new configuration only under a new version. */
  ghost predicate Follows(s: Schedule, t: Schedule, from: int, to: int) {
    && t.id == s.id && t.connection == s.connection && t.frequency == s.frequency
    && (t.last == s.last || (t.last.Some? && from <= t.last.value <= to))
    && (t.version == s.version ==> t.enabled == s.enabled && t.nextDeep == s.nextDeep && t.deepLimit == s.deepLimit)
    && s.version <= t.version
  }

  lemma {:induction false} StepFollows(o: Office, step: Step, i: nat)
    requires i < |o.schedules|
    ensures var next := Advance(o, step);
            && o.clock <= next.clock && |next.schedules| == |o.schedules|
            && Follows(o.schedules[i], next.schedules[i], o.clock, next.clock)
  {
    if step.RunCron? {
      MarkedAt(o.schedules, RunOf(o, step).marked, o.clock + step.elapsed, i);
    }
  }

  lemma {:induction false} StepLength(o: Office, step: Step)
    ensures |Advance(o, step).schedules| == |o.schedules| && o.clock <= Advance(o, step).clock
  {
    if o.schedules != [] {
      StepFollows(o, step, 0);
    } else if step.RunCron? {
      NothingToMark(RunOf(o, step).marked, o.clock + step.elapsed);
    }
  }

  lemma {:induction false} NothingToMark(jobs: seq<Job>, now: int)
    ensures MarkAll([], jobs, now) == []
    decreases |jobs|
  {
    if jobs != [] {
      NothingToMark(jobs[..|jobs| - 1], now);
    }
  }

  lemma {:induction false} StepKeeps(o: Office, step: Step)
    requires Kept(o)
    ensures Kept(Advance(o, step))
  {
    StepLength(o, step);
    var next := Advance(o, step);
    forall i | 0 <= i < |o.schedules| ensures Follows(o.schedules[i], next.schedules[i], o.clock, next.clock) {
      StepFollows(o, step, i);
    }
  }

  // ---- the jobs of a run ----

  ghost predicate OfferedBy(schedules: seq<Schedule>, now: int, scopes: string -> Scope, job: Job, i: nat) {
    i < |schedules| && Offers(schedules[i], now, scopes(schedules[i].id))
    && job == JobOf(schedules[i], now, scopes(schedules[i].id))
  }

  lemma {:induction false} JobsAreOffered(schedules: seq<Schedule>, now: int, scopes: string -> Scope, k: nat)
      returns (i: nat)
    requires k < |JobsOf(schedules, now, scopes)|
    ensures OfferedBy(schedules, now, scopes, JobsOf(schedules, now, scopes)[k], i)
    decreases |schedules|
  {
    var front := schedules[..|schedules| - 1];
    if k < |JobsOf(front, now, scopes)| {
      i := JobsAreOffered(front, now, scopes, k);
    } else {
      i := |schedules| - 1;
    }
  }

  ghost predicate DistinctSchedules(jobs: seq<Job>) {
    forall k, l :: 0 <= k < l < |jobs| ==> jobs[k].identity.key.schedule != jobs[l].identity.key.schedule
  }

  lemma {:induction false} JobsAreDistinct(schedules: seq<Schedule>, now: int, scopes: string -> Scope)
    requires DistinctIds(schedules)
    ensures DistinctSchedules(JobsOf(schedules, now, scopes))
    decreases |schedules|
  {
    if schedules != [] {
      var front, last := schedules[..|schedules| - 1], schedules[|schedules| - 1];
      var before := JobsOf(front, now, scopes);
      JobsAreDistinct(front, now, scopes);
      forall k | 0 <= k < |before| ensures before[k].identity.key.schedule != last.id {
        var i := JobsAreOffered(front, now, scopes, k);
        assert front[i].id == schedules[i].id;
      }
    }
  }

  /** A run sends an identity at most once, and only if a job of its own has it and its reservation is granted. */
  ghost predicate SendsJob(rows: RunRows, jobs: seq<Job>, p: Progress, id: Identity) {
    && Sends(p.trace, id) <= 1
    && (Sends(p.trace, id) == 1 ==> exists k :: 0 <= k < |jobs| && jobs[k].identity == id && Grants(rows, jobs[k]))
    && (forall k :: 0 <= k < |p.marked| ==> p.marked[k] in jobs)
  }

  lemma {:induction false} JobsSend(rows: RunRows, now: int, jobs: seq<Job>, worlds: nat -> World, id: Identity)
    requires DistinctSchedules(jobs)
    ensures SendsJob(rows, jobs, Jobs(rows, now, jobs, worlds), id)
    decreases |jobs|
  {
    if jobs == [] {
      assert Sends([], id) == 0;
    } else {
      var front, job, w := jobs[..|jobs| - 1], jobs[|jobs| - 1], worlds(|jobs| - 1);
      JobsSend(rows, now, front, worlds, id);
      var p := Jobs(rows, now, front, worlds);
      LookCounts(rows, now, job, w, id);
      CountConcat(p.trace, Look(rows, now, job, w).trace, id);
      OneMoreJob(rows, jobs, p, job, Look(rows, now, job, w), id);
    }
  }

  lemma {:induction false} OneMoreJob(rows: RunRows, jobs: seq<Job>, p: Progress, job: Job, l: Looked, id: Identity)
    requires jobs != [] && DistinctSchedules(jobs) && jobs[|jobs| - 1] == job
             && SendsJob(rows, jobs[..|jobs| - 1], p, id)
    requires Sends(l.trace, id) <= 1 && (Sends(l.trace, id) == 1 ==> job.identity == id && Grants(rows, job))
    requires Sends(p.trace + l.trace, id) == Sends(p.trace, id) + Sends(l.trace, id)
    ensures SendsJob(rows, jobs, p, id)
    ensures SendsJob(rows, jobs, Progress(p.trace + l.trace, Counted(p.counts, l.end), l.end.Aborted?,
                                          p.marked + if l.end.Enqueued? then [job] else []), id)
  {
    var front := jobs[..|jobs| - 1];
    if Sends(p.trace, id) == 1 {
      var k :| 0 <= k < |front| && front[k].identity == id && Grants(rows, front[k]);
      assert jobs[k] == front[k];
    }
    assert forall j <- front :: j in jobs;
  }

  // ---- when an identity may be sent ----

  /** A run is recorded for the identity; a deep one that is paused does not count. */
  predicate Refused(rows: RunRows, id: Identity) { id in rows && (id.key.Window? || !rows[id].Paused?) }

  /**
   * The window is not over and nothing was enqueued in it; or the version is the schedule's, and its deep run may come
   * due.
   */
  predicate OpenFor(s: Schedule, clock: int, key: Key) {
    match key
    case Window(_, number) =>
      && IntervalMs(s.frequency).Some?
      && var interval := IntervalMs(s.frequency).value;
         clock < (number + 1) * interval && (s.last.None? || s.last.value < number * interval)
    case Deep(_, version) =>
      s.version < version || (s.version == version && s.enabled && s.nextDeep.Some? && LimitIsValid(Some(s.deepLimit)))
  }

  predicate OpenAt(o: Office, id: Identity, i: nat) {
    && i < |o.schedules| && o.schedules[i].connection == id.connection && o.schedules[i].id == id.key.schedule
    && OpenFor(o.schedules[i], o.clock, id.key)
  }

  predicate Open(o: Office, id: Identity) { exists i :: 0 <= i < |o.schedules| && OpenAt(o, id, i) }

  predicate Sendable(o: Office, id: Identity) { !Refused(o.rows, id) && Open(o, id) }

  /** The steps never record the deep run of the identity as paused. */
  predicate NeverPauses(steps: seq<Step>, id: Identity) {
    forall k :: 0 <= k < |steps| ==>
      !(id.key.Deep? && steps[k].Record? && steps[k].identity == id && steps[k].status.Paused?)
  }

  lemma {:induction false} FollowsStaysShut(s: Schedule, t: Schedule, from: int, to: int, key: Key)
    requires Follows(s, t, from, to) && from <= to && (s.last.Some? ==> s.last.value <= from) && OpenFor(t, to, key)
    requires key.Deep? ==> t.version == s.version || key.version > s.version
    ensures OpenFor(s, from, key)
  {
  }

  lemma {:induction false} StaysShut(o: Office, step: Step, id: Identity)
    requires Kept(o) && NeverPauses([step], id) && !Sendable(o, id)
    ensures !Sendable(Advance(o, step), id)
  {
    var next := Advance(o, step);
    assert [step][0] == step;
    if Open(next, id) {
      var i :| 0 <= i < |next.schedules| && OpenAt(next, id, i);
      StepLength(o, step);
      StepFollows(o, step, i);
      FollowsStaysShut(o.schedules[i], next.schedules[i], o.clock, next.clock, id.key);
      assert OpenAt(o, id, i);
      assert Refused(o.rows, id);
    }
  }

  // ---- what cannot be sent is not sent ----

  lemma {:induction false} OfferIsOpen(s: Schedule, clock: int, now: int, scope: Scope)
    requires Offers(s, now, scope) && clock <= now && !Refuses(s, now, scope)
    ensures OpenFor(s, clock, JobOf(s, now, scope).identity.key)
  {
    if !DeepDue(s, now) {
      WindowOf(s.frequency, now);
    }
  }

  /** The window a time falls in. */
  lemma WindowOf(f: Frequency, now: int)
    requires IntervalMs(f).Some?
    ensures var interval := IntervalMs(f).value; now / interval * interval <= now < (now / interval + 1) * interval
  {
  }

  lemma GrantsExactlyWhen(rows: RunRows, job: Job)
    requires job.deep <==> job.identity.key.Deep?
    ensures Grants(rows, job) <==> !Refused(rows, job.identity)
  {
  }

  /** A run comes to what its eligible jobs come to, and a refused schedule leaves none. */
  lemma RunIsItsJobs(o: Office, step: Step)
    requires step.RunCron?
    ensures var input := InputOf(o, step);
            var jobs := Eligible(o.schedules, input);
            && RunOf(o, step).trace == Jobs(o.rows, input.now, jobs, input.worlds).trace
            && RunOf(o, step).marked == Jobs(o.rows, input.now, jobs, input.worlds).marked
            && (jobs != [] ==> jobs == JobsOf(o.schedules, input.now, input.scopes))
            && (jobs != [] ==> !SomeRefuses(o.schedules, input.now, input.scopes))
  {
  }

  /** The schedule whose job a run sent. */
  ghost predicate SentBy(o: Office, step: Step, id: Identity, i: nat)
    requires step.RunCron?
  {
    && i < |o.schedules| && o.schedules[i].connection == id.connection && o.schedules[i].id == id.key.schedule
    && var s, now := o.schedules[i], o.clock + step.elapsed;
       var scope := step.input.scopes(s.id);
       Offers(s, now, scope) && !Refuses(s, now, scope) && KeyOf(s, now) == id.key
  }

  lemma {:induction false} RunSendsOnce(o: Office, step: Step, id: Identity)
    requires Kept(o) && step.RunCron?
    ensures SendsJob(o.rows, Eligible(o.schedules, InputOf(o, step)), RunOf(o, step), id)
  {
    var input := InputOf(o, step);
    RunIsItsJobs(o, step);
    JobsAreDistinct(o.schedules, input.now, input.scopes);
    JobsSend(o.rows, input.now, Eligible(o.schedules, input), input.worlds, id);
  }

  lemma {:induction false} SentFrom(o: Office, step: Step, id: Identity) returns (i: nat)
    requires Kept(o) && step.RunCron? && Sends(RunOf(o, step).trace, id) == 1
    ensures SentBy(o, step, id, i) && !Refused(o.rows, id)
  {
    var input := InputOf(o, step);
    var jobs := Eligible(o.schedules, input);
    RunSendsOnce(o, step, id);
    RunIsItsJobs(o, step);
    var k :| 0 <= k < |jobs| && jobs[k].identity == id && Grants(o.rows, jobs[k]);
    i := JobsAreOffered(o.schedules, input.now, input.scopes, k);
    assert !Refuses(o.schedules[i], input.now, input.scopes(o.schedules[i].id));
    GrantsExactlyWhen(o.rows, jobs[k]);
  }

  lemma {:induction false} RunSends(o: Office, step: Step, id: Identity)
    requires Kept(o) && step.RunCron?
    ensures Sends(RunOf(o, step).trace, id) <= 1
    ensures Sends(RunOf(o, step).trace, id) == 1 ==> Sendable(o, id)
  {
    RunSendsOnce(o, step, id);
    if Sends(RunOf(o, step).trace, id) == 1 {
      var i := SentFrom(o, step, id);
      var s, now := o.schedules[i], o.clock + step.elapsed;
      OfferIsOpen(s, o.clock, now, step.input.scopes(s.id));
      assert OpenAt(o, id, i);
    }
  }

  lemma {:induction false} StepSends(o: Office, step: Step, id: Identity)
    requires Kept(o)
    ensures Sends(o.trace, id) <= Sends(Advance(o, step).trace, id) <= Sends(o.trace, id) + 1
    ensures Sends(Advance(o, step).trace, id) > Sends(o.trace, id)
            ==> step.RunCron? && Sends(RunOf(o, step).trace, id) == 1 && Sendable(o, id)
  {
    if step.RunCron? {
      RunSends(o, step, id);
      CountConcat(o.trace, RunOf(o, step).trace, id);
    }
  }

  lemma {:induction false} ShutIsNotSent(o: Office, steps: seq<Step>, id: Identity)
    requires Kept(o) && NeverPauses(steps, id) && !Sendable(o, id)
    ensures Sends(Evolve(o, steps).trace, id) == Sends(o.trace, id)
    decreases |steps|
  {
    if steps != [] {
      assert steps[0] == [steps[0]][0];
      StepSends(o, steps[0], id);
      StepKeeps(o, steps[0]);
      StaysShut(o, steps[0], id);
      ShutIsNotSent(Advance(o, steps[0]), steps[1..], id);
    }
  }

  // ---- what can be sent is sent by some run ----

  const FAVOURABLE := World(Yes, NotOffered, NoneOffered, Yes, Yes, Yes, Yes, true, Yes, true, false)

  /** Only the one schedule is in scope, with quota enough for any of its jobs. */
  function OnlyScope(s: Schedule, now: int): string -> Scope {
    (id: string) => Scope(id == s.id, Reading(Some(s.floor + CONTINUOUS_BUDGET + DEEP_REQUEST_HARD_MAX), Some(now)))
  }

  function FavourableInput(s: Schedule, now: int): CronInput {
    CronInput(now, Yes, true, OnlyScope(s, now), (k: nat) => FAVOURABLE)
  }

  lemma {:induction false} OnlyOneJob(schedules: seq<Schedule>, i: nat, now: int)
    requires DistinctIds(schedules) && i < |schedules|
    ensures JobsOf(schedules, now, OnlyScope(schedules[i], now))
            == JobOption(schedules[i], now, OnlyScope(schedules[i], now)(schedules[i].id))
    decreases |schedules|
  {
    var front, last, scopes := schedules[..|schedules| - 1], schedules[|schedules| - 1], OnlyScope(schedules[i], now);
    if i < |front| {
      OnlyOneJob(front, i, now);
      assert JobOption(last, now, scopes(last.id)) == [];
    } else {
      NoJobs(front, schedules[i], now);
    }
  }

  lemma {:induction false} NoJobs(schedules: seq<Schedule>, s: Schedule, now: int)
    requires forall i :: 0 <= i < |schedules| ==> schedules[i].id != s.id
    ensures JobsOf(schedules, now, OnlyScope(s, now)) == []
    decreases |schedules|
  {
    if schedules != [] {
      NoJobs(schedules[..|schedules| - 1], s, now);
    }
  }

  lemma {:induction false} FavourableLook(rows: RunRows, s: Schedule, now: int)
    requires Offers(s, now, OnlyScope(s, now)(s.id)) && !Refuses(s, now, OnlyScope(s, now)(s.id))
    requires Grants(rows, JobOf(s, now, OnlyScope(s, now)(s.id)))
    ensures var job := JobOf(s, now, OnlyScope(s, now)(s.id));
            Look(rows, now, job, FAVOURABLE).trace == Opening(job, now) + Closing(job)
  {
    var job := JobOf(s, now, OnlyScope(s, now)(s.id));
    assert Suffices(job, job.quota, now);
    DecisionSuffices(job, job.quota, now);
    var c := job.identity.connection;
    assert Reserve(rows, job, FAVOURABLE).trace == [Reservation(job.identity, true), Permission(c, true), Send(job)];
    assert Dispatch(rows, job, FAVOURABLE).trace == Closing(job);
  }

  lemma OpeningCounts(job: Job, now: int, id: Identity)
    ensures Sends(Opening(job, now) + Closing(job), id) == if job.identity == id then 1 else 0
  {
    var front := Opening(job, now);
    NoSends(front, id);
    CountConcat(front, Closing(job), id);
    ClosingCounts(job, id);
  }

  lemma {:induction false} FavourableRun(o: Office, i: nat, now: int)
    requires Kept(o) && i < |o.schedules|
    requires var s := o.schedules[i]; var scope := OnlyScope(s, now)(s.id);
             Offers(s, now, scope) && !Refuses(s, now, scope) && Grants(o.rows, JobOf(s, now, scope))
    ensures var s := o.schedules[i];
            Sends(CronRun(o.schedules, o.rows, FavourableInput(s, now)).trace,
                  JobOf(s, now, OnlyScope(s, now)(s.id)).identity) == 1
  {
    var s := o.schedules[i];
    var input, job := FavourableInput(s, now), JobOf(s, now, OnlyScope(s, now)(s.id));
    OnlyOneJob(o.schedules, i, now);
    forall k | 0 <= k < |o.schedules| ensures !Refuses(o.schedules[k], now, input.scopes(o.schedules[k].id)) {
      assert o.schedules[k].id == s.id ==> k == i;
    }
    assert Eligible(o.schedules, input) == [job];
    assert [job][..0] == [];
    FavourableLook(o.rows, s, now);
    OpeningCounts(job, now, job.identity);
    var l := Look(o.rows, now, job, FAVOURABLE);
    assert Jobs(o.rows, now, [job], input.worlds) == AfterJob(NO_PROGRESS, o.rows, now, job, FAVOURABLE);
    assert [] + l.trace == l.trace;
  }

  lemma {:induction false} LastOfWindow(f: Frequency, number: int, last: Option<int>)
    requires IntervalMs(f).Some? && (last.None? || last.value < number * IntervalMs(f).value)
    ensures var now := (number + 1) * IntervalMs(f).value - 1;
            now / IntervalMs(f).value == number && IsDue(f, last, now)
  {
  }

  /** Alone in scope, the schedule offers the identity. */
  ghost predicate OffersAlone(o: Office, i: nat, now: int, id: Identity) {
    && i < |o.schedules|
    && var s := o.schedules[i];
       var scope := OnlyScope(s, now)(s.id);
       Offers(s, now, scope) && !Refuses(s, now, scope) && JobOf(s, now, scope).identity == id
  }

  lemma {:induction false} AloneIsSent(o: Office, i: nat, now: int, id: Identity)
    requires Kept(o) && OffersAlone(o, i, now, id) && !Refused(o.rows, id)
    ensures Sends(CronRun(o.schedules, o.rows, FavourableInput(o.schedules[i], now)).trace, id) == 1
  {
    var s := o.schedules[i];
    GrantsExactlyWhen(o.rows, JobOf(s, now, OnlyScope(s, now)(s.id)));
    FavourableRun(o, i, now);
  }

  function RunOnly(o: Office, i: nat, now: int): Step
    requires i < |o.schedules| && o.clock <= now
  {
    RunCron(now - o.clock, FavourableInput(o.schedules[i], now))
  }

  lemma {:induction false} RunOnlySends(o: Office, i: nat, now: int, id: Identity)
    requires Kept(o) && OffersAlone(o, i, now, id) && o.clock <= now && !Refused(o.rows, id)
    ensures Sends(Advance(o, RunOnly(o, i, now)).trace, id) == Sends(o.trace, id) + 1
  {
    var run := RunOnly(o, i, now);
    AloneIsSent(o, i, now, id);
    assert InputOf(o, run) == FavourableInput(o.schedules[i], now);
    CountConcat(o.trace, RunOf(o, run).trace, id);
  }

  lemma EvolveFirst(o: Office, a: Step, rest: seq<Step>)
    ensures Evolve(o, [a] + rest) == Evolve(Advance(o, a), rest)
  {
    assert ([a] + rest)[1..] == rest;
  }

  lemma {:induction false} EvolveThree(o: Office, a: Step, b: Step, c: Step)
    ensures Evolve(o, [a]) == Advance(o, a)
    ensures Evolve(o, [a, b, c]) == Advance(Advance(Advance(o, a), b), c)
  {
    EvolveFirst(o, a, []);
    EvolveFirst(o, a, [b, c]);
    EvolveFirst(Advance(o, a), b, [c]);
    EvolveFirst(Advance(Advance(o, a), b), c, []);
    assert [a] + [b, c] == [a, b, c] && [b] + [c] == [b, c] && [c] + [] == [c] && [a] + [] == [a];
  }

  lemma {:induction false} WindowCanBeSent(o: Office, id: Identity, i: nat) returns (steps: seq<Step>)
    requires Kept(o) && OpenAt(o, id, i) && !Refused(o.rows, id) && id.key.Window?
    ensures NeverPauses(steps, id) && Sends(Evolve(o, steps).trace, id) == Sends(o.trace, id) + 1
  {
    var s := o.schedules[i];
    var now := (id.key.number + 1) * IntervalMs(s.frequency).value - 1;
    var configure, overlap := Configure(i, true, None, s.deepLimit, s.floor), Overlap(i, None, false);
    var one := Advance(o, configure);
    var two := Advance(one, overlap);
    StepKeeps(o, configure);
    StepKeeps(one, overlap);
    LastOfWindow(s.frequency, id.key.number, s.last);
    RunOnlySends(two, i, now, id);
    EvolveThree(o, configure, overlap, RunOnly(two, i, now));
    steps := [configure, overlap, RunOnly(two, i, now)];
  }

  lemma {:induction false} DeepCanBeSent(o: Office, id: Identity, i: nat) returns (steps: seq<Step>)
    requires Kept(o) && OpenAt(o, id, i) && !Refused(o.rows, id) && id.key.Deep?
    ensures NeverPauses(steps, id) && Sends(Evolve(o, steps).trace, id) == Sends(o.trace, id) + 1
    decreases id.key.version - o.schedules[i].version
  {
    var s := o.schedules[i];
    if s.version == id.key.version {
      var now := if s.nextDeep.value <= o.clock then o.clock else s.nextDeep.value;
      RunOnlySends(o, i, now, id);
      EvolveThree(o, RunOnly(o, i, now), RunOnly(o, i, now), RunOnly(o, i, now));
      steps := [RunOnly(o, i, now)];
    } else {
      var configure := Configure(i, true, Some(o.clock), 1, s.floor + 1);
      StepKeeps(o, configure);
      var more := DeepCanBeSent(Advance(o, configure), id, i);
      steps := [configure] + more;
      assert steps[1..] == more;
      assert forall k :: 1 <= k < |steps| ==> steps[k] == more[k - 1];
    }
  }

  // ---- an identity is never sent again ----

  ghost predicate NeverAgain(o: Office, id: Identity) {
    forall steps :: NeverPauses(steps, id) ==> Sends(Evolve(o, steps).trace, id) == Sends(o.trace, id)
  }

  /**
   * No history from here on sends the identity, as long as its deep run is not paused, exactly when a run is recorded
   * for it, or its window is over or had its message marked, or the version of its schedule is gone or cannot come due.
   */
  lemma {:induction false} NeverAgainExactlyWhen(o: Office, id: Identity)
    requires Kept(o)
    ensures NeverAgain(o, id) <==> Refused(o.rows, id) || !Open(o, id)
  {
    if Sendable(o, id) {
      var i :| 0 <= i < |o.schedules| && OpenAt(o, id, i);
      var steps;
      if id.key.Window? {
        steps := WindowCanBeSent(o, id, i);
      } else {
        steps := DeepCanBeSent(o, id, i);
      }
      assert NeverPauses(steps, id) && Sends(Evolve(o, steps).trace, id) != Sends(o.trace, id);
    } else {
      forall steps | NeverPauses(steps, id) ensures Sends(Evolve(o, steps).trace, id) == Sends(o.trace, id) {
        ShutIsNotSent(o, steps, id);
      }
    }
  }

  /** A recorded run ends it for good, whatever becomes of the schedules. */
  lemma RecordedRunStopsSending(o: Office, id: Identity, steps: seq<Step>)
    requires Kept(o) && Refused(o.rows, id) && NeverPauses(steps, id)
    ensures Sends(Evolve(o, steps).trace, id) == Sends(o.trace, id)
  {
    ShutIsNotSent(o, steps, id);
  }

  /** If a reservation is granted once per identity, at most one message is sent for it over all runs. */
  lemma OneGrantOneMessage(o: Office, steps: seq<Step>, id: Identity)
    requires AllJustified(o.trace) && SentWithinGrants(o.trace) && Granted(Evolve(o, steps).trace, id) <= 1
    ensures Sends(Evolve(o, steps).trace, id) <= 1
  {
    HistoryIsSound(o, steps);
  }

  // ---- once a message is sent ----

  /** The run marked the schedule of the identity as enqueued. */
  predicate Marks(o: Office, step: Step, id: Identity) {
    step.RunCron? && Names(RunOf(o, step).marked, id.key.schedule)
  }

  /** The message of a window leaves it open exactly when the schedule is not marked. */
  lemma {:induction false} MarkShutsWindow(s: Schedule, now: int, marked: bool, key: Key)
    requires (OverlapDue(s, now) || DeepDue(s, now)) && KeyOf(s, now) == key && key.Window?
    ensures OpenFor(Stamped(s, marked, now), now, key) <==> !marked
  {
    WindowOf(s.frequency, now);
  }

  /** After the message of a window: it is never sent again exactly when its schedule was marked in the same run. */
  lemma {:induction false} WindowSentOnceExactlyWhen(o: Office, step: Step, id: Identity)
    requires Kept(o) && step.RunCron? && Sends(RunOf(o, step).trace, id) == 1 && id.key.Window?
    ensures NeverAgain(Advance(o, step), id) <==> Marks(o, step, id)
  {
    var i := SentFrom(o, step, id);
    MarkShutsWindow(o.schedules[i], o.clock + step.elapsed, Marks(o, step, id), id.key);
    AfterMessage(o, step, id, i);
  }

  function Stamped(s: Schedule, marked: bool, now: int): Schedule { if marked then s.(last := Some(now)) else s }

  lemma {:induction false} OnlyOpening(o: Office, id: Identity, i: nat)
    requires Kept(o) && i < |o.schedules| && o.schedules[i].connection == id.connection
             && o.schedules[i].id == id.key.schedule
    requires !Refused(o.rows, id)
    ensures NeverAgain(o, id) <==> !OpenFor(o.schedules[i], o.clock, id.key)
  {
    OnlyScheduleOf(o, id, i);
    NeverAgainExactlyWhen(o, id);
  }

  /** After a message everything depends on the schedule that offered it, marked or not. */
  lemma {:induction false} AfterMessage(o: Office, step: Step, id: Identity, i: nat)
    requires Kept(o) && step.RunCron? && SentBy(o, step, id, i) && !Refused(o.rows, id)
    ensures var now := o.clock + step.elapsed;
            NeverAgain(Advance(o, step), id)
            <==> !OpenFor(Stamped(o.schedules[i], Marks(o, step, id), now), now, id.key)
  {
    MarkedAt(o.schedules, RunOf(o, step).marked, o.clock + step.elapsed, i);
    StepKeeps(o, step);
    OnlyOpening(Advance(o, step), id, i);
  }

  lemma OnlyScheduleOf(o: Office, id: Identity, i: nat)
    requires Kept(o) && i < |o.schedules| && o.schedules[i].id == id.key.schedule
    ensures Open(o, id) <==> OpenAt(o, id, i)
  {
  }

  /** After the message of a deep run, marked or not, some history sends it again. */
  lemma {:induction false} DeepMayBeSentAgain(o: Office, step: Step, id: Identity)
    requires Kept(o) && step.RunCron? && Sends(RunOf(o, step).trace, id) == 1 && id.key.Deep?
    ensures !NeverAgain(Advance(o, step), id)
  {
    var i := SentFrom(o, step, id);
    AfterMessage(o, step, id, i);
  }

  /** Every run that sends the identity marks its schedule. */
  predicate AlwaysMarks(o: Office, steps: seq<Step>, id: Identity)
    decreases |steps|
  {
    steps == [] ||
      ((steps[0].RunCron? && Sends(RunOf(o, steps[0]).trace, id) > 0 ==> Marks(o, steps[0], id))
       && AlwaysMarks(Advance(o, steps[0]), steps[1..], id))
  }

  /** Over all runs a window is sent at most once, if every run that sends it marks its schedule. */
  lemma {:induction false} MarkedWindowsAreSentOnce(o: Office, steps: seq<Step>, id: Identity)
    requires Kept(o) && id.key.Window? && AlwaysMarks(o, steps, id)
    ensures Sends(Evolve(o, steps).trace, id) <= Sends(o.trace, id) + 1
    decreases |steps|
  {
    if steps != [] {
      var next := Advance(o, steps[0]);
      StepSends(o, steps[0], id);
      StepKeeps(o, steps[0]);
      if Sends(next.trace, id) > Sends(o.trace, id) {
        WindowSentOnceExactlyWhen(o, steps[0], id);
        assert NeverPauses(steps[1..], id);
      } else {
        MarkedWindowsAreSentOnce(next, steps[1..], id);
      }
    }
  }
}

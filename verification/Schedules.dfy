/** The schedules of the commerce scheduler: when one is due, and the job it then offers under which identity. */
module Schedules {
  import opened Prelude
  import opened Seqs

  const MINUTE_MS := 60_000
  const DEEP_REQUEST_HARD_MAX := 1000
  const CONTINUOUS_BUDGET := 8

  datatype Frequency = Hourly | Every30Minutes | Every15Minutes | Every5Minutes | Manual

  function FrequencyMinutes(f: Frequency): Option<nat> {
    match f
    case Hourly => Some(60)
    case Every30Minutes => Some(30)
    case Every15Minutes => Some(15)
    case Every5Minutes => Some(5)
    case Manual => None
  }

  type Version = v: int | 1 <= v witness 1

  /** A schedule, of a connection; times in milliseconds. */
  datatype Schedule = Schedule(
    id: string, connection: string, frequency: Frequency, enabled: bool, last: Option<int>, nextOverlap: Option<int>,
    nextDeep: Option<int>, version: Version, deepLimit: int, floor: int)

  /**
   * A scheduler identity, within its connection: a window of the cadence, or a deep run at a version of the schedule.
   */
  datatype Key = Window(schedule: string, number: int) | Deep(schedule: string, version: Version)

  datatype Identity = Identity(connection: string, key: Key)

  datatype Reading = Reading(remaining: Option<int>, observedAt: Option<int>)

  datatype Job = Job(
    identity: Identity, deep: bool, quota: Reading, maxAge: Option<int>, budget: int, floor: int, bootstrap: bool,
    scheduleIdIsUuid: bool, scheduleVersion: Option<int>, deepLimit: Option<int>)

  predicate LimitIsValid(limit: Option<int>) { limit.Some? && 1 <= limit.value <= DEEP_REQUEST_HARD_MAX }

  function IntervalMs(f: Frequency): Option<nat> {
    if FrequencyMinutes(f).None? then None else Some(FrequencyMinutes(f).value * MINUTE_MS)
  }

  predicate IsDue(f: Frequency, last: Option<int>, now: int) {
    IntervalMs(f).Some? && (last.None? || (last.value <= now && now - last.value >= IntervalMs(f).value))
  }

  predicate Reached(time: Option<int>, now: int) { time.Some? && time.value <= now }

  predicate OverlapDue(s: Schedule, now: int) {
    (s.nextOverlap.None? || Reached(s.nextOverlap, now)) && IsDue(s.frequency, s.last, now)
  }

  predicate DeepDue(s: Schedule, now: int) { Reached(s.nextDeep, now) }

  /**
   * What else a schedule's row leads to: whether its connection and its only active account are in scope, and its
   * quota.
   */
  datatype Scope = Scope(inScope: bool, quota: Reading)

  predicate Offers(s: Schedule, now: int, scope: Scope) {
    s.enabled && scope.inScope && (OverlapDue(s, now) || DeepDue(s, now))
  }

  /** A due deep run with a request limit out of bounds fails the whole read. */
  predicate Refuses(s: Schedule, now: int, scope: Scope) {
    Offers(s, now, scope) && DeepDue(s, now) && !LimitIsValid(Some(s.deepLimit))
  }

  function QuotaMaxAgeMs(f: Frequency): int {
    ((if FrequencyMinutes(f).None? then 60 else FrequencyMinutes(f).value) + 15) * MINUTE_MS
  }

  function KeyOf(s: Schedule, now: int): Key
    requires OverlapDue(s, now) || DeepDue(s, now)
  {
    if DeepDue(s, now) then Deep(s.id, s.version) else Window(s.id, now / IntervalMs(s.frequency).value)
  }

  function JobOf(s: Schedule, now: int, scope: Scope): Job
    requires Offers(s, now, scope)
  {
    var deep := DeepDue(s, now);
    Job(Identity(s.connection, KeyOf(s, now)), deep, scope.quota, Some(QuotaMaxAgeMs(s.frequency)),
        if deep then s.deepLimit else CONTINUOUS_BUDGET, s.floor, false, true, Some(s.version),
        if deep then Some(s.deepLimit) else None)
  }

  function JobOption(s: Schedule, now: int, scope: Scope): seq<Job> {
    if Offers(s, now, scope) then [JobOf(s, now, scope)] else []
  }

  /** The eligible jobs, in the order of the schedules. */
  function JobsOf(schedules: seq<Schedule>, now: int, scopes: string -> Scope): seq<Job> {
    if schedules == [] then [] else
      var last := schedules[|schedules| - 1];
      JobsOf(schedules[..|schedules| - 1], now, scopes) + JobOption(last, now, scopes(last.id))
  }

  predicate SomeRefuses(schedules: seq<Schedule>, now: int, scopes: string -> Scope) {
    exists i :: 0 <= i < |schedules| && Refuses(schedules[i], now, scopes(schedules[i].id))
  }

  lemma OfferedNext(schedules: seq<Schedule>, now: int, scopes: string -> Scope, i: nat)
    requires i < |schedules|
    ensures var s := schedules[i];
            JobsOf(schedules[..i + 1], now, scopes)
            == JobsOf(schedules[..i], now, scopes) + JobOption(s, now, scopes(s.id))
  {
    assert schedules[..i + 1][..i] == schedules[..i];
  }

  lemma RefusedNext(schedules: seq<Schedule>, now: int, scopes: string -> Scope, i: nat)
    requires i < |schedules| && !SomeRefuses(schedules[..i], now, scopes)
    ensures SomeRefuses(schedules[..i + 1], now, scopes) <==> Refuses(schedules[i], now, scopes(schedules[i].id))
    ensures Refuses(schedules[i], now, scopes(schedules[i].id)) ==> SomeRefuses(schedules, now, scopes)
  {
    forall k | 0 <= k < i ensures !Refuses(schedules[k], now, scopes(schedules[k].id)) {
      assert schedules[..i][k] == schedules[k];
    }
    assert schedules[..i + 1][i] == schedules[i];
  }

  /** The read of the eligible jobs: it fails as a whole exactly when some due deep run is refused. */
  method EligibleJobs(schedules: seq<Schedule>, now: int, scopes: string -> Scope) returns (jobs: Option<seq<Job>>)
    ensures jobs == if SomeRefuses(schedules, now, scopes) then None else Some(JobsOf(schedules, now, scopes))
  {
    var offered: seq<Job> := [];
    for i := 0 to |schedules|
      invariant offered == JobsOf(schedules[..i], now, scopes) && !SomeRefuses(schedules[..i], now, scopes)
    {
      var s := schedules[i];
      var scope := scopes(s.id);
      OfferedNext(schedules, now, scopes, i);
      RefusedNext(schedules, now, scopes, i);
      if s.enabled && scope.inScope {
        var overlapDue, deepDue := OverlapDue(s, now), DeepDue(s, now);
        if overlapDue || deepDue {
          if deepDue && !LimitIsValid(Some(s.deepLimit)) {
            return None;
          }
          offered := offered + [JobOf(s, now, scope)];
        }
      }
    }
    assert schedules[..|schedules|] == schedules;
    jobs := Some(offered);
  }

  /** Marking a schedule as enqueued: the row of the job's own scope, which is one schedule. */
  function Marking(id: string, now: int): Schedule -> Schedule {
    (s: Schedule) => if s.id == id then s.(last := Some(now)) else s
  }

  function Marked(schedules: seq<Schedule>, job: Job, now: int): seq<Schedule> {
    Map(Marking(job.identity.key.schedule, now), schedules)
  }

  function MarkAll(schedules: seq<Schedule>, jobs: seq<Job>, now: int): seq<Schedule> {
    if jobs == [] then schedules else Marked(MarkAll(schedules, jobs[..|jobs| - 1], now), jobs[|jobs| - 1], now)
  }

  lemma MarkAllSnoc(schedules: seq<Schedule>, jobs: seq<Job>, job: Job, now: int)
    ensures MarkAll(schedules, jobs + [job], now) == Marked(MarkAll(schedules, jobs, now), job, now)
  {
    assert (jobs + [job])[..|jobs|] == jobs;
  }
}

/**
 * The commerce scheduler: one cron run looks at the eligible jobs, and sends a queue message for those that pass
 * the permission, quota, schedule and reservation checks. Every answer of the outside world is a parameter.
 */
module Cron {
  import opened Prelude
  import opened Schedules

  /** An answer from the repository or the queue; a failing call aborts the run. */
  datatype Answer = Yes | No | Fails

  datatype Refresh = NotOffered | RefreshThrows | Throttled | RefreshFailed | Refreshed

  datatype Authoritative = NoneOffered | ReadThrows | Read(reading: Reading, checkedAt: int)

  /** What the outside world answers while a job is looked at. */
  datatype World = World(
    permitted: Answer, refresh: Refresh, authoritative: Authoritative, enabledAgain: Answer, permittedAgain: Answer,
    schedulePermitted: Answer, permittedForReservation: Answer, reservationReads: bool, permittedAtLast: Answer,
    sent: bool, marked: bool)

  datatype RunStatus = Paused | OtherStatus

  /** The synchronization runs already recorded, which is all a reservation looks at. */
  type RunRows = map<Identity, RunStatus>

  datatype Event =
    | Permission(connection: string, granted: bool)
    | Quota(job: Job, reading: Reading, at: int)
    | Reservation(identity: Identity, granted: bool)
    | Send(job: Job)

  datatype End = Enqueued | Duplicate | Skipped | Aborted

  datatype Decision = Sufficient | UnknownBootstrap | UnknownQuota | StaleQuota | BelowFloor

  function QuotaDecision(job: Job, reading: Reading, now: int): Decision {
    if reading.remaining.None? then
      if job.bootstrap then UnknownBootstrap else UnknownQuota
    else if !job.bootstrap && job.maxAge.Some?
            && (reading.observedAt.None? || reading.observedAt.value > now
                || now - reading.observedAt.value > job.maxAge.value) then StaleQuota
    else if reading.remaining.value - job.budget >= job.floor then Sufficient
    else BelowFloor
  }

  predicate Allowed(d: Decision) { d.Sufficient? || d.UnknownBootstrap? }

  /** Granted unless a run is recorded; a paused deep run may be taken up again. */
  predicate Grants(rows: RunRows, job: Job) { job.identity !in rows || (job.deep && rows[job.identity].Paused?) }

  function Unless(a: Answer): End { if a.Fails? then Aborted else Skipped }

  function Asked(job: Job, a: Answer): seq<Event> {
    if a.Fails? then [] else [Permission(job.identity.connection, a.Yes?)]
  }

  datatype Looked = Looked(trace: seq<Event>, end: End)

  function Then(trace: seq<Event>, l: Looked): Looked { Looked(trace + l.trace, l.end) }

  // ---- one job, from its last check backwards ----

  function AfterReservation(job: Job, w: World): Looked {
    if !w.permittedAtLast.Yes? then Looked(Asked(job, w.permittedAtLast), Unless(w.permittedAtLast))
    else if !w.sent then Looked(Asked(job, Yes), Aborted)
    else Looked(Asked(job, Yes) + [Send(job)], if w.marked then Enqueued else Aborted)
  }

  function Reserve(rows: RunRows, job: Job, w: World): Looked {
    if !w.reservationReads then Looked([], Aborted)
    else if !Grants(rows, job) then Looked([Reservation(job.identity, false)], Duplicate)
    else Then([Reservation(job.identity, true)], AfterReservation(job, w))
  }

  predicate DeepContract(job: Job) {
    job.scheduleIdIsUuid && job.scheduleVersion.Some? && job.scheduleVersion.value >= 1
    && job.deepLimit == Some(job.budget)
  }

  function Dispatch(rows: RunRows, job: Job, w: World): Looked {
    if job.deep && !LimitIsValid(job.deepLimit) then Looked([], Aborted)
    else if job.deep && !DeepContract(job) then Looked([], Skipped)
    else if !w.schedulePermitted.Yes? then Looked([], Unless(w.schedulePermitted))
    else if !w.permittedForReservation.Yes? then
      Looked(Asked(job, w.permittedForReservation), Unless(w.permittedForReservation))
    else Then(Asked(job, Yes), Reserve(rows, job, w))
  }

  function AfterRefresh(rows: RunRows, job: Job, w: World): Looked {
    match w.authoritative
    case NoneOffered => Looked([], Skipped)
    case ReadThrows => Looked([], Aborted)
    case Read(reading, at) =>
      Then([Quota(job, reading, at)],
           if !Allowed(QuotaDecision(job, reading, at)) then Looked([], Skipped)
           else if !w.enabledAgain.Yes? then Looked([], Unless(w.enabledAgain))
           else if !w.permittedAgain.Yes? then Looked(Asked(job, w.permittedAgain), Unless(w.permittedAgain))
           else Then(Asked(job, Yes), Dispatch(rows, job, w)))
  }

  function WithQuota(rows: RunRows, now: int, job: Job, w: World): Looked {
    var decision := QuotaDecision(job, job.quota, now);
    if (decision.StaleQuota? || decision.UnknownQuota?) && !w.refresh.NotOffered? then
      match w.refresh
      case RefreshThrows => Looked([], Aborted)
      case Refreshed => AfterRefresh(rows, job, w)
      case _ => Looked([], Skipped)
    else if !Allowed(decision) then Looked([], Skipped)
    else Dispatch(rows, job, w)
  }

  function Permitted(rows: RunRows, now: int, job: Job, w: World): Looked {
    if job.bootstrap then Looked([], Skipped) else Then([Quota(job, job.quota, now)], WithQuota(rows, now, job, w))
  }

  /** Everything one job comes to. */
  function Look(rows: RunRows, now: int, job: Job, w: World): Looked {
    if !w.permitted.Yes? then Looked(Asked(job, w.permitted), Unless(w.permitted))
    else Then(Asked(job, Yes), Permitted(rows, now, job, w))
  }

  // ---- one cron run ----

  datatype Counts = Counts(eligible: nat, enqueued: nat, duplicates: nat)

  /** What a run has done: its events, its counts, and the jobs whose schedules it has marked as enqueued. */
  datatype Progress = Progress(trace: seq<Event>, counts: Counts, aborted: bool, marked: seq<Job>)

  const NO_PROGRESS := Progress([], Counts(0, 0, 0), false, [])

  function Counted(c: Counts, end: End): Counts {
    Counts(c.eligible + 1, c.enqueued + if end.Enqueued? then 1 else 0, c.duplicates + if end.Duplicate? then 1 else 0)
  }

  function AfterJob(p: Progress, rows: RunRows, now: int, job: Job, w: World): Progress {
    if p.aborted then p else
      var l := Look(rows, now, job, w);
      Progress(p.trace + l.trace, Counted(p.counts, l.end), l.end.Aborted?,
               p.marked + if l.end.Enqueued? then [job] else [])
  }

  function Jobs(rows: RunRows, now: int, jobs: seq<Job>, worlds: nat -> World): Progress {
    if jobs == [] then NO_PROGRESS
    else AfterJob(Jobs(rows, now, jobs[..|jobs| - 1], worlds), rows, now, jobs[|jobs| - 1], worlds(|jobs| - 1))
  }

  /** A run: the scheduler must be enabled and the jobs readable. No counts are reported when it aborts. */
  datatype CronInput = CronInput(now: int, enabled: Answer, jobsRead: bool, scopes: string -> Scope,
                                 worlds: nat -> World)

  /** The jobs a run looks at. */
  function Eligible(schedules: seq<Schedule>, input: CronInput): seq<Job> {
    if input.enabled.Yes? && input.jobsRead && !SomeRefuses(schedules, input.now, input.scopes) then
      JobsOf(schedules, input.now, input.scopes)
    else []
  }

  function CronRun(schedules: seq<Schedule>, rows: RunRows, input: CronInput): Progress {
    if !input.enabled.Yes? then NO_PROGRESS.(aborted := input.enabled.Fails?)
    else if !input.jobsRead || SomeRefuses(schedules, input.now, input.scopes) then NO_PROGRESS.(aborted := true)
    else Jobs(rows, input.now, Eligible(schedules, input), input.worlds)
  }

  class Scheduler {
    var schedules: seq<Schedule>
    var rows: RunRows
    var trace: seq<Event>

    constructor (schedules: seq<Schedule>)
      ensures this.schedules == schedules && rows == map[] && trace == []
    {
      this.schedules, rows, trace := schedules, map[], [];
    }

    method Ask(job: Job, a: Answer) returns (permitted: bool, aborted: bool)
      modifies this`trace
      ensures trace == old(trace) + Asked(job, a) && permitted == a.Yes? && aborted == a.Fails?
    {
      permitted, aborted := a.Yes?, a.Fails?;
      trace := trace + Asked(job, a);
    }

    method LookAt(now: int, job: Job, w: World) returns (end: End)
      modifies this`trace, this`schedules
      ensures var l := Look(rows, now, job, w); trace == old(trace) + l.trace && end == l.end
      ensures schedules == if end.Enqueued? then Marked(old(schedules), job, now) else old(schedules)
    {
      var permitted, aborted := Ask(job, w.permitted);
      if !permitted {
        return if aborted then Aborted else Skipped;
      }
      end := LookPermitted(now, job, w);
      LookGoesOn(old(trace), rows, now, job, w);
    }

    /** A job whose connection is permitted. */
    method LookPermitted(now: int, job: Job, w: World) returns (end: End)
      modifies this`trace, this`schedules
      ensures var l := Permitted(rows, now, job, w); trace == old(trace) + l.trace && end == l.end
      ensures schedules == if end.Enqueued? then Marked(old(schedules), job, now) else old(schedules)
    {
      if job.bootstrap {
        return Skipped;
      }
      trace := trace + [Quota(job, job.quota, now)];
      end := LookWithQuota(now, job, w);
    }

    method LookWithQuota(now: int, job: Job, w: World) returns (end: End)
      modifies this`trace, this`schedules
      ensures var l := WithQuota(rows, now, job, w); trace == old(trace) + l.trace && end == l.end
      ensures schedules == if end.Enqueued? then Marked(old(schedules), job, now) else old(schedules)
    {
      var decision := QuotaDecision(job, job.quota, now);
      if (decision.StaleQuota? || decision.UnknownQuota?) && !w.refresh.NotOffered? {
        if w.refresh.RefreshThrows? {
          return Aborted;
        }
        if w.refresh.Throttled? || w.refresh.RefreshFailed? {
          return Skipped;
        }
        end := LookAfterRefresh(now, job, w);
      } else if !Allowed(decision) {
        end := Skipped;
      } else {
        end := DispatchJob(now, job, w);
      }
    }

    method LookAfterRefresh(now: int, job: Job, w: World) returns (end: End)
      modifies this`trace, this`schedules
      ensures var l := AfterRefresh(rows, job, w); trace == old(trace) + l.trace && end == l.end
      ensures schedules == if end.Enqueued? then Marked(old(schedules), job, now) else old(schedules)
    {
      match w.authoritative {
        case NoneOffered => end := Skipped;
        case ReadThrows => end := Aborted;
        case Read(reading, at) =>
          trace := trace + [Quota(job, reading, at)];
          if !Allowed(QuotaDecision(job, reading, at)) {
            return Skipped;
          }
          if !w.enabledAgain.Yes? {
            return Unless(w.enabledAgain);
          }
          var permitted, aborted := Ask(job, w.permittedAgain);
          if !permitted {
            return if aborted then Aborted else Skipped;
          }
          end := DispatchJob(now, job, w);
      }
    }

    method DispatchJob(now: int, job: Job, w: World) returns (end: End)
      modifies this`trace, this`schedules
      ensures var l := Dispatch(rows, job, w); trace == old(trace) + l.trace && end == l.end
      ensures schedules == if end.Enqueued? then Marked(old(schedules), job, now) else old(schedules)
    {
      if job.deep && !LimitIsValid(job.deepLimit) {
        return Aborted;
      }
      if job.deep && !DeepContract(job) {
        return Skipped;
      }
      if !w.schedulePermitted.Yes? {
        return Unless(w.schedulePermitted);
      }
      var permitted, aborted := Ask(job, w.permittedForReservation);
      if !permitted {
        return if aborted then Aborted else Skipped;
      }
      if !w.reservationReads {
        return Aborted;
      }
      var granted := Grants(rows, job);
      trace := trace + [Reservation(job.identity, granted)];
      if !granted {
        return Duplicate;
      }
      permitted, aborted := Ask(job, w.permittedAtLast);
      if !permitted {
        return if aborted then Aborted else Skipped;
      }
      if !w.sent {
        return Aborted;
      }
      trace := trace + [Send(job)];
      if !w.marked {
        return Aborted;
      }
      schedules := Marked(schedules, job, now);
      end := Enqueued;
    }

    method RunCommerceCron(input: CronInput) returns (counts: Option<Counts>)
      modifies this`trace, this`schedules
      ensures var p := CronRun(old(schedules), rows, input);
              && trace == old(trace) + p.trace && schedules == MarkAll(old(schedules), p.marked, input.now)
              && counts == if p.aborted then None else Some(p.counts)
    {
      if !input.enabled.Yes? {
        return if input.enabled.Fails? then None else Some(Counts(0, 0, 0));
      }
      if !input.jobsRead {
        return None;
      }
      var jobs := EligibleJobs(schedules, input.now, input.scopes);
      if jobs.None? {
        return None;
      }
      counts := RunJobs(input.now, jobs.value, input.worlds);
    }

    /** The next job of a run: what it adds to the trace, the counts after it, and whether its schedule is marked. */
    method RunJob(now: int, job: Job, w: World, counts: Counts) returns (after: Counts, aborted: bool)
      modifies this`trace, this`schedules
      ensures var l := Look(rows, now, job, w);
              && trace == old(trace) + l.trace && after == Counted(counts, l.end) && aborted == l.end.Aborted?
              && schedules == if l.end.Enqueued? then Marked(old(schedules), job, now) else old(schedules)
    {
      var end := LookAt(now, job, w);
      after := counts.(eligible := counts.eligible + 1);
      if end.Enqueued? {
        after := after.(enqueued := after.enqueued + 1);
      } else if end.Duplicate? {
        after := after.(duplicates := after.duplicates + 1);
      }
      aborted := end.Aborted?;
    }

    method RunJobs(now: int, jobs: seq<Job>, worlds: nat -> World) returns (counts: Option<Counts>)
      modifies this`trace, this`schedules
      ensures var p := Jobs(rows, now, jobs, worlds);
              && trace == old(trace) + p.trace && schedules == MarkAll(old(schedules), p.marked, now)
              && counts == if p.aborted then None else Some(p.counts)
    {
      var sofar := Counts(0, 0, 0);
      ghost var seen: seq<Event>, marked: seq<Job> := [], [];
      for i := 0 to |jobs|
        invariant trace == old(trace) + seen && schedules == MarkAll(old(schedules), marked, now)
        invariant Jobs(rows, now, jobs[..i], worlds) == Progress(seen, sofar, false, marked)
      {
        var aborted;
        JobsNext(rows, now, jobs, worlds, i);
        ghost var q := AfterJob(Progress(seen, sofar, false, marked), rows, now, jobs[i], worlds(i));
        MarkingNext(old(schedules), old(trace), seen, marked, rows, now, jobs[i], worlds(i));
        sofar, aborted := RunJob(now, jobs[i], worlds(i), sofar);
        seen, marked := q.trace, q.marked;
        if aborted {
          AbortedForGood(rows, now, jobs, worlds, i + 1);
          return None;
        }
      }
      assert jobs[..|jobs|] == jobs;
      counts := Some(sofar);
    }
  }

  lemma LookGoesOn(trace: seq<Event>, rows: RunRows, now: int, job: Job, w: World)
    requires w.permitted.Yes?
    ensures var l := Permitted(rows, now, job, w);
            && trace + Look(rows, now, job, w).trace == trace + Asked(job, w.permitted) + l.trace
            && Look(rows, now, job, w).end == l.end
  {
  }

  lemma {:induction false} MarkingNext(
    schedules: seq<Schedule>, trace: seq<Event>, seen: seq<Event>, marked: seq<Job>, rows: RunRows, now: int, job: Job,
    w: World)
    ensures var l := Look(rows, now, job, w);
            var more := if l.end.Enqueued? then [job] else [];
            && (trace + seen) + l.trace == trace + (seen + l.trace)
            && MarkAll(schedules, marked + more, now)
               == if l.end.Enqueued? then Marked(MarkAll(schedules, marked, now), job, now)
                  else MarkAll(schedules, marked, now)
  {
    MarkAllSnoc(schedules, marked, job, now);
    assert marked + [] == marked;
  }

  lemma {:induction false} JobsNext(rows: RunRows, now: int, jobs: seq<Job>, worlds: nat -> World, i: nat)
    requires i < |jobs|
    ensures Jobs(rows, now, jobs[..i + 1], worlds)
            == AfterJob(Jobs(rows, now, jobs[..i], worlds), rows, now, jobs[i], worlds(i))
  {
    assert jobs[..i + 1][..i] == jobs[..i];
  }

  lemma {:induction false} AbortedForGood(rows: RunRows, now: int, jobs: seq<Job>, worlds: nat -> World, i: nat)
    requires i <= |jobs| && Jobs(rows, now, jobs[..i], worlds).aborted
    ensures Jobs(rows, now, jobs, worlds) == Jobs(rows, now, jobs[..i], worlds)
    decreases |jobs| - i
  {
    if i == |jobs| {
      assert jobs[..i] == jobs;
    } else {
      assert jobs[..i + 1][..i] == jobs[..i];
      AbortedForGood(rows, now, jobs, worlds, i + 1);
    }
  }
}

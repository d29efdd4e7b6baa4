/** When a job's message is sent, and how else a look at it ends, told from the answers of the outside world alone. */
module CronRules {
  import opened Prelude
  import opened Schedules
  import opened Cron

  /** The reading is known, and not older than the job allows nor from the future. */
  predicate Fresh(job: Job, reading: Reading, at: int) {
    && reading.remaining.Some?
    && (job.maxAge.Some? ==> reading.observedAt.Some? && at - job.maxAge.value <= reading.observedAt.value <= at)
  }

  predicate Ample(job: Job, reading: Reading) {
    reading.remaining.Some? && reading.remaining.value >= job.floor + job.budget
  }

  /** The reading at hand suffices. */
  predicate KnownSuffices(job: Job, now: int) { Fresh(job, job.quota, now) && Ample(job, job.quota) }

  /** The reading at hand is of no use, and a new one was made. */
  predicate IsRefreshed(job: Job, now: int, w: World) { !Fresh(job, job.quota, now) && w.refresh.Refreshed? }

  predicate NewSuffices(job: Job, w: World) {
    && w.authoritative.Read? && Fresh(job, w.authoritative.reading, w.authoritative.checkedAt)
    && Ample(job, w.authoritative.reading)
  }

  /** The quota allows the job, after a refresh only if scheduler and connection are still allowed. */
  predicate QuotaAllows(job: Job, now: int, w: World) {
    || KnownSuffices(job, now)
    || (IsRefreshed(job, now, w) && NewSuffices(job, w) && w.enabledAgain.Yes? && w.permittedAgain.Yes?)
  }

  predicate LimitInBounds(job: Job) { job.deepLimit.Some? && 1 <= job.deepLimit.value <= 1000 }

  /** A deep job names its schedule and version, and its request limit is its budget. */
  predicate IsReady(job: Job) {
    job.deep ==>
      && LimitInBounds(job) && job.deepLimit.value == job.budget
      && job.scheduleIdIsUuid && job.scheduleVersion.Some? && job.scheduleVersion.value >= 1
  }

  /** A run is recorded for the identity, other than a paused one of a deep job. */
  predicate Blocked(rows: RunRows, job: Job) {
    job.identity in rows && !(job.deep && rows[job.identity] == Paused)
  }

  predicate Starts(job: Job, w: World) { w.permitted.Yes? && !job.bootstrap }

  /** The reservation is made. */
  predicate Reserves(now: int, job: Job, w: World) {
    Starts(job, w) && QuotaAllows(job, now, w) && IsReady(job) && w.schedulePermitted.Yes?
    && w.permittedForReservation.Yes?
  }

  /** The message is sent. */
  predicate IsSent(rows: RunRows, now: int, job: Job, w: World) {
    Reserves(now, job, w) && w.reservationReads && !Blocked(rows, job) && w.permittedAtLast.Yes? && w.sent
  }

  /** A call fails on the way of the quota. */
  predicate QuotaCallFails(job: Job, now: int, w: World) {
    && !Fresh(job, job.quota, now)
    && (|| w.refresh.RefreshThrows?
        || (w.refresh.Refreshed?
            && (|| w.authoritative.ReadThrows?
                || (NewSuffices(job, w)
                    && (w.enabledAgain.Fails? || (w.enabledAgain.Yes? && w.permittedAgain.Fails?))))))
  }

  /** A call fails, or a deep job's limit is out of bounds, once the quota allows the job. */
  predicate DispatchCallFails(rows: RunRows, job: Job, w: World) {
    || (job.deep && !LimitInBounds(job))
    || (IsReady(job)
        && (|| w.schedulePermitted.Fails?
            || (w.schedulePermitted.Yes?
                && (|| w.permittedForReservation.Fails?
                    || (w.permittedForReservation.Yes?
                        && (|| !w.reservationReads
                            || (!Blocked(rows, job)
                                && (w.permittedAtLast.Fails?
                                    || (w.permittedAtLast.Yes? && (!w.sent || !w.marked))))))))))
  }

  predicate Aborts(rows: RunRows, now: int, job: Job, w: World) {
    || w.permitted.Fails?
    || (Starts(job, w)
        && (QuotaCallFails(job, now, w) || (QuotaAllows(job, now, w) && DispatchCallFails(rows, job, w))))
  }

  // ---- a look ----

  ghost predicate Sends(l: Looked, job: Job) { Send(job) in l.trace }

  lemma SendsThen(trace: seq<Event>, l: Looked, job: Job)
    requires forall e <- trace :: !e.Send?
    ensures Sends(Then(trace, l), job) <==> Sends(l, job)
  {
  }

  lemma DispatchExactly(rows: RunRows, job: Job, w: World)
    ensures var l := Dispatch(rows, job, w);
            var reserves := IsReady(job) && w.schedulePermitted.Yes? && w.permittedForReservation.Yes?
                            && w.reservationReads;
            var sends := reserves && !Blocked(rows, job) && w.permittedAtLast.Yes? && w.sent;
            && (Sends(l, job) <==> sends) && (l.end.Enqueued? <==> sends && w.marked)
            && (l.end.Duplicate? <==> reserves && Blocked(rows, job))
            && (l.end.Aborted? <==> DispatchCallFails(rows, job, w))
  {
    var last := AfterReservation(job, w);
    assert Sends(last, job) <==> w.permittedAtLast.Yes? && w.sent;
    SendsThen([Reservation(job.identity, true)], last, job);
    SendsThen(Asked(job, Yes), Reserve(rows, job, w), job);
  }

  lemma DecisionExactly(job: Job, reading: Reading, at: int)
    requires !job.bootstrap
    ensures Allowed(QuotaDecision(job, reading, at)) <==> Fresh(job, reading, at) && Ample(job, reading)
    ensures (QuotaDecision(job, reading, at).StaleQuota? || QuotaDecision(job, reading, at).UnknownQuota?)
            <==> !Fresh(job, reading, at)
  {
  }

  lemma RefreshExactly(rows: RunRows, job: Job, w: World)
    requires !job.bootstrap
    ensures var l, rest := AfterRefresh(rows, job, w), Dispatch(rows, job, w);
            var passes := NewSuffices(job, w) && w.enabledAgain.Yes? && w.permittedAgain.Yes?;
            && (Sends(l, job) <==> passes && Sends(rest, job))
            && (l.end.Enqueued? <==> passes && rest.end.Enqueued?)
            && (l.end.Duplicate? <==> passes && rest.end.Duplicate?)
            && (l.end.Aborted? <==>
                  || w.authoritative.ReadThrows?
                  || (NewSuffices(job, w)
                      && (w.enabledAgain.Fails? || (w.enabledAgain.Yes? && w.permittedAgain.Fails?)))
                  || (passes && rest.end.Aborted?))
  {
    if w.authoritative.Read? {
      DecisionExactly(job, w.authoritative.reading, w.authoritative.checkedAt);
      SendsThen(Asked(job, Yes), Dispatch(rows, job, w), job);
      SendsThen([Quota(job, w.authoritative.reading, w.authoritative.checkedAt)],
                Then(Asked(job, Yes), Dispatch(rows, job, w)), job);
    }
  }

  lemma QuotaExactly(rows: RunRows, now: int, job: Job, w: World)
    requires !job.bootstrap
    ensures var l, rest := WithQuota(rows, now, job, w), Dispatch(rows, job, w);
            && (Sends(l, job) <==> QuotaAllows(job, now, w) && Sends(rest, job))
            && (l.end.Enqueued? <==> QuotaAllows(job, now, w) && rest.end.Enqueued?)
            && (l.end.Duplicate? <==> QuotaAllows(job, now, w) && rest.end.Duplicate?)
            && (l.end.Aborted? <==> QuotaCallFails(job, now, w) || (QuotaAllows(job, now, w) && rest.end.Aborted?))
  {
    DecisionExactly(job, job.quota, now);
    RefreshExactly(rows, job, w);
  }

  /** A look at a job sends its message, and ends as it does, exactly when the answers say so. */
  lemma {:induction false} LookExactly(rows: RunRows, now: int, job: Job, w: World)
    ensures var l := Look(rows, now, job, w);
            && (Send(job) in l.trace <==> IsSent(rows, now, job, w))
            && (l.end.Enqueued? <==> IsSent(rows, now, job, w) && w.marked)
            && (l.end.Duplicate? <==> Reserves(now, job, w) && w.reservationReads && Blocked(rows, job))
            && (l.end.Aborted? <==> Aborts(rows, now, job, w))
  {
    DispatchExactly(rows, job, w);
    if Starts(job, w) {
      QuotaExactly(rows, now, job, w);
      SendsThen([Quota(job, job.quota, now)], WithQuota(rows, now, job, w), job);
      SendsThen(Asked(job, Yes), Permitted(rows, now, job, w), job);
    }
  }

  // ---- a run ----

  ghost predicate ReachesJob(rows: RunRows, now: int, jobs: seq<Job>, worlds: nat -> World, k: nat)
    requires k <= |jobs|
  {
    forall i :: 0 <= i < k ==> !Aborts(rows, now, jobs[i], worlds(i))
  }

  ghost predicate SendsOne(rows: RunRows, now: int, jobs: seq<Job>, worlds: nat -> World, job: Job, marking: bool) {
    exists k :: 0 <= k < |jobs| && SendsAt(rows, now, jobs, worlds, job, marking, k)
  }

  /** The run comes to job `k`, which is the given one, and sends it, and marks it if asked. */
  ghost predicate SendsAt(
    rows: RunRows, now: int, jobs: seq<Job>, worlds: nat -> World, job: Job, marking: bool, k: nat)
    requires k < |jobs|
  {
    && jobs[k] == job && ReachesJob(rows, now, jobs, worlds, k)
    && IsSent(rows, now, job, worlds(k)) && (marking ==> worlds(k).marked)
  }

  lemma {:induction false} SendsOneSnoc(
    rows: RunRows, now: int, jobs: seq<Job>, worlds: nat -> World, job: Job, marking: bool)
    requires jobs != []
    ensures SendsOne(rows, now, jobs, worlds, job, marking)
            <==> SendsOne(rows, now, jobs[..|jobs| - 1], worlds, job, marking)
                 || SendsAt(rows, now, jobs, worlds, job, marking, |jobs| - 1)
  {
    var front := jobs[..|jobs| - 1];
    forall k | 0 <= k < |front|
      ensures SendsAt(rows, now, jobs, worlds, job, marking, k)
              <==> SendsAt(rows, now, front, worlds, job, marking, k) {
    }
    if SendsOne(rows, now, front, worlds, job, marking) {
      var k :| 0 <= k < |front| && SendsAt(rows, now, front, worlds, job, marking, k);
      assert SendsAt(rows, now, jobs, worlds, job, marking, k);
    }
  }

  /**
   * The messages of a run, the jobs it marks, and whether it aborts: a failing call ends it, after what was sent
   * before.
   */
  lemma {:induction false} JobsExactly(rows: RunRows, now: int, jobs: seq<Job>, worlds: nat -> World, job: Job)
    ensures var p := Jobs(rows, now, jobs, worlds);
            && (p.aborted <==> !ReachesJob(rows, now, jobs, worlds, |jobs|))
            && (Send(job) in p.trace <==> SendsOne(rows, now, jobs, worlds, job, false))
            && (job in p.marked <==> SendsOne(rows, now, jobs, worlds, job, true))
    decreases |jobs|
  {
    if jobs != [] {
      var front, last, w := jobs[..|jobs| - 1], jobs[|jobs| - 1], worlds(|jobs| - 1);
      JobsExactly(rows, now, front, worlds, job);
      LookExactly(rows, now, last, w);
      LookIsOwn(rows, now, last, w, job);
      SendsOneSnoc(rows, now, jobs, worlds, job, false);
      SendsOneSnoc(rows, now, jobs, worlds, job, true);
      ReachesSnoc(rows, now, jobs, worlds);
      AfterJobExactly(Jobs(rows, now, front, worlds), rows, now, last, w, job);
    }
  }

  lemma ReachesSnoc(rows: RunRows, now: int, jobs: seq<Job>, worlds: nat -> World)
    requires jobs != []
    ensures var n := |jobs| - 1;
            && (ReachesJob(rows, now, jobs, worlds, n) <==> ReachesJob(rows, now, jobs[..n], worlds, n))
            && (ReachesJob(rows, now, jobs, worlds, n + 1)
                <==> ReachesJob(rows, now, jobs, worlds, n) && !Aborts(rows, now, jobs[n], worlds(n)))
  {
  }

  lemma AfterJobExactly(p: Progress, rows: RunRows, now: int, last: Job, w: World, job: Job)
    ensures var l, q := Look(rows, now, last, w), AfterJob(p, rows, now, last, w);
            && (q.aborted <==> p.aborted || l.end.Aborted?)
            && (Send(job) in q.trace <==> Send(job) in p.trace || (!p.aborted && Send(job) in l.trace))
            && (job in q.marked <==> job in p.marked || (!p.aborted && l.end.Enqueued? && job == last))
  {
  }

  /** A look sends no other job's message. */
  lemma {:induction false} LookIsOwn(rows: RunRows, now: int, job: Job, w: World, other: Job)
    ensures Send(other) in Look(rows, now, job, w).trace ==> other == job
  {
  }

  /**
   * A run of the scheduler sends a message exactly when it is enabled, reads its jobs, and comes to one that is sent.
   */
  lemma CronRunSendsExactlyWhen(schedules: seq<Schedule>, rows: RunRows, input: CronInput, job: Job)
    ensures var p := CronRun(schedules, rows, input);
            var runs := input.enabled.Yes? && input.jobsRead && !SomeRefuses(schedules, input.now, input.scopes);
            var jobs := JobsOf(schedules, input.now, input.scopes);
            && (Send(job) in p.trace <==> runs && SendsOne(rows, input.now, jobs, input.worlds, job, false))
            && (job in p.marked <==> runs && SendsOne(rows, input.now, jobs, input.worlds, job, true))
            && (p.aborted <==>
                  || input.enabled.Fails?
                  || (input.enabled.Yes?
                      && (!input.jobsRead || SomeRefuses(schedules, input.now, input.scopes)
                          || !ReachesJob(rows, input.now, jobs, input.worlds, |jobs|))))
  {
    JobsExactly(rows, input.now, JobsOf(schedules, input.now, input.scopes), input.worlds, job);
  }

  // ---- the jobs that schedules offer ----

  /** The cadence in milliseconds; a manual schedule has none. */
  function CadenceMs(f: Frequency): Option<nat> {
    match f
    case Hourly => Some(3_600_000)
    case Every30Minutes => Some(1_800_000)
    case Every15Minutes => Some(900_000)
    case Every5Minutes => Some(300_000)
    case Manual => None
  }

  predicate IsCome(time: Option<int>, now: int) { time.Some? && now >= time.value }

  /** A cadence has passed since the last message, and the next overlap, if set, has come. */
  predicate ContinuousIsDue(s: Schedule, now: int) {
    && CadenceMs(s.frequency).Some?
    && (s.last.Some? ==> now >= s.last.value + CadenceMs(s.frequency).value)
    && (s.nextOverlap.Some? ==> IsCome(s.nextOverlap, now))
  }

  /** When a schedule offers a job, and which: a deep run of its version before a window of its cadence. */
  lemma {:induction false} ScheduleOffersExactly(s: Schedule, now: int, scope: Scope)
    ensures Offers(s, now, scope)
            <==> s.enabled && scope.inScope && (IsCome(s.nextDeep, now) || ContinuousIsDue(s, now))
    ensures Offers(s, now, scope) ==>
              var job := JobOf(s, now, scope);
              && job.identity.connection == s.connection && job.quota == scope.quota && job.floor == s.floor
              && !job.bootstrap && job.scheduleIdIsUuid && job.scheduleVersion == Some(s.version)
              && job.maxAge == Some((if CadenceMs(s.frequency).None? then 3_600_000 else CadenceMs(s.frequency).value)
                                    + 900_000)
              && (job.deep <==> IsCome(s.nextDeep, now))
              && (job.deep ==> job.identity.key == Deep(s.id, s.version))
              && (job.deep ==> job.budget == s.deepLimit && job.deepLimit == Some(s.deepLimit))
              && (!job.deep ==> job.budget == 8 && job.deepLimit == None && job.identity.key.Window?)
              && (!job.deep ==> job.identity.key.schedule == s.id)
              && (!job.deep ==> var cadence, n := CadenceMs(s.frequency).value, job.identity.key.number;
                                n * cadence <= now < (n + 1) * cadence)
  {
  }
}

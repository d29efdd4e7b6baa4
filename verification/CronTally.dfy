/** What a run of the scheduler looks at, reserves and counts, told by the answers it gets. */
module CronTally {
  import opened Schedules
  import opened Cron
  import opened CronRules

  // ---- reservations ----

  lemma {:induction false} DispatchReserves(rows: RunRows, job: Job, w: World, r: Event)
    requires r.Reservation?
    ensures r in Dispatch(rows, job, w).trace <==>
            && IsReady(job) && w.schedulePermitted.Yes? && w.permittedForReservation.Yes? && w.reservationReads
            && r == Reservation(job.identity, !Blocked(rows, job))
  {
    assert r !in AfterReservation(job, w).trace && r !in Asked(job, Yes);
  }

  lemma RefreshReserves(rows: RunRows, job: Job, w: World, r: Event)
    requires r.Reservation? && !job.bootstrap
    ensures r in AfterRefresh(rows, job, w).trace <==>
            NewSuffices(job, w) && w.enabledAgain.Yes? && w.permittedAgain.Yes? && r in Dispatch(rows, job, w).trace
  {
    if w.authoritative.Read? {
      DecisionExactly(job, w.authoritative.reading, w.authoritative.checkedAt);
    }
  }

  lemma QuotaReserves(rows: RunRows, now: int, job: Job, w: World, r: Event)
    requires r.Reservation? && !job.bootstrap
    ensures r in WithQuota(rows, now, job, w).trace <==>
            QuotaAllows(job, now, w) && r in Dispatch(rows, job, w).trace
  {
    DecisionExactly(job, job.quota, now);
    RefreshReserves(rows, job, w, r);
  }

  /** A look asks for one reservation at most, and it is granted exactly when no recorded run blocks the identity. */
  lemma {:induction false} ReservationExactly(rows: RunRows, now: int, job: Job, w: World, r: Event)
    requires r.Reservation?
    ensures r in Look(rows, now, job, w).trace
            <==> Reserves(now, job, w) && w.reservationReads && r == Reservation(job.identity, !Blocked(rows, job))
  {
    if Starts(job, w) {
      QuotaReserves(rows, now, job, w, r);
      DispatchReserves(rows, job, w, r);
    }
  }

  // ---- counts ----

  /** The places of a run's jobs at which it arrives and something is so. */
  ghost function Places(rows: RunRows, now: int, jobs: seq<Job>, worlds: nat -> World,
                        test: (Job, World) -> bool): set<nat>
  {
    set i: nat | i < |jobs| && ReachesJob(rows, now, jobs, worlds, i) && test(jobs[i], worlds(i))
  }

  lemma PlacesSnoc(rows: RunRows, now: int, front: seq<Job>, last: Job, worlds: nat -> World,
                   test: (Job, World) -> bool)
    ensures |Places(rows, now, front + [last], worlds, test)|
            == |Places(rows, now, front, worlds, test)|
               + if ReachesJob(rows, now, front, worlds, |front|) && test(last, worlds(|front|)) then 1 else 0
  {
    var jobs := front + [last];
    assert |front| !in Places(rows, now, front, worlds, test);
    forall i: nat | i <= |front|
      ensures ReachesJob(rows, now, jobs, worlds, i) <==> ReachesJob(rows, now, front, worlds, i)
    {
      assert forall h :: 0 <= h < i ==> jobs[h] == front[h];
    }
    forall i: nat ensures i in Places(rows, now, jobs, worlds, test) <==>
                          || i in Places(rows, now, front, worlds, test)
                          || (i == |front| && ReachesJob(rows, now, front, worlds, i) && test(last, worlds(i)))
    {
    }
    assert Places(rows, now, jobs, worlds, test)
        == Places(rows, now, front, worlds, test)
           + if ReachesJob(rows, now, front, worlds, |front|) && test(last, worlds(|front|)) then {|front|} else {};
  }

  lemma CountsAfter(p: Progress, rows: RunRows, now: int, job: Job, w: World)
    ensures AfterJob(p, rows, now, job, w).counts
            == if p.aborted then p.counts
               else Counts(p.counts.eligible + 1,
                           p.counts.enqueued + (if ENQUEUED(rows, now)(job, w) then 1 else 0),
                           p.counts.duplicates + (if DUPLICATE(rows, now)(job, w) then 1 else 0))
  {
    LookExactly(rows, now, job, w);
  }

  const ANY: (Job, World) -> bool := (job: Job, w: World) => true

  function ENQUEUED(rows: RunRows, now: int): (Job, World) -> bool {
    (job: Job, w: World) => IsSent(rows, now, job, w) && w.marked
  }

  function DUPLICATE(rows: RunRows, now: int): (Job, World) -> bool {
    (job: Job, w: World) => Reserves(now, job, w) && w.reservationReads && Blocked(rows, job)
  }

  /** A run counts the jobs it arrives at, those it sends and marks, and those a recorded run blocks. */
  lemma {:induction false} CountsExactly(rows: RunRows, now: int, jobs: seq<Job>, worlds: nat -> World)
    ensures Jobs(rows, now, jobs, worlds).counts
            == Counts(|Places(rows, now, jobs, worlds, ANY)|, |Places(rows, now, jobs, worlds, ENQUEUED(rows, now))|,
                      |Places(rows, now, jobs, worlds, DUPLICATE(rows, now))|)
    decreases |jobs|
  {
    if jobs != [] {
      var front, last, w := jobs[..|jobs| - 1], jobs[|jobs| - 1], worlds(|jobs| - 1);
      assert jobs == front + [last];
      CountsExactly(rows, now, front, worlds);
      JobsExactly(rows, now, front, worlds, last);
      CountsAfter(Jobs(rows, now, front, worlds), rows, now, last, w);
      PlacesSnoc(rows, now, front, last, worlds, ANY);
      PlacesSnoc(rows, now, front, last, worlds, ENQUEUED(rows, now));
      PlacesSnoc(rows, now, front, last, worlds, DUPLICATE(rows, now));
    }
  }

  // ---- which jobs a run looks at ----

  /** Each schedule offers its job in its turn, or none. */
  lemma {:induction false} JobsInOrder(s: seq<Schedule>, t: seq<Schedule>, now: int, scopes: string -> Scope)
    ensures JobsOf(s + t, now, scopes) == JobsOf(s, now, scopes) + JobsOf(t, now, scopes)
    ensures |t| == 1 && Offers(t[0], now, scopes(t[0].id)) ==>
              JobsOf(t, now, scopes) == [JobOf(t[0], now, scopes(t[0].id))]
    ensures |t| == 1 && !Offers(t[0], now, scopes(t[0].id)) ==> JobsOf(t, now, scopes) == []
    decreases |t|
  {
    if t == [] {
      assert s + t == s;
    } else {
      assert (s + t)[..|s + t| - 1] == s + t[..|t| - 1];
      JobsInOrder(s, t[..|t| - 1], now, scopes);
    }
  }
}

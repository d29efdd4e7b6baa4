/** What every trace of cron runs satisfies: why each message was sent, and how often an identity may be sent. */
module CronLaws {
  import opened Seqs
  import opened Schedules
  import opened Cron

  // ---- why a message was sent ----

  /** The reading leaves the job's budget above its floor and is not stale. */
  predicate Suffices(job: Job, reading: Reading, at: int) {
    && reading.remaining.Some? && reading.remaining.value >= job.floor + job.budget
    && (job.maxAge.Some? ==> reading.observedAt.Some? && at - job.maxAge.value <= reading.observedAt.value <= at)
  }

  /** The last quota event before position `n` is event `m`, a sufficient reading for the job. */
  ghost predicate LastReading(trace: seq<Event>, m: nat, n: nat, job: Job)
    requires n <= |trace|
  {
    && m < n && trace[m].Quota? && trace[m].job == job && Suffices(job, trace[m].reading, trace[m].at)
    && forall k :: m < k < n ==> !trace[k].Quota?
  }

  /** The message at position `n`: reserved and then permitted just before, and its last quota reading sufficed. */
  ghost predicate Justified(trace: seq<Event>, n: nat)
    requires n < |trace|
  {
    trace[n].Send? ==>
      var job := trace[n].job;
      && !job.bootstrap
      && n >= 2
      && trace[n - 1] == Permission(job.identity.connection, true)
      && trace[n - 2] == Reservation(job.identity, true)
      && exists m :: LastReading(trace, m, n, job)
  }

  ghost predicate AllJustified(trace: seq<Event>) { forall n :: 0 <= n < |trace| ==> Justified(trace, n) }

  predicate HasSend(trace: seq<Event>) { exists k :: 0 <= k < |trace| && trace[k].Send? }

  /** The end of a job's trace when its message was sent. */
  function Closing(job: Job): seq<Event> {
    var c := job.identity.connection;
    [Permission(c, true), Reservation(job.identity, true), Permission(c, true), Send(job)]
  }

  lemma ReserveShape(rows: RunRows, job: Job, w: World)
    ensures var l := Reserve(rows, job, w);
            HasSend(l.trace) ==> (
              && Grants(rows, job)
              && l.trace == [Reservation(job.identity, true), Permission(job.identity.connection, true), Send(job)])
  {
    var l := Reserve(rows, job, w);
    if HasSend(l.trace) {
      var k :| 0 <= k < |l.trace| && l.trace[k].Send?;
      assert AfterReservation(job, w).trace[k - 1].Send?;
    }
  }

  lemma DispatchShape(rows: RunRows, job: Job, w: World)
    ensures var l := Dispatch(rows, job, w);
            && (forall k :: 0 <= k < |l.trace| ==> !l.trace[k].Quota?)
            && (HasSend(l.trace) ==> Grants(rows, job) && l.trace == Closing(job))
  {
    var l := Dispatch(rows, job, w);
    if HasSend(l.trace) {
      var k :| 0 <= k < |l.trace| && l.trace[k].Send?;
      assert Reserve(rows, job, w).trace[k - 1].Send?;
      ReserveShape(rows, job, w);
    }
  }

  lemma DecisionSuffices(job: Job, reading: Reading, now: int)
    requires !job.bootstrap
    ensures Allowed(QuotaDecision(job, reading, now)) <==> Suffices(job, reading, now)
  {
  }

  predicate IsRenewed(job: Job, w: World) {
    w.authoritative.Read? && Suffices(job, w.authoritative.reading, w.authoritative.checkedAt)
  }

  function Renewal(job: Job, w: World): seq<Event>
    requires w.authoritative.Read?
  {
    [Quota(job, w.authoritative.reading, w.authoritative.checkedAt), Permission(job.identity.connection, true)]
  }

  /** A job's trace: permission, quota, perhaps a refreshed quota and a permission, then the closing. */
  lemma AfterRefreshShape(rows: RunRows, job: Job, w: World)
    requires !job.bootstrap && HasSend(AfterRefresh(rows, job, w).trace)
    ensures Grants(rows, job) && IsRenewed(job, w) && AfterRefresh(rows, job, w).trace == Renewal(job, w) + Closing(job)
  {
    DecisionSuffices(job, w.authoritative.reading, w.authoritative.checkedAt);
    var inner := Dispatch(rows, job, w).trace;
    assert AfterRefresh(rows, job, w).trace == Renewal(job, w) + inner;
    SendBehind(Renewal(job, w), inner);
    DispatchShape(rows, job, w);
  }

  ghost predicate Plain(rows: RunRows, now: int, job: Job, trace: seq<Event>) {
    Suffices(job, job.quota, now) && trace == Opening(job, now) + Closing(job)
  }

  ghost predicate Renewed(now: int, job: Job, w: World, trace: seq<Event>) {
    IsRenewed(job, w) && trace == Opening(job, now) + (Renewal(job, w) + Closing(job))
  }

  lemma SendBehind(front: seq<Event>, t: seq<Event>)
    requires !HasSend(front) && HasSend(front + t)
    ensures HasSend(t)
  {
    var k :| 0 <= k < |front + t| && (front + t)[k].Send?;
    assert t[k - |front|].Send?;
  }

  function Opening(job: Job, now: int): seq<Event> {
    [Permission(job.identity.connection, true), Quota(job, job.quota, now)]
  }

  lemma LookOpens(rows: RunRows, now: int, job: Job, w: World)
    requires HasSend(Look(rows, now, job, w).trace)
    ensures var inner := WithQuota(rows, now, job, w);
            !job.bootstrap && Look(rows, now, job, w).trace == Opening(job, now) + inner.trace && HasSend(inner.trace)
  {
    assert Look(rows, now, job, w).trace == Opening(job, now) + WithQuota(rows, now, job, w).trace;
    SendBehind(Opening(job, now), WithQuota(rows, now, job, w).trace);
  }

  /** A message that needs no new reading, or one that had it. */
  lemma WithQuotaShape(rows: RunRows, now: int, job: Job, w: World)
    requires !job.bootstrap && HasSend(WithQuota(rows, now, job, w).trace)
    ensures var trace := WithQuota(rows, now, job, w).trace;
            && Grants(rows, job)
            && ((Suffices(job, job.quota, now) && trace == Closing(job))
                || (IsRenewed(job, w) && trace == Renewal(job, w) + Closing(job)))
  {
    DecisionSuffices(job, job.quota, now);
    var inner := WithQuota(rows, now, job, w);
    if inner == Dispatch(rows, job, w) && Suffices(job, job.quota, now) {
      DispatchShape(rows, job, w);
    } else {
      assert inner == AfterRefresh(rows, job, w);
      AfterRefreshShape(rows, job, w);
    }
  }

  lemma LookShape(rows: RunRows, now: int, job: Job, w: World)
    requires HasSend(Look(rows, now, job, w).trace)
    ensures var trace := Look(rows, now, job, w).trace;
            !job.bootstrap && Grants(rows, job) && (Plain(rows, now, job, trace) || Renewed(now, job, w, trace))
  {
    LookOpens(rows, now, job, w);
    WithQuotaShape(rows, now, job, w);
  }

  lemma PlainIsJustified(rows: RunRows, now: int, job: Job, trace: seq<Event>)
    requires Plain(rows, now, job, trace) && !job.bootstrap
    ensures AllJustified(trace)
  {
    assert |trace| == 6 && trace[5] == Send(job) && LastReading(trace, 1, 5, job);
  }

  lemma RenewedIsJustified(now: int, job: Job, w: World, trace: seq<Event>)
    requires Renewed(now, job, w, trace) && !job.bootstrap
    ensures AllJustified(trace)
  {
    assert |trace| == 8 && trace[7] == Send(job) && LastReading(trace, 2, 7, job);
  }

  lemma LookIsJustified(rows: RunRows, now: int, job: Job, w: World)
    ensures AllJustified(Look(rows, now, job, w).trace)
  {
    var trace := Look(rows, now, job, w).trace;
    if HasSend(trace) {
      LookShape(rows, now, job, w);
      if Plain(rows, now, job, trace) {
        PlainIsJustified(rows, now, job, trace);
      } else {
        RenewedIsJustified(now, job, w, trace);
      }
    }
  }

  lemma LaterIsJustified(s: seq<Event>, t: seq<Event>, n: nat)
    requires n < |t| && Justified(t, n)
    ensures Justified(s + t, |s| + n)
  {
    if t[n].Send? {
      var job := t[n].job;
      var m :| LastReading(t, m, n, job);
      assert forall k :: 0 <= k < |t| ==> (s + t)[|s| + k] == t[k];
      forall k | |s| + m < k < |s| + n ensures !(s + t)[k].Quota? {
        assert (s + t)[k] == t[k - |s|];
      }
      assert LastReading(s + t, |s| + m, |s| + n, job);
    }
  }

  lemma EarlierIsJustified(s: seq<Event>, t: seq<Event>, n: nat)
    requires n < |s| && Justified(s, n)
    ensures Justified(s + t, n)
  {
    if s[n].Send? {
      var job := s[n].job;
      var m :| LastReading(s, m, n, job);
      assert LastReading(s + t, m, n, job);
    }
  }

  lemma ConcatIsJustified(s: seq<Event>, t: seq<Event>)
    requires AllJustified(s) && AllJustified(t)
    ensures AllJustified(s + t)
  {
    forall n | 0 <= n < |s + t| ensures Justified(s + t, n) {
      if n < |s| {
        EarlierIsJustified(s, t, n);
      } else {
        LaterIsJustified(s, t, n - |s|);
      }
    }
  }

  // ---- how often an identity is sent ----

  function IsSend(id: Identity): Event -> bool { (e: Event) => e.Send? && e.job.identity == id }

  function IsGrant(id: Identity): Event -> bool { (e: Event) => e == Reservation(id, true) }

  function Sends(trace: seq<Event>, id: Identity): nat { |Filter(IsSend(id), trace)| }

  function Granted(trace: seq<Event>, id: Identity): nat { |Filter(IsGrant(id), trace)| }

  ghost predicate SentWithinGrants(trace: seq<Event>) { forall id :: Sends(trace, id) <= Granted(trace, id) }

  lemma CountConcat(s: seq<Event>, t: seq<Event>, id: Identity)
    ensures Sends(s + t, id) == Sends(s, id) + Sends(t, id)
    ensures Granted(s + t, id) == Granted(s, id) + Granted(t, id)
  {
    FilterConcat(IsSend(id), s, t);
    FilterConcat(IsGrant(id), s, t);
  }

  lemma NoSends(trace: seq<Event>, id: Identity)
    requires !HasSend(trace)
    ensures Sends(trace, id) == 0
  {
    forall e | e in trace ensures !IsSend(id)(e) {
      var k :| 0 <= k < |trace| && trace[k] == e;
    }
    FilterNone(IsSend(id), trace);
  }

  lemma ClosingCounts(job: Job, id: Identity)
    ensures Sends(Closing(job), id) == Granted(Closing(job), id) == if job.identity == id then 1 else 0
  {
    var c := job.identity.connection;
    var p, r, s := [Permission(c, true)], [Reservation(job.identity, true)], [Send(job)];
    assert Closing(job) == ((p + r) + p) + s;
    CountConcat((p + r) + p, s, id);
    CountConcat(p + r, p, id);
    CountConcat(p, r, id);
    OneEvent(p[0], id);
    OneEvent(r[0], id);
    OneEvent(s[0], id);
  }

  lemma OneEvent(e: Event, id: Identity)
    ensures Sends([e], id) == if IsSend(id)(e) then 1 else 0
    ensures Granted([e], id) == if IsGrant(id)(e) then 1 else 0
  {
    assert [] + [e] == [e];
    FilterSnoc(IsSend(id), [], e);
    FilterSnoc(IsGrant(id), [], e);
  }

  lemma LookSplits(rows: RunRows, now: int, job: Job, w: World) returns (front: seq<Event>)
    requires HasSend(Look(rows, now, job, w).trace)
    ensures Look(rows, now, job, w).trace == front + Closing(job) && !HasSend(front) && Grants(rows, job)
  {
    LookShape(rows, now, job, w);
    var trace := Look(rows, now, job, w).trace;
    front := Opening(job, now);
    if !Plain(rows, now, job, trace) {
      assert front + (Renewal(job, w) + Closing(job)) == (front + Renewal(job, w)) + Closing(job);
      front := front + Renewal(job, w);
    }
  }

  /** One look sends at most one message, for its own job, and only when the reservation grants it. */
  lemma LookCounts(rows: RunRows, now: int, job: Job, w: World, id: Identity)
    ensures var trace := Look(rows, now, job, w).trace;
            && Sends(trace, id) <= Granted(trace, id)
            && Sends(trace, id) <= 1
            && (Sends(trace, id) == 1 ==> job.identity == id && Grants(rows, job))
  {
    var trace := Look(rows, now, job, w).trace;
    if HasSend(trace) {
      var front := LookSplits(rows, now, job, w);
      CountConcat(front, Closing(job), id);
      ClosingCounts(job, id);
      NoSends(front, id);
    } else {
      NoSends(trace, id);
    }
  }

  // ---- a whole run ----

  /** In every run each message is justified, and no identity is sent more often than it was reserved. */
  lemma {:induction false} JobsAreSound(rows: RunRows, now: int, jobs: seq<Job>, worlds: nat -> World)
    ensures AllJustified(Jobs(rows, now, jobs, worlds).trace) && SentWithinGrants(Jobs(rows, now, jobs, worlds).trace)
    decreases |jobs|
  {
    if jobs != [] {
      var n := |jobs| - 1;
      JobsAreSound(rows, now, jobs[..n], worlds);
      var before, l := Jobs(rows, now, jobs[..n], worlds), Look(rows, now, jobs[n], worlds(n));
      LookIsJustified(rows, now, jobs[n], worlds(n));
      ConcatIsJustified(before.trace, l.trace);
      forall id ensures Sends(before.trace + l.trace, id) <= Granted(before.trace + l.trace, id) {
        LookCounts(rows, now, jobs[n], worlds(n), id);
        CountConcat(before.trace, l.trace, id);
      }
    }
  }

  function AllSends(trace: seq<Event>): nat { |Filter(SENT, trace)| }

  const SENT: Event -> bool := (e: Event) => e.Send?

  lemma LookEnd(rows: RunRows, now: int, job: Job, w: World)
    ensures var l := Look(rows, now, job, w);
            && (l.end.Enqueued? ==> AllSends(l.trace) == 1)
            && (l.end.Duplicate? || l.end.Skipped? ==> AllSends(l.trace) == 0)
            && AllSends(l.trace) <= 1
  {
    var l := Look(rows, now, job, w);
    if HasSend(l.trace) {
      LookShape(rows, now, job, w);
      var front := l.trace[..|l.trace| - 1];
      assert l.trace == front + [Send(job)];
      FilterNone(SENT, front);
      FilterSnoc(SENT, front, Send(job));
      SendEnds(rows, now, job, w);
    } else {
      FilterNone(SENT, l.trace);
      SendEnds(rows, now, job, w);
    }
  }

  /** A sent message ends in an enqueued job or in an abort of the run, and only a sent one counts as enqueued. */
  predicate EndsRight(l: Looked) {
    (l.end.Enqueued? ==> HasSend(l.trace)) && (HasSend(l.trace) ==> l.end.Enqueued? || l.end.Aborted?)
  }

  lemma ThenEndsRight(t: seq<Event>, l: Looked)
    requires !HasSend(t) && EndsRight(l)
    ensures EndsRight(Then(t, l))
  {
    var all := Then(t, l).trace;
    if k :| 0 <= k < |l.trace| && l.trace[k].Send? {
      assert all[|t| + k].Send?;
    }
    if k :| 0 <= k < |all| && all[k].Send? {
      assert l.trace[k - |t|].Send?;
    }
  }

  lemma DispatchEnds(rows: RunRows, job: Job, w: World)
    ensures EndsRight(Dispatch(rows, job, w))
  {
    var l := AfterReservation(job, w);
    if w.permittedAtLast.Yes? && w.sent {
      assert l.trace[1].Send?;
    }
    assert EndsRight(l);
    ThenEndsRight([Reservation(job.identity, true)], l);
    assert EndsRight(Reserve(rows, job, w));
    ThenEndsRight(Asked(job, Yes), Reserve(rows, job, w));
  }

  lemma SendEnds(rows: RunRows, now: int, job: Job, w: World)
    ensures EndsRight(Look(rows, now, job, w))
  {
    DispatchEnds(rows, job, w);
    ThenEndsRight(Asked(job, Yes), Dispatch(rows, job, w));
    if w.authoritative.Read? {
      RefreshEnds(rows, job, w);
    }
    assert EndsRight(WithQuota(rows, now, job, w));
    ThenEndsRight([Quota(job, job.quota, now)], WithQuota(rows, now, job, w));
    assert EndsRight(Permitted(rows, now, job, w));
    ThenEndsRight(Asked(job, Yes), Permitted(rows, now, job, w));
  }

  lemma RefreshEnds(rows: RunRows, job: Job, w: World)
    requires w.authoritative.Read? && EndsRight(Then(Asked(job, Yes), Dispatch(rows, job, w)))
    ensures EndsRight(AfterRefresh(rows, job, w))
  {
    var reading, at := w.authoritative.reading, w.authoritative.checkedAt;
    var rest := if !Allowed(QuotaDecision(job, reading, at)) then Looked([], Skipped)
                else if !w.enabledAgain.Yes? then Looked([], Unless(w.enabledAgain))
                else if !w.permittedAgain.Yes? then Looked(Asked(job, w.permittedAgain), Unless(w.permittedAgain))
                else Then(Asked(job, Yes), Dispatch(rows, job, w));
    assert EndsRight(rest);
    ThenEndsRight([Quota(job, reading, at)], rest);
  }

  /** The reported counts: what was enqueued or found duplicate was eligible, and the enqueued are the messages sent. */
  lemma {:induction false} CountsAddUp(rows: RunRows, now: int, jobs: seq<Job>, worlds: nat -> World)
    ensures var p := Jobs(rows, now, jobs, worlds);
            && p.counts.enqueued + p.counts.duplicates <= p.counts.eligible <= |jobs|
            && (!p.aborted ==> p.counts.eligible == |jobs| && AllSends(p.trace) == p.counts.enqueued)
            && p.counts.enqueued <= AllSends(p.trace) <= p.counts.enqueued + 1
    decreases |jobs|
  {
    if jobs != [] {
      var n := |jobs| - 1;
      CountsAddUp(rows, now, jobs[..n], worlds);
      var before, l := Jobs(rows, now, jobs[..n], worlds), Look(rows, now, jobs[n], worlds(n));
      LookEnd(rows, now, jobs[n], worlds(n));
      FilterConcat(SENT, before.trace, l.trace);
    }
  }

  lemma RunIsSound(schedules: seq<Schedule>, rows: RunRows, input: CronInput)
    ensures var trace := CronRun(schedules, rows, input).trace; AllJustified(trace) && SentWithinGrants(trace)
  {
    if CronRun(schedules, rows, input).trace == [] {
      forall id ensures Sends([], id) <= Granted([], id) {
      }
    } else {
      JobsAreSound(rows, input.now, Eligible(schedules, input), input.worlds);
    }
  }
}

/**
 * What every run of the consumer keeps: the cursor is contiguous, it never moves back without
 * leave, the tables are a replay of attempts, and clean batches drain the log.
 */
module ConsumerLaws {
  import opened Prelude
  import opened Seqs
  import opened Projection
  import opened Consumer

  /** Every event at or below the position has been projected completely. */
  ghost predicate ContiguousUpTo(log: seq<Event>, t: Tables, position: nat) {
    forall e :: e in log && e.position <= position ==> Complete(t, e)
  }

  ghost predicate Contiguous(s: Store) { ContiguousUpTo(s.log, s.tables, s.cursor) }

  /** A linked event of the log is counted in its group. */
  ghost predicate LinksSound(log: seq<Event>, t: Tables) {
    forall e :: e in log && Linked(t, e) ==> e.groupId in t.groups && e.kind in t.groups[e.groupId].kinds
  }

  ghost predicate Sound(s: Store) { ValidLog(s.log) && LinksSound(s.log, s.tables) }

  lemma SameId(log: seq<Event>, a: Event, b: Event)
    requires ValidLog(log) && a in log && b in log && (a.id == b.id || a.position == b.position)
    ensures a == b
  {
  }

  // ---- one projection ----

  lemma ProjectKeepsLinksSound(log: seq<Event>, t: Tables, e: Event, cut: Cut)
    requires ValidLog(log) && LinksSound(log, t) && e in log
    ensures LinksSound(log, Project(t, e, cut))
  {
    forall x | x in log && Linked(Project(t, e, cut), x)
      ensures x.groupId in Project(t, e, cut).groups && x.kind in Project(t, e, cut).groups[x.groupId].kinds
    {
      if x.id == e.id {
        SameId(log, x, e);
      }
    }
  }

  /** Projecting one event never completes another. */
  lemma ProjectCompletesNoOther(log: seq<Event>, t: Tables, e: Event, cut: Cut, other: Event)
    requires ValidLog(log) && LinksSound(log, t) && e in log && other in log && other != e
    requires Complete(Project(t, e, cut), other)
    ensures Complete(t, other)
  {
    if other.id == e.id { SameId(log, other, e); }
  }

  // ---- the loop ----

  lemma {:induction false} AscendingFilter(keep: Event -> bool, log: seq<Event>)
    requires ValidLog(log)
    ensures ValidLog(Filter(keep, log))
    decreases |log|
  {
    if log != [] {
      var front, last := log[..|log| - 1], log[|log| - 1];
      AscendingFilter(keep, front);
      forall e | e in Filter(keep, front) ensures e.position < last.position && e.id != last.id {
        assert e in front;
      }
    }
  }

  lemma AscendingIndex(pending: seq<Event>, i: nat, k: nat)
    requires ValidLog(pending) && i < |pending| && k < |pending|
    requires (i > 0 ==> pending[i - 1].position < pending[k].position) && pending[k].position <= pending[i].position
    ensures i == k
  {
  }

  /** The scanned rows are consecutive: nothing of the log lies between two of them, or before the first. */
  lemma RowsAreConsecutive(s: Store, args: Args, i: nat, e: Event)
    requires ValidLog(s.log) && i < |Rows(s, args)| && e in s.log && e.position > Start(s, args)
    requires i > 0 ==> Rows(s, args)[i - 1].position < e.position
    requires e.position <= Rows(s, args)[i].position
    ensures e == Rows(s, args)[i]
  {
    var pending := PendingAfter(s.log, Start(s, args));
    AscendingFilter(AFTER(Start(s, args)), s.log);
    assert e in pending;
    var k :| 0 <= k < |pending| && pending[k] == e;
    AscendingIndex(pending, i, k);
  }

  lemma RowIsLogged(s: Store, args: Args, i: nat)
    requires i < |Rows(s, args)|
    ensures Rows(s, args)[i] in s.log && Rows(s, args)[i].position > Start(s, args)
  {
    var pending := PendingAfter(s.log, Start(s, args));
    assert pending[i] in pending;
  }

  lemma StartBeforeRow(s: Store, args: Args, i: nat)
    requires i < |Rows(s, args)|
    ensures i > 0 ==> Rows(s, args)[i - 1].position > Start(s, args)
  {
    if i > 0 {
      RowIsLogged(s, args, i - 1);
    }
  }

  /** A projected row extends contiguity by exactly that row. */
  lemma NextRowExtends(s: Store, args: Args, i: nat, t: Tables)
    requires ValidLog(s.log) && i < |Rows(s, args)| && LinksSound(s.log, t)
    requires ContiguousUpTo(s.log, t, if i == 0 then Start(s, args) else Rows(s, args)[i - 1].position)
    ensures ContiguousUpTo(s.log, Project(t, Rows(s, args)[i], Done), Rows(s, args)[i].position)
  {
    var row := Rows(s, args)[i];
    var before := if i == 0 then Start(s, args) else Rows(s, args)[i - 1].position;
    RowIsLogged(s, args, i);
    forall e | e in s.log && e.position <= row.position ensures Complete(Project(t, row, Done), e) {
      if e.position <= before {
        ProjectKeepsComplete(t, row, Done, e);
      } else {
        StartBeforeRow(s, args, i);
        RowsAreConsecutive(s, args, i, e);
        ProjectCompletes(t, row);
      }
    }
  }

  /** The same invariant with the position that an unbroken run has reached. */
  ghost predicate Invariant(s: Store, start: nat, reached: nat, p: Progress) {
    && LinksSound(s.log, p.tables)
    && p.last >= start
    && (p.cursor == s.cursor || start <= p.cursor <= p.last)
    && ContiguousUpTo(s.log, p.tables, p.last)
    && ContiguousUpTo(s.log, p.tables, p.cursor)
    && (p.state.Going? && p.failures == 0 ==> p.last == reached)
  }

  lemma FailKeepsInvariant(s: Store, start: nat, reached: nat, p: Progress, f: Fate, continueOnError: bool)
    requires LinksSound(s.log, p.tables) && p.last >= start && (p.cursor == s.cursor || start <= p.cursor <= p.last)
    requires ContiguousUpTo(s.log, p.tables, p.last) && ContiguousUpTo(s.log, p.tables, p.cursor)
    ensures Invariant(s, start, reached, Fail(p, f, continueOnError))
  {
  }

  lemma {:induction false} StepKeepsInvariant(s: Store, start: nat, reached: nat, row: Event, p: Progress, f: Fate,
                                              continueOnError: bool)
    requires ValidLog(s.log) && row in s.log && row.position > reached >= start
    requires Invariant(s, start, reached, p) && p.state.Going?
    requires p.failures == 0 ==> ContiguousUpTo(s.log, Project(p.tables, row, Done), row.position)
    ensures Invariant(s, start, row.position, Step(p, row, f, continueOnError))
  {
    ProjectKeepsLinksSound(s.log, p.tables, row, f.cut);
    var q := p.(tables := Project(p.tables, row, f.cut));
    if !f.dies {
      if f.cut.Done? {
        var r := q.(last := if p.failures == 0 then row.position else p.last, projected := p.projected + 1);
        FailKeepsInvariant(s, start, row.position, r, f, continueOnError);
      } else {
        FailKeepsInvariant(s, start, row.position, q, f, continueOnError);
      }
    }
  }

  lemma RowsAscend(s: Store, args: Args, i: nat)
    requires ValidLog(s.log) && i < |Rows(s, args)|
    ensures Rows(s, args)[i].position > if i == 0 then Start(s, args) else Rows(s, args)[i - 1].position
  {
    RowIsLogged(s, args, i);
    AscendingFilter(AFTER(Start(s, args)), s.log);
  }

  function Reached(s: Store, args: Args, i: nat): nat
    requires i <= |Rows(s, args)|
  {
    if i == 0 then Start(s, args) else Rows(s, args)[i - 1].position
  }

  function Prefix(s: Store, args: Args, fate: nat -> Fate, i: nat): Progress
    requires i <= |Rows(s, args)|
  {
    Run(StartProgress(s, args), Rows(s, args)[..i], fate, args.continueOnError)
  }

  lemma PrefixStep(s: Store, args: Args, fate: nat -> Fate, i: nat)
    requires i < |Rows(s, args)|
    ensures Prefix(s, args, fate, i + 1)
            == Step(Prefix(s, args, fate, i), Rows(s, args)[i], fate(i), args.continueOnError)
  {
    assert Rows(s, args)[..i + 1][..i] == Rows(s, args)[..i];
  }

  /** What the loop keeps after every row. */
  lemma NextStepKeeps(s: Store, args: Args, p: Progress, f: Fate, i: nat)
    requires ValidLog(s.log) && i < |Rows(s, args)| && p.state.Going?
    requires Invariant(s, Start(s, args), Reached(s, args, i), p)
    ensures Invariant(s, Start(s, args), Reached(s, args, i + 1), Step(p, Rows(s, args)[i], f, args.continueOnError))
  {
    RowIsLogged(s, args, i);
    RowsAscend(s, args, i);
    StartBeforeRow(s, args, i);
    if p.failures == 0 {
      NextRowExtends(s, args, i, p.tables);
    }
    StepKeepsInvariant(s, Start(s, args), Reached(s, args, i), Rows(s, args)[i], p, f, args.continueOnError);
  }

  lemma {:induction false} LoopKeepsInvariant(s: Store, args: Args, fate: nat -> Fate, i: nat)
    requires Sound(s) && Contiguous(s) && ContiguousUpTo(s.log, s.tables, Start(s, args)) && i <= |Rows(s, args)|
    ensures Invariant(s, Start(s, args), Reached(s, args, i), Prefix(s, args, fate, i))
    decreases i
  {
    if i > 0 {
      LoopKeepsInvariant(s, args, fate, i - 1);
      PrefixStep(s, args, fate, i - 1);
      if Prefix(s, args, fate, i - 1).state.Going? {
        NextStepKeeps(s, args, Prefix(s, args, fate, i - 1), fate(i - 1), i - 1);
      }
    }
  }

  // ---- a batch ----

  /** Everything a forward `from_position` would skip has been projected already. */
  ghost predicate SkipsNothing(s: Store, args: Args) {
    forall e :: e in s.log && s.cursor < e.position <= Start(s, args) ==> Complete(s.tables, e)
  }

  lemma StartIsContiguous(s: Store, args: Args)
    requires Contiguous(s) && SkipsNothing(s, args)
    ensures ContiguousUpTo(s.log, s.tables, Start(s, args))
  {
  }

  /** A batch keeps the store sound and the cursor contiguous, whatever fails and wherever it dies. */
  lemma BatchKeepsContiguity(s: Store, args: Args, faults: Faults)
    requires Sound(s) && Contiguous(s) && SkipsNothing(s, args)
    ensures Sound(Batch(s, args, faults).0) && Contiguous(Batch(s, args, faults).0)
  {
    if Scans(s, args, faults) {
      StartIsContiguous(s, args);
      LoopKeepsInvariant(s, args, faults.fate, |Rows(s, args)|);
      assert Rows(s, args)[..|Rows(s, args)|] == Rows(s, args);
    }
  }

  lemma {:induction false} RunCompletesNoSkipped(s: Store, args: Args, fate: nat -> Fate, i: nat, e: Event)
    requires Sound(s) && i <= |Rows(s, args)| && e in s.log && e.position <= Start(s, args)
    ensures var p := Prefix(s, args, fate, i);
            LinksSound(s.log, p.tables) && p.last >= Start(s, args) && (Complete(p.tables, e) ==> Complete(s.tables, e))
    decreases i
  {
    if i > 0 {
      RunCompletesNoSkipped(s, args, fate, i - 1, e);
      PrefixStep(s, args, fate, i - 1);
      var p, row, cut := Prefix(s, args, fate, i - 1), Rows(s, args)[i - 1], fate(i - 1).cut;
      RowIsLogged(s, args, i - 1);
      ProjectKeepsLinksSound(s.log, p.tables, row, cut);
      if Complete(Project(p.tables, row, cut), e) {
        ProjectCompletesNoOther(s.log, p.tables, row, cut, e);
      }
    }
  }

  /** A batch that finishes keeps the cursor contiguous if and only if its start skips nothing unprojected. */
  lemma FinishedBatchContiguousExactlyWhen(s: Store, args: Args, faults: Faults)
    requires Sound(s) && Contiguous(s) && Batch(s, args, faults).1.Finished?
    ensures Contiguous(Batch(s, args, faults).0) <==> SkipsNothing(s, args)
  {
    if SkipsNothing(s, args) {
      BatchKeepsContiguity(s, args, faults);
    } else {
      var e :| e in s.log && s.cursor < e.position <= Start(s, args) && !Complete(s.tables, e);
      RunCompletesNoSkipped(s, args, faults.fate, |Rows(s, args)|, e);
      assert Rows(s, args)[..|Rows(s, args)|] == Rows(s, args);
      var after := Batch(s, args, faults).0;
      assert e in after.log && e.position <= after.cursor && !Complete(after.tables, e);
    }
  }

  lemma {:induction false} RunNeverFallsBehind(p: Progress, rows: seq<Event>, fate: nat -> Fate, continueOnError: bool,
                                               floor: nat)
    requires p.cursor >= floor && p.last >= floor && forall e <- rows :: e.position >= floor
    ensures Run(p, rows, fate, continueOnError).cursor >= floor && Run(p, rows, fate, continueOnError).last >= floor
    decreases |rows|
  {
    if rows != [] {
      RunNeverFallsBehind(p, rows[..|rows| - 1], fate, continueOnError, floor);
      assert rows[|rows| - 1] in rows;
    }
  }

  /** Without `allow_rewind` no batch moves the cursor back. */
  lemma CursorNeverMovesBack(s: Store, args: Args, faults: Faults)
    requires !args.allowRewind
    ensures Batch(s, args, faults).0.cursor >= s.cursor
  {
    if Scans(s, args, faults) {
      forall e | e in Rows(s, args) ensures e.position >= s.cursor {
        var i :| 0 <= i < |Rows(s, args)| && Rows(s, args)[i] == e;
        RowIsLogged(s, args, i);
      }
      RunNeverFallsBehind(StartProgress(s, args), Rows(s, args), faults.fate, args.continueOnError, s.cursor);
    }
  }

  /** A locked or refused batch changes no table and no cursor. */
  lemma RefusedBatchChangesNothing(s: Store, args: Args, faults: Faults)
    requires Batch(s, args, faults).1.Locked? || Batch(s, args, faults).1.RewindForbidden?
    ensures var after := Batch(s, args, faults).0;
            after.tables == s.tables && after.cursor == s.cursor && after.log == s.log
    ensures Batch(s, args, faults).1.Locked? ==> Batch(s, args, faults).0 == s
  {
  }

  // ---- the tables are a replay ----

  lemma StepProjects(p: Progress, e: Event, f: Fate, continueOnError: bool)
    ensures Step(p, e, f, continueOnError).tables == if p.state.Going? then Project(p.tables, e, f.cut) else p.tables
  {
  }

  lemma {:induction false} RunIsReplay(p: Progress, rows: seq<Event>, fate: nat -> Fate, continueOnError: bool)
    ensures Run(p, rows, fate, continueOnError).tables == Replay(p.tables, RunAttempts(p, rows, fate, continueOnError))
    decreases |rows|
  {
    if rows != [] {
      var n := |rows| - 1;
      RunIsReplay(p, rows[..n], fate, continueOnError);
      var before := RunAttempts(p, rows[..n], fate, continueOnError);
      StepProjects(Run(p, rows[..n], fate, continueOnError), rows[n], fate(n), continueOnError);
      if Run(p, rows[..n], fate, continueOnError).state.Going? {
        ReplaySnoc(p.tables, before, Attempt(rows[n], fate(n).cut));
      } else {
        assert before + [] == before;
      }
    }
  }

  function BatchAttempts(s: Store, args: Args, faults: Faults): seq<Attempt> {
    if Scans(s, args, faults) then RunAttempts(StartProgress(s, args), Rows(s, args), faults.fate, args.continueOnError)
    else []
  }

  lemma BatchIsReplay(s: Store, args: Args, faults: Faults)
    ensures Batch(s, args, faults).0.tables == Replay(s.tables, BatchAttempts(s, args, faults))
    ensures Batch(s, args, faults).0.log == s.log
  {
    RunIsReplay(StartProgress(s, args), Rows(s, args), faults.fate, args.continueOnError);
  }

  lemma {:induction false} RunAttemptsAreRows(p: Progress, rows: seq<Event>, fate: nat -> Fate, continueOnError: bool)
    ensures forall a <- RunAttempts(p, rows, fate, continueOnError) :: a.event in rows
    decreases |rows|
  {
    if rows != [] {
      RunAttemptsAreRows(p, rows[..|rows| - 1], fate, continueOnError);
    }
  }

  lemma BatchAttemptsAreLogged(s: Store, args: Args, faults: Faults)
    ensures forall a <- BatchAttempts(s, args, faults) :: a.event in s.log
  {
    if Scans(s, args, faults) {
      RunAttemptsAreRows(StartProgress(s, args), Rows(s, args), faults.fate, args.continueOnError);
      forall e | e in Rows(s, args) ensures e in s.log {
        var i :| 0 <= i < |Rows(s, args)| && Rows(s, args)[i] == e;
        RowIsLogged(s, args, i);
      }
    }
  }

  // ---- draining the log ----

  function Pending(s: Store): seq<Event> { PendingAfter(s.log, s.cursor) }

  predicate CleanBatch(s: Store, args: Args, faults: Faults) {
    && args.from.None? && Claimable(s, args)
    && faults.claimOk && faults.scanOk && faults.finalWriteOk
  }

  lemma {:induction false} CleanRun(p: Progress, rows: seq<Event>, fate: nat -> Fate, continueOnError: bool)
    requires p.state.Going? && p.failures == 0 && p.projected == 0 && forall i: nat :: fate(i) == CLEAN
    ensures var q := Run(p, rows, fate, continueOnError);
            && q.state.Going? && q.failures == 0 && q.projected == |rows|
            && q.last == if rows == [] then p.last else rows[|rows| - 1].position
    decreases |rows|
  {
    if rows != [] {
      CleanRun(p, rows[..|rows| - 1], fate, continueOnError);
      assert fate(|rows| - 1) == CLEAN;
    }
  }

  lemma AscendingSplit(rows: seq<Event>, n: nat)
    requires ValidLog(rows) && 0 < n <= |rows|
    ensures forall e <- rows[..n] :: e.position <= rows[n - 1].position
    ensures forall e <- rows[n..] :: e.position > rows[n - 1].position
  {
  }

  lemma AscendingTail(rows: seq<Event>, n: nat)
    requires 0 < n <= |rows|
    requires forall e <- rows[..n] :: e.position <= rows[n - 1].position
    requires forall e <- rows[n..] :: e.position > rows[n - 1].position
    ensures PendingAfter(rows, rows[n - 1].position) == rows[n..]
  {
    FilterSuffix(AFTER(rows[n - 1].position), rows, n);
  }

  /** What is pending after a row of the log is the rest of what was pending before it. */
  lemma PendingRest(log: seq<Event>, position: nat, n: nat)
    requires ValidLog(log) && 0 < n <= |PendingAfter(log, position)|
    ensures PendingAfter(log, PendingAfter(log, position)[n - 1].position) == PendingAfter(log, position)[n..]
  {
    var pending := PendingAfter(log, position);
    AscendingFilter(AFTER(position), log);
    assert pending[n - 1] in pending;
    AscendingSplit(pending, n);
    AscendingTail(pending, n);
    FilterFilter(AFTER(pending[n - 1].position), AFTER(position), AFTER(pending[n - 1].position), log);
  }

  /** A clean batch projects the next `limit` pending events, advances past them and frees the lease. */
  lemma CleanBatchAdvances(s: Store, args: Args, faults: Faults)
    requires ValidLog(s.log) && CleanBatch(s, args, faults) && forall i: nat :: faults.fate(i) == CLEAN
    ensures var n := Min(ReplayLimit(args.limit), |Pending(s)|);
            var (after, outcome) := Batch(s, args, faults);
            && outcome.Finished? && outcome.report.seen == outcome.report.projected == n && outcome.report.failed == 0
            && (outcome.report.hasMore <==> Pending(after) != [])
            && Pending(after) == Pending(s)[n..] && after.log == s.log && after.leaseOwner == None
  {
    var n := Min(ReplayLimit(args.limit), |Pending(s)|);
    assert Rows(s, args) == Pending(s)[..n];
    CleanRun(StartProgress(s, args), Rows(s, args), faults.fate, args.continueOnError);
    if n > 0 {
      PendingRest(s.log, s.cursor, n);
    } else {
      assert Pending(s)[0..] == Pending(s);
    }
  }

  function TotalLimit(runs: seq<Args>): nat
    decreases |runs|
  {
    if runs == [] then 0 else TotalLimit(runs[..|runs| - 1]) + ReplayLimit(runs[|runs| - 1].limit)
  }

  function CleanRuns(s: Store, runs: seq<Args>, faults: Faults): Store
    decreases |runs|
  {
    if runs == [] then s else Batch(CleanRuns(s, runs[..|runs| - 1], faults), runs[|runs| - 1], faults).0
  }

  lemma DropTwice(pending: seq<Event>, a: nat, b: nat)
    ensures var rest := pending[Min(a, |pending|)..];
            rest[Min(b, |rest|)..] == pending[Min(a + b, |pending|)..]
  {
  }

  /** Repeated clean batches drain the log: after batches of total limit n, the first n pending events are gone. */
  lemma {:induction false} CleanRunsDrain(s: Store, runs: seq<Args>, faults: Faults)
    requires ValidLog(s.log) && s.leaseOwner == None
    requires faults.claimOk && faults.scanOk && faults.finalWriteOk && forall i: nat :: faults.fate(i) == CLEAN
    requires forall i :: 0 <= i < |runs| ==> runs[i].from == None
    ensures var after := CleanRuns(s, runs, faults);
            && after.log == s.log && after.leaseOwner == None
            && Pending(after) == Pending(s)[Min(TotalLimit(runs), |Pending(s)|)..]
    decreases |runs|
  {
    if runs == [] {
      assert Pending(s)[0..] == Pending(s);
    } else {
      var front, last := runs[..|runs| - 1], runs[|runs| - 1];
      CleanRunsDrain(s, front, faults);
      var before := CleanRuns(s, front, faults);
      CleanBatchAdvances(before, last, faults);
      DropTwice(Pending(s), TotalLimit(front), ReplayLimit(last.limit));
    }
  }

  /** As many clean batches as there are pending events always suffice. */
  lemma {:induction false} CleanRunsEmptyTheLog(s: Store, runs: seq<Args>, faults: Faults)
    requires ValidLog(s.log) && s.leaseOwner == None
    requires faults.claimOk && faults.scanOk && faults.finalWriteOk && forall i: nat :: faults.fate(i) == CLEAN
    requires (forall i :: 0 <= i < |runs| ==> runs[i].from == None) && |runs| >= |Pending(s)|
    ensures Pending(CleanRuns(s, runs, faults)) == []
  {
    CleanRunsDrain(s, runs, faults);
    LimitsArePositive(runs);
  }

  lemma {:induction false} LimitsArePositive(runs: seq<Args>)
    ensures TotalLimit(runs) >= |runs|
    decreases |runs|
  {
    if runs != [] {
      LimitsArePositive(runs[..|runs| - 1]);
    }
  }
}

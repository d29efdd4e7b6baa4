/** What a batch does with its rows, told from the rows and their fates alone. */
module ConsumerRows {
  import opened Projection
  import opened Consumer
  import opened ConsumerLaws

  /** The row's projection was cut off, or the state write after it failed. */
  predicate Fails(f: Fate) { !f.cut.Done? || !f.writeOk }

  /** The process dies at the row; or the row fails, and to record that fails too, or nobody asked to continue. */
  predicate Halts(f: Fate, continueOnError: bool) {
    f.dies || (Fails(f) && !(continueOnError && f.recordOk && f.failureWriteOk))
  }

  /** Of `n` rows the first `k` are attempted: none of them halts the loop but the last, if there are more. */
  ghost predicate Attempts(fate: nat -> Fate, continueOnError: bool, n: nat, k: nat) {
    && k <= n
    && (forall i :: 0 <= i < k - 1 ==> !Halts(fate(i), continueOnError))
    && (k < n ==> k > 0 && Halts(fate(k - 1), continueOnError))
  }

  lemma {:induction false} SomeAreAttempted(fate: nat -> Fate, continueOnError: bool, n: nat) returns (k: nat)
    ensures Attempts(fate, continueOnError, n, k)
    decreases n
  {
    if n == 0 {
      k := 0;
    } else {
      k := SomeAreAttempted(fate, continueOnError, n - 1);
      if k == n - 1 && (k == 0 || !Halts(fate(k - 1), continueOnError)) {
        k := n;
      }
    }
  }

  function Attempted(rows: seq<Event>, fate: nat -> Fate, k: nat): seq<Attempt>
    requires k <= |rows|
  {
    seq(k, i requires 0 <= i < k => Attempt(rows[i], fate(i).cut))
  }

  function CountIf(test: Fate -> bool, fate: nat -> Fate, k: nat): nat {
    if k == 0 then 0 else CountIf(test, fate, k - 1) + if test(fate(k - 1)) then 1 else 0
  }

  /** Rows that ran to their end, and rows whose failure was recorded. */
  const PROJECTED: Fate -> bool := (f: Fate) => !f.dies && f.cut.Done?
  const FAILED: Fate -> bool := (f: Fate) => !f.dies && Fails(f) && f.recordOk

  /** All rows before `i` succeeded, and row `i` ran to its end. */
  predicate Reached(fate: nat -> Fate, i: nat) {
    !fate(i).dies && fate(i).cut.Done? && forall h :: 0 <= h < i ==> !fate(h).dies && !Fails(fate(h))
  }

  /** The last position reached within the first `k` rows. */
  function LastReached(start: nat, rows: seq<Event>, fate: nat -> Fate, k: nat): nat
    requires k <= |rows|
  {
    if k == 0 then start
    else if Reached(fate, k - 1) then rows[k - 1].position
    else LastReached(start, rows, fate, k - 1)
  }

  /** The last attempted row ended without writing a position. */
  predicate Unwritten(fate: nat -> Fate, k: nat) {
    k > 0 && (fate(k - 1).dies || (Fails(fate(k - 1)) && !(fate(k - 1).recordOk && fate(k - 1).failureWriteOk)))
  }

  ghost predicate Outcomes(p: Progress, q: Progress, rows: seq<Event>, fate: nat -> Fate, continueOnError: bool, k: nat)
    requires k <= |rows|
  {
    && q.tables == Replay(p.tables, Attempted(rows, fate, k))
    && q.projected == CountIf(PROJECTED, fate, k) && q.failures == CountIf(FAILED, fate, k)
    && q.last == LastReached(p.last, rows, fate, k)
    && q.cursor == (if k == 0 then p.cursor
                    else if !Unwritten(fate, k) then q.last
                    else if k == 1 then p.cursor
                    else LastReached(p.last, rows, fate, k - 1))
    && (q.state.Dead? <==> k > 0 && fate(k - 1).dies)
    && (q.state.Threw? <==> Unwritten(fate, k) && !fate(k - 1).dies)
    && (q.state.Stopped? <==> k > 0 && Halts(fate(k - 1), continueOnError) && !Unwritten(fate, k))
  }

  lemma {:induction false} FailuresSoFar(fate: nat -> Fate, continueOnError: bool, k: nat)
    requires forall i :: 0 <= i < k ==> !Halts(fate(i), continueOnError)
    ensures CountIf(FAILED, fate, k) == 0 <==> forall h :: 0 <= h < k ==> !fate(h).dies && !Fails(fate(h))
    decreases k
  {
    if k > 0 {
      FailuresSoFar(fate, continueOnError, k - 1);
    }
  }

  lemma {:induction false} AttemptedSnoc(rows: seq<Event>, fate: nat -> Fate, k: nat)
    requires k < |rows|
    ensures Attempted(rows, fate, k + 1) == Attempted(rows, fate, k) + [Attempt(rows[k], fate(k).cut)]
    ensures Attempted(rows[..k], fate, k) == Attempted(rows, fate, k)
  {
  }

  lemma {:induction false} SameLast(start: nat, rows: seq<Event>, more: seq<Event>, fate: nat -> Fate, k: nat)
    requires k <= |rows| <= |more| && more[..|rows|] == rows
    ensures LastReached(start, rows, fate, k) == LastReached(start, more, fate, k)
    ensures Attempted(rows, fate, k) == Attempted(more, fate, k)
    decreases k
  {
    if k > 0 {
      assert rows[k - 1] == more[..|rows|][k - 1];
      SameLast(start, rows, more, fate, k - 1);
    }
    forall i | 0 <= i < k ensures rows[i] == more[i] {
      assert rows[i] == more[..|rows|][i];
    }
  }

  lemma {:induction false} SameOutcomes(
    p: Progress, q: Progress, rows: seq<Event>, more: seq<Event>, fate: nat -> Fate, continueOnError: bool, k: nat)
    requires k <= |rows| <= |more| && more[..|rows|] == rows && Outcomes(p, q, rows, fate, continueOnError, k)
    ensures Outcomes(p, q, more, fate, continueOnError, k)
  {
    SameLast(p.last, rows, more, fate, k);
    if k > 0 {
      SameLast(p.last, rows, more, fate, k - 1);
    }
  }

  /** The counts and the end of one more row. */
  lemma {:induction false} OneMoreEnd(
    p: Progress, q: Progress, rows: seq<Event>, fate: nat -> Fate, continueOnError: bool, k: nat)
    requires k < |rows| && Outcomes(p, q, rows, fate, continueOnError, k) && q.state.Going?
    ensures var r := Step(q, rows[k], fate(k), continueOnError);
            && r.projected == CountIf(PROJECTED, fate, k + 1) && r.failures == CountIf(FAILED, fate, k + 1)
            && (r.state.Dead? <==> fate(k).dies)
            && (r.state.Threw? <==> Unwritten(fate, k + 1) && !fate(k).dies)
            && (r.state.Stopped? <==> Halts(fate(k), continueOnError) && !Unwritten(fate, k + 1))
  {
  }

  lemma {:induction false} OneMorePosition(
    p: Progress, q: Progress, rows: seq<Event>, fate: nat -> Fate, continueOnError: bool, k: nat)
    requires k < |rows| && Outcomes(p, q, rows, fate, continueOnError, k) && q.state.Going?
    requires forall i :: 0 <= i < k ==> !Halts(fate(i), continueOnError)
    requires k == 0 ==> q.cursor == p.cursor
    ensures var r := Step(q, rows[k], fate(k), continueOnError);
            && r.last == LastReached(p.last, rows, fate, k + 1)
            && r.cursor == (if !Unwritten(fate, k + 1) then r.last
                            else if k == 0 then p.cursor
                            else LastReached(p.last, rows, fate, k))
  {
    FailuresSoFar(fate, continueOnError, k);
    assert Reached(fate, k) <==> !fate(k).dies && fate(k).cut.Done? && q.failures == 0;
    assert k > 0 ==> !Unwritten(fate, k);
  }

  lemma {:induction false} OneMoreRow(
    p: Progress, q: Progress, rows: seq<Event>, fate: nat -> Fate, continueOnError: bool, k: nat)
    requires k < |rows| && Outcomes(p, q, rows, fate, continueOnError, k) && q.state.Going?
    requires forall i :: 0 <= i < k ==> !Halts(fate(i), continueOnError)
    requires k == 0 ==> q.cursor == p.cursor
    ensures Outcomes(p, Step(q, rows[k], fate(k), continueOnError), rows, fate, continueOnError, k + 1)
  {
    OneMoreEnd(p, q, rows, fate, continueOnError, k);
    OneMorePosition(p, q, rows, fate, continueOnError, k);
    StepProjects(q, rows[k], fate(k), continueOnError);
    AttemptedSnoc(rows, fate, k);
    ReplaySnoc(p.tables, Attempted(rows, fate, k), Attempt(rows[k], fate(k).cut));
  }

  lemma GoesOn(p: Progress, q: Progress, rows: seq<Event>, fate: nat -> Fate, continueOnError: bool, k: nat)
    requires k <= |rows| && Outcomes(p, q, rows, fate, continueOnError, k)
    ensures q.state.Going? <==> k == 0 || !Halts(fate(k - 1), continueOnError)
  {
  }

  /** The loop over the rows, from a fresh start, whatever the calls answer: everything it leaves, and how it ends. */
  lemma {:induction false} RowsExactly(p: Progress, rows: seq<Event>, fate: nat -> Fate, continueOnError: bool, k: nat)
    requires p.state.Going? && p.failures == 0 && p.projected == 0 && Attempts(fate, continueOnError, |rows|, k)
    ensures Outcomes(p, Run(p, rows, fate, continueOnError), rows, fate, continueOnError, k)
    decreases |rows|
  {
    if rows != [] {
      var n := |rows| - 1;
      var j := if k == |rows| then n else k;
      AttemptsShorter(fate, continueOnError, n, k);
      RowsExactly(p, rows[..n], fate, continueOnError, j);
      var before := Run(p, rows[..n], fate, continueOnError);
      SameOutcomes(p, before, rows[..n], rows, fate, continueOnError, j);
      LastRow(p, before, rows, fate, continueOnError, k, j);
    }
  }

  lemma AttemptsShorter(fate: nat -> Fate, continueOnError: bool, n: nat, k: nat)
    requires Attempts(fate, continueOnError, n + 1, k)
    ensures Attempts(fate, continueOnError, n, if k == n + 1 then n else k)
  {
  }

  lemma {:induction false} LastRow(
    p: Progress, before: Progress, rows: seq<Event>, fate: nat -> Fate, continueOnError: bool, k: nat, j: nat)
    requires rows != [] && j == (if k == |rows| then |rows| - 1 else k)
    requires Attempts(fate, continueOnError, |rows|, k) && Outcomes(p, before, rows, fate, continueOnError, j)
    requires j == 0 ==> before.cursor == p.cursor
    ensures Outcomes(p, Step(before, rows[|rows| - 1], fate(|rows| - 1), continueOnError), rows, fate, continueOnError,
                     k)
  {
    GoesOn(p, before, rows, fate, continueOnError, j);
    if k == |rows| {
      OneMoreRow(p, before, rows, fate, continueOnError, |rows| - 1);
    }
  }

  // ---- whole batches ----

  /** No run dies, and recording a failure and writing the position after it succeed. */
  ghost predicate Recorded(fate: nat -> Fate, n: nat) {
    forall i :: 0 <= i < n ==> !fate(i).dies && fate(i).recordOk && fate(i).failureWriteOk
  }

  /** How many of the first `k` rows ran to their end, and how many failed in either way. */
  const DONE: Fate -> bool := (f: Fate) => f.cut.Done?
  const NOT_OK: Fate -> bool := (f: Fate) => !f.cut.Done? || !f.writeOk

  lemma {:induction false} CountAgrees(p: Fate -> bool, q: Fate -> bool, fate: nat -> Fate, k: nat)
    requires forall i :: 0 <= i < k ==> p(fate(i)) == q(fate(i))
    ensures CountIf(p, fate, k) == CountIf(q, fate, k)
    decreases k
  {
    if k > 0 {
      CountAgrees(p, q, fate, k - 1);
    }
  }

  /** A batch that scans: its attempts, its position and its report, whatever fails. */
  lemma BatchExactly(s: Store, args: Args, faults: Faults, k: nat)
    requires Scans(s, args, faults) && Attempts(faults.fate, args.continueOnError, |Rows(s, args)|, k)
    ensures var rows, (after, outcome) := Rows(s, args), Batch(s, args, faults);
            var last := LastReached(Start(s, args), rows, faults.fate, k);
            && after.tables == Replay(s.tables, Attempted(rows, faults.fate, k))
            && (outcome.Died? <==> k > 0 && faults.fate(k - 1).dies)
            && (outcome.Finished? <==> faults.finalWriteOk && !Unwritten(faults.fate, k))
            && (!outcome.Died? && faults.finalWriteOk ==> after.cursor == last && after.leaseOwner.None?)
            && (outcome.Finished? ==>
                  outcome.report == Report(Start(s, args), last, |rows|, CountIf(PROJECTED, faults.fate, k),
                                           CountIf(FAILED, faults.fate, k),
                                           |PendingAfter(s.log, Start(s, args))| > ReplayLimit(args.limit)))
  {
    RowsExactly(StartProgress(s, args), Rows(s, args), faults.fate, args.continueOnError, k);
  }

  lemma {:induction false} ReplayKeepsLinks(log: seq<Event>, t: Tables, attempts: seq<Attempt>)
    requires ValidLog(log) && LinksSound(log, t) && forall a <- attempts :: a.event in log
    ensures LinksSound(log, Replay(t, attempts))
    decreases |attempts|
  {
    if attempts != [] {
      var front, last := attempts[..|attempts| - 1], attempts[|attempts| - 1];
      assert attempts == front + [last];
      ReplayKeepsLinks(log, t, front);
      ProjectKeepsLinksSound(log, Replay(t, front), last.event, last.cut);
    }
  }

  lemma {:induction false} DoneRowsAreComplete(log: seq<Event>, t: Tables, attempts: seq<Attempt>, i: nat)
    requires ValidLog(log) && LinksSound(log, t) && (forall a <- attempts :: a.event in log)
    requires i < |attempts| && attempts[i].cut.Done?
    ensures Complete(Replay(t, attempts), attempts[i].event)
    decreases |attempts|
  {
    var front, last := attempts[..|attempts| - 1], attempts[|attempts| - 1];
    assert attempts == front + [last];
    ReplayKeepsLinks(log, t, front);
    if i < |front| {
      DoneRowsAreComplete(log, t, front, i);
      ProjectKeepsComplete(Replay(t, front), last.event, last.cut, attempts[i].event);
    } else {
      ProjectCompletes(Replay(t, front), last.event);
    }
  }

  lemma AttemptedAreLogged(s: Store, args: Args, fate: nat -> Fate, k: nat)
    requires k <= |Rows(s, args)|
    ensures forall a <- Attempted(Rows(s, args), fate, k) :: a.event in s.log
  {
    forall a | a in Attempted(Rows(s, args), fate, k) ensures a.event in s.log {
      var i :| 0 <= i < k && Attempted(Rows(s, args), fate, k)[i] == a;
      RowIsLogged(s, args, i);
    }
  }

  lemma {:induction false} RowsComplete(s: Store, args: Args, fate: nat -> Fate, k: nat, i: nat)
    requires Sound(s) && i < k <= |Rows(s, args)| && fate(i).cut.Done?
    ensures Complete(Replay(s.tables, Attempted(Rows(s, args), fate, k)), Rows(s, args)[i])
  {
    AttemptedAreLogged(s, args, fate, k);
    DoneRowsAreComplete(s.log, s.tables, Attempted(Rows(s, args), fate, k), i);
  }

  /**
   * Asked to continue, a batch attempts every row: those that run to their end are complete, and it reports the others.
   */
  lemma {:induction false} ContinuedBatchAttemptsAll(s: Store, args: Args, faults: Faults)
    requires Sound(s) && Scans(s, args, faults) && faults.finalWriteOk
    requires args.continueOnError && Recorded(faults.fate, |Rows(s, args)|)
    ensures var rows, (after, outcome) := Rows(s, args), Batch(s, args, faults);
            && after.tables == Replay(s.tables, Attempted(rows, faults.fate, |rows|))
            && (forall i :: 0 <= i < |rows| && faults.fate(i).cut.Done? ==> Complete(after.tables, rows[i]))
            && outcome.Finished? && outcome.report.projected == CountIf(DONE, faults.fate, |rows|)
            && outcome.report.failed == CountIf(NOT_OK, faults.fate, |rows|)
  {
    var rows := Rows(s, args);
    BatchExactly(s, args, faults, |rows|);
    CountAgrees(PROJECTED, DONE, faults.fate, |rows|);
    CountAgrees(FAILED, NOT_OK, faults.fate, |rows|);
    forall i | 0 <= i < |rows| && faults.fate(i).cut.Done? ensures Complete(Batch(s, args, faults).0.tables, rows[i]) {
      RowsComplete(s, args, faults.fate, |rows|, i);
    }
  }

  lemma {:induction false} CountUpToFirst(fate: nat -> Fate, m: nat)
    requires forall i :: 0 <= i < m ==> fate(i).cut.Done? && fate(i).writeOk
    ensures CountIf(DONE, fate, m) == m && CountIf(NOT_OK, fate, m) == 0
    decreases m
  {
    if m > 0 {
      CountUpToFirst(fate, m - 1);
    }
  }

  lemma FirstFailureHalts(fate: nat -> Fate, n: nat, m: nat)
    requires m < n && NOT_OK(fate(m)) && (forall i :: 0 <= i < m ==> !NOT_OK(fate(i))) && Recorded(fate, n)
    ensures Attempts(fate, false, n, m + 1) && !Unwritten(fate, m + 1)
  {
  }

  lemma {:induction false} CountOfFirst(fate: nat -> Fate, n: nat, m: nat)
    requires m < n && NOT_OK(fate(m)) && (forall i :: 0 <= i < m ==> !NOT_OK(fate(i))) && Recorded(fate, n)
    ensures CountIf(PROJECTED, fate, m + 1) == m + (if fate(m).cut.Done? then 1 else 0)
    ensures CountIf(FAILED, fate, m + 1) == 1
  {
    CountUpToFirst(fate, m);
    CountAgrees(PROJECTED, DONE, fate, m + 1);
    CountAgrees(FAILED, NOT_OK, fate, m + 1);
  }

  /** Not asked to continue, a batch stops at the first row that fails, and attempts nothing after it. */
  lemma {:induction false} BatchStopsAtFirstFailure(s: Store, args: Args, faults: Faults, m: nat)
    requires Scans(s, args, faults) && faults.finalWriteOk
    requires !args.continueOnError && Recorded(faults.fate, |Rows(s, args)|)
    requires m < |Rows(s, args)| && NOT_OK(faults.fate(m)) && forall i :: 0 <= i < m ==> !NOT_OK(faults.fate(i))
    ensures var rows, (after, outcome) := Rows(s, args), Batch(s, args, faults);
            && after.tables == Replay(s.tables, Attempted(rows, faults.fate, m + 1))
            && outcome.Finished? && outcome.report.failed == 1
            && outcome.report.projected == m + (if faults.fate(m).cut.Done? then 1 else 0)
  {
    FirstFailureHalts(faults.fate, |Rows(s, args)|, m);
    CountOfFirst(faults.fate, |Rows(s, args)|, m);
    BatchExactly(s, args, faults, m + 1);
  }
}

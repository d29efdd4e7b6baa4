/** When a batch is refused, where it starts, which events it takes and what becomes of its lease. */
module BatchRules {
  import opened Prelude
  import opened Projection
  import opened Consumer
  import opened ConsumerLaws

  // ---- limits ----

  /** A hundred events by default, at least one and at most 250. */
  lemma LimitExactly(requested: Option<int>)
    ensures var n := ReplayLimit(requested);
            match requested
            case None => n == 100
            case Some(r) =>
              (r == 0 ==> n == 100) && (r < 0 ==> n == 1) && (1 <= r <= 250 ==> n == r) && (r > 250 ==> n == 250)
  {
  }

  /** Two minutes by default, at least ten seconds and at most fifteen minutes. */
  lemma LeaseExactly(requested: Option<int>)
    ensures var ms := LeaseMs(requested);
            match requested
            case None => ms == 2 * 60 * 1000
            case Some(r) =>
              && (r == 0 ==> ms == 2 * 60 * 1000) && (r != 0 && r < 10 * 1000 ==> ms == 10 * 1000)
              && (10 * 1000 <= r <= 15 * 60 * 1000 ==> ms == r) && (r > 15 * 60 * 1000 ==> ms == 15 * 60 * 1000)
  {
  }

  // ---- refusals ----

  /** Another runner holds a lease that has not run out. */
  predicate HeldByOther(s: Store, args: Args) {
    match (s.leaseOwner, s.leaseExpires)
    case (Some(owner), Some(expires)) => owner != args.runner && expires > args.now
    case _ => false
  }

  /** A position below the cursor is asked for without leave to rewind. */
  predicate Rewinds(s: Store, args: Args) {
    match args.from
    case Some(from) => from < s.cursor && s.cursor > 0 && !args.allowRewind
    case None => false
  }

  function StartOf(s: Store, args: Args): nat {
    match args.from
    case Some(from) => if from < 0 then 0 else from
    case None => s.cursor
  }

  predicate SameData(s: Store, t: Store) { t.log == s.log && t.tables == s.tables && t.cursor == s.cursor }

  predicate Leased(t: Store, args: Args) {
    t.leaseOwner == Some(args.runner) && t.leaseExpires == Some(args.now + LeaseMs(args.leaseMs))
  }

  predicate Free(t: Store) { t.leaseOwner == None && t.leaseExpires == None }

  /** Another's lease and an unasked rewind are refused; a refusal and an early failure touch nothing but the lease. */
  lemma BatchRefusesExactly(s: Store, args: Args, faults: Faults)
    ensures Scans(s, args, faults) <==>
            faults.claimOk && !HeldByOther(s, args) && !Rewinds(s, args) && faults.scanOk
    ensures var (after, outcome) := Batch(s, args, faults);
            && (outcome.Locked? <==> faults.claimOk && HeldByOther(s, args))
            && (outcome.RewindForbidden? <==>
                  faults.claimOk && !HeldByOther(s, args) && Rewinds(s, args) && faults.rewindWriteOk)
            && (outcome.Locked? ==> outcome.cursor == s.cursor)
            && (!faults.claimOk || HeldByOther(s, args) ==> after == s)
            && (!Scans(s, args, faults) ==> SameData(s, after) && !outcome.Finished? && !outcome.Died?)
            && (faults.claimOk && !HeldByOther(s, args) && !Scans(s, args, faults) ==>
                  if outcome.RewindForbidden? then Free(after) else outcome.Raised? && Leased(after, args))
  {
  }

  /** A batch that scans gives its lease back exactly when it lives on and its last write succeeds. */
  lemma LeaseIsReturnedExactlyWhen(s: Store, args: Args, faults: Faults)
    requires Scans(s, args, faults)
    ensures var (after, outcome) := Batch(s, args, faults);
            && after.log == s.log
            && (if !outcome.Died? && faults.finalWriteOk then Free(after) else Leased(after, args))
  {
  }

  // ---- which events a batch takes ----

  ghost predicate IsAfter(log: seq<Event>, e: Event, start: nat) { e in log && e.position > start }

  lemma RowsPlace(s: Store, args: Args, i: nat)
    requires ValidLog(s.log) && i < |Rows(s, args)|
    ensures IsAfter(s.log, Rows(s, args)[i], StartOf(s, args))
  {
    var pending := PendingAfter(s.log, Start(s, args));
    assert pending[i] in pending;
  }

  /** An event after the start that is no row comes behind a full list of rows. */
  lemma LeftOut(s: Store, args: Args, e: Event)
    requires ValidLog(s.log) && IsAfter(s.log, e, StartOf(s, args)) && e !in Rows(s, args)
    ensures |Rows(s, args)| == ReplayLimit(args.limit) && forall r <- Rows(s, args) :: r.position < e.position
  {
    var pending, rows := PendingAfter(s.log, Start(s, args)), Rows(s, args);
    AscendingFilter(AFTER(Start(s, args)), s.log);
    assert e in pending;
    var j :| 0 <= j < |pending| && pending[j] == e;
    forall i | 0 <= i < |rows| ensures i != j && rows[i] == pending[i] {
      assert rows[i] in rows;
    }
    assert j >= |rows|;
    forall r | r in rows ensures r.position < e.position {
      var i :| 0 <= i < |rows| && rows[i] == r;
      assert pending[i] == r && i < j;
    }
  }

  /** The events after the start, in ascending order, up to the limit. */
  lemma RowsExactly(s: Store, args: Args)
    requires ValidLog(s.log)
    ensures var rows := Rows(s, args);
            && |rows| <= ReplayLimit(args.limit)
            && (forall i, j :: 0 <= i < j < |rows| ==> rows[i].position < rows[j].position)
            && (forall e <- rows :: IsAfter(s.log, e, StartOf(s, args)))
            && (forall e :: IsAfter(s.log, e, StartOf(s, args)) && e !in rows ==>
                  |rows| == ReplayLimit(args.limit) && forall r <- rows :: r.position < e.position)
  {
    var rows := Rows(s, args);
    AscendingFilter(AFTER(Start(s, args)), s.log);
    forall e | e in rows ensures IsAfter(s.log, e, StartOf(s, args)) {
      var i :| 0 <= i < |rows| && rows[i] == e;
      RowsPlace(s, args, i);
    }
    forall e | IsAfter(s.log, e, StartOf(s, args)) && e !in rows
      ensures |rows| == ReplayLimit(args.limit) && forall r <- rows :: r.position < e.position
    {
      LeftOut(s, args, e);
    }
  }

  /** A report says more is left exactly when an event after the start is not among the rows. */
  lemma HasMoreExactly(s: Store, args: Args, p: Progress)
    requires ValidLog(s.log)
    ensures MakeReport(s, args, p).hasMore <==> exists e :: IsAfter(s.log, e, StartOf(s, args)) && e !in Rows(s, args)
  {
    var pending, rows := PendingAfter(s.log, Start(s, args)), Rows(s, args);
    AscendingFilter(AFTER(Start(s, args)), s.log);
    if |pending| > ReplayLimit(args.limit) {
      var e := pending[|rows|];
      assert e in pending;
      forall i | 0 <= i < |rows| ensures rows[i] != e {
        assert rows[i] == pending[i] && pending[i].position < e.position;
      }
      assert IsAfter(s.log, e, StartOf(s, args)) && e !in rows;
    } else {
      assert rows == pending;
    }
  }
}

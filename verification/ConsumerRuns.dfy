/**
 * Whole runs of the consumer: events published in any order of their positions, inline projections and batches,
 * with any failures, deaths and rewinds.
 */
module ConsumerRuns {
  import opened Prelude
  import opened Seqs
  import opened Projection
  import opened ProjectionLaws
  import opened Consumer
  import opened ConsumerLaws

  /** Publishing to the log, projecting a logged event inline, and running a batch. */
  datatype Action = Publish(event: Event) | Inline(index: nat, cut: Cut) | RunBatch(args: Args, faults: Faults)

  /** A position and an id that no row has. Positions are handed out in order, but rows may commit out of order. */
  predicate Publishable(log: seq<Event>, e: Event) {
    && e.position > 0
    && (forall i :: 0 <= i < |log| ==> log[i].position != e.position && log[i].id != e.id)
  }

  function BEFORE(position: nat): Event -> bool { (e: Event) => e.position < position }

  /** The log as a scan reads it: by position. */
  function Insert(log: seq<Event>, e: Event): seq<Event> {
    Filter(BEFORE(e.position), log) + [e] + Filter(AFTER(e.position), log)
  }

  lemma InsertMembers(log: seq<Event>, e: Event)
    requires Publishable(log, e)
    ensures forall x :: x in Insert(log, e) <==> x in log || x == e
  {
    var before, after := Filter(BEFORE(e.position), log), Filter(AFTER(e.position), log);
    forall x ensures x in Insert(log, e) <==> x in log || x == e {
      assert x in Insert(log, e) <==> x in before || x == e || x in after;
    }
  }

  lemma JoinAscends(a: seq<Event>, e: Event, b: seq<Event>)
    requires ValidLog(a) && ValidLog(b) && e.position > 0
    requires forall x <- a :: x.position < e.position && x.id != e.id
    requires forall x <- b :: x.position > e.position && x.id != e.id
    requires forall x, y :: x in a && y in b ==> x.id != y.id
    ensures ValidLog(a + [e] + b)
  {
    var all := a + [e] + b;
    forall i, j | 0 <= i < j < |all| ensures all[i].position < all[j].position && all[i].id != all[j].id {
      if i < |a| && j > |a| {
        assert all[i] in a && all[j] in b;
      }
    }
  }

  lemma InsertKeepsValid(log: seq<Event>, e: Event)
    requires ValidLog(log) && Publishable(log, e)
    ensures ValidLog(Insert(log, e))
  {
    var before, after := Filter(BEFORE(e.position), log), Filter(AFTER(e.position), log);
    AscendingFilter(BEFORE(e.position), log);
    AscendingFilter(AFTER(e.position), log);
    forall x, y | x in before && y in after ensures x.id != y.id {
      if x.id == y.id {
        SameId(log, x, y);
      }
    }
    JoinAscends(before, e, after);
  }

  /** An insert of a taken id or position changes nothing. */
  function Do(s: Store, a: Action): Store {
    match a
    case Publish(e) => if Publishable(s.log, e) then s.(log := Insert(s.log, e)) else s
    case Inline(i, cut) => if i < |s.log| then s.(tables := Project(s.tables, s.log[i], cut)) else s
    case RunBatch(args, faults) => Batch(s, args, faults).0
  }

  function DoAll(s: Store, actions: seq<Action>): Store
    decreases |actions|
  {
    if actions == [] then s else
      Do(DoAll(s, actions[..|actions| - 1]), actions[|actions| - 1])
  }

  /** Links name logged events. */
  ghost predicate LinksLogged(s: Store) {
    forall l :: l in s.tables.links ==> exists e :: e in s.log && e.id == l.event
  }

  ghost predicate Kept(s: Store) { Sound(s) && Contiguous(s) && LinksLogged(s) }

  // ---- publishing ----

  lemma FreshIsIncomplete(s: Store, e: Event)
    requires LinksLogged(s) && Publishable(s.log, e)
    ensures !Complete(s.tables, e) && !Linked(s.tables, e)
  {
    assert forall x :: x in s.log ==> x.id != e.id;
  }

  lemma InsertKeepsLinks(s: Store, e: Event)
    requires Sound(s) && LinksLogged(s) && Publishable(s.log, e)
    ensures Sound(s.(log := Insert(s.log, e))) && LinksLogged(s.(log := Insert(s.log, e)))
  {
    InsertKeepsValid(s.log, e);
    InsertMembers(s.log, e);
    FreshIsIncomplete(s, e);
    forall l | l in s.tables.links ensures exists x :: x in Insert(s.log, e) && x.id == l.event {
      var x :| x in s.log && x.id == l.event;
      assert x in Insert(s.log, e);
    }
  }

  /** A published event keeps the cursor contiguous exactly when its position is above the cursor. */
  lemma PublishKeepsExactlyWhen(s: Store, e: Event)
    requires Kept(s) && Publishable(s.log, e)
    ensures Contiguous(Do(s, Publish(e))) <==> e.position > s.cursor
    ensures Kept(Do(s, Publish(e))) <==> e.position > s.cursor
  {
    InsertKeepsLinks(s, e);
    InsertMembers(s.log, e);
    FreshIsIncomplete(s, e);
    if e.position <= s.cursor {
      assert e in Insert(s.log, e);
    }
  }

  // ---- runs ----

  /** Every published position is above the cursor of its time, and no batch skips an unprojected event. */
  ghost predicate Orderly(s: Store, actions: seq<Action>)
    decreases |actions|
  {
    actions != [] ==>
      var front, last := actions[..|actions| - 1], actions[|actions| - 1];
      Orderly(s, front) && OrderlyAction(DoAll(s, front), last)
  }

  ghost predicate OrderlyAction(s: Store, a: Action) {
    match a
    case Publish(e) => Publishable(s.log, e) ==> e.position > s.cursor
    case Inline(_, _) => true
    case RunBatch(args, _) => SkipsNothing(s, args)
  }

  lemma {:induction false} ReplayLinks(t: Tables, attempts: seq<Attempt>, log: seq<Event>)
    requires forall a <- attempts :: a.event in log
    requires forall l :: l in t.links ==> exists e :: e in log && e.id == l.event
    ensures forall l :: l in Replay(t, attempts).links ==> exists e :: e in log && e.id == l.event
    decreases |attempts|
  {
    if attempts != [] {
      ReplayLinks(t, attempts[..|attempts| - 1], log);
      assert attempts[|attempts| - 1] in attempts;
    }
  }

  lemma {:induction false} RunStaysBelow(p: Progress, rows: seq<Event>, fate: nat -> Fate, continueOnError: bool,
                                         ceiling: nat)
    requires p.cursor <= ceiling && p.last <= ceiling && forall e <- rows :: e.position <= ceiling
    ensures Run(p, rows, fate, continueOnError).cursor <= ceiling && Run(p, rows, fate, continueOnError).last <= ceiling
    decreases |rows|
  {
    if rows != [] {
      RunStaysBelow(p, rows[..|rows| - 1], fate, continueOnError, ceiling);
      assert rows[|rows| - 1] in rows;
    }
  }

  lemma BatchLinksLogged(s: Store, args: Args, faults: Faults)
    requires LinksLogged(s)
    ensures LinksLogged(Batch(s, args, faults).0)
  {
    BatchIsReplay(s, args, faults);
    BatchAttemptsAreLogged(s, args, faults);
    ReplayLinks(s.tables, BatchAttempts(s, args, faults), s.log);
  }

  lemma BatchKeeps(s: Store, args: Args, faults: Faults)
    requires Kept(s) && SkipsNothing(s, args)
    ensures Kept(Batch(s, args, faults).0)
  {
    BatchKeepsContiguity(s, args, faults);
    BatchLinksLogged(s, args, faults);
  }

  lemma InlineKeeps(s: Store, e: Event, cut: Cut)
    requires Kept(s) && e in s.log
    ensures Kept(s.(tables := Project(s.tables, e, cut)))
  {
    ProjectKeepsLinksSound(s.log, s.tables, e, cut);
  }

  lemma ActionKeeps(s: Store, a: Action)
    requires Kept(s) && OrderlyAction(s, a)
    ensures Kept(Do(s, a))
  {
    match a
    case Publish(e) => if Publishable(s.log, e) { PublishKeepsExactlyWhen(s, e); }
    case Inline(i, cut) => if i < |s.log| { InlineKeeps(s, s.log[i], cut); }
    case RunBatch(args, faults) => BatchKeeps(s, args, faults);
  }

  /**
   * Over any orderly sequence of publications, inline projections and batches, with any failures, deaths
   * and rewinds, every event at or below the stored cursor has been projected completely.
   */
  lemma {:induction false} CursorStaysContiguous(actions: seq<Action>)
    requires Orderly(EMPTY_STORE, actions)
    ensures Kept(DoAll(EMPTY_STORE, actions))
    decreases |actions|
  {
    if actions != [] {
      CursorStaysContiguous(actions[..|actions| - 1]);
      ActionKeeps(DoAll(EMPTY_STORE, actions[..|actions| - 1]), actions[|actions| - 1]);
    }
  }

  /** Over a run without rewinds the cursor only moves forward. */
  lemma {:induction false} CursorClimbs(s: Store, actions: seq<Action>)
    requires forall a <- actions :: a.RunBatch? ==> !a.args.allowRewind
    ensures DoAll(s, actions).cursor >= s.cursor
    decreases |actions|
  {
    if actions != [] {
      var front, last := actions[..|actions| - 1], actions[|actions| - 1];
      CursorClimbs(s, front);
      assert last in actions;
      if last.RunBatch? {
        CursorNeverMovesBack(DoAll(s, front), last.args, last.faults);
      }
    }
  }

  // ---- publishing in order ----

  function End(log: seq<Event>): nat { if log == [] then 0 else log[|log| - 1].position }

  /** The cursor has not passed the end of the log. */
  ghost predicate Anchored(s: Store) { s.cursor <= End(s.log) }

  /** The batch starts within the log and skips nothing unprojected; without a forward `from_position` it does. */
  ghost predicate StartsSafely(s: Store, args: Args) {
    SkipsNothing(s, args) && Start(s, args) <= Max(s.cursor, End(s.log))
  }

  lemma EndBounds(log: seq<Event>)
    requires ValidLog(log)
    ensures forall e <- log :: e.position <= End(log)
  {
  }

  lemma RowsBelowEnd(s: Store, args: Args)
    requires ValidLog(s.log)
    ensures forall e <- Rows(s, args) :: e.position <= End(s.log)
  {
    EndBounds(s.log);
    forall e | e in Rows(s, args) ensures e.position <= End(s.log) {
      var i :| 0 <= i < |Rows(s, args)| && Rows(s, args)[i] == e;
      RowIsLogged(s, args, i);
    }
  }

  lemma BatchStaysAnchored(s: Store, args: Args, faults: Faults)
    requires Sound(s) && Anchored(s) && Start(s, args) <= Max(s.cursor, End(s.log))
    ensures Anchored(Batch(s, args, faults).0)
  {
    if Scans(s, args, faults) {
      RowsBelowEnd(s, args);
      RunStaysBelow(StartProgress(s, args), Rows(s, args), faults.fate, args.continueOnError, End(s.log));
    }
  }

  lemma FinishedAtLeastStart(s: Store, args: Args, faults: Faults)
    requires Batch(s, args, faults).1.Finished?
    ensures Batch(s, args, faults).0.cursor >= Start(s, args)
  {
    var rows := Rows(s, args);
    forall e | e in rows ensures e.position >= Start(s, args) {
      var i :| 0 <= i < |rows| && rows[i] == e;
      RowIsLogged(s, args, i);
    }
    LastNeverFalls(StartProgress(s, args), rows, faults.fate, args.continueOnError, Start(s, args));
  }

  lemma {:induction false} LastNeverFalls(p: Progress, rows: seq<Event>, fate: nat -> Fate, continueOnError: bool,
                                          floor: nat)
    requires p.last >= floor && forall e <- rows :: e.position >= floor
    ensures Run(p, rows, fate, continueOnError).last >= floor
    decreases |rows|
  {
    if rows != [] {
      LastNeverFalls(p, rows[..|rows| - 1], fate, continueOnError, floor);
      assert rows[|rows| - 1] in rows;
    }
  }

  /**
   * A finished batch keeps a contiguous cursor within the log exactly when it starts there and skips nothing
   * unprojected.
   */
  lemma FinishedBatchSafeExactlyWhen(s: Store, args: Args, faults: Faults)
    requires Kept(s) && Anchored(s) && Batch(s, args, faults).1.Finished?
    ensures Kept(Batch(s, args, faults).0) && Anchored(Batch(s, args, faults).0) <==> StartsSafely(s, args)
  {
    FinishedBatchContiguousExactlyWhen(s, args, faults);
    FinishedAtLeastStart(s, args, faults);
    if StartsSafely(s, args) {
      BatchKeeps(s, args, faults);
      BatchStaysAnchored(s, args, faults);
    }
  }

  /**
   * After a finished batch from beyond the end of the log, every later event up to its start position breaks
   * contiguity.
   */
  lemma PastTheEndSkipsLater(s: Store, args: Args, faults: Faults, e: Event)
    requires Kept(s) && Batch(s, args, faults).1.Finished?
    requires Publishable(s.log, e) && End(s.log) < e.position <= Start(s, args)
    ensures !Contiguous(Do(Batch(s, args, faults).0, Publish(e)))
  {
    var after := Batch(s, args, faults).0;
    BatchLinksLogged(s, args, faults);
    FinishedAtLeastStart(s, args, faults);
    BatchIsReplay(s, args, faults);
    FreshIsIncomplete(after, e);
    InsertMembers(after.log, e);
    assert e in Do(after, Publish(e)).log;
  }

  /** Commits in the order of their positions, and batches that start within the log and skip nothing unprojected. */
  ghost predicate InOrder(s: Store, actions: seq<Action>)
    decreases |actions|
  {
    actions != [] ==>
      var front, last := actions[..|actions| - 1], actions[|actions| - 1];
      && InOrder(s, front)
      && (last.Publish? ==> last.event.position > End(DoAll(s, front).log))
      && (last.RunBatch? ==> StartsSafely(DoAll(s, front), last.args))
  }

  lemma InsertKeepsAnchored(s: Store, e: Event)
    requires Sound(s) && Anchored(s) && Publishable(s.log, e)
    ensures Anchored(s.(log := Insert(s.log, e)))
  {
    InsertKeepsValid(s.log, e);
    InsertMembers(s.log, e);
    EndBounds(Insert(s.log, e));
    if s.log != [] {
      assert s.log[|s.log| - 1] in Insert(s.log, e);
    }
  }

  /** Runs in order are orderly and keep the cursor within the log. */
  lemma {:induction false} InOrderIsOrderly(actions: seq<Action>)
    requires InOrder(EMPTY_STORE, actions)
    ensures Orderly(EMPTY_STORE, actions) && Anchored(DoAll(EMPTY_STORE, actions))
    decreases |actions|
  {
    if actions != [] {
      var front, last := actions[..|actions| - 1], actions[|actions| - 1];
      InOrderIsOrderly(front);
      CursorStaysContiguous(front);
      var before := DoAll(EMPTY_STORE, front);
      match last
      case Publish(e) => if Publishable(before.log, e) { InsertKeepsAnchored(before, e); }
      case Inline(_, _) =>
      case RunBatch(args, faults) => BatchStaysAnchored(before, args, faults);
    }
  }

  // ---- every reachable store is a replay of attempts on its own log ----

  function Attempts(s: Store, actions: seq<Action>): seq<Attempt>
    decreases |actions|
  {
    if actions == [] then [] else
      var front, last := actions[..|actions| - 1], actions[|actions| - 1];
      var before := DoAll(s, front);
      Attempts(s, front) +
      match last
      case Publish(_) => []
      case Inline(i, cut) => if i < |before.log| then [Attempt(before.log[i], cut)] else []
      case RunBatch(args, faults) => BatchAttempts(before, args, faults)
  }

  /** The tables of every reachable store are the replay of a sequence of attempts on events of its log. */
  lemma {:induction false} TablesAreReplay(actions: seq<Action>)
    ensures var end := DoAll(EMPTY_STORE, actions);
            && end.tables == Replay(EMPTY_TABLES, Attempts(EMPTY_STORE, actions))
            && (forall a <- Attempts(EMPTY_STORE, actions) :: a.event in end.log)
            && ValidLog(end.log)
    decreases |actions|
  {
    if actions != [] {
      var front, last := actions[..|actions| - 1], actions[|actions| - 1];
      TablesAreReplay(front);
      var before := DoAll(EMPTY_STORE, front);
      var earlier := Attempts(EMPTY_STORE, front);
      match last
      case Publish(e) =>
        if Publishable(before.log, e) {
          InsertKeepsValid(before.log, e);
          InsertMembers(before.log, e);
        }
        assert earlier + [] == earlier;
      case Inline(i, cut) =>
        if i < |before.log| {
          ReplaySnoc(EMPTY_TABLES, earlier, Attempt(before.log[i], cut));
        } else {
          assert earlier + [] == earlier;
        }
      case RunBatch(args, faults) =>
        BatchIsReplay(before, args, faults);
        BatchAttemptsAreLogged(before, args, faults);
        ReplayConcat(EMPTY_TABLES, earlier, BatchAttempts(before, args, faults));
    }
  }

  /** So every activity group of a reachable store is exactly what its events make it. */
  lemma {:induction false} ReachableGroupIsExact(actions: seq<Action>, g: string)
    requires g in DoAll(EMPTY_STORE, actions).tables.groups
    ensures var t, attempts := DoAll(EMPTY_STORE, actions).tables, Attempts(EMPTY_STORE, actions);
            && Summarises(t.groups[g], Reaching(attempts, g))
            && t.groups[g].count == |LinksOf(t, g)| + CutOffs(attempts, g)
  {
    var attempts := Attempts(EMPTY_STORE, actions);
    var end := DoAll(EMPTY_STORE, actions);
    TablesAreReplay(actions);
    forall a, b | a in attempts && b in attempts && a.event.id == b.event.id ensures a.event == b.event {
      SameId(end.log, a.event, b.event);
    }
    GroupSummarisesItsEvents(attempts, g);
    CountIsLinksPlusCutOffs(attempts, g);
  }
}

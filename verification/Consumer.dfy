/**
 * The leased consumer that drains the event log with a "last successful contiguous" cursor.
 * One workspace; every database call may fail and the process may die between any two of them.
 */
module Consumer {
  import opened Prelude
  import opened Seqs
  import opened Projection

  const DEFAULT_LEASE_MS := 120000
  const DEFAULT_REPLAY_LIMIT := 100
  const MAX_REPLAY_LIMIT := 250

  /** The log, the projected tables and the consumer state row. */
  datatype Store = Store(log: seq<Event>, tables: Tables, cursor: nat, leaseOwner: Option<string>,
                         leaseExpires: Option<int>)

  const EMPTY_STORE := Store([], EMPTY_TABLES, 0, None, None)

  /** Positions ascend from 1 and ids are unique. */
  ghost predicate ValidLog(log: seq<Event>) {
    && (forall i :: 0 <= i < |log| ==> log[i].position > 0)
    && (forall i, j :: 0 <= i < j < |log| ==> log[i].position < log[j].position && log[i].id != log[j].id)
  }

  /** How one event of a batch fares: where its projection stops, and which of the calls around it succeed. */
  datatype Fate = Fate(cut: Cut, dies: bool, writeOk: bool, recordOk: bool, failureWriteOk: bool)

  const CLEAN := Fate(Done, false, true, true, true)

  datatype Faults = Faults(claimOk: bool, scanOk: bool, rewindWriteOk: bool, fate: nat -> Fate, finalWriteOk: bool)

  datatype Args = Args(
    runner: string, now: int, leaseMs: Option<int>, from: Option<int>, limit: Option<int>,
    continueOnError: bool, allowRewind: bool)

  datatype Report = Report(startedAfter: nat, last: nat, seen: nat, projected: nat, failed: nat, hasMore: bool)

  /** A finished batch is ok when nothing failed; `Raised` stands for an exception. */
  datatype Outcome = Locked(cursor: nat) | RewindForbidden | Finished(report: Report) | Raised | Died

  function LeaseMs(requested: Option<int>): int {
    Max(10000, Min(900000, if requested.None? || requested.value == 0 then DEFAULT_LEASE_MS else requested.value))
  }

  function ReplayLimit(requested: Option<int>): nat {
    Max(1, Min(MAX_REPLAY_LIMIT, if requested.None? || requested.value == 0 then DEFAULT_REPLAY_LIMIT
                                 else requested.value))
  }

  predicate Claimable(s: Store, args: Args) {
    s.leaseOwner.None? || s.leaseExpires.None? || s.leaseExpires.value <= args.now || s.leaseOwner == Some(args.runner)
  }

  function Claim(s: Store, args: Args): Store {
    s.(leaseOwner := Some(args.runner), leaseExpires := Some(args.now + LeaseMs(args.leaseMs)))
  }

  function Release(s: Store): Store { s.(leaseOwner := None, leaseExpires := None) }

  /** `from_position`, when given; anything that is no positive integer counts as 0. */
  function Explicit(args: Args): Option<nat> { if args.from.None? then None else Some(Max(0, args.from.value)) }

  function Start(s: Store, args: Args): nat { if Explicit(args).None? then s.cursor else Explicit(args).value }

  function AFTER(position: nat): Event -> bool { (e: Event) => e.position > position }

  function PendingAfter(log: seq<Event>, position: nat): seq<Event> { Filter(AFTER(position), log) }

  function Rows(s: Store, args: Args): seq<Event> {
    var pending := PendingAfter(s.log, Start(s, args));
    pending[..Min(ReplayLimit(args.limit), |pending|)]
  }

  // ---- the loop of a batch ----

  datatype LoopState = Going | Stopped | Threw | Dead

  datatype Progress = Progress(tables: Tables, cursor: nat, last: nat, projected: nat, failures: nat, state: LoopState)

  /** The catch block: record the failure, write the unchanged position, and go on only if asked to. */
  function Fail(p: Progress, f: Fate, continueOnError: bool): Progress {
    if !f.recordOk then p.(state := Threw)
    else
      var q := p.(failures := p.failures + 1);
      if !f.failureWriteOk then q.(state := Threw)
      else q.(cursor := q.last, state := if continueOnError then Going else Stopped)
  }

  function Step(p: Progress, e: Event, f: Fate, continueOnError: bool): Progress {
    if !p.state.Going? then p
    else
      var q := p.(tables := Project(p.tables, e, f.cut));
      if f.dies then q.(state := Dead)
      else if !f.cut.Done? then Fail(q, f, continueOnError)
      else
        var r := q.(last := if p.failures == 0 then e.position else p.last, projected := p.projected + 1);
        if f.writeOk then r.(cursor := r.last) else Fail(r, f, continueOnError)
  }

  function Run(p: Progress, rows: seq<Event>, fate: nat -> Fate, continueOnError: bool): Progress
    decreases |rows|
  {
    if rows == [] then p else
      var n := |rows| - 1;
      Step(Run(p, rows[..n], fate, continueOnError), rows[n], fate(n), continueOnError)
  }

  lemma RunNext(p: Progress, rows: seq<Event>, fate: nat -> Fate, continueOnError: bool, i: nat)
    requires i < |rows|
    ensures Run(p, rows[..i + 1], fate, continueOnError)
            == Step(Run(p, rows[..i], fate, continueOnError), rows[i], fate(i), continueOnError)
  {
    assert rows[..i + 1][..i] == rows[..i];
  }

  /** The projection attempts a loop makes. */
  function RunAttempts(p: Progress, rows: seq<Event>, fate: nat -> Fate, continueOnError: bool): seq<Attempt>
    decreases |rows|
  {
    if rows == [] then [] else
      var n := |rows| - 1;
      RunAttempts(p, rows[..n], fate, continueOnError)
      + if Run(p, rows[..n], fate, continueOnError).state.Going? then [Attempt(rows[n], fate(n).cut)] else []
  }

  // ---- a batch ----

  function StartProgress(s: Store, args: Args): Progress { Progress(s.tables, s.cursor, Start(s, args), 0, 0, Going) }

  predicate Forbidden(s: Store, args: Args) {
    Explicit(args).Some? && Explicit(args).value < s.cursor && !args.allowRewind
  }

  /** The loop is entered: the lease was free, no rewind was refused and the scan succeeded. */
  predicate Scans(s: Store, args: Args, faults: Faults) {
    faults.claimOk && Claimable(s, args) && !Forbidden(s, args) && faults.scanOk
  }

  function Loop(s: Store, args: Args, faults: Faults): Progress {
    Run(StartProgress(s, args), Rows(s, args), faults.fate, args.continueOnError)
  }

  function MakeReport(s: Store, args: Args, p: Progress): Report {
    Report(Start(s, args), p.last, |Rows(s, args)|, p.projected, p.failures,
           |PendingAfter(s.log, Start(s, args))| > ReplayLimit(args.limit))
  }

  function Batch(s: Store, args: Args, faults: Faults): (Store, Outcome) {
    if !faults.claimOk then (s, Raised)
    else if !Claimable(s, args) then (s, Locked(s.cursor))
    else
      var claimed := Claim(s, args);
      if Forbidden(s, args) then (if faults.rewindWriteOk then (Release(claimed), RewindForbidden)
                                  else (claimed, Raised))
      else if !faults.scanOk then (claimed, Raised)
      else
        var p := Loop(s, args, faults);
        var left := claimed.(tables := p.tables, cursor := p.cursor);
        if p.state.Dead? then (left, Died)
        else if !faults.finalWriteOk then (left, Raised)
        else (Release(left.(cursor := p.last)), if p.state.Threw? then Raised else Finished(MakeReport(s, args, p)))
  }

  // ---- the store that changes in place ----

  class EventStore {
    var log: seq<Event>
    var groups: map<string, Group>
    var links: set<Link>
    var updates: map<UpdateKey, Update>
    var cursor: nat
    var leaseOwner: Option<string>
    var leaseExpires: Option<int>

    constructor ()
      ensures Snapshot() == EMPTY_STORE
    {
      log, groups, links, updates, cursor, leaseOwner, leaseExpires := [], map[], {}, map[], 0, None, None;
    }

    function Projected(): Tables
      reads this
    {
      Tables(groups, links, updates)
    }

    function Snapshot(): Store
      reads this
    {
      Store(log, Projected(), cursor, leaseOwner, leaseExpires)
    }

    /**
     * Reads the group and the link, then upserts the group and inserts the link unless the event was counted before.
     */
    method UpsertActivityGroup(e: Event, cut: Cut) returns (kind: UpdateType)
      modifies this`groups, this`links
      ensures Projected() == UpsertGroup(old(Projected()), e, cut)
      ensures kind == ActivityUpdateType(old(Projected()), e)
    {
      var existing := if e.groupId in groups then Some(groups[e.groupId]) else None;
      var linked := Link(e.groupId, e.id) in links;
      if existing.Some? && linked {
        return if existing.value.count <= 1 then ActivityCreated else ActivityUpdated;
      }
      kind := if existing.None? then ActivityCreated else ActivityUpdated;
      if cut.BeforeUpsert? {
        return;
      }
      groups := groups[e.groupId := NextGroup(existing, linked, e)];
      if Links(cut) {
        links := links + {Link(e.groupId, e.id)};
      }
    }

    method ProjectEvent(e: Event, cut: Cut) returns (finished: bool)
      modifies this`groups, this`links, this`updates
      ensures Projected() == Project(old(Projected()), e, cut)
      ensures finished == cut.Done?
    {
      var kind := UpsertActivityGroup(e, cut);
      if cut.AfterDomainUpdate? || cut.Done? {
        updates := updates[UpdateKey(e.id, UpdateTypeFor(e)) := DomainUpdate(e)];
        if cut.Done? {
          updates := updates[UpdateKey(e.id, kind) := ActivityUpdate(e, groups[e.groupId])];
        }
      }
      finished := cut.Done?;
    }

    method WriteState(position: nat, release: bool)
      modifies this`cursor, this`leaseOwner, this`leaseExpires
      ensures cursor == position
      ensures leaseOwner == if release then None else old(leaseOwner)
      ensures leaseExpires == if release then None else old(leaseExpires)
    {
      cursor := position;
      if release {
        leaseOwner, leaseExpires := None, None;
      }
    }

    /** Projects the rows in order and writes the position after each; the row loop of a batch. */
    method ProjectRows(rows: seq<Event>, start: nat, fate: nat -> Fate, continueOnError: bool) returns (p: Progress)
      modifies this`groups, this`links, this`updates, this`cursor
      ensures p == Run(Progress(old(Projected()), old(cursor), start, 0, 0, Going), rows, fate, continueOnError)
      ensures Projected() == p.tables && cursor == p.cursor
    {
      var last, projected, failures, state := start, 0, 0, Going;
      var i := 0;
      while i < |rows|
        invariant 0 <= i <= |rows|
        invariant Progress(Projected(), cursor, last, projected, failures, state)
                  == Run(Progress(old(Projected()), old(cursor), start, 0, 0, Going), rows[..i], fate, continueOnError)
      {
        RunNext(Progress(old(Projected()), old(cursor), start, 0, 0, Going), rows, fate, continueOnError, i);
        if state.Going? {
          var f := fate(i);
          var finished := ProjectEvent(rows[i], f.cut);
          if f.dies {
            state := Dead;
          } else {
            if finished {
              if failures == 0 {
                last := rows[i].position;
              }
              projected := projected + 1;
            }
            if finished && f.writeOk {
              cursor := last;
            } else if !f.recordOk {
              state := Threw;
            } else {
              failures := failures + 1;
              if !f.failureWriteOk {
                state := Threw;
              } else {
                cursor := last;
                state := if continueOnError then Going else Stopped;
              }
            }
          }
        }
        i := i + 1;
      }
      assert rows[..|rows|] == rows;
      p := Progress(Projected(), cursor, last, projected, failures, state);
    }

    /** `projectDomainEventsBatch`. */
    method ProjectBatch(args: Args, faults: Faults) returns (outcome: Outcome)
      modifies this
      ensures (Snapshot(), outcome) == Batch(old(Snapshot()), args, faults)
    {
      if !faults.claimOk {
        return Raised;
      }
      if !Claimable(Snapshot(), args) {
        return Locked(cursor);
      }
      ghost var before := Snapshot();
      leaseOwner, leaseExpires := Some(args.runner), Some(args.now + LeaseMs(args.leaseMs));
      var explicit := Explicit(args);
      if explicit.Some? && explicit.value < cursor && !args.allowRewind {
        if !faults.rewindWriteOk {
          return Raised;
        }
        WriteState(cursor, true);
        return RewindForbidden;
      }
      if !faults.scanOk {
        return Raised;
      }
      var start := if explicit.Some? then explicit.value else cursor;
      var pending := PendingAfter(log, start);
      var limit := ReplayLimit(args.limit);
      var rows := pending[..Min(limit, |pending|)];
      assert start == Start(before, args) && rows == Rows(before, args);
      var p := ProjectRows(rows, start, faults.fate, args.continueOnError);
      if p.state.Dead? {
        return Died;
      }
      if !faults.finalWriteOk {
        return Raised;
      }
      WriteState(p.last, true);
      outcome := if p.state.Threw? then Raised
                 else Finished(Report(start, p.last, |rows|, p.projected, p.failures, |pending| > limit));
    }
  }
}

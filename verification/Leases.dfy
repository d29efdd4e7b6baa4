/**
 * Several runners of the consumer at once. The state write is not fenced by the runner, so a runner
 * that outlives its lease still writes; this is what that can and cannot break.
 */
module Leases {
  import opened Prelude

  /** One run: who runs it, until when its lease lasts, what it scanned and how far it has come. */
  datatype Job = Job(runner: string, expires: int, rows: seq<nat>, done: nat, last: nat, failed: bool)

  /** `projected` holds the positions whose link and update rows are written; no writer removes them. */
  datatype World = World(
    log: seq<nat>, projected: set<nat>, cursor: nat, owner: Option<string>, expires: Option<int>, now: int,
    jobs: map<nat, Job>)

  datatype Action =
    | Tick(ms: nat)
    | Append(position: nat)
    | ClaimAndScan(job: nat, runner: string, leaseMs: nat, limit: nat)
    | ProjectNext(job: nat, ok: bool)
    | WriteCursor(job: nat)
    | Finish(job: nat)

  function Above(log: seq<nat>, position: nat): (r: seq<nat>) {
    if log == [] then [] else
      var last := log[|log| - 1];
      Above(log[..|log| - 1], position) + if last > position then [last] else []
  }

  predicate Free(w: World, runner: string) {
    w.owner.None? || w.expires.None? || w.expires.value <= w.now || w.owner == Some(runner)
  }

  function Step(w: World, a: Action): World {
    match a
    case Tick(ms) => w.(now := w.now + ms)
    case Append(p) => if p > 0 && forall q <- w.log :: q < p then w.(log := w.log + [p]) else w
    case ClaimAndScan(j, runner, leaseMs, limit) =>
      if j in w.jobs || !Free(w, runner) then w
      else
        var pending := Above(w.log, w.cursor);
        var expires := w.now + leaseMs;
        w.(owner := Some(runner), expires := Some(expires),
           jobs := w.jobs[j := Job(runner, expires, pending[..Min(limit, |pending|)], 0, w.cursor, false)])
    case ProjectNext(j, ok) =>
      if j !in w.jobs || w.jobs[j].done >= |w.jobs[j].rows| then w
      else
        var job := w.jobs[j];
        var row := job.rows[job.done];
        w.(projected := if ok then w.projected + {row} else w.projected,
           jobs := w.jobs[j := job.(done := job.done + 1, failed := job.failed || !ok,
                                    last := if ok && !job.failed then row else job.last)])
    case WriteCursor(j) => if j in w.jobs then w.(cursor := w.jobs[j].last) else w
    case Finish(j) =>
      if j in w.jobs then w.(cursor := w.jobs[j].last, owner := None, expires := None, jobs := w.jobs - {j}) else w
  }

  function Steps(w: World, actions: seq<Action>): World
    decreases |actions|
  {
    if actions == [] then w else Step(Steps(w, actions[..|actions| - 1]), actions[|actions| - 1])
  }

  const START := World([], {}, 0, None, None, 1, map[])

  // ---- contiguity needs no lease ----

  ghost predicate Ascending(s: seq<nat>) { forall i, j :: 0 <= i < j < |s| ==> s[i] < s[j] }

  ghost predicate ProjectedUpTo(w: World, position: nat) { forall p <- w.log :: p <= position ==> p in w.projected }

  /** Where an unbroken job stands: at the row it projected last, or where it started. */
  ghost predicate JobSound(w: World, job: Job) {
    && job.done <= |job.rows|
    && ProjectedUpTo(w, job.last)
    && (job.last == 0 || job.last in w.log)
    && (!job.failed ==> forall i :: job.done <= i < |job.rows| ==> Next(w, job, i))
  }

  /** Row `i` directly follows the row before it, or the job's position when it is the next row. */
  ghost predicate Next(w: World, job: Job, i: nat)
    requires job.done <= i < |job.rows|
  {
    var before := if i == job.done then job.last else job.rows[i - 1];
    job.rows[i] in w.log && before < job.rows[i] && forall p <- w.log :: before < p <= job.rows[i] ==> p == job.rows[i]
  }

  ghost predicate Contiguous(w: World) {
    && Ascending(w.log)
    && ProjectedUpTo(w, w.cursor)
    && (w.cursor == 0 || w.cursor in w.log)
    && forall j <- w.jobs :: JobSound(w, w.jobs[j])
  }

  lemma AscendingSnoc(s: seq<nat>, p: nat)
    requires Ascending(s) && forall q <- s :: q < p
    ensures Ascending(s + [p])
  {
    forall i | 0 <= i < |s| ensures s[i] < p { assert s[i] in s; }
  }

  lemma {:induction false} AboveFacts(log: seq<nat>, position: nat)
    requires Ascending(log)
    ensures forall p :: p in Above(log, position) <==> p in log && p > position
    ensures Ascending(Above(log, position))
    decreases |log|
  {
    if log != [] {
      var front, last := log[..|log| - 1], log[|log| - 1];
      AboveFacts(front, position);
      assert log == front + [last];
      assert forall p <- front :: p < last;
      if last > position { AscendingSnoc(Above(front, position), last); }
    }
  }

  lemma ScanIsSound(w: World, runner: string, expires: int, limit: nat)
    requires Contiguous(w)
    ensures var pending := Above(w.log, w.cursor);
            JobSound(w, Job(runner, expires, pending[..Min(limit, |pending|)], 0, w.cursor, false))
  {
    var pending := Above(w.log, w.cursor);
    var rows := pending[..Min(limit, |pending|)];
    var job := Job(runner, expires, rows, 0, w.cursor, false);
    AboveFacts(w.log, w.cursor);
    forall i | 0 <= i < |rows| ensures Next(w, job, i) {
      assert pending[i] in pending;
      assert i > 0 ==> pending[i - 1] < pending[i];
      forall p | p in w.log && (if i == 0 then job.last else rows[i - 1]) < p <= rows[i] ensures p == rows[i] {
        assert i > 0 ==> pending[i - 1] in pending;
        assert p in pending;
        var k :| 0 <= k < |pending| && pending[k] == p;
        assert k == i;
      }
    }
  }

  lemma JobSurvives(w: World, next: World, job: Job)
    requires JobSound(w, job) && next.log == w.log && w.projected <= next.projected
    ensures JobSound(next, job)
  {
    assert !job.failed ==> forall i :: job.done <= i < |job.rows| ==> Next(w, job, i) && Next(next, job, i);
  }

  lemma JobSurvivesAppend(w: World, job: Job, p: nat)
    requires Contiguous(w) && JobSound(w, job) && p > 0 && forall q <- w.log :: q < p
    ensures JobSound(w.(log := w.log + [p]), job)
  {
    var next := w.(log := w.log + [p]);
    if !job.failed {
      forall i | job.done <= i < |job.rows| ensures Next(next, job, i) {
        assert Next(w, job, i);
      }
    }
  }

  lemma JobAdvances(w: World, job: Job, ok: bool)
    requires JobSound(w, job) && job.done < |job.rows|
    ensures var row := job.rows[job.done];
            JobSound(w.(projected := if ok then w.projected + {row} else w.projected),
                     job.(done := job.done + 1, failed := job.failed || !ok,
                          last := if ok && !job.failed then row else job.last))
  {
    var row := job.rows[job.done];
    var next := w.(projected := if ok then w.projected + {row} else w.projected);
    var moved := job.(done := job.done + 1, failed := job.failed || !ok,
                      last := if ok && !job.failed then row else job.last);
    if ok && !job.failed {
      assert Next(w, job, job.done);
      forall i | moved.done <= i < |moved.rows| ensures Next(next, moved, i) {
        assert Next(w, job, i);
      }
    }
  }

  lemma StepKeepsContiguous(w: World, a: Action)
    requires Contiguous(w)
    ensures Contiguous(Step(w, a))
  {
    var next := Step(w, a);
    match a
    case Append(p) =>
      if next != w {
        AscendingSnoc(w.log, p);
        forall j | j in next.jobs ensures JobSound(next, next.jobs[j]) { JobSurvivesAppend(w, w.jobs[j], p); }
      }
    case ClaimAndScan(j, runner, leaseMs, limit) =>
      if next != w {
        ScanIsSound(w, runner, w.now + leaseMs, limit);
        forall k | k in next.jobs ensures JobSound(next, next.jobs[k]) { JobSurvives(w, next, next.jobs[k]); }
      }
    case ProjectNext(j, ok) =>
      if next != w {
        JobAdvances(w, w.jobs[j], ok);
        forall k | k in next.jobs ensures JobSound(next, next.jobs[k]) {
          if k != j { JobSurvives(w, next, w.jobs[k]); }
          else { JobSurvives(w.(projected := next.projected), next, next.jobs[j]); }
        }
      }
    case _ =>
      forall k | k in next.jobs ensures JobSound(next, next.jobs[k]) { JobSurvives(w, next, w.jobs[k]); }
  }

  /** Under any interleaving, expired leases included, everything at or below the cursor is projected. */
  lemma {:induction false} ContiguousWithoutLeases(actions: seq<Action>)
    ensures Contiguous(Steps(START, actions))
    decreases |actions|
  {
    if actions != [] {
      ContiguousWithoutLeases(actions[..|actions| - 1]);
      StepKeepsContiguous(Steps(START, actions[..|actions| - 1]), actions[|actions| - 1]);
    }
  }

  // ---- the cursor needs the lease ----

  predicate Live(w: World, j: nat) { j in w.jobs && w.now < w.jobs[j].expires }

  /** A job acts only while its lease lasts. */
  predicate InTime(w: World, a: Action) {
    match a
    case ProjectNext(j, _) => j in w.jobs ==> Live(w, j)
    case WriteCursor(j) => j in w.jobs ==> Live(w, j)
    case Finish(j) => j in w.jobs ==> Live(w, j)
    case _ => true
  }

  /** The claim lets the owner of the lease in again; here the name of a live runner is not claimed a second time. */
  ghost predicate OwnName(w: World, a: Action) {
    a.ClaimAndScan? ==> forall j <- w.jobs :: Live(w, j) ==> w.jobs[j].runner != a.runner
  }

  ghost predicate Timely(w: World, a: Action) { InTime(w, a) && OwnName(w, a) }

  ghost predicate AllTimely(w: World, actions: seq<Action>)
    decreases |actions|
  {
    actions != [] ==>
      AllTimely(w, actions[..|actions| - 1]) && Timely(Steps(w, actions[..|actions| - 1]), actions[|actions| - 1])
  }

  /** A live job holds the lease, is the only one, and is never behind the cursor. */
  ghost predicate Exclusive(w: World) {
    && (forall j :: Live(w, j) ==> w.owner == Some(w.jobs[j].runner) && w.expires == Some(w.jobs[j].expires))
    && (forall j :: Live(w, j) ==> w.cursor <= w.jobs[j].last)
    && (forall j, k :: Live(w, j) && Live(w, k) ==> j == k)
  }

  lemma StepKeepsExclusive(w: World, a: Action)
    requires Contiguous(w) && Exclusive(w) && Timely(w, a)
    ensures Exclusive(Step(w, a)) && Step(w, a).cursor >= w.cursor
  {
    var next := Step(w, a);
    if a.ProjectNext? && next != w {
      var job := w.jobs[a.job];
      if a.ok && !job.failed {
        assert Next(w, job, job.done);
      }
      forall j | Live(next, j) ensures Live(w, j) { }
    } else if a.ClaimAndScan? && next != w {
      forall j | Live(next, j) && j != a.job ensures false {
        assert Live(w, j);
      }
    } else {
      forall j | Live(next, j) ensures Live(w, j) && next.jobs[j] == w.jobs[j] { }
    }
  }

  /** When every run ends within its lease, at most one job is live and the cursor never moves back. */
  lemma {:induction false} TimelyRunsNeverMoveBack(actions: seq<Action>, a: Action)
    requires AllTimely(START, actions + [a])
    ensures Exclusive(Steps(START, actions))
    ensures Steps(START, actions + [a]).cursor >= Steps(START, actions).cursor
    decreases |actions|
  {
    assert (actions + [a])[..|actions|] == actions;
    if actions != [] {
      var front, last := actions[..|actions| - 1], actions[|actions| - 1];
      assert actions == front + [last];
      TimelyRunsNeverMoveBack(front, last);
      ContiguousWithoutLeases(front);
      StepKeepsExclusive(Steps(START, front), last);
    }
    ContiguousWithoutLeases(actions);
    StepKeepsExclusive(Steps(START, actions), a);
  }

  // ---- what a write that comes too late does ----

  /** The state write of the job would move the cursor back. */
  predicate Lowers(w: World, j: nat) { j in w.jobs && Step(w, WriteCursor(j)).cursor < w.cursor }

  ghost predicate Reached(w: World) { exists actions :: AllTimely(START, actions) && Steps(START, actions) == w }

  lemma {:induction false} ReachedFacts(w: World)
    requires Reached(w)
    ensures Contiguous(w) && Exclusive(w)
  {
    var actions :| AllTimely(START, actions) && Steps(START, actions) == w;
    ContiguousWithoutLeases(actions);
    var more := actions + [Tick(0)];
    assert more[..|actions|] == actions && more[|actions|] == Tick(0);
    TimelyRunsNeverMoveBack(actions, Tick(0));
  }

  /** The job goes on, nothing is published, and every action meets the test. */
  ghost predicate Continues(w: World, actions: seq<Action>, j: nat, named: bool)
    decreases |actions|
  {
    actions != [] ==>
      var front, last := actions[..|actions| - 1], actions[|actions| - 1];
      && Continues(w, front, j, named) && last != Finish(j) && !last.Append?
      && InTime(Steps(w, front), last) && (named ==> OwnName(Steps(w, front), last))
  }

  lemma JobGoesOn(w: World, a: Action, j: nat)
    requires Contiguous(w) && j in w.jobs && a != Finish(j)
    ensures var next := Step(w, a); j in next.jobs && next.jobs[j].last >= w.jobs[j].last
  {
    if a.ProjectNext? && a.job == j && w.jobs[j].done < |w.jobs[j].rows| && a.ok && !w.jobs[j].failed {
      assert Next(w, w.jobs[j], w.jobs[j].done);
    }
  }

  lemma {:induction false} ContinuationFacts(w: World, actions: seq<Action>, j: nat, named: bool)
    requires Contiguous(w) && j in w.jobs && Continues(w, actions, j, named)
    ensures var end := Steps(w, actions);
            && Contiguous(end) && end.log == w.log && j in end.jobs && end.jobs[j].last >= w.jobs[j].last
            && (named && Exclusive(w) ==> Exclusive(end))
    decreases |actions|
  {
    if actions != [] {
      var front, last := actions[..|actions| - 1], actions[|actions| - 1];
      ContinuationFacts(w, front, j, named);
      StepKeepsContiguous(Steps(w, front), last);
      JobGoesOn(Steps(w, front), last, j);
      if named && Exclusive(w) {
        StepKeepsExclusive(Steps(w, front), last);
      }
    }
  }

  lemma LoweringNeedsRoom(w: World, actions: seq<Action>, j: nat, named: bool)
    requires Contiguous(w) && j in w.jobs && Continues(w, actions, j, named) && Lowers(Steps(w, actions), j)
    ensures exists p :: p in w.log && p > w.jobs[j].last
  {
    ContinuationFacts(w, actions, j, named);
    var end := Steps(w, actions);
    assert end.cursor in w.log && end.cursor > w.jobs[j].last;
  }

  // ---- another runner that takes everything ----

  function ProjectAll(k: nat, n: nat): seq<Action> { seq(n, i requires 0 <= i < n => ProjectNext(k, true)) }

  lemma {:induction false} StepsConcat(w: World, a: seq<Action>, b: seq<Action>)
    ensures Steps(w, a + b) == Steps(Steps(w, a), b)
    decreases |b|
  {
    if b == [] {
      assert a + b == a;
    } else {
      assert (a + b)[..|a + b| - 1] == a + b[..|b| - 1];
      StepsConcat(w, a, b[..|b| - 1]);
    }
  }

  lemma {:induction false} ContinuesConcat(w: World, a: seq<Action>, b: seq<Action>, j: nat, named: bool)
    requires Continues(w, a, j, named) && Continues(Steps(w, a), b, j, named)
    ensures Continues(w, a + b, j, named)
    decreases |b|
  {
    if b == [] {
      assert a + b == a;
    } else {
      var front := b[..|b| - 1];
      assert (a + b)[..|a + b| - 1] == a + front;
      ContinuesConcat(w, a, front, j, named);
      StepsConcat(w, a, front);
    }
  }

  lemma OneContinues(w: World, a: Action, j: nat, named: bool)
    requires a != Finish(j) && !a.Append? && InTime(w, a) && (named ==> OwnName(w, a))
    ensures Continues(w, [a], j, named) && Steps(w, [a]) == Step(w, a)
  {
    assert [a][..0] == [];
    assert Steps(w, []) == w;
  }

  /** A job that has done `n` rows without failure. */
  function Advanced(job: Job, n: nat): Job
    requires n <= |job.rows|
  {
    job.(done := n, last := if n == 0 then job.last else job.rows[n - 1])
  }

  lemma {:induction false} ProjectsAll(w: World, k: nat, n: nat, j: nat, named: bool)
    requires k in w.jobs && k != j && Live(w, k) && w.jobs[k].done == 0 && !w.jobs[k].failed && n <= |w.jobs[k].rows|
    ensures Continues(w, ProjectAll(k, n), j, named)
    ensures var end := Steps(w, ProjectAll(k, n));
            && end.log == w.log && end.cursor == w.cursor && end.now == w.now
            && end.jobs == w.jobs[k := Advanced(w.jobs[k], n)]
    decreases n
  {
    if n == 0 {
      assert w.jobs[k := Advanced(w.jobs[k], 0)] == w.jobs;
    } else {
      ProjectsAll(w, k, n - 1, j, named);
      assert ProjectAll(k, n)[..n - 1] == ProjectAll(k, n - 1);
    }
  }

  function Swept(w: World): nat {
    var pending := Above(w.log, w.cursor); if pending == [] then w.cursor else pending[|pending| - 1]
  }

  /** Claims the lease, projects every pending position and releases the lease. */
  function Sweep(w: World, k: nat, runner: string): seq<Action> {
    var n := |Above(w.log, w.cursor)|; [ClaimAndScan(k, runner, 1, n)] + ProjectAll(k, n) + [Finish(k)]
  }

  lemma {:induction false} SweepTakesAll(w: World, k: nat, runner: string, j: nat, named: bool)
    requires k !in w.jobs && k != j && Free(w, runner)
    requires named ==> OwnName(w, ClaimAndScan(k, runner, 1, |Above(w.log, w.cursor)|))
    ensures Continues(w, Sweep(w, k, runner), j, named)
    ensures var end := Steps(w, Sweep(w, k, runner));
            end.log == w.log && end.now == w.now && end.jobs == w.jobs && end.cursor == Swept(w)
  {
    var n := |Above(w.log, w.cursor)|;
    var claim := ClaimAndScan(k, runner, 1, n);
    var rest := ProjectAll(k, n) + [Finish(k)];
    ScansAll(w, k, runner);
    OneContinues(w, claim, j, named);
    ProjectsAndFinishes(w, Step(w, claim), k, n, j, named);
    ContinuesConcat(w, [claim], rest, j, named);
    StepsConcat(w, [claim], rest);
    assert Sweep(w, k, runner) == [claim] + rest;
  }

  lemma {:induction false} ProjectsAndFinishes(w: World, one: World, k: nat, n: nat, j: nat, named: bool)
    requires k in one.jobs && k != j && Live(one, k) && one.jobs[k].done == 0 && !one.jobs[k].failed
    requires k !in w.jobs && one.jobs == w.jobs[k := one.jobs[k]] && n == |one.jobs[k].rows|
    ensures var rest := ProjectAll(k, n) + [Finish(k)];
            var end := Steps(one, rest);
            && Continues(one, rest, j, named)
            && end.log == one.log && end.now == one.now && end.jobs == w.jobs
            && end.cursor == Advanced(one.jobs[k], n).last
  {
    var all := ProjectAll(k, n);
    var mid := Steps(one, all);
    ProjectsAll(one, k, n, j, named);
    OneContinues(mid, Finish(k), j, named);
    ContinuesConcat(one, all, [Finish(k)], j, named);
    StepsConcat(one, all, [Finish(k)]);
    Finishes(w, mid, k, Advanced(one.jobs[k], n));
  }

  lemma ScansAll(w: World, k: nat, runner: string)
    requires k !in w.jobs && Free(w, runner)
    ensures var pending := Above(w.log, w.cursor);
            Step(w, ClaimAndScan(k, runner, 1, |pending|))
            == w.(owner := Some(runner), expires := Some(w.now + 1),
                  jobs := w.jobs[k := Job(runner, w.now + 1, pending, 0, w.cursor, false)])
  {
    assert Above(w.log, w.cursor)[..|Above(w.log, w.cursor)|] == Above(w.log, w.cursor);
  }

  lemma Finishes(w: World, end: World, k: nat, job: Job)
    requires k !in w.jobs && end.jobs == w.jobs[k := job]
    ensures var done := Step(end, Finish(k));
            done.log == end.log && done.now == end.now && done.jobs == w.jobs && done.cursor == job.last
  {
    assert w.jobs[k := job] - {k} == w.jobs;
  }

  lemma SweptIsLast(w: World, p: nat)
    requires Contiguous(w) && p in w.log
    ensures p <= Swept(w)
  {
    var pending := Above(w.log, w.cursor);
    AboveFacts(w.log, w.cursor);
    if p > w.cursor {
      assert p in pending;
      var i :| 0 <= i < |pending| && pending[i] == p;
      assert i < |pending| - 1 ==> pending[i] < pending[|pending| - 1];
    } else if pending != [] {
      assert pending[|pending| - 1] in pending;
    }
  }

  lemma {:induction false} SomeUnused(used: set<nat>) returns (k: nat)
    ensures forall j <- used :: j < k
    decreases |used|
  {
    k := 0;
    if used != {} {
      var u :| u in used;
      var rest := SomeUnused(used - {u});
      k := if rest > u then rest else u + 1;
      forall j | j in used ensures j < k {
        assert j != u ==> j in used - {u};
      }
    }
  }

  lemma {:induction false} SomeDeadline(jobs: map<nat, Job>, ids: set<nat>, least: int) returns (t: int)
    requires ids <= jobs.Keys
    ensures t >= least && forall j <- ids :: jobs[j].expires <= t
    decreases |ids|
  {
    t := least;
    if ids != {} {
      var u :| u in ids;
      var rest := SomeDeadline(jobs, ids - {u}, least);
      t := Max(rest, jobs[u].expires);
    }
  }

  /** A sweep by any runner leaves the job behind the cursor, if there is a position above it. */
  lemma {:induction false} SweepLeavesBehind(w: World, j: nat, k: nat, runner: string, named: bool, p: nat)
    requires Contiguous(w) && j in w.jobs && k !in w.jobs && Free(w, runner) && p in w.log && p > w.jobs[j].last
    requires named ==> OwnName(w, ClaimAndScan(k, runner, 1, |Above(w.log, w.cursor)|))
    ensures Continues(w, Sweep(w, k, runner), j, named) && Lowers(Steps(w, Sweep(w, k, runner)), j)
    ensures Steps(w, Sweep(w, k, runner)).now == w.now && Steps(w, Sweep(w, k, runner)).jobs == w.jobs
  {
    SweepTakesAll(w, k, runner, j, named);
    SweptIsLast(w, p);
  }

  lemma {:induction false} LateWrite(w: World, j: nat, p: nat) returns (actions: seq<Action>)
    requires Contiguous(w) && j in w.jobs && p in w.log && p > w.jobs[j].last
    ensures Continues(w, actions, j, true) && Lowers(Steps(w, actions), j) && !Live(Steps(w, actions), j)
  {
    var k := SomeUnused(w.jobs.Keys);
    var t := SomeDeadline(w.jobs, w.jobs.Keys, if w.expires.Some? then Max(w.now, w.expires.value) else w.now);
    var tick := Tick(t - w.now);
    var later := Step(w, tick);
    OneContinues(w, tick, j, true);
    StepKeepsContiguous(w, tick);
    SweepLeavesBehind(later, j, k, "", true, p);
    actions := [tick] + Sweep(later, k, "");
    ContinuesConcat(w, [tick], Sweep(later, k, ""), j, true);
    StepsConcat(w, [tick], Sweep(later, k, ""));
  }

  lemma LoweringIsLate(w: World, actions: seq<Action>, j: nat)
    requires Contiguous(w) && Exclusive(w) && j in w.jobs
    requires Continues(w, actions, j, true) && Lowers(Steps(w, actions), j)
    ensures !Live(Steps(w, actions), j)
  {
    ContinuationFacts(w, actions, j, true);
  }

  /**
   * For every job of every world that timely actions reach, and every timely continuation: a write of the job moves the
   * cursor back in one of them, and only in ones that have outlived its lease, exactly when there is a position above
   * its own.
   */
  lemma {:induction false} LateWriteLowersExactlyWhen(w: World, j: nat)
    requires Reached(w) && j in w.jobs
    ensures (exists actions :: Continues(w, actions, j, true) && Lowers(Steps(w, actions), j))
            <==> exists p :: p in w.log && p > w.jobs[j].last
    ensures forall actions ::
              Continues(w, actions, j, true) && Lowers(Steps(w, actions), j) ==> !Live(Steps(w, actions), j)
  {
    ReachedFacts(w);
    if p :| p in w.log && p > w.jobs[j].last {
      var actions := LateWrite(w, j, p);
    }
    forall actions | Continues(w, actions, j, true) && Lowers(Steps(w, actions), j)
      ensures !Live(Steps(w, actions), j) && exists p :: p in w.log && p > w.jobs[j].last {
      LoweringNeedsRoom(w, actions, j, true);
      LoweringIsLate(w, actions, j);
    }
  }

  /**
   * If the name of the live runner may be claimed again, a write within the lease moves the cursor back in some
   * continuation, exactly when there is a position above the job's own.
   */
  lemma {:induction false} SharedNameLowersExactlyWhen(w: World, j: nat)
    requires Reached(w) && Live(w, j)
    ensures (exists actions ::
               Continues(w, actions, j, false) && Lowers(Steps(w, actions), j) && Live(Steps(w, actions), j))
            <==> exists p :: p in w.log && p > w.jobs[j].last
  {
    ReachedFacts(w);
    if p :| p in w.log && p > w.jobs[j].last {
      var k := SomeUnused(w.jobs.Keys);
      SweepLeavesBehind(w, j, k, w.jobs[j].runner, false, p);
    }
    forall actions | Continues(w, actions, j, false) && Lowers(Steps(w, actions), j)
      ensures exists p :: p in w.log && p > w.jobs[j].last {
      LoweringNeedsRoom(w, actions, j, false);
    }
  }

  /** A position published later is above every job's own, so then some continuation always lowers the cursor. */
  lemma {:induction false} PublishedLaterLowers(w: World, j: nat, p: nat)
    requires Reached(w) && j in w.jobs && p > 0 && forall q <- w.log :: q < p
    ensures var next := Step(w, Append(p));
            exists actions :: Continues(next, actions, j, true) && Lowers(Steps(next, actions), j)
  {
    ReachedFacts(w);
    StepKeepsContiguous(w, Append(p));
    var actions := LateWrite(Step(w, Append(p)), j, p);
  }
}

/**
 * A backfill job: its table of tasks, unique by dedupe key. Discovering a page enqueues a batch to resolve, a batch
 * enqueues what it leaves, and one of them at last the finalization. A task whose key is taken is not enqueued, and
 * once the finalization is executed the job is terminal: every task still pending is skipped.
 */
module BackfillJob {
  import opened Prelude
  import opened Backfill

  /** What is added to the key of a batch: nothing, the attempt of a retry, or the parent of a continuation. */
  datatype Suffix = Plain | AsRetry(attempt: nat) | AsContinuation(parent: nat, processed: nat)

  datatype Key =
    | ResolveKey(first: string, last: string, count: nat, suffix: Suffix)
    | DiscoverKey(cursor: string)
    | FinalizeKey

  function BatchKey(ids: seq<string>, suffix: Suffix): Key {
    var clean := Clean(ids);
    if clean == [] then ResolveKey("empty", "empty", 0, suffix)
    else ResolveKey(clean[0], clean[|clean| - 1], |clean|, suffix)
  }

  datatype Work = Resolve(task: Task) | Discovery(cursor: string) | Finalization

  /** A row of the task table. Its position stands for the task's id. */
  datatype Entry = Entry(key: Key, work: Work, done: bool)

  datatype Order = Order(key: Key, work: Work)

  /** The ids a discovery finds eligible, and the cursor of the page after. */
  datatype Page = Page(ids: seq<string>, next: Option<string>)

  /**
   * What a run has counted: the ids discovered, the deferred tasks that were stopped, the work that was not enqueued
   * because its key was taken, and the calls for finalization.
   */
  datatype Tally = Tally(discovered: multiset<string>, strays: nat, missed: seq<Work>, calls: nat)

  /** The tasks, the ids completed, the counts, and whether the job is terminal. */
  datatype Job = Job(entries: seq<Entry>, log: seq<string>, tally: Tally, ended: bool)

  const NOTHING_COUNTED := Tally(multiset{}, 0, [], 0)

  function Initial(cursor: string): Job {
    Job([Entry(DiscoverKey(cursor), Discovery(cursor), false)], [], NOTHING_COUNTED, false)
  }

  function IdsOf(w: Work): seq<string> { if w.Resolve? then BatchIds(w.task.ids) else [] }

  /** The work that is to start the next phase when it is through. */
  predicate HasDuty(w: Work) { w.Discovery? || (w.Resolve? && !w.task.deferred) }

  predicate Known(entries: seq<Entry>, key: Key) { exists i :: 0 <= i < |entries| && entries[i].key == key }

  /** An insert that ignores a duplicate key. */
  function Enqueue(job: Job, o: Order): Job {
    var tally := if o.work.Finalization? then job.tally.(calls := job.tally.calls + 1) else job.tally;
    if Known(job.entries, o.key) then job.(tally := tally.(missed := tally.missed + [o.work]))
    else job.(entries := job.entries + [Entry(o.key, o.work, false)], tally := tally)
  }

  function EnqueueOption(job: Job, o: Option<Order>): Job { if o.None? then job else Enqueue(job, o.value) }

  // ---- what the execution of a task enqueues ----

  function RetryOrder(s: Spawn): Option<Order> {
    if s.retry.None? then None
    else Some(Order(BatchKey(s.retry.value.ids, AsRetry(s.retry.value.attempt)), Resolve(s.retry.value)))
  }

  function ContinuationOrder(s: Spawn, parent: nat): Option<Order> {
    if s.continuation.None? then None
    else Some(Order(BatchKey(s.continuation.value.ids, AsContinuation(parent, s.progress.processed)),
                    Resolve(s.continuation.value)))
  }

  function PhaseOrder(n: Next): Order {
    match n
    case Discover(cursor) => Order(DiscoverKey(cursor), Discovery(cursor))
    case Finalize => Order(FinalizeKey, Finalization)
  }

  function NextOrder(s: Spawn): Option<Order> { if s.next.None? then None else Some(PhaseOrder(s.next.value)) }

  function PageOrder(page: Page): Order {
    var ids := BatchIds(page.ids);
    if ids != [] then Order(BatchKey(ids, Plain), Resolve(Task(ids, 0, page.next, false)))
    else PhaseOrder(if page.next.Some? then Discover(page.next.value) else Finalize)
  }

  /** Which task is executed next, when, how its records end, and which page it discovers. */
  datatype Choice = Choice(index: nat, started: int, reports: nat -> Report, page: Page)

  /** A task of a terminal job is skipped. */
  predicate Executes(job: Job, c: Choice) { !job.ended && c.index < |job.entries| && !job.entries[c.index].done }

  /** The job with the chosen task completed. */
  function Closed(job: Job, c: Choice): Job
    requires Executes(job, c)
  {
    job.(entries := job.entries[c.index := job.entries[c.index].(done := true)])
  }

  predicate Resolves(job: Job, c: Choice) { Executes(job, c) && job.entries[c.index].work.Resolve? }

  function Spawned(job: Job, maxAttempts: nat, c: Choice): Spawn
    requires Resolves(job, c)
  {
    Execution(job.entries[c.index].work.task, maxAttempts, c.started, c.reports)
  }

  /** The job once a batch is executed, before anything is enqueued. */
  function Resolved(job: Job, maxAttempts: nat, c: Choice): Job
    requires Resolves(job, c)
  {
    var s, closed := Spawned(job, maxAttempts, c), Closed(job, c);
    var stray := job.entries[c.index].work.task.deferred && s.continuation.Some?;
    closed.(log := closed.log + s.progress.completed,
            tally := closed.tally.(strays := closed.tally.strays + if stray then 1 else 0))
  }

  function Discovered(job: Job, c: Choice): Job
    requires Executes(job, c)
  {
    var closed := Closed(job, c);
    closed.(tally := closed.tally.(discovered := closed.tally.discovered + multiset(BatchIds(c.page.ids))))
  }

  function EnqueueSpawn(job: Job, s: Spawn, parent: nat): Job {
    EnqueueOption(EnqueueOption(EnqueueOption(job, RetryOrder(s)), ContinuationOrder(s, parent)), NextOrder(s))
  }

  function Step(job: Job, maxAttempts: nat, c: Choice): Job {
    if !Executes(job, c) then job
    else
      match job.entries[c.index].work
      case Finalization => Closed(job, c).(ended := true)
      case Discovery(_) => Enqueue(Discovered(job, c), PageOrder(c.page))
      case Resolve(_) => EnqueueSpawn(Resolved(job, maxAttempts, c), Spawned(job, maxAttempts, c), c.index)
  }

  function Run(job: Job, maxAttempts: nat, choices: seq<Choice>): Job {
    if choices == [] then job
    else Step(Run(job, maxAttempts, choices[..|choices| - 1]), maxAttempts, choices[|choices| - 1])
  }
}

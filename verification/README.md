# Verified model of TraceKit's protocols

TraceKit is a commerce-attribution backend. This project models, in Dafny, the parts of it that are protocols or
algorithms rather than plumbing, and proves what they are for.

- **Domain-event projection** (`Projection`, `ProjectionLaws`, `ProjectionRules`, `GroupRaces`, `Consumer`,
  `ConsumerLaws`, `ConsumerRows`, `BatchRules`, `ConsumerRuns`, `Leases`). A leased consumer drains an append-only log
  into activity groups, links and workspace updates. A projection is four writes and may be cut off between any two of
  them; every database call of a batch may fail and the process may die. The store is a class; runs are sequences of
  publishes, inline projections and batches.
- **Connector runtime** (`CodeUnits`, `UriReading`, `StableJson`, `JsonReading`, `TaskKey`, `TaskKeyRules`,
  `RuntimeTasks`, `RuntimeTaskRules`). The dedupe key over UTF-16 code units (percent-encoding of section 2.1 of RFC
  3986, UTF-8 of section 3 of RFC 3629, JSON text of sections 2 to 7 of RFC 8259), the bounded diagnostic window, and
  stale-task recovery.
- **Attribution** (`Attribution`, `AttributionRules`, `Decimal`, `DecimalRules`, `CreditStore`, `CreditStoreLaws`,
  `CreditRules`, `CreditKeys`, `JourneyCredits`). Winner selection, exact micro-unit decimals, grouped replacement in a
  store with its unique indexes, the texts by which credits are compared, and a journey with its store.
- **Dispute webhooks** (`CommasDispute`), **journey evidence** (`Evidence`, `EvidenceLaws`, `EvidenceRules`),
  **operational alerts** (`Alerts`, `AlertLaws`, `AlertStatus`, `AlertRounds`, `AlertRules`), **identity backfill**
  (`Backfill`, `BackfillLaws`, `BackfillRules`, `BackfillJob`, `BackfillRuns`, `BackfillClean`, `BackfillEnds`,
  `BackfillCases`, `DryRun`), **financial reconciliation** (`Reconciliation`, `ReconciliationRules`), **the commerce
  scheduler** (`Schedules`, `Cron`, `CronLaws`, `CronRules`, `CronTally`, `ScheduleLaws`) and **customer totals**
  (`Customer360`, `CustomerRules`).

A module of laws says what holds over runs and between operations. A module of rules says of single operations what
they do with which input, with the words, limits and orders spelled out; a module of readings reads printed texts back.

`Prelude`, `Ordering` and `Seqs` hold what they share: stable sorting, filtering, grouping and folds.

Timestamps are integers, money is integer minor units or micros, `localeCompare` is an abstract strict total order, and
lower-casing is an abstract folding. Every outside answer (database, queue, clock) is a parameter.

`dafny verify dfyconfig.toml` checks the project.

## What the source does not promise after all

The code is followed where it and its intended property part; each has a counterexample or an exact condition.

- A batch keeps the cursor contiguous exactly when its start is within the log and skips nothing unprojected
  (`FinishedBatchContiguousExactlyWhen`, `FinishedBatchSafeExactlyWhen`); one that starts beyond the log breaks it for
  every event published up to there (`PastTheEndSkipsLater`).
- Positions come from a sequence, so an event may become visible behind the cursor; contiguity survives a publish exactly
  when its position is above the cursor (`PublishKeepsExactlyWhen`).
- The group upsert reads and later writes; attempts side by side lose counts, and with them perhaps kinds, exactly
  when one is overtaken between its read and its write (`RaceIsInTurnExactlyWhen`, `OvertakenAttemptIsLost`).
- The consumer's state write is not fenced: a runner that outlives its lease can move the cursor back
  exactly when something lies above its position (`LateWriteLowersExactlyWhen`), and so can
  a runner whose name is claimed a second time (`SharedNameLowersExactlyWhen`); contiguity survives
  (`ContiguousWithoutLeases`).
- An empty diagnostic batch does not trim an oversized list (`BatchMatchesSingles`).
- `undefined`, `null` and non-finite numbers print alike, so the dedupe key does not tell them apart (`SameKeyExactlyWhen`
  speaks of equality in this sense), and a lone surrogate makes it throw (`KeyRefusedExactlyWhen`).
- Amounts from 2^1024 - 2^970 on are refused, because the amount check goes through a double (`PrintThenParse`).
- Stored credits are compared by texts joined with bars, so a bar in the source, medium or another free text lets a stale
  credit pass for the one calculated; without bars the comparison is exact (`JoinIsReadExactlyWhen`,
  `JoinedEquivalentExactlyWhen`, `BarInSourcePasses`).
- Disputes converge only under the condition of `ConvergesExactlyWhen`.
- A round of alert writes that is stopped leaves two rival alerts live exactly under the conditions of
  `StoppedRoundExactlyWhen` and `StoppedHealthRoundExactlyWhen`.
- The subrequest limit after a transient failure, and nothing else, hands ids on twice (`TaskConserves`,
  `CutOffExactlyWhen`); a limit at the first id makes no progress (`LimitEnqueuesItself`).
- A deferred batch that is stopped continues undeferred and without a cursor, so its branch calls for the finalization
  while other work may still be pending (`FinalizeIsEarlyExactlyWhen`, `EarlyFinalization`). Once the finalization is
  executed the job is terminal and its tasks are skipped, so the ids of the waiting batches and the pages behind them are
  lost (`FinalizationLosesExactly`, `CleanJobCompletesExactlyWhen`, `EarlyFinalizationLosesIds`).
- A retry whose key is taken takes its duty with it, so that a job may run out of work without a finalization
  (`OverJobEndsExactlyWhen`, `StalledJob`); neither ids nor duties are missed in a job of new pages in which the limit
  never follows a failure (`CleanRunsMissNothing`).
- The repository's scheduler reservation only reads. What keeps a cadence window from being sent twice is the mark after
  the message, so a mark that fails lets it be sent again (`WindowSentOnceExactlyWhen`), and a deep run is protected by
  its recorded run alone (`DeepMayBeSentAgain`, `NeverAgainExactlyWhen`).
- One due deep run with a request budget above 1000, which the table allows, fails the read of all jobs (`EligibleJobs`).
- Channel revenue counts unattributed credits that the summary leaves out (`ChannelsAddUp`).

## Model

| member | source | states |
|---|---|---|
| Projection.UniqueEntities | api/src/domain-events.ts:741-759 | entities without an id are dropped and no two kept entities share a key |
| Projection.CollectUniqueEntities | api/src/domain-events.ts:741-759 | the one-pass loop over a set of seen keys computes it |
| ProjectionLaws.UniqueKeys | api/src/domain-events.ts:741-759 | a key is kept exactly when some entity with an id has it |
| ProjectionLaws.UniqueConcat | api/src/domain-events.ts:991-993 | merging into an already merged list is merging everything at once |
| Projection.ProjectKeepsComplete | api/src/domain-events.ts:1143-1190 | a later projection, cut off anywhere, never undoes a completed one |
| ProjectionLaws.GroupsAndLinks | api/src/domain-events.ts:1076-1141 | after any attempts a group exists exactly when an attempt reached it, and a link exactly when an attempt wrote it or found it written |
| ProjectionLaws.CountIsLinksPlusCutOffs | api/src/domain-events.ts:1105-1141 | event_count is the number of links plus the attempts cut off between the group upsert and the link insert |
| ProjectionLaws.GroupIsExactlyItsEvents | api/src/domain-events.ts:1076-1141 | after any replays and cut-offs event_types is exactly the set of the types of the events that reached the group, severity their maximum (attained), and an entity is related, once, exactly when one of those events names it |
| ProjectionLaws.GroupSummarisesItsEvents | api/src/domain-events.ts:1076-1141 | the whole group row, lists in order, as a function of the attempts that reached it |
| ProjectionLaws.DoneIsComplete | api/src/domain-events.ts:1143-1190 | a finished projection leaves group, link, domain-typed row and activity row, for good |
| ProjectionLaws.RowsHaveOwners | api/src/domain-events.ts:1143-1190 | every update row belongs to an attempted event and has that event's domain type or an activity type |
| ProjectionLaws.OneDomainRow | api/src/domain-events.ts:940-946 | a completed event owns its domain-typed row and at least one activity row, and no row of any other type |
| ProjectionLaws.CreatedOpensTheGroup | api/src/domain-events.ts:1076-1141 | an activity.created row belongs only to the event that reached its group first |
| ProjectionLaws.OneCreatedPerGroup | api/src/domain-events.ts:1076-1141 | at most one event of a group owns an activity.created row |
| ProjectionLaws.ActivityRowsExactlyWhen | api/src/domain-events.ts:1076-1190 | an event owns an activity.created row if and only if an attempt on it ran to its end with nothing before it in the group, or with its own link there and links and cut-offs at most one; an activity.updated row if and only if an attempt ran to its end otherwise |
| ProjectionRules.ActivityRowExactly | api/src/domain-events.ts:1143-1190 | such a row is that of the last attempt that ended so: position and time of the event, subject of the event that opened the group, highest severity up to then |
| ProjectionRules.DomainRowExactly | api/src/domain-events.ts:940-946 | an event owns a row of a type if and only if an attempt got that far and the event's name calls for the type, by literal prefixes; the row repeats the event |
| ProjectionRules.LinkExactly | api/src/domain-events.ts:1126-1141 | a link exists if and only if an attempt on the event was cut off only after the insert of the link, or not at all |
| ProjectionRules.SeverityExactly | api/src/domain-events.ts:995-1004 | a group is critical if any event that reached it is, else a warning if any is, else a success if any is |
| ProjectionRules.LastWriterExactly | api/src/domain-events.ts:1076-1141 | last time and author of a group are those of the last attempt that reached it with an event not linked before |
| ProjectionRules.EntityKeptExactly | api/src/domain-events.ts:741-759 | an entity is kept if and only if it has an id and no entity before it goes by the same kind and id |
| Consumer.EventStore.UpsertActivityGroup | api/src/domain-events.ts:1076-1141 | the two writes on the tables, as far as they get, and the activity update type chosen before them |
| Consumer.EventStore.ProjectEvent | api/src/domain-events.ts:1143-1190 | the four writes in order, cut off after any of them; it finishes exactly when none is cut off |
| Consumer.EventStore.WriteState | api/src/domain-events.ts:1255-1287 | cursor written without looking at the runner, lease cleared on release |
| Consumer.EventStore.ProjectRows | api/src/domain-events.ts:1440-1508 | the row loop with its counters, failures, state writes and stops gives the run of the rows |
| Consumer.EventStore.ProjectBatch | api/src/domain-events.ts:1366-1525 | claim, rewind refusal, scan, loop and final write, under any failing call or death, as a function of the store |
| ConsumerLaws.LoopKeepsInvariant | api/src/domain-events.ts:1440-1508 | after every row: cursor and last position are contiguous, and the last position is the highest row reached while nothing has failed |
| ConsumerLaws.BatchKeepsContiguity | api/src/domain-events.ts:1366-1525 | any batch that skips nothing, however it ends, leaves every event at or below the cursor fully projected |
| ConsumerLaws.FinishedBatchContiguousExactlyWhen | api/src/domain-events.ts:1428-1438 | a finished batch keeps contiguity if and only if every event its start position skips was projected before |
| ConsumerRuns.FinishedBatchSafeExactlyWhen | api/src/domain-events.ts:1428-1438 | a finished batch keeps the cursor contiguous and within the log if and only if its start is within the log and skips nothing unprojected |
| ConsumerRuns.PastTheEndSkipsLater | api/src/domain-events.ts:1428-1438 | after any finished batch from beyond the log, every event published up to its start position breaks contiguity |
| ConsumerRuns.PublishKeepsExactlyWhen | api/src/domain-events.ts:860-930 | a publish, whose position may become visible late, keeps contiguity if and only if the position is above the cursor |
| ConsumerRuns.ActionKeeps | api/src/domain-events.ts:860-1525 | one publish above the cursor, inline projection or safe batch keeps the log valid, the links on logged events and the cursor contiguous |
| ConsumerRuns.CursorStaysContiguous | api/src/domain-events.ts:1366-1525 | in every run of publishes, inline projections and batches (rewinds, failures, deaths) whose publishes come in above the cursor and whose batches skip nothing, the cursor is contiguous |
| ConsumerRuns.InOrderIsOrderly | api/src/domain-events.ts:1366-1525 | when events become visible in position order and batches start within the log, every publish comes in above the cursor |
| ConsumerLaws.CursorNeverMovesBack | api/src/domain-events.ts:1398-1427 | without allow_rewind no batch moves the cursor back, whatever fails |
| ConsumerRuns.CursorClimbs | api/src/domain-events.ts:1366-1525 | the same over whole runs |
| ConsumerLaws.RefusedBatchChangesNothing | api/src/domain-events.ts:1386-1427 | a locked batch changes nothing; a forbidden rewind changes at most the lease |
| ConsumerLaws.BatchIsReplay | api/src/domain-events.ts:1366-1525 | the tables after a batch are the tables before with its attempts replayed in order |
| BatchRules.BatchRefusesExactly | api/src/domain-events.ts:1386-1427 | a batch is locked out if and only if another runner holds a lease that has not run out, and refused if and only if a position below the cursor is asked for without leave; either way, and when it fails before its rows, nothing but the lease changes |
| BatchRules.RowsExactly | api/src/domain-events.ts:1428-1438 | the rows are the events after the start in ascending order, and an event left out comes behind a full list |
| BatchRules.HasMoreExactly | api/src/domain-events.ts:1428-1439 | more is reported left if and only if an event after the start is no row |
| BatchRules.LeaseIsReturnedExactlyWhen | api/src/domain-events.ts:1440-1508 | a batch that scans gives its lease back if and only if it lives on and its last write succeeds |
| BatchRules.LimitExactly | api/src/domain-events.ts:266-268 | a hundred events by default, one at least and 250 at most |
| BatchRules.LeaseExactly | api/src/domain-events.ts:1214-1214 | two minutes by default, ten seconds at least and fifteen minutes at most |
| ConsumerRows.RowsExactly | api/src/domain-events.ts:1440-1508 | from the fates alone: which rows are attempted, the tables, the counts, the last position and the cursor, and how the loop ends, whatever fails |
| ConsumerRows.BatchExactly | api/src/domain-events.ts:1366-1525 | the same for a batch and its report |
| ConsumerRows.ContinuedBatchAttemptsAll | api/src/domain-events.ts:1440-1508 | asked to continue, a batch whose failures are recorded attempts every row; those that run to their end are complete, and the others or those with a failed write are the reported failures |
| ConsumerRows.BatchStopsAtFirstFailure | api/src/domain-events.ts:1490-1490 | not asked to, it replays the rows up to and with the first failure and attempts nothing after it |
| ConsumerRuns.TablesAreReplay | api/src/domain-events.ts:860-930 | in every reachable store the tables are a replay of the attempts made, each on a logged event |
| ConsumerRuns.ReachableGroupIsExact | api/src/domain-events.ts:1076-1190 | in every reachable store each group summarises its events and counts links plus cut-offs |
| ConsumerLaws.CleanBatchAdvances | api/src/domain-events.ts:1366-1525 | a batch without failures projects the next limit pending events and drops exactly those from the pending ones |
| ConsumerLaws.CleanRunsDrain | api/src/domain-events.ts:1366-1525 | after clean batches the pending events are the old ones without the first sum-of-limits |
| ConsumerLaws.CleanRunsEmptyTheLog | api/src/domain-events.ts:1366-1525 | as many clean batches as there are pending events leave none |
| Leases.ContiguousWithoutLeases | api/src/domain-events.ts:1207-1287 | with any interleaving of runners, expired leases included, every position at or below the cursor is projected |
| Leases.TimelyRunsNeverMoveBack | api/src/domain-events.ts:1255-1287 | if runs act only within their lease and the name of a live runner is not claimed again, one runner is active at a time and the cursor never moves back |
| Leases.LateWriteLowersExactlyWhen | api/src/domain-events.ts:1255-1287 | the state write is not fenced: for every job of every world that timely actions reach, its write moves the cursor back in some timely continuation without a publish if and only if the log has a position above the job's own, and then only after its lease is over |
| Leases.SharedNameLowersExactlyWhen | api/src/domain-events.ts:1232-1233 | the claim lets the owner in again: if the name of a live runner may be claimed twice, its write moves the cursor back within the lease in some continuation, under the same condition |
| Leases.PublishedLaterLowers | api/src/domain-events.ts:1255-1287 | after any later publish that condition holds, so some continuation lowers the cursor |
| GroupRaces.RaceIsInTurnExactlyWhen | api/src/domain-events.ts:1076-1141 | attempts on one group that read, write and link in any interleaving: the group counts every write, and is what the attempts leave one after another in the order of their writes, if and only if no attempt was overtaken between its read and its write |
| GroupRaces.InTurnIsReplay | api/src/domain-events.ts:1076-1141 | for different events not linked before, attempts one after another leave the group and the links of a replay |
| GroupRaces.AloneIsUpsert | api/src/domain-events.ts:1076-1141 | an attempt with nobody in between, linked or cut off before its link, is the upsert of the sequential model, an event counted before included |
| GroupRaces.OvertakenAttemptIsLost | api/src/domain-events.ts:1076-1124 | two attempts that both read first: the kind of the earlier writer is lost, and it is not counted |
| RuntimeTasks.AppendEachKeepsWindow | api/src/connector-runtime.ts:365-387 | single appends keep exactly the last 25 events of everything appended |
| RuntimeTasks.BatchMatchesSingles | api/src/connector-runtime.ts:389-415 | a batch gives the list of its single appends if and only if it is non-empty or nothing had to be cut; never more than 25 remain |
| RuntimeTasks.MarkerOutlives24Appends | api/src/connector-runtime.ts:729-736 | after a requeue the attempt reads as already counted through exactly 24 further appends |
| RuntimeTasks.RecoverFacts | api/src/connector-runtime.ts:554-692 | a reclaim or requeue happens only on a stale task, raises attempt_count by one, within max_attempts, and renews the heartbeat |
| RuntimeTasks.StepKeepsPace | api/src/connector-runtime.ts:542-692 | one heartbeat, clock tick, lock or stale decision keeps the recoveries paced and bounded, and never lowers the attempts |
| RuntimeTasks.RunKeepsPace | api/src/connector-runtime.ts:542-692 | in every run each recovery adds one attempt within the bound and comes at least stale_ms after the one before |
| RuntimeTasks.RecoveriesAreBounded | api/src/connector-runtime.ts:554-692 | a run recovers a task at most max_attempts - attempt_count times |
| RuntimeTasks.RunOnlyClimbs | api/src/index.ts:11591-11617 | in every run, locking included, the bound never changes, earlier recoveries stay in the record, and later ones start from at least the attempts already made |
| RuntimeTasks.SilentTaskFailsExactly | api/src/connector-runtime.ts:554-692 | a task whose worker always goes silent, decided upon at any times, under any mix of reclaims and requeues and any delay before it is locked again, has failed if and only if more decisions found it stale than it had attempts left |
| RuntimeTaskRules.DecisionExactly | api/src/connector-runtime.ts:554-692 | what a stale decision comes to: active, failed or recovered, with status, attempt, lock and the one diagnostic it records |
| RuntimeTaskRules.BoundExactly | api/src/connector-runtime.ts:554-692 | five attempts unless the row sets another number, and one at least |
| RuntimeTaskRules.BatchExactly | api/src/connector-runtime.ts:389-415 | a batch of diagnostics is one heartbeat, counts each of them, and keeps the last 25 |
| RuntimeTaskRules.StaleExactlyWhen | api/src/connector-runtime.ts:542-552 | a task is stale if and only if it runs and its latest sign of life is known and stale_ms old |
| RuntimeTaskRules.LockExactly | api/src/index.ts:11591-11617 | a lock counts one attempt unless a diagnostic in the window says the present one is counted |
| RuntimeTaskRules.LocksExactlyWaiting | api/src/index.ts:11591-11617 | of the steps of a run, taking the lock acts on a queued or retrying task and on no other |
| RuntimeTaskRules.RequeueAndLockCountOnceExactlyWhen | api/src/connector-runtime.ts:729-736 | a requeue and the lock after it count one attempt together if and only if at most 24 diagnostics came between |
| CodeUnits.EncodeInjective | api/src/connector-runtime.ts:276-289 | equal percent-encodings come from equal texts |
| CodeUnits.EncodeHasNoColon | api/src/connector-runtime.ts:276-289 | a percent-encoded part never holds a colon, so the colon separates parts unambiguously |
| CodeUnits.EncodesExactlyWellFormed | api/src/connector-runtime.ts:276-289 | encoding succeeds exactly on texts without a lone surrogate |
| UriReading.EncodedReads | api/src/connector-runtime.ts:288-288 | what is encoded is read back by percent signs, UTF-8 and UTF-16 as the text it was |
| UriReading.PlainStays | api/src/connector-runtime.ts:288-288 | the characters that stand for themselves are not escaped; no other unit but the percent sign is read |
| StableJson.PrintPrefix | api/src/connector-runtime.ts:1183-1191 | the printed text of a value, followed by any delimiter, determines the value up to key order: the printer is injective and prefix-free |
| StableJson.ClosedPrefix | api/src/connector-runtime.ts:1183-1191 | a quoted string can be read back, whatever follows it |
| TaskKey.SamePrints | api/src/connector-runtime.ts:1183-1191 | values equal up to key order print the same text |
| TaskKey.PrintIsCanonical | api/src/connector-runtime.ts:1183-1191 | two values print the same if and only if they are equal up to key order |
| TaskKey.PrintWellFormed | api/src/connector-runtime.ts:1183-1191 | the canonical text never holds a lone surrogate, so encoding the payload part cannot fail |
| JsonReading.CanonicalTextReads | api/src/connector-runtime.ts:1183-1191 | the canonical text, read by the grammar of JSON, is the value with nullish parts null and object keys in order |
| JsonReading.EscapesAreShortest | api/src/connector-runtime.ts:1183-1188 | no shorter JSON text is read as a unit than the one printed for it, lone surrogates aside, which are escaped |
| JsonReading.CanonIsSame | api/src/connector-runtime.ts:1183-1191 | that form is the same value up to nullish parts and key order |
| JsonReading.KeyOrderExactly | api/src/connector-runtime.ts:1187-1188 | keys are ordered by their first different code unit, a prefix first |
| TaskKey.JoinInjective | api/src/connector-runtime.ts:276-289 | the colon-joined encoded parts determine the parts |
| TaskKey.SameKeyExactlyWhen | api/src/connector-runtime.ts:276-289 | two plans share a key if and only if normalised type, phase, cursor and page agree and the payloads are equal up to key order |
| TaskKeyRules.KeysAgreeExactlyWhen | api/src/connector-runtime.ts:276-289 | the same told by the raw plans: what is left of each text between its white-space code units, pages with no number read as zero, payloads up to key order at every depth |
| TaskKeyRules.KeyIsMissingExactlyWhen | api/src/connector-runtime.ts:276-289 | there is no key if and only if what is left of type, phase or cursor holds half of a surrogate pair alone |
| TaskKeyRules.TrimExactly | api/src/connector-runtime.ts:276-289 | trimming leaves exactly the part between blanks that has none at its ends |
| TaskKey.KeyRefusedExactlyWhen | api/src/connector-runtime.ts:276-289 | computing a key throws exactly when type, phase or cursor holds a lone surrogate |
| Attribution.CalculateJourney | api/src/attribution.ts:601-616 | the loops over conversions and models build exactly the conversions and credits that the rows below are about |
| Attribution.WinnerIsExtreme | api/src/attribution.ts:509-575 | the winner is an eligible touchpoint, minimal (first touch) or maximal (last touch) by time and id; there is none exactly when none is eligible |
| Attribution.UnattributedExactlyWhen | api/src/attribution.ts:523-599 | a credit is unattributed exactly when no touchpoint is eligible, and names an eligible one otherwise |
| Attribution.AttributionIgnoresInputOrder | api/src/attribution.ts:568-616 | with distinct ids, permuting the events changes neither the conversions nor the credits |
| Attribution.ConversionsAreDistinct | api/src/attribution.ts:601-616 | the conversions are exactly the in-scope converting events, each once |
| Attribution.ExactlyOneCredit | api/src/attribution.ts:568-616 | exactly one credit for each conversion and requested model, none for any other pair |
| Attribution.JourneyHasOneCreditEach | api/src/attribution.ts:601-616 | for a whole journey, an event has one credit under a requested model exactly when it converts |
| AttributionRules.CreditsFollowRules | api/src/attribution.ts:507-616 | each credit is for a conversion of the journey; an attributed one names an event of the journey with another id, not later than the conversion and within the window the configuration sets for it, that bears an origin, and no such event is earlier (first touch) or later (last touch) |
| AttributionRules.EveryConversionIsCredited | api/src/attribution.ts:507-616 | conversely each conversion has a credit under each requested model, attributed if and only if such an event exists |
| AttributionRules.EligibleExactlyWhen | api/src/attribution.ts:507-527 | an event may be credited if and only if it meets these rules, window and origin written out |
| AttributionRules.ChannelExactlyWhen | api/src/attribution.ts:421-455 | the channel of an event, by the words in its type, source, medium and platform |
| Decimal.PrintThenParse | api/src/attribution.ts:477-493 | printing any integer of micros and parsing it returns it, negatives and stripped zeros included, exactly below the size at which the amount check overflows a double |
| Decimal.MicrosAreExact | api/src/journey-events.ts:269-275 | the parsed micros are the decimal's value, exactly |
| Decimal.ParseThenPrint | api/src/attribution.ts:477-493 | an accepted decimal, parsed and printed, keeps its value and has no trailing zero |
| DecimalRules.AmountExactly | api/src/journey-events.ts:269-275 | an amount is null if and only if it is blank; without commas it is read if and only if it is written as a sign or none, digits, and one to six more behind a point or none, and stays below the refused size |
| DecimalRules.SeparatorsExactly | api/src/journey-events.ts:269-275 | commas vanish and every other character stays |
| DecimalRules.OverflowExactly | api/src/journey-events.ts:269-275 | the refused size is half a step above the largest double: 54 binary ones, times two to the 970 |
| CreditStore.Repository.ReplaceCredits | supabase/migrations/019_attribution_engine_v1.sql:9-180 | refused exactly when the id is no uuid or the rows break a unique index, and then nothing changes; otherwise exactly the given rows stand under the id, every other id keeps its rows, and both counts are right |
| CreditStore.Repository.Persist | api/src/attribution.ts:652-705 | grouping by joined key, comparison, replacement, counters and published events, up to the first call that fails |
| CreditStoreLaws.ReplacedRows | supabase/migrations/019_attribution_engine_v1.sql:80-180 | a replacement leaves exactly the group's credits under its id and every other id untouched |
| CreditStoreLaws.PersistLeavesExactly | api/src/attribution.ts:652-705 | after a run that did not fail every id has its own credits (or the equivalent rows it had) and ids without credits keep theirs, when joined keys do not collide |
| CreditStoreLaws.PersistSettlesExactlyWhen | api/src/attribution.ts:652-705 | after a run that did not fail, persisting the same credits again replaces nothing, publishes nothing and reports all as current if and only if no joined key stands for two ids |
| CreditStoreLaws.PersistSucceedsExactlyWhen | api/src/attribution.ts:652-705 | a run fails if and only if the database refuses the credits of some id: an id that is no uuid, or rows that break a unique index |
| CreditStoreLaws.CountsAddUp | api/src/attribution.ts:652-705 | inserted plus current is the number of credits, one event is published for each inserted credit, force leaves none current |
| CreditRules.RunPublishesExactly | api/src/attribution.ts:652-705 | each id publishes its written credits once, in order, as changes if and only if the id had rows before, and nothing else |
| CreditRules.RunFailsExactlyWhen | api/src/attribution.ts:652-705 | with unambiguous credits a run fails if and only if a conversion id is no uuid in its text form, or credits of one id that must be written share a touchpoint |
| CreditRules.RowsAreConserved | api/src/attribution.ts:652-705 | rows after a run, failed or not: those before, less the replaced, with the inserted |
| CreditStoreLaws.JoinedKeyInjective | api/src/attribution.ts:652-705 | without a bar in conversion id and model version the joined key determines the group |
| CreditStoreLaws.BarFreeIsUnambiguous | api/src/attribution.ts:652-705 | so bar-free credits meet the hypothesis of the two theorems above |
| JourneyCredits.UuidsAreUnambiguous | api/src/attribution.ts:652-705 | conversion ids that are uuids keep the joined keys apart, so the hypothesis always holds for events of the database |
| CreditStoreLaws.EquivalentExactlyWhen | api/src/attribution.ts:646-650 | for distinct incoming credits the comparison, field by field, holds if and only if both sides are the same multiset of credits but for their calculation time |
| CreditKeys.JoinIsReadExactlyWhen | api/src/attribution.ts:618-644 | two or more parts are the only ones of their number with their bar-joined text if and only if no part holds a bar |
| CreditKeys.JoinedEquivalentExactlyWhen | api/src/attribution.ts:618-650 | for incoming credits without bars, the comparison of the joined texts is the comparison field by field |
| CreditKeys.BarInSourcePasses | api/src/attribution.ts:618-650 | a stored credit whose source and medium split one text at another bar passes for the one calculated |
| JourneyCredits.OneCreditPerId | api/src/attribution.ts:707-746 | under each id a recalculated journey has exactly one credit |
| JourneyCredits.JourneyCreditsDiffer | api/src/attribution.ts:646-650 | the credits of a journey differ in more than their calculation time, so the exact condition for equivalence applies to them |
| JourneyCredits.JourneySucceeds | api/src/attribution.ts:707-746 | persisting the credits of a journey never fails on the uuid column or a unique index |
| JourneyCredits.JourneyLeaves | api/src/attribution.ts:707-746 | afterwards each id of the journey has its one credit, or the equivalent row it had |
| JourneyCredits.RecalculationIsIdle | api/src/attribution.ts:707-746 | recalculating an unchanged journey at any later time writes nothing and finds every credit current |
| CommasDispute.RunNeverRegresses | api/src/commas-dispute-webhook.ts:96-114 | in any run, unknown statuses included, the rank of a known current status never falls and won or lost never changes |
| CommasDispute.ReplacesExactlyWhen | api/src/commas-dispute-webhook.ts:96-114 | by literal statuses: an event replaces the current one if and only if both have a time and comparable statuses and it is of a later stage, whatever its time, or of the same stage and later |
| CommasDispute.FirstIsKeptExactlyWhen | api/src/commas-dispute-webhook.ts:96-114 | the first event is kept if and only if it has a time |
| CommasDispute.DecisionExactlyWhen | api/src/commas-dispute-webhook.ts:96-114 | what each delivery is answered with |
| CommasDispute.ReviewNeverFallsBack | api/src/commas-dispute-webhook.ts:96-114 | no run from under_review or warning_under_review ends at either form of needs_response |
| CommasDispute.ClosedStaysClosed | api/src/commas-dispute-webhook.ts:96-114 | no run from won or lost changes the status |
| CommasDispute.ApplyTakesTheLater | api/src/commas-dispute-webhook.ts:96-114 | between two comparable events a step keeps the later one by rank and time |
| CommasDispute.DeliverEndsAtMaximum | api/src/commas-dispute-webhook.ts:96-114 | any order with any repetitions of comparable events ends at a maximum by rank and time |
| CommasDispute.IncomparableDiverges | api/src/commas-dispute-webhook.ts:96-114 | with a won and a lost event, or an unknown and a different status, the order of arrival decides |
| CommasDispute.TiedTopsDiverge | api/src/commas-dispute-webhook.ts:96-114 | so it does when two events share the highest rank and time but differ in state fields |
| CommasDispute.ConvergesExactlyWhen | api/src/commas-dispute-webhook.ts:96-114 | a set of timed events of one dispute converges under every order and repetition if and only if its events are comparable and its highest ones agree |
| Evidence.Aggregate | api/src/journey-attribution-evidence.ts:22-107 | the one capped pass returns what the reference states over the uncapped lists: rows in key order, first and latest values, counts, flags and truncation flags |
| EvidenceLaws.RowsAreInKeyOrder | api/src/journey-attribution-evidence.ts:86-87 | the identifier rows are exactly those of the retained keys, sorted by key |
| EvidenceRules.SummaryIsExact | api/src/journey-attribution-evidence.ts:22-107 | the summary told by the observations of the input in time order: every row's first and latest time, value and location, its count of values and events and whether its values differ; which keys have rows and in which order; clients, origins and the different origins; each of the six flags on its own condition; each truncation mark exactly when something read is not shown |
| Evidence.ObserveEvents | api/src/journey-attribution-evidence.ts:36-81 | the loop over the events is the fold of its event step |
| Evidence.ObservedAfterAll | api/src/journey-attribution-evidence.ts:36-81 | that fold holds the first 100 keys with exact states, all providers, and the first 20 origins |
| Evidence.AddItemKeeps | api/src/journey-attribution-evidence.ts:51-69 | one identifier observation keeps the capped map equal to the cap of the uncapped one, flags included |
| Evidence.AddCappedKeeps | api/src/journey-attribution-evidence.ts:66-67 | a capped set keeps the first distinct values, and is marked exactly when one was dropped |
| EvidenceLaws.RetainedExactlyWhen | api/src/journey-attribution-evidence.ts:57-60 | a key is retained if and only if fewer than 100 other keys were observed before its first observation |
| EvidenceLaws.ChangedMeansTwoValues | api/src/journey-attribution-evidence.ts:86 | value_changed holds exactly when two observations of the key differ in value, even beyond the cap of 20 |
| Evidence.FlagsAreFew | api/src/journey-attribution-evidence.ts:88-97 | at most six flags can be raised, so the flag cap never truncates |
| EvidenceLaws.StrictCountExactlyWhen | api/src/journey-attribution-evidence.ts:39-104 | the reported event count, which takes the schema version strictly, is at most the number of events the loop counts, which converts it; the two are equal if and only if every counted event has the very number one |
| EvidenceLaws.AggregateIgnoresInputOrder | api/src/journey-attribution-evidence.ts:23 | with distinct (time, id) pairs, permuting the input does not change the result |
| AlertLaws.RowsAreEpisodes | api/src/commerce-operational-alerts.ts:135-168 | from an empty table, after any evaluations and acknowledgements, the rows of a code are its maximal runs of active evaluations, in order: first and last time, severity, occurrence count = run length, resolved exactly when the run ended |
| AlertLaws.StepRestricts | api/src/commerce-operational-alerts.ts:135-168 | a step on one code acts on that code's rows alone |
| AlertLaws.AtMostOneLive | api/src/commerce-operational-alerts.ts:135-139 | no code ever has a second open or acknowledged row |
| AlertLaws.LiveExactlyWhen | api/src/commerce-operational-alerts.ts:141-168 | a code is live exactly when it was last evaluated active |
| AlertLaws.OccurrencesAddUp | api/src/commerce-operational-alerts.ts:148 | the occurrence counts of the rows of a code add up to its active evaluations |
| AlertStatus.AcknowledgedExactlyWhen | api/src/commerce-operational-alerts.ts:135-168 | after any steps the row of a live alert is acknowledged if and only if somebody acknowledged it since it was last opened |
| AlertRounds.Consecutive | api/src/commerce-operational-alerts.ts:66-70 | the number of leading runs that satisfy a test |
| AlertRounds.Evaluate | api/src/commerce-operational-alerts.ts:78-131 | the eight conditions of a snapshot, with their activity and severity |
| AlertRules.ConditionsExactly | api/src/commerce-operational-alerts.ts:66-131 | the eight conditions with their thresholds: the code of the latest failed run, the leading runs, ninety and a hundred and fifty minutes, two leases, eight requests |
| AlertRules.HealthStepsExactly | api/src/commerce-operational-alerts.ts:141-168 | a health round shows the table each condition with its severity at the time of the snapshot |
| AlertRules.ProductPairExactly | api/src/commerce-operational-alerts.ts:215-255 | an unmapped product has a warning, a conflicting one a critical alert, any other none |
| AlertRounds.AlertTable.Reconcile | api/src/commerce-operational-alerts.ts:145-157 | update the newest live row, insert one or resolve it |
| AlertRounds.AlertTable.ReconcileHealth | api/src/commerce-operational-alerts.ts:141-168 | the loop over the eight conditions runs their steps in order |
| AlertRounds.AlertTable.ReconcileProducts | api/src/commerce-operational-alerts.ts:228-255 | the loop over products looks at both alerts of each, the unmapped one first |
| AlertRounds.StatusRaisesOneAlert | api/src/commerce-operational-alerts.ts:78-131 | a failed status raises exactly one of failure and provider access, a degraded one exactly one of degradation and deep reconciliation; the codes are distinct |
| AlertRounds.RivalsAreNeverBothLive | api/src/commerce-operational-alerts.ts:228-255 | after any rounds, a product's unmapped and conflict alerts are never both live, nor the two pairs of health alerts |
| AlertRounds.HealthRoundSettles | api/src/commerce-operational-alerts.ts:141-168 | after a health round each alert is live exactly when its condition was active |
| AlertRounds.StoppedRoundExactlyWhen | api/src/commerce-operational-alerts.ts:228-255 | a round of products stopped after any number of writes leaves both alerts of a product live if and only if the stop falls between its two writes, it was found unmapped, and its conflict alert was live |
| AlertRounds.StoppedHealthRoundExactlyWhen | api/src/commerce-operational-alerts.ts:141-168 | a health round stopped after any number of writes leaves two rival alerts live if and only if the stop falls between their writes, the first condition was active, and the second alert was live |
| Backfill.SubrequestLimitCheckpoint | api/src/identity-backfill-runtime.ts:537-552 | processed prefix plus remainder is the whole batch; the prefix is complete and the remainder begins at the first incomplete id |
| Backfill.Execute | api/src/index.ts:10895-11417 | the record loop with its stops, and the retry, continuation and next-phase tasks it enqueues |
| Backfill.RunRecords | api/src/index.ts:10987-11250 | the record loop, stops included, gives the records' progress |
| Backfill.RecordsAccount | api/src/index.ts:10962-11250 | after any records each handled id is complete or to be retried, and a stop leaves the rest of the batch |
| BackfillRules.TaskExactly | api/src/index.ts:10987-11250 | from the reports alone: a task stops at the first record that meets the limit, or at the first after which records are left and eighteen seconds are over; a handled record is to be retried if and only if it failed for a while with attempts left |
| BackfillRules.CheckpointExactly | api/src/identity-backfill-runtime.ts:516-531 | when the clock stops a batch |
| BackfillLaws.SpawnShape | api/src/index.ts:11283-11410 | which tasks are enqueued, with which attempt and which duty to start the next phase |
| BackfillRules.CursorGoesOn | api/src/index.ts:11283-11410 | the discovery cursor goes to the continuation, else to the retry, else the next page is discovered, and never to two of them |
| BackfillLaws.TaskConserves | api/src/index.ts:10962-11410 | no id is dropped; and none is handed on twice if and only if the subrequest limit did not strike after a record had failed for a while |
| BackfillLaws.CutOffExactlyWhen | api/src/index.ts:11203-11283 | read off the reports: a task is cut off with records to be retried if and only if it has attempts left and the first record that stops it meets the limit after another had failed for a while |
| BackfillLaws.ContinuationShrinks | api/src/identity-backfill-runtime.ts:516-552 | a continuation is a non-empty suffix, strictly shorter exactly unless the limit struck with the first id incomplete |
| BackfillLaws.ChainKeepsOrder | api/src/identity-backfill-runtime.ts:516-552 | a chain of checkpoints without retries completes the batch in order: completed followed by pending is the batch |
| BackfillLaws.LimitEnqueuesItself | api/src/index.ts:11203-11214 | a limit at the only record enqueues the same ids again, attempt unchanged, deferral lost |
| BackfillRuns.StepConserves | api/src/index.ts:5580-5618 | one task of a job whose tasks are unique by dedupe key: no id is dropped from the completed, the pending and the missed ones together, none comes from elsewhere, and the counts stay exact if and only if the task was not so cut off |
| BackfillRuns.RunConserves | api/src/index.ts:10762-11417 | the same for every run of a job, pages discovered and tasks executed in any order and with any outcomes |
| BackfillRuns.OneFinalizeTask | api/src/index.ts:5580-5618 | in every run a job has at most one finalization task |
| BackfillRuns.DeferredBranchOnlyFinalizes | api/src/index.ts:11340-11360 | in every run a deferred batch carries no discovery cursor, so all its branch can start is the finalization |
| BackfillRuns.DutiesBalance | api/src/index.ts:11283-11410 | in every run the pending and the missed duties to start a phase and the calls for finalization are one more than the deferred batches that were stopped |
| BackfillRuns.FinalizeIsEarlyExactlyWhen | api/src/index.ts:11381-11410 | when the finalization is created, a discovery or a batch with a phase to start is still pending if and only if more deferred batches were stopped before than duties were missed; any work at all is pending if and only if that holds or a deferred batch waits |
| BackfillEnds.OverJobEndsExactlyWhen | api/src/index.ts:11586-11590 | a job that can execute nothing more is terminal if and only if a finalization was created; it is not, if and only if all its tasks are done and more duties were missed than deferred batches stopped |
| BackfillEnds.FinalizationLosesExactly | api/src/index.ts:11465-11590 | seen before the finalization is executed: whatever comes later, the discovered ids that are not complete are for good exactly those of the batches that wait or were missed, and work is left behind if and only if more deferred batches were stopped than duties were missed and calls repeated, or a deferred batch waits |
| BackfillEnds.AllCompleteExactlyWhen | api/src/index.ts:10762-11417 | in every run all discovered ids are complete if and only if every id that waits or was missed is complete elsewhere |
| BackfillEnds.CompleteOnceExactlyWhen | api/src/index.ts:10762-11417 | in every run without a cut-off after a failure the completed ids are the discovered ones, as often, if and only if no id waits or was missed |
| BackfillCases.EarlyFinalization | api/src/index.ts:11340-11410 | a job whose finalization is created by a stopped deferred batch while the next page is still to be discovered |
| BackfillCases.EarlyFinalizationLosesIds | api/src/index.ts:11465-11590 | one step more: the job is terminal, and whatever comes later an id and the next page are lost |
| BackfillCases.RepeatedIdWaits | api/src/index.ts:11203-11410 | after a cut-off a terminal job may leave a batch waiting though every id is complete |
| BackfillCases.StalledJob | api/src/index.ts:11340-11360 | a job that runs out of work without a finalization: a retry has the key of a pending deferred one, so it is not enqueued and its duty to finalize is lost |
| BackfillClean.CleanRunsMissNothing | api/src/index.ts:11283-11410 | when pages are new and no batch is cut off after a failure, no dedupe key clashes but that of the finalization |
| BackfillEnds.CleanJobCompletesExactlyWhen | api/src/index.ts:10762-11590 | such a job, when it can execute nothing more, is terminal; it has completed every discovered id, each once, if and only if no batch was left waiting, and has lost exactly the ids of the waiting ones; it has left no page either, if and only if the finalization was called for once and once more for every deferred batch stopped, and no deferred batch waits |
| BackfillEnds.CleanFinalizationLosesExactly | api/src/index.ts:11465-11590 | the same seen before the execution of the finalization, for every later choice |
| BackfillClean.CleanFinalizeIsEarlyExactlyWhen | api/src/index.ts:11340-11410 | in such a job the finalization comes before other phases if and only if a deferred batch was stopped |
| BackfillClean.RunsEnd | api/src/index.ts:11283-11410 | without subrequest limits a job executes at most discovered ids times attempts batches |
| DryRun.DryRunConserves | api/src/identity-backfill-runtime.ts:564-598 | after merging any summaries under dry run, real counters read 0 and each would_ total is the sum of the real and preview counts received |
| DryRun.RealRunAdds | api/src/identity-backfill-runtime.ts:625-644 | outside dry run, merging is addition |
| DryRun.RepairsAgree | api/src/connector-runtime.ts:1145-1177 | normalising twice is normalising once, and reading raw or normalised metadata gives the same metrics |
| DryRun.ReportsCommute | api/src/identity-backfill-runtime.ts:625-644 | the order in which tasks report does not matter |
| Reconciliation.GroupOrdersByReference | api/src/financial-reconciliation.ts:174-188 | the index answers each kind and value as a linear case-insensitive scan, in the scan's order |
| Reconciliation.UniqueOrdersAreUnique | api/src/financial-reconciliation.ts:190-192 | one kept order for each named identity, in order of first occurrence |
| Reconciliation.LastOfIsLast | api/src/financial-reconciliation.ts:190-192 | the kept order is the last record of its identity |
| Reconciliation.SuggestionForEvent | api/src/financial-reconciliation.ts:194-258 | the suggestion comes from the first of seven references that finds an order |
| Reconciliation.SuggestionMeans | api/src/financial-reconciliation.ts:194-258 | none exactly when no reference finds an order; a conflict exactly when two identities match at the first that does; a candidate is the last record of the one identity there |
| ReconciliationRules.SuggestionExactly | api/src/financial-reconciliation.ts:194-258 | by literal turns of the seven references: a candidate if and only if one identity bears the first reference that any order bears, with its confidence; a conflict if and only if two do |
| ReconciliationRules.IdentityExactly | api/src/financial-reconciliation.ts:170-172 | the identity of an order is the first of its ids that is set |
| Reconciliation.SilentExactlyWhen | api/src/financial-reconciliation.ts:216-219 | a reference is passed over exactly when the scan finds nothing |
| Reconciliation.ReconcileRow | api/src/financial-reconciliation.ts:263-270 | decision, link and suggestion give the state; ambiguous exactly without an overriding decision or link and with two identities |
| ReconciliationRules.StateExactly | api/src/financial-reconciliation.ts:263-270 | each of the six states, by decision, link and suggestion |
| Reconciliation.ManualTargetIsFound | api/src/financial-reconciliation.ts:415-423 | a manual target is found by one of the decision's two ids, by the platform id if that finds any; none exactly when neither does |
| Cron.Scheduler.RunCommerceCron | api/src/continuous-commerce-cloudflare.ts:76-122 | the run over the eligible jobs, its counters and everything it asked, reserved and sent, under any answers and failures |
| Cron.Scheduler.LookAt | api/src/continuous-commerce-cloudflare.ts:85-119 | what one job comes to |
| CronRules.LookExactly | api/src/continuous-commerce-cloudflare.ts:85-119 | a job's message is sent if and only if the answers allow it: permitted and no bootstrap; a fresh and ample reading, or a stale or unknown one refreshed to an ample one and still enabled and permitted; the deep contract; both further permissions; no run recorded; the last permission; the send |
| CronRules.CronRunSendsExactlyWhen | api/src/continuous-commerce-cloudflare.ts:76-122 | a run sends a job if and only if a due schedule offers it, no job before it aborts the run, and its answers allow it |
| CronRules.ScheduleOffersExactly | api/src/index.ts:1052-1084 | which jobs a schedule offers, by its flags, cadence, times and limit |
| CronTally.ReservationExactly | api/src/continuous-commerce-cloudflare.ts:108-112 | a look reserves if and only if the answers bring it there, once, and is granted if and only if no recorded run blocks the identity |
| CronTally.CountsExactly | api/src/continuous-commerce-cloudflare.ts:84-121 | eligible counts the jobs the run arrives at, enqueued those sent and marked, duplicates those a recorded run blocks |
| CronTally.JobsInOrder | api/src/index.ts:1052-1084 | the schedules offer their jobs one after another, each its own or none |
| CronLaws.DecisionSuffices | api/src/continuous-commerce-cloudflare.ts:74 | for an ordinary job the decision allows exactly the readings that leave budget above floor and are not stale |
| Schedules.EligibleJobs | api/src/index.ts:1052-1084 | the jobs of the schedules that are due, in order; the read fails as a whole if and only if some due deep run has a request limit out of bounds |
| ScheduleLaws.HistoryIsSound | api/src/continuous-commerce-cloudflare.ts:76-122 | in every history each message is for a non-bootstrap job, its last quota reading suffices, and the two events before it are its granted reservation and a granted permission; no identity is sent more often than it was reserved |
| CronLaws.CountsAddUp | api/src/continuous-commerce-cloudflare.ts:84-121 | enqueued plus duplicates never exceeds eligible; a completed run enqueued exactly the messages sent, an aborted one sent at most one more |
| ScheduleLaws.OneGrantOneMessage | api/src/continuous-commerce-cloudflare.ts:112-119 | if an identity is reserved at most once, it is sent at most once over all runs |
| ScheduleLaws.RecordedRunStopsSending | api/src/index.ts:1258-1276 | once a run is recorded for an identity (and a deep one not paused), no history sends it again, however the schedules change |
| ScheduleLaws.NeverAgainExactlyWhen | api/src/index.ts:1052-1084 | no history of runs, records and schedule changes sends an identity from now on if and only if a run is recorded for it, or its cadence window is over or already has an enqueue time in it, or the version of its deep run is gone or cannot come due |
| ScheduleLaws.WindowSentOnceExactlyWhen | api/src/index.ts:1139-1145 | after the message of a cadence window: no history sends it again if and only if the same run marked its schedule as enqueued |
| ScheduleLaws.DeepMayBeSentAgain | api/src/index.ts:1064-1079 | after the message of a deep run, marked or not, some history sends the same identity again |
| ScheduleLaws.MarkedWindowsAreSentOnce | api/src/index.ts:1139-1145 | over all runs a window is sent at most once if each run that sends it marks its schedule |
| Customer360.DedupeOrders | api/src/explanations.ts:104-111 | the first order of each key, and the kept keys are the different keys in order |
| CustomerRules.KeptExactly | api/src/explanations.ts:104-111 | an order is kept if and only if no earlier one has its key |
| Customer360.KindsPartition | api/src/explanations.ts:386-392 | sold, refunded, charged-back and remaining amounts are disjoint and make up every amount |
| Customer360.ValueByMonth | api/src/explanations.ts:612-624 | the month map holds each month's revenue and refunds |
| CustomerRules.MonthExactly | api/src/explanations.ts:81-95 | a month is there if and only if an order falls in it, with the sum of the positive amounts that no word cancels, refunds or charges back, and of the amounts refunded by word or sign |
| Customer360.MonthsAddUp | api/src/explanations.ts:612-624 | the revenues (refunds) of the returned months plus those of undated orders add up to the customer's revenue (refunds) |
| Customer360.Channels | api/src/explanations.ts:487-534 | each listed channel holds the sum of its credits; a channel with orders only holds 0 |
| CustomerRules.ChannelExactly | api/src/explanations.ts:487-534 | a channel is there if and only if a credit or an order names it, and holds the amounts of its credits |
| Customer360.ChannelsAddUp | api/src/explanations.ts:487-534 | the values of the returned channel map add up to all credits, and to the attributed revenue of the summary if and only if unattributed credits come to nothing |

## Left out

- One workspace and one consumer name; the failure and poison table beyond its effect, that a failed event does not advance the cursor.
- Titles, narratives, summaries, status and deep links of groups and alerts, and the payloads of update rows; `update_position` of update rows.
- The activity group id is a field of the event; deriving it from correlation and subject is not modelled.
- ConsumerRuns.ReachableGroupIsExact: attempts follow one another, an inline projection at publish time being one attempt; attempts side by side on one group are in `GroupRaces`, and `Leases` interleaves whole rows only.
- Scheduled replay over several workspaces (`runScheduledDomainEventProjectionReplay`): a budget shared by batches, which would add a sum.
- Leases.TimelyRunsNeverMoveBack: assumes that a run acts only within its lease and that the name of a live runner is not claimed again; without either the statement is false, and when it is false is in the two exact conditions beside it.
- ConsumerRuns.CursorStaysContiguous: excludes publishes at or below the cursor and starts that skip an event not completed, because they break it; both conditions are exact for one step.
- Leases.ContiguousWithoutLeases: start positions and the writes inside a row are not part of it.
- The retry loop for queue sends, and failure classification of connector tasks.
- JSON numbers are their canonical decimal texts; functions and symbols as payload values, and non-integer pages.
- Attribution lower-cases and trims sources, media and platforms before the model begins; amounts in `Attribution` are parsed micros; credit metadata is not modelled.
- CreditStoreLaws.PersistSettlesExactlyWhen: assumes that the store returns credits verbatim; numeric column formatting is not modelled, and a credit key is the credit without its calculation time. Credits are compared field by field; how that agrees with the joined texts of the source is in `CreditKeys`, where times, amounts and metadata are written by abstract functions. A uuid is its canonical text; other spellings that the database accepts are not modelled, nor are failures of the connection.
- Signature checking and parsing of dispute webhooks; statuses named like members of Object.prototype.
- Evidence.Aggregate: does not model parsing of origins and times; flags are a set instead of a sorted list, and keys joined by NUL are tuples.
- Alert contexts, delivery state and work items raised from alerts; alerts of the scheduler signals; alert codes are constructors instead of joined texts; the operator test on failure codes is a parameter.
- Concurrent alert evaluations, which the table's unique index would fail rather than duplicate.
- Backfill.Execute: models queue-driven tasks, not the inline record limit; a blocking error, which fails the whole task, is left out.
- BackfillRuns.RunConserves: dedupe keys are constructors instead of joined texts, and the position of a task stands for its id; a task is executed once and as one step, so tasks of a job do not overlap (one that runs on beside the finalization would write its older status over the terminal one), and an executed discovery enqueues what it found. Whether an insert of a known key sends another queue message is left out.
- The operator's actions on a job: pausing, cancelling, and resuming or running the finalization again, which can bring a stalled or ended job back and create its finalization.
- Resolving one record (evidence, matching, attaching) is one of three outcomes.
- Non-finite metric values, which read as 0.
- Reconciliation beyond suggestions and states: totals, double debits, duplicates and chains; texts are trimmed before the model begins.
- The order looked up again from a suggestion's label, and its attribution.
- ScheduleLaws.NeverAgainExactlyWhen: a schedule keeps its cadence, because windows of another cadence bear other numbers; identities are constructors instead of joined texts. Removing recorded runs is left out.
- Queue consumption and message validation of the scheduler, the organization in reservations, metrics, and the bootstrap branch after reservation, which no job reaches.
- Customer360.MonthsAddUp: covers orders; the credit and commission sums by month follow the same lemma and are not spelled out.
- First and last touches, campaigns and evidence ids of channels; the per-order net; money formatting.
- Cryptography, redaction, HTTP routes, health and home pages, browser code and configuration.

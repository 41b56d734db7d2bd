# EazePay Intelligence: a verified model of the backend's stateful cores

The backend is mostly I/O around a few cores that have to be right: a scheduler
that searches the calendar, revenue windows on the same calendar, a
transactional outbox, rotating refresh tokens, idempotent ingestion, alerting
and polling workers, an FX service with a cache, keyset paging, a CSV writer and
a margin calculator. This project models each of them in Dafny and proves what
their documentation and design promise; where a promise does not hold of the
code, it proves exactly when it does.

`dafny verify dfyconfig.toml` checks everything. Nothing here runs the backend.

How the source appears in the model:

- Objects and handlers that update rows are classes over `map` and `seq` fields;
  loops stay loops. Each method is proved against a specification function of
  the old state, and lemmas prove the properties of those functions.
- Protocols with real interleaving (outbox, ingestion, the worker pools,
  re-encryption) are also state machines whose steps are single database or
  queue operations. A dispatch that a rollback cannot take back is a log outside
  the transaction's rows.
- Refresh tokens and alerts are not locked by the code between their reads and
  writes, so one service call, or one rule's evaluation by one worker, is a step.
- Query results that depend on the database's choice (which rows `SKIP LOCKED`
  returns, which rows a limited query picks, which of several active alerts is
  found) are parameters constrained by what the query asks for.
- Clocks, random identifiers, adapter answers, evaluator results and failures
  are parameters; ciphers are any pair of functions of which decryption undoes
  encryption and the version byte tells them apart.

| file | what it models |
|---|---|
| `Calendar.dfy` | the proleptic Gregorian calendar of section 21.4.1 of ECMA-262, shared by the next two |
| `Cron.dfy` | the scheduled-report worker: next firing, catch-up, sweep |
| `Rollup.dfy` | the aggregation worker: windows, sums, upsert |
| `Outbox.dfy`, `OutboxProtocol.dfy` | outbox rows and sweeps; every interleaving of sweepers, operators and retention |
| `OutboxAttempts.dfy`, `OutboxOrder.dfy` | what the columns of an outbox row come to mean over a run; the order of deliveries |
| `RefreshTokens.dfy` | token families: issue, rotate, reuse, revoke, purge, list |
| `Alerts.dfy` | alert rules firing and resolving, with operator actions |
| `Ingestion.dfy` | create-or-find ingestion under concurrency; the bulk loop |
| `WorkPool.dfy` | workers draining one queue |
| `OldestFirst.dfy` | the workers' limited, oldest-first query: its answers and whom they hold |
| `LenderPolling.dfy`, `LenderBacklog.dfy` | submissions, polls, their event log, and the batches; which decisions are ever polled |
| `PiiReencryption.dfy`, `PiiBacklog.dfy` | the version 1 to version 2 envelope migration; what it reaches and when it ends |
| `Paging.dfy`, `Keyset.dfy`, `Archive.dfy` | what a cursor leaves of a descending list; the paged lists; the offboarding archive's page loop |
| `Fx.dfy`, `FxCache.dfy` | rates, conversions and upserts; the day-keyed cache over time |
| `Csv.dfy` | the export's CSV writer against a reader; the customer list |
| `Pixie.dfy` | the sliding-scale margin with decimal rounding and printing |
| `Wrappers.dfy` | optional and result types |

What the proofs found of the code, each with its exact condition:

- `Date.UTC` reads the years 0..99 as 1900..1999, so the scheduler and the
  monthly and yearly windows are wrong exactly for those years, and so is the
  yearly window of the year -1, whose end is the start of the year 0
  (`Cron.SearchFindsNextFiring`, `Rollup.WindowsTile`).
- The outbox worker's header promises order within a kind. A sweep whose dispatch
  fails delivers younger rows of the kind before the retry; a row committed or
  replayed after a younger one was delivered comes late; two sweepers race. With
  one sweeper nothing else breaks the order (`OutboxOrder.WhenAnOperationKeepsOrder`,
  `OutboxOrder.WhenARunKeepsOrder`, `OutboxOrder.SmoothRunsAreInOrder`;
  `OutboxOrder.RetriesOvertake` and `OutboxOrder.SweepersRace` are instances).
- The comment above the catch-up loop says that advancing from the scheduled
  time keeps a recovering worker from losing runs. A sweep adds one run and
  moves the report past `now`, so it loses every slot in between: none exactly
  when the first advance is already after `now` (`Cron.WhenNoSlotIsLost`,
  `Cron.StepSlotsLost`, `Cron.OneRunPerServedReport`; `Cron.DowntimeLosesSlots`
  is an instance). The model follows the code.
- The CSV writer writes an empty line for an empty table and leaves the header
  unescaped, so the file is not read back for no rows, or for a column name with
  a comma, quote or line feed (`Csv.RoundTrip`). Every caller's column names are
  plain literal keys, so only the empty table occurs.
- Pages lose rows when a page ends between two rows that share a key, or whose
  timestamps share the millisecond to which the cursor cuts them
  (`Keyset.PagesConcatenate`, `Keyset.WhenEveryPageSizeIsComplete`): the columns
  hold microseconds, and the ledger and its archive page by an idempotency key
  that is unique only per source (`Archive.ArchiveIsTheTable`,
  `Archive.SharedKeysCanBeLost`).
- The rollup windows end on whole milliseconds, so entries inside a window's last
  millisecond are in no window of that period (`Rollup.WhenAnInstantIsCovered`,
  `Rollup.DaysOfMonthAddUp`, `Rollup.LateEntriesAreMissed`). Every writer of the
  column passes a JavaScript Date (for instance
  `apps/api/src/domains/integration/highsale-business/highsale-business.service.ts:191`),
  so no entry of the backend's own lies there, and for such a ledger the periods
  agree (`Rollup.WholeMillisAddUp`).
- A row that could be re-encrypted never is if a batch's worth of rows that can
  never be are older than it (`PiiBacklog.NeverReached`), and, with distinct
  creation times, otherwise is in time (`PiiBacklog.WhenARowIsReached`); the
  backlog then drains exactly when fewer than that are older than its youngest
  good row (`PiiBacklog.WhenTheBacklogDrains`). Rows whose envelopes were zeroed
  by a scrub under the right to be forgotten are such rows
  (`apps/api/src/domains/rtbf/rtbf.service.ts:113-145`,
  `PiiBacklog.AScrubbedRowBlocks`).
- The comment in the lender poller says that stable declined decisions fall out
  of the next batch. They stay candidates, and a batch's worth of them keeps every
  younger decision from ever being polled (`LenderBacklog.WhenPolledRowsDropOut`,
  `LenderBacklog.NeverPolled`; exactly when, for lenders that settle a decision
  when asked or never, is `LenderBacklog.WhenADecisionIsPolled`, and
  `LenderBacklog.ADeclineBlocks` is an instance). The model follows the code.
- The SUBMIT_FAILED event of a refused submission is rolled back with the
  transaction that the error leaves (`LenderPolling.OnlyPollFailuresAreRecorded`,
  `LenderPolling.RefusalsLeaveNoTrace`).
- A report whose event cannot be composed after the row is updated commits the
  row with a failure event, and the log no longer accounts for the row exactly
  when the report changed it (`LenderPolling.StepKeeps`).
- The bulk route's comment says that each event carries an id of its own. No
  schema of its targets has one of the seven
  (`apps/api/src/domains/webhooks/webhook.schemas.ts:17-46`), so every row is
  keyed by the batch key and its position (`Ingestion.KeysOfRowsWithoutIds`,
  `Ingestion.RowsWithoutIdsAreAllStored`).
- A row whose processor failed is answered as a replay on every retry and never
  processed again (`Ingestion.FailedRowsAreNotRetried`).
- Acknowledging or snoozing a resolved alert reopens it, which can give a rule
  two active alerts (`Alerts.WhenAnOperatorMayReopen`,
  `Alerts.AcknowledgingCanReopen`).
- The three stored revenue breakdowns add up to the stored total exactly when the
  amounts of the other streams cancel out (`Rollup.TotalsAreTheLedgers`,
  `Rollup.OtherStreamsAreMissed`).
- Published cost and margin can miss the published charge by a unit, for a charge
  of whole ten-thousandths exactly when the cost is halfway between two of them
  and not above the charge (`Pixie.WholeChargesAddUp`, `Pixie.HalfwayCostsMiss`; in
  general `Pixie.WhenPublishedPartsAddUp`).

## Model

| member | source | states |
|---|---|---|
| `Calendar.NextDateIsNextDay` | apps/api/src/workers/scheduled-report.worker.ts:74-75 | `setUTCDate(getUTCDate() + 1)` always lands on the next day at the same time of day: over month ends, leap days and year ends, before and after 1970 |
| `Calendar.CivilIsUnique` | apps/api/src/workers/scheduled-report.worker.ts:82-92 | the calendar date read off an instant is the only valid date with that day number (the bijection behind every comparison with a date, month or year) |
| `Calendar.DateRecurs` | apps/api/src/workers/scheduled-report.worker.ts:85-92 | from any day, each date 1..31 recurs within 60 days, through two short months in a row included: the day-of-month loop terminates |
| `Calendar.YearLengths` | apps/api/src/workers/aggregation.worker.ts:165-173 | 1 January of the next year is 366 days on if the year is divisible by 4, and by 400 where it is by 100, and 365 otherwise |
| `Calendar.MonthTable` | apps/api/src/workers/aggregation.worker.ts:165-173 | the MonthFromTime table of section 21.4.1 of ECMA-262 with its numbers: months begin after 0, 31, 59, 90, ... 334 days, one more from March on in a leap year |
| `Calendar.CivilByTheTable` | apps/api/src/workers/scheduled-report.worker.ts:82-92 | for any day, the month and the day of the month that the Date methods read are those of the table, number by number |
| `Calendar.Epoch` | apps/api/src/workers/scheduled-report.worker.ts:82-84 | day 0, and no other, is 1 January 1970, and it was a Thursday |
| `Calendar.WeekDaysTakeTurns` | apps/api/src/workers/scheduled-report.worker.ts:82-84 | and from one day to the next the weekday moves on by one, Saturday to Sunday |
| `Cron.NextFiringWithin61Days` | apps/api/src/workers/scheduled-report.worker.ts:71-94 | every daily, weekly or monthly schedule fires within 61 days of any instant |
| `Cron.SearchFindsNextFiring` | apps/api/src/workers/scheduled-report.worker.ts:71-94 | where the loops stop is the earliest matching instant after `from` if and only if the year of `from` is not 0..99, the years Date.UTC remaps; then within 61 days |
| `Cron.AdvanceCron` | apps/api/src/workers/scheduled-report.worker.ts:46-95 | for every expression: the first failing check's error, or an instant that matches and is the next firing exactly when the year of `from` is not remapped; the two date loops terminate |
| `Cron.WhenRefused` | apps/api/src/workers/scheduled-report.worker.ts:46-89 | exactly which expressions are refused, and by which complaint, with the bounds of every part |
| `Cron.WhatExpressionsMean` | apps/api/src/workers/scheduled-report.worker.ts:50-93 | what the others mean on the clock: a step of n minutes, at least one; or hour and minute in milliseconds, a weekday counted from Sunday (day 3 was one), a day of the month beside no weekday |
| `Cron.FirstOfDecember` | apps/api/src/workers/scheduled-report.worker.ts:85-92 | an instance: "0 0 1 * *" from 15 November 2024 fires on 1 December, sixteen days on |
| `Cron.SeekDate` | apps/api/src/workers/scheduled-report.worker.ts:85-92 | the date left by the day-of-month loop is the first matching day from where it began, same time of day |
| `Cron.SeekFuture` | apps/api/src/workers/scheduled-report.worker.ts:71-76 | the first loop ends on the first instant after `from` with the schedule's time of day, or centuries ahead for a two-digit year |
| `Cron.CatchUp` | apps/api/src/workers/scheduled-report.worker.ts:143-146 | the catch-up loop terminates; on the clock it ends where one search from `now` ends, on a step of n minutes at the first point of the orbit of the old due time after `now` |
| `Cron.CatchUpIsOneSearch` | apps/api/src/workers/scheduled-report.worker.ts:138-146 | for clock schedules, looping from any overdue time from the year 100 on ends where one search from `now` ends |
| `Cron.WhenNoSlotIsLost` | apps/api/src/workers/scheduled-report.worker.ts:138-146 | of the slots that fell due after the served one while the worker was down, none is lost if and only if the first advance is already after `now`, that is if the while guard fails at once; for a clock schedule due in the years 0..99, 61 days of downtime lose one regardless |
| `Cron.StepSlotsLost` | apps/api/src/workers/scheduled-report.worker.ts:143-146 | a schedule of every n minutes loses exactly (now - prev) / n-minutes slots, rounded down |
| `Cron.CatchUpSkipsTheLost` | apps/api/src/workers/scheduled-report.worker.ts:143-146 | and its next due time is the one after the last lost slot |
| `Cron.DowntimeLosesSlots` | apps/api/src/workers/scheduled-report.worker.ts:138-146 | an instance: n days down lose a daily midnight report exactly the n midnights since |
| `Cron.OneRunPerServedReport` | apps/api/src/workers/scheduled-report.worker.ts:118-151 | a sweep adds exactly one run for a served report however many slots the downtime held, and leaves it not due; so it loses none exactly under that condition |
| `Cron.StillDueAfterSweep` | apps/api/src/workers/scheduled-report.worker.ts:100-107 | after a sweep exactly the due reports that it did not serve are still due at the same instant |
| `Cron.DueBatchExists` | apps/api/src/workers/scheduled-report.worker.ts:100-107 | the sweep's query has an answer for every table and batch size |
| `Cron.WhomASweepTakes` | apps/api/src/workers/scheduled-report.worker.ts:100-107 | only active reports whose time has come, this very millisecond included, and each of those that has fewer others than a batch not later than it |
| `Cron.WhatASweepLeaves` | apps/api/src/workers/scheduled-report.worker.ts:109-164 | of any report: served, it ran now, is next due after now, and has one more export and one more run; otherwise nothing of it changes |
| `Cron.CatchUpKeepsPhase` | apps/api/src/workers/scheduled-report.worker.ts:138-146 | for step schedules the loop keeps the phase and is at most one step late; it equals one search from `now` if and only if the downtime is a whole number of steps |
| `Cron.ReportStore.ProcessOnce` | apps/api/src/workers/scheduled-report.worker.ts:97-166 | one sweep: each due row is moved past `now` with one export and one run, or, if its expression or its transaction fails, left as it was; all others untouched; every due row counted |
| `Rollup.WindowsTile` | apps/api/src/workers/aggregation.worker.ts:159-176 | a window holds exactly the instants of its anchor's day, month or year if and only if no year that Date.UTC remaps is involved (0..99, and -1 for YEARLY) |
| `Rollup.EachInstantHasOneWindow` | apps/api/src/workers/aggregation.worker.ts:159-176 | every millisecond from the year 100 on lies in its own window and in no other of the period, and the next window starts one millisecond after it ends |
| `Rollup.WindowsByTheTable` | apps/api/src/workers/aggregation.worker.ts:159-176 | from the year 100 on a YEARLY window is its 365 or 366 days and a MONTHLY one the days that the table gives the month, by number |
| `Rollup.MonthLengths` | apps/api/src/workers/aggregation.worker.ts:165-168 | so the MONTHLY window of each month has 28 or 29, 30 or 31 days |
| `Rollup.DailyWindow` | apps/api/src/workers/aggregation.worker.ts:162-164 | a DAILY window is the 86,400,000 milliseconds from the midnight before the instant, in any year |
| `Rollup.WhenAnInstantIsCovered` | apps/api/src/workers/aggregation.worker.ts:49 | an instant of the microsecond column lies in the window of its millisecond if and only if it is not inside that window's last millisecond, and never in another window |
| `Rollup.DaysOfMonthAddUp` | apps/api/src/workers/aggregation.worker.ts:48-63 | the DAILY sums of a month and the entries inside the last millisecond of its days but the last add up to its MONTHLY sum, for the total and each stream; so the DAILY sums alone do if and only if those entries amount to nothing |
| `Rollup.MonthsOfYearAddUp` | apps/api/src/workers/aggregation.worker.ts:48-63 | likewise the MONTHLY sums and the YEARLY sum, with the entries inside the last millisecond of the months but December |
| `Rollup.DaysOfYearAddUp` | apps/api/src/workers/aggregation.worker.ts:48-63 | likewise the DAILY sums of a year and its YEARLY sum |
| `Rollup.WholeMillisAddUp` | apps/api/src/workers/aggregation.worker.ts:48-63 | for a ledger of whole milliseconds, as JavaScript dates are, nothing is left over: DAILY sums add up to MONTHLY and YEARLY ones, and MONTHLY to YEARLY, in every month and year from 100 on |
| `Rollup.LateEntriesAreMissed` | apps/api/src/workers/aggregation.worker.ts:48-63 | in every such month one entry a microsecond into the last millisecond of its first day makes the DAILY sums differ from the MONTHLY one |
| `Rollup.TotalsAreTheLedgers` | apps/api/src/workers/aggregation.worker.ts:48-63 | the four sums are those over the window's entries, all of them or of one stream; the total is the three breakdowns plus exactly the amounts of the other streams |
| `Rollup.OtherStreamsAreMissed` | apps/api/src/workers/aggregation.worker.ts:48-63 | a failing instance: one entry of another stream, and the breakdowns do not account for the total |
| `Rollup.AggregationStore.Run` | apps/api/src/workers/aggregation.worker.ts:95-131 | the upsert on (periodStart, period): a new row gets the window and the sums, an old one only the sums |
| `Rollup.WhatAJobStores` | apps/api/src/workers/aggregation.worker.ts:95-131 | whatever was stored, a job sets the sums of its window, the end only of a row that is new, and no other row |
| `Rollup.JobsRefreshOneWindow` | apps/api/src/workers/aggregation.worker.ts:95-131 | a job replaces the one row of its window by that window's sums, and repeating it from any instant of the window changes nothing |
| `Outbox.OutboxTable.ProcessOnce` | apps/api/src/workers/outbox.worker.ts:67-137 | one sweep as one transaction: on commit every claimed row holds the result of its attempt, on abort the rows stay while the dispatches made have happened |
| `Outbox.WritesAt` | apps/api/src/workers/outbox.worker.ts:91-134 | each claimed row is written once, from the row as claimed and the outcome of its own dispatch |
| `Outbox.OutboxTable.Replay` | apps/api/src/domains/platform/platform.routes.ts:875-897 | replay resets a quarantined row and refuses every other |
| `OutboxProtocol.StepKeeps` | apps/api/src/workers/outbox.worker.ts:67-137 | every step of sweepers, aborts, operators and retention keeps the invariant on rows, open sweeps, locks and dispatches |
| `OutboxProtocol.NoEventIsLost` | apps/api/src/workers/outbox.worker.ts:67-137 | over every interleaving each appended row is pending with attempts left, quarantined with exactly the maximum, published after an accepted dispatch, or pruned after one; open sweeps hold disjoint rows |
| `OutboxProtocol.PublishedIsForEver` | apps/api/src/workers/retention.worker.ts:43-60 | a published row stays published, with its timestamp, until retention deletes it, and stays deleted |
| `OutboxProtocol.QuarantineWaitsForAnOperator` | apps/api/src/workers/outbox.worker.ts:79-87 | no step but an operator's replay of it changes a quarantined row |
| `OutboxAttempts.AttemptsAreFailures` | apps/api/src/workers/outbox.worker.ts:91-134 | over every run of any interleaving the attempts of a row are the failures committed for it since it was appended or last replayed, counted off the steps; unpublished, it is quarantined if and only if those are the maximum |
| `OutboxAttempts.FailuresSpendOne` | apps/api/src/workers/outbox.worker.ts:100-134 | a committed failure spends exactly one of the attempts left, of which a new row has the maximum |
| `OutboxAttempts.CommitTells` | apps/api/src/workers/outbox.worker.ts:91-134 | what a commit writes of each of its rows, column by column: the instant of publication, or one more attempt, the first 1000 characters of the error, and the quarantine stamp exactly at the last attempt |
| `OutboxAttempts.StartsAfresh` | apps/api/src/domains/platform/platform.routes.ts:875-897 | an appended or replayed row has no attempts, no error and no quarantine stamp; a replay keeps its time of creation |
| `OutboxAttempts.ReplaysReturnARow` | apps/api/src/domains/platform/platform.routes.ts:875-897 | an operator can replay exactly the rows with a quarantine stamp, and in any state the replay puts a quarantined row back among the pending ones |
| `OutboxAttempts.OthersLeaveAlone` | apps/api/src/workers/outbox.worker.ts:67-137 | no other step of anybody changes a stored row |
| `OutboxAttempts.WhatRetentionDeletes` | apps/api/src/workers/retention.worker.ts:43-60 | retention deletes only rows published before the cutoff and not quarantined, at most a batch of them, and exactly those it picked |
| `OutboxAttempts.WhatRetentionMayDelete` | apps/api/src/workers/retention.worker.ts:43-60 | and it may delete any stored row that is such, and no other |
| `OutboxProtocol.SweepSpends` | apps/api/src/workers/outbox.worker.ts:91-134 | a committed sweep lowers the attempts left, summed over pending rows, by at least the number of rows claimed |
| `OutboxProtocol.RetriesAreBounded` | apps/api/src/workers/outbox.worker.ts:79-136 | without new rows and replays, any run of any interleaving processes at most as many rows as there were attempts left |
| `OutboxProtocol.DrainedMeansSettled` | apps/api/src/workers/outbox.worker.ts:79-136 | no attempts are left exactly when every row is published or quarantined |
| `OutboxProtocol.UnsettledRowsAreClaimed` | apps/api/src/workers/outbox.worker.ts:79-89 | a sweep that runs alone claims nothing exactly when everything is settled |
| `OutboxProtocol.LoneSweepIsProcessOnce` | apps/api/src/workers/outbox.worker.ts:67-137 | run without interleaving, the protocol's steps of a sweep do what the method promises of one call |
| `OutboxProtocol.SweepsExist` | apps/api/src/workers/outbox.worker.ts:79-137 | from any state of the invariant with no sweep open there are as many consecutive committed sweeps as one likes, whatever fate is set for each dispatch |
| `OutboxProtocol.SweepingSettles` | apps/api/src/workers/outbox.worker.ts:54-137 | from any reachable state with no sweep open, as many committed sweeps as there are attempts left, one after the other, leave every row published or quarantined and lose none |
| `OutboxProtocol.SettlingIsAlwaysPossible` | apps/api/src/workers/outbox.worker.ts:54-137 | from every reachable state, once the open sweeps have aborted, such sweeps exist and settle every row, however the dispatches are fated to end |
| `OutboxOrder.InOrderMeans` | apps/api/src/workers/outbox.worker.ts:22 | the order that is meant, said of any two deliveries: a row delivered after a younger one of its kind had been delivered before that one already |
| `OutboxOrder.OpsAreTheMethods` | apps/api/src/workers/outbox.worker.ts:67-137 | the operations of a single sweeper do what the table's methods promise, an aborted sweep included |
| `OutboxOrder.WhenAnOperationKeepsOrder` | apps/api/src/workers/outbox.worker.ts:79-137 | with one sweeper the promised order is kept, with nothing pending behind it, by an operation if and only if it is not a row committed or replayed after a younger one of its kind was delivered, nor a sweep in which a failed dispatch leaves a row behind one delivered after it; pruning never matters, an abort may |
| `OutboxOrder.WhenARunKeepsOrder` | apps/api/src/workers/outbox.worker.ts:22 | over a whole run the order is never at risk if and only if no operation puts it there, and then the deliveries are in order |
| `OutboxOrder.SmoothRunsAreInOrder` | apps/api/src/workers/outbox.worker.ts:22 | one sweeper, no failed dispatch, no replay and rows committed in the order of their times deliver each kind in that order, aborts and retention included |
| `OutboxOrder.WhenOrderIsLost` | apps/api/src/workers/outbox.worker.ts:79-89 | a pending row is behind if and only if some continuation of sweeps in which every dispatch succeeds delivers out of order |
| `OutboxOrder.RetriesOvertake` | apps/api/src/workers/outbox.worker.ts:100-134 | a failing instance: the retry of a failed dispatch is delivered after the younger row behind it in the batch |
| `OutboxOrder.SweepersRace` | apps/api/src/workers/outbox.worker.ts:79-89 | a failing instance without any failure: two sweepers, batches of one row, and the younger row is delivered first |
| `Csv.RoundTrip` | apps/api/src/domains/exports/export.service.ts:296-308 | a reader of section 2 of RFC 4180 (LF records) gets back the header and, under each column, exactly the value that the record holds there, or nothing where it holds none, if and only if there is a column, a row, and no column name that would need quoting |
| `Csv.WhatIsQuoted` | apps/api/src/domains/exports/export.service.ts:297-304 | a value is written as it stands if it holds no comma, quote or line feed, and otherwise between quotes with its quotes doubled; null and undefined as nothing |
| `Csv.EmptyTableReads` | apps/api/src/domains/exports/export.service.ts:305-307 | with no rows the file reads back as the header and one record with an empty field that nobody wrote |
| `Csv.RawHeaderReads` | apps/api/src/domains/exports/export.service.ts:305 | an unescaped header reads back as itself only if no name holds a comma, quote or line feed |
| `Csv.Customers` | apps/api/src/domains/exports/export.service.ts:125-143 | the dedupe loop keeps the first application of every customer, in order |
| `Csv.FirstsAreOnePerCustomer` | apps/api/src/domains/exports/export.service.ts:125-143 | every customer of the input appears exactly once, by the first, that is newest, application |
| `Csv.FirstsKeepTheOrder` | apps/api/src/domains/exports/export.service.ts:125-143 | and the customers stand in the order of those applications |
| `Paging.LessIsStrictTotal` | apps/api/src/domains/applications/application.repository.ts:38-43 | the OR clause of the cursor is a strict total order on (timestamp, tie-breaker) |
| `Keyset.WhatAPageHolds` | apps/api/src/shared/utils/pagination.ts:54-63 | a page is the matching rows below the cursor up to the limit, and has a cursor exactly when there are more: the last row's key, its time cut to the millisecond |
| `Keyset.PagesConcatenate` | apps/api/src/shared/utils/pagination.ts:21-24 | for any filter and page size, following the cursor to the end gives exactly the filtered list if and only if at every page's end the next row lies below the cursor, whose timestamp is cut to the millisecond; otherwise rows are lost |
| `Keyset.WhenEveryPageSizeIsComplete` | apps/api/src/domains/revenue/revenue.repository.ts:63-89 | every page size reproduces the list if and only if each row lies below the cursor of the row before it |
| `Keyset.UniqueKeysPageCompletely` | apps/api/src/domains/applications/application.repository.ts:29-49 | with a unique key and timestamps of whole milliseconds every page size reproduces the sorted, filtered list |
| `Keyset.SharedKeysCanBeLost` | apps/api/src/domains/revenue/revenue.repository.ts:73-87 | two ledger rows that share timestamp and idempotency key: a row is never returned |
| `Keyset.SharedMillisecondsCanBeLost` | apps/api/src/shared/utils/pagination.ts:21-24 | two rows with keys of their own, a microsecond apart in one millisecond: a row is never returned |
| `Keyset.PagingIsStable` | apps/api/src/shared/utils/pagination.ts:54-63 | while rows come and go between requests keys never repeat, and where timestamps are whole milliseconds a finished walk returned every matching row that was there throughout |
| `Keyset.WalksAtRestEnd` | apps/api/src/shared/utils/pagination.ts:54-63 | over a table at rest the walk ends, within one request more than there are rows, and is the walk of the results above |
| `Archive.StreamPagedNdjson` | apps/api/src/domains/platform/tenant-offboarding.service.ts:278-298 | the page loop terminates on a table changing under it and writes begin line, the walked rows in order, and an end line with their count |
| `Archive.ArchiveStream.Write` | apps/api/src/domains/platform/tenant-offboarding.service.ts:278-298 | the reported size is always the length of what was written |
| `Archive.ArchiveStream.SizesAddUp` | apps/api/src/domains/platform/tenant-offboarding.service.ts:278-298 | that length is the sum of the lines' lengths |
| `Archive.StableRowsAreArchivedOnce` | apps/api/src/domains/platform/tenant-offboarding.service.ts:278-298 | with a unique key, a row present at every page read is archived exactly once, in descending order, whatever is inserted or deleted meanwhile, and nothing else is invented |
| `Archive.ArchiveIsTheTable` | apps/api/src/domains/platform/tenant-offboarding.service.ts:196-213 | on a table at rest the archive equals the table, and its count the row count, if and only if no full page ends between equal keys (revenue rows page by an idempotency key that sources may share) |
| `Archive.SharedKeysCanBeLost` | apps/api/src/domains/platform/tenant-offboarding.service.ts:196-213 | a failing instance: of two rows that share their key the second is not archived at a page size of one |
| `Archive.UniqueKeysArchiveCompletely` | apps/api/src/domains/platform/tenant-offboarding.service.ts:278-298 | with a unique key and any page size the archive is the table, at exact multiples of the page size too |
| `Fx.RateTable.SubmitBulk` | apps/api/src/domains/fx/fx.routes.ts:102-130 | the bulk loop upserts the quotes one after the other and reports their number |
| `Fx.LastQuoteWins` | apps/api/src/domains/fx/fx.routes.ts:102-123 | after a bulk call each key has the rate of its last quote, every other key the rate it had |
| `Fx.UpsertKeepsTable` | apps/api/src/domains/fx/fx.routes.ts:61-78 | upserts keep one row per (asOf, base, quote) and every asOf a midnight |
| `Fx.RateDependsOnDay` | apps/api/src/domains/fx/fx.service.ts:73-75 | because asOf values are midnights, a rate is the same for every instant of a UTC day: keying the cache by day loses nothing |
| `Fx.WhichRowDecides` | apps/api/src/domains/fx/fx.service.ts:81-105 | over any table: the latest row of the pair not after the instant gives the rate; without one the latest of the inverse pair, by its reciprocal; without either the product of the two legs |
| `Fx.WhenAvailable` | apps/api/src/domains/fx/fx.service.ts:81-110 | a rate is found if and only if a row links the pair, or rows link both sides to the reporting currency; the error names the pair |
| `Fx.AvailabilityGrows` | apps/api/src/domains/fx/fx.service.ts:65-133 | availability is symmetric in the pair and monotone in the instant |
| `Fx.UpsertsLoseNoRate` | apps/api/src/domains/fx/fx.routes.ts:61-78 | an upsert never makes an available rate unavailable |
| `Fx.RateIsTheValuation` | apps/api/src/domains/fx/fx.service.ts:65-133 | if the latest rows agree with a positive valuation v, a rate found directly, inversely or by triangulation is v(from)/v(to) |
| `Fx.ConversionsCompose` | apps/api/src/domains/fx/fx.service.ts:49-59 | then converting through a third currency, or there and back, changes nothing |
| `Fx.RoundTripIsTheMismatch` | apps/api/src/domains/fx/fx.service.ts:65-133 | over any positive table, with or without a valuation, the product of the two directions' rates is exactly the mismatch of the rows on the path |
| `FxCache.FxService.GetRate` | apps/api/src/domains/fx/fx.service.ts:65-110 | the cached lookup: answer and new cache equal those of the specification, on each of its paths |
| `FxCache.CacheStaysBounded` | apps/api/src/domains/fx/fx.service.ts:135-139 | no insertion takes the cache beyond 5001 entries |
| `FxCache.RatesAreKeptForAnHour` | apps/api/src/domains/fx/fx.service.ts:73-95 | a rate found in the table is answered again for an hour, for the pair and any instant of the day, whatever is upserted meanwhile, unless the caller asks past the cache; then the table decides |
| `FxCache.ErrorsAreNotKept` | apps/api/src/domains/fx/fx.service.ts:107-139 | a failed lookup leaves the cache alone, and a lookup the other entries while there is room |
| `FxCache.StalenessIsBounded` | apps/api/src/domains/fx/fx.service.ts:65-139 | over any run of upserts and lookups, whatever a lookup answers, rate or error, is what an uncached one would have answered at some moment of the last hour |
| `WorkPool.EveryItemOnce` | apps/api/src/workers/lender-polling.worker.ts:103-162 | under any interleaving of the workers sharing the queue, the pool is drained after exactly 2n steps and then every item was handled exactly once |
| `WorkPool.NeverStuck` | apps/api/src/workers/pii-reencryption.worker.ts:84-127 | until the queue is drained some worker can move |
| `PiiReencryption.UpgradeKeepsMeaning` | apps/api/src/workers/pii-reencryption.worker.ts:90-108 | re-encrypting what was decrypted under version 1 keeps what readers, dispatching on the version byte, see |
| `PiiReencryption.ReadersDispatch` | apps/api/src/shared/kms/tenant-dek.ts:466-480 | the reader takes an empty envelope for an error, and otherwise decides by whether the first byte is 2 |
| `PiiReencryption.WhatReadersSee` | apps/api/src/shared/kms/tenant-dek.ts:466-480 | so they see what was encrypted under version 2, and of a version 1 envelope what the global key gives |
| `PiiReencryption.EveryRowKeepsItsMeaning` | apps/api/src/workers/pii-reencryption.worker.ts:64-131 | with any number of processes, interleavings, failures and crashes every row still decrypts to its original plaintexts |
| `PiiReencryption.EveryRowStaysUnderItsTenantsKey` | apps/api/src/workers/pii-reencryption.worker.ts:95-108 | and no envelope ends up under another tenant's key: where rows were under their own tenants' keys they stay so in any run |
| `PiiReencryption.WhatAProcessCanDo` | apps/api/src/workers/pii-reencryption.worker.ts:68-127 | a process can start on any rows the query gave it, move whenever its pool can, and stop at any time |
| `PiiReencryption.TurnsArePoolSteps` | apps/api/src/workers/pii-reencryption.worker.ts:84-127 | a turn is a step of its own process's pool, and the counters count each finished item once, as upgraded exactly if its row was written |
| `PiiReencryption.PiiTable.ProcessBatch` | apps/api/src/workers/pii-reencryption.worker.ts:79-130 | one batch: exactly the decryptable items whose encryption succeeds are replaced, and upgraded + skipped is the batch size |
| `PiiReencryption.ParallelIsSequential` | apps/api/src/workers/pii-reencryption.worker.ts:84-127 | however the parallel workers interleave, the table they leave is the one the plain loop leaves |
| `PiiBacklog.BatchMovesItsGoodRows` | apps/api/src/workers/pii-reencryption.worker.ts:64-131 | a batch takes exactly its good rows out of the backlog and leaves the bad ones |
| `PiiBacklog.BatchExists` | apps/api/src/workers/pii-reencryption.worker.ts:68-75 | the batch query has an answer for every table and limit |
| `PiiBacklog.WhenABatchMoves` | apps/api/src/workers/pii-reencryption.worker.ts:68-75 | with distinct creation times the next batch moves a row if and only if some good row has fewer than a batch of older bad rows; with ties, one way each for older and for not younger bad rows |
| `PiiBacklog.BadBatchRepeats` | apps/api/src/workers/pii-reencryption.worker.ts:64-131 | a batch of bad rows leaves the table as it is and is a batch of it again |
| `PiiBacklog.StuckForEver` | apps/api/src/workers/pii-reencryption.worker.ts:64-131 | where every good row has a batch of older bad rows, no number of batches changes the table |
| `PiiBacklog.OnceStuckForEverStuck` | apps/api/src/workers/pii-reencryption.worker.ts:64-131 | with distinct creation times, one batch that moves nothing means that none ever will |
| `PiiBacklog.NeverReached` | apps/api/src/workers/pii-reencryption.worker.ts:64-131 | a good row behind a batch of older bad rows is never re-encrypted, by any number of batches |
| `PiiBacklog.AScrubbedRowBlocks` | apps/api/src/domains/rtbf/rtbf.service.ts:113-145 | a failing instance: with a limit of one, a row whose envelopes a scrub zeroed keeps a younger row from ever being re-encrypted |
| `PiiBacklog.WhenARowIsReached` | apps/api/src/workers/pii-reencryption.worker.ts:64-131 | given enough batches and distinct creation times, a good row is re-encrypted if and only if fewer than a batch of bad rows are older than it |
| `PiiBacklog.WhenTheBacklogDrains` | apps/api/src/workers/pii-reencryption.worker.ts:64-131 | likewise the whole backlog, if and only if fewer than a batch of bad rows are older than its youngest good row |
| `PiiBacklog.BacklogDrains` | apps/api/src/workers/pii-reencryption.worker.ts:64-131 | with fewer bad rows in all than the batch size, whatever the times, every batch lowers the good backlog until it is empty |
| `LenderPolling.LenderStore.PollOne` | apps/api/src/domains/lenders/lender-submission.service.ts:165-241 | one poll: the row merged with the report and the before/after event; only the failure event; the merged row with a failure event, when the event cannot be composed; nothing, and the error, when a statement fails; nothing for a terminal or unsubmitted decision |
| `LenderPolling.LenderStore.SubmitToLender` | apps/api/src/domains/lenders/lender-submission.service.ts:59-157 | an accepted submission creates the decision or leaves it alone and logs it; a refused one is logged, thrown on and rolled back |
| `LenderPolling.LenderStore.EndTransaction` | apps/api/src/shared/tenant/tenant-context.ts:100-115 | the tenant transaction commits what its function wrote if and only if the function returns |
| `LenderPolling.WhatAPollLeaves` | apps/api/src/domains/lenders/lender-submission.service.ts:174-240 | for each reply: the report merged into the one row, its id and time kept, and the event with the status before and after, a transition exactly if they differ; or the first 8000 characters of the failure; or nothing |
| `LenderPolling.WhatIsNotPolled` | apps/api/src/domains/lenders/lender-submission.service.ts:166-173 | a decision without an external id, or decided and funded, or not there, is left alone with its log |
| `LenderPolling.WhatASubmissionLeaves` | apps/api/src/domains/lenders/lender-submission.service.ts:87-122 | an accepted submission adds one event and, unless it is there, one pending decision without details, and touches no other; a refused one leaves nothing |
| `LenderPolling.OnlyPollFailuresAreRecorded` | apps/api/src/domains/lenders/lender-submission.service.ts:131-156 | both failure paths write an event; pollOne's is committed because it swallows the error, submitToLender's is rolled back because it throws it on |
| `LenderPolling.RefusalsLeaveNoTrace` | apps/api/src/domains/lenders/lender-submission.service.ts:131-156 | so in no run, from any log without one, is a SUBMIT_FAILED event on record |
| `LenderPolling.ReportsAddUp` | apps/api/src/domains/lenders/lender-submission.service.ts:182-203 | a complete report replaces the row, a bare one moves only the status, a repeated one changes nothing, and reports can be merged among themselves first |
| `LenderPolling.DetailsAreTakenOneByOne` | apps/api/src/domains/lenders/lender-submission.service.ts:182-203 | each of the seven details of a report is taken over on its own: given, it sets its column and no other; left out, or an empty amount, it leaves its column |
| `LenderPolling.StepKeeps` | apps/api/src/domains/lenders/lender-submission.service.ts:174-240 | a decision's log accounts for its row after a step exactly when it did before and the step is not a report that changes the row without being logged |
| `LenderPolling.LogReplaysToTheRow` | apps/api/src/domains/lenders/lender-submission.service.ts:165-241 | over every run from any table, decisions created without a log included, a decision's successful polls chain before to after, are marked STATE_TRANSITION exactly at changes, and replay from its creation state to its current one, if every report that changed it was logged |
| `LenderPolling.WhenTheLogAlwaysReplays` | apps/api/src/domains/lenders/lender-submission.service.ts:165-241 | the log accounts for the row throughout a run if and only if every report that changed it was logged |
| `LenderPolling.AnUnloggedReportShows` | apps/api/src/domains/lenders/lender-submission.service.ts:182-232 | a concrete failing instance: an approval whose event cannot be composed |
| `LenderPolling.TerminalIsFinal` | apps/api/src/domains/lenders/lender-submission.service.ts:169-173 | a terminal decision is never changed, polled or selected again |
| `LenderPolling.CandidatesAreWhatIsPolled` | apps/api/src/workers/lender-polling.worker.ts:91-97 | the candidate filter is the exact complement of the terminal test of `pollOne` |
| `LenderPolling.OrderDoesNotMatter` | apps/api/src/workers/lender-polling.worker.ts:103-162 | handling distinct decisions in any order leaves each with its own result and all others alone |
| `LenderPolling.EqualHandlingsEqualRows` | apps/api/src/workers/lender-polling.worker.ts:103-162 | two polls that treat every item alike leave the same rows, however they interleave |
| `LenderPolling.BatchPollsEachOnce` | apps/api/src/workers/lender-polling.worker.ts:103-162 | under any interleaving of the pool, and whatever adapters and breakers make of each item when its turn comes, each candidate is handled exactly once and ends as its own handling says |
| `LenderBacklog.WhenPolledRowsDropOut` | apps/api/src/workers/lender-polling.worker.ts:88-97 | a row leaves the candidate query exactly when a report says both decided and funded; a decline alone never does |
| `LenderBacklog.BatchExists` | apps/api/src/workers/lender-polling.worker.ts:91-97 | the candidate query has an answer for every table and limit |
| `OldestFirst.AnswerExists` | apps/api/src/workers/lender-polling.worker.ts:91-97 | an oldest-first query with a limit has an answer for every table, with ties too |
| `OldestFirst.WhenSelected` | apps/api/src/workers/lender-polling.worker.ts:91-97 | any row is in its answer only if fewer rows than the limit are older, and if fewer others than that are not younger; with distinct times if and only if |
| `LenderBacklog.WhenACandidateIsSelected` | apps/api/src/workers/lender-polling.worker.ts:91-97 | so, read off the decisions before the query, for every candidate |
| `LenderBacklog.WhenABatchRepeats` | apps/api/src/workers/lender-polling.worker.ts:91-97 | after a poll its batch is an answer of the query again if and only if none of its rows was settled |
| `LenderBacklog.NeverPolled` | apps/api/src/workers/lender-polling.worker.ts:88-97 | behind a limit of older candidates that get no report both decided and funded, rows without an external id included, a decision is never polled and never changes, over any number of batches with submissions and new decisions between them |
| `LenderBacklog.StuckRowsBlock` | apps/api/src/workers/lender-polling.worker.ts:88-97 | the same where the lenders settle a decision when asked or never |
| `LenderBacklog.PolledInTime` | apps/api/src/workers/lender-polling.worker.ts:88-97 | with fewer such rows than the limit among those not younger, ties included, it is polled within one batch more than there are rows not younger |
| `LenderBacklog.WhenADecisionIsPolled` | apps/api/src/workers/lender-polling.worker.ts:88-97 | with distinct times and enough batches a decision is polled if and only if fewer older candidates than the limit are never settled |
| `LenderBacklog.ADeclineBlocks` | apps/api/src/workers/lender-polling.worker.ts:88-90 | a failing instance: one declined decision, a limit of one, and a younger pending decision that no number of batches polls |
| `RefreshTokens.AuthStore.Refresh` | apps/api/src/domains/auth/auth.service.ts:57-99 | one refresh: every answer and the table it leaves, rotation on success, the family revoked on reuse, nothing otherwise |
| `RefreshTokens.AuthStore.Logout` | apps/api/src/domains/auth/auth.service.ts:139-143 | logging out with any known token, revoked or not, revokes its family |
| `RefreshTokens.CallsAreSteps` | apps/api/src/domains/auth/auth.service.ts:57-143 | the service's calls are the steps of a run: one table comes of both |
| `RefreshTokens.WhatIsPossible` | apps/api/src/domains/auth/auth.service.ts:57-143 | any hash can be presented, any session ended and a purge run at any time, and a login or refresh whenever its identifiers are new |
| `RefreshTokens.WhomARefreshRefuses` | apps/api/src/domains/auth/auth.service.ts:57-69 | for the row that holds the hash: refused as reused exactly if revoked, else as expired from the instant of expiry on, else for want of the user; a hash nobody holds is not found |
| `RefreshTokens.OtherFamiliesStay` | apps/api/src/domains/auth/auth.repository.ts:98-133 | reuse and logout revoke exactly the unrevoked rows of the token's own family, changing nothing else of them and no other row; other refusals change nothing; a success changes the old row and adds the new one, with the owner, family and session of the old |
| `RefreshTokens.RevocationsHitTheirRows` | apps/api/src/domains/auth/auth.repository.ts:135-154 | ending a session revokes exactly the unrevoked rows of that user and session, ending all of a user's exactly the user's |
| `RefreshTokens.UnknownHashesChangeNothing` | apps/api/src/domains/auth/auth.service.ts:57-59 | presenting a hash that nobody holds, to refresh or to log out, changes no row |
| `RefreshTokens.LoginsAddOneRow` | apps/api/src/domains/auth/auth.repository.ts:58-90 | a login adds one row, under a new id, and touches no other |
| `RefreshTokens.StepKeeps` | apps/api/src/domains/auth/auth.repository.ts:58-155 | issue, refresh, logout, session and user revocation and purge each keep the invariant on families, chains, hashes and times |
| `RefreshTokens.FamiliesAreSound` | apps/api/src/domains/auth/auth.repository.ts:98-133 | over every run a family has at most one unrevoked token and one user, org and session, and its replacement chain never dangles and only leads to later rows, so it is acyclic |
| `RefreshTokens.DeathIsForEver` | apps/api/src/domains/auth/auth.repository.ts:127-133 | a family without an unrevoked token never gets one again |
| `RefreshTokens.ReuseKillsTheFamily` | apps/api/src/domains/auth/auth.service.ts:60-64 | presenting a revoked token is refused and leaves its family dead for ever, whatever happens afterwards |
| `RefreshTokens.TokensAreSingleUse` | apps/api/src/domains/auth/auth.service.ts:57-99 | a token that was redeemed is refused in every later state |
| `RefreshTokens.RefreshMovesTheLiveToken` | apps/api/src/domains/auth/auth.repository.ts:98-125 | a successful refresh makes the new row the only unrevoked one of the family and links the old row to it |
| `RefreshTokens.PurgeSparesUsableTokens` | apps/api/src/workers/lifecycle.worker.ts:111-117 | a purge deletes exactly the rows expired or revoked before the cutoff and never one that is unrevoked and unexpired |
| `RefreshTokens.WhatAPurgeDeletes` | apps/api/src/workers/lifecycle.worker.ts:111-117 | a row survives a purge exactly if it neither expired nor was revoked before the end of the grace period, and then unchanged |
| `RefreshTokens.ListActiveSessions` | apps/api/src/domains/auth/auth.repository.ts:162-179 | the session list has one entry per session, for its newest row |
| `RefreshTokens.ActiveListExists` | apps/api/src/domains/auth/auth.repository.ts:165-169 | the session query has an answer for every table and user |
| `RefreshTokens.OneEntryPerSession` | apps/api/src/domains/auth/auth.repository.ts:171-178 | whatever the table, the list has each session of the rows once, by its first, that is newest, row |
| `RefreshTokens.SessionsAreTheActiveTokens` | apps/api/src/domains/auth/auth.repository.ts:162-179 | in a sound table nothing is collapsed: the list is one entry for every unrevoked, unexpired token of the user and for no other, newest first |
| `Alerts.Worker.Evaluate` | apps/api/src/workers/alert.worker.ts:76-151 | one rule's turn of the cycle: new state and summary counters for a Redis failure in the gate or in the mark, whichever of its commands took effect, for skip, malformed query, throwing evaluator, failed lookup, failed insert or update, fire, resolve, either with a failure after it, and no-op |
| `Alerts.StepKeeps` | apps/api/src/workers/alert.worker.ts:76-151 | every evaluation by the one worker and every operator action on an active alert keeps the invariant |
| `Alerts.EvaluationSettles` | apps/api/src/workers/alert.worker.ts:89-142 | an evaluation that answers leaves an active alert exactly when the rule hit, if and only if the alert could be stored or nothing had to be |
| `Alerts.AlertsAlternate` | apps/api/src/workers/alert.worker.ts:98-142 | over every run a rule has at most one active alert and its fires and resolves strictly alternate, each resolve clearing the fire before it |
| `Alerts.EvaluationsAreAWindowApart` | apps/api/src/workers/alert.worker.ts:175-208 | however much happens in between and however the clock runs, an evaluation of a rule by the worker is at least its window after the rule was last marked, as it is before every evaluation |
| `Alerts.WhenTheGateOpens` | apps/api/src/workers/alert.worker.ts:175-198 | the gate opens if and only if a window has passed since the rule was last marked and its lock is free or over |
| `Alerts.WhenTheGateOpensNext` | apps/api/src/workers/alert.worker.ts:76-91 | after a turn it opens exactly when the window is over, if the turn marked the rule, and the lock too, if the turn left it |
| `Alerts.LocksHoldAndExpire` | apps/api/src/workers/alert.worker.ts:189-198 | a lock bars every other evaluation of its rule, and of no other, for the rule's window, at least a minute and at most the configured time |
| `Alerts.SummaryTells` | apps/api/src/workers/alert.worker.ts:76-151 | the five counters against the state: fired and resolved count the alerts the turn raised and cleared without a failure, skipped the closed gates, evaluated the evaluations, errors the failures |
| `Alerts.OperatorsSetOneAlert` | apps/api/src/domains/alerts/alert.routes.ts:222-260 | acknowledging, snoozing for so many minutes and resolving set the state and the stamp of one alert and nothing else |
| `Alerts.WhenAnOperatorMayReopen` | apps/api/src/domains/alerts/alert.routes.ts:222-247 | acknowledging or snoozing keeps at most one active alert per rule if and only if the alert was active or its rule has no active one |
| `Alerts.AcknowledgingCanReopen` | apps/api/src/domains/alerts/alert.routes.ts:222-234 | a concrete run of the worker after which acknowledging the resolved alert leaves two active ones |
| `Ingestion.StepKeeps` | apps/api/src/domains/ingestion/ingestion.routes.ts:268-331 | every step of every concurrent request keeps one event per key and at most one processor start per event |
| `Ingestion.OneStartPerEvent` | apps/api/src/domains/ingestion/ingestion.routes.ts:268-331 | in every reachable state, answered or not, every event has one key and the processor was started at most once for it, and for stored events only |
| `Ingestion.IngestionIsExactlyOnce` | apps/api/src/domains/ingestion/ingestion.routes.ts:268-347 | in any interleaving all answers for a key name one event, exactly the creating request is answered as new, and the processor starts at most once, exactly once unless its owner crashed or has yet to start it |
| `Ingestion.RequestsAreAnswered` | apps/api/src/domains/ingestion/ingestion.routes.ts:268-347 | a request run to its end: answered with the event of its key, as a replay, if there is one, and otherwise with the new event, started once, or with the processor's error |
| `Ingestion.StepsConcernOneRequest` | apps/api/src/domains/ingestion/ingestion.routes.ts:268-347 | no step moves another request, and a crash leaves no answer |
| `Ingestion.KeysOfRowsWithoutIds` | apps/api/src/domains/ingestion/ingestion.routes.ts:203-211 | the keys of two rows without ids, of one call or of two, are equal if and only if org, source, batch key and position are |
| `Ingestion.KeyOfARowWithIds` | apps/api/src/domains/ingestion/ingestion.routes.ts:203-211 | a row with ids is stored under the first of the seven it has, in the caller's org and the target's source |
| `Ingestion.PositionalKeysAreUnique` | apps/api/src/domains/ingestion/ingestion.routes.ts:211 | the strings behind it: batch key, dash and numeral are told apart whatever the batch keys are |
| `Ingestion.PositionsAreDecimal` | apps/api/src/domains/ingestion/ingestion.routes.ts:211 | the numeral is the position in decimals, without leading zeros |
| `Ingestion.RowsWithoutIdsAreAllStored` | apps/api/src/domains/ingestion/ingestion.routes.ts:192-222 | a completed call of rows without ids into a table without their keys: one event and one processor start for each, in order, and each answered with its own event and as new |
| `Ingestion.WhenNewRowsComplete` | apps/api/src/domains/ingestion/ingestion.routes.ts:192-222 | and such a call completes exactly if every row passes the schema and its processor |
| `Ingestion.Route.BulkIngest` | apps/api/src/domains/ingestion/ingestion.routes.ts:192-238 | the bulk loop: the table after the last row handled, and one result per row, in order, with that row's key and event, marked replayed exactly when the key had one before that row; it throws exactly when a row or the batch audit entry fails |
| `Ingestion.BulkAddsOnly` | apps/api/src/domains/ingestion/ingestion.routes.ts:192-222 | a bulk call, wherever it stops, never restarts the processor for a key that has an event |
| `Ingestion.RetriesNeverRerun` | apps/api/src/domains/ingestion/ingestion.routes.ts:192-222 | retrying a partly failed bulk call keeps every event and every processor start, and a retry that completes leaves each row with exactly one |
| `Ingestion.FailedRowsAreNotRetried` | apps/api/src/domains/ingestion/ingestion.routes.ts:289-331 | a row whose processor threw keeps its event through any later calls, is answered as a replay after all of them, and the processor is never started for it again |
| `Pixie.CostSlides` | apps/api/src/domains/pixie/pixie.algorithm.ts:33-39 | the cost is the straight line from twice the base at no volume to the base at the breakpoint, and constant from there |
| `Pixie.CostIsContinuousAndNeverRises` | apps/api/src/domains/pixie/pixie.algorithm.ts:33-39 | between any two volumes the cost falls by at most baseCost / breakpoint a pull and never rises, the breakpoint included |
| `Pixie.WhenCostIsBounded` | apps/api/src/domains/pixie/pixie.algorithm.ts:33-39 | the cost is at least the base, and at most twice the base if and only if the volume is not negative or the base is free |
| `Pixie.ToFixedReads` | apps/api/src/domains/pixie/pixie.algorithm.ts:43-48 | the digits toFixed prints (section 21.1.3.3 of ECMA-262), with as many after the point as asked for, read back as the rounded number; from 10^21 on the number is handed over unrounded |
| `Pixie.FixedIsNearest` | apps/api/src/domains/pixie/pixie.algorithm.ts:43-48 | toFixed prints the nearest decimal of its length, the one further from zero of two equally near |
| `Pixie.FixedIsMonotone` | apps/api/src/domains/pixie/pixie.algorithm.ts:43-48 | rounding keeps the order of numbers |
| `Pixie.QuoteReads` | apps/api/src/domains/pixie/pixie.algorithm.ts:28-49 | exactly the inputs with a positive breakpoint and non-negative bases are quoted, and the four texts read as the roundings of cost, charge, margin and total |
| `Pixie.PublishedTotalIsClose` | apps/api/src/domains/pixie/pixie.algorithm.ts:40-47 | the published total differs from the published margin times the pulls by at most pulls * 0.00005 + 0.005 |
| `Pixie.PublishedPartsNearlyAddUp` | apps/api/src/domains/pixie/pixie.algorithm.ts:40-47 | published cost plus margin differs from the published charge by at most 0.00015 |
| `Pixie.WhenPublishedPartsAddUp` | apps/api/src/domains/pixie/pixie.algorithm.ts:40-47 | for every accepted input, published cost and margin add up to the published charge to the digit if and only if the fractions of a unit in cost and charge meet, stated case by case, amounts from 10^21 on included |
| `Pixie.WholeChargesAddUp` | apps/api/src/domains/pixie/pixie.algorithm.ts:40-47 | in particular, for a charge of whole ten-thousandths below 10^21 those fractions meet unless the cost is halfway between two of them and at most the charge |
| `Pixie.HalfwayCostsMiss` | apps/api/src/domains/pixie/pixie.algorithm.ts:40-47 | a failing instance: at a cost of 1.00005 and a charge of 2 the published parts do not add up |
| `Pixie.PublishedCostNeverRises` | apps/api/src/domains/pixie/pixie.algorithm.ts:33-44 | more collective volume never raises the published cost per pull |

## Left out

- Cron.CatchUp: for a clock schedule the equality with one search from `now` is stated for a due time in the year 100 or later; before that the search itself is off, as `Cron.SearchFindsNextFiring` says.
- Cron.AdvanceCron: expressions arrive split and classified; splitting at white space and what Number() makes of a part (blank, hexadecimal, exponent forms) are not modelled. The month field, and the day of the month beside a weekday, are ignored as in the code.
- Rollup.EachInstantHasOneWindow: stated from the year 100 on, as are the sums; `Rollup.WindowsTile` covers every year. Its instants are milliseconds; `Rollup.WhenAnInstantIsCovered` has the microseconds between them.
- Keyset.PagingIsStable: that a finished walk misses nothing is stated for timestamps of whole milliseconds; when a table at rest pages completely without that is `Keyset.WhenEveryPageSizeIsComplete`.
- PiiBacklog.WhenTheBacklogDrains: a row is bad if an envelope does not decrypt or its tenant has no key, and nothing else fails; the exact conditions are for distinct creation times, the bounds with ties for any.
- Alerts.Worker.Evaluate: a Redis command that fails has taken effect or not; the process does not crash within a turn.
- Alerts.AlertsAlternate: one worker evaluates and operators act on active alerts; replicas overlapping after the lock is released, and operators reopening resolved alerts, are outside the run, the latter described by `Alerts.WhenAnOperatorMayReopen`.
- RefreshTokens.FamiliesAreSound: one service call is one step; two refreshes of the same token between each other's read and write can leave two unrevoked tokens, which the code does not guard against.
- LenderBacklog.WhenADecisionIsPolled: stated for lenders that settle a given decision whenever asked or never, and for polls only; `LenderBacklog.NeverPolled` is for any reports and for other writes between polls.
- OutboxOrder.WhenARunKeepsOrder: one sweeper, each operation on its own; of several sweepers it is shown only that they can break the order.
- LenderPolling.WhatIsNotPolled: an external id is there or not; the code takes an empty one for none.
- LenderPolling.LogReplaysToTheRow: polls of one decision do not overlap; the per-call timeout can make them.
- LenderPolling.LenderStore.SubmitToLender: wherever a submission fails, its body is modelled as having written the failure event only; nothing of it is committed.
- FxCache.FxService.GetRate: the day key is the day itself; the code's is the first ten characters of toISOString, which for years above 9999 or below 0 hold only the year and the month.
- FxCache.StalenessIsBounded: one lookup is one step on a clock that does not run backwards; upserts between the queries of one lookup are not modelled.
- Archive.StreamPagedNdjson: a key is its rank in the database's order, a natural number, so the loop cannot chase ever smaller keys inserted below it for ever; the JSON of a line is abstract.
- PiiReencryption.PiiTable.ProcessBatch: the plain loop, one row at a time; the parallel loops are `WorkPool` steps, tied to it by `PiiReencryption.ParallelIsSequential`.
- Range limits of Date.
- Decimal and floating-point rounding in sums, FX rates and the Pixie margin: exact reals, with the rounding of toFixed made explicit. Infinity and NaN from a zero rate are one value.
- Text encodings of cursors (base64url, ISO timestamps), of the archive and of JSON and PDF exports.
- The rate and average columns and the application, partner and pull counts of a rollup.
- Which queue an outbox kind is routed to, and everything the consumers do.
- Enqueueing the export after a scheduled run is recorded; a failure there leaves the export pending.
- Alert queries, evaluator metrics and notification delivery; a rule's window is constant over a run.
- Circuit breakers and adapters' capabilities, beyond a decision being skipped or called.
- The bearer and session checks, CSRF, MFA, JWT, HMAC, KMS and one-time passwords.
- Scrubs under the right to be forgotten, beyond the zeroed envelopes they leave, and their race with re-encryption.
- Tenant offboarding's deletion of the outbox, a deliberate loss, and the storage, verification and key destruction around the archive.
- Retention of lender reporting events, and the other cleanups of the lifecycle worker, which only delete by age.
- Partner listing with a search term and a cursor at once: its query joins the two with OR, so the concatenation property is not claimed of it.
- Analytics written in SQL, and the web application.

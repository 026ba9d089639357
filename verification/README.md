# A model of the backend's time-driven state and text

The backend manages PostgreSQL servers: it collects metrics, forecasts disk usage, schedules and prunes
backups, keeps panel sessions, edits `pg_hba.conf`, shows logs next to metrics, edits tables row by row,
rotates passwords and raises alerts. This project models the parts of it that keep state over time or turn
one text into another, and proves what they promise over every run. `dafny verify dfyconfig.toml` checks all
of it.

SQL tables are maps and sequences, a transaction or statement is one step, instants are whole microseconds
and `float64` is `real`. Where the Go code changes fields, rows or slices step by step, the model is a class
or a method with the same steps; each is proved against a function on values, and the runs and main results
are stated about those functions. Clock readings, random ids, parsed dates and the failure of any external
step are parameters.

| module | models |
|---|---|
| MetricRollup, MetricAggregates, MetricRuns, MetricReaders | the metric table, its rollup transaction, what its columns are, and its readers, refined to the log of every sample |
| Regression, Forecast | least squares and the capacity forecast |
| MetricHistory, LogTimeline | the bounded metric buffers and the annotated log |
| Schedule, PolicySweep, PolicyRuns, PolicyTableRuns | next-slot arithmetic, the policy table and its sweep, and runs of one policy and of the table |
| BackupNames, BackupStore, BackupRuns, BackupOutcomes, PolicyExecution | file names and paths, backup operations, all their interleavings, what those mean, and the execution of a policy |
| LoginThrottle, Sessions | login backoff, session expiry, step-up, revocation and cleanup |
| Text, Hba, HbaExamples | Go's string functions and scanner, and the `pg_hba.conf` editor |
| Identifiers, LikePattern, SqlText, RowFilter, TablePages, PrimaryKey | conditions written as SQL text, and what PostgreSQL reads in them |
| Credentials, Alerts | password rotation and the alert sweep |

## Where the code and its own words disagree

The model follows the code.

- The rollup is documented as idempotent over an interval (`metric_rollup.go:40-44`), but its cutoff is not
  aligned to the hour and its upsert overwrites: an hour split by a cutoff keeps only its last fragment
  (`WholeHourIff`, `SplitHourLosesPeak`).
- A time of day is documented as HH:MM; the parser accepts more (`LooseTimeAccepted`), and which accepted
  strings are in that form is known exactly (`StrictTimeIff`).
- `DeleteHbaRule` ignores the scanner's error, so a line of 64 KB or more cuts the file off
  (`DeleteKeepsOthersIff`, `LongRuleIsLost`); white space other than the characters checked changes the rule
  that is read back (`LineReadsBack`, `VerticalTabSplitsField`).
- `contains` is meant as a substring test, but `%`, `_` and the backslash keep their pattern meaning
  (`ContainsMeansSubstringIff`).
- `HbaRule.Method` is the last word of a line, so a rule with options is listed with its last option as the method
  (`RuleOfWords`, `OptionShownAsMethod`).
- The critical message of a rotation says that the old password still works in PostgreSQL
  (`credentials.go:20-23`, `credentials.go:64`); it is the new one that does (`OutcomeTells`).
- Raw and hourly rows are said never to overlap in time (`metric_query.go:12-15`). They do in the hour that the
  last cutoff lies inside, from the first sample of that hour after it (`OverlapIff`, `SplitHourOverlaps`).
- The deadlock metric is described as new deadlocks since the last check (`alerts.go:27`). It is not after a
  lost counter write, nor at a rule's first check, nor when the total has fallen, as it does with a database
  that is dropped (`MeasuresNewIff`, `LostCounterNotifiesTwice`, `OldDeadlocksNotify`, `DroppedDatabaseHides`).

Facts that contradict no comment but may surprise:

- A second backup of the same database within one second takes the file of the first
  (`SecondBackupTakesFile`, `CompletedOpensOwnFile`).
- The grid reads a table with one query per page; rows may come twice or never exactly if the sort column ties
  the last row of a page with the first of the next (`PagesTileIff`, `TiedRowsRepeat`).
- Deleting a server leaves the files of its completed backups behind; so does a deletion that reads a backup
  just before it completes (`OrphanIff`, `OrphanedBy`, `ServerDeletionOrphans`, `DeletionRacesCompletion`).
- No rotation repairs a pooler whose record names a container that is gone (`UnlinkedStays`).
- The cleanup sweep is invisible to session validation (`SweepsInvisible`), but visible to a step-up of an
  ended session (`StepUpSeesSweeps`).

## Model

| member | source | states |
|---|---|---|
| MetricRollup.MetricStore.RecordRaw | backend/internal/server/metric_persistence.go:15-76 | a sample becomes one raw row whose avg, min and max columns hold the same reading; a second row for the same series and instant is dropped, and so is a failing INSERT |
| MetricRollup.MetricStore.RollupMetricsOnce | backend/internal/server/metric_rollup.go:45-153 | the transaction, statement by statement with its two clock readings and any failing step, leaves either the rolled-up table or the old one |
| MetricRollup.RolledUpAt | backend/internal/server/metric_rollup.go:52-139 | after a rollup an hour has a row exactly if it is within retention and had expired samples or a row before; expired samples replace the old row, they are not merged into it |
| MetricRollup.RollupAgain | backend/internal/server/metric_rollup.go:40-44 | idempotence: a second rollup at the same cutoffs changes nothing |
| MetricRollup.AggregateOrder | backend/internal/server/metric_rollup.go:52-119 | in every aggregate, min is at most avg and avg at most max |
| MetricRollup.DeletedOnlyIfAggregated | backend/internal/server/metric_rollup.go:121-129 | conservation: a raw row is deleted only by the transaction that puts it in an hourly group, whose row covers it unless the hour itself is past retention |
| MetricAggregates.HourOfIff | backend/internal/server/metric_rollup.go:68 | the hour a sample falls in is the multiple of an hour that it lies at or less than an hour after |
| MetricAggregates.MeanOfOne | backend/internal/server/metric_rollup.go:69 | the average of one sample is its reading |
| MetricAggregates.MeanJoins | backend/internal/server/metric_rollup.go:69 | the average of two groups together is theirs weighted by size; with the average of one sample this leaves only the arithmetic mean |
| MetricAggregates.RollupColumns | backend/internal/server/metric_rollup.go:68-75 | what a rollup writes over the expired samples of an hour, column by column: their average, their least minimum and their greatest maximum |
| MetricAggregates.ColumnKinds | backend/internal/server/metric_rollup.go:56-117 | which measures each scope has, and which of them have an average, a minimum and a maximum |
| MetricAggregates.TwoReadingsHour | backend/internal/server/metric_rollup.go:111-117 | from any two readings of one hour, recorded and rolled up, to a row with half their sum, the lesser and the larger in the columns of each kind |
| MetricRuns.RunMeaning | backend/internal/server/metric_rollup.go:45-153 | main result: after any run of inserts, rollups, committed or failed, and server deletions, the raw rows are exactly the samples no commit consumed, and each hourly row aggregates exactly the last fragment of its hour between consecutive cutoffs |
| MetricReaders.SamplePartition | backend/internal/server/metric_rollup.go:141 | every accepted sample, but for those of deleted servers, is either still raw or in exactly one commit's fragment |
| MetricReaders.HourlyBeforeRaw | backend/internal/server/metric_query.go:9-16 | what holds of the order promised there: in every reachable state each hourly bucket of a series starts strictly before each of its raw rows |
| MetricReaders.OverlapIff | backend/internal/server/metric_query.go:9-16 | what does not: an hourly row overlaps raw rows in time if and only if a logged sample of its hour is not older than the last cutoff, and then that cutoff lies strictly inside the hour |
| MetricReaders.ScanStrict | backend/internal/server/metric_query.go:18-51 | the ordered query never sees two rows with the same bucket start |
| MetricReaders.ScanHourlyThenRaw | backend/internal/server/metric_query.go:9-51 | the ordered query yields all hourly rows, then all raw rows |
| MetricReaders.ScanUnique | backend/internal/server/metric_query.go:53-77 | the order of the query fixes its result: there is only one scan |
| MetricReaders.RowWithinExtremes | backend/internal/server/metric_rollup.go:52-119 | every hourly row has min <= avg <= max and stays within the true extremes of all consumed samples of its hour |
| MetricReaders.WholeHourIff | backend/internal/server/metric_rollup.go:79-94 | an hourly row is made from all consumed samples of its hour if and only if no committed cutoff had consumed samples on both sides of it |
| MetricReaders.AlignedHourIsWhole | backend/internal/server/metric_rollup.go:46 | an hour that no committed cutoff falls strictly inside has a row made from every sample ever logged for it |
| MetricReaders.SplitHourLosesPeak | backend/internal/server/metric_rollup.go:79-94 | two samples of one hour split by a cutoff: the row reports 10% where 90% was measured |
| MetricReaders.SplitHourValid | backend/internal/server/metric_rollup.go:45-46 | that history is a possible run |
| MetricReaders.SplitHourOverlaps | backend/internal/server/metric_rollup.go:45-47 | a run after which an hourly row and a raw row of the same hour stand side by side |
| MetricReaders.InsertDuringRollup | backend/internal/server/metric_rollup.go:121-129 | a sample inserted between the aggregation and the DELETE ends up as if it had come after the commit, exactly if it is not older than the cutoff |
| Regression.DenominatorIsPairSum | backend/internal/server/health.go:296 | Lagrange's identity: the denominator is the sum over pairs of the squared differences of the time stamps |
| Regression.NumeratorIsPairSum | backend/internal/server/health.go:297 | the numerator is the sum over pairs of the products of differences |
| Regression.DenominatorNonNegative | backend/internal/server/health.go:296 | the denominator is never negative |
| Regression.DenominatorZeroIff | backend/internal/server/health.go:296 | it is zero exactly when all time stamps are equal, so the guard is exactly the undefined case |
| Regression.RisingSlope | backend/internal/server/health.go:297 | values that never fall along increasing time give a slope that is not negative (Chebyshev's sum inequality) |
| Regression.LinearSlope | backend/internal/server/health.go:297 | on y = a + b x the slope is exactly b |
| Regression.FittedLineIsBest | backend/internal/server/health.go:286-301 | the line with that slope has the least squared error of all lines, and is the only one that has |
| Regression.ShiftInvariant | backend/internal/server/health.go:286-301 | moving every time stamp by the same amount changes neither half of the slope |
| Forecast.Totals | backend/internal/server/health.go:286-294 | the accumulation loop computes the four sums |
| Forecast.GetCapacityForecast | backend/internal/server/health.go:262-316 | a deadline is reported exactly if usage grows, the disk is not full and the date is at most 3650 days off; it is positive and satisfies current + trend * days = limit |
| Forecast.DaysUntilFull | backend/internal/server/health.go:303-313 | the three conditions and the equation of the reported number of days |
| Forecast.TrendGuard | backend/internal/server/health.go:296-298 | the division is skipped exactly when all points carry one instant |
| Forecast.RisingUsage | backend/internal/server/health.go:286-301 | usage that never falls over time is never forecast to shrink |
| Forecast.SteadyUsage | backend/internal/server/health.go:286-301 | usage that grows by a fixed amount per 86 400 seconds is forecast to grow by exactly that a day |
| Forecast.OriginIrrelevant | backend/internal/server/health.go:286-294 | measuring hours from any instant other than the first point gives the same trend |
| MetricHistory.HistoryCollector.Append | backend/internal/server/history.go:47-55 | appends one point and cuts the buffer to its last maxLen points |
| MetricHistory.HistoryCollector.Forget | backend/internal/server/history.go:66-70 | drops the buffer of one server only |
| MetricHistory.BufferIsSuffix | backend/internal/server/history.go:47-70 | a buffer is exactly the most recent points recorded since the server was last forgotten, all of them or as many as fit |
| MetricHistory.BufferOrdered | backend/internal/server/history.go:47-55 | with a clock that never goes back every buffer is ordered by time |
| LogTimeline.DetectLogLevelIff | backend/internal/server/log_correlation.go:61-82 | a level is detected exactly when it is the leftmost match of the level pattern |
| LogTimeline.LevelBeforeColon | backend/internal/server/log_correlation.go:61 | a token in front of the first colon, after nothing or a character that is no word character, is the level of the line |
| LogTimeline.WholeWordOnly | backend/internal/server/log_correlation.go:61 | a token that is only part of a word is no level |
| LogTimeline.ParseLogLines | backend/internal/server/log_correlation.go:86-111 | nothing is lost or reordered: texts and details give back all non-empty lines without their time stamps, and only the first entry may open with a line that is not of a primary level |
| LogTimeline.StampedLine | backend/internal/server/log_correlation.go:94-100 | a line that begins with a time stamp and a space carries that instant and exactly the text after the space |
| LogTimeline.UnstampedLine | backend/internal/server/log_correlation.go:94-100 | any other line is kept whole, at the zero time |
| LogTimeline.NonEmptyOf | backend/internal/server/log_correlation.go:90-92 | empty lines go and every other line stays where it stands |
| LogTimeline.GroupingUnique | backend/internal/server/log_correlation.go:86-111 | the grouping is the only one with these properties |
| LogTimeline.SearchAtOrAfter | backend/internal/server/log_correlation.go:120-122 | the binary search finds the boundary between earlier and later samples |
| LogTimeline.NearestMetric | backend/internal/server/log_correlation.go:116-143 | looking at two neighbours gives a closest sample of the whole history, the earlier side on a tie |
| LogTimeline.LogsTimeline | backend/internal/server/log_correlation.go:30-56 | every entry is annotated with the nearest reading and is otherwise unchanged |
| LogTimeline.ServerTimeline | backend/internal/server/log_correlation.go:30-56 | whatever was collected and forgotten before, every entry carries a closest reading among the last maxLen points recorded for the server |
| Hba.ParseHbaRules | backend/internal/server/hba.go:46-71 | the parsing loop computes the rule list |
| Hba.RuleAt | backend/internal/server/hba.go:46-71 | rule i is rule line i read at its own position: nothing is skipped or renumbered |
| Hba.CommentIgnored | backend/internal/server/hba.go:51-54 | a blank line or a comment, wherever it stands, changes neither the rules nor their numbers |
| Hba.RuleOfWords | backend/internal/server/hba.go:55-68 | what is read from the words of any other line, exactly: a local rule from four words on, others from five on, the last word as the method |
| Text.FieldsAround | backend/internal/server/hba.go:55 | white space separates fields: the fields of a text are those before it and those after it |
| Text.TrimPadded | backend/internal/server/hba.go:51 | trimming removes the white space around a text and nothing else |
| Text.CarriageReturnsDropped | backend/internal/server/hba.go:48-51 | lines that end in CRLF are scanned like lines that end in a newline alone |
| Text.Utf8Bounds | backend/internal/server/hba.go:48-51 | the bytes of a character, which the scanner's limit counts |
| Hba.HbaFile.AddHbaRule | backend/internal/server/hba.go:85-131 | validation in order, then the line is appended; a failed read or write leaves the file alone |
| Hba.ValidIff | backend/internal/server/hba.go:91-112 | which forms are let through, exactly |
| Hba.HbaFile.DeleteHbaRule | backend/internal/server/hba.go:136-170 | removes the first scanned line that reads the same once trimmed; reports not found exactly when there is none |
| Hba.DecideIff | backend/internal/server/hba.go:86-89 | a connection is decided exactly by the method of the first rule that matches it |
| Hba.DecideAppend | backend/internal/server/hba.go:46-71 | a later rule decides only connections no earlier rule matches |
| Hba.LineReadsBack | backend/internal/server/hba.go:99-118 | the written line parses as the submitted rule if and only if its fields hold no white space of any kind; validation looks only for five characters |
| Hba.AddThenParse | backend/internal/server/hba.go:85-131 | parsing the edited file yields the old rules plus exactly the submitted one, if and only if the fields are free of white space and every line fits the scanner |
| Hba.AddKeepsDecisions | backend/internal/server/hba.go:85-131 | adding a rule changes no decision that an earlier rule already made, for any notion of matching |
| Hba.DeleteThenParse | backend/internal/server/hba.go:136-170 | deletion removes exactly the first rule that reads the same and keeps all others in order |
| Hba.DeleteKeepsOthersIff | backend/internal/server/hba.go:142-160 | deletion keeps all other lines of the file if and only if every line fits the scanner, whose error is not looked at |
| Hba.AddThenDelete | backend/internal/server/hba.go:85-170 | deleting the rule just added restores the rules |
| HbaExamples.VerticalTabSplitsField | backend/internal/server/hba.go:99-118 | a rule with a vertical tab in its database passes the validation and does not read back |
| HbaExamples.OptionShownAsMethod | backend/internal/server/hba.go:62-64 | a rule with an option is listed with the option as its method |
| HbaExamples.OverlongRuleIsLost | backend/internal/server/hba.go:142-160 | a rule whose line the scanner cannot hold is appended but not listed, and deleting the line before it deletes both |
| HbaExamples.AsciiFits | backend/internal/server/hba.go:48-50 | lines of up to 65535 ASCII characters are scanned, exactly |
| HbaExamples.LongRuleIsLost | backend/internal/server/hba.go:85-131 | a rule of 65536 bytes is such a rule: it passes the validation and is lost |
| Schedule.TimeOfDayRoundTrip | backend/internal/server/backup_policy.go:282-296 | every time written HH:MM is read back |
| Schedule.StrictTimeIff | backend/internal/server/backup_policy.go:282-296 | an accepted string is the documented HH:MM of the time it is read as if and only if it has five characters, a colon in the middle and a digit in front of each number |
| Schedule.LooseTimeAccepted | backend/internal/server/backup_policy.go:282-296 | a string outside that form that is accepted: "+7:5" |
| Schedule.NextScheduledRun | backend/internal/server/backup_policy.go:298-330 | for every plan and every instant: the earliest instant strictly later with the requested time and weekday; the final error occurs only for a weekday outside 0 to 6 |
| Schedule.SlotIff | backend/internal/server/backup_policy.go:309-324 | a slot on the clock: the time of day is the plan's to the microsecond, and for a weekly plan the days since Sunday, 4 January 1970, leave its weekday modulo seven |
| Schedule.NextSlotIff | backend/internal/server/backup_policy.go:301-330 | the next run is the only slot within a day, or for a weekly plan within seven days, after the base |
| Schedule.SomeDayMatches | backend/internal/server/backup_policy.go:316-330 | eight days always contain each weekday after today, and no other number |
| Schedule.NextSlotExists | backend/internal/server/backup_policy.go:298-330 | every plan that creation lets through has a next slot |
| PolicySweep.PolicyTable.CreateBackupPolicy | backend/internal/server/backup_policy.go:41-80 | lets in exactly the forms with an identifier as database, a known storage and server, a positive retention, and a daily or weekly plan whose next run can be computed; the order of the errors |
| PolicySweep.PolicyTable.SetBackupPolicyEnabled | backend/internal/server/backup_policy.go:117-129 | switches the policy if it belongs to the server, and nothing else |
| PolicySweep.PolicyTable.DeleteBackupPolicy | backend/internal/server/backup_policy.go:106-115 | deletes the policy if it belongs to the server, and nothing else |
| PolicySweep.PolicyTable.RecordPolicyRun | backend/internal/server/backup_policy.go:182-196 | records the end of a run, failed or not, unless the write is lost |
| PolicySweep.PolicyTable.SweepOnce | backend/internal/server/backup_policy.go:246-280 | a tick runs exactly the enabled policies with a slot between their last recorded run and now, each once, and leaves what recording their ends in order leaves |
| PolicySweep.DueIff | backend/internal/server/backup_policy.go:268-271 | the comparison with the next run says exactly that a slot has passed |
| PolicyRuns.SlotsIncrease | backend/internal/server/backup_policy.go:246-280 | on every run of one policy fired slots never go back, and two consecutive ones coincide if and only if no run was recorded between them |
| PolicyRuns.EachSlotOnce | backend/internal/server/backup_policy.go:164-196 | if every end is saved, failed runs included, each slot fires at most once and missed slots collapse |
| PolicyRuns.TickFiresIff | backend/internal/server/backup_policy.go:246-280 | on every run a tick fires exactly if the policy is enabled, the latest slot came after its creation and no run recorded so far ended at or after it; otherwise it changes nothing |
| PolicyTableRuns.TableRefines | backend/internal/server/backup_policy.go:246-280 | main result: on every run of the whole table each policy goes through a valid run of its own that leads to the base, the switch and the execution under way that the table holds |
| PolicyTableRuns.SweepIsRun | backend/internal/server/backup_policy.go:246-280 | what the sweep leaves of the table is what listing the due policies and recording the end of each leaves |
| PolicyTableRuns.TableSlotsIncrease | backend/internal/server/backup_policy.go:246-280 | so the slots that a policy of the table fires never go back and coincide only while no run is recorded |
| PolicyTableRuns.SweepFiresIff | backend/internal/server/backup_policy.go:264-271 | and a sweep finds it due exactly if it is enabled and no run recorded since its latest slot ended at or after that slot |
| PolicyTableRuns.PolicyAsEntered | backend/internal/server/backup_policy.go:66-80 | on every run of the table a policy's server, database, storage, plan, retention count and creation time are those it was created with |
| PolicyTableRuns.LastRunTells | backend/internal/server/backup_policy.go:182-196 | the columns on the last run tell when the last execution whose end was saved ended and whether it failed |
| PolicyTableRuns.OwnedIff | backend/internal/server/backup_policy.go:106-115 | a policy is in the table exactly while no deletion for its own server has come since its creation |
| BackupNames.CivilCountsBack | backend/internal/server/backup.go:95 | the calendar reading of a second is a date of the Gregorian calendar and a time of day that count back to that second, leap years included |
| BackupNames.RenderedParts | backend/internal/server/backup.go:95 | the order and the width of its parts in the stamp |
| BackupNames.StampInjective | backend/internal/server/backup.go:95 | different seconds have different stamps (years of four digits), through the civil calendar |
| BackupNames.FilenameInjective | backend/internal/server/backup.go:95 | a file name determines database and second, whatever the database is called |
| BackupNames.ResolvedStaysInside | backend/internal/server/backup_storage.go:40-46 | a path that resolves lies below the backup directory: no segment of it is empty, "." or ".." |
| BackupNames.ParentRefused | backend/internal/server/backup_storage.go:40-46 | a path one level up is refused, whatever its name, unless it leads back to the backup directory |
| BackupNames.StoreAndOpenAgree | backend/internal/server/backup_storage.go:48-95 | the reference recomputed from a row resolves to the path Store wrote to |
| BackupNames.LocalPathInjective | backend/internal/server/backup_storage.go:48-73 | two local backups share a path only if server, database and second all agree |
| BackupStore.BackupService.InsertBackup | backend/internal/server/backup.go:94-111 | inserts one running row with the stamped file name |
| BackupStore.BackupService.PerformBackup | backend/internal/server/backup.go:116-180 | for each way a run can end, which file and which row state it leaves; a failure that cannot be saved leaves the row running |
| BackupStore.BackupService.MarkBackupFailed | backend/internal/server/backup.go:173-180 | marks an existing row failed, unless the statement itself fails |
| BackupStore.BackupService.DeleteBackup | backend/internal/server/backup.go:236-261 | file first, then row; succeeds exactly if the row is gone |
| BackupStore.BackupService.OpenBackup | backend/internal/server/backup.go:266-286 | opens exactly the completed backups of the server whose file is there |
| BackupStore.BackupService.ApplyBackupRetention | backend/internal/server/backup_policy.go:198-226 | deletes the listing from the retention count on, one deletion after another, whatever each comes to |
| BackupStore.DeletedAllRows | backend/internal/server/backup_policy.go:221-225 | successful deletions remove exactly those rows and files |
| BackupStore.RetentionKeepsNewest | backend/internal/server/backup_policy.go:198-226 | main result: what is left of the policy is exactly its newest min(N, count) completed backups; manual backups and other policies' rows are as before |
| BackupStore.NewestIsKept | backend/internal/server/backup_policy.go:164-180 | a run never deletes the backup it has just made |
| BackupRuns.RunKeepsInv | backend/internal/server/backup.go:94-261 | main result: whatever the interleaving of inserts, run steps, saved and unsaved failures, the single steps of deletions, and deletions of servers and policies, the files are exactly the dumps stored and not lost since, each at its place, and rows, runs and deletions under way agree with the births |
| BackupRuns.HomeIff | backend/internal/server/backup.go:95 | two local backups are stored as one file if and only if server, database and second agree |
| BackupOutcomes.CompletedOpensOwnFile | backend/internal/server/backup.go:266-286 | on every run a completed backup opens its own dump if and only if that dump has not been lost; otherwise it opens nothing or the dump of a local backup of the same name |
| BackupOutcomes.LostBecause | backend/internal/server/backup_storage.go:63-66 | a stored dump is lost by exactly these events: a dump of the same name is stored, or a deletion removes its file or that of a local backup of the same name |
| BackupOutcomes.DeleteTouchesIff | backend/internal/server/backup.go:236-261 | the steps of a deletion touch no row but the one asked for, and remove exactly the dumps stored under the name of the backup whose file they remove |
| BackupOutcomes.OrphanIff | backend/internal/server/backup.go:163-169 | a dump lies about without a row if and only if it was uploaded, has not been lost since, and its row went with its server or by a deletion that read it before it had completed |
| BackupOutcomes.OrphanedBy | backend/internal/server/backup.go:236-261 | a backup with its dump in place loses its row and keeps its file by exactly two events: its server is deleted, or a deletion that read it before it had completed removes the row |
| BackupOutcomes.ServerDeletionOrphans | backend/internal/db/migrations/0005_backups.sql:18-31 | the rows of a deleted server go by cascade, and every one of its completed backups not lost before leaves its file behind |
| BackupOutcomes.DeletionRacesCompletion | backend/internal/server/backup.go:236-261 | from every state with a backup about to complete, a deletion that reads it just before leaves its file behind |
| BackupOutcomes.DeletionIsItsSteps | backend/internal/server/backup.go:236-261 | the deletion as one operation is the run of its steps with nothing between them, for every outcome |
| BackupOutcomes.PerformIsItsSteps | backend/internal/server/backup.go:116-171 | for every outcome, the run as one operation is the run of its steps with nothing between them, from every reachable state |
| BackupOutcomes.PerformLeaves | backend/internal/server/backup.go:116-180 | what such a run leaves: a completed row that opens its own dump after a success, a failed or still running one after a failure, the dump at its place unless the run failed before storing it, and nothing else changed |
| BackupOutcomes.SharedFileIff | backend/internal/server/backup.go:33-42 | two completed backups name one file if and only if both are local and of the same name |
| BackupOutcomes.RetentionAfterRun | backend/internal/server/backup_policy.go:198-226 | retention on any reachable state: the newest stay, and each remaining completed backup opens its own dump if and only if it did before and shares no name with a deleted one |
| BackupOutcomes.UndisturbedBackupCompletes | backend/internal/server/backup.go:94-171 | progress: from every reachable state an undisturbed backup goes through all its steps and ends as a completed row that opens its own dump, with nothing else changed |
| BackupOutcomes.DeletedWhileRunningLeavesFile | backend/internal/server/backup.go:163-169 | a backup deleted while it runs always leaves its file behind when the run ends well, because the final UPDATE does not look at the rows affected |
| BackupOutcomes.SecondBackupTakesFile | backend/internal/server/backup_storage.go:63-66 | two backups of one database within a second both complete, one file is left, and the first row opens the second dump |
| BackupOutcomes.FirstTwoBackups | backend/internal/server/backup.go:95 | such a run, event by event |
| PolicyExecution.PolicyRunner.RunPolicyOnce | backend/internal/server/backup_policy.go:164-180 | insert, run, record and, after a success, retention, with the policy's server, database, storage and retention count |
| PolicyExecution.PolicyRunKeepsNewest | backend/internal/server/backup_policy.go:164-226 | main result: an execution that goes through on any reachable state leaves the policy's newest backups, as many as it keeps, with the new one among them, made from the policy's settings and dated at its start; that one opens its own dump if and only if no deleted backup shares its name |
| LoginThrottle.Throttle.RecordFailure | backend/internal/auth/login.go:73-86 | one more failure, locked for 2^failures seconds capped at 128 |
| LoginThrottle.Throttle.RecordSuccess | backend/internal/auth/login.go:88-92 | forgets the key |
| LoginThrottle.BackoffSeconds | backend/internal/auth/login.go:73-86 | the backoff doubles from two seconds to 128 and stays there |
| LoginThrottle.EntryMeaning | backend/internal/auth/login.go:64-92 | on every run a key's entry is exactly its admitted failures in a row and the end of the last backoff, and those failures are spaced by their backoffs |
| LoginThrottle.AdmittedIff | backend/internal/auth/login.go:135-139 | an attempt is let through exactly when the backoff after the last failure is over |
| LoginThrottle.FailuresSpan | backend/internal/auth/login.go:73-86 | main result: n admitted failures with no success between them span at least 2^n - 2 seconds for n <= 8 and 254 + 128 (n - 8) for n >= 8 |
| LoginThrottle.LeastSpanAttained | backend/internal/auth/login.go:73-86 | that span is attained, for every n, by failures that come as soon as they are admitted |
| LoginThrottle.OtherKeysIrrelevant | backend/internal/auth/login.go:46-56 | attempts on other keys change neither the entry nor the failures of a key |
| Sessions.AuthService.Login | backend/internal/auth/login.go:135-179 | the three steps together: throttle first, then the password, then the fresh session row; when each error is returned and what stays unchanged |
| Sessions.AuthService.Logout | backend/internal/auth/login.go:185-192 | marks the session ended, once |
| Sessions.AuthService.ValidateSession | backend/internal/auth/login.go:197-232 | sliding expiry and ceiling, with the view that is returned, and what a failing look-up or write leaves and reports |
| Sessions.AuthService.StepUp | backend/internal/auth/login.go:239-265 | elevates an unexpired session for five minutes whether revoked or not, and what a failing look-up or write leaves and reports |
| Sessions.AuthService.RevokeSession | backend/internal/auth/sessions.go:96-107 | succeeds exactly if it changed a row |
| Sessions.AuthService.SweepSessionLogs | backend/internal/auth/login_attempts.go:77-82 | deletes revoked or expired sessions created more than 90 days ago |
| Sessions.RunAgrees | backend/internal/auth/login.go:171-265 | every row of every reachable table agrees with the history of its token, and a token issued but without a row is past its ceiling |
| Sessions.ValidateIff | backend/internal/auth/login.go:197-232 | main result: on every run a request is validated exactly if its token was issued at most 90 days ago, was last used less than 30 days ago and was not ended; the view carries the elevation the history gives |
| Sessions.ValidatedBounds | backend/internal/auth/login.go:21-31 | a validated request comes within 90 days of the login and less than 30 days after an earlier login or validated request |
| Sessions.RefusedForEver | backend/internal/auth/login.go:197-232 | a token refused once, for whatever reason, is refused on every continuation |
| Sessions.RevokedNeverValidates | backend/internal/auth/sessions.go:96-107 | in particular one that was revoked or logged out |
| Sessions.ElevatedRecently | backend/internal/auth/login.go:107-112 | an elevated session was stepped up with the right password less than five minutes before |
| Sessions.ElevatedIff | backend/internal/auth/login.go:107-112 | main result: a validated request counts as elevated if and only if the same session, unexpired then, was stepped up with the right password less than five minutes before |
| Sessions.SweepsInvisible | backend/internal/auth/login_attempts.go:77-87 | main result: two runs that differ only in where cleanup sweeps happen validate the same requests with the same view |
| Sessions.RunPresence | backend/internal/auth/login_attempts.go:77-82 | which tokens still have a row and which rows are revoked, read off the history: a row goes at a sweep more than 90 days after the login that finds it ended, revoked at its ceiling or expired |
| Sessions.StepUpIff | backend/internal/auth/login.go:239-265 | a step-up is allowed exactly if the password is right, the token unexpired and its row not swept; being revoked is no obstacle |
| Sessions.StepUpSeesSweeps | backend/internal/auth/login.go:239-265 | the sweeps of a run change the answer to a step-up if and only if the password is right, the token unexpired, and its row swept away: a condition on the history alone that no token a request is validated on meets |
| Sessions.StepUpAfterSweep | backend/internal/auth/login.go:243-247 | a history on which it does |
| Sessions.ListedIff | backend/internal/auth/sessions.go:33-40 | the session screen lists every token that would be validated; whatever else it lists is past its ceiling |
| LikePattern.ContainsMeansSubstringIff | backend/internal/server/query.go:195-202 | `contains` means that the value occurs in the text, whatever the case, for every text, if and only if the value holds no %, _ or backslash |
| LikePattern.FoldCharIff | backend/internal/server/query.go:172 | which characters are alike whatever the case: the same, or the two cases of one ASCII letter |
| SqlText.ReadsQuoted | backend/internal/server/query.go:191 | a sanitised identifier is read back whole, whatever it contains, and nothing after it is swallowed |
| SqlText.ReadRendered | backend/internal/server/query.go:209 | reading a written condition gives back the clauses it was written from |
| SqlText.AllTrue | backend/internal/server/query.go:209 | under three-valued logic a conjunction is true exactly if every clause is |
| RowFilter.BuildRowFilterSQL | backend/internal/server/query.go:177-209 | the builder loop yields the text and arguments of all filters, or the error of the first filter that is not allowed |
| RowFilter.WhereMeaning | backend/internal/server/query.go:177-209 | main result: PostgreSQL, reading the text that was built, keeps a row exactly if every filter holds of it under its own value |
| RowFilter.HoldsMeans | backend/internal/server/query.go:165-175 | what each of the nine operators asks of a value, in words of its order against the parameter |
| RowFilter.PlaceholdersExact | backend/internal/server/query.go:195-206 | the placeholders are exactly $1 to $n in order, each bound to the value of its own filter |
| RowFilter.TextIgnoresValues | backend/internal/server/query.go:150-156 | no value ever reaches the text |
| RowFilter.TableRows | backend/internal/server/query.go:216-261 | count and page apply the same filters, each to the table as it meets it; the order of the errors, failing queries included |
| RowFilter.KeptOf | backend/internal/server/query.go:255 | a row is kept, where it stands, exactly if all filters hold of it |
| TablePages.PageIs | backend/internal/server/query.go:255 | a page is the rows from the offset on, as many as the limit allows and there are |
| TablePages.PagesTile | backend/internal/server/query.go:255 | without ties in the sort column the pages of separate queries yield every row once, in order |
| TablePages.PagesTileIff | backend/internal/api/server_detail.go:548-549 | main result: for every page size the pages yield every row once, whatever orders the queries take, if and only if no tie in the sort column straddles the end of a page; without a sort column all rows tie |
| TablePages.TiedRowsRepeat | backend/internal/server/query.go:255 | two tied rows, two pages: the first row twice, the second never |
| PrimaryKey.PrimaryKeyColumnNames | backend/internal/server/tables.go:180-188 | the loop collects the key columns in order |
| PrimaryKey.KeyNamesOf | backend/internal/server/tables.go:180-188 | the names are those of the key columns, each where its column stands |
| PrimaryKey.BuildPKWhere | backend/internal/server/tables.go:193-208 | the builder loop yields one equality per key column, numbered after the parameters already in use, or refuses the key |
| PrimaryKey.KeyFitsIff | backend/internal/server/tables.go:194-203 | a key is accepted exactly if it names the primary key columns, none missing and none extra |
| PrimaryKey.KeyWhereMeaning | backend/internal/server/tables.go:193-208 | the written condition selects exactly the rows whose key columns all equal the given values; NULL equals nothing |
| PrimaryKey.TargetUnique | backend/internal/server/tables.go:126-129 | a key finds at most one row |
| PrimaryKey.TableGrid.UpdateTableRow | backend/internal/server/tables.go:215-261 | succeeds exactly if the key finds a row, changes the named cell of that row to the stored value, keeps every other cell and row, and otherwise changes nothing |
| PrimaryKey.TableGrid.DeleteTableRow | backend/internal/server/tables.go:264-303 | removes exactly the row the key finds, and otherwise changes nothing |
| Credentials.ManagedServer.RotateSuperuserPassword | backend/internal/server/credentials.go:24-80 | the steps in order, each of which may fail: the passwords and the pooler they leave and the outcome that is reported |
| Credentials.ManagedServer.RecreatePooler | backend/internal/server/pooling.go:94-113 | removing, creating and recording the pooler container, each of which may fail |
| Credentials.AgreeIff | backend/internal/server/credentials.go:17-23 | main result: after any run of rotations the passwords agree if and only if no rotation altered the role and then failed both to save and to revert |
| Credentials.DisagreementStays | backend/internal/server/credentials.go:46-49 | once they disagree every further rotation fails and changes nothing |
| Credentials.StoredIsLastHandedOut | backend/internal/server/credentials.go:10-15 | the stored password is always the last one handed out |
| Credentials.OutcomeTells | backend/internal/server/credentials.go:58-69 | what each outcome says about the two passwords; after the critical one PostgreSQL has the new password, not the old one |
| Credentials.SucceedsIff | backend/internal/server/credentials.go:24-80 | a rotation goes through exactly if the passwords agreed and no step up to saving the new one failed; when it reports a revert |
| Credentials.UnlinkedStays | backend/internal/server/credentials.go:71-77 | a pooler that has lost its record is never touched by a rotation again |
| Credentials.PoolerLinkedIff | backend/internal/server/pooling.go:94-113 | main result: a pooler stays linked through a run if and only if no successful rotation removed its container and then failed to create or record the new one |
| Credentials.PoolerAfterRotation | backend/internal/server/credentials.go:71-77 | when the pooler uses the new password, and when a later rotation can still put it right |
| Alerts.AlertService.SweepAlertRulesOnce | backend/internal/server/alerts.go:208-291 | a sweep over rows read beforehand does to each rule what visiting it alone does |
| Alerts.AlertService.CheckRule | backend/internal/server/alerts.go:237-290 | one turn of the loop: cooldown, delta, the three writes that may be lost, the notification |
| Alerts.FiresIff | backend/internal/server/alerts.go:237-259 | when a rule fires, read off row and visit: enabled, fifteen minutes after its last saved trigger, and the reading, less the saved count for deadlocks, at its threshold or above |
| Alerts.LastValueTells | backend/internal/server/alerts.go:259 | the last value of a rule is the one its last saved check compared, and a visit changes no setting |
| Alerts.NoticeTells | backend/internal/server/alerts.go:265-273 | a notice carries the value that was compared |
| Alerts.RuleAsEntered | backend/internal/server/alerts.go:37-122 | on every run a rule keeps the metric and the threshold it was created with, and is enabled as it was last switched |
| Alerts.NotificationsSpaced | backend/internal/server/alerts.go:189 | main result: on every run two notifications of a rule are at least 15 minutes apart whenever the earlier one's trigger time was saved |
| Alerts.CooldownIff | backend/internal/server/alerts.go:289 | a firing is followed by a full cooldown, whatever is measured, if and only if its trigger time was saved |
| Alerts.DeadlocksAddUp | backend/internal/server/alerts.go:252-257 | main result: all that was ever measured for a rule adds up to the server's total at the last saved count plus what the visits with a lost counter write measured; the count starts from zero |
| Alerts.DeadlocksOnceIff | backend/internal/server/alerts.go:252-257 | while the total never falls, every deadlock up to the last count is measured exactly once if and only if no visit that measured one lost its counter write |
| Alerts.MeasuresNewIff | backend/internal/server/alerts.go:171 | main result: of the deadlocks that happened since the check before, or since the creation of the rule, a check measures exactly those if and only if the total lost in between, to dropped databases or reset statistics, exactly what was counted on top: nothing after a saved counter, what the check before measured after a lost one, the whole total at creation for a first check |
| Alerts.LostCounterNotifiesTwice | backend/internal/server/alerts.go:255 | a lost counter write: five deadlocks in all, two notifications of five |
| Alerts.OldDeadlocksNotify | backend/internal/server/alerts.go:27 | a rule created after five deadlocks notifies of them at its first check |
| Alerts.DroppedDatabaseHides | backend/internal/server/databases.go:48-62 | five deadlocks are counted, their database is dropped and two more happen: the check measures -3 and stays silent |

## Left out

- Floating-point rounding, saturation of Go durations, and any time zone but UTC.
- The JSON breakdown columns of the metric table, the collectors that fill it, and `ParseHistoryRange`.
- Concurrency inside one operation: operations on one table are serialised, throttle check and record of one
  key do not overlap, and rotations do not overlap.
- Users, password hashing, token hashing and the log of login attempts; tokens and passwords are opaque.
- Deleting a user, which removes that user's session rows, and the ordering of the session screen.
- The error path of `getBackupAndServer`, after which a row stays in "running" for ever.
- A backup inserted for a server that is gone is not ruled out, although the foreign key refuses it.
- Scratch files and the size of a dump; the remote drive is a source of fresh file ids.
- Quoting in `pg_hba.conf`; which connections a rule matches is an arbitrary predicate.
- Bytes that are not valid UTF-8, and RFC 3339 parsing, which is a parameter of the log functions.
- Type conversion errors of parameters, collations and case folding beyond ASCII: a value knows how it
  compares with a parameter.
- How ORDER BY compares the values of a column: a row has a rank, and rows of one rank come in any order.
- Creating and dropping tables, inserting rows and free SQL; also `RotateRolePassword`, which keeps no state.
- An ALTER ROLE that takes effect although it reports an error, and a container step that fails half-way.
- A rule deleted or switched while a sweep that has already read it is under way, and delivery of
  notifications, retries and the text of a message.
- HTTP handlers, Docker, WebSocket terminal, git deployments, proxy configuration and the frontend.
- AddThenDelete: assumes that no earlier line reads the same, since deletion takes the first that does.
- RunMeaning: assumes that a sample reaches the table within the raw retention window of its time stamp, as the
  collector's clock guarantees.
- PagesTileIff: assumes that no row is inserted, changed or deleted between the queries, since such a change moves
  the rows after it whatever the order.
- TableRefines: does not model two processes sweeping the same policies.
- RecordRaw: does not model the JSON breakdown columns, which the rollup neither reads nor writes.

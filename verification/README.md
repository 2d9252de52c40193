# SysSentient, verified

A Dafny model of the stateful engines of SysSentient, a monitoring daemon that samples hosts, keeps their
history in tiers, raises alerts, and ships samples from agents to a server. Nothing is executed; everything
said below is proved by `dafny verify dfyconfig.toml`.

| files | engine |
|---|---|
| `Retention`, `Folding`, `Readings`, `RetentionRuns`, `Conservation`, `Reruns` | the raw, minute and five-minute tiers: what the SQL statements of one pass do, what the columns of their rows tell, and whole runs of ingest and interrupted passes |
| `Selection`, `Lineage`, `Losses`, `Splits` | which saved samples every row counts, over any run; exactly which samples are lost, and when none is |
| `Archive`, `Columns`, `Storage`, `Maintenance` | the archive file and its restore, which columns survive it, the store as an object, and the pass that rolls up, archives and prunes |
| `ArchiveRuns` | whole runs of passes with archives and restores: what is held where, and when nothing is ever lost |
| `SqlTime`, `Calendar` | the timestamp text every range predicate compares, and that it is the right Gregorian date |
| `Alerting`, `Thresholds`, `Timeline`, `Fleet`, `Reports` | the alert evaluator, what it takes for a breach, the life of one (host, rule), the fleet, and what a report says |
| `Json`, `SpoolFormat`, `LegacySpool`, `Spool`, `Delivery` | the agent's spool file, byte by byte, the spool object, and delivery over whole runs |
| `RateLimiter` | the token bucket with its sweep |
| `AnalysisResponse`, `ProcStat`, `ProcessSummary`, `SummaryTexts` | action-id de-duplication, the `/proc/<pid>/stat` scanner, the process summary printer and parser |
| `CircuitBreaker`, `Sessions` | the circuit breaker under interleaving, sliding session expiry |

Where the source changes state in place the model is a class or a method with loops, proved equal to a function
of the old state; the promises of the source are then lemmas about those functions and about whole runs.

## What was found

Properties that do not hold of the code as one would wish, with the exact condition under which they do:

- **A bucket split by a cutoff is overwritten.** Both folds use INSERT OR REPLACE, so a row written by one pass
  is replaced, not merged, when samples of its bucket are folded by a later one. `Losses.RunsAccount` counts what
  any run loses, with late samples, interrupted passes and cutoffs at any instant: exactly the samples overtaken by
  a fold of their bucket after they had left the tier it reads, and those saved between the fold and the delete
  of one pass. `Losses.RunsConserveIff` is the resulting condition. When no sample comes late,
  `Splits.TimelyRunsConserveIff` puts it in terms of the samples and the cutoffs alone: a completed pass has
  lost nothing if and only if no raw cutoff has split a minute, and no minute cutoff five minutes, between two
  samples that have both been folded since and of which the earlier has not aged out.
  `Losses.LateSampleErasesMinute` gives the loss for a late sample, `Reruns.SplitMinuteLosesASample` for a split
  minute; `Conservation.RunsConserve` shows that aligned cutoffs are enough.
- **The archive's cutoff is inclusive, the folds' and deletes' is not** (`Range.To` is compared with `<=`). A row
  that starts exactly at its tier's cutoff is archived and deleted without having been folded
  (`Upkeep.RowAtCutoffIsArchivedUnfolded`). `Upkeep.ArchivingRunConservesIff` gives the condition on the tables before
  the pass.
- **The archive reads at most 20000 rows, and none from before 1970, but deletes every row up to the cutoff.**
  `Archive.ArchiveLosesNothingIff` is the exact condition.
- **Restoring drops two columns.** A point carries neither `disk_iops_avg` nor `memory_used_max`, and has 0 for a
  NULL. A row comes back as it was if and only if it has exactly the carried columns (`Archive.ArchiveRoundTrip`).
  Every row that a pass writes has the other two besides (`Columns.PassRowsLoseColumns`), so each of them changes,
  though not on the carried columns (`Columns.PassComplete`). Restoring over rows that are still in the table, which
  the documentation calls safe, wipes the two columns there as well (`Archive.RestoreOverlap`). The next pass folds
  restored minute rows again: the five-minute row it writes lacks the two columns if all its minute rows were
  restored (`Columns.FoldOfRestored`), and if only some were, its `disk_iops_avg` is diluted
  (`Columns.MixedMergeDilutes`).
- **Restoring is safe for samples only between passes.** A restore by itself takes no sample out of the raw table,
  the minute rows and the files (`ArchiveRuns.RestoreHeld`), and restores between passes never cost one
  (`ArchiveRuns.ArchiveKeepsAll`). One that comes between the fold and the raw prune of a pass can replace the row of
  a sample that the prune then deletes (`ArchiveRuns.RestoreUncovers`).
- **A stat line longer than the 512-byte buffer is read up to the cut.** The first n fields are seen as they are if
  and only if they fit (`ProcStat.SeenWholeIff`), and a number is read right if and only if its field fits or it is
  zero (`ProcStat.ScanReadsNumbers`); `ProcStat.LongNameIsMisread` is an input that goes wrong. Linux prints no such
  line: its numbers have at most 20 digits and its user processes' names at most 15 bytes
  (`ProcStat.ShortLinesFit`).
- **The rate limiter's sweep rounds the time to fill a bucket down to whole seconds.** It drops a bucket that is not
  full yet, and so admits requests it should refuse, unless the bucket fills in whole seconds, up to one
  nanosecond: `RateLimiting.InvisibleIff`; and the bound on admissions fails of exactly the same configurations:
  `RateLimiting.AdmissionBoundIff`. The server's three limiters do fill so (`RateLimiting.ConfiguredLimiters`).
- **A process without a name breaks the summary.** The parser's lazy group needs one character, so a list of printable
  names survives the round trip if and only if none is empty (`ProcessSummary.RoundTripIff`);
  `compactProcessName` yields an empty name exactly for one that is all white space.

## Model

| member | source | states |
|---|---|---|
| Retention.MinuteKeysNonEmpty | internal/storage/rollup.go:90-118 | GROUP BY produces a minute row exactly for the buckets that hold a sample older than the cutoff |
| Folding.TwoLevelFoldIsDirect | internal/storage/rollup.go:80-153 | for every collection of samples, folding to minutes and the minutes to five minutes gives the row that aggregating the samples straight into five minutes gives: same count, every average (weighted by `samples`) and every maximum, and the row exists exactly when the bucket holds a sample |
| Folding.MinuteRowsAccumulate | internal/storage/rollup.go:122-150 | the counts, weighted sums and maxima over any run of exact minute rows are those of the samples in the span |
| Readings.FoldedRowsTell | internal/storage/rollup.go:95-118 | the minute fold writes, for every column with a maximum, the highest reading among exactly the samples of the minute older than the cutoff, attained by one of them, and for every column but memory_total a mean that lies between their readings |
| Readings.MeanMoves | internal/storage/rollup.go:105-111 | a mean is of all n samples alike: changing one reading by d changes it by d / n |
| Readings.MergedRowsTell | internal/storage/rollup.go:134-146 | the five-minute fold writes of every column the highest maximum of the rows it merges, and none exactly when none has one |
| Readings.CompletedRowsTell | internal/storage/rollup.go:80-153 | over every run with interrupted passes, when a pass completes every row of either tier has the highest readings and the means of all samples ever saved in its bucket |
| RetentionRuns.NextPreserves | internal/storage/rollup.go:80-180 | every ingest, pass start, statement and stop keeps the invariant that each tier's rows are exact on the span it answers for |
| RetentionRuns.RunPreserves | cmd/daemon/maintenance.go:79-135 | the invariant holds over every run in which passes stop between any two statements and are rerun, interleaved with ingest |
| RetentionRuns.CompletedPassIsIdeal | cmd/daemon/maintenance.go:79-135 | whenever a pass completes, the tables are a function of everything ever saved and of the three cutoffs: raw samples after the first, exact minute rows between the first two, exact five-minute rows between the last two |
| Conservation.IdealConserves | internal/storage/rollup.go:155-180 | in those tables every saved sample is counted exactly once, as a raw row or in one rolled-up row, unless its five-minute row has aged out |
| Conservation.RunsConserve | internal/storage/rollup.go:80-180 | over every such run, at the end of each completed pass raw rows plus the `samples` of all rows plus expired samples equals all samples saved |
| Conservation.PassAccounting | internal/storage/rollup.go:80-180 | for any tables and any cutoffs, the balance of one pass in places at which samples are counted (a raw sample and its row are two while a pass is under way): it gives up exactly those of the aged-out and of the replaced rows |
| Lineage.RunSound | internal/storage/rollup.go:80-180 | over every run, with samples of any age, passes stopped anywhere and cutoffs that only do not go back, every row counts exactly the samples the ledger says, as many as its `samples`, and a sample that has left the raw table and was not overtaken is in the row of its minute, then of its five minutes, until it ages out |
| Lineage.FoldRemerges | internal/storage/rollup.go:122-150 | the five-minute fold writes exactly the buckets that have a minute row before the cutoff, and the new row counts exactly the samples those rows count |
| Losses.Partition | internal/storage/rollup.go:80-180 | when a pass has completed every saved sample is in the raw table, counted by a row, aged out, or lost, and in no two of these |
| Losses.RowsDisjoint | internal/storage/rollup.go:80-180 | and no sample is counted by two rows, of either tier |
| Losses.RunsAccount | internal/storage/rollup.go:80-180 | for every such run, at the end of each completed pass raw rows plus the `samples` of all rows plus aged-out samples plus samples lost equals all samples saved, where the lost ones are those overtaken by a fold or saved between fold and delete |
| Losses.RunsConserveIff | internal/storage/rollup.go:95-112 | for every such run, a completed pass conserves if and only if every sample so overtaken has aged out |
| Splits.TimelyRunsConserveIff | internal/storage/rollup.go:88-148 | for every run without late samples, with arbitrary cutoffs that do not go back, a completed pass conserves if and only if no raw cutoff has split a minute, and no minute cutoff five minutes, between samples that were both folded and have not aged out |
| Reruns.Settled | internal/storage/rollup.go:83-86 | a statement of a pass that has run changes nothing when it runs again at any later point of the pass |
| Reruns.ResumeIsRun | internal/storage/rollup.go:83-86 | stopping a pass after any statement and running any part of it again with the same cutoffs gives the tables of one uninterrupted pass |
| Reruns.DeletedMinuteIsCounted | internal/storage/rollup.go:122-176 | with no alignment assumption, a minute row that a pass deletes has its place among the rows its surviving five-minute row was merged from, unless that bucket is past the last cutoff |
| Reruns.DeletedMinutesApart | internal/storage/rollup.go:122-147 | and different minute rows have different places there |
| Reruns.DeletedSampleIsCounted | internal/storage/rollup.go:90-176 | with no alignment assumption, a raw sample that a pass deletes is, as often as it is in the table, in the group of a minute row that survives or has its own place in the merge of a surviving five-minute row |
| Losses.LateSampleErasesMinute | internal/storage/rollup.go:88-116 | when a pass has completed and a sample then comes for a minute that has a row, the next pass that folds it loses every sample that row counted, unless they age out |
| Reruns.SplitMinuteLosesASample | internal/storage/rollup.go:112 | for any two samples of a minute that a raw cutoff separates, two passes leave only one counted |
| Archive.ArchiveNeverLoses | internal/storage/archive.go:40-79 | however an archiving ends, by an error or by a crash at any point, each row is in the table or in the finalised file, given at most 20000 rows none of which predates 1970 |
| Archive.ArchiveFiles | internal/storage/archive.go:52-63 | whatever way an archiving ends, its file is as it was before or complete, and no other finished file changes |
| Archive.ArchiveLosesNothingIff | internal/storage/archive.go:40-79 | a completed archiving loses nothing if and only if nothing was read or everything deleted was read |
| Archive.RestoreTwice | internal/storage/archive.go:115-172 | restoring an archive any further time changes nothing |
| Archive.ArchiveRoundTrip | internal/storage/archive.go:115-172 | archiving and restoring reinstates exactly the archived rows and leaves the others as they were; an archived row comes back with exactly the carried columns, equal on those if and only if none of them was NULL, and as it was if and only if it had those and no others |
| Archive.WholeRowLosesColumns | internal/storage/archive.go:142-147 | a row with all columns that a fold fills comes back without disk_iops_avg and memory_used_max and otherwise equal |
| Archive.RestoreOverlap | internal/storage/archive.go:115-119 | restoring over a row that is still in the table leaves it as it is if and only if it has exactly the carried columns |
| Columns.PassComplete | internal/storage/rollup.go:95-144 | on the columns a point carries, no row that a pass writes has a NULL, so those columns survive archiving and restoring |
| Columns.PassRowsLoseColumns | internal/storage/rollup.go:95-144 | every row that a pass leaves in a store without restored rows loses disk_iops_avg and memory_used_max, and only these, by being archived and restored |
| Columns.FoldOfRestored | internal/storage/rollup.go:122-147 | a five-minute row folded from restored rows replaces the one that was there and has the two columns if and only if one of its minute rows was not restored |
| Columns.MixedMergeDilutes | internal/storage/rollup.go:138 | merging a row that has disk_iops_avg with one that lost it gives an average divided by the samples of both, right if and only if it is zero or the other row is empty |
| ArchiveRuns.RunLabelled | cmd/daemon/maintenance.go:79-165 | over every run of saves, passes that archive between fold and delete, archives that end in any way and restores at any time, every row of the table and every point of a finished file counts exactly the samples of its bucket that the ledger says, as many as its `samples` |
| ArchiveRuns.RunColumns | internal/storage/archive.go:115-172 | over every such run every row has all columns or exactly the carried ones, hence no NULL among those, and all of them until a file is restored |
| ArchiveRuns.RunAccounted | internal/storage/archive.go:20-28 | over every such run in which minute rows are deleted after they were archived in full under a new name, a sample is in the raw table, in a minute row or in a finished file if and only if no fold replaced the only row that counted it and no raw prune deleted it while it had none |
| ArchiveRuns.RestoreHeld | internal/storage/archive.go:115-119 | in these runs a restore by itself, at any time and over any rows, takes no sample out of the raw table, the minute rows and the files |
| ArchiveRuns.RestoreUncovers | internal/storage/archive.go:115-119 | a restore between the fold and the raw prune of a pass, of a file that has the minute of an old raw sample that no file has, makes the prune lose that sample |
| ArchiveRuns.ArchiveKeepsAll | internal/storage/archive.go:20-28 | if besides no sample comes late, raw cutoffs fall on whole minutes and restores come between passes, every sample ever saved is at every moment in the raw table, in a minute row or in a finished file, wherever the other cutoffs fall and wherever passes and archives stop |
| ArchiveRuns.FiledComesBack | internal/storage/archive.go:115-172 | a sample in a finished file is in a minute row again when that file is restored |
| Archive.AnswerExists | internal/storage/timerange.go:151-182 | whatever the table holds, some answer meets what is assumed of the range query |
| Storage.Store.Save | internal/storage/sqlite.go:395-420 | ingest adds one raw row and nothing else |
| Storage.Store.Rollup | internal/storage/rollup.go:80-153 | the two folds in order; an error in one leaves exactly the statements before it |
| Storage.Store.PruneTiers | internal/storage/rollup.go:155-180 | the three deletes in order; an error in one leaves exactly the deletes before it |
| Storage.PruneAfterRollup | cmd/daemon/maintenance.go:88-108 | rolling up and then pruning, cut off anywhere in the prune, is a pass cut off there |
| Storage.Store.ArchiveTier | internal/storage/archive.go:30-80 | the database and the directory however the call ends, by a crash at any point or by an error, on any answer the query may give |
| Storage.Store.RestoreArchive | internal/storage/archive.go:120-172 | all points of the file are inserted and counted, or on a bad line the table is unchanged and the count is of the points before it |
| Upkeep.Maintenance.ArchiveTiers | cmd/daemon/maintenance.go:137-165 | the minute tier is archived before the five-minute tier and a tier that fails is passed over |
| Upkeep.ArchivedRowsAreFiled | cmd/daemon/maintenance.go:146-153 | under every combination of failures every row that a pass deletes by archiving has its point in the file of its own tier, which holds rows of that tier only, if the tier has at most 20000 rows, none from before 1970; finished files of other names are as they were |
| Upkeep.NamedPathsAreSeparate | internal/storage/archive.go:47-57 | as the store names them, the archives of the two tiers are different files, and neither is a temporary one |
| Upkeep.Maintenance.Run | cmd/daemon/maintenance.go:79-135 | the whole pass under every combination of failures: a failed roll-up keeps everything from being archived or pruned, and the vacuum counter moves exactly on every n-th tick that compacts |
| Upkeep.RunIsPass | cmd/daemon/maintenance.go:88-108 | without archiving, whatever fails, a pass leaves what some first statements of an uninterrupted pass leave, so it can be resumed |
| Upkeep.ArchivingRun | cmd/daemon/maintenance.go:88-165 | under every combination of failures a pass with archiving leaves what one without leaves, less exactly the rows up to the cutoff of each tier whose archiving went through; once the prune has gone through, these are the rows that start at that cutoff |
| Upkeep.ArchivingRunConservesIff | internal/storage/archive.go:40-76 | under every combination of failures the tables count as many samples fewer as the deleted rows do; when roll-up and prune go through that is none if and only if, before the pass, no bucket that starts at the cutoff of a tier whose archiving goes through counts samples or is about to be folded from any |
| Upkeep.RowAtCutoffIsArchivedUnfolded | internal/storage/archive.go:71-76 | a single minute row that starts at the cutoff ends in the file and in no table, its samples counted by no five-minute row |
| Upkeep.QueryExists | internal/storage/timerange.go:151-182 | an engine that answers every range query exists, so the theorems about archiving are not empty |
| SqlTime.EarlierIffBefore | internal/storage/sqlite.go:34-39 | the calendar is an order isomorphism: comparing civil times field by field is comparing instants |
| SqlTime.SqlTimeOrder | internal/storage/sqlite.go:22-39 | for all times of the years 0 to 9999 byte order of the texts, with trailing fraction zeros and a bare dot dropped, is the order of the instants cut to milliseconds, and equal texts mean equal instants |
| SqlTime.CivilOf | internal/storage/sqlite.go:34-39 | every instant in range has a valid civil time that stands for exactly it |
| Calendar.DayNumberIsGregorian | internal/storage/sqlite.go:34-39 | the day numbers are those of the closed form of the Gregorian calendar |
| Calendar.ValidDays | internal/storage/sqlite.go:34-39 | the valid dates of a month are exactly those before the first of the next in that closed form |
| Calendar.CivilOfIsGregorian | internal/storage/sqlite.go:38 | hence the civil time of every instant is its Gregorian date and time of day |
| Calendar.TextReadsBack | internal/storage/sqlite.go:34 | the stored text shows every field in decimal at its place, and the milliseconds without trailing zeros |
| Calendar.OlderIsLess | internal/storage/rollup.go:112 | what the WHERE clauses of a pass compare as text are the ages that the statements are modelled with |
| Calendar.CutoffsAreAges | internal/storage/rollup.go:161-175 | a raw sample leaves when it is more than rawHours old, a row when its start is more than minuteDays or fiveMinuteDays old |
| Calendar.CutoffDates | internal/storage/rollup.go:122 | a cutoff in days is the same time of day so many calendar days before |
| SqlTime.MinuteBucketIsFloor | internal/storage/rollup.go:99-103 | the bucket string the first fold makes of a stored timestamp is the stored form of the minute it lies in |
| SqlTime.FiveBucketIsFloor | internal/storage/rollup.go:126-131 | the bucket string the second fold makes of a minute's bucket string is the stored form of the five minutes the sample lies in |
| Calendar.BucketsAreStored | internal/storage/rollup.go:99-132 | the bucket strings the folds make are the stored texts of the starts of the buckets that the tiers are modelled with |
| Alerting.FindWorstDisk | internal/alerting/rule.go:206-220 | the fullest usable filesystem: an upper bound of all, attained or zero, found exactly when one is usable |
| Thresholds.MatchesIff | internal/alerting/rule.go:121-134 | a value matches exactly when it lies above, at or below the threshold as the comparator says; an unknown comparator matches nothing |
| Thresholds.ComparatorLaws | internal/alerting/rule.go:121-134 | upper limits stay broken by more and lower ones by less, only the "or equal" comparators match at the threshold, and each is the negation of its opposite |
| Thresholds.MetricValueIff | internal/alerting/rule.go:191-234 | a metric has a value exactly when its own fields have one: percentages of the own total, the fullest usable filesystem, a temperature above zero |
| Alerting.Evaluator.ReplaceRules | internal/alerting/evaluator.go:76-93 | exactly the alerts whose rule still exists are kept, unchanged |
| Alerting.Evaluator.Acknowledge | internal/alerting/evaluator.go:122-134 | found exactly when an alert of that host and rule is active; only its flag changes |
| Alerting.Evaluator.ForgetHost | internal/alerting/evaluator.go:153-164 | exactly the alerts of other hosts remain |
| Alerting.Evaluator.Evaluate | internal/alerting/evaluator.go:166-254 | the alerts tracked and the transitions reported, in rule order, after one sample |
| Thresholds.SustainedBreachFires | internal/alerting/evaluator.go:166-254 | if the readings of a host lie beyond a rule's threshold for the hold time, the alert is firing |
| Thresholds.QuietRunIsSilent | internal/alerting/evaluator.go:166-254 | over every run, with rules reloaded at will, a host whose readings never lie beyond the threshold of a rule in force has no alert of it tracked or reported |
| Thresholds.CpuBelowIsSilent | internal/alerting/rule.go:178 | with the rule every installation starts with, a CPU never above 90 raises nothing |
| Thresholds.CpuAboveFires | internal/alerting/rule.go:178 | and one above 90 for five minutes is firing |
| Fleet.NextLocal | internal/alerting/evaluator.go:41-45 | an operation about another host is invisible to a host, and any other acts on its view as on the whole |
| Fleet.NonInterference | internal/alerting/evaluator.go:41-254 | for every interleaving of samples, acknowledgements, reloads and forgotten hosts, what is reported and active for a host is what a run of only its own and the global operations gives |
| Timeline.Alternate | internal/alerting/evaluator.go:191-250 | firing and resolved events strictly alternate, starting with firing |
| Timeline.FiringReportIsJustified | internal/alerting/evaluator.go:206-222 | whenever the evaluator reports a firing alert, samples of that host have breached that rule for at least its hold time with no clear sample between |
| Timeline.ResolvedReportIsJustified | internal/alerting/evaluator.go:224-249 | whenever it reports a resolved alert, samples of that host have been clear of that rule for at least the settle time with no breach between |
| Timeline.HeldBreachIsFiring | internal/alerting/evaluator.go:213-222 | conversely, after samples have breached for the hold time the evaluator holds a firing alert |
| Timeline.HeldClearIsGone | internal/alerting/evaluator.go:224-249 | conversely, after samples have been clear for the settle time the evaluator holds no alert |
| Timeline.ReportsBound | internal/alerting/evaluator.go:230-241 | whatever the samples of the fleet do, the evaluator reports for one (host, rule) in a window of length T at most 2 + 2 * floor(T / (hold + settle)) transitions |
| Timeline.EvalRulesSteps | internal/alerting/evaluator.go:175-250 | the rules together act on a (host, rule) exactly as the one rule with that id: one step of its machine, whatever the other rules do |
| Timeline.RunFollowsTimeline | internal/alerting/evaluator.go:166-254 | over every run of the fleet with unique rule ids and a fixed rule set, one (host, rule) reports the events and ends in the phase of its own samples' timeline; unavailable metrics change nothing |
| Timeline.TransitionsAlternate | internal/alerting/evaluator.go:166-254 | hence what the evaluator reports for one (host, rule) strictly alternates, starting with firing |
| Reports.EvalRulesGrounded | internal/alerting/evaluator.go:175-250 | every transition carries the sample's value and host, and the rule and the times that justify it |
| Reports.ReportsAreGrounded | internal/alerting/evaluator.go:166-254 | after any run, with reloads, acknowledgements and forgotten hosts, a report is grounded: fired now on a match after the hold time, or resolved now on a non-match, clear since at least the settle time and fired before that |
| Reports.EvalRuleContinues | internal/alerting/evaluator.go:183-248 | what is tracked or reported has the sample's value; a new alert starts now, unacknowledged, and describes its rule; an old one stays the same activation, acknowledged or not |
| Reports.RunDescribed | internal/alerting/evaluator.go:188-199 | over every run, with reloads, everything tracked or reported names its rule, metric, severity and threshold as some rule that has been in force has them |
| Json.UnaryIsLawful | internal/agent/spool.go:205-273 | the facts assumed of JSON encoding and decoding can be met together, by samples of infinitely many values and arrays that hold some |
| SpoolFormat.DecodeSpool | internal/agent/spool.go:221-273 | the loop over lines after an optional legacy array, skipping blank and corrupt lines |
| LegacySpool.LinesRead | internal/agent/spool.go:256-267 | the lines of a file give, in order, the samples of those that are not blank and decode |
| LegacySpool.ArrayFirst | internal/agent/spool.go:239-245 | the samples of a legacy array come first, then those of the lines after its last byte |
| LegacySpool.ArrayAlone | internal/agent/spool.go:239-245 | a file that is an array and white space holds exactly the samples of the array |
| LegacySpool.BrokenArray | internal/agent/spool.go:246-254 | of a file with a broken array exactly the lines below its first are read |
| LegacySpool.LegacyStaysInFront | internal/agent/spool.go:231-270 | the samples of a good array stay in front of the file after any number of appends, followed by the appended samples if nothing else was there |
| SpoolFormat.LinesCut | internal/agent/spool.go:246-270 | cutting a file at a newline cuts its samples: a bad line costs only itself |
| SpoolFormat.BrokenArrayStays | internal/agent/spool.go:231-245 | nothing appended after a broken legacy array, in whole or in part, can make it decode |
| SpoolFormat.AppendDecodes | internal/agent/spool.go:79-100 | for every byte content of the file, terminated or not, corrupt or with a good or broken legacy array, an append adds exactly the sample at the end of the decoded list |
| SpoolFormat.AppendCutShort | internal/agent/spool.go:79-146 | an append cut short after any number of bytes costs at most the sample being appended, and not even that if only the final newline is missing |
| SpoolFormat.WrittenDecodes | internal/agent/spool.go:275-305 | what the spool writes decodes to what was written |
| SpoolFormat.TruncatedDecodes | internal/agent/spool.go:221-305 | a written file cut at any byte decodes to exactly the samples whose lines fit: a damaged tail costs only itself |
| SpoolFormat.DecodeMarshals | internal/agent/spool.go:221-273 | whatever was decoded can be written again, so compaction cannot fail on it |
| Spooling.Spool.WriteLocked | internal/agent/spool.go:275-305 | the file holds exactly the given samples and the cached count is theirs |
| Spooling.Spool.Append | internal/agent/spool.go:51-118 | a failed encoding changes nothing; otherwise the sample is last, the oldest are dropped only on overflow and down to the capacity, and the length stays within capacity plus slack |
| Spooling.SlackIsATenth | internal/agent/spool.go:148-155 | the file overshoots its capacity by at most a tenth, but at least by one sample |
| Spooling.Spool.Peek | internal/agent/spool.go:157-172 | the oldest n samples, all for n <= 0, without changing the file |
| Spooling.Spool.Commit | internal/agent/spool.go:174-191 | exactly the oldest n samples are gone |
| Spooling.Spool.Flush | internal/agent/agent.go:128-155 | the batch pushed is the oldest; it is removed whole when acknowledged, and nothing changes otherwise |
| Delivery.Client.Enqueue | internal/agent/agent.go:114-117 | everything ever enqueued stays accounted for; the call is a step of the runs below |
| Delivery.Client.Flush | internal/agent/agent.go:128-155 | samples leave by acknowledgement as one in-order batch, or not at all; the call is a step of the runs below |
| Delivery.StepAccounted | internal/agent/spool.go:51-191 | every enqueue, flush, restart and torn append keeps the account, and an enqueue keeps the bound on the length |
| Delivery.RunAccounted | cmd/daemon/main.go:499-536 | over every sequential run the spool is the tail of what was enqueued, each sample that left was acknowledged or evicted oldest first, and the acknowledged samples in order are exactly the acknowledged batches |
| RateLimiting.RateLimiter.constructor | internal/server/ratelimit.go:34-49 | unusable arguments are corrected, so every limiter built has a usable configuration |
| RateLimiting.RateLimiter.SweepLocked | internal/server/ratelimit.go:80-95 | exactly the buckets idle for longer than the cut-down fill time go, at most once a minute |
| RateLimiting.RateLimiter.Allow | internal/server/ratelimit.go:51-78 | the answer and the whole new table for one request |
| RateLimiting.RunsMatch | internal/server/ratelimit.go:51-95 | if buckets fill in whole seconds, the swept limiter answers every sequence of requests like one that never drops a bucket |
| RateLimiting.RevealingReveals | internal/server/ratelimit.go:80-95 | if they do not, a concrete sequence of requests gets different answers, for every such configuration |
| RateLimiting.InvisibleIff | internal/server/ratelimit.go:51-95 | the sweep is invisible if and only if buckets fill in whole seconds (up to one nanosecond) |
| RateLimiting.ConfiguredLimiters | internal/server/server.go:87-91 | the sweep of the server's analysis, log and login limiters is invisible |
| RateLimiting.TableIsRecent | internal/server/ratelimit.go:77-95 | over every run the table holds only buckets used within the time to fill up and a minute, and sweeps are at least a minute apart |
| RateLimiting.AdmissionBound | internal/server/ratelimit.go:51-78 | in any window of length T one key is admitted at most burst + floor(T / perRequest) times, whatever the other keys do, if buckets fill in whole seconds |
| RateLimiting.AdmissionBoundIff | internal/server/ratelimit.go:51-95 | that bound holds of every run if and only if buckets fill in whole seconds: otherwise two whole bursts fit into less than the time that refills one |
| RateLimiting.RefusedIff | internal/server/ratelimit.go:51-78 | the limiter refuses a request if and only if admitting it would break the admission bound in some window that ends with it, so it is the most generous limiter that keeps the bound |
| AnalysisResponse.FreeSuffix | internal/ai/response.go:46-54 | the unbounded suffix search ends, at the first free candidate |
| AnalysisResponse.AheadShrinks | internal/ai/response.go:46-54 | why it ends: every taken candidate uses up one of the finitely many ids seen |
| AnalysisResponse.TrimKeeps | internal/ai/response.go:23-36 | trimming cuts white space at both ends and nothing else |
| AnalysisResponse.TrimLayout | internal/ai/response.go:23-36 | spaces, tabs and line ends around a visible text are all cut |
| AnalysisResponse.TrimBlankIff | internal/ai/response.go:23-36 | a text is trimmed to nothing exactly when it is all white space |
| AnalysisResponse.NormalizeList | internal/ai/response.go:32-57 | the loop with its suffix search, dropping actions that say nothing |
| AnalysisResponse.NormalizeAnalysis | internal/ai/response.go:17-58 | status, summary and details with their defaults, and the list |
| AnalysisResponse.IdsDistinct | internal/ai/response.go:32-57 | for every list the emitted ids are pairwise distinct and not empty, and the ids marked as seen are exactly the ids emitted |
| AnalysisResponse.LastAction | internal/ai/response.go:34-56 | each action is dropped exactly when command and description are blank; otherwise it is emitted trimmed, under its own id if no earlier action has it and a numbered variant if one has |
| AnalysisResponse.VariantNumber | internal/ai/response.go:43-55 | the number of a variant is how often its id has come up, asked for or given as a variant, or the first one after that whose variant is free |
| AnalysisResponse.NormalizedIsPresentable | internal/ai/response.go:17-30 | the status is a known one, summary and details are trimmed and never empty, and what was usable is kept |
| AnalysisResponse.NormalizeTwice | internal/ai/response.go:17-58 | normalising a normalised analysis changes nothing |
| AnalysisResponse.NormalizedTextIsFixed | internal/ai/response.go:11-65 | normalised text is a fixed point, for any encoder and decoder that round-trip |
| ProcStat.ParseUint | internal/collector/proctimes_linux.go:136-147 | the loop gives the value of the leading digits |
| ProcStat.ParseDigits | internal/collector/proctimes_linux.go:136-147 | parsing reads back any number from its decimal text |
| ProcStat.ParseStops | internal/collector/proctimes_linux.go:136-147 | and stops at the first byte that is not a digit |
| ProcStat.ResidentIs | internal/collector/proctimes_linux.go:133 | resident bytes are pages times page size, less a multiple of 2^64 |
| ProcStat.FindClose | internal/collector/proctimes_linux.go:84-95 | the last closing parenthesis, or none |
| ProcStat.ScanFields | internal/collector/proctimes_linux.go:97-125 | the byte loop takes tokens 12, 13 and 22 of the non-empty stretches between spaces, and stops there |
| ProcStat.TokensOfJoin | internal/collector/proctimes_linux.go:97-125 | splitting at spaces undoes joining with them |
| ProcStat.FieldsOfLayout | internal/collector/proctimes_linux.go:84-125 | for every command name, with spaces and parentheses in it, the tokens seen are exactly the fields after it |
| ProcStat.Scan | internal/collector/proctimes_linux.go:61-134 | ticks and resident bytes from those tokens; failure exactly without a parenthesis followed by enough fields |
| ProcStat.CutLayout | internal/collector/proctimes_linux.go:73-125 | on a stat line of any length every field that fits the buffer is seen whole, and of the first that does not fit at most a proper part |
| ProcStat.SeenFields | internal/collector/proctimes_linux.go:73-125 | on a stat line of any length a field is seen exactly when the buffer reaches it, and as far as the buffer reaches |
| ProcStat.SeenWholeIff | internal/collector/proctimes_linux.go:73-125 | the first n fields are seen as they are if and only if they fit the buffer |
| ProcStat.ScanInvertsLayout | internal/collector/proctimes_linux.go:61-134 | on a stat line of any length the scan fails exactly when the buffer does not reach a thirteenth field, and otherwise takes what the buffer holds of fields 12, 13 and 22 |
| ProcStat.ScanReadsNumbers | internal/collector/proctimes_linux.go:61-147 | a number the kernel printed in one of these is read back if and only if it is zero or its field fits the buffer |
| ProcStat.ScanReadsStat | internal/collector/proctimes_linux.go:97-134 | from the line of any process, with any name, whose field rss lies in the buffer, the scan reads the fields utime, stime and rss of proc(5) |
| ProcStat.ShortLinesFit | internal/collector/proctimes_linux.go:73-75 | after a name of ordinary length fields of at most 20 bytes fit |
| ProcStat.LongNameIsMisread | internal/collector/proctimes_linux.go:73-75 | a line that goes wrong: its thirteenth field is cut and not read as printed |
| ProcessSummary.FormatTopProcesses | internal/models/metrics.go:109-119 | the entries joined with commas, or "None" |
| ProcessSummary.ParseProcesses | web/services/api.ts:352-383 | the matches of the expression from left to right, or the names alone when nothing matches |
| ProcessSummary.NoMatchInside | web/services/api.ts:358 | the lazy name group never stops early inside a printable name |
| ProcessSummary.RoundTrip | web/services/api.ts:352-376 | every list of processes with printable, non-empty names comes back with the same names, CPU at one decimal and megabytes, in order |
| ProcessSummary.RoundTripIff | web/services/api.ts:352-383 | given printable names, the list comes back if and only if none is empty |
| SummaryTexts.OldEntryParses | web/services/api.ts:353-371 | an entry in the older form, which names the user, is read with the user, and the rest after it |
| SummaryTexts.NamesOnly | web/services/api.ts:379-383 | a text without figures is read as a list of names of which nothing is known |
| ProcessSummary.CompactIsPrintable | internal/collector/collector.go:411-418 | every cleaned-up name is printable and at most 80 long, and empty exactly when it was all white space |
| SummaryTexts.CollapseIsSpaced | internal/collector/collector.go:412 | runs of white space become one space between the words of the name |
| SummaryTexts.CompactKeepsWords | internal/collector/collector.go:411-418 | the cleaned-up name is the words with single spaces between, with spaces for commas, or the first 77 characters of that and three dots |
| CircuitBreaking.CircuitBreaker.BeforeRequest | internal/ai/circuit_breaker.go:57-82 | the verdict and the whole new state when a call starts |
| CircuitBreaking.CircuitBreaker.AfterRequest | internal/ai/circuit_breaker.go:84-113 | the whole new state when a call ends |
| CircuitBreaking.CircuitBreaker.ResetBreaker | internal/ai/circuit_breaker.go:138-145 | the whole new state after a reset |
| CircuitBreaking.AlwaysSound | internal/ai/circuit_breaker.go:57-145 | over every interleaving of starts, ends and resets closed means fewer failures than allowed, a half-open episode admits no more than its quota, and the wait is from the latest failure |
| CircuitBreaking.Transitions | internal/ai/circuit_breaker.go:57-145 | over every interleaving the breaker opens exactly when a trial fails or maxFailures calls in a row have failed, closes exactly on a reset or when a call succeeds while it is half open, and is never closed by the end of a call while open |
| CircuitBreaking.OpenAdmitsIff | internal/ai/circuit_breaker.go:63-70 | while open, a call is admitted exactly when the latest failure is more than the reset timeout ago |
| CircuitBreaking.AdmittedIff | internal/ai/circuit_breaker.go:57-82 | over every interleaving a call is admitted exactly while the breaker is closed, while a half-open one has trials left, or after the timeout of an open one; a rejection changes nothing |
| CircuitBreaking.DownServiceBound | internal/ai/circuit_breaker.go:57-113 | while a service is down, calls one after the other in a span of length T reach it at most maxFailures + floor(T / resetTimeout) times |
| Sessions.Server.IssueSession | internal/server/session.go:53-84 | one new session, expiring after the idle time; an existing token hash is an error that changes nothing |
| Sessions.Server.ResolveSession | internal/server/session.go:99-134 | the answer and the whole new table: an expired session is deleted, an active one is touched at most once per interval |
| Sessions.Server.PruneExpiredSessions | internal/storage/sessions.go:62-68 | exactly the sessions past their idle expiry go, and their number is returned |
| Sessions.Server.DeleteSession | internal/storage/sessions.go:49-57 | exactly the session with that token hash goes |
| Sessions.PruningInvisible | internal/storage/sessions.go:62-68 | over every history pruning never changes a later answer |
| Sessions.PruneIsExact | internal/storage/sessions.go:62-68 | a prune leaves every session whose idle time has not run out as it was and removes the others, each of which any request would have been refused and deleted |
| Sessions.SessionsKeepTheirUser | internal/server/session.go:53-66 | over every history a session belongs to the user it was issued to |
| Sessions.TouchedRarely | internal/server/session.go:126-128 | a request writes back only its own session, and that only if it was last written more than five minutes before |
| Sessions.SessionLifetime | internal/server/session.go:99-134 | over every history a request let in is within the cap of the issue and within the idle time of the last one let in; one within the idle time less five minutes, inside the cap, is let in unless the session or its user is gone |

## Left out

- Floating point: averages, thresholds and readings are reals, and tokens are whole nanoseconds of refill, so rounding and NaN are not modelled; %.1f is modelled from tenths on.
- Days are UTC days; the shift `AddDate` makes in a local zone with daylight saving is not modelled.
- Columns of raw rows that are NULL because they predate a migration.
- The SQL engine: each statement is one atomic update, and both kinds of rolled-up row share one map keyed by resolution, bucket and host.
- ArchiveRuns.RunAccounted: for archives under new names; two of one tier made in the same second share a name, and the later one overwrites the earlier.
- ArchiveRuns.ArchiveKeepsAll: does not say that a delete waits for the archive; the source lets it go on when the archive fails, on purpose, and what that costs is `Upkeep.ArchivingRun`.
- Restoring a file that this store did not write.
- gzip, and the JSON encoding itself: the spool's codec is a parameter with the bracket and string facts of RFC 8259; archive files are sequences of points.
- Text that is not valid UTF-8, UTF-16 code units in the browser, and the cut of a UTF-8 sequence by `compactProcessName`.
- White space outside ASCII in a blank spool line (`bytes.TrimSpace` also drops U+0085 and U+00A0).
- I/O errors of the spool file, except appends that stop after any byte; the temporary file and rename of a rewrite are one step.
- What the server does with a batch it stored but did not acknowledge: the agent sends it again, so samples can arrive twice.
- An `Append` between `Peek` and `Commit`; the daemon's one loop never does this, and delivery does not hold under it.
- Alerts and buckets are values instead of pointers, because no reference to one leaves its table.
- The order of `Active()`, `Rule.Validate`, default rules, notification delivery.
- Clocks are parameters; Go's zero time is `None`.
- The flattening of structured text by `FlexText`.
- Errors of `TouchSession` and `DeleteSession`, which the server ignores; `DeleteUserSessions` is several deletes.
- The division of CPU ticks by the clock rate, and the conversion of a page count of 2^64 or more.
- Losses.RunsConserveIff: for cutoffs that do not go back; retention settings that grow between two passes are not modelled.
- Timeline.RunFollowsTimeline: holds for a fixed rule set in which no host is forgotten, because a reload or a forgotten host drops alerts without an event.
- ProcStat.ScanInvertsLayout: only for lines whose command name ends inside the 512-byte buffer.
- HTTP handlers, WebSockets, MCP, Gemini calls, collection from the operating system, redaction of personal data, token generation and hashing, roles, the dashboard except `parseProcesses`: plumbing over libraries, with little state to prove anything about.

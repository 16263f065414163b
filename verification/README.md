# sbox-manager: a verified model of its stateful parts

sbox-manager manages sing-box instances: it allocates ports, keeps references between instances, validates and generates
configurations, reconciles them with the disk, accounts for traffic, imports backups and serves subscriptions. The modules here model
the parts of it that hold state or have to agree with one another, and prove what these are for.

- `RuntimeManifest`, `RuntimePlan`, `RuntimeApply`: planning and applying. A host is a map of files and a manifest; a write or removal
  can fail before or after it took effect. `RuntimeProofs`, `RuntimeRuns`: convergence, isolation, recovery from a stopped apply, and
  the invariant of whole runs. SHA-256 is an injective function, the generator any function of the configuration.
- `TrafficCalendar`, `TrafficTables`, `TrafficRepository`, `TrafficCollector`, `TrafficCleanup`: hours, days and months at a fixed
  offset from UTC, proved to be those of the civil calendar; the record table as a map from the columns of its unique index; and
  collecting, aggregating and cleaning up. `TrafficStats`: counters from the stats of a server, and their names. `TrafficProofs`: months are the aggregates of their hours, and counters telescope.
- `FileSystem`: a disk on which any operation can fail, with a record of every content it passed through. `ImportReplace` and
  `PairReplace`: the two multi-file replacements with rollback.
- `Domain`, `Ports`, `References`, `Members`, `Validation`, `Generator`: instances; port allocation against conflict validation;
  printing references against resolving them; group members; and what validation promises the generator. `Acceptance`: what is
  accepted, over the fields of a configuration set.
- `EditableYaml`, `EditableValues`: pruning the YAML that users edit, for values of any type, and exactly what decoding it over
  defaults gives. `InstanceSchema`, `EditableInstances`: the type of instances with all its fields, `DefaultInstance`,
  `ApplyInstanceDefaults`, and what a round of editing and loading keeps. `DefaultsAgree`: these defaults are those that
  `Validation` applies to instances.
- `TemplateScopes`: the scope check of subscription templates, a stack machine against trees of nested loops.
- `InputWatcher`: the polling reload of the subscription server as a state machine, with arbitrary writes between its steps.
  `WatchSchedules`: the schedules of writes under which it never misses one, and the turns after which it has caught up.
- `Text`, `Sorting`, `Wrappers`: string order, `TrimSpace`, decimals, `sort.SliceStable`, results.

Properties of the code that do not hold in general are stated with the exact condition under which they do:

| property | holds exactly when |
|---|---|
| greedy port allocation finds ports whenever there are some (`Ports.GreedyCompleteIff`) | the ranges of inbounds, local socks and local HTTP are pairwise disjoint or end together, and each is disjoint from the API range or ends no later |
| a printed reference resolves to what was printed (`References.ResolveInvertsPrintIff`) | no longer instance name followed by a dot starts it; inbound names without dots suffice |
| a successful apply leaves manifest and disk in step (`RuntimeRuns.SyncIff`) | no unlisted generated file was there before, and the entries out of scope were true |
| cleaning up never changes what collecting the previous month gives (`TrafficCleanup.PreviousMonthSurvivesIff`) | daily rows are kept for at least 61 days; for yesterday, hourly rows for at least 1; over all tables with the windows of their periods |
| collecting a day again after a cleanup keeps its rows (`TrafficCleanup.CollectingAfterCleanupIff`) | the day is not before the hourly cutoff, or had no hours |
| a counter is read back from the name of its stat (`TrafficStats.ParsesPrintedIff`) | its own name is not empty or padded, has no slash, and no separator begins in it |
| the growth shown now is what the next collection books (`TrafficProofs.ShownIsNextIff`) | no series is read twice with a value |
| an instance that is written to be edited and loaded again is as it was (`EditableInstances.EditingRestoresIff`) | its empty texts have empty defaults, its lists hold no blank item, its header maps no empty entry and no default tag, no outbound has noauth without credentials, and its traffic scopes are not empty |
| editing keeps a text outside lists (`EditableInstances.StringIsRestoredIff`) | it is not empty, or its default is; an empty `api.token` gives way to the global one (`EmptyTokenComesBack`) |
| editing keeps the authentication of an outbound (`EditableInstances.OutboundAuthIsRestoredIff`) | it is not noauth without credentials |
| adding a group member and removing it restores outbounds and groups (`Members.AddThenRemoveRestoresIff`) | no reference to it was in the group, and a new one stands for the member under a name that no group lists; or an old one, which then some group lists, or this group if it stands for another |
| every skipped reload means that the index is current, whatever is written and whatever reads fail (`WatchSchedules.TrustworthyIffCalm`) | nothing is written before the first snapshot if there is ever a tick, and no debounce with a write is followed by a write before the next tick |
| after a turn of the watcher whose reads succeed the index is that of the directory, whatever was written and whatever failed before (`WatchSchedules.CatchesUpIffCalm`) | nothing was written during its debounce, before the first snapshot, or both during an earlier debounce and before the tick after it |
| a reference that validation accepts reaches the generated inbound (`Generator.RefReachesGeneratedInbound`) | that inbound has neither TLS nor REALITY |

## Model

| member | source | states |
|---|---|---|
| RuntimeManifest.ValidateManifest | internal/runtime/manifest.go:45-70 | accepts exactly the manifests with the right schema and version, non-blank hashes and time, valid files under the generated directory, in order |
| RuntimeManifest.AcceptedIff | internal/runtime/manifest.go:45-100 | field by field: a manifest is accepted exactly when it has the schema sbox.runtime-manifest and version 1, hash and time, and its files have all their texts, clean relative paths without dots or backslashes, paths below the generated directory, and come by relative path |
| RuntimeManifest.RelIsValid | internal/runtime/plan.go:54-58 | the path of a safe instance name lies under the generated directory, and its relative path is valid and is the one that relativeRuntimePath computes |
| RuntimeManifest.EntryIs | internal/runtime/plan.go:48-62 | an instance generates NAME.json in sing-box below the generated directory; its relative path leads there from the runtime directory, and its service is sbox@NAME.service |
| RuntimeManifest.PathsDiffer | internal/runtime/plan.go:54-58 | different instances have different paths and different relative paths |
| RuntimeManifest.SegmentsOfJoin | internal/runtime/manifest.go:106-121 | joining two paths joins their segments, on which the check of relative paths rests |
| RuntimeManifest.SortFilesSorts | internal/runtime/manifest.go:73-77 | sorting files of distinct relative paths puts them in strict order |
| RuntimeManifest.ListingIsUnique | internal/runtime/apply.go:90-94 | a map of files has one sorted listing, whatever the order in which the map is visited |
| RuntimeManifest.WellFormedIsAccepted | internal/runtime/manifest.go:45-70 | ValidateManifest accepts every well-formed manifest |
| RuntimePlan.SelectTargetInstances | internal/runtime/plan.go:111-127 | the loops select exactly the enabled instances and full scope, or one instance of the target name, enabled or not, and only that scope, or fail when there is none |
| RuntimePlan.BuildPlan | internal/runtime/plan.go:16-77 | the imperative planner returns the plan that the specification gives for host, configuration and target, and fails exactly when that does or when the manifest or a file that it has to hash cannot be read |
| RuntimePlan.Plan.BuildChanges | internal/runtime/plan.go:130-182 | the loops over desired and existing files compute the sorted changes of the specification and alter nothing else, or fail exactly when a file that they have to hash cannot be read |
| RuntimePlan.ErrorsPersist | internal/runtime/plan.go:43-52 | once an instance fails to generate, planning fails whatever follows |
| RuntimeApply.Host.ApplyPlan | internal/runtime/apply.go:24-64 | success gives the applied files and manifest, and is certain if no operation fails and every deleted path is under the generated directory; on any failure some prefix of the changes has been made, and the manifest is the old one unless all were |
| RuntimeApply.Host.RemoveFile | internal/runtime/apply.go:114-125 | removes the file, succeeding exactly when its path is under the generated directory and the operation does not fail |
| RuntimeApply.BuildAppliedManifest | internal/runtime/apply.go:67-102 | the loops build the specified manifest: entries and hashes out of scope kept, desired ones put over them, the listing sorted |
| RuntimeApply.ListFiles | internal/runtime/apply.go:90-94 | visiting the map in any order and sorting lists exactly its entries in strict order |
| RuntimeApply.InsertLists | internal/runtime/apply.go:90-94 | inserting an entry into the listing of the other entries lists the map |
| RuntimeProofs.PlanShape | internal/runtime/plan.go:43-67 | on a well-formed manifest, every plan of safe and distinct instance names desires one file per instance, each with its true entry, all in scope |
| RuntimeProofs.PlanExists | internal/runtime/plan.go:16-77 | whether planning succeeds depends neither on the disk nor on which well-formed manifest is there, and the desired files are the same |
| RuntimeProofs.ChangesAre | internal/runtime/plan.go:130-182 | the changes are exactly those of the desired files and the deletions of entries in scope that are not desired |
| RuntimeProofs.ChangesAreFunctional | internal/runtime/plan.go:130-182 | no path is changed in two ways |
| RuntimeProofs.ChangesAreInOrder | internal/runtime/plan.go:175-181 | changes are listed by relative path, and those of one path by the name of what is done |
| RuntimeProofs.PlannedDeletesAreUnder | internal/runtime/plan.go:158-174 | every deletion of a plan is under the generated directory, so applying a plan succeeds unless an operation fails |
| RuntimeProofs.AcceptedDeletesAreUnder | internal/runtime/plan.go:158-174 | of any accepted manifest, whoever wrote it, a plan deletes only paths below the generated directory |
| RuntimeProofs.RunEffect | internal/runtime/apply.go:39-54 | after running changes each has its effect on its own path, whatever their order, and no other path differs |
| RuntimeProofs.NoChangeMeansCurrent | internal/runtime/plan.go:185-209 | a no-change file has the desired content on disk, its entry in the manifest, and unchanged configuration and instance hashes |
| RuntimeProofs.CreatedIff | internal/runtime/plan.go:185-195 | a desired file is created exactly when its instance has no entry yet or the file is missing |
| RuntimeProofs.ChangesReachGoal | internal/runtime/plan.go:130-209 | from any disk the changes give every desired file its content, remove every stale one and leave all else |
| RuntimeProofs.PrefixTouches | internal/runtime/apply.go:39-54 | no prefix of the changes touches a path that the plan does not name |
| RuntimeProofs.GoalIsUnique | internal/runtime/plan.go:130-209 | two disks that agree outside the plan's paths are led to the same disk |
| RuntimeRuns.AppliedEntries | internal/runtime/apply.go:67-102 | the applied manifest is sorted and lists exactly the entries out of scope and the desired ones |
| RuntimeRuns.AppliedIsWellFormed | internal/runtime/apply.go:67-102 | every manifest that an apply writes is well-formed, with input hashes for exactly the instances that it lists |
| RuntimeRuns.NoChangesIffSettled | internal/runtime/plan.go:185-209 | a plan has no changes exactly when manifest and disk are as it wants them |
| RuntimeRuns.ApplyConverges | internal/runtime/apply.go:24-64 | after an apply the file of each enabled instance, or of the named one, holds exactly what is generated for it, planning again finds nothing to do, and applying that changes nothing |
| RuntimeRuns.FullApplyServesEnabled | internal/runtime/plan.go:111-174 | after a full apply every enabled instance has its generated content and its entry, every entry is of an enabled instance, and files that were listed for other names are gone |
| RuntimeRuns.TargetedApplyServesNamed | internal/runtime/plan.go:119-127 | a targeted apply serves the instance of that name, enabled or not; without one there is no plan |
| RuntimeRuns.AppliedHashesAreTrue | internal/runtime/plan.go:38-42 | after an apply the manifest has the true input hashes of the configuration and of each enabled instance, or of the named one |
| RuntimeRuns.TargetedApplyIsIsolated | internal/runtime/plan.go:212-218 | however far a targeted apply gets, no file but the target's changes, nor any other instance's entries and hash |
| RuntimeRuns.SettledMeansApplied | internal/runtime/apply.go:67-102 | when nothing needs changing the manifest is the one that would be written, but for its time |
| RuntimeRuns.CrashRecovery | internal/runtime/apply.go:39-63 | wherever an apply stopped, planning again for the same configuration and target and applying leads to the same files and manifest, but for the time |
| RuntimeRuns.RecoveryFromManyCrashes | internal/runtime/apply.go:39-63 | after any number of stopped tries for the same configuration and target, planning again and applying leads to the same files and manifest, but for the time, as one whole apply |
| RuntimeRuns.InterruptedIsSound | internal/runtime/apply.go:39-63 | a stopped apply leaves a manifest that the next plan can read |
| RuntimeRuns.SyncIff | internal/runtime/apply.go:24-102 | a successful apply leaves the manifest listing exactly the generated files with true hashes if and only if there was no orphan and the entries out of scope were true |
| RuntimeRuns.RunsStayInSync | internal/runtime/apply.go:67-102 | over every run of full and targeted applies with changing configurations from a clean host, the manifest lists exactly the generated files, sorted, with true hashes, and is accepted |
| RuntimeRuns.OnlyStoppedAppliesDisturb | internal/runtime/apply.go:39-63 | over every run of calls with changing configurations and targets, each of which may stop anywhere, the manifest that is there is always accepted, and manifest and disk agree on every path on which they agreed at first and whose file no stopped apply has changed since a whole apply last worked on it |
| RuntimeRuns.MixedRunsStayInSync | internal/runtime/apply.go:39-102 | over every such run from a clean host, a generated file that the manifest does not list, and an entry with a wrong hash, are ones whose file a stopped apply changed and no whole apply has worked on since |
| RuntimeRuns.RemovalAfterCrashLeavesOrphan | internal/runtime/plan.go:158-174 | if an apply stops before its manifest and the instance is then removed, its file stays and no manifest lists it |
| TrafficCalendar.MonthLength | internal/traffic/time.go:37-41 | months follow one another without gaps: each first day comes after the last by that month's days, leap years included |
| TrafficCalendar.MonthFrom | internal/traffic/time.go:37-41 | finds the month that contains a day, from any guess |
| TrafficCalendar.MonthIsUnique | internal/traffic/time.go:37-41 | a day lies in one month only |
| TrafficCalendar.YearIsTwelveMonths | internal/traffic/time.go:44-47 | a year is its twelve months and has 365 or 366 days |
| TrafficCalendar.DatesAreCivil | internal/traffic/time.go:37-47 | months and their days are those of the civil calendar: every day, before or after, has the date that going from date to date from 1 January 1970 gives it, with the usual month lengths and leap years |
| TrafficCalendar.MonthRangeIsCivil | internal/traffic/time.go:37-41 | MonthRange goes from local midnight of the first of the month of a moment to that of the first of the next month |
| TrafficCalendar.YearRangeIsCivil | internal/traffic/time.go:44-47 | YearRange goes from 1 January to 1 January |
| TrafficCalendar.HourAndDayAreCivil | internal/traffic/time.go:23-34 | the hour is the 3600 seconds from a full local hour that contain the moment, the day the 86400 from local midnight of its date |
| TrafficCalendar.HoursTile | internal/traffic/repository.go:235-240 | an hour overlaps a range of whole days exactly when it starts in it |
| TrafficCalendar.DaysTile | internal/traffic/repository.go:235-240 | a day overlaps a range of whole days exactly when it starts in it |
| TrafficCalendar.RangesNest | internal/traffic/time.go:23-41 | every moment lies in its hour, the hour in its day, the day in its month |
| TrafficCalendar.PreviousMonthIsNear | internal/traffic/time.go:37-41 | the previous month starts at most 61 days before any day |
| TrafficCalendar.KeepsPreviousMonthIff | internal/traffic/cleanup.go:66-71 | keeping n days keeps the whole previous month on every day exactly when n is at least 61 |
| TrafficTables.SameAggregate | internal/traffic/collector.go:113-148 | an aggregate depends on the rows of its series in its window only |
| TrafficTables.WindowSumSplits | internal/traffic/collector.go:139 | the bytes of adjoining windows add up |
| TrafficTables.AggregateIs | internal/traffic/collector.go:113-148 | an aggregate has the server of the earliest row of its series in the window, the end of the window, the bytes modulo 2^64, and a reset exactly when a row has one; without rows there is none |
| TrafficRepository.Repository.AddHourlyCounters | internal/traffic/repository.go:140-174 | the loop books each reading's growth since its baseline into its hour, moves every baseline to the value read, loses no row and no row its id, and returns the added records in stable order |
| TrafficRepository.Repository.AddRecordTx | internal/traffic/repository.go:371-386 | the upsert adds bytes and reset flag to a row that is there, which keeps its id and creation time and takes server and end, and else inserts under a new id |
| TrafficRepository.Repository.ListRecords | internal/traffic/repository.go:233-262 | returns, in order and once each, the first of the rows selected by period, overlap with the time range, which may be open at either end, and filter: all of them, or as many as the limit allows |
| TrafficRepository.Repository.ReplaceWindowRecords | internal/traffic/repository.go:210-230 | succeeds exactly when no created record is there already or comes twice; then the rows of the window are replaced and all others stay, else nothing changes |
| TrafficRepository.Repository.DeleteBefore | internal/traffic/repository.go:275-281 | removes exactly the rows of the period that start before the cutoff, and counts them |
| TrafficRepository.OneMoreCreatable | internal/traffic/repository.go:219-223 | records can be created one by one exactly when their keys are new and distinct |
| TrafficRepository.RecordLessOrders | internal/traffic/collector.go:268-290 | the stable record order is transitive and compares any two records of different start or series |
| TrafficRepository.RecordLessIff | internal/traffic/collector.go:268-290 | records come by start, then by instance, scope, name and direction, the first that differs deciding, then by bytes |
| TrafficRepository.RecordsOfAre | internal/traffic/repository.go:145-163 | a reading makes one record, of its target and window, with its growth since the baseline, or its whole value without one or below it, which is then a reset; and none if that is zero |
| TrafficCollector.AggregateRecords | internal/traffic/collector.go:113-148 | one record for each series of the list, with the first server, the sum and the reset flag of the series, in stable order |
| TrafficCollector.ListedAggregate | internal/traffic/collector.go:113-148 | aggregating a listing of the table is aggregating the table's window |
| TrafficCollector.ReplacingRollsUp | internal/traffic/repository.go:210-230 | replacing a window by its aggregates cannot break the unique index, and rolls the window up |
| TrafficCollector.Collector.CollectHourly | internal/traffic/collector.go:23-43 | books the readings of the targets in turn; when a target cannot be polled, exactly the targets before it stay booked |
| TrafficCollector.Collector.CollectDaily | internal/traffic/collector.go:46-58 | never fails on the unique index, and rolls the hours of the day up for the chosen instances |
| TrafficCollector.Collector.CollectMonthly | internal/traffic/collector.go:61-73 | never fails on the unique index, and rolls the days of the month up for the chosen instances |
| TrafficCollector.CurrentDeltas | internal/traffic/collector.go:76-110 | shows each reading's growth since the stored baseline, in stable order, and changes nothing |
| TrafficCollector.FilterInPlace | internal/traffic/types.go:196-220 | keeps, in order, exactly the counters with a known scope that target and filter allow |
| TrafficCollector.FilteredInParts | internal/traffic/types.go:196-220 | filtering works part by part, so what is kept stays in order |
| TrafficCollector.PollFailsIff | internal/traffic/collector.go:23-43 | polling fails exactly when some target cannot be polled |
| TrafficCollector.PolledInParts | internal/traffic/collector.go:23-43 | otherwise the targets are read one after the other |
| TrafficStats.StatsToCounters | internal/traffic/stats.go:109-129 | one counter for each scope, name and direction that occurs among the stats with a value that is not negative and a name that parses, with the sum of its stats |
| TrafficStats.JoinedKeysDiffer | internal/traffic/stats.go:119 | counters of different scope, name or direction are collected under different keys, whatever the name is |
| TrafficStats.ParsesPrintedIff | internal/traffic/stats.go:189-202 | a counter is read back from the name of its stat exactly when its own name is not empty or padded, has no slash, and no separator begins in it |
| TrafficProofs.AggregateSplits | internal/traffic/collector.go:113-148 | the aggregate of a window is the combination of those of its parts |
| TrafficProofs.AggregateOfOneDay | internal/traffic/collector.go:61-73 | the aggregate of a day's daily rows is the one daily row |
| TrafficProofs.DaysAggregateHours | internal/traffic/collector.go:46-73 | if every day of a range has been rolled up, aggregating the days is aggregating the hours |
| TrafficProofs.MonthAggregatesItsHours | internal/traffic/collector.go:46-73 | after any run of polls, cleanups and collections in which every day of a month was collected for the series, in any order and number and with any instances, and its rows were not touched after that but by collecting, collecting the month gives the series the aggregate of the hours that start in it, or no row if there are none |
| TrafficProofs.MonthConservesBytes | internal/traffic/collector.go:46-148 | the bytes of such a month are the sum of its hours, as long as that fits in 64 bits |
| TrafficProofs.CollectingAgainChangesNothing | internal/traffic/collector.go:46-73 | collecting a window again changes nothing but ids and creation times |
| TrafficProofs.MonthlyKeepsWindows | internal/traffic/collector.go:61-73 | every row keeps the window of its period through monthly collection |
| TrafficProofs.RunsKeepWindows | internal/traffic/collector.go:46-58 | every row keeps the window of its period through any run of daily collections and other moves that keep windows |
| TrafficProofs.SettledDayIsCollected | internal/traffic/collector.go:46-58 | once a day has been collected its daily row is the aggregate of its hours, at every later point of a run that touches them only by collecting |
| TrafficProofs.PollingLeavesOtherDays | internal/traffic/repository.go:140-174 | polling touches no day but the one it is booked in |
| TrafficProofs.CollectingMonthLeavesDays | internal/traffic/collector.go:61-73 | collecting a month touches no day |
| TrafficProofs.AddingKeepsWindows | internal/traffic/repository.go:140-174 | every row keeps the window of its period through hourly collection |
| TrafficProofs.CountersTelescope | internal/traffic/repository.go:149-169 | over any run of polls the hourly bytes that a series gains are its last value plus the values just before each drop, less the baseline it started from |
| TrafficProofs.ResetsAreShown | internal/traffic/repository.go:149-163 | an hour of a series shows a reset exactly when it did before or a poll booked there saw the counter drop to a value other than zero |
| TrafficProofs.AddReadingsBooks | internal/traffic/repository.go:140-174 | runs of AddHourlyCounters are runs of single bookings, to which telescoping applies |
| TrafficProofs.ShownIsNextIff | internal/traffic/collector.go:76-110 | CurrentDeltas shows what the next AddHourlyCounters on the same readings adds, whatever the baselines, exactly when no series is read again with a value |
| TrafficProofs.NothingShownAfterBooking | internal/traffic/collector.go:76-110 | right after booking, the same readings show no growth |
| TrafficProofs.PollsAreDistinct | internal/traffic/stats.go:109-129 | targets of different instances, polled for counters as StatsToCounters makes them, read no series twice |
| TrafficCleanup.CleanupRecords | internal/traffic/cleanup.go:19-48 | removes exactly the old rows of the selected periods and reports their counts; a dry run reports the same and removes none; an unknown period fails |
| TrafficCleanup.KeptIff | internal/traffic/cleanup.go:51-81 | by the calendar: of the selected periods exactly the hours before today's midnight less the retention, the days before it less the retention or the minimum, and the months further back than the months kept are removed; all other rows stay as they are |
| TrafficCleanup.KeptWindow | internal/traffic/cleanup.go:63-81 | cleaning up leaves an aggregate alone if its window starts at the cutoff or later |
| TrafficCleanup.CleaningLeavesKeptDays | internal/traffic/cleanup.go:63-81 | cleaning up touches no day that is not before the cutoffs of hours and days |
| TrafficCleanup.CleaningKeepsWindows | internal/traffic/cleanup.go:63-81 | every row keeps the window of its period through a cleanup, so cleanups are moves of a run |
| TrafficCleanup.YesterdaySurvivesIff | internal/traffic/cleanup.go:78-79 | of any table with the windows of its periods, a cleanup never changes what collecting yesterday gives then or later exactly when hours are kept for at least a day |
| TrafficCleanup.PreviousMonthSurvivesIff | internal/traffic/cleanup.go:66-71 | of any table with the windows of its periods, a cleanup never changes what collecting the previous month gives then or later exactly when days are kept for at least 61 |
| TrafficCleanup.CollectingAfterCleanupIff | internal/traffic/repository.go:210-230 | collecting a day again after a cleanup keeps its rows exactly when the day is not before the hourly cutoff or had no hours |
| TrafficCleanup.CollectingTooLateLosesTheDay | internal/traffic/repository.go:210-230 | with one day of hours kept, collecting a day again ten days later deletes its row |
| ImportReplace.PrepareImportTemp | internal/backup/backup.go:440-462 | writes the data to a new temporary file of the target, unless the last thing it did failed; whatever fails, nothing but that file differs at any step |
| ImportReplace.ReserveBackupName | internal/backup/backup.go:490-504 | yields a name that nothing has, unless one of the last two things it did failed; whatever fails, at most an empty placeholder stays |
| ImportReplace.ReplaceOneImportFile | internal/backup/backup.go:465-487 | installs one file with its original at its own backup; or, right after the step that failed, leaves a state that rollback can restore; at every step, under any faults, the original is at target or that backup |
| ImportReplace.RollbackOne | internal/backup/backup.go:510-526 | if nothing fails, restores the original content or absence of one target, also when its backup was named but never made; if something fails, the original is still at target or backup |
| ImportReplace.RollbackImportFiles | internal/backup/backup.go:507-531 | if nothing fails, restores every target; whatever fails, loses no original |
| ImportReplace.StageAll | internal/backup/backup.go:420-425 | stages every file; or stops right after the step that failed, with every target untouched |
| ImportReplace.InstallAll | internal/backup/backup.go:427-432 | installs every file; or stops right after the step that failed, with everything recoverable; every original is safe at each step |
| ImportReplace.ReplaceImportFiles | internal/backup/backup.go:419-437 | succeeds if nothing fails; on an error undoing begins right after the step that failed, and everything is as it was if nothing fails while undoing, so in every case where only one operation fails; success means that all data is installed, at every step from the cleanup on, and, if nothing fails during cleanup, no temporary or backup file is left; under any faults, failing rollback included, each original is at its target or at its own backup at every step before cleanup |
| PairReplace.MoveAside | internal/install/installer.go:668-682 | both old files set aside; or, if nothing fails after the step that failed, both where they were and both temporary files gone; whatever fails, each old content is at its path or at .previous at every step |
| PairReplace.Install | internal/install/installer.go:683-694 | both new files in place; or, if nothing fails after the step that failed, both old ones back and at most one temporary file left; whatever fails, no old content is lost at any step |
| PairReplace.ReplacePair | internal/install/installer.go:665-698 | succeeds if nothing fails, and then leaves the new pair of binary and marker, in place at every step from the cleanup on; on an error restoring begins right after the step that failed, and the old pair is back, with at most one temporary file left, if nothing fails while restoring, so in every case where only one operation fails; under any faults each old content is at its path or at .previous at every step before cleanup |
| PairReplace.RenameIfExists | internal/install/installer.go:700-710 | moves the file aside if there is one, and tells which; it fails only when the last thing it did failed, and then changes nothing |
| PairReplace.RestoreFile | internal/install/installer.go:712-718 | puts the backup back, or removes a file that was not there before; a failure changes nothing |
| Ports.FirstAvailablePort | internal/config/portrange.go:38-48 | the least free port of a valid range, and an error exactly when there is none |
| Ports.UsedPorts | internal/instance/manager.go:608-624 | collects exactly the ports of inbounds and enabled API addresses of all instances, enabled or not |
| Ports.InstanceDraft.AllocatePorts | internal/instance/manager.go:556-578 | assigns the greedy ports to inbounds and API in place: each loopback socks5 inbound has the least port of the socks range that is neither used nor given out before, each loopback http inbound of the HTTP range, each other one of the inbound range, and the API of its own; on failure the range that is needed next has none left, and those found so far stay assigned |
| Ports.GreedyPortsAreLeastAndDistinct | internal/instance/manager.go:556-578 | ports handed out are in range, free, pairwise distinct, and least at their turn |
| Ports.GreedyAllots | internal/instance/manager.go:556-596 | the greedy ports are, inbound by inbound and for the API, the least ports of the ranges that kind and address ask for, up to the first range that is used up |
| Ports.ValidatePortConflicts | internal/domain/validation.go:1117-1137 | reports no conflict exactly when no two places, inbounds or accepted API addresses of enabled instances, claim one port |
| Ports.ConflictFreeIff | internal/domain/validation.go:1117-1137 | the ports that validation counts are distinct exactly when no port is claimed at two different places |
| Ports.AddPortUse | internal/domain/validation.go:1140-1146 | reports a conflict exactly when the port has been recorded before |
| Ports.PortsAreFresh | internal/instance/manager.go:556-624 | allocated ports are pairwise distinct and differ from every port in use |
| Ports.AllocationPassesValidation | internal/instance/manager.go:556-578 | appending an allocated instance to a conflict-free set keeps it conflict-free |
| Ports.ExchangeFirst | internal/instance/manager.go:561-569 | if any assignment exists then one exists in which the first demand takes the least free port, when every earlier range is disjoint from every later one or ends no later |
| Ports.GreedyServesYielding | internal/instance/manager.go:556-578 | for demands in such an order greedy allocation finds ports whenever some assignment exists |
| Ports.GreedyCompleteIff | internal/instance/manager.go:556-578 | for all instances and all ports in use, greedy allocation finds ports whenever some assignment exists, exactly when the three ranges of inbounds are pairwise disjoint or end together and each is disjoint from the API range or ends no later |
| Ports.GreedyFailsOnOverlap | internal/instance/manager.go:556-578 | if one range overlaps a later one and ends after it, there are used ports with which greedy allocation fails although an assignment exists |
| Ports.AllocationFailsOnOverlap | internal/instance/manager.go:556-578 | such ranges are drawn by inbounds and an API that make the allocation of an instance fail needlessly |
| Ports.FailureMeansRangeExhausted | internal/instance/manager.go:556-578 | with pairwise disjoint ranges allocation fails only if some range has fewer free ports than are demanded of it |
| References.ResolveOutboundRefTarget | internal/generator/singbox/generator.go:139-161 | the loop over the map gives the longest-prefix resolution, in whatever order the map is visited |
| References.ParseRefMemberWithInstances | internal/instance/manager.go:1090-1110 | the loop over the list gives the same resolution |
| References.ResolutionIsUnique | internal/domain/validation.go:1002-1024 | a reference has at most one longest-prefix resolution |
| References.ResolvesIff | internal/domain/validation.go:1002-1024 | of the targets INSTANCE.INBOUND that the trimmed reference can name among the instances, neither part empty, it resolves to the one of the longest instance name, and to nothing if there is none |
| References.ResolutionExists | internal/domain/validation.go:1002-1024 | and always one, or definitely none |
| References.ResolveInvertsPrintIff | internal/instance/manager.go:513-515 | resolving inverts printing exactly when no other instance name captures the reference |
| References.ResolveInvertsPrint | internal/instance/manager.go:513-515 | resolving inverts printing whenever the inbound name has no dot, even if instance names do |
| References.DottedInboundIsCaptured | internal/generator/singbox/generator.go:139-161 | with instances a and a.b, inbound b.c of a resolves to inbound c of a.b |
| References.ParseRefIff | internal/domain/validation.go:1027-1034 | a reference is split exactly when it has something before and after its last dot, and into those two, trimmed |
| References.AllocateRefOutboundName | internal/instance/manager.go:523-537 | terminates within one more try than there are outbounds, and returns the first free one of base, base-hash, base-hash-2, base-hash-3 and so on |
| References.TriesDiffer | internal/instance/manager.go:523-537 | different tries are different names |
| References.TakenTriesAreFew | internal/instance/manager.go:523-537 | k taken tries need k names |
| Members.EditedInstance.AddRefMember | internal/instance/manager.go:364-392 | the exact lists after adding: an outbound for the reference, found or newly named, and its name once in the group; on a missing group the outbound stays |
| Members.EditedInstance.RemoveRefMember | internal/instance/manager.go:395-444 | the exact lists after removing: the candidates gone from the group, and from the outbounds those that no group lists any more |
| Members.EditedInstance.AddGroupOutbound | internal/instance/manager.go:447-460 | the name is in the group once, and it fails exactly when there is no selector or urltest group of that name |
| Members.FindMutableGroup | internal/instance/manager.go:474-485 | the first group of that name, if it is a selector or urltest group |
| Members.CandidateNames | internal/instance/manager.go:400-413 | the outbounds that refer to the member |
| Members.AddIsIdempotent | internal/instance/manager.go:364-392 | adding a member twice is adding it once |
| Members.AddListsMember | internal/instance/manager.go:364-392 | adding puts a reference INSTANCE.INBOUND to the member into the group behind what was there, adds at most one outbound, under a free name, and touches nothing else |
| Members.MemberRefIs | internal/instance/manager.go:364-511 | a member is referenced through the first socks5 inbound, or without one the first http inbound, of the first instance of its name; not if that is the instance itself, is missing or has neither |
| Members.AddKeepsNames | internal/instance/manager.go:364-392 | adding keeps outbound names distinct and group members known |
| Members.RemoveKeepsWhatIsListed | internal/instance/manager.go:395-444 | removing deletes only candidates and never one that a group still lists, keeps members known, and leaves no candidate in the group |
| Members.RemovedExactly | internal/instance/manager.go:395-444 | removing takes exactly the names that stand for the member out of that group, and deletes exactly the outbounds of such names that no group lists any more |
| Members.MemberOfIff | internal/instance/manager.go:400-413 | an outbound stands for a member exactly when it is a reference that resolves to it, or one that resolves to nothing and has it before its last dot |
| Members.WithoutInParts | internal/instance/manager.go:415-424 | names are taken out part by part, so the others stay in order |
| Members.AddThenRemoveRestoresIff | internal/instance/manager.go:364-444 | adding a member and removing it again restores outbounds and groups exactly when no reference to the member was in the group and either there was none to the inbound, the new one stands for the member and no group lists its name, or there was one, in some group if it stands for the member and else in this one |
| Members.AddThenRemoveRestores | internal/instance/manager.go:364-444 | so it restores them if no outbound referred to the member, group members exist, and the name of its inbound has no dot |
| Members.UnlistedRefIsLost | internal/instance/manager.go:364-444 | a reference that no group lists yet does not survive adding the member and removing it |
| Validation.DefaultsAreIdempotent | internal/domain/defaults.go:165-212 | applying the defaults twice is applying them once |
| DefaultsAgree.InstanceDefaultsAgree | internal/domain/defaults.go:165-212 | the defaults do the same to an encoded value as to the instance that it encodes |
| Validation.ValidateInbounds | internal/domain/validation.go:629-668 | reports nothing exactly when there are inbounds, their names, kinds and ports are right, anytls has TLS and none has uTLS |
| Validation.ValidateOutbounds | internal/domain/validation.go:858-874 | reports nothing exactly when the outbounds are right, and returns their names |
| Validation.ValidateGroups | internal/domain/validation.go:1047-1081 | reports nothing exactly when group names clash with nothing and members are outbounds, and returns the names |
| Validation.ValidateRoute | internal/domain/validation.go:1084-1105 | reports nothing exactly when the default and every rule name an outbound or group |
| Validation.ValidateInstance | internal/domain/validation.go:41-63 | defaults the instance and reports nothing exactly when it is acceptable |
| Validation.ValidateOutboundRefs | internal/domain/validation.go:966-999 | reports nothing exactly when every reference resolves to an inbound of another instance that can be referred to |
| Validation.ValidateConfigSet | internal/domain/validation.go:66-76 | defaults the instances in place and reports nothing exactly when the set is acceptable |
| Acceptance.AcceptedIff | internal/domain/validation.go:66-76 | over fields and positions: a set is accepted exactly when every instance is good, every reference goes to a proxy inbound of another instance or has no dot to split at, and no port is claimed twice |
| Acceptance.InstanceOkIff | internal/domain/validation.go:41-63 | an instance is good exactly when names, kinds, ports and addresses are, names of inbounds, outbounds and groups differ, members are outbounds, and default and rules name an outbound or group |
| Acceptance.RefOkIff | internal/domain/validation.go:966-999 | a reference passes exactly when the longest instance name in it is another instance, the last of that name, whose first inbound of the rest is a socks5 or http one; or when nothing matches and it cannot be split |
| Acceptance.SafeNameIff | internal/domain/validation.go:383-387 | a safe name is letters, digits, dots, underscores and hyphens, a letter or digit first, without two dots in a row |
| Validation.IndexByName | internal/generator/singbox/generator.go:95-102 | the instances by name, the later of two winning |
| Generator.ResolveOutboundRef | internal/generator/singbox/generator.go:105-136 | the imperative resolver returns the outbound that the specification gives, or fails when that does |
| Generator.BuildConfig | internal/generator/singbox/generator.go:38-92 | succeeds exactly when no part of the defaulted instance stops it, and then every part of the result is at the place of its source and carries its fields over |
| Generator.GeneratedIsCarried | internal/generator/singbox/generator.go:38-92 | field by field, from the instance before its defaults: inbounds keep address, port and tag or have the default ones, outbounds keep server, port, uuid, cipher and credentials, groups members, URL and seconds, rules kind, values and target |
| Generator.InboundIsCarried | internal/generator/singbox/generator.go:199-270 | an inbound generates exactly when its kind is one of six, with its port, address, tag, TLS, and the one user of a password authentication |
| Generator.OutboundIsCarried | internal/generator/singbox/generator.go:273-306 | an outbound that is no reference generates exactly when its kind is one of ten, with its server, port, uuid, cipher and TLS, and the credentials of a password authentication or else its own password |
| Generator.RefIsCarried | internal/generator/singbox/generator.go:105-136 | a reference generates exactly when it resolves to a socks5 or http inbound, the first of its name, of another instance, and then has its address, port and credentials |
| Generator.GroupIsCarried | internal/generator/singbox/generator.go:309-326 | a group generates exactly as selector or urltest, with its members, and when it tests with its URL and seconds or the default ones |
| Generator.AcceptedInstanceGenerates | internal/generator/singbox/generator.go:38-92 | an accepted instance generates without error |
| Generator.GeneratedTagsAreDistinct | internal/generator/singbox/generator.go:66-83 | generated outbound tags are unique |
| Generator.GeneratedIsClosed | internal/generator/singbox/generator.go:66-92 | the final outbound, the rules and all group members name generated outbounds |
| Generator.RefReachesGeneratedInbound | internal/generator/singbox/generator.go:105-136 | a generated ref outbound has the type, host, port and credentials of the inbound generated for the referenced instance, which is another one; both agree on TLS exactly when that inbound has neither TLS nor REALITY |
| Generator.TlsInboundIsNotReached | internal/generator/singbox/generator.go:122-136 | of two defaulted instances that ValidateConfigSet, as modelled, accepts, the reference of one to an http inbound with TLS of the other is generated without TLS |
| Generator.AcceptedSetGenerates | internal/domain/validation.go:66-76 | every instance of an accepted configuration set generates, and the result is closed |
| EditableYaml.PrunedIsLean | internal/instance/manager.go:894-933 | no empty scalar, mapping or sequence, no default tag and no noauth node is left in what pruning keeps |
| EditableYaml.PruneIsIdempotent | internal/instance/manager.go:894-933 | pruning a pruned tree changes nothing, for trees without repeated keys |
| EditableYaml.EncodedKeysAreDistinct | internal/instance/manager.go:884-888 | encoding a value repeats no key |
| EditableYaml.RepeatedKeyBreaksIdempotence | internal/instance/manager.go:972-980 | of a tree with a repeated key, which encoding never gives, dropping an empty name can uncover another that makes the tag a default one |
| EditableValues.PrunedAwayIffBlank | internal/instance/manager.go:894-957 | pruning leaves a value of any type out exactly when its texts are empty, its integers zero, its booleans false where false is not kept, its structs, lists and maps blank, or it is noauth without credentials |
| EditableValues.NamedItemIsKept | internal/instance/manager.go:919-927 | a struct in a list with some text of its own is not left out |
| EditableValues.PlainIsReadBack | internal/instance/manager.go:894-990 | for any type outside inbounds and any fitting defaults, pruning and decoding give exactly what ReadBack says: every boolean, integer and text that is not empty, the default for an empty one, no blank items |
| EditableValues.ReadBackIff | internal/instance/manager.go:894-990 | a value is read back as it was exactly when it survives |
| EditableValues.ReadBackSurvives | internal/instance/manager.go:894-990 | what was read back once survives from then on |
| InstanceSchema.ExceptionsAreExact | internal/instance/manager.go:960-969 | the false booleans that pruning keeps are exactly those whose default can be true |
| EditableInstances.InboundIsRead | internal/domain/defaults.go:184-197 | an inbound is read as it was, once ApplyInboundDefaults has put back the default tag and the noauth that pruning left out |
| EditableInstances.LoadingReadsBack | internal/config/load.go:47-53 | loading what was written to be edited gives, for every instance, exactly what ReadBack says with the defaults of ApplyInstanceDefaults |
| EditableInstances.EditingRestoresIff | internal/instance/manager.go:884-1001 | a defaulted instance that is written to be edited and loaded again is as it was exactly when its empty texts have empty defaults, its lists hold no blank item, its header maps no empty entry or default tag, no outbound has noauth without credentials, and its traffic scopes are not empty |
| EditableInstances.EditingAgrees | internal/instance/manager.go:884-1001 | of every defaulted instance each boolean, integer and text that is not empty comes back, tags included, and type, username and password of every authentication but a noauth outside inbounds; blank items are skipped |
| EditableInstances.EditingSettles | internal/config/load.go:47-53 | what is lost is lost in the first round: writing and loading what was loaded restores it |
| EditableInstances.EditedStaysPruned | internal/instance/manager.go:884-891 | pruning what is written for an instance once more changes nothing |
| EditableInstances.FieldIsLoaded | internal/config/load.go:47-53 | any field outside inbounds and groups, of any instance, is loaded as ReadBack says |
| EditableInstances.DefaultFields | internal/domain/defaults.go:105-117 | instances are decoded over enabled, role edge, the three traffic scopes, and the API and traffic switches of the global configuration |
| EditableInstances.StringIsRestoredIff | internal/instance/manager.go:943-957 | a text outside lists comes back, in any instance, exactly when it is not empty or its default is empty |
| EditableInstances.EmptyTokenComesBack | internal/domain/models.go:51-55 | an empty api.token comes back as the global token, any other one as it was |
| EditableInstances.EmptyScopesComeBack | internal/domain/defaults.go:178-180 | traffic scopes without any text come back as the three default ones, others without their blank items |
| EditableInstances.OutboundsAreLoaded | internal/instance/manager.go:919-927 | the outbounds that are loaded are those that are not blank, in order |
| EditableInstances.OutboundAuthIsRestoredIff | internal/instance/manager.go:983-990 | the authentication of an outbound comes back exactly when it is not noauth without credentials |
| TemplateScopes.ValidateTemplateVariables | internal/subscription/render.go:667-711 | the loop over the stack of scopes computes the machine's verdict: acceptance of exactly the flattened well-scoped trees, and else the error of the first token that does not fit |
| TemplateScopes.AcceptedIffWellScoped | internal/subscription/render.go:667-748 | a token stream is accepted exactly when it flattens a properly nested tree in which every root is bound by the context or an enclosing loop, what is iterated over being checked outside |
| TemplateScopes.VerdictIs | internal/subscription/render.go:667-711 | the error that is reported is that of the first token that does not fit where it is, with the first root that nothing binds there, or that a loop is left open at the end |
| TemplateScopes.ForestRuns | internal/subscription/render.go:667-711 | a well-scoped tree takes the machine back to the stack it started with |
| TemplateScopes.RunHasForest | internal/subscription/render.go:667-711 | an accepting run spells a tree up to the end of the innermost open loop |
| TemplateScopes.ValidateTemplateExpression | internal/subscription/render.go:714-721 | accepts, or names the first root that no scope binds |
| TemplateScopes.TemplateVariableAvailable | internal/subscription/render.go:741-748 | the search from the innermost scope finds exactly the bound names |
| InputWatcher.Watcher.StartWatching | internal/subserver/server.go:461-466 | the watcher starts as the machine does |
| InputWatcher.Watcher.OnTick | internal/subserver/server.go:467-487 | a tick does what the machine's tick does |
| InputWatcher.Watcher.OnDebounced | internal/subserver/server.go:488-498 | the reload after the debounce does what the machine's reload does |
| InputWatcher.InputsAre | internal/subserver/server.go:507-539 | a snapshot can be taken exactly when the directory is there and its inputs have acceptable names; it has the hashes of the inputs and nothing else, and the index is built from these |
| InputWatcher.SnapshotsDecideInputs | internal/subserver/server.go:507-539 | equal snapshots mean equal inputs |
| InputWatcher.ServedIndexIsValid | internal/subserver/server.go:461-499 | over any interleaving of steps and writes the served index is a successful load of a content the directory has had |
| InputWatcher.FailedLoadsKeepTheIndex | internal/subserver/server.go:461-499 | over every run, the index served at some point is served until a load succeeds, whatever is written and whatever fails |
| InputWatcher.LastLoadIsServed | internal/subserver/server.go:461-499 | over every run, what is served is the last load that succeeded |
| InputWatcher.FailedIff | internal/subserver/server.go:461-499 | over every run, an error is shown exactly when a snapshot or load failed and no load has succeeded since |
| InputWatcher.FailureIsRetried | internal/subserver/server.go:478-498 | after a failure no tick is skipped, and a reload that succeeds serves the directory and clears the error |
| InputWatcher.QuietSkipIsCurrent | internal/subserver/server.go:478-487 | if nothing is written between snapshot and load, a skipped tick means that the index is that of the directory |
| WatchSchedules.TrustworthyIffCalm | internal/subserver/server.go:461-499 | for a schedule of writes, every skipped tick serves the index of the directory as it is, whatever is written and whichever reads fail, exactly when nothing is written before the first snapshot if there is ever a tick and no turn with a write during its debounce is followed by a write before the next tick |
| WatchSchedules.CatchesUpIffCalm | internal/subserver/server.go:461-499 | after a turn whose reads succeed the index is that of the directory unless that does not load, whatever was written and whatever failed before, exactly when nothing was written during its debounce and the schedule was calm until its tick |
| WatchSchedules.EarlyWriteIsMissed | internal/subserver/server.go:461-466 | after any schedule with a write before the first snapshot a skipped tick can be stale |
| WatchSchedules.RevertedDebounceIsMissed | internal/subserver/server.go:478-498 | after any schedule with a write during a debounce and one before the next tick a skipped tick can be stale |
| InputWatcher.RevertedWriteIsMissed | internal/subserver/server.go:488-498 | a write during the debounce that is then reverted is missed |

## Left out

- RuntimeApply.Host.WriteFile: a failed write leaves the old content or the new one; the temporary files that a power loss can leave beside a generated file are not part of the model.
- RuntimePlan.BuildPlan: paths are clean and separated by slashes; the proofs about runs start from plans that could be read.
- RuntimeRuns.RunsStayInSync: assumes safe and distinct instance names, which the loader does not enforce, and directories that stay the same.
- ImportReplace.ReplaceImportFiles: the replacement starts from the list of files; reading, validating and hashing the archive are not part of the model.
- PairReplace.ReplacePair: replacing the rules directory, downloads and archives are not part of the model.
- ImportReplace.ReserveBackupName: names of temporary and backup files are a target and a free number instead of random text; configuration files are taken not to have such names.
- TrafficRepository.Repository.AddRecordTx: byte counts in the store are unbounded; SQLite is exact below 2^63. Go's sums of aggregates wrap at 2^64 in the model too.
- TrafficRepository.Repository.ListRecords: read-only databases are not part of the model; the displayed times of a record follow from its timestamps and are not kept.
- TrafficRepository.Repository.AddHourlyCounters: the update time of baselines is not kept, and sort.Slice is taken to be stable, which matters only for records equal in every compared field.
- TrafficCalendar.MonthFrom: the offset from UTC is fixed; daylight saving and the time zone database are not part of the model.
- TrafficStats.StatsToCounters: a map is listed in no particular order; the older JSON form of the stats is not part of the model.
- AggregateYearly, AddInstanceSubtotal and the resolution of range options: they add up records for display in the same way and change no state.
- Validation.ValidateInstance: role, API token, transport, users, credentials, subscription and traffic settings and the details of TLS are not part of the model, so acceptance is a superset of the source's; what is generated from them cannot fail.
- Validation.ValidateInbounds: tags, listen hosts, certificates and REALITY settings, authentication, users and subscription of inbounds are not checked, for the same reason.
- Validation.ValidateOutbounds: the protocol fields of outbounds that are no references are not checked but for the TLS of anytls, for the same reason.
- Validation.DefaultsAreIdempotent: the defaults of labels and traffic scopes, which nothing in that module reads, are not part of its type.
- Generator.BuildConfig: of TLS only whether it is on is generated; log, DNS, transport, users of inbounds that are no proxies and the experimental section are not. They cannot fail, and no reference depends on them.
- Generator.TlsInboundIsNotReached: an inbound has no certificate in the model, which validation asks for when TLS is on.
- Validation.ValidateConfigSet: global settings other than port ranges are not part of the model; the messages of reported issues are left out, their number and paths are kept.
- Ports.InstanceDraft.AllocatePorts: whether a listen address is a loopback one is a parameter.
- References.AllocateRefOutboundName: the FNV hash is a parameter, with no assumption about it.
- Members.EditedInstance.RemoveRefMember: lists are values, so the reuse of their memory is not part of the model.
- EditableYaml.PruneIsIdempotent: trees are values, so rewriting nodes in place is not part of the model; nor is YAML text, scalars carrying typed values with their text.
- EditableInstances.LoadingReadsBack: reading and printing YAML text, unknown fields, null and values of another type, which pruned trees do not hold, and the comments around the tree are not part of the model. Nil and empty lists are the same; the two fields that are not encoded when empty are encoded, and pruned.
- EditableInstances.EditingAgrees: what an edited file changes is up to the user; the text in between is the one that was written.
- TemplateScopes.ValidateTemplateVariables: templates are streams of tokens with the root names of their expressions; splitting the text is not part of the model.
- WatchSchedules.TrustworthyIffCalm: the loop runs turn by turn as in the source, a reload after every tick that does not skip; schedules that end in the middle of a turn are prefixes of these.
- InputWatcher.ServedIndexIsValid: a directory is read at one moment; a write between the reading of two files of it is not part of the model. Which files are inputs and how they are decoded and indexed are parameters.
- Subscription index, bundle merging and rendering, service control, HTTP, gRPC, JSON, YAML, zip and SQL text, file modes and owners: no hard invariant, or calls into other systems.

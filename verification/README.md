# codel00p in Dafny

A model of the parts of the codel00p Rust engine whose correctness spans a whole run, an
interleaving or a loop, with proofs of what those parts promise. `dafny verify dfyconfig.toml`
checks the project.

- `IterationBudget` — the lock-free shared iteration budget, as a step system of any number of
  threads inside the compare-and-swap loops of `consume` and `refund`, with spurious failures. It
  refines an atomic bounded counter.
- `StreamBuffer`, `BackgroundProcesses`, `BackgroundInvariant`, `BackgroundTheorems`,
  `BackgroundReports`, `BackgroundExits`, `BackgroundDelivery`, `BackgroundProgress`,
  `BackgroundRaces` — background processes: callers in
  `spawn`, `output`, `list` and `kill`, two reader threads per child, the children, and every lock.
  `BackgroundProcesses` is the step system, `BackgroundInvariant` what every step keeps; the next
  five say over all runs when output is complete and that nothing deadlocks, what calls report, what
  an exit report says about the child, what calls deliver, and that they end; `BackgroundRaces` holds two concrete runs.
- `CronSchedule`, `CronDaemon` — schedule text, the job store, the daemon's tick, and daemon runs
  interleaved with edits to the store.
- `GrepScan` — the early-stopping, paged content search against the full match list.
- `DotenvStore` — the dotenv credential file against a map.
- `LoginCallback` — percent encoding (sections 2.1 and 2.3 of RFC 3986) and the callback parser.
- `CloudMemory`, `MemorySearch`, `MemoryRecency` — the memory review queue with its audit log, search,
  and the order in which a blank query finds entries.
- `ClerkDirectory` — the pagination loop, shared by the member and the organisation listing.
- `CuratedNotes` — the two capped note files and the injected block.
- `GlobalFlags` — global flags anywhere on a command line.
- `Basics`, `Text`, `Decimal` — optional values, trimming, splitting and joining of text, decimal numbers.

Objects that the engine updates in place are classes whose methods are specified by functions on
values; the theorems are about those functions and about runs of them. Concurrent code is a
labelled step system: `Exec` gives the state after a sequence of actions, so a theorem about
`Exec` is a theorem about every reachable state. A lock is held by the threads whose program point
lies in its critical section; the child lock taken by the `if let` chain of `refresh_status` is
held until the status is published, as edition 2024 scoping has it.

## What the code does not promise

- An exit can be published before all output is in the buffers when a `kill` overlaps another call
  on the same process, because the reader handles are joined after their lock is released.
  `PublishedDrainedIff` gives the exact condition, `OverlappingKillPublishesEarly` a run.
- A call that overlaps a `kill` can report Running after the kill reported the exit
  (`OverlappingCallReportsStale`): exactly when it had settled on that status before the exit was
  published (`ReportIff`, `LaterReportIff`). Reported exits never disagree, and calls that begin
  later report the exit (`LaterCallsAgree`).
- The truncation flag of a stream can also be raised by an empty append to a full buffer, which reader
  threads never make (`FlagIff`, `EmptyAppendRaisesFlag`).
- Firing times keep their distance exactly until the next-run time saturates at the largest `u64`
  (`FiringsSpaced`, `FiringsPerWindowIff`, `SaturationFiresTwice`).
- An interval is its amount times its unit exactly when the product fits in a `u64`
  (`ProductIff`). A release build wraps beyond that, even to a zero interval
  (`OverflowGivesZero`), which `describe` prints as a spec that is refused
  (`DescribeRoundTripIff`). A debug build panics there; the model is the release build.
- The id of a new job is taken already exactly when its counter wraps and `cron-0` is stored
  (`NewIdFreshIff`, `WrappedIdCollides`).
- Dotenv values read back unchanged exactly when they are one line without outer white space or
  quotes (`SetRoundTripIff`). Other keys are left alone exactly when no later line of the value is
  an entry for another key (`SetKeepsOthersIff`, `MultiLineValueLeaks`).
- When the directory server leaves out the total, only the first page may be listed
  (`MissingTotalIff`, `MissingTotalLosesRecords`).
- `review` accepts the action `created`, which adds a second creation event (`OnlyCreationIff`,
  `SecondCreation`); the HTTP routes never pass it.
- The documentation of memory search says an empty query lists the most recent entries. The code
  lists the first entries by id, compared as text (`BlankQuery`), and these are the most recent ones
  exactly when their ids are longer than all the others (`BlankQueryRecentIff`). While all ids have
  one length that is only so when none or all are returned (`InPushOrderIff`); with two entries and
  limit 1 the older one is returned (`OldestReturned`).

## Model

| member | source | states |
|---|---|---|
| BackgroundTheorems.PublishedDrainedIff | core/crates/codel00p-harness/src/background.rs:202-228 | In every reachable state of every interleaving, for a process with a published exit: both streams are complete (reader over, buffer equal to the first 256 KiB written, flag set exactly when more was written) if and only if no other call still has to join an unfinished reader whose handle it collected |
| BackgroundTheorems.ExitedMeansDrained | core/crates/codel00p-harness/src/background.rs:123-171 | In every run whose kills overlap no other call on their process, a published exit means both streams are complete |
| BackgroundTheorems.NoDeadlock | core/crates/codel00p-harness/src/background.rs:123-228 | From any pending call in any reachable state, overlapping kills included, following who waits for whom ends at a thread that has an enabled step (or at the exit of a child already signalled) |
| BackgroundTheorems.CallerMoves | core/crates/codel00p-harness/src/background.rs:202-228 | The waiting chain is finite: each holder in it waits for a strictly lower lock |
| BackgroundTheorems.LockOrder | core/crates/codel00p-harness/src/background.rs:123-214 | At every program point the wanted lock is below every held one in the order process map, finished, child, readers, stream buffer |
| BackgroundTheorems.ReaderMoves | core/crates/codel00p-harness/src/background.rs:310-323 | A reader of an exited child that is not over is never stuck, so joining it ends |
| BackgroundProgress.InternalWorks | core/crates/codel00p-harness/src/background.rs:123-323 | Every step the store takes by itself (no new call, child or output) strictly lowers the work left |
| BackgroundProgress.InternalRunsEnd | core/crates/codel00p-harness/src/background.rs:123-323 | Under every schedule, a stretch of such steps is no longer than the work left when it began |
| BackgroundProgress.RestMeansIdle | core/crates/codel00p-harness/src/background.rs:123-228 | In a reachable state where no such step is enabled, no call is pending |
| BackgroundProgress.CallsEnd | core/crates/codel00p-harness/src/background.rs:123-228 | From every reachable state, overlapping kills included, a bounded run of such steps returns every pending call |
| BackgroundReports.FinishedIsFinal | core/crates/codel00p-harness/src/background.rs:163-170 | Once published, an exit is the same value in every later state of the run |
| BackgroundReports.ExitReportsAgree | core/crates/codel00p-harness/src/background.rs:202-238 | Any two exits reported for one process by any calls of a run are equal |
| BackgroundExits.ReportedExitIs | core/crates/codel00p-harness/src/background.rs:163-238 | On the actions of a run alone: if a child exits with code c, every exit reported for it is that code, and some output or list had asked, or killed without a code, and some kill had been called; the exit came before the report |
| BackgroundExits.PublicationOf | core/crates/codel00p-harness/src/background.rs:163-214 | Every published exit was published by one step: the seal of a kill, as killed without a code, or the end of a refresh, with the code the child exited with |
| BackgroundExits.ReportedExitHappened | core/crates/codel00p-harness/src/background.rs:202-214 | A run that reports an exit contains the exit of that child before the report |
| BackgroundExits.RunningWasPolled | core/crates/codel00p-harness/src/background.rs:202-214 | A call reports Running only after polling the child itself, in that call, and finding no exit |
| BackgroundReports.ReportIff | core/crates/codel00p-harness/src/background.rs:123-214 | In every run, once an exit is published, a later report of that process is that exit if and only if the reporting call began later or had not settled on Running by then |
| BackgroundReports.LaterReportIff | core/crates/codel00p-harness/src/background.rs:123-171 | The same for any two reports of a process of which the earlier one is an exit |
| BackgroundReports.LaterCallsAgree | core/crates/codel00p-harness/src/background.rs:123-171 | After some call reported an exit, every output or kill of that process and every list that begins later does report the process, with that same exit |
| BackgroundReports.NotSettledRunning | core/crates/codel00p-harness/src/background.rs:202-214 | No step settles a call on Running for a process whose exit is published |
| BackgroundReports.FoundIsRegistered | core/crates/codel00p-harness/src/background.rs:123-171 | In every run, a process that a call works on or reports is in the process map |
| BackgroundDelivery.DeliveredOnce | core/crates/codel00p-harness/src/background.rs:123-136 | In every run, whatever output calls overlap, the slices taken from a stream, joined in order, are its buffer up to the cursor and a prefix of what the child wrote |
| BackgroundDelivery.StepConsumes | core/crates/codel00p-harness/src/background.rs:262-323 | Every step adds to what was consumed of a stream exactly what it takes |
| BackgroundDelivery.DeliveredAllIff | core/crates/codel00p-harness/src/background.rs:123-136 | Once a stream is complete, callers have been given all of it, up to the cap, if and only if the bounds of the reads since then reach the end |
| BackgroundDelivery.OutputIsComplete | core/crates/codel00p-harness/src/background.rs:123-228 | In runs whose kills overlap nothing, after a published exit the slices joined are the first 256 KiB the child wrote if and only if the cursor is at the end, and as many positive reads as there were unread bytes get there |
| BackgroundDelivery.OutputReturnsTaken | core/crates/codel00p-harness/src/background.rs:123-136 | In every run, the slices an output call returns, bytes and truncation flags, are those its last two reads took, from standard output and then standard error |
| BackgroundInvariant.StepKeepsInv | core/crates/codel00p-harness/src/background.rs:77-238 | Every step of callers, readers and children keeps the system invariant: mutual exclusion, stream contents, justified program points, and a holder for every unfinished reader's handle |
| BackgroundInvariant.RunKeepsInv | core/crates/codel00p-harness/src/background.rs:77-323 | The invariant holds after every run of any number of callers |
| BackgroundInvariant.ExclusionKept | core/crates/codel00p-harness/src/background.rs:123-228 | No step lets two threads hold one lock |
| BackgroundInvariant.StepForward | core/crates/codel00p-harness/src/background.rs:163-214 | Steps never undo an exit, a published status or a collected handle, and only a holder of `finished` writes it |
| BackgroundInvariant.HandlesStayCovered | core/crates/codel00p-harness/src/background.rs:218-228 | The handle of an unfinished reader is in the vector or in the hands of a caller that will join it |
| BackgroundInvariant.AppendStep | core/crates/codel00p-harness/src/background.rs:310-323 | Appending the chunk in hand leaves the buffer equal to the capped prefix of what left the pipe |
| BackgroundRaces.OverlappingKillPublishesEarly | core/crates/codel00p-harness/src/background.rs:153-171 | A concrete run of a kill overlapped by an output call publishes an exit while a byte the child wrote is still in the pipe |
| BackgroundRaces.OverlappingCallReportsStale | core/crates/codel00p-harness/src/background.rs:123-136 | A concrete run in which an output call that overlaps a kill reports Running after the kill reported the exit |
| StreamBuffer.StreamBuffer.Append | core/crates/codel00p-harness/src/background.rs:263-275 | The new contents are the old ones extended up to the cap, flag and cursor included |
| StreamBuffer.StreamBuffer.TakeNew | core/crates/codel00p-harness/src/background.rs:279-288 | Returns the next unread bytes up to the bound with the flag, and moves only the cursor, past exactly those bytes |
| StreamBuffer.ExactlyOnce | core/crates/codel00p-harness/src/background.rs:262-289 | For every mix of appends and reads: the slices joined are the data before the cursor, the data is the capped prefix of everything written whatever the chunking, and with non-empty appends the flag says exactly whether the cap was exceeded |
| StreamBuffer.FlagIff | core/crates/codel00p-harness/src/background.rs:263-275 | For any appends, empty ones included, the flag is set if and only if more than the cap was written or an empty append came to a full buffer |
| StreamBuffer.EmptyAppendRaisesFlag | core/crates/codel00p-harness/src/background.rs:263-268 | An empty append to a full buffer raises the flag though nothing was lost, which is why the flag law needs non-empty appends |
| StreamBuffer.ReadsDeliverTheRest | core/crates/codel00p-harness/src/background.rs:279-288 | Reads after the last append return the next bytes up to the sum of their bounds; they return all that is left if and only if that sum reaches the end |
| StreamBuffer.PositiveReadsSuffice | core/crates/codel00p-harness/src/background.rs:279-288 | As many positive reads as there are unread bytes deliver all of them |
| IterationBudget.Linearizable | core/crates/codel00p-harness/src/iteration_budget.rs:17-61 | For every interleaving of any number of threads, spurious swap failures included, there is a run of the atomic bounded counter with the same calls and returns in the same order and the matching final state |
| IterationBudget.StepRefines | core/crates/codel00p-harness/src/iteration_budget.rs:17-53 | Each step of the swap loops is at most one atomic step of the sequential counter |
| IterationBudget.BudgetConserved | core/crates/codel00p-harness/src/iteration_budget.rs:17-53 | After every run `used` is within the maximum and equals successful consumes minus effective refunds |
| IterationBudget.SwapNeverWraps | core/crates/codel00p-harness/src/iteration_budget.rs:24-48 | Whenever a thread is about to swap, the wrapped 32-bit sum or difference is the exact one and stays in range |
| IterationBudget.StaleMeansOvertaken | core/crates/codel00p-harness/src/iteration_budget.rs:19-51 | A thread whose local value differs from the cell was overtaken by another thread's successful swap since its last read |
| IterationBudget.LostSwapWasOvertaken | core/crates/codel00p-harness/src/iteration_budget.rs:19-32 | Every genuine swap failure follows a successful swap of another thread since this thread last read the cell |
| IterationBudget.LostByThread | core/crates/codel00p-harness/src/iteration_budget.rs:38-51 | One thread loses at most as many swaps as there have been successful ones |
| IterationBudget.LostSwapsBounded | core/crates/codel00p-harness/src/iteration_budget.rs:19-51 | In any run, genuine failures number at most threads times successful swaps |
| CronSchedule.DescribeRoundTripIff | core/crates/codel00p-cron/src/lib.rs:332-339 | For every 64-bit interval, describing it and parsing the text gives it back if and only if it is positive |
| CronSchedule.LargestUnit | core/crates/codel00p-cron/src/lib.rs:332-339 | A description counts the largest of weeks, days, hours, minutes and seconds that divides the interval |
| CronSchedule.AcceptedSpecRoundTripIff | core/crates/codel00p-cron/src/lib.rs:58-60 | An accepted spec survives describing and reparsing if and only if its interval is positive |
| CronSchedule.SpecParses | core/crates/codel00p-cron/src/lib.rs:66-102 | With any white space around the parts and with or without `every`, a spec means, or is refused for, exactly what its number text and its unit word say |
| CronSchedule.SecondsAndMinutes | core/crates/codel00p-cron/src/lib.rs:90-92 | Each spelling of seconds and minutes and its length |
| CronSchedule.HoursAndMore | core/crates/codel00p-cron/src/lib.rs:93-95 | Each spelling of hours, days and weeks and its length |
| CronSchedule.NoOtherUnit | core/crates/codel00p-cron/src/lib.rs:96-97 | Nothing else is a unit |
| CronSchedule.AcceptedIff | core/crates/codel00p-cron/src/lib.rs:66-102 | A spec is accepted if and only if it is white space, an optional `every`, a positive 64-bit number and a unit of the table, with white space between and after |
| CronSchedule.ProductIff | core/crates/codel00p-cron/src/lib.rs:66-102 | With an optional plus sign, digits and any spelling of a unit mean their product if and only if the number is positive and the product fits in 64 bits |
| CronSchedule.OverflowGivesZero | core/crates/codel00p-cron/src/lib.rs:87-101 | A number of weeks that passes the zero check and wraps to a zero interval |
| CronDaemon.JobStore.Get | core/crates/codel00p-cron/src/lib.rs:248-255 | Malformed ids are refused before the lookup, unknown ones reported, others returned |
| CronDaemon.JobStore.SetEnabled | core/crates/codel00p-cron/src/lib.rs:269-274 | Sets the enabled flag of that job to the given value and changes nothing else; which error, and no change, otherwise |
| CronDaemon.JobStore.MarkRan | core/crates/codel00p-cron/src/lib.rs:277-282 | Sets the last-run time of that job and changes nothing else; which error, and no change, otherwise |
| CronDaemon.JobStore.List | core/crates/codel00p-cron/src/lib.rs:235-246 | Every stored job, each once |
| CronDaemon.NextAbove | core/crates/codel00p-cron/src/lib.rs:284-292 | The smallest number above every index found, or 1 |
| CronDaemon.JobStore.NextIndex | core/crates/codel00p-cron/src/lib.rs:284-292 | The smallest number above every stored `cron-<n>` index, or 1, wrapped to 64 bits |
| CronDaemon.NewIdFreshIff | core/crates/codel00p-cron/src/lib.rs:284-292 | The id given to a new job is unused if and only if the counter did not wrap or `cron-0` is unused |
| CronDaemon.NewIdIsValid | core/crates/codel00p-cron/src/lib.rs:320-330 | Ids given to new jobs are valid, so every operation reaches them |
| CronDaemon.ValidIdIff | core/crates/codel00p-cron/src/lib.rs:320-330 | An id is valid exactly when it is not empty and holds only letters, digits, dashes and underscores |
| CronDaemon.AddedIsJustStored | core/crates/codel00p-cron/src/lib.rs:182-209 | A job added at any time, in or between ticks, is stored enabled and never run |
| CronDaemon.WrappedIdCollides | core/crates/codel00p-cron/src/lib.rs:284-292 | With the first and the last index taken, the next job is given the first one's id |
| CronDaemon.JobStore.Add | core/crates/codel00p-cron/src/lib.rs:182-209 | Both refusals and their order; on success one enabled, never-run job is filed under the next id and all others stay, with the exact condition for that id to be unused |
| CronDaemon.StoredSchedule | core/crates/codel00p-cron/src/lib.rs:196-199 | The trimmed spec that is stored parses as the one given |
| CronDaemon.DueJobsListed | core/crates/codel00p-cron/src/lib.rs:162-164 | Filtering the listing gives, each once, exactly the jobs that are enabled, have an accepted schedule, and have never run or last ran an interval ago (counting to the largest 64-bit number) |
| CronDaemon.JobStore.FireAll | core/crates/codel00p-cli/src/cron.rs:198-204 | The loop marks and reports exactly the jobs of the list, in order |
| CronDaemon.JobStore.RunDueTick | core/crates/codel00p-cli/src/cron.rs:193-206 | A tick reports, each once, exactly the jobs that are enabled, have an accepted schedule, and have never run or last ran an interval ago, and marks exactly those |
| CronDaemon.DueIff | core/crates/codel00p-cron/src/lib.rs:147-158 | A job is due if and only if it is enabled, its schedule is accepted, and it has never run or its next-run time has come |
| CronDaemon.FirstFiring | core/crates/codel00p-cron/src/lib.rs:144-158 | In every run from when an enabled, never-run job is stored, its first firing is at the first tick that begins afterwards, and once that tick is over it has fired |
| CronDaemon.MarkAllEffect | core/crates/codel00p-cli/src/cron.rs:198-204 | After a tick its jobs carry the tick's time and every other job is as before |
| CronDaemon.NoDoubleFire | core/crates/codel00p-cli/src/cron.rs:190-206 | A job fired by a tick is due again at a later time if and only if its next-run time has come |
| CronDaemon.TickIsARun | core/crates/codel00p-cli/src/cron.rs:193-206 | The tick method and the tick of the run model have the same effect on the store |
| CronDaemon.FiringsSpaced | core/crates/codel00p-cron/src/lib.rs:147-158 | In every daemon run with any edits to the store in between, consecutive firings of a job that is never removed are at least its interval apart if and only if the first one's next-run time does not saturate |
| CronDaemon.SaturationFiresTwice | core/crates/codel00p-cron/src/lib.rs:53-55 | For every schedule there is a run at the end of the 64-bit range that fires the job twice at one instant |
| CronDaemon.FiringsPrompt | core/crates/codel00p-cli/src/cron.rs:181-187 | While a job stays enabled and ticks are at most `gap` apart, consecutive firings are less than interval plus `gap` apart (at most `gap` for a zero interval) |
| CronDaemon.FiringsPerWindowIff | core/crates/codel00p-cron/src/lib.rs:147-164 | In every run, every window holds at most length / interval + 1 firings if and only if no firing but the last has a next-run time that saturates |
| GrepScan.ScanFile | core/crates/codel00p-harness/src/find.rs:241-258 | Stops exactly when the file has at least `room` matches; returns the first `room`, or all of them |
| GrepScan.Scan | core/crates/codel00p-harness/src/find.rs:216-259 | The early-stopping scan returns the first `cap` matches of the whole corpus and the number of files they come from |
| GrepScan.Grep | core/crates/codel00p-harness/src/find.rs:181-262 | The window is the slice of the full match list from the offset (default 0) to the limit (default 200, between 1 and 1000), `has_more` holds exactly when a later match exists, and the file count is that of the first offset + limit + 1 matches; context is at most 20 lines and none when concise |
| GrepScan.AllMatchesAre | core/crates/codel00p-harness/src/find.rs:220-291 | The full match list is exactly the lines the expression matches, each once, by file and then by line, each with its path, number, text and the context asked for |
| GrepScan.StoppedScan | core/crates/codel00p-harness/src/find.rs:249-258 | Breaking out inside a file loses none of the first `cap` matches and the file counts once |
| GrepScan.CoverCountsPaths | core/crates/codel00p-harness/src/find.rs:220-258 | With distinct paths, the reported count is the number of distinct paths among those matches |
| GrepScan.PagingCoversAll | core/crates/codel00p-harness/src/find.rs:261-262 | Following `has_more` from an offset yields every match from there once, in order |
| GrepScan.ContextIsContiguous | core/crates/codel00p-harness/src/find.rs:275-291 | Before, hit and after are one contiguous stretch of the file ending or starting early only at its ends |
| DotenvStore.DotenvCredentialStore.Get | core/crates/codel00p-cli/src/providers.rs:138-152 | A non-empty environment value shadows the file; otherwise the first entry for the key, cleaned |
| DotenvStore.DotenvCredentialStore.Set | core/crates/codel00p-cli/src/providers.rs:154-173 | Rewrites the file with the first entry for the key replaced, or one appended |
| DotenvStore.DotenvCredentialStore.Remove | core/crates/codel00p-cli/src/providers.rs:175-198 | Drops every entry for the key, keeps the file as it is when there is none, and says which |
| DotenvStore.WrittenEntry | core/crates/codel00p-cli/src/providers.rs:122-128 | A written line parses back to its key and, up to cleaning, its value |
| DotenvStore.NoEntryIff | core/crates/codel00p-cli/src/providers.rs:122-128 | A line is no entry if and only if its first non-blank character is `#` or it holds no `=` |
| DotenvStore.EntryIs | core/crates/codel00p-cli/src/providers.rs:144-151 | Any other line is cut at its first `=`: the key trimmed, the value cleaned |
| DotenvStore.InertLine | core/crates/codel00p-cli/src/providers.rs:144-151 | A comment, or a line without `=`, changes no lookup wherever it stands |
| DotenvStore.InertInFile | core/crates/codel00p-cli/src/providers.rs:116-151 | The same for the text of a file |
| DotenvStore.EntryLine | core/crates/codel00p-cli/src/providers.rs:144-151 | A line with white space around a proper key answers for that key alone, with the cleaned value |
| DotenvStore.CleanIs | core/crates/codel00p-cli/src/providers.rs:144-151 | Cleaning takes off the outer white space and then every outer double quote |
| DotenvStore.FileSetIs | core/crates/codel00p-cli/src/providers.rs:154-173 | `set` keeps every line but the first entry for the key, which it replaces, or adds a line at the end |
| DotenvStore.DropLinesAre | core/crates/codel00p-cli/src/providers.rs:175-188 | `remove` keeps exactly the lines that are no entries for the key, in order |
| DotenvStore.CleanFixed | core/crates/codel00p-cli/src/providers.rs:144-152 | Cleaning leaves a value alone exactly when it has no outer white space or quote |
| DotenvStore.SetThenLookup | core/crates/codel00p-cli/src/providers.rs:154-173 | Through write, join and line split, with comments and duplicates: the key reads the first line of the value, cleaned, and, for a value that plants no other entry, every other key its old answer |
| DotenvStore.SetRoundTripIff | core/crates/codel00p-cli/src/providers.rs:144-173 | For every file and value, the key reads back exactly the value if and only if it is a single line without outer white space or quotes |
| DotenvStore.SetKeepsOthersIff | core/crates/codel00p-cli/src/providers.rs:154-173 | For every key and value: `set` leaves every other key of every file alone if and only if no later line of the value is an entry for another key |
| DotenvStore.SetIsSplice | core/crates/codel00p-cli/src/providers.rs:154-173 | For any value, the file after `set` reads like the old lines with all lines of the new entry in place of the first old one |
| DotenvStore.MultiLineValueLeaks | core/crates/codel00p-cli/src/providers.rs:154-173 | A value with a newline that changes the answer for another key |
| DotenvStore.RemoveThenLookup | core/crates/codel00p-cli/src/providers.rs:175-198 | For every key: gone after removal, and every other key keeps its answer |
| DotenvStore.FileRefinesMap | core/crates/codel00p-cli/src/providers.rs:116-198 | Every run of removes and of sets whose values plant no other entry agrees with the same run on a map |
| LoginCallback.UrlEncode | core/crates/codel00p-cli/src/login.rs:249-260 | The byte loop computes the encoding |
| LoginCallback.EncodeByteIs | core/crates/codel00p-cli/src/login.rs:252-257 | Letters, digits and `-_.~` stand for themselves; every other byte becomes `%` and two upper-case hexadecimal digits |
| LoginCallback.UrlDecode | core/crates/codel00p-cli/src/login.rs:219-247 | The index loop computes the decoding, incomplete and malformed escapes and `+` included |
| LoginCallback.DecodeEscape | core/crates/codel00p-cli/src/login.rs:225-233 | An escape with hexadecimal digits in either case stands for its byte |
| LoginCallback.DecodePlus | core/crates/codel00p-cli/src/login.rs:236-239 | A plus sign stands for a space |
| LoginCallback.DecodePlain | core/crates/codel00p-cli/src/login.rs:240-243 | Any other character but `%` stands for itself |
| LoginCallback.DecodeBroken | core/crates/codel00p-cli/src/login.rs:225-236 | A `%` without two hexadecimal digits after it stands for itself |
| LoginCallback.DecodeEncode | core/crates/codel00p-cli/src/login.rs:219-260 | Decoding undoes encoding for every byte string |
| LoginCallback.EncodeInjective | core/crates/codel00p-cli/src/login.rs:249-260 | Different byte strings have different encodings |
| LoginCallback.EncodeIsSafe | core/crates/codel00p-cli/src/login.rs:249-260 | Encoded text holds no delimiter, space or `+` |
| LoginCallback.NothingReserved | core/crates/codel00p-cli/src/login.rs:249-260 | Encoded text holds none of the reserved characters of a URL, no space or control character, and only ASCII |
| LoginCallback.ParseCallback | core/crates/codel00p-cli/src/login.rs:150-172 | The loop over pairs finds the last token and the last state of a callback path, or none |
| LoginCallback.CallbackOfPairs | core/crates/codel00p-cli/src/login.rs:154-171 | A callback request with any number of pairs in any order gives the last token and the last state |
| LoginCallback.LastPairWins | core/crates/codel00p-cli/src/login.rs:161-171 | The last pair that begins with the key and `=` gives the decoded value; without one there is none |
| LoginCallback.OtherPath | core/crates/codel00p-cli/src/login.rs:150-160 | A missing line, or another path, gives neither |
| LoginCallback.SecondWord | core/crates/codel00p-cli/src/login.rs:154-156 | The second white-space-separated word of a request line is its path |
| LoginCallback.CallbackRoundTrip | core/crates/codel00p-cli/src/login.rs:150-172 | For all byte strings, the request line built from an encoded token and state parses back to exactly them |
| CloudMemory.MemoryQueue.RecordAudit | core/crates/codel00p-cloud/src/memory.rs:186-199 | Appends one event to that entry's log and changes nothing else |
| CloudMemory.MemoryQueue.PushCandidate | core/crates/codel00p-cloud/src/memory.rs:24-60 | Refused exactly when the content is blank; otherwise one new candidate with its creation event, all other state kept |
| CloudMemory.MemoryQueue.ReviewEntry | core/crates/codel00p-cloud/src/memory.rs:89-119 | Fails exactly when the entry is absent; otherwise sets its status, logs the review and keeps all other state |
| CloudMemory.NextIdFresh | core/crates/codel00p-cloud/src/memory.rs:36-36 | The next id is used by no document and no log |
| CloudMemory.MemoryIdInjective | core/crates/codel00p-cloud/src/memory.rs:36-36 | Different counter values give different ids |
| CloudMemory.StepOnEntry | core/crates/codel00p-cloud/src/memory.rs:89-119 | A review of an entry changes its status and extends its log; every other command leaves it alone |
| CloudMemory.PushCreates | core/crates/codel00p-cloud/src/memory.rs:24-60 | A document appears only by an accepted push, with the pushed content and a one-event log |
| CloudMemory.EveryEntryHasHistory | core/crates/codel00p-cloud/src/memory.rs:24-140 | In every run, each entry has exactly one push behind it; its log is that creation followed by its reviews in order, its status is the fold of the log, and the rest is what was pushed |
| CloudMemory.PushOrder | core/crates/codel00p-cloud/src/memory.rs:36-36 | Ids are numbered in the order of the accepted pushes |
| CloudMemory.ApprovedIffLastEvent | core/crates/codel00p-cloud/src/memory.rs:97-119 | In every run an entry is approved if and only if its latest event is an approval |
| CloudMemory.StatusIsLastEvent | core/crates/codel00p-protocol/src/cloud.rs:301-308 | In every run, an entry is a candidate, approved, rejected or archived exactly as its latest event says |
| CloudMemory.EntryIsPushed | core/crates/codel00p-cloud/src/memory.rs:24-60 | In every run, the id, project, kind, sensitivity, trimmed content, tags and source of an entry are those of its push, field by field, and its log begins with that creation |
| CloudMemory.OnlyCreationIff | core/crates/codel00p-cloud/src/memory.rs:97-99 | The creation is the log's only `created` event if and only if no later review of the entry used that action |
| CloudMemory.SecondCreation | core/crates/codel00p-cloud/src/memory.rs:89-119 | Any accepted push followed by a review with the action `created` leaves a log with two creation events |
| MemorySearch.SearchIsTopK | core/crates/codel00p-cloud/src/memory.rs:146-184 | For a non-empty query the result is the first `limit` of a ranking of exactly the approved entries with positive score, by score and then listing order |
| MemorySearch.NothingBetterOmitted | core/crates/codel00p-cloud/src/memory.rs:178-183 | When an entry is left out the limit is reached and it ranks after everything returned |
| MemorySearch.ScoreAllFilters | core/crates/codel00p-cloud/src/memory.rs:166-177 | Exactly the listed entries with positive score are scored, in listing order |
| MemorySearch.SortRanks | core/crates/codel00p-cloud/src/memory.rs:178-178 | The stable sort is a permutation in ranking order |
| MemorySearch.RankingUnique | core/crates/codel00p-cloud/src/memory.rs:178-178 | A ranking of given entries is unique, so any stable sort gives this one |
| MemorySearch.ListMemoryFilters | core/crates/codel00p-cloud/src/memory.rs:63-85 | A listing is exactly the stored entries of the wanted status (all without one), each once, in storage order |
| MemorySearch.BlankQuery | core/crates/codel00p-cloud/src/memory.rs:154-164 | A query has no terms exactly when it is blank; the result is then the first `limit` entries of the approved listing |
| MemoryRecency.BlankQueryRecentIff | core/crates/codel00p-cloud/src/memory.rs:142-164 | In every run, on the listing by id, a blank query returns entries all pushed after every approved entry it leaves out if and only if the ids it returns are all longer than those it leaves out |
| MemoryRecency.InPushOrderIff | core/crates/codel00p-cloud/src/memory.rs:142-164 | On a listing in push order that holds if and only if the limit is zero or covers all approved entries |
| MemoryRecency.OldestReturned | core/crates/codel00p-cloud/src/memory.rs:142-164 | Any two accepted pushes to a project, both approved: a blank query with limit 1 returns the first |
| MemoryRecency.IdOrder | core/crates/codel00p-storage/src/in_memory.rs:106-106 | Of two ids in text order, the first was pushed later exactly when it is longer |
| MemoryRecency.TenthBeforeSecond | core/crates/codel00p-storage/src/in_memory.rs:106-106 | The tenth id is listed before the second, so listing order is not push order |
| MemorySearch.ScoresIffTermOccurs | core/crates/codel00p-cloud/src/memory.rs:166-177 | An entry has a positive score if and only if some term occurs in its content |
| MemorySearch.CountIs | core/crates/codel00p-cloud/src/memory.rs:170-173 | The count of a term is the number of its occurrences, each the next one after the end of the one before |
| MemorySearch.CountedUnique | core/crates/codel00p-cloud/src/memory.rs:170-173 | There is only one such list of occurrences |
| MemorySearch.ScoreIsSum | core/crates/codel00p-cloud/src/memory.rs:170-174 | The score adds up the counts of all terms |
| MemorySearch.WordsAre | core/crates/codel00p-cloud/src/memory.rs:154-158 | The terms of a query are its longest stretches without white space, in order, with only white space between them |
| MemorySearch.SearchReturnsApproved | core/crates/codel00p-cloud/src/memory.rs:146-184 | In any run of pushes and reviews, the latest audit event of every entry a search returns is an approval |
| ClerkDirectory.ListAll | core/crates/codel00p-cloud/src/directory.rs:54-70 | The loop ends for every list and every placement of invalid records; with a reported total it returns the order-preserving filter-map of the whole list |
| ClerkDirectory.StopTest | core/crates/codel00p-cloud/src/directory.rs:60-66 | After any page, the stop test holds only when the records so far are the result, and fails only when records are left |
| ClerkDirectory.MissingTotalIff | core/crates/codel00p-cloud/src/directory.rs:60-66 | Without a reported total the result is complete if and only if the list fits on one page, the first page dropped a record, or nothing later converts |
| ClerkDirectory.MissingTotalLosesRecords | core/crates/codel00p-cloud/src/directory.rs:60-66 | 101 records that all convert and no total: the last one is not listed |
| ClerkDirectory.FilterMapConcat | core/crates/codel00p-cloud/src/directory.rs:60-68 | Converting page by page is converting the whole list |
| ClerkDirectory.FilterMapIs | core/crates/codel00p-cloud/src/directory.rs:63-63 | The result holds exactly the records that convert, converted, in their order |
| ClerkDirectory.FullLengthIff | core/crates/codel00p-cloud/src/directory.rs:64-66 | The filtered length reaches the unfiltered total exactly when nothing was dropped |
| CuratedNotes.NoteFiles.WriteCapped | core/crates/codel00p-harness/src/curated_memory.rs:177-195 | Over the cap: an error and no change; otherwise the body is stored with one newline and returned |
| CuratedNotes.NoteFiles.AppendNote | core/crates/codel00p-harness/src/curated_memory.rs:116-128 | Blank text is refused; otherwise the text joins the body under the cap rule |
| CuratedNotes.NoteFiles.ReplaceNote | core/crates/codel00p-harness/src/curated_memory.rs:132-150 | Empty or absent search text is refused; otherwise the first occurrence is replaced under the cap rule |
| CuratedNotes.NoteFiles.RemoveNote | core/crates/codel00p-harness/src/curated_memory.rs:154-173 | Empty or absent search text is refused; otherwise the first occurrence and all blank lines go |
| CuratedNotes.ApplyEffect | core/crates/codel00p-harness/src/curated_memory.rs:116-195 | For every operation: success returns exactly what the next read returns, failure changes nothing, the other file is untouched |
| CuratedNotes.StoredIff | core/crates/codel00p-harness/src/curated_memory.rs:177-195 | An edit is stored in its own file when it has at most 2000 (agent) or 1200 (user) characters, and refused with its length otherwise |
| CuratedNotes.AddIs | core/crates/codel00p-harness/src/curated_memory.rs:116-128 | Adding puts the trimmed text on a line of its own after the body |
| CuratedNotes.ReplaceIs | core/crates/codel00p-harness/src/curated_memory.rs:132-150 | Replacing exchanges the first occurrence only |
| CuratedNotes.RemoveIs | core/crates/codel00p-harness/src/curated_memory.rs:154-173 | Removing takes out the first occurrence only, and every blank line |
| CuratedNotes.RefusedEdits | core/crates/codel00p-harness/src/curated_memory.rs:132-173 | Text that is empty, or nowhere in the body, is refused |
| CuratedNotes.RunStaysGood | core/crates/codel00p-harness/src/curated_memory.rs:116-195 | In every run from empty files both files stay trimmed and within their caps |
| CuratedNotes.RemoveShrinks | core/crates/codel00p-harness/src/curated_memory.rs:154-173 | Removing text that occurs makes the body strictly shorter |
| CuratedNotes.RemoveSucceedsIff | core/crates/codel00p-harness/src/curated_memory.rs:154-195 | In any run a remove succeeds if and only if its text is not empty and occurs, so never fails on the cap |
| CuratedNotes.RemoveUndoesAdd | core/crates/codel00p-harness/src/curated_memory.rs:116-173 | On a body without blank lines, the empty one included, removing the text just added restores the body when that text does not occur earlier |
| CuratedNotes.AssembleBlock | core/crates/codel00p-harness/src/curated_memory.rs:87-109 | The pushes build the header, the notes section and then the user section, each only when its file is not empty |
| CuratedNotes.BlockBounded | core/crates/codel00p-harness/src/curated_memory.rs:87-109 | In any run the block is absent exactly when both files read as empty, and otherwise bounded by a constant plus the two caps |
| GlobalFlags.ParseGlobalOverrides | core/crates/codel00p-cli/src/config.rs:57-94 | The index loop computes the recursive reading of the list, errors included |
| GlobalFlags.AcceptedIff | core/crates/codel00p-cli/src/config.rs:57-138 | A list is accepted if and only if it reads as flag/value pairs and plain tokens |
| GlobalFlags.AcceptedIsReadable | core/crates/codel00p-cli/src/config.rs:57-94 | Every accepted list is given such a reading |
| GlobalFlags.ParseFlatten | core/crates/codel00p-cli/src/config.rs:57-94 | On any such reading the overrides fold the pairs and the plain tokens remain in order |
| GlobalFlags.ParseMeaning | core/crates/codel00p-cli/src/config.rs:57-94 | Each flag gets its last value, and the remainder is the plain tokens in order |
| GlobalFlags.ParseFields | core/crates/codel00p-cli/src/config.rs:57-94 | Each of the five flags sets its own field, to the last value that follows its text |
| GlobalFlags.RefusedAt | core/crates/codel00p-cli/src/config.rs:133-138 | The first flag without a value is the one the error names |
| GlobalFlags.IsValueIff | core/crates/codel00p-cli/src/config.rs:133-138 | A value is any token that does not begin with two dashes |
| GlobalFlags.AppliedGet | core/crates/codel00p-cli/src/config.rs:62-91 | The last value wins per flag, over any earlier override |
| GlobalFlags.PositionTolerant | core/crates/codel00p-cli/src/config.rs:46-94 | Lists with the same plain tokens and the same last values parse alike |
| GlobalFlags.PairMovesPastToken | core/crates/codel00p-cli/src/config.rs:46-94 | Moving a pair past a plain token anywhere in an accepted list changes neither overrides nor remainder |
| GlobalFlags.RemainderReparses | core/crates/codel00p-cli/src/config.rs:57-94 | Parsing the remainder of an accepted list returns it unchanged with no overrides |

## Left out

- The TypeScript apps, SDK and UI packages, terminal handling and help text: user interface.
- Checkpoints, governed dispatch, delegation, the agent turn loop and code execution: they rest on git, an interpreter or code outside this model.
- Error classification, checks, Slack commands, coercions, slugs and titles: each is one ordered match on text, settled by reading a branch, and keeps no state.
- JWT verification, sockets, HTTP and file permissions: foreign calls.
- Environment variables and the clock are parameters (`env`, `now`).
- Failing reads in reader threads and a failing `wait`: a reader runs to end of file, and a signalled child exits. A failing `try_wait` is the not-yet-exited step.
- Reader handles are joined in any order rather than vector order, which allows more runs than the code has.
- The command line, the process name and the id text of a background process, and the map order of `list`.
- Weak-memory effects on the budget's relaxed loads: a load sees the latest value of the cell.
- Lossy UTF-8 decoding of stream slices and of decoded parameters: both are stated on bytes.
- Two concurrent daemons, and edits that interleave inside one read-modify-write of a job file: the code does not coordinate these.
- The workspace, provider, model and command fields of a job and `add_command`: they are stored unread, and no scheduling decision looks at them.
- Executing a job: it leaves the store alone.
- The order in which jobs are listed, corrupt or unreadable job files, the schedule field of jobs edited by hand.
- Regular expressions, globs and the directory walk: a line carries its verdict and a skipped file has no lines.
- Id counters that restart with the process, and storage writes that fail.
- The conversions of single Clerk records: a record is what its conversion makes of it, so any partial map is covered.
- Unicode case folding in search: any function on strings.
- CronDaemon.FiringsSpaced: an id that is removed and added again is a new job, so runs that remove the job are not covered; nor are runs that overwrite it by the id collision of WrappedIdCollides.
- CronDaemon.FiringsPerWindowIff: the interval is positive, because a zero interval bounds nothing.
- ClerkDirectory.ListAll: the list plus one page fits in 32 bits, because the source's offset is a `u32`; the server's list does not change between pages.
- GrepScan.Grep: fewer matches than the largest `usize`, because no vector can hold more.
- DotenvStore.SetThenLookup: keys are trimmed, on one line, hold no `=` and do not start a comment, because the parser never reads other keys back.
- MemorySearch.SearchReturnsApproved: the listing is taken to hold stored documents of that project in any order.

# Crash monitor: a verified model

A Dafny model of the parts of a macOS crash monitor where a mistake loses a report, tears a snapshot or
leaves the monitored process stopped. Every claim below is a contract that `dafny verify dfyconfig.toml`
checks.

- **Artifact transactions** (`ArtifactPaths`, `ArtifactStore`, `ArtifactSafety`, `ArtifactTheorems`,
  `ArtifactProgress`, `ArtifactRecovery`, `ArtifactStartup`, `ArtifactTransaction`). A report is built in a hidden directory,
  sealed by a manifest and published by one rename. One report's life is a step relation: the threads of
  the owning process, recovery and scavenging passes of other processes, writers outside the protocol, and
  a crash between any two file-system steps. The startup passes and the mutex-protected core are classes.
- **Shared-memory producer** (`SharedRegion`, `Producer`, `ProducerSafety`, `ProducerProgress`, `CrumbProgress`,
  `CrumbRing`). Any number of
  threads publish through try-once seqlocks with 32-bit generations; plain stores complete in any order and
  may be seen half done. `CrumbRing` is one ring updated in place, and the reader's backward scan of it.
- **Plugin graph** (`PluginGraph`, `PluginOrder`, `PluginRegistry`, `PluginEnablement`, `PhaseLoops`).
  Cycle search, stable priority order, validation, enablement closure and the post-processor phase loops.
- **Suspension** (`TaskControl`, `CaptureLoop`). The suspension guard, the killable helper, the capture
  worker and the event loop over a platform whose calls may fail at any point; what was asked of the
  platform is a trace.
- **ANR watchdog and its clock** (`Watchdog`, `AnrClock`).
- **Wakeup protocol** (`Wakeup`). Signal handlers, the bridge thread and the consumer in any interleaving.
- **Bounded and crash-consistent files** (`RateLimiter`, `LogRotator`, `MoveToSent`, `Evidence`,
  `PngConverter`). `Evidence.Disk` records every state a file system passes through, so a promise covers an
  interruption at any point; all of them work on it.

Outcomes the code does not decide (platform calls, I/O, deadlines, chunk sizes, scheduling, crashes) are
left open: a havoc in a method, a free choice in a step relation. Memory is sequentially consistent and
time is a natural number. `publish_private_path` is one exclusive atomic rename, and no outside writer acts
between the last revalidation of a directory and its rename.

Where the code and its documentation disagree the code is modelled:

- `src/pipeline/mod.rs:395-397` says the startup scavenger deletes only transactions without a manifest;
  `src/pipeline/artifact.rs:940-989` never looks for one. `ArtifactStartup.StartupLosesExactly` gives the
  exact condition, `ArtifactStartup.PreparedReportsAreScavenged` and
  `ArtifactStartup.UnreachedReportsAreScavenged` the two ways to fail, and
  `ArtifactStartup.StartupFinishesCommits` the promise that holds.
- `src/pipeline/artifact.rs:55-57` reserves an entry for the manifest so that 10,000 artifacts stay possible,
  but the manifest is built under the same limit, so 10,001 artifacts are sealed and then neither published
  nor cleared by anything: `ArtifactProgress.OneTooManyIsSealed`, `ArtifactProgress.OneTooManyIsNeverPublished`
  and `ArtifactStartup.CrowdedReportsStay`. `ArtifactProgress.ValidatesExactly` is the exact condition. Once
  old, such a report also ends every scavenging pass that reaches it.
- A report that lists one raw screenshot twice is left naming a deleted file, and an artifact listed twice
  keeps a stale path: exactly when, is stated by `PngConverter.Process` and `MoveToSent.Process`; instances
  are `PngConverter.ListedTwiceIsDeleted` and `MoveToSent.DuplicateGoesStale`.
- A raw screenshot whose removal from the registry is refused is gone while its path is still handed on:
  `PngConverter.Process`.
- A rate-limit state that is renamed away but cannot be replaced leaves no file, so the next check starts
  from nothing: `RateLimiter.Limiter.CheckAndRecord`.

## Model

| member | source | states |
|---|---|---|
| `ArtifactTheorems.EveryPublishedReportIsComplete` | src/pipeline/artifact.rs:680-782 | over every run of any number of reports, with crashes, recovery, scavenging, final-diagnostics rewriting and outside writers interleaved, every published directory holds a manifest of its own id and schema that lists exactly its other files at their sizes |
| `ArtifactTheorems.PublishedReportsAreComplete` | src/pipeline/artifact.rs:1394-1413 | the same for one report, and it is published in one place only with its staging directory gone |
| `ArtifactTheorems.RunReplacesNothing` | src/pipeline/artifact.rs:328-394 | no run ever replaces an existing destination, and a published report keeps all its files; only the manifest's final diagnostics may change |
| `ArtifactTheorems.OneThreadAtATime` | src/pipeline/artifact.rs:842-870 | whatever threads share a transaction, at most one is inside it, at most one operation is active, at most one commit returns a report, and a committing thread's manifest lists exactly the registry, names and kinds |
| `ArtifactTheorems.RegistryIsFrozen` | src/pipeline/artifact.rs:680-690 | over every run phases only move forward, and from the start of a commit the registry and destination never change |
| `ArtifactTheorems.SealedReportsSurvive` | src/pipeline/artifact.rs:713-782 | once the manifest is staged, no failing commit, drop, crash or recovery loses the report: it stays staged byte for byte until it is published with the same files where its own commit would have put it |
| `ArtifactTheorems.RecoveryPublishes` | src/pipeline/artifact.rs:1073-1172 | a recovery pass over an unowned, unchanged, sealed report with a free destination publishes it at the path its commit had chosen, and leaves nothing staged |
| `ArtifactTheorems.RunKeepsInv` | src/pipeline/artifact.rs:680-883 | the invariant behind these results (exclusive threads, frozen plans, lock ownership, validated directories, sealed manifests) is kept by every step of every run |
| `ArtifactTheorems.StepReplacesNothing` | src/pipeline/artifact.rs:723-753 | no single step replaces a destination, whoever put it there |
| `ArtifactProgress.UninterruptedCommitPublishes` | src/pipeline/artifact.rs:680-782 | a commit that nothing interrupts, of at most 10,000 artifacts within the byte budget of its policy and the limit on the manifest, publishes the staged files with a manifest of exactly the registry at the chosen destination, and leaves nothing staged |
| `ArtifactProgress.BuildsExactly` | src/pipeline/artifact.rs:793-840 | the manifest of a sealed transaction is built if and only if it has at most 10,001 entries and its bytes fit the budget |
| `ArtifactProgress.WritesAreRegistered` | src/pipeline/artifact.rs:499-561 | an artifact write that nothing interrupts adds exactly that file and its registration, with no temporary left |
| `ArtifactProgress.ValidatesExactly` | src/pipeline/artifact.rs:723-753 | a sealed, unchanged report goes on to publication if and only if its place is free and it has at most 10,000 artifacts |
| `ArtifactProgress.OneTooManyIsSealed` | src/pipeline/artifact.rs:687-753 | a commit of exactly 10,001 artifacts passes its own limit and places its manifest, and then refuses to publish what it sealed |
| `ArtifactProgress.OneTooManyIsNeverPublished` | src/pipeline/artifact.rs:1314-1331 | after that no interleaving of threads, crashes, recovery and scavenging passes publishes such a report or removes any of it: it stays staged, whole, for good |
| `ArtifactSafety.NextKeepsInv` | src/pipeline/artifact.rs:397-883 | each of the forty-two kinds of step keeps the invariant |
| `ArtifactSafety.AmendedIsSound` | src/pipeline/artifact.rs:345-394 | replacing a published manifest by one that differs only in diagnostics leaves the directory complete |
| `ArtifactRecovery.InterruptedCommitsAreFinished` | src/pipeline/artifact.rs:1013-1172 | for every run of the protocol from the start, however interrupted, a report that reached its manifest and lost its owner is complete in staging, and the next recovery pass publishes it at its recorded destination |
| `ArtifactRecovery.RunStaysClean` | src/pipeline/artifact.rs:793-840 | while only the protocol writes, the sealed directory always matches its manifest exactly |
| `ArtifactRecovery.ScavengingTakesAnything` | src/pipeline/artifact.rs:927-992 | a scavenging pass that gets the lock removes the whole directory, sealed or not, if and only if it has at most 10,001 entries, and otherwise can only give up |
| `ArtifactPaths.DestinationRoundTrip` | src/pipeline/artifact.rs:1226-1267 | what a manifest records about its destination resolves to the same directory in a later process |
| `ArtifactPaths.ResolvedIsRecordable` | src/pipeline/artifact.rs:1253-1284 | whatever a manifest says, recovery never publishes outside the root and its plainly named siblings, and such a destination survives being recorded again |
| `ArtifactPaths.RecordableDestinations` | src/pipeline/artifact.rs:1226-1251 | exactly the root and its siblings whose names do not start with a dot can be recorded |
| `ArtifactPaths.StagingNamesAreExact` | src/pipeline/artifact.rs:1511-1516 | staging names and report ids determine each other, and no staging name is a report name, so reports never share a file |
| `ArtifactTransaction.TransactionCore.BeginOperation` | src/pipeline/artifact.rs:842-854 | an operation is admitted exactly while the transaction is open and idle, and no other is admitted until it ends |
| `ArtifactTransaction.TransactionCore.BeginCommit` | src/pipeline/artifact.rs:856-870 | a commit is admitted exactly while open and idle, hands out the registry and destination it seals, and nothing is admitted after it |
| `ArtifactTransaction.TransactionCore.RegisterFile` | src/pipeline/artifact.rs:585-616 | a registration is applied whole or refused whole, leaving the transaction idle |
| `ArtifactTransaction.TransactionCore.UnregisterFile` | src/pipeline/artifact.rs:623-628 | likewise for removal from the registry |
| `ArtifactTransaction.TransactionCore.SetDestinationRoot` | src/pipeline/artifact.rs:476-481 | a destination is accepted exactly when it can be recorded, so the one kept always resolves back to itself |
| `ArtifactStartup.OutputRoot.RecoverEntry` | src/pipeline/artifact.rs:1073-1172 | one candidate is published, complete, exactly when it passes every test, and is left alone otherwise |
| `ArtifactStartup.OutputRoot.RecoverReports` | src/pipeline/artifact.rs:1013-1062 | the pass publishes exactly the candidates inspected within its limits that pass, each whole, complete and under its own name, moves nothing else and counts them; an entry it cannot read or rename counts as none |
| `ArtifactStartup.OutputRoot.ScavengePending` | src/pipeline/artifact.rs:927-992 | the pass removes exactly the old directories nobody holds up to where a limit or a failure stops it, whatever they contain; it never gets past one with more than 10,001 entries; a removal that fails has taken files only from the old, unheld directory it had reached; the closing sync may fail after a full scan |
| `ArtifactStartup.OutputRoot.RecoverStartup` | src/pipeline/mod.rs:403-416 | wherever either pass stops, and however locks and ages change in between, a report is lost if and only if the first pass did not publish it and the second reached it old and unheld, or failed while removing it; if the first pass cannot read the root nothing happens; a report with more than 10,001 entries always stays whole |
| `ArtifactStartup.StartupLosesExactly` | src/pipeline/mod.rs:395-416 | the same for any disk: holding a manifest makes no difference, and what recovery published stays published |
| `ArtifactStartup.CrowdedReportsStay` | src/pipeline/artifact.rs:965-981 | neither pass touches a report with more than 10,001 entries: recovery refuses it and the scavenger stops at it |
| `ArtifactStartup.PreparedReportsAreScavenged` | src/pipeline/artifact.rs:940-989 | a prepared report with its destination taken, which startup deletes |
| `ArtifactStartup.UnreachedReportsAreScavenged` | src/pipeline/artifact.rs:1031-1044 | an old report recovery would accept is deleted all the same when the recovery deadline or limit comes first |
| `ArtifactStartup.RecoverableExactly` | src/pipeline/artifact.rs:1073-1150 | recovery accepts exactly the unheld, complete reports of at most 10,000 properly named artifacts whose recorded destination resolves and is free |
| `ArtifactStartup.StartupRunsThePass` | src/pipeline/artifact.rs:1073-1172 | a candidate is accepted if and only if the step-by-step pass of the report model goes through, with the same result |
| `ArtifactStartup.InterruptedCommitsAreRecoverable` | src/pipeline/artifact.rs:713-782 | after any run of the protocol, a report that reached its manifest and lost its owner is accepted by recovery, with the destination its commit had chosen |
| `ArtifactStartup.StartupFinishesCommits` | src/pipeline/mod.rs:395-416 | the promise that does hold: a startup pass that reaches such a report publishes it whole, so scavenging finds nothing to take |
| `ProducerSafety.ReachableInv` | producer/crash_monitor_producer.h:43-159 | the producer's invariant holds after every schedule of any number of threads |
| `ProducerSafety.SnapshotIsUntorn` | schema/crash_shm_atomic.h:109-125 | at every point where the target could be suspended, a unit with an even generation shows exactly its completed publications, and an odd generation has exactly one holder whose token equals it, across 32-bit wrap and stale observations |
| `ProducerSafety.EvenRegistryIsConsistent` | producer/crash_monitor_producer.h:50-95 | the ring count never exceeds 8; with an even registry generation every ring with a completed crumb is below the count and the last counted ring has one |
| `ProducerSafety.RunOnlyGrows` | producer/crash_monitor_producer.h:86-95 | under every continuation of every schedule the ring count never decreases and histories only grow |
| `ProducerSafety.ReturnedCallsOwnNothing` | producer/crash_monitor_producer.h:66-71 | when calls have returned, including those whose ring claim failed while the registry was held, no generation is left odd |
| `ProducerSafety.ScreenshotReadsUnpublished` | producer/crash_monitor_producer.h:147-159 | a quiet screenshot slot reads as unpublished exactly when its number of publications is a multiple of 2^31 |
| `ProducerSafety.OwnAccessShortens` | producer/crash_monitor_producer.h:43-95 | every call is wait-free: each access of a thread brings its own return nearer, whatever the others do |
| `ProducerProgress.SoloCallPublishes` | producer/crash_monitor_producer.h:98-159 | on a quiet unit with room an undisturbed call returns success with exactly its payload published, its generation even again and every other unit untouched |
| `ProducerProgress.SoloCallRefused` | producer/crash_monitor_producer.h:98-145 | on a full section it returns an error and releases the unit with contents and history unchanged |
| `ProducerProgress.BusyCallGivesUp` | schema/crash_shm_atomic.h:109-121 | on a held unit it returns at once and changes nothing |
| `ProducerProgress.PlayIsASchedule` | producer/crash_monitor_producer.h:43-159 | such an undisturbed call is one of the schedules the safety results cover |
| `CrumbProgress.RegisteredCrumbPublishes` | producer/crash_monitor_producer.h:43-95 | with its slot registered and its ring quiet an undisturbed breadcrumb call returns success with exactly the crumb added, and touches nothing else |
| `CrumbProgress.UnregisteredCrumbPublishes` | producer/crash_monitor_producer.h:50-95 | with registry and ring quiet it also counts its slot, leaves both generations even, and touches nothing else |
| `SharedRegion.StoresExtendHistory` | producer/crash_monitor_producer.h:73-159 | applying a call's stores to a unit that shows a history makes it show the history with the call added |
| `SharedRegion.FullExactlyAtCapacity` | producer/crash_monitor_producer.h:98-145 | a bounded section refuses a call exactly when it holds its capacity |
| `SharedRegion.WriteIndexFindsOldest` | producer/crash_monitor_producer.h:73-86 | the unreduced write index locates the oldest crumb held, and the count is exact exactly below 2^32 adds |
| `CrumbRing.Ring.Add` | producer/crash_monitor_producer.h:73-86 | in-place addition keeps the last 512 crumbs at their ordinal modulo 512 with the counters of the whole history |
| `CrumbRing.Ring.ReadNewestFirst` | src/shm/reader.rs:472-503 | the reader's backward scan returns exactly the newest crumbs the producer added, newest first, without those never stamped |
| `CrumbRing.BackwardSlot` | src/shm/reader.rs:482-487 | counting back from the unreduced write index meets each crumb's own slot |
| `PluginGraph.FindDependencyCycle` | src/config.rs:1256-1311 | a cycle is returned if and only if the dependencies among known plugins have one, and it is a closed walk of dependency edges |
| `PluginGraph.Visit` | src/config.rs:1260-1299 | the depth-first search settles a node or returns a genuine cycle, and ends because unvisited nodes strictly decrease |
| `PluginOrder.StablePluginOrder` | src/pipeline/mod.rs:1495-1529 | the result is a permutation in which each plugin moved was ready and least in (phase, priority, insertion) among the ready |
| `PluginOrder.AcyclicIsNeverStuck` | src/pipeline/mod.rs:1501-1526 | among acyclic plugins something is always ready, so nothing is appended unsorted |
| `PluginOrder.ScheduleIsTopological` | src/pipeline/mod.rs:1493-1529 | an acyclic schedule puts every dependency before its dependents |
| `PluginOrder.ScheduleAscends` | src/pipeline/mod.rs:1484-1529 | when no plugin depends on a later phase, phase ranks never decrease |
| `PluginOrder.ScheduleIsUnique` | src/pipeline/mod.rs:1495-1529 | the greedy rule determines the schedule |
| `PluginOrder.EqualKeysKeepInsertionOrder` | src/pipeline/mod.rs:1513-1519 | independent plugins of equal rank keep their insertion order |
| `PluginRegistry.ValidatePluginGraph` | src/config.rs:1113-1185 | one category validates if and only if ids are unique, required dependencies exist and the order has no cycle; each error names a real fault |
| `PluginRegistry.ValidatePluginRegistry` | src/config.rs:1204-1254 | the registry validates if and only if ids are globally unique, no dependency names another category and each category validates |
| `PluginRegistry.ValidateDependencies` | src/pipeline/mod.rs:1391-1439 | validation adds exactly that no post-processor depends on a later phase |
| `PluginRegistry.FinishRegistration` | src/pipeline/mod.rs:361-371 | registration succeeds if and only if the pipeline is registrable, whatever the insertion order; each list is then a permutation with dependencies first and post-processor phases ascending |
| `PluginRegistry.RegistrableUnderPermutation` | src/pipeline/mod.rs:361-371 | being registrable does not depend on insertion order |
| `PluginEnablement.ClosePluginEnablement` | src/config.rs:1479-1521 | the closure ends with the greatest subset of the requested plugins closed under hard dependencies, with one diagnostic per removed plugin naming a dependency absent from the final set |
| `PluginEnablement.SpecOrderIsIrrelevant` | src/config.rs:1479-1521 | the result does not depend on the order of the specifications |
| `PluginEnablement.EnabledSubsetRegisters` | src/config.rs:1479-1521 | restricting a registrable pipeline to an enabled set leaves it registrable |
| `PhaseLoops.RunPostProcessors` | src/pipeline/mod.rs:896-1068 | the phase loops visit each plugin once in list order, stop after the first phase when the commit fails, decide every dependency before its dependents and skip only for one that did not complete |
| `PhaseLoops.RegisterAndRun` | src/pipeline/mod.rs:361-371 | registration and the loops together run soundly for every registrable pipeline, and only for those |
| `TaskControl.TrackedTracesBalance` | src/platform/task_control.rs:166-301 | at every wait successful suspends equal successful resumes; a resume is attempted only while exactly one suspension is owned and every helper is reaped; after a termination, successful or not, nothing waits, captures, suspends or resumes |
| `TaskControl.TaskSuspendGuard.Release` | src/platform/task_control.rs:232-275 | at most three resumes, then termination; an inactive guard does nothing; each failure is recorded alike in the sink and in the supervisor's health |
| `TaskControl.TaskSuspendGuard.Finish` | src/platform/task_control.rs:220-222 | consuming the guard releases once, the drop that follows does nothing |
| `TaskControl.TaskSuspendGuard.ContainWithoutResume` | src/platform/task_control.rs:227-230 | the target is terminated without any resume attempt |
| `TaskControl.ContainTaskWithoutResume` | src/platform/task_control.rs:166-187 | the same where no suspension is owned |
| `TaskControl.Acquire` | src/platform/task_control.rs:204-216 | a guard exists exactly after a successful suspend |
| `CaptureLoop.RunIsolatedCapture` | src/pipeline/capture_isolation.rs:313-392 | any outcome but an unproven cleanup leaves no helper that may still run, and the polling ends |
| `CaptureLoop.KillAndReapTimedOutHelper` | src/pipeline/capture_isolation.rs:456-493 | a timeout is reported only for a helper that was reaped |
| `CaptureLoop.CaptureWorker.CaptureIsolated` | src/pipeline/worker.rs:313-407 | the helper is reaped before the resume, or the target is terminated instead |
| `CaptureLoop.CaptureWorker.CaptureInProcess` | src/pipeline/worker.rs:409-505 | every exit releases the suspension, and a worker that did not answer cannot be used again |
| `CaptureLoop.CaptureWorker.Capture` | src/pipeline/worker.rs:152-500 | a suspension is attempted exactly when the report type is enabled, the context and any helper request could be made, the deadline has not passed and the worker is available; from a free target every path ends with it free, or terminated with the health record saying so; every task-control failure reaches the diagnostics; a capture is skipped exactly when disabled, without a context, or on a failed suspension it must not survive, and a complete one was preceded by a suspension attempt, a successful one unless best effort is allowed |
| `CaptureLoop.HandleEvent` | src/event_loop.rs:519-766 | one event runs the capture worker and is answered at most once, exactly when its kind asks for it, and ends the loop only as its kind and the outcome justify |
| `CaptureLoop.EventLoop` | src/event_loop.rs:512-770 | over every event sequence and every pattern of failures the loop waits once per event and only with a free target, captures and replies exactly as often as the events handled call for, goes on past every event that does not end it, and stops only for a reason the last event gives; a terminated target ends it with a failure |
| `Watchdog.WatchdogState.Update` | src/watchdog.rs:130-186 | one tick does what the transition function says and fires exactly in its firing case |
| `Watchdog.WatchdogState.RebaseAfterMonitorWork` | src/watchdog.rs:82-105 | elapsed time is kept exactly when the heartbeat is ready and unchanged |
| `Watchdog.FiringNamesAHang` | src/watchdog.rs:130-186 | in every run a firing of duration d has an earlier sample since which every observation read the same ready heartbeat, d is the saturating sum of the ticks since, at least the threshold, and none was in warmup or cooldown |
| `Watchdog.FiringsAreApart` | src/watchdog.rs:82-186 | any two firings are at least threshold + min(warmup, cooldown) application milliseconds apart, across disarms and rebases |
| `Watchdog.SilenceFires` | src/watchdog.rs:130-186 | from any armed state, with a constant ready heartbeat, the watchdog fires no later than the tick at which ticked time reaches the warmup and cooldown left, the threshold, and one longest tick per grace left |
| `AnrClock.ExclusionIsExact` | src/watchdog.rs:34-48 | on ordered instants the time measured later is the application's before and after the monitor's work |
| `AnrClock.ExclusionNeverOvershoots` | src/watchdog.rs:27-48 | on any instants the baseline never passes the end of the work, and is exact if and only if it can be |
| `AnrClock.AnrLoop.FinishMonitorWork` | src/event_loop.rs:438-467 | the work is recorded with its own instants; an unchanged heartbeat keeps the application time due, any other settles it |
| `AnrClock.AnrLoop.Check` | src/event_loop.rs:702-722 | a check runs exactly when the application time due reaches the interval; it tells the watchdog exactly that time, once, and its sampling is recorded as the monitor's |
| `AnrClock.AnrLoop.Turns` | src/event_loop.rs:610-766 | through any sequence of checks, snapshots and ANR captures the recorded monitor work is exactly the turns' own, each spell tells the watchdog exactly what was due, and the baseline leaves exactly the application time not yet told |
| `AnrClock.TurnsChargeTheirWork` | src/event_loop.rs:610-766 | the monitor is charged for each snapshot, each due check's sampling and each capture of a detected hang, and for nothing else |
| `AnrClock.ToldIsRunningTime` | src/watchdog.rs:27-48 | from any settled spell on, what the watchdog is told plus what is still due never exceeds the wall-clock time outside all monitor work |
| `AnrClock.TimeIsConserved` | src/event_loop.rs:438-467 | all time is settled, due or the monitor's, and none of it twice |
| `AnrClock.DetectionNamesARunningHang` | src/event_loop.rs:702-722 | a detected hang of d milliseconds has an earlier spell since which every observation read the same ready heartbeat while the application ran, outside all monitor work, for at least d |
| `AnrClock.DetectionsAreApart` | src/event_loop.rs:702-766 | between two detections the application ran, outside all monitor work, for at least threshold + min(warmup, cooldown) |
| `AnrClock.SilenceIsDetected` | src/event_loop.rs:702-766 | whenever every observation since some spell read the same ready heartbeat and the application has run since, outside all monitor work, for that long and a millisecond per check, a check has detected it |
| `Wakeup.NoLostWakeup` | src/event_source.rs:373-498 | in every interleaving, when the consumer blocks, a pending signal or queued listener event has a reported wake byte or a producer still to write it, and a vanished listener is reported or about to be |
| `Wakeup.SettledWorkWakes` | src/event_source.rs:271-291 | once producers have finished, a consumer with anything to hear is woken and cannot time out |
| `Wakeup.RaisedSignalsAreHeard` | src/event_source.rs:43-139 | a signal raised at any point of any run is delivered later in it or still owed at its end, and then a blocked consumer is woken as soon as the handlers have written |
| `Wakeup.ListenerEventsAreKept` | src/event_source.rs:343-348 | listener events are delivered in order; at most one is ever dropped, in the poll whose child event ends the loop |
| `Wakeup.SignalsStayOwed` | src/event_source.rs:118-139 | a raised signal stays owed through every step until the one that delivers it |
| `Wakeup.InOrderIsExact` | src/event_source.rs:128-137 | the drained queue holds exactly the pending signals, termination first and snapshots last |
| `Wakeup.BlocksOnlyAfterPolling` | src/event_source.rs:459-498 | the consumer blocks only straight after the first poll of a call heard nothing, and not again in the same call after a wait |
| `RateLimiter.Limiter.CheckAndRecord` | src/filters/rate_limiter.rs:103-142 | a check without an error accepts if and only if fewer than the maximum survive the window, and what it accepts is recorded; while the state file is the limiter's own and the clock does not go back, every window stays within the limit and a refusal means it is full; a check that meets an unusable file renames it away and never accepts, after which the file is the bad one, gone, or a new history; in every state in between the file is the old one, the new one or, if it was unusable, gone, and a process restarted from any of them keeps within the limit |
| `RateLimiter.Limiter.CheckAll` | src/filters/rate_limiter.rs:103-142 | over any sequence of checks by a clock that does not go back, no window of the configured length holds more than the maximum of accepted events of a type |
| `RateLimiter.WindowsHoldAtMost` | src/filters/rate_limiter.rs:103-142 | any window of the configured length holds at most the maximum of recorded events |
| `RateLimiter.PersistedStatesReload` | src/filters/rate_limiter.rs:273-377 | every state within 1024 events per type fits in 128 KiB as written, and reloads unchanged |
| `RateLimiter.Limiter.LoadState` | src/filters/rate_limiter.rs:273-319 | loading yields the latest 1024 events per type, or rejects an oversized, malformed or foreign-version file |
| `RateLimiter.Limiter.Quarantine` | src/filters/rate_limiter.rs:321-334 | an unusable file is renamed away, which starts a new history, or left |
| `RateLimiter.Limiter.PersistState` | src/filters/rate_limiter.rs:336-377 | written in pieces beside the state file and renamed over it: in every state the file is the old or the new one, whole, and every other file is kept |
| `RateLimiter.Expire` | src/filters/rate_limiter.rs:126-129 | exactly the leading events up to the cutoff are dropped |
| `LogRotator.ReadBoundedLine` | src/postprocessors/log_rotator.rs:164-210 | for every chunking one line is read, and it is corrupt if and only if it is longer than 64 KiB |
| `LogRotator.ScanValidLines` | src/postprocessors/log_rotator.rs:141-162 | the count is the number of valid lines, and more than 100,000 lines are refused |
| `LogRotator.WriteKept` | src/postprocessors/log_rotator.rs:229-249 | the temporary file, written in any pieces, becomes the byte-exact concatenation of the valid lines from the given index on, and nothing else changes |
| `LogRotator.SessionLog.Process` | src/postprocessors/log_rotator.rs:85-133 | in every state the log is the old one or the newer half of its valid lines, whole, and every other file is kept; it is replaced only when it is over its limit, and each refusal names its true cause |
| `LogRotator.RotatedReadsBack` | src/postprocessors/log_rotator.rs:124-132 | reading a rotated log gives exactly those lines back, with nothing corrupt |
| `LogRotator.LinesArePartition` | src/postprocessors/log_rotator.rs:141-210 | a file is its lines put together |
| `MoveToSent.MoveFile` | src/postprocessors/move_to_sent.rs:184-295 | in every state of a move the bytes are whole at source or destination, and a destination is never partial or replaced; a refusal has one of three causes, and a clean move changes nothing but the two names |
| `MoveToSent.CopyAcrossFilesystems` | src/postprocessors/move_to_sent.rs:297-403 | the same for a copy across file systems, in any chunks and with any interruption; only an existing destination is refused |
| `MoveToSent.MoveOne` | src/postprocessors/move_to_sent.rs:105-140 | the report follows a file exactly when it moved |
| `MoveToSent.Process` | src/postprocessors/move_to_sent.rs:75-143 | inside a transaction nothing moves and its destination becomes the sent directory exactly if it is open, idle and accepts it; otherwise over the whole report no state loses a file, and on return each path of the report names a whole file if none is listed twice; after a completed run whose files could all be moved, every file is delivered, and an entry names its file if and only if it repeats no earlier one, so all do if and only if none is listed twice |
| `MoveToSent.MoveAll` | src/postprocessors/move_to_sent.rs:89-143 | the same for the files themselves, interrupted at any point or not |
| `MoveToSent.DuplicateGoesStale` | src/postprocessors/move_to_sent.rs:133-139 | an artifact listed twice: the second entry is left naming a path that is gone |
| `PngConverter.Process` | src/postprocessors/png_converter.rs:65-140 | in every state each file that was not there before is temporary or a whole PNG; unless a raw file that could be converted is listed twice, in every state the report is wholly old or wholly new and each entry names the file it named or its complete PNG; after a complete run of any report exactly the first convertible entry of each raw file is converted and its raw file gone, every entry names a file if and only if no such raw file was listed twice, and the paths handed on and the transaction's registry have gained the PNGs and lost the raw files; the paths never name a missing file but one the transaction would not drop |
| `PngConverter.PublishPng` | src/postprocessors/png_converter.rs:392-452 | in every state a PNG's name is as before, absent or whole, it never replaces a file, and only an existing file refuses it |
| `PngConverter.ConvertAll` | src/postprocessors/png_converter.rs:86-112 | each converted entry is backed by its published PNG, whose path is handed on and registered; an uninterrupted pass converts exactly the first convertible entry of each raw file; a PNG that cannot be registered ends the pass with the report untouched |
| `PngConverter.ConvertOne` | src/postprocessors/png_converter.rs:187-270 | an entry changes only when the complete PNG of its exact pixels has been published under a name that was free and never partial, and stays only when it was not ready to convert |
| `PngConverter.RemoveRaw` | src/postprocessors/png_converter.rs:123-137 | exactly raw files of converted entries are removed and dropped from the registry and the paths handed on, all of them in an uninterrupted pass; unless a convertible raw file is shared every entry of the new report stays backed in every state |
| `PngConverter.RemovalIsSafeExactly` | src/postprocessors/png_converter.rs:119-137 | after removal every entry names a file if and only if, in the report as it was, no raw file that could be converted is listed twice |
| `PngConverter.ListedTwiceIsDeleted` | src/postprocessors/png_converter.rs:119-137 | a raw file listed twice: the second entry of the new report names the deleted file |

## Left out

- Permission, symlink and ownership checks, directory syncs and quarantine after a rename: they decide errors, not contents.
- Retention, ZIP archiving, session recording, sanitizing, fingerprints and duplicate detection: no harder claims than those made here.
- JSON, MessagePack and PNG encoding: a parsed file carries its value, the rate-limit state its exact written length, and `PngConverter.EncodePng` stands for the encoder.
- Collectors, notifiers, command line and configuration parsing beyond the plugin graph: short case tables.
- Weak memory, thread creation failures and wall-clock time.
- The in-memory variant of the rate limiter: the same window without the file, and it accepts without recording under contention.
- The child process filter of the kernel queue: a child event may arrive at any poll and any wait.
- ArtifactSafety.NextKeepsInv: revalidation of a directory is one atomic read, and an outside writer may change a staging directory but not recreate a removed one.
- CaptureLoop.EventLoop: covers finite event sequences; finalization after a capture is not modelled.
- CaptureLoop.CaptureWorker.CaptureInProcess: the in-process collector thread, used only without helper support, is not tracked after it misses its deadline.
- RateLimiter.Limiter.CheckAndRecord: the window bound assumes positive timestamps and a clock that does not go back, as the saturating cutoff at zero requires.
- AnrClock.AnrLoop.Turns: clock readings never decrease, as for a monotonic clock.
- ArtifactRecovery.ScavengingTakesAnything: a pass over one directory once it holds the lock; the age and failing removals are in `ArtifactStartup.OutputRoot.ScavengePending`.
- ArtifactStartup.OutputRoot.RecoverStartup: locks and ages are fixed during a pass and free to change between the two.
- PngConverter.Process: other threads do not use the transaction meanwhile.
- AnrClock.SilenceIsDetected: no time due reaches 2^64 milliseconds, where a tick keeps only the low bits.

# GPUd in Dafny

GPUd watches GPU machines: it keeps a session to a control plane, installs packages, watches processes and turns
kernel log lines and host facts into events. This project models the parts of it that carry state, concurrency or
structure, and proves what holds of them for every input, every run or every interleaving. `dafny verify dfyconfig.toml`
checks all of it.

- Session.dfy, `PackageController.dfy`, `ProcessWatcher.dfy` and `FanIn.dfy` are step machines: a state, the enabled
  steps of every goroutine with its program counter, and runs as arbitrary sequences of enabled steps. Everything the
  code does not decide (HTTP, scripts, clocks, goroutine order) is an arbitrary choice of the step.
- `SessionTrace.dfy`, `PackageTrace.dfy` and `ProcessTrace.dfy` tie those machines to the schedule alone: what was
  decoded, announced, reported or how a run ended, against what the state shows of it.
- EventStore.dfy, `RebootEvents.dfy`, `Kmsg.dfy`, `Syncer.dfy`: the event table as a class over rows, and the
  kernel-log pipeline that parses, deduplicates, matches and stores.
- DiskHierarchy.dfy, `DiskFlatten.dfy`: the block-device forest and its flattening.
- KmsgWriter.dfy, `Lspci.dfy`, `ComponentList.dfy`, `StatusProgress.dfy`: an encoder, two parsers and a summary.
- Text.dfy: Go strings and 64-bit integers.

Loops of the source are methods with loops, each proved equal to a function or to a stated property; the lemmas are
about those functions.

Some promises hold only under a condition. Each of those has an exact condition (if and only if) and a lemma at an
input that breaks it:

- an event with an empty message is lost behind another event of its second and name (`Syncer.OneRowPerEvent`,
  `Syncer.EmptyMessageIsLost`);
- reboots can be recorded less than a minute apart when another event carries the second of the new boot
  (`RebootEvents.MinuteBrokenExactly`, `RebootEvents.OtherEventsBreakTheMinute`);
- a package whose dependency list changes can break closure of the installed set, by the announcement itself or by a
  change between gate and mark (`PackageController.ClosureStepByStep`, `PackageController.ChangedListBreaksClosure`,
  `PackageController.RaceBreaksClosure`);
- the last lspci block is dropped when it repeats an ID (`Lspci.OneDevicePerHeader`, `Lspci.RepeatedLastIsDropped`);
- a list entry panics when its run-mode part holds a `]` and its first `[` is its last character
  (`ComponentList.EntryFailsExactly`, `ComponentList.BackwardBracketsPanic`);
- a fan-in over no component never returns (`FanIn.ReturnsIffNonEmpty`, `FanIn.EmptyListWaitsForever`);
- a top-level device that declares a parent makes parents and children disagree
  (`DiskFlatten.SymmetricIffNoDeclaredParents`, `DiskFlatten.DeclaredParentIsOneSided`). The JSON parser of lsblk output
  fills the parent name only on children (pkg/disk/lsblk.go:225), so that output does not lead to this input.

Where comments and code of the repository disagree the model follows the code: the kmsg writer's comment names the
user facility, its code uses the syslog facility (priorities 40 to 47).

## Model

| member | source | states |
|---|---|---|
| Session.GenerationsNeverOverlap | pkg/session/session.go:232-266 | in every reachable state, when the reconnect loop installs a closer no goroutine of an earlier generation is alive, and at most one generation is alive at all |
| Session.CloseHitsOwnGeneration | pkg/session/session.go:298-392 | whoever calls `s.closer.Close()` holds the closer of its own, current generation, though the field is read from shared state |
| Session.EveryChannelClosedExactlyOnce | pkg/session/session.go:298-392 | none of the six channels of a generation is closed twice, and a generation that is gone closed each once |
| Session.SupersededGenerationIsFrozen | pkg/session/session.go:232-266 | no step of any goroutine changes a superseded generation or its closer |
| Session.ResponsesMatchRequestsInOrder | pkg/session/serve.go:103-422 | answered, in-flight and queued ReqIDs together are the accepted decodable ones, in acceptance order, one each; both queues stay within 20 |
| Session.SendingOrderSurvivesReconnects | pkg/session/session.go:325-345 | across all reconnects the bodies taken for sending are a prefix of the answers, in order and without repeats |
| Session.DropOnlyWhenFull | pkg/session/session.go:443-456 | in every reachable state, every request dropped so far was dropped while the queue was full |
| Session.OfferIsDecided | pkg/session/session.go:443-456 | an offer is refused exactly if the reader's own, current generation is closed, dropped exactly if it is open and the queue full, and some outcome is always possible |
| Session.NeverDeadlocks | pkg/session/session.go:232-482 | until the context is done a step outside the serve loop is always possible, given that HTTP requests return and that a pipe write fails once its request is over |
| Session.EveryRunIsSound | pkg/session/session.go:232-482 | the discipline of generations and the ledger of messages hold after every run |
| SessionTrace.AcceptedIsDecoded | pkg/session/session.go:425-456 | in every run the accepted messages are the decoded ones of the schedule less the dropped and the refused, in order, the dropped ones are recorded as decoded, and a message without a fate is in the current reader's hand |
| SessionTrace.AnswersFollowDecoding | pkg/session/serve.go:103-422 | answered, in-flight and queued ReqIDs are those of the decodable accepted messages in the order of decoding |
| SessionTrace.AnswersAreHandled | pkg/session/serve.go:103-422 | the request being handled is the one received last, and the answers carry what the handling gave, in order |
| SessionTrace.WrittenIsTaken | pkg/session/session.go:325-360 | the body a handler writes to the pipe is the one it took from the queue |
| SessionTrace.EndsHaveCauses | pkg/session/session.go:232-482 | no goroutine ends without a reason in the schedule; the reconnect loop stops exactly when its context was done |
| SessionTrace.ClosersHaveCauses | pkg/session/session.go:298-392 | a generation's closer is closed only by the Close of its own reader or writer |
| SessionTrace.ServeCanStep | pkg/session/serve.go:103-422 | the serve loop can always go on with what it has, and answers exactly while the writer queue has room |
| SessionTrace.MessagesCanMove | pkg/session/session.go:325-482 | readers and handlers can take every message that is there for them |
| SessionTrace.ReaderGoesOn | pkg/session/session.go:431-456 | after an accepted or dropped message a reader reads the next |
| SessionTrace.LoopGoesRound | pkg/session/session.go:232-266 | a failed probe or a finished generation leads back to the tick, only a passed probe starts a generation |
| PackageController.InstalledInTopologicalOrder | pkg/gpud-manager/controllers/package_controller.go:163-200 | in every run packages are marked after everything their gate read, and the installed set is exactly the marked one |
| PackageController.InstalledInGraphOrder | pkg/gpud-manager/controllers/package_controller.go:163-200 | with unchanging announcements the marking order is a topological order of the announced graph: whatever a package depends on was marked before it |
| PackageController.MarkedPackagesStayGated | pkg/gpud-manager/controllers/package_controller.go:163-200 | what a marked package was gated on stays installed, with a known version where one was demanded |
| PackageController.InstalledNeverShrinks | pkg/gpud-manager/controllers/package_controller.go:54-200 | along every run the installed set only grows |
| PackageController.ScriptsOnlyOnInstalled | pkg/gpud-manager/controllers/package_controller.go:95-292 | version, upgrade, status and stop scripts ran only on packages that were marked by then |
| PackageController.InstalledSetIsClosed | pkg/gpud-manager/controllers/package_controller.go:163-200 | with unchanging announcements the installed set is dependency-closed in every run |
| PackageController.CycleNeverInstalled | pkg/gpud-manager/controllers/package_controller.go:163-200 | no package on a dependency cycle is ever marked installed |
| PackageController.CycleNeverLaunched | pkg/gpud-manager/controllers/package_controller.go:163-229 | nor is its install script ever launched |
| PackageController.ClosureStepByStep | pkg/gpud-manager/controllers/package_controller.go:54-200 | with changing announcements a step keeps closure exactly when its guard holds; only announcing and marking have one |
| PackageController.ChangedListBreaksClosure | pkg/gpud-manager/controllers/package_controller.go:54-83 | a run in which a changed announcement leaves an installed package with a missing dependency |
| PackageController.RaceBreaksClosure | pkg/gpud-manager/controllers/package_controller.go:163-200 | a run in which the list changes between gate and mark, and a package is marked with a missing dependency |
| PackageController.TickerProgressRange | pkg/gpud-manager/controllers/package_controller.go:127-137 | the ticker's value is a percentage on every platform exactly when there is an expected time and the computed float is above -1 and below 2^63 |
| PackageController.TickerShows | pkg/gpud-manager/controllers/package_controller.go:127-137 | below a hundred percent the whole percents are stored, from there on 98 |
| PackageController.PositiveTimeRatio | pkg/gpud-manager/controllers/package_controller.go:127-137 | with a positive expected time and any float rounding the computed value is not negative, and below 2^63 for the first year and a half |
| PackageController.ProgressIsPercentage | pkg/gpud-manager/controllers/package_controller.go:114-241 | in every run with positive install times, none of them ticking for more than a year and a half, every stored progress is in 0..100, whatever float rounding does |
| PackageController.EveryRunIsSound | pkg/gpud-manager/controllers/package_controller.go:54-300 | the invariant of gates, marks and launches holds after every run |
| PackageTrace.GateIsExact | pkg/gpud-manager/controllers/package_controller.go:165-183 | the gate goes past a dependency exactly if it is installed and, where a version is demanded, its version is known and equal or later; otherwise it skips the package |
| PackageTrace.GatesReadTheirVersions | pkg/gpud-manager/controllers/package_controller.go:163-229 | in every run whatever is marked or launched passed a gate that read every dependency of its list at the demanded version or a later one |
| PackageTrace.EqualVersionPasses | pkg/gpud-manager/controllers/package_controller.go:165-183 | a run in which a dependency at exactly the demanded version passes |
| PackageTrace.ScriptsRunWhenDue | pkg/gpud-manager/controllers/package_controller.go:85-300 | which script a step runs, as a table over the goroutines' places and the outcomes of earlier scripts; no other is run |
| PackageTrace.StepWrites | pkg/gpud-manager/controllers/package_controller.go:54-300 | which fields of which package a step sets, as a table |
| PackageTrace.AnnouncementsHold | pkg/gpud-manager/controllers/package_controller.go:54-83 | in every run exactly the announced packages are known, each with the dependencies, time, target and script announced last |
| PackageTrace.TickersUseAnnouncedTimes | pkg/gpud-manager/controllers/package_controller.go:114-241 | each ticker measures against a time that was announced for its package |
| PackageTrace.TickersRunUntilStopped | pkg/gpud-manager/controllers/package_controller.go:114-241 | a ticker ends by being stopped and by nothing else |
| PackageTrace.FieldsAreReported | pkg/gpud-manager/controllers/package_controller.go:85-300 | a known version was reported, health follows a successful status script, a mark a successful isInstalled script, an installation a failed one, a stop a failed status script |
| PackageTrace.InstallingMeansUnderway | pkg/gpud-manager/controllers/package_controller.go:114-241 | a package is shown as installing only while an installation or upgrade of it is underway |
| PackageTrace.ProgressMeansDone | pkg/gpud-manager/controllers/package_controller.go:114-241 | without ticker writes progress is 0 or 100, and 0 only while installing or when nothing was done yet |
| PackageTrace.InstallerCanStep | pkg/gpud-manager/controllers/package_controller.go:163-200 | the installer can always go on |
| PackageTrace.TasksCanStep | pkg/gpud-manager/controllers/package_controller.go:203-243 | so can every installation task |
| PackageTrace.LoopsCanStep | pkg/gpud-manager/controllers/package_controller.go:85-300 | and the updater and the status checker |
| PackageTrace.UpgradesFollowVersions | pkg/gpud-manager/controllers/package_controller.go:95-148 | an upgrade follows exactly a reported version that is not the target |
| PackageTrace.TasksFollowResults | pkg/gpud-manager/controllers/package_controller.go:203-243 | a start follows only a successful installation, and every task comes to its end |
| PackageTrace.RestartsFollowStatus | pkg/gpud-manager/controllers/package_controller.go:279-300 | a failed status check leads to a stop, a successful stop to a start |
| PackageTrace.DeletesFollowNeed | pkg/gpud-manager/controllers/package_controller.go:257-266 | a delete follows only a successful needDelete |
| ProcessWatcher.AtMostOneWatcher | pkg/process/process.go:179-214 | however Start calls interleave at most one watcher is spawned, none when the first launch failed |
| ProcessWatcher.RestartsAreBounded | pkg/process/process.go:310-391 | with restart on error and limit L > 0 the command is launched at most L + 1 times, without restart at most once |
| ProcessWatcher.OneResultPerRun | pkg/process/process.go:310-391 | one result is sent per finished run, all but the last are errors, and the reader gets them in order |
| ProcessWatcher.ClosedOnceAtTheEnd | pkg/process/process.go:310-391 | the result channel is closed at most once, after every started run reported, and the watcher does nothing afterwards |
| ProcessWatcher.FirstSendsNeverBlock | pkg/process/process.go:158-168 | as many sends as the channel holds never block without a reader, and without one the next send does |
| ProcessWatcher.WatchedCommandHasProcess | pkg/process/process.go:319-327 | the branch that waits for a command without process is never taken |
| ProcessWatcher.EveryRunIsSound | pkg/process/process.go:179-391 | the invariant of callers, watcher and channel holds after every run |
| ProcessTrace.SentIsHowRunsEnded | pkg/process/process.go:329-345 | the results sent are those of the runs, as they ended and in order |
| ProcessTrace.NeverGivesUpEarly | pkg/process/process.go:342-386 | a watcher that closed undisturbed saw a success, or has no restart configured, or ran the command limit + 1 times |
| ProcessTrace.NoRestartAfterCancel | pkg/process/process.go:335-381 | once the watcher saw the cancellation it launches nothing more |
| ProcessTrace.LaunchesAreCounted | pkg/process/process.go:179-391 | launches are Start's one and one per restart, and the flags tell what happened |
| ProcessTrace.RoomForTheLimit | pkg/process/process.go:158-161 | with a limit L the first L results are sent without a reader, the next is not |
| ProcessTrace.WatcherCanStep | pkg/process/process.go:310-391 | a watcher that is not done can go on unless its result does not fit |
| ProcessTrace.CancelAndCloseArePossible | pkg/process/process.go:393-472 | when cancelling and closing are possible |
| ProcessTrace.FirstStartRuns | pkg/process/process.go:179-214 | a run in which Start launches the command and its watcher |
| FanIn.OneResultPerEntry | pkg/session/serve.go:482-498 | a call that returns holds exactly one result per requested entry, equal as multisets of names, with what each goroutine answered |
| FanIn.NoSendAfterClose | pkg/session/serve.go:516-532 | when the channel is closed every goroutine has sent |
| FanIn.NoSenderBlocks | pkg/session/serve.go:543-558 | a goroutine with an answer can always send it |
| FanIn.ReturnsIffNonEmpty | pkg/session/serve.go:482-498 | every run has at most 4n + 1 steps, and one that can go no further has returned exactly if there was an entry |
| FanIn.EmptyListWaitsForever | pkg/session/serve.go:482-498 | without entries no step is possible |
| FanIn.RequestIsAnswered | pkg/session/serve.go:470-498 | for the request's own list or the session's components, a run that can go no further has returned one result per entry, unless neither names a component |
| FanIn.ResultsInSendingOrder | pkg/session/serve.go:482-498 | the call collects what the goroutines answered, each under its entry's name, in the order of sending |
| EventStore.FoundAfterInsert | pkg/eventstore/database.go:240-314 | Find succeeds for an event that was inserted, while rows are only added |
| EventStore.CompareEvent | pkg/eventstore/database.go:447-457 | the one-way loop with the size test decides equality of the two maps |
| EventStore.Table.Find | pkg/eventstore/database.go:270-314 | finds a row exactly if one matches second, name, type, non-empty message and extra info |
| EventStore.Table.Get | pkg/eventstore/database.go:317-353 | returns the rows later than `since`, latest first |
| EventStore.Table.Latest | pkg/eventstore/database.go:355-372 | a row of the greatest timestamp, none exactly if the table is empty |
| EventStore.Table.Purge | pkg/eventstore/database.go:430-445 | keeps exactly the rows at or after the bound and returns how many it removed |
| EventStore.GetIsExact | pkg/eventstore/database.go:317-353 | each row later than `since` is returned as often as it is stored, no other is, in descending time |
| EventStore.PurgeKeepsLaterReads | pkg/eventstore/database.go:430-445 | purging before b changes no read since b - 1 or later |
| EventStore.PurgeChangesEarlierReads | pkg/eventstore/database.go:430-445 | an earlier read changes exactly if a row in between was purged |
| EventStore.PurgeIsExact | pkg/eventstore/database.go:430-445 | each row from the bound on is kept as often as it is stored, no other is |
| EventStore.ScanInvertsInsert | pkg/eventstore/database.go:240-268 | reading a stored event back gives the event at its whole second |
| EventStore.FindsExactly | pkg/eventstore/database.go:270-314 | a stored event is found by a lookup exactly if they share second, name, type, extra info and any message asked for |
| RebootEvents.RecordEvent | pkg/host/event.go:42-101 | the rows after a call, with every branch of the recorder; it fails exactly if the boot time is unknown or it gets to a call of the store that fails, and then changes nothing |
| RebootEvents.RecordedExactly | pkg/host/event.go:42-101 | a boot is recorded exactly if it is less than three days old, not recorded yet, and every row is at least a minute older or the latest carries its very second |
| RebootEvents.RecordedRow | pkg/host/event.go:54-59 | what is recorded of a boot |
| RebootEvents.RebootsStrictlyIncrease | pkg/host/event.go:42-101 | over any sequence of recordings, failing ones included, other inserts and purges, reboot rows have strictly increasing timestamps in insertion order |
| RebootEvents.RebootsAreAMinuteApart | pkg/host/event.go:42-101 | if only the recorder writes, any two rows are at least a minute apart |
| RebootEvents.MinuteBrokenExactly | pkg/host/event.go:80-101 | a reboot within a minute of a recorded one is recorded exactly if the latest row carries its very second and it is not itself stored |
| RebootEvents.OtherEventsBreakTheMinute | pkg/host/event.go:80-101 | such a run |
| Kmsg.ParseInvertsPrint | pkg/kmsg/watcher.go:287-327 | a printed record parses back to priority, sequence, message and boot time plus offset, for any message text and extra fields; the offset is exact exactly if its nanoseconds fit 64 bits |
| Kmsg.RejectsMalformed | pkg/kmsg/watcher.go:287-301 | a line is refused for its shape exactly if it has no semicolon, or fewer than two commas before the first |
| Kmsg.CacheKeyInjective | pkg/kmsg/deduper.go:15-17 | cache keys are equal exactly for the same second and text |
| Kmsg.Deduper.AddCache | pkg/kmsg/deduper.go:33-47 | the expiring cache returns the frequency of the call history |
| Kmsg.FrequencyCountsStreak | pkg/kmsg/deduper.go:33-47 | that frequency is one plus the number of earlier lookups of the key since its last quiet gap longer than the expiration |
| Kmsg.PassesAfterQuiet | pkg/kmsg/watcher.go:271-280 | a message passes exactly if its key is new or was left alone for longer than the expiration |
| Kmsg.ReadFollow | pkg/kmsg/watcher.go:239-285 | sends the passing messages up to the first bad read or line |
| Kmsg.ReadAll | pkg/kmsg/watcher.go:116-182 | the same messages, or nothing after a bad read or line |
| Kmsg.PassingIsFirstOccurrences | pkg/kmsg/watcher.go:135-182 | with no quiet gap exactly the first occurrences are returned, in order |
| Kmsg.ReadingInvertsPrinting | pkg/kmsg/watcher.go:239-285 | reading printed records gives their messages at boot time plus offset, in order, whatever reads are interrupted in between |
| Syncer.Sync | pkg/kmsg/syncer.go:49-92 | the rows after handling a message sequence, with any failures of lookups and insertions |
| Syncer.WithoutFaults | pkg/kmsg/syncer.go:49-92 | for a store that does not fail these are the rows the results below are about |
| Syncer.FaultsLoseOnlyInsertions | pkg/kmsg/syncer.go:70-89 | whatever fails, stored rows stay and new ones are rows of matched messages; without failing insertion every matched message is found afterwards |
| Syncer.DroppingRepeatsIsTransparent | pkg/kmsg/syncer.go:59-89 | leaving out repeats in any way leads to the same rows, whatever the bucket held before |
| Syncer.DedupIsTransparent | pkg/kmsg/watcher.go:271-283 | the bucket gets the same rows with the deduper, for any expiration and clock, as without it |
| Syncer.SyncedIsUncovered | pkg/kmsg/syncer.go:59-89 | from an empty bucket an event is stored exactly if no earlier event covers it in a lookup |
| Syncer.OneRowPerEvent | pkg/kmsg/syncer.go:59-89 | one row per distinct second, name and message, in order of first occurrence, if and only if no event with empty message follows another of its second and name; the rows compared with are each matched row once and nothing else |
| Syncer.RowsAreOfMessages | pkg/kmsg/syncer.go:59-89 | every stored row is that of a matching message at the message's own second, and every matching message has a row of its second and name, with its event message unless that is empty |
| Syncer.WantedAreRows | pkg/kmsg/syncer.go:59-68 | the rows wanted are those of the matching messages, one each, in order |
| Syncer.HiddenMessageIsLost | pkg/eventstore/database.go:270-314 | any two messages of one second and name, the second without event message: its row is missing, whatever the deduper does |
| Syncer.EmptyMessageIsLost | pkg/eventstore/database.go:270-314 | a match function and two messages for which that happens |
| DiskHierarchy.RecursiveAdd | pkg/disk/lsblk.go:333-349 | nests as the recursive function says; on tree values the recursion ends structurally, since what it appends is below a level it leaves at once |
| DiskHierarchy.BuildDiskHierarchy | pkg/disk/lsblk.go:328-362 | roots first, then each other device nested in list order |
| DiskHierarchy.AddUnderParent | pkg/disk/lsblk.go:333-349 | an insertion adds one node under its parent and changes nothing else |
| DiskHierarchy.AddWithoutParent | pkg/disk/lsblk.go:333-349 | without the parent the forest is left alone |
| DiskHierarchy.EachPlacedDeviceOnce | pkg/disk/lsblk.go:328-362 | a device is in the forest, once and with exactly the placed devices that name it as children, exactly if its chain of parents was in place |
| DiskHierarchy.ForestIsWellFormed | pkg/disk/lsblk.go:328-362 | no name occurs twice, nothing else is in the forest, every edge is a PKNAME, the roots are the parentless devices in order |
| DiskHierarchy.RootsInListOrder | pkg/disk/lsblk.go:346-351 | the roots are the parentless devices by ascending list index |
| DiskHierarchy.CompleteIffParentsFirst | pkg/disk/lsblk.go:328-362 | every input device appears exactly once if and only if each parent is a root or comes earlier |
| DiskFlatten.Flatten | pkg/disk/lsblk_flatten.go:35-53 | the values of the map in strictly ascending order of name |
| Text.LessIsLexicographic | pkg/disk/lsblk_flatten.go:46-50 | the order of names is decided by the first difference, a proper prefix first |
| DiskFlatten.Flattener.FlattenBlockDevice | pkg/disk/lsblk_flatten.go:55-104 | the recursion extends the shared map by exactly the visits and edges of the device down to depth 2 |
| DiskFlatten.FlattenKeepsFirstOccurrences | pkg/disk/lsblk_flatten.go:55-104 | exactly the names at depth 0 to 2 are kept, each with the columns of its first occurrence in preorder |
| DiskFlatten.ParentsMatchChildren | pkg/disk/lsblk_flatten.go:55-104 | p is a parent of c as often as c is a child of p, plus what top-level devices declare |
| DiskFlatten.SymmetricIffNoDeclaredParents | pkg/disk/lsblk_flatten.go:55-104 | the two agree everywhere exactly when no top-level device declares a parent |
| DiskFlatten.DeclaredParentIsOneSided | pkg/disk/lsblk_flatten.go:55-104 | a forest for which they do not |
| KmsgWriter.PriorityIsSyslog | pkg/kmsg/writer/type_kernel_message.go:47-109 | every priority text maps to 40..47 of facility 5, and to the same value as its canonical form |
| KmsgWriter.KernelSeverities | pkg/kmsg/writer/type_kernel_message.go:47-92 | the severities of the kernel's spellings from emergency to warning |
| KmsgWriter.KernelLowSeverities | pkg/kmsg/writer/type_kernel_message.go:47-98 | from notice to debug, and the default |
| KmsgWriter.SyslogSeverities | pkg/kmsg/writer/type_kernel_message.go:47-92 | the same for the syslog spellings |
| KmsgWriter.SyslogLowSeverities | pkg/kmsg/writer/type_kernel_message.go:47-98 | and their rest |
| KmsgWriter.OtherTextIsInfo | pkg/kmsg/writer/type_kernel_message.go:67-69 | any other text is informational |
| KmsgWriter.TabsBecomeSpaces | pkg/kmsg/writer/kmsg.go:99-101 | byte by byte, a tab becomes a space and nothing else changes |
| KmsgWriter.UnlinesOfLines | pkg/kmsg/writer/kmsg.go:73-80 | the lines the loop cuts give the message back, with its last newline |
| KmsgWriter.LinesOfUnlines | pkg/kmsg/writer/kmsg.go:73-80 | no other newline-free lines do |
| KmsgWriter.RecordShape | pkg/kmsg/writer/kmsg.go:82-107 | a record starts with the priority in brackets, is at most 976 bytes, ends in its only newline; up to 971 bytes survive with tabs as spaces, longer lines keep 968 bytes and "..." |
| KmsgWriter.RecordsCarryMessage | pkg/kmsg/writer/kmsg.go:69-107 | reading the records back gives the message's lines exactly when every line is short and has no tab |
| KmsgWriter.Writer.Write | pkg/kmsg/writer/kmsg.go:69-92 | terminates; the device and the result are those of emitting one record per line |
| KmsgWriter.EmitWritesPrefix | pkg/kmsg/writer/kmsg.go:85-92 | emitting adds a prefix of the wanted records in order, reports success exactly if that is all of them, and otherwise stopped at the first failing write |
| Lspci.ParseACS | pkg/pci/pci.go:108-134 | a flag is on exactly if it is one of the seven and its last field ends in '+' |
| Lspci.SevenFlags | pkg/pci/pci.go:98-134 | the same flag by flag |
| Lspci.BlocksPartition | pkg/pci/pci.go:179-212 | preamble and blocks are the lines again |
| Lspci.NoHeaderInside | pkg/pci/pci.go:179-212 | they are cut exactly before each header |
| Lspci.ScanTracksBlocks | pkg/pci/pci.go:179-250 | the streaming state after any lines is what the blocks say: current device, emitted devices, recorded IDs |
| Lspci.ParseLspci | pkg/pci/pci.go:179-279 | on every input the error of the first line that ends the call, which is a header of one field or an unclaimed line with the context done, else the scan error, else the devices the blocks say, filtered by name |
| Lspci.CheckedExactly | pkg/pci/pci.go:214-255 | the context is looked at exactly for a line of no known kind, and for an ACS line without a capability line since the device was begun |
| Lspci.FilterOne | pkg/pci/pci.go:268-276 | a device is kept exactly if there is no matcher or its name matches |
| Lspci.FilterSplits | pkg/pci/pci.go:268-276 | the kept devices keep their order |
| Lspci.OneDevicePerHeader | pkg/pci/pci.go:179-266 | one device per header, described by its own block up to its modules line, if and only if no modules line precedes the first header, no block has two, and the last block is not dropped |
| Lspci.DistinctIDsDropNothing | pkg/pci/pci.go:262-266 | distinct header IDs rule out a dropped block |
| Lspci.RepeatedLastIsDropped | pkg/pci/pci.go:262-266 | two blocks of one ID without modules lines leave one device |
| ComponentList.ParseInvertsPrint | pkg/custom-plugins/spec.go:160-207 | every form of an entry parses back to the name, run mode, tags and parameter that printed it exactly when these are well formed, for any parameter |
| ComponentList.ParsedIsWellFormed | pkg/custom-plugins/spec.go:160-207 | whatever parses is well formed |
| ComponentList.EntryFailsExactly | pkg/custom-plugins/spec.go:160-207 | for every entry, when its name is empty, its brackets are bad, or the tag slice panics |
| ComponentList.NameIsEmptyExactly | pkg/custom-plugins/spec.go:170-174 | the name is empty exactly for an entry that is empty or starts with ':' or '#' |
| ComponentList.PartsFailExactly | pkg/custom-plugins/spec.go:160-207 | the same conditions on the parts of an entry, with or without a parameter |
| ComponentList.BackwardBracketsPanic | pkg/custom-plugins/spec.go:186-188 | `a#][` panics |
| ComponentList.ParseComponentListEntry | pkg/custom-plugins/spec.go:160-207 | the parser with its tag loop computes the parsing function |
| ComponentList.ExpandComponentList | pkg/custom-plugins/spec.go:210-311 | the nested loops compute the expansion, or its first error |
| ComponentList.InstancesInOrder | pkg/custom-plugins/spec.go:257-304 | a list expands exactly if every entry parses, to one spec per entry in order |
| ComponentList.InstanceOfEntry | pkg/custom-plugins/spec.go:264-284 | every field of an instance, from the entry or else from the list |
| ComponentList.ScriptsAreFilled | pkg/custom-plugins/spec.go:286-302 | the places for name and parameter in a script are filled with the entry's own, and all else of the step is kept |
| ComponentList.ExpandsExactly | pkg/custom-plugins/spec.go:210-311 | a component list expands exactly if it has entries, a name and a plugin and every entry parses |
| ComponentList.FirstErrorDecides | pkg/custom-plugins/spec.go:257-262 | the first failing entry decides the error |
| ComponentList.EntryErrors | pkg/custom-plugins/spec.go:257-262 | each kind of bad entry has its own error |
| ComponentList.EntriesExactly | pkg/custom-plugins/spec.go:218-249 | the entries come from the list or from the file, not both, and there is at least one |
| ComponentList.EntriesErrors | pkg/custom-plugins/spec.go:218-249 | which error a component list without entries gives |
| ComponentList.RelevantExactly | pkg/custom-plugins/spec.go:230-239 | the lines of a file that count are neither empty nor comments |
| ComponentList.TrimCutsSpaces | pkg/custom-plugins/spec.go:232-233 | trimming cuts white space off both ends and nothing else |
| ComponentList.ExpansionInOrder | pkg/custom-plugins/spec.go:210-311 | the result is cut into one consecutive part per spec in order, one long for an ordinary spec, one per entry for a list |
| ComponentList.ExpansionHasNoLists | pkg/custom-plugins/spec.go:210-311 | no component list is left |
| ComponentList.ExpandIsIdempotent | pkg/custom-plugins/spec.go:210-311 | expanding twice is expanding once, whatever the files hold later |
| ComponentList.ValidateExpanded | pkg/custom-plugins/spec.go:139-152 | the validation loop computes the validated expansion, or its first error |
| ComponentList.ValidateSettles | pkg/custom-plugins/spec.go:314-350 | a valid spec changes only its timeout and validates to itself from then on |
| ComponentList.ValidExactly | pkg/custom-plugins/spec.go:314-350 | exactly when a spec is valid, and that then only a missing timeout is filled in, with a minute |
| ComponentList.ValidationErrors | pkg/custom-plugins/spec.go:314-350 | which error an invalid spec gives |
| ComponentList.FirstBadStep | pkg/custom-plugins/spec.go:332-334 | the first bad step and what is wrong with it decide the error |
| ComponentList.ExpandedValidateIsIdempotent | pkg/custom-plugins/spec.go:139-152 | ExpandedValidate of its own output succeeds and changes nothing |
| StatusProgress.Summarize | cmd/gpud/status/command.go:131-142 | the loop and the divisions, in 64-bit arithmetic |
| StatusProgress.PercentIsExact | cmd/gpud/status/command.go:131-141 | the shown percentage is the floored one exactly when a hundred times the finished time fits 64 bits |
| StatusProgress.PercentIsFloored | cmd/gpud/status/command.go:131-141 | it is in 0..100, at most the exact weighted average, below it by less than 1 + 100 n / T, and 100 exactly when every package that takes time is finished |
| StatusProgress.ControllerTotalInRange | cmd/gpud/status/command.go:131-142 | in every reachable controller state with positive install times the shown total is in 0..100 and the time left not negative, as long as the sums fit |
| StatusProgress.TimeLeftIsExact | cmd/gpud/status/command.go:131-142 | the time left is not negative, and exact exactly as long as it fits a Duration |
| StatusProgress.TimeLeftInNanos | cmd/gpud/status/command.go:131-142 | the time left is at most the packages' own times in nanoseconds, and before any progress it is those times, less than a millisecond per package short |

## Left out

- HTTP, TLS, cookies, JSON and YAML, the SQL driver, regular expressions, fsnotify, exec and NVML: arbitrary choices of a step, or parameters.
- Session.Stop: it closes both queues while others may send; runs are taken up to it. Eventual reconnection is not claimed, since the reader has no overall timeout.
- The step machines are on values: a step replaces the state instead of updating fields in place, and the memory model (unsynchronised reads of the status map and of `s.closer`) is sequential interleaving.
- Session.NeverDeadlocks: says a step is possible; it takes for granted that a pending HTTP request can return, and that the transport closes the request body when a request is over, so that a pipe write then fails.
- The methods called by the serve loop, except the fan-in: each request is answered by an arbitrary response.
- PackageController: dependency entries are pairs; Go panics on an entry with fewer than two elements. At most one install script per package, and progress 100 when nothing installs, do not hold and are not claimed.
- PackageController.ProgressIsPercentage: float64 is a real number within one part in 2^40 of the exact percentage; what a platform makes of a float that is no 64-bit integer, or of a division by zero, is arbitrary.
- ProcessWatcher: `StartAndWaitForCombinedOutput` and `exclusiveRunner` are not part of the model; Close is its lock, cancel and unlock.
- RebootEvents.RecordEvent: the boot-time probe is a parameter, in whole seconds.
- Syncer.OneRowPerEvent: for a store that does not fail, with the syncer as its only writer.
- EventStore: JSON of the extra info is taken as faithful; the order of rows that share a second is the table's; retention inheritance between buckets is not modelled, purges are given steps.
- Kmsg.Deduper.AddCache: the cache library is taken at its documented meaning, an entry being gone once its expiration has passed; the background purge removes only such entries.
- Kmsg.ReadFollow: an end of file counts as the end of the input; closing the output channel is not modelled.
- DiskHierarchy.RecursiveAdd: the in-place append is an update of a tree value; sharing of slices between devices is not modelled.
- DiskHierarchy: names are assumed distinct and devices without initial children, as lsblk prints them; parsing lsblk lines is not modelled.
- DiskFlatten.Flatten: the library sort is modelled as insertion by name; names of the map are distinct, so its stability does not matter.
- KmsgWriter: `KernelMessage.Validate` and the no-op writer are not part of the model.
- Lspci: lines are given by the pattern they match and their tokens; the command itself and its version check are not modelled.
- ComponentList: strings are sequences of characters where Go counts bytes, which matters for the name limit of 128 and for a run-mode part that ends in a multi-byte character instead of `]`. `LoadSpecs`, `SaveSpecs` and the duplicate check of `Specs.Validate` are not modelled; base64 decoding is a parameter.
- StatusProgress.PercentIsFloored: for totals within 64 bits and progress in 0..100; beyond that only the wrapped arithmetic of `Summarize` is stated.
- Component `Check` bodies, metrics, table rendering, command-line flags and the client are not part of the model.

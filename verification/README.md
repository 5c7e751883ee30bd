# A3S Box: a verified model

A3S Box runs OCI workloads in MicroVMs or sandboxes. This project models the parts of it in
which state, interleaving or encoding make correctness hard to see, in Dafny 4.11, and proves
properties of them for all inputs, runs and interleavings. `dafny verify dfyconfig.toml` checks
the whole project.

| file | part of the system |
|---|---|
| `ShimTask.dfy`, `ShimProtocol.dfy`, `ShimAgreement.dfy`, `ShimWindow.dfy` | the containerd shim: task records, the critical sections of Create, Start, Wait, Kill, State and Delete, every interleaving of them, and the exits a subscriber sees |
| `Compose.dfy` | startup order of Compose services |
| `ConsoleFilter.dfy`, `ConsoleTail.dfy`, `ConsolePipeline.dfy` | the console: hiding the init preamble, tailing a growing and truncated file, and the two streams together into one log |
| `LogRotation.dfy`, `LogArchive.dfy` | the structured log: rotation and timestamps, and retention of archived logs |
| `Network.dfy` | address allocation and the endpoints of a bridge network |
| `Boot.dfy`, `Health.dfy` | booting a box under its lifecycle lock, and its health record |
| `RootfsStaging.dfy` | the terminal rootfs manifest across crashes |
| `Pty.dfy` | frames of an interactive session |
| `Security.dfy` | security options, from the command line to guest-init |
| `JsonPointer.dfy`, `SchemaSummary.dfy`, `SchemaInventory.dfy` | the API compatibility inventory and its JSON pointers |
| `Text.dfy`, `Sorting.dfy` | string order, splitting and trimming, and the stable sort |

Code that updates state in place is a class or a method with loops, proved against a function
of the old state; concurrency is a state machine over the atomic steps of the code. Clocks, pids,
process deaths, I/O failures and the order of concurrent steps are parameters or steps.

## What does not hold

The code is modelled as it is. Where a property one would expect fails, a lemma shows it, and
another says exactly when it holds.

- A Kill that overtakes a Start leaves a task running whose exit was published
  (`KillDuringStartLeavesTaskRunning`); `StoppedIsLeftExactlyBy` lists all steps that leave STOPPED.
- A delivered user signal is recorded as the task's exit (`UserSignalIsRecordedAsExit`), a published
  code can be replaced (`PublishedCodeIsLostExactlyBy`), and a Wait on a deleted task answers 0
  (`WaitAfterDeleteAnswersZero`).
- The exit event carries the id and not which Create it belongs to, and Kill sends it after releasing the
  lock. So an id that is created again can show two exits after its last Create (`ReusedIdExitsTwice`);
  there is at most one if and only if no event of that id was on its way at the Create (`OneExitExactly`).
- With the policy for a closed writer, console output that arrives between the last read and the load
  of the stop flag is lost (`LateOutputIsLost`), and with either policy output that follows as many silent
  rounds after the stop as the tailer polls (`SlowOutputIsMissed`). `EmitsAllExactlyWithPatience` says
  exactly how many polls a producer needs; `EmitsAllExactlyFromTwoPolls` that one which has finished when
  the flag is set needs two.
- `capacity()` overstates a subnet written with host bits set (`CapacityIsExactWhenAligned`).
- A boot whose pid is not reported or whose result cannot be written, and a kill that records the stop
  while the VM survives the signal, leave a VM that the next boot duplicates (`UnreliableBootForgets`,
  `KillWithoutWaitingForgets`, `ForgottenVmIsDuplicated`); `StepKeepsAccountExactly` lists all such steps.
- A foreground health worker is not fenced by generation and can report into the next boot
  (`UnfencedWorkerReportsAcrossRestart`, `StaleReportIgnoredExactly`).
- A terminal payload over 64 KiB is written but not read back (`FrameRoundTrip`).
- Capability names with commas or outer white space do not survive the transport to the guest
  (`TransportIsFaithful`).

## Model

| member | source | states |
|---|---|---|
| Compose.Search.TopoVisit | src/core/src/compose.rs:440-475 | a visit leaves a service already ordered alone, and otherwise extends the order by a dependency-closed, duplicate-free run ending in the service; the in-progress marks stay the chain of open visits, and every error is witnessed in the document |
| Compose.Search.VisitDependencies | src/core/src/compose.rs:459-470 | after the inner loop every dependency of the service is in the order |
| Compose.Search.VisitDependency | src/core/src/compose.rs:461-469 | an undefined dependency gives the error that names it and its owner, without effect; a defined one is ordered |
| Compose.Search.VisitRoot | src/core/src/compose.rs:431-435 | an ordered service leaves the order alone; otherwise the order grows by a run ending in it |
| Compose.Search.VisitAll | src/core/src/compose.rs:429-435 | the outer loop ends with an order of exactly the services, without duplicates and with direct dependencies first, and cut into one run per name, or with a witnessed error |
| Compose.ServiceOrder | src/core/src/compose.rs:424-438 | succeeds if and only if all dependencies the document names are defined and acyclic; the order holds each service once, after all its direct and indirect dependencies, and where those leave it open a service stands before a later-named one unless that is needed by a service up to it in name order; every failure names a real cycle or undefined dependency |
| Compose.DependsOn.Services | src/core/src/compose.rs:284-294 | exactly the names the entry mentions: a list in its own order, a map sorted by name |
| Compose.CutsDecide | src/core/src/compose.rs:424-438 | an order built service by service, in name order, breaks ties by name |
| Compose.CycleOnPath | src/core/src/compose.rs:446-451 | meeting an in-progress service proves a dependency cycle through it |
| Compose.TopologicalOrderSuffices | src/core/src/compose.rs:424-438 | a duplicate-free order with direct dependencies first exists only for documents without cycles or undefined names, and puts indirect dependencies first too |
| Compose.WalkDescends | src/core/src/compose.rs:424-438 | along any dependency walk the positions in the order strictly decrease |
| Compose.FaultExcludesOrder | src/core/src/compose.rs:424-438 | a document with a witnessed cycle or undefined name has no startup order at all |
| ShimTask.AwaitExit | containerd-shim/src/service.rs:959-1012 | the polling loop ends at the first reading that shows the task deleted or stopped, or, once it was seen running, a terminal box or a second failed inspection without a sighting in between, and with the code that reading gives |
| ShimTask.Service.Create | containerd-shim/src/service.rs:190-209 | Create installs a fresh record, so that an earlier exit of the id is forgotten, published flag included, and touches no other record |
| ShimTask.Service.FinishBoot | containerd-shim/src/service.rs:850-859 | the second section of Start marks the record running if it is still there and revives none that is gone; exit code, published flag and every other record are untouched |
| ShimTask.Service.StartPlaceholder | containerd-shim/src/service.rs:681-710 | starting a sandbox runs the placeholder in that record and changes no other |
| ShimTask.Service.Take | containerd-shim/src/service.rs:939-942 | the child handle goes to the first Wait that asks for it, and to one only |
| ShimTask.Service.Settle | containerd-shim/src/service.rs:1014-1046 | the last section of Wait answers and records the code that the Wait saw, unless a nonzero code was published before, which it then answers and keeps; it marks the record stopped, decides an event exactly when a record was there unpublished, for that record and that code, and changes no other record |
| ShimTask.Service.Kill | containerd-shim/src/service.rs:1123-1175 | the locked section of Kill decides an event exactly for a killable unpublished record and one of the signals 1, 2, 3, 9 and 15, with exit code 128 plus the signal; a stopped record and all others are untouched |
| ShimTask.Service.RecordTerminated | containerd-shim/src/service.rs:540-571 | the background terminator decides an event exactly when the box stopped and none was decided, with 128 plus the signal, or plus 15 for signal 0; when it did not stop only the terminating mark is cleared, and no other record changes |
| ShimTask.Service.Delete | containerd-shim/src/service.rs:1240-1258 | Delete answers the recorded code and forgets it, keeps all other records, and forces removal of exactly the workloads not stopped |
| ShimProtocol.Shim.Perform | containerd-shim/src/service.rs:645-1259 | every step of the protocol is one section of the service, performed in place, and the handler's move; it keeps the protocol invariant |
| ShimProtocol.StepKeepsInv | containerd-shim/src/service.rs:645-1259 | every critical section of every handler keeps: incarnations distinct, one decided event per incarnation, and the published flag set exactly when its event is decided |
| ShimProtocol.RunKeepsInv | containerd-shim/src/service.rs:645-1259 | the invariant holds in every reachable state of any number of concurrent handlers |
| ShimProtocol.AtMostOneExitPerTask | containerd-shim/src/service.rs:145-150 | over every interleaving the exit of one Create of a task is published at most once, and the record's flag tells whether it is decided |
| ShimProtocol.FlagSticks | containerd-shim/src/service.rs:1014-1031 | an incarnation seen late in a run was the same record all along and its published flag never falls |
| ShimProtocol.StepShape | containerd-shim/src/service.rs:645-1259 | every step is a creation, is silent about exits, records one exit, or publishes one decided event |
| ShimWindow.StepKeepsWindow | containerd-shim/src/service.rs:645-1259 | every step other than a Create or Delete of the id keeps each event of the id explained: the present record's own, or on its way when the window began |
| ShimWindow.WindowEvents | containerd-shim/src/service.rs:1177-1189 | between a Create of an id and the next Create or Delete of it, every exit published under the id is the new record's own or was on its way at the Create, no two are of the same Create, and with none on its way there is at most one |
| ShimWindow.OneExitExactly | containerd-shim/src/service.rs:1177-1189 | after a Create, every continuation publishes at most one exit of the id if and only if no handler held an event of that id at the Create |
| ShimWindow.OneExitPerCreate | containerd-shim/src/service.rs:245-259 | the same over the runs of the shim from its start |
| ShimWindow.LeftoverMakesTwo | containerd-shim/src/service.rs:1177-1189 | from any state with an event on its way, publishing it and killing the new task makes two exits of the id |
| ShimWindow.RecreatedAfterKill | containerd-shim/src/service.rs:1123-1189 | killing any unpublished task and creating it again before the event is sent leaves that event on its way |
| ShimWindow.ReusedIdExitsTwice | containerd-shim/src/service.rs:1177-1189 | a reachable run in which a subscriber sees two exits of an id after its last Create |
| ShimAgreement.StepKeepsTaskInv | containerd-shim/src/service.rs:645-1259 | under the caller protocol every step keeps what each open handler believes about the record, and the record only evolves forward |
| ShimAgreement.TaskRunKeepsInv | containerd-shim/src/service.rs:645-1259 | over every run that follows the caller protocol, the record and all its decided events agree |
| ShimAgreement.StoppedIsAbsorbing | containerd-shim/src/service.rs:1049-1089 | under the caller protocol a stopped task stays stopped for the rest of the run |
| ShimAgreement.PublishedCodeIsAnswered | containerd-shim/src/service.rs:1034-1046 | once a nonzero code is published, every later Wait, State and Delete on that task answers it |
| ShimAgreement.NewEventIsRecorded | containerd-shim/src/service.rs:1014-1031 | an event comes into being only in a section that records the exit, in the hands of that handler |
| ShimAgreement.WaitEndsExactly | containerd-shim/src/service.rs:944-1012 | a Wait stops waiting with the exit code of its child, with the code of a terminal box, with 0 on a deleted or stopped record or a second failed inspection, and in no other way |
| ShimAgreement.ObservedCodeIsAnswered | containerd-shim/src/service.rs:1014-1046 | over every run, a Wait whose child exited with a code or whose inspection found the box terminal with it answers that code and publishes it, unless a nonzero code was decided for the task before |
| ShimAgreement.StoppedIsLeftExactlyBy | containerd-shim/src/service.rs:850-859 | without the caller protocol: a stopped task stays stopped through a step if and only if the step does not commit a start, start a sandbox, recreate or delete it |
| ShimAgreement.PublishedCodeIsLostExactlyBy | containerd-shim/src/service.rs:540-571 | without the caller protocol: a published code survives a step if and only if the step is not one of the listed overwrites |
| ShimAgreement.UndisturbedCodeIsAnswered | containerd-shim/src/service.rs:1034-1046 | without the caller protocol, over any run: while no step deletes the record or overwrites its nonzero published code, every Wait, State and Delete answers that code |
| ShimAgreement.KillDuringStartLeavesTaskRunning | containerd-shim/src/service.rs:850-859 | a Kill between the sections of Start leaves the task running with its exit decided |
| ShimAgreement.UserSignalIsRecordedAsExit | containerd-shim/src/service.rs:540-571 | a delivered SIGUSR1 ends as exit code 138 |
| ShimAgreement.WaitAfterDeleteAnswersZero | containerd-shim/src/service.rs:968-978 | in any state, a Wait that polls a deleted task answers 0 |
| ConsoleFilter.EndPreambleShape | src/core/src/log.rs:307-358 | exactly the lines of the execvp form with a nonempty executable end the preamble |
| ConsoleFilter.PreambleShape | src/core/src/log.rs:307-358 | exactly the five progress lines, the entry line with a decimal count, the report with three nonempty fields and the selection with a nonempty executable and a flag 0 or 1 are preamble, as texts of which the fields are parts |
| ConsoleFilter.ClassifyTrimmed | src/core/src/log.rs:307-308 | a line end makes no difference to what a line is |
| ConsoleFilter.RuntimeConsoleFilter.KeepLine | src/core/src/log.rs:268-287 | alone, a call keeps a line if and only if the preamble is over or the line is the workload's, and the preamble is over from the sentinel on |
| ConsoleFilter.StepKeepsInv | src/core/src/log.rs:268-287 | every atomic load, recheck and swap of concurrent calls keeps a linearization of the history so far |
| ConsoleFilter.FilterIsLinearizable | src/core/src/log.rs:253-287 | every history of concurrent calls is equivalent to a sequential one that respects real time |
| ConsoleFilter.WorkloadIsKept | src/core/src/log.rs:268-287 | in every concurrent history no workload line is hidden |
| ConsoleFilter.OneSentinelHidden | src/core/src/log.rs:268-287 | in every concurrent history at most one sentinel line is hidden |
| ConsoleFilter.KeptAfterSentinel | src/core/src/log.rs:268-287 | a call invoked after a sentinel call returned keeps its line, whatever the line |
| ConsoleFilter.HiddenBeforeSentinel | src/core/src/log.rs:268-287 | a hidden line was shown to the filter before any sentinel was answered about |
| ConsoleTail.Tailer.Read | src/core/src/log.rs:378-472 | a read between the producer's actions of one round |
| ConsoleTail.Tailer.ReadOnce | src/core/src/log.rs:209-238 | one read moves one line from the file to the buffer; at end of file it changes nothing, except that with an empty buffer a file over the budget is emptied |
| ConsoleTail.Tailer.TailNextLine | src/core/src/log.rs:378-472 | the loop yields exactly the line that the reference step function yields, for every schedule of the producer |
| ConsoleTail.Tailer.RunTaggedTail | src/core/src/log.rs:697-742 | with no other call in progress the tailer emits, in order and without line ends, exactly the lines of the reference run that are incomplete, or the workload's, or follow a complete sentinel, and every line if nothing is being hidden; the filter goes on hiding exactly if no complete sentinel came |
| ConsoleTail.KeptIsEmission | src/core/src/log.rs:727-742 | the lines kept one by one are the subsequence of those that are to be emitted, whatever the lines |
| ConsoleTail.EmissionOf | src/core/src/log.rs:727-742 | what a whole run of lines emits, and what it leaves of the filter |
| ConsoleTail.TurnConserves | src/core/src/log.rs:378-472 | in one iteration, text held plus text appended is text emitted plus text held |
| ConsoleTail.TailConserves | src/core/src/log.rs:697-742 | over every schedule, truncations included, what was there and was appended is what was emitted, is still held, and is yet to come, in order |
| ConsoleTail.NextLineShape | src/core/src/log.rs:378-472 | an emitted line holds at most one newline, at its end; an incomplete line only after stop; the end is reported only with an empty buffer |
| ConsoleTail.TailLeaves | src/core/src/log.rs:378-472 | what a finished tailer leaves unread was appended after its last read |
| ConsoleTail.CalmScheduleEmitsAll | src/core/src/log.rs:378-472 | if the stop flag is never raised after output between a read and the load of the flag, everything is emitted under every policy |
| ConsoleTail.TimelyOutputIsEmitted | src/core/src/log.rs:378-472 | if no text follows as many silent rounds after the stop as there are settle polls, everything is emitted, late writes included, on every console and under every budget |
| ConsoleTail.SlowOutputIsMissed | src/core/src/log.rs:487-493 | a tailer that has caught up gives up after its polls and misses text that follows that many silent rounds |
| ConsoleTail.EmitsAllExactlyWithPatience | src/core/src/log.rs:487-493 | a number of settle polls emits all output of every producer that never writes again after a given number of silent rounds since the stop, if and only if there are at least that many polls |
| ConsoleTail.FinishedIsTimely | src/core/src/log.rs:387-391 | a producer that writes nothing after the stop needs two polls, and on a calm schedule one |
| ConsoleTail.LateOutputIsLost | src/core/src/log.rs:487-493 | with fewer, any tailer that has caught up loses output that arrives with the stop flag between its read and its load of the flag |
| ConsoleTail.EmitsAllExactlyFromTwoPolls | src/core/src/log.rs:487-493 | a number of settle polls emits all output of every finished writer, on every console, schedule and budget, if and only if it is at least two |
| ConsoleTail.PolicyEmitsAllExactly | src/core/src/log.rs:487-493 | the policy for late writes emits all output of the producers that do not write again after 25 silent rounds since the stop, the one for a closed writer of those that do not after one, and neither of any slower ones |
| ConsolePipeline.StepKeepsInv | src/core/src/log.rs:797-859 | every atomic step of two tailers that share a filter and a writer keeps: each line taken is written or hidden and not both, in its stream's order |
| ConsolePipeline.EveryLineIsWrittenOrHidden | src/core/src/log.rs:797-859 | over every interleaving, when both tailers are done a line is in the log if and only if the filter did not hide it, once and in its stream's order |
| ConsolePipeline.OnlyPreambleIsHidden | src/core/src/log.rs:268-287 | over every interleaving a hidden line is complete, is no workload line and was shown before any sentinel was answered about |
| ConsolePipeline.OneSentinelIsHidden | src/core/src/log.rs:268-287 | over every interleaving at most one sentinel of the two streams is hidden |
| ConsolePipeline.TailerIsNeverBlocked | src/core/src/log.rs:727-742 | in every reachable state a tailer that is not done has a step it can take, whatever the other one does |
| ConsolePipeline.EveryRunEnds | src/core/src/log.rs:797-859 | no run of the two tailers takes more than five steps for each line, and a run that cannot be continued is done |
| ConsolePipeline.LogHoldsTheConsole | src/core/src/log.rs:797-889 | from the two console files to the log: for producers that are timely for the settle polls the lines read make up all that was received, those not hidden are entered once and in order, each with its text without line end, a newline and the name stdout or stderr, and the log on disk is a suffix of the entries |
| Network.OrWithMask | src/core/src/network.rs:294-299 | or-ing the host mask replaces the host bits by ones |
| Network.CapacityIsExactWhenAligned | src/core/src/network.rs:302-306 | `capacity()` is the number of addresses the allocator can hand out if and only if the subnet was written with its host bits clear |
| Network.UnalignedSubnetFallsShort | src/core/src/network.rs:248-281 | 10.0.0.5/24 is accepted with a stated capacity of 253 and 248 addresses |
| Network.Allocate | src/core/src/network.rs:309-335 | the lowest free address between gateway and broadcast, and failure only if all are used |
| Network.MacFromIpInjective | src/core/src/network.rs:339-345 | different addresses get different MACs |
| Network.MacLayout | src/core/src/network.rs:339-345 | a MAC is 02:42 and then the four octets, highest first, in lower-case hexadecimal |
| Network.CandidateCount | src/core/src/network.rs:309-335 | there are exactly as many allocatable addresses as the count says |
| Network.FreeExactlyBelowUsable | src/core/src/network.rs:309-335 | an allocation fails if and only if there are as many endpoints as usable addresses |
| Network.ConnectKeepsValid | src/core/src/network.rs:466-498 | connecting keeps addresses distinct, in range and consistent with their MACs |
| Network.NetworkConfig.ConnectWithAliases | src/core/src/network.rs:466-498 | succeeds if and only if the box is unconnected, the subnet valid and an address left; adds only that endpoint, at the lowest free address and with exactly the aliases that are neither empty nor its name, in order; each refusal for its own reason and without effect |
| Network.NetworkConfig.Disconnect | src/core/src/network.rs:501-508 | removes and returns that endpoint and no other |
| Network.HistoryIsValid | src/cli/src/boot.rs:248-276 | every history of boots, rollbacks, stops, removals, connects and disconnects keeps the endpoints valid |
| Network.AddressesNeverCollide | src/core/src/network.rs:466-498 | over every such history addresses and MACs are pairwise distinct and between gateway and broadcast |
| Network.AddressIsKept | src/cli/src/cleanup.rs:78-94 | a box keeps its address across stops and boots until a step releases it |
| Network.ReleaseFrees | src/cli/src/boot.rs:248-276 | a removal, a disconnection and a failed boot take away that endpoint and no other |
| Boot.BoxStore.BootAndRecord | src/cli/src/boot.rs:174-216 | each outcome with its whole effect on the record and the VMs: a live box is left alone, a managed one or one in any other status than created, stopped, dead, failed or running refused, and a boot writes status, pid and restart count; when the pid is reported and the result written, a live VM afterwards is the recorded one |
| Boot.SweptBoxCanBoot | src/cli/src/state/file.rs:192-271 | the sweep acts exactly on a record that claims to run without a live VM, drops it if it is to be removed and else marks it dead, after which it can be booted if and only if it is unmanaged |
| Boot.StepKeepsAccountExactly | src/cli/src/boot.rs:174-216 | every step of booting, ending and removing actors and of the reconcile sweep keeps all live VMs accounted for by the lock holder or the record, if and only if it is reliable: a VM still alive has its pid reported and written when booted, and is not recorded as ended |
| Boot.RunKeepsInv | src/cli/src/lifecycle.rs:8-12 | as long as the steps of a run were reliable every live VM is accounted for, with any number of actors |
| Boot.AtMostOneVm | src/cli/src/boot.rs:170-173 | as long as the steps of a run were reliable at most one VM of a box is alive, and while the lock is free it is the one in the record |
| Boot.TwoVmsHaveACause | src/cli/src/boot.rs:170-173 | whenever two VMs are alive, an earlier step of the run was unreliable and is the one that lost account |
| Boot.UnreliableBootForgets | src/cli/src/boot.rs:194-200 | from any ready state, a boot whose pid is not reported or whose result is not written leaves its VM alive beside a record that looks ready |
| Boot.KillWithoutWaitingForgets | src/cli/src/commands/kill.rs:197-262 | from any state with a recorded live VM, a kill that records the stop without waiting leaves a VM that survives the signal alive beside a record that looks ready |
| Boot.ForgottenVmIsDuplicated | src/cli/src/boot.rs:148-168 | the next boot beside such a VM makes it two |
| LogRotation.RotatingWriter.WriteLine | src/core/src/log.rs:1034-1043 | appends the entry and rotates exactly when the size limit is reached |
| LogRotation.RotatingWriter.ShiftFiles | src/core/src/log.rs:1046-1052 | the renames move every rotated file up by one, for any number of files |
| LogRotation.RotatingWriter.Rotate | src/core/src/log.rs:1045-1066 | the renames shift every rotated file up by one without overwriting any, drop the oldest and make the active file number 1 |
| LogRotation.AppendAllHoldsHistory | src/core/src/log.rs:1034-1043 | without retention, rotation only cuts the history into segments |
| LogRotation.RetentionIsNewest | src/core/src/log.rs:1045-1066 | after any writes the files are the newest segments of the uncut history |
| LogRotation.RotationKeepsSuffix | src/core/src/log.rs:1045-1066 | after any writes there are at most max(1, max_file - 1) segments, and that many if any was dropped, and with the active file they are a suffix of everything ever written |
| LogRotation.SegmentsAreJustFull | src/core/src/log.rs:1034-1043 | every segment reached the size limit with its last entry and not before |
| LogRotation.OrderedJsonWriter.WriteEntry | src/core/src/log.rs:874-888 | writes one entry, stamped no earlier than the previous one |
| LogRotation.OrderedJsonWriter.WriteInputs | src/core/src/log.rs:861-889 | a run of inputs is written as the reference sequence of entries |
| LogRotation.TimesNonDecreasing | src/core/src/log.rs:874-888 | timestamps never decrease along the log and are never earlier than their input |
| LogRotation.TimesComeFromInputs | src/core/src/log.rs:874-888 | every timestamp is that of an input received so far |
| LogRotation.EntriesCarryInputs | src/core/src/log.rs:874-888 | every entry carries its own input's text and stream |
| LogArchive.ArchiveRoot.RemoveExpired | src/cli/src/log_archive.rs:196-214 | the age pass removes exactly the archives older than the limit whose directory can be removed |
| LogArchive.AgeExactly | src/cli/src/log_archive.rs:196-204 | in seconds, an archive is too old from the end of the last day allowed on |
| LogArchive.ArchiveRoot.EnforceCount | src/cli/src/log_archive.rs:217-222 | drops oldest archives only while there are too many |
| LogArchive.ArchiveRoot.EnforceSize | src/cli/src/log_archive.rs:224-231 | drops oldest archives only while they are too large together |
| LogArchive.ArchiveRoot.PruneArchives | src/cli/src/log_archive.rs:191-234 | the list left is the longest run of newest archives within both limits; on disk are exactly that run and the archives that could not be removed; nothing else is removed and the result counts the removals; when no removal failed the archives on disk respect the age, count and size limits and none dropped within the age limit is newer than one left |
| LogArchive.AgeSortIsStable | src/cli/src/log_archive.rs:216 | archives removed at the same time keep their order |
| LogArchive.AgeSortSorts | src/cli/src/log_archive.rs:216 | the sort is a permutation, oldest first |
| LogArchive.LongestNewestIsLongest | src/cli/src/log_archive.rs:216-231 | a run of newest archives is within the limits if and only if it is no longer than the one kept |
| LogArchive.KeptRunRespectsRetention | src/cli/src/log_archive.rs:191-234 | a disk that holds exactly the kept run respects all three limits |
| LogArchive.DroppedIsNoNewer | src/cli/src/log_archive.rs:216-231 | an unexpired archive that was dropped is no newer than one kept |
| LogArchive.SameTotal | src/cli/src/log_archive.rs:224 | the total size does not depend on the order of the archives |
| RootfsStaging.RootfsDirectory.StageForBoot | src/core/src/rootfs_metadata.rs:90-139 | exactly when staging moves a manifest, finds none and fails, and where each leaves the three paths; the manifest that the boot replays stays the same, and the newest one is kept if the retired one was not newer |
| RootfsStaging.RootfsDirectory.FinalizeTerminal | src/core/src/rootfs_metadata.rs:147-226 | publishes exactly an intact temporary manifest over an absent or regular target, else changes nothing |
| RootfsStaging.StagingKeepsNewest | src/core/src/rootfs_metadata.rs:90-139 | a crash at any point of staging keeps the manifest of the highest generation if and only if staging does not retire an older manifest over it |
| RootfsStaging.StagingKeepsEffective | src/core/src/rootfs_metadata.rs:90-139 | a crash at any point of staging does not change which manifest is replayed |
| RootfsStaging.StagingResumes | src/core/src/rootfs_metadata.rs:90-139 | staging again after a crash at any point ends where an undisturbed staging ends, and staging is idempotent |
| RootfsStaging.StepsAreStage | src/core/src/rootfs_metadata.rs:90-139 | the steps of the state machine, taken without a crash, are the staging procedure |
| RootfsStaging.RunKeepsInv | src/core/src/rootfs_metadata.rs:90-226 | what every reachable state of staging, running, finalizing and crashing satisfies |
| RootfsStaging.CanonicalIsCurrent | src/core/src/rootfs_metadata.rs:147-226 | a published manifest always belongs to the latest launched generation |
| RootfsStaging.EffectiveIsNewest | src/core/src/rootfs_metadata.rs:90-226 | in every reachable state the manifest that is replayed is the one of the highest generation |
| RootfsStaging.NewestSurvivesStaging | src/core/src/rootfs_metadata.rs:90-139 | over any stretch of staging steps and crashes the manifest of the highest generation stays, and is the one replayed |
| RootfsStaging.CrashLeavesNoMarker | src/core/src/rootfs_metadata.rs:90-139 | from a launch on, whatever guests and hosts do, there is no published manifest until one is published |
| Pty.Stream.WriteFrame | src/core/src/pty.rs:80-86 | one call adds the kind, the length modulo 2 to the 32 in four bytes with the highest first, and the payload |
| Pty.Stream.ReadFrame | src/core/src/pty.rs:91-118 | for every byte stream: less than five bytes are its end, a length over 65536 is refused, a missing payload is an error, and otherwise the frame is delivered and what follows it is left |
| Pty.Stream.ReadSession | src/core/src/pty.rs:91-118 | reading until a call delivers nothing yields the reference session |
| Pty.FrameRoundTrip | src/core/src/pty.rs:80-118 | a frame written is the frame read, whatever follows it, if and only if its payload is at most 64 KiB |
| Pty.WrappedLengthDesynchronizes | src/core/src/pty.rs:80-118 | a larger payload is refused, or, when its wrapped length is small, delivered cut short with the rest taken for frames |
| Pty.DeliveredWasWritten | src/core/src/pty.rs:91-118 | a delivered frame re-encodes to exactly the bytes consumed |
| Pty.SessionThen | src/core/src/pty.rs:80-118 | reading what was written and then more bytes is the frames and then the reading of those bytes |
| Pty.SessionRoundTrip | src/core/src/pty.rs:80-118 | every session of fitting frames is read back whole and then ends cleanly |
| Pty.SessionInjective | src/core/src/pty.rs:80-118 | different sessions look different on the wire |
| Pty.DeliveredIsPrefix | src/core/src/pty.rs:91-118 | for arbitrary bytes, the frames delivered are those the stream starts with |
| Pty.CutSession | src/core/src/pty.rs:88-118 | a session cut at any byte delivers exactly the frames written whole, and ends cleanly if and only if the cut leaves less than a header |
| Pty.LengthRoundTrip | src/core/src/pty.rs:81-83 | every 32-bit length survives its four bytes |
| Pty.LengthSpelling | src/core/src/pty.rs:99-100 | every four bytes spell the length they denote |
| Security.CheckOption | src/core/src/execution.rs:192-277 | an option is accepted if and only if it has a meaning that the backend supports, and a rejection names the setting, key or value that is wrong with it |
| Security.ValidateSecurityOptions | src/core/src/execution.rs:192-277 | accepts if and only if every option is accepted, and otherwise blames the first that is not |
| Security.MeaningOfPair | src/core/src/security.rs:97-124 | what an option with an equals sign means is decided by the trimmed words on both sides of the first one, whatever their case |
| Security.MeaningOfWord | src/core/src/security.rs:97-106 | the only option without an equals sign is no-new-privileges |
| Security.TrimShape | src/core/src/security.rs:97-112 | trimming removes white space from the two ends and nothing else |
| Security.FromOptions | src/core/src/security.rs:75-127 | without privileges, the capabilities are those given, the last seccomp option and the last no-new-privileges option decide, and without one the default stands; with privileges the profile is the unconfined one with all capabilities |
| Security.ApplyOption | src/core/src/security.rs:97-124 | one pass of the translation does what the option means and ignores options without meaning |
| Security.LastSeccompWins | src/core/src/security.rs:97-124 | a seccomp option is in force unless a later one overrides it |
| Security.LastNoNewPrivilegesWins | src/core/src/security.rs:97-124 | a no-new-privileges option is in force unless a later one overrides it |
| Security.AcceptedIsEnforceable | src/core/src/security.rs:52-61 | what a backend accepts never asks for a custom profile, and in the sandbox cannot weaken the default hardening |
| Security.MicrovmRefusesExactly | src/core/src/execution.rs:192-277 | for a MicroVM, accepted if and only if no option would be skipped by the translation or ask for a custom profile |
| Security.SandboxAcceptsExactly | src/core/src/execution.rs:192-277 | for the sandbox, accepted if and only if every option asks for what is the default anyway |
| Security.CapsRoundTrip | src/core/src/security.rs:154-160 | a capability list survives joining, splitting and trimming if and only if every name is free of commas and outer white space |
| Security.VariablesSeen | src/core/src/security.rs:132-163 | the variable a guest finds under each of the five keys, value by value |
| Security.TransportIsFaithful | src/core/src/security.rs:132-206 | decoding the encoded profile gives it back if and only if it is the privileged profile or its capability names are clean |
| Security.AcceptedOptionsReachTheGuest | src/core/src/security.rs:63-206 | for every accepted option list the guest can enforce the profile, and receives it unchanged if and only if privileged or the names are clean |
| Health.BoxRecord.ApplyBootResult | src/cli/src/boot.rs:91-114 | a boot starts from a clean verdict whatever came before, and from then on exactly the fenced workers of this boot may report |
| Health.BoxRecord.ApplyProbeResult | src/cli/src/health.rs:326-347 | a result changes a running box only; a success clears the streak, a failure lengthens it by one up to the 32-bit limit and makes the box unhealthy exactly at the threshold; generation and threshold stay |
| Health.BoxRecord.CommitProbe | src/cli/src/health.rs:230-247 | a report is committed if and only if the box runs and a fenced worker still owns it; the worker goes on exactly then |
| Health.BoxRecord.Handle | src/cli/src/commands/stop.rs:140-146 | each event performed in place: ending a box clears status and failure count, pausing and resuming keep them, and each of them only from the state it applies to |
| Health.BoxRecord.Replay | src/cli/src/health.rs:203-249 | a record that lived through any events holds the verdict on the results since its last boot until the box ends, and none after that |
| Health.RecordFollowsProbes | src/cli/src/health.rs:326-347 | after any run of boots, pauses, ends and reports the record is the verdict on the results since the last boot: the failure streak, and unhealthy, healthy or starting accordingly; a pause keeps it and the end of the box clears it |
| Health.StatusExactly | src/cli/src/health.rs:326-347 | after any run, unhealthy if and only if the box has not ended and the last results, at least one and at least the configured number, failed; healthy if and only if it has not ended, some result since the boot was a success and it is not failing |
| Health.LifecycleFollowsCommands | src/cli/src/commands/stop.rs:140-146 | after any run, the box is up if and only if some boot was not followed by its end, and held if and only if some pause was followed neither by its undoing nor by a boot, whatever the probes report |
| Health.LastBootIsRecorded | src/cli/src/boot.rs:91-114 | the record carries the time and the threshold of the last boot |
| Health.StreakExactly | src/cli/src/health.rs:333-344 | the failures counted are all the results since the last success |
| Health.UnhealthyExactlyAtThreshold | src/cli/src/health.rs:337-344 | unhealthy if and only if the box has not ended and the failures since the last success reach the configured retries, at least one |
| Health.VerdictIsOwn | src/cli/src/health.rs:237-241 | with fenced workers only results of the current boot's own workers count |
| Health.StaleReportIgnoredExactly | src/cli/src/health.rs:237-241 | a leftover worker leaves the record alone if and only if it is fenced |
| Health.UnfencedWorkerReportsAcrossRestart | src/cli/src/health.rs:28-45 | an unfenced worker can fail the next boot |
| JsonPointer.UnescapeEscape | src/compat/src/openapi.rs:335-337 | unescaping by RFC 6901 undoes the escape, for every segment |
| JsonPointer.ParseRender | src/compat/src/openapi.rs:206-245 | a pointer spelled from tokens parses back to them |
| JsonPointer.RenderInjective | src/compat/src/openapi.rs:335-337 | different token sequences have different pointers |
| JsonPointer.ArrayIndexDecimal | src/compat/src/openapi.rs:206-245 | an index printed in decimal is read as that index |
| JsonPointer.IndexSpelling | src/compat/src/openapi.rs:206-245 | only the canonical spelling denotes an index |
| SchemaInventory.Collector.Collect | src/compat/src/openapi.rs:206-245 | the recursive traversal pushes exactly the reference list of fields, in order |
| SchemaInventory.Collector.PushProperties | src/compat/src/openapi.rs:209-233 | pushes one field per declared property, in order: its name and pointer, required if and only if the required array holds its name, its type a string or the strings of an array joined by bars, its format a string or number, and its own reference or the first inside it |
| SchemaInventory.FoundIsGenuine | src/compat/src/openapi.rs:206-245 | everything found is a declared property with its true required flag and schema, and found once |
| SchemaInventory.PropertyIsFound | src/compat/src/openapi.rs:206-245 | every declared property at any depth is found |
| SchemaInventory.PropertyEvaluates | src/compat/src/openapi.rs:206-245 | a field's pointer, evaluated by RFC 6901, designates exactly that property's schema |
| SchemaInventory.FieldPointersDistinct | src/compat/src/openapi.rs:206-245 | no two fields share a pointer |
| SchemaInventory.DedupKeepsAll | src/compat/src/openapi.rs:38-41 | the final dedup has nothing to remove |
| SchemaInventory.FieldsAreSound | src/compat/src/openapi.rs:206-245 | every field describes a declared property: its pointer designates the schema it summarizes, and flag, type, format and reference are as for that schema's members |
| SchemaInventory.FieldsAreComplete | src/compat/src/openapi.rs:206-245 | every declared property has a field |
| SchemaInventory.SortOrders | src/compat/src/openapi.rs:40 | sorting keeps the fields and orders them strictly by pointer |
| SchemaSummary.ReferenceIsFirst | src/compat/src/openapi.rs:292-303 | a reference recorded for a schema is one that stands in it, and no object before it in the order of the traversal has one |
| SchemaSummary.ReferenceIsFound | src/compat/src/openapi.rs:292-303 | if any object of a schema, at any depth, has a reference, one is recorded |
| SchemaSummary.SummarizeSummarizes | src/compat/src/openapi.rs:292-333 | type, format and reference are what the members of the schema say, and none where they say none |
| SchemaSummary.StringsAre | src/compat/src/openapi.rs:308-313 | of an array of types exactly the strings are taken, in order |
| SchemaSummary.JoinIsJoined | src/compat/src/openapi.rs:308-313 | splitting the joined types at the bars gives them back, unless they hold bars themselves |
| SchemaInventory.Inventory | src/compat/src/openapi.rs:36-41 | the inventory holds every declared property at any depth exactly once and nothing else, each with the flag, type, format and reference of its schema, strictly sorted by pointer |

## Left out

- PublishedCodeIsAnswered: covers nonzero codes, a task created when no handler of an earlier task of that id was left over, and callers that start it once and kill it only after Start completed and with terminating signals; outside of that `PublishedCodeIsLostExactlyBy` gives the exact steps that lose a code and `UndisturbedCodeIsAnswered` covers every run without them.
- StoppedIsAbsorbing: the same task and callers; outside of that `StoppedIsLeftExactlyBy` gives the exact steps.
- CalmScheduleEmitsAll: a condition on the schedule that suffices; a schedule that is not calm may still lose nothing, depending on how far the tailer is.
- AtMostOneVm: covers runs up to their first unreliable step; `StepKeepsAccountExactly` and `TwoVmsHaveACause` show that this is exact.
- SegmentsAreJustFull: starts from an empty log; an existing file is counted by its size in bytes, which the model takes as given.
- RotationKeepsSuffix: a log directory that holds more rotated files than the current limit, left by a larger limit, is not covered; those files are never renamed or removed.
- VerdictIsOwn: assumes that no two boots of a box have the same start time in nanoseconds.
- SortOrders: orders by pointer only, which decides the order whenever pointers differ, as they always do here.
- StagingKeepsNewest: a manifest is known by its generation; runs assume that a guest does not put a manifest of a later generation at the retired path.
- Shim: spawning processes, stdio and log forwarding, exec processes, systemd units, parsing of inspect output, and the ttrpc transport; `128 + signal` wraps at 32 bits in the model.
- Shim: an actor that crashes while it holds a lock, here and in the boot protocol.
- Console: the reopening of a replaced file on Windows, read errors and invalid UTF-8, and bytes a producer appends between the tailer's end-of-file read and its truncation.
- Log drivers: syslog and the discarding driver; a poisoned writer mutex, after which lines are dropped; gzip is the identity on contents and file operations of rotation succeed.
- Archives: loading metadata from disk, the 64-bit sum of sizes, and partial removal of a directory whose removal fails.
- Network: CIDR text, IPv6 allocation, policies, DNS and published ports.
- Boot: building the VM configuration, volumes, restart policies and the monitor's schedule.
- Rootfs: the contents and validation of a manifest, symbolic-link races on the directory itself, and fsync.
- Pty: the JSON payloads of request, resize and exit frames, and I/O errors other than the end of the stream.
- Security: what guest-init does with the profile, the sandbox's other compatibility checks, and variables with these keys already in the guest's environment.
- Health: probe execution, schedules and timeouts; every state of a box without a VM counts as ended.
- Images, registries, builds, snapshots, TEE attestation, the CRI server and the SDKs are not part of this model.

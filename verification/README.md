# Yardsort: verified models

Yardsort runs coding agents in terminals that outlive its window, and keeps a record of what they
did. The hard part of that record is delivery: a process's exit can reach the database over four
ways, from several programs, in any order, and agents leave reports in a directory that any number
of programs empty. This project models that, and the other places where the repository's code
depends on order, arithmetic or parsing, and proves what they promise.

`dafny verify dfyconfig.toml` checks everything.

| files | what they model |
|---|---|
| `Options` | optional values |
| `ActivityStore` | the run and event tables, as far as exits use them |
| `ExitProtocol` | launchers, the daemon, draining clients, live listeners and reconcilers as one transition system, a step for every store, host or spool call, any of which may fail and any thread of which may die; the answer to a spawn may be lost with the process started |
| `ExitSafety`, `ExitDelivery`, `ExitEvents` | what every step of it does: to rows and events, to exits on their way, to events on their way |
| `ExitHistory` | which step everything a schedule leaves behind came from, and when that step was |
| `ExitOutcome`, `ExitInputs`, `ExitProgress` | what whole schedules come to, schedules at which an exit is lost or a live run interrupted, and that no thread gets stuck |
| `Startup`, `StartupOutcome` | the spool drain and the reconciliation that startup runs, as methods over the tables, and what they decide for each run |
| `Inbox`, `InboxClients`, `InboxAlone`, `Watcher` | placing and storing agents' reports: one client's drain, any number of clients with failing writes and crashes, the one model against the other, and the thread that decides when to drain |
| `Usage`, `UsageReport` | attributing the machine's processes to terminals, host and app, and grouping the loads by project and workspace |
| `OneCopy` | the lock, request file and leaving flag by which a second copy of the app gives way to the first |
| `Text`, `GitRecords`, `GitStatus` | git's NUL-separated outputs |
| `ShellWords` | argument lists as one line |
| `Paths` | lexical path resolution |
| `Timestamps` | RFC 3339 timestamps to milliseconds |
| `Saving` | compare-and-replace saving under outside writes |
| `LatestAnswer` | the request counters of the window's stores |
| `Terminals` | terminal tabs and exits that overtake them |
| `Shortcuts` | keyboard bindings and what is recovered of saved ones |
| `Fence` | the fenced block of a code note, against section 4.5 of the CommonMark specification |

Where the source updates state step by step, the model does too: drains, attribution, grouping, the
parsers, the stores and the binding recovery are methods with loops over fields or local variables,
each proved equal to a specification that the lemmas are then about. Where several programs
interleave, the model is a transition system: `Next` is one call of one of them, a step its thread is
not ready for changes nothing, so every sequence of steps is a schedule, and `After` is where a
schedule leads.

The invariant of `ExitSafety`: PTYs are unique, a run's PTY is the one process it started, every
thread stands where its data allows, every event agrees with its row, no run has two, whoever ended
a run is the only thread with its event left to write, and a run recorded as exited has its
process's code. `ExitDelivery` follows each exit. It is in good hands (`InGoodHands`) if its run has
ended as one that was spawned, or is open and the daemon has the exit still ahead, a thread goes on to
record it, or it waits in the spool with nobody about to remove it. `GivesUp` names the steps with
which that ends: the launcher ends its run as refused although the host has started it, or the host
starts it after that; the daemon cannot spool the exit so that it can be recorded; a client cannot read
its entry; or the last thread that owes it dies or its call fails. `TakesUp` names those with which it
begins again. Both are guards on the state before the step, and `NextExact` proves them exact for every
step, so the results about schedules are too: no schedule is excluded. `ExitHistory` ties what a schedule
leaves behind to the steps it came from: a run's row to its own `Begin` and that step's time, a process to
its spawn, an entry to the exit the daemon kept, an end and its event to what a step told, and when.

## Where the code and its promises differ

The code is modelled as it is. Where a promise does not hold of it, a lemma gives the input, and
another says when it holds.

- Exits are lost. A launcher that dies between linking its run and settling it, or whose call to the
  host fails there, loses the exit when a client was draining meanwhile
  (`DyingBeforeSettlingLosesTheExit`, `AFailedHostCallLosesTheExit`). A client that cannot read an entry
  removes it (`AnUnreadEntryLosesTheExit`). A spawn that is not answered in time is recorded as refused
  although the host may start it, and its exit finds no run (`AnUnansweredSpawnLosesTheExit`). In any
  schedule an exit is lost exactly when some step gave it up and no later one took it up (`LostIff`);
  once it is over, that is exactly when its run has not ended (`NoExitLost`). The run is then open
  (`LeftOpenIff`) unless it was refused, which takes a process that was started late
  (`RefusedStartedLate`).
- A reconciler interrupts live runs. It does so to a linked run exactly when the listing it goes by
  failed, which leaves an empty list, or was read when the host did not know the process; and to an
  unlinked one exactly when its launch began longer ago than the grace period, although its process runs
  (`InterruptedIff`, `RunningInterruptedIff`; `AFailedListingInterruptsALiveRun`,
  `AListReadEarlyInterruptsALiveRun`, `AnUnlinkedRunIsInterruptedAlive`).
- A failed lookup is taken for an unknown name. A client drops the entry it reads exactly when no
  lookup of a name it is known by is answered (`DroppedIff`, `DroppedThoughPlaceableIff`), so an entry
  that names a known run can be gone (`AKnownEntryIsDropped`); so can one whose read failed
  (`AReadableEntryIsDropped`).
- The thread that watches the inbox can wait for good on a file, with neither timer nor signal:
  exactly on what its last drain could not remove or could not list (`BlockedOnTheOverlooked`,
  `AFailedRemovalIsWaitedOn`, `AFailedListingIsWaitedOn`), and never on what its last drain deferred
  or on what arrived after it.
- The app's own process is counted twice exactly when it is listed and below one of its terminals or
  the host (`CountedOnceIff`, `AppBelowASessionCountsTwice`).
- Two copies of the app asking at once: the one that then gets the profile clears the other's
  request, which gives way to a window nobody showed (`TwoAtATimeCanMissTheWindow`). Every copy that
  gives way was answered by a shown window, or another copy cleared its request, or it could not look
  at its request (`ShownOrCleared`, `AFailedLookMissesTheWindow`); with one asking at a time and able to
  look it is the first (`ShownMeansShown`).
- `splitWords` cuts a line at a space it is put together with exactly when the part before does not
  end in a backslash that takes the space (`SplitsApartIff`, `ABackslashTakesTheSpace`).
- A path answered relative to its workspace, read again, is itself unless it looks rooted in a drive
  and the workspace is not the root of everything (`ReadingAgainIff`, `LooksRooted`,
  `ADriveLikeAnswerIsNotReadAgain`).
- RFC 3339 allows `t` and `z`; a timestamp is read exactly when its letters are capitals
  (`ReadIffCapitals`).
- A write between a save's second comparison and its rename is lost (`AWriteInTheGapIsLost`); the
  save replaces what the user opened exactly when there is no such write, or the last of them wrote
  that text (`ReplacesExpectedOrOutside`).
- A fenced excerpt is read back exactly when it does not end in a carriage return, which would join
  the newline after it into one line ending (`ReadsBackExactlyIff`, `ACarriageReturnIsLost`).

## Model

| member | source | states |
|---|---|---|
| ActivityStore.RunByPty | crates/core/src/store.rs:1497-1507 | the run found has the PTY, and none is found only when no run has it |
| ActivityStore.RunSpawned | crates/core/src/store.rs:1568-1574 | refused exactly when a known run would take another run's PTY; one run to a PTY otherwise |
| ActivityStore.EndRun | crates/core/src/store.rs:1595-1601 | ending a run keeps PTYs unique |
| ActivityStore.EndRunByPty | crates/core/src/store.rs:1605-1632 | a run is ended and returned exactly when an open run has the PTY, it is that run, and no other row changes |
| ActivityStore.EndInterruptedRuns | crates/core/src/store.rs:1639-1671 | reconciling adds no run and no event and keeps PTYs unique |
| ExitSafety.BeginSafe | crates/core/src/launch.rs:314-318 | writing a pending run keeps the invariant and every earlier end, link and event |
| ExitSafety.SpawnSafe | crates/core/src/launch.rs:373-374 | spawning, or being told that it failed, keeps them, a run's one process among them |
| ExitSafety.UnansweredSafe | crates/pty-ipc/src/client.rs:222-234 | so does a spawn whose answer does not come in time, or is lost with the connection or the launcher |
| ExitSafety.StartLateSafe | crates/pty-ipc/src/client.rs:222-234 | so does the host starting such a process after all, at any later time: a run still has one process |
| ExitSafety.EndRefusedSafe | crates/core/src/activity.rs:258-276 | ending the run of a spawn that failed keeps them |
| ExitSafety.LinkSafe | crates/core/src/activity.rs:210-218 | linking a run to its PTY keeps them, whoever linked it first |
| ExitSafety.AskHostSafe | crates/core/src/launch.rs:381-392 | asking the host whether the process is gone keeps them, when the call fails too |
| ExitSafety.KeepSafe | crates/pty-ipc/src/server.rs:88-112 | spooling an exit, labelled or not, keeps them |
| ExitSafety.DeliverSafe | src-tauri/src/lib.rs:430-440 | a live or settling delivery starting keeps them |
| ExitSafety.ForgetSafe | crates/pty-host/src/lib.rs:221-230 | the host removing a session keeps them |
| ExitSafety.TakeSafe | crates/core/src/activity.rs:489-513 | a drainer taking an entry keeps them, however many drain |
| ExitSafety.TakeUnreadSafe | crates/core/src/activity.rs:492-502 | a drainer failing to read an entry keeps them |
| ExitSafety.EndByPtySafe | crates/core/src/activity.rs:380-382 | ending a run by PTY keeps them: its ender alone then has its event to write |
| ExitSafety.WriteSafe | crates/core/src/activity.rs:399-435 | writing the exit event, or failing to, keeps them |
| ExitSafety.AskRunSafe | crates/core/src/activity.rs:388-395 | telling a duplicate from an unknown PTY keeps them |
| ExitSafety.LookUpSafe | crates/core/src/activity.rs:547-553 | looking up the run an entry names keeps them |
| ExitSafety.AttachSafe | crates/core/src/activity.rs:554-561 | a drainer linking a pending run keeps them |
| ExitSafety.RemoveSafe | crates/core/src/activity.rs:526-530 | removing the entry, or failing to, keeps them |
| ExitSafety.EndGoneSafe | crates/core/src/activity.rs:440-445 | interrupting the runs not in the list keeps them |
| ExitSafety.WriteGoneSafe | crates/core/src/activity.rs:446-457 | writing the interruptions, each of which may fail, keeps them |
| ExitSafety.NextSafe | crates/core/src/activity.rs:373-562 | every step of any thread keeps the invariant, and what it keeps is never undone |
| ExitSafety.ExitRecordedOnce | crates/core/src/activity.rs:371-457 | in every schedule an ended run is never ended again: code, reason and time stay; it has at most one exit event, which never changes and agrees with the row |
| ExitSafety.OpenRunHasNoExit | crates/core/src/activity.rs:380-387 | in every schedule an open run has no exit event |
| ExitSafety.ExitedIsReal | crates/core/src/activity.rs:371-397 | a run recorded as exited is linked to the process it started and has that process's code |
| ExitDelivery.LinkGoesThrough | crates/core/src/activity.rs:210-218 | linking a run to its own process is never refused, whoever links it first |
| ExitDelivery.StartLateExact | crates/pty-ipc/src/client.rs:222-234 | the host starting a process that nobody waits for gives its exit up exactly when its run was already recorded as refused |
| ExitDelivery.EndRefusedExact | crates/core/src/launch.rs:396-400 | a launcher that records its run as refused gives an exit up exactly when the run was open, its process exists, and its exit was in good hands |
| ExitDelivery.LinkExact | crates/core/src/launch.rs:375-392 | a launcher linking its run loses nothing; one whose link fails gives the exit up exactly when the daemon has seen it, the run is unlinked and open, no other thread owes it and no entry waits |
| ExitDelivery.AskHostExact | crates/core/src/launch.rs:381-392 | a launcher whose call fails, or whose host has forgotten the process, gives the exit up exactly when it was the last to owe it and no entry waits |
| ExitDelivery.KeepExact | crates/pty-ipc/src/server.rs:88-112 | the daemon gives an exit up exactly when the run is open, nobody owes it, and it is not spooled or spooled without its label before its run is linked |
| ExitDelivery.DeliverExact | src-tauri/src/lib.rs:430-440 | a live or settling delivery gives nothing up, and takes a dropped exit up exactly when its run is linked |
| ExitDelivery.TakeUnreadExact | crates/core/src/activity.rs:492-502 | a client that cannot read an entry gives the exit up exactly when it was waiting and nobody owed it |
| ExitDelivery.TakeExact | crates/core/src/activity.rs:489-513 | a client taking an entry gives nothing up, and takes a dropped exit up exactly when it can be recorded, by its PTY or its label |
| ExitDelivery.EndByPtyExact | crates/core/src/activity.rs:380-397 | an end by PTY that goes through loses nothing; one that fails gives the exit up exactly when its run is linked, nobody else owes it and no entry waits: an unlinked one goes on to be adopted |
| ExitDelivery.AskRunExact | crates/core/src/activity.rs:388-395 | telling a duplicate from an unknown PTY gives nothing up, failed calls included: whoever was going to adopt the exit still is |
| ExitDelivery.LookUpExact | crates/core/src/activity.rs:547-553 | looking up the labelled run gives the exit up exactly when the call fails and nobody else owes it |
| ExitDelivery.AttachExact | crates/core/src/activity.rs:554-561 | so does adopting it; a drainer whose call goes through owes the exit from then on, whoever linked the run meanwhile |
| ExitDelivery.RemoveExact | crates/core/src/activity.rs:526-530 | removing an entry gives nothing up: that happened before; failing to remove it takes a dropped exit up exactly when nobody else is about to |
| ExitDelivery.EndGoneExact | crates/core/src/activity.rs:440-445 | a reconciler gives nothing up, and takes a dropped exit up exactly when it ends its run |
| ExitDelivery.CrashExact | crates/core/src/activity.rs:478-562 | a thread that dies gives the exit up exactly when it was the last to owe it and no entry waits without it |
| ExitDelivery.NextExact | crates/core/src/activity.rs:373-562 | for every step and every process: `GivesUp` names the step exactly when the exit leaves good hands with it, `TakesUp` exactly when it comes back into them |
| ExitHistory.RowBegun | crates/core/src/store.rs:1467-1482 | in every schedule a run was begun by one step that found no row of it, and its row has that step's time |
| ExitHistory.StartedIff | crates/core/src/launch.rs:373-374 | there is a process exactly when some step started it, and it has the label of that step's spawn |
| ExitHistory.CodeIff | crates/pty-ipc/src/server.rs:88-112 | its code is known exactly when a step ended it, and is that step's |
| ExitHistory.KnownIff | crates/pty-host/src/lib.rs:221-230 | the host knows a process exactly when it was started and never removed |
| ExitHistory.UnansweredIff | crates/pty-ipc/src/client.rs:222-234 | the host may still start a run's process exactly when the answer to its spawn was lost and the run has no process |
| ExitHistory.EntryKept | crates/pty-ipc/src/server.rs:88-112 | an entry, spooled or in a drainer's hands, was kept by one step of the daemon with the process's code, that step's time, and the label if it had that |
| ExitHistory.EndingTold | crates/core/src/activity.rs:503-513 | the code, time and way a thread is about to record were told by a delivery, the host, or the daemon's entry |
| ExitHistory.AskingFound | crates/core/src/activity.rs:383-396 | a thread asks whether a PTY is known only after an end by it that went through and found no open run |
| ExitHistory.ReturnsReported | crates/core/src/launch.rs:373-400 | a launcher that has returned tried to link its process, or to end its run as refused |
| ExitHistory.EndedWhen | crates/core/src/activity.rs:373-457 | an ended run was ended by one step that found it open: at that step's time, or with the code and time its thread was told |
| ExitHistory.ExitTold | crates/core/src/activity.rs:373-397 | a run recorded as exited has the code and time that some step told of its own process |
| ExitHistory.EventTold | crates/core/src/activity.rs:399-435 | the event of an exited run is keyed by its PTY and has the code, time and way that some step told of its process |
| ExitHistory.EventReconciled | crates/core/src/activity.rs:446-457 | the event of an interrupted run was written by a reconciler's step, at that step's time |
| ExitEvents.NextAccounted | crates/core/src/activity.rs:383-457 | every step leaves every run that ended with its event written, in somebody's hands, or lost by a step that `LosesEvent` names; a lost one stays unwritten |
| ExitOutcome.LostIff | crates/core/src/activity.rs:373-562 | in every schedule, whatever fails and whoever dies, the exit of a recorded launch is out of good hands exactly when some step gave it up and no later one took it up again |
| ExitOutcome.EntryLeavesSettled | crates/core/src/activity.rs:489-530 | in every schedule, where a client is about to remove an entry, read or not, its run has ended or another thread goes on to end it exactly when the exit was not lost |
| ExitOutcome.NoExitLost | crates/core/src/activity.rs:478-562 | in every schedule, once an exit the daemon saw is neither in the spool nor owed, its run has ended exactly when the exit was not lost; one called exited is linked and has the real code |
| ExitOutcome.RefusedStartedLate | crates/core/src/launch.rs:396-400 | in every schedule, a run that is refused, or about to be, has a process only if the answer to its spawn was lost and the process was started late |
| ExitOutcome.LeftOpenIff | crates/core/src/launch.rs:373-400 | in every schedule such a run is open exactly when its exit was lost and it was not refused; unless its process was started late, exactly when its exit was lost |
| ExitOutcome.OnlyReconcilersInterrupt | crates/core/src/activity.rs:440-457 | without a reconciler no run is ever called interrupted |
| ExitOutcome.EveryExitRecorded | crates/core/src/activity.rs:371-397 | without one, a run whose exit is over is recorded as exited with the real code exactly when the exit was not lost |
| ExitOutcome.EventThereIff | crates/core/src/activity.rs:399-457 | in every schedule an ended run whose event nobody is about to write has it exactly when no step lost it |
| ExitOutcome.InterruptedIff | src-tauri/src/lib.rs:475-486 | in every schedule a reconciler interrupts a linked open run exactly when the listing it goes by failed or was read when the host did not know the process, and an unlinked one exactly when it is more than a minute after the step that began the run |
| ExitOutcome.RunningInterruptedIff | src-tauri/src/lib.rs:475-486 | so a linked run whose process runs, and was not removed, is interrupted exactly when the listing failed or was read before the spawn |
| ExitInputs.DyingBeforeSettlingLosesTheExit | crates/core/src/launch.rs:376-392 | a schedule in which the launcher dies after its link and a drainer took the exit for a duplicate: nobody has the exit, the process is gone, the run is open |
| ExitInputs.AFailedHostCallLosesTheExit | crates/core/src/launch.rs:381-385 | the same with a launcher that lives but whose call to the host fails |
| ExitInputs.AnUnansweredSpawnLosesTheExit | crates/pty-ipc/src/client.rs:222-234 | a schedule in which the answer to a spawn is lost and no later call fails: the run is refused, its process starts and exits, and its code is recorded nowhere |
| ExitInputs.AnUnreadEntryLosesTheExit | crates/core/src/activity.rs:492-502 | a schedule in which the only entry of a linked run's exit is removed unread: the process is gone, the run is open |
| ExitInputs.AListReadEarlyInterruptsALiveRun | src-tauri/src/lib.rs:477-486 | a schedule in which a run is interrupted while its process, spawned after the list was read, runs |
| ExitInputs.AFailedListingInterruptsALiveRun | crates/pty-ipc/src/client.rs:369-380 | a schedule in which a finished launch is interrupted while its process runs, because the listing failed and came back empty |
| ExitInputs.AnUnlinkedRunIsInterruptedAlive | crates/core/src/store.rs:1652-1661 | a schedule in which a run whose link failed is interrupted after the grace period while its process runs and is listed |
| ExitProgress.NobodyIsStuck | crates/core/src/activity.rs:373-562 | after any schedule every thread that is not dead comes to an end by steps of its own whose calls go through, whatever the others did |
| Startup.Profile.RecordExit | crates/core/src/activity.rs:373-397 | the tables and the answer are those of the specification: new, duplicate or no run |
| Startup.Profile.AdoptEarlyExit | crates/core/src/activity.rs:541-562 | the tables and the answer are those of the specification |
| Startup.Profile.ImportSpool | crates/core/src/activity.rs:478-537 | the tables and the report after draining the files in order; left are the files at the places whose removal failed, in their order, and no other: none if none failed |
| Startup.Profile.EndInterrupted | crates/core/src/activity.rs:440-457 | exactly the runs that are gone are interrupted, each gets its event unless its key was taken, and their number is returned |
| Startup.Profile.Start | src-tauri/src/lib.rs:464-486 | the spool is drained before the runs not alive are interrupted, and left as such a drain leaves it |
| StartupOutcome.DrainedLinked | crates/core/src/activity.rs:489-531 | a drain ends an open linked run as its first entry says and leaves every other linked or ended run alone |
| StartupOutcome.DrainedPending | crates/core/src/activity.rs:514-520 | for any spool, a drain ends a run waiting for its PTY as the first entry says that names it and whose PTY no run has by then, and leaves it alone if there is none |
| StartupOutcome.TakenIff | crates/core/src/activity.rs:514-520 | a PTY is linked after a drain exactly when it was before, or an entry for it adopted a waiting run |
| StartupOutcome.StartupSettlesLinked | src-tauri/src/lib.rs:464-486 | for every database, spool and live list: ended runs stay; an open linked run in the spool is exited with its first entry's code at the daemon's time, one neither spooled nor alive is interrupted, others stay open |
| StartupOutcome.StartupSettlesPending | src-tauri/src/lib.rs:464-486 | the same for a run waiting for its PTY: exited as the entry that adopts it says, interrupted past the grace period, open otherwise |
| StartupOutcome.StartupSettlesLabelled | src-tauri/src/lib.rs:464-486 | where a run has one process and its entries have its label, that entry is the first one naming it |
| StartupOutcome.DrainingAgainIsHarmless | crates/core/src/activity.rs:526-530 | draining entries already drained changes nothing and records nothing as new |
| StartupOutcome.StuckFilesAreHarmless | crates/core/src/activity.rs:526-530 | files whose removal failed change nothing at the next drain |
| StartupOutcome.ReportAccounts | crates/core/src/activity.rs:521-525 | the report's four counts add up to the files, and `imported` is the number of runs that ended |
| StartupOutcome.ReportCounts | crates/core/src/activity.rs:492-525 | each of the four counts is the number of files that were answered so, or could not be read |
| StartupOutcome.DeliveredAnswers | crates/core/src/activity.rs:383-396 | an entry is a duplicate exactly when its PTY is known and no open run has it, and unmatched exactly when no run has it and the run it names does not wait |
| StartupOutcome.StartupReports | crates/core/src/activity.rs:440-531 | for every run that startup ends it writes one event: by the spool with the entry's code and time, or by the reconciler with its own |
| StartupOutcome.StartupKeepsBooks | crates/core/src/activity.rs:440-537 | startup keeps one event for each ended run, agreeing with its row, and none for an open one |
| Inbox.PlacedIffKnown | crates/core/src/activity.rs:739-772 | with every lookup answered an entry is placed exactly when a run or workspace it names is known |
| Inbox.UnplacedIffLookupsFailed | crates/core/src/activity.rs:753-766 | it finds no place exactly when no lookup of a name it is known by is answered |
| Inbox.PlacedWith | crates/core/src/activity.rs:739-772 | an entry is placed with the run it names, or else with that of its agent's session id, in that run's workspace and session, or else in the workspace it names; a session only the entry names is taken where the run has none |
| Inbox.PlanStores | crates/core/src/activity.rs:676-730 | a drain waits for a turn exactly while its file is unfinished and it is less than five minutes old, and goes on to store exactly what the entry stands for: a finished turn's own events, a failed or late one's trigger, a report itself |
| Inbox.Client.ImportRows | crates/core/src/activity.rs:623-655 | the rows are written up to the first refused one, the file is done with exactly when none is, and the counts account for every row |
| Inbox.Client.ImportFile | crates/core/src/activity.rs:599-664 | one file: events, files and count of deferred are those of the specification, and so is whether it counts as unreadable or unplaced; the workspaces named are among those that gained rows, and all of those where no write is refused |
| Inbox.Client.ImportInbox | crates/core/src/activity.rs:588-670 | the whole drain: the same, over the files in order; `imported` is the number of new events, and the unreadable and unplaced are counted |
| Inbox.WrittenStores | crates/core/src/activity.rs:698-725 | writing rows drops and repeats nothing, and stores all of them unless one is refused, whatever was stored before |
| Inbox.DrainLeavesTheDeferred | crates/core/src/activity.rs:599-664 | the files a drain leaves are those unlisted, those counted as deferred and those whose removal failed, and the count is their number |
| Inbox.DrainStores | crates/core/src/activity.rs:588-670 | a drain keeps every event, repeats no key, and stores every row that a file it does not put off stands for |
| Inbox.DrainAddsOnly | crates/core/src/activity.rs:588-730 | and every row it adds is one that a file it listed stands for |
| Inbox.DrainConsumes | crates/core/src/activity.rs:676-696 | the first drain whose writes go through, after a turn's grace period or its file's end, consumes it, whatever earlier drains wrote of it: a finished turn then has every event of its own, a late or failed one that of its trigger, a report its own, each key once |
| Inbox.DrainWaits | crates/core/src/activity.rs:684-687 | until then it stays, and is counted |
| InboxClients.NextSafe | crates/core/src/activity.rs:588-730 | every step of any client, failed writes, failed removals and crashes included, keeps the invariant and every stored row |
| InboxClients.NothingLostNothingTwice | crates/core/src/activity.rs:585-670 | in every schedule no key is stored twice, and an entry is gone only if unreadable, with its own event or every event of its turn stored, with that of its trigger stored where some client found its file failed or its time up, dropped by a client that failed to read it, or by one that read it with no lookup of a name it was known by answered |
| InboxClients.EveryRowWasRead | crates/core/src/activity.rs:676-730 | in every schedule a stored row is one that an entry stood for when some client read it |
| InboxClients.FindingsIff | crates/core/src/activity.rs:599-663 | a file counts as unread, unplaced or overdue exactly when some client's step found it so |
| InboxClients.DroppedIff | crates/core/src/activity.rs:613-663 | in every schedule a client drops the readable entry it reads exactly when no lookup of a name it is known by, by the tables as they are then, is answered |
| InboxClients.DroppedThoughPlaceableIff | crates/core/src/activity.rs:742-766 | an entry that is dropped was placeable exactly when the lookup of a name it was known by failed |
| InboxClients.AnsweredDropsOnlyTheUnplaceable | crates/core/src/activity.rs:656-663 | in schedules whose lookups are all answered only an entry that could not be read or names nothing known is gone unstored |
| InboxClients.AKnownEntryIsDropped | crates/core/src/activity.rs:753-766 | a schedule in which an entry naming a known run is gone, unstored, after one failed lookup |
| InboxClients.AReadableEntryIsDropped | crates/core/src/activity.rs:599-612 | a schedule in which a readable entry naming a known run is gone, unstored, after one failed read |
| InboxClients.StoredForGood | crates/core/src/activity.rs:643-655 | a stored key stays stored, exactly once, whatever follows |
| InboxAlone.AloneItDrains | crates/core/src/activity.rs:588-670 | from any state a client that nobody interrupts leaves exactly the events and files that one drain leaves, whatever is refused, deferred or stuck, and can list again |
| Watcher.WaitFor | src-tauri/src/activity.rs:94-98 | there is no timer exactly when nothing is pending, and one is five seconds |
| Watcher.NextWatched | src-tauri/src/activity.rs:128-169 | every step, failed removals and listings included, keeps: without a signal, the files the thread does not come back to are those its last drain overlooked |
| Watcher.BlockedOnTheOverlooked | src-tauri/src/activity.rs:128-169 | in every schedule, a thread that waits with neither timer nor signal has in its inbox exactly what its last drain could not remove or list and nobody took since |
| Watcher.BlockedOnAFullInboxIff | src-tauri/src/activity.rs:128-169 | so it waits that way on a file exactly when its last drain overlooked one that is still there |
| Watcher.NeverWaitsOnTheDeferred | src-tauri/src/activity.rs:128-169 | while its last drain deferred anything it has a timer, which leads to the next drain |
| Watcher.PendingIsPutOff | src-tauri/src/activity.rs:129-167 | in every schedule a thread that waits after a drain has a timer exactly when its last drain deferred or watches anything |
| Watcher.AFailedRemovalIsWaitedOn | crates/core/src/activity.rs:661-663 | a schedule in which it waits for good on a file whose removal failed |
| Watcher.AFailedListingIsWaitedOn | crates/core/src/activity.rs:591-598 | a schedule in which it waits for good on a file because the directory could not be listed |
| Watcher.NeverWaitsOnAFullInbox | src-tauri/src/activity.rs:128-169 | in schedules where listings and removals go through, the thread never waits with neither timer nor signal on an inbox that holds anything |
| Watcher.WakingListsEverything | src-tauri/src/activity.rs:139-159 | a signal leads a waiting thread to a drain that lists every file there is, and all signals there are spent on it |
| Watcher.LookingAgainListsEverything | src-tauri/src/activity.rs:107-110 | so does being asked to look again |
| Watcher.StopsAfterHangUp | src-tauri/src/activity.rs:139-149 | the thread stops only once the other end has hung up and no signal is left |
| Watcher.HungUpStops | src-tauri/src/activity.rs:139-149 | and then it does, at its next call |
| Watcher.ThereIff | src-tauri/src/activity.rs:128-169 | in every schedule a file is in the inbox exactly when it came and neither somebody else nor a drain that was done with it took it away since |
| Usage.IndexChildren | src-tauri/src/usage.rs:162-167 | the index lists exactly the children of each process, itself never |
| Usage.ClaimTree | src-tauri/src/usage.rs:169-186 | for any parent graph, cycles included, the search ends, claims only what is reachable, leaves nothing unclaimed below what it claimed, and its load is the total of what it newly claimed |
| Usage.ClaimSessions | src-tauri/src/usage.rs:188-192 | each session gets what is reachable from it and from none before it |
| Usage.ClaimBelow | src-tauri/src/usage.rs:204-207 | the webview gets what is below the app and unclaimed |
| Usage.Attribute | src-tauri/src/usage.rs:160-210 | sessions, host, main and webview get exactly the totals that reachability defines |
| Usage.PartsAddUp | src-tauri/src/usage.rs:157-210 | the parts sum to the union of the trees, plus the app's own process once more where it is below a session or the host |
| Usage.CountedOnceIff | src-tauri/src/usage.rs:157-210 | they sum to the union exactly when it is not |
| Usage.AppBelowASessionCountsTwice | src-tauri/src/usage.rs:197-203 | two processes counted as three: an app started from one of its terminals |
| Usage.LastListedCounts | src-tauri/src/usage.rs:161 | a process listed twice counts with what its last entry says |
| Usage.TotalWith | src-tauri/src/usage.rs:176-182 | a total is the sums of the listed processes' processor time and memory, and their number |
| Usage.TotalCounts | src-tauri/src/usage.rs:176-182 | in a total every listed process counts as one |
| UsageReport.FindWorkspace | src-tauri/src/usage.rs:386-390 | the row found is the workspace's, and none is found only when there is none |
| UsageReport.GroupTerminals | src-tauri/src/usage.rs:332-402 | every project, workspace and loose row holds exactly its own terminals, in order, and their sum; Yardsort's total is main, webview, host and all terminals |
| UsageReport.TerminalIsListed | src-tauri/src/usage.rs:355-402 | every terminal is listed under its own id with the load of its own process, with its workspace or among the loose ones |
| UsageReport.GroupingKeepsTheTotal | src-tauri/src/usage.rs:353-402 | the projects and the loose terminals together add up to all terminals |
| UsageReport.ReportIsTheUnion | src-tauri/src/usage.rs:330-402 | where the app is below no terminal and not the host, the report's total is the load of the union of the trees, each process once |
| OneCopy.OneHolder | src-tauri/src/one_copy.rs:66-82 | of any number of copies at most one has the profile |
| OneCopy.LockIsKept | src-tauri/src/one_copy.rs:71-79 | in every schedule the lock is taken exactly while the copy that took it clears what was left over or has the profile |
| OneCopy.ConcludedBy | src-tauri/src/one_copy.rs:70-97 | a copy that is through came to its result by the call that gives it: `Unguarded` by a lock or a write that failed |
| OneCopy.Concluded | src-tauri/src/one_copy.rs:70-97 | and a copy that made such a call has come to that, until it ends |
| OneCopy.RequestIff | src-tauri/src/one_copy.rs:72-105 | in every schedule there is a request exactly when nobody has answered or cleared what was asked last |
| OneCopy.LeftIff | src-tauri/src/one_copy.rs:36-42 | a copy's leaving flag is set exactly when it was told to leave while it had the profile |
| OneCopy.FlagRead | src-tauri/src/one_copy.rs:112-117 | a holder reads its flag as set exactly when it was told to leave before |
| OneCopy.LeavingAnswersNobody | src-tauri/src/one_copy.rs:96-110 | so no answer goes by a flag read after the holder was told to leave |
| OneCopy.AskedIsAnswered | src-tauri/src/one_copy.rs:72-117 | left to themselves, a holder that stays shows its window and takes the request away, and the copy that asked gives way to it |
| OneCopy.ShownOnRequest | src-tauri/src/one_copy.rs:101-105 | a window is shown only after somebody asked |
| OneCopy.StuckIsLate | src-tauri/src/one_copy.rs:91-94 | a copy that came to `Stuck` had run out of time |
| OneCopy.ShownMeansShown | src-tauri/src/one_copy.rs:83-105 | with one copy asking at a time, one that looked and is told it was answered was answered since it asked by a holder that had not been told to leave when it read its flag and then showed its window |
| OneCopy.AFailedLookMissesTheWindow | src-tauri/src/one_copy.rs:88-90 | a schedule of one copy asking whose look at its request fails: it gives way, and no window was shown |
| OneCopy.ReturnsWithoutRequest | src-tauri/src/one_copy.rs:72-94 | in every schedule, when `claim` returns other than unguarded there is no request file exactly when there was none before its last call or that call went through; one that is there later is then another copy's, written since |
| OneCopy.ShownOrCleared | src-tauri/src/one_copy.rs:72-94 | with any number asking: answered that way by such a holder, or another copy cleared the request after it was made, or the look at it failed |
| OneCopy.TwoAtATimeCanMissTheWindow | src-tauri/src/one_copy.rs:72-90 | a schedule of two in which one is told it was answered and no window was shown |
| Text.Decimal | crates/core/src/changes.rs:656 | a printed number has digits only and its own value |
| Text.ParseDecimal | crates/core/src/changes.rs:656 | a 32-bit number is read back from its digits |
| Text.U32Iff | crates/core/src/changes.rs:656 | a number is read exactly from its digits, leading zeros and one plus sign allowed, if it fits in 32 bits |
| GitRecords.ParseNameStatus | crates/core/src/changes.rs:547-574 | the loop's changes are those of the recursive reading of the non-empty fields |
| GitRecords.NameStatusRoundTrip | crates/core/src/changes.rs:546-574 | change records come back from their printed form in order, old paths never taken for records |
| GitRecords.ParseNumStat | crates/core/src/changes.rs:633-659 | the loop's stats are those of the recursive reading |
| GitRecords.NumStatRoundTrip | crates/core/src/changes.rs:632-659 | line counts come back in order, binary files, renames and tabs in paths included |
| GitRecords.ColumnsRead | crates/core/src/changes.rs:633-659 | whatever a field's first two columns say are its counts; its path is the third, or the second of the two fields behind it, without which nothing more is read; a field of one column is passed over |
| GitRecords.WithStats | crates/core/src/changes.rs:661-672 | each change gets the first stat of its path, or keeps its own |
| GitRecords.FindOwn | crates/core/src/changes.rs:666 | the stat found first is the record's own when no earlier record has its path |
| GitRecords.JoinedOutputs | crates/core/src/changes.rs:546-672 | both outputs printed, parsed and joined give each distinct path its own kind, named by its letter, its old path and its counts |
| GitStatus.ReadRecords | crates/core/src/changes.rs:580-616 | the loop's changes are those of the recursive reading |
| GitStatus.ParseStatus | crates/core/src/changes.rs:577-619 | and they come sorted by path |
| GitStatus.SortedByPathIsSorted | crates/core/src/changes.rs:617 | sorting puts paths in order and keeps every path's changes in theirs |
| GitStatus.BeforeIff | crates/core/src/changes.rs:617 | paths are ordered by the first character in which they differ, a shorter one first |
| GitStatus.RecordReads | crates/core/src/changes.rs:589-615 | one printed record of each kind reads as what it means, spaces in its path included: deleted if either letter says so, else added, else modified |
| GitStatus.OnlyFourKindsAreRead | crates/core/src/changes.rs:589-615 | nothing is read from a record of any other kind or of too few fields |
| GitStatus.StatusRoundTrip | crates/core/src/changes.rs:576-619 | status records come back from their printed form, and sorting them by path loses none |
| ShellWords.SplitWords | src/lib/shellWords.ts:7-40 | the loop's words, or the open quote, are those of the recursive reading |
| ShellWords.RunQuoted | src/lib/shellWords.ts:45-49 | a printed word is read as that word and nothing else, whatever stands after it |
| ShellWords.SingleQuoted | src/lib/shellWords.ts:15-17 | between single quotes everything stands for itself |
| ShellWords.DoubleQuoted | src/lib/shellWords.ts:18-21 | between double quotes a backslash before anything but a quote or a backslash stands for itself |
| ShellWords.Backslashes | src/lib/shellWords.ts:25-27 | outside quotes a backslash takes whatever is behind it, and one at the end stands for itself |
| ShellWords.SpacesAreListed | src/lib/shellWords.ts:28-31 | words are parted at the white space and line ends that ECMAScript lists |
| ShellWords.SplitJoin | src/lib/shellWords.ts:42-51 | any list of strings, printed as a line and split, is the same list |
| ShellWords.SplitsApartIff | src/lib/shellWords.ts:13-39 | for a line that splits, splitting it and anything after a space is splitting the two apart exactly when it has no dangling backslash |
| ShellWords.ABackslashTakesTheSpace | src/lib/shellWords.ts:25-27 | a line that is one backslash, with a space and a word behind it: one word instead of two |
| Paths.Normalized | crates/core/src/activity.rs:829-843 | the loop's components are those of resolving the pieces in order |
| Paths.NormIsClean | crates/core/src/activity.rs:827-843 | no empty, `.` or `..` component is left |
| Paths.NormComposes | crates/core/src/activity.rs:827-843 | resolving `p/q` is resolving `q` from where `p` leads |
| Paths.NormOfLast | crates/core/src/activity.rs:831-841 | behind any path a component goes one further, `..` one back but not past a drive letter or the start, `.` and nothing stay |
| Paths.NormOfPiece | crates/core/src/activity.rs:831-841 | and so they do alone, from any base |
| Paths.DownAndUp | crates/core/src/activity.rs:833-838 | going into a directory and back up leads nowhere else, unless it looks like a drive letter |
| Paths.NormOfUps | crates/core/src/activity.rs:833-838 | so many `..` lead as many components up, to the start and no further |
| Paths.UpAndOut | crates/core/src/activity.rs:786-819 | a relative path that goes up as far as the root is deep is answered exactly if what comes then begins with the root again |
| Paths.ExtendsPlain | crates/core/src/activity.rs:800-813 | under a root with no drive letter a location is inside exactly when it begins with the root, case and all |
| Paths.ExtendsUnderDrive | crates/core/src/activity.rs:800-813 | under one the root's components are compared without the case of ASCII letters |
| Paths.LocationOfRooted | crates/core/src/activity.rs:795-799 | a path that starts at a separator or a drive letter leads where it leads whatever the workspace, and no other does |
| Paths.AnswerIsSuffix | crates/core/src/activity.rs:786-819 | a path is answered exactly when the resolved location extends the root, and the answer spells out what is beyond it |
| Paths.SameAnswerSamePlace | crates/core/src/activity.rs:814-818 | equal answers mean equal resolved suffixes |
| Paths.ReadingAgainIff | crates/core/src/activity.rs:790-825 | an answer read again is itself exactly when it does not look absolute or the root is empty |
| Paths.LooksRooted | crates/core/src/activity.rs:821-825 | an answer looks absolute exactly when its first component is a drive letter with more behind it |
| Paths.ADriveLikeAnswerIsNotReadAgain | crates/core/src/activity.rs:821-825 | `./C:/x` in `/work` is answered `C:/x`, which is then outside |
| Timestamps.CivilCountsDays | crates/core/src/activity.rs:872-882 | for every date of every year the closed form is the count of days by month and year lengths |
| Timestamps.IsoToMsByCalendar | crates/core/src/activity.rs:848-884 | every UTC timestamp is read as days by the calendar, time of day and the fraction cut to milliseconds |
| Timestamps.ReadIffCapitals | crates/core/src/activity.rs:849-853 | a timestamp is read exactly when its letters are capitals |
| Timestamps.OtherOffsetsAreRefused | crates/core/src/activity.rs:849-852 | a time with an offset other than zero is refused |
| Timestamps.I64Iff | crates/core/src/activity.rs:854-862 | a part of the date or the clock is read exactly from a sign, if any, and digits, if it fits in 64 bits |
| Timestamps.FractionReadIff | crates/core/src/activity.rs:863-871 | behind a date and a clock, a timestamp is read exactly when the first three characters of its fraction are digits |
| Timestamps.NextDayIsNext | crates/core/src/activity.rs:872-882 | the next day is one further across every month, leap-year and century boundary |
| Timestamps.ADayApart | crates/core/src/activity.rs:848-884 | consecutive days read 86,400,000 apart |
| Timestamps.LaterIsHigher | crates/core/src/activity.rs:872-882 | a later date has a higher day number |
| Timestamps.ReadingIncreases | crates/core/src/activity.rs:848-884 | reading is strictly increasing |
| Saving.NextSafe | crates/core/src/changes.rs:399-466 | every step of a save or a write from outside keeps what the comparisons established |
| Saving.DoneIff | crates/core/src/changes.rs:408-466 | in every schedule a save has failed exactly when some step refused it: no text, another text on disk at either comparison, or a check or call that failed; and succeeded exactly when it replaced the file |
| Saving.LockedIff | crates/core/src/changes.rs:407-411 | the lock is held by the one save that is under way and by nobody else: one that has come to its end, well or not, has let go of it |
| Saving.OnlyTextIsSaved | crates/core/src/changes.rs:412-417 | nothing over a mebibyte or with a NUL in it is ever saved |
| Saving.FailedSaveChangesNothing | crates/core/src/changes.rs:445-464 | in every schedule, none of the steps of a save that has not succeeded changes the file |
| Saving.ReplacesExpectedOrOutside | crates/core/src/changes.rs:433-464 | a successful save leaves its text; it replaced the expected one exactly when nothing outside wrote after its last comparison, or the last to write wrote that |
| Saving.BothSavedMeansRestored | crates/core/src/changes.rs:407-411 | two saves from one baseline both succeed only if something put the baseline back between them |
| Saving.AWriteInTheGapIsLost | crates/core/src/changes.rs:452-464 | a schedule in which an outside write is replaced by a successful save |
| LatestAnswer.Loader.Begin | src/stores/tasks.ts:265-277 | a request goes out unless an entry with the stamp is loading or free of error; the entry is loading from then on and keeps its value |
| LatestAnswer.Loader.Settle | src/stores/tasks.ts:286-289 | only the latest request's answer or failure changes the entry |
| LatestAnswer.LoadGoesOut | src/stores/tasks.ts:265-277 | a forced load, or one under a new stamp, goes out as the key's next request, and the value stays until it is answered |
| LatestAnswer.ReplyIsTaken | src/stores/tasks.ts:278-290 | in every interleaving the reply to a request on its way is taken, for good |
| LatestAnswer.EntryIsLatest | src/stores/pullRequests.ts:196-221 | in every interleaving an entry is loading exactly while its latest request is unanswered, and then holds that answer or failure under that request's stamp |
| LatestAnswer.OlderAnswerIsDropped | src/stores/pullRequests.ts:223-247 | an older request's answer changes nothing shown |
| LatestAnswer.NeverOlder | src/stores/pullRequests.ts:249-273 | what is shown never goes back to an older request's answer |
| LatestAnswer.ListLoader.Settle | src/stores/tasks.ts:242-253 | a list takes only its latest request's answer or failure |
| LatestAnswer.AskedCount | src/stores/tasks.ts:242-253 | a project's requests are numbered as they are made |
| LatestAnswer.ListReplyIsTaken | src/stores/tasks.ts:242-253 | the first reply to a request that was made is taken, for good |
| LatestAnswer.ListIsLatest | src/stores/publish.ts:175-195 | once its latest request is answered a list shows that reply, and it never goes back to an older request's |
| Terminals.TerminalStore.Hydrate | src/stores/terminals.ts:120-133 | sessions without a tab get one, and workspaces that show nothing show their first |
| Terminals.TerminalStore.Adopt | src/stores/terminals.ts:151-159 | a session's tab is there once and is shown |
| Terminals.TerminalStore.Close | src/stores/terminals.ts:161-174 | the tab goes, and a workspace that showed it shows the one that took its place, or none |
| Terminals.TerminalStore.CloseWorkspaces | src/stores/terminals.ts:177-183 | the tabs of the workspaces go, and what they showed |
| Terminals.TerminalStore.Activate | src/stores/terminals.ts:209-217 | a known tab becomes the one its workspace shows |
| Terminals.TerminalStore.MarkExited | src/stores/terminals.ts:218-221 | the tab's exit is set, or kept for a tab to come |
| Terminals.HydrateShowsAll | src/stores/terminals.ts:120-133 | the tabs there stay, behind them comes one for each session with a workspace and no tab, with its exit or the one that overtook it; a workspace goes on showing what it shows, or shows the first of its new tabs |
| Terminals.AdoptShows | src/stores/terminals.ts:151-159 | a session with a workspace has its tab, at the end if it is new, and its workspace shows it; one without changes nothing |
| Terminals.CloseGivesWay | src/stores/terminals.ts:161-174 | the tab goes and the others stay in order; a workspace that showed it shows the next of its tabs behind it, or else the last before it, or nothing |
| Terminals.CloseWorkspacesCloses | src/stores/terminals.ts:177-183 | exactly the tabs of the workspaces go, the others keep their order, and every other workspace goes on showing what it shows |
| Terminals.ActivateShows | src/stores/terminals.ts:209-217 | the workspace of a known tab shows it, and nothing else changes |
| Terminals.EarlyIff | src/stores/terminals.ts:218-221 | in every run an exit is kept for a session's next tab exactly when one came while it had none, and the last such is |
| Terminals.NextSafe | src/stores/terminals.ts:120-221 | every action keeps the invariant below |
| Terminals.EveryStateIsSafe | src/stores/terminals.ts:120-221 | in every reachable state tab ids are unique and a workspace shows a tab exactly when it has one, and then one of its own |
| Terminals.ExitStays | src/stores/terminals.ts:218-221 | an open tab's exit never goes back to none |
| Terminals.EarlyExitIsShown | src/stores/terminals.ts:71-90 | an exit told before its session has a tab is shown on the tab it gets, whatever comes between: that one if nothing else is told of the session, and always one that was told |
| Terminals.TheExitShown | src/stores/terminals.ts:77-90 | a tab shows no exit that its session was not told to have |
| Shortcuts.BindingError | src/lib/shortcuts.ts:41-51 | there is no problem exactly when every binding is allowed and no key is bound twice, and the problem named is one |
| Shortcuts.ValidKeyIff | src/lib/shortcuts.ts:32-40 | a key is allowed exactly when it is a letter other than c, v and s, a comma, a slash or an arrow, with Alt or without |
| Shortcuts.DefaultsAreAccepted | src/lib/shortcuts.ts:3-30 | the default bindings are accepted |
| Shortcuts.ReadSaved | src/lib/shortcuts.ts:78-102 | valid choices are kept unless an earlier command took their key, and the commands left for a default are the others |
| Shortcuts.FillDefaults | src/lib/shortcuts.ts:103-115 | a default is used only where its key was saved for no command |
| Shortcuts.ReadBindings | src/lib/shortcuts.ts:58-122 | for any saved text the bindings and whether there is a notice are those of the specification |
| Shortcuts.ReadIsAccepted | src/lib/shortcuts.ts:57-122 | whatever was saved, what is read is accepted |
| Shortcuts.SavedChoicesSurvive | src/lib/shortcuts.ts:57-115 | a valid saved choice survives unless an earlier command has its key, and no default takes any saved key |
| Shortcuts.NotUnderstoodIsMissing | src/lib/shortcuts.ts:87-92 | a saved value that is neither a valid key nor null is as good as none, but for the notice |
| Shortcuts.SavedIsReadBack | src/lib/shortcuts.ts:58-122 | accepted bindings that are saved are read back as they are, with no notice |
| Fence.FenceIsLeast | crates/core/src/code_note.rs:67-73 | the fence is the least of three or more backticks that is longer than every run in the excerpt |
| Fence.TrimEnd | crates/core/src/code_note.rs:61 | what is left is a prefix that ends in no newline, and only newlines were cut |
| Fence.ReadsBack | crates/core/src/code_note.rs:53-61 | whatever the excerpt and whatever follows, a CommonMark reader's content of the block is the excerpt without its trailing newlines, on lines of its own, and the fence that closes it is the block's last line |
| Fence.ReadsBackExactlyIff | crates/core/src/code_note.rs:53-61 | without its last line ending it is the excerpt itself exactly when that does not end in a carriage return |
| Fence.ACarriageReturnIsLost | crates/core/src/code_note.rs:61 | an excerpt that ends in a carriage return is read back without it |

## Left out

- ExitSafety.ExitRecordedOnce: the time of an interruption is not compared with its event's, because the code reads the clock once for the row and again for the event.
- OneCopy.ShownMeansShown: requires one copy asking at a time; `ShownOrCleared` is what holds without.
- Watcher.NeverWaitsOnAFullInbox: holds where listings and removals go through; `BlockedOnTheOverlooked` is what holds of every schedule.
- Fence.ReadsBack: is about the block from its fence on; an unclosed fence in what comes before it would change how the whole message reads.
- Session records (`end_session_by_pty_at`, `end_interrupted_sessions`), the other lifecycle events (`process.started` and the like), diagnostics counters and the pruning of old rows.
- Rows deleted with their workspace, clashes of random event ids, and the spool's and inbox's size limits with their counts of what was dropped.
- The file formats of spool and inbox and the agents' session files: an entry is readable or not, and a finished turn stands for any finite list of rows with fixed keys.
- Clocks are numbers handed to the steps. Thread sleeps are steps that may happen at any time.
- Loads are real numbers, without floating-point rounding; sampling, history and the final sort by memory are not modelled.
- Following Grok's session files is a number of watched files; the watcher's events to the window are not modelled, and the app's state is there when the watcher starts.
- Text is a sequence of characters: git output is taken as valid text, JavaScript strings as code points, and the size limit of a saved file counts characters. Numbers do not overflow 64 bits, and a timestamp's fraction is not cut inside a multi-byte character.
- `editable_path`, file permissions and the temporary file are checks and calls that may fail.
- A tab's title, busy and attention marks; `open`, `resume` and `fork` are the adoptions and closings they end in.
- The wording of errors and notices: a notice is there or not. Saved text that is not JSON, not an object, or has other keys is told apart, not parsed.
- The prompt around the fenced block.
- Tauri commands, generated bindings, remote access, updates, the installer and the user interface.

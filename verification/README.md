# A verified model of zedamigo's hard cores

zedamigo is a Terraform provider that manages QEMU virtual machines. Most of it drives
external commands; the logic that is easy to get wrong sits in a handful of self-contained
places. This project models those in Dafny and proves what they are for. Everything outside
the program (kernel, sshd, SFTP server, QEMU, clock, probe results, failing writes) is a
nondeterministic step, so each statement holds for every behaviour of it.

| file | what it models |
|---|---|
| `Qmp.dfy` | the QMP monitor: callers, listener goroutine, server and event consumer, in every interleaving |
| `Swtpm.dfy` | stopping a software TPM that a second process keeps restarting |
| `WaitUntil.dfy` | the deadline-driven probe loop, its outcome and its log pruning |
| `SshConnection.dfy` | who owns which connection of a jump chain when any step can fail |
| `Shell.dfy` | quoting a command line so that a POSIX shell reads the same words back |
| `RemoveAll.dfy` | the recursive delete over SFTP |
| `MonitorFile.dfy` | searching a growing file in chunks with two in-place buffers |
| `ErrorSearch.dfy` | breadth-first search of an error graph with sharing and cycles |
| `Tap.dfy` | the daemon that moves a TAP into a namespace while the provider reads it |
| `Lag.dfy` | the in-place update of a bond's members and addresses |
| `Undent.dfy` | removing common indentation from a text |
| `Forwards.dfy` | printing the port forwards and parsing them back |
| `Tailer.dfy` | time-stamped lines from many connections into one file |
| `Text.dfy`, `Wrappers.dfy` | searching, splitting and joining; values that may be missing |

`dafny verify dfyconfig.toml` checks the project.

## What the code does not do

Where the code and its comments, or the code and a natural expectation, differ, the model
follows the code and the exact condition is proved.

- `internal/cmd/monitor_file.go:91` searches all 128 bytes of `combined`, so bytes left over
  from earlier reads can be matched. Reports are sound for exactly those runs, truncations
  included, where no read fills less of `combined` (itself and the read before it, if that
  still counts) than the read before it did; on a file that only grows, where no read is
  shorter than the one two before it. On full reads the search is exact for patterns of length
  1 to 65 and for no other length.
- `internal/undent/undent.go:20-21` promises to remove any common leading whitespace. When an
  indent is incomparable with the shortest of the indents before it, nothing is removed. That
  depends on the order of the lines, and it is right only if some line is not indented or two
  indents start with different characters.
- `internal/socket/tailer.go:19` says a Sync comes after 100 lines; it comes after 101. `Close`
  succeeds although its Sync failed, and then leaves lines unsynced if there were any.
- `internal/provider/wait_until_resource.go:516` says the first entry of the list is attempt 1.
  It is exactly when attempt 1 finished; if attempt 1 was abandoned and attempt 2 finished, it
  is attempt 2. Attempt 1's logs are kept in either case.
- `internal/provider/tap_resource.go:340-366`: a look of a Read drops the resource exactly when
  "moved" was not read and the link has left the default namespace, so a move that falls
  between the looks drops a healthy TAP.
- `internal/provider/tap_resource.go:491-562` reads a request back exactly when what it
  asks for is a master other than the empty string, a state of up or down, and an IPv4 address
  whose prefix length has no leading zero. The schema and `Create` accept an empty master, any state and IPv6.
- `internal/provider/lag_resource.go:535-577`: an update does not enslave a recorded member
  that has left the bond, so the plan is read back exactly when its recorded members had not.
  A new address is sure to be read back exactly when the bond has no other address of the
  family and the new one, if it is of that family, is listed as planned.
- `internal/qmp/socket.go:210-215`: with nobody consuming events a waiting call can be answered
  exactly when nobody has subscribed or no event is in front of its response, and `Disconnect`
  can end exactly when the listener has no event to deliver.
- `internal/qmp/socket.go:218-220`: while the stream has not ended at most one command is in
  flight. Once it has ended, that stays so exactly when no further command is written, or one
  is and no call was waiting for its response at the end.
- `internal/provider/swtpm_resource.go:449-456`: a reported "stopped" speaks of the monitor. It
  leaves a live swtpm only when the first look, at the monitor, came upon an orphan, and every
  such orphan is left alone. A run to an orphan exists exactly from the worlds where not both
  processes are dead.

## Model

| member | source | states |
|---|---|---|
| Qmp.Pairing | internal/qmp/socket.go:191-285 | over every schedule of callers, listener, server, event consumer and `Disconnect`: a call ends with the response to its own command or with a failure; two calls never hold the monitor; while the listener lives at most one command is on its way, that of the waiting call |
| Qmp.InvariantAlways | internal/qmp/socket.go:191-285 | the invariant behind it survives every schedule from any state that has it |
| Qmp.CallerKeeps | internal/qmp/socket.go:233-285 | locking, writing, receiving and unlocking keep it: what is in flight is exactly the waiting call's command |
| Qmp.ServerKeeps | internal/qmp/socket.go:200-213 | answers, events and garbage on the wire keep it and leave the responses in flight unchanged |
| Qmp.ListenerKeeps | internal/qmp/socket.go:121-132 | reading a line, dropping or offering an event, the end of the stream, subscribing, disconnecting and draining keep it |
| Qmp.TwoOutstandingAfterScanError | internal/qmp/socket.go:218-220 | a schedule in which the bound of one command fails after a read error |
| Qmp.OneOutstandingUnlessEnded | internal/qmp/socket.go:233-271 | in every schedule in which the stream does not end, at most one command is in flight |
| Qmp.WritesAlone | internal/qmp/socket.go:236-243 | while the listener lives, a command is written with nothing else in flight and is then the only one |
| Qmp.OutstandingAfterEndIff | internal/qmp/socket.go:191-220 | for every schedule in which the stream ends: at most one command is outstanding exactly when none was written since, or one was and no call was waiting with its command in flight at the end |
| Qmp.EndedInFlight | internal/qmp/socket.go:218-243 | what is in flight after the end is what was then and what has been written since, in order |
| Qmp.EndsSomewhere | internal/qmp/socket.go:196-220 | every schedule that gets past the end has a step at which the stream ends |
| Qmp.NoListenerNoEvent | internal/qmp/socket.go:210-215 | without a subscriber no event is ever offered or received, in any schedule |
| Qmp.NoEventUnsubscribed | internal/qmp/socket.go:210-215 | in particular nobody is subscribed at first |
| Qmp.EventsDelayNothing | internal/qmp/socket.go:196-213 | without a subscriber, once the server has answered, listener steps alone (at most two a line and one more) and one rendezvous give the caller its own response, however many events come first, also when one is already parsed |
| Qmp.UnconsumedEventBlocks | internal/qmp/socket.go:215 | with an event on offer that is not consumed, no schedule moves the listener, completes a waiting call or lets a drain see the stream closed |
| Qmp.CanBeAnsweredIff | internal/qmp/socket.go:196-285 | with nobody consuming events or disconnecting, some schedule returns its own response to a waiting call exactly when nobody has subscribed or no event precedes the response; for every listener state, answered by the server or not |
| Qmp.ConsumerUnblocks | internal/qmp/socket.go:196-285 | with events being consumed, every waiting call can return its own response as long as the stream has not ended, however many events come first |
| Qmp.NewCallReturns | internal/qmp/socket.go:233-285 | from every reachable state with a free mutex and no event in the way, a new call can return its own response |
| Qmp.ClosedStreamFails | internal/qmp/socket.go:191-278 | a call that receives after the end of the stream gets a failure, not nothing, returns it, and leaves the stream closed |
| Qmp.ScanErrorDelivered | internal/qmp/socket.go:218-220 | a read error waits for a receiver or a drain before the stream is closed; the plain end closes it at once |
| Qmp.EveryCallReturns | internal/qmp/socket.go:191-285 | in every schedule past the end of the stream, every call made can return by steps of callers alone, whoever holds the mutex: with the outcome it had, else with a failure |
| Qmp.DisconnectStopsWriting | internal/qmp/socket.go:122-132 | after a disconnect no schedule writes another command |
| Qmp.EveryEventOnce | internal/qmp/socket.go:196-215 | from a subscription on, over every schedule without a disconnect, the events emitted are received once and in order, or are still at the listener or on the wire |
| Qmp.EventsFromSubscription | internal/qmp/socket.go:183-215 | what a subscriber has received is a prefix of what was emitted since |
| Qmp.DrainCanEndIff | internal/qmp/socket.go:122-132 | after a disconnect, some schedule without a consumer closes the response stream exactly when the listener has no event to deliver |
| Swtpm.MonitorFirst | internal/provider/swtpm_resource.go:423-427 | in every run of monitor and swtpm, the monitor seen dead and swtpm seen dead later: both are dead then and at every later point |
| Swtpm.SwtpmFirstIsNotEnough | internal/provider/swtpm_resource.go:423-424 | read in the other order, both can be seen dead while swtpm lives |
| Swtpm.RunIsLater | internal/provider/swtpm_resource.go:449-451 | what any number of spontaneous steps amounts to: a dead monitor stays dead, and a swtpm with a new PID needs a live monitor |
| Swtpm.SwTPM.WaitSwTPMGone | internal/provider/swtpm_resource.go:420-433 | the last poll, monitor first, decides: true exactly when it found neither, and then both are dead at one instant; false only after the time is over; always true when they were dead before; it ends |
| Swtpm.SwTPM.StopSwTPM | internal/provider/swtpm_resource.go:376-416 | on every exit, success means both processes dead at once; who is asked to terminate, monitor first; kills and errors come only after the time for that has passed; then a SIGKILL was not delivered, or every process found was sent one, one at least, and the last poll still found one alive |
| Swtpm.SwTPM.Escalate | internal/provider/swtpm_resource.go:397-413 | the same of the part that kills: monitor first, each by the PID just read |
| Swtpm.SwTPM.ReadSwTPM | internal/provider/swtpm_resource.go:352-479 | reconciles with the desired state: a first look that finds what is wanted is reported with nothing done; a monitor is started exactly where one is wanted and missing, once; a read for "running" then succeeds with the first look that finds swtpm alive with its socket, and fails only on a failed start or when no such look came until the time was over; success reports the desired state; "stopped" leaves a live swtpm only if the first look found an orphan |
| Swtpm.OrphanReachableIff | internal/provider/swtpm_resource.go:379-381 | a run to an orphan exists exactly from the worlds where not both processes are dead |
| Swtpm.SwTPM.Delete | internal/provider/swtpm_resource.go:280-305 | the directory goes only when both processes are dead; a failed stop keeps it |
| Swtpm.Live | internal/provider/swtpm_resource.go:173-305 | over every sequence of creates, reads and deletes of a resource: no process lives without its directory, and the last operation did what it is for unless a stop or a removal failed |
| WaitUntil.ClassifyProbe | internal/provider/wait_until_resource.go:327-336 | ready exactly when there is no error, not ready exactly for an error with a non-zero exit code, never abandoned |
| WaitUntil.Target.RunProbe | internal/provider/wait_until_resource.go:345-359 | bounded by its budget, which never ends early; result, timer or cancellation are recorded as what the select came upon; only a probe that finished is classified |
| WaitUntil.Target.PruneAttemptLogs | internal/provider/wait_until_resource.go:511-525 | drops the second entry of a list longer than keep + 1 and its directory, and nothing else; a failed removal still leaves the list |
| WaitUntil.PruneIsRetained | internal/provider/wait_until_resource.go:511-525 | pruning after each attempt in place is the same as keeping the first finished attempt and the `keep` latest of all of them |
| WaitUntil.SurvivingAfterPrune | internal/provider/wait_until_resource.go:479-524 | the directories that survive are those of the retained attempts and of all abandoned ones |
| WaitUntil.FirstKept | internal/provider/wait_until_resource.go:506-516 | attempt 1's logs survive in every history, finished or abandoned |
| WaitUntil.FirstEntryIff | internal/provider/wait_until_resource.go:516 | the list of finished attempts starts with attempt 1 exactly when that was not abandoned |
| WaitUntil.FirstEntryCanBeLater | internal/provider/wait_until_resource.go:516 | after an abandoned and a finished attempt it starts with attempt 2 |
| WaitUntil.Target.Round | internal/provider/wait_until_resource.go:408-481 | one round keeps outcome, list and target directories in agreement with the history, within its budget; an attempt abandoned without cancellation had the attempt timeout, or all that was left of the deadline if that is less or no attempt timeout is set |
| WaitUntil.Target.WaitForScript | internal/provider/wait_until_resource.go:396-504 | terminates; on every return the outcome and the surviving logs are those of the history; attempt k starts only if (k-1) intervals are less than the timeout; elapsed time is at most the timeout plus what passed outside probe budgets and sleeps; a timeout is never early; every attempt was given its time |
| WaitUntil.EndedMeans | internal/provider/wait_until_resource.go:433-455 | success exactly when the last probe was ready, and then no earlier one was; an execution error ends the wait exactly when it came on attempt 1 |
| WaitUntil.EveryAttemptGivenItsTime | internal/provider/wait_until_resource.go:408-423 | over a whole history: each attempt abandoned without cancellation lasted the attempt timeout or until the deadline |
| WaitUntil.UndecidedKinds | internal/provider/wait_until_resource.go:433-477 | the wait goes on exactly when no probe was ready and the first was not an execution error |
| WaitUntil.FinishedOrAbandoned | internal/provider/wait_until_resource.go:400-405 | finished and abandoned attempts partition the attempts by their kinds |
| WaitUntil.LastCompletedIsHighest | internal/provider/wait_until_resource.go:380-390 | the last completed attempt is the highest-numbered one that was not abandoned, 0 if none |
| WaitUntil.PaceIsProduct | internal/provider/wait_until_resource.go:489-494 | the pace used for the bounds is number of attempts times interval |
| SshConnection.SSHExecutor.Connect | internal/exec/ssh.go:108-161 | succeeds exactly when no step fails; whichever does, the open connections are exactly those held in the fields, none after a failure; an existing connection is reused untouched; no command runs |
| SshConnection.SSHExecutor.Dial | internal/exec/ssh.go:163-208 | all hops and the target, each through the one before, or nothing left open |
| SshConnection.SSHExecutor.Tunnel | internal/exec/ssh.go:210-222 | one more open connection, or the connections there were |
| SshConnection.SSHExecutor.CloseClients | internal/exec/ssh.go:224-228 | closes all of them, and each only when nothing open is tunnelled through it |
| SshConnection.SSHExecutor.Close | internal/exec/ssh.go:247-275 | nothing is open or held afterwards, whatever fails; the SFTP session ends before its connection, and that before the ones it is tunnelled through; an error is returned exactly if closing one of them failed |
| SshConnection.SSHExecutor.RequestAgentForwarding | internal/exec/ssh.go:333-346 | success means exactly one request on a connection not yet handed out |
| SshConnection.SSHExecutor.RunCommand | internal/exec/ssh.go:283-331 | exactly one command runs, last and on the held, open connection, when connecting and opening a session did not fail; otherwise none does |
| SshConnection.UseExecutor | internal/exec/ssh.go:108-275 | every sequence of uses of an executor keeps ownership and discipline; the last use did what it is for unless a step failed; nothing is open after a `Close`, whatever failed |
| SshConnection.RequestedOnce | internal/exec/ssh.go:130-144 | a disciplined log has at most one forwarding request per connection, and exactly one on those handed out with an agent |
| SshConnection.RequestedBeforeCommands | internal/exec/ssh.go:130-144 | every command comes after exactly one forwarding request on its connection |
| SshConnection.ChainInit | internal/exec/ssh.go:224-228 | the last of a chain carries no other connection, so closing from the end is safe |
| Shell.ShellJoin | internal/exec/ssh.go:801-808 | the line splits, by the POSIX Shell Command Language (XCU sections 2.2.1, 2.2.2 and 2.3), into exactly the command and its arguments |
| Shell.ReadQuotedArg | internal/exec/ssh.go:794-799 | a quoted argument is one word with the same characters: empty, with quotes, blanks or newlines |
| Shell.WordsUndoJoin | internal/exec/ssh.go:794-808 | the round trip for every list of words |
| Shell.ShellJoinInjective | internal/exec/ssh.go:801-808 | different word lists never give the same line |
| RemoveAll.Sftp.RemoveAll | internal/exec/ssh.go:554-575 | success removes exactly the path and its descendants, symbolic links as leaves, nothing for a missing path; failure means a call failed, touches nothing outside the subtree and keeps the path itself; it terminates |
| RemoveAll.RetryCompletes | internal/exec/ssh.go:554-575 | a success after any failed attempt leaves the tree that the first attempt was after |
| RemoveAll.ListedAll | internal/exec/ssh.go:562-571 | a directory's subtree is itself and what lies below its listed names |
| RemoveAll.DirectoryEmptied | internal/exec/ssh.go:563-572 | after all entries are gone the directory is empty, and removing it completes the subtree |
| RemoveAll.LeafSubtree | internal/exec/ssh.go:562-574 | nothing lies below a file, a symbolic link or a missing path |
| RemoveAll.PrunedWellFormed | internal/exec/ssh.go:554-575 | what is left is a tree: every entry still has its parent directory |
| MonitorFile.MonitorFileFor | internal/cmd/monitor_file.go:25-101 | the loop over the in-place buffers, for every sequence of polls: found exactly when a read delivered before the first failing poll shows the pattern, and then, if no read fills less than the one before, the pattern does occur since the last truncation; failed exactly when none does and some poll fails |
| MonitorFile.RunMeans | internal/cmd/monitor_file.go:36-98 | from any state of the scan, over every sequence of polls: found exactly when a read delivered before the first failing poll shows the pattern; failed exactly when none does and some poll is cancelled, fails to stat, fails to seek after a truncation or fails to read |
| MonitorFile.NothingMissed | internal/cmd/monitor_file.go:70-98 | with reads of at least length minus one, a run still waiting has not consumed the pattern since the start of the file or its last truncation |
| MonitorFile.ReportedByLastByte | internal/cmd/monitor_file.go:70-98 | the read that consumes the last byte of the first occurrence is the read that reports it, across read boundaries |
| MonitorFile.RunOnReads | internal/cmd/monitor_file.go:47-98 | a run is determined by its non-empty reads and by which of them follow a truncation |
| MonitorFile.SoundFrom | internal/cmd/monitor_file.go:59-98 | when no read fills less of `combined` than was filled before, a report of a NUL-free pattern is an occurrence in what was consumed since the last truncation |
| MonitorFile.SoundIffNonShrinking | internal/cmd/monitor_file.go:59-98 | and for every other sequence of read sizes and truncations some file is reported wrongly |
| MonitorFile.NonShrinkingWhenGrowing | internal/cmd/monitor_file.go:86-98 | on a file that only grows the condition is that no read is shorter than the one two before it |
| MonitorFile.ExactWithin65 | internal/cmd/monitor_file.go:29-98 | with full reads and a NUL-free pattern of length 1 to 65, reported exactly when it occurs |
| MonitorFile.MissesLength66To128 | internal/cmd/monitor_file.go:29-98 | for each length from 66 to 128 some occurrence is missed |
| MonitorFile.ExactIffUpTo65 | internal/cmd/monitor_file.go:29-98 | the lengths for which the search is exact are 1 to 65 |
| ErrorSearch.ContainsAny | internal/errchecker/checker.go:16-57 | terminates on every finite graph; true exactly when some reachable error's message contains some search string |
| ErrorSearch.ContainsNone | internal/errchecker/checker.go:62-103 | the exact negation on all inputs, nil error and empty list included |
| ErrorSearch.ExploredAll | internal/errchecker/checker.go:27-56 | a walk whose queue is empty has seen every reachable error |
| ErrorSearch.VisitKeeps | internal/errchecker/checker.go:35-53 | visiting an error and queueing what it wraps keeps the walk's invariant |
| Tap.ProgramConfigures | main_tap_mover_linux_amd64.go:146-214 | moving first, the commands leave the same link whatever it was before; it is the requested one exactly when the state is up, down or left open |
| Tap.TAP.MoveTAP | main_tap_mover_linux_amd64.go:146-214 | one status is written; "moved" exactly when no command failed, after the whole program; "error" exactly when one did, after a proper prefix of it |
| Tap.MoverKeeps | main_tap_mover_linux_amd64.go:112-214 | every mover step keeps the invariant of mover and reader |
| Tap.ReaderKeeps | internal/provider/tap_resource.go:334-372 | so does every step of a Read; in particular it saves what a configured link shows, or nothing |
| Tap.InvariantAlways | internal/provider/tap_resource.go:334-372 | hence every interleaving does, from any state that has it |
| Tap.MoverAndReads | internal/provider/tap_resource.go:321-400 | from creation on: at most one status; "moved" only for a link the whole program was run on, configured as requested exactly for a proper or open state; the state holds the request or what that link shows |
| Tap.FailedIff | main_tap_mover_linux_amd64.go:112-214 | over every schedule, an error is reported exactly if the mover gave up waiting or a command failed |
| Tap.ExitedStays | main_tap_mover_linux_amd64.go:112-214 | after its status the mover changes nothing any more |
| Tap.FailedLookEndsRead | internal/provider/tap_resource.go:344-372 | a look that fails ends the Read, with nothing saved and nothing dropped, until the next one |
| Tap.ReadsFaithfulIff | internal/provider/tap_resource.go:321-372 | in every interleaving every Read that keeps the resource finds the request, exactly when the request can be read back or can never be moved |
| Tap.ListedAsGivenIff | internal/provider/tap_resource.go:548-559 | an address is found as it was given exactly when it is IPv4 with a prefix length without leading zeros |
| Tap.WithoutZerosIs | internal/provider/tap_resource.go:548-559 | a prefix length is listed without its leading zeros, and never without its last digit |
| Tap.MovedReadFaithfulIff | internal/provider/tap_resource.go:491-562 | a Read after the move keeps the resource, and finds the request exactly when master, state and address can be read back |
| Tap.DropsIff | internal/provider/tap_resource.go:352-366 | a look drops the resource exactly when "moved" was not read and the link has left the default namespace |
| Tap.ReadCanDropHealthyTap | internal/provider/tap_resource.go:340-366 | a schedule in which that happens to a link that is being configured properly |
| Tap.TAP.CreateInPlace | internal/provider/tap_resource.go:261-313 | without a namespace, something is saved exactly when no command failed, looks included; the link then has the requested master and address and is up only if that was asked; what is saved is what the link shows, and the request exactly when that can be read back |
| Lag.StringsDifference | internal/provider/lag_resource.go:860-872 | the elements of the first list not in the second, in order |
| Lag.MembersAfterUpdate | internal/provider/lag_resource.go:552-577 | the members after an update: those before, minus recorded ones no longer planned, plus newly planned ones; with all recorded members in the bond, plus all planned ones |
| Lag.ReadsBackPlanIff | internal/provider/lag_resource.go:795-843 | the plan's members are read back exactly when the planned ones already on record were still in the bond |
| Lag.KeptAll | internal/provider/lag_resource.go:827-842 | the recorded set survives a read unchanged exactly when all of it is in the bond |
| Lag.KeptIn | internal/provider/lag_resource.go:827-842 | what is kept are the recorded members that are in the bond, no others |
| Lag.SecondUpdateIsQuiet | internal/provider/lag_resource.go:552-577 | an update to the recorded plan needs no member command |
| Lag.LAG.UpdateMembers | internal/provider/lag_resource.go:552-577 | releases, then enslaves, exactly the differences; interfaces in neither list are untouched even on failure |
| Lag.LAG.EnslaveMember | internal/provider/lag_resource.go:647-667 | success leaves the interface in the bond and up, in three commands; it fails exactly on a refusal or a missing interface; no other interface changes |
| Lag.LAG.ReleaseMember | internal/provider/lag_resource.go:671-682 | success leaves it without a master, and down if it was in the bond; a missing interface counts as released, and only a refusal is an error |
| Lag.LAG.ReconcileAddr | internal/provider/lag_resource.go:687-718 | the old address goes, with others of its family at most, the new one comes anywhere in the listing; it fails exactly on a refused command or a malformed new address, so a missing old one is tolerated |
| Lag.NewAddressReadBackIff | internal/provider/lag_resource.go:687-793 | a planned address is read back, wherever the kernel lists it, exactly when no other address of the family is there and the new one, if of that family, is listed as planned |
| Lag.ReaddressedHas | internal/provider/lag_resource.go:687-718 | the new address is there, the old one is not, nothing else has come and no other family has lost any |
| Lag.NoLeftover | internal/provider/lag_resource.go:535-549 | over both families: a changed address leaves nothing that is not planned, and what is planned is there |
| Lag.OtherFamilyUnchanged | internal/provider/lag_resource.go:535-549 | readdressing one family does not touch the other |
| Lag.LAG.ReadLAG | internal/provider/lag_resource.go:720-846 | unless a look fails: first address of each family without IPv6 link-local ones, recorded members still in the bond, null stays null |
| Lag.FirstIsRead | internal/provider/lag_resource.go:772-793 | an address attribute becomes the first address listed of its family, link-local IPv6 ones aside, and stays as given if there is none |
| Lag.LAG.Update | internal/provider/lag_resource.go:490-599 | the new members, addresses and recorded model for every plan and state; no address of a changed text is left over; the plan is read back exactly when its recorded members were in the bond; nothing outside plan and state changes whatever fails, and it fails exactly on a refused command, a malformed new address or a new member that does not exist |
| Lag.LAG.UpdateTwice | internal/provider/lag_resource.go:490-599 | when the first update read its members back, both together issue the member commands of the first and leave its links; when it read all of the plan back, the second reads the same and the addresses are those of one update |
| Undent.It | internal/undent/undent.go:29-70 | the loop's margin and its early exit give the line-by-line undenting, then the replacements in order |
| Undent.ReplaceAllIff | internal/undent/undent.go:62-67 | a replacement joins with the new text the parts between the occurrences of the old one, from the left and without overlaps; an empty old text occurs before every character and at the end |
| Undent.MarginIsCommon | internal/undent/undent.go:35-56 | the margin is a prefix of every non-blank line's indent and is empty or one of them |
| Undent.MarginIsLongestIff | internal/undent/undent.go:20-56 | it is the longest common indent exactly when no indent clashes with the shortest before it, or some line is not indented or two indents start differently; with a clash it is empty |
| Undent.ClashesIff | internal/undent/undent.go:42-55 | the loop gives up exactly when an indent is incomparable with the shortest of those before it |
| Undent.OrderMatters | internal/undent/undent.go:37-56 | three indents that lose a space in one order and nothing in another |
| Undent.LineByLine | internal/undent/undent.go:32-60 | blank lines become empty, every other line loses the margin and nothing else |
| Undent.UndentByLines | internal/undent/undent.go:29-60 | on text: the lines of the result are the lines undented, for every text |
| Undent.NoMarginLeft | internal/undent/undent.go:32-60 | the result has no margin and no blank line with spaces |
| Undent.Idempotent | internal/undent/undent.go:29-70 | without replacements, undenting twice is undenting once, for every text |
| Forwards.GvproxyForwards | internal/hypervisor/forwards.go:23-64 | the text: base port to 22, the next to 10022, the one after to 10080; it parses back, one entry per standard forward, exactly for guest addresses without comma and leading white space |
| Forwards.ParseForwards | main_gvproxy.go:37-63 | it fails exactly on an entry that is not blank and has not something on both sides of its first slash, and names the first such; otherwise the last entry for each host decides, and there is nothing else |
| Forwards.ParseMeans | main_gvproxy.go:41-62 | the same of the value it computes, for every input |
| Forwards.EntrySpelling | main_gvproxy.go:42-60 | white space around an entry and "tcp://" before it change nothing |
| Forwards.NoneBadIff | main_gvproxy.go:51-59 | there is no first bad entry exactly when all are good |
| Forwards.RoundTripIff | main_gvproxy.go:37-63 | the same round trip for any base port and any forwards with distinct offsets |
| Forwards.ExpectedIsOneToOne | internal/hypervisor/forwards.go:58-64 | as many entries as forwards, each under its own key |
| Forwards.DecimalInjective | internal/hypervisor/forwards.go:61 | different numbers print differently, negative ones included |
| Forwards.DecimalValue | internal/hypervisor/forwards.go:61 | the digits printed stand for the number, after a sign for a negative one |
| Forwards.ParsedValuesClean | main_gvproxy.go:42-60 | no parsed guest contains a comma or starts with white space, whatever the input |
| Forwards.HostPortsInRangeIff | internal/provider/edge_node_resource.go:356 | all host ports of all generated SSH ports are at most 65535 exactly for random ranges up to the 55534 used |
| Socket.Tailer.constructor | internal/socket/tailer.go:128-140 | a new tailer is open and empty; a file starts with a full gauge |
| Socket.Tailer.WriteLine | internal/socket/tailer.go:38-72 | for every outcome of write and Sync: the bytes added, the error, gauge, unsynced lines; a closed tailer changes nothing; gauge and unsynced lines make 100 unless a Sync failed or a Close synced |
| Socket.Tailer.Close | internal/socket/tailer.go:99-125 | closes unless closing the file fails; a successful close of a file leaves nothing unsynced exactly when its Sync succeeded or nothing was |
| Socket.Serve | internal/socket/tailer.go:193-212 | over every interleaving of connections and closes: each turn of a connection hands over its next line, and no line comes from elsewhere; the tailer is closed exactly when some step closed it, and then nothing is appended; with writes and syncs succeeding the file stays untorn and in step |
| Socket.UntornIsMerge | internal/socket/tailer.go:46-55 | an untorn file is whole lines, and dealing each to its owner gives every connection a prefix of its lines, all it handed over while the file is open, with no line left over |
| Socket.OwnedIsKept | internal/socket/tailer.go:46-55 | the entries a connection owns are its lines written whole, in order |
| Socket.ReadsBack | internal/socket/tailer.go:46-55 | the text reads back as exactly the time stamps and lines written whole, in order |
| Socket.InStepMeans | internal/socket/tailer.go:61-71 | in step: gauge plus unsynced lines is 100, and the unsynced lines are those since the last multiple of 101 |
| Socket.SyncsEvery101 | internal/socket/tailer.go:61-71 | the gauge after n lines, hence a Sync after every 101 |
| Socket.ScannedPlain | internal/socket/tailer.go:199-203 | a scanned line contains no newline |
| Socket.ScanLinesIff | internal/socket/tailer.go:199-203 | the lines handed over are the only sequence that, each with what was dropped after it put back, makes up the bytes read in order: a newline that only the last may lack, and a "\r" right before it or before the end |

## Left out

- QMP: modelled as steps on values rather than as a class, since the interleaving of goroutines is what is proved; the server is taken to answer each command once and in order. A failed write delivers nothing. The handshake, its decoder's read-ahead, the scanner's buffer reuse and its line limit, and file passing are not modelled.
- Swtpm: PID reads are taken as truthful, so stale PID files and reused PIDs are outside; a signal asks for nothing but what the world may do anyway, so that a killed process goes in time is not assumed, and one that was sent SIGKILL may still act until it goes. The source's one stop function is split into its parts.
- WaitUntil: an attempt's log directory exists once the attempt was launched; output tails, log texts and the summary file are left out. The source's single loop is split into `Round` and `WaitForScript`. Interval and timeout validation happens before (the interval is positive).
- SshConnection: one caller at a time, as under the executor's mutex; keepalives, and commands that race with `Close`, are left out. Every connection counts as open until the executor closes it. What the source does with a new connection in `conn` is split off as `Prepare`.
- Recursive delete: no concurrent change of the tree; a call whose effect happened but whose reply was lost is not modelled.
- Shell: expansions are not modelled; an unquoted character with a meaning of its own makes the reader give up, which never happens on a printed line.
- MonitorFile: a poll's stat and read are one observation; exactness is stated for a file that only grows.
- ErrorSearch: errors are comparable values (an uncomparable one panics as a map key) and a joined error holds no nil entry.
- Tap: owner, group, MTU and deletion are left out; the status file is written in one step; a master is given by its own name; the only word besides up and down that sets a link without an argument is taken to be `nomaster`.
- Lag: MTU, MAC address, bond state and the parsing of `ip` output are left out; `ip` output is a list of records, how a text is understood as an address is a parameter, and a failed command changes nothing. An interface that has moved under another master is taken to keep its state when released.
- Undent: the regular expressions are modelled by what they do to a line; `Md` is one call of `It`.
- Forwards: the QEMU "-nic" string and the descriptions are printers without a reader here.
- Socket: the clock is a parameter without newline and bracket, as its format prints it; accepting connections, the PTY and client modes, logging and the scanner's line limit are left out.
- Terraform schemas and plan modifiers, the host reservation allocator, the DHCP, DNS and router advertisement servers, and the races of `RunMatch` are left out.

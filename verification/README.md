# docker-update: a verified model of its state protocol, actions and store

docker-update (formerly hmi-update, the prefix of its labels) watches the compose services of one host, polls their registries, and on request updates a service, rolls
it back, or pulls its image. This project models the parts whose correctness is not visible in any one function and
proves what they promise.

| file | subject |
|---|---|
| `Schema.dfy`, `Messages.dfy` | the state document, the closures that travel on the update channel, and facts about every message log |
| `RowFacts.dfy` | each field of a row after any log, in the messages' own terms |
| `Scripts.dfy` | what one action body can send, as a grammar and as an automaton; the spinner |
| `LockService.dfy` | the per-service try-lock, one atomic step at a time, for any number of threads |
| `Protocol.dfy` | the whole system: action bodies under locks, discovery events, poll sweeps, one consumer, cancellation, dropped sends |
| `Updater.dfy` | the consumer loop itself |
| `Reboot.dfy` | the spinner across a crash and the boot after it |
| `Durable.dfy` | the write-through store: a machine that crashes anywhere, and the store's methods |
| `Daemon.dfy` | the docker daemon: any answer to any question, truthful changes, every exchange recorded |
| `Recreate.dfy`, `Translate.dfy`, `Replaced.dfy` | replacing a container; networks, aliases, labels; what is kept, field by field |
| `RollbackTarget.dfy`, `Fallback.dfy` | how Rollback chooses its target |
| `Actions.dfy` | Update, Rollback and ForcePull against that daemon |
| `RollbackChain.dfy` | rolling back repeatedly, and back and forth |
| `PullStream.dfy`, `Verify.dfy`, `ImageRef.dfy`, `Backoff.dfy` | the pull stream, the verify loop, image references, reconnect backoff |
| `Text.dfy` | string and list helpers |

`dafny verify dfyconfig.toml` checks everything.

## How the pieces fit

`Scripts.BodyScript` is the hinge. The methods of `Actions` are proved to send, whatever the daemon answers, a script
that satisfies it; `Protocol` lets every thread that enters a body send any such script, message by message,
interleaved with everything else. So what is proved of all runs of `Protocol` covers the bodies of `Actions`. In the
same way `Messages` proves its facts for arbitrary logs, and `Protocol` only has to show that the consumer's log is
one. `Recreate.Trail` records what a recreate did, and `Recreate.Outcome` is the list of documented endings that every
record satisfies.

## Assumptions

- A send is dropped when the context is done. `Protocol` has that step and remembers the service in `lost`; whole blocks
  and the settling of the spinner are stated for services that lost nothing, and `Protocol.TrafficIsDelivered` and
  `Protocol.SpinnerShowsTraffic` say what holds for all of them.
- At boot every row of the document sits under its own service name (`Keyed` in `Protocol.Init`); the runs keep it so.
- The queue is unbounded. A bounded channel only removes interleavings.
- A body reads the store once. Its snapshot may be behind the queue: the lock is released while the last messages of
  the previous action may still be waiting. Nothing in `Protocol` assumes a fresh snapshot; `RollbackChain` does, and
  says in `Follows` which applied messages make it fresh.
- `Store.Get` is an atomic value snapshot; the source returns a struct that shares the map.
- Daemon reads may fail or answer anything, also inconsistently. A change that succeeds has its effect, one that fails
  has none, and joining a network adds the container's short ID as an alias.
- JSON decoding inverts encoding on documents with a map that is not nil (`Durable.Faithful`).
- An unstable sort may put any of the newest candidates first.
- Clocks, tickers and build-time parsing are observations: `Verify.Tick`, `Updater.Round`, an optional instant.

## Where code and promise differ

Each difference has a concrete input and an exact condition.

- With the healthcheck label set, verify waits for health if and only if the asked-for count of ticks takes longer than
  the healthcheck window and three ticks (`Verify.WaitsForHealthIff`). With the shipped 15 s, 1 s and 60 s it does not
  (`Verify.DefaultsDoNotWait`): a container that stays "starting" passes by count (`Verify.StartingForeverIsVerified`),
  although the comments speak of a 60 s window.
- An Update leaves the digest that was running on record if and only if `Messages.RecordsRunning` holds
  (`Messages.SwapRecordsRunningIff`, `Protocol.UpdateRecordsRunningIff`). It fails for an unknown digest: the repository
  name is recorded (`Messages.UnknownDigestRecordsRepository`); the comment calls it the local image ID.
- A discovery upsert replaces the current digest without touching `UpdateAvailable`, so the flag can stay raised for
  the digest that is running (`Messages.UpsertLeavesFlagStale`). `Messages.FlagExact` gives the exact condition.
- The fallback's downgrade filter is off when the running image's build time lies at or before Unix second 0, not
  only when it is unknown. Its answers pass Rollback's own gate exactly otherwise (`Fallback.GateAgreesIff`,
  `Fallback.GateRefusesWithoutProviso`).
- Two rollbacks can undo each other if and only if both targets pass the gate: the build time on the row is unknown, or
  the target's is unreadable, or older (`RollbackChain.PingPongIff`). With true, readable build times they cannot
  (`RollbackChain.NoPingPongWhenInformed`).
- A document of which `Store.Update` returned nil survives a process crash; it survives a power cut if and only if the
  file already held it at the last directory sync, as it does if nothing was renamed since
  (`Durable.NilSurvivesPowerLossIff`, `Durable.NilIsNotPowerProof`).
- ActionInFlight is persisted and not cleared at boot, so a crash in the middle of an action leaves the spinner up until
  the next action of that service brings its Result (`Reboot.SpinnerAfterReboot`, `Reboot.SettledAfterReboot`;
  `Reboot.CrashLeavesSpinner` gives the runs).
- Printing and parsing an image reference loses the pair exactly for references with `@` or a trailing `:`
  (`ImageRef.RoundTripIff`).

## Model

| member | source | states |
|---|---|---|
| `Protocol.InvKept` | internal/poll/channel.go:136-161 | every step of every producer, lock, consumer or shutdown keeps the joint invariant of bodies, runs, rows, traffic, order and channel |
| `Protocol.RunInv` | internal/poll/channel.go:136-161 | the invariant holds at every state of every run |
| `Protocol.TrafficIsScripts` | internal/actions/orchestrator.go:320-967 | one block per action: in every run, the action traffic of a service that lost no send is the whole scripts of its finished bodies, in lock order, followed by the part of its script that the body under way has sent |
| `Protocol.TrafficIsDelivered` | internal/actions/orchestrator.go:240-245 | with dropped sends, it is what those bodies delivered, body after body, each in the order of its script |
| `Protocol.TrafficIsBlocks` | internal/actions/orchestrator.go:333-509 | in every run, the action messages of a service that lost no send are finished Start..Result blocks, with at most the last one open, and open only while a thread is in that body |
| `Protocol.SpinnerSettles` | internal/actions/orchestrator.go:1259-1276 | when the queue is empty and nobody holds the service's mutex, the row of a lossless service is idle if and only if it was idle at boot or an action of it has run since |
| `Protocol.SpinnerShowsTraffic` | internal/actions/orchestrator.go:240-245 | at every moment of every run, also with dropped sends and from any boot document, ActionInFlight is the last applied Start without a Result, or the boot value before the first Start or Result |
| `Protocol.RowsKeepTheirKeys` | internal/docker/discovery.go:596-658 | over every run no row disappears and each row's Service equals its key, though the poller addresses rows by stale snapshots |
| `Protocol.PreviousStableBetween` | internal/poll/poller.go:401-438 | between two states of a run the rollback target and its dates are the same unless a swap of that service was applied in between |
| `Protocol.UpdateKeepsRollbackTarget` | internal/actions/orchestrator.go:444-475 | after an Update's swap from a known to a different digest the old digest, swap time and build time stay on record until the next swap, whatever verify, events and polls do |
| `Protocol.UpdateRecordsRunningIff` | internal/actions/orchestrator.go:444-475 | over every run, exactly when an Update's swap leaves the digest that was running on record |
| `Protocol.RollbackKeepsWayBack` | internal/actions/orchestrator.go:792-823 | over every run, after a Rollback's swap from a known digest to any other target the way back and its two dates stay on record until the next swap |
| `Protocol.RollbackRunsTarget` | internal/actions/orchestrator.go:800-822 | over every run the target is the running digest until the next swap or upsert |
| `Protocol.UpdateRunsPulled` | internal/actions/orchestrator.go:461-474 | the same for an Update and the pulled digest |
| `Protocol.AvailableIsLastBrought` | internal/poll/poller.go:404-431 | at every moment of every run the available digest is the one the last applied poll or ForcePull result brought |
| `Protocol.FifoExactlyOnce` | internal/poll/channel.go:136-161 | applied log plus buffer is the record the producers alone wrote, which only grows at its end; the document is what its applied part makes |
| `Protocol.ProducersKeepOrder` | internal/poll/poller.go:278-330 | in that record a thread's messages are what its bodies delivered in script order, and a sweep's start and end marks enclose its polls |
| `Protocol.AppliedInProducerOrder` | internal/poll/channel.go:136-161 | the log is a prefix of the record, so of each producer's messages a prefix in its own order has been applied |
| `Protocol.SweepsSpeakOfEligibleRows` | internal/poll/poller.go:337-358 | over every run a sweep speaks only of rows its snapshot showed eligible: pinned ones get the opt-out note, and only unpinned, running ones with an image are polled |
| `Protocol.ReturnsDrained` | internal/poll/channel.go:139-153 | the consumer returns only after cancellation and with everything sent so far applied, and applies nothing later |
| `Protocol.RunGrows` | internal/poll/channel.go:136-161 | log, sent record, finished bodies and key set only grow along a run, and a returned consumer applies nothing more |
| `Protocol.CanLeaveUnfinished` | internal/actions/orchestrator.go:320-375 | from every keyed document with the row there is a run to an applied Start without a Result |
| `Updater.Consumer.TakeOne` | internal/poll/channel.go:155-159 | one message moves from the head of the buffer to the end of the applied log and into the document |
| `Updater.Consumer.Drain` | internal/poll/channel.go:139-153 | draining ends with an empty buffer, with late arrivals applied too, none lost or reordered |
| `Updater.Consumer.Run` | internal/poll/channel.go:136-161 | for every arrival pattern and shutdown moment, applied plus buffer is exactly the start plus the arrivals in order; it returns only after the context is done, on an empty buffer |
| `Reboot.SpinnerAtReboot` | internal/state/store.go:45-93 | after a crash anywhere, a boot shows the action that was unfinished in the part of the traffic renamed into place |
| `Reboot.SpinnerAfterReboot` | internal/actions/orchestrator.go:1259-1276 | after it, at every moment, the row is idle exactly if no new action is unfinished and the crash left none or a new one has had its turn |
| `Reboot.SettledAfterReboot` | internal/actions/orchestrator.go:1259-1276 | both runs and the crash together, at rest: idle exactly if the crash left no action behind or one has run since |
| `Reboot.CrashLeavesSpinner` | internal/state/persist.go:36-59 | from every keyed document with an idle row there are a run, a crash and a boot that comes up with the row spinning |
| `Reboot.CanStartAgain` | internal/state/store.go:45-93 | the document found after such a crash is keyed and starts a second run |
| `Scripts.ScriptIsBlock` | internal/actions/orchestrator.go:333-509 | everything one body sends leads the automaton from outside a block back to outside, and concerns its own service |
| `Scripts.AcceptedIsBlocks` | internal/actions/orchestrator.go:542-854 | traffic the automaton accepts is a sequence of finished blocks followed by one open block that fits its phase |
| `Scripts.SpinnerExact` | internal/actions/orchestrator.go:1259-1276 | after any log and from any document ActionInFlight is the last Start without a Result, or the old value if there was neither |
| `Scripts.IdleExact` | internal/actions/orchestrator.go:1259-1276 | the row is idle exactly if no action is unfinished and it was idle before or an action has had its turn |
| `Scripts.UnfinishedIsOpen` | internal/actions/orchestrator.go:887-953 | in accepted traffic an action is unfinished exactly while a block is open, and it is that block's action |
| `Messages.RowsSurvive` | internal/docker/discovery.go:635-658 | no message log deletes a row |
| `Messages.PreviousOnlyBySwap` | internal/docker/discovery.go:558-577 | a log without swaps of a service leaves its PreviousDigest and both dates alone |
| `Messages.OldDigestStaysRecorded` | internal/actions/orchestrator.go:444-475 | any log around one Update swap and no later one leaves the old digest recorded |
| `Messages.SwapRecordsRunningIff` | internal/actions/orchestrator.go:444-475 | for every row, snapshot and surrounding log, exactly when the recorded rollback target is the digest that was running |
| `Messages.UnknownDigestRecordsRepository` | internal/actions/orchestrator.go:446-449 | the failing case on one row: the repository name is recorded |
| `Messages.FlagExact` | internal/poll/poller.go:404-437 | with both digests known, UpdateAvailable means "current differs from available" if and only if the last touching message settles it: always for polls, Rollback swaps and ForcePull, for an Update swap if it went to the recorded available digest, for an upsert if the flag already fitted |
| `Messages.UpsertLeavesFlagStale` | internal/docker/discovery.go:561-576 | a concrete log after which the flag is raised although current equals available |
| `Messages.UnknownCurrentFlag` | internal/poll/poller.go:404-437 | with the current digest unknown, after any polls the flag is up exactly if the digests seen were not all equal |
| `Messages.LastUpsertDescribes` | internal/docker/discovery.go:558-658 | whatever follows it, the last upsert determines service, image, tag, labels, pin and build time; the row is stopped exactly if a stop or removal followed, without container ID exactly if a removal did |
| `Messages.CurrentFromUpsert` | internal/docker/discovery.go:558-577 | after the last upsert the running digest is the one it brought, as long as later swaps go there too |
| `Messages.PersistentNoteStays` | internal/poll/poller.go:544-564 | a pinned or misconfigured note survives every mix of registry errors and successful polls |
| `RowFacts.AvailableIsLastBrought` | internal/poll/poller.go:404-431 | after the last poll or ForcePull result of a service, in any log, the available digest is the one that message brought |
| `RowFacts.PollTimesAreLast` | internal/poll/poller.go:407-409 | after the last poll its two times stand |
| `RowFacts.FlagAfterBrought` | internal/poll/poller.go:429-436 | right after such a message, with the running digest known, the flag is up exactly if that digest differs from the one brought |
| `RowFacts.UpdateMovesToPulled` | internal/actions/orchestrator.go:461-474 | after an Update's swap the running digest is the pulled one until the next swap or upsert |
| `RowFacts.RollbackMovesToTarget` | internal/actions/orchestrator.go:800-822 | after a Rollback's swap it is the target, wherever that came from |
| `RowFacts.UpdateRecords` | internal/actions/orchestrator.go:444-475 | what an Update's swap leaves on record until the next swap, in all cases: running digest or else repository name, swap time, build time; or nothing new |
| `RowFacts.RollbackRecords` | internal/actions/orchestrator.go:792-823 | what a Rollback's swap leaves on record, for every target: a known different running digest with swap time and build time, or nothing new |
| `RowFacts.UpdateLowersFlag` | internal/actions/orchestrator.go:472-472 | an Update's swap lowers the flag whatever is available |
| `RowFacts.FlagLeftAlone` | internal/actions/orchestrator.go:817-819 | with nothing to compare with, Rollback swap and ForcePull result leave the flag as it was |
| `RowFacts.NoteIsLastWord` | internal/poll/poller.go:460-564 | the note is what the last message about it says, standing and error notes told apart |
| `RowFacts.TurnClearsError` | internal/actions/orchestrator.go:362-376 | Start, Done and ForcePull result take the last error away until an action fails, and a Start shows its action's name |
| `RowFacts.MissingRowStaysMissing` | internal/docker/discovery.go:596-658 | only an upsert or a poller message makes a row; stops, removals and actions of an unknown service do nothing |
| `RowFacts.SweepTimesAreLast` | internal/poll/poller.go:278-326 | the document's poll times are those of the last marks, and a start clears the poll error |
| `Scripts.ErrorUntilPoll` | internal/poll/poller.go:493-498 | between actions ActionError stays through all traffic, except that a successful poll clears a pull error, and only that |
| `Scripts.FailureShown` | internal/actions/orchestrator.go:1259-1276 | what a failed action leaves on the row after any later traffic that is no action of the service |
| `LockService.InvKept` | internal/actions/mutex.go:72-105 | each atomic step keeps the reader/writer, map, mutex and counter invariants |
| `LockService.EntryIsForever` | internal/actions/mutex.go:78-89 | a service's mutex entry, once written, is never replaced or dropped |
| `LockService.MutualExclusion` | internal/actions/mutex.go:72-105 | whoever try-locks or holds a service's mutex has the one the map gives for it, and at most one thread holds it or is in the body |
| `LockService.BusyIsReal` | internal/actions/mutex.go:93-95 | a busy answer means another thread holds the mutex of that same service |
| `LockService.CounterIsExact` | internal/actions/mutex.go:100-104 | inFlight is never negative nor below the running bodies, exceeds them by the threads between unlock and decrement, and equals the held mutexes when no thread is in lock code |
| `LockService.OneBodyPerService` | internal/actions/mutex.go:91-104 | under the invariant, threads in different bodies have different services |
| `LockService.StepIsLocal` | internal/actions/mutex.go:72-105 | a step moves one thread, and a body is left only through the unlock closure |
| `Durable.InvKept` | internal/state/persist.go:36-59 | every file system step, failure, crash, power cut or boot keeps the file at one whole recorded document |
| `Durable.RebootYieldsPrefix` | internal/state/store.go:45-93 | after any run a boot decodes and yields the state after the last renamed Update, with the history cut there; the empty document only if no document was in place |
| `Durable.CorruptFileIsKept` | internal/state/store.go:66-70 | a file that does not decode is never reset |
| `Durable.NilMeansOnDisk` | internal/state/store.go:125-133 | whenever Update has returned nil, the file is the encoding of memory |
| `Durable.CrashAfterNilLosesNothing` | internal/state/store.go:125-133 | crash and reboot after a nil Update give the same document back |
| `Durable.PowerLossRecoversEarlier` | internal/state/persist.go:36-59 | a power cut goes back to an earlier whole document, not past the last synced one |
| `Durable.NilSurvivesPowerLossIff` | internal/state/persist.go:36-59 | exactly when the document of a nil Update survives a power cut: if the file already held it at the last sync, in particular if no rename came after that sync |
| `Durable.NilIsNotPowerProof` | internal/state/persist.go:36-59 | a concrete run: nil returned, and after a power cut and boot the Update is gone |
| `Durable.Store.Persist` | internal/state/persist.go:36-59 | the file becomes the encoding of memory, or is as before on error |
| `Durable.Store.Update` | internal/state/store.go:125-133 | memory always takes the mutation with a nil map repaired; the file follows exactly on nil |
| `Durable.Open` | internal/state/store.go:45-93 | a missing or empty file starts from the persisted empty document; one that cannot be read or does not decode is an error and untouched; a nil map is repaired |
| `Actions.Update` | internal/actions/orchestrator.go:320-519 | no-op exactly if current is the recorded available digest, and nothing happens then; otherwise sends a well-formed script, touches nothing unless pulled and registry digest agree, swaps exactly on a finished recreate of that service's newest container, and succeeds exactly if verify then does |
| `Actions.PullAndMove` | internal/actions/orchestrator.go:333-509 | the acting half of Update with the same promises |
| `Actions.UpdateSuccessIsVerdict` | internal/actions/orchestrator.go:1183-1253 | with a truthful last listing and a strictly newest new container, Update succeeds if and only if the verify loop verifies that very container |
| `Actions.Rollback` | internal/actions/orchestrator.go:533-864 | never contacts the registry; touches nothing when the compose file moved or the row is missing; no-op if and only if the stored digest was found, is the running one and the peek found nothing else; work only for a target other than current that the gate let through by its own inspection |
| `Actions.RollbackIsSafe` | internal/actions/orchestrator.go:553-764 | for arbitrary, also contradictory, answers: offline, no-op exactly if stuck at current with an empty peek, and no tag, stop, remove or create unless the gate's own inspection did not show the target to be as new |
| `Actions.ChooseAndRoll` | internal/actions/orchestrator.go:553-864 | local reads alone decide, and the exchanges up to the choice are exactly those it needed; without a chosen target nothing is sent or done; with one, it is tagged, recreated, swapped and verified |
| `Actions.RollTo` | internal/actions/orchestrator.go:712-864 | a rollback to a chosen target tags it, does local work only, swaps to it exactly on a finished recreate and succeeds exactly if verify does |
| `Actions.RollbackSuccessIsVerdict` | internal/actions/orchestrator.go:1183-1253 | the same for Rollback |
| `Actions.Retag` | internal/actions/orchestrator.go:740-764 | the repository form is tagged first, the bare digest only if that failed, both as the row's image |
| `Actions.WorkNeedsAllowedTarget` | internal/actions/orchestrator.go:699-712 | anything tagged, stopped, removed or created implies a target other than current, let through by the gate's own inspection |
| `Actions.NoOpMeans` | internal/actions/orchestrator.go:618-680 | a justified choice is the no-op if and only if the stored digest is stuck at the running one |
| `Actions.ForcePull` | internal/actions/orchestrator.go:880-967 | with recreate exactly what Update promises; without, only the registry is contacted, success exactly when the digests agree, and no container changes |
| `Actions.PullOnly` | internal/actions/orchestrator.go:887-967 | the variant without recreate: success exactly if the pulled digest is the registry's, which is then sent as the available one |
| `Actions.PullAndVerifyDigest` | internal/actions/orchestrator.go:1132-1165 | returns a digest exactly if the stream's digest and the registry's answer for the same reference agree |
| `Actions.InspectAndVerify` | internal/actions/orchestrator.go:1183-1253 | success exactly if the newest container of a fresh listing is verified |
| `Actions.SettingsFollowTheRow` | internal/actions/orchestrator.go:1191-1197 | verify counts restarts from none and waits for health exactly if the row's label is "true" |
| `Actions.SwapAndVerify` | internal/actions/orchestrator.go:458-509 | after a finished recreate the swap is sent first, then Done if and only if verify succeeds |
| `Actions.RecreateAndReport` | internal/actions/orchestrator.go:404-509 | progress, then a compose failure, or the swap and the verify result; the swap goes out exactly if the recreate finished |
| `RollbackTarget.ExistsLocally` | internal/actions/orchestrator.go:565-603 | present if found by repository and digest, or else by bare digest, which is asked only then |
| `RollbackTarget.AtDigestNames` | internal/actions/orchestrator.go:575-575 | the reference probed, inspected and tagged names the digest after "@" |
| `RollbackTarget.FindFallback` | internal/actions/orchestrator.go:1055-1122 | an error exactly if the listing fails; nothing without a repository; else a right pick of its own listing, never the running digest |
| `RollbackTarget.InspectBuilt` | internal/actions/orchestrator.go:988-1022 | the build time told by the first form that answers, if readable; the second form is asked only if the first failed |
| `RollbackTarget.Candidate` | internal/actions/orchestrator.go:565-664 | exchange by exchange: the stored digest if its probe found it and it differs from the running one, or is stuck there with an empty peek; otherwise what the search after probe and peek offers |
| `RollbackTarget.PassGate` | internal/actions/orchestrator.go:699-712 | a candidate is let through or refused by what the inspection made for the gate tells, or let through unasked if the running build time is unknown |
| `RollbackTarget.ChooseTarget` | internal/actions/orchestrator.go:565-712 | each of the four choices with its reason in the exchange that decided it, and no exchange beyond those |
| `RollbackTarget.ChoiceIsDetermined` | internal/actions/orchestrator.go:565-712 | the same exchanges justify a single choice, up to which of several newest images is taken when no gate is asked |
| `RollbackTarget.UnchangedIffStuck` | internal/actions/orchestrator.go:618-680 | a no-op is justified if and only if the stored digest was found, is the running one, and the peek right after the probe offered nothing |
| `RollbackTarget.JustifiedStays` | internal/actions/orchestrator.go:565-712 | later exchanges do not change the reasons |
| `RollbackChain.SuccessIsAStep` | internal/actions/orchestrator.go:792-864 | every successful Rollback that is no no-op had a justified target, still justified by all its exchanges, and swaps to it |
| `RollbackChain.CaughtUp` | internal/docker/discovery.go:558-577 | the next snapshot after the swap and the upsert of the new container has its digest and build time, whichever came last |
| `RollbackChain.InformedGoesBack` | internal/actions/orchestrator.go:699-712 | a rollback with caught-up snapshot and readable build times moves to a strictly older image |
| `RollbackChain.ChainDescends` | internal/actions/orchestrator.go:699-712 | in a chain of informed rollbacks every single one goes back in build time |
| `RollbackChain.Descends` | internal/actions/orchestrator.go:792-823 | along consecutive informed rollbacks the build time strictly decreases |
| `RollbackChain.NeverRepeats` | internal/actions/orchestrator.go:792-823 | no digest comes back in a descending chain |
| `RollbackChain.ChainIsBounded` | internal/actions/orchestrator.go:988-1022 | a descending chain is no longer than the number of cached images older than its start |
| `RollbackChain.RollbacksAreAChain` | internal/actions/orchestrator.go:565-823 | consecutive successful runs of Rollback, linked by the applied messages, are a chain of informed steps |
| `RollbackChain.RollbacksGoBack` | internal/actions/orchestrator.go:565-823 | and so strictly decrease the build time, each from where the one before went |
| `RollbackChain.RollbacksNeverRepeat` | internal/actions/orchestrator.go:565-823 | they never reach a digest twice nor one that was running before |
| `RollbackChain.RollbacksAreBounded` | internal/actions/orchestrator.go:565-823 | there are no more of them than cached images older than the one first running |
| `RollbackChain.PingPongIff` | internal/actions/orchestrator.go:699-712 | from two different known digests, exactly when Rollback can go to the stored one and back, as runs of its decision, and both digests are then where they were |
| `RollbackChain.NoPingPongWhenInformed` | internal/actions/orchestrator.go:699-712 | never with true and readable build times, whether or not discovery has caught up in between |
| `Fallback.ScanDigests` | internal/actions/orchestrator.go:1084-1099 | tells whether the running digest is among an image's digests, else its first digest |
| `Fallback.EligibleMeans` | internal/actions/orchestrator.go:1079-1115 | who is eligible, in the listing's own terms and in nanoseconds |
| `Fallback.PickTarget` | internal/actions/orchestrator.go:1055-1122 | empty exactly if no image is eligible, else the digest of an eligible image none is newer than, never the current one |
| `Fallback.DigestOf` | internal/actions/orchestrator.go:1086-1091 | nothing exactly if the reference has no digest mark; else the rest of it after the "@" of the first one |
| `Fallback.NeverCurrent` | internal/actions/orchestrator.go:1092-1102 | a right answer is never the known running digest |
| `Fallback.TargetPassesGate` | internal/actions/orchestrator.go:699-712 | on consistent metadata the second-grained pick passes the finer gate if the current build time is unknown or in a positive Unix second |
| `Fallback.GateRefusesWithoutProviso` | internal/actions/orchestrator.go:1068-1114 | for every other current build time a consistent listing exists whose only answer the gate refuses |
| `Fallback.GateAgreesIff` | internal/actions/orchestrator.go:699-712 | every answer on consistent metadata passes the finer gate if and only if the current build time is unknown or in a positive Unix second |
| `PullStream.DrainPullStream` | internal/actions/orchestrator.go:1321-1373 | error exactly if a message is bad or no digest turned up; else the last aux digest, Digest before ID; else the first status digest |
| `PullStream.LastAuxWins` | internal/actions/orchestrator.go:1352-1368 | a good stream gives the Digest of its last aux that says anything, else its ID |
| `PullStream.FirstStatusCounts` | internal/actions/orchestrator.go:1349-1351 | without one, the text after "Digest: " of the first status line with a digest |
| `PullStream.FailsExactly` | internal/actions/orchestrator.go:1321-1373 | an error exactly on a bad message or with neither |
| `PullStream.DrainsIsFunctional` | internal/actions/orchestrator.go:1321-1373 | that description determines the result |
| `PullStream.StatusDigest` | internal/actions/orchestrator.go:1349-1351 | nothing exactly if the status is no digest line; else the status without its "Digest: " |
| `PullStream.Absorb` | internal/actions/orchestrator.go:1326-1368 | one message: an error exactly if it is bad; its aux digest wins, its status digest only fills a gap |
| `Recreate.Service` | internal/recreate/recreate.go:64-189 | for every failure pattern one of the documented outcomes, all other containers untouched, acting on the newest listed container of the service |
| `Recreate.Locate` | internal/recreate/recreate.go:64-125 | local reads only; singles out the first newest container, its inspection and its image's labels |
| `Recreate.TakeDown` | internal/recreate/recreate.go:136-146 | stop comes before remove; the old container is stopped, removed or untouched as the calls went |
| `Recreate.BuildReplacement` | internal/recreate/recreate.go:158-189 | nothing new if create failed; new container gone (or left stopped if cleanup failed) if connect or start failed; else one running replacement with the old settings and networks |
| `Recreate.ConnectAndStart` | internal/recreate/recreate.go:173-189 | a created container ends connected to all extras and running, or removed again, or left stopped if that failed; no other changes |
| `Recreate.ConnectExtras` | internal/recreate/recreate.go:173-181 | in any order all extra networks are joined, or it failed and no other container changed |
| `Recreate.Newest` | internal/recreate/recreate.go:85-91 | the first of the most recently created entries |
| `Recreate.LookupFindsNewest` | internal/actions/orchestrator.go:1220-1253 | any truthful listing leads to a strictly newest container |
| `Recreate.RecreatedIsFound` | internal/actions/orchestrator.go:1183-1253 | the new container has exactly the old networks and the service label, and verify is led to it if its stamp is strictly newest |
| `Replaced.SettingsKept` | internal/recreate/translate.go:104-142 | for every finished recreate: same image, environment and binds, restart policy unless empty, name without the leading slash, running |
| `Replaced.LabelsKept` | internal/recreate/translate.go:289-302 | image-namespace labels of the new image override, every other label is neither changed, added nor lost |
| `Replaced.NetworksKept` | internal/recreate/translate.go:173-257 | the same networks; each endpoint keeps its address settings, its address only if pinned, its aliases but for the old 12-character short ID, followed by the new one |
| `Replaced.NetworksKeptForever` | internal/recreate/recreate.go:64-189 | after any number of recreates in turn, the same compared with the container before the first |
| `Recreate.RecreateKeepsOperatorNetworks` | internal/recreate/translate.go:213-257 | what the next recreate carries over of the networks is what this one did |
| `Recreate.RecreatesKeepOperatorNetworks` | internal/recreate/recreate.go:64-189 | after any number of recreates in turn, what the next one would carry over is what the first one did |
| `Translate.TranslateNetworks` | internal/recreate/translate.go:173-202 | for every iteration order at most one primary, extras disjoint from it, together the old networks scrubbed |
| `Translate.ScrubEndpoint` | internal/recreate/translate.go:213-257 | drops the short-ID alias and an address that was not pinned, keeps the rest |
| `Translate.ScrubUndoesAlias` | internal/recreate/translate.go:213-257 | scrubbing gives the operator's aliases back if and only if none of them is the short ID |
| `Translate.AliasesSurviveRecreates` | internal/recreate/translate.go:173-257 | after any number of recreates, wherever the daemon puts its alias, the operator's list is unchanged |
| `Translate.RefreshImageLabels` | internal/recreate/translate.go:289-302 | for every iteration order the image metadata labels of the new image override, others stay |
| `Translate.RefreshKeepsOthers` | internal/recreate/translate.go:289-302 | labels outside the image namespace are neither changed, added nor lost |
| `Verify.VerifyAfterRecreate` | internal/actions/verify.go:161-332 | equals the first-decisive-tick reading within max(1, window/tick) rounds, with the deadline of its mode and three spare ticks, and counts its inspections |
| `Verify.WhatSuccessMeans` | internal/actions/verify.go:161-332 | success means all inspections were good, and arises by count, by healthy under opt-in, or by deadline under opt-in |
| `Verify.CountSuccessTakesTheWindow` | internal/actions/verify.go:186-192 | success by neither deadline nor health took exactly max(1, window/tick) good rounds on time, 15 s being the default window |
| `Verify.GoodRoundsSuffice` | internal/actions/verify.go:322-331 | that many good rounds on time are always enough |
| `Verify.BadRoundFails` | internal/actions/verify.go:252-294 | without opt-in one bad inspection among them is never Verified |
| `Verify.HealthyIsEnough` | internal/actions/verify.go:297-320 | under opt-in the first healthy answer after good ones is enough at once |
| `Verify.CancelledExactly` | internal/actions/verify.go:202-254 | cancelled exactly if the deciding round found the context done or its inspection did |
| `Verify.DeadlineVerdict` | internal/actions/verify.go:224-248 | reaching the deadline is success under opt-in and failure otherwise |
| `Verify.VerdictIsUnique` | internal/actions/verify.go:161-332 | one verdict and one number of rounds per observation sequence |
| `Verify.WaitsForHealthIff` | internal/actions/verify.go:161-332 | under opt-in, success only by health or deadline if and only if (count - 1) ticks exceed the healthcheck window and three ticks, on punctual and on late hosts |
| `Verify.DefaultsDoNotWait` | internal/actions/verify.go:65-83 | false for the shipped settings |
| `Verify.StartingForeverIsVerified` | internal/actions/verify.go:297-331 | the witness: a container that is only ever starting is verified by count if the last asked-for round is not late |
| `Verify.SlackSuffices` | internal/actions/verify.go:176-191 | without opt-in no asked-for round is late as long as rounds are at most three ticks behind |
| `ImageRef.ParsePrinted` | internal/poll/poller.go:360-369 | parsing a printed clean pair gives it back, registry ports included |
| `ImageRef.PrintedForm` | internal/poll/poller.go:360-369 | repository, colon, tag, and "latest" for an empty tag |
| `ImageRef.ParsedParts` | internal/docker/discovery.go:710-718 | a parsed reference has a clean nonempty tag and prints as itself or itself plus ":latest" |
| `ImageRef.ParsedWithoutTag` | internal/docker/discovery.go:710-718 | a reference with a digest or a dangling colon parses to what stands before it, without a tag |
| `ImageRef.RoundTripIff` | internal/docker/discovery.go:710-718 | print then parse gives the same pair if and only if the reference has no "@" and no trailing ":" |
| `Backoff.BackoffExact` | internal/docker/discovery.go:334-347 | the 64-bit shift never overflows below the guard; each backoff is exactly min(base * 2^(k-1), cap), positive and capped |
| `Backoff.BackoffInSeconds` | internal/docker/discovery.go:334-347 | 1, 2, 4, 8, 16 seconds, then 30 |
| `Backoff.BackoffNondecreasing` | internal/docker/discovery.go:334-347 | later attempts never sleep less |
| `Backoff.SinceProductiveMeans` | internal/docker/discovery.go:297-325 | the count reaches back over unproductive drains to a productive one or to boot |
| `Backoff.EventsLoop` | internal/docker/discovery.go:250-325 | for every trace each sleep is the promised one for its distance from the latest productive drain |
| `Backoff.SleepsClimb` | internal/docker/discovery.go:250-347 | between productive drains sleeps never shrink |

## Left out

- HTTP handlers, authentication, TLS, static files and the UI.
- The docker and registry client libraries; they are the nondeterministic `Daemon`.
- Self-update, compose file comparison (a yes/no input of the actions), regular expressions of tag patterns (a tag
  mismatch may be reported for any polled row).
- Logging, environment parsing, the cron scheduler, error message texts beyond their phase.
- Container settings beyond image, labels, environment, restart policy and binds: recreate copies them unchanged. The
  network mode special cases and the shape of an empty networking config are not modelled.
- Liveness: nothing says that a consumer or a thread is ever scheduled.
- The discovery side of `upsertFromInspect` (which digest it resolves); any digest and build time may arrive.
- `Durable.Store.Get`, `Durable.FileSystem.SyncDir`: no contract beyond reading the field and doing nothing visible.
- Recreate.BuildReplacement: the cleanup's own error is recorded and otherwise ignored, as in the source.
- Durable.PowerLossRecoversEarlier: which earlier document survives is left open between the last synced and the visible one.

# drizz-farm: the device-farm scheduler and its neighbours, verified

drizz-farm lends Android devices to clients. A pool tracks devices, boots emulators on demand under a limit of
slots, takes devices back and resets them; a broker turns a granted device into a session, ends sessions that are
released, expired or whose device vanished, and lets requests wait in a queue. All of this is touched by many
goroutines at once. This project models that scheduler and the smaller cores beside it, and proves what they keep.

How the parts fit together:

- `PoolModel.dfy` says, as functions on values, what each lock-protected region of the pool does. `Pool.dfy` has the
  pool and the device record as classes with the source's fields; every method is proved against those functions.
  `Broker.dfy` does the same for the session table.
- `Farm.dfy` interleaves those functions. Every goroutine (a request, an on-demand boot, a reset, a removal) is a task
  whose value says which region it runs next; clients, operators, the timeout loop, the health check, device losses
  and eviction callbacks are steps of the environment. A run is any sequence of enabled steps, so it is any
  interleaving. What devices, adb and the map order answer is an arbitrary oracle.
- `Refinement.dfy` compares the two: a goroutine of the farm that runs alone leaves the pool as the method of the class
  does.
- `Ownership.dfy`, `SessionOwnership.dfy`, `Eviction.dfy`, `SessionLife.dfy`, `Slots.dfy`, `AvdUniqueness.dfy` and
  `Grants.dfy` prove the properties of all runs of the farm. `Counterexamples.dfy` gives the runs that break a property
  where the source does, from the empty farm on.
- `Queue.dfy` is the waiting queue and the two drain routines as code; `QueueRuns.dfy` interleaves clients and drainers.
- `Registry.dfy` and `Groups.dfy` are the roster of a group of nodes and its replication by one-hop messages.
- `Ports.dfy` and `Appium.dfy` are the two port allocators and their users.
- `AccessUnits.dfy` is the H.264 sender behind its bounded channel, with a byte stream parser in the sense of
  Annex B of ITU-T H.264. `LineWriter.dfy` is the incremental line splitter.
- `ShellQuoting.dfy` and `MultipartClient.dfy` (with `MultipartReader.dfy`) are two printers, each with a reader
  written from the standard: the POSIX Shell Command Language (IEEE Std 1003.1-2017, section 2.2), and section 5.1.1 of
  RFC 2046 with section 4 of RFC 7578.

`dafny verify dfyconfig.toml` checks everything.

## What does not hold, and exactly when it does

- **A timeout mark can come too late.** `enforceTimeouts` scans under one lock and marks under another, without looking
  whether the session is still active, and sends the device back once more. Every device is in at most one hand all
  along a run exactly when no release starts to reset a device that somebody else has in hand
  (`Ownership.RunIsExclusiveExactlyWhen`); without late marks that never happens
  (`SessionOwnership.PunctualRunsAreExclusive`). Active sessions keep their devices to themselves all along a run exactly
  when no step does them harm: publishes a session for a device that does not serve or has one, or resets, offers or
  brings up a device that has one (`SessionOwnership.DevicesAreExclusiveExactlyWhen`).
  Finished sessions stay as they are exactly when there is no late mark (`SessionLife.HistoryStandsExactlyInPunctualRuns`).
  A run in which a late mark offers a device that is in use is `Counterexamples.LateMarkHappens`.
- **A device lost between grant and publication leaves an orphan**: an active session that nobody will interrupt.
  In punctual runs an active session is watched exactly unless the run published it after its device had gone, with no
  callback for it pending (`Eviction.ActiveSessionsAreWatched`); a run is `Counterexamples.OrphanHappens`.
- **Slots are handed back twice** by `destroyInstance` and by failed boots. No slot leaks in any run (`Slots.NoSlotLeaks`),
  but the limit can be exceeded (`Counterexamples.LimitIsExceeded`). It is kept all along a run exactly when no request
  takes a slot of the semaphore while that many are truly taken (`Slots.LimitIsKeptExactlyWhen`), and it is exceeded by at
  most the number of hand-backs that nobody owed. A failed boot on demand needs a second slot to give back: it returns by
  itself exactly when two were taken (`Counterexamples.FailedBootReturnsExactlyWhenTwoSlotsTaken`).
- **A boot asked for by name ignores the flags** that keep `allocateAny` from booting one AVD twice. The boots stay apart
  all along a run exactly when nothing is flagged twice (`AvdUniqueness.BootsStayApartExactlyInClashFreeRuns`), and a
  clash always involves a boot by name (`AvdUniqueness.ClashIsWithNamedBoot`, `Counterexamples.AvdIsBootedTwice`); without
  requests by name `allocateAny` never boots an AVD twice (`AvdUniqueness.AllocateAnyNeverBootsTwice`).
- **The end of an on-demand boot ignores reservations** that were made while it booted. With each scan under the pool
  lock taken as one step nothing else does (`Grants.ReservedDevicesAreGrantedExactlyAfterBoots`, `Counterexamples.ReservedDeviceIsGranted`).
- **Several drainers can reorder waiting requests** (`QueueRuns.TwoDrainersReorder`). Whatever their number, arrival order
  is kept all along a run exactly when none puts a request back while another holds a later one
  (`QueueRuns.QueueIsFifoExactlyWhen`); a single drainer always keeps it.
- **Shutdown returns the port pair a device remembers**, also after a failed boot (`Leases.StaleShutdownSharesPorts`)
  or a second time (`Leases.SecondShutdownSharesPorts`). Leases are sound all
  along a run exactly when no Shutdown returns a pair another emulator holds (`Leases.RunIsSoundExactlyWhen`). With an odd
  upper bound the allocator hands out one pair more than `Capacity()`, whose ADB port is the upper bound itself.
- **A session stopped while its own Start waits** can put two sessions on one Appium port; the account is right exactly
  when no Start gives up what is not its own (`AppiumPorts.RunIsSoundExactlyWhen`).
- **Two adds of one name with different URLs diverge**: each member keeps the one it heard last (`Groups.ConflictingAddsDiverge`).
- **An upload target with an ampersand** does not arrive as given (`MultipartClient.TargetArrivesExactlyWithoutAmpersand`),
  and, with a file free of the boundary, a file name arrives exactly when it has no quote, no backslash and no line break,
  for a reader that undoes quoted-pairs (section 3.3 of RFC 822); some readers keep a backslash before ordinary characters
  (`MultipartClient.UploadFile`, `MultipartClient.QuoteInFilenameIsLost`).

Where comments and code of the source disagree, the model follows the code: nodes of a group do call each other
(`internal/api/handlers_registry.go:44-99`), `propagateAdd` also sends to the sending node itself, since only the name
that is added is skipped (`internal/api/handlers_registry.go:50-53`), and the upper port bound is not quite exclusive.

## Model

| member | source | states |
|---|---|---|
| DeviceStates.DestroyingIsFinal | internal/pool/state.go:36-58 | no sequence of attempted transitions leads out of Destroying |
| DeviceStates.UsedDeviceIsCleanedFirst | internal/pool/state.go:36-58 | a used device comes back to Warm only through Resetting or Error |
| DeviceStates.OnlyWarmIsGranted | internal/pool/state.go:36-58 | Allocated is reached only through Warm |
| DeviceStates.EnteredExactlyFrom | internal/pool/state.go:36-58 | the table by its columns: from which states each state can be entered |
| Instances.DeviceInstance.constructor | internal/pool/pool.go:712-722 | a new device is Creating, unreserved and without a session |
| Instances.DeviceInstance.TransitionTo | internal/pool/instance.go:59-68 | the state becomes the target exactly when the table allows it, else nothing changes |
| Instances.DeviceInstance.SetSession | internal/pool/instance.go:78-85 | session, allocation time and activity are set together |
| Instances.DeviceInstance.ClearSession | internal/pool/instance.go:88-93 | session and allocation time are cleared together |
| Instances.DeviceInstance.Reserve | internal/pool/instance.go:36-41 | the reservation is set with its label |
| Instances.DeviceInstance.Unreserve | internal/pool/instance.go:44-49 | the reservation and its label are cleared |
| Instances.DeviceInstance.RecordHealthCheck | internal/pool/instance.go:113-122 | failures are counted, a healthy check resets the count and its time is remembered |
| Pools.Pool.AllocateWarm | internal/pool/pool.go:344-378 | for every iteration order: an eligible Warm device of the profile if there is one, else any eligible one, else none, and only that device changes, to Allocated |
| Pools.Pool.AllocateById | internal/pool/pool.go:251-272 | exactly the Warm device with this id, reserved only for manual callers; every refusal with its reason and no change |
| PoolModel.NothingToGrant | internal/pool/pool.go:350-378 | a scan for a warm device finds none exactly when every tracked Warm device is reserved and the caller is not manual |
| PoolModel.WhatMayBeGranted | internal/pool/pool.go:350-378 | it may grant a device exactly when that is tracked and Warm, not reserved unless the caller is manual, and of the profile asked for unless no such device is |
| Pools.Pool.AllocateByName | internal/pool/pool.go:274-299 | for every iteration order: decided by the first tracked device of that name, granted or refused with the reason; boots are considered only if there is none |
| Pools.Pool.TakeSlot | internal/pool/pool.go:303-307 | a slot is taken exactly when one is free |
| Pools.Pool.GiveBack | internal/pool/pool.go:778-781 | one slot is freed if any is taken; never blocks |
| Pools.Pool.UsedAVDs | internal/pool/pool.go:391-401 | exactly the names of tracked devices and the flagged AVDs |
| PoolModel.TrackedNamesAre | internal/pool/pool.go:391-397 | the names ruled out are exactly those of tracked devices |
| Pools.Pool.FindUnbootedAVDExcluding | internal/pool/pool.go:994-1019 | the first listed AVD that is neither tracked nor excluded; none exactly when there is none |
| Pools.Pool.ReserveUnbootedAVD | internal/pool/pool.go:390-413 | fails exactly when every listed AVD is tracked or flagged; else the first listed free one is flagged and nothing else changes |
| Pools.Pool.CreateInstance | internal/pool/pool.go:712-729 | a new device under a fresh id is tracked, all others untouched |
| Pools.Pool.Untrack | internal/pool/pool.go:764-772 | the device leaves the map and the session found attached is reported |
| Pools.Pool.RemoveInstance | internal/pool/pool.go:764-786 | untracked, one slot given back, the attached session reported for the eviction callback |
| Pools.Pool.DestroyInstance | internal/pool/pool.go:734-753 | ends in Destroying and untracked, with two slots given back |
| Pools.Pool.Release | internal/pool/pool.go:442-484 | unknown, dead, refused and resetting devices, each with the whole new state of the pool; a reset starts exactly from Allocated or Error |
| Pools.Pool.DropDead | internal/pool/pool.go:469-479 | the session is cleared before the removal, so no callback is due |
| Pools.Pool.ResetFinished | internal/pool/pool.go:486-504 | a finished reset makes the device Warm if the table allows it; a failed one removes it and reports its session |
| Pools.Pool.Errored | internal/pool/pool.go:908-915 | exactly the tracked devices in Error |
| Pools.Pool.Idle | internal/pool/pool.go:923-933 | exactly the Warm, destroyable devices idle for longer than the timeout |
| Pools.Pool.PruneDisconnected | internal/pool/pool.go:947-975 | exactly the tracked devices that can be destroyed or are connected stay, one slot is given back for each other while any is taken, and exactly the sessions attached to those are told |
| Pools.Pool.ApplyReservations | internal/pool/pool.go:1090-1101 | exactly the tracked devices whose AVD is listed become reserved under the listed label, nothing else changes |
| Brokers.SessionRecord.constructor | internal/session/broker.go:374-390 | a new session is active, has no release time and was never sent back |
| Brokers.Broker.Publish | internal/session/broker.go:394-396 | the session is added, all others untouched |
| Brokers.Broker.Release | internal/session/broker.go:242-257 | refused for unknown and finished sessions without a change; else released with its time, all others untouched |
| Brokers.Broker.HandleInstanceEvicted | internal/session/broker.go:114-124 | interrupts the session exactly when it is still active |
| Brokers.Broker.Expired | internal/session/broker.go:487-496 | exactly the active sessions past their expiry |
| Brokers.Broker.MarkTimedOut | internal/session/broker.go:498-505 | the one session becomes timed out with its time, whatever it was before |
| Brokers.Broker.EnforceTimeouts | internal/session/broker.go:487-515 | a pass with nothing in between ends exactly the active sessions past their expiry, with this time, sends each device back once, touches nothing else and leaves none expired |
| Brokers.Broker.ActiveCount | internal/session/broker.go:334-345 | the number of active sessions |
| Ownership.EnvironmentFrame | internal/session/broker.go:242-296 | a step of clients, operators and time changes no session's device, makes at most one device and one goroutine |
| Ownership.TaskMovesItself | internal/pool/pool.go:344-434 | one region of a goroutine moves no other goroutine |
| Ownership.TaskPublishes | internal/session/broker.go:392-396 | only the publishing region changes the session table, by the one new session |
| Ownership.StepKeepsIdentity | internal/pool/pool.go:712-729 | no step changes a device's name, origin or kind |
| Ownership.StepKeepsWellFormed | internal/pool/pool.go:712-729 | identifiers stay fresh, nothing refers to a device that never existed, a session id is published once |
| Ownership.OtherClaimsStand | internal/pool/pool.go:442-507 | no region changes what another goroutine or session holds |
| Ownership.ClaimedStatesStand | internal/pool/pool.go:442-507 | no region changes the state of a device somebody else holds, except to give it up |
| Ownership.OwnClaimIsNew | internal/pool/pool.go:344-435 | a goroutine gains a device only while nobody has it: Warm, or just made |
| Ownership.TaskKeepsExclusive | internal/pool/pool.go:344-507 | every region leaves each device in one hand and in a state that fits, unless it is a release that starts to reset a device in hand |
| Ownership.StepKeepsExclusiveExactlyWhen | internal/pool/pool.go:481-504 | a step leaves every device in at most one hand (bringing it up, using it or cleaning it) if and only if it is not a release that starts to reset a device somebody else has in hand |
| Ownership.RunIsExclusiveExactlyWhen | internal/pool/pool.go:442-507 | from the empty farm on, every device is in at most one hand all along a run if and only if no release of the run starts to reset a device in hand |
| SessionOwnership.StepKeepsSessionsOwnExactlyWhen | internal/pool/pool.go:430-507 | with every active session alone on a device that is Allocated, Error or Destroying, a step keeps it so if and only if it neither publishes a session for another device or for one already named, nor resets, offers or brings up a device an active session names |
| SessionOwnership.DevicesAreExclusiveExactlyWhen | internal/session/broker.go:242-296 | from the empty farm on: all along a run no two active sessions name one device and no device of an active session is Warm, brought up or cleaned, if and only if no step of the run does such harm |
| SessionOwnership.OnlyReleasesHarmFirst | internal/pool/pool.go:481-504 | as long as every device is in at most one hand, a step does harm if and only if it is a release that starts to reset the device of a session still active |
| SessionOwnership.DevicesAreExclusive | internal/session/broker.go:242-296 | no run in which no release resets a device in hand does harm |
| SessionOwnership.PunctualRunsAreExclusive | internal/session/broker.go:487-515 | every run in which timeout marks find their sessions active is such a run |
| Eviction.TaskKeepsBadges | internal/session/broker.go:392-396 | whoever is to use or uses a device for a session finds that session's id on it while it is tracked |
| Eviction.TaskKeepsLossesKnown | internal/pool/pool.go:764-786 | a removal starts the callback of the session it takes the device from |
| Eviction.ActiveSessionsAreWatched | internal/pool/pool.go:764-786 | in every punctual run an active session has its device, marked with its id and Allocated, Error or Destroying, or a callback pending, if and only if the run did not publish it after its device had gone with no callback for it pending |
| Eviction.NoSessionOutlivesItsDevice | internal/session/broker.go:114-124 | once pending callbacks have run, an active session has its device if and only if the run did not publish it late |
| Eviction.BindingAtOnceIsNeverLate | internal/session/broker.go:392-396 | binding and publishing in one go on a tracked device never makes an orphan |
| SessionLife.StepKeepsConsistent | internal/session/broker.go:242-257 | state, release time and number of pool releases of every session agree, unless a mark comes late |
| SessionLife.OnlyLateMarksRewriteHistory | internal/session/broker.go:497-505 | a step leaves all finished sessions as they are if and only if it is not a late mark |
| SessionLife.HistoryStandsExactlyInPunctualRuns | internal/session/broker.go:487-515 | a run never touches a finished session if and only if it has no late mark |
| SessionLife.FinishedForGood | internal/session/broker.go:114-124 | a finished session keeps its state, release time and count of pool releases for ever |
| SessionLife.SessionsEndOnce | internal/session/broker.go:242-257 | from the empty farm on: one end in one of three ways, release time exactly from then on, at most one pool release |
| SessionLife.PassEndsExpiredSessions | internal/session/broker.go:487-515 | after a timeout pass, whatever ran in between, every session expired at its scan has ended |
| SessionLife.OverdueMeans | internal/session/broker.go:490-495 | a scan finds exactly the active sessions past their expiry |
| SessionLife.StepEndsSessions | internal/session/broker.go:242-257 | what a release, a timeout mark and an eviction write into the session they end, and that nothing else is written |
| SessionLife.EndingsSendBack | internal/session/broker.go:242-296 | a release and a timeout mark are followed by one pool release of the device, an eviction by none |
| SessionLife.NobodyTimesOutTooSoon | internal/session/broker.go:487-505 | in every run, punctual or not, a session that timed out was released after its expiry |
| Slots.StepKeepsBalance | internal/pool/pool.go:764-786 | every step keeps the slot account, both ways: the semaphore is at most the slots truly taken, and those exceed it by at most the hand-backs that nobody owed |
| Slots.NoSlotLeaks | internal/pool/pool.go:303-324 | in every run occupied slots are at most the boots on demand not settled plus the tracked devices they made; all free when there are none, however many adopted devices there are |
| Slots.StepKeepsLimitExactlyWhen | internal/pool/pool.go:383-387 | a step keeps devices booted on demand within the limit if and only if it does not take a slot of the semaphore while that many are truly taken |
| Slots.LimitIsKeptExactlyWhen | internal/pool/pool.go:383-434 | from the empty farm on, the limit is kept all along a run if and only if no request of it takes a slot of the semaphore while that many are truly taken |
| Slots.OnDemandDevicesAreLimited | internal/pool/pool.go:383-434 | devices booted on demand exceed the limit by at most the slots handed back that nobody owed |
| AvdUniqueness.OwnBoot | internal/pool/pool.go:410-423 | a goroutine keeps its boot, drops it or flags a new one, and the flags change accordingly |
| AvdUniqueness.TaskKeepsFlagsExclusive | internal/pool/pool.go:390-423 | one flag, one boot, unless a flag is set twice |
| AvdUniqueness.TaskKeepsChoiceNew | internal/pool/pool.go:390-413 | whoever chooses an AVD has ruled out every live boot of allocateAny |
| AvdUniqueness.TaskKeepsOneBoot | internal/pool/pool.go:390-423 | one live boot of allocateAny per AVD |
| AvdUniqueness.TaskKeepsFlagsBacked | internal/pool/pool.go:410-423 | every flag belongs to a boot under way |
| AvdUniqueness.BootsStayApartExactlyWhen | internal/pool/pool.go:308-320 | a step keeps the boots under way on different AVDs if and only if it does not flag an AVD twice |
| AvdUniqueness.BootsStayApartExactlyInClashFreeRuns | internal/pool/pool.go:308-320 | the boots are on different AVDs all along a run if and only if nothing is flagged twice |
| AvdUniqueness.ClashIsWithNamedBoot | internal/pool/pool.go:308-320 | one of two clashing boots is asked for by name |
| AvdUniqueness.NoAvdIsBootedTwice | internal/pool/pool.go:390-423 | in every clash-free run no two live boots of allocateAny, booting or tracked, are on one AVD |
| AvdUniqueness.UnnamedRunsAreClashFree | internal/pool/pool.go:390-423 | without requests for an AVD by name nothing is ever flagged twice |
| AvdUniqueness.AllocateAnyNeverBootsTwice | internal/pool/pool.go:390-423 | in every run without requests by name no two live boots of allocateAny are ever on one AVD |
| Grants.ScansGrantEligibleDevices | internal/pool/pool.go:243-299 | the scans grant only Warm tracked devices, reserved ones to manual callers only, and another profile only if no eligible device has the one asked for |
| Grants.ScanByIdGrantsExactly | internal/pool/pool.go:251-272 | the scan by id grants its device exactly when it is tracked, Warm, and not reserved unless the caller is manual |
| Grants.ScanByNameGrantsExactly | internal/pool/pool.go:274-299 | the scan by name grants the first device of that name exactly when it is Warm and not reserved unless the caller is manual, and goes on to boot exactly when no tracked device has the name |
| Grants.WarmScanGrantsExactly | internal/pool/pool.go:344-387 | the scan for any device grants one exactly when some tracked device is Warm and not reserved, or the caller manual; otherwise it goes on to take a slot |
| Grants.BootsGrantWhateverTheReservation | internal/pool/pool.go:430-434 | besides the scans exactly the end of a boot grants, exactly its Warm device, reserved or not |
| Grants.ReservedDevicesAreGrantedExactlyAfterBoots | internal/pool/pool.go:243-329 | in every run whatever is granted answers a request, and a reserved device goes to an automated request exactly where the goroutine that booted it takes it while it is Warm |
| Refinement.ScanIsAllocateWarm | internal/pool/pool.go:344-378 | whatever choice AllocateWarm may make is a step of the farm with the same effect |
| Refinement.RemovalIsRemoveInstance | internal/pool/pool.go:764-786 | a removal that runs alone leaves the pool as RemoveInstance does and starts the callback of the session attached |
| Refinement.DestructionIsDestroyInstance | internal/pool/pool.go:734-753 | the same for DestroyInstance |
| Refinement.ReleaseOfDead | internal/pool/pool.go:469-479 | a release that finds its device dead and runs alone leaves the pool as Release does, and starts no callback |
| Refinement.ReleaseOfLive | internal/pool/pool.go:481-484 | the same for a live device, up to the start of the reset |
| Refinement.ResetIsResetFinished | internal/pool/pool.go:486-504 | the same for the end of the reset, successful or not |
| Refinement.BootBringsUp | internal/pool/pool.go:645-671 | a boot that succeeds with nothing in between brings the device up Warm and goes on to clear the flag |
| Refinement.BootIsGranted | internal/pool/pool.go:421-434 | the end of an on-demand boot clears the flag and takes the Warm device |
| Refinement.AdoptionBringsUp | internal/pool/pool.go:675-709 | an adopted device is tracked and Warm, and takes no slot |
| Refinement.ManualBootStartsExactlyWhen | internal/pool/pool.go:565-581 | BootAVD boots exactly when the AVD is not tracked and fewer devices are tracked than the limit |
| Refinement.BootByHand | internal/pool/pool.go:565-584 | from the request on, with nothing in between: if the AVD is tracked already or the limit is reached, nothing changes; otherwise a new device of exactly the name asked for comes up Warm and unreserved, and no slot is taken |
| Refinement.SlotIsTakenExactlyWhenFree | internal/pool/pool.go:383-387 | a request on demand takes a slot exactly while one is free, and gives up otherwise |
| Refinement.OperatorsAndHealthChecks | internal/pool/instance.go:36-68 | a health error marks every device not being destroyed, a reservation the reservation, and neither anything else |
| Counterexamples.LateMarkOffersUsedDevice | internal/session/broker.go:497-514 | from every state in which the device of a late mark serves another session, a run puts that device on offer |
| Counterexamples.LateMarkHappens | internal/session/broker.go:487-515 | such a run from the empty farm |
| Counterexamples.TakenBackIsOffered | internal/pool/pool.go:481-504 | whenever a release can start to reset the device of an active session, a run puts that device on offer with the session still active |
| Counterexamples.PublishedWhileReset | internal/session/broker.go:392-396 | a run in which a late release takes the device from a request that was granted it, and the session is published on a device being reset |
| Counterexamples.LossBeforeBindingOrphans | internal/session/broker.go:392-396 | from every state with a granted device not yet bound, a loss makes an active session without a device and without a callback |
| Counterexamples.OrphanHappens | internal/session/broker.go:392-396 | such a run from the empty farm |
| Counterexamples.ReservedDeviceIsGranted | internal/pool/pool.go:303-325 | a run that grants a reserved device to an automated request by name |
| Counterexamples.DestroyFreesTwoSlots | internal/pool/pool.go:734-753 | destroying any device frees two slots whenever two are taken |
| Counterexamples.LimitIsExceeded | internal/pool/pool.go:743-749 | a run with three on-demand devices at a limit of two |
| Counterexamples.FailedBootReturnsExactlyWhenTwoSlotsTaken | internal/pool/pool.go:313-320 | a boot on demand that fails, with nothing in between, comes to a receive that can proceed if and only if two slots were taken |
| Counterexamples.BlockHappens | internal/pool/pool.go:650-653 | such a run from the empty farm |
| Counterexamples.NamedBootClearsFlag | internal/pool/pool.go:308-320 | a boot by name flags a flagged AVD, fails, and clears the flag of the other boot |
| Counterexamples.AvdIsBootedTwice | internal/pool/pool.go:390-423 | a run in which two boots of allocateAny are on one AVD |
| Queues.Queue.Enqueue | internal/session/queue.go:45-58 | refused exactly at the size limit, else appended |
| Queues.Queue.TryDequeue | internal/session/queue.go:79-90 | the oldest entry, none exactly when empty |
| Queues.Queue.PushFront | internal/session/queue.go:93-97 | back in front, the others unchanged |
| Queues.Queue.Remove | internal/session/queue.go:107-117 | takes out the one entry wherever it is and keeps the order of the rest |
| Queues.TryDrainQueue | internal/session/broker.go:541-569 | ends; answers a prefix in arrival order, each once: with the device the pool granted, or with the error the pool gave; what remains is unchanged, and why it remains |
| Queues.ClientsAreToldTheTruth | internal/session/broker.go:552-565 | a client is told it was served exactly when the pool granted, with that device, and told of an error exactly when the pool gave it |
| Queues.DrainQueue | internal/session/broker.go:299-319 | at most one request served, with the device the pool granted; any failure puts it back in front |
| QueueRuns.StepKeepsPlaces | internal/session/queue.go:45-117 | every step keeps each request in exactly one place |
| QueueRuns.RequestsAreConserved | internal/session/broker.go:541-569 | in every run a request is queued once, held by one drainer, answered once or taken out by its client; nobody gets two results |
| QueueRuns.QueueIsBounded | internal/session/queue.go:45-97 | in every run queued and held requests together are at most the size limit plus the drainers |
| QueueRuns.StepKeepsOrderExactlyWhen | internal/session/queue.go:93-97 | for any number of drainers: a step keeps the order of arrival if and only if it does not put a request back while another drainer holds a later one |
| QueueRuns.QueueIsFifoExactlyWhen | internal/session/broker.go:299-319 | for any number of drainers: queue and held requests are in arrival order all along a run if and only if none is put back while another drainer holds a later one |
| QueueRuns.SingleDrainerIsFifo | internal/session/queue.go:79-97 | with one drainer, queue and held request are in arrival order in every run |
| QueueRuns.TwoDrainersReorder | internal/session/queue.go:93-97 | a run with two drainers that ends with the queue out of order |
| Rosters.UpsertUpdates | internal/registry/registry.go:172-196 | on the map of names AddNode is an update, and names stay unique |
| Rosters.UpsertIsIdempotent | internal/registry/registry.go:172-196 | adding the same node again changes nothing |
| Rosters.UpsertShape | internal/registry/registry.go:178-193 | a known name keeps its position, a new one goes to the end |
| Rosters.UpsertStores | internal/registry/registry.go:178-193 | the entry stored has the name and URL given, and the time given, else the time known, else now; it stands where the name was or at the end, and everything else stands as before |
| Rosters.DroppedDeletes | internal/registry/registry.go:199-216 | on the map of names RemoveNode is a deletion, and names stay unique |
| Rosters.DroppedLeavesOthers | internal/registry/registry.go:202-210 | exactly the nodes of other names are left |
| Rosters.DroppingTheAbsent | internal/registry/registry.go:199-216 | removing an unknown name changes nothing |
| Rosters.HistoryRefinesMap | internal/registry/registry.go:153-305 | over every history of changes the roster with unique names refines the map |
| Registries.Registry.CreateGroup | internal/registry/registry.go:153-169 | refused in a group without a change; else a roster of this node alone |
| Registries.Registry.VerifyKey | internal/registry/registry.go:113-117 | a key is accepted exactly when it is the stored one and there is one |
| Registries.Registry.AddNode | internal/registry/registry.go:172-196 | refused without name or URL, else the update by name in place or at the end |
| Registries.Registry.RemoveNode | internal/registry/registry.go:199-216 | the in-place compaction leaves exactly the other nodes in order, and says whether the name was there |
| Registries.Registry.LeaveGroup | internal/registry/registry.go:220-229 | nothing of the group is left |
| Registries.Registry.Import | internal/registry/registry.go:293-305 | refused without name or key and without a change; else exactly the imported group |
| RosterHandlers.Peers | internal/api/handlers_registry.go:50-53 | every roster entry but the one of that name |
| RosterHandlers.HandleAdd | internal/api/handlers_registry.go:304-340 | status, new roster and the peers told, on the stored key: with any other key Forbidden and nothing changed or told, with it a complete request that is propagated or verified is Done; a propagated add is told to nobody |
| RosterHandlers.HandleRemove | internal/api/handlers_registry.go:383-403 | the same for removal: with the stored key exactly the nodes of other names are left; an unknown name is told to nobody |
| RosterHandlers.HandleLeave | internal/api/handlers_registry.go:228-268 | only from the local machine; the peers known before are told |
| RosterHandlers.FewMessages | internal/api/handlers_registry.go:50-53 | at most one message per roster entry, fewer when the name is on the roster |
| Groups.EffectOnMap | internal/registry/registry.go:172-216 | what an operation does to the names and URLs of a roster |
| Groups.StepKeepsConsistent | internal/api/handlers_registry.go:44-99 | after every step each surviving member has the first roster changed by exactly the operations it has started or heard of |
| Groups.MessagesGoToOthers | internal/api/handlers_registry.go:44-99 | an operation for a name is told to exactly the roster entries of other names |
| Groups.DeliveringTellsNobody | internal/api/handlers_registry.go:332-338 | a delivered message changes one roster and is not passed on |
| Groups.GroupConverges | internal/api/handlers_registry.go:44-99 | once every message has arrived, in any order, all members that remain have the same names and URLs: the first ones without those removed, with those added |
| Groups.ConflictingAddsDiverge | internal/registry/registry.go:178-187 | two adds of one name crossing each other leave equal rosters exactly when the URLs are equal |
| Ports.LeastFreeIsFirst | internal/android/port.go:43-51 | the port found is free and the lowest; none is found exactly when all are in use |
| Ports.AllocateFailsAtCapacity | internal/android/port.go:39-73 | Allocate fails exactly at Capacity() leases for an even upper bound, one later for an odd one |
| Ports.CapacityTruncates | internal/android/port.go:70-73 | Capacity() is half the range, truncated toward zero |
| Ports.PortAllocator.constructor | internal/android/port.go:26-36 | the lower bound is made even |
| Ports.PortAllocator.Allocate | internal/android/port.go:39-54 | the lowest free pair is marked and returned |
| Ports.PortAllocator.Release | internal/android/port.go:57-61 | exactly that pair is free again |
| Ports.EmulatorDevice.Prepare | internal/android/emulator_device.go:66-101 | a pair is leased; after a failed boot it is returned and still remembered |
| Ports.EmulatorDevice.Shutdown | internal/android/emulator_device.go:125-145 | the remembered pair is returned, every time |
| Leases.LeaseStepsMean | internal/android/emulator_device.go:66-145 | the steps on the ports: the lowest free pair is taken, kept only after a successful boot and remembered in any case; Shutdown frees the pair remembered |
| Leases.ShutdownIsSoundExactlyWhenOwnOrFree | internal/android/emulator_device.go:141-143 | a Shutdown keeps leases sound if and only if no other emulator holds the pair |
| Leases.RunIsSoundExactlyWhen | internal/android/emulator_device.go:66-145 | leases are sound all along a run if and only if no Shutdown of it returns another's pair |
| Leases.LeasesStayDisjoint | internal/android/emulator_device.go:66-145 | in every such run console and ADB ports of different emulators are different and stay marked |
| Leases.ShuttingDownOnceReturnsOwn | internal/android/emulator_device.go:66-145 | every run that shuts down only devices that still hold their pair, or remember none, is such a run |
| Leases.StaleShutdownSharesPorts | internal/android/emulator_device.go:84-87 | a device whose boot failed, shut down later, lets two emulators share ports |
| Leases.SecondShutdownSharesPorts | internal/android/emulator_device.go:141-143 | a device shut down twice lets two emulators share ports |
| AppiumPorts.ScanFindsFirstFree | internal/appium/server.go:267-280 | the first port of the window that is neither reserved nor bound, none exactly when there is none |
| AppiumPorts.GivingUpIsSoundExactlyWhenOwn | internal/appium/server.go:179-191 | a Start that gives up restores the account if and only if what it removes is its own or nobody's |
| AppiumPorts.StepIsSoundExactlyWhen | internal/appium/server.go:94-239 | every other step keeps the account |
| AppiumPorts.RunIsSoundExactlyWhen | internal/appium/server.go:94-239 | the account is right all along a run if and only if no Start gives up what is not its own |
| AppiumPorts.SessionsHaveTheirOwnPorts | internal/appium/server.go:94-239 | with no session stopped while it waits, used ports are exactly those of recorded sessions and all different, however Starts overlap |
| AppiumPorts.ReadySessionsStayRecorded | internal/appium/server.go:94-239 | a session whose wait ends ready stays recorded under its port, whatever follows, until it is stopped |
| AppiumPorts.EarlyStopSharesPort | internal/appium/server.go:223-230 | a run with an early stop in which two sessions have one port |
| AppiumManagers.Manager.FindFreePort | internal/appium/server.go:267-280 | the loop finds what the scan finds |
| AppiumManagers.Manager.BeginStart | internal/appium/server.go:94-175 | the locked part of Start: running; no port exactly when the window is full; failed launch; or a fresh port reserved and recorded |
| AppiumManagers.Manager.EndStart | internal/appium/server.go:175-200 | after the wait: when ready nothing is dropped, else exactly the instance and the port |
| AppiumManagers.Manager.Stop | internal/appium/server.go:223-239 | the session and its port are dropped, unknown sessions change nothing |
| AppiumManagers.Manager.StopAll | internal/appium/server.go:242-253 | no session is left and exactly their ports are freed; from a right account no port is left |
| AnnexB.UnitEndsBeforeStartCode | internal/api/handlers_webrtc.go:514-546 | a parser of the byte stream finds the end of a well-formed unit at the next start code |
| AnnexB.SampleSplitsBack | internal/api/handlers_webrtc.go:514-546 | units framed by start codes split back into exactly those units |
| AccessUnits.SendNALs | internal/api/handlers_webrtc.go:482-560 | the sender loop writes exactly the framed samples in order, and stops early only at a refused write |
| AccessUnits.HeaderByteDecides | internal/api/handlers_webrtc.go:469-472 | for every header byte: the low five bits alone decide, 1 a slice, 5 an IDR picture, 7 an SPS, 8 a PPS |
| AccessUnits.OtherUnitsAreSkipped | internal/api/handlers_webrtc.go:553-555 | units of any other type change nothing |
| AccessUnits.SamplesBeginWithStartCode | internal/api/handlers_webrtc.go:514-546 | every sample begins with the bytes 0 0 0 1 and its first unit |
| AccessUnits.VariablesMean | internal/api/handlers_webrtc.go:482-546 | sps and pps are the latest seen; needConfig holds exactly when a loss or the start has not been answered by a picture with parameter sets |
| AccessUnits.SamplesCarryThePictures | internal/api/handlers_webrtc.go:514-551 | one sample per picture, in order, each ending in its picture |
| AccessUnits.EveryPictureGetsItsConfig | internal/api/handlers_webrtc.go:514-551 | every IDR sample begins with the latest SPS and PPS; a slice carries both exactly when due and known |
| AccessUnits.FirstSliceAfterLoss | internal/api/handlers_webrtc.go:536-546 | the first slice after a loss without an IDR picture between carries both sets when both are known |
| AccessUnits.LaterSlicesGoAlone | internal/api/handlers_webrtc.go:536-546 | without a further loss later slices go alone |
| AccessUnits.WrittenSamplesSplitBack | internal/api/handlers_webrtc.go:514-551 | every sample written splits back into the units it was built from |
| DroppingChannels.FlowStep | internal/api/handlers_webrtc.go:462-479 | a unit joins the flow to the sender exactly if it is not empty and the channel has room; nothing leaves the flow |
| DroppingChannels.UnitsKeepTheirOrder | internal/api/handlers_webrtc.go:450-502 | in every run at most two units are buffered, and taken and buffered units are a selection of those read, in order |
| DroppingChannels.PicturesSentWereRead | internal/api/handlers_webrtc.go:439-561 | despite drops the pictures sent are, in order, a selection of those read |
| LineWriters.LinesAndTailAreTheStream | internal/capture/capture.go:695-713 | lines and tail put together are the stream, and no line contains a newline |
| LineWriters.OnlyEmptyLinesAreLeftOut | internal/capture/capture.go:708-712 | exactly the empty lines are left out, no other is lost or doubled |
| LineWriters.ReadingInParts | internal/capture/capture.go:695-713 | reading on behind the buffered tail is reading the whole |
| LineWriters.LineWriter.Write | internal/capture/capture.go:695-715 | delivers exactly the non-empty lines completed by the write, keeps exactly the tail, ends |
| LineWriters.LineWriter.WriteAll | internal/capture/capture.go:695-715 | however a stream is cut, the lines delivered are those of the whole and the buffer is its tail |
| ShellQuoting.QuotedArgumentReadsBack | internal/api/handlers_device.go:632-634 | an argument quoted this way is read by the shell as exactly itself, for every string |
| ShellQuoting.QuotingIs | internal/api/handlers_device.go:632 | the quoting changes nothing but single quotes, each of which closes, stands escaped and opens again |
| ShellQuoting.NotificationIsRefusedExactlyWhen | internal/api/handlers_device.go:620-623 | a notification is refused exactly without a title or without a body |
| ShellQuoting.NotificationArgumentsArrive | internal/api/handlers_device.go:620-634 | the shell sees the fixed words and exactly the title, the tag or its default, and the body |
| ShellQuoting.ClipboardTextArrives | internal/api/handlers_device.go:665-678 | the shell sees the fixed words, the user id and exactly the text |
| ShellQuoting.InputTextArrives | internal/api/handlers_device.go:686 | the fallback types exactly the text |
| MultipartReader.DelimiterIsFound | clients/java/src/main/java/ai/drizz/farm/DrizzSession.java:267-279 | a delimiter is found where it was put, never across its own beginning |
| MultipartReader.PartsAreFound | clients/java/src/main/java/ai/drizz/farm/DrizzSession.java:265-279 | contents without the delimiter are found again exactly |
| MultipartReader.NoDelimiterInParts | clients/java/src/main/java/ai/drizz/farm/DrizzSession.java:265-279 | no part that is read contains the delimiter |
| MultipartClient.FieldsAreSentExactlyWhenSeparable | clients/java/src/main/java/ai/drizz/farm/DrizzSession.java:263-267 | joined extra fields are the fields sent if and only if no name or value has an ampersand and no name an equals sign |
| MultipartClient.ExtraFieldsMean | clients/java/src/main/java/ai/drizz/farm/DrizzSession.java:263-270 | what any text of extra fields means: it falls apart at ampersands, pieces without an equals sign mean nothing, any other is a field up to its first equals sign |
| MultipartClient.TargetArrivesExactlyWithoutAmpersand | clients/java/src/main/java/ai/drizz/farm/DrizzSession.java:130-134 | an upload target is sent as given if and only if it has no ampersand |
| MultipartClient.ReadsAsItself | clients/java/src/main/java/ai/drizz/farm/DrizzSession.java:268-274 | a quoted name that a reader of quoted-pairs reads as itself has no quote and no backslash |
| MultipartClient.PartIsReadExactlyWhenSendable | clients/java/src/main/java/ai/drizz/farm/DrizzSession.java:267-278 | a part reads back as its name, filename, type and body if and only if the names have no quote, backslash or line break and the type no line break |
| MultipartClient.FormReadsBackExactlyWhenPartsFit | clients/java/src/main/java/ai/drizz/farm/DrizzSession.java:258-284 | for every form: it reads back as exactly its parts if and only if no name has a quote, a backslash or a line break, no type a line break, and no line of a value or file begins with the boundary |
| MultipartClient.TextInFrontOfForm | clients/java/src/main/java/ai/drizz/farm/DrizzSession.java:264-271 | byte by byte what a text field adds in front of a form |
| MultipartClient.FileFormIs | clients/java/src/main/java/ai/drizz/farm/DrizzSession.java:273-279 | byte by byte the form of a file |
| MultipartClient.NoBoundaryMeansFree | clients/java/src/main/java/ai/drizz/farm/DrizzSession.java:260 | a text that does not contain the boundary has no such line |
| MultipartClient.WriteLine | clients/java/src/main/java/ai/drizz/farm/DrizzSession.java:286-289 | the line and CR LF are appended |
| MultipartClient.BuildMultipart | clients/java/src/main/java/ai/drizz/farm/DrizzSession.java:258-284 | the body is the form of the extra fields and the file, and reads back exactly when each of them fits |
| MultipartClient.FirstLineIsTheBoundary | clients/java/src/main/java/ai/drizz/farm/DrizzSession.java:258-284 | the first line of a form is the boundary it was built with, with or without extra fields |
| MultipartClient.LongBoundaryIsNotFound | clients/java/src/main/java/ai/drizz/farm/DrizzSession.java:242-245 | a boundary that does not end within the first 256 bytes is not found |
| MultipartClient.ExtractBoundary | clients/java/src/main/java/ai/drizz/farm/DrizzSession.java:239-249 | for every body: the boundary its first line names, or the fallback exactly when it names none |
| MultipartClient.Post | clients/java/src/main/java/ai/drizz/farm/DrizzSession.java:226-235 | the boundary named is the one used when shorter than 254 bytes, else the fallback; with it the receiver reads exactly what was given if and only if each part fits |
| MultipartClient.UploadFile | clients/java/src/main/java/ai/drizz/farm/DrizzSession.java:130-134 | file, file name and target arrive exactly as given if and only if the target has no ampersand, the file name no quote, backslash or line break, and no line of file or target begins with the boundary |
| MultipartClient.UploadSays | clients/java/src/main/java/ai/drizz/farm/DrizzSession.java:130-132 | the fixed names and the type of an upload |
| MultipartClient.AmpersandInTargetIsLost | clients/java/src/main/java/ai/drizz/farm/DrizzSession.java:130-134 | an upload target with an ampersand never arrives as given, whatever is in the file |
| MultipartClient.QuoteInFilenameIsLost | clients/java/src/main/java/ai/drizz/farm/DrizzSession.java:274 | a file called a"b never arrives under its name |

## Left out

- Identifiers (truncated uuids) are taken as fresh: counters stand for them.
- The regions of one device's own lock inside a scan under the pool lock are taken together with the scan: the scan of `allocateAny` is one step, so a reservation or a health error that lands between its tests of one device and the transition is not covered.
- The eviction callback starts together with the removal from the map, not after the slot is given back: this allows more interleavings, not fewer. Destroying, losing and marking a device are possible at any time for any tracked device.
- A blocked receive on the semaphore is a step that is not enabled; in which order blocked goroutines wake up is not part of this model.
- Time is a number that only grows; sleeps, tickers and grace periods are not part of this model.
- The farm and the waiting queue are modelled apart: a request that finds the pool exhausted ends in the farm, and the queue is given the pool's outcomes.
- Devices, adb, emulator, Appium, scrcpy and mitmdump processes are oracles: success, failure, visible or not.
- HTTP routing, JSON, websockets, WebRTC set-up, mDNS, telemetry, webhooks, captures and the SQLite store are left out; so is saving the registry to disk.
- Joining a group over the network and the call back to a joining node: the join's effect on the roster is Import and AddNode, the verification an input of HandleAdd.
- Queued and Errored sessions: no code sets these states.
- Emulator adoption and BootAVD take no slot in the source and none here; they are not part of AVD uniqueness.
- The scan that adopts running emulators, profile guessing and the reader of the H.264 stream before its units are not part of this model.
- Each operation of a device and of its port allocator is one step; overlapping Prepare and Shutdown of one device are not part of this model.
- Ownership.StepKeepsWellFormed: session ids are fresh by construction, so a collision of truncated uuids is outside the model.
- ShellQuoting.ClipboardTextArrives: the user id has to be a plain word, since it stands unquoted; other output of `am get-current-user` is not covered.
- ShellQuoting.QuotedArgumentReadsBack: the reader refuses expansions, operators and double quotes outside single quotes instead of interpreting them, since the commands have none there.
- MultipartClient.BuildMultipart: one character stands for one byte, the strings being taken as their UTF-8 bytes; splitting at ASCII characters commutes with that encoding.
- Grants.ReservedDevicesAreGrantedExactlyAfterBoots: with each scan one step; a reservation that lands inside a scan, between the test of a device and its transition, is not covered.
- AnnexB.SampleSplitsBack: for units that obey section 7.4.1 of ITU-T H.264; the source does not check its input.
- AccessUnits.SendNALs: cancelling the context ends the loop at any event, which is a shorter list of events.

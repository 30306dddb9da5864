# Verified model of the OpenNebula CSI driver's attachment control

The driver decides when an OpenNebula VM may hot-plug a disk. This project models that controller
logic in Dafny and proves what it keeps over every run. Verify with
`dafny verify dfyconfig.toml`.

## What is modelled

- **Hotplug queue** (`HotplugQueue*.dfy`): each locked section and each unlocked action of the
  per-node queue is one step of a transition system. The invariant is proved over every schedule,
  and bounded overtaking over every continuation. Who joins whom, who is chosen and what a caller
  gets are told by the fields of the requests.
- **Operation locks** (`OperationLock*.dfy`): the keyed, reference-counted locks as a transition
  system, with mutual exclusion and freedom from deadlock for ordered requests.
- **Attach and detach protocol** (`AttachProtocol.dfy`, `AttachOutcomes.dfy`, `MetadataDrift.dfy`):
  the locked bodies of publish, unpublish, sticky move, sticky expiry, reconciler detach and local
  device recovery, one remote call at a time, against OpenNebula as a set of attachments. Proved are
  single attachment, what each handler achieves and leaves alone, and when it ends. It corresponds to
  ControllerPublishVolume and ControllerUnpublishVolume in the "Controller Service RPC" section of
  the Container Storage Interface specification.
- **Persistent disks** (`VolumeSize*.dfy`, `HotplugWait.dfy`, `DiskNames.dfy`): expansion that
  survives reattach, exactly when it succeeds, the polling loops with their retry, and the device
  names.
- **Records that summarise a history** (`HotplugGuard.dfy`, `Quarantine.dfy`,
  `AttachmentReconciler.dfy`, `Reconciler*.dfy`, `GraceTimers.dfy`, `Recovery*.dfy`,
  `HotplugDiagnosis.dfy`, `Adaptive*.dfy`, `Sticky*.dfy`, `MaintenanceRelease.dfy`): each small
  record is proved to agree with a plain definition over the whole event history.

Objects that the driver updates in place are classes whose methods are proved against functions on
values; the laws are lemmas about those functions. Time is an integer number of nanoseconds, and
the zero time an option. Clocks, remote answers, persistence results and the choices of the
scheduler are arguments or steps.

## Where the code does not keep the expected law

Each of these has a counterexample and an exact condition.

- The sticky move takes the old node's lock while it holds the volume's, against the order all other
  handlers follow, and can deadlock with an unpublish (`StickyMoveCanDeadlock`).
  Without it the handlers have no cycle of waiting clients (`NoCycleIffNoMoves`).
- With the age boost off, every request that is not critical can be overtaken without bound however
  long it has waited (`SettlesIff`, `StarvesWithoutAgeing`).
- Among requests of one age a less urgent one is chosen first when both have aged to the top
  (`PassesMoreUrgentIff`).
- Single attachment needs the drift guard, eligibility, reliable inspections and positive VM ids, and
  a local device recovery that does not attach a volume another VM has (`SingleAttachmentIffSafe`).
  Recovery does not check that (`RecoveryDoubleAttach`).
- `README.md:17` of the driver says the expanded size is restored during attach. A publish that
  finds the disk attached does not restore it, so the retry after a failed restore succeeds with a
  small disk (`PublishedDiskIsBigEnoughIff`, `RetryAfterFailedRestore`).
- Reconciler timers are kept under volume@node strings, so two attachments can share one
  (`OwnGraceIff`, `SharedKeyDetachesEarly`).
- A volume id with surrounding blanks is quarantined under its trimmed form and never found
  (`VolumeQuarantineIff`, `PaddedIdIsMissed`).
- The stuck message claims HOTPLUG for the whole age, but the age counts from the first look ever
  (`MessageTrueIff`, `EveryConfigMisreports`).
- A floor above the maximum timeout is not honoured (`BoundsIff`, `FloorAboveMaximum`), and a scaled
  duration beyond 64 bits wraps around, so that longer samples can lower it (`ScaledIsExactIff`,
  `MonotoneIff`, `OverflowLowers`).
- The recovery limits rest on every end of an attempt being recorded (`AgainWithinCooldownIff`,
  `UnlimitedIsReachable`), and an attempt that began before a clear brings the cleared report back, so
  that the next one can start without the minimum of new reports (`GroundedIff`, `StartsOnNothing`).
- Clearing a sticky entry can be undone by a reload of the ConfigMap after a failed delete or a slow
  write, by a release pass, and by an expiry (`ClearedStaysIff`, `FailedDeleteUndoesClear`,
  `SlowStartUndoesClear`, `ReleaseUndoesClear`, `ExpiryUndoesClear`).
- A started grace period is lost from the table, until the next reload, when the background reader
  installs what it read before (`StartedStaysIff`).
- The stagger of a maintenance release wraps around beyond 64 bits (`StaggeredIff`,
  `WideStaggerFails`).
- Device suffixes beyond a 64-bit index do not read back (`SuffixRoundTripIff`,
  `LongSuffixDoesNotReadBack`), and a disk with such a name can make a free one pass for used
  (`UsedIff`, `FarNameBlocksNearOne`).

## Model

| member | source | states |
|---|---|---|
| `HotplugQueueInvariant.OneWorkerPerNode` | pkg/csi/driver/hotplug_queue.go:326-398 | In every reachable state a node has an entry exactly when it has exactly one live worker; pending work always has one; no two workers hold requests of one node |
| `HotplugQueueInvariant.RequestsCompleteOnce` | pkg/csi/driver/hotplug_queue.go:361-398 | Every accepted request is completed at most once, by cancel or by the worker but not both; its function runs at most once and never after a cancel |
| `HotplugQueueInvariant.RequestsAreNotLost` | pkg/csi/driver/hotplug_queue.go:326-398 | No lost wake-up: a request without an outcome is pending or active, and the worker of its node can step |
| `HotplugQueueInvariant.CallsAreConserved` | pkg/csi/driver/hotplug_queue.go:232-289 | Queued Run calls equal accepted requests plus the sum of their coalesced counters, and each counter is the number of callers that joined |
| `HotplugQueueInvariant.CallersGetTheRecordedError` | pkg/csi/driver/hotplug_queue.go:232-289 | A caller that returns through done gets the error recorded for its request, joined callers included |
| `HotplugQueueInvariant.RunsKeepNoTwins` | pkg/csi/driver/hotplug_queue.go:708-729 | While dedupe is on, no two live requests of one node ask for the same operation on the same volume |
| `HotplugQueueInvariant.StepPreserves` | pkg/csi/driver/hotplug_queue.go:326-504 | Each step of any interleaving of enqueue, cancel, next, run, complete and finish keeps the whole invariant |
| `HotplugQueueInvariant.RunsKeepInv` | pkg/csi/driver/hotplug_queue.go:215-504 | The invariant holds after every schedule from an empty manager |
| `HotplugQueueDedupe.JoinsIff` | pkg/csi/driver/hotplug_queue.go:326-359 | A request joins exactly when dedupe is on and a request with its own node, operation and volume is active or pending, and then joins such a one; otherwise it is appended last with the wait limit of the queue it found |
| `HotplugQueueDedupe.JoinsIffInRuns` | pkg/csi/driver/hotplug_queue.go:326-359 | In every reachable state operation and volume decide alone, because a node's queue holds no other node's requests |
| `HotplugQueueDedupe.OneRequestPerWork` | pkg/csi/driver/hotplug_queue.go:708-729 | In every run with dedupe on, a node has at most one active or pending request for an operation on a volume |
| `HotplugQueueDedupe.RunsKeepOwnWork` | pkg/csi/driver/hotplug_queue.go:232-289 | In every run each caller past enqueue waits for a request with its own node, operation and volume |
| `HotplugQueueDedupe.CallersGetTheirOwnResult` | pkg/csi/driver/hotplug_queue.go:232-289 | So a call that returns through done returns the outcome of its own operation on its own volume and node |
| `HotplugQueueDedupe.WaitLimitOfEmpty` | pkg/csi/driver/hotplug_queue.go:524-540 | The first request of a node may wait for the configured time, up to the cap |
| `HotplugQueueDedupe.WaitLimitGrows` | pkg/csi/driver/hotplug_queue.go:524-540 | Each further request, pending or active, adds the time per item, up to the cap |
| `HotplugQueueResults.ResultsAreOfTheTurn` | pkg/csi/driver/hotplug_queue.go:387-458 | In every run the worker completes a request with the result of its one turn, and the function ran exactly when that turn called it |
| `HotplugQueueResults.CallersGetTheTurnsResult` | pkg/csi/driver/hotplug_queue.go:232-289 | End to end: a call that returns through done gets what the function of a request for its own work returned, or the queue timeout of one that was cancelled |
| `HotplugQueueResults.FirstCompletionWins` | pkg/csi/driver/hotplug_queue.go:698-706 | Completing a request again leaves the first result |
| `HotplugQueueResults.StartedIsAwaited` | pkg/csi/driver/hotplug_queue.go:232-289 | A call that has seen its request start waits for its end and no longer times out |
| `HotplugQueueUrgency.ScoreIsLevel` | pkg/csi/driver/hotplug_queue.go:506-522 | By priority and age alone: critical requests, normal ones from one boost and background ones from two boosts score 0; other normal ones, and background ones from one boost, score 1; other background ones 2 |
| `HotplugQueueUrgency.BoostsLiftByClass` | pkg/csi/driver/hotplug_queue.go:506-522 | A normal request scores like a critical one exactly from one boost on, a background one like a fresh normal one exactly between one and two boosts and like a critical one exactly from two |
| `HotplugQueueUrgency.ChoosesFirstOfBest` | pkg/csi/driver/hotplug_queue.go:460-492 | The request chosen is exactly the first one of the best of these three levels |
| `HotplugQueueUrgency.WorkersChooseFirstOfBest` | pkg/csi/driver/hotplug_queue.go:460-522 | So in every run, and a worker gets none only from an empty list |
| `HotplugQueueUrgency.ChosenIsMostUrgent` | pkg/csi/driver/hotplug_queue.go:460-522 | Without ageing the chosen request is never less urgent than a waiting one, and the first of equals |
| `HotplugQueueUrgency.EqualAgeUrgency` | pkg/csi/driver/hotplug_queue.go:460-522 | With ageing the same among requests of one age, unless the chosen one stands earlier and has aged to the top |
| `HotplugQueueUrgency.PassesMoreUrgentIff` | pkg/csi/driver/hotplug_queue.go:460-522 | A request of some priority and age can be chosen before a more urgent one of the same age exactly when it is not critical and has aged to the top |
| `HotplugQueueFairness.OvertakenIffNotTop` | pkg/csi/driver/hotplug_queue.go:460-522 | A request with the top score is overtaken by nothing behind it in any pending list, and every other one can be overtaken in a list without duplicates |
| `HotplugQueueFairness.TopScoreIff` | pkg/csi/driver/hotplug_queue.go:506-522 | With ageing the top score is reached exactly by waiting the priority class times the age boost, without ageing exactly by critical requests |
| `HotplugQueueFairness.StepMovesUp` | pkg/csi/driver/hotplug_queue.go:460-492 | No step moves a waiting request with the top score back, and every dispatch that leaves it waiting moves it up |
| `HotplugQueueFairness.BoundedOvertaking` | pkg/csi/driver/hotplug_queue.go:460-522 | Over every continuation, a request with the top score at position i no longer waits after i+1 further dispatches of its node |
| `HotplugQueueFairness.GoneMeansServed` | pkg/csi/driver/hotplug_queue.go:460-492 | In every run a request that no longer waits has been taken to run or is completed |
| `HotplugQueueFairness.SettlesIff` | pkg/csi/driver/hotplug_queue.go:460-522 | For every priority there is a waiting time after which overtaking is bounded in every run if and only if ageing is on or the priority is critical |
| `HotplugQueueFairness.StarvesWithoutAgeing` | pkg/csi/driver/hotplug_queue.go:506-522 | Without ageing, for every k some run over at least k units of time dispatches k requests past a waiting one that is not critical |
| `HotplugQueueFairness.StarvingIsReachable` | pkg/csi/driver/hotplug_queue.go:326-398 | The situation such a run starts from is reachable on every node with a request of any age |
| `HotplugQueue.HotplugQueueManager.FindDuplicateRequest` | pkg/csi/driver/hotplug_queue.go:708-721 | The loop finds the active or first pending request for the same work, and none when there is none |
| `HotplugQueue.HotplugQueueManager.Enqueue` | pkg/csi/driver/hotplug_queue.go:326-359 | The critical section in place: join a duplicate or append, and start a worker only where none runs |
| `HotplugQueue.HotplugQueueManager.Cancel` | pkg/csi/driver/hotplug_queue.go:361-385 | Removes exactly a still pending request and completes it; reports failure otherwise |
| `HotplugQueue.HotplugQueueManager.Next` | pkg/csi/driver/hotplug_queue.go:460-492 | The selection loop picks the first request with the best score, or retires the entry of an empty queue |
| `HotplugQueue.HotplugQueueManager.Finish` | pkg/csi/driver/hotplug_queue.go:494-504 | Clears the active request of its own node only |
| `OperationLocks.OperationLocks.NormalizeLockKeys` | pkg/csi/driver/operation_locks.go:100-123 | Strictly sorted, without blanks or repetition, with exactly the non-blank keys given |
| `OperationLocks.OperationLocks.Register` | pkg/csi/driver/operation_locks.go:24-45 | Takes one reference per key, creating missing entries; the references returned are the entries' objects |
| `OperationLocks.OperationLocks.Drop` | pkg/csi/driver/operation_locks.go:46-62 | Gives one reference per key back and deletes the entries left without any |
| `OperationLocks.RegisterAllEffect` | pkg/csi/driver/operation_locks.go:24-45 | Registering keeps every lock object and holder and adds exactly one reference per named key |
| `OperationLocks.DropAllEffect` | pkg/csi/driver/operation_locks.go:46-62 | Dropping takes exactly one reference per named key and removes exactly the entries whose last one it was |
| `OperationLocks.NodeKeysFirst` | pkg/csi/driver/controllerserver.go:1323-1329 | Every node lock key sorts before every volume lock key |
| `OperationLockSystem.EntriesCountClients` | pkg/csi/driver/operation_locks.go:24-98 | In every reachable state an entry exists exactly when a client waits on or holds the key, its count is the number of such clients, and all share its object |
| `OperationLockSystem.MutualExclusion` | pkg/csi/driver/operation_locks.go:24-98 | No two clients ever hold the same key although entries are deleted and recreated |
| `OperationLockSystem.StepPreserves` | pkg/csi/driver/operation_locks.go:24-98 | Each step of Acquire, TryAcquire and release keeps the identity-and-count invariant |
| `OperationLockProgress.SessionsEnd` | pkg/csi/driver/operation_locks.go:24-98 | In every run a call for n keys and the release of what it got take at most 2n + 2 steps |
| `OperationLockProgress.OnlyLocksDelay` | pkg/csi/driver/operation_locks.go:24-62 | A session that is not over can step unless another one has the lock it waits for or its thread is busy |
| `OperationLockProgress.TryIff` | pkg/csi/driver/operation_locks.go:64-98 | A try gets the lock exactly when nobody has it, and otherwise ends with none |
| `OperationLockOrder.NoWaitCycle` | pkg/csi/driver/operation_locks.go:24-45 | If clients ask for keys only above those they hold, no reachable state has a cycle of waiting clients |
| `OperationLockOrder.SomeSessionCanStep` | pkg/csi/driver/operation_locks.go:24-45 | Under that order some client can always step |
| `OperationLockOrder.HandlersNeverDeadlock` | pkg/csi/driver/controllerserver.go:817-822 | In every run of handlers that ask for one node while they hold nothing, or for one volume while they hold at most nodes, nobody waits in a cycle and some session can always step |
| `OperationLockOrder.StuckHasCycle` | pkg/csi/driver/operation_locks.go:24-98 | Whatever the order, a state where nobody can step contains a cycle of waiting clients |
| `OperationLockOrder.CycleIsForever` | pkg/csi/driver/operation_locks.go:24-98 | Clients that wait in a cycle do so for the rest of every run |
| `OperationLockOrder.StickyMoveCanDeadlock` | pkg/csi/driver/controllerserver.go:2146-2223 | The sticky move locks the old node while it holds the volume: for any two nodes and any volume, a run of handlers with one such move reaches a publish and an unpublish that wait for each other for ever |
| `OperationLockOrder.NoCycleIffNoMoves` | pkg/csi/driver/controllerserver.go:2174-2175 | No run of the handlers has a cycle of waiting clients if and only if there are no sticky moves among them |
| `AttachProtocol.SingleAttachmentIffSafe` | pkg/csi/driver/controllerserver.go:817-903 | Every run of publish, unpublish, sticky move, sticky expiry, reconciler detach and local device recovery keeps each volume on at most one VM if and only if the drift guard is on and eligible, inspections succeed and tell the truth, VM ids are positive, and a recovery that does not find its disk attaches only when no other VM has the volume |
| `AttachProtocol.StepPreserves` | pkg/csi/driver/controllerserver.go:1003-1061 | Each step of those handlers keeps the protocol invariant |
| `AttachProtocol.PublishedIsExclusive` | pkg/csi/driver/controllerserver.go:817-903 | Under these conditions an attached VM is the only owner after every run |
| `AttachProtocol.UnguardedDoubleAttach` | pkg/csi/driver/metadata_drift.go:23-88 | If one condition is missing, publishing an attached volume to a second VM goes through |
| `AttachProtocol.OnlyCommittedAttach` | pkg/csi/driver/controllerserver.go:817-903 | Only a committed handler adds an attachment, and only its own; the guard commits a publish, looking for the disk commits a recovery |
| `AttachProtocol.RecoveryDoubleAttach` | pkg/csi/driver/local_device_recovery.go:365-422 | With every other condition met, a run of local device recovery attaches a volume to a second VM |
| `AttachOutcomes.HandlersAchieve` | pkg/csi/driver/controllerserver.go:817-1061 | In every run, a handler that ends without a failed or refused action has done its work: a publish or recovery has its volume on its VM, an unpublish has it detached or kept as a sticky attachment, the reconciler has it detached or finds it sticky, an expiry leaves no sticky entry |
| `AttachOutcomes.CommandsTakeEffect` | pkg/csi/opennebula/persistentdisk.go:513-549 | An accepted attach adds exactly its own attachment and an accepted detach removes exactly its target; a command refused for the VM's state is sent again |
| `AttachOutcomes.NextActions` | pkg/csi/driver/controllerserver.go:1003-1061 | An unpublish that starts no grace period goes on to detach; a publish leaves another node's sticky attachment only without an entry; an expiry forgets a disk it still finds only because Kubernetes wants it; a recovery that sees the disk detaches it first and ends without an entry of its own |
| `AttachOutcomes.OnlyCommandsDetach` | pkg/csi/driver/controllerserver.go:2146-2223 | Attachments go only by an accepted command, of the handler's own volume, from its own VM or the VM of the sticky entry it found |
| `AttachOutcomes.DetachTargets` | pkg/csi/driver/controllerserver.go:2225-2313 | A publish and an expiry aim at the VM of the sticky entry; an expiry detaches nothing Kubernetes still wants there, and the reconciler nothing sticky |
| `AttachOutcomes.OnlyOwnEntryChanges` | pkg/csi/driver/controllerserver.go:2070-2144 | Sticky entries of other volumes stay; only an unpublish makes one, for its own VM; which handlers end one |
| `AttachOutcomes.StaysUnclaimed` | pkg/csi/driver/controllerserver.go:2146-2169 | In every run a publish that has looked for a sticky attachment gives the lock back with no entry for its own VM, unless one is put there without the lock |
| `AttachOutcomes.HandlersEnd` | pkg/csi/driver/controllerserver.go:817-1061 | In every run a handler ends after at most seven actions that tell it something new |
| `AttachOutcomes.StaysDetached` | pkg/csi/driver/controllerserver.go:1003-1061 | What a finished handler has detached stays detached in every run until it gives the lock back |
| `MetadataDrift.ConflictingOwnerVMIDs` | pkg/csi/opennebula/opennebula.go:80-100 | Exactly the positive owners other than the requested VM, strictly increasing |
| `MetadataDrift.AttachmentMetadataDriftDetected` | pkg/csi/driver/metadata_drift.go:146-160 | Drift is a conflicting owner, or an image in use by a running VM the requested node does not account for |
| `MetadataDrift.GuardPassesIff` | pkg/csi/driver/metadata_drift.go:23-88 | Told the truth, the guard lets a publish through exactly when every owner with a positive id is the requested VM and the image is not in use elsewhere |
| `MetadataDrift.GuardWithoutFacts` | pkg/csi/driver/metadata_drift.go:23-88 | Switched off or not eligible it lets everything through, and after a failed inspection everything not in quarantine |
| `MetadataDrift.InUseStates` | pkg/csi/driver/metadata_drift.go:172-175 | Of all state names exactly USED, USED_PERS, LOCKED_USED and LOCKED_USED_PERS mean in use, in either case |
| `MetadataDrift.StateIgnoresBlanks` | pkg/csi/driver/metadata_drift.go:172-175 | Blanks around a state do not matter |
| `VolumeSize.BytesToMiBRoundUp` | pkg/csi/opennebula/persistentdisk.go:1126-1132 | The least number of MiB that holds the size |
| `VolumeSize.EffectiveVolumeSizeBytes` | pkg/csi/opennebula/persistentdisk.go:1163-1168 | The larger of canonical and requested size |
| `VolumeSize.RequestedSizeFromTemplate` | pkg/csi/opennebula/persistentdisk.go:1170-1213 | The largest usable byte tag, else the largest usable MiB tag, an error when only unusable ones exist, zero when there are none |
| `VolumeSize.PersistentDisk.ExpandVolume` | pkg/csi/opennebula/persistentdisk.go:370-450 | The expansion sequence in place, with every error exit |
| `VolumeSize.PersistentDisk.RestoreAttachedVolumeRequestedSize` | pkg/csi/opennebula/persistentdisk.go:1300-1370 | The restoring resize after an attach, in place |
| `VolumeSize.EffectiveNeverShrinksOverRuns` | pkg/csi/opennebula/persistentdisk.go:1134-1168 | Over any run of expand, attach, detach and canonical growth, successful or not, the effective size never decreases |
| `VolumeSize.ExpandTakesEffect` | pkg/csi/opennebula/persistentdisk.go:370-450 | A successful expansion makes exactly the requested size effective |
| `VolumeSize.AttachRestores` | pkg/csi/opennebula/persistentdisk.go:550-554 | A successful attach ends with a disk of at least the effective size |
| `VolumeSize.ExpansionSurvivesReattach` | README.md:17 | After a successful expansion to S and any run, every later successful attach ends with a disk of at least S although the canonical size may be stale |
| `VolumeSize.ExpandedDiskIsBigEnoughIff` | pkg/csi/opennebula/persistentdisk.go:370-396 | A successful expansion leaves a smaller disk attached exactly when S was already effective and the disk already smaller |
| `VolumeSize.PublishedDiskIsBigEnoughIff` | pkg/csi/driver/controllerserver.go:780-796 | A successful publish gives the full size exactly when it did not find a smaller disk already attached |
| `VolumeSize.RetryAfterFailedRestore` | pkg/csi/opennebula/persistentdisk.go:1300-1370 | That happens: a publish whose restoring resize fails is followed by a retry that succeeds with the small disk |
| `VolumeSizeResults.RequestedSizeIs` | pkg/csi/opennebula/persistentdisk.go:1170-1213 | The size a template asks for, by its tags: the largest usable byte tag, else the largest usable MiB tag; zero exactly when all are blank, an error exactly when none is usable and one is not blank |
| `VolumeSizeResults.EffectiveSizeIs` | pkg/csi/opennebula/persistentdisk.go:1134-1168 | The larger of image and template size, and an error exactly for a broken template or a marker without a size |
| `VolumeSizeResults.EitherTagSurvives` | pkg/csi/opennebula/persistentdisk.go:370-450 | A recorded size is asked for again by the byte tag, and by the MiB tag alone rounded up by less than a MiB |
| `VolumeSizeResults.ExpandSucceedsIff` | pkg/csi/opennebula/persistentdisk.go:370-450 | An expansion succeeds exactly when it asks for a positive size of at least a readable current one, and either for just that, or a disk is attached that has the size or was seen grown to it, and the update was verified |
| `VolumeSizeResults.ExpandLeaves` | pkg/csi/opennebula/persistentdisk.go:370-450 | Successful or not, it resizes only an attached disk too small for a larger size, and records the size exactly when the disk is known to have it and the update takes effect |
| `VolumeSizeResults.ExpandReports` | pkg/csi/opennebula/persistentdisk.go:392-449 | The size it reports is the attached disk's, and large enough |
| `VolumeSizeResults.ResizePlanIs` | pkg/csi/opennebula/persistentdisk.go:1365-1370 | A resize is planned exactly for a disk smaller than asked for, to the least MiB count that covers it |
| `VolumeSizeResults.RestoreSucceedsIff` | pkg/csi/opennebula/persistentdisk.go:1300-1363 | A restore succeeds exactly when the template is sound and the disk has or was seen to reach the size asked for |
| `VolumeSizeResults.AttachSucceedsIff` | pkg/csi/opennebula/persistentdisk.go:513-554 | An attach succeeds exactly when the size is readable and not zero, the disk was seen in time and it reaches the size asked for; it leaves a disk attached exactly when OpenNebula took the command |
| `HotplugWait.WaitForState` | pkg/csi/opennebula/persistentdisk.go:1506-1632 | The loops end at the first stopping poll with its result; retries are sent exactly after a ready VM and a misplaced disk were seen and until one is accepted; at most one is accepted |
| `HotplugWait.SendAndWait` | pkg/csi/opennebula/persistentdisk.go:513-549 | Over a whole attach or detach at most one command is accepted; after a first one refused for a busy VM it is sent again exactly where a ready VM and a misplaced disk are seen and none was accepted; success means an attach saw the disk and a ready VM, a detach saw the disk gone |
| `DiskNames.LinuxDiskLetters` | pkg/csi/opennebula/persistentdisk.go:719-733 | The loop writes the index in bijective base 26 |
| `DiskNames.LinuxDiskTargetIndex` | pkg/csi/opennebula/persistentdisk.go:701-717 | Accepts exactly prefixed non-empty lowercase suffixes and returns their index in 64-bit arithmetic |
| `DiskNames.IndexOfLetters` | pkg/csi/opennebula/persistentdisk.go:701-733 | The suffix of every index reads back as that index |
| `DiskNames.LettersOfIndex` | pkg/csi/opennebula/persistentdisk.go:701-733 | The index of every lowercase suffix writes that suffix again |
| `DiskNames.SuffixRoundTripIff` | pkg/csi/opennebula/persistentdisk.go:701-733 | With 64-bit wrap-around the round trip works exactly while the true index fits |
| `DiskNames.LongSuffixDoesNotReadBack` | pkg/csi/opennebula/persistentdisk.go:701-733 | Fourteen letters z do not read back |
| `DiskNames.UnusedNameIsFree` | pkg/csi/opennebula/persistentdisk.go:676-699 | A name whose index is unused is the target of no disk, trimmed or not |
| `DiskNames.NextAvailableDiskTarget` | pkg/csi/opennebula/persistentdisk.go:676-699 | The returned name is that of the lowest unused index and the target of no disk; no name is returned exactly when all 512 indices are used |
| `DiskNames.UsedIff` | pkg/csi/opennebula/persistentdisk.go:676-717 | An index counts as used exactly when a disk carries its name, or the name of an index that equals it in 64 bits |
| `DiskNames.FarNameBlocksNearOne` | pkg/csi/opennebula/persistentdisk.go:676-717 | So a disk with a name 2^64 indices further makes a free name pass for used |
| `DiskNames.PrefixIs` | pkg/csi/opennebula/persistentdisk.go:676-680 | The configured prefix without blanks around it, and sd when it is missing or blank |
| `HotplugGuard.HotplugGuard.MarkUnhealthyFailure` | pkg/csi/driver/hotplug_guard.go:45-82 | One failure in place, with the whole new table |
| `HotplugGuard.HotplugGuard.Get` | pkg/csi/driver/hotplug_guard.go:144-166 | What is reported and what is deleted |
| `HotplugGuard.GuardRefinesHistory` | pkg/csi/driver/hotplug_guard.go:45-82 | For every timed run the record agrees with the history: before the first pause the count and the first and last time are those of the longest suffix of failures since the last Clear without a gap above the cooldown; a pause goes on counting from there, has no expiry and lasts until Clear |
| `HotplugGuard.StreakIsLongest` | pkg/csi/driver/hotplug_guard.go:45-82 | The length used is that of the longest such suffix |
| `HotplugGuard.NextMarkPausesIff` | pkg/csi/driver/hotplug_guard.go:45-82 | A failure pauses exactly when the suffix it completes reaches the threshold, or a pause was on |
| `HotplugGuard.GetReportsIffPaused` | pkg/csi/driver/hotplug_guard.go:144-166 | Get reports a state exactly while paused |
| `HotplugGuard.GetsChangeNoLaterResult` | pkg/csi/driver/hotplug_guard.go:144-166 | Leaving every Get out of a run changes no later result |
| `HotplugGuard.EmptyNodeNeverCounts` | pkg/csi/driver/hotplug_guard.go:45-82 | For the empty node name every failure starts over |
| `AttachmentReconciler.Reconciler.ReconcileOnce` | pkg/csi/driver/attachment_reconciler.go:79-247 | A completed pass, with all index loops: exactly the due orphan, divergent and stale items are acted on, and the seen maps keep exactly the keys met |
| `AttachmentReconciler.Reconciler.constructor` | pkg/csi/driver/attachment_reconciler.go:32-54 | Grace times as set when they are positive, else 120 and 90 seconds, and no timer running |
| `ReconcilerVerdicts.VerdictIff` | pkg/csi/driver/attachment_reconciler.go:150-215 | By what the snapshot lists: kept exactly when wanted, skipped or unknown; otherwise divergent exactly when a VolumeAttachment is about the volume, and an orphan exactly when none is |
| `ReconcilerVerdicts.StaleIff` | pkg/csi/driver/attachment_reconciler.go:217-241 | A VolumeAttachment is stale exactly when it says attached, is not skipped, names a known volume, and OpenNebula shows no disk under its volume and node |
| `ReconcilerVerdicts.ActivePodIff` | pkg/csi/driver/attachment_reconciler.go:112-124 | A volume is in use exactly when a live pod of the claim's namespace mounts the claim, for namespaces without a slash |
| `ReconcilerVerdicts.NamedIs` | pkg/csi/driver/attachment_reconciler.go:101-110 | Of several volumes with one name the last one listed counts |
| `ReconcilerVerdicts.WithHandleIs` | pkg/csi/driver/attachment_reconciler.go:101-110 | And of several with one handle |
| `GraceTimers.Due` | pkg/csi/driver/attachment_reconciler.go:306-315 | A key is due when it was seen before and the grace has passed; a new key is recorded and not due |
| `GraceTimers.Prune` | pkg/csi/driver/attachment_reconciler.go:317-325 | Keys not met in the pass are forgotten, the others keep their first time |
| `ReconcilerSnapshot.ActiveClaims` | pkg/csi/driver/attachment_reconciler.go:112-124 | Exactly the claims of pods that are neither finished nor being deleted |
| `ReconcilerSnapshot.GroupVolumeAttachments` | pkg/csi/driver/attachment_reconciler.go:133-143 | Every VolumeAttachment of a known volume is filed under that volume and nowhere else |
| `ReconcilerRuns.SeenIsRunStart` | pkg/csi/driver/attachment_reconciler.go:306-325 | After every run the seen time of a key is the time of the first pass of its current unbroken run |
| `ReconcilerRuns.DetachIff` | pkg/csi/driver/attachment_reconciler.go:150-215 | For every run, an attachment is detached exactly when the pass judges it so and its key was judged so in an earlier pass, in every pass since, and over at least the grace time |
| `ReconcilerRuns.DetachedIsUnwanted` | pkg/csi/driver/attachment_reconciler.go:166-182 | Never when that pass shows an attached VolumeAttachment for the node, a pod using the claim, or a busy volume |
| `ReconcilerKeys.OwnGraceIff` | pkg/csi/driver/attachment_reconciler.go:165-185 | Over any set of attachments, orphans are detached only after they themselves were judged so for the grace time, in every run, exactly when no two of them share a key |
| `ReconcilerKeys.PlainHandlesIdentify` | pkg/csi/driver/attachment_reconciler.go:165-166 | No two share a key where volume handles contain no '@' |
| `ReconcilerKeys.PlainNodesIdentify` | pkg/csi/driver/attachment_reconciler.go:165-166 | Nor where node names contain none |
| `ReconcilerKeys.SharedKeyDetachesEarly` | pkg/csi/driver/attachment_reconciler.go:306-315 | Two attachments with one key: the second is detached in the first pass that shows it |
| `ReconcilerKeys.KeysCanCollide` | pkg/csi/driver/attachment_reconciler.go:165-166 | Volume v on node n@m and volume v@n on node m share a key |
| `ReconcilerRuns.StaleDeleteIff` | pkg/csi/driver/attachment_reconciler.go:217-241 | The same law for deleting stale VolumeAttachments |
| `RecoveryLimiter.ReportStore.RecordDeviceMissing` | pkg/csi/driver/local_device_recovery.go:58-102 | A missing device updates the report in place and counts the observation |
| `RecoveryLimiter.ReportStore.RecordMountFailure` | pkg/csi/driver/local_device_recovery.go:121-165 | A mount failure updates the report in place and counts the observation |
| `RecoveryLimiter.ReportStore.UpdateRecoveryFailure` | pkg/csi/driver/local_device_recovery.go:453-491 | A failed attempt merges what it saw into the current report, never back in time, and stamps it |
| `RecoveryLimiter.LimitsFrom` | pkg/csi/driver/local_device_recovery.go:665-703 | Whatever the settings, the limits used are positive counts and non-negative times |
| `RecoveryLimiter.StepPreserves` | pkg/csi/driver/local_device_recovery.go:424-491 | Reports, clears, skips and attempts in flight keep the link between the report and the recorded attempts |
| `RecoveryLimiter.AttemptsAreLimited` | pkg/csi/driver/local_device_recovery.go:424-491 | Over every run consecutive recorded attempts are a cooldown apart, and from attempt number max on each answers a newer report with a different signature |
| `RecoveryLimiter.ConstantFailureIsBounded` | pkg/csi/driver/local_device_recovery.go:424-491 | So an unchanging signature gets at most max attempts |
| `RecoveryLimiter.NextAttemptIsLimited` | pkg/csi/driver/local_device_recovery.go:424-451 | The limits also bind an attempt whose failure will not be recorded |
| `RecoveryLimiter.RetryAfterMaxIff` | pkg/csi/driver/local_device_recovery.go:424-451 | In every run, once max attempts have failed and nothing else holds it back, a recovery starts again exactly for a newer report with a different signature |
| `RecoveryLimiter.AgainWithinCooldownIff` | pkg/csi/driver/local_device_recovery.go:424-491 | The next attempt can start within the cooldown of an attempt's end, in some continuation in which the report is not cleared, exactly when that end was not recorded |
| `RecoveryLimiter.RecordedEndBlocks` | pkg/csi/driver/local_device_recovery.go:424-491 | After a recorded end, whatever is reported meanwhile, the next attempt comes a cooldown later |
| `RecoveryLimiter.LostRecordsAreUnlimited` | pkg/csi/driver/local_device_recovery.go:453-491 | Attempts that end without a record leave no trace: any number can follow at one time with one report |
| `RecoveryLimiter.UnlimitedIsReachable` | pkg/csi/driver/local_device_recovery.go:424-491 | This is reached on every node, for every volume and failure, whatever the limits |
| `RecoveryLimiter.SameSignatureIff` | pkg/csi/driver/local_device_recovery.go:621-642 | Equal trimmed fields give equal signatures; the converse holds when no field contains a bar |
| `RecoveryGrounds.PartsIff` | pkg/csi/driver/local_device_recovery.go:621-642 | The parts of a signature are equal exactly when class and all seven fields are, but for blanks |
| `RecoveryGrounds.LimitsFollowSettings` | pkg/csi/driver/local_device_recovery.go:665-703 | Settings that make sense are used as they are; the defaults are 3 reports, 60 and 300 seconds, and 2 attempts |
| `RecoveryGrounds.FirstGoIff` | pkg/csi/driver/local_device_recovery.go:424-451 | A first recovery starts exactly on a named report with enough observations, the first of them old enough |
| `RecoveryGrounds.GoIff` | pkg/csi/driver/local_device_recovery.go:424-451 | Any recovery starts exactly when a first one would, the cooldown is over and, from the maximum on, the report is newer than the last recovery and about another failure |
| `RecoveryGrounds.AttemptsAreGrounded` | pkg/csi/driver/local_device_recovery.go:424-451 | In every run, an attempt that may start rests on at least the minimum number of reports since the last clear, the first of them at least the minimum age old, unless an attempt that began before that clear wrote its copy back |
| `RecoveryGrounds.StartsOnNothing` | pkg/csi/driver/local_device_recovery.go:493-509 | Whatever the limits: a report cleared during an attempt comes back when the attempt is skipped, and the next attempt starts on no report since the clear |
| `RecoveryGrounds.GroundedIff` | pkg/csi/driver/local_device_recovery.go:424-509 | Every attempt of every run rests on enough reports since the last clear if and only if no such copy is written back |
| `RecoveryGrounds.FailedKeepsObservations` | pkg/csi/driver/local_device_recovery.go:453-491 | Recording a failed attempt loses no observation the report or the attempt had, and stamps time, count and signature |
| `Quarantine.VolumeQuarantineManager.MarkFailure` | pkg/csi/driver/volume_quarantine.go:97-137 | One failure in place, with the whole new table and whether it is active |
| `Quarantine.VolumeQuarantineManager.GetActive` | pkg/csi/driver/volume_quarantine.go:81-95 | Looks the id up as it is written |
| `Quarantine.VolumeQuarantineManager.ClearEntry` | pkg/csi/driver/volume_quarantine.go:145-157 | Removes the entry of the trimmed id |
| `Quarantine.HostArtifactQuarantineManager.MarkFailure` | pkg/csi/driver/host_artifact_quarantine.go:111-158 | One failure in place, with the whole new table and whether it is active |
| `Quarantine.HostArtifactQuarantineManager.GetActive` | pkg/csi/driver/host_artifact_quarantine.go:95-109 | Looks the trimmed key up |
| `Quarantine.HostArtifactQuarantineManager.ClearEntry` | pkg/csi/driver/host_artifact_quarantine.go:167-179 | Removes the entry of the trimmed key |
| `Quarantine.EntryIsTrailingRun` | pkg/csi/driver/volume_quarantine.go:97-143 | For every run of calls the count, the times and the expiry of an entry are those of its trailing run of equal failures since the last clear |
| `Quarantine.TrailingRunIsLongest` | pkg/csi/driver/volume_quarantine.go:139-143 | That run is the longest suffix with one series |
| `Quarantine.HostQuarantineIff` | pkg/csi/driver/host_artifact_quarantine.go:95-165 | Active exactly when that run has reached the threshold and the last failure is younger than the time to live, however the key is written |
| `Quarantine.VolumeQuarantineIff` | pkg/csi/driver/volume_quarantine.go:81-137 | The same for volumes, but exactly for ids without surrounding blanks: any other id is never active |
| `Quarantine.PaddedIdIsMissed` | pkg/csi/driver/volume_quarantine.go:81-95 | For every id with blanks around it: marked to the threshold, the volume is quarantined and asking for that id does not find it |
| `Quarantine.BlanksAroundOne` | pkg/csi/driver/volume_quarantine.go:81-95 | For instance an id of one character between blanks |
| `Quarantine.SameVolumeSeriesIff` | pkg/csi/driver/volume_quarantine.go:139-143 | Two failures of a volume are the same exactly when reason, classification and requested node are, but for blanks |
| `Quarantine.SameHostSeriesIff` | pkg/csi/driver/host_artifact_quarantine.go:160-165 | Two host artifact failures are the same exactly when classification, VM, disk and volume name are |
| `Quarantine.BlankIsLocalConflict` | pkg/csi/driver/host_artifact_quarantine.go:111-158 | A blank classification counts as a local LV conflict |
| `Quarantine.PoliciesFollowSettings` | pkg/csi/driver/volume_quarantine.go:97-137 | Positive settings are used as they are; the defaults are twice and 30 minutes for volumes, once and 60 minutes for host artifacts |
| `HotplugDiagnosis.ChainSummary` | pkg/csi/opennebula/hotplug_diagnosis.go:151-178 | Along every chain the stored times are those of the first look, the latest change of signature or state, and the last look |
| `HotplugDiagnosis.TimesAreOrdered` | pkg/csi/opennebula/hotplug_diagnosis.go:163-178 | First, changed and last are in order |
| `HotplugDiagnosis.StuckIff` | pkg/csi/opennebula/hotplug_diagnosis.go:200-224 | Stuck exactly when every look of some progress window at the end was HOTPLUG with one signature and the chain is as old as the stuck time |
| `HotplugDiagnosis.ClassIff` | pkg/csi/opennebula/hotplug_diagnosis.go:200-224 | The state of the last look decides between ready, the two hotplug classes and unknown |
| `HotplugDiagnosis.SettingsAreUsed` | pkg/csi/opennebula/hotplug_diagnosis.go:151-157 | Positive settings are used as they are; the defaults are five minutes and one |
| `HotplugDiagnosis.ClockIsDefault` | pkg/csi/opennebula/hotplug_diagnosis.go:158-162 | The clock is read exactly for an observation without a time |
| `HotplugDiagnosis.StuckMeansNoProgress` | pkg/csi/opennebula/hotplug_diagnosis.go:200-224 | A stuck chain ends in looks over the progress window that are all HOTPLUG with the same signature |
| `HotplugDiagnosis.MessageTrueIff` | pkg/csi/opennebula/hotplug_diagnosis.go:201-212 | The message that the VM remained in HOTPLUG without progress for the printed, rounded age is true of a stuck chain exactly when the time since the latest change is at least that age |
| `HotplugDiagnosis.EveryConfigMisreports` | pkg/csi/opennebula/hotplug_diagnosis.go:201-212 | Whatever the settings, some stuck chain carries a false message |
| `HotplugDiagnosis.StuckTimeHoldsIff` | pkg/csi/opennebula/hotplug_diagnosis.go:201-212 | A stuck VM was in HOTPLUG without progress for the configured stuck time, in every chain, exactly when the progress window is at least that long |
| `HotplugDiagnosis.ShortHotplugIsStuck` | pkg/csi/opennebula/hotplug_diagnosis.go:163-178 | A chain that shows it otherwise: the age counts from the first look, even one at a running VM |
| `AdaptiveTimeout.AdaptiveTimeoutTracker.Observe` | pkg/csi/opennebula/adaptive_timeout.go:68-82 | Appends a positive duration and drops what exceeds the window |
| `AdaptiveTimeout.AdaptiveTimeoutTracker.Recommend` | pkg/csi/opennebula/adaptive_timeout.go:84-126 | The recommendation, the sample count and the time of the last sample |
| `AdaptiveTimeout.WindowIsLastPositive` | pkg/csi/opennebula/adaptive_timeout.go:68-82 | After every run the window is the last sampleWindow positive observations of its key |
| `AdaptiveTimeout.SmallWindowNeverAdapts` | pkg/csi/opennebula/adaptive_timeout.go:102-104 | A window too small for the required samples always recommends the floor |
| `AdaptiveTimeout.P95Iff` | pkg/csi/opennebula/adaptive_timeout.go:108-115 | The chosen element is at most x exactly when at least 95 percent of the samples are |
| `AdaptiveTimeout.FloatIndexIsExact` | pkg/csi/opennebula/adaptive_timeout.go:109-115 | The index the driver computes in floating point is the exact one for every window below 2^40 samples |
| `AdaptiveTimeout.RestsOnPercentile` | pkg/csi/opennebula/adaptive_timeout.go:108-115 | It is a sample, and the smallest one with that property |
| `AdaptiveTimeout.BoundsIff` | pkg/csi/opennebula/adaptive_timeout.go:116-125 | With enough samples the result lies between floor and maximum exactly when these do not contradict each other; otherwise the maximum wins |
| `AdaptiveTimeout.FloorAboveMaximum` | pkg/csi/opennebula/adaptive_timeout.go:116-125 | A floor of 20 with a maximum of 10 gives 10 |
| `AdaptiveTimeout.ScaledIsExactIff` | pkg/csi/opennebula/adaptive_timeout.go:117-117 | The 64-bit scaling is the exact one, rounded up, exactly as long as the product fits |
| `AdaptiveTimeout.OrderDoesNotMatter` | pkg/csi/opennebula/adaptive_timeout.go:102-126 | The recommendation depends on the samples, not on their order |
| `AdaptiveTimeout.LongerSampleNeverLowers` | pkg/csi/opennebula/adaptive_timeout.go:102-126 | It is monotone in each sample as long as the scaled percentile fits in 64 bits |
| `AdaptiveTimeout.MonotoneIff` | pkg/csi/opennebula/adaptive_timeout.go:102-126 | Over all windows the tracker keeps, of samples up to a size, the recommendation is monotone in each sample exactly when that size, scaled, fits in 64 bits |
| `AdaptiveTimeout.OverflowLowers` | pkg/csi/opennebula/adaptive_timeout.go:117-117 | Where it does not fit, a longer sample can lower it |
| `AdaptiveRecommendation.RecommendationIff` | pkg/csi/opennebula/adaptive_timeout.go:102-126 | Without sorting and scaling: with enough samples the recommendation is at most x exactly when the maximum is, or the floor is and at least 95 percent of the samples, multiplied by the percentage, are |
| `AdaptiveRecommendation.FloorWithoutSamples` | pkg/csi/opennebula/adaptive_timeout.go:84-104 | Switched off or without enough samples it is the floor |
| `AdaptiveRecommendation.WindowIsLatest` | pkg/csi/opennebula/adaptive_timeout.go:68-82 | After every run the window is the end of the key's positive observations, as long as there is room |
| `AdaptiveRecommendation.SettingsAreUsed` | pkg/csi/opennebula/adaptive_timeout.go:31-45 | Positive settings are used as they are; the defaults are 8 samples, a window of 20 and 400 percent |
| `StickyAttachments.StickyAttachmentManager.Put` | pkg/csi/driver/sticky_attachment.go:98-101 | The first locked section of StartGrace and Update, with what was there before |
| `StickyAttachments.StickyAttachmentManager.RollBack` | pkg/csi/driver/sticky_attachment.go:103-109 | Their second locked section: puts the earlier entry back or removes the new one |
| `StickyAttachments.StickyAttachmentManager.StartGrace` | pkg/csi/driver/sticky_attachment.go:52-69 | Undisturbed, stores the entry, or leaves none behind when it cannot be persisted |
| `StickyAttachments.StickyAttachmentManager.Update` | pkg/csi/driver/sticky_attachment.go:91-113 | Undisturbed, replaces the entry, or restores the table when it cannot be persisted |
| `StickyAttachments.StickyAttachmentManager.Clear` | pkg/csi/driver/sticky_attachment.go:81-89 | Removes the entry of that id only |
| `StickyAttachments.StickyAttachmentManager.ListExpired` | pkg/csi/driver/sticky_attachment.go:115-128 | Exactly the entries whose time has come |
| `StickyAttachments.StickyAttachmentManager.ListByReason` | pkg/csi/driver/sticky_attachment.go:130-147 | Copies of exactly the entries with that reason, strictly sorted by id |
| `StickyClears.ClearedStaysIff` | pkg/csi/driver/sticky_attachment.go:52-178 | With the table unlocked during store calls and reloaded from the ConfigMap: a cleared volume stays cleared until asked for again, in every run, exactly when it is neither in the store nor in a load under way, no start or update of it has its store write or restoring rollback to come, and no release pass or expiry has a copy of it |
| `StickyClears.QuietClearIsFinal` | pkg/csi/driver/sticky_attachment.go:81-89 | With nothing else under way for the volume, a clear whose store delete succeeds is final |
| `StickyStarts.StartedStaysIff` | pkg/csi/driver/sticky_attachment.go:52-178 | Whatever other volumes go through, a started and persisted grace period stays in the table if and only if the background reader is not about to install what it read before |
| `StickyStarts.DeferMovesExpiry` | pkg/csi/driver/controllerserver.go:2316-2329 | A deferral writes the copy it read back with the new expiry |
| `StickyUndone.FailedDeleteUndoesClear` | pkg/csi/driver/sticky_attachment.go:81-89 | A reachable clear whose store delete failed, so that the next load puts the entry back |
| `StickyUndone.SlowStartUndoesClear` | pkg/csi/driver/sticky_attachment.go:52-69 | A reachable clear that overtook the store write of a start |
| `StickyUndone.ReleaseUndoesClear` | pkg/csi/driver/maintenance_mode.go:385-400 | A reachable clear between a release pass's listing and writing back |
| `StickyUndone.ExpiryUndoesClear` | pkg/csi/driver/controllerserver.go:2225-2234 | A reachable clear between the expiry's read and its deferral |
| `MaintenanceRelease.ReleaseBounds` | pkg/csi/driver/maintenance_mode.go:412-422 | Both bounds are non-negative and in order |
| `MaintenanceRelease.BoundsFollowSettings` | pkg/csi/driver/maintenance_mode.go:412-422 | A non-negative minimum and a maximum no smaller are used as set; otherwise 300 seconds, and the minimum |
| `MaintenanceRelease.ScheduledSays` | pkg/csi/driver/maintenance_mode.go:393-399 | A release keeps volume and node, expires its delay after now, states the delay in whole seconds and is no hold any more |
| `MaintenanceRelease.StaggeredIff` | pkg/csi/driver/maintenance_mode.go:424-430 | Two or more holds are spread from exactly the minimum to exactly the maximum, never back, in gaps that differ by at most one unit, exactly when the largest product fits in 64 bits |
| `MaintenanceRelease.DelayIsExact` | pkg/csi/driver/maintenance_mode.go:424-430 | Then every delay is the one that is meant |
| `MaintenanceRelease.WideStaggerFails` | pkg/csi/driver/maintenance_mode.go:424-430 | Three holds over 2^62 nanoseconds are not staggered so |
| `MaintenanceRelease.ReleaseMaintenanceHolds` | pkg/csi/driver/maintenance_mode.go:381-410 | The release loop in place: every hold that persists gets the delay of its rank, everything else is unchanged |
| `MaintenanceRelease.FirstSuccessDecides` | pkg/csi/driver/maintenance_mode.go:381-410 | Over every run of passes a hold is scheduled by the first pass that persists it and moved by no later one |
| `MaintenanceRelease.ScheduledWithinBounds` | pkg/csi/driver/maintenance_mode.go:393-399 | So, where the stagger holds, a scheduled hold expires between the two bounds after that pass |
| `MaintenanceRelease.StillHeld` | pkg/csi/driver/maintenance_mode.go:398-402 | A hold no pass persists stays a hold |
| `MaintenanceRelease.OthersStay` | pkg/csi/driver/maintenance_mode.go:127-139 | Entries that are not holds survive every run of passes unchanged |
| `MaintenanceRelease.OnePassIsEnough` | pkg/csi/driver/maintenance_mode.go:127-139 | If the first pass persists everything, later passes change nothing |

## Left out

- Controller handlers are modelled on values and steps rather than as methods, because other handlers run between their remote calls; request validation, fast paths and error texts are not modelled.
- Nodes are named by VM id in the attach protocol, so the resolution of names to VM ids is taken as stable; command effects happen at the call.
- AttachOutcomes.HandlersAchieve: takes an unpublish or reconciler detach whose look at the disk fails as a failure, although the driver reports success then.
- One leader is assumed in the attach protocol; two leaders at once are not modelled.
- The sticky move is excluded from the freedom-from-deadlock theorem, because it breaks the lock order; the deadlock it allows is proved instead.
- HotplugQueueInvariant.RunsKeepNoTwins: assumes that dedupe stays on for the whole run, as reconfiguring a running queue can let twins in.
- The queue's Run with an empty node name bypasses the queue and is not modelled; nor are its maximum active time, snapshots, their debouncing and metrics.
- The hotplug guard's MarkPaused, MarkCooldown and Load, which overwrite count and expiry, are not covered by the history definition.
- Quarantine.EntryIsTrailingRun: assumes one threshold and time to live for all calls and no reload from the ConfigMap.
- AdaptiveTimeout.AdaptiveTimeoutTracker.Recommend: takes the exact percentile index; the driver's floating-point index is proved equal below 2^40 samples.
- Windows loaded by UnmarshalJSON are not modelled; they are cut only by the next observation.
- ReconcilerVerdicts.ActivePodIff: is for namespaces without a slash, the only ones Kubernetes allows.
- The size buckets of adaptive timeout keys are not modelled.
- Clocks do not run backwards in the queue, guard, reconciler and diagnosis models; the driver reads the wall clock, which can be set back.
- Settings in seconds whose value in nanoseconds exceeds 64 bits are not modelled.
- StickyAttachments.StickyAttachmentManager.StartGrace: is one undisturbed call; its two locked sections are Put and RollBack, and what happens between them is in StickyRaces, StickyClears and StickyStarts, except for the loss of a newer entry when a start is rolled back.
- StickyAttachments.StickyAttachmentManager.Update: is one undisturbed call; its two locked sections are Put and RollBack, and what happens between them is in StickyRaces and StickyClears.
- MaintenanceRelease.ReleaseMaintenanceHolds: is one undisturbed pass; a clear between listing and writing back is in StickyRaces and StickyClears.
- MaintenanceRelease.FirstSuccessDecides: speaks of runs of passes alone, without other calls or a reload of the ConfigMap between them; the same holds for OthersStay, StillHeld and OnePassIsEnough.
- The sticky ConfigMap is written by one controller; other replicas and hand edits are not modelled.
- A malformed recovery report, which the driver replaces by an empty one, is not modelled.
- Maintenance activation, readiness keys and the preparation of holds are not modelled.
- AttachmentReconciler.Reconciler.ReconcileOnce: returns the attachments to detach as sets; the multi-attach warning, metrics and events are left out, and the detach itself is in the attach protocol.
- The recovery report's claim names, error texts and outcome strings, which no decision reads, are left out, as are the backend checks before a report.
- The construction of hotplug observations from VM disks, and the other texts of a diagnosis, are not modelled.
- The disk id scan of nextAvailableDiskID and the rounding of CreateVolume are not modelled.
- Datastore autopilot, pagination, access modes, preflight, CephFS, mounts, device discovery, Kubernetes and OpenNebula clients, gRPC, webhooks and metrics are input, output or foreign code.

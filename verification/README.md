# Verified model of the KV-checkpoint subsystem and its companions

The manager starts local inference engines, saves the state of their slots ("KV checkpoints") when they
stop or idle, and restores that state into a new process. This project models the code that decides when a
process may be routed to, how checkpoints are committed, pruned and reloaded, and five smaller components
with the same need for care: atomic file replacement, the content-hash cache, the dynamic n-gram cache,
local qualification, and four parsers or printers. `dafny verify dfyconfig.toml` verifies the whole project.

How the files fit together:

- **Coordinator**: `Coordinator` (the value-level meaning of each critical section), `GateInvariant`,
  `IdleScheduleRuns`, `CoordinatorCode` (the class, whose ghost history ties it to the laws about runs).
- **Restore and idle save as a protocol**: `RestoreProtocol` (one process as interleaved atomic steps; every
  backend reply and fault is a step parameter), `PoisonSafety`, `IdleSave` (the code of `restore_or_cold`,
  the coordinator side of `save_before_stop`, and `poll`; other threads make arbitrary calls in every gap between
  two steps, different ones in each, and every end they report is accounted for).
- **Generation store**: `Manifests`, `StoreSpec` (what loading and committing mean), `PruneSpec`, `Eviction`, `EvictionPolicy`,
  `CheckpointStore` (module `Store`: the code, where every rename or atomic write may fail or be the last thing
  that happens), `Retention`, `Rejection`, `SaveOperation` (the storage side of `save_before_stop`), `SaveProcess` (both sides
  as one call), `RoundTrip`, `RestoreFailure`.
- **Companions**: `Persistence`, `HashCache`, `NgramFormat`, `NgramStore`, `Encoding`, `SlotTrailer`,
  `SlotScan`, `Qualification`, `CommandLine`, `CustomArguments`, `Paths`, `Text`, `Wrappers`.

Conventions: a class models state the program changes in place; its methods are proved against functions and
predicates on values, and the laws are lemmas about those. A `fates` script says for each file-system effect
whether it succeeds, fails before or after taking effect, or is where the machine stops; a store is `Reliable`
when nothing fails.

## What came out false, and exactly when it holds

- *A poisoned process never becomes routable* needs one caller rule beyond "restore once, in EngineHealthy" and
  "resume to the phase held at `begin_draining`": `skip_save_not_ready` must not run while a restore call is in
  flight. It moves the phase to Stopping; the failing restore then no longer sees Restoring, takes the failure
  for one before the first request, and Stopping to ReadyCold is a legal transition.
  `PoisonSafety.FailingReturnReopensIff` gives the exact condition at that return;
  `PoisonSafety.RuleIsNeeded` gives, for each of the three rules, a run that keeps the other two and ends
  routable and poisoned.
- *No saved slot disappears* fails in three ways. A save of the same state can drop a slot exactly when it is shorter
  than the minimum now in force and the launch has more than one slot (`SaveOperation.SlotCanBeLostIff`); with a
  single slot a save that would drop it does not commit (`SaveOperation.SingleSlotKeeps`). A save of another state of
  the same instance prunes the whole instance and protects only its own generation, so it can evict this state's
  (`Retention.OtherStateEvicts`); it does so exactly when this generation, everything protected and everything used
  no earlier exceed the limit together (`Eviction.EvictedIff`). And a rejected generation can come back, as follows.
- *A rejected generation never loads again* fails when its directory is being removed and the removal is cut off after
  the marker was unlinked and before anything the generation needs (`Rejection.CutOffRevives`); the pointer may even
  be rebuilt to name it. It loads again exactly then (`Rejection.LoadsAgainIff`, `Rejection.LoadsAgainOnlyByMarkerLoss`).
  Where no rejected but complete generation is stored none can come back (`Retention.NeverDormant`).
- *Quoting then tokenizing is the identity* holds for a list of arguments exactly when every argument with white
  space gets quoted (`CommandLine.SurvivesIffSafe`); spaces and tabs always do, a line break alone does not.
- An error from `atomic_write` does not mean that nothing happened: syncing may fail after the replacement. The
  store's `Fate` therefore has failures after the effect, and `Persistence.FileSystem.AtomicWrite` promises
  old-or-new rather than old on error.

## Model

| member | source | states |
|---|---|---|
| `GateInvariant.GateInvariantOnRuns` | src-tauri/src/checkpoint.rs:3586-3686 | after any sequence of calls from the empty coordinator, an active gate is routable exactly in Ready or ReadyCold with no stop requested, and a requested stop is never routable |
| `GateInvariant.BlockedExactlyWhenRoutingRefused` | src-tauri/src/checkpoint.rs:3492-3512 | on every reachable state an entry counts as blocking exactly when routing to it is refused |
| `GateInvariant.StopHoldsOverRuns` | src-tauri/src/checkpoint.rs:3607-3615 | a requested stop keeps the instance closed over any calls that do not withdraw, clear or re-register it |
| `GateInvariant.ForeignCallsAreInert` | src-tauri/src/checkpoint.rs:3617-3650 | calls for another instance, or naming another pid, never change the entry |
| `GateInvariant.ActiveGateIsLaunched` | src-tauri/src/checkpoint.rs:3192-3285 | after any calls, an active gate belongs to a registered process with 1, 2 or 4 slots and a well-formed fingerprint |
| `GateInvariant.TransitionsByTarget` | src-tauri/src/checkpoint.rs:3152-3178 | the transition table, read the other way: the phases each phase can be entered from |
| `CoordinatorCode.CheckpointCoordinator.RegisterStart` | src-tauri/src/checkpoint.rs:3192-3285 | accepted exactly for valid identity, a pid and, if eligible, slot count 1, 2 or 4 and a valid fingerprint; the new entry has the phase, policy, fingerprint and slot count of the registration and an empty schedule, and is open exactly when it is not eligible; a rejected registration changes nothing |
| `CoordinatorCode.CheckpointCoordinator.PrepareColdRecovery` | src-tauri/src/checkpoint.rs:3283-3303 | accepted exactly for the registered pid while it is starting; it then does not restore, and nothing else changes |
| `CoordinatorCode.CheckpointCoordinator.MoveTo` | src-tauri/src/checkpoint.rs:3617-3650 | succeeds exactly for the registered pid and a legal transition, and changes only the phase and whether it is open; an active gate is then open exactly when the new phase is routable and no stop is requested; otherwise nothing changes |
| `CoordinatorCode.CheckpointCoordinator.RequestStop` | src-tauri/src/checkpoint.rs:3607-3615 | a stop requested for the registered pid closes the instance at once, withdrawing it reopens it exactly if it is ready or has no gate; another pid, and other instances, are not affected |
| `CoordinatorCode.CheckpointCoordinator.IdleSaveDue` | src-tauri/src/checkpoint.rs:3339-3377 | a signal is given exactly when the registered instance is open with idle saves on, every slot is seen and idle, no request is active, the tasks are those known, there was activity since the last signal, the quiet stretch has the configured length and 60 seconds have passed since the last signal; routing is never touched |
| `CoordinatorCode.CheckpointCoordinator.MarkStopped` | src-tauri/src/checkpoint.rs:4324-4359 | accepted exactly for the registered pid where stopping is legal or no gate is active; the instance is then closed and blocks nothing but a pending stop; a refusal changes nothing |
| `CoordinatorCode.CheckpointCoordinator.MarkUnexpectedExit` | src-tauri/src/checkpoint.rs:4379-4411 | accepted exactly for the registered pid, in any phase; the instance is then closed, its outcome Skipped unless the exit was asked for, and nothing else about it changes |
| `CoordinatorCode.CheckpointCoordinator.ClearInstance` | src-tauri/src/checkpoint.rs:3514-3584 | refused while a registered process has not stopped, changing nothing; otherwise, if the directory could be removed, the instance is closed, forgets its process and fingerprint and blocks nothing |
| `CoordinatorCode.CheckpointCoordinator.BlockedPhase` | src-tauri/src/checkpoint.rs:3492-3512 | on every reachable state Some exactly when some entry refuses routing, and then the most urgent phase of such an entry, in the order Restoring, Saving, Draining, EngineHealthy, Starting, Stopping, any other |
| `CoordinatorCode.CheckpointCoordinator.ObserveCompleted` | src-tauri/src/checkpoint.rs:3417-3427 | a finished task makes the schedule dirty and ends the quiet stretch exactly once, for the registered open process, and never touches routing |
| `Coordinator.PollSignalsIff` | src-tauri/src/checkpoint.rs:3093-3111 | one poll of an entry signals exactly under the listed conditions, with the times in milliseconds |
| `Coordinator.CompleteIff` | src-tauri/src/checkpoint.rs:3358-3366 | the slot set counts as complete exactly when it has as many records as the launch has slots and one for each |
| `Coordinator.TasksAre` | src-tauri/src/checkpoint.rs:3358-3366 | in a complete set the task kept for a slot is the one its record gives |
| `IdleScheduleRuns.EntryAfterIsRun` | src-tauri/src/checkpoint.rs:3339-3427 | the per-entry view used for schedules is what the coordinator does to that entry |
| `IdleScheduleRuns.ScheduleExplained` | src-tauri/src/checkpoint.rs:3083-3111 | after any calls of one registration the schedule's fields are the last due signal, activity since then, and the poll that opened the current quiet stretch |
| `IdleScheduleRuns.DueSignalsAreSpaced` | src-tauri/src/checkpoint.rs:3083-3111 | any two due signals are at least 60 seconds apart, with observed activity in between |
| `IdleScheduleRuns.DueSignalFollowsQuiet` | src-tauri/src/checkpoint.rs:3339-3377 | a due signal sees a complete slot set and ends a stretch of the configured length without activity or incomplete polls |
| `IdleScheduleRuns.PollMustBeDue` | src-tauri/src/checkpoint.rs:3339-3377 | the converse over every run: a poll that sees quiet is due when there was activity since the last signal, the configured time has passed since a poll saw quiet and the same tasks, without activity or gap in between, and 60 seconds since every earlier signal |
| `RestoreProtocol.InvOnRuns` | src-tauri/src/checkpoint.rs:3152-3178 | the protocol invariant on every run that keeps the caller rules, for every backend reply and fault |
| `PoisonSafety.PoisonSafetyOnRuns` | src-tauri/src/checkpoint.rs:3714-3975 | a process sent a restore request is routable only in Ready, after all slots were restored first and each was then re-saved with matching tokens, bytes and digest; ReadyCold means none was sent |
| `PoisonSafety.VerifiedMeans` | src-tauri/src/checkpoint.rs:3888-3942 | what "restored and read back" says of the requests sent and the replies received, slot by slot |
| `PoisonSafety.PoisonIsTerminal` | src-tauri/src/checkpoint.rs:3152-3178 | once a restore has failed after a request, the process stays in RestartRequired, Stopping or Stopped and closed until replaced |
| `PoisonSafety.FailedRestoreNeedsRestart` | src-tauri/src/checkpoint.rs:3714-3741 | a restore failing after a request ends in RestartRequired unless the process is gone |
| `PoisonSafety.FailingReturnReopensIff` | src-tauri/src/checkpoint.rs:3714-3741 | without the third rule, the failing return makes the process routable exactly when a stop had moved it to Stopping |
| `PoisonSafety.RuleIsNeeded` | src-tauri/src/checkpoint.rs:4023-4061 | for each caller rule, a run that keeps the others and ends routable and poisoned |
| `IdleSave.CheckpointHost.RestoreSlots` | src-tauri/src/checkpoint.rs:3888-3942 | all slots restored before any is read back; succeeds exactly when every reply and digest matches, whatever other threads do in each gap |
| `IdleSave.CheckpointHost.RestoreOrCold` | src-tauri/src/checkpoint.rs:3772-3975 | if anything is sent, or the process ends in Ready or RestartRequired, or the generation is to be rejected, then restoring is on, the fingerprint valid, a generation of the launch's slot count loaded, the engine healthy and its slots valid and idle; if all that holds and no end is reported it ends in Ready or RestartRequired; the requests are the restores in slot order and then the read-backs, all of them in Ready; the process is gone only if a call in a gap passed reported its end |
| `IdleSave.CheckpointHost.SaveBeforeStop` | src-tauri/src/checkpoint.rs:4063-4322 | from Draining, for every reply and fault, ends in Stopping, or gone if a call in a gap reported the end; one request per slot goes out in order exactly when the save is on, the fingerprint valid and the slots read and valid and the process is there, else none; every request to a living process is sent while routing is refused |
| `IdleSave.CheckpointHost.Poll` | src-tauri/src/checkpoint_idle.rs:7-55 | started in Ready or ReadyCold it ends in the same phase, routable unless a stop is requested; one save request per slot goes out, in order, exactly when the signal is due, no proxied request is in flight after draining, the client is built and the save can be made, unless the process ends meanwhile, and otherwise none; it is gone only if a call in one of its gaps reported the end; no request is sent while routing is allowed |
| `IdleSave.CheckpointHost.Interfere` | src-tauri/src/checkpoint.rs:4379-4411 | one gap of arbitrary calls by other threads keeps the protocol, moves the phase only by recording an end, and no reported end is lost or made up |
| `StoreSpec.LoadedIsIntact` | src-tauri/src/checkpoint.rs:2144-2297 | whatever loading returns is complete, digest-correct, valid for instance and fingerprint, and not rejected |
| `StoreSpec.LoadsIff` | src-tauri/src/checkpoint.rs:2144-2204 | a generation loads exactly when its manifest is at its place, unmarked, the one expected, valid field by field, and every payload is there with the size and digest it gives |
| `StoreSpec.LoadErrorIs` | src-tauri/src/checkpoint.rs:2144-2204 | which error is reported when it does not |
| `StoreSpec.CutLoadsIff` | src-tauri/src/checkpoint.rs:937-941 | a removal cut off among its files leaves a generation that loads exactly when nothing it needs is gone and no rejection marker is left |
| `StoreSpec.RevivesIff` | src-tauri/src/checkpoint.rs:2144-2173 | such a removal brings back a generation that did not load exactly when it was rejected and nothing but its marker is gone |
| `StoreSpec.KeptLoads` | src-tauri/src/checkpoint.rs:2144-2204 | after a commit stopped anywhere every earlier generation loads as before, and the new one, if visible, loads |
| `StoreSpec.CommitIsAtomic` | src-tauri/src/checkpoint.rs:2027-2142 | if the pointer loaded before, loading returns that generation until the pointer is replaced and exactly the new one afterwards |
| `StoreSpec.CommitWithoutPointer` | src-tauri/src/checkpoint.rs:2231-2297 | without a loading pointer, a stopped commit shows only if its directory is in place, and then it is what loads |
| `Store.CheckpointStore.StageGeneration` | src-tauri/src/checkpoint.rs:2076-2109 | stopped anywhere it leaves the pointer and every generation as they were; success makes the new one complete |
| `Store.AcceptedMeans` | src-tauri/src/checkpoint.rs:2027-2075 | a commit is accepted only if payloads and manifest fit the limit, the id is unused, and each payload is a scratch file of its own with the size and digest given |
| `Store.CheckpointStore.Commit` | src-tauri/src/checkpoint.rs:2027-2142 | refuses without touching the disk or leaves a commit outcome, published or not; other fingerprints unchanged; scratch only loses its payloads; without faults succeeds exactly when accepted, and the new generation counts as used now |
| `Store.CheckpointStore.FindNewest` | src-tauri/src/checkpoint.rs:2271-2292 | a loadable generation none is newer than, or none is loadable |
| `Store.CheckpointStore.LoadLatest` | src-tauri/src/checkpoint.rs:2231-2297 | the pointer's generation if it loads, else a newest loadable one, else nothing or exactly the pointer's error; only the use of the generation returned may be recorded, and without faults it is |
| `Store.CheckpointStore.RejectGeneration` | src-tauri/src/checkpoint.rs:2216-2229 | success makes the generation unloadable, nothing else changes, and without faults it succeeds exactly for a generation that is there |
| `Store.CheckpointStore.ReconcileLatest` | src-tauri/src/checkpoint.rs:2359-2432 | the pointer ends on a newest loadable generation or absent; on a fault it may be as before |
| `Store.CheckpointStore.RemoveLeastRecent` | src-tauri/src/checkpoint.rs:2538-2557 | removes unprotected generations, least recently used first, each only while over the limit; stopped inside any removal, with any of its files left, a generation that is protected or has room is untouched |
| `Store.CheckpointStore.Prune` | src-tauri/src/checkpoint.rs:2434-2569 | on success the policy is followed on the disk itself: the generations named, or else the newest if it fits, stay; the rest goes least recently used first, by recorded use or else creation time; what is left fits or is protected, its reported size being that of the payload and manifest files; nothing goes that has room next to what is protected or used no earlier; what stays is untouched, usage is cut to it and every pointer is reconciled; stopped anywhere, even inside a removal that then leaves any of the files, what is protected or has room is untouched |
| `EvictionPolicy.PruneFollowsPolicy` | src-tauri/src/checkpoint.rs:2434-2569 | the policy holds of every finished pruning, and says nothing about how it is carried out |
| `EvictionPolicy.RecordMeans` | src-tauri/src/checkpoint.rs:2510-2529 | what pruning notes of a generation is its last recorded use or else its creation time, and the size of its files |
| `PruneSpec.SortByUseSorts` | src-tauri/src/checkpoint.rs:2541 | the order of removal is sorted by last use and a permutation with the same total |
| `PruneSpec.ProtectedSurvive` | src-tauri/src/checkpoint.rs:2434-2569 | a loadable protected generation survives pruning unchanged |
| `Eviction.EvictedIff` | src-tauri/src/checkpoint.rs:2530-2557 | an unprotected generation is gone after pruning exactly when it, everything protected and everything used no earlier exceed the limit together; among generations last used at the same time both halves are stated separately |
| `Eviction.NextIsCrowded` | src-tauri/src/checkpoint.rs:2541-2557 | whatever the removal loop is about to remove has no room, at every step |
| `Retention.SaveRetains` | src-tauri/src/checkpoint.rs:4146-4249 | one save, finished, skipped, failed or crashed, keeps every loaded slot with at least as many tokens |
| `Retention.PrefixRetentionOnRuns` | src-tauri/src/checkpoint.rs:4146-4249 | over any run of saves of a state, and of pruning by saves of other states that leaves room for it, what loads later holds every slot that loaded before, with no fewer tokens, and is unambiguous, as long as no restore rejects what loads and no cut-off removal takes only a rejection marker |
| `Retention.NeverDormant` | src-tauri/src/checkpoint.rs:2144-2173 | a run that begins with nothing rejected but complete never has such a generation, so there the last condition always holds |
| `Retention.ForeignPruneRetains` | src-tauri/src/checkpoint.rs:2434-2569 | pruning on behalf of another state, stopped anywhere, keeps what loads here if there is room for it and no rejected but complete generation comes back; with none in the directory none can |
| `Retention.OtherStateEvicts` | src-tauri/src/checkpoint.rs:4237-4248 | two states of one instance: without room, saving the second leaves the first with nothing to load, no setting changed |
| `Rejection.LoadsAgainIff` | src-tauri/src/checkpoint.rs:2500-2508 | at one pruning: a generation that did not load loads afterwards exactly when the marker of a complete one was lost and nothing else that matters |
| `Rejection.RejectedNeverLoads` | src-tauri/src/checkpoint.rs:2144-2229 | over any run of rejections, commits, loads and prunings stopped anywhere, a rejected generation does not load again unless some pruning lost its marker and nothing else that matters |
| `Rejection.LoadsAgainOnlyByMarkerLoss` | src-tauri/src/checkpoint.rs:2500-2508 | and the first step after which it loads is exactly such a pruning |
| `Rejection.CutOffRevives` | src-tauri/src/checkpoint.rs:937-941 | a removal cut off after the marker: a rejected, shorter generation is what loads afterwards |
| `Retention.RetainedPayload` | src-tauri/src/checkpoint.rs:2585-2640 | a slot carried over has the very same payload in both generations |
| `Retention.PruneKeepsNewest` | src-tauri/src/checkpoint.rs:2434-2569 | pruning that spares the newest generation leaves it the one that loads |
| `SaveOperation.SlotCanBeLostIff` | src-tauri/src/checkpoint.rs:4183-4234 | a save with good answers can commit a manifest that loses a saved slot exactly when the slot is shorter than the current minimum and the launch has more than one slot |
| `SaveOperation.LosingWritesLose` | src-tauri/src/checkpoint.rs:4183-4234 | the answers under which such a slot is lost, for every launch with several slots |
| `SaveOperation.SingleSlotKeeps` | src-tauri/src/checkpoint.rs:4213-4234 | on a launch with one slot a committed save keeps it, with no fewer tokens, whatever the minimum |
| `SaveOperation.BuiltManifestIsGood` | src-tauri/src/checkpoint.rs:1467-1508 | the manifest a save builds always validates and keeps every earlier slot |
| `SaveOperation.CopySlot` | src-tauri/src/checkpoint.rs:2585-2640 | the copy matches the manifest's size and digest, and no other scratch file changes |
| `SaveOperation.CollectSlots` | src-tauri/src/checkpoint.rs:4163-4212 | the slots gathered are those the retention rule chooses, each with a matching scratch file |
| `SaveOperation.ChosenIff` | src-tauri/src/checkpoint.rs:4183-4211 | the slots of the new manifest are exactly the new states that are long enough and not outlived, described by their files, and the older longer ones |
| `SaveOperation.FinishedLoads` | src-tauri/src/checkpoint.rs:4237-4248 | with increasing times, after commit and prune loading can return only the new generation |
| `SaveOperation.Save` | src-tauri/src/checkpoint.rs:4145-4256 | nothing reaches the disk unless every slot answered well, all slots were idle at the end and something is new; every ending has its own condition, necessary whatever fails and sufficient without faults; however it ends the state took one step of a retaining run (for a single slot with any minimum), directories of other states are untouched or pruned as the eviction rule allows, and it builds on what was stored; without faults scratch is as found |
| `SaveOperation.EvictionCarriedOut` | src-tauri/src/checkpoint.rs:2434-2569 | the two-state example as a program: the first state loads before pruning for the second and has nothing to load after it |
| `SaveOperation.ForeignSaveIsStep` | src-tauri/src/checkpoint.rs:4237-4248 | to every other state of the instance a save is at most one pruning step of its run, so retention there needs only room and that nothing rejected comes back |
| `SaveProcess.SaveBeforeStop` | src-tauri/src/checkpoint.rs:4063-4322 | coordinator and store driven by the same replies: Draining to Stopping, the slots asked in order up to the first that fails and all of them if the save succeeds, only while routing is refused, and the whole storage result; nothing is asked or stored exactly if the save is off, the fingerprint invalid, the slots wrong or the process gone |
| `RoundTrip.ChosenCaptures` | src-tauri/src/checkpoint.rs:4183-4211 | every manifest slot holds the engine's state or an older longer one, and every slot worth saving is in it |
| `RoundTrip.SaveStaysTruthful` | src-tauri/src/checkpoint.rs:4237-4248 | token and byte counts on disk stay those of the payloads after any save |
| `RoundTrip.RestoreGeneration` | src-tauri/src/checkpoint.rs:3890-3942 | with a faithful engine every manifest slot ends up holding its payload, other slots are untouched, the disk is as before |
| `RoundTrip.RestoreProcess` | src-tauri/src/checkpoint.rs:3772-3975 | Ready with the stored slots in the engine when something fits the launch, else ReadyCold and untouched; gone only if its end was reported in a gap |
| `RoundTrip.SaveThenRestore` | src-tauri/src/checkpoint.rs:3772-4322 | the round trip as one run: a process is saved and stopped, its successor registered, healthy and restored; the save's outcome is determined by what was stored, and on success the successor is Ready unless its end was reported, every committed slot holding its saved payload and token count, scratch as found |
| `RestoreFailure.RestoreStored` | src-tauri/src/checkpoint.rs:3772-3975 | for any engine: the protocol's decision on what really was stored, and the generation is rejected exactly when its restore failed in Restoring; without faults it then cannot be what loads next |
| `RestoreFailure.FailThenRestart` | src-tauri/src/checkpoint.rs:3944-3954 | a failed restore and the next start as one run: the successor gets another generation or stays cold |
| `Persistence.ReaderSeesOldOrNew` | src-tauri/src/persistence.rs:183-286 | after a stop that may tear unflushed files, the destination holds the whole old or whole new content, and the old one is in the backup if the new is visible |
| `Persistence.FileSystem.ReplaceFile` | src-tauri/src/persistence.rs:183-235 | stopped anywhere the destination is old or flushed new, never new before the backup holds the old; success means new |
| `Persistence.FileSystem.AtomicWrite` | src-tauri/src/persistence.rs:237-286 | as above from content; only destination, backup and temporary files are touched, and success leaves no temporary |
| `HashCache.SameStampMeansUntouched` | src-tauri/src/checkpoint.rs:1848-1863 | with fresh stamps per edit, a stamp seen before means no edit in between |
| `HashCache.MaintainCache` | src-tauri/src/checkpoint.rs:1085-1105 | what stays was used within ninety days or is dated now and is otherwise as it was; at most 4096 stay, and what was used that recently goes only when 4096 that were used no earlier stay |
| `HashCache.ContentHashes.HashOne` | src-tauri/src/checkpoint.rs:1811-1876 | the digest of the content at the moment of examination; an error exactly when missing, or edited while hashed and not cached; on success the cache has it under the stamp examined, as used now, and is otherwise as it was |
| `HashCache.ContentHashes.ContentSha256Many` | src-tauri/src/checkpoint.rs:1794-1880 | across any edits, in order the digests rehashing would give; the cache stays sound and bounded, what was hashed is stored as used now and what was stored stays unless expired or out of room |
| `NgramFormat.PrefixFree` | src-tauri/src/lookup_cache_store.rs:85-129 | decoding is unambiguous, and one encoding continues another only by whole records |
| `NgramFormat.CutsAtBoundaries` | src-tauri/src/lookup_cache_store.rs:85-129 | a cut of a well-formed file is well formed exactly at a record boundary |
| `NgramFormat.Validate` | src-tauri/src/lookup_cache_store.rs:85-129 | accepts exactly the non-empty concatenations of well-formed records within the size bound |
| `NgramStore.NgramRun.Prepare` | src-tauri/src/lookup_cache_store.rs:153-194 | the engine gets the selected generation, else a well-formed seed, else an empty file |
| `NgramStore.NgramRun.Rotate` | src-tauri/src/lookup_cache_store.rs:218-221 | the fallback becomes the latest pointer only if that one is valid |
| `NgramStore.NgramRun.CollectGarbage` | src-tauri/src/lookup_cache_store.rs:226-244 | payloads named by a valid pointer stay, and without faults no other does |
| `NgramStore.NgramRun.Commit` | src-tauri/src/lookup_cache_store.rs:196-246 | stopped anywhere the next start selects the former generation or the candidate in full; after success the former one is the valid fallback; unchanged or malformed content commits nothing |
| `NgramStore.NgramRun.Finish` | src-tauri/src/lookup_cache_store.rs:248-268 | a forced exit changes no generation, a clean one commits, and without faults the private file is gone |
| `NgramStore.NeverWithoutGeneration` | src-tauri/src/lookup_cache_store.rs:152-246 | over any history of sessions something stays selectable, and it is the first content or a candidate |
| `SlotTrailer.TrailerGrammar` | src-tauri/src/checkpoint_qualification.rs:673-717 | the parser accepts at a position exactly when the rest of the file is a trailer of the grammar, and reports its lengths |
| `SlotTrailer.Blob` | src-tauri/src/checkpoint_qualification.rs:664-672 | a blob length is accepted exactly when the blob ends within the file |
| `SlotTrailer.ReadTrailer` | src-tauri/src/checkpoint_qualification.rs:673-717 | the offset-advancing code computes the parser |
| `SlotScan.ScanUnique` | src-tauri/src/checkpoint_qualification.rs:727-757 | the lowest SCKP, else highest SDFT answer is unique |
| `SlotScan.Scan` | src-tauri/src/checkpoint_qualification.rs:727-750 | the overlapping buffers examine each window once, in increasing order, and stop |
| `SlotScan.HeaderIs` | src-tauri/src/checkpoint_qualification.rs:718-726 | the header of a slot state, byte by byte: magic, version 4, and a word count that leaves something behind the words |
| `SlotScan.InspectSlot` | src-tauri/src/checkpoint_qualification.rs:651-757 | returns the lowest-offset SCKP trailer that ends the file, else the highest such SDFT, else the empty result when no draft is required |
| `SlotScan.HitIsTrailer` | src-tauri/src/checkpoint_qualification.rs:673-717 | what is found is a well-formed trailer running exactly to the end of the file |
| `Qualification.OneLease` | src-tauri/src/checkpoint_qualification.rs:263-280 | at most one lease exists on every run, and it is the active one |
| `Qualification.ReservedCanBegin` | src-tauri/src/checkpoint_qualification.rs:263-273 | whoever reserves while no lease exists holds it uncancelled and can begin; a second reservation changes nothing |
| `Qualification.ForeignCancelIsInert` | src-tauri/src/checkpoint_qualification.rs:22-29 | cancelling an id that holds no lease changes nothing |
| `Qualification.CancelReachesLease` | src-tauri/src/checkpoint_qualification.rs:22-29 | cancelling the id that holds the lease sets the flag and nothing else, and no attempt begins after it |
| `Qualification.QualifiesOnlyBySuccess` | src-tauri/src/checkpoint_qualification.rs:144-188 | on every run, what qualifies has a receipt left by an attempt that passed, with every field as required |
| `Qualification.SuccessQualifiesIff` | src-tauri/src/checkpoint_qualification.rs:144-188 | an attempt that passed qualifies once its marker is gone, exactly if its receipt is full and of this machine |
| `Qualification.FailureHolds` | src-tauri/src/checkpoint_qualification.rs:760-832 | after an attempt fails or is cut off with its marker written, the fingerprint does not qualify until a later attempt for it succeeds |
| `Qualification.RunningDoesNotQualify` | src-tauri/src/checkpoint_qualification.rs:167-188 | nor does it while an attempt is past its marker |
| `Qualification.Qualifier.Run` | src-tauri/src/checkpoint_qualification.rs:760-832 | succeeds exactly if not cancelled before, nothing fails on the way and the pair passes; then it is unblocked with the new receipt and qualifies exactly if that is full and of this machine; a cancelled attempt leaves marker and receipt as found; an earlier block survives failure and cancellation |
| `CommandLine.Quote` | src-tauri/src/engine_process.rs:192-217 | the loop computes the quoting function |
| `CommandLine.JoinQuoted` | src-tauri/src/engine_process.rs:272-278 | the command line is the quoted arguments joined by spaces |
| `CommandLine.QuotedEnds` | src-tauri/src/engine_process.rs:192-197 | an argument is put between quotes if it is empty or has a space, a tab or a quote in it, and is left as it is otherwise |
| `CommandLine.TokenizeRow` | src/validators.ts:159-205 | the index loop computes the tokenizer of one row |
| `CommandLine.TokenizeRows` | src/validators.ts:159-211 | rows contribute their tokens in order |
| `CommandLine.QuotedReadsBack` | src-tauri/src/engine_process.rs:198-216 | inside quotes the tokenizer reads back what the quoter wrote, for any pending backslashes |
| `CommandLine.TokenizeUndoesQuote` | src-tauri/src/engine_process.rs:192-217 | tokenizing the joined quoted arguments returns exactly the arguments, each marked quoted as it was |
| `CommandLine.SpacesAndTabsAreSafe` | src-tauri/src/engine_process.rs:195-197 | an argument whose only white space is spaces and tabs is safe |
| `CommandLine.SurvivesIffSafe` | src/validators.ts:159-205 | a list of arguments survives quoting, joining and tokenizing exactly when every argument with white space also has a space, a tab or a quote in it, which is when it gets quoted |
| `CustomArguments.AcceptsIffRecognized` | src-tauri/src/checkpoint.rs:407-470 | token-by-token acceptance equals the grammar of lazy-loading flags with one acceptable mode |
| `CustomArguments.Blockers` | src-tauri/src/checkpoint.rs:407-470 | empty exactly for the grammar; otherwise it names each offending token once, in order: a flag by its name, a bare token as positional, the values of other flags not at all |
| `CustomArguments.OffencesAre` | src-tauri/src/checkpoint.rs:391-470 | a name is on the list exactly when some token that is no value of another carries it and is no lazy-loading flag with an acceptable mode that agrees with the first |
| `Paths.NormalizePathText` | src-tauri/src/path_utils.rs:3-70 | the segment loop computes the normalization function |
| `Paths.SplitJoins` | src-tauri/src/path_utils.rs:34 | splitting at the separators is undone by joining |
| `Paths.NoBackslashLeft` | src-tauri/src/path_utils.rs:4-8 | on Windows no backslash is left |
| `Paths.VerbatimDrive` | src-tauri/src/path_utils.rs:9-16 | a verbatim prefix in front of a drive path changes nothing |
| `Paths.VerbatimNetwork` | src-tauri/src/path_utils.rs:9-16 | a verbatim UNC prefix reads as the network path it stands for |
| `Paths.NormalizedRooted` | src-tauri/src/path_utils.rs:3-70 | a rooted path normalizes to its head, a separator and its proper segments |
| `Paths.NoParentsLeft` | src-tauri/src/path_utils.rs:34-48 | resolved rooted paths contain no `.` or `..` segment |
| `Paths.ShareIsProtected` | src-tauri/src/path_utils.rs:34-48 | parent segments never remove the protected leading segments |
| `Paths.NetworkRootStays` | src-tauri/src/path_utils.rs:18-48 | server and share of a network path survive whatever follows |
| `Paths.NamesStay` | src-tauri/src/path_utils.rs:34-48 | segments that are neither empty nor dots stay as they are |
| `Paths.ParentCancels` | src-tauri/src/path_utils.rs:34-48 | an empty segment or a dot means nothing, and a name followed by `..` cancels out |
| `Paths.ClimbsFirst` | src-tauri/src/path_utils.rs:34-48 | a relative path resolves to exactly as many `..` as it climbs above its start, followed by names down to its level |
| `Paths.LeadingParentsSurvive` | src-tauri/src/path_utils.rs:34-48 | the `..` a relative path starts with survive whatever follows |
| `Paths.NormalizedRelative` | src-tauri/src/path_utils.rs:3-70 | a relative path normalizes to its joined segments or a dot, and starts with `..` exactly if it climbs above its start |
| `Paths.WithinCurrentIff` | src-tauri/src/path_utils.rs:95-118 | within "." exactly when the path says something, has no root of any kind, never climbs above its start and does not normalize to a path on a drive |
| `Paths.WithinIffSegmentPrefix` | src-tauri/src/path_utils.rs:95-118 | for rooted paths the string test holds exactly when heads agree and the root's segments are a prefix of the candidate's |
| `Paths.WithinReflexive` | src-tauri/src/path_utils.rs:95-118 | containment is reflexive on rooted paths |
| `Paths.WithinTransitive` | src-tauri/src/path_utils.rs:95-118 | containment is transitive on rooted paths |

## Assumptions

- SHA-256 has no collisions (`Sha256` is a constructor), so the digest of a manifest stands for the manifest.
- Generation ids, scratch names and temporary names are unused when chosen and not reused; process ids are not reused within a run.
- "The committed generation stays latest" and retention assume creation times that increase, over rejected generations
  as well, since the newest creation
  time decides when pointers are rebuilt. A directory may be listed in any order.
- Every edit of a hashed file gives it a (size, modification time, identity) stamp its path never had.
- A read of a regular file returns at least four bytes while that many are left (`SlotScan.ReadsEnough`); without it
  the scan may stop early, and `SlotScan.Scan` then still gives the exact answer for the positions examined.
- Lower-casing for Windows paths works character by character, takes one ASCII character to another, and neither makes nor removes a separator, a dot or a colon after a drive letter.

## Left out

- Eviction.EvictedIff: which of several generations last used at the very same time goes first depends on the directory order, which is left open.
- CoordinatorCode.CheckpointCoordinator.MarkStopped: the two critical sections are one atomic step.
- SaveOperation.Save: byte totals are unbounded numbers, not saturating 64-bit ones; scratch capacity queries and the re-verification of a copied file are part of the step that may fail.
- RoundTrip.SaveThenRestore: the engine's replies are worked out before the coordinator's steps that carry them; other threads may interfere with the coordinator in every gap, but not with the engine or the store.
- IdleSave.CheckpointHost.Interfere: other threads do not re-register or clear the instance while one of these calls runs.
- HashCache.ContentHashes.ContentSha256Many: canonicalization of paths is outside; a cache file that was tampered with is outside.
- NgramStore.NgramRun.Commit: the owner lock and the result record are outside; one writer is assumed.
- Qualification.Qualifier.Run: the process pair, the hardware probe and the inference comparison are parameters; attempts by a second manager process are excluded by its file lock.
- CommandLine.TokenizeRow: rows are sequences of characters, not UTF-16 units.
- CustomArguments.Blockers: takes the tokens of well-formed rows; splitting rows into tokens is outside.
- Paths.NormalizedRooted: the context-dependent lower-casing of a final sigma is outside.
- Eligibility rules and the content of fingerprints, except that an eligible launch has 1, 2 or 4 slots.
- The HTTP slot client, its timeouts and JSON decoding; only its results appear.
- File permissions, symbolic links and canonical paths; they are part of the steps that may fail.
- Clearing an instance's directory, status reports, observation of restored requests, and the process supervisor.
- The user interface, command-line management, packaging and translations.

/** A restore that fails in Restoring rejects its generation, and the next start does not load it. */
module RestoreFailure {
  import opened Wrappers
  import opened Manifests
  import opened StoreSpec
  import opened Retention
  import opened Rejection
  import opened Store
  import Coordinator
  import RestoreProtocol
  import IdleSave

  /** What the engine and the disk do during one restore, slot by slot, whatever is restored. */
  datatype Behaviour = Behaviour(
    healthy: bool, topologyValid: bool, restores: nat -> IdleSave.RestoreFate, verifies: nat -> IdleSave.VerifyFate, finalCheck: bool)

  function ScriptOf(b: Behaviour, n: nat): (script: IdleSave.RestoreScript)
    ensures |script.restores| == |script.verifies| == n
  {
    IdleSave.RestoreScript(b.healthy, b.topologyValid, seq(n, i requires 0 <= i < n => b.restores(i)),
                           seq(n, i requires 0 <= i < n => b.verifies(i)), b.finalCheck)
  }

  /** What a start finds stored, as the restore decision sees it. */
  function OutcomeOf(found: Result<Option<Manifest>, LoadError>): IdleSave.LoadOutcome {
    match found
    case Err(_) => IdleSave.LoadOutcome.LoadError
    case Ok(None) => IdleSave.NothingStored
    case Ok(Some(m)) => IdleSave.Loaded(m.slots, m.slotCount)
  }

  /** Whatever can load next is not the generation of `m`. */
  ghost predicate NeverNext(instanceId: string, fp: string, d: FingerprintDir, m: Manifest) {
    forall n :: Loads(instanceId, fp, d, n) ==> n.generationId != m.generationId
  }

  lemma UnloadableIsNeverNext(instanceId: string, fp: string, d: FingerprintDir, m: Manifest)
    requires !Loadable(instanceId, fp, d, m.generationId)
    ensures NeverNext(instanceId, fp, d, m)
  {
    hide LatestIs, Loadable;
    forall n | Loads(instanceId, fp, d, n) ensures n.generationId != m.generationId {
      LoadedIsLoadable(instanceId, fp, d, n);
    }
  }

  /** Marking the generation that was loaded. */
  method RejectLoaded(store: CheckpointStore, fp: string, m: Manifest)
    requires Loads(store.instanceId, fp, DirOf(store.disk, fp), m)
    modifies store
    ensures store.disk.usage == old(store.disk.usage) && store.disk.scratch == old(store.disk.scratch)
    ensures Steps(store.instanceId, fp, old(DirOf(store.disk, fp)), Rejecting(m.generationId), DirOf(store.disk, fp))
    ensures old(store.Reliable()) ==> store.Reliable() && !Loadable(store.instanceId, fp, DirOf(store.disk, fp), m.generationId)
  {
    hide Loadable;
    LoadedIsLoadable(store.instanceId, fp, DirOf(store.disk, fp), m);
    var _ := store.RejectGeneration(fp, m.generationId);
  }

  /**
   `restore_or_cold` for any engine: the protocol's decision, and the mark on the generation if its
   restore has failed in Restoring.
   */
  method RestoreStored(store: CheckpointStore, host: IdleSave.CheckpointHost, pid: nat, fp: FingerprintId, autoRestore: bool,
                       behaviour: Behaviour, now: nat)
    returns (ghost found: Result<Option<Manifest>, LoadError>, rejects: bool)
    requires host.Valid() && host.s.entry.gateActive && RestoreProtocol.RestoresOnce(host.s, RestoreProtocol.RestoreBegin(pid))
    modifies store, host
    ensures host.Valid() && host.s.call.NoCall?
    ensures host.Accounts(old(host.s.entry), old(host.gaps), old(host.ends), old(host.crashes))
    ensures if autoRestore && fp.wellFormed then LatestIs(store.instanceId, fp.digest, old(DirOf(store.disk, fp.digest)), found) else found == Ok(None)
    ensures IdleSave.Exited(host.s.entry)
            || host.s.entry.phase == IdleSave.Decided(old(host.s.entry.slotCount), autoRestore, fp.wellFormed, OutcomeOf(found),
                                                      ScriptOf(behaviour, if found.Ok? && found.value.Some? then |found.value.value.slots| else 0))
    // a generation is rejected exactly when its restore has failed in Restoring
    ensures host.s.entry.phase.RestartRequired? ==> rejects
    ensures rejects ==> found.Ok? && found.value.Some? && (host.s.entry.phase.RestartRequired? || IdleSave.Exited(host.s.entry))
    ensures !rejects ==> DirOf(store.disk, fp.digest) == old(DirOf(store.disk, fp.digest))
    ensures rejects ==> Steps(store.instanceId, fp.digest, old(DirOf(store.disk, fp.digest)), Rejecting(found.value.value.generationId),
                              DirOf(store.disk, fp.digest))
    // and then the next start does not get it
    ensures old(store.Reliable()) ==> store.Reliable()
    ensures old(store.Reliable()) && rejects ==>
              && !Loadable(store.instanceId, fp.digest, DirOf(store.disk, fp.digest), found.value.value.generationId)
              && NeverNext(store.instanceId, fp.digest, DirOf(store.disk, fp.digest), found.value.value)
  {
    hide LatestIs, Loadable, IdleSave.Decided, IdleSave.EndsIn, IdleSave.CrashesIn, NeverNext, Steps, ValidManifest, Intact;
    ghost var d := DirOf(store.disk, fp.digest);
    var stored: Result<Option<Manifest>, LoadError> := Ok(None);
    if autoRestore && fp.wellFormed {
      stored := store.LoadLatest(fp.digest, now);
      if stored.Ok? && stored.value.Some? {
        LoadedIsIntact(store.instanceId, fp.digest, d, stored);
        SomeSlot(stored.value.value, store.instanceId, fp.digest);
      }
    }
    found := stored;
    var n := if stored.Ok? && stored.value.Some? then |stored.value.value.slots| else 0;
    ghost var restored, readBack;
    rejects, restored, readBack := host.RestoreOrCold(pid, autoRestore, fp.wellFormed, OutcomeOf(stored), ScriptOf(behaviour, n));
    if rejects {
      RejectLoaded(store, fp.digest, stored.value.value);
      if old(store.Reliable()) {
        UnloadableIsNeverNext(store.instanceId, fp.digest, DirOf(store.disk, fp.digest), stored.value.value);
      }
    }
  }

  lemma SomeSlot(m: Manifest, instanceId: string, fp: string)
    requires ValidManifest(m, instanceId, fp)
    ensures m.slots != []
  {
  }

  /**
   A failed restore and the start after it: the process that failed is closed for good, and its
   successor starts from another generation or cold.
   */
  method FailThenRestart(store: CheckpointStore, host: IdleSave.CheckpointHost, pid: nat, fp: FingerprintId, first: Behaviour,
                         registration: Coordinator.Call, second: Behaviour, now: nat)
    returns (ghost found: Result<Option<Manifest>, LoadError>, ghost next: Result<Option<Manifest>, LoadError>, failed: bool)
    requires store.Reliable() && fp.wellFormed
    requires host.Valid() && host.s.entry.gateActive && RestoreProtocol.RestoresOnce(host.s, RestoreProtocol.RestoreBegin(pid))
    requires registration.Register? && Coordinator.RegistrationAccepted(registration) && registration.eligibility.eligible
    modifies store, host
    ensures LatestIs(store.instanceId, fp.digest, old(DirOf(store.disk, fp.digest)), found)
    ensures failed ==> found.Ok? && found.value.Some?
    ensures failed && next.Ok? && next.value.Some? ==> next.value.value.generationId != found.value.value.generationId
    ensures host.Valid() && host.s.entry.pid == Some(registration.pid)
    ensures failed && (next.Err? || next.value.None?) ==> IdleSave.Exited(host.s.entry) || host.s.entry.phase.ReadyCold?
  {
    hide LatestIs, Loadable, IdleSave.EndsIn, IdleSave.CrashesIn, Steps, Coordinator.RegistrationAccepted;
    found, failed := RestoreStored(store, host, pid, fp, true, first, now);
    host.Replace(pid, registration);
    var again;
    next, again := RestoreStored(store, host, registration.pid, fp, true, second, now);
  }
}

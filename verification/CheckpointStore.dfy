/** The checkpoint store as code: commit, load, reject, prune, and scratch handling. */
module Store {
  import opened Wrappers
  import opened Manifests
  import opened StoreSpec
  import opened PruneSpec
  import opened Eviction
  import opened EvictionPolicy

  datatype CommitError = InvalidManifest | PayloadSetIncomplete | PayloadMismatch | StorageLimit | AlreadyExists | IoError

  predicate SourceMatches(scratch: map<ScratchPath, Bytes>, source: ScratchPath, s: SlotManifest) {
    source in scratch && |scratch[source]| > 0 && |scratch[source]| == s.bytes && Sha256(scratch[source]) == s.sha256
  }

  predicate DistinctPaths(paths: seq<ScratchPath>) {
    forall i, j :: 0 <= i < j < |paths| ==> paths[i] != paths[j]
  }

  predicate SourcesMatch(scratch: map<ScratchPath, Bytes>, sources: seq<ScratchPath>, m: Manifest) {
    && |sources| == |m.slots| && DistinctPaths(sources)
    && forall i :: 0 <= i < |sources| ==> SourceMatches(scratch, sources[i], m.slots[i])
  }

  /** Everything `commit_slots_with_fault` checks before it touches the disk. */
  predicate CommitAccepted(instanceId: string, disk: Instance, m: Manifest, manifestSize: nat, sources: seq<ScratchPath>, limit: nat) {
    && ValidManifest(m, instanceId, m.fingerprint.digest)
    && SourcesMatch(disk.scratch, sources, m)
    && PayloadBytes(m.slots) + manifestSize <= limit
    && m.generationId !in DirOf(disk, m.fingerprint.digest).generations
    && m.generationId !in DirOf(disk, m.fingerprint.digest).pending
  }

  /** What a commit demands before it touches anything. */
  lemma AcceptedMeans(instanceId: string, disk: Instance, m: Manifest, manifestSize: nat, sources: seq<ScratchPath>, limit: nat)
    requires CommitAccepted(instanceId, disk, m, manifestSize, sources, limit)
    ensures PayloadBytes(m.slots) + manifestSize <= limit && |sources| == |m.slots|
    ensures m.generationId !in DirOf(disk, m.fingerprint.digest).generations && m.generationId !in DirOf(disk, m.fingerprint.digest).pending
    ensures forall i :: 0 <= i < |sources| ==>
              && sources[i] in disk.scratch && |disk.scratch[sources[i]]| == m.slots[i].bytes
              && Sha256(disk.scratch[sources[i]]) == m.slots[i].sha256
    ensures forall i, j :: 0 <= i < j < |sources| ==> sources[i] != sources[j]
  {
    hide ValidManifest, PayloadBytes;
    forall i | 0 <= i < |sources| ensures SourceMatches(disk.scratch, sources[i], m.slots[i]) {
    }
  }

  /** The first `n` payloads of `m` have been moved into `g`. */
  predicate Moved(g: Generation, m: Manifest, n: nat)
    requires n <= |m.slots|
  {
    !g.rejected && forall i :: 0 <= i < n ==> PayloadMatches(g.payloads, m.slots[i])
  }

  function WithDir(disk: Instance, fingerprint: string, d: FingerprintDir): Instance {
    disk.(fingerprints := disk.fingerprints[fingerprint := d])
  }

  /** Other states' directories and the usage record are as they were. */
  predicate OnlyDirChanged(a: Instance, b: Instance, fingerprint: string) {
    && b.fingerprints.Keys == a.fingerprints.Keys + {fingerprint}
    && forall f :: f in a.fingerprints && f != fingerprint ==> b.fingerprints[f] == a.fingerprints[f]
  }

  /** Scratch only lost the given paths. */
  predicate OnlyRemoved(a: map<ScratchPath, Bytes>, b: map<ScratchPath, Bytes>, paths: seq<ScratchPath>) {
    && (forall p :: p in b ==> p in a && b[p] == a[p])
    && forall p :: p in a && p !in paths ==> p in b
  }

  /** A commit that has not yet renamed its directory: only pending data and scratch differ. */
  predicate Unpublished(disk0: Instance, disk: Instance, fp: string, sources: seq<ScratchPath>) {
    && (disk == disk0 || OnlyDirChanged(disk0, disk, fp)) && disk.usage == disk0.usage
    && DirOf(disk, fp).generations == DirOf(disk0, fp).generations && DirOf(disk, fp).latest == DirOf(disk0, fp).latest
    && OnlyRemoved(disk0.scratch, disk.scratch, sources)
  }

  /** Moreover the pending directory holds exactly the first `n` payloads and no manifest. */
  predicate Progress(disk0: Instance, disk: Instance, m: Manifest, sources: seq<ScratchPath>, n: nat)
    requires n <= |m.slots| == |sources|
  {
    var fp, id := m.fingerprint.digest, m.generationId;
    && Unpublished(disk0, disk, fp, sources) && fp in disk.fingerprints && OnlyDirChanged(disk0, disk, fp)
    && id in disk.fingerprints[fp].pending
    && disk.fingerprints[fp].pending[id].manifest.None? && Moved(disk.fingerprints[fp].pending[id], m, n)
    && (forall k :: n <= k < |sources| ==> sources[k] in disk.scratch)
    && (forall k :: 0 <= k < n ==> sources[k] !in disk.scratch)
  }

  function MakePending(disk: Instance, fp: string, id: Uuid): Instance {
    var d := DirOf(disk, fp);
    WithDir(disk, fp, d.(pending := d.pending[id := Generation(None, 0, map[], false)]))
  }

  /** The rename of one payload from scratch into the pending directory. */
  function MovePayload(disk: Instance, fp: string, id: Uuid, filename: string, source: ScratchPath): Instance
    requires fp in disk.fingerprints && id in disk.fingerprints[fp].pending && source in disk.scratch
  {
    var d := disk.fingerprints[fp];
    var g := d.pending[id].(payloads := d.pending[id].payloads[filename := disk.scratch[source]]);
    WithDir(disk, fp, d.(pending := d.pending[id := g])).(scratch := disk.scratch - {source})
  }

  function WriteManifest(disk: Instance, m: Manifest, size: nat): Instance
    requires m.fingerprint.digest in disk.fingerprints
    requires m.generationId in disk.fingerprints[m.fingerprint.digest].pending
  {
    var d := disk.fingerprints[m.fingerprint.digest];
    var g := d.pending[m.generationId].(manifest := Some(m), manifestSize := size);
    WithDir(disk, m.fingerprint.digest, d.(pending := d.pending[m.generationId := g]))
  }

  /** The rename that makes the generation visible. */
  function RenamePending(disk: Instance, fp: string, id: Uuid): Instance
    requires fp in disk.fingerprints && id in disk.fingerprints[fp].pending
  {
    var d := disk.fingerprints[fp];
    WithDir(disk, fp, d.(generations := d.generations[id := d.pending[id]], pending := d.pending - {id}))
  }

  function ReplaceLatest(disk: Instance, m: Manifest): Instance
    requires m.fingerprint.digest in disk.fingerprints
  {
    WithDir(disk, m.fingerprint.digest, disk.fingerprints[m.fingerprint.digest].(latest := Valid(Pointer(m.generationId, m))))
  }

  function DropPending(disk: Instance, fp: string, id: Uuid): Instance {
    if fp in disk.fingerprints
    then WithDir(disk, fp, disk.fingerprints[fp].(pending := disk.fingerprints[fp].pending - {id})) else disk
  }

  lemma PendingMade(disk: Instance, m: Manifest, sources: seq<ScratchPath>)
    requires SourcesMatch(disk.scratch, sources, m)
    ensures Progress(disk, MakePending(disk, m.fingerprint.digest, m.generationId), m, sources, 0)
  {
    assert forall i :: 0 <= i < |sources| ==> SourceMatches(disk.scratch, sources[i], m.slots[i]);
  }

  lemma PayloadMoved(instanceId: string, disk0: Instance, disk: Instance, m: Manifest, sources: seq<ScratchPath>, n: nat)
    requires n < |m.slots| == |sources| && Progress(disk0, disk, m, sources, n)
    requires ValidManifest(m, instanceId, m.fingerprint.digest) && SourcesMatch(disk0.scratch, sources, m)
    ensures Progress(disk0, MovePayload(disk, m.fingerprint.digest, m.generationId, m.slots[n].filename, sources[n]),
                     m, sources, n + 1)
  {
    var fp, id, slot := m.fingerprint.digest, m.generationId, m.slots[n];
    var disk' := MovePayload(disk, fp, id, slot.filename, sources[n]);
    assert SourceMatches(disk0.scratch, sources[n], slot);
    var g := disk'.fingerprints[fp].pending[id];
    forall k | 0 <= k < n + 1
      ensures PayloadMatches(g.payloads, m.slots[k])
    {
      if k < n {
        DistinctFilenames(m, instanceId, fp, k, n);
        assert PayloadMatches(disk.fingerprints[fp].pending[id].payloads, m.slots[k]);
      }
    }
  }

  lemma SameNumber(scratch: map<ScratchPath, Bytes>, sources: seq<ScratchPath>, m: Manifest)
    requires SourcesMatch(scratch, sources, m)
    ensures |sources| == |m.slots|
  {
  }

  lemma ProgressMeans(disk0: Instance, disk: Instance, m: Manifest, sources: seq<ScratchPath>, n: nat)
    requires n <= |m.slots| == |sources| && Progress(disk0, disk, m, sources, n)
    ensures Unpublished(disk0, disk, m.fingerprint.digest, sources)
    ensures m.fingerprint.digest in disk.fingerprints && m.generationId in disk.fingerprints[m.fingerprint.digest].pending
    ensures n < |sources| ==> sources[n] in disk.scratch
  {
    hide Unpublished, OnlyDirChanged, Moved;
  }

  lemma PendingDropped(disk0: Instance, disk: Instance, fp: string, id: Uuid, sources: seq<ScratchPath>)
    requires Unpublished(disk0, disk, fp, sources)
    ensures Unpublished(disk0, DropPending(disk, fp, id), fp, sources)
  {
  }

  lemma UnpublishedOutcome(disk0: Instance, disk: Instance, m: Manifest, sources: seq<ScratchPath>)
    requires Unpublished(disk0, disk, m.fingerprint.digest, sources)
    requires m.generationId !in DirOf(disk0, m.fingerprint.digest).generations
    ensures CommitOutcome(DirOf(disk0, m.fingerprint.digest), DirOf(disk, m.fingerprint.digest), m, false)
  {
  }

  lemma UnpublishedSelf(disk: Instance, fp: string, sources: seq<ScratchPath>)
    ensures Unpublished(disk, disk, fp, sources)
  {
  }

  /** Recording a use changes no directory. */
  lemma DirsAfterTouch(disk: Instance, key: Key, now: nat)
    ensures var touched := disk.(usage := disk.usage[key := now]);
            && (forall fp :: DirOf(touched, fp) == DirOf(disk, fp))
            && (forall d0, fp :: OnlyDirChanged(d0, disk, fp) ==> OnlyDirChanged(d0, touched, fp))
  {
  }

  /** What the two renaming steps leave, from a complete pending directory. */
  lemma RenamedOutcome(disk0: Instance, disk: Instance, m: Manifest, size: nat, sources: seq<ScratchPath>)
    requires |m.slots| == |sources| && Progress(disk0, disk, m, sources, |m.slots|)
    requires m.generationId !in DirOf(disk0, m.fingerprint.digest).generations
    ensures var fp := m.fingerprint.digest;
            var visible := RenamePending(WriteManifest(disk, m, size), fp, m.generationId);
            && Unpublished(disk0, WriteManifest(disk, m, size), fp, sources)
            && CommitOutcome(DirOf(disk0, fp), DirOf(visible, fp), m, false)
            && CommitOutcome(DirOf(disk0, fp), DirOf(ReplaceLatest(visible, m), fp), m, true)
            && OnlyDirChanged(disk0, visible, fp) && OnlyDirChanged(disk0, ReplaceLatest(visible, m), fp)
            && visible.scratch == disk.scratch && visible.usage == disk0.usage
  {
    var fp := m.fingerprint.digest;
    var visible := RenamePending(WriteManifest(disk, m, size), fp, m.generationId);
    assert Intact(DirOf(visible, fp), m);
    assert Intact(DirOf(ReplaceLatest(visible, m), fp), m);
  }

  class CheckpointStore {
    const instanceId: string
    var disk: Instance
    var fates: seq<Fate>
    var crashed: bool

    constructor (instanceId: string, disk: Instance, fates: seq<Fate>)
      ensures this.instanceId == instanceId && this.disk == disk && this.fates == fates && !crashed
    {
      this.instanceId, this.disk, this.fates, this.crashed := instanceId, disk, fates, false;
    }

    ghost predicate Reliable()
      reads this
    {
      fates == [] && !crashed
    }

    /** Consults the fate of the next effect; after a crash nothing happens any more. */
    method Attempt() returns (happens: bool, ok: bool)
      modifies this`fates, this`crashed
      ensures ok ==> happens && !crashed
      ensures old(Reliable()) ==> happens && ok && Reliable()
      ensures old(crashed) ==> !happens && crashed
    {
      if crashed { return false, false; }
      if fates == [] { return true, true; }
      var fate := fates[0];
      fates := fates[1..];
      match fate
      case Proceed => return true, true;
      case FailBefore => return false, false;
      case FailAfter => return true, false;
      case CrashBefore => crashed := true; return false, false;
      case CrashAfter => crashed := true; return true, false;
    }

    /** Moves the payloads into the pending directory, one rename each. */
    method MovePayloads(m: Manifest, sources: seq<ScratchPath>, ghost disk0: Instance) returns (ok: bool)
      requires ValidManifest(m, instanceId, m.fingerprint.digest) && SourcesMatch(disk0.scratch, sources, m)
      requires Progress(disk0, disk, m, sources, 0)
      modifies this
      ensures Unpublished(disk0, disk, m.fingerprint.digest, sources)
      ensures ok ==> Progress(disk0, disk, m, sources, |m.slots|)
      ensures old(Reliable()) ==> ok && Reliable()
    {
      hide Progress, Unpublished, OnlyDirChanged, OnlyRemoved, SourcesMatch, ValidManifest, MovePayload;
      SameNumber(disk0.scratch, sources, m);
      ProgressMeans(disk0, disk, m, sources, 0);
      var i := 0;
      while i < |m.slots|
        invariant i <= |m.slots| && Progress(disk0, disk, m, sources, i) && Unpublished(disk0, disk, m.fingerprint.digest, sources)
        invariant old(Reliable()) ==> Reliable()
      {
        ProgressMeans(disk0, disk, m, sources, i);
        PayloadMoved(instanceId, disk0, disk, m, sources, i);
        ProgressMeans(disk0, MovePayload(disk, m.fingerprint.digest, m.generationId, m.slots[i].filename, sources[i]), m, sources, i + 1);
        var happens, moved := Attempt();
        if happens {
          disk := MovePayload(disk, m.fingerprint.digest, m.generationId, m.slots[i].filename, sources[i]);
        }
        if !moved { return false; }
        var _, synced := Attempt();
        if !synced { return false; }
        i := i + 1;
      }
      return true;
    }

    /** The clean-up after a failed commit whose directory was not renamed; it may fail as well. */
    method DiscardPending(fp: string, id: Uuid, sources: seq<ScratchPath>, ghost disk0: Instance)
      requires Unpublished(disk0, disk, fp, sources)
      modifies this
      ensures Unpublished(disk0, disk, fp, sources)
      ensures old(Reliable()) ==> Reliable()
    {
      var removed, _ := Attempt();
      PendingDropped(disk0, disk, fp, id, sources);
      if removed { disk := DropPending(disk, fp, id); }
    }

    /** Fills the pending directory and renames it into place. */
    method StageGeneration(m: Manifest, manifestSize: nat, sources: seq<ScratchPath>) returns (ok: bool)
      requires ValidManifest(m, instanceId, m.fingerprint.digest) && SourcesMatch(disk.scratch, sources, m)
      requires m.generationId !in DirOf(disk, m.fingerprint.digest).generations
      modifies this
      ensures CommitOutcome(old(DirOf(disk, m.fingerprint.digest)), DirOf(disk, m.fingerprint.digest), m, false)
      ensures OnlyRemoved(old(disk.scratch), disk.scratch, sources) && disk.usage == old(disk.usage)
      ensures disk == old(disk) || OnlyDirChanged(old(disk), disk, m.fingerprint.digest)
      ensures ok ==> && m.fingerprint.digest in disk.fingerprints && OnlyDirChanged(old(disk), disk, m.fingerprint.digest)
                     && CommitOutcome(old(DirOf(disk, m.fingerprint.digest)), DirOf(ReplaceLatest(disk, m), m.fingerprint.digest), m, true)
                     && OnlyDirChanged(old(disk), ReplaceLatest(disk, m), m.fingerprint.digest)
      ensures old(Reliable()) ==> ok && Reliable()
    {
      hide CommitOutcome, OnlyDirChanged, OnlyRemoved, ReplaceLatest, Intact;
      var fp, id := m.fingerprint.digest, m.generationId;
      ghost var disk0 := disk;
      PendingMade(disk, m, sources);
      var made, ok1 := Attempt();
      if made { disk := MakePending(disk, fp, id); }
      if !ok1 {
        UnpublishedSelf(disk0, fp, sources);
        DiscardPending(fp, id, sources, disk0);
        UnpublishedOutcome(disk0, disk, m, sources);
        return false;
      }
      var moved := MovePayloads(m, sources, disk0);
      if !moved {
        DiscardPending(fp, id, sources, disk0);
        UnpublishedOutcome(disk0, disk, m, sources);
        return false;
      }
      RenamedOutcome(disk0, disk, m, manifestSize, sources);
      var written, ok2 := Attempt();
      if written { disk := WriteManifest(disk, m, manifestSize); }
      if !ok2 {
        DiscardPending(fp, id, sources, disk0);
        UnpublishedOutcome(disk0, disk, m, sources);
        return false;
      }
      var renamed, ok3 := Attempt();
      if renamed {
        disk := RenamePending(disk, fp, id);
      } else {
        DiscardPending(fp, id, sources, disk0);
        UnpublishedOutcome(disk0, disk, m, sources);
      }
      return ok3;
    }

    /**
     `commit_slots_with_fault`: stopped anywhere by a fault or a crash, it leaves every earlier
     generation as it was, and the new one is either invisible or complete.
     */
    method Commit(m: Manifest, manifestSize: nat, sources: seq<ScratchPath>, limit: nat, now: nat)
      returns (r: Result<(), CommitError>, ghost published: bool)
      modifies this
      ensures r.Ok? ==> published && !crashed
      ensures !CommitAccepted(instanceId, old(disk), m, manifestSize, sources, limit) ==> r.Err? && !published && disk == old(disk)
      ensures CommitAccepted(instanceId, old(disk), m, manifestSize, sources, limit) ==>
                CommitOutcome(old(DirOf(disk, m.fingerprint.digest)), DirOf(disk, m.fingerprint.digest), m, published)
      ensures disk == old(disk) || OnlyDirChanged(old(disk), disk, m.fingerprint.digest)
      ensures disk.usage == old(disk.usage) || disk.usage == old(disk.usage)[Key(m.fingerprint.digest, m.generationId) := now]
      ensures OnlyRemoved(old(disk.scratch), disk.scratch, sources)
      ensures old(Reliable()) ==> Reliable()
      ensures old(Reliable()) && CommitAccepted(instanceId, old(disk), m, manifestSize, sources, limit) ==>
                r.Ok? && disk.usage == old(disk.usage)[Key(m.fingerprint.digest, m.generationId) := now]
    {
      hide CommitOutcome, OnlyDirChanged, Intact;
      var fp, id := m.fingerprint.digest, m.generationId;
      if !ValidManifest(m, instanceId, fp) { return Err(InvalidManifest), false; }
      if |sources| != |m.slots| { return Err(PayloadSetIncomplete), false; }
      if !SourcesMatch(disk.scratch, sources, m) { return Err(PayloadMismatch), false; }
      if PayloadBytes(m.slots) + manifestSize > limit { return Err(StorageLimit), false; }
      if id in DirOf(disk, fp).pending || id in DirOf(disk, fp).generations { return Err(AlreadyExists), false; }
      var staged := StageGeneration(m, manifestSize, sources);
      if !staged { return Err(IoError), false; }
      var replaced, pointed := Attempt();
      if replaced { disk := ReplaceLatest(disk, m); }
      if !pointed { return Err(IoError), replaced; }
      var touched, ok := Attempt();
      DirsAfterTouch(disk, Key(fp, id), now);
      if touched { disk := disk.(usage := disk.usage[Key(fp, id) := now]); }
      if !ok { return Err(IoError), true; }
      return Ok(()), true;
    }

    /** A newest loadable generation of the directory, in whatever order the entries come. */
    method FindNewest(fp: string) returns (r: Option<Uuid>)
      ensures r.None? ==> NothingLoadable(instanceId, fp, DirOf(disk, fp))
      ensures r.Some? ==> r.value in DirOf(disk, fp).generations && IsNewest(instanceId, fp, DirOf(disk, fp), r.value)
    {
      hide ValidManifest, LoadGeneration;
      r := None;
      var d := DirOf(disk, fp);
      var rest := d.generations.Keys;
      while rest != {}
        invariant rest <= d.generations.Keys
        invariant r.None? ==> forall id :: id in d.generations && id !in rest ==> !Loadable(instanceId, fp, d, id)
        invariant r.Some? ==> r.value in d.generations && Loadable(instanceId, fp, d, r.value)
        invariant r.Some? ==> forall id :: id in d.generations && id !in rest && Loadable(instanceId, fp, d, id) ==>
                    ManifestAt(instanceId, fp, d, id).createdAt <= ManifestAt(instanceId, fp, d, r.value).createdAt
        decreases rest
      {
        var id :| id in rest;
        rest := rest - {id};
        if Loadable(instanceId, fp, d, id)
           && (r.None? || ManifestAt(instanceId, fp, d, r.value).createdAt < ManifestAt(instanceId, fp, d, id).createdAt)
        {
          r := Some(id);
        }
      }
    }

    /** Records a use; a failure to record is ignored. */
    method TouchUsage(key: Key, now: nat)
      modifies this
      ensures disk == old(disk).(usage := disk.usage)
      ensures disk.usage == old(disk.usage) || disk.usage == old(disk.usage)[key := now]
      ensures old(Reliable()) ==> Reliable() && disk.usage == old(disk.usage)[key := now]
    {
      var touched, _ := Attempt();
      if touched { disk := disk.(usage := disk.usage[key := now]); }
    }

    method LoadLatest(fp: string, now: nat) returns (r: Result<Option<Manifest>, LoadError>)
      modifies this
      ensures LatestIs(instanceId, fp, old(DirOf(disk, fp)), r)
      ensures disk == old(disk).(usage := disk.usage)
      // what is loaded counts as used now, unless recording it fails
      ensures disk.usage == old(disk.usage)
              || (r.Ok? && r.value.Some? && disk.usage == old(disk.usage)[Key(fp, r.value.value.generationId) := now])
      ensures old(Reliable()) && r.Ok? && r.value.Some? ==> disk.usage == old(disk.usage)[Key(fp, r.value.value.generationId) := now]
      ensures old(Reliable()) ==> Reliable()
    {
      var d := DirOf(disk, fp);
      var failure := NotFound;
      if d.latest.Valid? {
        var pointer := d.latest.pointer;
        var loaded := LoadGeneration(instanceId, fp, d, pointer.generation, Some(pointer.manifestSha256));
        if loaded.Ok? {
          TouchUsage(Key(fp, pointer.generation), now);
          return Ok(Some(loaded.value));
        }
        failure := loaded.error;
      } else if d.latest.Malformed? {
        failure := ManifestInvalid;
      }
      var newest := FindNewest(fp);
      if newest.Some? {
        TouchUsage(Key(fp, newest.value), now);
        return Ok(Some(ManifestAt(instanceId, fp, d, newest.value)));
      }
      if d.latest.Absent? { return Ok(None); }
      return Err(failure);
    }

    /** `reject_generation`: the marker makes the generation unloadable and changes nothing else. */
    method RejectGeneration(fp: string, id: Uuid) returns (ok: bool)
      modifies this
      ensures disk == old(disk) || (fp in old(disk).fingerprints && id in old(disk).fingerprints[fp].generations)
      ensures disk != old(disk) ==>
                var d := old(disk).fingerprints[fp];
                disk == WithDir(old(disk), fp, d.(generations := d.generations[id := d.generations[id].(rejected := true)]))
      ensures ok ==> !Loadable(instanceId, fp, DirOf(disk, fp), id)
      ensures old(Reliable()) ==> Reliable() && (ok <==> id in old(DirOf(disk, fp)).generations)
    {
      var d := DirOf(disk, fp);
      if id !in d.generations { return false; }
      var written, done := Attempt();
      if written {
        disk := WithDir(disk, fp, d.(generations := d.generations[id := d.generations[id].(rejected := true)]));
      }
      return done;
    }

    method ReconcileLatest(fp: string) returns (ok: bool)
      requires fp in disk.fingerprints
      modifies this
      ensures fp in disk.fingerprints
      ensures disk == WithDir(old(disk), fp, old(disk).fingerprints[fp].(latest := disk.fingerprints[fp].latest))
      ensures disk.fingerprints[fp].latest == old(disk).fingerprints[fp].latest || Reconciled(instanceId, fp, disk.fingerprints[fp])
      ensures ok ==> Reconciled(instanceId, fp, disk.fingerprints[fp])
      ensures old(Reliable()) ==> ok && Reliable()
    {
      var newest := FindNewest(fp);
      var d := disk.fingerprints[fp];
      var latest := if newest.Some? then Valid(Pointer(newest.value, ManifestAt(instanceId, fp, d, newest.value))) else Absent;
      PointerIsApart(instanceId, fp, d, latest);
      var happens, done := Attempt();
      assert disk.fingerprints[fp := d] == disk.fingerprints;
      if happens { disk := WithDir(disk, fp, d.(latest := latest)); }
      return done;
    }

    /** Removes a directory, file by file; a removal that is cut off leaves any of its files behind. */
    method RemoveGeneration(k: Key) returns (ok: bool, ghost left: Remains)
      modifies this
      ensures ok ==> disk == DropGeneration(old(disk), k)
      ensures disk in {old(disk), DropGeneration(old(disk), k), CutGeneration(old(disk), k, left)}
      ensures old(Reliable()) ==> ok && Reliable()
    {
      var happens, done := Attempt();
      var remains: Remains := *;
      left := remains;
      if done {
        disk := DropGeneration(disk, k);
      } else if happens {
        disk := CutGeneration(disk, k, remains);
      }
      return done, left;
    }

    /** The clean-up after interrupted commits; its failure is ignored. */
    method CleanupPending(fp: string) returns (ok: bool)
      requires fp in disk.fingerprints
      modifies this
      ensures fp in disk.fingerprints && disk == WithDir(old(disk), fp, disk.fingerprints[fp])
      ensures disk.fingerprints[fp] == old(disk).fingerprints[fp].(pending := disk.fingerprints[fp].pending)
      ensures ok ==> disk.fingerprints[fp].pending == map[]
      ensures old(Reliable()) ==> ok && Reliable()
    {
      var happens, done := Attempt();
      var d := disk.fingerprints[fp];
      assert disk.fingerprints[fp := d] == disk.fingerprints;
      if happens { disk := WithDir(disk, fp, d.(pending := map[])); }
      return done;
    }

    /** The scan of one directory, with `rest` still to come and `kept` what is left of the others. */
    ghost predicate Scanning(fp: string, d: FingerprintDir, usage: map<Key, nat>, rest: set<Uuid>, kept: map<Uuid, Generation>,
                             rs: seq<Record>, broken: set<Key>, swept: bool)
    {
      && rest <= d.generations.Keys && kept.Keys <= d.generations.Keys
      && (forall id :: id in kept ==>
            kept[id] == d.generations[id]
            || (id !in rest && !Loadable(instanceId, fp, d, id) && Remnant(d.generations[id], kept[id])))
      && (forall id :: id in rest || (id in d.generations && Loadable(instanceId, fp, d, id)) ==> id in kept)
      && (swept ==> forall id :: id in kept ==> id in rest || Loadable(instanceId, fp, d, id))
      && (swept ==> broken == set id | id in d.generations && id !in rest && !Loadable(instanceId, fp, d, id) :: Key(fp, id))
      && DistinctKeys(rs)
      && (forall i :: 0 <= i < |rs| ==>
            rs[i].key.fingerprint == fp && rs[i].key.generation in d.generations && rs[i].key.generation !in rest
            && Loadable(instanceId, fp, d, rs[i].key.generation)
            && rs[i] == RecordOf(instanceId, fp, d, usage, rs[i].key.generation))
      && (forall id :: id in d.generations && id !in rest && Loadable(instanceId, fp, d, id) ==> HasKey(rs, Key(fp, id)))
    }

    lemma ScanStart(fp: string, d: FingerprintDir, usage: map<Key, nat>)
      ensures Scanning(fp, d, usage, d.generations.Keys, d.generations, [], {}, true)
    {
      hide LoadGeneration;
    }

    lemma ScanLoadable(fp: string, d: FingerprintDir, usage: map<Key, nat>, rest: set<Uuid>, kept: map<Uuid, Generation>,
                       rs: seq<Record>, broken: set<Key>, swept: bool, id: Uuid)
      requires Scanning(fp, d, usage, rest, kept, rs, broken, swept) && id in rest && Loadable(instanceId, fp, d, id)
      ensures Scanning(fp, d, usage, rest - {id}, kept, rs + [RecordOf(instanceId, fp, d, usage, id)], broken, swept)
    {
      hide LoadGeneration;
      var r := RecordOf(instanceId, fp, d, usage, id);
      forall k ensures HasKey(rs + [r], k) <==> HasKey(rs, k) || k == r.key { HasKeySnoc(rs, r, k); }
      hide HasKey;
    }

    lemma ScanBroken(fp: string, d: FingerprintDir, usage: map<Key, nat>, rest: set<Uuid>, kept: map<Uuid, Generation>,
                     rs: seq<Record>, broken: set<Key>, swept: bool, id: Uuid, h: Generation)
      requires Scanning(fp, d, usage, rest, kept, rs, broken, swept) && id in rest && !Loadable(instanceId, fp, d, id)
      requires id in d.generations && (h == d.generations[id] || Remnant(d.generations[id], h))
      ensures swept ==> Key(fp, id) !in broken
      ensures Scanning(fp, d, usage, rest - {id}, kept - {id}, rs, broken + {Key(fp, id)}, swept)
      ensures Scanning(fp, d, usage, rest - {id}, kept[id := h], rs, broken, false)
    {
      hide LoadGeneration, HasKey, Remnant;
    }

    /** A broken generation is removed, or what the attempt left of it stays. */
    method RemoveBroken(g: Generation) returns (done: bool, h: Generation)
      modifies this`fates, this`crashed
      ensures h == g || Remnant(g, h)
      ensures old(Reliable()) ==> done && Reliable()
    {
      var happens;
      happens, done := Attempt();
      h := g;
      if happens && !done {
        var left: Remains := *;
        CutOffIsRemnant(g, left);
        h := CutOff(g, left);
      }
    }

    lemma ScanDone(fp: string, d: FingerprintDir, usage: map<Key, nat>, kept: map<Uuid, Generation>, pending: map<Uuid, Generation>,
                   rs: seq<Record>, broken: set<Key>, swept: bool)
      requires Scanning(fp, d, usage, {}, kept, rs, broken, swept)
      ensures DirSweeping(instanceId, fp, d, d.(generations := kept, pending := pending)) && DirCovered(instanceId, fp, d, usage, rs)
      ensures swept ==> broken == UnloadableKeys(instanceId, fp, d)
      ensures swept && pending == map[] ==> d.(generations := kept, pending := pending) == Swept(instanceId, fp, d)
    {
      hide LoadGeneration, RecordOf;
      if swept { assert kept == Swept(instanceId, fp, d).generations; }
    }

    /** Scans one directory: drops interrupted commits and unloadable generations as far as possible, records the rest. */
    method ScanFingerprint(fp: string, usage: map<Key, nat>) returns (rs: seq<Record>, broken: nat, swept: bool)
      requires fp in disk.fingerprints
      modifies this
      ensures fp in disk.fingerprints && disk == WithDir(old(disk), fp, disk.fingerprints[fp])
      ensures DirSweeping(instanceId, fp, old(disk).fingerprints[fp], disk.fingerprints[fp])
      ensures swept ==> disk.fingerprints[fp] == Swept(instanceId, fp, old(disk).fingerprints[fp])
      ensures swept ==> broken == |UnloadableKeys(instanceId, fp, old(disk).fingerprints[fp])|
      ensures DirCovered(instanceId, fp, old(disk).fingerprints[fp], usage, rs)
      ensures old(Reliable()) ==> swept && Reliable()
    {
      hide LoadGeneration, Scanning, DirSweeping, DirCovered, Swept, UnloadableKeys, Remnant;
      ghost var disk0 := disk;
      var d := disk.fingerprints[fp];
      var cleaned := CleanupPending(fp);
      var pending := disk.fingerprints[fp].pending;
      var kept := d.generations;
      rs, broken, swept := [], 0, true;
      ghost var gone: set<Key> := {};
      var rest := d.generations.Keys;
      ScanStart(fp, d, usage);
      while rest != {}
        invariant Scanning(fp, d, usage, rest, kept, rs, gone, swept) && (swept ==> broken == |gone|)
        invariant fp in disk.fingerprints && disk == WithDir(disk0, fp, disk.fingerprints[fp])
        invariant old(Reliable()) ==> swept && Reliable()
        decreases rest
      {
        var id :| id in rest;
        if Loadable(instanceId, fp, d, id) {
          ScanLoadable(fp, d, usage, rest, kept, rs, gone, swept, id);
          rs := rs + [RecordOf(instanceId, fp, d, usage, id)];
        } else {
          var done, h := RemoveBroken(d.generations[id]);
          ScanBroken(fp, d, usage, rest, kept, rs, gone, swept, id, h);
          if done {
            kept, broken := kept - {id}, broken + 1;
            gone := gone + {Key(fp, id)};
          } else {
            kept, swept := kept[id := h], false;
          }
        }
        rest := rest - {id};
      }
      ScanDone(fp, d, usage, kept, pending, rs, gone, swept);
      disk := WithDir(disk, fp, d.(generations := kept, pending := pending));
      swept := swept && cleaned;
    }

    lemma SweepOneMore(disk0: Instance, a: Instance, b: Instance, fp: string)
      requires Sweeping(instanceId, disk0, a) && fp in disk0.fingerprints && a.fingerprints[fp] == disk0.fingerprints[fp]
      requires fp in b.fingerprints && b == WithDir(a, fp, b.fingerprints[fp])
      requires DirSweeping(instanceId, fp, disk0.fingerprints[fp], b.fingerprints[fp])
      ensures Sweeping(instanceId, disk0, b)
    {
      hide DirSweeping;
    }

    method ScanAll() returns (rs: seq<Record>, broken: nat, swept: bool)
      modifies this
      ensures Sweeping(instanceId, old(disk), disk) && (swept ==> AllSwept(instanceId, old(disk), disk))
      ensures Covered(instanceId, old(disk), old(disk).fingerprints.Keys, old(disk).usage, rs)
      ensures swept ==> broken == |Unloadable(instanceId, old(disk), old(disk).fingerprints.Keys)|
      ensures old(Reliable()) ==> swept && Reliable()
    {
      hide Swept, Loadable, RecordOf, DirSweeping, Covered, DirCovered, Unloadable, UnloadableKeys;
      rs, broken, swept := [], 0, true;
      ghost var disk0 := disk;
      var usage := disk.usage;
      var rest := disk.fingerprints.Keys;
      NothingScanned(disk0);
      while rest != {}
        invariant rest <= disk0.fingerprints.Keys && Sweeping(instanceId, disk0, disk)
        invariant forall fp :: fp in rest ==> disk.fingerprints[fp] == disk0.fingerprints[fp]
        invariant swept ==> forall fp :: fp in disk0.fingerprints && fp !in rest ==>
                    disk.fingerprints[fp] == Swept(instanceId, fp, disk0.fingerprints[fp])
        invariant Covered(instanceId, disk0, disk0.fingerprints.Keys - rest, usage, rs)
        invariant swept ==> broken == |Unloadable(instanceId, disk0, disk0.fingerprints.Keys - rest)|
        invariant old(Reliable()) ==> swept && Reliable()
        decreases rest
      {
        var fp :| fp in rest;
        ghost var seen, disk1 := disk0.fingerprints.Keys - rest, disk;
        var more, dropped, clean := ScanFingerprint(fp, usage);
        SweepOneMore(disk0, disk1, disk, fp);
        CoveredGrows(instanceId, disk0, seen, usage, rs, fp, more);
        UnloadableGrows(instanceId, disk0, seen, fp);
        rest := rest - {fp};
        assert disk0.fingerprints.Keys - rest == seen + {fp};
        rs, broken, swept := rs + more, broken + dropped, swept && clean;
      }
      assert disk0.fingerprints.Keys - rest == disk0.fingerprints.Keys;
    }

    lemma NothingScanned(disk0: Instance)
      ensures Sweeping(instanceId, disk0, disk0)
      ensures Covered(instanceId, disk0, disk0.fingerprints.Keys - disk0.fingerprints.Keys, disk0.usage, [])
      ensures |Unloadable(instanceId, disk0, disk0.fingerprints.Keys - disk0.fingerprints.Keys)| == 0
    {
      hide Loadable, RecordOf;
    }

    /** The generations spared from pruning. */
    method ChooseShield(explicit: set<Key>, limit: nat, rs: seq<Record>) returns (shield: set<Key>)
      ensures Shields(explicit, limit, rs, shield)
    {
      if explicit != {} || rs == [] { return explicit; }
      var n, i := 0, 1;
      while i < |rs|
        invariant 0 <= n < i <= |rs|
        invariant forall k :: 0 <= k < i ==> rs[k].createdAt <= rs[n].createdAt
      {
        if rs[i].createdAt > rs[n].createdAt { n := i; }
        i := i + 1;
      }
      shield := if rs[n].bytes <= limit then {rs[n].key} else {};
    }

    /** Removes unprotected generations, least recently used first, while over the limit. */
    method RemoveLeastRecent(rs: seq<Record>, limit: nat, shield: set<Key>, ghost disk0: Instance, ghost spared: iset<Key>)
      returns (ok: bool, kept: seq<Record>, removed: seq<Record>, remaining: nat)
      requires OldestFirst(rs) && DistinctKeys(rs) && spared == Spared(AsSet(rs), limit, shield) && TrimSafe(instanceId, disk0, disk, spared)
      modifies this
      ensures TrimSafe(instanceId, disk0, disk, spared) && disk.usage == old(disk.usage)
      ensures ok ==> Dropped(old(disk), disk, removed) && multiset(kept + removed) == multiset(rs)
      ensures ok ==> Selected(limit, shield, kept, removed) && remaining == Total(kept)
      ensures old(Reliable()) ==> ok && Reliable()
    {
      hide Dropped, Selecting, Selected, TrimSafe, Spared, Crowded, OldestFirst, DistinctKeys, CutGeneration;
      remaining := Total(rs);
      kept, removed := [], [];
      ghost var start := disk;
      NothingDropped(start);
      var i := 0;
      assert rs[0..] == rs;
      SelectStart(rs, limit, shield);
      while i < |rs| && remaining > limit
        invariant i <= |rs| && Dropped(start, disk, removed) && disk.usage == start.usage && TrimSafe(instanceId, disk0, disk, spared)
        invariant Selecting(rs, i, limit, shield, kept, removed, remaining)
        invariant old(Reliable()) ==> Reliable()
      {
        var r := rs[i];
        if r.key in shield {
          SelectKeep(rs, i, limit, shield, kept, removed, remaining);
          kept := kept + [r];
        } else {
          NextIsCrowded(rs, i, limit, shield, kept, removed, remaining);
          SelectRemove(rs, i, limit, shield, kept, removed, remaining);
          DropOneMore(start, disk, removed, r);
          ghost var disk1 := disk;
          var done, left := RemoveGeneration(r.key);
          RemovalIsSafe(instanceId, disk0, disk1, r.key, left, spared);
          if !done { return false, kept, removed, remaining; }
          remaining := remaining - r.bytes;
          removed := removed + [r];
        }
        i := i + 1;
      }
      SelectStop(rs, i, limit, shield, kept, removed, remaining);
      kept := kept + rs[i..];
      ok := true;
    }

    method ReconcileAll() returns (ok: bool)
      modifies this
      ensures SameGenerations(old(disk), disk)
      ensures forall fp :: fp in disk.fingerprints ==>
                && (disk.fingerprints[fp].latest == old(disk).fingerprints[fp].latest || Reconciled(instanceId, fp, disk.fingerprints[fp]))
                && (ok ==> Reconciled(instanceId, fp, disk.fingerprints[fp]))
      ensures disk.usage == old(disk.usage)
      ensures old(Reliable()) ==> ok && Reliable()
    {
      hide Reconciled;
      ghost var disk0 := disk;
      var rest := disk.fingerprints.Keys;
      while rest != {}
        invariant rest <= disk.fingerprints.Keys == disk0.fingerprints.Keys
        invariant disk == disk0.(fingerprints := disk.fingerprints)
        invariant forall fp :: fp in disk.fingerprints ==>
                    && disk.fingerprints[fp] == disk0.fingerprints[fp].(latest := disk.fingerprints[fp].latest)
                    && (disk.fingerprints[fp].latest == disk0.fingerprints[fp].latest || Reconciled(instanceId, fp, disk.fingerprints[fp]))
                    && (fp !in rest ==> Reconciled(instanceId, fp, disk.fingerprints[fp]))
        invariant old(Reliable()) ==> Reliable()
        decreases rest
      {
        var fp :| fp in rest;
        rest := rest - {fp};
        var done := ReconcileLatest(fp);
        if !done { return false; }
      }
      return true;
    }

    /** The scan, the choice and the removals. */
    method TrimGenerations(limit: nat, explicit: set<Key>)
      returns (ok: bool, remaining: nat, removedCount: nat, kept: seq<Record>, removed: seq<Record>, shield: set<Key>, swept: bool)
      modifies this
      ensures ok ==> Trimmed(instanceId, old(disk), disk, limit, explicit, shield, kept, removed, swept) && remaining == Total(kept)
      ensures ok && swept ==> removedCount == |removed| + |Unloadable(instanceId, old(disk), old(disk).fingerprints.Keys)|
      ensures TrimSafe(instanceId, old(disk), disk, Spared(AllRecords(instanceId, old(disk)), limit, shield))
      ensures disk.usage == old(disk.usage) && (explicit != {} ==> shield == explicit)
      ensures old(Reliable()) ==> ok && swept && Reliable()
    {
      hide Trimmed, TrimSafe, Selected, Covered, Dropped, Sweeping, AllSwept, Spared, Unloadable;
      ghost var disk0 := disk;
      var rs, broken, clean := ScanAll();
      swept := clean;
      ghost var middle := disk;
      shield := ChooseShield(explicit, limit, rs);
      SortByUseSorts(rs);
      var sorted := SortByUse(rs);
      CoveredPermuted(instanceId, disk0, disk0.fingerprints.Keys, disk0.usage, rs, sorted);
      CoveredIsAll(instanceId, disk0, sorted);
      CoveredIsDistinct(instanceId, disk0, sorted);
      ghost var spared := Spared(AllRecords(instanceId, disk0), limit, shield);
      SweepIsSafe(instanceId, disk0, disk, spared);
      SweepingKeepsUsage(instanceId, disk0, disk);
      ok, kept, removed, remaining := RemoveLeastRecent(sorted, limit, shield, disk0, spared);
      removedCount := broken + |removed|;
      if ok {
        ShieldsAny(explicit, limit, rs, kept + removed, shield);
        AfterRemoval(instanceId, disk0, middle, disk, limit, explicit, shield, sorted, kept, removed, swept);
      }
    }

    lemma CoveredIsDistinct(d: string, disk0: Instance, rs: seq<Record>)
      requires Covered(d, disk0, disk0.fingerprints.Keys, disk0.usage, rs)
      ensures DistinctKeys(rs)
    {
    }

    lemma SweepingKeepsUsage(d: string, a: Instance, b: Instance)
      requires Sweeping(d, a, b)
      ensures b.usage == a.usage
    {
    }

    /** `prune_instance`; every removal, the usage record and every pointer may fail, or be where the machine stops. */
    method Prune(limit: nat, explicit: set<Key>)
      returns (ok: bool, remaining: nat, removedCount: nat, kept: seq<Record>, removed: seq<Record>, shield: set<Key>, swept: bool)
      modifies this
      ensures ok ==> Pruned(instanceId, old(disk), disk, limit, explicit, shield, kept, removed, swept) && remaining == Total(kept)
      // the policy, said of the disk alone
      ensures ok ==> FollowsPolicy(instanceId, old(disk), disk, limit, explicit, shield, remaining)
      ensures ok ==> forall k :: (k in disk.usage <==> k in old(disk).usage && k in Left(instanceId, old(disk), disk))
                                 && (k in disk.usage ==> disk.usage[k] == old(disk).usage[k])
      ensures ok && swept ==> removedCount == |removed| + |Unloadable(instanceId, old(disk), old(disk).fingerprints.Keys)|
      ensures PruneSafe(instanceId, old(disk), disk, Spared(AllRecords(instanceId, old(disk)), limit, shield))
      ensures explicit != {} ==> shield == explicit
      ensures old(Reliable()) ==> ok && swept && Reliable()
    {
      hide Pruned, Trimmed, TrimSafe, PruneSafe, Reconciled, SameGenerations, Spared, Unloadable, FollowsPolicy, Left;
      ghost var disk0 := disk;
      var _, ok0 := Attempt();
      if !ok0 {
        PruneSafeSelf(instanceId, disk0, Spared(AllRecords(instanceId, disk0), limit, explicit));
        return false, 0, 0, [], [], explicit, false;
      }
      var trimmed;
      trimmed, remaining, removedCount, kept, removed, shield, swept := TrimGenerations(limit, explicit);
      ghost var spared := Spared(AllRecords(instanceId, disk0), limit, shield);
      NoPointerMoved(disk0, disk, spared);
      if !trimmed { return false, remaining, removedCount, kept, removed, shield, swept; }
      var next := map k | k in disk.usage && HasKey(kept, k) :: disk.usage[k];
      UsageIsApart(instanceId, disk0, disk, next, limit, explicit, shield, kept, removed, swept);
      UsageIsSafe(instanceId, disk0, disk, next, spared);
      NoPointerMoved(disk0, disk.(usage := next), spared);
      var wrote, ok1 := Attempt();
      if wrote { disk := disk.(usage := next); }
      if !ok1 { return false, remaining, removedCount, kept, removed, shield, swept; }
      ghost var recorded := disk;
      ok := ReconcileAll();
      PointersAreApart(instanceId, disk0, recorded, disk, limit, explicit, shield, kept, removed, swept);
      PointersAreSafe(instanceId, disk0, recorded, disk, spared);
      if ok {
        AllPromised(instanceId, disk0, disk, limit, explicit, shield, kept, removed, swept);
        PruneFollowsPolicy(instanceId, disk0, disk, limit, explicit, shield, kept, removed, swept);
        UsageIsCut(instanceId, disk0, disk, limit, explicit, shield, kept, removed, swept);
      }
    }

    lemma NoPointerMoved(a: Instance, b: Instance, spared: iset<Key>)
      requires TrimSafe(instanceId, a, b, spared)
      ensures PruneSafe(instanceId, a, b, spared)
    {
      hide GenerationsSafe, Reconciled;
    }
  }
}

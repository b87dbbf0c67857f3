/**
 One instance directory of the checkpoint store as a value, and what it means to
 load from it.  Every rename or atomic replacement changes the value at once.
 */
module StoreSpec {
  import opened Wrappers
  import opened Manifests

  type Uuid = nat
  type ScratchPath = nat

  const STATE_FORMAT := "llama.cpp-slot-state"

  datatype FingerprintId = FingerprintId(digest: string, wellFormed: bool)

  datatype Manifest = Manifest(
    schemaVersion: nat,
    stateFormat: string,
    generationId: Uuid,
    instanceId: string,
    fingerprint: FingerprintId,
    createdAt: nat,
    slots: seq<SlotManifest>,
    slotCount: nat)

  predicate ValidSlot(s: SlotManifest, slotCount: nat) {
    s.id < slotCount && s.filename == SlotFilename(s.id) && s.promptTokens > 0 && s.bytes > 0
  }

  /** `CheckpointManifestV1::validate` */
  predicate ValidManifest(m: Manifest, instanceId: string, fingerprint: string) {
    && ((m.schemaVersion == 1 && m.slotCount == 1) || (m.schemaVersion == 2 && m.slotCount in {2, 4}))
    && m.stateFormat == STATE_FORMAT
    && m.instanceId == instanceId
    && m.fingerprint.wellFormed && m.fingerprint.digest == fingerprint
    && 0 < |m.slots| <= m.slotCount
    && (forall i :: 0 <= i < |m.slots| ==> ValidSlot(m.slots[i], m.slotCount))
    && (forall i, j :: 0 <= i < j < |m.slots| ==> m.slots[i].id != m.slots[j].id)
  }

  lemma DistinctFilenames(m: Manifest, instanceId: string, fingerprint: string, i: nat, j: nat)
    requires ValidManifest(m, instanceId, fingerprint) && i < |m.slots| && j < |m.slots| && i != j
    ensures m.slots[i].filename != m.slots[j].filename
  {
    SlotFilenamesDiffer(m.slots[i].id, m.slots[j].id);
  }

  /** A generation directory; no manifest stands for a missing or unreadable one. */
  datatype Generation = Generation(
    manifest: Option<Manifest>, manifestSize: nat, payloads: map<string, Bytes>, rejected: bool)

  /** The digest of a manifest's bytes determines the manifest. */
  datatype Pointer = Pointer(generation: Uuid, manifestSha256: Manifest)
  datatype LatestFile = Absent | Malformed | Valid(pointer: Pointer)

  datatype FingerprintDir = FingerprintDir(
    generations: map<Uuid, Generation>, pending: map<Uuid, Generation>, latest: LatestFile)

  const EMPTY_DIR := FingerprintDir(map[], map[], Absent)

  datatype Key = Key(fingerprint: string, generation: Uuid)

  datatype Instance = Instance(
    scratch: map<ScratchPath, Bytes>, fingerprints: map<string, FingerprintDir>, usage: map<Key, nat>)

  function DirOf(disk: Instance, fingerprint: string): FingerprintDir {
    if fingerprint in disk.fingerprints then disk.fingerprints[fingerprint] else EMPTY_DIR
  }

  predicate PayloadMatches(payloads: map<string, Bytes>, s: SlotManifest) {
    && s.filename in payloads && |payloads[s.filename]| == s.bytes
    && Sha256(payloads[s.filename]) == s.sha256
  }

  function PayloadBytes(slots: seq<SlotManifest>): nat {
    if slots == [] then 0 else PayloadBytes(slots[..|slots| - 1]) + slots[|slots| - 1].bytes
  }

  datatype LoadError = RestoreGenerationRejected | ManifestInvalid | ChecksumMismatch | NotFound

  /** What `load_generation` checks of a generation that carries no rejection marker, in the order the code does. */
  function LoadContent(instanceId: string, fingerprint: string, g: Generation, id: Uuid, expected: Option<Manifest>)
    : Result<Manifest, LoadError>
  {
    if g.manifest.None? then Err(ManifestInvalid)
    else if expected.Some? && g.manifest.value != expected.value then Err(ChecksumMismatch)
    else if !ValidManifest(g.manifest.value, instanceId, fingerprint) then Err(ManifestInvalid)
    else if g.manifest.value.generationId != id then Err(ManifestInvalid)
    else if exists i :: 0 <= i < |g.manifest.value.slots| && !PayloadMatches(g.payloads, g.manifest.value.slots[i])
    then Err(ChecksumMismatch)
    else Ok(g.manifest.value)
  }

  /** `load_generation` */
  function LoadGeneration(instanceId: string, fingerprint: string, d: FingerprintDir, id: Uuid, expected: Option<Manifest>)
    : Result<Manifest, LoadError>
  {
    if id !in d.generations then Err(NotFound)
    else if d.generations[id].rejected then Err(RestoreGenerationRejected)
    else LoadContent(instanceId, fingerprint, d.generations[id], id, expected)
  }

  predicate Loadable(instanceId: string, fingerprint: string, d: FingerprintDir, id: Uuid) {
    LoadGeneration(instanceId, fingerprint, d, id, None).Ok?
  }

  function ManifestAt(instanceId: string, fingerprint: string, d: FingerprintDir, id: Uuid): Manifest
    requires Loadable(instanceId, fingerprint, d, id)
  {
    LoadGeneration(instanceId, fingerprint, d, id, None).value
  }

  /** Everything the generation needs to load is there, whether or not it is marked as rejected. */
  predicate Complete(instanceId: string, fingerprint: string, d: FingerprintDir, id: Uuid) {
    id in d.generations && LoadContent(instanceId, fingerprint, d.generations[id], id, None).Ok?
  }

  function CompleteManifest(instanceId: string, fingerprint: string, d: FingerprintDir, id: Uuid): Manifest
    requires Complete(instanceId, fingerprint, d, id)
  {
    LoadContent(instanceId, fingerprint, d.generations[id], id, None).value
  }

  /** Only the rejection marker keeps the generation from loading. */
  predicate Dormant(instanceId: string, fingerprint: string, d: FingerprintDir, id: Uuid) {
    Complete(instanceId, fingerprint, d, id) && d.generations[id].rejected
  }

  predicate NoneDormant(instanceId: string, fingerprint: string, d: FingerprintDir) {
    forall id :: id in d.generations ==> !Dormant(instanceId, fingerprint, d, id)
  }

  lemma LoadableIffComplete(instanceId: string, fingerprint: string, d: FingerprintDir, id: Uuid)
    ensures Loadable(instanceId, fingerprint, d, id) <==> Complete(instanceId, fingerprint, d, id) && !d.generations[id].rejected
    ensures Loadable(instanceId, fingerprint, d, id) ==>
              ManifestAt(instanceId, fingerprint, d, id) == CompleteManifest(instanceId, fingerprint, d, id)
  {
  }

  /** Which files of a generation directory are left when its removal, file by file in any order, is cut off. */
  datatype Remains = Remains(manifest: bool, marker: bool, payloads: set<string>)

  function CutOff(g: Generation, left: Remains): Generation {
    Generation(if left.manifest then g.manifest else None, if left.manifest then g.manifestSize else 0,
               map f | f in g.payloads && f in left.payloads :: g.payloads[f], g.rejected && left.marker)
  }

  /** `h` has some of the files of `g` and no others. */
  predicate Remnant(g: Generation, h: Generation) {
    && (h.manifest == g.manifest || h.manifest.None?)
    && (forall f :: f in h.payloads ==> f in g.payloads && h.payloads[f] == g.payloads[f])
    && (h.rejected ==> g.rejected)
  }

  lemma CutOffIsRemnant(g: Generation, left: Remains)
    ensures Remnant(g, CutOff(g, left))
  {
  }

  /** What is left loads only what the whole would have loaded. */
  lemma RemnantLoads(instanceId: string, fingerprint: string, g: Generation, h: Generation, id: Uuid, expected: Option<Manifest>)
    requires Remnant(g, h) && LoadContent(instanceId, fingerprint, h, id, expected).Ok?
    ensures LoadContent(instanceId, fingerprint, g, id, expected) == LoadContent(instanceId, fingerprint, h, id, expected)
    ensures LoadContent(instanceId, fingerprint, g, id, None) == LoadContent(instanceId, fingerprint, h, id, None)
            == LoadContent(instanceId, fingerprint, h, id, expected)
  {
    hide ValidManifest;
    var m := h.manifest.value;
    forall i | 0 <= i < |m.slots|
      ensures PayloadMatches(g.payloads, m.slots[i])
    {
      assert PayloadMatches(h.payloads, m.slots[i]);
    }
  }

  /** The manifest and every payload it names escaped the removal. */
  predicate ContentLeft(g: Generation, left: Remains) {
    g.manifest.Some? && left.manifest && forall i :: 0 <= i < |g.manifest.value.slots| ==> g.manifest.value.slots[i].filename in left.payloads
  }

  function WithGeneration(d: FingerprintDir, id: Uuid, g: Generation): FingerprintDir { d.(generations := d.generations[id := g]) }

  lemma CutContent(instanceId: string, fingerprint: string, g: Generation, left: Remains, id: Uuid)
    ensures LoadContent(instanceId, fingerprint, CutOff(g, left), id, None).Ok? <==>
            LoadContent(instanceId, fingerprint, g, id, None).Ok? && ContentLeft(g, left)
  {
    hide ValidManifest;
    var h := CutOff(g, left);
    if LoadContent(instanceId, fingerprint, h, id, None).Ok? {
      CutOffIsRemnant(g, left);
      RemnantLoads(instanceId, fingerprint, g, h, id, None);
      forall i | 0 <= i < |g.manifest.value.slots| ensures g.manifest.value.slots[i].filename in left.payloads {
        assert PayloadMatches(h.payloads, g.manifest.value.slots[i]);
      }
    }
    if LoadContent(instanceId, fingerprint, g, id, None).Ok? && ContentLeft(g, left) {
      forall i | 0 <= i < |g.manifest.value.slots| ensures PayloadMatches(h.payloads, g.manifest.value.slots[i]) {
        assert PayloadMatches(g.payloads, g.manifest.value.slots[i]);
      }
    }
  }

  /**
   A removal that is cut off leaves a generation that loads exactly when nothing it needs is gone and
   it is not, or no longer, marked as rejected.
   */
  lemma CutLoadsIff(instanceId: string, fingerprint: string, d: FingerprintDir, id: Uuid, left: Remains)
    requires id in d.generations
    ensures Loadable(instanceId, fingerprint, WithGeneration(d, id, CutOff(d.generations[id], left)), id) <==>
            && Complete(instanceId, fingerprint, d, id) && ContentLeft(d.generations[id], left)
            && !(d.generations[id].rejected && left.marker)
  {
    CutContent(instanceId, fingerprint, d.generations[id], left, id);
    hide LoadContent;
  }

  /** So a generation that does not load comes back exactly when it was rejected and nothing but its marker is gone. */
  lemma RevivesIff(instanceId: string, fingerprint: string, d: FingerprintDir, id: Uuid, left: Remains)
    requires id in d.generations && !Loadable(instanceId, fingerprint, d, id)
    ensures Loadable(instanceId, fingerprint, WithGeneration(d, id, CutOff(d.generations[id], left)), id) <==>
            Dormant(instanceId, fingerprint, d, id) && ContentLeft(d.generations[id], left) && !left.marker
  {
    CutLoadsIff(instanceId, fingerprint, d, id, left);
    hide LoadContent, ContentLeft;
  }

  predicate PointerLoads(instanceId: string, fingerprint: string, d: FingerprintDir) {
    d.latest.Valid? &&
    LoadGeneration(instanceId, fingerprint, d, d.latest.pointer.generation, Some(d.latest.pointer.manifestSha256)).Ok?
  }

  /** `id` is a loadable generation and none is newer. */
  predicate IsNewest(instanceId: string, fingerprint: string, d: FingerprintDir, id: Uuid) {
    && Loadable(instanceId, fingerprint, d, id)
    && forall other :: other in d.generations && Loadable(instanceId, fingerprint, d, other) ==>
         ManifestAt(instanceId, fingerprint, d, other).createdAt <= ManifestAt(instanceId, fingerprint, d, id).createdAt
  }

  predicate NothingLoadable(instanceId: string, fingerprint: string, d: FingerprintDir) {
    forall id :: id in d.generations ==> !Loadable(instanceId, fingerprint, d, id)
  }

  /** Why the pointer does not lead to a generation. */
  function PointerError(instanceId: string, fingerprint: string, d: FingerprintDir): LoadError
    requires !d.latest.Absent? && !PointerLoads(instanceId, fingerprint, d)
  {
    if d.latest.Malformed? then ManifestInvalid
    else LoadGeneration(instanceId, fingerprint, d, d.latest.pointer.generation, Some(d.latest.pointer.manifestSha256)).error
  }

  /**
   What `load_latest` may return: the pointer's generation if it loads, else a newest
   loadable one, else the pointer's error.  Directory order decides between equal times.
   */
  ghost predicate LatestIs(instanceId: string, fingerprint: string, d: FingerprintDir, r: Result<Option<Manifest>, LoadError>) {
    if PointerLoads(instanceId, fingerprint, d) then r == Ok(Some(d.latest.pointer.manifestSha256))
    else if NothingLoadable(instanceId, fingerprint, d) then
      r == if d.latest.Absent? then Ok(None) else Err(PointerError(instanceId, fingerprint, d))
    else exists id :: IsNewest(instanceId, fingerprint, d, id) && r == Ok(Some(ManifestAt(instanceId, fingerprint, d, id)))
  }

  /** The generation holding `m` is on disk, whole, digest-correct and not rejected. */
  predicate Intact(d: FingerprintDir, m: Manifest) {
    && m.generationId in d.generations
    && var g := d.generations[m.generationId];
       && g.manifest == Some(m) && !g.rejected
       && forall i :: 0 <= i < |m.slots| ==> PayloadMatches(g.payloads, m.slots[i])
  }

  /** Whatever is loaded is complete, digest-correct, for this instance and state, and not rejected. */
  lemma LoadedIsIntact(instanceId: string, fingerprint: string, d: FingerprintDir, r: Result<Option<Manifest>, LoadError>)
    requires LatestIs(instanceId, fingerprint, d, r) && r.Ok? && r.value.Some?
    ensures Intact(d, r.value.value) && ValidManifest(r.value.value, instanceId, fingerprint)
  {
  }

  /** What loads, said of the files: the manifest at its place, as expected, valid and unmarked, with every payload of the size and digest it gives. */
  lemma LoadsIff(instanceId: string, fingerprint: string, d: FingerprintDir, id: Uuid, expected: Option<Manifest>, m: Manifest)
    ensures LoadGeneration(instanceId, fingerprint, d, id, expected) == Ok(m) <==>
            && id in d.generations && d.generations[id].manifest == Some(m) && !d.generations[id].rejected
            && (expected == None || expected == Some(m))
            && m.generationId == id && m.instanceId == instanceId && m.fingerprint == FingerprintId(fingerprint, true)
            && m.stateFormat == "llama.cpp-slot-state"
            && ((m.schemaVersion, m.slotCount) == (1, 1) || (m.schemaVersion == 2 && m.slotCount in {2, 4}))
            && 1 <= |m.slots| <= m.slotCount
            && (forall i, j :: 0 <= i < j < |m.slots| ==> m.slots[i].id != m.slots[j].id)
            && (forall i :: 0 <= i < |m.slots| ==> SlotOnDisk(d.generations[id].payloads, m.slots[i], m.slotCount))
  {
    if id in d.generations && d.generations[id].manifest == Some(m) {
      var payloads := d.generations[id].payloads;
      forall i | 0 <= i < |m.slots|
        ensures SlotOnDisk(payloads, m.slots[i], m.slotCount) <==> ValidSlot(m.slots[i], m.slotCount) && PayloadMatches(payloads, m.slots[i])
      {
      }
      hide SlotOnDisk, ValidSlot, PayloadMatches;
    }
  }

  /** The slot is one of the launch's, and its payload is there under the slot's own name. */
  predicate SlotOnDisk(payloads: map<string, Bytes>, s: SlotManifest, slotCount: nat) {
    && s.id < slotCount && s.promptTokens > 0 && s.bytes > 0
    && s.filename == SlotFilename(s.id) && s.filename in payloads
    && |payloads[s.filename]| == s.bytes && Sha256(payloads[s.filename]) == s.sha256
  }

  /** Why a generation does not load. */
  lemma LoadErrorIs(instanceId: string, fingerprint: string, d: FingerprintDir, id: Uuid, expected: Option<Manifest>)
    ensures var r := LoadGeneration(instanceId, fingerprint, d, id, expected);
            && (r == Err(NotFound) <==> id !in d.generations)
            && (r == Err(RestoreGenerationRejected) <==> id in d.generations && d.generations[id].rejected)
            && (r == Err(ChecksumMismatch) <==>
                  && id in d.generations && !d.generations[id].rejected && d.generations[id].manifest.Some?
                  && var m, payloads := d.generations[id].manifest.value, d.generations[id].payloads;
                     || (expected.Some? && expected.value != m)
                     || (&& ValidManifest(m, instanceId, fingerprint) && m.generationId == id
                         && exists s :: s in m.slots && !(s.filename in payloads && |payloads[s.filename]| == s.bytes && Sha256(payloads[s.filename]) == s.sha256)))
  {
    hide ValidManifest;
  }

  /** The only differences a commit of `m`, stopped anywhere, can leave in its fingerprint directory. */
  predicate CommitOutcome(before: FingerprintDir, after: FingerprintDir, m: Manifest, published: bool) {
    && m.generationId !in before.generations
    && (forall id :: id in before.generations ==> id in after.generations && after.generations[id] == before.generations[id])
    && (forall id :: id in after.generations ==> id in before.generations || (id == m.generationId && Intact(after, m)))
    && after.latest == (if published then Valid(Pointer(m.generationId, m)) else before.latest)
    && (published ==> m.generationId in after.generations)
  }

  lemma KeptLoads(instanceId: string, fingerprint: string, before: FingerprintDir, after: FingerprintDir, m: Manifest, published: bool)
    requires CommitOutcome(before, after, m, published) && ValidManifest(m, instanceId, fingerprint)
    ensures forall id, expected :: id in before.generations ==>
              LoadGeneration(instanceId, fingerprint, after, id, expected) == LoadGeneration(instanceId, fingerprint, before, id, expected)
    ensures m.generationId in after.generations ==>
              LoadGeneration(instanceId, fingerprint, after, m.generationId, None) == Ok(m)
              && LoadGeneration(instanceId, fingerprint, after, m.generationId, Some(m)) == Ok(m)
  {
  }

  /**
   Crash-atomic commit: until the pointer is replaced the previously loaded generation is
   still the one that loads; from then on it is the new one.
   */
  lemma CommitIsAtomic(instanceId: string, fingerprint: string, before: FingerprintDir, after: FingerprintDir,
                       m: Manifest, published: bool, r: Result<Option<Manifest>, LoadError>)
    requires CommitOutcome(before, after, m, published) && ValidManifest(m, instanceId, fingerprint)
    requires PointerLoads(instanceId, fingerprint, before)
    ensures LatestIs(instanceId, fingerprint, after, r) <==>
            r == Ok(Some(if published then m else before.latest.pointer.manifestSha256))
  {
    KeptLoads(instanceId, fingerprint, before, after, m, published);
  }

  /** Without a loading pointer, an interrupted commit shows only if its generation is in place and is newest. */
  lemma CommitWithoutPointer(instanceId: string, fingerprint: string, before: FingerprintDir, after: FingerprintDir,
                             m: Manifest, r: Result<Option<Manifest>, LoadError>)
    requires CommitOutcome(before, after, m, false) && ValidManifest(m, instanceId, fingerprint)
    requires !PointerLoads(instanceId, fingerprint, before) && !PointerLoads(instanceId, fingerprint, after)
    requires LatestIs(instanceId, fingerprint, after, r)
    requires forall id :: id in before.generations && Loadable(instanceId, fingerprint, before, id) ==>
               ManifestAt(instanceId, fingerprint, before, id).createdAt < m.createdAt
    ensures if m.generationId in after.generations then r == Ok(Some(m)) else LatestIs(instanceId, fingerprint, before, r)
  {
    KeptLoads(instanceId, fingerprint, before, after, m, false);
    if m.generationId in after.generations {
      assert Loadable(instanceId, fingerprint, after, m.generationId);
    } else {
      assert after.generations == before.generations;
      assert after.latest == before.latest;
      forall id
        ensures LoadGeneration(instanceId, fingerprint, after, id, None) == LoadGeneration(instanceId, fingerprint, before, id, None)
      {
      }
      if !NothingLoadable(instanceId, fingerprint, after) {
        var id :| IsNewest(instanceId, fingerprint, after, id) && r == Ok(Some(ManifestAt(instanceId, fingerprint, after, id)));
        assert IsNewest(instanceId, fingerprint, before, id);
      }
    }
  }
}

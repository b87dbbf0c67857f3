/** With longer prefixes preserved, no save ever shortens what the next start can restore. */
module Retention {
  import opened Wrappers
  import opened Manifests
  import opened StoreSpec
  import opened PruneSpec
  import opened Eviction

  /** Every slot of `a` is still in `b`, with at least as many tokens. */
  ghost predicate KeepsAll(a: Manifest, b: Manifest) {
    forall i :: 0 <= i < |a.slots| ==> KeepsSlot(a.slots[i], b)
  }

  ghost predicate KeepsSlot(s: SlotManifest, m: Manifest) {
    exists j :: 0 <= j < |m.slots| && m.slots[j].id == s.id && m.slots[j].promptTokens >= s.promptTokens
  }

  lemma KeepsAllTransitive(a: Manifest, b: Manifest, c: Manifest)
    requires KeepsAll(a, b) && KeepsAll(b, c)
    ensures KeepsAll(a, c)
  {
    forall i | 0 <= i < |a.slots|
      ensures KeepsSlot(a.slots[i], c)
    {
      assert KeepsSlot(a.slots[i], b);
      var j :| 0 <= j < |b.slots| && b.slots[j].id == a.slots[i].id && b.slots[j].promptTokens >= a.slots[i].promptTokens;
      assert KeepsSlot(b.slots[j], c);
    }
  }

  lemma KeepsAllReflexive(a: Manifest)
    ensures KeepsAll(a, a)
  {
    forall i | 0 <= i < |a.slots| ensures KeepsSlot(a.slots[i], a) {
      assert a.slots[i].id == a.slots[i].id;
    }
  }

  /** A slot carried over unchanged has the very same payload in both generations. */
  lemma RetainedPayload(d0: FingerprintDir, d1: FingerprintDir, a: Manifest, b: Manifest, s: SlotManifest)
    requires Intact(d0, a) && Intact(d1, b) && s in a.slots && s in b.slots
    ensures d0.generations[a.generationId].payloads[s.filename] == d1.generations[b.generationId].payloads[s.filename]
  {
    var i :| 0 <= i < |a.slots| && a.slots[i] == s;
    var j :| 0 <= j < |b.slots| && b.slots[j] == s;
    assert PayloadMatches(d0.generations[a.generationId].payloads, s);
    assert PayloadMatches(d1.generations[b.generationId].payloads, s);
  }

  /** What one save may do to the directory of its fingerprint. */
  datatype SaveEffect =
    | NoCommit                                      // skipped, or failed before the commit
    | Interrupted(m: Manifest, middle: FingerprintDir, published: bool)
    | Finished(m: Manifest, middle: FingerprintDir) // committed; pruning then got some way

  /** Every token count meets the configured minimum. */
  predicate MeetsMinimum(m: Manifest, minimum: nat) {
    forall i :: 0 <= i < |m.slots| ==> m.slots[i].promptTokens >= minimum
  }

  /** The manifest a save builds on what the store held, at a later time than anything before. */
  ghost predicate BuiltOn(instanceId: string, fp: string, d: FingerprintDir, previous: Option<Manifest>, m: Manifest, minimum: nat, clock: nat) {
    && LatestIs(instanceId, fp, d, Ok(previous)) && ValidManifest(m, instanceId, fp) && m.createdAt > clock
    && MeetsMinimum(m, minimum) && (previous.Some? ==> KeepsAll(previous.value, m))
  }

  ghost predicate SaveStep(instanceId: string, fp: string, before: FingerprintDir, after: FingerprintDir, a: SaveEffect,
                           previous: Option<Manifest>, minimum: nat, clock: nat)
  {
    match a
    case NoCommit => after == before
    case Interrupted(m, middle, published) =>
      BuiltOn(instanceId, fp, before, previous, m, minimum, clock) && CommitOutcome(before, middle, m, published) && after == middle
    case Finished(m, middle) =>
      && BuiltOn(instanceId, fp, before, previous, m, minimum, clock) && CommitOutcome(before, middle, m, true)
      && DirSafe(instanceId, fp, middle, after, iset{Key(fp, m.generationId)})
  }

  /** What every save keeps: a usable pointer or none, and generations told apart by their times. */
  ghost predicate Retained(instanceId: string, fp: string, d: FingerprintDir, minimum: nat, clock: nat) {
    && (PointerLoads(instanceId, fp, d) || d.latest.Absent?)
    && (forall id :: id in d.generations && Loadable(instanceId, fp, d, id) ==>
          ManifestAt(instanceId, fp, d, id).createdAt <= clock && MeetsMinimum(ManifestAt(instanceId, fp, d, id), minimum))
    && (forall x, y :: x in d.generations && y in d.generations && x != y
                       && Loadable(instanceId, fp, d, x) && Loadable(instanceId, fp, d, y) ==>
          ManifestAt(instanceId, fp, d, x).createdAt != ManifestAt(instanceId, fp, d, y).createdAt)
    && NewerKeep(instanceId, fp, d)
  }

  /** A generation newer than the one that loads, left by an interrupted commit, holds every slot of that one. */
  ghost predicate NewerKeep(instanceId: string, fp: string, d: FingerprintDir) {
    forall m, id :: Loads(instanceId, fp, d, m) && id in d.generations && Loadable(instanceId, fp, d, id)
                    && ManifestAt(instanceId, fp, d, id).createdAt > m.createdAt ==>
      KeepsAll(m, ManifestAt(instanceId, fp, d, id))
  }

  /** The manifest that loading returns, when it returns one. */
  ghost predicate Loads(instanceId: string, fp: string, d: FingerprintDir, m: Manifest) {
    LatestIs(instanceId, fp, d, Ok(Some(m)))
  }

  lemma LoadsUnique(instanceId: string, fp: string, d: FingerprintDir, minimum: nat, clock: nat, a: Manifest, b: Manifest)
    requires Retained(instanceId, fp, d, minimum, clock) && Loads(instanceId, fp, d, a) && Loads(instanceId, fp, d, b)
    ensures a == b
  {
    hide LoadGeneration;
    if !PointerLoads(instanceId, fp, d) {
      var x :| IsNewest(instanceId, fp, d, x) && a == ManifestAt(instanceId, fp, d, x);
      var y :| IsNewest(instanceId, fp, d, y) && b == ManifestAt(instanceId, fp, d, y);
      LoadableIsPresent(instanceId, fp, d, x);
      LoadableIsPresent(instanceId, fp, d, y);
      assert x == y;
    }
  }

  lemma LoadableIsPresent(instanceId: string, fp: string, d: FingerprintDir, id: Uuid)
    requires Loadable(instanceId, fp, d, id)
    ensures id in d.generations
  {
  }

  lemma EmptyIsRetained(instanceId: string, fp: string, minimum: nat)
    ensures Retained(instanceId, fp, EMPTY_DIR, minimum, 0)
  {
  }

  /** After a commit, interrupted or not, everything that was retained is. */
  lemma CommitRetains(instanceId: string, fp: string, before: FingerprintDir, after: FingerprintDir, m: Manifest, published: bool,
                      previous: Option<Manifest>, minimum: nat, clock: nat)
    requires Retained(instanceId, fp, before, minimum, clock) && BuiltOn(instanceId, fp, before, previous, m, minimum, clock)
    requires CommitOutcome(before, after, m, published)
    ensures Retained(instanceId, fp, after, minimum, m.createdAt)
    ensures published ==> Loads(instanceId, fp, after, m)
    ensures previous.Some? ==> exists n :: Loads(instanceId, fp, after, n) && KeepsAll(previous.value, n)
  {
    hide *;
    CommitKeepsTimes(instanceId, fp, before, after, m, published, previous, minimum, clock);
    if published {
      PublishedRetains(instanceId, fp, before, after, m, previous, minimum, clock);
    } else {
      PointerOrNone(instanceId, fp, before, minimum, clock);
      if PointerLoads(instanceId, fp, before) {
        UnpublishedRetains(instanceId, fp, before, after, m, previous, minimum, clock);
      } else {
        CommitWithoutPointerRetains(instanceId, fp, before, after, m, previous, minimum, clock);
      }
    }
    RetainedFrom(instanceId, fp, after, minimum, m.createdAt);
  }

  lemma PointerOrNone(instanceId: string, fp: string, d: FingerprintDir, minimum: nat, clock: nat)
    requires Retained(instanceId, fp, d, minimum, clock)
    ensures PointerLoads(instanceId, fp, d) || d.latest.Absent?
  {
  }

  /** The generations are told apart by their times, none later than `clock`, and meet the minimum. */
  ghost predicate TimesApart(instanceId: string, fp: string, d: FingerprintDir, minimum: nat, clock: nat) {
    && (forall id :: id in d.generations && Loadable(instanceId, fp, d, id) ==>
          ManifestAt(instanceId, fp, d, id).createdAt <= clock && MeetsMinimum(ManifestAt(instanceId, fp, d, id), minimum))
    && (forall x, y :: x in d.generations && y in d.generations && x != y
                       && Loadable(instanceId, fp, d, x) && Loadable(instanceId, fp, d, y) ==>
          ManifestAt(instanceId, fp, d, x).createdAt != ManifestAt(instanceId, fp, d, y).createdAt)
  }

  lemma RetainedFrom(instanceId: string, fp: string, d: FingerprintDir, minimum: nat, clock: nat)
    requires PointerLoads(instanceId, fp, d) || d.latest.Absent?
    requires TimesApart(instanceId, fp, d, minimum, clock) && NewerKeep(instanceId, fp, d)
    ensures Retained(instanceId, fp, d, minimum, clock)
  {
    hide Loadable, PointerLoads, NewerKeep;
  }

  lemma CommitKeepsTimes(instanceId: string, fp: string, before: FingerprintDir, after: FingerprintDir, m: Manifest, published: bool,
                         previous: Option<Manifest>, minimum: nat, clock: nat)
    requires Retained(instanceId, fp, before, minimum, clock) && BuiltOn(instanceId, fp, before, previous, m, minimum, clock)
    requires CommitOutcome(before, after, m, published)
    ensures TimesApart(instanceId, fp, after, minimum, m.createdAt)
  {
    hide LoadGeneration, ValidManifest, PayloadMatches, NewerKeep, LatestIs, KeepsAll, Intact, PointerLoads, MeetsMinimum;
    KeptLoads(instanceId, fp, before, after, m, published);
    forall id | id in after.generations && Loadable(instanceId, fp, after, id)
      ensures ManifestAt(instanceId, fp, after, id).createdAt <= m.createdAt
      ensures MeetsMinimum(ManifestAt(instanceId, fp, after, id), minimum)
      ensures id != m.generationId ==> id in before.generations && Loadable(instanceId, fp, before, id)
    {
      assert id != m.generationId ==> id in before.generations;
    }
  }

  lemma PublishedRetains(instanceId: string, fp: string, before: FingerprintDir, after: FingerprintDir, m: Manifest,
                         previous: Option<Manifest>, minimum: nat, clock: nat)
    requires BuiltOn(instanceId, fp, before, previous, m, minimum, clock) && CommitOutcome(before, after, m, true)
    requires TimesApart(instanceId, fp, after, minimum, m.createdAt)
    ensures PointerLoads(instanceId, fp, after) && Loads(instanceId, fp, after, m) && NewerKeep(instanceId, fp, after)
    ensures previous.Some? ==> exists n :: Loads(instanceId, fp, after, n) && KeepsAll(previous.value, n)
  {
    hide LoadGeneration, ValidManifest, PayloadMatches, KeepsAll;
    KeptLoads(instanceId, fp, before, after, m, true);
  }

  lemma UnpublishedRetains(instanceId: string, fp: string, before: FingerprintDir, after: FingerprintDir, m: Manifest,
                           previous: Option<Manifest>, minimum: nat, clock: nat)
    requires Retained(instanceId, fp, before, minimum, clock) && BuiltOn(instanceId, fp, before, previous, m, minimum, clock)
    requires CommitOutcome(before, after, m, false) && PointerLoads(instanceId, fp, before)
    ensures PointerLoads(instanceId, fp, after) && NewerKeep(instanceId, fp, after)
    ensures previous.Some? ==> exists n :: Loads(instanceId, fp, after, n) && KeepsAll(previous.value, n)
  {
    hide LoadGeneration, ValidManifest, PayloadMatches, KeepsAll;
    KeptLoads(instanceId, fp, before, after, m, false);
    if previous.Some? { KeepsAllReflexive(previous.value); }
    var pointer := before.latest.pointer;
    LoadsWithoutDigest(instanceId, fp, before, pointer.generation, pointer.manifestSha256);
    LoadableIsPresent(instanceId, fp, before, pointer.generation);
    assert PointerLoads(instanceId, fp, after);
    assert Loads(instanceId, fp, before, before.latest.pointer.manifestSha256);
    forall id | id in after.generations && Loadable(instanceId, fp, after, id)
                && ManifestAt(instanceId, fp, after, id).createdAt > before.latest.pointer.manifestSha256.createdAt
      ensures KeepsAll(before.latest.pointer.manifestSha256, ManifestAt(instanceId, fp, after, id))
    {
      if id in before.generations { assert Loadable(instanceId, fp, before, id); }
    }
  }

  lemma CommitWithoutPointerRetains(instanceId: string, fp: string, before: FingerprintDir, after: FingerprintDir, m: Manifest,
                                    previous: Option<Manifest>, minimum: nat, clock: nat)
    requires Retained(instanceId, fp, before, minimum, clock) && BuiltOn(instanceId, fp, before, previous, m, minimum, clock)
    requires CommitOutcome(before, after, m, false) && before.latest.Absent?
    ensures after.latest.Absent? && NewerKeep(instanceId, fp, after)
    ensures previous.Some? ==> exists n :: Loads(instanceId, fp, after, n) && KeepsAll(previous.value, n)
  {
    hide *;
    AbsentAfter(before, after, m);
    NewestLoads(instanceId, fp, after);
    if previous.Some? { BuiltOnKeeps(instanceId, fp, before, previous, m, minimum, clock); }
    if m.generationId in after.generations {
      NewInPlaceLoads(instanceId, fp, before, after, m, previous, minimum, clock);
    } else if previous.Some? {
      SameGenerationsLoad(instanceId, fp, before, after, m, previous.value);
      KeepsAllReflexive(previous.value);
    }
  }

  lemma AbsentAfter(before: FingerprintDir, after: FingerprintDir, m: Manifest)
    requires CommitOutcome(before, after, m, false) && before.latest.Absent?
    ensures after.latest.Absent?
  {
  }

  lemma BuiltOnKeeps(instanceId: string, fp: string, d: FingerprintDir, previous: Option<Manifest>, m: Manifest, minimum: nat, clock: nat)
    requires BuiltOn(instanceId, fp, d, previous, m, minimum, clock) && previous.Some?
    ensures KeepsAll(previous.value, m) && Loads(instanceId, fp, d, previous.value)
  {
  }

  /** With its directory in place and no pointer, the new generation is the newest. */
  lemma NewInPlaceLoads(instanceId: string, fp: string, before: FingerprintDir, after: FingerprintDir, m: Manifest,
                        previous: Option<Manifest>, minimum: nat, clock: nat)
    requires Retained(instanceId, fp, before, minimum, clock) && BuiltOn(instanceId, fp, before, previous, m, minimum, clock)
    requires CommitOutcome(before, after, m, false) && before.latest.Absent? && m.generationId in after.generations
    ensures Loads(instanceId, fp, after, m)
  {
    hide LoadGeneration, ValidManifest, PayloadMatches, NewerKeep, KeepsAll, MeetsMinimum, Intact;
    KeptLoads(instanceId, fp, before, after, m, false);
    assert IsNewest(instanceId, fp, after, m.generationId);
  }

  lemma SameGenerationsLoad(instanceId: string, fp: string, before: FingerprintDir, after: FingerprintDir, m: Manifest, loaded: Manifest)
    requires CommitOutcome(before, after, m, false) && before.latest.Absent? && m.generationId !in after.generations
    requires Loads(instanceId, fp, before, loaded)
    ensures Loads(instanceId, fp, after, loaded)
  {
    hide ValidManifest, PayloadMatches;
    assert after.generations == before.generations;
    forall id, expected ensures LoadGeneration(instanceId, fp, after, id, expected) == LoadGeneration(instanceId, fp, before, id, expected) {
    }
    hide LoadGeneration;
    var id :| IsNewest(instanceId, fp, before, id) && loaded == ManifestAt(instanceId, fp, before, id);
    assert IsNewest(instanceId, fp, after, id);
  }

  /** Without a pointer it is a newest generation that loads, so nothing is newer. */
  lemma NewestLoads(instanceId: string, fp: string, d: FingerprintDir)
    requires d.latest.Absent?
    ensures NewerKeep(instanceId, fp, d)
  {
    hide LoadGeneration, KeepsAll;
    forall m, id | Loads(instanceId, fp, d, m) && id in d.generations && Loadable(instanceId, fp, d, id)
      ensures ManifestAt(instanceId, fp, d, id).createdAt <= m.createdAt
    {
      var x :| IsNewest(instanceId, fp, d, x) && m == ManifestAt(instanceId, fp, d, x);
    }
  }

  /** Nothing loads that did not load before. */
  ghost predicate NoRevival(instanceId: string, fp: string, before: FingerprintDir, after: FingerprintDir) {
    forall id :: Loadable(instanceId, fp, after, id) ==> Loadable(instanceId, fp, before, id)
  }

  /** What loads after pruning was complete before, with the same manifest. */
  lemma WasComplete(instanceId: string, fp: string, before: FingerprintDir, after: FingerprintDir, spared: iset<Key>)
    requires GenerationsSafe(instanceId, fp, before, after, spared)
    ensures forall id, expected :: LoadGeneration(instanceId, fp, after, id, expected).Ok? ==>
              && Complete(instanceId, fp, before, id)
              && LoadContent(instanceId, fp, before.generations[id], id, expected) == LoadGeneration(instanceId, fp, after, id, expected)
              && LoadGeneration(instanceId, fp, after, id, expected) == Ok(CompleteManifest(instanceId, fp, before, id))
    ensures forall id :: Complete(instanceId, fp, after, id) ==>
              Complete(instanceId, fp, before, id)
              && CompleteManifest(instanceId, fp, after, id) == CompleteManifest(instanceId, fp, before, id)
  {
    hide LoadContent, Remnant;
    forall id, expected | id in after.generations && LoadContent(instanceId, fp, after.generations[id], id, expected).Ok?
      ensures id in before.generations
      ensures LoadContent(instanceId, fp, before.generations[id], id, expected) == LoadContent(instanceId, fp, after.generations[id], id, expected)
      ensures LoadContent(instanceId, fp, before.generations[id], id, None) == LoadContent(instanceId, fp, after.generations[id], id, expected)
    {
      RemnantLoads(instanceId, fp, before.generations[id], after.generations[id], id, expected);
    }
  }

  /** With nothing dormant a removal that is cut off brings nothing back, and leaves nothing dormant. */
  lemma NothingToRevive(instanceId: string, fp: string, before: FingerprintDir, after: FingerprintDir, spared: iset<Key>)
    requires GenerationsSafe(instanceId, fp, before, after, spared) && NoneDormant(instanceId, fp, before)
    ensures NoRevival(instanceId, fp, before, after) && NoneDormant(instanceId, fp, after)
  {
    WasComplete(instanceId, fp, before, after, spared);
    forall id ensures Loadable(instanceId, fp, after, id) <==> Complete(instanceId, fp, after, id) && !after.generations[id].rejected {
      LoadableIffComplete(instanceId, fp, after, id);
    }
    forall id ensures Loadable(instanceId, fp, before, id) <==> Complete(instanceId, fp, before, id) && !before.generations[id].rejected {
      LoadableIffComplete(instanceId, fp, before, id);
    }
    hide LoadContent, Loadable;
  }

  lemma CommitKeepsNoneDormant(instanceId: string, fp: string, before: FingerprintDir, after: FingerprintDir, m: Manifest, published: bool)
    requires CommitOutcome(before, after, m, published) && NoneDormant(instanceId, fp, before)
    ensures NoneDormant(instanceId, fp, after)
  {
    hide LoadContent, PayloadMatches;
    forall id | id in after.generations ensures !Dormant(instanceId, fp, after, id) {
      if id in before.generations { assert !Dormant(instanceId, fp, before, id); }
    }
  }

  /** What loads after pruning loaded before, from the same manifest, if nothing came back. */
  lemma StillLoadable(instanceId: string, fp: string, before: FingerprintDir, after: FingerprintDir, spared: iset<Key>)
    requires GenerationsSafe(instanceId, fp, before, after, spared) && NoRevival(instanceId, fp, before, after)
    ensures forall id, expected :: LoadGeneration(instanceId, fp, after, id, expected).Ok? ==>
              id in before.generations
              && LoadGeneration(instanceId, fp, after, id, expected) == LoadGeneration(instanceId, fp, before, id, expected)
    ensures forall id, expected :: id in before.generations && Loadable(instanceId, fp, before, id) && Key(fp, id) in spared ==>
              id in after.generations
              && LoadGeneration(instanceId, fp, after, id, expected) == LoadGeneration(instanceId, fp, before, id, expected)
  {
    WasComplete(instanceId, fp, before, after, spared);
    forall id, expected | LoadGeneration(instanceId, fp, after, id, expected).Ok?
      ensures id in before.generations
      ensures LoadGeneration(instanceId, fp, after, id, expected) == LoadGeneration(instanceId, fp, before, id, expected)
    {
      LoadsWithoutExpectation(instanceId, fp, after, id, expected);
      assert Loadable(instanceId, fp, before, id);
    }
    hide LoadContent, Remnant;
  }

  lemma LoadsWithoutExpectation(instanceId: string, fp: string, d: FingerprintDir, id: Uuid, expected: Option<Manifest>)
    requires LoadGeneration(instanceId, fp, d, id, expected).Ok?
    ensures Loadable(instanceId, fp, d, id)
  {
  }

  /** Every other generation that loads is older. */
  ghost predicate OthersOlder(instanceId: string, fp: string, d: FingerprintDir, m: Manifest) {
    forall id :: id in d.generations && id != m.generationId && Loadable(instanceId, fp, d, id) ==>
      ManifestAt(instanceId, fp, d, id).createdAt < m.createdAt
  }

  /** Pruning that spares the newest generation keeps it the one that loads. */
  lemma PruneKeepsNewest(instanceId: string, fp: string, middle: FingerprintDir, after: FingerprintDir, m: Manifest)
    requires ValidManifest(m, instanceId, fp)
    requires middle.latest == Valid(Pointer(m.generationId, m)) && PointerLoads(instanceId, fp, middle)
    requires OthersOlder(instanceId, fp, after, m) && DirSafe(instanceId, fp, middle, after, iset{Key(fp, m.generationId)})
    ensures after.latest == middle.latest && PointerLoads(instanceId, fp, after) && Loads(instanceId, fp, after, m)
  {
    LoadsWithoutDigest(instanceId, fp, middle, m.generationId, m);
    LoadableIsPresent(instanceId, fp, middle, m.generationId);
    assert after.generations[m.generationId] == middle.generations[m.generationId];
    assert Loadable(instanceId, fp, after, m.generationId) && ManifestAt(instanceId, fp, after, m.generationId) == m;
    LoadsWithDigest(instanceId, fp, after, m.generationId);
    hide LoadGeneration, GenerationsSafe;
    if Reconciled(instanceId, fp, after) {
      assert after.latest.Valid? && after.latest.pointer.generation == m.generationId;
    }
    assert PointerLoads(instanceId, fp, after);
  }

  lemma OlderWithoutRevival(instanceId: string, fp: string, middle: FingerprintDir, after: FingerprintDir, spared: iset<Key>, m: Manifest)
    requires GenerationsSafe(instanceId, fp, middle, after, spared) && NoRevival(instanceId, fp, middle, after)
    requires OthersOlder(instanceId, fp, middle, m)
    ensures OthersOlder(instanceId, fp, after, m)
  {
    StillLoadable(instanceId, fp, middle, after, spared);
    hide LoadGeneration;
  }

  /** Nothing complete but the new generation is as recent, so nothing that could come back is. */
  lemma OlderThanNew(instanceId: string, fp: string, before: FingerprintDir, middle: FingerprintDir, after: FingerprintDir, spared: iset<Key>, m: Manifest)
    requires AllBefore(instanceId, fp, before, m.createdAt) && CommitOutcome(before, middle, m, true)
    requires GenerationsSafe(instanceId, fp, middle, after, spared)
    ensures OthersOlder(instanceId, fp, after, m)
  {
    WasComplete(instanceId, fp, middle, after, spared);
    forall id | id in after.generations && id != m.generationId && Loadable(instanceId, fp, after, id)
      ensures ManifestAt(instanceId, fp, after, id).createdAt < m.createdAt
    {
      assert Complete(instanceId, fp, before, id);
    }
    hide LoadContent, Remnant;
  }

  lemma LoadsWithoutDigest(instanceId: string, fp: string, d: FingerprintDir, id: Uuid, m: Manifest)
    requires LoadGeneration(instanceId, fp, d, id, Some(m)).Ok?
    ensures LoadGeneration(instanceId, fp, d, id, None) == Ok(m) == LoadGeneration(instanceId, fp, d, id, Some(m)) && m.generationId == id
  {
  }

  lemma LoadsWithDigest(instanceId: string, fp: string, d: FingerprintDir, id: Uuid)
    requires Loadable(instanceId, fp, d, id)
    ensures LoadGeneration(instanceId, fp, d, id, Some(ManifestAt(instanceId, fp, d, id))).Ok?
    ensures ManifestAt(instanceId, fp, d, id).generationId == id
  {
  }

  lemma PruneRetains(instanceId: string, fp: string, middle: FingerprintDir, after: FingerprintDir, m: Manifest, minimum: nat)
    requires Retained(instanceId, fp, middle, minimum, m.createdAt) && ValidManifest(m, instanceId, fp)
    requires middle.latest == Valid(Pointer(m.generationId, m)) && PointerLoads(instanceId, fp, middle)
    requires OthersOlder(instanceId, fp, middle, m) && NoRevival(instanceId, fp, middle, after)
    requires DirSafe(instanceId, fp, middle, after, iset{Key(fp, m.generationId)})
    ensures Retained(instanceId, fp, after, minimum, m.createdAt) && Loads(instanceId, fp, after, m)
  {
    hide ValidManifest, PayloadMatches, LoadGeneration, Reconciled, KeepsAll, GenerationsSafe, NoRevival;
    OlderWithoutRevival(instanceId, fp, middle, after, iset{Key(fp, m.generationId)}, m);
    PruneKeepsNewest(instanceId, fp, middle, after, m);
    SparedKeepsTimes(instanceId, fp, middle, after, iset{Key(fp, m.generationId)}, minimum, m.createdAt);
    assert NewerKeep(instanceId, fp, after);
  }

  /** One save, however it ends: the next load keeps every slot and every token count. */
  lemma SaveRetains(instanceId: string, fp: string, before: FingerprintDir, after: FingerprintDir, a: SaveEffect,
                    previous: Option<Manifest>, minimum: nat, clock: nat, m0: Manifest)
    returns (m1: Manifest, clock': nat)
    requires Retained(instanceId, fp, before, minimum, clock) && SaveStep(instanceId, fp, before, after, a, previous, minimum, clock)
    requires Loads(instanceId, fp, before, m0) && (a.Finished? ==> NoRevival(instanceId, fp, a.middle, after))
    ensures clock' == if a.NoCommit? then clock else a.m.createdAt
    ensures Retained(instanceId, fp, after, minimum, clock') && clock <= clock'
    ensures Loads(instanceId, fp, after, m1) && KeepsAll(m0, m1)
  {
    if !a.NoCommit? { PreviousIsLoaded(instanceId, fp, before, a.m, previous, minimum, clock, m0); }
    match a
    case NoCommit =>
      m1, clock' := m0, clock;
      KeepsAllReflexive(m0);
    case Interrupted(m, middle, published) =>
      CommitRetains(instanceId, fp, before, middle, m, published, previous, minimum, clock);
      m1 :| Loads(instanceId, fp, after, m1) && KeepsAll(m0, m1);
      clock' := m.createdAt;
    case Finished(m, middle) =>
      CommitRetains(instanceId, fp, before, middle, m, true, previous, minimum, clock);
      NewIsStrictlyNewest(instanceId, fp, before, middle, m, minimum, clock);
      PruneRetains(instanceId, fp, middle, after, m, minimum);
      m1, clock' := m, m.createdAt;
  }

  /** Nothing stored, rejected or not, is as recent as `time`. */
  ghost predicate AllBefore(instanceId: string, fp: string, d: FingerprintDir, time: nat) {
    forall id :: Complete(instanceId, fp, d, id) ==> CompleteManifest(instanceId, fp, d, id).createdAt < time
  }

  lemma NewIsStrictlyNewest(instanceId: string, fp: string, before: FingerprintDir, middle: FingerprintDir, m: Manifest, minimum: nat, clock: nat)
    requires Retained(instanceId, fp, before, minimum, clock) && m.createdAt > clock && CommitOutcome(before, middle, m, true)
    requires ValidManifest(m, instanceId, fp)
    ensures PointerLoads(instanceId, fp, middle) && OthersOlder(instanceId, fp, middle, m)
  {
    hide LoadGeneration, ValidManifest, PayloadMatches, NewerKeep, MeetsMinimum, Intact;
    KeptLoads(instanceId, fp, before, middle, m, true);
  }

  lemma PublishedLoads(instanceId: string, fp: string, before: FingerprintDir, middle: FingerprintDir, m: Manifest)
    requires CommitOutcome(before, middle, m, true) && ValidManifest(m, instanceId, fp)
    ensures PointerLoads(instanceId, fp, middle)
  {
    hide LoadGeneration, ValidManifest, PayloadMatches, Intact;
    KeptLoads(instanceId, fp, before, middle, m, true);
  }

  lemma PreviousIsLoaded(instanceId: string, fp: string, d: FingerprintDir, m: Manifest, previous: Option<Manifest>,
                         minimum: nat, clock: nat, m0: Manifest)
    requires Retained(instanceId, fp, d, minimum, clock) && BuiltOn(instanceId, fp, d, previous, m, minimum, clock)
    requires Loads(instanceId, fp, d, m0)
    ensures previous == Some(m0)
  {
    assert previous.Some?;
    LoadsUnique(instanceId, fp, d, minimum, clock, previous.value, m0);
  }

  /** A save that finds nothing to build on still leaves the directory in order. */
  lemma FirstSaveRetains(instanceId: string, fp: string, before: FingerprintDir, after: FingerprintDir, a: SaveEffect,
                         previous: Option<Manifest>, minimum: nat, clock: nat)
    requires Retained(instanceId, fp, before, minimum, clock) && SaveStep(instanceId, fp, before, after, a, previous, minimum, clock)
    requires a.Finished? ==> NoRevival(instanceId, fp, a.middle, after)
    ensures Retained(instanceId, fp, after, minimum, if a.NoCommit? then clock else a.m.createdAt)
  {
    match a
    case NoCommit =>
    case Interrupted(m, middle, published) =>
      CommitRetains(instanceId, fp, before, middle, m, published, previous, minimum, clock);
    case Finished(m, middle) =>
      CommitRetains(instanceId, fp, before, middle, m, true, previous, minimum, clock);
      NewIsStrictlyNewest(instanceId, fp, before, middle, m, minimum, clock);
      PruneRetains(instanceId, fp, middle, after, m, minimum);
  }

  /** There is room for the generation, or it is protected, when the store is pruned to `limit`. */
  ghost predicate HasRoom(instanceId: string, disk: Instance, k: Key, limit: nat, explicit: set<Key>) {
    k in explicit || exists r :: r in AllRecords(instanceId, disk) && r.key == k && !Crowded(AllRecords(instanceId, disk), r, limit, explicit)
  }

  /** What loads, if anything, has room when the store is pruned. */
  ghost predicate LatestHasRoom(instanceId: string, fp: string, disk: Instance, limit: nat, explicit: set<Key>) {
    forall m :: Loads(instanceId, fp, DirOf(disk, fp), m) ==> HasRoom(instanceId, disk, Key(fp, m.generationId), limit, explicit)
  }

  /** What pruning on behalf of another state, stopped anywhere, may do to the directory of `fp`. */
  ghost predicate ForeignPrune(instanceId: string, fp: string, disk: Instance, after: FingerprintDir, limit: nat, explicit: set<Key>) {
    DirSafe(instanceId, fp, DirOf(disk, fp), after, Spared(AllRecords(instanceId, disk), limit, explicit))
  }

  lemma LoadedIsLoadable(instanceId: string, fp: string, d: FingerprintDir, m: Manifest)
    requires Loads(instanceId, fp, d, m)
    ensures m.generationId in d.generations && Loadable(instanceId, fp, d, m.generationId) && ManifestAt(instanceId, fp, d, m.generationId) == m
    ensures LoadGeneration(instanceId, fp, d, m.generationId, Some(m)) == Ok(m)
  {
    hide ValidManifest, PayloadMatches;
  }

  lemma NothingLoadsMeans(instanceId: string, fp: string, d: FingerprintDir)
    requires PointerLoads(instanceId, fp, d) || d.latest.Absent?
    ensures (exists m :: Loads(instanceId, fp, d, m)) || (NothingLoadable(instanceId, fp, d) && d.latest.Absent?)
  {
    hide LoadGeneration;
    if PointerLoads(instanceId, fp, d) {
      assert Loads(instanceId, fp, d, d.latest.pointer.manifestSha256);
    } else if !NothingLoadable(instanceId, fp, d) {
      var id := SomeNewest(instanceId, fp, d, d.generations.Keys);
      assert Loads(instanceId, fp, d, ManifestAt(instanceId, fp, d, id));
    }
  }

  /** Among finitely many generations, one of which loads, some loadable one is newest. */
  lemma {:induction false} SomeNewest(instanceId: string, fp: string, d: FingerprintDir, ids: set<Uuid>) returns (n: Uuid)
    requires ids <= d.generations.Keys && exists id :: id in ids && Loadable(instanceId, fp, d, id)
    ensures n in ids && Loadable(instanceId, fp, d, n)
    ensures forall id :: id in ids && Loadable(instanceId, fp, d, id) ==>
              ManifestAt(instanceId, fp, d, id).createdAt <= ManifestAt(instanceId, fp, d, n).createdAt
    decreases ids
  {
    hide LoadGeneration;
    n :| n in ids && Loadable(instanceId, fp, d, n);
    var rest := ids - {n};
    if exists id :: id in rest && Loadable(instanceId, fp, d, id) {
      var other := SomeNewest(instanceId, fp, d, rest);
      if ManifestAt(instanceId, fp, d, other).createdAt > ManifestAt(instanceId, fp, d, n).createdAt { n := other; }
    }
  }

  /** Pruning for another state, when the generation that loads is spared. */
  lemma SparedRetains(instanceId: string, fp: string, before: FingerprintDir, after: FingerprintDir, spared: iset<Key>,
                      minimum: nat, clock: nat, m0: Manifest)
    returns (m1: Manifest)
    requires Retained(instanceId, fp, before, minimum, clock) && DirSafe(instanceId, fp, before, after, spared)
    requires NoRevival(instanceId, fp, before, after)
    requires Loads(instanceId, fp, before, m0) && Key(fp, m0.generationId) in spared
    ensures Loads(instanceId, fp, after, m1) && KeepsAll(m0, m1)
    ensures PointerLoads(instanceId, fp, after) || after.latest.Absent?
    ensures NewerKeep(instanceId, fp, after)
  {
    hide LoadGeneration, KeepsAll, MeetsMinimum;
    LoadedIsLoadable(instanceId, fp, before, m0);
    StillLoadable(instanceId, fp, before, after, spared);
    var id0 := m0.generationId;
    assert Loadable(instanceId, fp, after, id0) && ManifestAt(instanceId, fp, after, id0) == m0;
    if after.latest == before.latest {
      m1 := m0;
      KeepsAllReflexive(m0);
      SamePointerLoads(instanceId, fp, before, after, minimum, clock, m0);
    } else {
      var x := after.latest.pointer.generation;
      m1 := after.latest.pointer.manifestSha256;
      LoadsWithDigest(instanceId, fp, after, x);
      assert PointerLoads(instanceId, fp, after);
      LoadableIsPresent(instanceId, fp, after, x);
      if x == id0 { KeepsAllReflexive(m0); } else { assert m1.createdAt > m0.createdAt; }
    }
  }

  lemma SamePointerLoads(instanceId: string, fp: string, before: FingerprintDir, after: FingerprintDir, minimum: nat, clock: nat, m0: Manifest)
    requires Retained(instanceId, fp, before, minimum, clock) && Loads(instanceId, fp, before, m0) && after.latest == before.latest
    requires forall id, expected :: LoadGeneration(instanceId, fp, after, id, expected).Ok? ==>
               id in before.generations
               && LoadGeneration(instanceId, fp, after, id, expected) == LoadGeneration(instanceId, fp, before, id, expected)
    requires Loadable(instanceId, fp, after, m0.generationId) && ManifestAt(instanceId, fp, after, m0.generationId) == m0
    ensures Loads(instanceId, fp, after, m0) && NewerKeep(instanceId, fp, after)
    ensures PointerLoads(instanceId, fp, after) || after.latest.Absent?
  {
    hide Retained, NewerKeep, Loads, LoadGeneration, KeepsAll;
    PointerOrNone(instanceId, fp, before, minimum, clock);
    if PointerLoads(instanceId, fp, before) {
      PointerStillLoads(instanceId, fp, before, after, minimum, clock, m0);
    } else {
      NewestLoads(instanceId, fp, after);
      NewestStillLoads(instanceId, fp, before, after, m0);
    }
  }

  lemma PointerStillLoads(instanceId: string, fp: string, before: FingerprintDir, after: FingerprintDir, minimum: nat, clock: nat, m0: Manifest)
    requires Retained(instanceId, fp, before, minimum, clock) && Loads(instanceId, fp, before, m0) && after.latest == before.latest
    requires PointerLoads(instanceId, fp, before)
    requires forall id, expected :: LoadGeneration(instanceId, fp, after, id, expected).Ok? ==>
               id in before.generations
               && LoadGeneration(instanceId, fp, after, id, expected) == LoadGeneration(instanceId, fp, before, id, expected)
    requires Loadable(instanceId, fp, after, m0.generationId) && ManifestAt(instanceId, fp, after, m0.generationId) == m0
    ensures PointerLoads(instanceId, fp, after) && Loads(instanceId, fp, after, m0) && NewerKeep(instanceId, fp, after)
  {
    hide LoadGeneration, KeepsAll, MeetsMinimum;
    LoadsWithoutDigest(instanceId, fp, before, before.latest.pointer.generation, m0);
    LoadsWithDigest(instanceId, fp, after, m0.generationId);
    assert PointerLoads(instanceId, fp, after);
    forall id | id in after.generations && Loadable(instanceId, fp, after, id) && ManifestAt(instanceId, fp, after, id).createdAt > m0.createdAt
      ensures KeepsAll(m0, ManifestAt(instanceId, fp, after, id))
    {
      assert Loadable(instanceId, fp, before, id);
    }
  }

  lemma NewestStillLoads(instanceId: string, fp: string, before: FingerprintDir, after: FingerprintDir, m0: Manifest)
    requires Loads(instanceId, fp, before, m0) && before.latest.Absent? && after.latest == before.latest
    requires forall id, expected :: LoadGeneration(instanceId, fp, after, id, expected).Ok? ==>
               id in before.generations
               && LoadGeneration(instanceId, fp, after, id, expected) == LoadGeneration(instanceId, fp, before, id, expected)
    requires Loadable(instanceId, fp, after, m0.generationId) && ManifestAt(instanceId, fp, after, m0.generationId) == m0
    ensures Loads(instanceId, fp, after, m0)
  {
    hide LoadGeneration;
    var n :| IsNewest(instanceId, fp, before, n) && m0 == ManifestAt(instanceId, fp, before, n);
    LoadsWithDigest(instanceId, fp, before, n);
    LoadableIsPresent(instanceId, fp, after, n);
    forall other | other in after.generations && Loadable(instanceId, fp, after, other)
      ensures ManifestAt(instanceId, fp, after, other).createdAt <= m0.createdAt
    {
      assert Loadable(instanceId, fp, before, other);
    }
    assert IsNewest(instanceId, fp, after, n);
  }

  lemma SparedKeepsTimes(instanceId: string, fp: string, before: FingerprintDir, after: FingerprintDir, spared: iset<Key>, minimum: nat, clock: nat)
    requires Retained(instanceId, fp, before, minimum, clock) && GenerationsSafe(instanceId, fp, before, after, spared)
    requires NoRevival(instanceId, fp, before, after)
    ensures TimesApart(instanceId, fp, after, minimum, clock)
  {
    hide LoadGeneration, NewerKeep, PointerLoads, MeetsMinimum, GenerationsSafe;
    StillLoadable(instanceId, fp, before, after, spared);
  }

  /** Pruning for another state, when nothing loads. */
  lemma NothingToRetain(instanceId: string, fp: string, before: FingerprintDir, after: FingerprintDir, spared: iset<Key>)
    requires NothingLoadable(instanceId, fp, before) && before.latest.Absent? && DirSafe(instanceId, fp, before, after, spared)
    requires NoRevival(instanceId, fp, before, after)
    ensures after.latest.Absent? && NewerKeep(instanceId, fp, after)
  {
    hide LoadGeneration, KeepsAll;
    StillLoadable(instanceId, fp, before, after, spared);
    assert NothingLoadable(instanceId, fp, after);
    NewestLoads(instanceId, fp, after);
  }

  lemma RoomyIsSpared(instanceId: string, disk: Instance, k: Key, limit: nat, explicit: set<Key>)
    requires HasRoom(instanceId, disk, k, limit, explicit)
    ensures k in Spared(AllRecords(instanceId, disk), limit, explicit)
  {
    hide Crowded;
  }

  /** Pruning on behalf of another state keeps the directory in order, and what loads if there is room for it. */
  lemma ForeignPruneRetains(instanceId: string, fp: string, disk: Instance, after: FingerprintDir, limit: nat, explicit: set<Key>,
                            minimum: nat, clock: nat)
    requires Retained(instanceId, fp, DirOf(disk, fp), minimum, clock) && ForeignPrune(instanceId, fp, disk, after, limit, explicit)
    requires LatestHasRoom(instanceId, fp, disk, limit, explicit)
    requires NoneDormant(instanceId, fp, DirOf(disk, fp)) || NoRevival(instanceId, fp, DirOf(disk, fp), after)
    ensures Retained(instanceId, fp, after, minimum, clock)
    ensures forall m0 :: Loads(instanceId, fp, DirOf(disk, fp), m0) ==> exists m1 :: Loads(instanceId, fp, after, m1) && KeepsAll(m0, m1)
  {
    var before, spared := DirOf(disk, fp), Spared(AllRecords(instanceId, disk), limit, explicit);
    hide Retained, Loads, Spared, HasRoom, NewerKeep, TimesApart, Reconciled, GenerationsSafe, PointerLoads, NothingLoadable, KeepsAll,
         NoneDormant, NoRevival;
    if NoneDormant(instanceId, fp, before) { NothingToRevive(instanceId, fp, before, after, spared); }
    SparedKeepsTimes(instanceId, fp, before, after, spared, minimum, clock);
    PointerOrNone(instanceId, fp, before, minimum, clock);
    NothingLoadsMeans(instanceId, fp, before);
    if m :| Loads(instanceId, fp, before, m) {
      RoomyIsSpared(instanceId, disk, Key(fp, m.generationId), limit, explicit);
      var m1 := SparedRetains(instanceId, fp, before, after, spared, minimum, clock, m);
      forall m0 | Loads(instanceId, fp, before, m0) ensures m0 == m { LoadsUnique(instanceId, fp, before, minimum, clock, m0, m); }
    } else {
      NothingToRetain(instanceId, fp, before, after, spared);
    }
    RetainedFrom(instanceId, fp, after, minimum, clock);
  }

  /**
   A run of saves, latest outermost, from a directory in order; saves of other states prune this one
   as well.  It goes on as long as no restore rejects what loads.
   */
  datatype SaveRun =
    | Begin(dir: FingerprintDir, clock: nat)
    | Then(before: SaveRun, a: SaveEffect, previous: Option<Manifest>, after: FingerprintDir)
    | Pruning(before: SaveRun, disk: Instance, limit: nat, explicit: set<Key>, after: FingerprintDir)

  function DirAfter(run: SaveRun): FingerprintDir { if run.Begin? then run.dir else run.after }

  function ClockAfter(run: SaveRun): nat {
    match run
    case Begin(_, clock) => clock
    case Then(before, a, _, _) => if a.NoCommit? then ClockAfter(before) else a.m.createdAt
    case Pruning(before, _, _, _, _) => ClockAfter(before)
  }

  /** No removal of the step was cut off so that only a rejection marker was lost; where nothing is dormant none can be. */
  ghost predicate NothingBack(instanceId: string, fp: string, before: FingerprintDir, after: FingerprintDir) {
    NoneDormant(instanceId, fp, before) || NoRevival(instanceId, fp, before, after)
  }

  ghost predicate Legal(instanceId: string, fp: string, run: SaveRun, minimum: nat) {
    match run
    case Begin(dir, clock) => Retained(instanceId, fp, dir, minimum, clock)
    case Then(before, a, previous, after) =>
      && Legal(instanceId, fp, before, minimum)
      && SaveStep(instanceId, fp, DirAfter(before), after, a, previous, minimum, ClockAfter(before))
      && (a.Finished? ==> NothingBack(instanceId, fp, a.middle, after))
    case Pruning(before, disk, limit, explicit, after) =>
      && Legal(instanceId, fp, before, minimum) && DirOf(disk, fp) == DirAfter(before)
      && ForeignPrune(instanceId, fp, disk, after, limit, explicit) && LatestHasRoom(instanceId, fp, disk, limit, explicit)
      && NothingBack(instanceId, fp, DirOf(disk, fp), after)
  }

  predicate ContinuesRun(run: SaveRun, earlier: SaveRun) {
    run == earlier || (!run.Begin? && ContinuesRun(run.before, earlier))
  }

  lemma FinishedHasNoRevival(instanceId: string, fp: string, before: FingerprintDir, after: FingerprintDir, a: SaveEffect,
                             previous: Option<Manifest>, minimum: nat, clock: nat)
    requires SaveStep(instanceId, fp, before, after, a, previous, minimum, clock)
    requires a.Finished? ==> NothingBack(instanceId, fp, a.middle, after)
    ensures a.Finished? ==> NoRevival(instanceId, fp, a.middle, after)
  {
    hide NoneDormant, NoRevival, GenerationsSafe, Reconciled, CommitOutcome, BuiltOn;
    if a.Finished? && NoneDormant(instanceId, fp, a.middle) {
      NothingToRevive(instanceId, fp, a.middle, after, iset{Key(fp, a.m.generationId)});
    }
  }

  lemma {:induction false} RunRetains(instanceId: string, fp: string, run: SaveRun, minimum: nat)
    requires Legal(instanceId, fp, run, minimum)
    ensures Retained(instanceId, fp, DirAfter(run), minimum, ClockAfter(run))
  {
    hide Retained, SaveStep, ForeignPrune, LatestHasRoom, Loads, NoneDormant, NoRevival;
    match run
    case Begin(_, _) =>
    case Then(before, a, previous, after) =>
      RunRetains(instanceId, fp, before, minimum);
      FinishedHasNoRevival(instanceId, fp, DirAfter(before), after, a, previous, minimum, ClockAfter(before));
      FirstSaveRetains(instanceId, fp, DirAfter(before), after, a, previous, minimum, ClockAfter(before));
    case Pruning(before, disk, limit, explicit, after) =>
      RunRetains(instanceId, fp, before, minimum);
      ForeignPruneRetains(instanceId, fp, disk, after, limit, explicit, minimum, ClockAfter(before));
  }

  /**
   Over any run of successful, skipped, failed and crashed saves of this state, and of pruning for
   others that leaves room for it: what loads later holds every slot that loaded before, with at
   least as many tokens; and what loads is never ambiguous.
   */
  lemma {:induction false} PrefixRetentionOnRuns(instanceId: string, fp: string, run: SaveRun, earlier: SaveRun, minimum: nat, m0: Manifest)
    returns (m1: Manifest)
    requires Legal(instanceId, fp, run, minimum) && ContinuesRun(run, earlier)
    requires Loads(instanceId, fp, DirAfter(earlier), m0)
    ensures Loads(instanceId, fp, DirAfter(run), m1) && KeepsAll(m0, m1)
    ensures forall m :: Loads(instanceId, fp, DirAfter(run), m) ==> m == m1
  {
    hide Retained, SaveStep, KeepsAll, Loads, ForeignPrune, LatestHasRoom, NoneDormant, NoRevival;
    if run == earlier {
      m1 := m0;
      KeepsAllReflexive(m0);
    } else {
      var m := PrefixRetentionOnRuns(instanceId, fp, run.before, earlier, minimum, m0);
      RunRetains(instanceId, fp, run.before, minimum);
      if run.Then? {
        var c;
        FinishedHasNoRevival(instanceId, fp, DirAfter(run.before), run.after, run.a, run.previous, minimum, ClockAfter(run.before));
        m1, c := SaveRetains(instanceId, fp, DirAfter(run.before), run.after, run.a, run.previous, minimum, ClockAfter(run.before), m);
      } else {
        ForeignPruneRetains(instanceId, fp, run.disk, run.after, run.limit, run.explicit, minimum, ClockAfter(run.before));
        m1 :| Loads(instanceId, fp, run.after, m1) && KeepsAll(m, m1);
      }
      KeepsAllTransitive(m0, m, m1);
    }
    RunRetains(instanceId, fp, run, minimum);
    forall n | Loads(instanceId, fp, DirAfter(run), n) ensures n == m1 {
      LoadsUnique(instanceId, fp, DirAfter(run), minimum, ClockAfter(run), n, m1);
    }
  }

  /** A run that began with nothing dormant, on an empty directory for one, never has anything dormant. */
  lemma {:induction false} NeverDormant(instanceId: string, fp: string, run: SaveRun, first: SaveRun, minimum: nat)
    requires Legal(instanceId, fp, run, minimum) && ContinuesRun(run, first) && NoneDormant(instanceId, fp, DirAfter(first))
    ensures NoneDormant(instanceId, fp, DirAfter(run))
  {
    hide Retained, LatestHasRoom, NoneDormant, NoRevival, Reconciled, GenerationsSafe, BuiltOn, CommitOutcome, Spared;
    if run != first {
      NeverDormant(instanceId, fp, run.before, first, minimum);
      if run.Pruning? {
        NothingToRevive(instanceId, fp, DirAfter(run.before), run.after, Spared(AllRecords(instanceId, run.disk), run.limit, run.explicit));
      } else if run.a.Interrupted? {
        CommitKeepsNoneDormant(instanceId, fp, DirAfter(run.before), run.after, run.a.m, run.a.published);
      } else if run.a.Finished? {
        CommitKeepsNoneDormant(instanceId, fp, DirAfter(run.before), run.a.middle, run.a.m, true);
        NothingToRevive(instanceId, fp, run.a.middle, run.after, iset{Key(fp, run.a.m.generationId)});
      }
    }
  }

  // Without room the other state's save evicts this one.

  const PAYLOAD: Bytes := [7]

  function SmallManifest(fp: string, id: Uuid, createdAt: nat): Manifest {
    Manifest(1, STATE_FORMAT, id, "i", FingerprintId(fp, true), createdAt, [SlotManifest(0, SlotFilename(0), 5, 1, Sha256(PAYLOAD))], 1)
  }

  function SmallDir(fp: string, id: Uuid, createdAt: nat): FingerprintDir {
    var m := SmallManifest(fp, id, createdAt);
    FingerprintDir(map[id := Generation(Some(m), 0, map[SlotFilename(0) := PAYLOAD], false)], map[], Valid(Pointer(id, m)))
  }

  const TWO_STATES := Instance(map[], map["a" := SmallDir("a", 1, 1), "b" := SmallDir("b", 2, 2)], map[])

  lemma SmallLoads(fp: string, id: Uuid, createdAt: nat)
    ensures LoadGeneration("i", fp, SmallDir(fp, id, createdAt), id, None) == Ok(SmallManifest(fp, id, createdAt))
    ensures Loads("i", fp, SmallDir(fp, id, createdAt), SmallManifest(fp, id, createdAt))
    ensures RecordOf("i", fp, SmallDir(fp, id, createdAt), map[], id) == Record(Key(fp, id), createdAt, 1, createdAt)
  {
    var m := SmallManifest(fp, id, createdAt);
    assert m.slots[..0] == [];
    assert PayloadBytes(m.slots) == PayloadBytes(m.slots[..0]) + 1;
    assert PayloadMatches(map[SlotFilename(0) := PAYLOAD], m.slots[0]);
  }

  lemma TwoRecords()
    ensures AllRecords("i", TWO_STATES) == {Record(Key("a", 1), 1, 1, 1), Record(Key("b", 2), 2, 1, 2)}
    ensures Crowded(AllRecords("i", TWO_STATES), Record(Key("a", 1), 1, 1, 1), 1, {Key("b", 2)})
  {
    SmallLoads("a", 1, 1);
    SmallLoads("b", 2, 2);
    hide LoadGeneration, RecordOf, SmallManifest;
    var x, y := Record(Key("a", 1), 1, 1, 1), Record(Key("b", 2), 2, 1, 2);
    var all := AllRecords("i", TWO_STATES);
    var a, b := TWO_STATES.fingerprints["a"], TWO_STATES.fingerprints["b"];
    assert 1 in a.generations && 2 in b.generations;
    assert Loadable("i", "a", a, 1) && Loadable("i", "b", b, 2);
    assert x in all && y in all;
    forall r | r in all ensures r == x || r == y {
      var fp, id :| fp in TWO_STATES.fingerprints && id in TWO_STATES.fingerprints[fp].generations
                    && Loadable("i", fp, TWO_STATES.fingerprints[fp], id)
                    && r == RecordOf("i", fp, TWO_STATES.fingerprints[fp], TWO_STATES.usage, id);
      assert (fp == "a" && id == 1) || (fp == "b" && id == 2);
    }
    assert all == {x, y};
    assert Rivals(all, x, {Key("b", 2)}) == {x, y};
    SumRemove({x, y}, x);
    SumRemove({y}, y);
    assert {x, y} - {x} == {y};
    assert {y} - {y} == {};
  }

  /**
   Two states of one instance: pruning for the second, just committed, leaves the first with nothing
   to load although no setting changed.
   */
  lemma OtherStateEvicts(after: Instance, shield: set<Key>, kept: seq<Record>, removed: seq<Record>, swept: bool, r: Result<Option<Manifest>, LoadError>)
    requires Pruned("i", TWO_STATES, after, 1, {Key("b", 2)}, shield, kept, removed, swept)
    ensures Loads("i", "a", DirOf(TWO_STATES, "a"), SmallManifest("a", 1, 1))
    ensures LatestIs("i", "a", DirOf(after, "a"), r) ==> r == Ok(None)
  {
    hide Covered, Selected, LoadGeneration, Crowded, AllRecords, SmallManifest;
    SmallLoads("a", 1, 1);
    TwoRecords();
    assert shield == {Key("b", 2)};
    EvictedIff("i", TWO_STATES, after, 1, {Key("b", 2)}, shield, kept, removed, swept, Record(Key("a", 1), 1, 1, 1));
    var d := after.fingerprints["a"];
    assert Survivors("i", "a", TWO_STATES.fingerprints["a"], d, swept);
    assert forall id :: id !in d.generations;
    assert NothingLoadable("i", "a", d) && Reconciled("i", "a", d);
  }
}

/**
 Rejected generations over runs.  A rejection lasts until the directory is removed; but pruning
 removes it file by file, and a removal that is cut off after the marker brings the generation back.
 */
module Rejection {
  import opened Wrappers
  import opened Manifests
  import opened StoreSpec
  import opened PruneSpec
  import opened Retention

  /** What can happen to the directory of a state. */
  datatype DirStep =
    | Rejecting(id: Uuid)
    | Committing(m: Manifest, published: bool)
    | Pruned(spared: iset<Key>)
    | Loading

  ghost predicate Steps(instanceId: string, fp: string, before: FingerprintDir, step: DirStep, after: FingerprintDir) {
    match step
    case Rejecting(id) =>
      after == before
      || (id in before.generations && after == WithGeneration(before, id, before.generations[id].(rejected := true)))
    case Committing(m, published) => CommitOutcome(before, after, m, published)
    case Pruned(spared) => DirSafe(instanceId, fp, before, after, spared)
    case Loading => after == before
  }

  /** A finite run, latest outermost. */
  datatype DirRun = Start(dir: FingerprintDir) | Next(before: DirRun, step: DirStep, after: FingerprintDir)

  function After(run: DirRun): FingerprintDir { if run.Start? then run.dir else run.after }

  ghost predicate Legal(instanceId: string, fp: string, run: DirRun) {
    run.Next? ==> Legal(instanceId, fp, run.before) && Steps(instanceId, fp, After(run.before), run.step, run.after)
  }

  predicate Continues(run: DirRun, earlier: DirRun) { run == earlier || (run.Next? && Continues(run.before, earlier)) }

  /** Of the files of `g` that matter, only the rejection marker is missing in `h`. */
  predicate OnlyMarkerLost(g: Generation, h: Generation) {
    && g.rejected && !h.rejected && g.manifest.Some? && h.manifest == g.manifest
    && forall i :: 0 <= i < |g.manifest.value.slots| ==>
         var f := g.manifest.value.slots[i].filename; f in h.payloads && f in g.payloads && h.payloads[f] == g.payloads[f]
  }

  /** A removal of the complete generation `id` lost its marker and nothing else that matters. */
  predicate MarkerLost(instanceId: string, fp: string, before: FingerprintDir, after: FingerprintDir, id: Uuid) {
    && Complete(instanceId, fp, before, id) && id in after.generations
    && OnlyMarkerLost(before.generations[id], after.generations[id])
  }

  /** Pruning brings a generation back exactly when it loses the marker of a complete one and nothing else that matters. */
  lemma LoadsAgainIff(instanceId: string, fp: string, before: FingerprintDir, after: FingerprintDir, spared: iset<Key>, id: Uuid)
    requires GenerationsSafe(instanceId, fp, before, after, spared) && !Loadable(instanceId, fp, before, id)
    ensures Loadable(instanceId, fp, after, id) <==> MarkerLost(instanceId, fp, before, after, id)
  {
    LoadableIffComplete(instanceId, fp, before, id);
    LoadableIffComplete(instanceId, fp, after, id);
    if Loadable(instanceId, fp, after, id) {
      var g, h := before.generations[id], after.generations[id];
      RemnantLoads(instanceId, fp, g, h, id, None);
      hide ValidManifest;
      forall i | 0 <= i < |g.manifest.value.slots|
        ensures var f := g.manifest.value.slots[i].filename; f in h.payloads && f in g.payloads && h.payloads[f] == g.payloads[f]
      {
        assert PayloadMatches(h.payloads, g.manifest.value.slots[i]);
      }
    }
    if MarkerLost(instanceId, fp, before, after, id) {
      SameContent(instanceId, fp, before.generations[id], after.generations[id], id);
    }
  }

  lemma SameContent(instanceId: string, fp: string, g: Generation, h: Generation, id: Uuid)
    requires LoadContent(instanceId, fp, g, id, None).Ok? && OnlyMarkerLost(g, h)
    ensures LoadContent(instanceId, fp, h, id, None).Ok?
  {
    hide ValidManifest;
    forall i | 0 <= i < |g.manifest.value.slots| ensures PayloadMatches(h.payloads, g.manifest.value.slots[i]) {
      assert PayloadMatches(g.payloads, g.manifest.value.slots[i]);
    }
  }

  /** Some pruning since `earlier` lost the marker of `id` and nothing else that matters. */
  predicate MarkerLostSince(instanceId: string, fp: string, run: DirRun, earlier: DirRun, id: Uuid)
    requires Continues(run, earlier)
  {
    run != earlier
    && ((run.step.Pruned? && MarkerLost(instanceId, fp, After(run.before), run.after, id))
        || MarkerLostSince(instanceId, fp, run.before, earlier, id))
  }

  /** No commit since `earlier` took the id again. */
  predicate NotReused(run: DirRun, earlier: DirRun, id: Uuid)
    requires Continues(run, earlier)
  {
    run != earlier ==> (run.step.Committing? ==> run.step.m.generationId != id) && NotReused(run.before, earlier, id)
  }

  lemma OneStepStaysOut(instanceId: string, fp: string, before: FingerprintDir, step: DirStep, after: FingerprintDir, id: Uuid)
    requires Steps(instanceId, fp, before, step, after) && !Loadable(instanceId, fp, before, id)
    requires step.Committing? ==> step.m.generationId != id
    ensures Loadable(instanceId, fp, after, id) <==> step.Pruned? && MarkerLost(instanceId, fp, before, after, id)
  {
    match step
    case Pruned(spared) =>
      hide Reconciled, GenerationsSafe, Loadable, MarkerLost;
      LoadsAgainIff(instanceId, fp, before, after, spared, id);
    case Committing(m, published) =>
    case Rejecting(r) =>
    case Loading =>
  }

  /**
   Once rejected, over any run of rejections, commits, loads and prunings stopped anywhere: the
   generation does not load again, unless some pruning lost its marker and nothing else that matters.
   */
  lemma {:induction false} RejectedNeverLoads(instanceId: string, fp: string, run: DirRun, earlier: DirRun, id: Uuid)
    requires Legal(instanceId, fp, run) && Continues(run, earlier) && NotReused(run, earlier, id)
    requires !Loadable(instanceId, fp, After(earlier), id) && !MarkerLostSince(instanceId, fp, run, earlier, id)
    ensures !Loadable(instanceId, fp, After(run), id)
    ensures forall m :: Loads(instanceId, fp, After(run), m) ==> m.generationId != id
  {
    hide Loadable, Steps, MarkerLost, Loads;
    if run != earlier {
      RejectedNeverLoads(instanceId, fp, run.before, earlier, id);
      OneStepStaysOut(instanceId, fp, After(run.before), run.step, run.after, id);
    }
    forall m | Loads(instanceId, fp, After(run), m) ensures m.generationId != id {
      LoadedIsLoadable(instanceId, fp, After(run), m);
    }
  }

  /** And exactly then: the first time it loads again is the pruning that lost the marker. */
  lemma {:induction false} LoadsAgainOnlyByMarkerLoss(instanceId: string, fp: string, run: DirRun, earlier: DirRun, id: Uuid)
    requires Legal(instanceId, fp, run) && Continues(run, earlier) && NotReused(run, earlier, id) && run != earlier
    requires !Loadable(instanceId, fp, After(earlier), id) && !MarkerLostSince(instanceId, fp, run.before, earlier, id)
    ensures Loadable(instanceId, fp, After(run), id) <==> run.step.Pruned? && MarkerLost(instanceId, fp, After(run.before), run.after, id)
  {
    hide Loadable, Steps, MarkerLost;
    RejectedNeverLoads(instanceId, fp, run.before, earlier, id);
    OneStepStaysOut(instanceId, fp, After(run.before), run.step, run.after, id);
  }

  // It does happen.

  function OneSlot(id: Uuid, createdAt: nat, tokens: nat): Manifest {
    Manifest(1, STATE_FORMAT, id, "i", FingerprintId("a", true), createdAt, [SlotManifest(0, SlotFilename(0), tokens, 1, Sha256(PAYLOAD))], 1)
  }

  function OneGeneration(id: Uuid, createdAt: nat, tokens: nat, rejected: bool): Generation {
    Generation(Some(OneSlot(id, createdAt, tokens)), 0, map[SlotFilename(0) := PAYLOAD], rejected)
  }

  /** A long generation that loads, a shorter and newer one that was rejected; no pointer. */
  const LONG_AND_REJECTED := FingerprintDir(map[1 := OneGeneration(1, 1, 100, false), 2 := OneGeneration(2, 2, 50, true)], map[], Absent)

  const ALL_BUT_MARKER := Remains(true, false, {SlotFilename(0)})

  lemma OneLoads(id: Uuid, createdAt: nat, tokens: nat, rejected: bool)
    requires tokens > 0
    ensures LoadContent("i", "a", OneGeneration(id, createdAt, tokens, rejected), id, None) == Ok(OneSlot(id, createdAt, tokens))
  {
    assert PayloadMatches(map[SlotFilename(0) := PAYLOAD], OneSlot(id, createdAt, tokens).slots[0]);
  }

  const AFTER_CUT := WithGeneration(LONG_AND_REJECTED, 2, CutOff(LONG_AND_REJECTED.generations[2], ALL_BUT_MARKER))

  /** What loads from the two directories. */
  lemma WhatLoads()
    ensures var d, e := LONG_AND_REJECTED, AFTER_CUT;
            && d.generations.Keys == {1, 2} && e.generations.Keys == {1, 2} && d.latest.Absent? && e.latest.Absent?
            && e.generations[1] == d.generations[1] && Remnant(d.generations[2], e.generations[2])
            && Loadable("i", "a", d, 1) && ManifestAt("i", "a", d, 1) == OneSlot(1, 1, 100) && !Loadable("i", "a", d, 2)
            && Loadable("i", "a", e, 1) && ManifestAt("i", "a", e, 1) == OneSlot(1, 1, 100)
            && Loadable("i", "a", e, 2) && ManifestAt("i", "a", e, 2) == OneSlot(2, 2, 50)
  {
    OneLoads(1, 1, 100, false);
    OneLoads(2, 2, 50, false);
    assert CutOff(LONG_AND_REJECTED.generations[2], ALL_BUT_MARKER) == OneGeneration(2, 2, 50, false);
    hide LoadContent, ValidManifest;
  }

  lemma BeforeTheCut()
    ensures Retained("i", "a", LONG_AND_REJECTED, 0, 2) && Loads("i", "a", LONG_AND_REJECTED, OneSlot(1, 1, 100))
  {
    hide LoadGeneration, LONG_AND_REJECTED, AFTER_CUT, NewerKeep;
    WhatLoads();
    NewestLoads("i", "a", LONG_AND_REJECTED);
    assert IsNewest("i", "a", LONG_AND_REJECTED, 1);
  }

  lemma AfterTheCut()
    ensures Loads("i", "a", AFTER_CUT, OneSlot(2, 2, 50))
  {
    hide LoadGeneration, LONG_AND_REJECTED, AFTER_CUT;
    WhatLoads();
    assert IsNewest("i", "a", AFTER_CUT, 2);
  }

  /**
   A removal cut off after the marker: the rejected, shorter generation is what loads afterwards,
   although nothing pruning has to spare was touched.
   */
  lemma CutOffRevives()
    ensures Retained("i", "a", LONG_AND_REJECTED, 0, 2) && Loads("i", "a", LONG_AND_REJECTED, OneSlot(1, 1, 100))
    ensures DirSweeping("i", "a", LONG_AND_REJECTED, AFTER_CUT) && DirSafe("i", "a", LONG_AND_REJECTED, AFTER_CUT, iset{Key("a", 1)})
    ensures Loads("i", "a", AFTER_CUT, OneSlot(2, 2, 50)) && !KeepsAll(OneSlot(1, 1, 100), OneSlot(2, 2, 50))
  {
    hide LoadGeneration, LONG_AND_REJECTED, AFTER_CUT, Retained, Loads;
    BeforeTheCut();
    AfterTheCut();
    WhatLoads();
    assert Remnant(LONG_AND_REJECTED.generations[1], AFTER_CUT.generations[1]);
    assert !KeepsSlot(OneSlot(1, 1, 100).slots[0], OneSlot(2, 2, 50));
  }
}

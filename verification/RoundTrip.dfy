/** The save and restore round trip, with an engine that writes and reads its slots faithfully. */
module RoundTrip {
  import opened Wrappers
  import opened Manifests
  import opened StoreSpec
  import opened PruneSpec
  import opened Retention
  import opened Store
  import opened SaveOperation
  import opened SaveProcess
  import Coordinator
  import RestoreProtocol
  import IdleSave

  /** `validate_slot_set`: every slot of the launch exactly once, usable and idle. */
  predicate ValidSlotSet(slots: seq<SlotSnapshot>, count: nat) {
    && |slots| == count
    && (forall i, j :: 0 <= i < j < |slots| ==> slots[i].id != slots[j].id)
    && (forall i :: 0 <= i < |slots| ==> slots[i].id < count && slots[i].nCtx > 0 && !slots[i].isProcessing)
  }

  /** A slot's state is the byte string that saving it writes; `tokens` is what the engine counts in it. */
  class Engine {
    const tokens: Bytes -> nat
    const context: nat
    var state: seq<Bytes>

    constructor (tokens: Bytes -> nat, context: nat, state: seq<Bytes>)
      ensures this.tokens == tokens && this.context == context && this.state == state
    {
      this.tokens, this.context, this.state := tokens, context, state;
    }

    function Slots(): (slots: seq<SlotSnapshot>)
      reads this
      ensures ValidSlotSet(slots, |state|) <==> context > 0 || state == []
    {
      var n := |state|;
      var slots := seq(n, i requires 0 <= i < n => SlotSnapshot(i, false, context));
      assert state != [] ==> slots[0].nCtx == context;
      slots
    }

    method SaveSlot(store: CheckpointStore, id: nat, path: ScratchPath) returns (reply: SaveReply)
      requires id < |state|
      modifies store`disk
      ensures store.disk == old(store.disk).(scratch := old(store.disk.scratch)[path := state[id]])
      ensures reply == SaveReply(id, Name(path), tokens(state[id]), |state[id]|)
    {
      store.disk := store.disk.(scratch := store.disk.scratch[path := state[id]]);
      return SaveReply(id, Name(path), tokens(state[id]), |state[id]|);
    }

    method RestoreSlot(store: CheckpointStore, id: nat, path: ScratchPath) returns (reply: RestoreReply)
      requires id < |state| && path in store.disk.scratch
      modifies this
      ensures state == old(state)[id := store.disk.scratch[path]]
      ensures reply == RestoreReply(id, Name(path), tokens(store.disk.scratch[path]), |store.disk.scratch[path]|)
    {
      state := state[id := store.disk.scratch[path]];
      return RestoreReply(id, Name(path), tokens(state[id]), |state[id]|);
    }
  }

  /** The counts in the manifest are those the engine would report for the payloads. */
  predicate Truthful(tokens: Bytes -> nat, m: Manifest) {
    forall i :: 0 <= i < |m.slots| ==>
      m.slots[i].promptTokens == tokens(m.slots[i].sha256.content) && m.slots[i].bytes == |m.slots[i].sha256.content|
  }

  predicate AllTruthful(tokens: Bytes -> nat, instanceId: string, fp: string, d: FingerprintDir) {
    forall id :: id in d.generations && Complete(instanceId, fp, d, id) ==> Truthful(tokens, CompleteManifest(instanceId, fp, d, id))
  }

  lemma LoadedIsTruthful(tokens: Bytes -> nat, instanceId: string, fp: string, d: FingerprintDir, m: Manifest)
    requires AllTruthful(tokens, instanceId, fp, d) && LatestIs(instanceId, fp, d, Ok(Some(m)))
    ensures Truthful(tokens, m)
  {
    hide Truthful, LatestIs, LoadContent;
    LoadedIsLoadable(instanceId, fp, d, m);
    LoadableIffComplete(instanceId, fp, d, m.generationId);
  }

  lemma CommitStaysTruthful(tokens: Bytes -> nat, instanceId: string, fp: string, before: FingerprintDir, after: FingerprintDir, m: Manifest, published: bool)
    requires AllTruthful(tokens, instanceId, fp, before) && CommitOutcome(before, after, m, published) && Truthful(tokens, m)
    ensures AllTruthful(tokens, instanceId, fp, after)
  {
    hide Truthful, ValidManifest, PayloadMatches;
    forall id | id in after.generations && Complete(instanceId, fp, after, id)
      ensures Truthful(tokens, CompleteManifest(instanceId, fp, after, id))
    {
      if id in before.generations {
        assert Complete(instanceId, fp, before, id);
      } else {
        assert CompleteManifest(instanceId, fp, after, id) == m;
      }
    }
  }

  /** Whatever a save by this engine leaves behind is truthful again. */
  lemma SaveStaysTruthful(tokens: Bytes -> nat, instanceId: string, fp: string, before: FingerprintDir, after: FingerprintDir, effect: SaveEffect)
    requires AllTruthful(tokens, instanceId, fp, before) && Advanced(instanceId, fp, before, after, effect)
    requires !effect.NoCommit? ==> Truthful(tokens, effect.m)
    ensures AllTruthful(tokens, instanceId, fp, after)
  {
    hide Truthful, CommitOutcome, DirSafe, LoadContent;
    match effect
    case NoCommit =>
    case Interrupted(m, middle, published) => CommitStaysTruthful(tokens, instanceId, fp, before, middle, m, published);
    case Finished(m, middle) =>
      CommitStaysTruthful(tokens, instanceId, fp, before, middle, m, true);
      SafeGenerations(instanceId, fp, middle, after, iset{Key(fp, m.generationId)});
      WasComplete(instanceId, fp, middle, after, iset{Key(fp, m.generationId)});
      hide GenerationsSafe;
      forall id | id in after.generations && Complete(instanceId, fp, after, id)
        ensures Truthful(tokens, CompleteManifest(instanceId, fp, after, id))
      {
        assert Complete(instanceId, fp, middle, id);
      }
  }

  /** What an idle, faithful engine answers when each slot is saved in turn. */
  function FaithfulWrites(tokens: Bytes -> nat, state: seq<Bytes>): (writes: seq<SlotWrite>)
    ensures |writes| == |state|
  {
    seq(|state|, i requires 0 <= i < |state| => SlotWrite(true, Some(state[i]), Some(SaveCounts(true, tokens(state[i]), |state[i]|))))
  }

  /** A slot of the new manifest holds the engine's state, or an older and longer one. */
  predicate Captured(tokens: Bytes -> nat, previous: Option<Manifest>, state: seq<Bytes>, s: SlotManifest) {
    && s.id < |state| && s.promptTokens == tokens(s.sha256.content) && s.bytes == |s.sha256.content|
    && (s.sha256.content == state[s.id]
        || (previous.Some? && s in previous.value.slots && s.promptTokens > tokens(state[s.id])))
  }

  predicate WorthSaving(tokens: Bytes -> nat, content: Bytes, minimum: nat) { tokens(content) > 0 && tokens(content) >= minimum }

  predicate SavedAt(slots: seq<SlotManifest>, id: nat) { exists i :: 0 <= i < |slots| && slots[i].id == id }

  /** The slots describe the first `n` of the engine: every one is captured, every slot worth saving is among them. */
  predicate Describes(tokens: Bytes -> nat, previous: Option<Manifest>, state: seq<Bytes>, minimum: nat, n: nat, slots: seq<SlotManifest>)
    requires n <= |state|
  {
    && (forall i :: 0 <= i < |slots| ==> Captured(tokens, previous, state, slots[i]))
    && (forall id :: 0 <= id < n && WorthSaving(tokens, state[id], minimum) ==> SavedAt(slots, id))
  }

  /** The manifest of a faithful engine describes it. */
  lemma {:induction false} ChosenCaptures(tokens: Bytes -> nat, previous: Option<Manifest>, state: seq<Bytes>, minimum: nat, n: nat)
    requires n <= |state| && AllGood(FaithfulWrites(tokens, state), n) && (previous.Some? ==> Truthful(tokens, previous.value))
    ensures Describes(tokens, previous, state, minimum, n, Chosen(previous, FaithfulWrites(tokens, state), minimum, n))
  {
    if n > 0 {
      hide Describes, Chosen, GoodWrite, ChoiceAt, Truthful, FaithfulWrites;
      ChosenCaptures(tokens, previous, state, minimum, n - 1);
      var writes := FaithfulWrites(tokens, state);
      DescribesMore(tokens, previous, state, minimum, n, Chosen(previous, writes, minimum, n - 1));
    }
  }

  /** One more slot. */
  lemma DescribesMore(tokens: Bytes -> nat, previous: Option<Manifest>, state: seq<Bytes>, minimum: nat, n: nat, earlier: seq<SlotManifest>)
    requires 0 < n <= |state| && AllGood(FaithfulWrites(tokens, state), n) && (previous.Some? ==> Truthful(tokens, previous.value))
    requires earlier == Chosen(previous, FaithfulWrites(tokens, state), minimum, n - 1)
    requires Describes(tokens, previous, state, minimum, n - 1, earlier)
    ensures Describes(tokens, previous, state, minimum, n, Chosen(previous, FaithfulWrites(tokens, state), minimum, n))
  {
    var writes := FaithfulWrites(tokens, state);
    var slots := Chosen(previous, writes, minimum, n);
    ChosenGrows(previous, writes, minimum, n);
    LastCaptured(tokens, previous, state, minimum, n);
    hide Captured, WorthSaving, Chosen, GoodWrite, FaithfulWrites, Truthful;
    forall id | 0 <= id < n && WorthSaving(tokens, state[id], minimum)
      ensures SavedAt(slots, id)
    {
      if id < n - 1 {
        var i :| 0 <= i < |earlier| && earlier[i].id == id;
        assert slots[i] == earlier[i];
      }
    }
  }

  lemma LastCaptured(tokens: Bytes -> nat, previous: Option<Manifest>, state: seq<Bytes>, minimum: nat, n: nat)
    requires 0 < n <= |state| && AllGood(FaithfulWrites(tokens, state), n) && (previous.Some? ==> Truthful(tokens, previous.value))
    ensures var earlier, slots := Chosen(previous, FaithfulWrites(tokens, state), minimum, n - 1),
                                  Chosen(previous, FaithfulWrites(tokens, state), minimum, n);
            && |earlier| <= |slots| <= |earlier| + 1
            && (|slots| > |earlier| ==> Captured(tokens, previous, state, slots[|earlier|]) && slots[|earlier|].id == n - 1)
            && (WorthSaving(tokens, state[n - 1], minimum) ==> SavedAt(slots, n - 1))
  {
    var slots := Chosen(previous, FaithfulWrites(tokens, state), minimum, n);
    assert slots != [] ==> slots[|slots| - 1] in slots;
    if WorthSaving(tokens, state[n - 1], minimum) { assert slots[|slots| - 1].id == n - 1; }
  }

  lemma CapturedIsTruthful(tokens: Bytes -> nat, previous: Option<Manifest>, state: seq<Bytes>, minimum: nat, m: Manifest)
    requires Describes(tokens, previous, state, minimum, |state|, m.slots)
    ensures Truthful(tokens, m)
  {
    hide SavedAt, WorthSaving;
  }

  /** The first `n` slots of the manifest are in the engine; slots it does not name are as they were. */
  predicate Holding(m: Manifest, before: seq<Bytes>, after: seq<Bytes>, n: nat)
    requires n <= |m.slots|
  {
    && |after| == |before|
    && (forall i :: 0 <= i < n ==> m.slots[i].id < |after| && after[m.slots[i].id] == m.slots[i].sha256.content)
    && (forall id :: 0 <= id < |after| && !SavedAt(m.slots, id) ==> after[id] == before[id])
  }

  predicate Restorable(tokens: Bytes -> nat, instanceId: string, fp: string, m: Manifest, count: nat) {
    ValidManifest(m, instanceId, fp) && Truthful(tokens, m) && m.slotCount == count
  }

  lemma HoldingMore(instanceId: string, fp: string, m: Manifest, before: seq<Bytes>, after: seq<Bytes>, n: nat)
    requires ValidManifest(m, instanceId, fp) && n < |m.slots| && m.slotCount == |before| && Holding(m, before, after, n)
    ensures Holding(m, before, after[m.slots[n].id := m.slots[n].sha256.content], n + 1)
  {
    assert SavedAt(m.slots, m.slots[n].id);
  }

  /** Copies one slot's payload out and loads it into the engine. */
  method RestoreOne(store: CheckpointStore, engine: Engine, fp: string, m: Manifest, i: nat, path: ScratchPath) returns (fate: IdleSave.RestoreFate)
    requires store.Reliable() && Intact(DirOf(store.disk, fp), m) && i < |m.slots|
    requires Restorable(engine.tokens, store.instanceId, fp, m, |engine.state|) && path !in store.disk.scratch
    modifies store, engine
    ensures store.Reliable() && store.disk == old(store.disk)
    ensures m.slots[i].id < |engine.state| && engine.state == old(engine.state)[m.slots[i].id := m.slots[i].sha256.content]
    ensures IdleSave.SlotRestored(m.slots[i], fate)
  {
    ghost var disk0 := store.disk;
    assert ValidSlot(m.slots[i], m.slotCount);
    hide Intact, ValidManifest;
    var copied := CopySlot(store, fp, m, m.slots[i], path);
    var reply := engine.RestoreSlot(store, m.slots[i].id, path);
    var removed := RemoveScratch(store, path);
    assert store.disk.scratch == disk0.scratch;
    fate := IdleSave.RestoreFate(copied, Name(path), Some(reply), removed);
  }

  /** Saves a restored slot again and compares what it wrote. */
  method VerifyOne(store: CheckpointStore, engine: Engine, fp: string, m: Manifest, i: nat, path: ScratchPath) returns (fate: IdleSave.VerifyFate)
    requires store.Reliable() && i < |m.slots|
    requires Restorable(engine.tokens, store.instanceId, fp, m, |engine.state|) && path !in store.disk.scratch
    requires m.slots[i].id < |engine.state| && engine.state[m.slots[i].id] == m.slots[i].sha256.content
    modifies store
    ensures store.Reliable() && store.disk == old(store.disk)
    ensures IdleSave.SlotReadBack(m.slots[i], fate)
  {
    ghost var disk0 := store.disk;
    var reply := engine.SaveSlot(store, m.slots[i].id, path);
    var digest := Sha256(store.disk.scratch[path]);
    var removed := RemoveScratch(store, path);
    assert store.disk.scratch == disk0.scratch;
    fate := IdleSave.VerifyFate(true, Name(path), Some(reply), Some(digest), removed);
  }

  /** The first loop of a restore: every slot goes into the engine. */
  method RestoreSlots(store: CheckpointStore, engine: Engine, fp: string, m: Manifest, names: seq<ScratchPath>)
    returns (fates: seq<IdleSave.RestoreFate>)
    requires store.Reliable() && Intact(DirOf(store.disk, fp), m) && Restorable(engine.tokens, store.instanceId, fp, m, |engine.state|)
    requires |names| == 2 * |m.slots| && forall k :: 0 <= k < |names| ==> names[k] !in store.disk.scratch
    modifies store, engine
    ensures store.Reliable() && store.disk == old(store.disk) && Holding(m, old(engine.state), engine.state, |m.slots|)
    ensures |fates| == |m.slots| && forall k :: 0 <= k < |fates| ==> IdleSave.SlotRestored(m.slots[k], fates[k])
  {
    hide Intact, ValidManifest, Truthful, IdleSave.SlotRestored, Holding;
    ghost var state0 := engine.state;
    NothingHeld(m, state0);
    fates := [];
    var i := 0;
    while i < |m.slots|
      invariant i <= |m.slots| && store.Reliable() && store.disk == old(store.disk)
      invariant |engine.state| == |state0| && Holding(m, state0, engine.state, i)
      invariant |fates| == i && forall k :: 0 <= k < i ==> IdleSave.SlotRestored(m.slots[k], fates[k])
    {
      HoldingMore(store.instanceId, fp, m, state0, engine.state, i);
      var fate := RestoreOne(store, engine, fp, m, i, names[2 * i]);
      HoldingSize(m, state0, engine.state, i + 1);
      fates := fates + [fate];
      i := i + 1;
    }
  }

  lemma NothingHeld(m: Manifest, state: seq<Bytes>)
    ensures Holding(m, state, state, 0)
  {
  }

  lemma HeldAt(m: Manifest, before: seq<Bytes>, after: seq<Bytes>, i: nat)
    requires Holding(m, before, after, |m.slots|) && i < |m.slots|
    ensures |after| == |before| && m.slots[i].id < |after| && after[m.slots[i].id] == m.slots[i].sha256.content
  {
  }

  /** The second loop: every slot is saved again and compared. */
  method ReadBackSlots(store: CheckpointStore, engine: Engine, fp: string, m: Manifest, names: seq<ScratchPath>, ghost state0: seq<Bytes>)
    returns (fates: seq<IdleSave.VerifyFate>)
    requires store.Reliable() && Restorable(engine.tokens, store.instanceId, fp, m, |engine.state|)
    requires Holding(m, state0, engine.state, |m.slots|)
    requires |names| == 2 * |m.slots| && forall k :: 0 <= k < |names| ==> names[k] !in store.disk.scratch
    modifies store
    ensures store.Reliable() && store.disk == old(store.disk)
    ensures |fates| == |m.slots| && forall k :: 0 <= k < |fates| ==> IdleSave.SlotReadBack(m.slots[k], fates[k])
  {
    hide ValidManifest, Truthful, IdleSave.SlotReadBack, Holding;
    fates := [];
    var i := 0;
    while i < |m.slots|
      invariant i <= |m.slots| && store.Reliable() && store.disk == old(store.disk)
      invariant |fates| == i && forall k :: 0 <= k < i ==> IdleSave.SlotReadBack(m.slots[k], fates[k])
    {
      HeldAt(m, state0, engine.state, i);
      var fate := VerifyOne(store, engine, fp, m, i, names[2 * i + 1]);
      fates := fates + [fate];
      i := i + 1;
    }
  }

  /** Restores every slot of a generation, then reads every one back. */
  method RestoreGeneration(store: CheckpointStore, engine: Engine, fp: string, m: Manifest, names: seq<ScratchPath>)
    returns (script: IdleSave.RestoreScript)
    requires store.Reliable() && Intact(DirOf(store.disk, fp), m)
    requires Restorable(engine.tokens, store.instanceId, fp, m, |engine.state|) && engine.context > 0
    requires |names| == 2 * |m.slots| && forall k :: 0 <= k < |names| ==> names[k] !in store.disk.scratch
    modifies store, engine
    ensures store.Reliable() && store.disk == old(store.disk)
    ensures Holding(m, old(engine.state), engine.state, |m.slots|)
    ensures script.healthy && script.topologyValid && |script.restores| == |script.verifies| == |m.slots|
    ensures IdleSave.Flawless(m.slots, script)
  {
    hide Intact, ValidManifest, Truthful, IdleSave.SlotRestored, IdleSave.SlotReadBack, Holding, ValidSlotSet;
    ghost var state0 := engine.state;
    var topology := ValidSlotSet(engine.Slots(), |engine.state|);
    var restores := RestoreSlots(store, engine, fp, m, names);
    HoldingSize(m, state0, engine.state, |m.slots|);
    var verifies := ReadBackSlots(store, engine, fp, m, names, state0);
    script := IdleSave.RestoreScript(true, topology, restores, verifies, true);
  }

  lemma HoldingSize(m: Manifest, before: seq<Bytes>, after: seq<Bytes>, n: nat)
    requires n <= |m.slots| && Holding(m, before, after, n)
    ensures |after| == |before|
  {
  }

  /**
   `restore_or_cold` for a newly registered process: what was stored for the launch is in the engine
   and the process is Ready; with nothing stored the engine is untouched and the process cold; and it
   is gone only if its end was reported.
   */
  method RestoreProcess(store: CheckpointStore, engine: Engine, host: IdleSave.CheckpointHost, pid: nat, fp: FingerprintId,
                        names: seq<ScratchPath>, now: nat)
    returns (ghost loaded: Result<Option<Manifest>, LoadError>)
    requires store.Reliable() && AllTruthful(engine.tokens, store.instanceId, fp.digest, DirOf(store.disk, fp.digest))
    requires fp.wellFormed && engine.context > 0
    requires host.Valid() && host.s.entry.gateActive && RestoreProtocol.RestoresOnce(host.s, RestoreProtocol.RestoreBegin(pid))
    requires host.s.entry.slotCount == |engine.state|
    requires |names| == 2 * |engine.state| && forall k :: 0 <= k < |names| ==> names[k] !in store.disk.scratch
    modifies store, engine, host
    ensures LatestIs(store.instanceId, fp.digest, old(DirOf(store.disk, fp.digest)), loaded)
    ensures store.Reliable() && store.disk == old(store.disk).(usage := store.disk.usage)
    ensures host.Valid() && host.s.call.NoCall?
    ensures host.Accounts(old(host.s.entry), old(host.gaps), old(host.ends), old(host.crashes))
    ensures var stored := loaded.Ok? && loaded.value.Some? && loaded.value.value.slotCount == |old(engine.state)|;
            && (if stored then Holding(loaded.value.value, old(engine.state), engine.state, |loaded.value.value.slots|)
                else engine.state == old(engine.state))
            && (IdleSave.Exited(host.s.entry) || host.s.entry.phase == if stored then Coordinator.Ready else Coordinator.ReadyCold)
            && (IdleSave.EndsIn(old(host.gaps), Some(pid)) == 0 ==>
                  host.s.entry.phase == if stored then Coordinator.Ready else Coordinator.ReadyCold)
  {
    hide LatestIs, IdleSave.Flawless, AllTruthful, Holding, IdleSave.EndsIn, IdleSave.CrashesIn;
    ghost var d := DirOf(store.disk, fp.digest);
    var found := store.LoadLatest(fp.digest, now);
    loaded := found;
    var script := IdleSave.RestoreScript(true, true, [], [], true);
    var outcome := IdleSave.NothingStored;
    if found.Err? {
      outcome := IdleSave.LoadOutcome.LoadError;
    } else if found.value.Some? {
      var m := found.value.value;
      LoadedIsIntact(store.instanceId, fp.digest, d, found);
      LoadedIsTruthful(engine.tokens, store.instanceId, fp.digest, d, m);
      outcome := IdleSave.Loaded(m.slots, m.slotCount);
      if m.slotCount == |engine.state| {
        script := RestoreGeneration(store, engine, fp.digest, m, names[..2 * |m.slots|]);
      } else {
        var none := IdleSave.RestoreFate(false, "", None, false);
        var unread := IdleSave.VerifyFate(false, "", None, None, false);
        script := IdleSave.RestoreScript(true, true, seq(|m.slots|, _ => none), seq(|m.slots|, _ => unread), false);
      }
    }
    var _, _, _ := host.RestoreOrCold(pid, true, fp.wellFormed, outcome, script);
  }

  /** A committed save by a faithful engine describes its slots, and leaves the store truthful. */
  lemma SavedCaptures(tokens: Bytes -> nat, state: seq<Bytes>, instanceId: string, before: Instance, after: Instance, req: SaveRequest,
                      names: seq<ScratchPath>, r: Result<Manifest, SaveError>, effect: SaveEffect,
                      loaded: Result<Option<Manifest>, LoadError>, middle: Instance)
    requires |state| == req.count && req.fp.wellFormed && req.count in {1, 2, 4}
    requires AllTruthful(tokens, instanceId, req.fp.digest, DirOf(before, req.fp.digest))
    requires Saved(instanceId, before, after, req, FaithfulWrites(tokens, state), names, r, effect, loaded, middle)
    ensures AllTruthful(tokens, instanceId, req.fp.digest, DirOf(after, req.fp.digest))
    ensures !effect.NoCommit? ==>
              && loaded.Ok? && Truthful(tokens, effect.m)
              && Describes(tokens, loaded.value, state, req.minimum, |state|, effect.m.slots)
  {
    var writes := FaithfulWrites(tokens, state);
    assert |writes| == req.count;
    hide AllTruthful, LatestIs, Chosen, Advanced, Describes, GoodWrite, OthersSafe, OnlyNamesDiffer, FaithfulWrites, ValidManifest, Truthful,
         AllBefore;
    SavedLoads(instanceId, before, after, req, writes, names, r, effect, loaded, middle);
    if !effect.NoCommit? {
      if loaded.value.Some? {
        LoadedIsTruthful(tokens, instanceId, req.fp.digest, DirOf(before, req.fp.digest), loaded.value.value);
      }
      ChosenCaptures(tokens, loaded.value, state, req.minimum, req.count);
      CapturedIsTruthful(tokens, loaded.value, state, req.minimum, effect.m);
    }
    SaveStaysTruthful(tokens, instanceId, req.fp.digest, DirOf(before, req.fp.digest), DirOf(after, req.fp.digest), effect);
  }

  /** What a save without faults means for the round trip. */
  lemma SaveMeans(instanceId: string, before: Instance, after: Instance, req: SaveRequest, writes: seq<SlotWrite>, names: seq<ScratchPath>,
                  r: Result<Manifest, SaveError>, effect: SaveEffect, loaded: Result<Option<Manifest>, LoadError>, middle: Instance)
    requires SaveResult(instanceId, before, after, req, writes, true, names, 0, 0, true, r, effect, loaded, middle)
    requires AllBefore(instanceId, req.fp.digest, DirOf(before, req.fp.digest), req.createdAt)
    ensures Saved(instanceId, before, after, req, writes, names, r, effect, loaded, middle)
    ensures if req.preserveLonger then LatestIs(instanceId, req.fp.digest, DirOf(before, req.fp.digest), loaded) else loaded == Ok(None)
    ensures Determined(DirOf(before, req.fp.digest), req, loaded, writes, true, r) && after.scratch == before.scratch
    ensures r.Ok? ==> forall l :: LatestIs(instanceId, req.fp.digest, DirOf(after, req.fp.digest), l) <==> l == Ok(Some(r.value))
    ensures r.Ok? ==> !effect.NoCommit? && r.value == effect.m && r.value.slotCount == req.count
  {
    hide LatestIs, AllBefore, Determined, SaveStep, Retained, Advanced, OthersSafe, OnlyNamesDiffer, Chosen, GoodWrite;
  }

  /**
   The round trip as one run of the host: a process is saved and stopped, another one is registered in
   its place with the same launch, becomes healthy and is restored.  The save succeeds exactly when the
   process was there and nothing refused it; the new process is then Ready, each slot of the committed
   manifest holding exactly the payload it was saved with.  Either process is gone only if its end was
   reported in one of its gaps.
   */
  method SaveThenRestore(store: CheckpointStore, host: IdleSave.CheckpointHost, engine: Engine, oldPid: nat, before: Coordinator.CheckpointPhase,
                         req: SaveRequest, names: seq<ScratchPath>, now: nat,
                         newcomer: Engine, registration: Coordinator.Call, later: nat)
    returns (r: Option<Result<Manifest, SaveError>>, ghost loaded: Result<Option<Manifest>, LoadError>)
    requires store.Reliable() && AllTruthful(engine.tokens, store.instanceId, req.fp.digest, DirOf(store.disk, req.fp.digest))
    requires AllBefore(store.instanceId, req.fp.digest, DirOf(store.disk, req.fp.digest), req.createdAt)
    requires GoodRequest(req, FaithfulWrites(engine.tokens, engine.state), names, store.disk.scratch) && engine.context > 0
    requires host.Valid() && host.Closed(oldPid, before, Coordinator.Draining)
    requires registration.Register? && Coordinator.RegistrationAccepted(registration) && registration.eligibility.eligible
    requires registration.eligibility.slotCount == req.count
    requires newcomer != engine && newcomer.tokens == engine.tokens && newcomer.context > 0 && |newcomer.state| == req.count
    modifies store, newcomer, host
    // the save: nothing happens only if the process is gone, and otherwise the outcome is determined
    ensures r.None? && !old(IdleSave.Exited(host.s.entry)) ==> IdleSave.EndsIn(old(host.gaps), Some(oldPid)) > 0
    ensures r.Some? ==>
              && (if req.preserveLonger then LatestIs(store.instanceId, req.fp.digest, old(DirOf(store.disk, req.fp.digest)), loaded)
                  else loaded == Ok(None))
              && Determined(old(DirOf(store.disk, req.fp.digest)), req, loaded, FaithfulWrites(engine.tokens, engine.state), true, r.value)
    // what was committed describes the engine that was saved
    ensures r.Some? && r.value.Ok? ==>
              && loaded.Ok? && Truthful(engine.tokens, r.value.value)
              && Describes(engine.tokens, loaded.value, engine.state, req.minimum, |engine.state|, r.value.value.slots)
    // and the new process holds it
    ensures r.Some? && r.value.Ok? ==>
              && Holding(r.value.value, old(newcomer.state), newcomer.state, |r.value.value.slots|)
              && (IdleSave.Exited(host.s.entry) || host.s.entry.phase.Ready?)
              && (IdleSave.EndsIn(old(host.gaps), Some(registration.pid)) == 0 ==> host.s.entry.phase.Ready?)
    ensures host.Valid() && host.s.entry.pid == Some(registration.pid)
    ensures store.Reliable() && store.disk.scratch == old(store.disk.scratch)
    ensures AllTruthful(engine.tokens, store.instanceId, req.fp.digest, DirOf(store.disk, req.fp.digest))
  {
    hide AllTruthful, LatestIs, AllBefore, Advanced, Determined, Holding, Describes, Truthful, GoodWrite, IdleSave.EndsIn, IdleSave.CrashesIn,
         Saved, SaveResult, ValidSlotSet, Coordinator.RegistrationAccepted;
    ghost var disk0 := store.disk;
    var writes := FaithfulWrites(engine.tokens, engine.state);
    var topology := ValidSlotSet(engine.Slots(), |engine.state|);
    ghost var effect, middle, sent;
    r, effect, loaded, middle, sent := SaveBeforeStop(store, host, oldPid, before, true, topology, req, writes, true, names, now, 0, 0);
    if r.Some? {
      SaveMeans(store.instanceId, disk0, store.disk, req, writes, names, r.value, effect, loaded, middle);
      SavedCaptures(engine.tokens, engine.state, store.instanceId, disk0, store.disk, req, names, r.value, effect, loaded, middle);
    }
    host.Replace(oldPid, registration);
    if r.Some? && r.value.Ok? {
      var _ := RestoreProcess(store, newcomer, host, registration.pid, req.fp, names, later);
    }
  }
}

/** `save_before_stop` from the backend's replies to the committed generation. */
module SaveOperation {
  import opened Wrappers
  import opened Manifests
  import opened StoreSpec
  import opened PruneSpec
  import opened Eviction
  import opened Retention
  import opened Store

  /** What saving one slot produced: is the slot set idle, the file written, and the reply. */
  datatype SlotWrite = SlotWrite(idle: bool, file: Option<Bytes>, reply: Option<SaveCounts>)
  datatype SaveCounts = SaveCounts(matchesRequest: bool, nSaved: nat, nWritten: nat)

  /** The reply names the request, and the file has the announced, nonzero size. */
  predicate GoodWrite(w: SlotWrite) {
    && w.idle && w.reply.Some? && w.reply.value.matchesRequest && w.file.Some?
    && 0 < w.reply.value.nWritten == |w.file.value|
  }

  datatype SlotChoice = KeepOlder(older: SlotManifest) | TakeNew | DropSlot

  function Choose(older: Option<SlotManifest>, nSaved: nat, minimum: nat): SlotChoice {
    if older.Some? && older.value.promptTokens > nSaved then KeepOlder(older.value)
    else if nSaved > 0 && nSaved >= minimum then TakeNew
    else DropSlot
  }

  function FindSlot(slots: seq<SlotManifest>, id: nat): (r: Option<SlotManifest>)
    ensures r.Some? ==> r.value in slots && r.value.id == id
    ensures r.None? ==> forall i :: 0 <= i < |slots| ==> slots[i].id != id
  {
    if slots == [] then None else if slots[0].id == id then Some(slots[0]) else FindSlot(slots[1..], id)
  }

  function OlderSlot(previous: Option<Manifest>, id: nat): Option<SlotManifest> {
    if previous.Some? then FindSlot(previous.value.slots, id) else None
  }

  function NewSlot(id: nat, w: SlotWrite): SlotManifest
    requires GoodWrite(w)
  {
    SlotManifest(id, SlotFilename(id), w.reply.value.nSaved, |w.file.value|, Sha256(w.file.value))
  }

  function ChoiceAt(previous: Option<Manifest>, w: SlotWrite, minimum: nat, id: nat): SlotChoice
    requires GoodWrite(w)
  {
    Choose(OlderSlot(previous, id), w.reply.value.nSaved, minimum)
  }

  /** The slots of the new manifest, after the first `n` writes. */
  function Chosen(previous: Option<Manifest>, writes: seq<SlotWrite>, minimum: nat, n: nat): seq<SlotManifest>
    requires n <= |writes| && forall i :: 0 <= i < n ==> GoodWrite(writes[i])
  {
    if n == 0 then []
    else
      Chosen(previous, writes, minimum, n - 1) +
      match ChoiceAt(previous, writes[n - 1], minimum, n - 1)
      case KeepOlder(older) => [older]
      case TakeNew => [NewSlot(n - 1, writes[n - 1])]
      case DropSlot => []
  }

  /** Valid slots in increasing order, all below `n`. */
  predicate SlotsBelow(c: seq<SlotManifest>, n: nat, count: nat) {
    && |c| <= n && (forall i :: 0 <= i < |c| ==> ValidSlot(c[i], count) && c[i].id < n)
    && (forall i, j :: 0 <= i < j < |c| ==> c[i].id < c[j].id)
  }

  lemma SlotsBelowMore(c: seq<SlotManifest>, n: nat, count: nat, s: SlotManifest)
    requires SlotsBelow(c, n, count)
    ensures SlotsBelow(c, n + 1, count)
    ensures ValidSlot(s, count) && s.id == n ==> SlotsBelow(c + [s], n + 1, count)
  {
    hide ValidSlot;
  }

  lemma {:induction false} ChosenSlotsValid(previous: Option<Manifest>, writes: seq<SlotWrite>, minimum: nat, n: nat, count: nat,
                                            instanceId: string, fp: string)
    requires n <= |writes| && n <= count && forall i :: 0 <= i < n ==> GoodWrite(writes[i])
    requires previous.Some? ==> ValidManifest(previous.value, instanceId, fp) && previous.value.slotCount == count
    ensures SlotsBelow(Chosen(previous, writes, minimum, n), n, count)
  {
    if n > 0 {
      hide SlotsBelow;
      ChosenSlotsValid(previous, writes, minimum, n - 1, count, instanceId, fp);
      var c, w := Chosen(previous, writes, minimum, n - 1), writes[n - 1];
      match ChoiceAt(previous, w, minimum, n - 1)
      case KeepOlder(older) =>
        assert ValidSlot(older, count) && older.id == n - 1;
        SlotsBelowMore(c, n - 1, count, older);
      case TakeNew => SlotsBelowMore(c, n - 1, count, NewSlot(n - 1, w));
      case DropSlot => SlotsBelowMore(c, n - 1, count, NewSlot(n - 1, w));
    }
  }

  /** The new manifest's slots, one by one: the new state of a slot that is long enough and outlived by none, or the older longer one. */
  lemma {:induction false} ChosenIff(previous: Option<Manifest>, writes: seq<SlotWrite>, minimum: nat, n: nat, s: SlotManifest)
    requires n <= |writes| && AllGood(writes, n)
    ensures s in Chosen(previous, writes, minimum, n) <==>
            exists i :: 0 <= i < n && Supplies(previous, writes[i], minimum, i, s)
  {
    if n > 0 {
      ChosenIff(previous, writes, minimum, n - 1, s);
      assert GoodWrite(writes[n - 1]);
      hide OlderSlot, AllGood;
    }
  }

  /** What saving slot `id` puts into the manifest. */
  predicate Supplies(previous: Option<Manifest>, w: SlotWrite, minimum: nat, id: nat, s: SlotManifest) {
    || (TakesNew(previous, w, minimum, id) && w.file.Some?
        && s == SlotManifest(id, SlotFilename(id), w.reply.value.nSaved, |w.file.value|, Sha256(w.file.value)))
    || (Outlived(previous, w, id) && Some(s) == OlderSlot(previous, id))
  }

  lemma {:induction false} ChosenMeetsMinimum(previous: Option<Manifest>, writes: seq<SlotWrite>, minimum: nat, n: nat)
    requires n <= |writes| && forall i :: 0 <= i < n ==> GoodWrite(writes[i])
    requires previous.Some? ==> MeetsMinimum(previous.value, minimum)
    ensures forall i :: 0 <= i < |Chosen(previous, writes, minimum, n)| ==> Chosen(previous, writes, minimum, n)[i].promptTokens >= minimum
  {
    if n > 0 {
      ChosenMeetsMinimum(previous, writes, minimum, n - 1);
    }
  }

  /** In a valid manifest a slot is found by its id. */
  lemma FindSlotIs(m: Manifest, instanceId: string, fp: string, s: SlotManifest)
    requires ValidManifest(m, instanceId, fp) && s in m.slots
    ensures FindSlot(m.slots, s.id) == Some(s)
  {
    var found := FindSlot(m.slots, s.id);
    var p :| 0 <= p < |m.slots| && m.slots[p] == s;
    assert found.Some?;
    var q :| 0 <= q < |m.slots| && m.slots[q] == found.value;
    assert p == q;
  }

  /** A slot that was saved before, long enough for the minimum, is chosen again with no fewer tokens. */
  lemma {:induction false} ChosenKeepsSlot(previous: Manifest, writes: seq<SlotWrite>, minimum: nat, n: nat, s: SlotManifest)
    returns (j: nat)
    requires n <= |writes| && forall i :: 0 <= i < n ==> GoodWrite(writes[i])
    requires FindSlot(previous.slots, s.id) == Some(s) && s.promptTokens >= minimum && s.promptTokens > 0 && s.id < n
    ensures var c := Chosen(Some(previous), writes, minimum, n);
            j < |c| && c[j].id == s.id && c[j].promptTokens >= s.promptTokens
  {
    hide Chosen, GoodWrite, FindSlot;
    if s.id == n - 1 {
      LastIsKept(previous, writes, minimum, n, s);
      j := |Chosen(Some(previous), writes, minimum, n)| - 1;
    } else {
      ChosenGrows(Some(previous), writes, minimum, n);
      j := ChosenKeepsSlot(previous, writes, minimum, n - 1, s);
    }
  }

  lemma ChosenGrows(previous: Option<Manifest>, writes: seq<SlotWrite>, minimum: nat, n: nat)
    requires 0 < n <= |writes| && forall i :: 0 <= i < n ==> GoodWrite(writes[i])
    ensures Chosen(previous, writes, minimum, n - 1) <= Chosen(previous, writes, minimum, n)
  {
    hide GoodWrite, ChoiceAt;
  }

  lemma LastIsKept(previous: Manifest, writes: seq<SlotWrite>, minimum: nat, n: nat, s: SlotManifest)
    requires 0 < n <= |writes| && forall i :: 0 <= i < n ==> GoodWrite(writes[i])
    requires FindSlot(previous.slots, s.id) == Some(s) && s.promptTokens >= minimum && s.promptTokens > 0 && s.id == n - 1
    ensures var c := Chosen(Some(previous), writes, minimum, n);
            c != [] && c[|c| - 1].id == s.id && c[|c| - 1].promptTokens >= s.promptTokens
  {
    hide GoodWrite, FindSlot;
  }

  /** Every slot in `c` was chosen by the write of its id. */
  predicate ChosenFrom(previous: Option<Manifest>, writes: seq<SlotWrite>, minimum: nat, n: nat, c: seq<SlotManifest>)
    requires n <= |writes| && AllGood(writes, n)
  {
    forall i :: 0 <= i < |c| ==> c[i].id < n && !ChoiceAt(previous, writes[c[i].id], minimum, c[i].id).DropSlot?
  }

  lemma ChosenFromMore(previous: Option<Manifest>, writes: seq<SlotWrite>, minimum: nat, n: nat, c: seq<SlotManifest>, s: SlotManifest)
    requires 0 < n <= |writes| && AllGood(writes, n) && ChosenFrom(previous, writes, minimum, n - 1, c)
    ensures ChosenFrom(previous, writes, minimum, n, c)
    ensures s.id == n - 1 && !ChoiceAt(previous, writes[n - 1], minimum, n - 1).DropSlot? ==> ChosenFrom(previous, writes, minimum, n, c + [s])
  {
    hide GoodWrite, ChoiceAt;
  }

  lemma {:induction false} ChosenById(previous: Option<Manifest>, writes: seq<SlotWrite>, minimum: nat, n: nat)
    requires n <= |writes| && AllGood(writes, n)
    ensures ChosenFrom(previous, writes, minimum, n, Chosen(previous, writes, minimum, n))
  {
    if n > 0 {
      hide GoodWrite, ChosenFrom;
      ChosenById(previous, writes, minimum, n - 1);
      var c, w := Chosen(previous, writes, minimum, n - 1), writes[n - 1];
      match ChoiceAt(previous, w, minimum, n - 1)
      case KeepOlder(older) =>
        assert older.id == n - 1;
        ChosenFromMore(previous, writes, minimum, n, c, older);
      case TakeNew => ChosenFromMore(previous, writes, minimum, n, c, NewSlot(n - 1, w));
      case DropSlot => ChosenFromMore(previous, writes, minimum, n, c, NewSlot(n - 1, w));
    } else {
      assert Chosen(previous, writes, minimum, 0) == [];
    }
  }

  lemma DroppedIsAbsent(previous: Option<Manifest>, writes: seq<SlotWrite>, minimum: nat, n: nat, id: nat)
    requires id < n <= |writes| && AllGood(writes, n) && ChoiceAt(previous, writes[id], minimum, id).DropSlot?
    ensures forall j :: 0 <= j < |Chosen(previous, writes, minimum, n)| ==> Chosen(previous, writes, minimum, n)[j].id != id
  {
    hide Chosen, ChoiceAt, GoodWrite;
    ChosenById(previous, writes, minimum, n);
  }

  /** With a single slot a commit always keeps it: what is committed is new, and no shorter. */
  lemma SingleSlotKeeps(previous: Manifest, instanceId: string, fp: string, writes: seq<SlotWrite>, minimum: nat, m: Manifest)
    requires ValidManifest(previous, instanceId, fp) && previous.slotCount == 1 && |writes| == 1 && AllGood(writes, 1)
    requires Chosen(Some(previous), writes, minimum, 1) != [] && m.slots == Chosen(Some(previous), writes, minimum, 1)
    ensures KeepsAll(previous, m)
  {
    assert Chosen(Some(previous), writes, minimum, 0) == [];
    forall i | 0 <= i < |previous.slots| ensures KeepsSlot(previous.slots[i], m) {
      FindSlotIs(previous, instanceId, fp, previous.slots[i]);
      assert previous.slots[i].id == 0 && m.slots[0].id == 0;
    }
  }

  /** A save of good answers that commits a manifest without slot `s`, or with fewer tokens in it. */
  ghost predicate LosesSlot(instanceId: string, req: SaveRequest, previous: Manifest, writes: seq<SlotWrite>, s: SlotManifest) {
    && |writes| == req.count && AllGood(writes, |writes|) && AnyNew(Some(previous), writes, req.minimum, |writes|)
    && !KeepsSlot(s, ManifestFor(instanceId, req, Chosen(Some(previous), writes, req.minimum, |writes|)))
  }

  function WriteOf(tokens: nat): (w: SlotWrite)
    ensures GoodWrite(w)
  {
    SlotWrite(true, Some([0]), Some(SaveCounts(true, tokens, 1)))
  }

  /** Answers under which slot `s` is lost: it comes back as short as it was, every other slot longer than needed. */
  function LosingWrites(previous: Manifest, minimum: nat, s: SlotManifest): (writes: seq<SlotWrite>)
    ensures |writes| == previous.slotCount && forall i :: 0 <= i < |writes| ==> GoodWrite(writes[i])
  {
    seq(previous.slotCount, i requires 0 <= i < previous.slotCount =>
      WriteOf(if i == s.id then s.promptTokens
              else var older := OlderSlot(Some(previous), i); 1 + minimum + if older.Some? then older.value.promptTokens else 0))
  }

  lemma LosingWritesLose(instanceId: string, req: SaveRequest, previous: Manifest, s: SlotManifest)
    requires ValidManifest(previous, instanceId, req.fp.digest) && s in previous.slots && previous.slotCount == req.count
    requires s.promptTokens < req.minimum && req.count > 1
    ensures LosesSlot(instanceId, req, previous, LosingWrites(previous, req.minimum, s), s)
  {
    var writes := LosingWrites(previous, req.minimum, s);
    FindSlotIs(previous, instanceId, req.fp.digest, s);
    ForcedChoices(previous, req.minimum, s);
    hide Chosen, ChoiceAt, LosingWrites, ValidManifest, GoodWrite, FindSlot;
    assert AnyNew(Some(previous), writes, req.minimum, |writes|);
    DroppedIsAbsent(Some(previous), writes, req.minimum, |writes|, s.id);
  }

  lemma ForcedChoices(previous: Manifest, minimum: nat, s: SlotManifest)
    requires FindSlot(previous.slots, s.id) == Some(s) && s.promptTokens < minimum && s.id < previous.slotCount && previous.slotCount > 1
    ensures var writes := LosingWrites(previous, minimum, s);
            && ChoiceAt(Some(previous), writes[s.id], minimum, s.id).DropSlot?
            && var other := if s.id == 0 then 1 else 0; ChoiceAt(Some(previous), writes[other], minimum, other).TakeNew?
  {
    hide FindSlot;
  }

  /**
   Exactly when a save can lose a saved slot: its prefix is shorter than the minimum now in force, and
   some other slot can make the save commit.
   */
  lemma SlotCanBeLostIff(instanceId: string, req: SaveRequest, previous: Manifest, s: SlotManifest)
    requires ValidManifest(previous, instanceId, req.fp.digest) && s in previous.slots && previous.slotCount == req.count
    ensures (exists writes :: LosesSlot(instanceId, req, previous, writes, s)) <==> s.promptTokens < req.minimum && previous.slotCount > 1
  {
    if s.promptTokens < req.minimum && previous.slotCount > 1 { LosingWritesLose(instanceId, req, previous, s); }
    if writes :| LosesSlot(instanceId, req, previous, writes, s) {
      var m := ManifestFor(instanceId, req, Chosen(Some(previous), writes, req.minimum, |writes|));
      NewIsChosen(Some(previous), writes, req.minimum, |writes|);
      SlotIn(previous, s);
      hide Chosen, GoodWrite, LosingWrites;
      if s.promptTokens >= req.minimum {
        FindSlotIs(previous, instanceId, req.fp.digest, s);
        var j := ChosenKeepsSlot(previous, writes, req.minimum, |writes|, s);
      } else if previous.slotCount == 1 {
        SingleSlotKeeps(previous, instanceId, req.fp.digest, writes, req.minimum, m);
      }
    }
  }

  lemma SlotIn(m: Manifest, s: SlotManifest)
    requires s in m.slots
    ensures exists i :: 0 <= i < |m.slots| && m.slots[i] == s
  {
  }

  function BuildManifest(instanceId: string, fp: FingerprintId, generationId: Uuid, createdAt: nat, slots: seq<SlotManifest>, count: nat)
    : Manifest
  {
    Manifest(if count > 1 then 2 else 1, STATE_FORMAT, generationId, instanceId, fp, createdAt, slots, count)
  }

  /** The manifest a save builds always validates, and builds on what was stored. */
  lemma BuiltManifestIsGood(instanceId: string, fp: FingerprintId, generationId: Uuid, createdAt: nat, count: nat,
                            previous: Option<Manifest>, writes: seq<SlotWrite>, minimum: nat)
    requires fp.wellFormed && count in {1, 2, 4} && |writes| == count && forall i :: 0 <= i < count ==> GoodWrite(writes[i])
    requires previous.Some? ==> ValidManifest(previous.value, instanceId, fp.digest) && previous.value.slotCount == count
    requires Chosen(previous, writes, minimum, count) != []
    ensures var m := BuildManifest(instanceId, fp, generationId, createdAt, Chosen(previous, writes, minimum, count), count);
            && ValidManifest(m, instanceId, fp.digest)
            && (previous.Some? && MeetsMinimum(previous.value, minimum) ==> KeepsAll(previous.value, m))
            && ((previous.Some? ==> MeetsMinimum(previous.value, minimum)) ==> MeetsMinimum(m, minimum))
  {
    ChosenSlotsValid(previous, writes, minimum, count, count, instanceId, fp.digest);
    var c := Chosen(previous, writes, minimum, count);
    var m := BuildManifest(instanceId, fp, generationId, createdAt, c, count);
    if previous.Some? ==> MeetsMinimum(previous.value, minimum) {
      ChosenMeetsMinimum(previous, writes, minimum, count);
      if previous.Some? {
        forall i | 0 <= i < |previous.value.slots|
          ensures KeepsSlot(previous.value.slots[i], m)
        {
          FindSlotIs(previous.value, instanceId, fp.digest, previous.value.slots[i]);
          var j := ChosenKeepsSlot(previous.value, writes, minimum, count, previous.value.slots[i]);
        }
      }
    }
  }

  datatype SaveError = LoadFailed | TopologyChanged | SlotFailed | Busy | BelowThreshold | LongerRetained
                     | CommitFailed | CleanupFailed

  /** Scratch is as it was, apart from files this operation created. */
  predicate ScratchExtends(a: map<ScratchPath, Bytes>, b: map<ScratchPath, Bytes>, names: seq<ScratchPath>) {
    && (forall p :: p in a ==> p in b && b[p] == a[p])
    && (forall p :: p in b ==> p in a || p in names)
  }

  /** The new payload files, one per chosen slot and all different. */
  predicate Gathered(scratch: map<ScratchPath, Bytes>, slots: seq<SlotManifest>, payloads: seq<ScratchPath>, names: seq<ScratchPath>, used: nat)
    requires used <= |names|
  {
    && |payloads| == |slots| && DistinctPaths(payloads)
    && (forall i :: 0 <= i < |payloads| ==> payloads[i] in names[..used] && SourceMatches(scratch, payloads[i], slots[i]))
  }

  method RemoveScratch(store: CheckpointStore, path: ScratchPath) returns (ok: bool)
    modifies store
    ensures store.disk == old(store.disk).(scratch := store.disk.scratch)
    ensures store.disk.scratch == old(store.disk.scratch) || store.disk.scratch == old(store.disk.scratch) - {path}
    ensures old(store.Reliable()) ==> ok && store.Reliable() && store.disk.scratch == old(store.disk.scratch) - {path}
  {
    var happens, done := store.Attempt();
    if happens { store.disk := store.disk.(scratch := store.disk.scratch - {path}); }
    return done;
  }

  /** `copy_slot_to_scratch` of a slot that belongs to a loaded generation. */
  method CopySlot(store: CheckpointStore, fp: string, m: Manifest, s: SlotManifest, path: ScratchPath) returns (ok: bool)
    requires Intact(DirOf(store.disk, fp), m) && s in m.slots && s.bytes > 0
    modifies store
    ensures store.disk == old(store.disk).(scratch := store.disk.scratch)
    ensures forall p :: p != path ==> (p in store.disk.scratch <==> p in old(store.disk.scratch))
    ensures forall p :: p != path && p in store.disk.scratch ==> store.disk.scratch[p] == old(store.disk.scratch)[p]
    ensures ok ==> SourceMatches(store.disk.scratch, path, s)
    ensures old(store.Reliable()) ==> ok && store.Reliable()
  {
    var i :| 0 <= i < |m.slots| && m.slots[i] == s;
    assert PayloadMatches(DirOf(store.disk, fp).generations[m.generationId].payloads, m.slots[i]);
    var payload := DirOf(store.disk, fp).generations[m.generationId].payloads[s.filename];
    var happens, done := store.Attempt();
    if happens { store.disk := store.disk.(scratch := store.disk.scratch[path := payload]); }
    if !done { var _ := RemoveScratch(store, path); }
    return done;
  }

  /** What saving slot `id` contributes to the manifest. */
  predicate SlotOutcome(previous: Option<Manifest>, w: SlotWrite, minimum: nat, id: nat, names: seq<ScratchPath>,
                        scratch: map<ScratchPath, Bytes>, taken: Option<(SlotManifest, ScratchPath)>, updated: bool)
    requires 2 * id + 1 < |names|
  {
    && GoodWrite(w)
    && (match ChoiceAt(previous, w, minimum, id)
        case KeepOlder(older) => taken == Some((older, names[2 * id + 1])) && !updated
        case TakeNew => taken == Some((NewSlot(id, w), names[2 * id])) && updated
        case DropSlot => taken == None && !updated)
    && (taken.Some? ==> SourceMatches(scratch, taken.value.1, taken.value.0))
  }

  /** Saves one slot into scratch and decides what the new manifest takes for it. */
  method SaveOneSlot(store: CheckpointStore, fp: string, previous: Option<Manifest>, minimum: nat, id: nat, w: SlotWrite,
                     names: seq<ScratchPath>)
    returns (ok: bool, taken: Option<(SlotManifest, ScratchPath)>, updated: bool)
    requires 2 * id + 1 < |names| && DistinctPaths(names)
    requires previous.Some? ==> Intact(DirOf(store.disk, fp), previous.value)
                                && forall s :: s in previous.value.slots ==> s.bytes > 0
    requires names[2 * id] !in store.disk.scratch && names[2 * id + 1] !in store.disk.scratch
    modifies store
    ensures store.disk == old(store.disk).(scratch := store.disk.scratch)
    ensures ScratchExtends(old(store.disk.scratch), store.disk.scratch, [names[2 * id], names[2 * id + 1]])
    ensures ok ==> w.idle && SlotOutcome(previous, w, minimum, id, names, store.disk.scratch, taken, updated)
    ensures old(store.Reliable()) ==> store.Reliable() && (ok <==> GoodWrite(w))
  {
    ok, taken, updated := false, None, false;
    var path, retained := names[2 * id], names[2 * id + 1];
    assert path != retained;
    ghost var scratch0 := store.disk.scratch;
    if !w.idle { return; }
    if w.file.Some? { store.disk := store.disk.(scratch := store.disk.scratch[path := w.file.value]); }
    if w.reply.None? || !w.reply.value.matchesRequest || w.reply.value.nWritten == 0 { return; }
    if w.file.None? || |w.file.value| != w.reply.value.nWritten { return; }
    var choice := ChoiceAt(previous, w, minimum, id);
    match choice {
      case KeepOlder(older) =>
        var removed := RemoveScratch(store, path);
        if !removed { return; }
        var copied := CopySlot(store, fp, previous.value, older, retained);
        if !copied { return; }
        return true, Some((older, retained)), false;
      case TakeNew =>
        return true, Some((NewSlot(id, w), path)), true;
      case DropSlot =>
        var removed := RemoveScratch(store, path);
        return removed, None, false;
    }
  }

  predicate AllGood(writes: seq<SlotWrite>, n: nat)
    requires n <= |writes|
  {
    forall i :: 0 <= i < n ==> GoodWrite(writes[i])
  }

  /** Some slot takes its newly saved state. */
  predicate AnyNew(previous: Option<Manifest>, writes: seq<SlotWrite>, minimum: nat, n: nat)
    requires n <= |writes| && AllGood(writes, n)
  {
    exists i :: 0 <= i < n && ChoiceAt(previous, writes[i], minimum, i).TakeNew?
  }

  lemma {:induction false} NewIsChosen(previous: Option<Manifest>, writes: seq<SlotWrite>, minimum: nat, n: nat)
    requires n <= |writes| && AllGood(writes, n) && AnyNew(previous, writes, minimum, n)
    ensures Chosen(previous, writes, minimum, n) != []
  {
    if !ChoiceAt(previous, writes[n - 1], minimum, n - 1).TakeNew? {
      NewIsChosen(previous, writes, minimum, n - 1);
    }
  }

  lemma GatherMore(a: map<ScratchPath, Bytes>, b: map<ScratchPath, Bytes>, slots: seq<SlotManifest>, payloads: seq<ScratchPath>,
                   names: seq<ScratchPath>, used: nat, s: SlotManifest, path: ScratchPath)
    requires used + 2 <= |names| && DistinctPaths(names) && Gathered(a, slots, payloads, names, used)
    requires ScratchExtends(a, b, [names[used], names[used + 1]])
    requires path == names[used] || path == names[used + 1]
    ensures Gathered(b, slots, payloads, names, used + 2)
    ensures SourceMatches(b, path, s) ==> Gathered(b, slots + [s], payloads + [path], names, used + 2)
  {
    assert forall p :: p in names[..used] ==> p in names[..used + 2];
    assert names[..used + 2][used] == names[used] && names[..used + 2][used + 1] == names[used + 1];
    forall i | 0 <= i < |payloads|
      ensures payloads[i] != path
    {
      assert payloads[i] in names[..used];
    }
  }

  /** The loop over the slots after the first `id` of them. */
  predicate Collecting(scratch0: map<ScratchPath, Bytes>, scratch: map<ScratchPath, Bytes>, previous: Option<Manifest>,
                       writes: seq<SlotWrite>, minimum: nat, names: seq<ScratchPath>, id: nat,
                       slots: seq<SlotManifest>, payloads: seq<ScratchPath>, updated: bool)
    requires id <= |writes| && |names| == 2 * |writes|
  {
    && ScratchExtends(scratch0, scratch, names[..2 * id])
    && AllGood(writes, id) && slots == Chosen(previous, writes, minimum, id)
    && Gathered(scratch, slots, payloads, names, 2 * id)
    && (updated <==> AnyNew(previous, writes, minimum, id))
  }

  /** What slot `id` adds to the slots chosen before it. */
  lemma ChosenOneMore(previous: Option<Manifest>, writes: seq<SlotWrite>, minimum: nat, id: nat, names: seq<ScratchPath>,
                      scratch: map<ScratchPath, Bytes>, taken: Option<(SlotManifest, ScratchPath)>, added: bool)
    requires id < |writes| && |names| == 2 * |writes| && AllGood(writes, id)
    requires SlotOutcome(previous, writes[id], minimum, id, names, scratch, taken, added)
    ensures AllGood(writes, id + 1)
    ensures Chosen(previous, writes, minimum, id + 1) ==
            if taken.Some? then Chosen(previous, writes, minimum, id) + [taken.value.0] else Chosen(previous, writes, minimum, id)
    ensures AnyNew(previous, writes, minimum, id + 1) <==> AnyNew(previous, writes, minimum, id) || added
    ensures taken.Some? ==> SourceMatches(scratch, taken.value.1, taken.value.0)
    ensures taken.Some? ==> taken.value.1 == names[2 * id] || taken.value.1 == names[2 * id + 1]
  {
    hide SourceMatches, GoodWrite;
    assert added <==> ChoiceAt(previous, writes[id], minimum, id).TakeNew?;
    hide Choose;
  }

  lemma CollectStep(scratch0: map<ScratchPath, Bytes>, scratch: map<ScratchPath, Bytes>, scratch1: map<ScratchPath, Bytes>,
                    previous: Option<Manifest>, writes: seq<SlotWrite>, minimum: nat, names: seq<ScratchPath>, id: nat,
                    slots: seq<SlotManifest>, payloads: seq<ScratchPath>, updated: bool,
                    taken: Option<(SlotManifest, ScratchPath)>, added: bool)
    requires id < |writes| && |names| == 2 * |writes| && DistinctPaths(names)
    requires Collecting(scratch0, scratch, previous, writes, minimum, names, id, slots, payloads, updated)
    requires ScratchExtends(scratch, scratch1, [names[2 * id], names[2 * id + 1]])
    requires SlotOutcome(previous, writes[id], minimum, id, names, scratch1, taken, added)
    ensures Collecting(scratch0, scratch1, previous, writes, minimum, names, id + 1,
                       if taken.Some? then slots + [taken.value.0] else slots,
                       if taken.Some? then payloads + [taken.value.1] else payloads, updated || added)
  {
    hide SlotOutcome, SourceMatches, DistinctPaths, Chosen, AnyNew, GoodWrite, ScratchExtends, Gathered;
    ChosenOneMore(previous, writes, minimum, id, names, scratch1, taken, added);
    ExtendsMore(scratch0, scratch, scratch1, names, 2 * id);
    assert 2 * id + 2 == 2 * (id + 1);
    if taken.Some? {
      GatherMore(scratch, scratch1, slots, payloads, names, 2 * id, taken.value.0, taken.value.1);
    } else {
      GatherMore(scratch, scratch1, slots, payloads, names, 2 * id, SlotManifest(0, "", 0, 0, Sha256([])), names[2 * id]);
    }
  }

  /** The save requests that have been sent: one per slot, each to an idle slot set, none after a bad answer. */
  predicate SentSoFar(writes: seq<SlotWrite>, sent: nat) {
    sent <= |writes| && (forall i :: 0 <= i < sent ==> writes[i].idle) && (forall i :: 0 <= i < sent - 1 ==> GoodWrite(writes[i]))
  }

  lemma CountSent(writes: seq<SlotWrite>, id: nat, sent: nat)
    requires id < |writes| && AllGood(writes, id) && sent == if writes[id].idle then id + 1 else id
    ensures SentSoFar(writes, sent)
  {
  }

  lemma NothingSent(writes: seq<SlotWrite>)
    ensures SentSoFar(writes, 0)
  {
  }

  /** The loop over the slots. */
  method CollectSlots(store: CheckpointStore, fp: string, previous: Option<Manifest>, minimum: nat, writes: seq<SlotWrite>,
                      names: seq<ScratchPath>)
    returns (ok: bool, slots: seq<SlotManifest>, payloads: seq<ScratchPath>, updated: bool, sent: nat)
    requires |names| == 2 * |writes| && DistinctPaths(names) && forall p :: p in names ==> p !in store.disk.scratch
    requires previous.Some? ==> Intact(DirOf(store.disk, fp), previous.value)
                                && forall s :: s in previous.value.slots ==> s.bytes > 0
    modifies store
    ensures store.disk == old(store.disk).(scratch := store.disk.scratch)
    ensures ScratchExtends(old(store.disk.scratch), store.disk.scratch, names)
    ensures ok ==> Collecting(old(store.disk.scratch), store.disk.scratch, previous, writes, minimum, names, |writes|, slots, payloads, updated)
    ensures SentSoFar(writes, sent) && (ok ==> sent == |writes|)
    ensures old(store.Reliable()) ==> store.Reliable() && (ok <==> AllGood(writes, |writes|))
  {
    hide Intact, Collecting, SlotOutcome, GoodWrite, SentSoFar;
    ok, slots, payloads, updated, sent := false, [], [], false, 0;
    ghost var disk0 := store.disk;
    CollectStart(disk0.scratch, previous, writes, minimum, names);
    NothingSent(writes);
    var id := 0;
    while id < |writes|
      invariant id <= |writes| && store.disk == disk0.(scratch := store.disk.scratch)
      invariant Collecting(disk0.scratch, store.disk.scratch, previous, writes, minimum, names, id, slots, payloads, updated)
      invariant sent == id && SentSoFar(writes, sent) && (old(store.Reliable()) ==> store.Reliable())
    {
      ghost var scratch := store.disk.scratch;
      CollectedNames(disk0.scratch, scratch, previous, writes, minimum, names, id, slots, payloads, updated);
      var done, taken, added := SaveOneSlot(store, fp, previous, minimum, id, writes[id], names);
      ExtendsMore(disk0.scratch, scratch, store.disk.scratch, names, 2 * id);
      sent := if writes[id].idle then id + 1 else id;
      CountSent(writes, id, sent);
      if !done { return; }
      CollectStep(disk0.scratch, scratch, store.disk.scratch, previous, writes, minimum, names, id, slots, payloads, updated, taken, added);
      if taken.Some? {
        slots, payloads := slots + [taken.value.0], payloads + [taken.value.1];
      }
      updated := updated || added;
      id := id + 1;
    }
    CollectedNames(disk0.scratch, store.disk.scratch, previous, writes, minimum, names, id, slots, payloads, updated);
    ok := true;
  }

  lemma CollectStart(scratch: map<ScratchPath, Bytes>, previous: Option<Manifest>, writes: seq<SlotWrite>, minimum: nat, names: seq<ScratchPath>)
    requires |names| == 2 * |writes|
    ensures Collecting(scratch, scratch, previous, writes, minimum, names, 0, [], [], false)
  {
  }

  /** The files so far are ours, the names ahead are unused. */
  lemma CollectedNames(scratch0: map<ScratchPath, Bytes>, scratch: map<ScratchPath, Bytes>, previous: Option<Manifest>,
                       writes: seq<SlotWrite>, minimum: nat, names: seq<ScratchPath>, id: nat,
                       slots: seq<SlotManifest>, payloads: seq<ScratchPath>, updated: bool)
    requires id <= |writes| && |names| == 2 * |writes| && DistinctPaths(names) && forall p :: p in names ==> p !in scratch0
    requires Collecting(scratch0, scratch, previous, writes, minimum, names, id, slots, payloads, updated)
    ensures forall k :: 2 * id <= k < |names| ==> names[k] !in scratch
    ensures ScratchExtends(scratch0, scratch, names[..2 * id]) && AllGood(writes, id) && (id == |writes| ==> names[..2 * id] == names)
  {
    forall k | 2 * id <= k < |names| ensures names[k] !in scratch {
      assert names[k] !in names[..2 * id];
    }
  }

  lemma ExtendsMore(a: map<ScratchPath, Bytes>, b: map<ScratchPath, Bytes>, c: map<ScratchPath, Bytes>, names: seq<ScratchPath>, used: nat)
    requires used + 2 <= |names| && ScratchExtends(a, b, names[..used]) && ScratchExtends(b, c, [names[used], names[used + 1]])
    ensures ScratchExtends(a, c, names[..used + 2]) && ScratchExtends(a, c, names)
  {
    assert names[..used + 2] == names[..used] + [names[used], names[used + 1]];
  }

  /** Removes every scratch file of the operation. */
  method CleanUp(store: CheckpointStore, names: seq<ScratchPath>, ghost scratch0: map<ScratchPath, Bytes>) returns (ok: bool)
    requires forall p :: p in names ==> p !in scratch0
    requires OnlyNamesDiffer(scratch0, store.disk.scratch, names)
    modifies store
    ensures store.disk == old(store.disk).(scratch := store.disk.scratch)
    ensures OnlyNamesDiffer(scratch0, store.disk.scratch, names)
    ensures old(store.Reliable()) ==> ok && store.Reliable() && store.disk.scratch == scratch0
  {
    ok := true;
    var i := 0;
    while i < |names|
      invariant i <= |names| && store.disk == old(store.disk).(scratch := store.disk.scratch)
      invariant OnlyNamesDiffer(scratch0, store.disk.scratch, names)
      invariant old(store.Reliable()) ==> ok && store.Reliable() && forall k :: 0 <= k < i ==> names[k] !in store.disk.scratch
    {
      var removed := RemoveScratch(store, names[i]);
      if !removed { ok := false; }
      i := i + 1;
    }
  }

  /** The two scratch areas agree outside the given names. */
  predicate OnlyNamesDiffer(a: map<ScratchPath, Bytes>, b: map<ScratchPath, Bytes>, names: seq<ScratchPath>) {
    && (forall p :: p in a && p !in names ==> p in b && b[p] == a[p])
    && (forall p :: p in b && p !in names ==> p in a)
  }

  /** What one save is asked to do; the id and the time are those of the manifest it builds. */
  datatype SaveRequest = SaveRequest(
    fp: FingerprintId, count: nat, minimum: nat, preserveLonger: bool, limit: nat,
    generationId: Uuid, createdAt: nat, manifestSize: nat)

  /** What a registered launch guarantees of a save; its fingerprint may still fail validation. */
  predicate LaunchRequest(req: SaveRequest, writes: seq<SlotWrite>, names: seq<ScratchPath>, scratch: map<ScratchPath, Bytes>) {
    && req.count in {1, 2, 4} && |writes| == req.count
    && |names| == 2 * req.count && DistinctPaths(names) && forall p :: p in names ==> p !in scratch
  }

  predicate GoodRequest(req: SaveRequest, writes: seq<SlotWrite>, names: seq<ScratchPath>, scratch: map<ScratchPath, Bytes>) {
    req.fp.wellFormed && LaunchRequest(req, writes, names, scratch)
  }

  function ManifestFor(instanceId: string, req: SaveRequest, slots: seq<SlotManifest>): Manifest {
    BuildManifest(instanceId, req.fp, req.generationId, req.createdAt, slots, req.count)
  }

  /** Room for the new generation, under an id not used before. */
  predicate Fits(d: FingerprintDir, req: SaveRequest, slots: seq<SlotManifest>) {
    && PayloadBytes(slots) + req.manifestSize <= req.limit
    && req.generationId !in d.generations && req.generationId !in d.pending
  }

  /** The slot's new state is saved: it is long enough, and nothing longer was saved before. */
  predicate TakesNew(previous: Option<Manifest>, w: SlotWrite, minimum: nat, id: nat) {
    && w.reply.Some? && w.reply.value.nSaved > 0 && w.reply.value.nSaved >= minimum
    && var older := OlderSlot(previous, id); older.Some? ==> older.value.promptTokens <= w.reply.value.nSaved
  }

  /** Something longer was saved before. */
  predicate Outlived(previous: Option<Manifest>, w: SlotWrite, id: nat) {
    w.reply.Some? && var older := OlderSlot(previous, id); older.Some? && older.value.promptTokens > w.reply.value.nSaved
  }

  predicate SomeNew(previous: Option<Manifest>, writes: seq<SlotWrite>, minimum: nat) {
    exists i :: 0 <= i < |writes| && TakesNew(previous, writes[i], minimum, i)
  }

  predicate SomeOutlived(previous: Option<Manifest>, writes: seq<SlotWrite>) {
    exists i :: 0 <= i < |writes| && Outlived(previous, writes[i], i)
  }

  lemma NewMeans(previous: Option<Manifest>, writes: seq<SlotWrite>, minimum: nat)
    requires AllGood(writes, |writes|)
    ensures AnyNew(previous, writes, minimum, |writes|) <==> SomeNew(previous, writes, minimum)
  {
    forall i | 0 <= i < |writes|
      ensures ChoiceAt(previous, writes[i], minimum, i).TakeNew? <==> TakesNew(previous, writes[i], minimum, i)
    {
      assert GoodWrite(writes[i]);
    }
    hide ChoiceAt, TakesNew, GoodWrite;
  }

  /** With nothing new the manifest is empty exactly if nothing longer was saved before either. */
  lemma {:induction false} EmptyMeans(previous: Option<Manifest>, writes: seq<SlotWrite>, minimum: nat, n: nat)
    requires n <= |writes| && AllGood(writes, n)
    ensures Chosen(previous, writes, minimum, n) == [] <==>
            forall i :: 0 <= i < n ==> !TakesNew(previous, writes[i], minimum, i) && !Outlived(previous, writes[i], i)
  {
    if n > 0 {
      EmptyMeans(previous, writes, minimum, n - 1);
      assert GoodWrite(writes[n - 1]);
      assert ChoiceAt(previous, writes[n - 1], minimum, n - 1).DropSlot? <==>
             !TakesNew(previous, writes[n - 1], minimum, n - 1) && !Outlived(previous, writes[n - 1], n - 1);
      hide TakesNew, Outlived, GoodWrite;
    }
  }

  /** Every answer names its request and the file has the announced, nonzero size, with the slots idle each time. */
  predicate Answered(w: SlotWrite) {
    && w.idle && w.reply.Some? && w.reply.value.matchesRequest && w.file.Some?
    && |w.file.value| > 0 && w.reply.value.nWritten == |w.file.value|
  }

  /** What a save's ending says about what it met, whatever else failed. */
  ghost predicate Explains(req: SaveRequest, loaded: Result<Option<Manifest>, LoadError>, writes: seq<SlotWrite>, finalIdle: bool,
                           r: Result<Manifest, SaveError>, effect: SaveEffect)
  {
    // nothing reaches the disk unless every slot answered, all were idle at the end, and something is new
    && (!effect.NoCommit? ==>
          && loaded.Ok? && finalIdle && SomeNew(loaded.value, writes, req.minimum)
          && forall i :: 0 <= i < |writes| ==>
               && writes[i].idle && writes[i].reply.Some? && writes[i].reply.value.matchesRequest && writes[i].file.Some?
               && |writes[i].file.value| > 0 && writes[i].reply.value.nWritten == |writes[i].file.value|)
    && (!effect.NoCommit? ==>
          && PayloadBytes(effect.m.slots) + req.manifestSize <= req.limit)
    && (r == Err(LoadFailed) ==> loaded.Err?)
    && (r == Err(TopologyChanged) ==> loaded.Ok? && loaded.value.Some? && loaded.value.value.slotCount != req.count)
    && (r == Err(Busy) ==> !finalIdle)
    && (r == Err(BelowThreshold) ==>
          finalIdle && loaded.Ok? && !SomeNew(loaded.value, writes, req.minimum) && !SomeOutlived(loaded.value, writes))
    && (r == Err(LongerRetained) ==>
          finalIdle && loaded.Ok? && !SomeNew(loaded.value, writes, req.minimum) && SomeOutlived(loaded.value, writes))
    && (r == Err(CommitFailed) ==> finalIdle && loaded.Ok? && SomeNew(loaded.value, writes, req.minimum))
  }

  /** How far commit and prune got, seen in the directory they worked on. */
  ghost predicate Advanced(instanceId: string, fp: string, before: FingerprintDir, after: FingerprintDir, effect: SaveEffect) {
    match effect
    case NoCommit => after == before
    case Interrupted(m, middle, published) => CommitOutcome(before, middle, m, published) && after == middle
    case Finished(m, middle) =>
      CommitOutcome(before, middle, m, true) && DirSafe(instanceId, fp, middle, after, iset{Key(fp, m.generationId)})
  }

  /** What a save does to the directories of other states: nothing, unless it came to prune the instance as `middle`. */
  ghost predicate OthersSafe(instanceId: string, fp: string, before: Instance, middle: Instance, after: Instance, effect: SaveEffect, limit: nat) {
    forall f :: f != fp ==>
      if effect.Finished?
      then DirOf(middle, f) == DirOf(before, f)
           && ForeignPrune(instanceId, f, middle, DirOf(after, f), limit, {Key(fp, effect.m.generationId)})
      else DirOf(after, f) == DirOf(before, f)
  }

  lemma OthersAreSame(instanceId: string, fp: string, before: Instance, after: Instance, effect: SaveEffect, limit: nat)
    requires !effect.Finished? && (after == before || OnlyDirChanged(before, after, fp))
    ensures OthersSafe(instanceId, fp, before, after, after, effect, limit)
  {
    hide ForeignPrune;
  }

  lemma OthersArePruned(instanceId: string, fp: string, before: Instance, middle: Instance, after: Instance, m: Manifest, limit: nat)
    requires before == middle || OnlyDirChanged(before, middle, fp)
    requires PruneSafe(instanceId, middle, after, Spared(AllRecords(instanceId, middle), limit, {Key(fp, m.generationId)}))
    ensures OthersSafe(instanceId, fp, before, middle, after, Finished(m, DirOf(middle, fp)), limit)
  {
    hide Spared, AllRecords, Reconciled, Loadable;
    forall f | f != fp
      ensures DirOf(middle, f) == DirOf(before, f)
      ensures ForeignPrune(instanceId, f, middle, DirOf(after, f), limit, {Key(fp, m.generationId)})
    {
    }
  }

  lemma OwnIsSpared(instanceId: string, fp: string, middle: Instance, after: Instance, m: Manifest, limit: nat)
    requires fp in middle.fingerprints
    requires PruneSafe(instanceId, middle, after, Spared(AllRecords(instanceId, middle), limit, {Key(fp, m.generationId)}))
    ensures DirSafe(instanceId, fp, DirOf(middle, fp), DirOf(after, fp), iset{Key(fp, m.generationId)})
  {
    hide AllRecords, DirSafe, Crowded;
    DirSafeForFewer(instanceId, fp, middle.fingerprints[fp], after.fingerprints[fp],
                    Spared(AllRecords(instanceId, middle), limit, {Key(fp, m.generationId)}), iset{Key(fp, m.generationId)});
  }

  method CommitAndPrune(store: CheckpointStore, m: Manifest, manifestSize: nat, payloads: seq<ScratchPath>, limit: nat, now: nat)
    returns (ok: bool, ghost effect: SaveEffect, ghost middle: Instance)
    modifies store
    ensures var fp := m.fingerprint.digest;
            && Advanced(store.instanceId, fp, old(DirOf(store.disk, fp)), DirOf(store.disk, fp), effect)
            && OthersSafe(store.instanceId, fp, old(store.disk), middle, store.disk, effect, limit)
    ensures effect.NoCommit? || (effect.m == m && PayloadBytes(m.slots) + manifestSize <= limit)
    ensures ok ==> effect.Finished?
    ensures OnlyRemoved(old(store.disk.scratch), store.disk.scratch, payloads)
    ensures old(store.Reliable()) ==>
              && store.Reliable()
              && (ok <==> CommitAccepted(store.instanceId, old(store.disk), m, manifestSize, payloads, limit))
  {
    hide PayloadBytes, CommitOutcome, CommitAccepted, OnlyDirChanged, OnlyRemoved, DirSafe, OthersSafe, Spared, AllRecords, PruneSafe;
    var fp := m.fingerprint.digest;
    ghost var disk0, before := store.disk, DirOf(store.disk, fp);
    ghost var accepted := CommitAccepted(store.instanceId, store.disk, m, manifestSize, payloads, limit);
    if accepted { AcceptedMeans(store.instanceId, store.disk, m, manifestSize, payloads, limit); }
    var committed, published := store.Commit(m, manifestSize, payloads, limit, now);
    middle := store.disk;
    if committed.Err? {
      effect := if accepted then Interrupted(m, DirOf(middle, fp), published) else NoCommit;
      OthersAreSame(store.instanceId, fp, disk0, middle, effect, limit);
      ok := false;
      return;
    }
    PublishedIsPresent(before, store.disk, m);
    var pruned, _, _, _, _, _, _ := store.Prune(limit, {Key(fp, m.generationId)});
    ok := pruned;
    effect := Finished(m, DirOf(middle, fp));
    OwnIsSpared(store.instanceId, fp, middle, store.disk, m, limit);
    OthersArePruned(store.instanceId, fp, disk0, middle, store.disk, m, limit);
    PruneKeepsScratch(store.instanceId, middle, store.disk, Spared(AllRecords(store.instanceId, middle), limit, {Key(fp, m.generationId)}));
  }

  lemma PruneKeepsScratch(instanceId: string, a: Instance, b: Instance, spared: iset<Key>)
    requires PruneSafe(instanceId, a, b, spared)
    ensures b.scratch == a.scratch
  {
  }

  lemma PublishedIsPresent(before: FingerprintDir, disk: Instance, m: Manifest)
    requires CommitOutcome(before, DirOf(disk, m.fingerprint.digest), m, true)
    ensures m.fingerprint.digest in disk.fingerprints
  {
  }

  /** Once committed and pruned, the new generation is the only one that loading can return. */
  lemma FinishedLoads(instanceId: string, fp: string, before: FingerprintDir, after: FingerprintDir, effect: SaveEffect)
    requires effect.Finished? && Advanced(instanceId, fp, before, after, effect)
    requires ValidManifest(effect.m, instanceId, fp) && AllBefore(instanceId, fp, before, effect.m.createdAt)
    ensures forall r :: LatestIs(instanceId, fp, after, r) <==> r == Ok(Some(effect.m))
    ensures Intact(after, effect.m)
  {
    hide LoadGeneration, DirSafe, GenerationsSafe, AllBefore;
    PublishedLoads(instanceId, fp, before, effect.middle, effect.m);
    SafeGenerations(instanceId, fp, effect.middle, after, iset{Key(fp, effect.m.generationId)});
    OlderThanNew(instanceId, fp, before, effect.middle, after, iset{Key(fp, effect.m.generationId)}, effect.m);
    PruneKeepsNewest(instanceId, fp, effect.middle, after, effect.m);
    LoadedIsIntact(instanceId, fp, after, Ok(Some(effect.m)));
  }

  lemma SafeGenerations(instanceId: string, fp: string, before: FingerprintDir, after: FingerprintDir, spared: iset<Key>)
    requires DirSafe(instanceId, fp, before, after, spared)
    ensures GenerationsSafe(instanceId, fp, before, after, spared)
  {
  }

  /** `preserve_longer`: what is already stored; nothing is looked up without it. */
  method LoadPrevious(store: CheckpointStore, fp: string, preserveLonger: bool, now: nat) returns (loaded: Result<Option<Manifest>, LoadError>)
    modifies store
    ensures store.disk == old(store.disk).(usage := store.disk.usage)
    ensures preserveLonger ==> LatestIs(store.instanceId, fp, DirOf(store.disk, fp), loaded)
    ensures !preserveLonger ==> loaded == Ok(None)
    ensures loaded.Ok? && loaded.value.Some? ==>
              && Intact(DirOf(store.disk, fp), loaded.value.value) && ValidManifest(loaded.value.value, store.instanceId, fp)
              && forall s :: s in loaded.value.value.slots ==> s.bytes > 0
    ensures old(store.Reliable()) ==> store.Reliable()
  {
    loaded := Ok(None);
    if preserveLonger {
      loaded := store.LoadLatest(fp, now);
      if loaded.Ok? && loaded.value.Some? {
        LoadedIsIntact(store.instanceId, fp, DirOf(store.disk, fp), loaded);
      }
    }
  }

  /** Everything a save promises about its result and the disk, whatever fails. */
  ghost predicate Saved(instanceId: string, before: Instance, after: Instance, req: SaveRequest, writes: seq<SlotWrite>, names: seq<ScratchPath>,
                        r: Result<Manifest, SaveError>, effect: SaveEffect, loaded: Result<Option<Manifest>, LoadError>, middle: Instance)
  {
    var fp := req.fp.digest;
    // it builds on what is stored, unless it was told not to look
    && (if req.preserveLonger then LatestIs(instanceId, fp, DirOf(before, fp), loaded) else loaded == Ok(None))
    && Advanced(instanceId, fp, DirOf(before, fp), DirOf(after, fp), effect)
    && OthersSafe(instanceId, fp, before, middle, after, effect, req.limit)
    && (!effect.NoCommit? ==>
          && loaded.Ok? && AllGood(writes, |writes|) && Chosen(loaded.value, writes, req.minimum, |writes|) != []
          && effect.m == ManifestFor(instanceId, req, Chosen(loaded.value, writes, req.minimum, |writes|))
          && effect.m.slots == Chosen(loaded.value, writes, req.minimum, |writes|) && effect.m.slotCount == req.count
          && effect.m.generationId == req.generationId && effect.m.createdAt == req.createdAt
          && effect.m.fingerprint == req.fp && effect.m.instanceId == instanceId
          && (loaded.value.Some? ==> loaded.value.value.slotCount == req.count && ValidManifest(loaded.value.value, instanceId, fp)))
    && (r.Ok? ==> effect.Finished? && r.value == effect.m)
    && OnlyNamesDiffer(before.scratch, after.scratch, names)
  }

  /** What a save that meets no fault returns: each ending has its own condition. */
  ghost predicate Determined(d: FingerprintDir, req: SaveRequest, loaded: Result<Option<Manifest>, LoadError>, writes: seq<SlotWrite>,
                             finalIdle: bool, r: Result<Manifest, SaveError>)
  {
    var same := loaded.Ok? && (loaded.value.Some? ==> loaded.value.value.slotCount == req.count);
    var answered := forall i :: 0 <= i < |writes| ==> Answered(writes[i]);
    var quiet := same && answered && finalIdle;
    var updated := quiet && AllGood(writes, |writes|) && SomeNew(loaded.value, writes, req.minimum);
    var room := updated && PayloadBytes(Chosen(loaded.value, writes, req.minimum, |writes|)) + req.manifestSize <= req.limit;
    var unused := req.generationId !in d.generations && req.generationId !in d.pending;
    && (r == Err(LoadFailed) <==> loaded.Err?)
    && (r == Err(TopologyChanged) <==> loaded.Ok? && !same)
    && (r == Err(SlotFailed) <==> same && !answered)
    && (r == Err(Busy) <==> same && answered && !finalIdle)
    && (r == Err(BelowThreshold) <==> quiet && !SomeNew(loaded.value, writes, req.minimum) && !SomeOutlived(loaded.value, writes))
    && (r == Err(LongerRetained) <==> quiet && !SomeNew(loaded.value, writes, req.minimum) && SomeOutlived(loaded.value, writes))
    && (r.Ok? <==> room && unused)
    && (r == Err(CommitFailed) <==> updated && !(room && unused))
  }

  lemma GoodIsAnswered(writes: seq<SlotWrite>)
    ensures AllGood(writes, |writes|) <==> forall i :: 0 <= i < |writes| ==> Answered(writes[i])
    ensures AllGood(writes, |writes|) ==>
              forall i :: 0 <= i < |writes| ==>
                && writes[i].idle && writes[i].reply.Some? && writes[i].reply.value.matchesRequest && writes[i].file.Some?
                && |writes[i].file.value| > 0 && writes[i].reply.value.nWritten == |writes[i].file.value|
  {
    forall i | 0 <= i < |writes| ensures GoodWrite(writes[i]) <==> Answered(writes[i]) {
    }
  }

  lemma OutlivedMeans(previous: Option<Manifest>, writes: seq<SlotWrite>, minimum: nat)
    requires AllGood(writes, |writes|)
    ensures !SomeNew(previous, writes, minimum) ==> (Chosen(previous, writes, minimum, |writes|) == [] <==> !SomeOutlived(previous, writes))
  {
    hide Chosen, TakesNew, Outlived, GoodWrite;
    EmptyMeans(previous, writes, minimum, |writes|);
  }

  /** A save that ends before all slots have answered. */
  lemma EarlyEnding(d: FingerprintDir, req: SaveRequest, loaded: Result<Option<Manifest>, LoadError>, writes: seq<SlotWrite>,
                    finalIdle: bool, reliable: bool, r: Result<Manifest, SaveError>)
    requires if loaded.Err? then r == Err(LoadFailed)
             else if loaded.value.Some? && loaded.value.value.slotCount != req.count then r == Err(TopologyChanged)
             else r == Err(SlotFailed) && (reliable ==> !AllGood(writes, |writes|))
    ensures Explains(req, loaded, writes, finalIdle, r, NoCommit)
    ensures reliable ==> Determined(d, req, loaded, writes, finalIdle, r)
  {
    hide SomeNew, SomeOutlived, Answered, Chosen, PayloadBytes, GoodWrite;
    GoodIsAnswered(writes);
  }

  /** A save all of whose slots have answered. */
  lemma LateEnding(d: FingerprintDir, req: SaveRequest, previous: Option<Manifest>, writes: seq<SlotWrite>, finalIdle: bool,
                   reliable: bool, r: Result<Manifest, SaveError>, effect: SaveEffect)
    requires (previous.Some? ==> previous.value.slotCount == req.count) && AllGood(writes, |writes|)
    requires if !finalIdle then r == Err(Busy) && effect.NoCommit?
             else if !AnyNew(previous, writes, req.minimum, |writes|)
             then effect.NoCommit? && r == Err(if Chosen(previous, writes, req.minimum, |writes|) == [] then BelowThreshold else LongerRetained)
             else (r.Ok? || r == Err(CommitFailed)) && (reliable ==> (r.Ok? <==> Fits(d, req, Chosen(previous, writes, req.minimum, |writes|))))
    requires !effect.NoCommit? ==> PayloadBytes(effect.m.slots) + req.manifestSize <= req.limit
    ensures Explains(req, Ok(previous), writes, finalIdle, r, effect)
    ensures reliable ==> Determined(d, req, Ok(previous), writes, finalIdle, r)
  {
    hide SomeNew, SomeOutlived, Answered, AnyNew, Chosen, PayloadBytes, GoodWrite;
    GoodIsAnswered(writes);
    NewMeans(previous, writes, req.minimum);
    OutlivedMeans(previous, writes, req.minimum);
  }

  /** The save proper, from the stored generation to the pruned store. */
  method SaveAndCommit(store: CheckpointStore, req: SaveRequest, writes: seq<SlotWrite>, finalIdle: bool, names: seq<ScratchPath>, now: nat)
    returns (r: Result<Manifest, SaveError>, sent: nat, ghost effect: SaveEffect, ghost loaded: Result<Option<Manifest>, LoadError>,
             ghost middle: Instance)
    requires GoodRequest(req, writes, names, store.disk.scratch)
    modifies store
    ensures Saved(store.instanceId, old(store.disk), store.disk, req, writes, names, r, effect, loaded, middle)
    ensures SentSoFar(writes, sent) && (!effect.NoCommit? ==> sent == |writes|) && (r.Ok? ==> !effect.NoCommit?)
    ensures Explains(req, loaded, writes, finalIdle, r, effect)
    ensures old(store.Reliable()) ==>
              store.Reliable() && Determined(old(DirOf(store.disk, req.fp.digest)), req, loaded, writes, finalIdle, r)
  {
    hide PayloadBytes, Explains, Determined, Advanced, OthersSafe, LatestIs, Intact, GoodWrite, Chosen, CommitAccepted, ValidManifest, AnyNew, Collecting,
         OnlyRemoved, ScratchExtends, OnlyNamesDiffer, Fits, SentSoFar;
    var fp := req.fp.digest;
    effect := NoCommit;
    ghost var disk0 := store.disk;
    ghost var scratch0, before := store.disk.scratch, DirOf(store.disk, fp);
    ghost var reliable := store.Reliable();
    NothingSent(writes);
    NothingDiffers(scratch0, names);
    NothingAdvanced(store.instanceId, fp, before);
    var previous := LoadPrevious(store, fp, req.preserveLonger, now);
    loaded, middle, sent := previous, store.disk, 0;
    SameDirs(store.instanceId, fp, disk0, store.disk, effect, req.limit);
    if previous.Err? {
      r := Err(LoadFailed);
      EarlyEnding(before, req, loaded, writes, finalIdle, reliable, r);
      return;
    }
    if previous.value.Some? && previous.value.value.slotCount != req.count {
      r := Err(TopologyChanged);
      EarlyEnding(before, req, loaded, writes, finalIdle, reliable, r);
      return;
    }
    var collected, slots, payloads, updated;
    collected, slots, payloads, updated, sent := CollectSlots(store, fp, previous.value, req.minimum, writes, names);
    ExtendsDiffers(scratch0, store.disk.scratch, names);
    SameDirs(store.instanceId, fp, disk0, store.disk, effect, req.limit);
    middle := store.disk;
    if !collected {
      r := Err(SlotFailed);
      EarlyEnding(before, req, loaded, writes, finalIdle, reliable, r);
      return;
    }
    CollectedAll(scratch0, store.disk.scratch, previous.value, writes, req.minimum, names, slots, payloads, updated);
    if !finalIdle || !updated {
      r := Err(if !finalIdle then Busy else if slots == [] then BelowThreshold else LongerRetained);
      LateEnding(before, req, previous.value, writes, finalIdle, reliable, r, effect);
      return;
    }
    var m := ManifestFor(store.instanceId, req, slots);
    AcceptedIffFits(store.instanceId, store.disk, req, previous.value, writes, slots, payloads);
    ghost var scratch1, disk1 := store.disk.scratch, store.disk;
    var ok;
    ok, effect, middle := CommitAndPrune(store, m, req.manifestSize, payloads, req.limit, now);
    OthersFromSame(store.instanceId, fp, disk0, disk1, middle, store.disk, effect, req.limit);
    RemovedDiffers(scratch0, scratch1, store.disk.scratch, names, payloads);
    r := if ok then Ok(m) else Err(CommitFailed);
    LateEnding(before, req, previous.value, writes, finalIdle, reliable, r, effect);
  }

  lemma SameDirs(instanceId: string, fp: string, before: Instance, after: Instance, effect: SaveEffect, limit: nat)
    requires after.fingerprints == before.fingerprints && effect.NoCommit?
    ensures OthersSafe(instanceId, fp, before, after, after, effect, limit)
  {
    hide ForeignPrune;
  }

  lemma OthersFromSame(instanceId: string, fp: string, a: Instance, b: Instance, middle: Instance, after: Instance, effect: SaveEffect, limit: nat)
    requires a.fingerprints == b.fingerprints && OthersSafe(instanceId, fp, b, middle, after, effect, limit)
    ensures OthersSafe(instanceId, fp, a, middle, after, effect, limit)
  {
    hide ForeignPrune;
  }

  lemma OthersKeepScratch(instanceId: string, fp: string, before: Instance, middle: Instance, a: Instance, b: Instance, effect: SaveEffect, limit: nat)
    requires a.fingerprints == b.fingerprints && OthersSafe(instanceId, fp, before, middle, a, effect, limit)
    ensures OthersSafe(instanceId, fp, before, middle, b, effect, limit)
  {
    hide ForeignPrune;
  }

  lemma NothingDiffers(scratch: map<ScratchPath, Bytes>, names: seq<ScratchPath>)
    ensures OnlyNamesDiffer(scratch, scratch, names)
  {
  }

  lemma NothingAdvanced(instanceId: string, fp: string, d: FingerprintDir)
    ensures Advanced(instanceId, fp, d, d, NoCommit)
  {
  }

  lemma ExtendsDiffers(a: map<ScratchPath, Bytes>, b: map<ScratchPath, Bytes>, names: seq<ScratchPath>)
    requires ScratchExtends(a, b, names)
    ensures OnlyNamesDiffer(a, b, names)
  {
  }

  lemma RemovedDiffers(a: map<ScratchPath, Bytes>, b: map<ScratchPath, Bytes>, c: map<ScratchPath, Bytes>, names: seq<ScratchPath>,
                       payloads: seq<ScratchPath>)
    requires OnlyNamesDiffer(a, b, names) && OnlyRemoved(b, c, payloads) && forall p :: p in payloads ==> p in names
    ensures OnlyNamesDiffer(a, c, names)
  {
  }

  /** What the finished loop over the slots has gathered. */
  lemma CollectedAll(scratch0: map<ScratchPath, Bytes>, scratch: map<ScratchPath, Bytes>, previous: Option<Manifest>,
                     writes: seq<SlotWrite>, minimum: nat, names: seq<ScratchPath>,
                     slots: seq<SlotManifest>, payloads: seq<ScratchPath>, updated: bool)
    requires |names| == 2 * |writes|
    requires Collecting(scratch0, scratch, previous, writes, minimum, names, |writes|, slots, payloads, updated)
    ensures AllGood(writes, |writes|) && slots == Chosen(previous, writes, minimum, |writes|)
    ensures updated <==> AnyNew(previous, writes, minimum, |writes|)
    ensures updated ==> slots != []
    ensures Gathered(scratch, slots, payloads, names, |names|) && forall p :: p in payloads ==> p in names
  {
    hide Chosen, ChoiceAt, GoodWrite, SourceMatches;
    if updated { NewIsChosen(previous, writes, minimum, |writes|); }
    forall i | 0 <= i < |payloads| ensures payloads[i] in names {
      assert payloads[i] in names[..2 * |writes|];
    }
  }

  /** The commit refuses what a save hands it only for lack of room or a used id. */
  lemma AcceptedIffFits(instanceId: string, disk: Instance, req: SaveRequest, previous: Option<Manifest>, writes: seq<SlotWrite>,
                        slots: seq<SlotManifest>, payloads: seq<ScratchPath>)
    requires req.fp.wellFormed && req.count in {1, 2, 4} && |writes| == req.count && AllGood(writes, |writes|)
    requires previous.Some? ==> ValidManifest(previous.value, instanceId, req.fp.digest) && previous.value.slotCount == req.count
    requires slots == Chosen(previous, writes, req.minimum, |writes|) && slots != []
    requires |payloads| == |slots| && DistinctPaths(payloads)
    requires forall i :: 0 <= i < |payloads| ==> SourceMatches(disk.scratch, payloads[i], slots[i])
    ensures CommitAccepted(instanceId, disk, ManifestFor(instanceId, req, slots), req.manifestSize, payloads, req.limit)
            <==> Fits(DirOf(disk, req.fp.digest), req, slots)
  {
    hide Chosen, GoodWrite, SourceMatches;
    BuiltManifestIsGood(instanceId, req.fp, req.generationId, req.createdAt, req.count, previous, writes, req.minimum);
    hide ValidManifest;
  }

  /**
   The least token count a run of saves keeps to: the configured minimum if it stays the same, and
   none on a launch with a single slot, where no minimum can drop it.
   */
  predicate Floor(req: SaveRequest, floor: nat) { floor == req.minimum || (floor == 0 && req.count == 1) }

  /** With `preserve_longer`, one save is one step of a retaining run. */
  lemma SaveIsStep(instanceId: string, before: Instance, after: Instance, req: SaveRequest, writes: seq<SlotWrite>, names: seq<ScratchPath>,
                   r: Result<Manifest, SaveError>, effect: SaveEffect, loaded: Result<Option<Manifest>, LoadError>, middle: Instance,
                   floor: nat, clock: nat)
    requires req.fp.wellFormed && req.count in {1, 2, 4} && |writes| == req.count && req.preserveLonger && Floor(req, floor)
    requires Saved(instanceId, before, after, req, writes, names, r, effect, loaded, middle)
    requires Retained(instanceId, req.fp.digest, DirOf(before, req.fp.digest), floor, clock) && req.createdAt > clock
    ensures SaveStep(instanceId, req.fp.digest, DirOf(before, req.fp.digest), DirOf(after, req.fp.digest), effect,
                     if loaded.Ok? then loaded.value else None, floor, clock)
  {
    hide Chosen, GoodWrite, CommitOutcome, DirSafe, OthersSafe, OnlyNamesDiffer, NewerKeep, KeepsAll;
    if !effect.NoCommit? {
      if loaded.value.Some? {
        LoadedMeetsMinimum(instanceId, req.fp.digest, DirOf(before, req.fp.digest), loaded.value.value, floor, clock);
      }
      BuiltManifestIsGood(instanceId, req.fp, req.generationId, req.createdAt, req.count, loaded.value, writes, req.minimum);
      if floor != req.minimum && loaded.value.Some? {
        SingleSlotKeeps(loaded.value.value, instanceId, req.fp.digest, writes, req.minimum, effect.m);
      }
    }
  }

  /** What a save committed is valid, and with increasing times it is the only thing that can load next. */
  lemma SavedLoads(instanceId: string, before: Instance, after: Instance, req: SaveRequest, writes: seq<SlotWrite>, names: seq<ScratchPath>,
                   r: Result<Manifest, SaveError>, effect: SaveEffect, loaded: Result<Option<Manifest>, LoadError>, middle: Instance)
    requires req.fp.wellFormed && req.count in {1, 2, 4} && |writes| == req.count
    requires Saved(instanceId, before, after, req, writes, names, r, effect, loaded, middle)
    ensures !effect.NoCommit? ==> ValidManifest(effect.m, instanceId, req.fp.digest)
    ensures r.Ok? && AllBefore(instanceId, req.fp.digest, DirOf(before, req.fp.digest), req.createdAt) ==>
              forall l :: LatestIs(instanceId, req.fp.digest, DirOf(after, req.fp.digest), l) <==> l == Ok(Some(r.value))
  {
    hide Advanced, LatestIs, Chosen, GoodWrite, ValidManifest, AllBefore, OnlyNamesDiffer, OthersSafe;
    if !effect.NoCommit? {
      BuiltManifestIsGood(instanceId, req.fp, req.generationId, req.createdAt, req.count, loaded.value, writes, req.minimum);
      if r.Ok? && AllBefore(instanceId, req.fp.digest, DirOf(before, req.fp.digest), req.createdAt) {
        FinishedLoads(instanceId, req.fp.digest, DirOf(before, req.fp.digest), DirOf(after, req.fp.digest), effect);
      }
    }
  }

  lemma LoadedMeetsMinimum(instanceId: string, fp: string, d: FingerprintDir, m: Manifest, minimum: nat, clock: nat)
    requires Retained(instanceId, fp, d, minimum, clock) && LatestIs(instanceId, fp, d, Ok(Some(m)))
    ensures MeetsMinimum(m, minimum)
  {
    hide MeetsMinimum;
    if PointerLoads(instanceId, fp, d) {
      assert Loadable(instanceId, fp, d, d.latest.pointer.generation);
    }
  }

  /** Everything a save promises, with and without faults. */
  ghost predicate SaveResult(instanceId: string, before: Instance, after: Instance, req: SaveRequest, writes: seq<SlotWrite>, finalIdle: bool,
                             names: seq<ScratchPath>, floor: nat, clock: nat, reliable: bool, r: Result<Manifest, SaveError>,
                             effect: SaveEffect, loaded: Result<Option<Manifest>, LoadError>, middle: Instance)
  {
    var fp := req.fp.digest;
    && Saved(instanceId, before, after, req, writes, names, r, effect, loaded, middle)
    // with preserve_longer it is one step of a retaining run
    && (req.preserveLonger && Floor(req, floor) && Retained(instanceId, fp, DirOf(before, fp), floor, clock) && req.createdAt > clock ==>
          SaveStep(instanceId, fp, DirOf(before, fp), DirOf(after, fp), effect, if loaded.Ok? then loaded.value else None, floor, clock))
    // with increasing times a success is what loads next
    && (r.Ok? && AllBefore(instanceId, fp, DirOf(before, fp), req.createdAt) ==>
          forall l :: LatestIs(instanceId, fp, DirOf(after, fp), l) <==> l == Ok(Some(r.value)))
    && Explains(req, loaded, writes, finalIdle, r, effect)
    // without faults scratch is as found and the outcome is determined
    && (reliable ==> after.scratch == before.scratch && Determined(DirOf(before, fp), req, loaded, writes, finalIdle, r))
  }

  lemma CleanedIsSaved(instanceId: string, before: Instance, a: Instance, b: Instance, req: SaveRequest, writes: seq<SlotWrite>,
                       names: seq<ScratchPath>, r: Result<Manifest, SaveError>, effect: SaveEffect, loaded: Result<Option<Manifest>, LoadError>,
                       middle: Instance)
    requires Saved(instanceId, before, a, req, writes, names, r, effect, loaded, middle)
    requires b == a.(scratch := b.scratch) && OnlyNamesDiffer(before.scratch, b.scratch, names)
    ensures Saved(instanceId, before, b, req, writes, names, r, effect, loaded, middle)
    ensures Saved(instanceId, before, b, req, writes, names, Err(CleanupFailed), effect, loaded, middle)
  {
    OthersKeepScratch(instanceId, req.fp.digest, before, middle, a, b, effect, req.limit);
    hide Advanced, OthersSafe, LatestIs, Chosen, GoodWrite, ValidManifest, OnlyNamesDiffer;
  }

  /**
   The storage side of `save_before_stop`.  However it ends, no older generation is altered, the
   directory took one step of a retaining run, and only its own scratch names are used.  Without
   faults scratch is left as it was found and the result is determined.
   */
  method Save(store: CheckpointStore, req: SaveRequest, writes: seq<SlotWrite>, finalIdle: bool, names: seq<ScratchPath>, now: nat,
              ghost floor: nat, ghost clock: nat)
    returns (r: Result<Manifest, SaveError>, sent: nat, ghost effect: SaveEffect, ghost loaded: Result<Option<Manifest>, LoadError>,
             ghost middle: Instance)
    requires GoodRequest(req, writes, names, store.disk.scratch)
    modifies store
    ensures SaveResult(store.instanceId, old(store.disk), store.disk, req, writes, finalIdle, names, floor, clock, old(store.Reliable()),
                       r, effect, loaded, middle)
    ensures sent <= |writes| && SentSoFar(writes, sent) && (!effect.NoCommit? ==> sent == |writes|)
    ensures r.Ok? ==> !effect.NoCommit?
    ensures old(store.Reliable()) ==> store.Reliable()
  {
    hide LatestIs, Retained, SaveStep, AllBefore, OnlyNamesDiffer, Determined, Saved, SomeNew, SomeOutlived, GoodWrite;
    ghost var fp, disk0 := req.fp.digest, store.disk;
    r, sent, effect, loaded, middle := SaveAndCommit(store, req, writes, finalIdle, names, now);
    ghost var disk1 := store.disk;
    SavedNames(store.instanceId, disk0, disk1, req, writes, names, r, effect, loaded, middle);
    var clean := CleanUp(store, names, disk0.scratch);
    CleanedIsSaved(store.instanceId, disk0, disk1, store.disk, req, writes, names, r, effect, loaded, middle);
    if !clean { r := Err(CleanupFailed); }
    if req.preserveLonger && Floor(req, floor) && Retained(store.instanceId, fp, DirOf(disk0, fp), floor, clock) && req.createdAt > clock {
      SaveIsStep(store.instanceId, disk0, store.disk, req, writes, names, r, effect, loaded, middle, floor, clock);
    }
    SavedLoads(store.instanceId, disk0, store.disk, req, writes, names, r, effect, loaded, middle);
  }

  /** To another state's run, this save is one pruning step if it came that far, and nothing otherwise. */
  lemma ForeignSaveIsStep(instanceId: string, before: Instance, after: Instance, req: SaveRequest, writes: seq<SlotWrite>, names: seq<ScratchPath>,
                          r: Result<Manifest, SaveError>, effect: SaveEffect, loaded: Result<Option<Manifest>, LoadError>, middle: Instance,
                          f: string, run: SaveRun, minimum: nat)
    returns (next: SaveRun)
    requires Saved(instanceId, before, after, req, writes, names, r, effect, loaded, middle) && f != req.fp.digest
    requires Legal(instanceId, f, run, minimum) && DirAfter(run) == DirOf(before, f)
    requires effect.Finished? ==>
               && LatestHasRoom(instanceId, f, middle, req.limit, {Key(req.fp.digest, effect.m.generationId)})
               && NothingBack(instanceId, f, DirOf(middle, f), DirOf(after, f))
    ensures Legal(instanceId, f, next, minimum) && ContinuesRun(next, run) && DirAfter(next) == DirOf(after, f)
  {
    hide Advanced, LatestIs, Chosen, GoodWrite, ValidManifest, OnlyNamesDiffer, LatestHasRoom, ForeignPrune, NothingBack;
    next := if effect.Finished? then Pruning(run, middle, req.limit, {Key(req.fp.digest, effect.m.generationId)}, DirOf(after, f)) else run;
  }

  /** The two-state example carried out: both load before, and only the second one after pruning for it. */
  method EvictionCarriedOut() returns (before: Result<Option<Manifest>, LoadError>, after: Result<Option<Manifest>, LoadError>)
    ensures before == Ok(Some(SmallManifest("a", 1, 1))) && after == Ok(None)
  {
    hide Pruned, LoadGeneration, SmallManifest, SmallDir, Spared, AllRecords, PruneSafe, Unloadable, LatestIs;
    FirstLoads();
    var store := new CheckpointStore("i", TWO_STATES, []);
    before := store.LoadLatest("a", 1);
    store := new CheckpointStore("i", TWO_STATES, []);
    var ok, _, _, kept, removed, shield, swept := store.Prune(1, {Key("b", 2)});
    ghost var disk := store.disk;
    after := store.LoadLatest("a", 3);
    OtherStateEvicts(disk, shield, kept, removed, swept, after);
  }

  lemma FirstLoads()
    ensures forall r :: LatestIs("i", "a", DirOf(TWO_STATES, "a"), r) ==> r == Ok(Some(SmallManifest("a", 1, 1)))
  {
    SmallLoads("a", 1, 1);
    LoadsWithDigest("i", "a", SmallDir("a", 1, 1), 1);
    hide LoadGeneration;
  }

  lemma SavedNames(instanceId: string, before: Instance, after: Instance, req: SaveRequest, writes: seq<SlotWrite>, names: seq<ScratchPath>,
                   r: Result<Manifest, SaveError>, effect: SaveEffect, loaded: Result<Option<Manifest>, LoadError>, middle: Instance)
    requires Saved(instanceId, before, after, req, writes, names, r, effect, loaded, middle)
    ensures OnlyNamesDiffer(before.scratch, after.scratch, names)
  {
  }
}

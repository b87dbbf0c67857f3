/** `save_before_stop` whole: the coordinator's phases and the store, driven by the same replies of the engine. */
module SaveProcess {
  import opened Wrappers
  import opened Manifests
  import opened StoreSpec
  import opened Retention
  import opened Store
  import opened SaveOperation
  import Coordinator
  import IdleSave

  /** The name the engine is given for a scratch file. */
  function Name(path: ScratchPath): string { Decimal(path) }

  /** What the protocol sees of saving slot `id`: the reply as it came, and the digest of what was written. */
  function FateOf(w: SlotWrite, id: nat, path: ScratchPath): IdleSave.SaveFate {
    IdleSave.SaveFate(
      Name(path),
      if w.reply.None? then None
      else Some(SaveReply(if w.reply.value.matchesRequest then id else id + 1, Name(path), w.reply.value.nSaved, w.reply.value.nWritten)),
      if w.file.Some? then Some(Sha256(w.file.value)) else None)
  }

  function Requests(writes: seq<SlotWrite>, names: seq<ScratchPath>, sent: nat): seq<IdleSave.SaveFate>
    requires sent <= |writes| && |names| == 2 * |writes|
  {
    seq(sent, i requires 0 <= i < sent => FateOf(writes[i], i, names[2 * i]))
  }

  /**
   From Draining to Stopping, unless the process ends meanwhile.  The store is touched only if the
   process was there to be saved; everything either side promises holds of the one call.
   */
  method SaveBeforeStop(store: CheckpointStore, host: IdleSave.CheckpointHost, pid: nat, before: Coordinator.CheckpointPhase,
                        autoSave: bool, topologyValid: bool, req: SaveRequest, writes: seq<SlotWrite>, finalIdle: bool,
                        names: seq<ScratchPath>, now: nat, ghost floor: nat, ghost clock: nat)
    returns (r: Option<Result<Manifest, SaveError>>, ghost effect: SaveEffect, ghost loaded: Result<Option<Manifest>, LoadError>,
             ghost middle: Instance, ghost sent: nat)
    requires LaunchRequest(req, writes, names, store.disk.scratch)
    requires host.Valid() && host.Closed(pid, before, Coordinator.Draining)
    modifies store, host
    ensures host.Valid() && host.Closed(pid, before, Coordinator.Stopping)
    ensures host.Accounts(old(host.s.entry), old(host.gaps), old(host.ends), old(host.crashes))
    ensures old(host.openAtSave) <= host.openAtSave && host.SentOnlyClosed(|old(host.openAtSave)|)
    // what the engine is asked is what the store works with: the slots in order, up to the first that does not answer
    ensures r.None? ==> store.disk == old(store.disk) && host.s.trace == old(host.s.trace)
    ensures r.Some? ==> SentSoFar(writes, sent) && (r.value.Ok? ==> sent == |writes|)
    ensures r.Some? ==> sent <= |writes| && host.s.trace == old(host.s.trace) + IdleSave.SaveEvents(Requests(writes, names, sent))
    ensures r.None? ==> !autoSave || !req.fp.wellFormed || !topologyValid || IdleSave.Exited(host.s.entry)
    ensures r.Some? ==> autoSave && req.fp.wellFormed && topologyValid
    ensures r.Some? ==>
              SaveResult(store.instanceId, old(store.disk), store.disk, req, writes, finalIdle, names, floor, clock, old(store.Reliable()),
                         r.value, effect, loaded, middle)
    ensures old(store.Reliable()) ==> store.Reliable()
  {
    hide SaveResult, SentSoFar, GoodWrite, FateOf, IdleSave.SaveEvents, IdleSave.EndsIn, IdleSave.CrashesIn;
    effect, loaded, middle, sent := NoCommit, Ok(None), store.disk, 0;
    var entered := host.EnterSave(pid, before, autoSave && req.fp.wellFormed && topologyValid);
    if !entered { return None, effect, loaded, middle, sent; }
    // The store and the protocol share no state, so it does not matter that the requests are recorded together.
    var saved, asked;
    saved, asked, effect, loaded, middle := Save(store, req, writes, finalIdle, names, now, floor, clock);
    sent := asked;
    host.SendSaves(pid, before, Requests(writes, names, asked));
    host.LeaveSave(pid, before);
    r := Some(saved);
  }
}

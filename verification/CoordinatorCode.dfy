/**
 The coordinator as code.  The ghost history shows that its entries are always those of a run of
 critical sections, so every law about runs holds of the object; the contracts say what that means
 for routing.
 */
module CoordinatorCode {
  import opened Wrappers
  import opened Coordinator
  import opened GateInvariant

  predicate Registered(entries: map<string, Entry>, id: string, pid: nat) { id in entries && entries[id].pid == Some(pid) }

  /** Nothing that decides about routing differs. */
  predicate SameRouting(a: Entry, b: Entry) {
    b.pid == a.pid && b.phase == a.phase && b.gateActive == a.gateActive && b.routable == a.routable && b.stopRequested == a.stopRequested
  }

  /** Entries of other instances are as they were. */
  predicate OthersSame(a: map<string, Entry>, b: map<string, Entry>, id: string) {
    && (forall other :: other in a && other != id ==> other in b && b[other] == a[other])
    && (forall other :: other in b && other != id ==> other in a)
  }

  lemma RunSnoc(calls: seq<Call>, c: Call)
    ensures Run(map[], calls + [c]) == Apply(Run(map[], calls), c)
  {
    assert (calls + [c])[..|calls|] == calls;
  }

  class CheckpointCoordinator {
    var entries: map<string, Entry>
    ghost var h: seq<Call>

    ghost predicate Valid()
      reads this
    {
      entries == Run(map[], h)
    }

    constructor ()
      ensures Valid() && entries == map[] && h == []
    {
      entries, h := map[], [];
    }

    /** Records the critical section just performed. */
    ghost method Record(c: Call, before: map<string, Entry>)
      requires before == Run(map[], h) && entries == Apply(before, c)
      modifies this`h
      ensures Valid() && h == old(h) + [c] && Consistent(entries)
    {
      RunSnoc(h, c);
      h := h + [c];
      GateInvariantOnRuns(h);
    }

    method RegisterStart(id: string, pid: nat, eligibility: Eligibility, fingerprint: Option<Fingerprint>, policy: Policy)
      returns (r: Result<Entry, StoreError>)
      requires Valid()
      modifies this
      ensures Valid() && h == old(h) + [Register(id, pid, eligibility, fingerprint, policy)] && Consistent(entries)
      ensures r.Ok? <==>
                && ValidIdentifier(id) && pid != 0
                && (eligibility.eligible ==>
                      eligibility.slotCount in {1, 2, 4} && fingerprint.Some? && fingerprint.value.wellFormed)
      ensures r.Ok? ==> entries == old(entries)[id := r.value] && Registered(entries, id, pid)
                        && (GateAllowsRouting(r.value) <==> !eligibility.eligible)
      ensures r.Ok? ==>
                && r.value.phase == (if eligibility.eligible then Starting else if eligibility.disabled then Disabled else Ineligible)
                && r.value.fingerprint == fingerprint && r.value.policy == policy && r.value.slotCount == eligibility.slotCount
                && r.value.idle == IdleSaveSchedule(false, None, None, None, None) && r.value.idleSlots == map[]
                && r.value.operation.NoOperation? && (r.value.outcome.Skipped? <==> r.value.phase.Ineligible?) && !r.value.coldRecovery
      ensures r.Err? ==> entries == old(entries)
    {
      ghost var before := entries;
      ghost var c := Register(id, pid, eligibility, fingerprint, policy);
      if !ValidIdentifier(id) || pid == 0 { Record(c, before); return Err(UnsupportedConfiguration); }
      if eligibility.eligible {
        if eligibility.slotCount !in {1, 2, 4} { Record(c, before); return Err(ManifestInvalid); }
        if fingerprint.None? { Record(c, before); return Err(FingerprintUnavailable); }
        if !fingerprint.value.wellFormed { Record(c, before); return Err(ManifestInvalid); }
      }
      var gateActive, phase, outcome;
      if eligibility.eligible {
        gateActive, phase, outcome := true, Starting, NoOutcome;
      } else if eligibility.disabled {
        gateActive, phase, outcome := false, Disabled, NoOutcome;
      } else {
        gateActive, phase, outcome := false, Ineligible, Skipped;
      }
      var entry := Entry(Some(pid), phase, !gateActive, gateActive, false, NoOperation, outcome, fingerprint, policy,
                         false, eligibility.slotCount, map[], DEFAULT_SCHEDULE);
      entries := entries[id := entry];
      Record(c, before);
      return Ok(entry);
    }

    /** `transition`: a legal move of the registered process opens or closes it, anything else changes nothing. */
    method MoveTo(id: string, pid: nat, next: CheckpointPhase) returns (r: Result<Entry, StoreError>)
      requires Valid()
      modifies this
      ensures Valid() && h == old(h) + [Transition(id, pid, next)] && Consistent(entries)
      ensures r.Ok? <==> Registered(old(entries), id, pid) && LegalTransition(old(entries)[id].phase, next)
      ensures r.Ok? ==> Registered(entries, id, pid) && entries[id].phase == next
                        && (entries[id].gateActive ==> (GateAllowsRouting(entries[id]) <==> next.IsRoutable() && !entries[id].stopRequested))
      ensures r.Ok? ==> r.value == entries[id] == old(entries)[id].(phase := next, routable := entries[id].routable)
      ensures r.Err? ==> entries == old(entries)
      ensures OthersSame(old(entries), entries, id)
    {
      ghost var before := entries;
      ghost var c := Transition(id, pid, next);
      SameEntry(entries, id);
      if id !in entries { Record(c, before); return Err(StaleProcessEvent); }
      var entry := entries[id];
      if entry.pid != Some(pid) { Record(c, before); return Err(StaleProcessEvent); }
      if !LegalTransition(entry.phase, next) { Record(c, before); return Err(InvalidStateTransition); }
      entry := entry.(phase := next);
      entry := entry.(routable := !entry.stopRequested && next.IsRoutable());
      entries := entries[id := entry];
      Record(c, before);
      return Ok(entry);
    }

    /** `request_stop`: a request closes the instance at once; withdrawing it reopens it exactly if it was ready or has no gate. */
    method RequestStop(id: string, pid: nat, stopping: bool)
      requires Valid()
      modifies this
      ensures Valid() && h == old(h) + [Call.RequestStop(id, pid, stopping)] && Consistent(entries)
      ensures !Registered(old(entries), id, pid) ==> entries == old(entries)
      ensures Registered(old(entries), id, pid) ==>
                && Registered(entries, id, pid)
                && entries[id] == old(entries)[id].(stopRequested := stopping, routable := entries[id].routable)
                && (GateAllowsRouting(entries[id]) <==>
                      !stopping && (old(entries)[id].gateActive ==> old(entries)[id].phase.IsRoutable()))
      ensures OthersSame(old(entries), entries, id)
    {
      ghost var before := entries;
      SameEntry(entries, id);
      if id in entries && entries[id].pid == Some(pid) {
        var entry := entries[id].(stopRequested := stopping);
        entry := entry.(routable := !stopping && (!entry.gateActive || entry.phase.IsRoutable()));
        entries := entries[id := entry];
      }
      Record(Call.RequestStop(id, pid, stopping), before);
    }

    /**
     `idle_save_due`: a signal means an open, registered instance, every slot seen and idle, a quiet
     stretch of the configured length and a minute since the last signal; routing is never touched.
     */
    method IdleSaveDue(id: string, pid: nat, slots: seq<SlotRecord>, activeRequests: nat, now: Instant)
      returns (due: bool)
      requires Valid()
      modifies this
      ensures Valid() && h == old(h) + [Call.IdleSaveDue(id, pid, slots, activeRequests, now)] && Consistent(entries)
      ensures !Registered(old(entries), id, pid) ==> !due && entries == old(entries)
      ensures due <==>
                && Registered(old(entries), id, pid)
                && var e := old(entries)[id];
                   && e.gateActive && !e.stopRequested && e.phase.IsRoutable() && e.policy.autoSave && e.policy.idleSaveSeconds != 0
                   && CompleteSlotSet(slots, e.slotCount) && (forall i :: 0 <= i < |slots| ==> !slots[i].isProcessing)
                   && activeRequests == 0 && e.idleSlots == Tasks(slots)
                   && e.idle.dirty && e.idle.quietSince.Some?
                   && now >= e.idle.quietSince.value + 1000 * e.policy.idleSaveSeconds
                   && (e.idle.attemptedAt.Some? ==> now >= e.idle.attemptedAt.value + 60_000)
      ensures due ==> id in entries && GateAllowsRouting(entries[id]) && entries[id].idle.attemptedAt == Some(now) && !entries[id].idle.dirty
      // a complete poll makes its tasks the known ones
      ensures due ==> entries[id].idleSlots == Tasks(slots)
      // without a signal only activity makes the schedule dirty, and the last signal stands
      ensures !due && id in old(entries) ==>
                && id in entries && entries[id].idle.attemptedAt == old(entries)[id].idle.attemptedAt
                && (old(entries)[id].idle.dirty ==> entries[id].idle.dirty)
      ensures OthersSame(old(entries), entries, id)
      ensures id in old(entries) ==> id in entries && SameRouting(old(entries)[id], entries[id])
    {
      hide CompleteSlotSet, AnyProcessing, Tasks, Run, LegalTransition;
      ghost var before := entries;
      ghost var c := Call.IdleSaveDue(id, pid, slots, activeRequests, now);
      SameEntry(entries, id);
      if id in entries { PollSignalsIff(entries[id], pid, slots, activeRequests, now); }
      if id !in entries { Record(c, before); return false; }
      var entry := entries[id];
      if !entry.gateActive || entry.stopRequested || entry.pid != Some(pid) || !entry.phase.IsRoutable()
         || !entry.policy.autoSave || entry.policy.idleSaveSeconds == 0
      {
        Record(c, before);
        return false;
      }
      var tasks := Tasks(slots);
      if !CompleteSlotSet(slots, entry.slotCount) {
        entries := entries[id := entry.(idle := entry.idle.(quietSince := None))];
        Record(c, before);
        return false;
      }
      if entry.idleSlots != tasks {
        entry := entry.(idle := entry.idle.(dirty := true, quietSince := None), idleSlots := tasks);
      }
      var (idle, d) := Observe(entry.idle, AnyProcessing(slots) || activeRequests > 0, None, now, entry.policy.idleSaveSeconds);
      entries := entries[id := entry.(idle := idle)];
      Record(c, before);
      due := d;
    }

    /** `mark_stopped`: accepted from a gateless entry or where stopping is legal; the instance then blocks nothing but a pending stop. */
    method MarkStopped(id: string, pid: nat) returns (r: Result<Entry, StoreError>)
      requires Valid()
      modifies this
      ensures Valid() && h == old(h) + [Call.MarkStopped(id, pid)] && Consistent(entries)
      ensures r.Ok? <==> Registered(old(entries), id, pid)
                         && (old(entries)[id].gateActive ==> LegalTransition(old(entries)[id].phase, Stopped))
      ensures r.Ok? ==> Registered(entries, id, pid) && IsStopped(entries[id]) && (Blocks(entries[id]) <==> old(entries)[id].stopRequested)
      ensures r.Ok? ==> r.value == entries[id] == old(entries)[id].(phase := Stopped, gateActive := false, routable := false)
      ensures r.Err? ==> entries == old(entries)
      ensures OthersSame(old(entries), entries, id)
    {
      ghost var before := entries;
      ghost var c := Call.MarkStopped(id, pid);
      SameEntry(entries, id);
      if id !in entries || entries[id].pid != Some(pid) { Record(c, before); return Err(StaleProcessEvent); }
      var entry := entries[id];
      if entry.gateActive {
        if !LegalTransition(entry.phase, Stopped) { Record(c, before); return Err(InvalidStateTransition); }
        entry := Moved(entry, Stopped);
      } else {
        entry := entry.(phase := Stopped, routable := false);
      }
      entry := entry.(gateActive := false);
      entries := entries[id := entry];
      Record(c, before);
      return Ok(entry);
    }

    /** `mark_unexpected_exit`: accepted for the registered process in any phase; only an exit nobody asked for changes the recorded outcome. */
    method MarkUnexpectedExit(id: string, pid: nat) returns (r: Result<Entry, StoreError>)
      requires Valid()
      modifies this
      ensures Valid() && h == old(h) + [UnexpectedExit(id, pid)] && Consistent(entries)
      ensures r.Ok? <==> Registered(old(entries), id, pid)
      ensures r.Ok? ==> && Registered(entries, id, pid) && IsStopped(entries[id])
                        && (Blocks(entries[id]) <==> old(entries)[id].stopRequested)
                        && entries[id] == old(entries)[id].(phase := Stopped, gateActive := false, routable := false,
                                                            outcome := if old(entries)[id].phase.Stopping? then old(entries)[id].outcome else Skipped)
      ensures r.Err? ==> entries == old(entries)
      ensures OthersSame(old(entries), entries, id)
    {
      ghost var before := entries;
      ghost var c := UnexpectedExit(id, pid);
      SameEntry(entries, id);
      if id !in entries || entries[id].pid != Some(pid) { Record(c, before); return Err(StaleProcessEvent); }
      var expectedStop := entries[id].phase.Stopping?;
      var entry := entries[id].(gateActive := false, phase := Stopped, routable := false);
      if !expectedStop { entry := entry.(outcome := Skipped); }
      entries := entries[id := entry];
      Record(c, before);
      return Ok(entry);
    }

    /** Reads every entry once, in an arbitrary order, and keeps the most urgent phase that refuses routing. */
    method BlockedPhase() returns (r: Option<CheckpointPhase>)
      requires Valid()
      ensures r.Some? <==> exists id :: id in entries && !GateAllowsRouting(entries[id])
      ensures r.Some? ==> exists id :: id in entries && !GateAllowsRouting(entries[id]) && entries[id].phase == r.value
      ensures r.Some? ==> forall id :: id in entries && !GateAllowsRouting(entries[id]) ==>
                            Priority(r.value) <= Priority(entries[id].phase)
      // the most urgent phase wins
      ensures forall k :: 0 <= k < |URGENCY| && (exists id :: id in entries && !GateAllowsRouting(entries[id]) && entries[id].phase == URGENCY[k])
                          && (forall id :: id in entries && !GateAllowsRouting(entries[id]) ==> entries[id].phase !in URGENCY[..k]) ==>
                r == Some(URGENCY[k])
    {
      UrgencyIsPriority();
      GateInvariantOnRuns(h);
      r := None;
      var rest := entries.Keys;
      while rest != {}
        invariant rest <= entries.Keys && Consistent(entries)
        invariant r.Some? <==> exists id :: id in entries.Keys - rest && Blocks(entries[id])
        invariant r.Some? ==> exists id :: id in entries.Keys - rest && Blocks(entries[id]) && entries[id].phase == r.value
        invariant r.Some? ==> forall id :: id in entries.Keys - rest && Blocks(entries[id]) ==>
                                Priority(r.value) <= Priority(entries[id].phase)
        decreases rest
      {
        var id :| id in rest;
        rest := rest - {id};
        var e := entries[id];
        if Blocks(e) && (r.None? || Priority(e.phase) < Priority(r.value)) {
          assert id in entries.Keys - rest;
          r := Some(e.phase);
        }
      }
      assert forall id :: id in entries ==> (Blocks(entries[id]) <==> !GateAllowsRouting(entries[id]));
    }

    /** `prepare_cold_recovery`: only a process that is still starting can be told not to restore. */
    method PrepareColdRecovery(id: string, pid: nat) returns (r: Result<(), StoreError>)
      requires Valid()
      modifies this
      ensures Valid() && h == old(h) + [Call.PrepareColdRecovery(id, pid)] && Consistent(entries)
      ensures r.Ok? <==> Registered(old(entries), id, pid) && old(entries)[id].phase.Starting?
      ensures r.Ok? ==> && Registered(entries, id, pid)
                        && entries[id] == old(entries)[id].(coldRecovery := true, policy := entries[id].policy)
                        && entries[id].policy == Policy(old(entries)[id].policy.autoSave, false, old(entries)[id].policy.idleSaveSeconds)
      ensures r.Err? ==> entries == old(entries)
      ensures OthersSame(old(entries), entries, id)
    {
      ghost var before := entries;
      ghost var c := Call.PrepareColdRecovery(id, pid);
      SameEntry(entries, id);
      if id !in entries || entries[id].pid != Some(pid) || !entries[id].phase.Starting? {
        Record(c, before);
        return Err(StaleProcessEvent);
      }
      var entry := entries[id].(coldRecovery := true);
      entry := entry.(policy := entry.policy.(autoRestore := false));
      entries := entries[id := entry];
      Record(c, before);
      return Ok(());
    }

    /**
     `clear_instance`: refused while a process is registered and has not stopped; otherwise the instance ends
     closed and forgotten.  `removal` is what removing its directory reports, nothing standing for a failure.
     */
    method ClearInstance(id: string, removal: Option<bool>) returns (r: Result<Entry, StoreError>)
      requires Valid()
      modifies this
      ensures Valid() && Consistent(entries)
      ensures r.Ok? <==>
                && 0 < |id| <= 128 && ValidIdentifier(id) && removal.Some?
                && (id in old(entries) ==> old(entries)[id].pid == None || old(entries)[id].phase.Stopped?)
      ensures r.Ok? || r == Err(ClearWhileRunning) ==> h == old(h) + [Call.ClearInstance(id, removal == Some(true))]
      ensures r == Err(ClearWhileRunning) ==> id in old(entries) && old(entries)[id].pid.Some? && !old(entries)[id].phase.Stopped?
      ensures r.Ok? ==> && id in entries && r.value == entries[id] && IsStopped(entries[id]) && !entries[id].stopRequested
                        && entries[id].pid == None && entries[id].fingerprint == None && !Blocks(entries[id])
                        && entries[id].operation.Clear? && entries[id].outcome == (if removal.value then Success else Skipped)
      ensures r.Err? ==> entries == old(entries)
      ensures OthersSame(old(entries), entries, id)
    {
      ghost var before := entries;
      SameEntry(entries, id);
      GateInvariantOnRuns(h);
      if !ValidIdentifier(id) { return Err(ManifestInvalid); }
      if id in entries && entries[id].pid.Some? && !entries[id].phase.Stopped? {
        Record(Call.ClearInstance(id, removal == Some(true)), before);
        return Err(ClearWhileRunning);
      }
      if removal.None? { return Err(IoFailure); }
      var entry := ClearedEntry(removal.value);
      entries := entries[id := entry];
      Record(Call.ClearInstance(id, removal == Some(true)), before);
      return Ok(entry);
    }

    /** `observe_completed_request`: a finished task counts as activity once, while the process is open to routing. */
    method ObserveCompleted(id: string, pid: nat, task: nat)
      requires Valid()
      modifies this
      ensures Valid() && h == old(h) + [CompletedRequest(id, pid, task)] && Consistent(entries)
      ensures OthersSame(old(entries), entries, id)
      ensures id in old(entries) ==> id in entries && SameRouting(old(entries)[id], entries[id])
      ensures entries != old(entries) ==> Registered(old(entries), id, pid) && old(entries)[id].gateActive && old(entries)[id].phase.IsRoutable()
      ensures (&& Registered(old(entries), id, pid) && old(entries)[id].gateActive && old(entries)[id].phase.IsRoutable()
               && old(entries)[id].idle.completedTask != Some(task)) ==>
                var e := entries[id]; e.idle.dirty && e.idle.quietSince.None? && e.idle.completedTask == Some(task)
      ensures id in old(entries) && old(entries)[id].idle.completedTask == Some(task) ==> entries == old(entries)
    {
      ghost var before := entries;
      SameEntry(entries, id);
      if id in entries {
        var entry := entries[id];
        if entry.gateActive && entry.pid == Some(pid) && entry.phase.IsRoutable() && entry.idle.completedTask != Some(task) {
          entries := entries[id := entry.(idle := entry.idle.(completedTask := Some(task), dirty := true, quietSince := None))];
        }
      }
      Record(CompletedRequest(id, pid, task), before);
    }
  }

  const URGENCY := [Restoring, Saving, Draining, EngineHealthy, Starting, Stopping]

  lemma UrgencyIsPriority()
    ensures forall k :: 0 <= k < |URGENCY| ==> Priority(URGENCY[k]) == k
    ensures forall p :: p !in URGENCY ==> Priority(p) == |URGENCY|
  {
  }

  /** The end of a process, as routing sees it. */
  predicate IsStopped(e: Entry) { e.phase.Stopped? && !e.gateActive && !e.routable }

  lemma SameEntry(entries: map<string, Entry>, id: string)
    ensures id in entries ==> entries[id := entries[id]] == entries
  {
  }
}

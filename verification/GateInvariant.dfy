/** What every reachable coordinator state keeps about routing. */
module GateInvariant {
  import opened Wrappers
  import opened Coordinator

  predicate GateConsistent(e: Entry) {
    && (e.gateActive ==> (e.routable <==> e.phase.IsRoutable() && !e.stopRequested))
    && (e.stopRequested ==> !e.routable)
  }

  predicate Consistent(entries: map<string, Entry>) {
    forall id :: id in entries ==> GateConsistent(entries[id])
  }

  /** An active gate is routable exactly when ready and not stopping, on every reachable state. */
  lemma {:induction false} GateInvariantOnRuns(calls: seq<Call>)
    ensures Consistent(Run(map[], calls))
  {
    if calls != [] {
      hide Apply, Consistent;
      GateInvariantOnRuns(calls[..|calls| - 1]);
      ApplyKeepsConsistent(Run(map[], calls[..|calls| - 1]), calls[|calls| - 1]);
    }
  }

  lemma ApplyKeepsConsistent(entries: map<string, Entry>, c: Call)
    requires Consistent(entries)
    ensures Consistent(Apply(entries, c))
  {
  }

  /** `blocked_phase` reports a phase exactly when some entry refuses routing. */
  lemma {:induction false} BlockedExactlyWhenRoutingRefused(calls: seq<Call>, id: string)
    requires id in Run(map[], calls)
    ensures Blocks(Run(map[], calls)[id]) <==> !GateAllowsRouting(Run(map[], calls)[id])
  {
    GateInvariantOnRuns(calls);
  }

  /** `c` could withdraw a stop request of `id`. */
  predicate Reopens(c: Call, id: string) {
    c.id == id && (c.Register? || c.ClearInstance? || (c.RequestStop? && !c.stopping))
  }

  /** A requested stop keeps the instance closed until it is withdrawn, cleared or re-registered. */
  lemma {:induction false} StopHoldsOverRuns(before: seq<Call>, after: seq<Call>, id: string)
    requires id in Run(map[], before) && Run(map[], before)[id].stopRequested
    requires forall i :: 0 <= i < |after| ==> !Reopens(after[i], id)
    ensures id in Run(map[], before + after)
    ensures var e := Run(map[], before + after)[id];
            e.stopRequested && !e.routable && !GateAllowsRouting(e)
  {
    GateInvariantOnRuns(before + after);
    if after == [] {
      assert before + after == before;
    } else {
      var n := |after| - 1;
      StopHoldsOverRuns(before, after[..n], id);
      assert (before + after)[..|before + after| - 1] == before + after[..n];
      assert !Reopens(after[n], id);
    }
  }

  /** `c` cannot concern the process `pid` of instance `id`. */
  predicate Foreign(c: Call, id: string, pid: nat) {
    c.id != id || (!c.Register? && !c.ClearInstance? && c.pid != pid)
  }

  /** Calls naming another process or another instance never change an entry. */
  lemma {:induction false} ForeignCallsAreInert(entries: map<string, Entry>, calls: seq<Call>, id: string, pid: nat)
    requires id in entries && entries[id].pid == Some(pid)
    requires forall i :: 0 <= i < |calls| ==> Foreign(calls[i], id, pid)
    ensures id in Run(entries, calls) && Run(entries, calls)[id] == entries[id]
  {
    if calls != [] {
      ForeignCallsAreInert(entries, calls[..|calls| - 1], id, pid);
      assert Foreign(calls[|calls| - 1], id, pid);
    }
  }

  /** An active gate stands for a launch with 1, 2 or 4 slots, a pid and a valid fingerprint. */
  predicate Launched(e: Entry) {
    e.gateActive ==>
      && (e.slotCount == 1 || e.slotCount == 2 || e.slotCount == 4)
      && e.pid.Some? && e.pid.value != 0 && e.fingerprint.Some? && e.fingerprint.value.wellFormed
  }

  lemma EntryStaysLaunched(e: Entry, c: Call)
    requires !c.Register? && Launched(e)
    ensures Launched(ApplyEntry(e, c))
  {
    hide CompleteSlotSet, AnyProcessing, Tasks, LegalTransition, Observe;
  }

  lemma ApplyKeepsLaunched(entries: map<string, Entry>, c: Call)
    requires forall id :: id in entries ==> Launched(entries[id])
    ensures forall id :: id in Apply(entries, c) ==> Launched(Apply(entries, c)[id])
  {
    if c.Register? && RegistrationAccepted(c) {
      assert Launched(FreshEntry(c));
    } else if !c.Register? && c.id in entries {
      EntryStaysLaunched(entries[c.id], c);
    }
    hide ApplyEntry, Launched, FreshEntry, RegistrationAccepted, ValidIdentifier;
    assert Launched(ClearedEntry(true)) && Launched(ClearedEntry(false));
  }

  /** Only qualified launches ever have an active gate, on every reachable state. */
  lemma {:induction false} ActiveGateIsLaunched(calls: seq<Call>)
    ensures forall id :: id in Run(map[], calls) ==> Launched(Run(map[], calls)[id])
  {
    if calls != [] {
      hide Apply, Launched;
      ActiveGateIsLaunched(calls[..|calls| - 1]);
      ApplyKeepsLaunched(Run(map[], calls[..|calls| - 1]), calls[|calls| - 1]);
    }
  }

  /** The phases a phase can be entered from, by the phase entered. */
  function Predecessors(to: CheckpointPhase): set<CheckpointPhase> {
    match to
    case EngineHealthy => {Starting}
    case Restoring => {EngineHealthy}
    case RestartRequired => {Restoring}
    case Ready => {Restoring, Stopping}
    case ReadyCold => {EngineHealthy, Restoring, Stopping}
    case Draining => {Ready, ReadyCold}
    case Saving => {Draining}
    case Stopping => {Starting, EngineHealthy, Restoring, RestartRequired, Ready, ReadyCold, Draining, Saving}
    case Stopped => {Stopping, Disabled, Ineligible}
    case _ => {}
  }

  lemma TransitionsByTarget(from: CheckpointPhase, to: CheckpointPhase)
    ensures LegalTransition(from, to) <==> from in Predecessors(to)
  {
  }
}

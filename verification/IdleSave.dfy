/**
 The restore path and the idle-save path as code.  Every coordinator call is one
 step of the protocol, every other thread may interfere between two of them, and
 the ghost history shows that the code only takes permitted steps.
 */
module IdleSave {
  import opened Wrappers
  import opened Manifests
  import opened Coordinator
  import opened RestoreProtocol
  import opened PoisonSafety

  /** What other threads may do to a live process while its restore or idle save runs. */
  predicate Concurrent(c: Call) { !c.Register? && !c.ClearInstance? && !c.Transition? }

  /** Calls that report the end of the process. */
  predicate EndsProcess(c: Call, pid: Option<nat>) { (c.MarkStopped? || c.UnexpectedExit?) && Some(c.pid) == pid }

  predicate CrashesProcess(c: Call, pid: Option<nat>) { c.UnexpectedExit? && Some(c.pid) == pid }

  function EndCalls(calls: seq<Call>, pid: Option<nat>): nat {
    if calls == [] then 0 else EndCalls(calls[..|calls| - 1], pid) + if EndsProcess(calls[|calls| - 1], pid) then 1 else 0
  }

  function CrashCalls(calls: seq<Call>, pid: Option<nat>): nat {
    if calls == [] then 0 else CrashCalls(calls[..|calls| - 1], pid) + if CrashesProcess(calls[|calls| - 1], pid) then 1 else 0
  }

  /** Over all gaps still to come. */
  function EndsIn(gaps: seq<seq<Call>>, pid: Option<nat>): nat {
    if gaps == [] then 0 else EndCalls(gaps[0], pid) + EndsIn(gaps[1..], pid)
  }

  function CrashesIn(gaps: seq<seq<Call>>, pid: Option<nat>): nat {
    if gaps == [] then 0 else CrashCalls(gaps[0], pid) + CrashesIn(gaps[1..], pid)
  }

  predicate ConcurrentGaps(gaps: seq<seq<Call>>) {
    forall i, j :: 0 <= i < |gaps| && 0 <= j < |gaps[i]| ==> Concurrent(gaps[i][j])
  }

  predicate Exited(e: Entry) { e.phase.Stopped? && !e.gateActive }

  /** Interference changes only the entry, and its phase only by recording an exit. */
  predicate Disturbed(a: Process, b: Process) {
    && b.call == a.call && b.drainedFrom == a.drainedFrom && b.trace == a.trace
    && b.entry.pid == a.entry.pid && b.entry.slotCount == a.entry.slotCount && b.entry.fingerprint == a.entry.fingerprint
    && (Exited(b.entry) || (b.entry.phase == a.entry.phase && b.entry.gateActive == a.entry.gateActive))
  }

  /** One call of another thread ends the process only if it reports the end of it. */
  lemma EndIsReported(e: Entry, c: Call)
    requires Concurrent(c)
    ensures Exited(ApplyEntry(e, c)) ==> Exited(e) || EndsProcess(c, e.pid)
    ensures Exited(e) || CrashesProcess(c, e.pid) ==> Exited(ApplyEntry(e, c))
  {
  }

  lemma OneMoreCall(calls: seq<Call>, i: nat, pid: Option<nat>)
    requires i < |calls|
    ensures EndCalls(calls[..i + 1], pid) == EndCalls(calls[..i], pid) + if EndsProcess(calls[i], pid) then 1 else 0
    ensures CrashCalls(calls[..i + 1], pid) == CrashCalls(calls[..i], pid) + if CrashesProcess(calls[i], pid) then 1 else 0
  {
    assert calls[..i + 1][..i] == calls[..i];
  }

  lemma FirstGap(gaps: seq<seq<Call>>)
    requires gaps != [] && ConcurrentGaps(gaps)
    ensures ConcurrentGaps(gaps[1..]) && forall k :: 0 <= k < |gaps[0]| ==> Concurrent(gaps[0][k])
    ensures forall p :: EndsIn(gaps, p) == EndCalls(gaps[0], p) + EndsIn(gaps[1..], p)
    ensures forall p :: CrashesIn(gaps, p) == CrashCalls(gaps[0], p) + CrashesIn(gaps[1..], p)
  {
    hide Concurrent;
  }

  datatype LoadOutcome = NothingStored | LoadError | Loaded(slots: seq<SlotManifest>, slotCount: nat)

  /** Replies and faults met while one slot is restored, and while it is read back. */
  datatype RestoreFate = RestoreFate(copied: bool, filename: string, restored: Option<RestoreReply>, removed: bool)
  datatype VerifyFate =
    VerifyFate(prepared: bool, filename: string, saved: Option<SaveReply>, digest: Option<Digest>, removed: bool)

  datatype RestoreScript = RestoreScript(
    healthy: bool, topologyValid: bool, restores: seq<RestoreFate>, verifies: seq<VerifyFate>, finalCheck: bool)

  predicate SlotRestored(slot: SlotManifest, fate: RestoreFate) {
    fate.copied && RestoreReplyMatches(slot, fate.filename, fate.restored) && fate.removed
  }

  predicate SlotReadBack(slot: SlotManifest, fate: VerifyFate) {
    fate.prepared && SaveReplyMatches(slot, fate.filename, fate.saved, fate.digest) && fate.removed
  }

  /** What a restore sends, slot by slot. */
  function RestoreEvents(slots: seq<SlotManifest>, restores: seq<RestoreFate>, n: nat): seq<Event>
    requires n <= |slots| == |restores|
  {
    seq(n, i requires 0 <= i < n => RestoreSent(slots[i], restores[i].filename, restores[i].restored))
  }

  /** What reading the slots back sends. */
  function ReadBackEvents(slots: seq<SlotManifest>, verifies: seq<VerifyFate>, n: nat): seq<Event>
    requires n <= |slots| == |verifies|
  {
    seq(n, i requires 0 <= i < n => SaveSent(slots[i].id, verifies[i].filename, verifies[i].saved, verifies[i].digest))
  }

  /** Nothing fails: every slot is restored, every slot reads back, and the final slot check passes. */
  predicate Flawless(slots: seq<SlotManifest>, script: RestoreScript)
    requires |script.restores| == |script.verifies| == |slots|
  {
    && (forall i :: 0 <= i < |slots| ==> SlotRestored(slots[i], script.restores[i]))
    && (forall i :: 0 <= i < |slots| ==> SlotReadBack(slots[i], script.verifies[i]))
    && script.finalCheck
  }

  /** The phase a restore decision leads to while the process lives. */
  function Decided(slotCount: nat, autoRestore: bool, fingerprintValid: bool, load: LoadOutcome, script: RestoreScript)
    : CheckpointPhase
    requires load.Loaded? ==> |load.slots| == |script.restores| == |script.verifies|
  {
    if !autoRestore || !fingerprintValid || !load.Loaded? then ReadyCold
    else if !script.healthy || slotCount != load.slotCount || !script.topologyValid then ReadyCold
    else if Flawless(load.slots, script) then Ready
    else RestartRequired
  }

  datatype SaveFate = SaveFate(filename: string, saved: Option<SaveReply>, digest: Option<Digest>)

  datatype SaveScript = SaveScript(
    autoSave: bool, fingerprintValid: bool, slotsRead: bool, topologyValid: bool, saves: seq<SaveFate>)

  lemma NoEvents(slots: seq<SlotManifest>, script: RestoreScript)
    requires |script.restores| == |script.verifies| == |slots|
    ensures RestoreEvents(slots, script.restores, 0) == [] && ReadBackEvents(slots, script.verifies, 0) == []
  {
  }

  lemma FlawlessMeans(slots: seq<SlotManifest>, script: RestoreScript)
    requires |script.restores| == |script.verifies| == |slots| && Flawless(slots, script)
    ensures script.finalCheck
    ensures forall i :: 0 <= i < |slots| ==> script.restores[i].copied && script.restores[i].removed
    ensures forall i :: 0 <= i < |slots| ==> script.verifies[i].prepared && script.verifies[i].removed
  {
    forall i | 0 <= i < |slots|
      ensures script.restores[i].copied && script.restores[i].removed && script.verifies[i].prepared && script.verifies[i].removed
    {
      assert SlotRestored(slots[i], script.restores[i]) && SlotReadBack(slots[i], script.verifies[i]);
    }
  }

  /** What a save sends: one request per slot, in order of the slot ids. */
  function SaveEvents(saves: seq<SaveFate>): seq<Event> {
    seq(|saves|, i requires 0 <= i < |saves| => SaveSent(i, saves[i].filename, saves[i].saved, saves[i].digest))
  }

  /** Everything a restore needs before it may touch the engine. */
  predicate MayRestore(slotCount: nat, autoRestore: bool, fingerprintValid: bool, load: LoadOutcome, script: RestoreScript) {
    && autoRestore && fingerprintValid && load.Loaded? && load.slotCount == slotCount
    && script.healthy && script.topologyValid
  }

  class CheckpointHost {
    var s: Process
    /** What other threads will do, gap by gap; in later gaps nothing. */
    var gaps: seq<seq<Call>>
    ghost var h: History
    /** How many calls so far reported the end of the current process, and how many of those an unexpected one. */
    ghost var ends: nat
    ghost var crashes: nat
    /** For each request sent by a save to a living process: was routing to it allowed at that moment? */
    ghost var openAtSave: seq<bool>

    ghost predicate Valid()
      reads this
    {
      Obeys(None, h) && s == State(h) && ConcurrentGaps(gaps)
    }

    constructor (gaps: seq<seq<Call>>)
      requires ConcurrentGaps(gaps)
      ensures Valid() && s == START && this.gaps == gaps && ends == 0 && crashes == 0 && openAtSave == []
    {
      this.s, this.gaps, this.h, this.ends, this.crashes, this.openAtSave := START, gaps, Begin, 0, 0, [];
    }

    /**
     Since the process had entry `e`: it is gone exactly as the calls in the gaps passed since then
     tell, and no such call is lost or made up.
     */
    ghost predicate Accounts(e: Entry, gaps0: seq<seq<Call>>, ends0: nat, crashes0: nat)
      reads this
    {
      && s.entry.pid == e.pid && ends0 <= ends && crashes0 <= crashes
      && ends + EndsIn(gaps, e.pid) == ends0 + EndsIn(gaps0, e.pid)
      && crashes + CrashesIn(gaps, e.pid) == crashes0 + CrashesIn(gaps0, e.pid)
      && (forall p :: EndsIn(gaps, p) <= EndsIn(gaps0, p))
      && (Exited(s.entry) ==> Exited(e) || ends > ends0)
      && (Exited(e) || crashes > crashes0 ==> Exited(s.entry))
    }

    method Do(step: Step)
      requires Valid() && Allowed(s, step)
      modifies this`s, this`h, this`openAtSave
      ensures Valid() && s == Next(old(s), step) && h == After(old(h), step)
      ensures openAtSave ==
              old(openAtSave) + if step.SaveSlot? then [old(GateAllowsRouting(s.entry) && !Exited(s.entry))] else []
    {
      if step.SaveSlot? {
        openAtSave := openAtSave + [GateAllowsRouting(s.entry) && !Exited(s.entry)];
      } else {
        openAtSave := openAtSave + [];
      }
      s := Next(s, step);
      h := After(h, step);
    }

    /** A step that moves the phase, or leaves the entry as it was. */
    method Move(step: Step, pid: nat, next: CheckpointPhase)
      requires Valid() && s.call.NoCall?
      requires || (step == EnterSaving(pid) && next.Saving?)
               || (step == FinishStopping(pid) && next.Stopping?)
               || (step == Resume(pid, next) && next.IsRoutable() && ResumesDrainedPhase(s, step))
      modifies this`s, this`h, this`openAtSave
      ensures Valid() && openAtSave == old(openAtSave)
      ensures s.trace == old(s.trace)
      ensures s.call.NoCall? && s.drainedFrom == old(s.drainedFrom)
      ensures s.entry.pid == old(s.entry.pid) && s.entry.gateActive == old(s.entry.gateActive)
      ensures s.entry.phase == if CanMove(old(s.entry), pid, next) then next else old(s.entry.phase)
    {
      hide State, Obeys, EndsIn, CrashesIn, ConcurrentGaps;
      Do(step);
    }

    method Drain(pid: nat)
      requires Valid()
      modifies this`s, this`h, this`openAtSave
      ensures Valid() && openAtSave == old(openAtSave) && s.trace == old(s.trace)
      ensures s.call == old(s.call) && s.entry.pid == old(s.entry.pid) && s.entry.gateActive == old(s.entry.gateActive)
      ensures if old(s.entry.gateActive) && CanMove(old(s.entry), pid, Draining)
              then s.entry.phase.Draining? && s.drainedFrom == Some(old(s.entry.phase))
              else s == old(s)
    {
      hide State, Obeys, EndsIn, CrashesIn, ConcurrentGaps;
      Do(BeginDraining(pid));
    }

    /** The restore call meets a failure that is not a backend reply. */
    method Fault()
      requires Valid() && (s.call.Loading? || s.call.RestoringSlots? || s.call.VerifyingSlots?)
      modifies this`s, this`h, this`openAtSave
      ensures Valid() && s.call == FailedCall(old(s.call.pid)) && s.entry == old(s.entry) && s.trace == old(s.trace)
    {
      hide State, Obeys, EndsIn, CrashesIn, ConcurrentGaps;
      Do(RestoreFault);
    }

    method SendRestore(filename: string, restored: Option<RestoreReply>)
      requires Valid() && s.call.RestoringSlots? && s.call.done < |s.call.slots|
      modifies this`s, this`h, this`openAtSave
      ensures Valid() && s.entry == old(s.entry)
      ensures s.trace == old(s.trace) + [RestoreSent(old(s.call.slots[s.call.done]), filename, restored)]
      ensures s.call == if RestoreReplyMatches(old(s.call.slots[s.call.done]), filename, restored)
                        then RestoringSlots(old(s.call.pid), old(s.call.slots), old(s.call.done) + 1)
                        else FailedCall(old(s.call.pid))
    {
      hide State, Obeys, EndsIn, CrashesIn, ConcurrentGaps;
      Do(RestoreSlot(filename, restored));
    }

    method SendVerify(pid: nat, slots: seq<SlotManifest>, done: nat, fate: VerifyFate)
      requires Valid() && done < |slots|
      requires s.call == if done == 0 then RestoringSlots(pid, slots, |slots|) else VerifyingSlots(pid, slots, done)
      modifies this`s, this`h, this`openAtSave
      ensures Valid() && s.entry == old(s.entry)
      ensures s.trace == old(s.trace) + [SaveSent(slots[done].id, fate.filename, fate.saved, fate.digest)]
      ensures s.call == if SaveReplyMatches(slots[done], fate.filename, fate.saved, fate.digest)
                        then VerifyingSlots(pid, slots, done + 1) else FailedCall(pid)
    {
      hide State, Obeys, EndsIn, CrashesIn, ConcurrentGaps;
      Do(VerifySlot(fate.filename, fate.saved, fate.digest));
    }

    /** One call of another thread. */
    method HearCall(c: Call)
      requires Valid() && Concurrent(c)
      modifies this`s, this`h, this`openAtSave
      ensures Valid() && Disturbed(old(s), s) && openAtSave == old(openAtSave)
      ensures Exited(s.entry) ==> old(Exited(s.entry)) || EndsProcess(c, old(s.entry.pid))
      ensures old(Exited(s.entry)) || CrashesProcess(c, old(s.entry.pid)) ==> Exited(s.entry)
    {
      hide State, Obeys, ConcurrentGaps;
      InvOnRuns(h);
      OutsideEntry(s.entry, c);
      EndIsReported(s.entry, c);
      Do(Outside(c));
    }

    /** One gap: whatever other threads do in it. */
    method Interfere()
      requires Valid()
      modifies this
      ensures Valid() && Disturbed(old(s), s) && openAtSave == old(openAtSave)
      ensures Accounts(old(s.entry), old(gaps), old(ends), old(crashes))
    {
      hide State, Obeys, EndsIn, CrashesIn, ConcurrentGaps, Inv, ApplyEntry;
      PassGap();
    }

    /** The same, and a process reported to have crashed in the gap is gone. */
    method PassGap()
      requires Valid()
      modifies this
      ensures Valid() && Disturbed(old(s), s) && openAtSave == old(openAtSave)
      ensures Accounts(old(s.entry), old(gaps), old(ends), old(crashes))
      ensures old(gaps) != [] && CrashCalls(old(gaps)[0], old(s.entry.pid)) > 0 ==> Exited(s.entry)
    {
      hide State, Obeys, EndsIn, CrashesIn, ConcurrentGaps, Inv, ApplyEntry;
      if gaps == [] { return; }
      var calls := gaps[0];
      FirstGap(gaps);
      gaps := gaps[1..];
      var i := 0;
      while i < |calls|
        invariant i <= |calls| && Valid() && Disturbed(old(s), s) && openAtSave == old(openAtSave) && gaps == old(gaps)[1..]
        invariant forall k :: 0 <= k < |calls| ==> Concurrent(calls[k])
        invariant ends == old(ends) + EndCalls(calls[..i], s.entry.pid) && crashes == old(crashes) + CrashCalls(calls[..i], s.entry.pid)
        invariant Exited(s.entry) ==> old(Exited(s.entry)) || ends > old(ends)
        invariant old(Exited(s.entry)) || crashes > old(crashes) ==> Exited(s.entry)
      {
        var c := calls[i];
        OneMoreCall(calls, i, s.entry.pid);
        ends := ends + if EndsProcess(c, s.entry.pid) then 1 else 0;
        crashes := crashes + if CrashesProcess(c, s.entry.pid) then 1 else 0;
        HearCall(c);
        i := i + 1;
      }
      assert calls[..i] == calls;
    }

    /** Restores every slot, in order; on a mismatch the call is left failed. */
    method RestoreEvery(pid: nat, slots: seq<SlotManifest>, restores: seq<RestoreFate>)
      returns (ghost sent: nat)
      requires Valid() && s.call == RestoringSlots(pid, slots, 0) && |restores| == |slots|
      modifies this
      ensures Accounts(old(s.entry), old(gaps), old(ends), old(crashes))
      ensures Valid() && (Exited(s.entry) || s.entry.phase == old(s.entry.phase))
      ensures sent <= |slots| && s.trace == old(s.trace) + RestoreEvents(slots, restores, sent)
      ensures s.call.RestoringSlots? ==> sent == |slots|
      ensures slots != [] && restores[0].copied ==> sent > 0
      ensures s.call == if forall i :: 0 <= i < |slots| ==> SlotRestored(slots[i], restores[i])
                        then RestoringSlots(pid, slots, |slots|) else FailedCall(pid)
    {
      hide State, Obeys, EndsIn, CrashesIn, ConcurrentGaps, RestoreReplyMatches, Next;
      sent := 0;
      var i := 0;
      while i < |slots|
        invariant i <= |slots| && Valid() && s.call == RestoringSlots(pid, slots, i)
        invariant Accounts(old(s.entry), old(gaps), old(ends), old(crashes))
        invariant sent == i && s.trace == old(s.trace) + RestoreEvents(slots, restores, i)
        invariant forall k :: 0 <= k < i ==> SlotRestored(slots[k], restores[k])
        invariant Exited(s.entry) || s.entry.phase == old(s.entry.phase)
      {
        Interfere();
        var fate := restores[i];
        if !fate.copied { Fault(); return; }
        SendRestore(fate.filename, fate.restored);
        sent := i + 1;
        assert RestoreEvents(slots, restores, i + 1) == RestoreEvents(slots, restores, i) + [RestoreSent(slots[i], fate.filename, fate.restored)];
        if s.call.FailedCall? { return; }
        if !fate.removed { Fault(); return; }
        i := i + 1;
      }
    }

    /** Reads every restored slot back, in order; on a mismatch the call is left failed. */
    method ReadBackEvery(pid: nat, slots: seq<SlotManifest>, verifies: seq<VerifyFate>)
      returns (ghost sent: nat)
      requires Valid() && slots != [] && s.call == RestoringSlots(pid, slots, |slots|) && |verifies| == |slots|
      modifies this
      ensures Accounts(old(s.entry), old(gaps), old(ends), old(crashes))
      ensures Valid() && (Exited(s.entry) || s.entry.phase == old(s.entry.phase))
      ensures sent <= |slots| && s.trace == old(s.trace) + ReadBackEvents(slots, verifies, sent)
      ensures s.call.VerifyingSlots? ==> sent == |slots|
      ensures s.call == if forall i :: 0 <= i < |slots| ==> SlotReadBack(slots[i], verifies[i])
                        then VerifyingSlots(pid, slots, |slots|) else FailedCall(pid)
    {
      hide State, Obeys, EndsIn, CrashesIn, ConcurrentGaps, SaveReplyMatches, Next;
      sent := 0;
      var i := 0;
      while i < |slots|
        invariant i <= |slots| && Valid() && Accounts(old(s.entry), old(gaps), old(ends), old(crashes))
        invariant s.call == (if i == 0 then RestoringSlots(pid, slots, |slots|) else VerifyingSlots(pid, slots, i))
        invariant sent == i && s.trace == old(s.trace) + ReadBackEvents(slots, verifies, i)
        invariant forall k :: 0 <= k < i ==> SlotReadBack(slots[k], verifies[k])
        invariant Exited(s.entry) || s.entry.phase == old(s.entry.phase)
      {
        Interfere();
        var fate := verifies[i];
        if !fate.prepared { Fault(); return; }
        SendVerify(pid, slots, i, fate);
        sent := i + 1;
        assert ReadBackEvents(slots, verifies, i + 1)
               == ReadBackEvents(slots, verifies, i) + [SaveSent(slots[i].id, fate.filename, fate.saved, fate.digest)];
        if s.call.FailedCall? { return; }
        if !fate.removed { Fault(); return; }
        i := i + 1;
      }
    }

    /** Restores every slot, then reads every slot back; on a mismatch the call is left failed. */
    method RestoreSlots(pid: nat, slots: seq<SlotManifest>, script: RestoreScript)
      returns (ghost restored: nat, ghost readBack: nat)
      requires Valid() && slots != [] && s.call == RestoringSlots(pid, slots, 0)
      requires |script.restores| == |slots| && |script.verifies| == |slots|
      modifies this
      ensures Accounts(old(s.entry), old(gaps), old(ends), old(crashes))
      ensures Valid()
      ensures restored <= |slots| && readBack <= |slots| && (readBack > 0 ==> restored == |slots|)
      ensures s.trace == old(s.trace) + RestoreEvents(slots, script.restores, restored) + ReadBackEvents(slots, script.verifies, readBack)
      ensures s.call.VerifyingSlots? ==> restored == readBack == |slots|
      ensures script.restores[0].copied ==> restored > 0
      ensures s.call == if Flawless(slots, script) then VerifyingSlots(pid, slots, |slots|) else FailedCall(pid)
      ensures Exited(s.entry) || s.entry.phase == old(s.entry.phase)
    {
      hide State, Obeys, EndsIn, CrashesIn, ConcurrentGaps, SlotRestored, SlotReadBack, Next;
      readBack := 0;
      restored := RestoreEvery(pid, slots, script.restores);
      assert ReadBackEvents(slots, script.verifies, 0) == [];
      if s.call.FailedCall? { return; }
      readBack := ReadBackEvery(pid, slots, script.verifies);
      if s.call.FailedCall? { return; }
      Interfere();
      if !script.finalCheck { Fault(); }
    }

    /** Where a restore call that has failed, or has read every slot back, can stand. */
    lemma CallFacts()
      requires Valid() && (s.call.FailedCall? || s.call.VerifyingSlots?)
      ensures s.entry.pid == Some(s.call.pid)
      ensures Exited(s.entry) || s.entry.phase.Restoring? || (s.call.FailedCall? && s.entry.phase.EngineHealthy?)
    {
      hide State, Obeys, Verified, Sent, AllRestored, AllVerified;
      InvOnRuns(h);
    }

    /** The last move of a restore call: it happens, or the process is gone and the entry stays. */
    method LastMove(step: Step, next: CheckpointPhase)
      requires Valid() && (s.call.Failing? || s.call.Succeeding?)
      requires if s.call.Failing? then step == FailureMove && next == (if s.call.restart then RestartRequired else ReadyCold)
               else step == SuccessMove && next == Ready
      modifies this`s, this`h, this`openAtSave
      ensures s.trace == old(s.trace)
      ensures Valid() && s.call.NoCall? && s.entry.pid == old(s.entry.pid) && s.entry.gateActive == old(s.entry.gateActive)
      ensures s.entry.phase == if CanMove(old(s.entry), old(s.call.pid), next) then next else old(s.entry.phase)
    {
      hide State, Obeys, ConcurrentGaps;
      Do(step);
    }

    /** The decision that ends a restore call is read off before the last move. */
    method Conclude(step: Step)
      requires Valid() && step == if s.call.FailedCall? then FailureRead else RestoreChecked
      requires s.call.FailedCall? || (s.call.VerifyingSlots? && s.call.done == |s.call.slots|)
      modifies this`s, this`h, this`openAtSave
      ensures Valid() && s.entry == old(s.entry) && s.trace == old(s.trace)
      ensures s.call == if step.FailureRead? then Failing(old(s.call.pid), s.entry.phase.Restoring?) else Succeeding(old(s.call.pid))
    {
      hide State, Obeys, ConcurrentGaps;
      Do(step);
    }

    /** The failing end of a restore call. */
    method ConcludeFailure()
      requires Valid() && s.call.FailedCall?
      modifies this
      ensures Accounts(old(s.entry), old(gaps), old(ends), old(crashes))
      ensures Valid() && s.call.NoCall? && s.trace == old(s.trace)
      ensures Exited(s.entry) || s.entry.phase == if old(s.entry.phase.Restoring?) then RestartRequired else ReadyCold
    {
      hide State, Obeys, EndsIn, CrashesIn, ConcurrentGaps, Next;
      CallFacts();
      Conclude(FailureRead);
      Interfere();
      LastMove(FailureMove, if s.call.restart then RestartRequired else ReadyCold);
    }

    /** The succeeding end of a restore call. */
    method ConcludeSuccess()
      requires Valid() && s.call.VerifyingSlots? && s.call.done == |s.call.slots|
      modifies this
      ensures Accounts(old(s.entry), old(gaps), old(ends), old(crashes))
      ensures s.trace == old(s.trace)
      ensures Valid() && s.call.NoCall? && (Exited(s.entry) || s.entry.phase.Ready?)
    {
      hide State, Obeys, EndsIn, CrashesIn, ConcurrentGaps, Next;
      CallFacts();
      Conclude(RestoreChecked);
      Interfere();
      LastMove(SuccessMove, Ready);
    }

    /** Enters Restoring unless the process has exited, and works through the slots. */
    method EnterAndRestore(pid: nat, slots: seq<SlotManifest>, script: RestoreScript)
      returns (ghost restored: nat, ghost readBack: nat)
      requires Valid() && s.call == Loading(pid) && s.entry.pid == Some(pid)
      requires Exited(s.entry) || s.entry.phase.EngineHealthy?
      requires 0 < |slots| == |script.restores| == |script.verifies|
      modifies this
      ensures Accounts(old(s.entry), old(gaps), old(ends), old(crashes))
      ensures Valid() && (Exited(s.entry) || s.entry.phase.Restoring?)
      ensures restored <= |slots| && readBack <= |slots| && (readBack > 0 ==> restored == |slots|)
      ensures s.trace == old(s.trace) + RestoreEvents(slots, script.restores, restored) + ReadBackEvents(slots, script.verifies, readBack)
      ensures s.call.VerifyingSlots? ==> restored == readBack == |slots|
      ensures Exited(s.entry) || (script.restores[0].copied ==> restored > 0)
      ensures s.call == FailedCall(pid) || s.call == VerifyingSlots(pid, slots, |slots|)
      ensures old(Exited(s.entry)) ==> s.call.FailedCall? && s.trace == old(s.trace)
      ensures Exited(s.entry) || (s.call.VerifyingSlots? <==> Flawless(slots, script))
    {
      hide State, Obeys, EndsIn, CrashesIn, ConcurrentGaps, Inv;
      restored, readBack := 0, 0;
      assert RestoreEvents(slots, script.restores, 0) == [] && ReadBackEvents(slots, script.verifies, 0) == [];
      Do(RestoreEnter(slots));
      if s.call.RestoringSlots? {
        restored, readBack := RestoreSlots(pid, slots, script);
      }
    }

    /** A restore call starts in EngineHealthy. */
    method BeginRestore(pid: nat)
      requires Valid() && s.entry.gateActive && RestoresOnce(s, RestoreBegin(pid))
      modifies this`s, this`h, this`openAtSave
      ensures s.trace == old(s.trace)
      ensures Valid() && s.entry == old(s.entry) && s.call == Loading(pid) && s.entry.pid == Some(pid)
    {
      hide State, Obeys, ConcurrentGaps;
      Do(RestoreBegin(pid));
    }

    /** A restore call ends without having sent anything. */
    method StayCold()
      requires Valid() && s.call.Loading? && s.entry.pid == Some(s.call.pid) && (Exited(s.entry) || s.entry.phase.EngineHealthy?)
      modifies this`s, this`h, this`openAtSave
      ensures s.trace == old(s.trace)
      ensures Valid() && s.call.NoCall? && s.entry.pid == old(s.entry.pid) && s.entry.gateActive == old(s.entry.gateActive)
      ensures s.entry.phase == if old(Exited(s.entry)) then old(s.entry.phase) else ReadyCold
    {
      hide State, Obeys, ConcurrentGaps;
      Do(RestoreCold);
    }

    /** A restore call that fails before it has touched the engine. */
    method FailBeforeRestore()
      requires Valid() && s.call.Loading? && s.entry.pid == Some(s.call.pid) && (Exited(s.entry) || s.entry.phase.EngineHealthy?)
      modifies this
      ensures Accounts(old(s.entry), old(gaps), old(ends), old(crashes))
      ensures Valid() && s.call.NoCall? && s.trace == old(s.trace) && (Exited(s.entry) || s.entry.phase.ReadyCold?)
    {
      hide State, Obeys, EndsIn, CrashesIn, ConcurrentGaps, Next;
      Fault();
      Interfere();
      ConcludeFailure();
    }

    /** The part of a restore call that works on the engine. */
    method RestoreLoaded(pid: nat, slots: seq<SlotManifest>, script: RestoreScript)
      returns (rejects: bool, ghost restored: nat, ghost readBack: nat)
      requires Valid() && s.call == Loading(pid) && s.entry.pid == Some(pid) && (Exited(s.entry) || s.entry.phase.EngineHealthy?)
      requires 0 < |slots| == |script.restores| == |script.verifies|
      modifies this
      ensures Accounts(old(s.entry), old(gaps), old(ends), old(crashes))
      ensures Valid() && s.call.NoCall?
      ensures Exited(s.entry) || s.entry.phase == if Flawless(slots, script) then Ready else RestartRequired
      ensures restored <= |slots| && readBack <= |slots| && (readBack > 0 ==> restored == |slots|)
      ensures s.trace == old(s.trace) + RestoreEvents(slots, script.restores, restored) + ReadBackEvents(slots, script.verifies, readBack)
      ensures !Exited(s.entry) ==> (s.entry.phase.Ready? ==> restored == readBack == |slots|) && (script.restores[0].copied ==> restored > 0)
      ensures rejects ==> s.entry.phase.RestartRequired? || Exited(s.entry)
      ensures s.entry.phase.RestartRequired? ==> rejects
      ensures old(Exited(s.entry)) ==> !rejects && s.trace == old(s.trace)
    {
      hide State, Obeys, EndsIn, CrashesIn, ConcurrentGaps, Next, Flawless;
      rejects := false;
      restored, readBack := EnterAndRestore(pid, slots, script);
      Interfere();
      if s.call.FailedCall? {
        rejects := s.entry.phase.Restoring? && s.entry.pid == Some(pid);
        Interfere();
        ConcludeFailure();
      } else {
        ConcludeSuccess();
      }
    }

    method RestoreOrCold(pid: nat, autoRestore: bool, fingerprintValid: bool, load: LoadOutcome,
                         script: RestoreScript)
      returns (rejects: bool, ghost restored: nat, ghost readBack: nat)
      requires Valid() && s.entry.gateActive && RestoresOnce(s, RestoreBegin(pid))
      requires load.Loaded? ==> 0 < |load.slots| == |script.restores| == |script.verifies|
      modifies this
      ensures Accounts(old(s.entry), old(gaps), old(ends), old(crashes))
      ensures Valid() && s.call.NoCall?
      ensures Exited(s.entry)
              || s.entry.phase == Decided(old(s.entry.slotCount), autoRestore, fingerprintValid, load, script)
      ensures EndsIn(old(gaps), old(s.entry.pid)) == 0 ==>
                s.entry.phase == Decided(old(s.entry.slotCount), autoRestore, fingerprintValid, load, script)
      // nothing is sent, restored or rejected unless everything permits it; then the slots are worked through in order
      ensures (s.trace != old(s.trace) || s.entry.phase.Ready? || s.entry.phase.RestartRequired? || rejects) ==>
                && autoRestore && fingerprintValid && load.Loaded? && load.slotCount == old(s.entry.slotCount)
                && script.healthy && script.topologyValid
      ensures load.Loaded? ==>
                && restored <= |load.slots| && readBack <= |load.slots| && (readBack > 0 ==> restored == |load.slots|)
                && s.trace == old(s.trace) + RestoreEvents(load.slots, script.restores, restored)
                                           + ReadBackEvents(load.slots, script.verifies, readBack)
      ensures s.entry.phase.Ready? ==>
                && restored == readBack == |load.slots| && script.finalCheck
                && (forall i :: 0 <= i < |load.slots| ==> script.restores[i].copied && script.restores[i].removed)
                && (forall i :: 0 <= i < |load.slots| ==> script.verifies[i].prepared && script.verifies[i].removed)
      // and if everything permits it and no end is reported, it is restored or needs a restart
      ensures MayRestore(old(s.entry.slotCount), autoRestore, fingerprintValid, load, script) && EndsIn(old(gaps), old(s.entry.pid)) == 0 ==>
                && (s.entry.phase.Ready? || s.entry.phase.RestartRequired?)
                && (script.restores[0].copied ==> restored > 0)
      // the generation is to be rejected exactly when its restore has failed in Restoring
      ensures rejects ==> load.Loaded? && (s.entry.phase.RestartRequired? || Exited(s.entry))
      ensures s.entry.phase.RestartRequired? ==> rejects
      // not so for a process that is known to be gone when the restore would begin
      ensures old(gaps) != [] && CrashCalls(old(gaps)[0], old(s.entry.pid)) > 0 ==> !rejects && s.trace == old(s.trace)
      ensures s.entry.phase.IsRoutable() && Sent(s.trace) ==> s.entry.phase.Ready? && Verified(s.target, s.trace)
    {
      hide State, Obeys, EndsIn, CrashesIn, ConcurrentGaps, Inv, Verified, Sent, Flawless, Next;
      rejects, restored, readBack := false, 0, 0;
      if load.Loaded? { NoEvents(load.slots, script); }
      BeginRestore(pid);
      PassGap();
      if !autoRestore || !fingerprintValid || load.NothingStored? {
        StayCold();
      } else if load.LoadError? || !script.healthy || s.entry.slotCount != load.slotCount || !script.topologyValid {
        FailBeforeRestore();
      } else {
        rejects, restored, readBack := RestoreLoaded(pid, load.slots, script);
      }
      if s.entry.phase.Ready? { FlawlessMeans(load.slots, script); }
      PoisonSafetyOnRuns(h);
    }

    /** The process stops, another one is registered in its place, and its engine becomes healthy. */
    method Replace(oldPid: nat, registration: Call)
      requires Valid() && s.call.NoCall? && registration.Register? && RegistrationAccepted(registration) && registration.eligibility.eligible
      modifies this`s, this`h, this`openAtSave
      ensures Valid() && s == Fresh(FreshEntry(registration).(phase := EngineHealthy, routable := false))
      ensures openAtSave == old(openAtSave)
    {
      hide State, Obeys, ConcurrentGaps;
      Do(Outside(MarkStopped("", oldPid)));
      Do(Outside(registration));
      Do(Healthy(registration.pid));
    }

    /** The process is in `phase` after being drained from `before`, or it has exited. */
    ghost predicate Closed(pid: nat, before: CheckpointPhase, phase: CheckpointPhase)
      reads this
    {
      && s.entry.pid == Some(pid) && s.call.NoCall?
      && (Exited(s.entry) || (s.entry.gateActive && s.entry.phase == phase && s.drainedFrom == Some(before)))
    }

    /** One request of a save; the gate is closed while it is sent. */
    method SendSave(pid: nat, before: CheckpointPhase, id: nat, fate: SaveFate)
      requires Valid() && Closed(pid, before, Saving) && s.drainedFrom == Some(before)
      modifies this`s, this`h, this`openAtSave
      ensures Valid() && Closed(pid, before, Saving) && s.drainedFrom == Some(before) && s.entry == old(s.entry)
      ensures openAtSave == old(openAtSave) + [false]
      ensures s.trace == old(s.trace) + [SaveSent(id, fate.filename, fate.saved, fate.digest)]
    {
      hide State, Obeys, EndsIn, CrashesIn, ConcurrentGaps;
      InvOnRuns(h);
      Do(SaveSlot(id, fate.filename, fate.saved, fate.digest));
    }

    ghost predicate SentOnlyClosed(from: nat)
      reads this
    {
      from <= |openAtSave| && forall i :: from <= i < |openAtSave| ==> !openAtSave[i]
    }

    method SendSaves(pid: nat, before: CheckpointPhase, saves: seq<SaveFate>)
      requires Valid() && Closed(pid, before, Saving) && s.drainedFrom == Some(before)
      modifies this
      ensures Accounts(old(s.entry), old(gaps), old(ends), old(crashes))
      ensures Valid() && Closed(pid, before, Saving)
      ensures s.trace == old(s.trace) + SaveEvents(saves)
      ensures old(openAtSave) <= openAtSave && SentOnlyClosed(|old(openAtSave)|)
    {
      hide State, Obeys, EndsIn, CrashesIn, ConcurrentGaps;
      var i := 0;
      while i < |saves|
        invariant Valid() && Closed(pid, before, Saving) && s.drainedFrom == Some(before)
        invariant Accounts(old(s.entry), old(gaps), old(ends), old(crashes))
        invariant i <= |saves| && s.trace == old(s.trace) + SaveEvents(saves[..i])
        invariant old(openAtSave) <= openAtSave && SentOnlyClosed(|old(openAtSave)|)
      {
        Interfere();
        SendSave(pid, before, i, saves[i]);
        assert SaveEvents(saves[..i + 1]) == SaveEvents(saves[..i]) + [SaveSent(i, saves[i].filename, saves[i].saved, saves[i].digest)];
        i := i + 1;
      }
      assert saves[..i] == saves;
    }

    /** From Draining into Saving, or straight to Stopping when the save is not to be made. */
    method EnterSave(pid: nat, before: CheckpointPhase, ready: bool) returns (entered: bool)
      requires Valid() && Closed(pid, before, Draining)
      modifies this
      ensures Accounts(old(s.entry), old(gaps), old(ends), old(crashes))
      ensures Valid() && openAtSave == old(openAtSave) && s.trace == old(s.trace)
      ensures entered ==> Closed(pid, before, Saving) && s.drainedFrom == Some(before) && s.entry.phase.Saving? && ready
      ensures !entered ==> Closed(pid, before, Stopping) && (ready ==> Exited(s.entry))
    {
      hide State, Obeys, EndsIn, CrashesIn, ConcurrentGaps, Next;
      if !s.entry.gateActive { return false; }
      if !ready {
        Move(FinishStopping(pid), pid, Stopping);
        return false;
      }
      Interfere();
      Move(EnterSaving(pid), pid, Saving);
      return s.entry.phase.Saving?;
    }

    method LeaveSave(pid: nat, before: CheckpointPhase)
      requires Valid() && Closed(pid, before, Saving)
      modifies this
      ensures Accounts(old(s.entry), old(gaps), old(ends), old(crashes))
      ensures Valid() && Closed(pid, before, Stopping) && openAtSave == old(openAtSave) && s.trace == old(s.trace)
    {
      hide State, Obeys, EndsIn, CrashesIn, ConcurrentGaps, Next;
      Interfere();
      Move(FinishStopping(pid), pid, Stopping);
    }

    /** The coordinator side of `save_before_stop`, for every reply and fault. */
    method SaveBeforeStop(pid: nat, before: CheckpointPhase, script: SaveScript)
      requires Valid() && Closed(pid, before, Draining)
      modifies this
      ensures Accounts(old(s.entry), old(gaps), old(ends), old(crashes))
      ensures Valid() && Closed(pid, before, Stopping)
      // every request goes out, in order, or none does; and one does only if the save is to be made
      ensures s.trace == old(s.trace) || s.trace == old(s.trace) + SaveEvents(script.saves)
      ensures s.trace != old(s.trace) ==> script.autoSave && script.fingerprintValid && script.slotsRead && script.topologyValid
      ensures script.autoSave && script.fingerprintValid && script.slotsRead && script.topologyValid && !Exited(s.entry) ==>
                s.trace == old(s.trace) + SaveEvents(script.saves)
      ensures old(openAtSave) <= openAtSave && SentOnlyClosed(|old(openAtSave)|)
    {
      hide State, Obeys, EndsIn, CrashesIn, ConcurrentGaps, Next;
      var entered := EnterSave(pid, before, script.autoSave && script.fingerprintValid && script.slotsRead && script.topologyValid);
      if entered {
        SendSaves(pid, before, script.saves);
        LeaveSave(pid, before);
      }
    }

    /** Polls the idle schedule; the phase is left alone. */
    method IdleDue(pid: nat, slots: seq<SlotRecord>, active: nat, now: Instant) returns (due: bool)
      requires Valid() && s.call.NoCall? && s.entry.phase.IsRoutable()
      modifies this`s, this`h, this`openAtSave
      ensures Valid() && openAtSave == old(openAtSave) && Disturbed(old(s), s) && s.entry.phase == old(s.entry.phase)
      ensures due <==> SignalDue(old(s.entry), pid, slots, active, now)
      ensures due ==> s.entry.pid == Some(pid) && s.entry.gateActive && s.entry.phase == old(s.entry.phase)
    {
      hide State, Obeys, EndsIn, CrashesIn, ConcurrentGaps;
      due := IdlePollAccepted(s.entry, pid) && IdlePoll(s.entry, slots, active, now).1;
      PollSignalsIff(s.entry, pid, slots, active, now);
      InvOnRuns(h);
      OutsideEntry(s.entry, IdleSaveDue("", pid, slots, active, now));
      Do(Outside(IdleSaveDue("", pid, slots, active, now)));
    }

    lemma ReachableGate()
      requires Valid()
      ensures s.entry.gateActive <==> !(s.entry.phase.Disabled? || s.entry.phase.Ineligible? || s.entry.phase.Stopped?)
      ensures s.entry.gateActive ==> (s.entry.routable <==> s.entry.phase.IsRoutable() && !s.entry.stopRequested)
    {
      InvOnRuns(h);
    }

    /** From a drained phase, through the save, back to the phase held before. */
    method SaveAndResume(pid: nat, before: CheckpointPhase, busy: bool, script: SaveScript)
      requires Valid() && Closed(pid, before, Draining) && before.IsRoutable()
      modifies this
      ensures Accounts(old(s.entry), old(gaps), old(ends), old(crashes))
      ensures Valid() && s.entry.pid == Some(pid) && (Exited(s.entry) || s.entry.phase == before)
      ensures s.trace == old(s.trace) || s.trace == old(s.trace) + SaveEvents(script.saves)
      ensures s.trace != old(s.trace) ==>
                !busy && script.autoSave && script.fingerprintValid && script.slotsRead && script.topologyValid
      ensures !busy && script.autoSave && script.fingerprintValid && script.slotsRead && script.topologyValid && !Exited(s.entry) ==>
                s.trace == old(s.trace) + SaveEvents(script.saves)
      ensures old(openAtSave) <= openAtSave && SentOnlyClosed(|old(openAtSave)|)
    {
      hide State, Obeys, EndsIn, CrashesIn, ConcurrentGaps;
      if busy {
        Move(FinishStopping(pid), pid, Stopping);
      } else {
        SaveBeforeStop(pid, before, script);
      }
      Interfere();
      Move(Resume(pid, before), pid, before);
    }

    /** A due poll: drain, save unless busy, resume. */
    method SaveWhenDue(pid: nat, busy: bool, script: SaveScript)
      requires Valid() && s.call.NoCall? && s.entry.phase.IsRoutable() && s.entry.pid == Some(pid) && s.entry.gateActive
      modifies this
      ensures Accounts(old(s.entry), old(gaps), old(ends), old(crashes))
      ensures Valid() && (s.entry.phase == old(s.entry.phase) || Exited(s.entry))
      ensures s.trace == old(s.trace) || s.trace == old(s.trace) + SaveEvents(script.saves)
      ensures s.trace != old(s.trace) ==>
                && old(s.entry.fingerprint.Some?) && !busy
                && script.autoSave && script.fingerprintValid && script.slotsRead && script.topologyValid
      ensures (&& old(s.entry.fingerprint.Some?) && !busy
               && script.autoSave && script.fingerprintValid && script.slotsRead && script.topologyValid && !Exited(s.entry)) ==>
                s.trace == old(s.trace) + SaveEvents(script.saves)
      ensures old(openAtSave) <= openAtSave && SentOnlyClosed(|old(openAtSave)|)
    {
      hide State, Obeys, EndsIn, CrashesIn, ConcurrentGaps, SaveEvents, Next;
      Interfere();
      var before := s.entry.phase;
      Interfere();
      if s.entry.fingerprint.None? { return; }
      Interfere();
      // An exited process has no active gate: begin_draining then succeeds without a transition,
      // every later transition is refused, and the exit stands.
      if s.entry.gateActive && !CanMove(s.entry, pid, Draining) { return; }
      Drain(pid);
      Interfere();
      if before.IsRoutable() {
        SaveAndResume(pid, before, busy, script);
      }
    }

    /**
     `checkpoint_idle::poll`: whatever the engine, the disk and the other threads do, the
     process ends in the phase it began in, or it has exited; nothing is sent while it is open.
     */
    method Poll(pid: nat, slots: seq<SlotRecord>, active: nat, now: Instant, activeAfterDrain: nat,
                clientBuilt: bool, script: SaveScript)
      requires Valid() && s.call.NoCall? && s.entry.phase.IsRoutable()
      modifies this
      ensures Accounts(old(s.entry), old(gaps), old(ends), old(crashes))
      ensures Valid() && s.entry.pid == old(s.entry.pid)
      ensures s.entry.phase == old(s.entry.phase) || Exited(s.entry)
      ensures EndsIn(old(gaps), old(s.entry.pid)) == 0 ==> s.entry.phase == old(s.entry.phase)
      ensures s.entry.phase == old(s.entry.phase) ==>
                s.entry.gateActive && (s.entry.routable <==> !s.entry.stopRequested)
      // the save: all its requests in order, exactly when it is due, nothing is in flight and it can be made
      ensures s.trace == old(s.trace) || s.trace == old(s.trace) + SaveEvents(script.saves)
      ensures s.trace != old(s.trace) ==>
                && SignalDue(old(s.entry), pid, slots, active, now) && old(s.entry.fingerprint.Some?)
                && activeAfterDrain == 0 && clientBuilt
                && script.autoSave && script.fingerprintValid && script.slotsRead && script.topologyValid
      ensures (&& SignalDue(old(s.entry), pid, slots, active, now) && old(s.entry.fingerprint.Some?)
               && activeAfterDrain == 0 && clientBuilt
               && script.autoSave && script.fingerprintValid && script.slotsRead && script.topologyValid
               && EndsIn(old(gaps), old(s.entry.pid)) == 0) ==>
                s.trace == old(s.trace) + SaveEvents(script.saves)
      ensures old(openAtSave) <= openAtSave && SentOnlyClosed(|old(openAtSave)|)
    {
      hide State, Obeys, EndsIn, CrashesIn, ConcurrentGaps, SignalDue, SaveEvents;
      var due := IdleDue(pid, slots, active, now);
      if !due { ReachableGate(); return; }
      SaveWhenDue(pid, activeAfterDrain > 0 || !clientBuilt, script);
      ReachableGate();
    }
  }
}

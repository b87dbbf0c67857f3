/**
 The life of one instance as interleaved atomic steps: its coordinator entry, the
 restore call that may be in flight on its monitor thread, and what the engine
 process was sent.  Backend replies and storage faults are step parameters, so a
 run ranges over every behaviour of the engine and the disk.
 */
module RestoreProtocol {
  import opened Wrappers
  import opened Manifests
  import opened Coordinator
  import opened GateInvariant

  /** What the current process was sent, in order; `None` replies are failed requests. */
  datatype Event =
    | RestoreSent(slot: SlotManifest, filename: string, restored: Option<RestoreReply>)
    | SaveSent(id: nat, filename: string, saved: Option<SaveReply>, digest: Option<Digest>)

  /** Where `restore_or_cold` stands. */
  datatype RestoreCall =
    | NoCall
    | Loading(pid: nat)
    | RestoringSlots(pid: nat, slots: seq<SlotManifest>, done: nat)
    | VerifyingSlots(pid: nat, slots: seq<SlotManifest>, done: nat)
    | Succeeding(pid: nat)
    | FailedCall(pid: nat)
    | Failing(pid: nat, restart: bool)

  datatype Process = Process(
    entry: Entry,
    call: RestoreCall,
    called: bool,                       // a restore was decided in this registration
    drainedFrom: Option<CheckpointPhase>, // the phase `begin_draining` left
    target: seq<SlotManifest>,          // slots of the manifest being restored
    trace: seq<Event>)

  datatype Step =
    | Outside(c: Call)
    | Healthy(pid: nat)
    | FailRestoreSetup(pid: nat)
    | RestoreBegin(pid: nat)
    | RestoreCold
    | RestoreFault
    | RestoreEnter(slots: seq<SlotManifest>)
    | RestoreSlot(filename: string, restored: Option<RestoreReply>)
    | VerifySlot(filename: string, saved: Option<SaveReply>, digest: Option<Digest>)
    | RestoreChecked
    | FailureRead
    | FailureMove
    | SuccessMove
    | BeginDraining(pid: nat)
    | EnterSaving(pid: nat)
    | SaveSlot(slotId: nat, filename: string, saved: Option<SaveReply>, digest: Option<Digest>)
    | FinishStopping(pid: nat)
    | Resume(pid: nat, phase: CheckpointPhase)

  function Moves(e: Entry, pid: nat, next: CheckpointPhase): Entry { ApplyEntry(e, Transition("", pid, next)) }

  predicate CanMove(e: Entry, pid: nat, next: CheckpointPhase) {
    e.pid == Some(pid) && LegalTransition(e.phase, next)
  }

  function Fresh(e: Entry): Process { Process(e, NoCall, false, None, [], []) }

  const START := Fresh(ClearedEntry(false))

  predicate RestoreReplyMatches(slot: SlotManifest, filename: string, r: Option<RestoreReply>) {
    r.Some? && RestoreMatches(slot, filename, r.value)
  }

  predicate SaveReplyMatches(slot: SlotManifest, filename: string, r: Option<SaveReply>, digest: Option<Digest>) {
    r.Some? && SaveMatches(slot, filename, r.value, digest)
  }

  function Next(s: Process, step: Step): Process {
    match step
    case Outside(c) =>
      if c.Register? then if RegistrationAccepted(c) then Fresh(FreshEntry(c)) else s
      else if c.ClearInstance? && ApplyEntry(s.entry, c) != s.entry then Fresh(ApplyEntry(s.entry, c))
      else s.(entry := ApplyEntry(s.entry, c))
    case Healthy(pid) =>
      if s.entry.gateActive then s.(entry := Moves(s.entry, pid, EngineHealthy)) else s
    case FailRestoreSetup(pid) =>
      s.(entry := Moves(s.entry, pid, ReadyCold), called := s.called || s.entry.pid == Some(pid))
    case RestoreBegin(pid) =>
      if s.entry.gateActive then s.(call := Loading(pid), called := true) else s
    case RestoreCold =>
      if s.call.Loading? then s.(entry := Moves(s.entry, s.call.pid, ReadyCold), call := NoCall) else s
    case RestoreFault =>
      if s.call.NoCall? then s else s.(call := FailedCall(s.call.pid))
    case RestoreEnter(slots) =>
      if !s.call.Loading? then s
      else if CanMove(s.entry, s.call.pid, Restoring) then
        s.(entry := Moves(s.entry, s.call.pid, Restoring), call := RestoringSlots(s.call.pid, slots, 0), target := slots)
      else s.(call := FailedCall(s.call.pid))
    case RestoreSlot(filename, restored) =>
      if !s.call.RestoringSlots? || s.call.done >= |s.call.slots| then s
      else
        var slot := s.call.slots[s.call.done];
        s.(trace := s.trace + [RestoreSent(slot, filename, restored)],
           call := if RestoreReplyMatches(slot, filename, restored) then RestoringSlots(s.call.pid, s.call.slots, s.call.done + 1)
                   else FailedCall(s.call.pid))
    case VerifySlot(filename, saved, digest) =>
      var v := if s.call.RestoringSlots? && s.call.done == |s.call.slots|
               then VerifyingSlots(s.call.pid, s.call.slots, 0) else s.call;
      if !v.VerifyingSlots? || v.done >= |v.slots| then s
      else
        s.(trace := s.trace + [SaveSent(v.slots[v.done].id, filename, saved, digest)],
           call := if SaveReplyMatches(v.slots[v.done], filename, saved, digest) then VerifyingSlots(v.pid, v.slots, v.done + 1)
                   else FailedCall(v.pid))
    case RestoreChecked =>
      if s.call.VerifyingSlots? && s.call.done == |s.call.slots| then s.(call := Succeeding(s.call.pid)) else s
    case FailureRead =>
      if s.call.FailedCall? then s.(call := Failing(s.call.pid, s.entry.phase.Restoring?)) else s
    case FailureMove =>
      if s.call.Failing? then
        s.(entry := Moves(s.entry, s.call.pid, if s.call.restart then RestartRequired else ReadyCold), call := NoCall)
      else s
    case SuccessMove =>
      if s.call.Succeeding? then s.(entry := Moves(s.entry, s.call.pid, Ready), call := NoCall) else s
    case BeginDraining(pid) =>
      if s.entry.gateActive && CanMove(s.entry, pid, Draining)
      then s.(entry := Moves(s.entry, pid, Draining), drainedFrom := Some(s.entry.phase)) else s
    case EnterSaving(pid) => s.(entry := Moves(s.entry, pid, Saving))
    case SaveSlot(id, filename, saved, digest) => s.(trace := s.trace + [SaveSent(id, filename, saved, digest)])
    case FinishStopping(pid) => s.(entry := Moves(s.entry, pid, Stopping))
    case Resume(pid, phase) => if phase.IsRoutable() then s.(entry := Moves(s.entry, pid, phase)) else s
  }

  /** A new process never reuses the pid of a call still in flight. */
  predicate FreshPid(s: Process, step: Step) {
    step.Outside? && step.c.Register? ==> s.call.NoCall? || step.c.pid != s.call.pid
  }

  /** Rule 1: the restore decision is taken once per registration, while the engine is healthy. */
  predicate RestoresOnce(s: Process, step: Step) {
    step.RestoreBegin? || step.FailRestoreSetup? ==>
      s.call.NoCall? && !s.called && s.entry.phase.EngineHealthy? && s.entry.pid == Some(step.pid)
  }

  /** Rule 2: `resume_after_stop_failure` is given the phase held at `begin_draining`. */
  predicate ResumesDrainedPhase(s: Process, step: Step) {
    step.Resume? ==> s.drainedFrom == Some(step.phase) || s.entry.phase.Stopped? || s.entry.pid != Some(step.pid)
  }

  /** Rule 3: no stop is finished while a restore call is in flight. */
  predicate StopsAfterRestore(s: Process, step: Step) { step.FinishStopping? ==> s.call.NoCall? }

  /** Program order: phase moves go through the named steps, saves follow a drain, calls advance in turn. */
  predicate ProgramOrder(s: Process, step: Step) {
    && (step.Outside? ==> !step.c.Transition?)
    && (step.SaveSlot? ==> s.drainedFrom.Some?)
    && (step.RestoreFault? ==> s.call.Loading? || s.call.RestoringSlots? || s.call.VerifyingSlots?)
  }

  datatype Rule = RestoreOnce | ResumeDrained | StopAfterRestore

  /** The step respects every caller rule except, possibly, the waived one. */
  predicate AllowedWithout(waived: Option<Rule>, s: Process, step: Step) {
    && FreshPid(s, step) && ProgramOrder(s, step)
    && (waived == Some(RestoreOnce) || RestoresOnce(s, step))
    && (waived == Some(ResumeDrained) || ResumesDrainedPhase(s, step))
    && (waived == Some(StopAfterRestore) || StopsAfterRestore(s, step))
  }

  predicate Allowed(s: Process, step: Step) { AllowedWithout(None, s, step) }

  /** A finite run: the steps taken so far, latest outermost. */
  datatype History = Begin | After(before: History, step: Step)

  function State(h: History): Process {
    match h
    case Begin => START
    case After(before, step) => Next(State(before), step)
  }

  predicate Obeys(waived: Option<Rule>, h: History) {
    h.After? ==> Obeys(waived, h.before) && AllowedWithout(waived, State(h.before), h.step)
  }

  /** The process was sent at least one restore request. */
  predicate Sent(trace: seq<Event>) { exists i :: 0 <= i < |trace| && trace[i].RestoreSent? }

  predicate AllRestored(slots: seq<SlotManifest>, trace: seq<Event>, n: nat)
    requires n <= |slots| && n <= |trace|
  {
    forall i :: 0 <= i < n ==>
      trace[i].RestoreSent? && trace[i].slot == slots[i] && RestoreReplyMatches(slots[i], trace[i].filename, trace[i].restored)
  }

  predicate AllVerified(slots: seq<SlotManifest>, trace: seq<Event>, n: nat)
    requires n <= |slots| && |slots| + n <= |trace|
  {
    forall i :: |slots| <= i < |slots| + n ==>
      trace[i].SaveSent? && SaveReplyMatches(slots[i - |slots|], trace[i].filename, trace[i].saved, trace[i].digest)
  }

  /**
   Every slot was restored first, then every one was saved again with matching tokens,
   bytes and digest; nothing but saves was sent afterwards.
   */
  predicate Verified(slots: seq<SlotManifest>, trace: seq<Event>) {
    && |trace| >= 2 * |slots|
    && AllRestored(slots, trace, |slots|)
    && AllVerified(slots, trace, |slots|)
    && forall i :: 2 * |slots| <= i < |trace| ==> trace[i].SaveSent?
  }

  predicate CallInv(s: Process) {
    var e := s.entry;
    && (!s.call.NoCall? ==> s.called && s.drainedFrom.None? && e.pid == Some(s.call.pid))
    && match s.call
       case NoCall => !e.phase.Restoring?
       case Loading(_) => s.trace == [] && (e.phase.EngineHealthy? || e.phase.Stopped?)
       case RestoringSlots(_, slots, done) =>
         && slots == s.target && done <= |slots| && |s.trace| == done && AllRestored(slots, s.trace, done)
         && (e.phase.Restoring? || e.phase.Stopped?)
       case VerifyingSlots(_, slots, done) =>
         && slots == s.target && done <= |slots| && |s.trace| == |slots| + done
         && AllRestored(slots, s.trace, |slots|) && AllVerified(slots, s.trace, done)
         && (e.phase.Restoring? || e.phase.Stopped?)
       case Succeeding(_) => Verified(s.target, s.trace) && (e.phase.Restoring? || e.phase.Stopped?)
       case FailedCall(_) => e.phase.EngineHealthy? || e.phase.Restoring? || e.phase.Stopped?
       case Failing(_, restart) => if restart then e.phase.Restoring? || e.phase.Stopped?
                                   else e.phase.EngineHealthy? || e.phase.Stopped?
  }

  predicate Inv(s: Process) {
    var e := s.entry;
    && GateConsistent(e)
    && (e.gateActive <==> !(e.phase.Disabled? || e.phase.Ineligible? || e.phase.Stopped?))
    && (e.phase.Starting? || e.phase.EngineHealthy? || e.phase.Disabled? || e.phase.Ineligible? ==>
          s.trace == [] && s.drainedFrom.None?)
    && (e.phase.Starting? ==> s.call.NoCall? && !s.called)
    && (e.phase.Ready? ==> Verified(s.target, s.trace))
    && (e.phase.ReadyCold? ==> !Sent(s.trace))
    && (s.drainedFrom.Some? ==>
          || (s.drainedFrom == Some(Ready) && Verified(s.target, s.trace))
          || (s.drainedFrom == Some(ReadyCold) && !Sent(s.trace)))
    && (e.phase.Draining? || e.phase.Saving? ==> s.drainedFrom.Some?)
    && CallInv(s)
  }

  lemma SaveKeepsVerified(slots: seq<SlotManifest>, trace: seq<Event>, ev: Event)
    requires Verified(slots, trace) && ev.SaveSent?
    ensures Verified(slots, trace + [ev])
  {
  }

  lemma SaveKeepsUnsent(trace: seq<Event>, ev: Event)
    requires !Sent(trace) && ev.SaveSent?
    ensures !Sent(trace + [ev])
  {
  }

  /** Calls from other threads leave the phase alone or record the end of the process. */
  lemma OutsideEntry(e: Entry, c: Call)
    requires GateConsistent(e) && !c.Register? && !c.ClearInstance? && !c.Transition?
    requires e.gateActive <==> !(e.phase.Disabled? || e.phase.Ineligible? || e.phase.Stopped?)
    ensures var f := ApplyEntry(e, c);
            && GateConsistent(f) && f.pid == e.pid && f.fingerprint == e.fingerprint
            && ((f.phase == e.phase && f.gateActive == e.gateActive) || (f.phase.Stopped? && !f.gateActive))
  {
  }

  lemma OutsidePreserves(s: Process, c: Call)
    requires Inv(s) && Allowed(s, Outside(c))
    ensures Inv(Next(s, Outside(c)))
  {
    if !c.Register? && !c.ClearInstance? {
      OutsideEntry(s.entry, c);
      var t := Next(s, Outside(c));
      assert t == s.(entry := ApplyEntry(s.entry, c));
      assert CallInv(t);
    }
  }

  lemma DecisionPreserves(s: Process, step: Step)
    requires Inv(s) && Allowed(s, step) && (step.Healthy? || step.FailRestoreSetup? || step.RestoreBegin?)
    ensures Inv(Next(s, step))
  {
  }

  lemma RestorePreserves(s: Process, step: Step)
    requires Inv(s) && Allowed(s, step) && (step.RestoreCold? || step.RestoreFault? || step.RestoreEnter?)
    ensures Inv(Next(s, step))
  {
  }

  lemma RestoredOneMore(slots: seq<SlotManifest>, trace: seq<Event>, filename: string, restored: Option<RestoreReply>)
    requires |trace| < |slots| && AllRestored(slots, trace, |trace|) && RestoreReplyMatches(slots[|trace|], filename, restored)
    ensures AllRestored(slots, trace + [RestoreSent(slots[|trace|], filename, restored)], |trace| + 1)
  {
    hide RestoreReplyMatches;
  }

  lemma VerifiedOneMore(slots: seq<SlotManifest>, trace: seq<Event>, done: nat, id: nat, filename: string, saved: Option<SaveReply>,
                        digest: Option<Digest>)
    requires done < |slots| && |trace| == |slots| + done && AllRestored(slots, trace, |slots|) && AllVerified(slots, trace, done)
    ensures var longer := trace + [SaveSent(id, filename, saved, digest)];
            && AllRestored(slots, longer, |slots|)
            && (SaveReplyMatches(slots[done], filename, saved, digest) ==> AllVerified(slots, longer, done + 1))
  {
    hide RestoreReplyMatches, SaveReplyMatches;
  }

  lemma RestoreSlotPreserves(s: Process, step: Step)
    requires Inv(s) && Allowed(s, step) && step.RestoreSlot?
    ensures Inv(Next(s, step))
  {
    hide AllRestored, AllVerified, RestoreReplyMatches, SaveReplyMatches, Verified, Sent;
    if s.call.RestoringSlots? && s.call.done < |s.call.slots|
       && RestoreReplyMatches(s.call.slots[s.call.done], step.filename, step.restored)
    {
      RestoredOneMore(s.call.slots, s.trace, step.filename, step.restored);
    }
  }

  lemma VerifySlotPreserves(s: Process, step: Step)
    requires Inv(s) && Allowed(s, step) && step.VerifySlot?
    ensures Inv(Next(s, step))
  {
    if s.call.RestoringSlots? && s.call.done == |s.call.slots| {
      assert AllVerified(s.call.slots, s.trace, 0);
    }
    hide AllRestored, AllVerified, RestoreReplyMatches, SaveReplyMatches, Verified, Sent;
    if (s.call.RestoringSlots? && s.call.done == |s.call.slots| > 0) || (s.call.VerifyingSlots? && s.call.done < |s.call.slots|) {
      var done := if s.call.RestoringSlots? then 0 else s.call.done;
      VerifiedOneMore(s.call.slots, s.trace, done, s.call.slots[done].id, step.filename, step.saved, step.digest);
    }
  }

  lemma OutcomePreserves(s: Process, step: Step)
    requires Inv(s) && Allowed(s, step)
    requires step.RestoreChecked? || step.FailureRead? || step.FailureMove? || step.SuccessMove?
    ensures Inv(Next(s, step))
  {
  }

  lemma StopPreserves(s: Process, step: Step)
    requires Inv(s) && Allowed(s, step)
    requires step.BeginDraining? || step.EnterSaving? || step.FinishStopping? || step.Resume?
    ensures Inv(Next(s, step))
  {
  }

  lemma SavePreserves(s: Process, step: Step)
    requires Inv(s) && Allowed(s, step) && step.SaveSlot?
    ensures Inv(Next(s, step))
  {
    var ev := SaveSent(step.slotId, step.filename, step.saved, step.digest);
    if Verified(s.target, s.trace) { SaveKeepsVerified(s.target, s.trace, ev); }
    if !Sent(s.trace) { SaveKeepsUnsent(s.trace, ev); }
  }

  lemma InvPreserved(s: Process, step: Step)
    requires Inv(s) && Allowed(s, step)
    ensures Inv(Next(s, step))
  {
    match step
    case Outside(c) => OutsidePreserves(s, c);
    case Healthy(_) => DecisionPreserves(s, step);
    case FailRestoreSetup(_) => DecisionPreserves(s, step);
    case RestoreBegin(_) => DecisionPreserves(s, step);
    case RestoreCold => RestorePreserves(s, step);
    case RestoreFault => RestorePreserves(s, step);
    case RestoreEnter(_) => RestorePreserves(s, step);
    case RestoreSlot(_, _) => RestoreSlotPreserves(s, step);
    case VerifySlot(_, _, _) => VerifySlotPreserves(s, step);
    case RestoreChecked => OutcomePreserves(s, step);
    case FailureRead => OutcomePreserves(s, step);
    case FailureMove => OutcomePreserves(s, step);
    case SuccessMove => OutcomePreserves(s, step);
    case SaveSlot(_, _, _, _) => SavePreserves(s, step);
    case _ => StopPreserves(s, step);
  }

  lemma {:induction false} InvOnRuns(h: History)
    requires Obeys(None, h)
    ensures Inv(State(h))
  {
    if h.After? {
      InvOnRuns(h.before);
      InvPreserved(State(h.before), h.step);
    }
  }
}

/**
 A process that was sent a restore request is never routed to unless the whole
 checkpoint was restored and then read back; and each caller rule is needed.
 */
module PoisonSafety {
  import opened Wrappers
  import opened Manifests
  import opened Coordinator
  import opened RestoreProtocol

  /** On every run that keeps the caller rules, for every backend reply and storage fault. */
  lemma PoisonSafetyOnRuns(h: History)
    requires Obeys(None, h)
    ensures var s := State(h);
            && (s.entry.gateActive && s.entry.routable && Sent(s.trace) ==> Verified(s.target, s.trace))
            && (s.entry.phase.IsRoutable() && Sent(s.trace) ==> s.entry.phase.Ready? && Verified(s.target, s.trace))
            && (!s.entry.gateActive && Sent(s.trace) ==> s.entry.phase.Stopped?)
  {
    hide State, Obeys;
    InvOnRuns(h);
  }

  /** What a read-back that succeeded proves, reply by reply. */
  lemma VerifiedMeans(slots: seq<SlotManifest>, trace: seq<Event>, i: nat)
    requires Verified(slots, trace) && i < |slots|
    ensures i < |trace| && trace[i].RestoreSent? && trace[i].slot == slots[i] && trace[i].restored.Some?
    ensures var r := trace[i].restored.value;
            && r.idSlot == slots[i].id && r.filename == trace[i].filename
            && r.nRestored == slots[i].promptTokens && r.nRead == slots[i].bytes && slots[i].bytes > 0
    ensures |slots| + i < |trace| && trace[|slots| + i].SaveSent? && trace[|slots| + i].saved.Some?
    ensures var e := trace[|slots| + i];
            && e.saved.value.idSlot == slots[i].id && e.saved.value.filename == e.filename
            && e.saved.value.nSaved == slots[i].promptTokens && e.saved.value.nWritten == slots[i].bytes
            && e.digest == Some(slots[i].sha256)
  {
    assert RestoreReplyMatches(slots[i], trace[i].filename, trace[i].restored);
    var e := trace[|slots| + i];
    assert SaveReplyMatches(slots[|slots| + i - |slots|], e.filename, e.saved, e.digest);
  }

  /** The restore call is over, a request was sent, and the read-back did not succeed. */
  predicate Poisoned(s: Process) { s.call.NoCall? && Sent(s.trace) && !Verified(s.target, s.trace) }

  predicate Replaces(step: Step) { step.Outside? && (step.c.Register? || step.c.ClearInstance?) }

  lemma PoisonPersists(s: Process, step: Step)
    requires Inv(s) && Allowed(s, step) && Poisoned(s) && !Replaces(step)
    ensures Poisoned(Next(s, step))
  {
    assert s.drainedFrom.None?;
  }

  predicate OutOfService(e: Entry) {
    (e.phase.RestartRequired? || e.phase.Stopping? || e.phase.Stopped?) && !(e.gateActive && e.routable)
  }

  lemma PoisonedIsOutOfService(s: Process)
    requires Inv(s) && Poisoned(s)
    ensures OutOfService(s.entry)
  {
  }

  /** `h` continues the run `earlier` without replacing the process. */
  predicate Continues(h: History, earlier: History) {
    h == earlier || (h.After? && !Replaces(h.step) && Continues(h.before, earlier))
  }

  lemma {:induction false} PoisonPersistsOnRuns(h: History, earlier: History)
    requires Obeys(None, h) && Continues(h, earlier) && Poisoned(State(earlier))
    ensures Poisoned(State(h))
  {
    if h != earlier {
      PoisonPersistsOnRuns(h.before, earlier);
      InvOnRuns(h.before);
      PoisonPersists(State(h.before), h.step);
    }
  }

  /** A poisoned process stays out of service until another process replaces it. */
  lemma PoisonIsTerminal(h: History, earlier: History)
    requires Obeys(None, h) && Continues(h, earlier) && Poisoned(State(earlier))
    ensures Poisoned(State(h)) && OutOfService(State(h).entry)
  {
    PoisonPersistsOnRuns(h, earlier);
    InvOnRuns(h);
    PoisonedIsOutOfService(State(h));
  }

  /** A restore that fails after a request was sent ends in RestartRequired unless the process is gone. */
  lemma FailedRestoreNeedsRestart(h: History)
    requires Obeys(None, h)
    requires var s := State(h); s.call.Failing? && Sent(s.trace)
    ensures var t := Next(State(h), FailureMove);
            t.call.NoCall? && (t.entry.phase.RestartRequired? || t.entry.phase.Stopped?) && !t.entry.phase.IsRoutable()
  {
    hide State, Obeys;
    InvOnRuns(h);
  }

  /**
   Without rule 3 the failing return itself reopens the process exactly when a stop
   has moved it to Stopping: the failure is then taken for one before the first request.
   */
  lemma FailingReturnReopensIff(s: Process)
    requires s.call.FailedCall? && s.entry.pid == Some(s.call.pid)
    requires !s.entry.phase.IsRoutable() && !s.entry.phase.EngineHealthy?
    ensures Next(Next(s, FailureRead), FailureMove).entry.phase.IsRoutable() <==> s.entry.phase.Stopping?
  {
  }

  /** The run `h` keeps every rule but the waived one and ends in `s`. */
  predicate Reaches(waived: Option<Rule>, h: History, s: Process) { Obeys(waived, h) && State(h) == s }

  lemma Grow(waived: Option<Rule>, h: History, s: Process, step: Step)
    requires Reaches(waived, h, s) && AllowedWithout(waived, s, step)
    ensures Reaches(waived, After(h, step), Next(s, step))
  {
  }

  const SLOT := SlotManifest(0, SlotFilename(0), 1, 1, Sha256([0]))
  const REGISTER :=
    Register("a", 1, Eligibility(true, false, 1), Some(Fingerprint("f", true)), Policy(true, true, 0))

  /** A registered process in the given phase; its gate is active and no stop is requested. */
  function InPhase(phase: CheckpointPhase): Entry {
    FreshEntry(REGISTER).(phase := phase, routable := phase.IsRoutable())
  }

  /** The first restore request was refused; the restore call is at `call`. */
  function Refused(phase: CheckpointPhase, call: RestoreCall): Process {
    Process(InPhase(phase), call, true, None, [SLOT], [RestoreSent(SLOT, "x", None)])
  }

  lemma RefusedIsPoisonous(phase: CheckpointPhase, call: RestoreCall)
    ensures var s := Refused(phase, call); Sent(s.trace) && !Verified(s.target, s.trace)
  {
    assert Refused(phase, call).trace[0].RestoreSent?;
  }

  lemma RunToHealthy(waived: Option<Rule>) returns (h: History)
    ensures Reaches(waived, h, Fresh(InPhase(EngineHealthy)))
  {
    assert RegistrationAccepted(REGISTER);
    assert Reaches(waived, Begin, START);
    hide Reaches;
    h := After(Begin, Outside(REGISTER));
    Grow(waived, Begin, START, Outside(REGISTER));
    Grow(waived, h, Fresh(InPhase(Starting)), Healthy(1));
    h := After(h, Healthy(1));
  }

  /** Every rule is kept until the first restore request is refused. */
  lemma RunToRefusal(waived: Option<Rule>) returns (h: History)
    ensures Reaches(waived, h, Refused(Restoring, FailedCall(1)))
  {
    hide Reaches;
    h := RunToHealthy(waived);
    var s1 := Fresh(InPhase(EngineHealthy));
    Grow(waived, h, s1, RestoreBegin(1));
    var s2 := s1.(call := Loading(1), called := true);
    Grow(waived, After(h, RestoreBegin(1)), s2, RestoreEnter([SLOT]));
    h := After(After(h, RestoreBegin(1)), RestoreEnter([SLOT]));
    var s3 := Process(InPhase(Restoring), RestoringSlots(1, [SLOT], 0), true, None, [SLOT], []);
    assert Next(s2, RestoreEnter([SLOT])) == s3;
    Grow(waived, h, s3, RestoreSlot("x", None));
    assert [] + [RestoreSent(SLOT, "x", None)] == [RestoreSent(SLOT, "x", None)];
    assert Next(s3, RestoreSlot("x", None)) == Refused(Restoring, FailedCall(1));
    h := After(h, RestoreSlot("x", None));
  }

  lemma SecondDecisionReopens() returns (h: History)
    ensures Reaches(Some(RestoreOnce), h, Refused(ReadyCold, FailedCall(1)))
  {
    hide Reaches;
    h := RunToRefusal(Some(RestoreOnce));
    Grow(Some(RestoreOnce), h, Refused(Restoring, FailedCall(1)), FailRestoreSetup(1));
    h := After(h, FailRestoreSetup(1));
  }

  lemma RunToStopDuringRestore(w: Option<Rule>) returns (h: History)
    requires w == Some(StopAfterRestore)
    ensures Reaches(w, h, Refused(Stopping, Failing(1, false)))
  {
    hide Reaches;
    h := RunToRefusal(w);
    Grow(w, h, Refused(Restoring, FailedCall(1)), FinishStopping(1));
    h := After(h, FinishStopping(1));
    Grow(w, h, Refused(Stopping, FailedCall(1)), FailureRead);
    h := After(h, FailureRead);
  }

  lemma StopDuringRestoreReopens() returns (h: History)
    ensures Reaches(Some(StopAfterRestore), h, Refused(ReadyCold, NoCall))
  {
    hide Reaches;
    var w := Some(StopAfterRestore);
    h := RunToStopDuringRestore(w);
    Grow(w, h, Refused(Stopping, Failing(1, false)), FailureMove);
    h := After(h, FailureMove);
  }

  lemma RunToRestartRequired(w: Option<Rule>) returns (h: History)
    ensures Reaches(w, h, Refused(RestartRequired, NoCall))
  {
    hide Reaches;
    h := RunToRefusal(w);
    Grow(w, h, Refused(Restoring, FailedCall(1)), FailureRead);
    h := After(h, FailureRead);
    Grow(w, h, Refused(Restoring, Failing(1, true)), FailureMove);
    h := After(h, FailureMove);
  }

  lemma RunToStopping(w: Option<Rule>) returns (h: History)
    ensures Reaches(w, h, Refused(Stopping, NoCall))
  {
    hide Reaches;
    h := RunToRestartRequired(w);
    Grow(w, h, Refused(RestartRequired, NoCall), FinishStopping(1));
    h := After(h, FinishStopping(1));
  }

  lemma WrongResumeReopens() returns (h: History)
    ensures Reaches(Some(ResumeDrained), h, Refused(Ready, NoCall))
  {
    hide Reaches;
    var w := Some(ResumeDrained);
    h := RunToStopping(w);
    Grow(w, h, Refused(Stopping, NoCall), Resume(1, Ready));
    h := After(h, Resume(1, Ready));
  }

  /** Each rule on its own is needed: dropping it lets a poisoned process become routable. */
  lemma RuleIsNeeded(rule: Rule) returns (h: History)
    ensures Obeys(Some(rule), h)
    ensures var s := State(h); s.entry.gateActive && s.entry.routable && Sent(s.trace) && !Verified(s.target, s.trace)
  {
    match rule
    case RestoreOnce => h := SecondDecisionReopens(); RefusedIsPoisonous(ReadyCold, FailedCall(1));
    case ResumeDrained => h := WrongResumeReopens(); RefusedIsPoisonous(Ready, NoCall);
    case StopAfterRestore => h := StopDuringRestoreReopens(); RefusedIsPoisonous(ReadyCold, NoCall);
  }
}

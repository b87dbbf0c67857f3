/**
 The checkpoint coordinator: one entry per instance, changed only inside short
 critical sections.  `Apply` is the value-level meaning of one critical section; the
 class `CheckpointCoordinator` in module `CoordinatorCode` is the code that performs it.
 */
module Coordinator {
  import opened Wrappers

  datatype CheckpointPhase =
    | Disabled | Ineligible | Starting | EngineHealthy | Restoring | RestartRequired
    | Ready | ReadyCold | Draining | Saving | Stopping | Stopped
  {
    predicate IsRoutable() { Ready? || ReadyCold? }
  }

  predicate LegalTransition(from: CheckpointPhase, to: CheckpointPhase) {
    match from
    case Starting => to.EngineHealthy? || to.Stopping?
    case EngineHealthy => to.Restoring? || to.ReadyCold? || to.Stopping?
    case Restoring => to.Ready? || to.ReadyCold? || to.RestartRequired? || to.Stopping?
    case RestartRequired => to.Stopping?
    case Ready => to.Draining? || to.Stopping?
    case ReadyCold => to.Draining? || to.Stopping?
    case Draining => to.Saving? || to.Stopping?
    case Saving => to.Stopping?
    case Stopping => to.Stopped? || to.Ready? || to.ReadyCold?
    case Disabled => to.Stopped?
    case Ineligible => to.Stopped?
    case Stopped => false
  }

  datatype Operation = NoOperation | Save | Restore | Clear
  datatype Outcome = NoOutcome | Success | Skipped | Failed

  datatype StoreError =
    | StaleProcessEvent | InvalidStateTransition | UnsupportedConfiguration
    | FingerprintUnavailable | ManifestInvalid | ClearWhileRunning | IoFailure

  type Instant = nat // milliseconds of a monotone clock

  const MILLIS_PER_SECOND := 1000
  const ATTEMPT_SPACING_SECONDS := 60

  datatype IdleSaveSchedule = IdleSaveSchedule(
    dirty: bool,
    task: Option<nat>,
    completedTask: Option<nat>,
    quietSince: Option<Instant>,
    attemptedAt: Option<Instant>)

  const DEFAULT_SCHEDULE := IdleSaveSchedule(false, None, None, None, None)

  /** `Instant::duration_since` saturates at zero. */
  function Elapsed(now: Instant, since: Instant): nat {
    if now < since then 0 else now - since
  }

  /** `IdleSaveSchedule::observe`: the new schedule and whether a save is due. */
  function Observe(s: IdleSaveSchedule, processing: bool, task: Option<nat>, now: Instant, seconds: nat)
    : (IdleSaveSchedule, bool)
  {
    var s1 := if processing || (task.Some? && task != s.task)
              then s.(dirty := true, quietSince := None) else s;
    var s2 := if task.Some? then s1.(task := task) else s1;
    if processing then (s2, false)
    else
      var quiet := if s2.quietSince.Some? then s2.quietSince.value else now;
      var s3 := s2.(quietSince := Some(quiet));
      if !s3.dirty
         || Elapsed(now, quiet) < seconds * MILLIS_PER_SECOND
         || (s3.attemptedAt.Some? &&
             Elapsed(now, s3.attemptedAt.value) < ATTEMPT_SPACING_SECONDS * MILLIS_PER_SECOND)
      then (s3, false)
      else (s3.(dirty := false, attemptedAt := Some(now)), true)
  }

  datatype SlotRecord = SlotRecord(slotId: nat, taskId: Option<nat>, isProcessing: bool)

  /** Later records of one slot replace earlier ones, as when collecting into a map. */
  function Tasks(slots: seq<SlotRecord>): map<nat, Option<nat>> {
    if slots == [] then map[]
    else Tasks(slots[..|slots| - 1])[slots[|slots| - 1].slotId := slots[|slots| - 1].taskId]
  }

  predicate CompleteSlotSet(slots: seq<SlotRecord>, count: nat) {
    && |slots| == count
    && |Tasks(slots)| == |slots|
    && (forall i | 0 <= i < count :: i in Tasks(slots))
    && (forall k | k in Tasks(slots) :: k < count)
  }

  predicate AnyProcessing(slots: seq<SlotRecord>) {
    exists i :: 0 <= i < |slots| && slots[i].isProcessing
  }

  predicate HasRecord(slots: seq<SlotRecord>, k: nat) { exists j :: 0 <= j < |slots| && slots[j].slotId == k }

  /** A complete set has one record for each slot. */
  lemma CompleteIff(slots: seq<SlotRecord>, count: nat)
    ensures CompleteSlotSet(slots, count) <==>
            && |slots| == count
            && (forall k :: 0 <= k < count ==> HasRecord(slots, k))
  {
    TasksCover(slots);
    hide Tasks;
    if |slots| == count && (forall k :: 0 <= k < count ==> HasRecord(slots, k)) {
      FirstNumbers(count, Tasks(slots).Keys);
    }
  }

  lemma {:induction false} TasksCover(slots: seq<SlotRecord>)
    ensures |Tasks(slots)| <= |slots|
    ensures forall k :: k in Tasks(slots) <==> HasRecord(slots, k)
  {
    if slots != [] {
      var n := |slots| - 1;
      TasksCover(slots[..n]);
      assert Tasks(slots).Keys == Tasks(slots[..n]).Keys + {slots[n].slotId};
      forall k | HasRecord(slots[..n], k) ensures HasRecord(slots, k) {
        var j :| 0 <= j < n && slots[..n][j].slotId == k;
        assert slots[j].slotId == k;
      }
      forall k | HasRecord(slots, k) && k != slots[n].slotId ensures HasRecord(slots[..n], k) {
        var j :| 0 <= j < |slots| && slots[j].slotId == k;
        assert slots[..n][j].slotId == k;
      }
      assert HasRecord(slots, slots[n].slotId);
    }
  }

  /** A set with no more than `n` elements that has every number below `n` has no others. */
  lemma {:induction false} FirstNumbers(n: nat, ks: set<nat>)
    requires |ks| <= n && forall k :: 0 <= k < n ==> k in ks
    ensures |ks| == n && forall k :: k in ks ==> k < n
  {
    if n > 0 {
      assert n - 1 in ks;
      FirstNumbers(n - 1, ks - {n - 1});
      assert forall k :: k in ks && k != n - 1 ==> k in ks - {n - 1};
    }
  }

  /** In a complete set every slot has the task that its one record gives. */
  lemma {:induction false} TasksAre(slots: seq<SlotRecord>, j: nat)
    requires |Tasks(slots)| == |slots| && j < |slots|
    ensures slots[j].slotId in Tasks(slots) && Tasks(slots)[slots[j].slotId] == slots[j].taskId
  {
    var n := |slots| - 1;
    TasksCover(slots[..n]);
    assert Tasks(slots).Keys == Tasks(slots[..n]).Keys + {slots[n].slotId};
    if j < n {
      TasksAre(slots[..n], j);
      assert slots[..n][j] == slots[j];
      assert slots[n].slotId !in Tasks(slots[..n]).Keys;
    }
  }

  datatype Policy = Policy(autoSave: bool, autoRestore: bool, idleSaveSeconds: nat)
  datatype Fingerprint = Fingerprint(digest: string, wellFormed: bool)
  datatype Eligibility = Eligibility(eligible: bool, disabled: bool, slotCount: nat)

  datatype Entry = Entry(
    pid: Option<nat>,
    phase: CheckpointPhase,
    routable: bool,
    gateActive: bool,
    stopRequested: bool,
    operation: Operation,
    outcome: Outcome,
    fingerprint: Option<Fingerprint>,
    policy: Policy,
    coldRecovery: bool,
    slotCount: nat,
    idleSlots: map<nat, Option<nat>>,
    idle: IdleSaveSchedule)

  /** One critical section.  Every one names the instance; most name the process too. */
  datatype Call =
    | Register(id: string, pid: nat, eligibility: Eligibility, fingerprint: Option<Fingerprint>, policy: Policy)
    | PrepareColdRecovery(id: string, pid: nat)
    | IdleSaveDue(id: string, pid: nat, slots: seq<SlotRecord>, activeRequests: nat, now: Instant)
    | CompletedRequest(id: string, pid: nat, task: nat)
    | RequestStop(id: string, pid: nat, stopping: bool)
    | Transition(id: string, pid: nat, next: CheckpointPhase)
    | UpdateOperation(id: string, pid: nat, operation: Operation, outcome: Outcome)
    | MarkStopped(id: string, pid: nat)
    | UnexpectedExit(id: string, pid: nat)
    | ClearInstance(id: string, removed: bool)

  predicate ValidIdentifier(id: string) {
    && 0 < |id| <= 128
    && forall i :: 0 <= i < |id| ==>
         'a' <= id[i] <= 'z' || 'A' <= id[i] <= 'Z' || '0' <= id[i] <= '9' || id[i] == '-' || id[i] == '_'
  }

  predicate RegistrationAccepted(c: Call)
    requires c.Register?
  {
    && ValidIdentifier(c.id) && c.pid != 0
    && (c.eligibility.eligible ==>
          && c.eligibility.slotCount in {1, 2, 4}
          && c.fingerprint.Some? && c.fingerprint.value.wellFormed)
  }

  function FreshEntry(c: Call): Entry
    requires c.Register?
  {
    Entry(Some(c.pid),
          if c.eligibility.eligible then Starting else if c.eligibility.disabled then Disabled else Ineligible,
          !c.eligibility.eligible, c.eligibility.eligible, false, NoOperation,
          if c.eligibility.eligible || c.eligibility.disabled then NoOutcome else Skipped,
          c.fingerprint, c.policy, false, c.eligibility.slotCount, map[], DEFAULT_SCHEDULE)
  }

  function Moved(e: Entry, next: CheckpointPhase): Entry {
    e.(phase := next, routable := !e.stopRequested && next.IsRoutable())
  }

  predicate IdlePollAccepted(e: Entry, pid: nat) {
    && e.gateActive && !e.stopRequested && e.pid == Some(pid) && e.phase.IsRoutable()
    && e.policy.autoSave && e.policy.idleSaveSeconds != 0
  }

  /** The body of `idle_save_due` after its guards. */
  function IdlePoll(e: Entry, slots: seq<SlotRecord>, activeRequests: nat, now: Instant): (Entry, bool) {
    if !CompleteSlotSet(slots, e.slotCount) then (e.(idle := e.idle.(quietSince := None)), false)
    else
      var e1 := if e.idleSlots != Tasks(slots)
                then e.(idle := e.idle.(dirty := true, quietSince := None), idleSlots := Tasks(slots)) else e;
      var (idle, due) :=
        Observe(e1.idle, AnyProcessing(slots) || activeRequests > 0, None, now, e1.policy.idleSaveSeconds);
      (e1.(idle := idle), due)
  }

  /**
   When an idle save is due: the registered process is open, idle saves are on, every slot is seen idle
   with the tasks already known, something happened since the last signal, and it has been quiet and
   unsignalled for long enough.
   */
  predicate SignalDue(e: Entry, pid: nat, slots: seq<SlotRecord>, activeRequests: nat, now: Instant) {
    && e.gateActive && !e.stopRequested && e.pid == Some(pid) && (e.phase.Ready? || e.phase.ReadyCold?)
    && e.policy.autoSave && e.policy.idleSaveSeconds > 0
    && CompleteSlotSet(slots, e.slotCount) && (forall i :: 0 <= i < |slots| ==> !slots[i].isProcessing)
    && activeRequests == 0 && e.idleSlots == Tasks(slots)
    && e.idle.dirty
    && e.idle.quietSince.Some? && now >= e.idle.quietSince.value + 1000 * e.policy.idleSaveSeconds
    && (e.idle.attemptedAt.Some? ==> now >= e.idle.attemptedAt.value + 60_000)
  }

  /** A poll signals exactly then. */
  lemma PollSignalsIff(e: Entry, pid: nat, slots: seq<SlotRecord>, activeRequests: nat, now: Instant)
    ensures IdlePollAccepted(e, pid) && IdlePoll(e, slots, activeRequests, now).1 <==> SignalDue(e, pid, slots, activeRequests, now)
  {
    hide CompleteSlotSet, Tasks;
  }

  predicate CompletionAccepted(e: Entry, pid: nat, task: nat) {
    e.gateActive && e.pid == Some(pid) && e.phase.IsRoutable() && e.idle.completedTask != Some(task)
  }

  /** What an existing entry becomes under a call that names its instance and is not a registration. */
  function ApplyEntry(e: Entry, c: Call): Entry
    requires !c.Register?
  {
    match c
    case PrepareColdRecovery(_, pid) =>
      if e.pid == Some(pid) && e.phase.Starting?
      then e.(coldRecovery := true, policy := e.policy.(autoRestore := false)) else e
    case IdleSaveDue(_, pid, slots, activeRequests, now) =>
      if IdlePollAccepted(e, pid) then IdlePoll(e, slots, activeRequests, now).0 else e
    case CompletedRequest(_, pid, task) =>
      if CompletionAccepted(e, pid, task)
      then e.(idle := e.idle.(completedTask := Some(task), dirty := true, quietSince := None)) else e
    case RequestStop(_, pid, stopping) =>
      if e.pid == Some(pid)
      then e.(stopRequested := stopping, routable := !stopping && (!e.gateActive || e.phase.IsRoutable())) else e
    case Transition(_, pid, next) =>
      if e.pid == Some(pid) && LegalTransition(e.phase, next) then Moved(e, next) else e
    case UpdateOperation(_, pid, operation, outcome) =>
      if e.pid == Some(pid) then e.(operation := operation, outcome := outcome) else e
    case MarkStopped(_, pid) =>
      if e.pid != Some(pid) then e
      else if !e.gateActive then e.(phase := Stopped, routable := false)
      else if LegalTransition(e.phase, Stopped) then Moved(e, Stopped).(gateActive := false) else e
    case UnexpectedExit(_, pid) =>
      if e.pid != Some(pid) then e
      else e.(gateActive := false, phase := Stopped, routable := false,
              outcome := if e.phase.Stopping? then e.outcome else Skipped)
    case ClearInstance(_, removed) =>
      if e.pid.Some? && !e.phase.Stopped? then e else ClearedEntry(removed)
    // Registration replaces the entry without looking at it.
    case Register(_, _, _, _, _) => e
  }

  function ClearedEntry(removed: bool): Entry {
    Entry(None, Stopped, false, false, false, Clear, if removed then Success else Skipped, None, Policy(true, true, 0), false, 1, map[],
          DEFAULT_SCHEDULE)
  }

  function Apply(entries: map<string, Entry>, c: Call): map<string, Entry> {
    if c.Register? then
      if RegistrationAccepted(c) then entries[c.id := FreshEntry(c)] else entries
    else if c.id in entries then entries[c.id := ApplyEntry(entries[c.id], c)]
    else if c.ClearInstance? && ValidIdentifier(c.id) then entries[c.id := ClearedEntry(c.removed)]
    else entries
  }

  function Run(entries: map<string, Entry>, calls: seq<Call>): map<string, Entry> {
    if calls == [] then entries
    else Apply(Run(entries, calls[..|calls| - 1]), calls[|calls| - 1])
  }

  predicate GateAllowsRouting(e: Entry) { !e.stopRequested && (!e.gateActive || e.routable) }

  function Priority(phase: CheckpointPhase): nat {
    match phase
    case Restoring => 0
    case Saving => 1
    case Draining => 2
    case EngineHealthy => 3
    case Starting => 4
    case Stopping => 5
    case _ => 6
  }

  /** The entries that `blocked_phase` filters in. */
  predicate Blocks(e: Entry) { (e.gateActive || e.stopRequested) && !e.routable }
}

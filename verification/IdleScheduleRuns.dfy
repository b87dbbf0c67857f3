/** When idle saves fire, over every sequence of calls within one registration. */
module IdleScheduleRuns {
  import opened Wrappers
  import opened Coordinator

  /** Calls on one instance that belong to one registration. */
  predicate OneRegistration(calls: seq<Call>) {
    forall i :: 0 <= i < |calls| ==> !calls[i].Register? && !calls[i].ClearInstance?
  }

  function EntryAfter(e: Entry, calls: seq<Call>): Entry
    requires OneRegistration(calls)
  {
    if calls == [] then e
    else
      assert OneRegistration(calls[..|calls| - 1]);
      ApplyEntry(EntryAfter(e, calls[..|calls| - 1]), calls[|calls| - 1])
  }

  /** The single-entry view is what the coordinator does to that entry. */
  lemma {:induction false} EntryAfterIsRun(entries: map<string, Entry>, calls: seq<Call>, id: string)
    requires id in entries && OneRegistration(calls) && forall i :: 0 <= i < |calls| ==> calls[i].id == id
    ensures id in Run(entries, calls) && Run(entries, calls)[id] == EntryAfter(entries[id], calls)
  {
    if calls != [] {
      EntryAfterIsRun(entries, calls[..|calls| - 1], id);
    }
  }

  predicate Polled(e: Entry, c: Call) { c.IdleSaveDue? && IdlePollAccepted(e, c.pid) }

  predicate SignalsDue(e: Entry, c: Call) { Polled(e, c) && IdlePoll(e, c.slots, c.activeRequests, c.now).1 }

  /** An accepted observation of activity: work in progress, a changed task, or a finished request. */
  predicate ShowsActivity(e: Entry, c: Call) {
    || (Polled(e, c) && CompleteSlotSet(c.slots, e.slotCount)
        && (AnyProcessing(c.slots) || c.activeRequests > 0 || e.idleSlots != Tasks(c.slots)))
    || (c.CompletedRequest? && CompletionAccepted(e, c.pid, c.task))
  }

  /** An accepted poll that did not see every slot. */
  predicate ShowsGap(e: Entry, c: Call) { Polled(e, c) && !CompleteSlotSet(c.slots, e.slotCount) }

  /** What call number `i` of the run did, judged on the entry it met. */
  predicate DueAt(e: Entry, calls: seq<Call>, i: nat)
    requires OneRegistration(calls) && i < |calls|
  {
    SignalsDue(EntryAfter(e, calls[..i]), calls[i])
  }

  predicate ActiveAt(e: Entry, calls: seq<Call>, i: nat)
    requires OneRegistration(calls) && i < |calls|
  {
    ShowsActivity(EntryAfter(e, calls[..i]), calls[i])
  }

  predicate GapAt(e: Entry, calls: seq<Call>, i: nat)
    requires OneRegistration(calls) && i < |calls|
  {
    ShowsGap(EntryAfter(e, calls[..i]), calls[i])
  }

  predicate MonotoneClock(calls: seq<Call>) {
    forall i, j :: 0 <= i < j < |calls| && calls[i].IdleSaveDue? && calls[j].IdleSaveDue? ==> calls[i].now <= calls[j].now
  }

  /** The schedule after the run, explained by the run alone. */
  predicate Explained(e: Entry, calls: seq<Call>, lastDue: Option<nat>, lastActive: Option<nat>, quietFrom: Option<nat>)
    requires OneRegistration(calls)
  {
    var n := |calls|;
    var s := EntryAfter(e, calls).idle;
    // lastDue is the last due signal
    && (lastDue.Some? ==> lastDue.value < n && DueAt(e, calls, lastDue.value) && s.attemptedAt == Some(calls[lastDue.value].now))
    && (lastDue.None? ==> s.attemptedAt.None?)
    && (forall i :: 0 <= i < n && DueAt(e, calls, i) ==> lastDue.Some? && i <= lastDue.value)
    // dirty means activity since then
    && (s.dirty ==> lastActive.Some? && lastActive.value < n && ActiveAt(e, calls, lastActive.value)
                    && (lastDue.Some? ==> lastDue.value < lastActive.value))
    // quietFrom is the poll that opened the current quiet stretch
    && (s.quietSince.Some? ==>
          && quietFrom.Some? && quietFrom.value < n && calls[quietFrom.value].IdleSaveDue?
          && s.quietSince.value == calls[quietFrom.value].now
          && forall i :: quietFrom.value < i < n ==> !ActiveAt(e, calls, i) && !GapAt(e, calls, i))
  }

  lemma PrefixFacts(e: Entry, calls: seq<Call>, i: nat)
    requires OneRegistration(calls) && i < |calls| - 1
    ensures OneRegistration(calls[..|calls| - 1])
    ensures DueAt(e, calls, i) == DueAt(e, calls[..|calls| - 1], i)
    ensures ActiveAt(e, calls, i) == ActiveAt(e, calls[..|calls| - 1], i)
    ensures GapAt(e, calls, i) == GapAt(e, calls[..|calls| - 1], i)
  {
    assert calls[..|calls| - 1][..i] == calls[..i];
  }

  /** What one call does to the schedule, in terms of the three observations. */
  lemma StepEffect(e: Entry, c: Call)
    requires !c.Register? && !c.ClearInstance?
    ensures var s, t := e.idle, ApplyEntry(e, c).idle;
            && (SignalsDue(e, c) ==> t.attemptedAt == Some(c.now) && !t.dirty)
            && (!SignalsDue(e, c) ==> t.attemptedAt == s.attemptedAt)
            && (t.dirty ==> s.dirty || ShowsActivity(e, c))
            && (t.quietSince.Some? && (ShowsActivity(e, c) || ShowsGap(e, c)) ==> c.IdleSaveDue? && t.quietSince == Some(c.now))
            && (t.quietSince.Some? ==> t.quietSince == s.quietSince || (c.IdleSaveDue? && t.quietSince == Some(c.now)))
  {
    hide CompleteSlotSet, AnyProcessing, Tasks;
  }

  lemma {:induction false} ScheduleExplained(e: Entry, calls: seq<Call>)
    returns (lastDue: Option<nat>, lastActive: Option<nat>, quietFrom: Option<nat>)
    requires OneRegistration(calls) && e.idle == DEFAULT_SCHEDULE
    ensures Explained(e, calls, lastDue, lastActive, quietFrom)
  {
    hide SignalsDue, ShowsActivity, ShowsGap, ApplyEntry;
    if calls == [] {
      lastDue, lastActive, quietFrom := None, None, None;
      return;
    }
    var n := |calls| - 1;
    var before, c := calls[..n], calls[n];
    lastDue, lastActive, quietFrom := ScheduleExplained(e, before);
    var f := EntryAfter(e, before);
    StepEffect(f, c);
    forall i: nat | i < n
      ensures DueAt(e, calls, i) == DueAt(e, before, i)
      ensures ActiveAt(e, calls, i) == ActiveAt(e, before, i)
      ensures GapAt(e, calls, i) == GapAt(e, before, i)
    {
      PrefixFacts(e, calls, i);
    }
    assert DueAt(e, calls, n) == SignalsDue(f, c);
    assert ActiveAt(e, calls, n) == ShowsActivity(f, c);
    assert GapAt(e, calls, n) == ShowsGap(f, c);
    if SignalsDue(f, c) { lastDue := Some(n); }
    if ShowsActivity(f, c) { lastActive := Some(n); }
    var t := EntryAfter(e, calls).idle;
    if t.quietSince.Some? && (t.quietSince != f.idle.quietSince || ShowsActivity(f, c) || ShowsGap(f, c)) {
      quietFrom := Some(n);
    }
  }

  /** A signal needs earlier activity, sixty seconds since the last signal, and a quiet stretch. */
  lemma DueConditions(e: Entry, c: Call)
    requires SignalsDue(e, c)
    ensures CompleteSlotSet(c.slots, e.slotCount) && !ShowsActivity(e, c) && !ShowsGap(e, c)
    ensures e.idle.dirty && e.idle.quietSince.Some?
    ensures Elapsed(c.now, e.idle.quietSince.value) >= e.policy.idleSaveSeconds * MILLIS_PER_SECOND
    ensures e.idle.attemptedAt.Some? ==>
              Elapsed(c.now, e.idle.attemptedAt.value) >= ATTEMPT_SPACING_SECONDS * MILLIS_PER_SECOND
  {
  }

  /** Two due signals are a minute apart, with activity seen in between. */
  lemma DueSignalsAreSpaced(e: Entry, calls: seq<Call>, i: nat, j: nat) returns (a: nat)
    requires OneRegistration(calls) && MonotoneClock(calls) && e.idle == DEFAULT_SCHEDULE
    requires i < j < |calls| && DueAt(e, calls, i) && DueAt(e, calls, j)
    ensures calls[j].now - calls[i].now >= 60_000
    ensures i < a < j && ActiveAt(e, calls, a)
  {
    var before := calls[..j];
    var lastDue, lastActive, quietFrom := ScheduleExplained(e, before);
    DueConditions(EntryAfter(e, before), calls[j]);
    assert before[..i] == calls[..i];
    assert DueAt(e, before, i);
    a := lastActive.value;
    assert before[..a] == calls[..a];
  }

  /** A due signal sees every slot and ends a quiet stretch of the configured length. */
  lemma DueSignalFollowsQuiet(e: Entry, calls: seq<Call>, j: nat) returns (p: nat)
    requires OneRegistration(calls) && MonotoneClock(calls) && e.idle == DEFAULT_SCHEDULE
    requires j < |calls| && DueAt(e, calls, j)
    ensures var f := EntryAfter(e, calls[..j]);
            && CompleteSlotSet(calls[j].slots, f.slotCount)
            && p < j && calls[p].IdleSaveDue?
            && calls[j].now - calls[p].now >= 1000 * f.policy.idleSaveSeconds
    ensures forall i :: p < i <= j ==> !ActiveAt(e, calls, i) && !GapAt(e, calls, i)
  {
    var before := calls[..j];
    var lastDue, lastActive, quietFrom := ScheduleExplained(e, before);
    DueConditions(EntryAfter(e, before), calls[j]);
    p := quietFrom.value;
    forall i | p < i <= j
      ensures !ActiveAt(e, calls, i) && !GapAt(e, calls, i)
    {
      if i < j {
        assert before[..i] == calls[..i];
        assert !ActiveAt(e, before, i) && !GapAt(e, before, i);
      }
    }
  }

  /** An accepted poll that sees every slot idle and nothing in flight. */
  predicate SeesQuiet(e: Entry, c: Call) {
    Polled(e, c) && CompleteSlotSet(c.slots, e.slotCount) && !AnyProcessing(c.slots) && c.activeRequests == 0
  }

  predicate QuietAt(e: Entry, calls: seq<Call>, i: nat)
    requires OneRegistration(calls) && i < |calls|
  {
    SeesQuiet(EntryAfter(e, calls[..i]), calls[i])
  }

  /** One call makes the schedule dirty by showing activity and clean by signalling; nothing else matters. */
  lemma StepDirty(e: Entry, c: Call)
    requires !c.Register? && !c.ClearInstance?
    ensures ApplyEntry(e, c).idle.dirty <==> !SignalsDue(e, c) && (e.idle.dirty || ShowsActivity(e, c))
  {
    hide CompleteSlotSet, AnyProcessing, Tasks;
  }

  /** A poll that sees quiet opens or continues a quiet stretch, and only activity or a gap ends one. */
  lemma StepQuiet(e: Entry, c: Call)
    requires !c.Register? && !c.ClearInstance?
    ensures var s, t := e.idle, ApplyEntry(e, c).idle;
            && (SeesQuiet(e, c) ==> t.quietSince == s.quietSince || t.quietSince == Some(c.now))
            && (SeesQuiet(e, c) ==> t.quietSince.Some?)
            && (!ShowsActivity(e, c) && !ShowsGap(e, c) && s.quietSince.Some? ==> t.quietSince == s.quietSince)
  {
    hide CompleteSlotSet, AnyProcessing, Tasks;
  }

  lemma {:induction false} StaysDirty(e: Entry, calls: seq<Call>, a: nat)
    requires OneRegistration(calls) && a < |calls| && ActiveAt(e, calls, a)
    requires forall i :: a <= i < |calls| ==> !DueAt(e, calls, i)
    ensures EntryAfter(e, calls).idle.dirty
  {
    hide SignalsDue, ShowsActivity, ApplyEntry;
    var n := |calls| - 1;
    var before := calls[..n];
    StepDirty(EntryAfter(e, before), calls[n]);
    if a < n {
      forall i: nat | i < n
        ensures DueAt(e, calls, i) == DueAt(e, before, i) && ActiveAt(e, calls, i) == ActiveAt(e, before, i)
      {
        PrefixFacts(e, calls, i);
      }
      StaysDirty(e, before, a);
    }
    assert !DueAt(e, calls, n);
  }

  lemma {:induction false} StaysQuiet(e: Entry, calls: seq<Call>, p: nat)
    requires OneRegistration(calls) && MonotoneClock(calls) && e.idle == DEFAULT_SCHEDULE && p < |calls| && QuietAt(e, calls, p)
    requires forall i :: p < i < |calls| ==> !ActiveAt(e, calls, i) && !GapAt(e, calls, i)
    ensures var q := EntryAfter(e, calls).idle.quietSince; q.Some? && q.value <= calls[p].now
  {
    var n := |calls| - 1;
    var before := calls[..n];
    if p < n {
      hide SignalsDue, ShowsActivity, ShowsGap, ApplyEntry, SeesQuiet;
      forall i: nat | i < n
        ensures ActiveAt(e, calls, i) == ActiveAt(e, before, i) && GapAt(e, calls, i) == GapAt(e, before, i)
        ensures QuietAt(e, calls, i) == QuietAt(e, before, i)
      {
        PrefixFacts(e, calls, i);
        assert before[..i] == calls[..i];
      }
      StaysQuiet(e, before, p);
      assert !ActiveAt(e, calls, n) && !GapAt(e, calls, n);
      StepQuiet(EntryAfter(e, before), calls[n]);
    } else {
      var lastDue, lastActive, quietFrom := ScheduleExplained(e, before);
      assert calls[n].IdleSaveDue?;
      hide SignalsDue, ShowsActivity, ShowsGap, ApplyEntry;
      StepQuiet(EntryAfter(e, before), calls[n]);
    }
  }

  /** The tasks known are those of the last complete poll. */
  lemma StepTasks(e: Entry, c: Call)
    requires !c.Register? && !c.ClearInstance?
    ensures SeesQuiet(e, c) ==> ApplyEntry(e, c).idleSlots == Tasks(c.slots)
    ensures !ShowsActivity(e, c) && !ShowsGap(e, c) ==> ApplyEntry(e, c).idleSlots == e.idleSlots
  {
    hide CompleteSlotSet, AnyProcessing, Tasks, Observe;
  }

  lemma {:induction false} StaysKnown(e: Entry, calls: seq<Call>, p: nat)
    requires OneRegistration(calls) && p < |calls| && calls[p].IdleSaveDue? && QuietAt(e, calls, p)
    requires forall i :: p < i < |calls| ==> !ActiveAt(e, calls, i) && !GapAt(e, calls, i)
    ensures EntryAfter(e, calls).idleSlots == Tasks(calls[p].slots)
  {
    hide SignalsDue, ShowsActivity, ShowsGap, ApplyEntry, SeesQuiet, Tasks;
    var n := |calls| - 1;
    var before := calls[..n];
    StepTasks(EntryAfter(e, before), calls[n]);
    if p < n {
      forall i: nat | i < n
        ensures ActiveAt(e, calls, i) == ActiveAt(e, before, i) && GapAt(e, calls, i) == GapAt(e, before, i)
        ensures QuietAt(e, calls, i) == QuietAt(e, before, i)
      {
        assert before[..i] == calls[..i];
      }
      StaysKnown(e, before, p);
      assert !ActiveAt(e, calls, n) && !GapAt(e, calls, n);
    }
  }

  /** A quiet poll with the tasks already known shows no activity. */
  lemma QuietAndKnown(f: Entry, c: Call)
    requires SeesQuiet(f, c) && f.idleSlots == Tasks(c.slots)
    ensures !ShowsActivity(f, c)
  {
    hide CompleteSlotSet, AnyProcessing, Tasks;
  }

  /** The schedule remembers the time of the last signal. */
  lemma LastSignal(e: Entry, calls: seq<Call>) returns (lastDue: Option<nat>)
    requires OneRegistration(calls) && e.idle == DEFAULT_SCHEDULE
    ensures lastDue.None? ==> EntryAfter(e, calls).idle.attemptedAt.None?
    ensures lastDue.Some? ==>
              && lastDue.value < |calls| && DueAt(e, calls, lastDue.value) && calls[lastDue.value].IdleSaveDue?
              && EntryAfter(e, calls).idle.attemptedAt == Some(calls[lastDue.value].now)
  {
    hide ShowsActivity, ShowsGap, ApplyEntry, EntryAfter, IdlePoll;
    var lastActive, quietFrom;
    lastDue, lastActive, quietFrom := ScheduleExplained(e, calls);
  }

  lemma FiresNow(f: Entry, c: Call, since: Instant)
    requires SeesQuiet(f, c) && !ShowsActivity(f, c) && f.idle.dirty
    requires f.idle.quietSince.Some? && f.idle.quietSince.value <= since && c.now >= since + 1000 * f.policy.idleSaveSeconds
    requires f.idle.attemptedAt.Some? ==> c.now >= f.idle.attemptedAt.value + 60_000
    ensures SignalsDue(f, c)
  {
    hide CompleteSlotSet, Tasks, IdlePoll;
    PollSignalsIff(f, c.pid, c.slots, c.activeRequests, c.now);
  }

  /**
   And conversely, over every run: a poll that sees quiet is due if there was activity since the last
   signal, the configured time has passed since a poll saw quiet and the same tasks, without activity
   or gap in between, and a minute since every earlier signal.
   */
  lemma PollMustBeDue(e: Entry, calls: seq<Call>, a: nat, p: nat, j: nat)
    requires OneRegistration(calls) && MonotoneClock(calls) && e.idle == DEFAULT_SCHEDULE && a < j && p < j < |calls|
    requires calls[p].IdleSaveDue? && calls[j].IdleSaveDue?
    requires QuietAt(e, calls, j) && Tasks(calls[j].slots) == Tasks(calls[p].slots)
    requires ActiveAt(e, calls, a) && forall i :: a <= i < j ==> !DueAt(e, calls, i)
    requires QuietAt(e, calls, p) && forall i :: p < i < j ==> !ActiveAt(e, calls, i) && !GapAt(e, calls, i)
    requires calls[j].now >= calls[p].now + 1000 * EntryAfter(e, calls[..j]).policy.idleSaveSeconds
    requires forall i :: 0 <= i < j && DueAt(e, calls, i) && calls[i].IdleSaveDue? ==> calls[j].now >= calls[i].now + 60_000
    ensures DueAt(e, calls, j)
  {
    hide SignalsDue, ShowsActivity, ShowsGap, SeesQuiet, ApplyEntry, EntryAfter, Explained, Tasks;
    var before := calls[..j];
    forall i: nat | i < j
      ensures DueAt(e, calls, i) == DueAt(e, before, i) && ActiveAt(e, calls, i) == ActiveAt(e, before, i)
      ensures GapAt(e, calls, i) == GapAt(e, before, i) && QuietAt(e, calls, i) == QuietAt(e, before, i)
    {
      assert before[..i] == calls[..i];
    }
    StaysDirty(e, before, a);
    StaysQuiet(e, before, p);
    StaysKnown(e, before, p);
    QuietAndKnown(EntryAfter(e, before), calls[j]);
    var lastDue := LastSignal(e, before);
    if lastDue.Some? { assert DueAt(e, calls, lastDue.value) && calls[lastDue.value] == before[lastDue.value]; }
    FiresNow(EntryAfter(e, before), calls[j], calls[p].now);
  }
}

/**
 Local qualification attempts: the lease, the cancel flag, the blocked marker and the receipt,
 over whole runs with cancellations and crashes.
 */
module Qualification {
  import opened Wrappers

  type FingerprintDigest = string

  const SCHEMA := 3

  datatype SlotResult = SlotResult(id: nat, passed: bool)
  datatype Receipt = Receipt(
    schema: nat, fingerprint: FingerprintDigest, hardware: string, oldProcessExited: bool,
    processesExited: seq<bool>, slots: seq<SlotResult>)

  predicate Matches(r: Receipt, fp: FingerprintDigest, hardware: string, slots: nat) {
    && r.schema == SCHEMA && r.fingerprint == fp && r.hardware == hardware && r.oldProcessExited
    && |r.processesExited| >= 4 && (forall i :: 0 <= i < |r.processesExited| ==> r.processesExited[i])
    && |r.slots| == slots && (forall i :: 0 <= i < |r.slots| ==> r.slots[i].id == i && r.slots[i].passed)
  }

  datatype Outcome = Passed | Cancelled | Failed

  /** How far the one attempt in progress has come; `wasBlocked` is the marker it found. */
  datatype Attempt =
    | NoAttempt
    | Started(fp: FingerprintDigest)
    | Marked(fp: FingerprintDigest, wasBlocked: bool)
    | Concluded(fp: FingerprintDigest, wasBlocked: bool, outcome: Outcome)

  datatype State = State(
    active: Option<string>, cancel: bool, leases: multiset<string>,
    blocked: set<FingerprintDigest>, receipts: map<FingerprintDigest, Receipt>, attempt: Attempt)

  const INITIAL := State(None, false, multiset{}, {}, map[], NoAttempt)

  predicate Qualified(s: State, fp: FingerprintDigest, hardware: string, slots: nat) {
    fp !in s.blocked && fp in s.receipts && Matches(s.receipts[fp], fp, hardware, slots)
  }

  datatype Step =
    | Reserve(id: string)
    | Cancel(id: string)
    | DropLease(id: string)
    | Begin(fp: FingerprintDigest)
    | Abort                                          // an error before the pair has run
    | Mark(written: bool, ok: bool)                  // the blocked marker
    | Pair(outcome: Outcome, receipt: Option<Receipt>)
    | Finish(removed: bool)                          // finish_attempt_marker
    | Crash

  predicate ClearsMarker(a: Attempt) { a.Concluded? && (a.outcome.Passed? || (a.outcome.Cancelled? && !a.wasBlocked)) }

  function Next(s: State, step: Step): State {
    match step
    case Reserve(id) =>
      if s.active.Some? then s else s.(active := Some(id), cancel := false, leases := s.leases + multiset{id})
    case Cancel(id) => if s.active == Some(id) then s.(cancel := true) else s
    case DropLease(id) =>
      if id in s.leases
      then s.(leases := s.leases - multiset{id}, active := if s.active == Some(id) then None else s.active, attempt := NoAttempt)
      else s
    case Begin(fp) => if s.attempt.NoAttempt? && s.active.Some? && !s.cancel then s.(attempt := Started(fp)) else s
    case Abort => s.(attempt := NoAttempt)
    case Mark(written, ok) =>
      if !s.attempt.Started? then s
      else
        var fp := s.attempt.fp;
        s.(blocked := if written then s.blocked + {fp} else s.blocked,
           attempt := if written && ok then Marked(fp, fp in s.blocked) else NoAttempt)
    case Pair(outcome, receipt) =>
      if !s.attempt.Marked? then s
      else s.(receipts := if receipt.Some? then s.receipts[s.attempt.fp := receipt.value] else s.receipts,
              attempt := Concluded(s.attempt.fp, s.attempt.wasBlocked, outcome))
    case Finish(removed) =>
      if !s.attempt.Concluded? then s
      else s.(blocked := if ClearsMarker(s.attempt) && removed then s.blocked - {s.attempt.fp} else s.blocked,
              attempt := NoAttempt)
    case Crash => State(None, false, multiset{}, s.blocked, s.receipts, NoAttempt)
  }

  /** A lease is dropped by its holder at the end of its run; a pair ends cancelled only if asked to. */
  predicate Allowed(s: State, step: Step) {
    match step
    case DropLease(id) => s.attempt.NoAttempt?
    case Pair(outcome, receipt) => (outcome.Cancelled? ==> s.cancel && receipt.None?) && (outcome.Passed? ==> receipt.Some?)
    case _ => true
  }

  datatype History = Empty | Then(before: History, step: Step)

  function After(h: History): State { if h.Empty? then INITIAL else Next(After(h.before), h.step) }

  predicate Legal(h: History) { h.Then? ==> Legal(h.before) && Allowed(After(h.before), h.step) }

  /** The step ends an attempt for `fp` whose marker has been written, without success. */
  predicate Fails(s: State, step: Step, fp: FingerprintDigest) {
    match step
    case Mark(written, ok) => s.attempt == Started(fp) && written && !ok
    case Abort => (s.attempt.Marked? || s.attempt.Concluded?) && s.attempt.fp == fp
    case Crash => (s.attempt.Marked? || s.attempt.Concluded?) && s.attempt.fp == fp
    case Finish(removed) => s.attempt.Concluded? && s.attempt.fp == fp && s.attempt.outcome.Failed?
    case _ => false
  }

  predicate Succeeds(s: State, step: Step, fp: FingerprintDigest) {
    step.Finish? && s.attempt.Concluded? && s.attempt.fp == fp && s.attempt.outcome.Passed?
  }

  /** The last attempt for `fp` that was not cancelled failed. */
  predicate Revoked(h: History, fp: FingerprintDigest) {
    h.Then? && (Fails(After(h.before), h.step, fp) || (Revoked(h.before, fp) && !Succeeds(After(h.before), h.step, fp)))
  }

  predicate Inv(s: State) {
    && s.leases == (if s.active.Some? then multiset{s.active.value} else multiset{})
    && (s.attempt.Marked? || s.attempt.Concluded? ==> s.attempt.fp in s.blocked)
    && (!s.attempt.NoAttempt? ==> s.active.Some?)
  }

  lemma {:induction false} InvOnRuns(h: History)
    requires Legal(h)
    ensures Inv(After(h))
  {
    hide Inv, Next, Allowed;
    if h.Then? {
      InvOnRuns(h.before);
      NextKeepsInv(After(h.before), h.step);
    } else {
      InvInitially();
    }
  }

  lemma InvInitially() ensures Inv(INITIAL) {
  }

  predicate OfLease(step: Step) { step.Reserve? || step.DropLease? || step.Cancel? || step.Crash? }

  lemma LeaseStepKeepsInv(s: State, step: Step)
    requires Inv(s) && Allowed(s, step) && OfLease(step)
    ensures Inv(Next(s, step))
  {
    match step
    case Reserve(id) => assert multiset{} + multiset{id} == multiset{id};
    case DropLease(id) =>
      if id in s.leases {
        assert s.leases == multiset{id};
        assert multiset{id} - multiset{id} == multiset{};
      }
    case _ =>
  }

  lemma AttemptStepKeepsInv(s: State, step: Step)
    requires Inv(s) && Allowed(s, step) && !OfLease(step)
    ensures Inv(Next(s, step))
  {
    assert Next(s, step).leases == s.leases && Next(s, step).active == s.active;
  }

  lemma NextKeepsInv(s: State, step: Step)
    requires Inv(s) && Allowed(s, step)
    ensures Inv(Next(s, step))
  {
    hide Inv, Next, Allowed;
    if OfLease(step) { LeaseStepKeepsInv(s, step); } else { AttemptStepKeepsInv(s, step); }
  }

  /** At most one lease exists, and it is the one a cancellation can reach. */
  lemma OneLease(h: History)
    requires Legal(h)
    ensures |After(h).leases| <= 1
    ensures forall id :: id in After(h).leases <==> After(h).active == Some(id)
  {
    InvOnRuns(h);
  }

  /** Whoever reserves first can begin, whatever was cancelled before; whoever comes second changes nothing. */
  lemma ReservedCanBegin(h: History, id: string, fp: FingerprintDigest)
    requires Legal(h)
    ensures After(h).active.None? ==>
              var reserved := After(Then(h, Reserve(id)));
              && reserved.active == Some(id) && id in reserved.leases && !reserved.cancel
              && After(Then(Then(h, Reserve(id)), Begin(fp))) == reserved.(attempt := Started(fp))
    ensures After(h).active.Some? ==> After(Then(h, Reserve(id))) == After(h)
  {
    InvOnRuns(h);
    assert After(Then(h, Reserve(id))) == Next(After(h), Reserve(id));
    assert After(Then(Then(h, Reserve(id)), Begin(fp))) == Next(After(Then(h, Reserve(id))), Begin(fp));
  }

  /** Cancelling any other id changes nothing. */
  lemma ForeignCancelIsInert(h: History, id: string)
    requires Legal(h) && id !in After(h).leases
    ensures After(Then(h, Cancel(id))) == After(h)
  {
    InvOnRuns(h);
  }

  /** Cancelling the id that holds the lease asks its attempt to stop, changes nothing else, and lets no further attempt begin. */
  lemma CancelReachesLease(h: History, id: string, fp: FingerprintDigest)
    requires Legal(h) && id in After(h).leases
    ensures After(Then(h, Cancel(id))) == After(h).(cancel := true)
    ensures After(Then(Then(h, Cancel(id)), Begin(fp))) == After(Then(h, Cancel(id)))
  {
    InvOnRuns(h);
    assert After(Then(h, Cancel(id))) == Next(After(h), Cancel(id));
    assert After(Then(Then(h, Cancel(id)), Begin(fp))) == Next(After(Then(h, Cancel(id))), Begin(fp));
  }

  /** The marker is there, and an attempt that has come past it found it. */
  predicate Held(s: State, fp: FingerprintDigest) {
    && fp in s.blocked
    && ((s.attempt.Marked? || s.attempt.Concluded?) && s.attempt.fp == fp ==> s.attempt.wasBlocked)
  }

  lemma NextHolds(s: State, step: Step, fp: FingerprintDigest)
    requires Inv(s) && Allowed(s, step) && (Fails(s, step, fp) || (Held(s, fp) && !Succeeds(s, step, fp)))
    ensures Held(Next(s, step), fp)
  {
    match step
    case Mark(written, ok) =>
    case Finish(removed) =>
    case _ =>
  }

  lemma {:induction false} RevokedIsBlocked(h: History, fp: FingerprintDigest)
    requires Legal(h) && Revoked(h, fp)
    ensures Held(After(h), fp)
  {
    hide Held, Inv, Next, Fails, Succeeds, Allowed;
    InvOnRuns(h.before);
    if Revoked(h.before, fp) { RevokedIsBlocked(h.before, fp); }
    NextHolds(After(h.before), h.step, fp);
  }

  predicate Extends(h: History, earlier: History) { h == earlier || (h.Then? && Extends(h.before, earlier)) }

  /** No attempt for `fp` succeeds between the two histories. */
  predicate NoSuccessSince(h: History, earlier: History, fp: FingerprintDigest)
    requires Extends(h, earlier)
  {
    h == earlier || (!Succeeds(After(h.before), h.step, fp) && NoSuccessSince(h.before, earlier, fp))
  }

  lemma {:induction false} StaysRevoked(h: History, earlier: History, fp: FingerprintDigest)
    requires Extends(h, earlier) && Revoked(earlier, fp) && NoSuccessSince(h, earlier, fp)
    ensures Revoked(h, fp)
  {
    if h != earlier { StaysRevoked(h.before, earlier, fp); }
  }

  /**
   After an attempt fails or is cut off with its marker written, the fingerprint does not qualify
   until a later attempt for it succeeds, whatever is cancelled, attempted or crashes in between.
   */
  lemma FailureHolds(h: History, earlier: History, fp: FingerprintDigest, hardware: string, slots: nat)
    requires Legal(h) && Extends(h, earlier) && earlier.Then? && Fails(After(earlier.before), earlier.step, fp)
    requires NoSuccessSince(h, earlier, fp)
    ensures !Qualified(After(h), fp, hardware, slots)
  {
    StaysRevoked(h, earlier, fp);
    RevokedIsBlocked(h, fp);
  }

  /** While an attempt runs, its fingerprint does not qualify either. */
  lemma RunningDoesNotQualify(h: History, hardware: string, slots: nat)
    requires Legal(h) && (After(h).attempt.Marked? || After(h).attempt.Concluded?)
    ensures !Qualified(After(h), After(h).attempt.fp, hardware, slots)
  {
    InvOnRuns(h);
  }

  /** The outcome and the receipt of the last attempt for `fp` that left a receipt. */
  function LastReceipt(h: History, fp: FingerprintDigest): Option<(Outcome, Receipt)> {
    if h.Empty? then None
    else if h.step.Pair? && h.step.receipt.Some? && After(h.before).attempt.Marked? && After(h.before).attempt.fp == fp
    then Some((h.step.outcome, h.step.receipt.value))
    else LastReceipt(h.before, fp)
  }

  /** The stored receipt is the last one left, and one not left by a success is held back by the marker. */
  predicate ReceiptInv(s: State, last: Option<(Outcome, Receipt)>, fp: FingerprintDigest) {
    var concluded := s.attempt.Concluded? && s.attempt.fp == fp;
    && (if fp in s.receipts then last.Some? && last.value.1 == s.receipts[fp] else last.None?)
    && (concluded && s.attempt.outcome.Passed? ==> last.Some? && last.value.0.Passed?)
    && (last.Some? && !last.value.0.Passed? ==>
          Held(s, fp) || (concluded && s.attempt.outcome.Failed? && fp in s.blocked))
  }

  lemma {:induction false} ReceiptOnRuns(h: History, fp: FingerprintDigest)
    requires Legal(h)
    ensures ReceiptInv(After(h), LastReceipt(h, fp), fp)
  {
    hide ReceiptInv, Next, Allowed, Inv;
    if h.Then? {
      ReceiptOnRuns(h.before, fp);
      InvOnRuns(h.before);
      NextKeepsReceipt(After(h.before), h.step, LastReceipt(h.before, fp), fp);
    } else {
      NoReceiptYet(fp);
    }
  }

  lemma NoReceiptYet(fp: FingerprintDigest)
    ensures ReceiptInv(INITIAL, None, fp)
  {
  }

  lemma NextKeepsReceipt(s: State, step: Step, last: Option<(Outcome, Receipt)>, fp: FingerprintDigest)
    requires Inv(s) && Allowed(s, step) && ReceiptInv(s, last, fp)
    ensures ReceiptInv(Next(s, step),
                       if step.Pair? && step.receipt.Some? && s.attempt.Marked? && s.attempt.fp == fp
                       then Some((step.outcome, step.receipt.value)) else last, fp)
  {
    match step
    case Pair(outcome, receipt) =>
    case Finish(removed) =>
    case _ =>
  }

  /** What qualifies was left by an attempt that passed, in full and on this machine. */
  lemma QualifiesOnlyBySuccess(h: History, fp: FingerprintDigest, hardware: string, slots: nat)
    requires Legal(h) && Qualified(After(h), fp, hardware, slots)
    ensures var last := LastReceipt(h, fp);
            && last.Some? && last.value.0.Passed?
            && last.value.1.schema == 3 && last.value.1.fingerprint == fp && last.value.1.hardware == hardware
            && last.value.1.oldProcessExited && |last.value.1.processesExited| >= 4 && false !in last.value.1.processesExited
            && |last.value.1.slots| == slots
            && forall i :: 0 <= i < slots ==> last.value.1.slots[i] == SlotResult(i, true)
  {
    ReceiptOnRuns(h, fp);
  }

  /** Whoever passes qualifies as soon as the marker is gone, exactly if the receipt it left is full and of this machine. */
  lemma SuccessQualifiesIff(h: History, fp: FingerprintDigest, hardware: string, slots: nat)
    requires Legal(h) && After(h).attempt.Concluded? && After(h).attempt.fp == fp && After(h).attempt.outcome.Passed?
    ensures LastReceipt(h, fp).Some?
    ensures var r := LastReceipt(h, fp).value.1;
            Qualified(After(Then(h, Finish(true))), fp, hardware, slots) <==>
            && r.schema == 3 && r.fingerprint == fp && r.hardware == hardware
            && r.oldProcessExited && |r.processesExited| >= 4 && false !in r.processesExited
            && |r.slots| == slots && forall i :: 0 <= i < slots ==> r.slots[i] == SlotResult(i, true)
  {
    ReceiptOnRuns(h, fp);
    assert After(Then(h, Finish(true))) == Next(After(h), Finish(true));
  }

  class Qualifier {
    var s: State
    ghost var h: History

    ghost predicate Valid()
      reads this
    {
      Legal(h) && s == After(h)
    }

    constructor ()
      ensures Valid() && h == Empty
    {
      s, h := INITIAL, Empty;
    }

    method Do(step: Step)
      requires Valid() && Allowed(s, step)
      modifies this
      ensures Valid() && s == Next(old(s), step) && h == Then(old(h), step)
    {
      s, h := Next(s, step), Then(h, step);
    }

    /** Any cancellations by other threads. */
    method Cancellations(ids: seq<string>)
      requires Valid()
      modifies this
      ensures Valid() && s == old(s).(cancel := s.cancel)
      ensures old(s.cancel) ==> s.cancel
      ensures s.active.None? || s.active.value !in ids ==> s == old(s)
      ensures s.active.Some? && s.active.value in ids ==> s.cancel
    {
      hide Legal, After;
      var i := 0;
      while i < |ids|
        invariant 0 <= i <= |ids| && Valid() && s == old(s).(cancel := s.cancel) && (old(s.cancel) ==> s.cancel)
        invariant s.active.None? || s.active.value !in ids ==> s == old(s)
        invariant s.active.Some? && s.active.value in ids[..i] ==> s.cancel
      {
        Do(Cancel(ids[i]));
        assert ids[..i + 1] == ids[..i] + [ids[i]];
        i := i + 1;
      }
      assert ids[..i] == ids;
    }

    /** `run`: one attempt under a lease; `ids` are cancelled by others while the pair runs. */
    method Run(fp: FingerprintDigest, prepared: bool, markWritten: bool, markOk: bool, probed: bool,
               ids: seq<string>, pair: Outcome, receipt: Option<Receipt>, removed: bool)
      returns (ok: bool)
      requires Valid() && s.active.Some? && s.attempt.NoAttempt?
      requires (markOk ==> markWritten) && (pair.Passed? ==> receipt.Some?) && (pair.Cancelled? ==> receipt.None?)
      modifies this
      ensures Valid() && s.attempt.NoAttempt? && s.active == old(s.active)
      ensures forall other :: other != fp ==> (other in s.blocked <==> other in old(s.blocked))
      ensures ok ==> fp !in s.blocked && receipt.Some? && fp in s.receipts && s.receipts[fp] == receipt.value
      ensures ok ==> forall hardware: string, slots: nat ::
                Qualified(s, fp, hardware, slots) <==>
                var r := receipt.value;
                && r.schema == 3 && r.fingerprint == fp && r.hardware == hardware && r.oldProcessExited
                && |r.processesExited| >= 4 && false !in r.processesExited
                && |r.slots| == slots && forall i :: 0 <= i < slots ==> r.slots[i] == SlotResult(i, true)
      // it succeeds exactly if nothing goes wrong on the way and the pair passes
      ensures ok <==> !old(s.cancel) && prepared && markOk && probed && pair.Passed? && removed
      ensures fp in old(s.blocked) && !ok && !(pair.Passed? && removed) ==> fp in s.blocked
      ensures old(s.cancel) || !prepared ==> s == old(s)
      // a cancelled attempt leaves everything as it found it
      ensures markOk && probed && pair.Cancelled? && s.cancel && removed ==>
                s.blocked == old(s.blocked) && s.receipts == old(s.receipts)
      ensures !ok && s.blocked != old(s.blocked) && fp !in old(s.blocked) ==> fp in s.blocked
    {
      hide Legal, After;
      Do(Begin(fp));
      if !s.attempt.Started? { return false; }
      if !prepared { Do(Abort); return false; }
      Do(Mark(markWritten, markOk));
      if !s.attempt.Marked? { return false; }
      if !probed { Do(Abort); return false; }
      Cancellations(ids);
      var outcome := if pair.Cancelled? && !s.cancel then Failed else pair;
      Do(Pair(outcome, receipt));
      Do(Finish(removed));
      return outcome.Passed? && removed;
    }
  }
}

/** Generations of the dynamic n-gram cache: two pointers, so that one commit can always be rolled back. */
module NgramStore {
  import opened Wrappers
  import opened Manifests
  import opened NgramFormat

  type Uuid = nat

  datatype Generation = Generation(id: Uuid, sha256: Digest, bytes: nat)
  datatype PointerFile = Absent | Unreadable | Names(generation: Generation)

  /** The directory: two pointer files and the payloads named by an id. */
  datatype Root = Root(latest: PointerFile, previous: PointerFile, payloads: map<Uuid, Bytes>)

  /** `valid_generation`: the pointer is readable, and its payload is well formed and as announced. */
  ghost predicate ValidGeneration(root: Root, p: PointerFile) {
    && p.Names? && p.generation.id in root.payloads
    && var content := root.payloads[p.generation.id];
       WellFormed(content) && |content| == p.generation.bytes && Sha256(content) == p.generation.sha256
  }

  /** What `prepare` starts from, when it is not the seed. */
  ghost function Selected(root: Root): Option<Uuid> {
    if ValidGeneration(root, root.latest) then Some(root.latest.generation.id)
    else if ValidGeneration(root, root.previous) then Some(root.previous.generation.id)
    else None
  }

  /** The payload a pointer keeps alive. */
  ghost function Retained(root: Root): set<Uuid> {
    (if ValidGeneration(root, root.latest) then {root.latest.generation.id} else {}) +
    (if ValidGeneration(root, root.previous) then {root.previous.generation.id} else {})
  }

  /** An id nothing refers to yet. */
  predicate Unused(root: Root, id: Uuid) {
    && id !in root.payloads
    && (root.latest.Names? ==> root.latest.generation.id != id)
    && (root.previous.Names? ==> root.previous.generation.id != id)
  }

  /** Selected payloads are as they were. */
  ghost predicate KeepsSelected(before: Root, after: Root) {
    Selected(before).Some? ==>
      Selected(before).value in after.payloads && after.payloads[Selected(before).value] == before.payloads[Selected(before).value]
  }

  /**
   Whatever stops a commit of `content` as `id`: the next start selects what it would have
   selected before, or the new candidate in full.
   */
  ghost predicate RollsBack(before: Root, after: Root, id: Uuid, content: Bytes) {
    && KeepsSelected(before, after)
    && (Selected(after) == Selected(before)
        || (Selected(after) == Some(id) && id in after.payloads && after.payloads[id] == content))
  }

  /** A finished commit: the new generation is latest, and the one selected before is the fallback. */
  ghost predicate Committed(before: Root, after: Root, id: Uuid, content: Bytes) {
    && after.latest == Names(Generation(id, Sha256(content), |content|)) && ValidGeneration(after, after.latest)
    && (Selected(before).Some? ==>
          ValidGeneration(after, after.previous) && after.previous.generation.id == Selected(before).value)
    && KeepsSelected(before, after)
  }

  /** Before the new pointer is in place. */
  ghost predicate Staged(before: Root, root: Root, id: Uuid, content: Bytes) {
    && root.latest == before.latest
    && (root.previous == before.previous || (root.previous == before.latest && ValidGeneration(before, before.latest)))
    && root.payloads - {id} == before.payloads
  }

  lemma StagedRollsBack(before: Root, root: Root, id: Uuid, content: Bytes)
    requires Unused(before, id) && Staged(before, root, id, content)
    ensures RollsBack(before, root, id, content) && Selected(root) == Selected(before)
  {
    hide WellFormed;
    StagedValid(before, root, id, content);
    assert Selected(before).Some? ==> Selected(before).value in root.payloads - {id};
  }

  /** Pointers that do not name the new id mean what they meant. */
  lemma StagedValid(before: Root, root: Root, id: Uuid, content: Bytes)
    requires Unused(before, id) && Staged(before, root, id, content)
    ensures ValidGeneration(root, before.latest) <==> ValidGeneration(before, before.latest)
    ensures ValidGeneration(root, before.previous) <==> ValidGeneration(before, before.previous)
  {
    hide WellFormed;
    forall p | p != id
      ensures p in root.payloads <==> p in before.payloads
      ensures p in before.payloads ==> root.payloads[p] == before.payloads[p]
    {
      assert p in root.payloads <==> p in root.payloads - {id};
    }
  }

  /** The pointer is replaced while the payload is complete. */
  lemma ReplacedIsCommitted(before: Root, root: Root, id: Uuid, content: Bytes)
    requires Unused(before, id) && Staged(before, root, id, content) && WellFormed(content)
    requires id in root.payloads && root.payloads[id] == content
    requires ValidGeneration(before, before.latest) ==> root.previous == before.latest
    ensures var after := root.(latest := Names(Generation(id, Sha256(content), |content|)));
            && Committed(before, after, id, content) && RollsBack(before, after, id, content)
            && RollsBack(before, after.(payloads := after.payloads - {id}), id, content)
  {
    hide WellFormed;
    StagedValid(before, root, id, content);
    StagedRollsBack(before, root, id, content);
    var after := root.(latest := Names(Generation(id, Sha256(content), |content|)));
    var cleaned := after.(payloads := after.payloads - {id});
    assert ValidGeneration(after, after.latest);
    assert !ValidGeneration(cleaned, cleaned.latest);
    assert ValidGeneration(cleaned, cleaned.previous) <==> ValidGeneration(root, root.previous) by {
      assert root.previous.Names? ==> root.previous.generation.id != id;
    }
    assert Selected(before).Some? ==> Selected(before).value != id;
  }

  /** Removing payloads no valid pointer names changes neither pointer's validity. */
  lemma CollectedIsCommitted(before: Root, a: Root, b: Root, id: Uuid, content: Bytes)
    requires Committed(before, a, id, content) && b == a.(payloads := b.payloads)
    requires forall p :: p in b.payloads ==> p in a.payloads && b.payloads[p] == a.payloads[p]
    requires forall p :: p in a.payloads && p in Retained(a) ==> p in b.payloads
    ensures Committed(before, b, id, content) && RollsBack(before, b, id, content) && Retained(b) == Retained(a)
  {
    hide WellFormed;
    assert ValidGeneration(b, b.latest);
    assert ValidGeneration(b, b.previous) <==> ValidGeneration(a, a.previous);
  }

  datatype CommitResult = Unchanged | CandidateCommitted | CommitError

  class NgramRun {
    var root: Root
    /** The private file the engine writes, and the digest it started from. */
    var work: Option<Bytes>
    var started: Option<Digest>
    var fates: seq<Fate>
    var crashed: bool

    constructor (root: Root, fates: seq<Fate>)
      ensures this.root == root && this.fates == fates && !crashed && work == None && started == None
    {
      this.root, this.fates, this.crashed, this.work, this.started := root, fates, false, None, None;
    }

    ghost predicate Reliable()
      reads this
    {
      fates == [] && !crashed
    }

    method Attempt() returns (happens: bool, ok: bool)
      modifies this`fates, this`crashed
      ensures ok ==> happens && !crashed
      ensures old(Reliable()) ==> ok && Reliable()
      ensures old(crashed) ==> !happens && crashed
    {
      if crashed { return false, false; }
      if fates == [] { return true, true; }
      var fate := fates[0];
      fates := fates[1..];
      match fate
      case Proceed => return true, true;
      case FailBefore => return false, false;
      case FailAfter => return true, false;
      case CrashBefore => crashed := true; return false, false;
      case CrashAfter => crashed := true; return true, false;
    }

    method CheckGeneration(p: PointerFile) returns (ok: bool)
      ensures ok <==> ValidGeneration(root, p)
    {
      if !p.Names? || p.generation.id !in root.payloads { return false; }
      var r := Validate(root.payloads[p.generation.id]);
      return r == Some((p.generation.bytes, p.generation.sha256));
    }

    /** Where `prepare` takes its content from. */
    method ChooseSource(seed: Option<Bytes>) returns (source: Option<Bytes>)
      ensures source == if Selected(root).Some? then Some(root.payloads[Selected(root).value]) else seed
    {
      var latest := CheckGeneration(root.latest);
      if latest { return Some(root.payloads[root.latest.generation.id]); }
      var previous := CheckGeneration(root.previous);
      if previous { return Some(root.payloads[root.previous.generation.id]); }
      return seed;
    }

    /**
     `Run::prepare`: the engine gets a private copy of the selected generation, or of a well-formed
     seed, or an empty file; `copied` is what a copy that was interfered with would hold.
     */
    method Prepare(seed: Option<Bytes>, copied: Bytes) returns (ok: bool)
      modifies this
      ensures root == old(root)
      ensures var source := if Selected(root).Some? then Some(root.payloads[Selected(root).value]) else seed;
              && (ok && source.Some? ==> WellFormed(source.value) && work == source && started == Some(Sha256(source.value)))
              && (ok && source.None? ==> work == Some([]) && started == None)
              && (old(Reliable()) ==>
                    (ok <==> source.None? || (WellFormed(source.value) && copied == source.value)))
    {
      var source := ChooseSource(seed);
      if source.None? {
        var made, done := Attempt();
        if made { work, started := Some([]), None; }
        return done;
      }
      var valid := Validate(source.value);
      if valid.None? { return false; }
      var happens, done := Attempt();
      if happens { work := Some(copied); }
      if !done { return false; }
      var again := Validate(copied);
      if again.None? || again.value.1 != valid.value.1 { work := None; return false; }
      started := Some(valid.value.1);
      return true;
    }

    /** Drops the candidate of a commit that failed. */
    method DropCandidate(id: Uuid)
      modifies this
      ensures root == old(root) || root == old(root).(payloads := old(root).payloads - {id})
      ensures work == old(work) && started == old(started)
      ensures old(Reliable()) ==> Reliable() && id !in root.payloads
    {
      var happens, _ := Attempt();
      if happens { root := root.(payloads := root.payloads - {id}); }
    }

    /** Copies the candidate in and checks the copy. */
    method StageCandidate(id: Uuid, content: Bytes, copied: Bytes) returns (ok: bool)
      requires Unused(root, id) && WellFormed(content)
      modifies this
      ensures Staged(old(root), root, id, content) && root.previous == old(root.previous)
      ensures ok ==> id in root.payloads && root.payloads[id] == content
      ensures work == old(work) && started == old(started)
      ensures old(Reliable()) ==> Reliable() && (ok <==> copied == content)
    {
      assert root.payloads - {id} == root.payloads;
      var happens, done := Attempt();
      if happens { root := root.(payloads := root.payloads[id := copied]); }
      if !done { DropCandidate(id); return false; }
      var checked := Validate(copied);
      if checked != Some((|content|, Sha256(content))) { DropCandidate(id); return false; }
      return true;
    }

    /** Makes the latest pointer the fallback, unless it is corrupt. */
    method Rotate() returns (ok: bool)
      modifies this
      ensures root == old(root) || (ValidGeneration(old(root), old(root.latest)) && root == old(root).(previous := old(root.latest)))
      ensures ok && ValidGeneration(old(root), old(root.latest)) ==> root == old(root).(previous := old(root.latest))
      ensures work == old(work) && started == old(started)
      ensures old(Reliable()) ==> ok && Reliable()
    {
      var valid := CheckGeneration(root.latest);
      if !valid { return true; }
      var happens, done := Attempt();
      if happens { root := root.(previous := root.latest); }
      return done;
    }

    /** Deletes every payload that neither valid pointer names; a deletion may fail. */
    method CollectGarbage()
      modifies this
      ensures root == old(root).(payloads := root.payloads)
      ensures forall p :: p in root.payloads ==> p in old(root).payloads && root.payloads[p] == old(root).payloads[p]
      ensures forall p :: p in old(root).payloads && p in Retained(old(root)) ==> p in root.payloads
      ensures work == old(work) && started == old(started)
      ensures old(Reliable()) ==> Reliable() && forall p :: p in root.payloads ==> p in Retained(old(root))
    {
      ghost var root0 := root;
      var latest := CheckGeneration(root.latest);
      var previous := CheckGeneration(root.previous);
      var kept := (if latest then {root.latest.generation.id} else {}) + (if previous then {root.previous.generation.id} else {});
      assert kept == Retained(root0);
      hide Retained;
      var rest := root.payloads.Keys - kept;
      while rest != {}
        invariant root == root0.(payloads := root.payloads)
        invariant forall p :: p in root.payloads ==> p in root0.payloads && root.payloads[p] == root0.payloads[p]
        invariant forall p :: p in root0.payloads && p in kept ==> p in root.payloads
        invariant rest <= root0.payloads.Keys - kept && work == old(work) && started == old(started)
        invariant old(Reliable()) ==> Reliable() && forall p :: p in root.payloads ==> p in kept || p in rest
        decreases rest
      {
        var p :| p in rest;
        rest := rest - {p};
        DropCandidate(p);
      }
    }

    /** `Run::commit` */
    method Commit(id: Uuid, copied: Bytes) returns (r: CommitResult)
      requires work.Some? && Unused(root, id)
      modifies this
      ensures work == old(work) && started == old(started)
      ensures RollsBack(old(root), root, id, work.value)
      ensures !WellFormed(work.value) || started == Some(Sha256(work.value)) ==> root == old(root) && !r.CandidateCommitted?
      ensures r.Unchanged? <==> WellFormed(work.value) && started == Some(Sha256(work.value))
      ensures r.CandidateCommitted? ==> Committed(old(root), root, id, work.value)
      ensures old(Reliable()) ==> Reliable()
      ensures old(Reliable()) && r.CandidateCommitted? ==> root.payloads.Keys == Retained(root)
      ensures old(Reliable()) ==>
                (r.CommitError? <==> !WellFormed(work.value) || (started != Some(Sha256(work.value)) && copied != work.value))
    {
      hide WellFormed, Selected, Committed, RollsBack;
      ghost var root0 := root;
      var content := work.value;
      UnchangedRollsBack(root, id, content);
      var valid := Validate(content);
      if valid.None? { return CommitError; }
      if started == Some(valid.value.1) { return Unchanged; }
      var staged := StageCandidate(id, content, copied);
      StagedRollsBack(root0, root, id, content);
      if !staged { return CommitError; }
      var rotated := Rotate();
      StagedRollsBack(root0, root, id, content);
      if !rotated { Abandon(root0, id, content); return CommitError; }
      ReplacedIsCommitted(root0, root, id, content);
      var replaced, pointed := Attempt();
      if replaced { root := root.(latest := Names(Generation(id, valid.value.1, valid.value.0))); }
      if !pointed {
        if replaced { DropCandidate(id); } else { Abandon(root0, id, content); }
        return CommitError;
      }
      ghost var committed := root;
      CollectGarbage();
      CollectedIsCommitted(root0, committed, root, id, content);
      RetainedIsPresent(root);
      return CandidateCommitted;
    }

    /** Drops the candidate before any pointer names it. */
    method Abandon(ghost before: Root, id: Uuid, ghost content: Bytes)
      requires Unused(before, id) && Staged(before, root, id, content)
      modifies this
      ensures RollsBack(before, root, id, content)
      ensures work == old(work) && started == old(started)
      ensures old(Reliable()) ==> Reliable()
    {
      hide RollsBack;
      DropCandidate(id);
      assert root.payloads - {id} == before.payloads;
      StagedRollsBack(before, root, id, content);
    }

    /** `Run::finish`: a forced exit commits nothing, and the private file goes in any case. */
    method Finish(cleanExit: bool, id: Uuid, copied: Bytes) returns (r: Option<CommitResult>)
      requires work.Some? && Unused(root, id)
      modifies this
      ensures RollsBack(old(root), root, id, old(work).value)
      ensures !cleanExit ==> r == None && root == old(root)
      ensures r == Some(CandidateCommitted) ==> Committed(old(root), root, id, old(work).value)
      ensures old(Reliable()) ==> work == None
      ensures old(Reliable()) && cleanExit && WellFormed(copied) && copied == old(work).value ==>
                r == Some(if old(started) == Some(Sha256(copied)) then Unchanged else CandidateCommitted)
    {
      hide RollsBack, Committed, WellFormed;
      UnchangedRollsBack(root, id, work.value);
      r := None;
      if cleanExit {
        var outcome := Commit(id, copied);
        r := Some(outcome);
      }
      var removed, _ := Attempt();
      if removed { work := None; }
    }
  }

  lemma UnchangedRollsBack(root: Root, id: Uuid, content: Bytes)
    ensures RollsBack(root, root, id, content)
  {
  }

  lemma RetainedIsPresent(root: Root)
    ensures Retained(root) <= root.payloads.Keys
  {
  }

  /** A history of sessions, each stopped anywhere. */
  datatype Session = Session(id: Uuid, content: Bytes, after: Root)

  function RootAfter(first: Root, sessions: seq<Session>): Root {
    if sessions == [] then first else sessions[|sessions| - 1].after
  }

  ghost predicate Sessions(first: Root, sessions: seq<Session>) {
    sessions == [] ||
    (var last := sessions[|sessions| - 1];
     var earlier := sessions[..|sessions| - 1];
     Sessions(first, earlier) && RollsBack(RootAfter(first, earlier), last.after, last.id, last.content))
  }

  ghost function SelectedContent(root: Root): (c: Option<Bytes>)
    ensures c.Some? ==> WellFormed(c.value)
  {
    if Selected(root).Some? then Some(root.payloads[Selected(root).value]) else None
  }

  /** Over any history, once something can be selected something always can: the first content or a candidate. */
  lemma {:induction false} NeverWithoutGeneration(first: Root, sessions: seq<Session>)
    requires Sessions(first, sessions)
    ensures SelectedContent(first).Some? ==> SelectedContent(RootAfter(first, sessions)).Some?
    ensures var c := SelectedContent(RootAfter(first, sessions));
            c == SelectedContent(first) || exists i :: 0 <= i < |sessions| && c == Some(sessions[i].content)
  {
    hide WellFormed;
    if sessions != [] {
      var n := |sessions| - 1;
      var earlier := sessions[..n];
      NeverWithoutGeneration(first, earlier);
      var c := SelectedContent(RootAfter(first, earlier));
      if c != SelectedContent(first) {
        var i :| 0 <= i < |earlier| && c == Some(earlier[i].content);
        assert c == Some(sessions[i].content);
      }
      hide ValidGeneration;
      assert SelectedContent(sessions[n].after) == c || SelectedContent(sessions[n].after) == Some(sessions[n].content);
    }
  }
}

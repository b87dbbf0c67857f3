/** The records pruning works on, their order and their totals. */
module PruneSpec {
  import opened Wrappers
  import opened Manifests
  import opened StoreSpec

  datatype Record = Record(key: Key, lastUsed: nat, bytes: nat, createdAt: nat)

  /** What pruning knows about a loadable generation; an unused one counts as used when created. */
  function RecordOf(instanceId: string, fp: string, d: FingerprintDir, usage: map<Key, nat>, id: Uuid): Record
    requires Loadable(instanceId, fp, d, id)
  {
    var m := ManifestAt(instanceId, fp, d, id);
    Record(Key(fp, id), if Key(fp, id) in usage then usage[Key(fp, id)] else m.createdAt,
           PayloadBytes(m.slots) + d.generations[id].manifestSize, m.createdAt)
  }

  function Total(rs: seq<Record>): nat {
    if rs == [] then 0 else rs[0].bytes + Total(rs[1..])
  }

  lemma {:induction false} TotalConcat(a: seq<Record>, b: seq<Record>)
    ensures Total(a + b) == Total(a) + Total(b)
  {
    if a == [] {
      assert a + b == b;
    } else {
      assert (a + b)[1..] == a[1..] + b;
      TotalConcat(a[1..], b);
    }
  }

  predicate DistinctKeys(rs: seq<Record>) {
    forall i, j :: 0 <= i < j < |rs| ==> rs[i].key != rs[j].key
  }

  predicate HasKey(rs: seq<Record>, k: Key) { exists i :: 0 <= i < |rs| && rs[i].key == k }

  predicate OldestFirst(rs: seq<Record>) {
    forall i, j :: 0 <= i < j < |rs| ==> rs[i].lastUsed <= rs[j].lastUsed
  }

  function Position(r: Record, rs: seq<Record>): (k: nat)
    ensures k <= |rs| && (forall i :: 0 <= i < k ==> rs[i].lastUsed <= r.lastUsed)
    ensures k < |rs| ==> r.lastUsed < rs[k].lastUsed
  {
    if rs == [] || r.lastUsed < rs[0].lastUsed then 0 else 1 + Position(r, rs[1..])
  }

  function Insert(r: Record, rs: seq<Record>): seq<Record> {
    rs[..Position(r, rs)] + [r] + rs[Position(r, rs)..]
  }

  lemma InsertOrdered(r: Record, rs: seq<Record>)
    requires OldestFirst(rs)
    ensures OldestFirst(Insert(r, rs))
  {
    var k, s := Position(r, rs), Insert(r, rs);
    forall i, j | 0 <= i < j < |s|
      ensures s[i].lastUsed <= s[j].lastUsed
    {
      var x, y := if i <= k then i else i - 1, if j <= k then j else j - 1;
      assert s[i] == if i == k then r else rs[x];
      assert s[j] == if j == k then r else rs[y];
      if i == k { assert k <= y && rs[k].lastUsed <= rs[y].lastUsed; }
    }
  }

  lemma InsertKeeps(r: Record, rs: seq<Record>)
    ensures multiset(Insert(r, rs)) == multiset(rs) + multiset{r} && Total(Insert(r, rs)) == Total(rs) + r.bytes
  {
    var k := Position(r, rs);
    var a, b := rs[..k], rs[k..];
    assert rs == a + b;
    TotalConcat(a, b);
    TotalConcat(a + [r], b);
    TotalConcat(a, [r]);
  }

  /** `sort_by_key` on the last use. */
  function SortByUse(rs: seq<Record>): seq<Record> {
    if rs == [] then [] else Insert(rs[0], SortByUse(rs[1..]))
  }

  lemma {:induction false} SortByUseSorts(rs: seq<Record>)
    ensures OldestFirst(SortByUse(rs)) && multiset(SortByUse(rs)) == multiset(rs) && Total(SortByUse(rs)) == Total(rs)
  {
    if rs != [] {
      SortByUseSorts(rs[1..]);
      InsertOrdered(rs[0], SortByUse(rs[1..]));
      InsertKeeps(rs[0], SortByUse(rs[1..]));
      assert rs == [rs[0]] + rs[1..];
    }
  }

  /** Records with distinct keys stay so under reordering. */
  lemma DistinctUnderSort(a: seq<Record>, b: seq<Record>)
    requires multiset(a) == multiset(b) && DistinctKeys(a)
    ensures DistinctKeys(b)
  {
    forall i, j | 0 <= i < j < |b|
      ensures b[i].key != b[j].key
    {
      if b[i].key == b[j].key {
        assert b[i] in multiset(a) && b[j] in multiset(a);
        var p :| 0 <= p < |a| && a[p] == b[i];
        var q :| 0 <= q < |a| && a[q] == b[j];
        assert p == q;
        TwiceInSeq(b, i, j);
        OnceInDistinct(a, p);
      }
    }
  }

  lemma TwiceInSeq(b: seq<Record>, i: nat, j: nat)
    requires i < j < |b| && b[i] == b[j]
    ensures multiset(b)[b[i]] >= 2
  {
    assert b == b[..i] + [b[i]] + b[i + 1..j] + [b[j]] + b[j + 1..];
  }

  lemma OnceInDistinct(a: seq<Record>, p: nat)
    requires DistinctKeys(a) && p < |a|
    ensures multiset(a)[a[p]] == 1
  {
    assert a == a[..p] + [a[p]] + a[p + 1..];
    assert a[p] !in a[..p] && a[p] !in a[p + 1..];
  }

  /** The records are exactly the loadable generations of the directory. */
  ghost predicate DirCovered(instanceId: string, fp: string, d: FingerprintDir, usage: map<Key, nat>, rs: seq<Record>) {
    && DistinctKeys(rs)
    && (forall i :: 0 <= i < |rs| ==>
          rs[i].key.fingerprint == fp && Loadable(instanceId, fp, d, rs[i].key.generation)
          && rs[i] == RecordOf(instanceId, fp, d, usage, rs[i].key.generation))
    && (forall id :: id in d.generations && Loadable(instanceId, fp, d, id) ==> HasKey(rs, Key(fp, id)))
  }

  /** The records are exactly the loadable generations of the named directories. */
  ghost predicate Covered(instanceId: string, disk: Instance, fps: set<string>, usage: map<Key, nat>, rs: seq<Record>)
    requires fps <= disk.fingerprints.Keys
  {
    && DistinctKeys(rs)
    && (forall i :: 0 <= i < |rs| ==>
          var k := rs[i].key;
          k.fingerprint in fps && Loadable(instanceId, k.fingerprint, disk.fingerprints[k.fingerprint], k.generation)
          && rs[i] == RecordOf(instanceId, k.fingerprint, disk.fingerprints[k.fingerprint], usage, k.generation))
    && (forall fp, id ::
          (fp in fps && id in disk.fingerprints[fp].generations && Loadable(instanceId, fp, disk.fingerprints[fp], id))
          ==> HasKey(rs, Key(fp, id)))
  }

  /** A directory after the scan: interrupted commits and unloadable generations are gone. */
  function Swept(instanceId: string, fp: string, d: FingerprintDir): FingerprintDir {
    d.(generations := map id | id in d.generations && Loadable(instanceId, fp, d, id) :: d.generations[id], pending := map[])
  }

  function DropGeneration(disk: Instance, k: Key): Instance {
    if k.fingerprint in disk.fingerprints then
      var d := disk.fingerprints[k.fingerprint];
      disk.(fingerprints := disk.fingerprints[k.fingerprint := d.(generations := d.generations - {k.generation})])
    else disk
  }

  ghost predicate DirDropped(fp: string, before: FingerprintDir, after: FingerprintDir, removed: seq<Record>) {
    && after == before.(generations := after.generations)
    && (forall id :: id in after.generations <==> id in before.generations && !HasKey(removed, Key(fp, id)))
    && (forall id :: id in after.generations ==> after.generations[id] == before.generations[id])
  }

  /** `after` is `before` without the generations of `removed`; nothing else differs. */
  ghost predicate Dropped(before: Instance, after: Instance, removed: seq<Record>) {
    && after.fingerprints.Keys == before.fingerprints.Keys
    && after.usage == before.usage && after.scratch == before.scratch
    && forall fp :: fp in before.fingerprints ==> DirDropped(fp, before.fingerprints[fp], after.fingerprints[fp], removed)
  }

  lemma HasKeySnoc(rs: seq<Record>, r: Record, k: Key)
    ensures HasKey(rs + [r], k) <==> HasKey(rs, k) || k == r.key
  {
    if HasKey(rs, k) {
      var i :| 0 <= i < |rs| && rs[i].key == k;
      assert (rs + [r])[i].key == k;
    }
    if k == r.key { assert (rs + [r])[|rs|].key == k; }
  }

  lemma DropOneMore(before: Instance, after: Instance, removed: seq<Record>, r: Record)
    requires Dropped(before, after, removed)
    ensures Dropped(before, DropGeneration(after, r.key), removed + [r])
  {
    var next := DropGeneration(after, r.key);
    forall fp | fp in before.fingerprints
      ensures DirDropped(fp, before.fingerprints[fp], next.fingerprints[fp], removed + [r])
    {
      assert DirDropped(fp, before.fingerprints[fp], after.fingerprints[fp], removed);
      forall id ensures HasKey(removed + [r], Key(fp, id)) <==> HasKey(removed, Key(fp, id)) || Key(fp, id) == r.key {
        HasKeySnoc(removed, r, Key(fp, id));
      }
      hide HasKey;
    }
  }

  /** What is left loads exactly as before. */
  lemma DroppedLoads(instanceId: string, fp: string, before: FingerprintDir, after: FingerprintDir, removed: seq<Record>, id: Uuid)
    requires DirDropped(fp, before, after, removed)
    ensures LoadGeneration(instanceId, fp, after, id, None) ==
            if HasKey(removed, Key(fp, id)) then Err(NotFound) else LoadGeneration(instanceId, fp, before, id, None)
    ensures Loadable(instanceId, fp, before, id) && !HasKey(removed, Key(fp, id)) ==>
              id in after.generations && after.generations[id] == before.generations[id]
  {
  }

  /**
   A directory while it is being swept: every loadable generation is untouched; the others may be
   gone, or have lost some of their files.
   */
  ghost predicate DirSweeping(instanceId: string, fp: string, before: FingerprintDir, after: FingerprintDir) {
    && after.latest == before.latest
    && (forall id :: id in after.generations ==>
          id in before.generations
          && (after.generations[id] == before.generations[id]
              || (!Loadable(instanceId, fp, before, id) && Remnant(before.generations[id], after.generations[id]))))
    && (forall id :: id in before.generations && Loadable(instanceId, fp, before, id) ==>
          id in after.generations && after.generations[id] == before.generations[id])
  }

  lemma SweepingLoads(instanceId: string, fp: string, before: FingerprintDir, after: FingerprintDir, id: Uuid)
    requires DirSweeping(instanceId, fp, before, after)
    ensures Loadable(instanceId, fp, before, id) ==>
              && id in after.generations && id in before.generations && after.generations[id] == before.generations[id]
              && LoadGeneration(instanceId, fp, after, id, None) == LoadGeneration(instanceId, fp, before, id, None)
    ensures Loadable(instanceId, fp, after, id) && NoneDormant(instanceId, fp, before) ==> Loadable(instanceId, fp, before, id)
  {
    LoadableIffComplete(instanceId, fp, before, id);
    LoadableIffComplete(instanceId, fp, after, id);
    if Loadable(instanceId, fp, after, id) && after.generations[id] != before.generations[id] {
      RemnantLoads(instanceId, fp, before.generations[id], after.generations[id], id, None);
    }
    hide LoadContent;
  }

  ghost predicate Sweeping(instanceId: string, before: Instance, after: Instance) {
    && after == before.(fingerprints := after.fingerprints) && after.fingerprints.Keys == before.fingerprints.Keys
    && forall fp :: fp in before.fingerprints ==> DirSweeping(instanceId, fp, before.fingerprints[fp], after.fingerprints[fp])
  }

  /** Nothing in the instance would load but for a rejection marker. */
  ghost predicate NoneDormantIn(instanceId: string, disk: Instance) {
    forall fp :: fp in disk.fingerprints ==> NoneDormant(instanceId, fp, disk.fingerprints[fp])
  }

  /** Nothing is left of interrupted commits and unloadable generations. */
  ghost predicate AllSwept(instanceId: string, before: Instance, after: Instance) {
    && after == before.(fingerprints := after.fingerprints) && after.fingerprints.Keys == before.fingerprints.Keys
    && forall fp :: fp in before.fingerprints ==> after.fingerprints[fp] == Swept(instanceId, fp, before.fingerprints[fp])
  }

  lemma CoveredAfterSweep(instanceId: string, before: Instance, after: Instance, rs: seq<Record>)
    requires Covered(instanceId, before, before.fingerprints.Keys, before.usage, rs) && Sweeping(instanceId, before, after)
    requires NoneDormantIn(instanceId, before) || AllSwept(instanceId, before, after)
    ensures Covered(instanceId, after, after.fingerprints.Keys, before.usage, rs)
  {
    hide LoadGeneration, NoneDormant;
    forall i | 0 <= i < |rs|
      ensures var k := rs[i].key;
              && k.fingerprint in after.fingerprints
              && Loadable(instanceId, k.fingerprint, after.fingerprints[k.fingerprint], k.generation)
              && rs[i] == RecordOf(instanceId, k.fingerprint, after.fingerprints[k.fingerprint], before.usage, k.generation)
    {
      var k := rs[i].key;
      SweepingLoads(instanceId, k.fingerprint, before.fingerprints[k.fingerprint], after.fingerprints[k.fingerprint], k.generation);
    }
    forall fp, id | fp in after.fingerprints && id in after.fingerprints[fp].generations
                    && Loadable(instanceId, fp, after.fingerprints[fp], id)
      ensures HasKey(rs, Key(fp, id))
    {
      SweepingLoads(instanceId, fp, before.fingerprints[fp], after.fingerprints[fp], id);
      if AllSwept(instanceId, before, after) {
        assert after.fingerprints[fp] == Swept(instanceId, fp, before.fingerprints[fp]);
      }
    }
  }

  /** The generations of a directory that do not load. */
  function UnloadableKeys(instanceId: string, fp: string, d: FingerprintDir): set<Key> {
    set id | id in d.generations && !Loadable(instanceId, fp, d, id) :: Key(fp, id)
  }

  function Unloadable(instanceId: string, disk: Instance, fps: set<string>): set<Key>
    requires fps <= disk.fingerprints.Keys
  {
    set fp, k | fp in fps && k in UnloadableKeys(instanceId, fp, disk.fingerprints[fp]) :: k
  }

  lemma UnloadableGrows(instanceId: string, disk: Instance, fps: set<string>, fp: string)
    requires fps <= disk.fingerprints.Keys && fp in disk.fingerprints && fp !in fps
    ensures |Unloadable(instanceId, disk, fps + {fp})| ==
            |Unloadable(instanceId, disk, fps)| + |UnloadableKeys(instanceId, fp, disk.fingerprints[fp])|
  {
    var a, b := Unloadable(instanceId, disk, fps), UnloadableKeys(instanceId, fp, disk.fingerprints[fp]);
    assert Unloadable(instanceId, disk, fps + {fp}) == a + b;
    assert a !! b;
  }

  lemma HasKeyConcat(a: seq<Record>, b: seq<Record>, k: Key)
    ensures HasKey(a + b, k) <==> HasKey(a, k) || HasKey(b, k)
  {
    if HasKey(a, k) { var i :| 0 <= i < |a| && a[i].key == k; assert (a + b)[i].key == k; }
    if HasKey(b, k) { var i :| 0 <= i < |b| && b[i].key == k; assert (a + b)[|a| + i].key == k; }
  }

  lemma DisjointParts(a: seq<Record>, b: seq<Record>, k: Key)
    requires DistinctKeys(a + b) && HasKey(a, k)
    ensures !HasKey(b, k)
  {
    var i :| 0 <= i < |a| && a[i].key == k;
    forall j | 0 <= j < |b|
      ensures b[j].key != k
    {
      assert (a + b)[i] == a[i] && (a + b)[|a| + j] == b[j];
    }
  }

  lemma HasKeyUnderSort(a: seq<Record>, b: seq<Record>, k: Key)
    requires multiset(a) == multiset(b) && HasKey(a, k)
    ensures HasKey(b, k)
  {
    var i :| 0 <= i < |a| && a[i].key == k;
    assert a[i] in multiset(b);
    assert a[i] in b;
  }

  /** Splitting the records into kept and removed, and removing the latter, leaves exactly the former. */
  lemma KeptAreLeft(instanceId: string, disk: Instance, after: Instance, usage: map<Key, nat>,
                    rs: seq<Record>, kept: seq<Record>, removed: seq<Record>)
    requires Covered(instanceId, disk, disk.fingerprints.Keys, usage, rs)
    requires multiset(kept + removed) == multiset(rs) && Dropped(disk, after, removed)
    ensures Covered(instanceId, after, after.fingerprints.Keys, usage, kept)
    ensures forall k :: HasKey(rs, k) <==> HasKey(kept, k) || HasKey(removed, k)
    ensures forall k :: !(HasKey(kept, k) && HasKey(removed, k))
  {
    var all := kept + removed;
    DistinctUnderSort(rs, all);
    forall k
      ensures HasKey(rs, k) <==> HasKey(kept, k) || HasKey(removed, k)
      ensures !(HasKey(kept, k) && HasKey(removed, k))
    {
      HasKeyConcat(kept, removed, k);
      if HasKey(rs, k) { HasKeyUnderSort(rs, all, k); }
      if HasKey(all, k) { HasKeyUnderSort(all, rs, k); }
      if HasKey(kept, k) { DisjointParts(kept, removed, k); }
    }
    assert DistinctKeys(kept) by {
      forall i, j | 0 <= i < j < |kept| ensures kept[i].key != kept[j].key {
        assert all[i] == kept[i] && all[j] == kept[j];
      }
    }
    forall i | 0 <= i < |kept|
      ensures var k := kept[i].key;
              && k.fingerprint in after.fingerprints
              && Loadable(instanceId, k.fingerprint, after.fingerprints[k.fingerprint], k.generation)
              && kept[i] == RecordOf(instanceId, k.fingerprint, after.fingerprints[k.fingerprint], usage, k.generation)
    {
      KeptIsLoadable(instanceId, disk, after, usage, rs, kept, removed, i);
    }
    forall fp, id | fp in after.fingerprints && id in after.fingerprints[fp].generations
                    && Loadable(instanceId, fp, after.fingerprints[fp], id)
      ensures HasKey(kept, Key(fp, id))
    {
      assert DirDropped(fp, disk.fingerprints[fp], after.fingerprints[fp], removed);
      DroppedLoads(instanceId, fp, disk.fingerprints[fp], after.fingerprints[fp], removed, id);
      assert HasKey(rs, Key(fp, id));
    }
  }

  lemma KeptIsLoadable(instanceId: string, disk: Instance, after: Instance, usage: map<Key, nat>,
                       rs: seq<Record>, kept: seq<Record>, removed: seq<Record>, i: nat)
    requires Covered(instanceId, disk, disk.fingerprints.Keys, usage, rs)
    requires multiset(kept + removed) == multiset(rs) && Dropped(disk, after, removed)
    requires i < |kept| && !HasKey(removed, kept[i].key)
    ensures var k := kept[i].key;
            && k.fingerprint in after.fingerprints
            && Loadable(instanceId, k.fingerprint, after.fingerprints[k.fingerprint], k.generation)
            && kept[i] == RecordOf(instanceId, k.fingerprint, after.fingerprints[k.fingerprint], usage, k.generation)
  {
    hide HasKey, DistinctKeys, LoadGeneration;
    assert (kept + removed)[i] in multiset(rs);
    var p :| 0 <= p < |rs| && rs[p] == kept[i];
    var k := kept[i].key;
    assert DirDropped(k.fingerprint, disk.fingerprints[k.fingerprint], after.fingerprints[k.fingerprint], removed);
    DroppedLoads(instanceId, k.fingerprint, disk.fingerprints[k.fingerprint], after.fingerprints[k.fingerprint], removed, k.generation);
  }

  /** A directory's pointer names its newest loadable generation, or there is neither. */
  ghost predicate Reconciled(instanceId: string, fp: string, d: FingerprintDir) {
    if NothingLoadable(instanceId, fp, d) then d.latest.Absent?
    else d.latest.Valid? && IsNewest(instanceId, fp, d, d.latest.pointer.generation)
         && d.latest.pointer.manifestSha256 == ManifestAt(instanceId, fp, d, d.latest.pointer.generation)
  }

  /** What is spared: the explicit set, or the newest generation when it fits and none is named. */
  ghost predicate Shields(explicit: set<Key>, limit: nat, rs: seq<Record>, shield: set<Key>) {
    if explicit != {} || rs == [] then shield == explicit
    else exists n :: 0 <= n < |rs| && (forall i :: 0 <= i < |rs| ==> rs[i].createdAt <= rs[n].createdAt)
                     && shield == if rs[n].bytes <= limit then {rs[n].key} else {}
  }

  /** The removals: unprotected, oldest use first, each one only while over the limit, and no more than needed. */
  ghost predicate Selected(limit: nat, shield: set<Key>, kept: seq<Record>, removed: seq<Record>) {
    && OldestFirst(removed)
    && (forall i :: 0 <= i < |removed| ==> removed[i].key !in shield)
    && (forall i, j :: 0 <= i < |removed| && 0 <= j < |kept| && kept[j].key !in shield ==>
          removed[i].lastUsed <= kept[j].lastUsed)
    && (forall i :: 0 <= i < |removed| ==> Total(kept) + Total(removed[i..]) > limit)
    && (Total(kept) <= limit || forall j :: 0 <= j < |kept| ==> kept[j].key in shield)
  }

  /**
   What remains in a directory is as it was, or is left of something that did not load; and everything
   in it loads if everything else could be swept away.
   */
  ghost predicate Survivors(instanceId: string, fp: string, before: FingerprintDir, after: FingerprintDir, swept: bool) {
    && (forall id :: id in after.generations ==>
          id in before.generations
          && (after.generations[id] == before.generations[id]
              || (!Loadable(instanceId, fp, before, id) && Remnant(before.generations[id], after.generations[id]))))
    && (swept ==> after.pending == map[] && forall id :: id in after.generations ==> Loadable(instanceId, fp, after, id))
  }

  /** Of what loaded, exactly the kept generations are left, untouched. */
  ghost predicate KeptExactly(instanceId: string, fp: string, before: FingerprintDir, after: FingerprintDir, kept: seq<Record>) {
    forall id :: Loadable(instanceId, fp, before, id) ==>
      (id in after.generations <==> HasKey(kept, Key(fp, id)))
      && (id in after.generations && id in before.generations ==> after.generations[id] == before.generations[id])
  }

  /** The choice of generations is made and carried out. */
  ghost predicate Trimmed(instanceId: string, before: Instance, after: Instance, limit: nat, explicit: set<Key>, shield: set<Key>,
                          kept: seq<Record>, removed: seq<Record>, swept: bool)
  {
    && after.fingerprints.Keys == before.fingerprints.Keys && after.scratch == before.scratch
    // every generation that loaded was kept or removed
    && Covered(instanceId, before, before.fingerprints.Keys, before.usage, kept + removed)
    && (forall fp :: fp in after.fingerprints ==>
          && Survivors(instanceId, fp, before.fingerprints[fp], after.fingerprints[fp], swept)
          && KeptExactly(instanceId, fp, before.fingerprints[fp], after.fingerprints[fp], kept))
    // nothing else loads now, unless a removal that was cut off took only a rejection marker
    && (swept || NoneDormantIn(instanceId, before) ==> Covered(instanceId, after, after.fingerprints.Keys, before.usage, kept))
    // the choice follows the policy
    && Shields(explicit, limit, kept + removed, shield)
    && Selected(limit, shield, kept, removed)
  }

  /** Everything pruning promises when it reports success. */
  ghost predicate Pruned(instanceId: string, before: Instance, after: Instance, limit: nat, explicit: set<Key>, shield: set<Key>,
                         kept: seq<Record>, removed: seq<Record>, swept: bool)
  {
    && Trimmed(instanceId, before, after, limit, explicit, shield, kept, removed, swept)
    && after.usage == (map k | k in before.usage && HasKey(kept, k) :: before.usage[k])
    && (forall fp :: fp in after.fingerprints ==> Reconciled(instanceId, fp, after.fingerprints[fp]))
  }

  /**
   What holds of the generations of a directory at every point of pruning: spared ones are untouched,
   of any other some files may be gone.
   */
  ghost predicate GenerationsSafe(instanceId: string, fp: string, before: FingerprintDir, after: FingerprintDir, spared: iset<Key>) {
    && (forall id :: id in after.generations ==> id in before.generations && Remnant(before.generations[id], after.generations[id]))
    && (forall id :: id in before.generations && Loadable(instanceId, fp, before, id) && Key(fp, id) in spared ==>
          id in after.generations && after.generations[id] == before.generations[id])
  }

  /** What holds of a directory however far pruning got. */
  ghost predicate DirSafe(instanceId: string, fp: string, before: FingerprintDir, after: FingerprintDir, spared: iset<Key>) {
    GenerationsSafe(instanceId, fp, before, after, spared) && (after.latest == before.latest || Reconciled(instanceId, fp, after))
  }

  /** Before the pointers are touched. */
  ghost predicate TrimSafe(instanceId: string, before: Instance, after: Instance, spared: iset<Key>) {
    && after.fingerprints.Keys == before.fingerprints.Keys && after.scratch == before.scratch
    && forall fp :: fp in before.fingerprints ==>
         && GenerationsSafe(instanceId, fp, before.fingerprints[fp], after.fingerprints[fp], spared)
         && after.fingerprints[fp].latest == before.fingerprints[fp].latest
  }

  ghost predicate PruneSafe(instanceId: string, before: Instance, after: Instance, spared: iset<Key>) {
    && after.fingerprints.Keys == before.fingerprints.Keys && after.scratch == before.scratch
    && forall fp :: fp in before.fingerprints ==> DirSafe(instanceId, fp, before.fingerprints[fp], after.fingerprints[fp], spared)
  }

  lemma PruneSafeSelf(instanceId: string, disk: Instance, spared: iset<Key>)
    ensures PruneSafe(instanceId, disk, disk, spared)
  {
    hide Reconciled, Loadable;
  }

  lemma DirSafeForFewer(instanceId: string, fp: string, before: FingerprintDir, after: FingerprintDir, more: iset<Key>, fewer: iset<Key>)
    requires DirSafe(instanceId, fp, before, after, more) && fewer <= more
    ensures DirSafe(instanceId, fp, before, after, fewer)
  {
    hide Reconciled;
  }

  lemma SweepIsSafe(instanceId: string, before: Instance, after: Instance, spared: iset<Key>)
    requires Sweeping(instanceId, before, after)
    ensures TrimSafe(instanceId, before, after, spared)
  {
    hide Loadable;
    forall fp | fp in before.fingerprints
      ensures GenerationsSafe(instanceId, fp, before.fingerprints[fp], after.fingerprints[fp], spared)
    {
      forall id | id in after.fingerprints[fp].generations && id in before.fingerprints[fp].generations
                  && after.fingerprints[fp].generations[id] == before.fingerprints[fp].generations[id]
        ensures Remnant(before.fingerprints[fp].generations[id], after.fingerprints[fp].generations[id])
      {
      }
      hide Remnant;
    }
  }

  function CutGeneration(disk: Instance, k: Key, left: Remains): Instance {
    if k.fingerprint in disk.fingerprints && k.generation in disk.fingerprints[k.fingerprint].generations then
      var d := disk.fingerprints[k.fingerprint];
      disk.(fingerprints := disk.fingerprints[k.fingerprint := WithGeneration(d, k.generation, CutOff(d.generations[k.generation], left))])
    else disk
  }

  lemma RemnantTransitive(a: Generation, b: Generation, c: Generation)
    requires Remnant(a, b) && Remnant(b, c)
    ensures Remnant(a, c)
  {
  }

  lemma DirRemovalIsSafe(instanceId: string, fp: string, before: FingerprintDir, d: FingerprintDir, id: Uuid, left: Remains, spared: iset<Key>)
    requires GenerationsSafe(instanceId, fp, before, d, spared) && Key(fp, id) !in spared
    ensures GenerationsSafe(instanceId, fp, before, d.(generations := d.generations - {id}), spared)
    ensures id in d.generations ==>
              GenerationsSafe(instanceId, fp, before, WithGeneration(d, id, CutOff(d.generations[id], left)), spared)
  {
    if id in d.generations {
      CutOffIsRemnant(d.generations[id], left);
      RemnantTransitive(before.generations[id], d.generations[id], CutOff(d.generations[id], left));
    }
    hide Loadable, Remnant, CutOff;
  }

  /** Removing, wholly or in part, a generation that is not spared. */
  lemma RemovalIsSafe(instanceId: string, before: Instance, disk: Instance, k: Key, left: Remains, spared: iset<Key>)
    requires TrimSafe(instanceId, before, disk, spared) && k !in spared
    ensures TrimSafe(instanceId, before, DropGeneration(disk, k), spared)
    ensures TrimSafe(instanceId, before, CutGeneration(disk, k, left), spared)
    ensures DropGeneration(disk, k).usage == CutGeneration(disk, k, left).usage == disk.usage
  {
    hide GenerationsSafe, CutOff;
    assert k == Key(k.fingerprint, k.generation);
    if k.fingerprint in disk.fingerprints {
      DirRemovalIsSafe(instanceId, k.fingerprint, before.fingerprints[k.fingerprint], disk.fingerprints[k.fingerprint], k.generation, left, spared);
    }
  }

  lemma NothingDropped(disk: Instance)
    ensures Dropped(disk, disk, [])
  {
    forall fp | fp in disk.fingerprints ensures DirDropped(fp, disk.fingerprints[fp], disk.fingerprints[fp], []) {
      assert forall k :: !HasKey([], k);
    }
  }

  lemma CoveredGrows(instanceId: string, disk: Instance, fps: set<string>, usage: map<Key, nat>, rs: seq<Record>,
                     fp: string, more: seq<Record>)
    requires fps <= disk.fingerprints.Keys && fp in disk.fingerprints && fp !in fps
    requires Covered(instanceId, disk, fps, usage, rs) && DirCovered(instanceId, fp, disk.fingerprints[fp], usage, more)
    ensures Covered(instanceId, disk, fps + {fp}, usage, rs + more)
  {
    hide Loadable, RecordOf;
    forall i, j | 0 <= i < j < |rs + more|
      ensures (rs + more)[i].key != (rs + more)[j].key
    {
      if j < |rs| {
      } else if |rs| <= i {
        assert more[i - |rs|].key != more[j - |rs|].key;
      } else {
        assert rs[i].key.fingerprint in fps && more[j - |rs|].key.fingerprint == fp;
      }
    }
    forall f, id | f in fps + {fp} && id in disk.fingerprints[f].generations && Loadable(instanceId, f, disk.fingerprints[f], id)
      ensures HasKey(rs + more, Key(f, id))
    {
      HasKeyConcat(rs, more, Key(f, id));
    }
  }

  lemma ShieldsAny(explicit: set<Key>, limit: nat, a: seq<Record>, b: seq<Record>, shield: set<Key>)
    requires multiset(a) == multiset(b) && Shields(explicit, limit, a, shield)
    ensures Shields(explicit, limit, b, shield)
  {
    assert |a| == |multiset(a)| == |b|;
    if explicit == {} && a != [] {
      var n :| 0 <= n < |a| && (forall i :: 0 <= i < |a| ==> a[i].createdAt <= a[n].createdAt)
               && shield == if a[n].bytes <= limit then {a[n].key} else {};
      assert a[n] in multiset(b);
      var p :| 0 <= p < |b| && b[p] == a[n];
      forall i | 0 <= i < |b| ensures b[i].createdAt <= b[p].createdAt {
        assert b[i] in multiset(a);
        var q :| 0 <= q < |a| && a[q] == b[i];
      }
    }
  }

  lemma CoveredPermuted(instanceId: string, disk: Instance, fps: set<string>, usage: map<Key, nat>, a: seq<Record>, b: seq<Record>)
    requires fps <= disk.fingerprints.Keys && Covered(instanceId, disk, fps, usage, a) && multiset(a) == multiset(b)
    ensures Covered(instanceId, disk, fps, usage, b)
  {
    hide Loadable, RecordOf;
    DistinctUnderSort(a, b);
    forall i | 0 <= i < |b|
      ensures exists j :: 0 <= j < |a| && a[j] == b[i]
    {
      assert b[i] in multiset(a);
    }
    forall fp, id | fp in fps && id in disk.fingerprints[fp].generations && Loadable(instanceId, fp, disk.fingerprints[fp], id)
      ensures HasKey(b, Key(fp, id))
    {
      HasKeyUnderSort(a, b, Key(fp, id));
    }
  }

  /** From the scan and the removals to the finished choice. */
  lemma AfterRemoval(instanceId: string, before: Instance, middle: Instance, after: Instance, limit: nat, explicit: set<Key>, shield: set<Key>,
                     rs: seq<Record>, kept: seq<Record>, removed: seq<Record>, swept: bool)
    requires Covered(instanceId, before, before.fingerprints.Keys, before.usage, rs) && multiset(kept + removed) == multiset(rs)
    requires Sweeping(instanceId, before, middle) && (swept ==> AllSwept(instanceId, before, middle))
    requires Dropped(middle, after, removed)
    requires Shields(explicit, limit, kept + removed, shield) && Selected(limit, shield, kept, removed)
    ensures Trimmed(instanceId, before, after, limit, explicit, shield, kept, removed, swept)
  {
    CoveredPermuted(instanceId, before, before.fingerprints.Keys, before.usage, rs, kept + removed);
    if swept || NoneDormantIn(instanceId, before) {
      CoveredAfterSweep(instanceId, before, middle, rs);
      KeptAreLeft(instanceId, middle, after, before.usage, rs, kept, removed);
    }
    forall fp | fp in before.fingerprints
      ensures Survivors(instanceId, fp, before.fingerprints[fp], after.fingerprints[fp], swept)
      ensures KeptExactly(instanceId, fp, before.fingerprints[fp], after.fingerprints[fp], kept)
    {
      assert DirDropped(fp, middle.fingerprints[fp], after.fingerprints[fp], removed);
      SurvivorsAfterRemoval(instanceId, fp, before.fingerprints[fp], middle.fingerprints[fp], after.fingerprints[fp], removed, swept);
      KeptAfterRemoval(instanceId, before, middle, after, kept, removed, fp);
    }
    hide Covered, Shields, Selected, Survivors, KeptExactly, NoneDormantIn;
  }

  lemma KeptAfterRemoval(instanceId: string, before: Instance, middle: Instance, after: Instance, kept: seq<Record>, removed: seq<Record>, fp: string)
    requires Covered(instanceId, before, before.fingerprints.Keys, before.usage, kept + removed)
    requires Sweeping(instanceId, before, middle) && fp in before.fingerprints && fp in after.fingerprints
    requires DirDropped(fp, middle.fingerprints[fp], after.fingerprints[fp], removed)
    ensures KeptExactly(instanceId, fp, before.fingerprints[fp], after.fingerprints[fp], kept)
  {
    hide LoadGeneration, HasKey, RecordOf;
    var d0, d1, d2 := before.fingerprints[fp], middle.fingerprints[fp], after.fingerprints[fp];
    forall id | Loadable(instanceId, fp, d0, id)
      ensures (id in d2.generations <==> HasKey(kept, Key(fp, id)))
      ensures id in d2.generations && id in d0.generations ==> d2.generations[id] == d0.generations[id]
    {
      SweepingLoads(instanceId, fp, d0, d1, id);
      LoadableIffRecorded(instanceId, before, kept + removed, fp, id);
      HasKeyConcat(kept, removed, Key(fp, id));
      if HasKey(kept, Key(fp, id)) { DisjointParts(kept, removed, Key(fp, id)); }
    }
  }

  lemma SurvivorsAfterRemoval(instanceId: string, fp: string, before: FingerprintDir, middle: FingerprintDir, after: FingerprintDir,
                              removed: seq<Record>, swept: bool)
    requires DirSweeping(instanceId, fp, before, middle) && (swept ==> middle == Swept(instanceId, fp, before))
    requires DirDropped(fp, middle, after, removed)
    ensures Survivors(instanceId, fp, before, after, swept)
  {
    hide HasKey, LoadGeneration;
    forall id | id in after.generations && swept
      ensures Loadable(instanceId, fp, after, id)
    {
      assert Loadable(instanceId, fp, before, id);
      SweepingLoads(instanceId, fp, before, middle, id);
      DroppedLoads(instanceId, fp, middle, after, removed, id);
    }
  }

  lemma LoadableIffRecorded(instanceId: string, disk: Instance, rs: seq<Record>, fp: string, id: Uuid)
    requires Covered(instanceId, disk, disk.fingerprints.Keys, disk.usage, rs) && fp in disk.fingerprints
    ensures Loadable(instanceId, fp, disk.fingerprints[fp], id) <==> HasKey(rs, Key(fp, id))
  {
  }

  /** The usage record plays no part in which generations are on disk. */
  lemma UsageIsApart(instanceId: string, before: Instance, after: Instance, usage: map<Key, nat>, limit: nat, explicit: set<Key>,
                     shield: set<Key>, kept: seq<Record>, removed: seq<Record>, swept: bool)
    requires Trimmed(instanceId, before, after, limit, explicit, shield, kept, removed, swept)
    ensures Trimmed(instanceId, before, after.(usage := usage), limit, explicit, shield, kept, removed, swept)
  {
    hide Loadable, RecordOf, Selected, Shields, Survivors, KeptExactly, NoneDormantIn;
  }

  lemma UsageIsSafe(instanceId: string, before: Instance, after: Instance, usage: map<Key, nat>, spared: iset<Key>)
    requires TrimSafe(instanceId, before, after, spared)
    ensures TrimSafe(instanceId, before, after.(usage := usage), spared)
  {
  }

  lemma PointerIsApart(instanceId: string, fp: string, d: FingerprintDir, latest: LatestFile)
    ensures forall id, expected ::
              LoadGeneration(instanceId, fp, d.(latest := latest), id, expected) == LoadGeneration(instanceId, fp, d, id, expected)
  {
  }

  /** `b` is `a` with other pointers. */
  ghost predicate SameGenerations(a: Instance, b: Instance) {
    && b == a.(fingerprints := b.fingerprints) && b.fingerprints.Keys == a.fingerprints.Keys
    && forall fp :: fp in b.fingerprints ==> b.fingerprints[fp] == a.fingerprints[fp].(latest := b.fingerprints[fp].latest)
  }

  lemma SameLoads(instanceId: string, a: Instance, b: Instance, fp: string)
    requires SameGenerations(a, b) && fp in b.fingerprints
    ensures forall id, expected :: LoadGeneration(instanceId, fp, b.fingerprints[fp], id, expected) ==
                                   LoadGeneration(instanceId, fp, a.fingerprints[fp], id, expected)
  {
    PointerIsApart(instanceId, fp, a.fingerprints[fp], b.fingerprints[fp].latest);
  }

  lemma CoveredByLoads(instanceId: string, a: Instance, b: Instance, usage: map<Key, nat>, rs: seq<Record>)
    requires SameGenerations(a, b) && Covered(instanceId, a, a.fingerprints.Keys, usage, rs)
    ensures Covered(instanceId, b, b.fingerprints.Keys, usage, rs)
  {
    hide LoadGeneration;
    forall fp | fp in b.fingerprints
      ensures forall id, expected :: LoadGeneration(instanceId, fp, b.fingerprints[fp], id, expected) ==
                                     LoadGeneration(instanceId, fp, a.fingerprints[fp], id, expected)
    {
      SameLoads(instanceId, a, b, fp);
    }
  }

  /** Neither do the pointers. */
  lemma PointersAreApart(instanceId: string, before: Instance, after: Instance, later: Instance, limit: nat, explicit: set<Key>,
                         shield: set<Key>, kept: seq<Record>, removed: seq<Record>, swept: bool)
    requires Trimmed(instanceId, before, after, limit, explicit, shield, kept, removed, swept) && SameGenerations(after, later)
    ensures Trimmed(instanceId, before, later, limit, explicit, shield, kept, removed, swept)
  {
    hide Selected, Shields, LoadGeneration, Covered, NoneDormantIn;
    if swept || NoneDormantIn(instanceId, before) { CoveredByLoads(instanceId, after, later, before.usage, kept); }
    forall fp | fp in later.fingerprints
      ensures Survivors(instanceId, fp, before.fingerprints[fp], later.fingerprints[fp], swept)
      ensures KeptExactly(instanceId, fp, before.fingerprints[fp], later.fingerprints[fp], kept)
    {
      SameLoads(instanceId, after, later, fp);
      assert Survivors(instanceId, fp, before.fingerprints[fp], after.fingerprints[fp], swept);
      assert KeptExactly(instanceId, fp, before.fingerprints[fp], after.fingerprints[fp], kept);
    }
  }

  lemma PointersAreSafe(instanceId: string, before: Instance, after: Instance, later: Instance, spared: iset<Key>)
    requires TrimSafe(instanceId, before, after, spared) && SameGenerations(after, later)
    requires forall fp :: fp in later.fingerprints ==>
               later.fingerprints[fp].latest == after.fingerprints[fp].latest || Reconciled(instanceId, fp, later.fingerprints[fp])
    ensures PruneSafe(instanceId, before, later, spared)
  {
    hide Reconciled, Loadable;
  }

  /** The removal loop after `i` of the sorted records. */
  ghost predicate Selecting(rs: seq<Record>, i: nat, limit: nat, shield: set<Key>, kept: seq<Record>, removed: seq<Record>, remaining: nat)
    requires i <= |rs|
  {
    && remaining == Total(kept) + Total(rs[i..])
    && multiset(kept + removed) == multiset(rs[..i])
    && OldestFirst(removed)
    && (forall k :: 0 <= k < |removed| ==> removed[k].key !in shield)
    && (forall k :: 0 <= k < |kept| ==> kept[k].key in shield)
    && (forall k, j :: 0 <= k < |removed| && i <= j < |rs| ==> removed[k].lastUsed <= rs[j].lastUsed)
    && (forall k :: 0 <= k < |removed| ==> remaining + Total(removed[k..]) > limit)
  }

  lemma SelectStart(rs: seq<Record>, limit: nat, shield: set<Key>)
    ensures Selecting(rs, 0, limit, shield, [], [], Total(rs))
  {
    assert rs[0..] == rs && rs[..0] == [];
    assert [] + [] == rs[..0];
  }

  lemma SelectKeep(rs: seq<Record>, i: nat, limit: nat, shield: set<Key>, kept: seq<Record>, removed: seq<Record>, remaining: nat)
    requires i < |rs| && Selecting(rs, i, limit, shield, kept, removed, remaining) && rs[i].key in shield
    ensures Selecting(rs, i + 1, limit, shield, kept + [rs[i]], removed, remaining)
  {
    var r := rs[i];
    assert rs[i..][1..] == rs[i + 1..];
    assert rs[..i + 1] == rs[..i] + [r];
    TotalConcat(kept, [r]);
    assert multiset(kept + [r] + removed) == multiset(kept + removed) + multiset{r};
  }

  lemma SelectRemove(rs: seq<Record>, i: nat, limit: nat, shield: set<Key>, kept: seq<Record>, removed: seq<Record>, remaining: nat)
    requires i < |rs| && Selecting(rs, i, limit, shield, kept, removed, remaining)
    requires rs[i].key !in shield && remaining > limit && OldestFirst(rs)
    ensures remaining >= rs[i].bytes
    ensures Selecting(rs, i + 1, limit, shield, kept, removed + [rs[i]], remaining - rs[i].bytes)
  {
    var r := rs[i];
    assert rs[i..][1..] == rs[i + 1..];
    assert rs[..i + 1] == rs[..i] + [r];
    assert multiset(kept + (removed + [r])) == multiset(kept + removed) + multiset{r};
    forall k | 0 <= k < |removed| + 1
      ensures remaining - r.bytes + Total((removed + [r])[k..]) > limit
    {
      if k < |removed| {
        assert (removed + [r])[k..] == removed[k..] + [r];
        TotalConcat(removed[k..], [r]);
      } else {
        assert (removed + [r])[k..] == [r];
      }
    }
  }

  lemma SelectStop(rs: seq<Record>, i: nat, limit: nat, shield: set<Key>, kept: seq<Record>, removed: seq<Record>, remaining: nat)
    requires i <= |rs| && Selecting(rs, i, limit, shield, kept, removed, remaining)
    requires remaining <= limit || i == |rs|
    ensures Selected(limit, shield, kept + rs[i..], removed) && remaining == Total(kept + rs[i..])
    ensures multiset(kept + rs[i..] + removed) == multiset(rs)
  {
    assert rs == rs[..i] + rs[i..];
    TotalConcat(kept, rs[i..]);
    assert multiset(kept + rs[i..] + removed) == multiset(kept + removed) + multiset(rs[i..]);
  }

  lemma AllPromised(instanceId: string, before: Instance, after: Instance, limit: nat, explicit: set<Key>,
                    shield: set<Key>, kept: seq<Record>, removed: seq<Record>, swept: bool)
    requires Trimmed(instanceId, before, after, limit, explicit, shield, kept, removed, swept)
    requires after.usage == (map k | k in before.usage && HasKey(kept, k) :: before.usage[k])
    requires forall fp :: fp in after.fingerprints ==> Reconciled(instanceId, fp, after.fingerprints[fp])
    ensures Pruned(instanceId, before, after, limit, explicit, shield, kept, removed, swept)
  {
  }

  /** A loadable generation that is spared survives pruning untouched. */
  lemma ProtectedSurvive(instanceId: string, before: Instance, after: Instance, limit: nat, explicit: set<Key>, shield: set<Key>,
                         kept: seq<Record>, removed: seq<Record>, swept: bool, k: Key)
    requires Trimmed(instanceId, before, after, limit, explicit, shield, kept, removed, swept)
    requires k in shield && k.fingerprint in before.fingerprints
    requires Loadable(instanceId, k.fingerprint, before.fingerprints[k.fingerprint], k.generation)
    ensures var d0, d1 := before.fingerprints[k.fingerprint], after.fingerprints[k.fingerprint];
            && k.generation in d0.generations && k.generation in d1.generations
            && d1.generations[k.generation] == d0.generations[k.generation]
  {
    hide Shields, RecordOf, LoadContent, Survivors;
    assert Key(k.fingerprint, k.generation) == k;
    LoadableIffRecorded(instanceId, before, kept + removed, k.fingerprint, k.generation);
    HasKeyConcat(kept, removed, k);
    assert KeptExactly(instanceId, k.fingerprint, before.fingerprints[k.fingerprint], after.fingerprints[k.fingerprint], kept);
  }

}

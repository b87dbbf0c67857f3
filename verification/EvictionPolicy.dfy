/**
 What pruning does, said of the stored generations alone: when each was last used, how much
 room its files take, which are protected and which have to go.
 */
module EvictionPolicy {
  import opened Wrappers
  import opened Manifests
  import opened StoreSpec
  import opened PruneSpec
  import opened Eviction

  /** A loadable generation of the instance. */
  predicate Stored(instanceId: string, disk: Instance, k: Key) {
    && k.fingerprint in disk.fingerprints && k.generation in disk.fingerprints[k.fingerprint].generations
    && Loadable(instanceId, k.fingerprint, disk.fingerprints[k.fingerprint], k.generation)
  }

  ghost function StoredKeys(instanceId: string, disk: Instance): set<Key> {
    set fp, id | fp in disk.fingerprints && id in disk.fingerprints[fp].generations && Stored(instanceId, disk, Key(fp, id)) :: Key(fp, id)
  }

  predicate Present(disk: Instance, k: Key) {
    k.fingerprint in disk.fingerprints && k.generation in disk.fingerprints[k.fingerprint].generations
  }

  /** The last recorded use; a generation without one counts as used when it was created. */
  function LastUse(instanceId: string, disk: Instance, k: Key): nat
    requires Stored(instanceId, disk, k)
  {
    if k in disk.usage then disk.usage[k]
    else disk.fingerprints[k.fingerprint].generations[k.generation].manifest.value.createdAt
  }

  function CreatedAt(instanceId: string, disk: Instance, k: Key): nat
    requires Stored(instanceId, disk, k)
  {
    disk.fingerprints[k.fingerprint].generations[k.generation].manifest.value.createdAt
  }

  /** The size of the payload files that a manifest's slots name. */
  function FileBytes(payloads: map<string, Bytes>, slots: seq<SlotManifest>): nat {
    if slots == [] then 0
    else var last := slots[|slots| - 1];
         FileBytes(payloads, slots[..|slots| - 1]) + if last.filename in payloads then |payloads[last.filename]| else 0
  }

  /** The payload files and the manifest file. */
  function Size(instanceId: string, disk: Instance, k: Key): nat
    requires Stored(instanceId, disk, k)
  {
    var g := disk.fingerprints[k.fingerprint].generations[k.generation];
    FileBytes(g.payloads, g.manifest.value.slots) + g.manifestSize
  }

  ghost function Weight(instanceId: string, disk: Instance, ks: set<Key>): nat
    requires ks <= StoredKeys(instanceId, disk)
  {
    if ks == {} then 0 else var k :| k in ks; Size(instanceId, disk, k) + Weight(instanceId, disk, ks - {k})
  }

  /** What loaded before and is still there. */
  ghost function Left(instanceId: string, before: Instance, after: Instance): set<Key> {
    set k | k in StoredKeys(instanceId, before) && Present(after, k)
  }

  /** What is used no earlier than `k`, and what is protected. */
  ghost function NoEarlier(instanceId: string, disk: Instance, k: Key, shield: set<Key>): (ks: set<Key>)
    requires Stored(instanceId, disk, k)
    ensures ks <= StoredKeys(instanceId, disk)
  {
    set x | x in StoredKeys(instanceId, disk) && (x in shield || LastUse(instanceId, disk, x) >= LastUse(instanceId, disk, k))
  }

  /** The protected generations: those named, or else the newest one if it fits. */
  ghost predicate Protects(instanceId: string, disk: Instance, limit: nat, explicit: set<Key>, shield: set<Key>) {
    if explicit != {} || StoredKeys(instanceId, disk) == {} then shield == explicit
    else exists n :: n in StoredKeys(instanceId, disk) && IsLatest(instanceId, disk, n)
                     && shield == if Size(instanceId, disk, n) <= limit then {n} else {}
  }

  ghost predicate IsLatest(instanceId: string, disk: Instance, n: Key)
    requires Stored(instanceId, disk, n)
  {
    forall k :: k in StoredKeys(instanceId, disk) ==> CreatedAt(instanceId, disk, k) <= CreatedAt(instanceId, disk, n)
  }

  /** Pruning `before` to `after` under the limit follows the policy, and `remaining` is what is left. */
  ghost predicate FollowsPolicy(instanceId: string, before: Instance, after: Instance, limit: nat, explicit: set<Key>, shield: set<Key>,
                                remaining: nat)
  {
    var left, all := Left(instanceId, before, after), StoredKeys(instanceId, before);
    && Protects(instanceId, before, limit, explicit, shield)
    && (forall k :: k in all && k in shield ==> k in left)
    && (forall k :: k in left ==> after.fingerprints[k.fingerprint].generations[k.generation]
                                  == before.fingerprints[k.fingerprint].generations[k.generation])
    // enough goes
    && remaining == Weight(instanceId, before, left) && (remaining <= limit || left <= shield)
    // the least recently used go first
    && (forall k, k' :: k in all && k !in left && k' in left && k' !in shield ==> LastUse(instanceId, before, k) <= LastUse(instanceId, before, k'))
    // and none goes that has room next to everything it does not come after
    && (forall k :: k in all && k !in left ==> Weight(instanceId, before, NoEarlier(instanceId, before, k, shield)) > limit)
  }

  lemma {:induction false} FilesAreAsListed(payloads: map<string, Bytes>, slots: seq<SlotManifest>)
    requires forall i :: 0 <= i < |slots| ==> PayloadMatches(payloads, slots[i])
    ensures FileBytes(payloads, slots) == PayloadBytes(slots)
  {
    if slots != [] {
      assert PayloadMatches(payloads, slots[|slots| - 1]);
      FilesAreAsListed(payloads, slots[..|slots| - 1]);
    }
  }

  /** What pruning records of a generation is so. */
  lemma RecordMeans(instanceId: string, disk: Instance, k: Key)
    requires Stored(instanceId, disk, k)
    ensures RecordOf(instanceId, k.fingerprint, disk.fingerprints[k.fingerprint], disk.usage, k.generation)
            == Record(k, LastUse(instanceId, disk, k), Size(instanceId, disk, k), CreatedAt(instanceId, disk, k))
  {
    hide FileBytes, PayloadMatches, ValidManifest;
    var g := disk.fingerprints[k.fingerprint].generations[k.generation];
    FilesAreAsListed(g.payloads, g.manifest.value.slots);
  }

  lemma {:induction false} WeightRemove(instanceId: string, disk: Instance, ks: set<Key>, k: Key)
    requires ks <= StoredKeys(instanceId, disk) && k in ks
    ensures Weight(instanceId, disk, ks) == Size(instanceId, disk, k) + Weight(instanceId, disk, ks - {k})
    decreases ks
  {
    hide Size, Loadable;
    var x :| x in ks && Weight(instanceId, disk, ks) == Size(instanceId, disk, x) + Weight(instanceId, disk, ks - {x});
    if x != k {
      WeightRemove(instanceId, disk, ks - {x}, k);
      WeightRemove(instanceId, disk, ks - {k}, x);
      assert ks - {x} - {k} == ks - {k} - {x};
    }
  }

  lemma {:induction false} WeightMonotone(instanceId: string, disk: Instance, a: set<Key>, b: set<Key>)
    requires a <= b <= StoredKeys(instanceId, disk)
    ensures Weight(instanceId, disk, a) <= Weight(instanceId, disk, b)
    decreases a
  {
    if a != {} {
      var k :| k in a;
      WeightRemove(instanceId, disk, a, k);
      WeightRemove(instanceId, disk, b, k);
      WeightMonotone(instanceId, disk, a - {k}, b - {k});
    }
  }

  function KeysOf(rs: seq<Record>): set<Key> { set r | r in rs :: r.key }

  /** The records say what is so of the generations they stand for. */
  ghost predicate Listed(instanceId: string, disk: Instance, rs: seq<Record>) {
    DistinctKeys(rs) && forall i :: 0 <= i < |rs| ==> IsRecord(instanceId, disk, rs[i])
  }

  ghost predicate IsRecord(instanceId: string, disk: Instance, r: Record) {
    && Stored(instanceId, disk, r.key)
    && r == Record(r.key, LastUse(instanceId, disk, r.key), Size(instanceId, disk, r.key), CreatedAt(instanceId, disk, r.key))
  }

  lemma KeysAreStored(instanceId: string, disk: Instance, rs: seq<Record>)
    requires Listed(instanceId, disk, rs)
    ensures KeysOf(rs) <= StoredKeys(instanceId, disk)
  {
  }

  lemma {:induction false} WeightOfListed(instanceId: string, disk: Instance, rs: seq<Record>)
    requires Listed(instanceId, disk, rs)
    ensures KeysOf(rs) <= StoredKeys(instanceId, disk) && Weight(instanceId, disk, KeysOf(rs)) == Total(rs)
  {
    KeysAreStored(instanceId, disk, rs);
    hide Stored, LastUse, Size, CreatedAt, StoredKeys;
    if rs == [] {
      assert KeysOf(rs) == {};
    } else {
      assert IsRecord(instanceId, disk, rs[0]);
      WeightOfListed(instanceId, disk, rs[1..]);
      WeightRemove(instanceId, disk, KeysOf(rs), rs[0].key);
      assert KeysOf(rs) - {rs[0].key} == KeysOf(rs[1..]);
    }
  }

  /** A complete listing names every stored generation. */
  lemma CoveredIsListed(instanceId: string, disk: Instance, rs: seq<Record>)
    requires Covered(instanceId, disk, disk.fingerprints.Keys, disk.usage, rs)
    ensures Listed(instanceId, disk, rs) && KeysOf(rs) == StoredKeys(instanceId, disk)
  {
    hide RecordOf, Loadable, LastUse, Size, CreatedAt;
    forall i | 0 <= i < |rs| ensures IsRecord(instanceId, disk, rs[i]) {
      var k := rs[i].key;
      PresentWhenLoadable(instanceId, k.fingerprint, disk.fingerprints[k.fingerprint], k.generation);
      RecordMeans(instanceId, disk, k);
    }
    forall k | k in StoredKeys(instanceId, disk) ensures k in KeysOf(rs) {
      assert HasKey(rs, Key(k.fingerprint, k.generation));
    }
  }

  lemma ListedParts(instanceId: string, disk: Instance, a: seq<Record>, b: seq<Record>)
    requires Listed(instanceId, disk, a + b)
    ensures Listed(instanceId, disk, a) && Listed(instanceId, disk, b) && KeysOf(a) !! KeysOf(b) && KeysOf(a + b) == KeysOf(a) + KeysOf(b)
  {
    hide IsRecord;
    forall i | 0 <= i < |a| ensures IsRecord(instanceId, disk, a[i]) { assert (a + b)[i] == a[i]; }
    forall i | 0 <= i < |b| ensures IsRecord(instanceId, disk, b[i]) { assert (a + b)[|a| + i] == b[i]; }
    forall i, j | 0 <= i < |a| && 0 <= j < |b| ensures a[i].key != b[j].key {
      assert (a + b)[i] == a[i] && (a + b)[|a| + j] == b[j];
    }
    forall i, j | 0 <= i < j < |a| ensures a[i].key != a[j].key { assert (a + b)[i] == a[i] && (a + b)[j] == a[j]; }
    forall i, j | 0 <= i < j < |b| ensures b[i].key != b[j].key { assert (a + b)[|a| + i] == b[i] && (a + b)[|a| + j] == b[j]; }
  }

  /** The protected generations, seen in the listing and in the store. */
  lemma ShieldsMeans(instanceId: string, disk: Instance, limit: nat, explicit: set<Key>, rs: seq<Record>, shield: set<Key>)
    requires Listed(instanceId, disk, rs) && KeysOf(rs) == StoredKeys(instanceId, disk) && Shields(explicit, limit, rs, shield)
    ensures Protects(instanceId, disk, limit, explicit, shield)
  {
    hide Stored, StoredKeys, LastUse, Size, CreatedAt;
    if explicit == {} && rs != [] {
      var n :| 0 <= n < |rs| && (forall i :: 0 <= i < |rs| ==> rs[i].createdAt <= rs[n].createdAt)
               && shield == if rs[n].bytes <= limit then {rs[n].key} else {};
      assert IsRecord(instanceId, disk, rs[n]);
      forall k | k in StoredKeys(instanceId, disk) ensures CreatedAt(instanceId, disk, k) <= CreatedAt(instanceId, disk, rs[n].key) {
        var i :| 0 <= i < |rs| && rs[i].key == k;
        assert IsRecord(instanceId, disk, rs[i]);
      }
      assert rs[n].key in KeysOf(rs);
    } else if rs == [] {
      assert KeysOf(rs) == {};
    }
  }

  lemma LeftIsKept(instanceId: string, before: Instance, after: Instance, limit: nat, explicit: set<Key>, shield: set<Key>,
                   kept: seq<Record>, removed: seq<Record>, swept: bool)
    requires Trimmed(instanceId, before, after, limit, explicit, shield, kept, removed, swept)
    requires KeysOf(kept + removed) == StoredKeys(instanceId, before)
    ensures Left(instanceId, before, after) == KeysOf(kept)
    ensures forall k :: k in KeysOf(kept) ==>
              && Present(before, k) && Present(after, k)
              && after.fingerprints[k.fingerprint].generations[k.generation] == before.fingerprints[k.fingerprint].generations[k.generation]
  {
    hide Trimmed, Loadable;
    forall k | k in KeysOf(kept)
      ensures k in StoredKeys(instanceId, before) && Present(before, k) && Present(after, k)
      ensures after.fingerprints[k.fingerprint].generations[k.generation] == before.fingerprints[k.fingerprint].generations[k.generation]
    {
      var i :| 0 <= i < |kept| && kept[i].key == k;
      assert (kept + removed)[i] == kept[i] && k in KeysOf(kept + removed);
      StaysIfKept(instanceId, before, after, limit, explicit, shield, kept, removed, swept, i);
      KeptUntouched(instanceId, before, after, limit, explicit, shield, kept, removed, swept, k);
    }
    forall k | k in StoredKeys(instanceId, before) && Present(after, k) ensures k in KeysOf(kept) {
      var i :| 0 <= i < |kept + removed| && (kept + removed)[i].key == k;
      if i >= |kept| {
        GoneIfRemoved(instanceId, before, after, limit, explicit, shield, kept, removed, swept, i - |kept|);
      }
    }
  }

  lemma KeptUntouched(instanceId: string, before: Instance, after: Instance, limit: nat, explicit: set<Key>, shield: set<Key>,
                      kept: seq<Record>, removed: seq<Record>, swept: bool, k: Key)
    requires Trimmed(instanceId, before, after, limit, explicit, shield, kept, removed, swept)
    requires Stored(instanceId, before, k) && Present(after, k)
    ensures after.fingerprints[k.fingerprint].generations[k.generation] == before.fingerprints[k.fingerprint].generations[k.generation]
  {
    hide Shields, Selected, Survivors, RecordOf, LoadGeneration, Covered;
    assert KeptExactly(instanceId, k.fingerprint, before.fingerprints[k.fingerprint], after.fingerprints[k.fingerprint], kept);
  }

  /** Of two generations that are not protected, the one that goes was used no later. */
  lemma GoneUsedEarlier(instanceId: string, disk: Instance, limit: nat, shield: set<Key>, kept: seq<Record>, removed: seq<Record>, k: Key, k': Key)
    requires Selected(limit, shield, kept, removed) && Listed(instanceId, disk, kept) && Listed(instanceId, disk, removed)
    requires k in KeysOf(removed) && k' in KeysOf(kept) && k' !in shield
    ensures Stored(instanceId, disk, k) && Stored(instanceId, disk, k') && LastUse(instanceId, disk, k) <= LastUse(instanceId, disk, k')
  {
    hide Stored, LastUse, Size, CreatedAt;
    var i :| 0 <= i < |removed| && removed[i].key == k;
    var j :| 0 <= j < |kept| && kept[j].key == k';
    assert IsRecord(instanceId, disk, removed[i]) && IsRecord(instanceId, disk, kept[j]);
  }

  /** What goes has no room. */
  lemma GoneHasNoRoom(instanceId: string, disk: Instance, limit: nat, shield: set<Key>, kept: seq<Record>, removed: seq<Record>, i: nat)
    requires Selected(limit, shield, kept, removed) && Listed(instanceId, disk, kept + removed) && i < |removed|
    ensures Stored(instanceId, disk, removed[i].key)
            && Weight(instanceId, disk, NoEarlier(instanceId, disk, removed[i].key, shield)) > limit
  {
    ListedParts(instanceId, disk, kept, removed);
    var k, still := removed[i].key, kept + removed[i..];
    assert IsRecord(instanceId, disk, removed[i]);
    Regrouped(kept, removed, i);
    forall j | 0 <= j < |still|
      ensures IsRecord(instanceId, disk, still[j]) && (still[j].key in shield || still[j].lastUsed >= removed[i].lastUsed)
    {
      hide IsRecord;
      if j < |kept| { assert still[j] == kept[j]; } else { assert still[j] == removed[i + j - |kept|]; }
    }
    WeightOfListed(instanceId, disk, still);
    hide Stored, LastUse, Size, CreatedAt, Selected;
    assert KeysOf(still) <= NoEarlier(instanceId, disk, k, shield);
    WeightMonotone(instanceId, disk, KeysOf(still), NoEarlier(instanceId, disk, k, shield));
  }

  /** What is protected is not among the removals. */
  lemma ProtectedIsKept(limit: nat, shield: set<Key>, kept: seq<Record>, removed: seq<Record>)
    requires Selected(limit, shield, kept, removed)
    ensures KeysOf(removed) !! shield
    ensures Total(kept) <= limit || KeysOf(kept) <= shield
  {
  }

  /** Pruning follows the policy. */
  lemma PruneFollowsPolicy(instanceId: string, before: Instance, after: Instance, limit: nat, explicit: set<Key>, shield: set<Key>,
                           kept: seq<Record>, removed: seq<Record>, swept: bool)
    requires Trimmed(instanceId, before, after, limit, explicit, shield, kept, removed, swept)
    ensures FollowsPolicy(instanceId, before, after, limit, explicit, shield, Total(kept))
  {
    hide *;
    TrimmedLists(instanceId, before, after, limit, explicit, shield, kept, removed, swept);
    TrimmedShields(instanceId, before, after, limit, explicit, shield, kept, removed, swept);
    CoveredIsListed(instanceId, before, kept + removed);
    ShieldsMeans(instanceId, before, limit, explicit, kept + removed, shield);
    LeftIsKept(instanceId, before, after, limit, explicit, shield, kept, removed, swept);
    ListedParts(instanceId, before, kept, removed);
    ProtectedIsKept(limit, shield, kept, removed);
    WeightOfListed(instanceId, before, kept);
    forall k, k' | k in KeysOf(removed) && k' in KeysOf(kept) && k' !in shield
      ensures Stored(instanceId, before, k) && Stored(instanceId, before, k') && LastUse(instanceId, before, k) <= LastUse(instanceId, before, k')
    {
      GoneUsedEarlier(instanceId, before, limit, shield, kept, removed, k, k');
    }
    forall k | k in KeysOf(removed)
      ensures Stored(instanceId, before, k) && Weight(instanceId, before, NoEarlier(instanceId, before, k, shield)) > limit
    {
      var i := KeyIndex(removed, k);
      GoneHasNoRoom(instanceId, before, limit, shield, kept, removed, i);
    }
    ConcludePolicy(instanceId, before, after, limit, explicit, shield, KeysOf(kept), KeysOf(removed), Total(kept));
  }

  /** The record of uses is cut to what is left. */
  lemma UsageIsCut(instanceId: string, before: Instance, after: Instance, limit: nat, explicit: set<Key>, shield: set<Key>,
                   kept: seq<Record>, removed: seq<Record>, swept: bool)
    requires Pruned(instanceId, before, after, limit, explicit, shield, kept, removed, swept)
    ensures forall k :: k in after.usage <==> k in before.usage && k in Left(instanceId, before, after)
    ensures forall k :: k in after.usage ==> after.usage[k] == before.usage[k]
  {
    hide Trimmed, Reconciled, Left, Selected, Covered;
    TrimmedLists(instanceId, before, after, limit, explicit, shield, kept, removed, swept);
    CoveredIsListed(instanceId, before, kept + removed);
    LeftIsKept(instanceId, before, after, limit, explicit, shield, kept, removed, swept);
    forall k ensures HasKey(kept, k) <==> k in KeysOf(kept) {
    }
  }

  lemma KeyIndex(rs: seq<Record>, k: Key) returns (i: nat)
    requires k in KeysOf(rs)
    ensures i < |rs| && rs[i].key == k
  {
    i :| 0 <= i < |rs| && rs[i].key == k;
  }

  lemma TrimmedShields(instanceId: string, before: Instance, after: Instance, limit: nat, explicit: set<Key>, shield: set<Key>,
                       kept: seq<Record>, removed: seq<Record>, swept: bool)
    requires Trimmed(instanceId, before, after, limit, explicit, shield, kept, removed, swept)
    ensures Shields(explicit, limit, kept + removed, shield)
  {
    hide Shields, Survivors, Selected, RecordOf, Loadable, Covered;
  }

  lemma ConcludePolicy(instanceId: string, before: Instance, after: Instance, limit: nat, explicit: set<Key>, shield: set<Key>,
                       left: set<Key>, gone: set<Key>, remaining: nat)
    requires left == Left(instanceId, before, after) && left !! gone && left + gone == StoredKeys(instanceId, before)
    requires Protects(instanceId, before, limit, explicit, shield) && gone !! shield
    requires forall k :: k in left ==>
               && Present(before, k) && Present(after, k)
               && after.fingerprints[k.fingerprint].generations[k.generation] == before.fingerprints[k.fingerprint].generations[k.generation]
    requires remaining == Weight(instanceId, before, left) && (remaining <= limit || left <= shield)
    requires forall k, k' :: k in gone && k' in left && k' !in shield ==>
               && Stored(instanceId, before, k) && Stored(instanceId, before, k')
               && LastUse(instanceId, before, k) <= LastUse(instanceId, before, k')
    requires forall k :: k in gone ==> Stored(instanceId, before, k) && Weight(instanceId, before, NoEarlier(instanceId, before, k, shield)) > limit
    ensures FollowsPolicy(instanceId, before, after, limit, explicit, shield, remaining)
  {
    hide Protects, Weight, LastUse, Loadable;
  }
}

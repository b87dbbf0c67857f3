/**
 Which generations pruning evicts, as a condition on the store before the call: the
 generations that would have to go after it, if it were to stay, do not fit the limit.
 */
module Eviction {
  import opened Wrappers
  import opened Manifests
  import opened StoreSpec
  import opened PruneSpec

  /** The records of every loadable generation of the instance. */
  ghost function AllRecords(instanceId: string, disk: Instance): set<Record> {
    set fp, id | fp in disk.fingerprints && id in disk.fingerprints[fp].generations && Loadable(instanceId, fp, disk.fingerprints[fp], id)
      :: RecordOf(instanceId, fp, disk.fingerprints[fp], disk.usage, id)
  }

  ghost function Sum(rs: set<Record>): nat {
    if rs == {} then 0 else var r :| r in rs; r.bytes + Sum(rs - {r})
  }

  lemma {:induction false} SumRemove(rs: set<Record>, r: Record)
    requires r in rs
    ensures Sum(rs) == r.bytes + Sum(rs - {r})
    decreases rs
  {
    var x :| x in rs && Sum(rs) == x.bytes + Sum(rs - {x});
    if x != r {
      SumRemove(rs - {x}, r);
      SumRemove(rs - {r}, x);
      assert rs - {x} - {r} == rs - {r} - {x};
    }
  }

  lemma {:induction false} SumMonotone(a: set<Record>, b: set<Record>)
    requires a <= b
    ensures Sum(a) <= Sum(b)
    decreases a
  {
    if a != {} {
      var r :| r in a;
      SumRemove(a, r);
      SumRemove(b, r);
      SumMonotone(a - {r}, b - {r});
    }
  }

  function AsSet(rs: seq<Record>): set<Record> { set r | r in rs }

  lemma {:induction false} SumOfListed(rs: seq<Record>)
    requires DistinctKeys(rs)
    ensures Sum(AsSet(rs)) == Total(rs)
  {
    if rs == [] {
      assert AsSet(rs) == {};
    } else {
      SumOfListed(rs[1..]);
      SumRemove(AsSet(rs), rs[0]);
      assert AsSet(rs) - {rs[0]} == AsSet(rs[1..]);
    }
  }

  lemma CoveredIsAll(instanceId: string, disk: Instance, rs: seq<Record>)
    requires Covered(instanceId, disk, disk.fingerprints.Keys, disk.usage, rs)
    ensures AsSet(rs) == AllRecords(instanceId, disk)
  {
    hide Loadable, RecordOf;
    forall fp, id | fp in disk.fingerprints && id in disk.fingerprints[fp].generations && Loadable(instanceId, fp, disk.fingerprints[fp], id)
      ensures RecordOf(instanceId, fp, disk.fingerprints[fp], disk.usage, id) in rs
    {
      assert HasKey(rs, Key(fp, id));
    }
    forall i | 0 <= i < |rs| ensures rs[i] in AllRecords(instanceId, disk) {
      var k := rs[i].key;
      PresentWhenLoadable(instanceId, k.fingerprint, disk.fingerprints[k.fingerprint], k.generation);
    }
  }

  lemma PresentWhenLoadable(instanceId: string, fp: string, d: FingerprintDir, id: Uuid)
    requires Loadable(instanceId, fp, d, id)
    ensures id in d.generations
  {
  }

  /** What has to fit next to `r` for it to stay: everything protected, and everything used no earlier. */
  ghost function Rivals(all: set<Record>, r: Record, shield: set<Key>): set<Record> {
    set x | x in all && (x.key in shield || x.lastUsed >= r.lastUsed)
  }

  ghost predicate Crowded(all: set<Record>, r: Record, limit: nat, shield: set<Key>) { Sum(Rivals(all, r, shield)) > limit }

  /** The protected generations and those for which there is room. */
  ghost function Spared(all: set<Record>, limit: nat, shield: set<Key>): iset<Key> {
    iset k | k in shield || exists r :: r in all && r.key == k && !Crowded(all, r, limit, shield)
  }

  lemma DistinctPrefix(a: seq<Record>, b: seq<Record>)
    requires DistinctKeys(a + b)
    ensures DistinctKeys(a)
  {
    forall i, j | 0 <= i < j < |a| ensures a[i].key != a[j].key {
      assert (a + b)[i] == a[i] && (a + b)[j] == a[j];
    }
  }

  lemma SameKeySameRecord(rs: seq<Record>, x: Record, y: Record)
    requires DistinctKeys(rs) && x in rs && y in rs && x.key == y.key
    ensures x == y
  {
  }

  /** The sum of distinct records that are all rivals of `r`. */
  lemma RivalsWeigh(all: set<Record>, r: Record, shield: set<Key>, rs: seq<Record>)
    requires DistinctKeys(rs) && forall i :: 0 <= i < |rs| ==> rs[i] in all && (rs[i].key in shield || rs[i].lastUsed >= r.lastUsed)
    ensures Total(rs) <= Sum(Rivals(all, r, shield))
  {
    SumOfListed(rs);
    SumMonotone(AsSet(rs), Rivals(all, r, shield));
  }

  /** The next generation to be removed is one for which there is no room. */
  lemma NextIsCrowded(rs: seq<Record>, i: nat, limit: nat, shield: set<Key>, kept: seq<Record>, removed: seq<Record>, remaining: nat)
    requires i < |rs| && Selecting(rs, i, limit, shield, kept, removed, remaining) && OldestFirst(rs) && DistinctKeys(rs)
    requires remaining > limit && rs[i].key !in shield
    ensures Crowded(AsSet(rs), rs[i], limit, shield) && rs[i].key !in Spared(AsSet(rs), limit, shield)
  {
    var still := kept + rs[i..];
    TotalConcat(kept, rs[i..]);
    assert rs == rs[..i] + rs[i..];
    assert multiset(still + removed) == multiset(kept + removed) + multiset(rs[i..]) == multiset(rs);
    DistinctUnderSort(rs, still + removed);
    DistinctPrefix(still, removed);
    forall k | 0 <= k < |still|
      ensures still[k] in AsSet(rs) && (still[k].key in shield || still[k].lastUsed >= rs[i].lastUsed)
    {
      assert (still + removed)[k] in multiset(rs);
    }
    RivalsWeigh(AsSet(rs), rs[i], shield, still);
    forall r | r in AsSet(rs) && r.key == rs[i].key ensures r == rs[i] {
      SameKeySameRecord(rs, r, rs[i]);
    }
  }

  /** No other unprotected generation was last used at the very same time. */
  ghost predicate NoTie(all: set<Record>, r: Record, shield: set<Key>) {
    forall x :: x in all && x.key !in shield && x != r ==> x.lastUsed != r.lastUsed
  }

  /** Regrouped, the kept records and the removals from `i` on come first. */
  lemma Regrouped(kept: seq<Record>, removed: seq<Record>, i: nat)
    requires i <= |removed| && DistinctKeys(kept + removed)
    ensures DistinctKeys(kept + removed[i..]) && Total(kept + removed[i..]) == Total(kept) + Total(removed[i..])
  {
    var still, gone := kept + removed[i..], removed[..i];
    TotalConcat(kept, removed[i..]);
    assert multiset(still + gone) == multiset(kept + removed) by { assert removed == gone + removed[i..]; }
    DistinctUnderSort(kept + removed, still + gone);
    DistinctPrefix(still, gone);
  }

  lemma StillListed(kept: seq<Record>, removed: seq<Record>, i: nat)
    requires i <= |removed|
    ensures forall r :: r in kept + removed[i..] ==> r in AsSet(kept + removed)
  {
    forall r | r in kept + removed[i..] ensures r in kept + removed {
      if r !in kept { assert r in removed[i..]; }
    }
  }

  lemma RemovedIsCrowded(limit: nat, shield: set<Key>, kept: seq<Record>, removed: seq<Record>, i: nat)
    requires Selected(limit, shield, kept, removed) && DistinctKeys(kept + removed) && i < |removed|
    ensures Crowded(AsSet(kept + removed), removed[i], limit, shield)
  {
    hide Sum, Rivals, AsSet, DistinctKeys;
    var still := kept + removed[i..];
    Regrouped(kept, removed, i);
    StillListed(kept, removed, i);
    forall k | 0 <= k < |still|
      ensures still[k] in AsSet(kept + removed) && (still[k].key in shield || still[k].lastUsed >= removed[i].lastUsed)
    {
      assert still[k] in still;
    }
    RivalsWeigh(AsSet(kept + removed), removed[i], shield, still);
  }

  /** What has to fit next to `r` even if `r` is the last of those used at the same time to be looked at. */
  ghost function LaterRivals(all: set<Record>, r: Record, shield: set<Key>): set<Record> {
    set x | x in all && (x == r || x.key in shield || x.lastUsed > r.lastUsed)
  }

  lemma NoTieNoDifference(all: set<Record>, r: Record, shield: set<Key>)
    requires NoTie(all, r, shield) && r in all
    ensures LaterRivals(all, r, shield) == Rivals(all, r, shield)
  {
  }

  lemma KeptIsRoomy(limit: nat, shield: set<Key>, kept: seq<Record>, removed: seq<Record>, i: nat)
    requires Selected(limit, shield, kept, removed) && DistinctKeys(kept + removed) && i < |kept| && kept[i].key !in shield
    ensures Sum(LaterRivals(AsSet(kept + removed), kept[i], shield)) <= limit
  {
    var all := kept + removed;
    DistinctPrefix(kept, removed);
    SumOfListed(kept);
    forall x | x in LaterRivals(AsSet(all), kept[i], shield)
      ensures x in kept
    {
    }
    SumMonotone(LaterRivals(AsSet(all), kept[i], shield), AsSet(kept));
  }

  /**
   Eviction, exactly: an unprotected generation is gone after pruning if and only if it, everything
   protected and everything used no earlier exceed the limit together.  Between generations used at
   the very same time the directory order decides, and the two halves are stated apart.
   */
  lemma EvictedIff(instanceId: string, before: Instance, after: Instance, limit: nat, explicit: set<Key>, shield: set<Key>,
                   kept: seq<Record>, removed: seq<Record>, swept: bool, r: Record)
    requires Trimmed(instanceId, before, after, limit, explicit, shield, kept, removed, swept)
    requires r in AllRecords(instanceId, before) && r.key !in shield
    ensures r.key.fingerprint in after.fingerprints
    ensures var gone, all := r.key.generation !in after.fingerprints[r.key.fingerprint].generations, AllRecords(instanceId, before);
            && (gone ==> Crowded(all, r, limit, shield))
            && (Sum(LaterRivals(all, r, shield)) > limit ==> gone)
            && (NoTie(all, r, shield) ==> (gone <==> Crowded(all, r, limit, shield)))
  {
    hide *;
    var all := kept + removed;
    TrimmedLists(instanceId, before, after, limit, explicit, shield, kept, removed, swept);
    CoveredIsAll(instanceId, before, all);
    var p := IndexIn(all, r);
    if NoTie(AsSet(all), r, shield) {
      NoTieNoDifference(AsSet(all), r, shield);
      CrowdedMeans(AsSet(all), r, limit, shield);
    }
    if p < |kept| {
      KeptIsRoomy(limit, shield, kept, removed, p);
      StaysIfKept(instanceId, before, after, limit, explicit, shield, kept, removed, swept, p);
    } else {
      RemovedIsCrowded(limit, shield, kept, removed, p - |kept|);
      GoneIfRemoved(instanceId, before, after, limit, explicit, shield, kept, removed, swept, p - |kept|);
    }
  }

  lemma CrowdedMeans(all: set<Record>, r: Record, limit: nat, shield: set<Key>)
    ensures Crowded(all, r, limit, shield) <==> Sum(Rivals(all, r, shield)) > limit
  {
  }

  lemma IndexIn(rs: seq<Record>, r: Record) returns (p: nat)
    requires r in AsSet(rs)
    ensures p < |rs| && rs[p] == r
  {
    p :| 0 <= p < |rs| && rs[p] == r;
  }

  lemma TrimmedLists(instanceId: string, before: Instance, after: Instance, limit: nat, explicit: set<Key>, shield: set<Key>,
                     kept: seq<Record>, removed: seq<Record>, swept: bool)
    requires Trimmed(instanceId, before, after, limit, explicit, shield, kept, removed, swept)
    ensures Covered(instanceId, before, before.fingerprints.Keys, before.usage, kept + removed) && DistinctKeys(kept + removed)
    ensures Selected(limit, shield, kept, removed)
  {
    hide Shields, Survivors, Selected, RecordOf, Loadable;
  }

  lemma StaysIfKept(instanceId: string, before: Instance, after: Instance, limit: nat, explicit: set<Key>, shield: set<Key>,
                    kept: seq<Record>, removed: seq<Record>, swept: bool, i: nat)
    requires Trimmed(instanceId, before, after, limit, explicit, shield, kept, removed, swept) && i < |kept|
    ensures var k := kept[i].key;
            k.fingerprint in after.fingerprints && k.generation in after.fingerprints[k.fingerprint].generations
  {
    hide Shields, Selected, Survivors, RecordOf, LoadGeneration;
    var k := kept[i].key;
    assert (kept + removed)[i] == kept[i];
    assert Key(k.fingerprint, k.generation) == k && HasKey(kept, k);
    assert KeptExactly(instanceId, k.fingerprint, before.fingerprints[k.fingerprint], after.fingerprints[k.fingerprint], kept);
  }

  lemma GoneIfRemoved(instanceId: string, before: Instance, after: Instance, limit: nat, explicit: set<Key>, shield: set<Key>,
                      kept: seq<Record>, removed: seq<Record>, swept: bool, i: nat)
    requires Trimmed(instanceId, before, after, limit, explicit, shield, kept, removed, swept) && i < |removed|
    ensures var k := removed[i].key;
            k.fingerprint in after.fingerprints && k.generation !in after.fingerprints[k.fingerprint].generations
  {
    hide Shields, Selected, Survivors, RecordOf, LoadGeneration, HasKey;
    var k := removed[i].key;
    assert (kept + removed)[|kept| + i] == removed[i];
    NotKept(kept, removed, i);
    assert Key(k.fingerprint, k.generation) == k;
    assert KeptExactly(instanceId, k.fingerprint, before.fingerprints[k.fingerprint], after.fingerprints[k.fingerprint], kept);
  }

  lemma NotKept(kept: seq<Record>, removed: seq<Record>, i: nat)
    requires DistinctKeys(kept + removed) && i < |removed|
    ensures !HasKey(kept, removed[i].key)
  {
    forall j | 0 <= j < |kept| ensures kept[j].key != removed[i].key {
      assert (kept + removed)[j] == kept[j] && (kept + removed)[|kept| + i] == removed[i];
    }
  }

}

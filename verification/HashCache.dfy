/** The content-hash cache: looking a digest up by file stamp gives what hashing again would give. */
module HashCache {
  import opened Wrappers
  import opened Manifests

  type Path = string

  const MAX_ENTRIES := 4096
  const TTL_SECONDS := 90 * 24 * 60 * 60

  datatype FileState = FileState(content: Bytes, modified: nat, identity: nat)
  datatype Stamp = Stamp(size: nat, modified: nat, identity: nat)
  datatype Entry = Entry(stamp: Stamp, digest: Digest, lastUsed: nat)
  datatype Version = Version(path: Path, stamp: Stamp)

  type Files = map<Path, FileState>
  type Cache = map<Path, Entry>
  type Seen = map<Version, Bytes>

  function StampOf(f: FileState): Stamp { Stamp(|f.content|, f.modified, f.identity) }

  /** A file is written, or removed. */
  datatype Edit = Edit(path: Path, file: Option<FileState>)

  function ApplyEdit(files: Files, e: Edit): Files {
    if e.file.Some? then files[e.path := e.file.value] else files - {e.path}
  }

  function Record(seen: Seen, e: Edit): Seen {
    if e.file.Some? then seen[Version(e.path, StampOf(e.file.value)) := e.file.value.content] else seen
  }

  function Applied(files: Files, edits: seq<Edit>): Files
    decreases edits
  {
    if edits == [] then files else Applied(ApplyEdit(files, edits[0]), edits[1..])
  }

  function Recorded(seen: Seen, edits: seq<Edit>): Seen
    decreases edits
  {
    if edits == [] then seen else Recorded(Record(seen, edits[0]), edits[1..])
  }

  /** Every edit gives its file a stamp that the path never had before. */
  predicate FreshStamps(seen: Seen, edits: seq<Edit>)
    decreases edits
  {
    edits == [] ||
    (&& (edits[0].file.Some? ==> Version(edits[0].path, StampOf(edits[0].file.value)) !in seen)
     && FreshStamps(Record(seen, edits[0]), edits[1..]))
  }

  predicate Touches(edits: seq<Edit>, p: Path) { exists i :: 0 <= i < |edits| && edits[i].path == p }

  /** The files as they are have been recorded. */
  predicate Known(files: Files, seen: Seen) {
    forall p :: p in files ==>
      Version(p, StampOf(files[p])) in seen && seen[Version(p, StampOf(files[p]))] == files[p].content
  }

  /** Every cached digest is that of the content its stamp stood for. */
  predicate Sound(cache: Cache, seen: Seen) {
    forall p :: p in cache ==>
      Version(p, cache[p].stamp) in seen && cache[p].digest == Sha256(seen[Version(p, cache[p].stamp)])
  }

  /** What was recorded stays recorded. */
  predicate Extends(a: Seen, b: Seen) { forall v :: v in a ==> v in b && b[v] == a[v] }

  lemma {:induction false} EditsKeep(files: Files, seen: Seen, edits: seq<Edit>)
    requires Known(files, seen) && FreshStamps(seen, edits)
    ensures Known(Applied(files, edits), Recorded(seen, edits)) && Extends(seen, Recorded(seen, edits))
    decreases edits
  {
    if edits != [] {
      EditsKeep(ApplyEdit(files, edits[0]), Record(seen, edits[0]), edits[1..]);
    }
  }

  lemma {:induction false} UntouchedIsSame(files: Files, edits: seq<Edit>, p: Path)
    requires !Touches(edits, p)
    ensures p in Applied(files, edits) <==> p in files
    ensures p in files ==> Applied(files, edits)[p] == files[p]
    decreases edits
  {
    if edits != [] {
      assert edits[0].path != p;
      assert !Touches(edits[1..], p);
      UntouchedIsSame(ApplyEdit(files, edits[0]), edits[1..], p);
    }
  }

  /** A file that shows a stamp it had before was not edited in between. */
  lemma {:induction false} SameStampMeansUntouched(files: Files, seen: Seen, edits: seq<Edit>, p: Path)
    requires FreshStamps(seen, edits) && p in Applied(files, edits)
    requires Version(p, StampOf(Applied(files, edits)[p])) in seen
    ensures !Touches(edits, p)
    decreases edits
  {
    if edits != [] {
      var files1, seen1 := ApplyEdit(files, edits[0]), Record(seen, edits[0]);
      SameStampMeansUntouched(files1, seen1, edits[1..], p);
      UntouchedIsSame(files1, edits[1..], p);
      assert edits[0].path != p;
      forall i | 0 <= i < |edits|
        ensures edits[i].path != p
      {
        if i > 0 { assert edits[i] == edits[1..][i - 1]; }
      }
    }
  }

  predicate Expired(e: Entry, now: nat) { now > e.lastUsed && now - e.lastUsed > TTL_SECONDS }

  /** An entry written before uses were recorded counts as used now. */
  function Dated(e: Entry, now: nat): Entry { if e.lastUsed == 0 then e.(lastUsed := now) else e }

  function Unexpired(cache: Cache, now: nat): Cache {
    map p | p in cache && !Expired(Dated(cache[p], now), now) :: Dated(cache[p], now)
  }

  /** `after` is what least-recently-used eviction may leave of `before`. */
  predicate Evicted(before: Cache, after: Cache) {
    && (forall p :: p in after ==> p in before && after[p] == before[p])
    && (forall p, q :: p in before && p !in after && q in after ==> before[p].lastUsed <= before[q].lastUsed)
  }

  lemma SoundSubset(a: Cache, b: Cache, seen: Seen)
    requires Sound(a, seen) && forall p :: p in b ==> p in a && b[p].stamp == a[p].stamp && b[p].digest == a[p].digest
    ensures Sound(b, seen)
  {
  }

  method Oldest(cache: Cache) returns (p: Path)
    requires |cache| > 0
    ensures p in cache && forall q :: q in cache ==> cache[p].lastUsed <= cache[q].lastUsed
  {
    var rest := cache.Keys;
    p :| p in rest;
    rest := rest - {p};
    while rest != {}
      invariant p in cache && rest <= cache.Keys
      invariant forall q :: q in cache && q !in rest ==> cache[p].lastUsed <= cache[q].lastUsed
      decreases rest
    {
      var q :| q in rest;
      rest := rest - {q};
      if cache[q].lastUsed < cache[p].lastUsed { p := q; }
    }
  }

  /** Maintenance, entry by entry. */
  predicate Maintained(cache: Cache, now: nat, r: Cache) {
    && |r| <= 4096
    // what stays is as it was, and was used within ninety days or is dated now
    && (forall p :: p in r ==>
          && p in cache && r[p] == cache[p].(lastUsed := if cache[p].lastUsed == 0 then now else cache[p].lastUsed)
          && now <= r[p].lastUsed + 7_776_000)
    // of the rest, what was used that recently goes only for what was used no earlier
    && (forall p :: p in cache && p !in r ==>
          (|| (cache[p].lastUsed != 0 && cache[p].lastUsed + 7_776_000 < now)
           || (|r| == 4096 && forall q :: q in r ==> (if cache[p].lastUsed == 0 then now else cache[p].lastUsed) <= r[q].lastUsed)))
  }

  lemma EvictedIsMaintained(cache: Cache, now: nat, r: Cache)
    requires Evicted(Unexpired(cache, now), r)
    requires |r| == if |Unexpired(cache, now)| <= MAX_ENTRIES then |Unexpired(cache, now)| else MAX_ENTRIES
    ensures Maintained(cache, now, r)
  {
    var all := Unexpired(cache, now);
    forall p | p in cache && p !in r && p in all
      ensures |r| == 4096 && forall q :: q in r ==> all[p].lastUsed <= r[q].lastUsed
    {
      if |all| <= 4096 {
        SameSizeSameKeys(all, r);
      }
    }
  }

  /** Nothing is missing from a part that is as large as the whole. */
  lemma SameSizeSameKeys(all: Cache, r: Cache)
    requires r.Keys <= all.Keys && |r| == |all|
    ensures r.Keys == all.Keys
  {
    assert all.Keys == r.Keys + (all.Keys - r.Keys);
    assert |all.Keys - r.Keys| == 0;
  }

  /** `maintain_hash_cache`: expiry, then eviction down to the limit and no further. */
  method MaintainCache(cache: Cache, now: nat) returns (r: Cache)
    ensures Evicted(Unexpired(cache, now), r)
    ensures |r| == if |Unexpired(cache, now)| <= MAX_ENTRIES then |Unexpired(cache, now)| else MAX_ENTRIES
    ensures Maintained(cache, now, r)
  {
    hide Maintained, Unexpired;
    r := Unexpired(cache, now);
    ghost var all := r;
    while |r| > MAX_ENTRIES
      invariant Evicted(all, r) && |r| <= |all| && (|r| < |all| ==> |r| >= MAX_ENTRIES)
      decreases |r|
    {
      var oldest := Oldest(r);
      var next := r - {oldest};
      SizeAfterRemoval(r, oldest);
      r := next;
    }
    EvictedIsMaintained(cache, now, r);
  }

  lemma SizeAfterRemoval(cache: Cache, p: Path)
    requires p in cache
    ensures |cache - {p}| == |cache| - 1
  {
    assert cache.Keys == (cache - {p}).Keys + {p};
  }

  lemma MaintainedIsSound(cache: Cache, r: Cache, now: nat, seen: Seen)
    requires Sound(cache, seen) && Evicted(Unexpired(cache, now), r)
    ensures Sound(r, seen)
  {
    SoundSubset(cache, r, seen);
  }

  /** Edits before a path is examined, edits while it is being hashed, and what a torn read returns then. */
  datatype Window = Window(before: seq<Edit>, during: seq<Edit>, torn: Bytes)

  function FilesAfter(files: Files, script: seq<Window>, n: nat): Files
    requires n <= |script|
  {
    if n == 0 then files
    else Applied(Applied(FilesAfter(files, script, n - 1), script[n - 1].before), script[n - 1].during)
  }

  /** The files at the moment path `i` is examined. */
  function FilesAt(files: Files, script: seq<Window>, i: nat): Files
    requires i < |script|
  {
    Applied(FilesAfter(files, script, i), script[i].before)
  }

  function SeenAfter(seen: Seen, script: seq<Window>, n: nat): Seen
    requires n <= |script|
  {
    if n == 0 then seen
    else Recorded(Recorded(SeenAfter(seen, script, n - 1), script[n - 1].before), script[n - 1].during)
  }

  predicate FreshScript(seen: Seen, script: seq<Window>) {
    forall i :: 0 <= i < |script| ==>
      && FreshStamps(SeenAfter(seen, script, i), script[i].before)
      && FreshStamps(Recorded(SeenAfter(seen, script, i), script[i].before), script[i].during)
  }

  /** Why hashing path `i` may fail: it is not there, or it is edited while being hashed. */
  predicate Unhashable(files: Files, script: seq<Window>, paths: seq<Path>, i: nat)
    requires i < |script| == |paths|
  {
    paths[i] !in FilesAt(files, script, i) || Touches(script[i].during, paths[i])
  }

  /** The digest hashing path `i` afresh gives. */
  predicate IsRehash(files: Files, script: seq<Window>, paths: seq<Path>, i: nat, digest: Digest)
    requires i < |script| == |paths|
  {
    paths[i] in FilesAt(files, script, i) && digest == Sha256(FilesAt(files, script, i)[paths[i]].content)
  }

  /** The digests of the first paths, in order. */
  predicate AllRehash(files: Files, script: seq<Window>, paths: seq<Path>, digests: seq<Digest>)
    requires |digests| <= |script| == |paths|
  {
    forall i :: 0 <= i < |digests| ==> IsRehash(files, script, paths, i, digests[i])
  }

  /** The cache has an entry for the file as it is. */
  predicate Hit(cache: Cache, files: Files, path: Path)
    requires path in files
  {
    path in cache && cache[path].stamp == StampOf(files[path])
  }

  /** Looking the paths up leaves them in the cache as used now, and everything else as it was. */
  predicate Used(cache: Cache, next: Cache, paths: seq<Path>, now: nat) {
    && (forall p :: p in paths ==> p in next && next[p].lastUsed == now)
    && (forall p :: p in cache && p !in paths ==> p in next && next[p] == cache[p])
    && (forall p :: p in next ==> p in cache || p in paths)
  }

  datatype Persisted = Written | NotWritten | WrittenThenFailed

  class ContentHashes {
    var files: Files
    var stored: Cache
    ghost var seen: Seen

    ghost predicate Valid()
      reads this
    {
      Known(files, seen) && Sound(stored, seen)
    }

    constructor (files: Files)
      ensures Valid() && this.files == files && stored == map[]
    {
      this.files, this.stored := files, map[];
      this.seen := map p | p in files :: Version(p, StampOf(files[p])) := files[p].content;
    }

    /** Others edit files. */
    method Interfere(edits: seq<Edit>)
      requires Valid() && FreshStamps(seen, edits)
      modifies this`files, this`seen
      ensures Valid() && files == Applied(old(files), edits) && seen == Recorded(old(seen), edits)
      ensures Extends(old(seen), seen)
    {
      EditsKeep(files, seen, edits);
      files, seen := Applied(files, edits), Recorded(seen, edits);
    }

    /** One path: a cache hit by stamp, or a hash between two looks at the stamp. */
    method HashOne(path: Path, window: Window, cache: Cache, now: nat) returns (r: Option<Digest>, next: Cache)
      requires Valid() && Sound(cache, seen)
      requires FreshStamps(seen, window.before) && FreshStamps(Recorded(seen, window.before), window.during)
      modifies this`files, this`seen
      ensures Valid() && Sound(next, seen)
      ensures files == Applied(Applied(old(files), window.before), window.during)
      ensures seen == Recorded(Recorded(old(seen), window.before), window.during)
      ensures var examined := Applied(old(files), window.before);
              && (r.Some? ==> path in examined && r.value == Sha256(examined[path].content))
              && (r.None? <==> path !in examined || (Touches(window.during, path) && !Hit(cache, examined, path)))
              // found or hashed, it is entered as it was examined and as used now
              && next == if r.Some? then cache[path := Entry(StampOf(examined[path]), r.value, now)] else cache
    {
      Interfere(window.before);
      var before := files;
      ghost var seenBefore := seen;
      if path !in before { Interfere(window.during); return None, cache; }
      var stamp := StampOf(before[path]);
      if Hit(cache, before, path) {
        var digest := cache[path].digest;
        Interfere(window.during);
        return Some(digest), cache[path := cache[path].(lastUsed := now)];
      }
      Interfere(window.during);
      var read := if Touches(window.during, path) then window.torn else before[path].content;
      if path !in files || StampOf(files[path]) != stamp {
        if !Touches(window.during, path) { UntouchedIsSame(before, window.during, path); }
        return None, cache;
      }
      SameStampMeansUntouched(before, seenBefore, window.during, path);
      return Some(Sha256(read)), cache[path := Entry(stamp, Sha256(read), now)];
    }

    /** The loop over the paths. */
    method HashAll(paths: seq<Path>, script: seq<Window>, cache: Cache, now: nat) returns (r: Option<seq<Digest>>, next: Cache)
      requires Valid() && Sound(cache, seen) && |script| == |paths| && FreshScript(seen, script)
      modifies this`files, this`seen
      ensures Valid() && Sound(next, seen)
      ensures r.Some? ==> |r.value| == |paths| && AllRehash(old(files), script, paths, r.value)
      ensures r.None? ==> exists i :: 0 <= i < |paths| && Unhashable(old(files), script, paths, i)
      ensures r.Some? ==> Used(cache, next, paths, now)
    {
      hide Sound, Known, FreshStamps, Applied, Recorded, Touches, AllRehash;
      ghost var files0, seen0 := files, seen;
      next := cache;
      var digests := [];
      NothingHashed(files0, script, paths);
      var i := 0;
      while i < |paths|
        invariant i <= |paths| && Valid() && Sound(next, seen)
        invariant files == FilesAfter(files0, script, i) && seen == SeenAfter(seen0, script, i)
        invariant |digests| == i && AllRehash(files0, script, paths, digests) && Used(cache, next, paths[..i], now)
      {
        var digest;
        digest, next := HashOne(paths[i], script[i], next, now);
        if digest.None? {
          assert Unhashable(files0, script, paths, i);
          return None, next;
        }
        assert IsRehash(files0, script, paths, i, digest.value);
        OneMoreRehash(files0, script, paths, digests, digest.value);
        digests := digests + [digest.value];
        assert paths[..i + 1] == paths[..i] + [paths[i]];
        i := i + 1;
      }
      assert paths[..i] == paths;
      return Some(digests), next;
    }

    /**
     `content_sha256_many`: in order, the digests hashing again would give; an error only if some
     path is missing or edited while being hashed, or the cache cannot be written.
     */
    method ContentSha256Many(paths: seq<Path>, script: seq<Window>, readable: bool, now: nat, persisted: Persisted)
      returns (r: Option<seq<Digest>>)
      requires Valid() && |script| == |paths| && FreshScript(seen, script)
      modifies this
      ensures Valid()
      ensures r.Some? ==> |r.value| == |paths| && AllRehash(old(files), script, paths, r.value)
      ensures r.None? ==> !persisted.Written? || exists i :: 0 <= i < |paths| && Unhashable(old(files), script, paths, i)
      ensures stored == old(stored) || |stored| <= MAX_ENTRIES
      ensures r.Some? ==> |stored| <= 4096
      // what was hashed is stored as used now, and what was stored stays unless it has expired, or there is no room
      ensures r.Some? ==> forall p :: p in paths ==>
                (p in stored && stored[p].lastUsed == now) || (|stored| == 4096 && forall q :: q in stored ==> stored[q].lastUsed >= now)
      ensures r.Some? && readable ==> forall p :: p in old(stored) && p !in stored ==>
                || (old(stored)[p].lastUsed != 0 && old(stored)[p].lastUsed + 7_776_000 < now)
                || |stored| == 4096 || |old(stored)| > 4096
    {
      hide Sound, Known, Evicted, Unexpired, FreshScript, AllRehash, Unhashable, Used, Maintained;
      NothingCached(seen);
      var loaded := if readable then stored else map[];
      var cache := MaintainCache(loaded, now);
      MaintainedIsSound(loaded, cache, now, seen);
      var digests, next := HashAll(paths, script, cache, now);
      if digests.None? { return None; }
      var kept := MaintainCache(next, now);
      MaintainedIsSound(next, kept, now, seen);
      NewestAreKept(cache, next, kept, paths, now);
      if readable { RecentAreKept(loaded, cache, next, kept, paths, now); }
      if !persisted.NotWritten? { stored := kept; }
      return if persisted.Written? then digests else None;
    }
  }

  lemma NewestAreKept(cache: Cache, next: Cache, kept: Cache, paths: seq<Path>, now: nat)
    requires Used(cache, next, paths, now) && Maintained(next, now, kept)
    ensures forall p :: p in paths ==>
              (p in kept && kept[p].lastUsed == now) || (|kept| == 4096 && forall q :: q in kept ==> kept[q].lastUsed >= now)
  {
  }

  lemma RecentAreKept(loaded: Cache, cache: Cache, next: Cache, kept: Cache, paths: seq<Path>, now: nat)
    requires Maintained(loaded, now, cache) && Used(cache, next, paths, now) && Maintained(next, now, kept)
    ensures forall p :: p in loaded && p !in kept ==>
              || (loaded[p].lastUsed != 0 && loaded[p].lastUsed + 7_776_000 < now)
              || |kept| == 4096 || |loaded| > 4096
  {
    forall p | p in loaded && p !in kept && (loaded[p].lastUsed == 0 || now <= loaded[p].lastUsed + 7_776_000)
      ensures |kept| == 4096 || |loaded| > 4096
    {
      if p !in cache { FewerIfMissing(loaded, cache, p); }
    }
  }

  lemma FewerIfMissing(all: Cache, part: Cache, p: Path)
    requires part.Keys <= all.Keys && p in all && p !in part
    ensures |all| > |part|
  {
    assert all.Keys == part.Keys + (all.Keys - part.Keys);
    assert p in all.Keys - part.Keys;
  }

  lemma OneMoreRehash(files: Files, script: seq<Window>, paths: seq<Path>, digests: seq<Digest>, digest: Digest)
    requires |digests| < |script| == |paths| && AllRehash(files, script, paths, digests)
    requires IsRehash(files, script, paths, |digests|, digest)
    ensures AllRehash(files, script, paths, digests + [digest])
  {
    hide IsRehash;
  }

  lemma NothingHashed(files: Files, script: seq<Window>, paths: seq<Path>)
    requires |script| == |paths|
    ensures AllRehash(files, script, paths, [])
  {
  }

  lemma NothingCached(seen: Seen)
    ensures Sound(map[], seen)
  {
  }
}

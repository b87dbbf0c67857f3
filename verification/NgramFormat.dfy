/** The legacy four-token n-gram cache format: its grammar, and the bounded validator that accepts exactly it. */
module NgramFormat {
  import opened Wrappers
  import opened Manifests
  import opened Encoding

  const MAX_BYTES := 256 * 1024 * 1024
  const TWO_31 := 0x8000_0000
  const TWO_32 := 0x1_0000_0000

  type int32 = x: int | -TWO_31 <= x < TWO_31

  datatype Pair = Pair(token: int32, count: int32)
  datatype Record = Record(p0: int32, p1: int32, p2: int32, p3: int32, pairs: seq<Pair>)

  predicate GoodPair(p: Pair) { p.token >= 0 && p.count > 0 }

  predicate GoodRecord(r: Record) {
    && r.p0 >= -1 && r.p1 >= -1 && r.p2 >= -1 && r.p3 >= -1
    && 0 < |r.pairs| < TWO_31
    && forall i :: 0 <= i < |r.pairs| ==> GoodPair(r.pairs[i])
  }

  predicate GoodRecords(rs: seq<Record>) { forall i :: 0 <= i < |rs| ==> GoodRecord(rs[i]) }

  /** Little-endian two's complement. */
  function Le32(v: int32): (b: Bytes)
    ensures |b| == 4
  {
    LeBytes(if v < 0 then v + TWO_32 else v, 4)
  }

  function Int32(b: Bytes, at: nat): int32
    requires at + 4 <= |b|
  {
    var u := LeUint(b, at, 4);
    if u >= TWO_31 then u - TWO_32 else u
  }

  lemma ReadsBack(b: Bytes, at: nat, v: int32)
    requires at + 4 <= |b|
    ensures Has(b, at, Le32(v)) <==> Int32(b, at) == v
  {
    LeReadsBack(b, at, if v < 0 then v + TWO_32 else v, 4);
  }

  function EncodePair(p: Pair): (b: Bytes)
    ensures |b| == 8
  {
    Le32(p.token) + Le32(p.count)
  }

  function EncodePairs(ps: seq<Pair>): (b: Bytes)
    ensures |b| == 8 * |ps|
  {
    if ps == [] then [] else EncodePairs(ps[..|ps| - 1]) + EncodePair(ps[|ps| - 1])
  }

  function EncodeHeader(r: Record): (b: Bytes)
    requires |r.pairs| < TWO_31
    ensures |b| == 20
  {
    Le32(r.p0) + (Le32(r.p1) + (Le32(r.p2) + (Le32(r.p3) + Le32(|r.pairs|))))
  }

  function EncodeRecord(r: Record): (b: Bytes)
    requires GoodRecord(r)
    ensures |b| == 20 + 8 * |r.pairs|
  {
    EncodeHeader(r) + EncodePairs(r.pairs)
  }

  /** The grammar: records one after the other. */
  function Encode(rs: seq<Record>): Bytes
    requires GoodRecords(rs)
  {
    if rs == [] then [] else EncodeRecord(rs[0]) + Encode(rs[1..])
  }

  ghost predicate WellFormed(file: Bytes) {
    0 < |file| <= MAX_BYTES && exists rs :: GoodRecords(rs) && Encode(rs) == file
  }

  function PairAt(b: Bytes, at: nat): Pair
    requires at + 8 <= |b|
  {
    Pair(Int32(b, at), Int32(b, at + 4))
  }

  function PairsOf(b: Bytes, at: nat, n: nat): (ps: seq<Pair>)
    requires at + 8 * n <= |b|
    ensures |ps| == n
  {
    seq(n, i requires 0 <= i < n => PairAt(b, at + 8 * i))
  }

  /** The first `n` pairs at `at` are acceptable. */
  predicate PairsAt(b: Bytes, at: nat, n: nat)
    requires at + 8 * n <= |b|
  {
    forall i :: 0 <= i < n ==> GoodPair(PairAt(b, at + 8 * i))
  }

  predicate HeaderAt(b: Bytes, at: nat, n: nat) {
    && at + 20 <= |b| && n > 0 && Int32(b, at + 16) == n
    && Int32(b, at) >= -1 && Int32(b, at + 4) >= -1 && Int32(b, at + 8) >= -1 && Int32(b, at + 12) >= -1
  }

  /** A record with `n` pairs starts at `at`. */
  predicate RecordAt(b: Bytes, at: nat, n: nat) {
    at + 20 + 8 * n <= |b| && HeaderAt(b, at, n) && PairsAt(b, at + 20, n)
  }

  lemma PairReadsBack(b: Bytes, at: nat, p: Pair)
    requires at + 8 <= |b|
    ensures Has(b, at, EncodePair(p)) <==> p == PairAt(b, at)
  {
    hide Has, Le32, Int32;
    HasConcat(b, at, Le32(p.token), Le32(p.count));
    ReadsBack(b, at, p.token);
    ReadsBack(b, at + 4, p.count);
  }

  lemma HeaderReadsBack(b: Bytes, at: nat, r: Record)
    requires at + 20 <= |b| && |r.pairs| < TWO_31
    ensures Has(b, at, EncodeHeader(r)) <==>
            && Int32(b, at) == r.p0 && Int32(b, at + 4) == r.p1 && Int32(b, at + 8) == r.p2
            && Int32(b, at + 12) == r.p3 && Int32(b, at + 16) == |r.pairs|
  {
    hide Has, Le32, Int32;
    var n: int32 := |r.pairs|;
    HasConcat(b, at, Le32(r.p0), Le32(r.p1) + (Le32(r.p2) + (Le32(r.p3) + Le32(n))));
    HasConcat(b, at + 4, Le32(r.p1), Le32(r.p2) + (Le32(r.p3) + Le32(n)));
    HasConcat(b, at + 8, Le32(r.p2), Le32(r.p3) + Le32(n));
    HasConcat(b, at + 12, Le32(r.p3), Le32(n));
    ReadsBack(b, at, r.p0);
    ReadsBack(b, at + 4, r.p1);
    ReadsBack(b, at + 8, r.p2);
    ReadsBack(b, at + 12, r.p3);
    ReadsBack(b, at + 16, n);
  }

  /** The pairs written at a position are those read from it. */
  lemma {:induction false} PairsReadBack(b: Bytes, at: nat, ps: seq<Pair>)
    requires at + 8 * |ps| <= |b|
    ensures Has(b, at, EncodePairs(ps)) <==> ps == PairsOf(b, at, |ps|)
  {
    if ps == [] {
      assert Has(b, at, []);
    } else {
      var n := |ps| - 1;
      LastPair(b, at, n);
      hide Has, EncodePair, PairAt, PairsOf;
      HasConcat(b, at, EncodePairs(ps[..n]), EncodePair(ps[n]));
      PairReadsBack(b, at + 8 * n, ps[n]);
      PairsReadBack(b, at, ps[..n]);
      assert ps == ps[..n] + [ps[n]];
    }
  }

  lemma LastPair(b: Bytes, at: nat, n: nat)
    requires at + 8 * (n + 1) <= |b|
    ensures PairsOf(b, at, n + 1) == PairsOf(b, at, n) + [PairAt(b, at + 8 * n)]
  {
    hide PairAt;
  }

  /** Whatever the checks accept as a record is the encoding of one. */
  lemma DecodeRecord(b: Bytes, at: nat, n: nat) returns (r: Record)
    requires RecordAt(b, at, n)
    ensures GoodRecord(r) && Has(b, at, EncodeRecord(r)) && |r.pairs| == n
  {
    r := RecordOf(b, at, n);
    GoodPairsAt(b, at + 20, n);
    hide Int32, Has, EncodeHeader, EncodePairs, PairsOf, PairsAt;
    HeaderReadsBack(b, at, r);
    PairsReadBack(b, at + 20, r.pairs);
    HasConcat(b, at, EncodeHeader(r), EncodePairs(r.pairs));
  }

  function RecordOf(b: Bytes, at: nat, n: nat): Record
    requires at + 20 + 8 * n <= |b|
  {
    Record(Int32(b, at), Int32(b, at + 4), Int32(b, at + 8), Int32(b, at + 12), PairsOf(b, at + 20, n))
  }

  /** A record is read back from where its encoding stands. */
  lemma EncodedRecord(b: Bytes, at: nat, r: Record)
    requires GoodRecord(r) && Has(b, at, EncodeRecord(r))
    ensures RecordAt(b, at, |r.pairs|) && r == RecordOf(b, at, |r.pairs|)
  {
    var n := |r.pairs|;
    assert at + 20 + 8 * n <= |b|;
    hide Int32, Has, EncodeHeader, EncodePairs;
    HasConcat(b, at, EncodeHeader(r), EncodePairs(r.pairs));
    HeaderReadsBack(b, at, r);
    PairsReadBack(b, at + 20, r.pairs);
    GoodPairsAt(b, at + 20, n);
  }

  lemma GoodPairsAt(b: Bytes, at: nat, n: nat)
    requires at + 8 * n <= |b|
    ensures PairsAt(b, at, n) <==> forall i :: 0 <= i < n ==> GoodPair(PairsOf(b, at, n)[i])
  {
    hide PairAt, GoodPair;
    forall i | 0 <= i < n && PairsAt(b, at, n) ensures GoodPair(PairsOf(b, at, n)[i]) {
      assert GoodPair(PairAt(b, at + 8 * i));
    }
    if forall i :: 0 <= i < n ==> GoodPair(PairsOf(b, at, n)[i]) {
      forall i | 0 <= i < n ensures GoodPair(PairAt(b, at + 8 * i)) {
        assert GoodPair(PairsOf(b, at, n)[i]);
      }
    }
  }

  /** Decoding is unambiguous, and no encoding continues another except by whole records. */
  lemma {:induction false} PrefixFree(b: Bytes, at: nat, xs: seq<Record>, ys: seq<Record>)
    requires GoodRecords(xs) && GoodRecords(ys) && Has(b, at, Encode(xs)) && Has(b, at, Encode(ys)) && |Encode(xs)| <= |Encode(ys)|
    ensures xs <= ys
    decreases |xs|
  {
    hide Has, EncodeRecord, RecordAt, GoodRecord;
    if xs != [] {
      var x, y := xs[0], ys[0];
      HasConcat(b, at, EncodeRecord(x), Encode(xs[1..]));
      HasConcat(b, at, EncodeRecord(y), Encode(ys[1..]));
      SameRecord(b, at, x, y);
      PrefixFree(b, at + |EncodeRecord(x)|, xs[1..], ys[1..]);
    }
  }

  lemma SameRecord(b: Bytes, at: nat, x: Record, y: Record)
    requires GoodRecord(x) && GoodRecord(y) && Has(b, at, EncodeRecord(x)) && Has(b, at, EncodeRecord(y))
    ensures x == y
  {
    hide Has, EncodeRecord, RecordOf, Int32, GoodRecord, PairsAt;
    EncodedRecord(b, at, x);
    EncodedRecord(b, at, y);
  }

  lemma {:induction false} EncodeConcat(xs: seq<Record>, ys: seq<Record>)
    requires GoodRecords(xs) && GoodRecords(ys)
    ensures GoodRecords(xs + ys) && Encode(xs + ys) == Encode(xs) + Encode(ys)
  {
    hide GoodRecord, EncodeRecord;
    if xs == [] {
      assert xs + ys == ys;
    } else {
      assert (xs + ys)[1..] == xs[1..] + ys;
      EncodeConcat(xs[1..], ys);
    }
  }

  /** What has been read so far is a sequence of good records. */
  ghost predicate ReadUpTo(file: Bytes, k: nat) {
    exists rs :: GoodRecords(rs) && Reads(file, rs, k)
  }

  ghost predicate Reads(file: Bytes, rs: seq<Record>, k: nat)
    requires GoodRecords(rs)
  {
    Has(file, 0, Encode(rs)) && |Encode(rs)| == k
  }

  /** A cut of a well-formed file is well formed exactly at a record boundary. */
  lemma CutsAtBoundaries(rs: seq<Record>, k: nat)
    requires GoodRecords(rs) && |Encode(rs)| <= MAX_BYTES && 0 < k <= |Encode(rs)|
    ensures WellFormed(Encode(rs)[..k]) <==> exists j :: 0 <= j <= |rs| && k == |Encode(rs[..j])|
  {
    hide Encode, GoodRecord;
    var file := Encode(rs);
    if WellFormed(file[..k]) {
      var xs :| GoodRecords(xs) && Encode(xs) == file[..k];
      PrefixFree(file, 0, xs, rs);
      assert xs == rs[..|xs|];
      assert k == |Encode(rs[..|xs|])|;
    }
    if j :| 0 <= j <= |rs| && k == |Encode(rs[..j])| {
      EncodeConcat(rs[..j], rs[j..]);
      assert rs == rs[..j] + rs[j..];
      assert Encode(rs[..j]) == file[..k];
    }
  }

  lemma ReadOneMore(file: Bytes, k: nat, n: nat)
    requires ReadUpTo(file, k) && RecordAt(file, k, n)
    ensures ReadUpTo(file, k + 20 + 8 * n)
  {
    hide RecordAt, GoodRecord, Has;
    var rs :| GoodRecords(rs) && Reads(file, rs, k);
    var r := DecodeRecord(file, k, n);
    hide EncodeRecord;
    EncodeConcat(rs, [r]);
    assert Encode([r]) == EncodeRecord(r) + Encode([]) == EncodeRecord(r);
    HasConcat(file, 0, Encode(rs), EncodeRecord(r));
    assert Reads(file, rs + [r], k + 20 + 8 * n);
  }

  lemma RestFollows(file: Bytes, xs: seq<Record>, rs: seq<Record>, k: nat)
    requires GoodRecords(xs) && GoodRecords(rs) && Reads(file, xs, k) && Encode(rs) == file && k < |file|
    ensures |xs| < |rs| && Has(file, k, Encode(rs[|xs|..]))
  {
    hide GoodRecord, Has, Encode;
    HasWhole(file, Encode(rs));
    PrefixFree(file, 0, xs, rs);
    var rest := rs[|xs|..];
    assert rs == xs + rest;
    EncodeConcat(xs, rest);
    HasConcat(file, 0, Encode(xs), Encode(rest));
    assert |xs| == |rs| ==> xs == rs;
  }

  /** In a well-formed file, wherever whole records end before the end of the file another one starts. */
  lemma RecordFollows(file: Bytes, k: nat)
    requires WellFormed(file) && k < |file| && ReadUpTo(file, k)
    ensures k + 20 <= |file| && Int32(file, k + 16) > 0 && RecordAt(file, k, Int32(file, k + 16))
  {
    var xs :| GoodRecords(xs) && Reads(file, xs, k);
    var rs :| GoodRecords(rs) && Encode(rs) == file;
    hide GoodRecord, EncodeRecord, Has, PairsAt, Int32, Reads;
    RestFollows(file, xs, rs, k);
    var rest := rs[|xs|..];
    HasConcat(file, k, EncodeRecord(rest[0]), Encode(rest[1..]));
    EncodedRecord(file, k, rest[0]);
  }

  /** The pairs of one record. */
  method ValidatePairs(file: Bytes, at: nat, count: nat) returns (ok: bool)
    requires at + 8 * count <= |file|
    ensures ok <==> PairsAt(file, at, count)
  {
    var i := 0;
    while i < count
      invariant i <= count && PairsAt(file, at, i)
    {
      if Int32(file, at + 8 * i) < 0 || Int32(file, at + 8 * i + 4) <= 0 { return false; }
      i := i + 1;
    }
    return true;
  }

  /** The four tokens in front of a record's count. */
  method ValidatePrefix(file: Bytes, at: nat) returns (ok: bool)
    requires at + 16 <= |file|
    ensures ok <==> Int32(file, at) >= -1 && Int32(file, at + 4) >= -1 && Int32(file, at + 8) >= -1 && Int32(file, at + 12) >= -1
  {
    hide Int32;
    var i := 0;
    while i < 4
      invariant i <= 4 && forall k :: at <= k < at + 4 * i && (k - at) % 4 == 0 ==> Int32(file, k) >= -1
    {
      if Int32(file, at + 4 * i) < -1 { return false; }
      i := i + 1;
    }
    return true;
  }

  /** `validate`: accepts exactly the grammar within the size bound, and reports size and digest. */
  method Validate(file: Bytes) returns (r: Option<(nat, Digest)>)
    ensures r.Some? <==> WellFormed(file)
    ensures r.Some? ==> r.value == (|file|, Sha256(file)) && 0 < |file| <= 268_435_456
  {
    hide PairsAt, WellFormed, ReadUpTo, Int32;
    Boundaries(file);
    var len := |file|;
    if len == 0 || len > MAX_BYTES { return None; }
    var consumed := 0;
    while consumed < len
      invariant consumed <= len && ReadUpTo(file, consumed)
      decreases len - consumed
    {
      if WellFormed(file) { RecordFollows(file, consumed); }
      if len - consumed < 20 { return None; }
      var count := Int32(file, consumed + 16);
      if count <= 0 || count > (len - (consumed + 20)) / 8 { return None; }
      var prefix := ValidatePrefix(file, consumed);
      if !prefix { return None; }
      var good := ValidatePairs(file, consumed + 20, count);
      if !good { return None; }
      ReadOneMore(file, consumed, count);
      consumed := consumed + 20 + count * 8;
    }
    return Some((len, Sha256(file)));
  }

  lemma Boundaries(file: Bytes)
    ensures ReadUpTo(file, 0)
    ensures 0 < |file| <= MAX_BYTES && ReadUpTo(file, |file|) ==> WellFormed(file)
    ensures WellFormed(file) ==> 0 < |file| <= MAX_BYTES
  {
    assert Reads(file, [], 0);
    if ReadUpTo(file, |file|) {
      var rs :| GoodRecords(rs) && Reads(file, rs, |file|);
      HasWhole(file, Encode(rs));
    }
  }
}

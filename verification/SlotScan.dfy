/** The chunked search for a trailer in a saved slot state finds what a scan of every position finds. */
module SlotScan {
  import opened Wrappers
  import opened Manifests
  import opened Encoding
  import opened SlotTrailer

  const BUFFER := 1024 * 1024
  const STATE_MAGIC := 0x67677371
  const STATE_VERSION := 4

  datatype Hit = Hit(sckp: bool, at: nat)

  predicate IsSckp(file: Bytes, at: nat, draftRequired: bool) {
    Has(file, at, SCKP) && TrailerAt(file, at, draftRequired).Some?
  }

  predicate IsSdft(file: Bytes, at: nat, draftRequired: bool) {
    Has(file, at, SDFT) && TrailerAt(file, at, draftRequired).Some?
  }

  /** The lowest SCKP trailer that ends the file, else the highest such SDFT trailer, in a range of positions. */
  predicate ScanOf(file: Bytes, draftRequired: bool, from: nat, to: nat, hit: Option<Hit>) {
    match hit
    case None =>
      && (forall p :: from <= p < to ==> !IsSckp(file, p, draftRequired))
      && (forall p :: from <= p < to ==> !IsSdft(file, p, draftRequired))
    case Some(Hit(true, at)) =>
      && from <= at < to && IsSckp(file, at, draftRequired)
      && (forall p :: from <= p < at ==> !IsSckp(file, p, draftRequired))
    case Some(Hit(false, at)) =>
      && from <= at < to && IsSdft(file, at, draftRequired)
      && (forall p :: from <= p < to ==> !IsSckp(file, p, draftRequired))
      && (forall p :: at < p < to ==> !IsSdft(file, p, draftRequired))
  }

  /** The scan has only one answer. */
  lemma ScanUnique(file: Bytes, draftRequired: bool, from: nat, to: nat, a: Option<Hit>, b: Option<Hit>)
    requires ScanOf(file, draftRequired, from, to, a) && ScanOf(file, draftRequired, from, to, b)
    ensures a == b
  {
    hide IsSckp, IsSdft;
  }

  /** No window of four bytes begins in the last three positions. */
  lemma ScanToEnd(file: Bytes, draftRequired: bool, from: nat, to: nat, hit: Option<Hit>)
    requires ScanOf(file, draftRequired, from, to, hit) && to <= |file| && |file| < to + 4
    ensures ScanOf(file, draftRequired, from, |file|, hit)
  {
    forall p | to <= p ensures !IsSckp(file, p, draftRequired) && !IsSdft(file, p, draftRequired) {
    }
    hide IsSckp, IsSdft;
  }

  /** An SCKP trailer is the answer wherever the scan would have ended. */
  lemma SckpAnswers(file: Bytes, draftRequired: bool, from: nat, to: nat, hit: Option<Hit>)
    requires ScanOf(file, draftRequired, from, to, hit) && hit.Some? && hit.value.sckp && to <= |file|
    ensures ScanOf(file, draftRequired, from, |file|, hit)
  {
    hide IsSckp, IsSdft;
  }

  /** One position further. */
  lemma ScanStep(file: Bytes, draftRequired: bool, from: nat, to: nat, hit: Option<Hit>)
    requires from <= to && ScanOf(file, draftRequired, from, to, hit) && (hit.Some? ==> !hit.value.sckp)
    ensures ScanOf(file, draftRequired, from, to + 1,
                   if IsSckp(file, to, draftRequired) then Some(Hit(true, to))
                   else if IsSdft(file, to, draftRequired) then Some(Hit(false, to)) else hit)
  {
    hide IsSckp, IsSdft;
  }

  lemma ScanNothing(file: Bytes, draftRequired: bool, from: nat, to: nat)
    requires to <= from
    ensures ScanOf(file, draftRequired, from, to, None)
  {
  }

  /** Every read returns at least four bytes while that many are left. */
  ghost predicate ReadsEnough(file: Bytes, chunk: nat -> nat) {
    forall at: nat :: at < |file| ==> chunk(at) >= if |file| - at < 4 then |file| - at else 4
  }

  /** The positions from `body` on, each exactly once and in order. */
  predicate InOrder(examined: seq<nat>, body: nat) {
    forall i :: 0 <= i < |examined| ==> examined[i] == body + i
  }

  /** One window of the buffer: a trailer may begin there. */
  method ExamineWindow(file: Bytes, draftRequired: bool, body: nat, at: nat, window: Bytes, found: Option<Hit>)
    returns (next: Option<Hit>)
    requires at + 4 <= |file| && window == file[at..at + 4] && body <= at && (found.Some? ==> !found.value.sckp)
    requires ScanOf(file, draftRequired, body + 1, at, found)
    ensures ScanOf(file, draftRequired, body + 1, at + 1, next)
    ensures next.Some? && next.value.sckp ==> next.value.at == at
  {
    hide ScanOf, TrailerAt;
    next := found;
    if at == body {
      NoneFound(file, draftRequired, body + 1, at, found);
      ScanNothing(file, draftRequired, body + 1, at + 1);
      return;
    }
    ScanStep(file, draftRequired, body + 1, at, found);
    if window == SCKP || window == SDFT {
      var info := ReadTrailer(file, at, draftRequired);
      if info.Some? { next := Some(Hit(window == SCKP, at)); }
    }
    MagicsDiffer(file, at);
  }

  lemma NoneFound(file: Bytes, draftRequired: bool, from: nat, to: nat, hit: Option<Hit>)
    requires to <= from && ScanOf(file, draftRequired, from, to, hit)
    ensures hit.None?
  {
  }

  lemma WindowOfFile(file: Bytes, at: nat, n: nat, i: nat)
    requires at + n <= |file| && i + 4 <= n
    ensures file[at..at + n][i..i + 4] == file[at + i..at + i + 4]
  {
    var x, y := file[at..at + n][i..i + 4], file[at + i..at + i + 4];
    forall k | 0 <= k < 4 ensures x[k] == y[k] {
      assert x[k] == file[at..at + n][i + k];
    }
  }

  /** The first position not examined, after a buffer of `n` bytes from `at` or an SCKP trailer that ended the search. */
  function Reached(at: nat, n: nat, hit: Option<Hit>): nat {
    if hit.Some? && hit.value.sckp then hit.value.at + 1 else if n < 4 then at else at + n - 3
  }

  /** All windows of one buffer, unless an SCKP trailer ends the search. */
  method ScanBuffer(file: Bytes, draftRequired: bool, body: nat, at: nat, buffer: Bytes, found: Option<Hit>, ghost examined: seq<nat>)
    returns (next: Option<Hit>, ghost examined': seq<nat>)
    requires body <= at && at + |buffer| <= |file| && buffer == file[at..at + |buffer|]
    requires (found.Some? ==> !found.value.sckp) && ScanOf(file, draftRequired, body + 1, at, found)
    requires InOrder(examined, body) && |examined| == at - body
    ensures var done := Reached(at, |buffer|, next);
            && (done == at || at < done <= |file| - 3) && ScanOf(file, draftRequired, body + 1, done, next)
            && InOrder(examined', body) && |examined'| == done - body
  {
    hide ScanOf;
    next, examined' := found, examined;
    var i := 0;
    while i + 4 <= |buffer|
      invariant i <= |buffer| && (i > 0 ==> i + 3 <= |buffer|)
      invariant ScanOf(file, draftRequired, body + 1, at + i, next) && (next.Some? ==> !next.value.sckp)
      invariant InOrder(examined', body) && |examined'| == at + i - body
    {
      WindowOfFile(file, at, |buffer|, i);
      next := ExamineWindow(file, draftRequired, body, at + i, buffer[i..i + 4], next);
      examined' := examined' + [at + i];
      i := i + 1;
      if next.Some? && next.value.sckp { return; }
    }
  }

  /** The loop over the file; consecutive buffers overlap by three bytes. */
  method Scan(file: Bytes, draftRequired: bool, body: nat, chunk: nat -> nat) returns (found: Option<Hit>, ghost examined: seq<nat>)
    requires body < |file| && forall at: nat :: at < |file| ==> chunk(at) <= BUFFER && at + chunk(at) <= |file|
    ensures ReadsEnough(file, chunk) ==> ScanOf(file, draftRequired, body + 1, |file|, found)
    ensures InOrder(examined, body) && |examined| <= WindowsAfter(file, body)
    ensures ScanOf(file, draftRequired, body + 1, body + |examined|, found)
    ensures ReadsEnough(file, chunk) ==> (found.Some? && found.value.sckp) || |examined| == WindowsAfter(file, body)
  {
    hide ScanOf;
    var at := body;
    found, examined := None, [];
    ScanNothing(file, draftRequired, body + 1, body);
    while at < |file|
      invariant body <= at <= |file| && (at == body || at + 3 <= |file|)
      invariant ScanOf(file, draftRequired, body + 1, at, found) && (found.Some? ==> !found.value.sckp)
      invariant InOrder(examined, body) && |examined| == at - body
      decreases |file| - at
    {
      var n := chunk(at);
      if n == 0 { break; }
      found, examined := ScanBuffer(file, draftRequired, body, at, file[at..at + n], found, examined);
      if found.Some? && found.value.sckp {
        SckpAnswers(file, draftRequired, body + 1, body + |examined|, found);
        return;
      }
      if n < 4 { break; }
      at := at + n - 3;
    }
    if ReadsEnough(file, chunk) { ScanToEnd(file, draftRequired, body + 1, at, found); }
  }

  /** How many windows of four bytes begin at `body` or later. */
  function WindowsAfter(file: Bytes, body: nat): nat { if |file| < body + 4 then 0 else |file| - body - 3 }

  predicate GoodHeader(file: Bytes) {
    |file| >= 13 && U32(file, 0) == STATE_MAGIC && U32(file, 4) == STATE_VERSION && 12 + 4 * U32(file, 8) < |file|
  }

  /** The header, byte by byte: the letters `qsgg`, the version, and a count of words that leaves something behind them. */
  lemma HeaderIs(file: Bytes)
    ensures GoodHeader(file) <==>
            && |file| >= 13 && file[..8] == [0x71, 0x73, 0x67, 0x67, 4, 0, 0, 0]
            && 12 + 4 * (file[8] as int + 0x100 * file[9] as int + 0x1_0000 * file[10] as int + 0x100_0000 * file[11] as int) < |file|
  {
    if |file| >= 13 {
      assert file[..8] == [file[0], file[1], file[2], file[3], file[4], file[5], file[6], file[7]];
    }
  }

  /** `inspect_slot`; without any trailer a state is complete when no draft is required. */
  method InspectSlot(file: Bytes, draftRequired: bool, chunk: nat -> nat)
    returns (r: Option<TrailerInfo>, ghost hit: Option<Hit>, ghost examined: seq<nat>)
    requires forall at: nat :: at < |file| ==> chunk(at) <= BUFFER && at + chunk(at) <= |file|
    ensures !GoodHeader(file) ==> r.None?
    ensures GoodHeader(file) ==>
              && InOrder(examined, 12 + 4 * U32(file, 8))
              && r == (if hit.Some? then TrailerAt(file, hit.value.at, draftRequired)
                       else if draftRequired then None else Some(TrailerInfo([], 0, 0)))
    ensures GoodHeader(file) && ReadsEnough(file, chunk) ==>
              && ScanOf(file, draftRequired, 13 + 4 * U32(file, 8), |file|, hit)
              && ((hit.Some? && hit.value.sckp) || |examined| == WindowsAfter(file, 12 + 4 * U32(file, 8)))
  {
    hide TrailerAt, U32, ScanOf, ReadsEnough;
    hit, examined := None, [];
    if |file| < 13 || U32(file, 0) != STATE_MAGIC || U32(file, 4) != STATE_VERSION { return None, hit, examined; }
    var body := 12 + 4 * U32(file, 8);
    if body >= |file| { return None, hit, examined; }
    var found;
    found, examined := Scan(file, draftRequired, body, chunk);
    hit := found;
    if found.Some? {
      r := ReadTrailer(file, found.value.at, draftRequired);
    } else {
      r := if draftRequired then None else Some(TrailerInfo([], 0, 0));
    }
  }

  /** What is found is a trailer that ends the file, with every length within it. */
  lemma HitIsTrailer(file: Bytes, draftRequired: bool, from: nat, to: nat, hit: Hit) returns (t: Trailer)
    requires ScanOf(file, draftRequired, from, to, Some(hit))
    ensures GoodTrailer(t, draftRequired) && Ends(file, hit.at, t, draftRequired)
    ensures TrailerAt(file, hit.at, draftRequired) == Some(Summary(t))
    ensures hit.sckp <==> t.checkpoints != []
  {
    hide TrailerAt, EncodeTrailer, Summary;
    t := TrailerWitness(file, hit.at, draftRequired);
    TrailerParses(file, hit.at, t, draftRequired);
    hide ScanOf, GoodCheckpoints;
    FirstMagic(file, hit.at, t, draftRequired);
    MagicsDiffer(file, hit.at);
    assert hit.sckp ==> Has(file, hit.at, SCKP) by { HitHasMagic(file, draftRequired, from, to, hit); }
    assert !hit.sckp ==> Has(file, hit.at, SDFT) by { HitHasMagic(file, draftRequired, from, to, hit); }
  }

  lemma HitHasMagic(file: Bytes, draftRequired: bool, from: nat, to: nat, hit: Hit)
    requires ScanOf(file, draftRequired, from, to, Some(hit))
    ensures Has(file, hit.at, if hit.sckp then SCKP else SDFT)
  {
  }

  /** A trailer begins with one of the two magics. */
  lemma FirstMagic(file: Bytes, at: nat, t: Trailer, draftRequired: bool)
    requires GoodTrailer(t, draftRequired) && Ends(file, at, t, draftRequired)
    ensures Has(file, at, if t.checkpoints != [] then SCKP else SDFT)
  {
    hide Has, EncodeSckp, EncodeSdft, EncodeTrailer, GoodCheckpoints, SecondPart;
    EncodedParts(t);
    HasConcat(file, at, EncodeSckp(t.checkpoints), EncodeSdft(t.draft));
    HasFits(file, at, EncodeTrailer(t));
    if t.checkpoints != [] {
      StartsWithMagic(file, at, t.checkpoints, draftRequired);
    } else {
      SecondParses(file, at, t.draft);
    }
  }
}

/** The trailer of a saved slot state: its grammar, and the parser that accepts exactly it. */
module SlotTrailer {
  import opened Wrappers
  import opened Manifests
  import opened Encoding

  const SCKP: Bytes := [83, 67, 75, 80]
  const SDFT: Bytes := [83, 68, 70, 84]
  const MAX_CHECKPOINTS := 1024

  const TWO_64 := 0x1_0000_0000_0000_0000

  type u64 = v: int | 0 <= v < TWO_64
  type BlobContent = x: Bytes | |x| < TWO_64
  type Position = x: Bytes | |x| == 8 witness [0, 0, 0, 0, 0, 0, 0, 0]

  datatype Checkpoint =
    Checkpoint(tokens: u64, position: Position, target: BlobContent, draft: BlobContent, speculative: BlobContent)
  datatype Draft = Draft(draft: BlobContent, speculative: BlobContent)
  datatype Trailer = Trailer(checkpoints: seq<Checkpoint>, draft: Option<Draft>)

  datatype CheckpointInfo = CheckpointInfo(tokens: nat, targetBytes: nat, draftBytes: nat, speculativeBytes: nat)
  datatype TrailerInfo = TrailerInfo(checkpoints: seq<CheckpointInfo>, draftBytes: nat, speculativeBytes: nat)

  predicate GoodCheckpoint(c: Checkpoint, draftRequired: bool) {
    c.tokens > 0 && c.target != [] && (draftRequired ==> c.draft != [])
  }

  predicate GoodCheckpoints(cs: seq<Checkpoint>, draftRequired: bool) {
    forall i :: 0 <= i < |cs| ==> GoodCheckpoint(cs[i], draftRequired)
  }

  predicate GoodTrailer(t: Trailer, draftRequired: bool) {
    && |t.checkpoints| <= MAX_CHECKPOINTS && GoodCheckpoints(t.checkpoints, draftRequired)
    && (draftRequired ==> t.draft.Some? && t.draft.value.draft != [])
    && (t.checkpoints != [] || t.draft.Some?)
  }

  function Le64(v: u64): (b: Bytes)
    ensures |b| == 8
  {
    assert Pow256(8) == TWO_64;
    LeBytes(v, 8)
  }

  function EncodeBlob(x: BlobContent): (b: Bytes)
    ensures |b| == 8 + |x|
  {
    Le64(|x|) + x
  }

  function EncodeCheckpoint(c: Checkpoint): (b: Bytes)
    ensures |b| == 40 + |c.target| + |c.draft| + |c.speculative|
  {
    Le64(c.tokens) + (c.position + (EncodeBlob(c.target) + (EncodeBlob(c.draft) + EncodeBlob(c.speculative))))
  }

  function EncodeCheckpoints(cs: seq<Checkpoint>): Bytes {
    if cs == [] then [] else EncodeCheckpoints(cs[..|cs| - 1]) + EncodeCheckpoint(cs[|cs| - 1])
  }

  function SckpHeader(count: nat): (b: Bytes)
    requires count <= MAX_CHECKPOINTS
    ensures |b| == 12
  {
    SCKP + (LeBytes(1, 4) + LeBytes(count, 4))
  }

  function SdftHeader(): (b: Bytes)
    ensures |b| == 8
  {
    SDFT + LeBytes(1, 4)
  }

  function EncodeSckp(cs: seq<Checkpoint>): Bytes
    requires |cs| <= MAX_CHECKPOINTS
  {
    if cs == [] then [] else SckpHeader(|cs|) + EncodeCheckpoints(cs)
  }

  function EncodeSdft(d: Option<Draft>): Bytes {
    if d.None? then [] else SdftHeader() + (EncodeBlob(d.value.draft) + EncodeBlob(d.value.speculative))
  }

  function EncodeTrailer(t: Trailer): Bytes
    requires |t.checkpoints| <= MAX_CHECKPOINTS
  {
    EncodeSckp(t.checkpoints) + EncodeSdft(t.draft)
  }

  function CheckpointSummary(c: Checkpoint): CheckpointInfo {
    CheckpointInfo(c.tokens, |c.target|, |c.draft|, |c.speculative|)
  }

  function Summaries(cs: seq<Checkpoint>): seq<CheckpointInfo> {
    if cs == [] then [] else Summaries(cs[..|cs| - 1]) + [CheckpointSummary(cs[|cs| - 1])]
  }

  function Summary(t: Trailer): TrailerInfo {
    TrailerInfo(Summaries(t.checkpoints),
                if t.draft.Some? then |t.draft.value.draft| else 0,
                if t.draft.Some? then |t.draft.value.speculative| else 0)
  }

  // The parser, as the code reads the file.

  function U32(file: Bytes, at: nat): nat
    requires at + 4 <= |file|
  {
    LeUint(file, at, 4)
  }

  function U64(file: Bytes, at: nat): u64
    requires at + 8 <= |file|
  {
    assert Pow256(8) == TWO_64;
    LeUint(file, at, 8)
  }

  /** The length of the blob at `at`, if it ends within the file. */
  function BlobAt(file: Bytes, at: nat): (r: Option<nat>)
    ensures r.Some? ==> at + 8 + r.value <= |file|
  {
    if at + 8 <= |file| && at + 8 + U64(file, at) <= |file| then Some(U64(file, at)) else None
  }

  /** One checkpoint and the position after it. */
  function CheckpointAt(file: Bytes, at: nat, draftRequired: bool): (r: Option<(CheckpointInfo, nat)>)
    ensures r.Some? ==> at < r.value.1 <= |file|
  {
    if at + 8 > |file| then None
    else
      var tokens := U64(file, at);
      var target := BlobAt(file, at + 16);
      if target.None? then None
      else
        var draft := BlobAt(file, at + 24 + target.value);
        if draft.None? then None
        else
          var speculative := BlobAt(file, at + 32 + target.value + draft.value);
          if speculative.None? || target.value == 0 || tokens == 0 || (draftRequired && draft.value == 0) then None
          else Some((CheckpointInfo(tokens, target.value, draft.value, speculative.value),
                     at + 40 + target.value + draft.value + speculative.value))
  }

  function CheckpointsAt(file: Bytes, at: nat, n: nat, draftRequired: bool): (r: Option<(seq<CheckpointInfo>, nat)>)
    requires at <= |file|
    ensures r.Some? ==> r.value.1 <= |file|
    decreases n
  {
    if n == 0 then Some(([], at))
    else
      var earlier := CheckpointsAt(file, at, n - 1, draftRequired);
      if earlier.None? then None
      else
        var last := CheckpointAt(file, earlier.value.1, draftRequired);
        if last.None? then None else Some((earlier.value.0 + [last.value.0], last.value.1))
  }

  function SckpAt(file: Bytes, at: nat, draftRequired: bool): (r: Option<(seq<CheckpointInfo>, nat)>)
    requires at <= |file|
    ensures r.Some? ==> r.value.1 <= |file|
  {
    if at + 12 > |file| || U32(file, at + 4) != 1 || !(1 <= U32(file, at + 8) <= MAX_CHECKPOINTS) then None
    else CheckpointsAt(file, at + 12, U32(file, at + 8), draftRequired)
  }

  /** Lengths of the draft and speculative blobs, and the position after them. */
  function SdftAt(file: Bytes, at: nat): (r: Option<(nat, nat, nat)>)
    ensures r.Some? ==> r.value.2 <= |file|
  {
    if at + 8 > |file| || U32(file, at + 4) != 1 then None
    else
      var draft := BlobAt(file, at + 8);
      if draft.None? then None
      else
        var speculative := BlobAt(file, at + 16 + draft.value);
        if speculative.None? then None
        else Some((draft.value, speculative.value, at + 24 + draft.value + speculative.value))
  }

  function FirstPart(file: Bytes, at: nat, draftRequired: bool): (r: Option<(seq<CheckpointInfo>, nat)>)
    requires at <= |file|
    ensures r.Some? ==> r.value.1 <= |file|
  {
    if Has(file, at, SCKP) then SckpAt(file, at, draftRequired) else Some(([], at))
  }

  function SecondPart(file: Bytes, at: nat): Option<(nat, nat, nat)> {
    if Has(file, at, SDFT) then SdftAt(file, at) else Some((0, 0, at))
  }

  function TrailerAt(file: Bytes, at: nat, draftRequired: bool): Option<TrailerInfo> {
    if at + 4 > |file| then None
    else
      var first := FirstPart(file, at, draftRequired);
      if first.None? then None
      else
        var second := SecondPart(file, first.value.1);
        if second.None? || second.value.2 != |file| || (draftRequired && second.value.0 == 0) then None
        else Some(TrailerInfo(first.value.0, second.value.0, second.value.1))
  }

  // The parser accepts exactly the grammar.

  lemma U64ReadsBack(file: Bytes, at: nat, v: u64)
    ensures Has(file, at, Le64(v)) <==> at + 8 <= |file| && U64(file, at) == v
  {
    assert Pow256(8) == TWO_64;
    if at + 8 <= |file| { LeReadsBack(file, at, v, 8); }
  }

  lemma HasFits(file: Bytes, at: nat, w: Bytes)
    ensures Has(file, at, w) ==> at + |w| <= |file|
  {
  }

  lemma BlobReadsBack(file: Bytes, at: nat, x: BlobContent)
    ensures Has(file, at, EncodeBlob(x)) <==> BlobAt(file, at) == Some(|x|) && Has(file, at + 8, x)
  {
    hide Le64, U64, Has;
    HasConcat(file, at, Le64(|x|), x);
    U64ReadsBack(file, at, |x|);
    HasFits(file, at + 8, x);
  }

  lemma CheckpointReadsBack(file: Bytes, at: nat, c: Checkpoint)
    ensures Has(file, at, EncodeCheckpoint(c)) <==>
            && at + 8 <= |file| && U64(file, at) == c.tokens && Has(file, at + 8, c.position)
            && Has(file, at + 16, EncodeBlob(c.target))
            && Has(file, at + 24 + |c.target|, EncodeBlob(c.draft))
            && Has(file, at + 32 + |c.target| + |c.draft|, EncodeBlob(c.speculative))
  {
    hide Le64, U64, Has, EncodeBlob;
    var t, d, s := EncodeBlob(c.target), EncodeBlob(c.draft), EncodeBlob(c.speculative);
    HasConcat(file, at, Le64(c.tokens), c.position + (t + (d + s)));
    HasConcat(file, at + 8, c.position, t + (d + s));
    HasConcat(file, at + 16, t, d + s);
    HasConcat(file, at + 24 + |c.target|, d, s);
    U64ReadsBack(file, at, c.tokens);
  }

  lemma CheckpointParses(file: Bytes, at: nat, c: Checkpoint, draftRequired: bool)
    requires GoodCheckpoint(c, draftRequired) && Has(file, at, EncodeCheckpoint(c))
    ensures CheckpointAt(file, at, draftRequired) == Some((CheckpointSummary(c), at + |EncodeCheckpoint(c)|))
  {
    hide Has, EncodeBlob, BlobAt, U64;
    CheckpointReadsBack(file, at, c);
    BlobReadsBack(file, at + 16, c.target);
    BlobReadsBack(file, at + 24 + |c.target|, c.draft);
    BlobReadsBack(file, at + 32 + |c.target| + |c.draft|, c.speculative);
  }

  lemma BlobWitness(file: Bytes, at: nat) returns (x: BlobContent)
    requires BlobAt(file, at).Some?
    ensures |x| == BlobAt(file, at).value && Has(file, at, EncodeBlob(x))
  {
    x := file[at + 8..at + 8 + U64(file, at)];
    BlobReadsBack(file, at, x);
  }

  lemma PositionWitness(file: Bytes, at: nat) returns (x: Position)
    requires at + 8 <= |file|
    ensures Has(file, at, x)
  {
    x := file[at..at + 8];
  }

  lemma CheckpointWitness(file: Bytes, at: nat, draftRequired: bool) returns (c: Checkpoint)
    requires CheckpointAt(file, at, draftRequired).Some?
    ensures GoodCheckpoint(c, draftRequired) && Has(file, at, EncodeCheckpoint(c))
    ensures CheckpointAt(file, at, draftRequired) == Some((CheckpointSummary(c), at + |EncodeCheckpoint(c)|))
  {
    hide Has, EncodeBlob, BlobAt, U64, EncodeCheckpoint;
    var target := BlobWitness(file, at + 16);
    var draft := BlobWitness(file, at + 24 + |target|);
    var speculative := BlobWitness(file, at + 32 + |target| + |draft|);
    var position := PositionWitness(file, at + 8);
    c := Checkpoint(U64(file, at), position, target, draft, speculative);
    CheckpointReadsBack(file, at, c);
  }

  /** Appending a checkpoint, on both sides. */
  lemma OneMoreCheckpoint(file: Bytes, at: nat, earlier: seq<Checkpoint>, c: Checkpoint, draftRequired: bool)
    requires at <= |file| && Has(file, at, EncodeCheckpoints(earlier))
    requires CheckpointsAt(file, at, |earlier|, draftRequired) == Some((Summaries(earlier), at + |EncodeCheckpoints(earlier)|))
    requires var last := at + |EncodeCheckpoints(earlier)|;
             CheckpointAt(file, last, draftRequired) == Some((CheckpointSummary(c), last + |EncodeCheckpoint(c)|))
    ensures CheckpointsAt(file, at, |earlier| + 1, draftRequired)
            == Some((Summaries(earlier + [c]), at + |EncodeCheckpoints(earlier + [c])|))
  {
    hide Has, EncodeCheckpoint, CheckpointAt, CheckpointSummary;
    assert (earlier + [c])[..|earlier|] == earlier;
  }

  lemma GoodSnoc(cs: seq<Checkpoint>, c: Checkpoint, draftRequired: bool)
    ensures GoodCheckpoints(cs + [c], draftRequired) <==> GoodCheckpoints(cs, draftRequired) && GoodCheckpoint(c, draftRequired)
  {
    hide GoodCheckpoint;
    if GoodCheckpoints(cs + [c], draftRequired) {
      assert (cs + [c])[|cs|] == c;
      forall i | 0 <= i < |cs| ensures GoodCheckpoint(cs[i], draftRequired) { assert (cs + [c])[i] == cs[i]; }
    }
  }

  lemma EncodeSnoc(cs: seq<Checkpoint>, c: Checkpoint)
    ensures EncodeCheckpoints(cs + [c]) == EncodeCheckpoints(cs) + EncodeCheckpoint(c)
  {
    hide EncodeCheckpoint;
    assert (cs + [c])[..|cs|] == cs;
  }

  lemma {:induction false} CheckpointsParse(file: Bytes, at: nat, cs: seq<Checkpoint>, draftRequired: bool)
    requires GoodCheckpoints(cs, draftRequired) && at <= |file| && Has(file, at, EncodeCheckpoints(cs))
    ensures CheckpointsAt(file, at, |cs|, draftRequired) == Some((Summaries(cs), at + |EncodeCheckpoints(cs)|))
  {
    hide *;
    if cs == [] {
      NoCheckpointsAt(file, at, draftRequired);
    } else {
      var earlier, c := cs[..|cs| - 1], cs[|cs| - 1];
      assert cs == earlier + [c];
      GoodSnoc(earlier, c, draftRequired);
      EncodeSnoc(earlier, c);
      HasConcat(file, at, EncodeCheckpoints(earlier), EncodeCheckpoint(c));
      CheckpointsParse(file, at, earlier, draftRequired);
      CheckpointParses(file, at + |EncodeCheckpoints(earlier)|, c, draftRequired);
      OneMoreCheckpoint(file, at, earlier, c, draftRequired);
    }
  }

  lemma NoCheckpointsAt(file: Bytes, at: nat, draftRequired: bool)
    requires at <= |file|
    ensures CheckpointsAt(file, at, 0, draftRequired) == Some((Summaries([]), at + |EncodeCheckpoints([])|))
    ensures Has(file, at, EncodeCheckpoints([])) && GoodCheckpoints([], draftRequired)
  {
  }

  lemma EarlierCheckpoints(file: Bytes, at: nat, n: nat, draftRequired: bool)
    requires 0 < n && at <= |file| && CheckpointsAt(file, at, n, draftRequired).Some?
    ensures CheckpointsAt(file, at, n - 1, draftRequired).Some?
    ensures CheckpointAt(file, CheckpointsAt(file, at, n - 1, draftRequired).value.1, draftRequired).Some?
  {
  }

  lemma {:induction false} CheckpointsWitness(file: Bytes, at: nat, n: nat, draftRequired: bool) returns (cs: seq<Checkpoint>)
    requires at <= |file| && CheckpointsAt(file, at, n, draftRequired).Some?
    ensures |cs| == n && GoodCheckpoints(cs, draftRequired) && Has(file, at, EncodeCheckpoints(cs))
    ensures CheckpointsAt(file, at, n, draftRequired) == Some((Summaries(cs), at + |EncodeCheckpoints(cs)|))
  {
    hide *;
    cs := [];
    if n == 0 {
      NoCheckpointsAt(file, at, draftRequired);
    } else {
      EarlierCheckpoints(file, at, n, draftRequired);
      var earlier := CheckpointsWitness(file, at, n - 1, draftRequired);
      var c := CheckpointWitness(file, at + |EncodeCheckpoints(earlier)|, draftRequired);
      cs := earlier + [c];
      GoodSnoc(earlier, c, draftRequired);
      EncodeSnoc(earlier, c);
      HasConcat(file, at, EncodeCheckpoints(earlier), EncodeCheckpoint(c));
      OneMoreCheckpoint(file, at, earlier, c, draftRequired);
    }
  }

  lemma SckpHeaderReadsBack(file: Bytes, at: nat, count: nat)
    requires count <= MAX_CHECKPOINTS
    ensures Has(file, at, SckpHeader(count)) <==>
            Has(file, at, SCKP) && at + 12 <= |file| && U32(file, at + 4) == 1 && U32(file, at + 8) == count
  {
    assert Pow256(4) == 0x1_0000_0000;
    HasConcat(file, at, SCKP, LeBytes(1, 4) + LeBytes(count, 4));
    HasConcat(file, at + 4, LeBytes(1, 4), LeBytes(count, 4));
    if at + 12 <= |file| {
      LeReadsBack(file, at + 4, 1, 4);
      LeReadsBack(file, at + 8, count, 4);
    }
    assert Has(file, at + 8, LeBytes(count, 4)) ==> at + 12 <= |file|;
    hide LeBytes, LeUint, Has;
  }

  lemma SdftHeaderReadsBack(file: Bytes, at: nat)
    ensures Has(file, at, SdftHeader()) <==> Has(file, at, SDFT) && at + 8 <= |file| && U32(file, at + 4) == 1
  {
    assert Pow256(4) == 0x1_0000_0000;
    HasConcat(file, at, SDFT, LeBytes(1, 4));
    if at + 8 <= |file| { LeReadsBack(file, at + 4, 1, 4); }
    assert Has(file, at + 4, LeBytes(1, 4)) ==> at + 8 <= |file|;
    hide LeBytes, LeUint, Has;
  }

  lemma SckpParses(file: Bytes, at: nat, cs: seq<Checkpoint>, draftRequired: bool)
    requires at <= |file| && 0 < |cs| <= MAX_CHECKPOINTS && GoodCheckpoints(cs, draftRequired) && Has(file, at, EncodeSckp(cs))
    ensures Has(file, at, SCKP) && SckpAt(file, at, draftRequired) == Some((Summaries(cs), at + |EncodeSckp(cs)|))
  {
    hide Has, EncodeCheckpoints, CheckpointsAt, SckpHeader, GoodCheckpoints;
    HasConcat(file, at, SckpHeader(|cs|), EncodeCheckpoints(cs));
    SckpHeaderReadsBack(file, at, |cs|);
    CheckpointsParse(file, at + 12, cs, draftRequired);
  }

  lemma SckpWitness(file: Bytes, at: nat, draftRequired: bool) returns (cs: seq<Checkpoint>)
    requires at <= |file| && Has(file, at, SCKP) && SckpAt(file, at, draftRequired).Some?
    ensures 0 < |cs| <= MAX_CHECKPOINTS && GoodCheckpoints(cs, draftRequired) && Has(file, at, EncodeSckp(cs))
    ensures SckpAt(file, at, draftRequired) == Some((Summaries(cs), at + |EncodeSckp(cs)|))
  {
    hide Has, EncodeCheckpoints, CheckpointsAt, SckpHeader, GoodCheckpoints;
    cs := CheckpointsWitness(file, at + 12, U32(file, at + 8), draftRequired);
    HasConcat(file, at, SckpHeader(|cs|), EncodeCheckpoints(cs));
    SckpHeaderReadsBack(file, at, |cs|);
  }

  lemma SdftParses(file: Bytes, at: nat, d: Draft)
    requires Has(file, at, EncodeSdft(Some(d)))
    ensures Has(file, at, SDFT)
    ensures SdftAt(file, at) == Some((|d.draft|, |d.speculative|, at + |EncodeSdft(Some(d))|))
  {
    hide Has, EncodeBlob, BlobAt, U32, SdftHeader;
    HasConcat(file, at, SdftHeader(), EncodeBlob(d.draft) + EncodeBlob(d.speculative));
    HasConcat(file, at + 8, EncodeBlob(d.draft), EncodeBlob(d.speculative));
    SdftHeaderReadsBack(file, at);
    BlobReadsBack(file, at + 8, d.draft);
    BlobReadsBack(file, at + 16 + |d.draft|, d.speculative);
  }

  lemma SdftWitness(file: Bytes, at: nat) returns (d: Draft)
    requires Has(file, at, SDFT) && SdftAt(file, at).Some?
    ensures Has(file, at, EncodeSdft(Some(d)))
    ensures SdftAt(file, at) == Some((|d.draft|, |d.speculative|, at + |EncodeSdft(Some(d))|))
  {
    hide Has, EncodeBlob, BlobAt, U32, SdftHeader;
    var draft := BlobWitness(file, at + 8);
    var speculative := BlobWitness(file, at + 16 + |draft|);
    d := Draft(draft, speculative);
    HasConcat(file, at, SdftHeader(), EncodeBlob(draft) + EncodeBlob(speculative));
    HasConcat(file, at + 8, EncodeBlob(draft), EncodeBlob(speculative));
    SdftHeaderReadsBack(file, at);
  }

  /** The trailer `t` is exactly what stands from `at` to the end of the file. */
  ghost predicate Ends(file: Bytes, at: nat, t: Trailer, draftRequired: bool)
    requires GoodTrailer(t, draftRequired)
  {
    Has(file, at, EncodeTrailer(t)) && at + |EncodeTrailer(t)| == |file|
  }

  lemma MagicsDiffer(file: Bytes, at: nat)
    ensures !(Has(file, at, SCKP) && Has(file, at, SDFT))
  {
    assert SCKP[1] != SDFT[1];
  }

  lemma FirstParses(file: Bytes, at: nat, cs: seq<Checkpoint>, draftRequired: bool)
    requires at <= |file| && |cs| <= MAX_CHECKPOINTS && GoodCheckpoints(cs, draftRequired) && Has(file, at, EncodeSckp(cs))
    requires cs == [] ==> Has(file, at, SDFT)
    ensures FirstPart(file, at, draftRequired) == Some((Summaries(cs), at + |EncodeSckp(cs)|))
  {
    if cs == [] {
      MagicsDiffer(file, at);
    } else {
      hide *;
      SckpParses(file, at, cs, draftRequired);
      FirstIsSckp(file, at, draftRequired);
    }
  }

  lemma FirstIsSckp(file: Bytes, at: nat, draftRequired: bool)
    requires at <= |file| && Has(file, at, SCKP)
    ensures FirstPart(file, at, draftRequired) == SckpAt(file, at, draftRequired)
  {
  }

  lemma SecondParses(file: Bytes, at: nat, d: Option<Draft>)
    requires Has(file, at, EncodeSdft(d)) && (d.None? ==> at == |file|)
    ensures SecondPart(file, at) ==
            Some((if d.Some? then |d.value.draft| else 0, if d.Some? then |d.value.speculative| else 0, at + |EncodeSdft(d)|))
    ensures d.Some? ==> Has(file, at, SDFT)
  {
    if d.Some? {
      SdftParses(file, at, d.value);
    }
  }

  lemma EncodedParts(t: Trailer)
    requires |t.checkpoints| <= MAX_CHECKPOINTS
    ensures EncodeTrailer(t) == EncodeSckp(t.checkpoints) + EncodeSdft(t.draft)
    ensures t.checkpoints == [] ==> EncodeSckp(t.checkpoints) == []
    ensures t.draft.None? ==> EncodeSdft(t.draft) == []
  {
  }

  lemma TrailerParses(file: Bytes, at: nat, t: Trailer, draftRequired: bool)
    requires GoodTrailer(t, draftRequired) && Ends(file, at, t, draftRequired)
    ensures TrailerAt(file, at, draftRequired) == Some(Summary(t))
  {
    hide Has, EncodeSckp, EncodeSdft, EncodeTrailer, GoodCheckpoints, FirstPart, SecondPart;
    var x, y := EncodeSckp(t.checkpoints), EncodeSdft(t.draft);
    EncodedParts(t);
    HasConcat(file, at, x, y);
    HasFits(file, at, EncodeTrailer(t));
    SecondParses(file, at + |x|, t.draft);
    FirstParses(file, at, t.checkpoints, draftRequired);
    StartsWithMagic(file, at, t.checkpoints, draftRequired);
    MagicFits(file, at);
  }

  lemma StartsWithMagic(file: Bytes, at: nat, cs: seq<Checkpoint>, draftRequired: bool)
    requires at <= |file| && |cs| <= MAX_CHECKPOINTS && GoodCheckpoints(cs, draftRequired) && Has(file, at, EncodeSckp(cs))
    ensures cs != [] ==> Has(file, at, SCKP)
  {
    hide *;
    if cs != [] { SckpParses(file, at, cs, draftRequired); }
  }

  lemma MagicFits(file: Bytes, at: nat)
    ensures Has(file, at, SCKP) || Has(file, at, SDFT) ==> at + 4 <= |file|
  {
  }

  lemma FirstWitness(file: Bytes, at: nat, draftRequired: bool) returns (cs: seq<Checkpoint>)
    requires at <= |file| && FirstPart(file, at, draftRequired).Some?
    ensures |cs| <= MAX_CHECKPOINTS && GoodCheckpoints(cs, draftRequired) && Has(file, at, EncodeSckp(cs))
    ensures FirstPart(file, at, draftRequired).value.1 == at + |EncodeSckp(cs)|
  {
    cs := [];
    HasNothing(file, at);
    hide SckpAt, Has, SckpHeader, EncodeCheckpoints;
    if Has(file, at, SCKP) { cs := SckpWitness(file, at, draftRequired); }
  }

  lemma SecondWitness(file: Bytes, at: nat) returns (d: Option<Draft>)
    requires at <= |file| && SecondPart(file, at).Some?
    ensures Has(file, at, EncodeSdft(d)) && SecondPart(file, at).value.2 == at + |EncodeSdft(d)|
    ensures SecondPart(file, at).value.0 == if d.Some? then |d.value.draft| else 0
  {
    d := None;
    HasNothing(file, at);
    hide SdftAt, Has, SdftHeader, EncodeBlob;
    if Has(file, at, SDFT) {
      var draft := SdftWitness(file, at);
      d := Some(draft);
    }
  }

  lemma TrailerWitness(file: Bytes, at: nat, draftRequired: bool) returns (t: Trailer)
    requires TrailerAt(file, at, draftRequired).Some?
    ensures GoodTrailer(t, draftRequired) && Ends(file, at, t, draftRequired)
  {
    hide Has, EncodeSckp, EncodeSdft, EncodeTrailer, GoodCheckpoints, FirstPart, SecondPart;
    var cs := FirstWitness(file, at, draftRequired);
    var d := SecondWitness(file, at + |EncodeSckp(cs)|);
    t := Trailer(cs, d);
    EncodedParts(t);
    HasConcat(file, at, EncodeSckp(cs), EncodeSdft(d));
  }

  lemma HasNothing(file: Bytes, at: nat)
    requires at <= |file|
    ensures Has(file, at, [])
  {
  }

  /** The parser accepts at `at` exactly when the rest of the file is a trailer, and reports its lengths. */
  lemma TrailerGrammar(file: Bytes, at: nat, draftRequired: bool, info: TrailerInfo)
    ensures TrailerAt(file, at, draftRequired) == Some(info) <==>
            exists t :: GoodTrailer(t, draftRequired) && Ends(file, at, t, draftRequired) && info == Summary(t)
  {
    hide TrailerAt, GoodTrailer, Ends, Summary;
    if TrailerAt(file, at, draftRequired) == Some(info) {
      var t := TrailerWitness(file, at, draftRequired);
      TrailerParses(file, at, t, draftRequired);
    }
    if t :| GoodTrailer(t, draftRequired) && Ends(file, at, t, draftRequired) && info == Summary(t) {
      TrailerParses(file, at, t, draftRequired);
    }
  }

  // The parser as code, advancing an offset.

  lemma {:induction false} NoneStaysNone(file: Bytes, at: nat, k: nat, n: nat, draftRequired: bool)
    requires k <= n && at <= |file| && CheckpointsAt(file, at, k, draftRequired).None?
    ensures CheckpointsAt(file, at, n, draftRequired).None?
  {
    if k < n { NoneStaysNone(file, at, k, n - 1, draftRequired); }
  }

  /** `blob`: reads a length and skips that many bytes. */
  method Blob(file: Bytes, at: nat) returns (n: Option<nat>, next: nat)
    ensures n == BlobAt(file, at) && (n.Some? ==> next == at + 8 + n.value)
  {
    next := at;
    if at + 8 > |file| { return None, next; }
    var length := U64(file, at);
    if at + 8 + length > |file| { return None, next; }
    return Some(length), at + 8 + length;
  }

  method ReadCheckpoint(file: Bytes, start: nat, draftRequired: bool) returns (info: Option<CheckpointInfo>, at: nat)
    ensures CheckpointAt(file, start, draftRequired) == if info.Some? then Some((info.value, at)) else None
  {
    hide U64;
    at := start;
    if at + 8 > |file| { return None, at; }
    var tokens := U64(file, at);
    at := at + 16;
    var target, draft, speculative;
    target, at := Blob(file, at);
    if target.None? { return None, at; }
    draft, at := Blob(file, at);
    if draft.None? { return None, at; }
    speculative, at := Blob(file, at);
    if speculative.None? { return None, at; }
    if target.value == 0 || tokens == 0 || (draftRequired && draft.value == 0) { return None, at; }
    return Some(CheckpointInfo(tokens, target.value, draft.value, speculative.value)), at;
  }

  method ReadCheckpoints(file: Bytes, start: nat, count: nat, draftRequired: bool) returns (infos: Option<seq<CheckpointInfo>>, at: nat)
    requires start <= |file|
    ensures CheckpointsAt(file, start, count, draftRequired) == if infos.Some? then Some((infos.value, at)) else None
  {
    hide CheckpointAt;
    var read := [];
    at := start;
    var i := 0;
    while i < count
      invariant i <= count && CheckpointsAt(file, start, i, draftRequired) == Some((read, at))
    {
      var info, next := ReadCheckpoint(file, at, draftRequired);
      if info.None? {
        NoneStaysNone(file, start, i + 1, count, draftRequired);
        return None, at;
      }
      read, at := read + [info.value], next;
      i := i + 1;
    }
    return Some(read), at;
  }

  /** `trailer` */
  method ReadTrailer(file: Bytes, start: nat, draftRequired: bool) returns (info: Option<TrailerInfo>)
    ensures info == TrailerAt(file, start, draftRequired)
  {
    hide CheckpointsAt, BlobAt, U32;
    var size, at := |file|, start;
    if at + 4 > size { return None; }
    MagicFits(file, at);
    var checkpoints := [];
    if Has(file, at, SCKP) {
      if at + 8 > size || U32(file, at + 4) != 1 { return None; }
      if at + 12 > size { return None; }
      var count := U32(file, at + 8);
      if count < 1 || count > MAX_CHECKPOINTS { return None; }
      var infos;
      infos, at := ReadCheckpoints(file, at + 12, count, draftRequired);
      if infos.None? { return None; }
      checkpoints := infos.value;
    }
    var draftBytes, speculativeBytes := 0, 0;
    MagicFits(file, at);
    if at < size && Has(file, at, SDFT) {
      if at + 8 > size || U32(file, at + 4) != 1 { return None; }
      var draft, speculative;
      draft, at := Blob(file, at + 8);
      if draft.None? { return None; }
      speculative, at := Blob(file, at);
      if speculative.None? { return None; }
      draftBytes, speculativeBytes := draft.value, speculative.value;
    }
    if at != size || (draftRequired && draftBytes == 0) { return None; }
    return Some(TrailerInfo(checkpoints, draftBytes, speculativeBytes));
  }
}

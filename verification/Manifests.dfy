/** Manifests, payload digests and the replies of a slot backend. */
module Manifests {
  import opened Wrappers

  newtype byte = x: int | 0 <= x < 256
  type Bytes = seq<byte>

  /** SHA-256 taken as collision free: a digest determines the content it was taken of. */
  datatype Digest = Sha256(content: Bytes)

  function Decimal(n: nat): string {
    if n < 10 then ["0123456789"[n]] else Decimal(n / 10) + ["0123456789"[n % 10]]
  }

  /** The name of a slot's payload inside a generation directory. */
  function SlotFilename(id: nat): string { "slot-" + Decimal(id) + ".bin" }

  lemma SlotFilenamesDiffer(a: nat, b: nat)
    requires a < 10 && b < 10 && a != b
    ensures SlotFilename(a) != SlotFilename(b)
  {
    assert SlotFilename(a)[5] == "0123456789"[a];
    assert SlotFilename(b)[5] == "0123456789"[b];
  }

  datatype SlotManifest = SlotManifest(id: nat, filename: string, promptTokens: nat, bytes: nat, sha256: Digest)

  datatype SlotSnapshot = SlotSnapshot(id: nat, isProcessing: bool, nCtx: nat)
  datatype RestoreReply = RestoreReply(idSlot: nat, filename: string, nRestored: nat, nRead: nat)
  datatype SaveReply = SaveReply(idSlot: nat, filename: string, nSaved: nat, nWritten: nat)

  /** `restore_counts_match_manifest` */
  predicate CountsMatchManifest(observedBytes: nat, observedTokens: nat, savedBytes: nat, savedTokens: nat) {
    savedBytes > 0 && observedBytes == savedBytes && observedTokens == savedTokens
  }

  predicate RestoreMatches(slot: SlotManifest, filename: string, reply: RestoreReply) {
    && reply.idSlot == slot.id && reply.filename == filename
    && CountsMatchManifest(reply.nRead, reply.nRestored, slot.bytes, slot.promptTokens)
  }

  /** The re-save of a restored slot returned the manifest's tokens, bytes and content. */
  predicate SaveMatches(slot: SlotManifest, filename: string, reply: SaveReply, digest: Option<Digest>) {
    && reply.idSlot == slot.id && reply.filename == filename
    && reply.nSaved == slot.promptTokens && reply.nWritten == slot.bytes
    && digest == Some(slot.sha256)
  }
}

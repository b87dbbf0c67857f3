/** Little-endian numbers and what stands where in a byte string. */
module Encoding {
  import opened Manifests

  /** The bytes `w` stand at position `at`. */
  predicate Has(b: Bytes, at: nat, w: Bytes) { at + |w| <= |b| && b[at..at + |w|] == w }

  lemma HasConcat(b: Bytes, at: nat, x: Bytes, y: Bytes)
    ensures Has(b, at, x + y) <==> Has(b, at, x) && Has(b, at + |x|, y)
  {
    if Has(b, at, x + y) {
      assert x == (x + y)[..|x|] == b[at..at + |x|];
      assert y == (x + y)[|x|..] == b[at + |x|..at + |x| + |y|];
    }
    if Has(b, at, x) && Has(b, at + |x|, y) {
      assert b[at..at + |x + y|] == b[at..at + |x|] + b[at + |x|..at + |x| + |y|];
    }
  }

  lemma HasWhole(b: Bytes, w: Bytes)
    ensures Has(b, 0, w) && |w| == |b| <==> b == w
  {
  }

  lemma HasOne(b: Bytes, at: nat, x: byte)
    requires at < |b|
    ensures Has(b, at, [x]) <==> b[at] == x
  {
    assert b[at..at + 1] == [b[at]];
  }

  function Pow256(n: nat): (p: nat)
    ensures p > 0
  {
    if n == 0 then 1 else 256 * Pow256(n - 1)
  }

  function LeUint(b: Bytes, at: nat, n: nat): (v: nat)
    requires at + n <= |b|
    ensures v < Pow256(n)
    decreases n
  {
    if n == 0 then 0 else b[at] as int + 256 * LeUint(b, at + 1, n - 1)
  }

  function LeBytes(v: nat, n: nat): (w: Bytes)
    requires v < Pow256(n)
    ensures |w| == n
  {
    if n == 0 then [] else [(v % 256) as byte] + LeBytes(v / 256, n - 1)
  }

  /** A number read from a position is the one written there. */
  lemma {:induction false} LeReadsBack(b: Bytes, at: nat, v: nat, n: nat)
    requires at + n <= |b| && v < Pow256(n)
    ensures Has(b, at, LeBytes(v, n)) <==> LeUint(b, at, n) == v
    decreases n
  {
    if n > 0 {
      HasConcat(b, at, [(v % 256) as byte], LeBytes(v / 256, n - 1));
      LeReadsBack(b, at + 1, v / 256, n - 1);
      HasOne(b, at, (v % 256) as byte);
    }
  }
}

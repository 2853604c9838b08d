/** The free bitmap of fs.c: one bit a block, in bytes. */
module Bitmap {

  /** `1 << (bi % 8)` */
  function Mask(b: nat): bv8 {
    (1 as bv8) << (b % 8)
  }

  predicate Bit(m: seq<bv8>, b: nat)
    requires b < 8 * |m|
  {
    m[b / 8] & Mask(b) != 0
  }

  function SetBit(m: seq<bv8>, b: nat): (r: seq<bv8>)
    requires b < 8 * |m|
    ensures |r| == |m|
  {
    m[b / 8 := m[b / 8] | Mask(b)]
  }

  function ClearBit(m: seq<bv8>, b: nat): (r: seq<bv8>)
    requires b < 8 * |m|
    ensures |r| == |m|
  {
    m[b / 8 := m[b / 8] & !Mask(b)]
  }

  lemma MaskBits(x: bv8, m: bv8, n: bv8)
    requires m in {1, 2, 4, 8, 16, 32, 64, 128} && n in {1, 2, 4, 8, 16, 32, 64, 128}
    ensures ((x | m) & n != 0) <==> (m == n || x & n != 0)
    ensures ((x & !m) & n != 0) <==> (m != n && x & n != 0)
  {
  }

  lemma MaskIs(b: nat)
    ensures Mask(b) in {1, 2, 4, 8, 16, 32, 64, 128}
    ensures forall c: nat :: Mask(b) == Mask(c) ==> b % 8 == c % 8
  {
  }

  /** Setting or clearing a bit changes that bit only. */
  lemma OneBit(m: seq<bv8>, b: nat, c: nat)
    requires b < 8 * |m| && c < 8 * |m|
    ensures Bit(SetBit(m, b), c) <==> (c == b || Bit(m, c))
    ensures Bit(ClearBit(m, b), c) <==> (c != b && Bit(m, c))
  {
    MaskIs(b);
    MaskIs(c);
    MaskBits(m[c / 8], Mask(b), Mask(c));
  }
}

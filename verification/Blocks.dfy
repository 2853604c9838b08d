/** Disk blocks: 512 bytes, read and written either byte by byte or as 128
    little-endian 32-bit words (the log header and the indirect blocks). */
module Blocks {
  import opened Params

  const BSIZE := 512
  const WORDS := 128

  type Word32 = w: int | 0 <= w < UINT
  type Block = b: seq<Byte> | |b| == 512 witness seq(512, _ => 0)

  /** The block that `memset(bp->data, 0, BSIZE)` leaves. */
  function Zeroes(): Block {
    seq(BSIZE, _ => 0)
  }

  function WordAt(b: Block, i: nat): Word32
    requires i < WORDS
  {
    b[4 * i] as int + 0x100 * b[4 * i + 1] as int + 0x1_0000 * b[4 * i + 2] as int
    + 0x100_0000 * b[4 * i + 3] as int
  }

  function SetWord(b: Block, i: nat, w: Word32): Block
    requires i < WORDS
  {
    b[4 * i := w % 0x100]
     [4 * i + 1 := w / 0x100 % 0x100]
     [4 * i + 2 := w / 0x1_0000 % 0x100]
     [4 * i + 3 := w / 0x100_0000]
  }

  lemma BytesOfWord(w: Word32)
    ensures w % 0x100 + 0x100 * (w / 0x100 % 0x100) + 0x1_0000 * (w / 0x1_0000 % 0x100)
            + 0x100_0000 * (w / 0x100_0000) == w
  {
    assert w / 0x1_0000 == w / 0x100 / 0x100;
    assert w / 0x100_0000 == w / 0x100 / 0x100 / 0x100;
  }

  /** A word reads back as the last value stored in it; other words keep theirs. */
  lemma WordAfterSet(b: Block, i: nat, w: Word32, j: nat)
    requires i < WORDS && j < WORDS
    ensures WordAt(SetWord(b, i, w), j) == if j == i then w else WordAt(b, j)
  {
    BytesOfWord(w);
  }

  lemma ZeroWord(i: nat)
    requires i < WORDS
    ensures WordAt(Zeroes(), i) == 0
  {
  }
}

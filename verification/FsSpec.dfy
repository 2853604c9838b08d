/** The file layer of fs.c as values: who owns which block, and what bytes a file holds. */
module FsSpec {
  import opened Params
  import opened Blocks

  const NDIRECT := 12
  const MAXFILE := 140
  const MAXBYTES := 71680
  /** Slots of an inode: 0-11 direct blocks, 12 the indirect block, 13-140 its words. */
  const SLOTS := 141

  datatype Inode = Inode(typ: int, major: int, minor: int, nlink: int, size: nat, addrs: seq<nat>)

  /** `used`: the data blocks whose bitmap bit is set. `inodes` are the in-memory inodes,
      `dinodes` what the inode blocks hold. */
  datatype Fs = Fs(used: set<nat>, blocks: seq<Block>, inodes: seq<Inode>, dinodes: seq<Inode>)

  ghost predicate Shape(s: Fs) {
    && |s.dinodes| == |s.inodes| && |s.blocks| < UINT
    && forall i :: 0 <= i < |s.inodes| ==> |s.inodes[i].addrs| == NDIRECT + 1 && s.inodes[i].size <= MAXBYTES
  }

  /** The block number in slot k of inode i; 0 if there is none. */
  function AddrOf(s: Fs, i: nat, k: nat): nat
    requires i < |s.inodes| && |s.inodes[i].addrs| == NDIRECT + 1 && k < SLOTS
  {
    if k <= NDIRECT then s.inodes[i].addrs[k]
    else
      var ind := s.inodes[i].addrs[NDIRECT];
      if ind == 0 || ind >= |s.blocks| then 0 else WordAt(s.blocks[ind], k - 13)
  }

  /** Block `bn` of a file. */
  function SlotOf(bn: nat): (k: nat)
    requires bn < MAXFILE
    ensures k < SLOTS && k != NDIRECT
  {
    if bn < NDIRECT then bn else bn + 1
  }

  ghost predicate IsSlot(s: Fs, i: nat, k: nat)
    requires Shape(s)
  {
    i < |s.inodes| && k < SLOTS && AddrOf(s, i, k) != 0
  }

  /** Every slot in use has a set bit, no two slots share a block, and every set bit has its
      slot. */
  ghost predicate Owned(s: Fs)
    requires Shape(s)
  {
    && (forall i, k :: IsSlot(s, i, k) ==> AddrOf(s, i, k) in s.used)
    && (forall i, k, j, l :: IsSlot(s, i, k) && IsSlot(s, j, l) && AddrOf(s, i, k) == AddrOf(s, j, l) ==>
          i == j && k == l)
    && (forall b :: b in s.used ==> exists i, k :: IsSlot(s, i, k) && AddrOf(s, i, k) == b)
  }

  ghost predicate InRange(first: nat, s: Fs) {
    0 < first <= |s.blocks| && forall b :: b in s.used ==> first <= b < |s.blocks|
  }

  ghost predicate FsOk(first: nat, s: Fs) {
    Shape(s) && InRange(first, s) && Owned(s)
  }

  // ---------------------------------------------------------- file contents

  /** Byte `o` of inode i, reading unmapped blocks as zero. */
  function RawByte(s: Fs, i: nat, o: nat): Byte
    requires Shape(s) && i < |s.inodes| && o < MAXBYTES
  {
    var a := AddrOf(s, i, SlotOf(o / BSIZE));
    if a == 0 || a >= |s.blocks| then 0 else s.blocks[a][o % BSIZE]
  }

  ghost function Contents(s: Fs, i: nat): (c: seq<Byte>)
    requires Shape(s) && i < |s.inodes|
    ensures |c| == s.inodes[i].size
    ensures forall o :: 0 <= o < |c| ==> c[o] == RawByte(s, i, o)
  {
    seq(s.inodes[i].size, o requires 0 <= o < s.inodes[i].size => RawByte(s, i, o))
  }

  /** Every block below the end of the file is mapped. */
  ghost predicate NoHoles(s: Fs, i: nat)
    requires Shape(s) && i < |s.inodes|
  {
    forall bn :: 0 <= bn < MAXFILE && bn * BSIZE < s.inodes[i].size ==> AddrOf(s, i, SlotOf(bn)) != 0
  }

  /** `c` with `src` written over it from `off`, extended if need be. */
  function Splice(c: seq<Byte>, off: nat, src: seq<Byte>): seq<Byte>
    requires off <= |c|
  {
    if off + |src| < |c| then c[..off] + src + c[off + |src|..] else c[..off] + src
  }

  ghost predicate SameBytes(s: Fs, t: Fs, i: nat)
    requires Shape(s) && Shape(t) && i < |s.inodes| && i < |t.inodes|
  {
    forall o :: 0 <= o < MAXBYTES ==> RawByte(t, i, o) == RawByte(s, i, o)
  }

  /** What allocating blocks to file i may change: its addrs, the bitmap, block contents that
      no file can see. */
  ghost predicate OnlyGrows(first: nat, s: Fs, t: Fs, i: nat) {
    && FsOk(first, s) && FsOk(first, t) && i < |s.inodes|
    && |t.blocks| == |s.blocks| && |t.inodes| == |s.inodes| && t.dinodes == s.dinodes && s.used <= t.used
    && t.inodes == s.inodes[i := s.inodes[i].(addrs := t.inodes[i].addrs)]
    && (forall j :: 0 <= j < |s.inodes| ==> SameBytes(s, t, j))
    && (forall j, k :: IsSlot(s, j, k) ==> AddrOf(t, j, k) == AddrOf(s, j, k))
  }

  lemma GrowsTrans(first: nat, s: Fs, t: Fs, u: Fs, i: nat)
    requires OnlyGrows(first, s, t, i) && OnlyGrows(first, t, u, i)
    ensures OnlyGrows(first, s, u, i)
  {
    hide Owned, RawByte, AddrOf;
    assert u.inodes == s.inodes[i := s.inodes[i].(addrs := u.inodes[i].addrs)];
    forall j | 0 <= j < |s.inodes|
      ensures SameBytes(s, u, j)
    {
      assert SameBytes(s, t, j) && SameBytes(t, u, j);
    }
    forall j, k | IsSlot(s, j, k)
      ensures AddrOf(u, j, k) == AddrOf(s, j, k)
    {
      assert IsSlot(t, j, k);
    }
  }

  // ------------------------------------------------------- one slot at a time

  /** A free block, zeroed and marked, joins slot k of inode i. */
  lemma SlotAdded(first: nat, s: Fs, t: Fs, i: nat, k: nat, b: nat)
    requires FsOk(first, s) && Shape(t) && InRange(first, t) && i < |s.inodes| && k < SLOTS && b != 0
    requires |t.inodes| == |s.inodes| && b !in s.used && t.used == s.used + {b} && AddrOf(s, i, k) == 0
    requires forall j, l :: 0 <= j < |s.inodes| && 0 <= l < SLOTS ==>
               AddrOf(t, j, l) == if j == i && l == k then b else AddrOf(s, j, l)
    ensures Owned(t)
  {
    hide AddrOf;
    forall c | c in t.used
      ensures exists j, l :: IsSlot(t, j, l) && AddrOf(t, j, l) == c
    {
      if c == b {
        assert IsSlot(t, i, k);
      } else {
        var j, l :| IsSlot(s, j, l) && AddrOf(s, j, l) == c;
        assert IsSlot(t, j, l);
      }
    }
  }

  /** Block b sits in one of the slots lo..hi of inode i. */
  ghost predicate InSlots(s: Fs, i: nat, lo: nat, hi: nat, b: nat)
    requires Shape(s) && i < |s.inodes|
  {
    exists k :: lo <= k < hi && IsSlot(s, i, k) && AddrOf(s, i, k) == b
  }

  /** The blocks in slots lo..hi of inode i leave the bitmap and the inode together. */
  lemma SlotsRemoved(first: nat, s: Fs, t: Fs, i: nat, lo: nat, hi: nat)
    requires FsOk(first, s) && Shape(t) && i < |s.inodes| && hi <= SLOTS && |t.blocks| == |s.blocks|
    requires |t.inodes| == |s.inodes|
    requires forall b :: b in t.used <==> b in s.used && !InSlots(s, i, lo, hi, b)
    requires forall j, l :: 0 <= j < |s.inodes| && 0 <= l < SLOTS ==>
               AddrOf(t, j, l) == if j == i && lo <= l < hi then 0 else AddrOf(s, j, l)
    ensures FsOk(first, t)
  {
    hide AddrOf;
    forall j, l | IsSlot(t, j, l)
      ensures IsSlot(s, j, l) && AddrOf(t, j, l) == AddrOf(s, j, l) && AddrOf(t, j, l) in t.used
    {
      assert IsSlot(s, j, l);
    }
    forall c | c in t.used
      ensures exists j, l :: IsSlot(t, j, l) && AddrOf(t, j, l) == c
    {
      var j, l :| IsSlot(s, j, l) && AddrOf(s, j, l) == c;
      assert IsSlot(t, j, l);
    }
  }

  /** bmap's allocations: a zeroed block in a direct slot or as the indirect block... */
  function Linked(s: Fs, i: nat, k: nat, b: nat): Fs
    requires i < |s.inodes| && k < |s.inodes[i].addrs| && b < |s.blocks|
  {
    s.(used := s.used + {b}, blocks := s.blocks[b := Zeroes()],
       inodes := s.inodes[i := s.inodes[i].(addrs := s.inodes[i].addrs[k := b])])
  }

  /** ... and in word w of the indirect block. */
  function LinkedWord(s: Fs, i: nat, w: nat, b: nat): Fs
    requires Shape(s) && i < |s.inodes| && w < WORDS && b < |s.blocks|
    requires s.inodes[i].addrs[NDIRECT] < |s.blocks|
  {
    var ind := s.inodes[i].addrs[NDIRECT];
    var bs := s.blocks[b := Zeroes()];
    s.(used := s.used + {b}, blocks := bs[ind := SetWord(bs[ind], w, b)])
  }

  lemma LinkedAddrs(first: nat, s: Fs, i: nat, k: nat, b: nat, j: nat, l: nat)
    requires FsOk(first, s) && i < |s.inodes| && k <= NDIRECT && first <= b < |s.blocks| && b !in s.used
    requires AddrOf(s, i, k) == 0 && j < |s.inodes| && l < SLOTS
    ensures AddrOf(Linked(s, i, k, b), j, l) == if j == i && l == k then b else AddrOf(s, j, l)
  {
    var ind := s.inodes[j].addrs[NDIRECT];
    if ind != 0 {
      assert IsSlot(s, j, NDIRECT) && AddrOf(s, j, NDIRECT) == ind;
    }
    if l > NDIRECT && j == i && k == NDIRECT {
      ZeroWord(l - 13);
    }
    hide Owned;
  }

  lemma LinkedWordAddrs(first: nat, s: Fs, i: nat, w: nat, b: nat, j: nat, l: nat)
    requires FsOk(first, s) && i < |s.inodes| && w < WORDS && first <= b < |s.blocks| && b !in s.used
    requires IsSlot(s, i, NDIRECT) && AddrOf(s, i, 13 + w) == 0 && j < |s.inodes| && l < SLOTS
    ensures AddrOf(s, i, NDIRECT) < |s.blocks|
    ensures AddrOf(LinkedWord(s, i, w, b), j, l) == if j == i && l == 13 + w then b else AddrOf(s, j, l)
  {
    var ind := s.inodes[i].addrs[NDIRECT];
    assert AddrOf(s, i, NDIRECT) == ind && ind in s.used;
    var jnd := s.inodes[j].addrs[NDIRECT];
    if jnd != 0 {
      assert IsSlot(s, j, NDIRECT) && AddrOf(s, j, NDIRECT) == jnd;
      assert jnd in s.used && (jnd == ind ==> j == i);
    }
    hide Owned;
    if l > NDIRECT {
      WordAfterSet(s.blocks[ind], w, b, l - 13);
    }
  }

  /** Blocks in use keep their bytes, a new block reads as the zeroes that were there. */
  lemma GrownBytes(first: nat, s: Fs, t: Fs, i: nat, k: nat, b: nat, j: nat)
    requires FsOk(first, s) && Shape(t) && |t.inodes| == |s.inodes| && |t.blocks| == |s.blocks|
    requires j < |s.inodes| && b < |s.blocks| && b !in s.used && t.blocks[b] == Zeroes()
    requires forall l :: 0 <= l < SLOTS ==> AddrOf(t, j, l) == if j == i && l == k then b else AddrOf(s, j, l)
    requires i < |s.inodes| && k < SLOTS && AddrOf(s, i, k) == 0
    requires forall l :: 0 <= l < SLOTS && l != NDIRECT && IsSlot(s, j, l) ==>
               t.blocks[AddrOf(s, j, l)] == s.blocks[AddrOf(s, j, l)]
    requires forall c :: c in s.used ==> c < |s.blocks|
    ensures SameBytes(s, t, j)
  {
    hide AddrOf;
    forall o | 0 <= o < MAXBYTES
      ensures RawByte(t, j, o) == RawByte(s, j, o)
    {
      var l := SlotOf(o / BSIZE);
      if AddrOf(s, j, l) != 0 {
        assert IsSlot(s, j, l);
      }
    }
  }

  lemma LinkedGrows(first: nat, s: Fs, i: nat, k: nat, b: nat)
    requires FsOk(first, s) && i < |s.inodes| && k <= NDIRECT && first <= b < |s.blocks| && b !in s.used
    requires AddrOf(s, i, k) == 0
    ensures OnlyGrows(first, s, Linked(s, i, k, b), i)
    ensures AddrOf(Linked(s, i, k, b), i, k) == b
  {
    var t := Linked(s, i, k, b);
    forall j, l | 0 <= j < |s.inodes| && 0 <= l < SLOTS
      ensures AddrOf(t, j, l) == if j == i && l == k then b else AddrOf(s, j, l)
    {
      LinkedAddrs(first, s, i, k, b, j, l);
    }
    hide AddrOf;
    SlotAdded(first, s, t, i, k, b);
    forall j | 0 <= j < |s.inodes|
      ensures SameBytes(s, t, j)
    {
      forall l | 0 <= l < SLOTS && IsSlot(s, j, l)
        ensures t.blocks[AddrOf(s, j, l)] == s.blocks[AddrOf(s, j, l)]
      {
        assert AddrOf(s, j, l) in s.used;
      }
      GrownBytes(first, s, t, i, k, b, j);
    }
  }

  lemma LinkedWordGrows(first: nat, s: Fs, i: nat, w: nat, b: nat)
    requires FsOk(first, s) && i < |s.inodes| && w < WORDS && first <= b < |s.blocks| && b !in s.used
    requires IsSlot(s, i, NDIRECT) && AddrOf(s, i, 13 + w) == 0
    ensures AddrOf(s, i, NDIRECT) < |s.blocks|
    ensures OnlyGrows(first, s, LinkedWord(s, i, w, b), i)
    ensures AddrOf(LinkedWord(s, i, w, b), i, 13 + w) == b
  {
    LinkedWordAddrs(first, s, i, w, b, i, 13 + w);
    var t := LinkedWord(s, i, w, b);
    forall j, l | 0 <= j < |s.inodes| && 0 <= l < SLOTS
      ensures AddrOf(t, j, l) == if j == i && l == 13 + w then b else AddrOf(s, j, l)
    {
      LinkedWordAddrs(first, s, i, w, b, j, l);
    }
    var ind := AddrOf(s, i, NDIRECT);
    hide AddrOf;
    assert ind in s.used;
    SlotAdded(first, s, t, i, 13 + w, b);
    forall j | 0 <= j < |s.inodes|
      ensures SameBytes(s, t, j)
    {
      forall l | 0 <= l < SLOTS && l != NDIRECT && IsSlot(s, j, l)
        ensures t.blocks[AddrOf(s, j, l)] == s.blocks[AddrOf(s, j, l)]
      {
        assert AddrOf(s, j, l) in s.used && AddrOf(s, j, l) != ind;
      }
      GrownBytes(first, s, t, i, 13 + w, b, j);
    }
    assert t.inodes == s.inodes[i := s.inodes[i].(addrs := t.inodes[i].addrs)];
  }

  // --------------------------------------------------------------- writing

  function Stored(s: Fs, a: nat, data: Block): Fs
    requires a < |s.blocks|
  {
    s.(blocks := s.blocks[a := data])
  }

  lemma SameSlots(first: nat, s: Fs, t: Fs)
    requires FsOk(first, s) && Shape(t) && |t.inodes| == |s.inodes| && t.used == s.used
    requires forall j, k :: 0 <= j < |s.inodes| && 0 <= k < SLOTS ==> AddrOf(t, j, k) == AddrOf(s, j, k)
    ensures Owned(t)
  {
    hide AddrOf;
    forall b | b in t.used
      ensures exists j, k :: IsSlot(t, j, k) && AddrOf(t, j, k) == b
    {
      var j, k :| IsSlot(s, j, k) && AddrOf(s, j, k) == b;
      assert IsSlot(t, j, k);
    }
  }

  /** Storing into a data block moves no slot. */
  lemma StoredAddrs(first: nat, s: Fs, i: nat, k0: nat, data: Block, j: nat, k: nat)
    requires FsOk(first, s) && IsSlot(s, i, k0) && k0 != NDIRECT && j < |s.inodes| && k < SLOTS
    ensures AddrOf(s, i, k0) in s.used && AddrOf(s, i, k0) < |s.blocks|
    ensures AddrOf(Stored(s, AddrOf(s, i, k0), data), j, k) == AddrOf(s, j, k)
  {
    if s.inodes[j].addrs[NDIRECT] != 0 {
      assert IsSlot(s, j, NDIRECT) && AddrOf(s, j, NDIRECT) == s.inodes[j].addrs[NDIRECT];
    }
  }

  lemma StoredOk(first: nat, s: Fs, i: nat, k0: nat, data: Block)
    requires FsOk(first, s) && IsSlot(s, i, k0) && k0 != NDIRECT
    ensures var a := AddrOf(s, i, k0);
            && a in s.used && a < |s.blocks| && FsOk(first, Stored(s, a, data))
            && (forall j, k :: 0 <= j < |s.inodes| && 0 <= k < SLOTS ==>
                  AddrOf(Stored(s, a, data), j, k) == AddrOf(s, j, k))
  {
    StoredAddrs(first, s, i, k0, data, i, k0);
    forall j, k | 0 <= j < |s.inodes| && 0 <= k < SLOTS
      ensures AddrOf(Stored(s, AddrOf(s, i, k0), data), j, k) == AddrOf(s, j, k)
    {
      StoredAddrs(first, s, i, k0, data, j, k);
    }
    hide AddrOf;
    SameSlots(first, s, Stored(s, AddrOf(s, i, k0), data));
  }

  /** Writing a data block of one file changes that block of that file and nothing else. */
  lemma StoredBytes(first: nat, s: Fs, i: nat, bn: nat, data: Block)
    requires FsOk(first, s) && i < |s.inodes| && bn < MAXFILE && AddrOf(s, i, SlotOf(bn)) != 0
    ensures var a := AddrOf(s, i, SlotOf(bn));
            && a in s.used && a < |s.blocks| && FsOk(first, Stored(s, a, data))
            && (forall j, k :: 0 <= j < |s.inodes| && 0 <= k < SLOTS ==>
                  AddrOf(Stored(s, a, data), j, k) == AddrOf(s, j, k))
            && (forall j, o :: 0 <= j < |s.inodes| && 0 <= o < MAXBYTES ==>
                  RawByte(Stored(s, a, data), j, o) ==
                  if j == i && o / BSIZE == bn then data[o % BSIZE] else RawByte(s, j, o))
  {
    hide AddrOf;
    var k0 := SlotOf(bn);
    var a := AddrOf(s, i, k0);
    assert IsSlot(s, i, k0);
    StoredOk(first, s, i, k0, data);
    var t := Stored(s, a, data);
    forall j, o | 0 <= j < |s.inodes| && 0 <= o < MAXBYTES
      ensures RawByte(t, j, o) == if j == i && o / BSIZE == bn then data[o % BSIZE] else RawByte(s, j, o)
    {
      var k := SlotOf(o / BSIZE);
      assert AddrOf(t, j, k) == AddrOf(s, j, k);
      if AddrOf(s, j, k) == a {
        assert IsSlot(s, j, k);
        assert j == i && k == k0;
      }
    }
  }

  /** Block bn of a file holds some of the n bytes from `off`. */
  predicate Touches(bn: nat, off: nat, n: nat) {
    0 < n && bn * BSIZE < off + n && off < (bn + 1) * BSIZE
  }

  /** From s to t the bytes `src` were written into file i at `off`, mapping blocks as needed,
      and nothing else that any file can see changed. The inode itself is unchanged if the
      blocks were all mapped. */
  ghost predicate Wrote(first: nat, s: Fs, t: Fs, i: nat, off: nat, src: seq<Byte>) {
    && FsOk(first, s) && FsOk(first, t) && i < |s.inodes| && off + |src| <= MAXBYTES
    && |t.blocks| == |s.blocks| && |t.inodes| == |s.inodes| && t.dinodes == s.dinodes
    && t.inodes == s.inodes[i := s.inodes[i].(addrs := t.inodes[i].addrs)]
    && (forall j, o :: 0 <= j < |s.inodes| && 0 <= o < MAXBYTES ==>
          RawByte(t, j, o) == if j == i && off <= o < off + |src| then src[o - off] else RawByte(s, j, o))
    && (forall j, k :: IsSlot(s, j, k) ==> AddrOf(t, j, k) == AddrOf(s, j, k))
    && (forall bn :: 0 <= bn < MAXFILE && Touches(bn, off, |src|) ==> AddrOf(t, i, SlotOf(bn)) != 0)
    && ((forall bn :: 0 <= bn < MAXFILE && Touches(bn, off, |src|) ==> AddrOf(s, i, SlotOf(bn)) != 0)
        ==> t.inodes == s.inodes)
  }

  lemma WroteNothing(first: nat, s: Fs, i: nat, off: nat)
    requires FsOk(first, s) && i < |s.inodes| && off <= MAXBYTES
    ensures Wrote(first, s, s, i, off, [])
  {
    hide Owned, AddrOf;
  }

  /** A block with `src` copied over it from `r`: memmove(bp->data + r, src, m). */
  function Patched(b: Block, r: nat, src: seq<Byte>): (p: Block)
    requires r + |src| <= BSIZE
    ensures forall x :: 0 <= x < BSIZE ==> p[x] == if r <= x < r + |src| then src[x - r] else b[x]
  {
    b[..r] + src + b[r + |src|..]
  }

  lemma OnlyOneBlock(bn: nat, off: nat, n: nat)
    requires off % BSIZE + n <= BSIZE && Touches(bn, off, n)
    ensures bn == off / BSIZE
  {
  }

  lemma ChunkBytes(first: nat, t: Fs, i: nat, off: nat, src: seq<Byte>, j: nat, o: nat)
    requires FsOk(first, t) && i < |t.inodes| && j < |t.inodes| && o < MAXBYTES
    requires 0 < |src| && off % BSIZE + |src| <= BSIZE && off + |src| <= MAXBYTES
    requires AddrOf(t, i, SlotOf(off / BSIZE)) != 0
    ensures var a := AddrOf(t, i, SlotOf(off / BSIZE));
            && a < |t.blocks|
            && RawByte(Stored(t, a, Patched(t.blocks[a], off % BSIZE, src)), j, o) ==
               if j == i && off <= o < off + |src| then src[o - off] else RawByte(t, j, o)
  {
    var bn, r := off / BSIZE, off % BSIZE;
    var a := AddrOf(t, i, SlotOf(bn));
    assert IsSlot(t, i, SlotOf(bn)) && a in t.used;
    StoredBytes(first, t, i, bn, Patched(t.blocks[a], r, src));
    hide AddrOf, Owned, Patched;
    if j == i && o / BSIZE == bn {
      assert RawByte(t, j, o) == t.blocks[a][o % BSIZE];
    }
  }

  /** One pass of writei's loop: bmap, then part of one block. */
  lemma WroteChunk(first: nat, s: Fs, t: Fs, i: nat, off: nat, src: seq<Byte>)
    requires OnlyGrows(first, s, t, i) && 0 < |src| && off % BSIZE + |src| <= BSIZE
    requires off + |src| <= MAXBYTES && AddrOf(t, i, SlotOf(off / BSIZE)) != 0
    requires AddrOf(s, i, SlotOf(off / BSIZE)) != 0 ==> t == s
    ensures var a := AddrOf(t, i, SlotOf(off / BSIZE));
            && a < |t.blocks|
            && Wrote(first, s, Stored(t, a, Patched(t.blocks[a], off % BSIZE, src)), i, off, src)
  {
    var bn, r := off / BSIZE, off % BSIZE;
    var a := AddrOf(t, i, SlotOf(bn));
    assert IsSlot(t, i, SlotOf(bn)) && a in t.used;
    var u := Stored(t, a, Patched(t.blocks[a], r, src));
    StoredOk(first, t, i, SlotOf(bn), Patched(t.blocks[a], r, src));
    forall j, o | 0 <= j < |s.inodes| && 0 <= o < MAXBYTES
      ensures RawByte(u, j, o) == if j == i && off <= o < off + |src| then src[o - off] else RawByte(s, j, o)
    {
      ChunkBytes(first, t, i, off, src, j, o);
      assert SameBytes(s, t, j);
    }
    hide Owned, AddrOf, InRange, RawByte, Patched;
    assert Touches(bn, off, |src|);
    forall b | 0 <= b < MAXFILE && Touches(b, off, |src|)
      ensures b == bn
    {
      OnlyOneBlock(b, off, |src|);
    }
  }

  lemma WroteMore(first: nat, s: Fs, t: Fs, u: Fs, i: nat, off: nat, a: seq<Byte>, b: seq<Byte>)
    requires Wrote(first, s, t, i, off, a) && Wrote(first, t, u, i, off + |a|, b)
    requires 0 < |b|
    ensures Wrote(first, s, u, i, off, a + b)
  {
    hide Owned, AddrOf, InRange, RawByte;
    assert u.inodes == s.inodes[i := s.inodes[i].(addrs := u.inodes[i].addrs)];
    forall j, k | IsSlot(s, j, k)
      ensures AddrOf(u, j, k) == AddrOf(s, j, k)
    {
      assert IsSlot(t, j, k);
    }
    forall bn | 0 <= bn < MAXFILE && Touches(bn, off, |a + b|)
      ensures Touches(bn, off, |a|) || Touches(bn, off + |a|, |b|)
      ensures AddrOf(u, i, SlotOf(bn)) != 0
    {
      if Touches(bn, off, |a|) {
        assert IsSlot(t, i, SlotOf(bn));
      }
    }
    if forall bn :: 0 <= bn < MAXFILE && Touches(bn, off, |a + b|) ==> AddrOf(s, i, SlotOf(bn)) != 0 {
      forall bn | 0 <= bn < MAXFILE && Touches(bn, off + |a|, |b|)
        ensures AddrOf(t, i, SlotOf(bn)) != 0
      {
        assert Touches(bn, off, |a + b|);
        assert IsSlot(s, i, SlotOf(bn));
      }
      assert forall bn :: Touches(bn, off, |a|) ==> Touches(bn, off, |a + b|);
    }
  }

  ghost predicate Synced(s: Fs) {
    s.dinodes == s.inodes
  }

  ghost predicate Tidy(s: Fs)
    requires Shape(s)
  {
    forall j :: 0 <= j < |s.inodes| ==> NoHoles(s, j)
  }

  /** What writei does after its loop: grow the size and copy the inode to disk, only if the
      write went past the end. */
  function Sized(t: Fs, i: nat, end: nat): Fs
    requires i < |t.inodes| && i < |t.dinodes|
  {
    if end > t.inodes[i].size then
      var n := t.inodes[i].(size := end);
      t.(inodes := t.inodes[i := n], dinodes := t.dinodes[i := n])
    else t
  }

  lemma SizedOk(first: nat, t: Fs, i: nat, end: nat)
    requires FsOk(first, t) && i < |t.inodes| && end <= MAXBYTES
    ensures FsOk(first, Sized(t, i, end))
    ensures forall j, k :: 0 <= j < |t.inodes| && 0 <= k < SLOTS ==>
              AddrOf(Sized(t, i, end), j, k) == AddrOf(t, j, k)
    ensures forall j, o :: 0 <= j < |t.inodes| && 0 <= o < MAXBYTES ==>
              RawByte(Sized(t, i, end), j, o) == RawByte(t, j, o)
  {
    var u := Sized(t, i, end);
    assert forall j, k :: 0 <= j < |t.inodes| && 0 <= k < SLOTS ==> AddrOf(u, j, k) == AddrOf(t, j, k);
    hide AddrOf;
    SameSlots(first, t, u);
  }

  lemma SpliceAt(c: seq<Byte>, off: nat, src: seq<Byte>)
    requires off <= |c|
    ensures |Splice(c, off, src)| == if off + |src| > |c| then off + |src| else |c|
    ensures forall o :: 0 <= o < |Splice(c, off, src)| ==>
              Splice(c, off, src)[o] == if off <= o < off + |src| then src[o - off] else c[o]
  {
  }

  lemma WriteContents(first: nat, s: Fs, t: Fs, i: nat, off: nat, src: seq<Byte>, j: nat)
    requires Wrote(first, s, t, i, off, src) && off <= s.inodes[i].size && j < |s.inodes|
    ensures Shape(Sized(t, i, off + |src|))
    ensures Contents(Sized(t, i, off + |src|), j) ==
            if j == i then Splice(Contents(s, i), off, src) else Contents(s, j)
  {
    hide Owned, AddrOf, InRange, RawByte, Splice, IsSlot, Touches;
    var u := Sized(t, i, off + |src|);
    SizedOk(first, t, i, off + |src|);
    SpliceAt(Contents(s, i), off, src);
    var c, d := Contents(u, j), if j == i then Splice(Contents(s, i), off, src) else Contents(s, j);
    assert |c| == |d|;
    forall o | 0 <= o < |c|
      ensures c[o] == d[o]
    {
      assert c[o] == RawByte(t, j, o);
      assert RawByte(t, j, o) == if j == i && off <= o < off + |src| then src[o - off] else RawByte(s, j, o);
    }
  }

  /** A write that stays within the file maps no block, so the inode needs no update. */
  lemma WriteInPlace(first: nat, s: Fs, t: Fs, i: nat, off: nat, src: seq<Byte>)
    requires Wrote(first, s, t, i, off, src) && NoHoles(s, i) && off + |src| <= s.inodes[i].size
    ensures t.inodes == s.inodes
  {
    hide Owned, AddrOf, InRange, RawByte;
    forall bn | 0 <= bn < MAXFILE && Touches(bn, off, |src|)
      ensures AddrOf(s, i, SlotOf(bn)) != 0
    {
    }
  }

  lemma WriteTidy(first: nat, s: Fs, t: Fs, i: nat, off: nat, src: seq<Byte>)
    requires Wrote(first, s, t, i, off, src) && Tidy(s) && off <= s.inodes[i].size && src != []
    ensures FsOk(first, Sized(t, i, off + |src|)) && Tidy(Sized(t, i, off + |src|))
  {
    var u := Sized(t, i, off + |src|);
    SizedOk(first, t, i, off + |src|);
    hide Owned, AddrOf, InRange, RawByte;
    forall j, bn | 0 <= j < |s.inodes| && 0 <= bn < MAXFILE && bn * BSIZE < u.inodes[j].size
      ensures AddrOf(u, j, SlotOf(bn)) != 0
    {
      WriteLeavesNoHole(first, s, t, i, off, src, j, bn);
    }
  }

  /** The refinement of writei: the file's bytes are the old bytes with `src` spliced in, no
      other file changes, no hole appears, and the inode on disk equals the one in memory. */
  lemma WriteRefines(first: nat, s: Fs, t: Fs, i: nat, off: nat, src: seq<Byte>)
    requires Wrote(first, s, t, i, off, src) && Tidy(s) && Synced(s) && off <= s.inodes[i].size && src != []
    ensures var u := Sized(t, i, off + |src|);
            && FsOk(first, u) && Tidy(u) && Synced(u) && |u.inodes| == |s.inodes|
            && Contents(u, i) == Splice(Contents(s, i), off, src)
            && forall j :: 0 <= j < |s.inodes| && j != i ==>
                 u.inodes[j] == s.inodes[j] && Contents(u, j) == Contents(s, j)
  {
    WriteTidy(first, s, t, i, off, src);
    forall j | 0 <= j < |s.inodes|
      ensures Contents(Sized(t, i, off + |src|), j) ==
              if j == i then Splice(Contents(s, i), off, src) else Contents(s, j)
    {
      WriteContents(first, s, t, i, off, src, j);
    }
    if off + |src| <= s.inodes[i].size {
      WriteInPlace(first, s, t, i, off, src);
    }
    hide Owned, AddrOf, InRange, RawByte, Tidy, Contents, Splice;
  }

  lemma WriteLeavesNoHole(first: nat, s: Fs, t: Fs, i: nat, off: nat, src: seq<Byte>, j: nat, bn: nat)
    requires Wrote(first, s, t, i, off, src) && Tidy(s) && off <= s.inodes[i].size && src != []
    requires j < |s.inodes| && bn < MAXFILE
    requires bn * BSIZE < (if j == i && off + |src| > s.inodes[i].size then off + |src| else s.inodes[j].size)
    ensures AddrOf(t, j, SlotOf(bn)) != 0
  {
    hide Owned, AddrOf, InRange, RawByte;
    if bn * BSIZE < s.inodes[j].size {
      assert NoHoles(s, j);
      assert IsSlot(s, j, SlotOf(bn));
    } else {
      assert Touches(bn, off, |src|);
    }
  }

  // ------------------------------------------------------------ truncation

  function Truncated(n: Inode): Inode {
    n.(size := 0, addrs := seq(NDIRECT + 1, _ => 0))
  }

  /** itrunc's result: inode i empty in memory and on disk, its blocks free. */
  ghost predicate Freed(s: Fs, t: Fs, i: nat)
    requires Shape(s) && i < |s.inodes| && i < |s.dinodes|
  {
    && t.blocks == s.blocks
    && t.inodes == s.inodes[i := Truncated(s.inodes[i])]
    && t.dinodes == s.dinodes[i := Truncated(s.inodes[i])]
    && forall b :: b in t.used <==> b in s.used && !InSlots(s, i, 0, SLOTS, b)
  }

  /** Truncation frees exactly that file's blocks and leaves every other file alone. */
  lemma FreedOk(first: nat, s: Fs, t: Fs, i: nat)
    requires FsOk(first, s) && i < |s.inodes| && Freed(s, t, i)
    ensures FsOk(first, t) && Contents(t, i) == []
    ensures forall j :: 0 <= j < |s.inodes| && j != i ==> Contents(t, j) == Contents(s, j)
    ensures Tidy(s) ==> Tidy(t)
  {
    forall j, l | 0 <= j < |s.inodes| && 0 <= l < SLOTS
      ensures AddrOf(t, j, l) == if j == i then 0 else AddrOf(s, j, l)
    {
    }
    hide AddrOf;
    SlotsRemoved(first, s, t, i, 0, SLOTS);
    hide Owned, InRange;
    forall j | 0 <= j < |s.inodes| && j != i
      ensures Contents(t, j) == Contents(s, j)
    {
      forall o | 0 <= o < s.inodes[j].size
        ensures RawByte(t, j, o) == RawByte(s, j, o)
      {
      }
    }
    if Tidy(s) {
      forall j | 0 <= j < |t.inodes|
        ensures NoHoles(t, j)
      {
        assert NoHoles(s, j);
      }
    }
  }

  /** iput of an inode without links: truncated, and free for ialloc. */
  ghost predicate Dropped(s: Fs, t: Fs, i: nat)
    requires Shape(s) && i < |s.inodes|
  {
    && t.blocks == s.blocks
    && t.inodes == s.inodes[i := Truncated(s.inodes[i]).(typ := 0)]
    && t.dinodes == s.dinodes[i := Truncated(s.inodes[i]).(typ := 0)]
    && forall b :: b in t.used <==> b in s.used && !InSlots(s, i, 0, SLOTS, b)
  }

  /** A change of an inode's type or link count moves no slot and no byte. */
  lemma RetypedOk(first: nat, s: Fs, t: Fs, i: nat, n: Inode)
    requires FsOk(first, s) && i < |s.inodes| && t.used == s.used && t.blocks == s.blocks
    requires t.inodes == s.inodes[i := n] && |t.dinodes| == |s.dinodes|
    requires n.size == s.inodes[i].size && n.addrs == s.inodes[i].addrs
    ensures FsOk(first, t) && (Tidy(s) ==> Tidy(t))
    ensures forall j :: 0 <= j < |s.inodes| ==> Contents(t, j) == Contents(s, j)
  {
    assert forall j, k :: 0 <= j < |s.inodes| && 0 <= k < SLOTS ==> AddrOf(t, j, k) == AddrOf(s, j, k);
    hide AddrOf;
    SameSlots(first, s, t);
    hide Owned, InRange;
    if Tidy(s) {
      forall j | 0 <= j < |t.inodes|
        ensures NoHoles(t, j)
      {
        assert NoHoles(s, j);
      }
    }
  }

  lemma DroppedOk(first: nat, s: Fs, t: Fs, i: nat)
    requires FsOk(first, s) && i < |s.inodes| && Dropped(s, t, i)
    ensures FsOk(first, t) && Contents(t, i) == [] && (Tidy(s) ==> Tidy(t))
    ensures forall j :: 0 <= j < |s.inodes| && j != i ==> Contents(t, j) == Contents(s, j)
  {
    hide Owned, InRange, AddrOf, RawByte, InSlots, Tidy;
    var mid := t.(inodes := s.inodes[i := Truncated(s.inodes[i])], dinodes := s.dinodes[i := Truncated(s.inodes[i])]);
    FreedOk(first, s, mid, i);
    RetypedOk(first, mid, t, i, t.inodes[i]);
  }

  // ------------------------------------------------- one store at a time

  /** balloc and the store of its block in a direct slot, or as the indirect block. */
  ghost predicate LinkStep(first: nat, s: Fs, t: Fs, i: nat, k: nat, b: nat) {
    && i < |s.inodes| && |s.inodes[i].addrs| == NDIRECT + 1 && k <= NDIRECT
    && first <= b < |s.blocks| && b !in s.used && AddrOf(s, i, k) == 0
    && t == Linked(s, i, k, b)
  }

  /** The same in a word of the indirect block. */
  ghost predicate LinkWordStep(first: nat, s: Fs, t: Fs, i: nat, w: nat, b: nat) {
    && Shape(s) && IsSlot(s, i, NDIRECT) && s.inodes[i].addrs[NDIRECT] < |s.blocks| && w < WORDS
    && first <= b < |s.blocks| && b !in s.used && AddrOf(s, i, 13 + w) == 0
    && t == LinkedWord(s, i, w, b)
  }

  /** A store into a block of a file. */
  ghost predicate StoreStep(s: Fs, t: Fs, i: nat, bn: nat, data: Block) {
    && Shape(s) && i < |s.inodes| && bn < MAXFILE
    && 0 < AddrOf(s, i, SlotOf(bn)) < |s.blocks| && t == Stored(s, AddrOf(s, i, SlotOf(bn)), data)
  }

  ghost predicate SizeStep(s: Fs, t: Fs, i: nat, end: nat) {
    i < |s.inodes| && i < |s.dinodes| && end <= MAXBYTES && t == Sized(s, i, end)
  }

  ghost predicate FreeStep(s: Fs, t: Fs, i: nat) {
    Shape(s) && i < |s.inodes| && Freed(s, t, i)
  }

  ghost predicate FsStep(first: nat, s: Fs, t: Fs) {
    || (exists i, k, b :: LinkStep(first, s, t, i, k, b))
    || (exists i, w, b :: LinkWordStep(first, s, t, i, w, b))
    || (exists i, bn, data: Block :: StoreStep(s, t, i, bn, data))
    || (exists i, end :: SizeStep(s, t, i, end))
    || (exists i :: FreeStep(s, t, i))
  }

  lemma StepKeepsOk(first: nat, s: Fs, t: Fs)
    requires FsOk(first, s) && FsStep(first, s, t)
    ensures FsOk(first, t)
  {
    hide Owned, AddrOf, RawByte;
    if i, k, b :| LinkStep(first, s, t, i, k, b) {
      LinkedGrows(first, s, i, k, b);
    } else if i, w, b :| LinkWordStep(first, s, t, i, w, b) {
      LinkedWordGrows(first, s, i, w, b);
    } else if i, bn, data: Block :| StoreStep(s, t, i, bn, data) {
      StoredOk(first, s, i, SlotOf(bn), data);
    } else if i, end :| SizeStep(s, t, i, end) {
      SizedOk(first, s, i, end);
    } else {
      var i :| FreeStep(s, t, i);
      FreedOk(first, s, t, i);
    }
  }

  ghost predicate IsRun(first: nat, run: seq<Fs>) {
    |run| > 0 && forall k :: 0 < k < |run| ==> FsStep(first, run[k - 1], run[k])
  }

  /** In every state of every run of such stores and of truncations, also midway through a
      write, each block with its bit set is owned by exactly one slot of one inode. */
  lemma {:induction false} EveryStateOwned(first: nat, run: seq<Fs>, k: nat)
    requires IsRun(first, run) && FsOk(first, run[0]) && k < |run|
    ensures FsOk(first, run[k])
  {
    hide FsOk, FsStep;
    if k > 0 {
      EveryStateOwned(first, run, k - 1);
      StepKeepsOk(first, run[k - 1], run[k]);
    }
  }

  // ------------------------------------------------- a whole write, in steps

  ghost predicate DirectStep(first: nat, s: Fs, t: Fs, i: nat, k: nat) {
    && i < |s.inodes| && |s.inodes[i].addrs| == NDIRECT + 1 && k <= NDIRECT
    && ((AddrOf(s, i, k) != 0 && t == s) || exists b :: LinkStep(first, s, t, i, k, b))
  }

  ghost predicate WordStep(first: nat, s: Fs, t: Fs, i: nat, w: nat) {
    && i < |s.inodes| && |s.inodes[i].addrs| == NDIRECT + 1 && w < WORDS
    && ((AddrOf(s, i, 13 + w) != 0 && t == s) || exists b :: LinkWordStep(first, s, t, i, w, b))
  }

  /** bmap: the block of a file, allocated if need be, with the indirect block before it. */
  ghost predicate MapStep(first: nat, s: Fs, t: Fs, i: nat, bn: nat) {
    && bn < MAXFILE
    && if bn < NDIRECT then DirectStep(first, s, t, i, bn)
       else exists mid :: DirectStep(first, s, mid, i, NDIRECT) && WordStep(first, mid, t, i, bn - NDIRECT)
  }

  /** One turn of writei's loop: bmap, then the bytes that fit in the block. */
  ghost predicate ChunkStep(first: nat, s: Fs, t: Fs, i: nat, off: nat, src: seq<Byte>, mid: Fs) {
    && 0 < |src| && off % BSIZE + |src| <= BSIZE && off + |src| <= MAXBYTES
    && MapStep(first, s, mid, i, off / BSIZE) && Shape(mid) && i < |mid.inodes|
    && var a := AddrOf(mid, i, SlotOf(off / BSIZE));
       0 < a < |mid.blocks| && t == Stored(mid, a, Patched(mid.blocks[a], off % BSIZE, src))
  }

  /** The turn that writes the source from byte n on. */
  ghost predicate LastTurn(first: nat, s: Fs, t: Fs, i: nat, off: nat, src: seq<Byte>, n: nat, mid: Fs) {
    && n < |src| && (n == 0 || (off + n) % BSIZE == 0)
    && ChunkStep(first, s, t, i, off + n, src[n..], mid)
  }

  /** The loop of writei. */
  ghost predicate Writes(first: nat, s: Fs, t: Fs, i: nat, off: nat, src: seq<Byte>)
    decreases |src|
  {
    if src == [] then t == s && i < |s.inodes| else
    exists n: nat, before, mid ::
      LastTurn(first, before, t, i, off, src, n, mid) && Writes(first, s, before, i, off, src[..n])
  }

  lemma DirectGrows(first: nat, s: Fs, t: Fs, i: nat, k: nat)
    requires FsOk(first, s) && DirectStep(first, s, t, i, k)
    ensures OnlyGrows(first, s, t, i) && AddrOf(t, i, k) != 0
  {
    hide Owned, AddrOf, RawByte;
    if b :| LinkStep(first, s, t, i, k, b) {
      LinkedGrows(first, s, i, k, b);
    } else {
      GrowsRefl(first, s, i);
    }
  }

  lemma WordGrows(first: nat, s: Fs, t: Fs, i: nat, w: nat)
    requires FsOk(first, s) && WordStep(first, s, t, i, w)
    ensures OnlyGrows(first, s, t, i) && AddrOf(t, i, 13 + w) != 0
  {
    hide Owned, AddrOf, RawByte;
    if b :| LinkWordStep(first, s, t, i, w, b) {
      LinkedWordGrows(first, s, i, w, b);
    } else {
      GrowsRefl(first, s, i);
    }
  }

  lemma GrowsRefl(first: nat, s: Fs, i: nat)
    requires FsOk(first, s) && i < |s.inodes|
    ensures OnlyGrows(first, s, s, i)
  {
    hide Owned, AddrOf, RawByte;
    assert s.inodes == s.inodes[i := s.inodes[i]];
  }

  lemma WordNeedsIndirect(s: Fs, i: nat, w: nat)
    requires Shape(s) && i < |s.inodes| && w < WORDS && AddrOf(s, i, 13 + w) != 0
    ensures AddrOf(s, i, NDIRECT) != 0
  {
  }

  /** bmap keeps ownership and every byte, and changes nothing if the block is there. */
  lemma MapGrows(first: nat, s: Fs, t: Fs, i: nat, bn: nat)
    requires FsOk(first, s) && MapStep(first, s, t, i, bn)
    ensures OnlyGrows(first, s, t, i) && AddrOf(t, i, SlotOf(bn)) != 0
    ensures AddrOf(s, i, SlotOf(bn)) != 0 ==> t == s
  {
    hide Owned, RawByte, AddrOf;
    if bn < NDIRECT {
      DirectGrows(first, s, t, i, bn);
    } else {
      var w := bn - NDIRECT;
      var mid :| DirectStep(first, s, mid, i, NDIRECT) && WordStep(first, mid, t, i, w);
      DirectGrows(first, s, mid, i, NDIRECT);
      WordGrows(first, mid, t, i, w);
      GrowsTrans(first, s, mid, t, i);
      if AddrOf(s, i, 13 + w) != 0 {
        WordNeedsIndirect(s, i, w);
        assert IsSlot(s, i, 13 + w);
      }
    }
  }

  /** The steps of a write do what the write is for. */
  lemma {:induction false} WritesWrote(first: nat, s: Fs, t: Fs, i: nat, off: nat, src: seq<Byte>)
    requires FsOk(first, s) && Writes(first, s, t, i, off, src) && off + |src| <= MAXBYTES
    ensures Wrote(first, s, t, i, off, src)
    decreases |src|
  {
    hide Owned, RawByte, AddrOf, Wrote, MapStep;
    if src == [] {
      WroteNothing(first, s, i, off);
    } else {
      var n: nat, before, mid :|
        LastTurn(first, before, t, i, off, src, n, mid) && Writes(first, s, before, i, off, src[..n]);
      WritesWrote(first, s, before, i, off, src[..n]);
      WroteOk(first, s, before, i, off, src[..n]);
      MapGrows(first, before, mid, i, (off + n) / BSIZE);
      WroteChunk(first, before, mid, i, off + n, src[n..]);
      WroteMore(first, s, before, t, i, off, src[..n], src[n..]);
      assert src[..n] + src[n..] == src;
    }
  }

  lemma WroteOk(first: nat, s: Fs, t: Fs, i: nat, off: nat, src: seq<Byte>)
    requires Wrote(first, s, t, i, off, src)
    ensures FsOk(first, t) && i < |t.inodes|
  {
  }

  // ------------------------------------------------------------- whole calls

  ghost predicate WriteStep(first: nat, s: Fs, t: Fs, i: nat, off: nat, src: seq<Byte>, mid: Fs) {
    && i < |s.inodes| && src != [] && off <= s.inodes[i].size && off + |src| <= MAXBYTES
    && Writes(first, s, mid, i, off, src)
    && i < |mid.inodes| && i < |mid.dinodes| && t == Sized(mid, i, off + |src|)
  }

  /** A call of writei on file i. */
  ghost predicate WritesFile(first: nat, s: Fs, t: Fs, i: nat) {
    exists off, src, mid :: WriteStep(first, s, t, i, off, src, mid)
  }

  ghost predicate DropStep(s: Fs, t: Fs, i: nat) {
    Shape(s) && i < |s.inodes| && Dropped(s, t, i)
  }

  ghost predicate CallStep(first: nat, s: Fs, t: Fs) {
    || (exists i :: WritesFile(first, s, t, i))
    || (exists i :: FreeStep(s, t, i)) || (exists i :: DropStep(s, t, i))
  }

  ghost predicate Sound(first: nat, s: Fs) {
    FsOk(first, s) && Tidy(s) && Synced(s)
  }

  lemma CallSound(first: nat, s: Fs, t: Fs)
    requires Sound(first, s) && CallStep(first, s, t)
    ensures Sound(first, t) && |t.inodes| == |s.inodes| && |t.blocks| == |s.blocks|
  {
    hide Owned, InRange, AddrOf, RawByte, Tidy, Writes;
    if i :| WritesFile(first, s, t, i) {
      var off, src, mid :| WriteStep(first, s, t, i, off, src, mid);
      WritesWrote(first, s, mid, i, off, src);
      WriteRefines(first, s, mid, i, off, src);
    } else if i :| FreeStep(s, t, i) {
      FreedOk(first, s, t, i);
    } else {
      var i :| DropStep(s, t, i);
      DroppedOk(first, s, t, i);
    }
  }

  /** Between calls, over every run of writes, truncations and freed inodes, no file has a hole and the
      inodes on disk are up to date, although iupdate runs only when a file grows. */
  lemma {:induction false} EveryRunSound(first: nat, run: seq<Fs>, k: nat)
    requires k < |run| && Sound(first, run[0])
    requires forall i :: 0 < i < |run| ==> CallStep(first, run[i - 1], run[i])
    ensures Sound(first, run[k])
  {
    hide Sound, CallStep;
    if k > 0 {
      EveryRunSound(first, run, k - 1);
      CallSound(first, run[k - 1], run[k]);
    }
  }

  // --- the stores of a write are a run

  ghost predicate Leads(first: nat, s: Fs, t: Fs) {
    exists run :: IsRun(first, run) && run[0] == s && run[|run| - 1] == t
  }

  lemma LeadsOne(first: nat, s: Fs, t: Fs)
    requires s == t || FsStep(first, s, t)
    ensures Leads(first, s, t)
  {
    hide FsStep;
    assert s == t ==> IsRun(first, [s]);
    assert s != t ==> IsRun(first, [s, t]);
  }

  lemma LeadsOn(first: nat, s: Fs, t: Fs, u: Fs)
    requires Leads(first, s, t) && Leads(first, t, u)
    ensures Leads(first, s, u)
  {
    hide FsStep;
    var a :| IsRun(first, a) && a[0] == s && a[|a| - 1] == t;
    var b :| IsRun(first, b) && b[0] == t && b[|b| - 1] == u;
    var c := a + b[1..];
    assert forall k :: |a| <= k < |c| ==> c[k] == b[k - |a| + 1];
    assert IsRun(first, c) && c[0] == s && c[|c| - 1] == u;
  }

  lemma MapLeads(first: nat, s: Fs, t: Fs, i: nat, bn: nat)
    requires MapStep(first, s, t, i, bn)
    ensures Leads(first, s, t)
  {
    hide LinkStep, LinkWordStep, Leads, AddrOf;
    if bn < NDIRECT {
      LeadsOne(first, s, t);
    } else {
      var mid :| DirectStep(first, s, mid, i, NDIRECT) && WordStep(first, mid, t, i, bn - NDIRECT);
      LeadsOne(first, s, mid);
      LeadsOne(first, mid, t);
      LeadsOn(first, s, mid, t);
    }
  }

  lemma {:induction false} WritesLead(first: nat, s: Fs, t: Fs, i: nat, off: nat, src: seq<Byte>)
    requires Writes(first, s, t, i, off, src)
    ensures Leads(first, s, t)
    decreases |src|
  {
    hide Leads, MapStep, AddrOf;
    if src == [] {
      LeadsOne(first, s, t);
    } else {
      var n: nat, before, mid :|
        LastTurn(first, before, t, i, off, src, n, mid) && Writes(first, s, before, i, off, src[..n]);
      WritesLead(first, s, before, i, off, src[..n]);
      MapLeads(first, before, mid, i, (off + n) / BSIZE);
      LeadsOn(first, s, before, mid);
      var bn := (off + n) / BSIZE;
      var a := AddrOf(mid, i, SlotOf(bn));
      assert StoreStep(mid, t, i, bn, Patched(mid.blocks[a], (off + n) % BSIZE, src[n..]));
      LeadsOne(first, mid, t);
      LeadsOn(first, s, mid, t);
    }
  }

  /** So every state within a call of writei is one of EveryStateOwned's. */
  lemma WriteLeads(first: nat, s: Fs, t: Fs, i: nat, off: nat, src: seq<Byte>, mid: Fs)
    requires WriteStep(first, s, t, i, off, src, mid)
    ensures Leads(first, s, mid) && Leads(first, s, t)
  {
    hide Leads, Writes;
    WritesLead(first, s, mid, i, off, src);
    assert SizeStep(mid, t, i, off + |src|);
    LeadsOne(first, mid, t);
    LeadsOn(first, s, mid, t);
  }
}

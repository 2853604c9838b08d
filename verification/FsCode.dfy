/** fs.c: block allocation, bmap, itrunc, readi and writei, and file.c's filewrite. */
module FsCode {
  import opened Params
  import opened Lists
  import opened Blocks
  import opened Sets
  import opened Bitmap
  import opened FsSpec
  import opened FsDisk

  datatype Found = At(b: nat) | Panic

  /** What readi and writei return; `Device`: the call goes to the device switch. */
  datatype IoResult = Count(n: nat) | Fail | Device | Panicked

  ghost function UsedBits(m: seq<bv8>, first: nat, n: nat): set<nat>
    requires n <= 8 * |m|
  {
    set b | first <= b < n && Bit(m, b)
  }

  lemma ClearIsFree(m: seq<bv8>, first: nat, n: nat, b: nat)
    requires b < n <= 8 * |m| && !Bit(m, b)
    ensures b !in UsedBits(m, first, n)
  {
  }

  lemma UsedAfter(m: seq<bv8>, first: nat, n: nat, b: nat)
    requires first <= b < n <= 8 * |m|
    ensures UsedBits(SetBit(m, b), first, n) == UsedBits(m, first, n) + {b}
    ensures UsedBits(ClearBit(m, b), first, n) == UsedBits(m, first, n) - {b}
    ensures forall c :: 0 <= c < first && Bit(m, c) ==> Bit(SetBit(m, b), c) && Bit(ClearBit(m, b), c)
  {
    forall c | 0 <= c < n
      ensures Bit(SetBit(m, b), c) <==> (c == b || Bit(m, c))
      ensures Bit(ClearBit(m, b), c) <==> (c != b && Bit(m, c))
    {
      OneBit(m, b, c);
    }
  }

  predicate InBitmap(s: Fs, x: nat) {
    |s.inodes| / IPB + 3 <= x && x - (|s.inodes| / IPB + 3) <= (|s.blocks| - 1) / BPB
  }

  /** A sector that a write to blocks lo..hi of file i may log, other than the inode's. */
  ghost predicate MayLog(s: Fs, i: nat, lo: nat, hi: nat, x: nat)
    requires Shape(s) && i < |s.inodes|
  {
    || InBitmap(s, x)
    || (IsSlot(s, i, NDIRECT) && x == AddrOf(s, i, NDIRECT))
    || (exists bn :: lo <= bn <= hi && bn < MAXFILE && IsSlot(s, i, SlotOf(bn)) && x == AddrOf(s, i, SlotOf(bn)))
  }

  lemma MayLogKept(s: Fs, t: Fs, i: nat, lo: nat, hi: nat, lo': nat, hi': nat, x: nat)
    requires Shape(s) && Shape(t) && i < |s.inodes| && |t.inodes| == |s.inodes| && |t.blocks| == |s.blocks|
    requires forall k :: IsSlot(s, i, k) ==> AddrOf(t, i, k) == AddrOf(s, i, k)
    requires lo' <= lo && hi <= hi' && MayLog(s, i, lo, hi, x)
    ensures MayLog(t, i, lo', hi', x)
  {
    hide AddrOf;
    if bn :| lo <= bn <= hi && bn < MAXFILE && IsSlot(s, i, SlotOf(bn)) && x == AddrOf(s, i, SlotOf(bn)) {
      assert IsSlot(t, i, SlotOf(bn));
    }
    if IsSlot(s, i, NDIRECT) {
      assert IsSlot(t, i, NDIRECT);
    }
  }

  datatype FileResult = Written(n: nat) | MinusOne | PanicNoBlocks

  lemma SpliceTwice(c: seq<Byte>, off: nat, addr: seq<Byte>, k: nat, n: nat)
    requires off <= |c| && k + n <= |addr|
    ensures off + k <= |Splice(c, off, addr[..k])| && off + k + n <= |Splice(c, off, addr[..k + n])|
    ensures Splice(Splice(c, off, addr[..k]), off + k, addr[k..k + n]) == Splice(c, off, addr[..k + n])
  {
    hide Splice;
    var d := Splice(c, off, addr[..k]);
    SpliceAt(c, off, addr[..k]);
    SpliceAt(d, off + k, addr[k..k + n]);
    SpliceAt(c, off, addr[..k + n]);
  }

  /** A turn of the write loop at byte tot of n logs what the whole write may. */
  lemma MoreLogged(t: Fs, u: Fs, i: nat, off: nat, n: nat, tot: nat, old': set<nat>, l: set<nat>, logged: set<nat>)
    requires Shape(t) && Shape(u) && i < |t.inodes| && |u.inodes| == |t.inodes| && |u.blocks| == |t.blocks|
    requires forall k :: IsSlot(t, i, k) ==> AddrOf(u, i, k) == AddrOf(t, i, k)
    requires tot < n && forall x :: x in l && x !in old' ==> MayLog(t, i, off / BSIZE, (off + n - 1) / BSIZE, x)
    requires forall x :: x in logged && x !in l ==> MayLog(u, i, (off + tot) / BSIZE, (off + tot) / BSIZE, x)
    ensures forall x :: x in logged && x !in old' ==> MayLog(u, i, off / BSIZE, (off + n - 1) / BSIZE, x)
  {
    hide MayLog, AddrOf;
    var lo, hi, bn := off / BSIZE, (off + n - 1) / BSIZE, (off + tot) / BSIZE;
    forall x | x in logged && x !in old'
      ensures MayLog(u, i, lo, hi, x)
    {
      if x in l {
        MayLogKept(t, u, i, lo, hi, lo, hi, x);
      } else {
        MayLogKept(u, u, i, bn, bn, lo, hi, x);
      }
    }
  }

  /** A chunk of at most 1536 bytes touches at most four blocks, so with a one-block bitmap a
      transaction logs at most seven sectors: those, the bitmap, the indirect block and the
      inode. */
  lemma SevenSectors(s: Fs, i: nat, off: nat, n: nat, logged: set<nat>, iblock: nat)
    requires Shape(s) && i < |s.inodes| && 0 < n <= 3 * BSIZE && |s.blocks| <= BPB
    requires forall x :: x in logged ==> x == iblock || MayLog(s, i, off / BSIZE, (off + n - 1) / BSIZE, x)
    ensures |logged| <= 7
  {
    hide MayLog, AddrOf, BlockAt;
    var lo := off / BSIZE;
    var all := {iblock, |s.inodes| / IPB + 3, AddrOf(s, i, NDIRECT),
                BlockAt(s, i, lo), BlockAt(s, i, lo + 1), BlockAt(s, i, lo + 2), BlockAt(s, i, lo + 3)};
    forall x | x in logged
      ensures x in all
    {
      if x != iblock {
        OneOfSix(s, i, off, n, x);
      }
    }
    SubsetSize(logged, all);
  }

  lemma TwoSectors(s: Fs, logged: set<nat>, iblock: nat)
    requires |s.blocks| <= BPB && forall x :: x in logged ==> x == iblock || InBitmap(s, x)
    ensures |logged| <= 2
  {
    SubsetSize(logged, {iblock, |s.inodes| / IPB + 3});
  }

  lemma BitInBitmap(s: Fs, b: nat)
    requires b < |s.blocks|
    ensures InBitmap(s, BitmapSector(|s.inodes|, b))
  {
    assert b / BPB <= (|s.blocks| - 1) / BPB;
  }

  function BlockAt(s: Fs, i: nat, bn: nat): nat
    requires Shape(s) && i < |s.inodes|
  {
    if bn < MAXFILE then AddrOf(s, i, SlotOf(bn)) else 0
  }

  lemma OneOfSix(s: Fs, i: nat, off: nat, n: nat, x: nat)
    requires Shape(s) && i < |s.inodes| && 0 < n <= 3 * BSIZE && |s.blocks| <= BPB
    requires MayLog(s, i, off / BSIZE, (off + n - 1) / BSIZE, x)
    ensures var lo := off / BSIZE;
            || x == |s.inodes| / IPB + 3 || x == AddrOf(s, i, NDIRECT) || x == BlockAt(s, i, lo)
            || x == BlockAt(s, i, lo + 1) || x == BlockAt(s, i, lo + 2) || x == BlockAt(s, i, lo + 3)
  {
    hide AddrOf;
    var lo := off / BSIZE;
    assert (off + n - 1) / BSIZE <= lo + 3;
    if bn :| && lo <= bn <= (off + n - 1) / BSIZE && bn < MAXFILE && IsSlot(s, i, SlotOf(bn))
             && x == AddrOf(s, i, SlotOf(bn)) {
      assert x == BlockAt(s, i, bn);
      assert bn == lo || bn == lo + 1 || bn == lo + 2 || bn == lo + 3;
    }
  }

  /** The slots whose blocks itrunc has freed: the first d, the first w words of the indirect
      block, and, if e, the indirect block. */
  predicate Done(k: nat, d: nat, w: nat, e: bool) {
    k < d || 13 <= k < 13 + w || (e && k == NDIRECT)
  }

  ghost predicate FreedIs(s: Fs, i: nat, d: nat, w: nat, e: bool, freed: seq<nat>)
    requires Shape(s) && i < |s.inodes|
  {
    && (forall b :: b in freed <==> exists k :: Done(k, d, w, e) && IsSlot(s, i, k) && AddrOf(s, i, k) == b)
    && NoneTwice(freed)
  }

  /** The addrs of an inode whose first d entries, and the last if e, are zero. */
  function Cut(addrs: seq<nat>, d: nat, e: bool): seq<nat> {
    seq(|addrs|, k requires 0 <= k < |addrs| => if k < d || (e && k == NDIRECT) then 0 else addrs[k])
  }

  /** Midway through itrunc of inode i of s. */
  ghost predicate FreedTo(s: Fs, t: Fs, i: nat, d: nat, w: nat, e: bool, freed: seq<nat>)
    requires Shape(s) && i < |s.inodes|
  {
    && t.blocks == s.blocks && t.dinodes == s.dinodes
    && t.inodes == s.inodes[i := s.inodes[i].(addrs := Cut(s.inodes[i].addrs, d, e))]
    && (forall b :: b in t.used <==> b in s.used && b !in freed)
    && FreedIs(s, i, d, w, e, freed)
  }

  lemma FreedNone(s: Fs, i: nat)
    requires Shape(s) && i < |s.inodes|
    ensures FreedIs(s, i, 0, 0, false, [])
  {
  }

  /** The block of the next slot, if any, is in use and not freed yet. */
  lemma FreeNext(first: nat, s: Fs, i: nat, k: nat, d: nat, w: nat, e: bool, d': nat, w': nat, e': bool,
                 freed: seq<nat>)
    requires FsOk(first, s) && i < |s.inodes| && k < SLOTS && FreedIs(s, i, d, w, e, freed) && !Done(k, d, w, e)
    requires forall x: nat :: x < SLOTS ==> (Done(x, d', w', e') <==> Done(x, d, w, e) || x == k)
    ensures var a := AddrOf(s, i, k);
            if a == 0 then FreedIs(s, i, d', w', e', freed)
            else a in s.used && a !in freed && first <= a < |s.blocks| && FreedIs(s, i, d', w', e', freed + [a])
  {
    hide AddrOf, Done;
    var a := AddrOf(s, i, k);
    var all := if a == 0 then freed else freed + [a];
    if a != 0 {
      assert IsSlot(s, i, k);
    }
    forall b
      ensures b in all <==> exists x :: Done(x, d', w', e') && IsSlot(s, i, x) && AddrOf(s, i, x) == b
    {
      if b in freed {
        var x :| Done(x, d, w, e) && IsSlot(s, i, x) && AddrOf(s, i, x) == b;
        assert Done(x, d', w', e');
      } else if a != 0 && b == a {
        assert Done(k, d', w', e');
      }
      if x :| Done(x, d', w', e') && IsSlot(s, i, x) && AddrOf(s, i, x) == b {
        assert x == k || Done(x, d, w, e);
      }
    }
  }

  lemma DirectAddr(s: Fs, i: nat, k: nat)
    requires Shape(s) && i < |s.inodes| && k <= NDIRECT
    ensures AddrOf(s, i, k) == s.inodes[i].addrs[k]
  {
  }

  lemma WordAddr(s: Fs, i: nat, w: nat)
    requires Shape(s) && i < |s.inodes| && w < WORDS && 0 < s.inodes[i].addrs[NDIRECT] < |s.blocks|
    ensures AddrOf(s, i, 13 + w) == WordAt(s.blocks[s.inodes[i].addrs[NDIRECT]], w)
  {
  }

  lemma NoIndirect(s: Fs, i: nat, freed: seq<nat>)
    requires Shape(s) && i < |s.inodes| && s.inodes[i].addrs[NDIRECT] == 0
    requires FreedIs(s, i, NDIRECT, 0, false, freed)
    ensures FreedIs(s, i, NDIRECT, WORDS, true, freed)
  {
    forall k | Done(k, NDIRECT, WORDS, true) && IsSlot(s, i, k)
      ensures Done(k, NDIRECT, 0, false)
    {
    }
    forall b | b in freed
      ensures exists k :: Done(k, NDIRECT, WORDS, true) && IsSlot(s, i, k) && AddrOf(s, i, k) == b
    {
      var k :| Done(k, NDIRECT, 0, false) && IsSlot(s, i, k) && AddrOf(s, i, k) == b;
      assert Done(k, NDIRECT, WORDS, true);
    }
  }

  lemma AllFreed(s: Fs, i: nat, freed: seq<nat>)
    requires Shape(s) && i < |s.inodes| && FreedIs(s, i, NDIRECT, WORDS, true, freed)
    ensures forall b :: b in freed <==> InSlots(s, i, 0, SLOTS, b)
    ensures NoneTwice(freed)
  {
    hide AddrOf;
    forall b
      ensures b in freed <==> InSlots(s, i, 0, SLOTS, b)
    {
      if InSlots(s, i, 0, SLOTS, b) {
        var k: nat :| 0 <= k < SLOTS && IsSlot(s, i, k) && AddrOf(s, i, k) == b;
        assert Done(k, NDIRECT, WORDS, true);
      }
    }
  }

  lemma BlockOf(first: nat, s: Fs, i: nat, bn: nat)
    requires FsOk(first, s) && i < |s.inodes| && bn < MAXFILE && AddrOf(s, i, SlotOf(bn)) != 0
    ensures first <= AddrOf(s, i, SlotOf(bn)) < |s.blocks|
  {
    assert IsSlot(s, i, SlotOf(bn));
    assert AddrOf(s, i, SlotOf(bn)) in s.used;
  }

  lemma BytesOfBlock(first: nat, s: Fs, i: nat, o: nat, m: nat)
    requires FsOk(first, s) && i < |s.inodes| && o + m <= s.inodes[i].size && o % BSIZE + m <= BSIZE && 0 < m
    requires AddrOf(s, i, SlotOf(o / BSIZE)) != 0
    ensures AddrOf(s, i, SlotOf(o / BSIZE)) < |s.blocks|
    ensures s.blocks[AddrOf(s, i, SlotOf(o / BSIZE))][o % BSIZE..o % BSIZE + m] == Contents(s, i)[o..o + m]
  {
    hide Owned, AddrOf, RawByte, InRange;
    BlockOf(first, s, i, o / BSIZE);
    var a := AddrOf(s, i, SlotOf(o / BSIZE));
    var g, h := s.blocks[a][o % BSIZE..o % BSIZE + m], Contents(s, i)[o..o + m];
    forall x | 0 <= x < m
      ensures g[x] == h[x]
    {
      SameBlock(o, x);
      ByteOfBlock(first, s, i, o + x);
      assert h[x] == Contents(s, i)[o + x];
    }
  }

  lemma SameBlock(o: nat, x: nat)
    requires o % BSIZE + x < BSIZE
    ensures (o + x) / BSIZE == o / BSIZE && (o + x) % BSIZE == o % BSIZE + x
  {
  }

  lemma ByteOfBlock(first: nat, s: Fs, i: nat, o: nat)
    requires FsOk(first, s) && i < |s.inodes| && o < MAXBYTES && AddrOf(s, i, SlotOf(o / BSIZE)) != 0
    ensures AddrOf(s, i, SlotOf(o / BSIZE)) < |s.blocks|
    ensures RawByte(s, i, o) == s.blocks[AddrOf(s, i, SlotOf(o / BSIZE))][o % BSIZE]
  {
    BlockOf(first, s, i, o / BSIZE);
  }

  lemma SpliceNothing(c: seq<Byte>, off: nat)
    requires off <= |c|
    ensures Splice(c, off, []) == c
  {
  }

  lemma WroteInodes(first: nat, s: Fs, t: Fs, i: nat, off: nat, src: seq<Byte>)
    requires Wrote(first, s, t, i, off, src)
    ensures |t.blocks| == |s.blocks| && |t.dinodes| == |t.inodes| == |s.inodes| && i < |s.inodes|
    ensures t.inodes == s.inodes[i := s.inodes[i].(addrs := t.inodes[i].addrs)] && t.dinodes == s.dinodes
  {
    hide Owned, RawByte, AddrOf;
  }

  /** Setting the size moves no sector that a write may log. */
  lemma SizedLogs(first: nat, t: Fs, i: nat, end: nat, lo: nat, hi: nat)
    requires FsOk(first, t) && i < |t.inodes| && end <= MAXBYTES
    ensures Shape(Sized(t, i, end))
    ensures forall x :: MayLog(t, i, lo, hi, x) ==> MayLog(Sized(t, i, end), i, lo, hi, x)
  {
    hide Owned, MayLog, AddrOf, RawByte;
    SizedOk(first, t, i, end);
    forall x | MayLog(t, i, lo, hi, x)
      ensures MayLog(Sized(t, i, end), i, lo, hi, x)
    {
      MayLogKept(t, Sized(t, i, end), i, lo, hi, lo, hi, x);
    }
  }

  lemma WroteKeepsSlots(first: nat, t: Fs, u: Fs, i: nat, off: nat, src: seq<Byte>)
    requires Wrote(first, t, u, i, off, src)
    ensures |u.inodes| == |t.inodes| && |u.blocks| == |t.blocks|
    ensures forall k :: IsSlot(t, i, k) ==> AddrOf(u, i, k) == AddrOf(t, i, k)
  {
    hide Owned, RawByte, AddrOf;
  }

  lemma SlotsKept(first: nat, t: Fs, i: nat, off: nat, src: seq<Byte>)
    requires FsOk(first, t) && i < |t.inodes| && off / BSIZE < MAXFILE && AddrOf(t, i, SlotOf(off / BSIZE)) != 0
    requires off % BSIZE + |src| <= BSIZE
    ensures var a := AddrOf(t, i, SlotOf(off / BSIZE));
            && a < |t.blocks|
            && var u := Stored(t, a, Patched(t.blocks[a], off % BSIZE, src));
               && FsOk(first, u)
               && (forall k :: 0 <= k < SLOTS ==> AddrOf(u, i, k) == AddrOf(t, i, k))
               && IsSlot(u, i, SlotOf(off / BSIZE))
  {
    hide Owned, AddrOf;
    var a := AddrOf(t, i, SlotOf(off / BSIZE));
    assert IsSlot(t, i, SlotOf(off / BSIZE));
    StoredOk(first, t, i, SlotOf(off / BSIZE), Zeroes());
    StoredOk(first, t, i, SlotOf(off / BSIZE), Patched(t.blocks[a], off % BSIZE, src));
  }

  lemma IndirectInUse(first: nat, s: Fs, i: nat)
    requires FsOk(first, s) && IsSlot(s, i, NDIRECT)
    ensures first <= s.inodes[i].addrs[NDIRECT] < |s.blocks|
  {
    assert AddrOf(s, i, NDIRECT) in s.used;
  }

  lemma GrowsOk(first: nat, s: Fs, t: Fs, i: nat)
    requires OnlyGrows(first, s, t, i)
    ensures FsOk(first, t)
  {
  }

  lemma NoTurns(first: nat, s: Fs, i: nat, off: nat)
    requires i < |s.inodes|
    ensures Writes(first, s, s, i, off, [])
  {
  }

  lemma OneMoreTurn(first: nat, s: Fs, t: Fs, u: Fs, i: nat, off: nat, src: seq<Byte>, tot: nat, at: nat, m: nat,
                    part: seq<Byte>)
    requires tot + m <= |src| && 0 < m && Writes(first, s, t, i, off, src[..tot])
    requires (tot == 0 || at % BSIZE == 0) && at == off + tot && part == src[tot..][..m]
    requires exists mid :: ChunkStep(first, t, u, i, at, part, mid)
    ensures Writes(first, s, u, i, off, src[..tot + m])
  {
    hide ChunkStep;
    var all := src[..tot + m];
    var mid :| ChunkStep(first, t, u, i, at, part, mid);
    assert all[..tot] == src[..tot] && all[tot..] == src[tot..][..m];
    assert LastTurn(first, t, u, i, off, all, tot, mid);
  }

  lemma TransactsNone(first: nat, s: Fs, i: nat, off: nat, addr: seq<Byte>)
    requires Sound(first, s) && Layout(first, |s.inodes|, |s.blocks|) && i < |s.inodes|
    ensures FileAfter(first, s, s, i, off, addr, 0) && Transacts(first, [s], [], i, off, addr)
  {
    hide Owned, InRange, Tidy, Contents;
  }

  lemma FileAfterIs(first: nat, s: Fs, t: Fs, i: nat, off: nat, addr: seq<Byte>, k: nat)
    requires FileAfter(first, s, t, i, off, addr, k)
    ensures Shape(s) && Shape(t) && |t.inodes| == |s.inodes| && i < |s.inodes| && k <= |addr|
    ensures k > 0 ==> off <= s.inodes[i].size
    ensures Contents(t, i) == if k == 0 then Contents(s, i) else Splice(Contents(s, i), off, addr[..k])
    ensures forall j :: 0 <= j < |s.inodes| && j != i ==> Contents(t, j) == Contents(s, j)
  {
    hide Owned, InRange, Tidy, Contents, Splice;
  }

  /** A chunk more of the file. */
  lemma OneChunkOn(first: nat, s: Fs, t: Fs, u: Fs, i: nat, off: nat, addr: seq<Byte>, k: nat, n: nat)
    requires FileAfter(first, s, t, i, off, addr, k) && 0 < n && k + n <= |addr| && off + k <= t.inodes[i].size
    requires Sound(first, u) && |u.inodes| == |t.inodes| && |u.blocks| == |t.blocks|
    requires Contents(u, i) == Splice(Contents(t, i), off + k, addr[k..k + n])
    requires forall j :: 0 <= j < |t.inodes| && j != i ==> Contents(u, j) == Contents(t, j)
    ensures FileAfter(first, s, u, i, off, addr, k + n) && off + k + n <= u.inodes[i].size
  {
    hide Owned, InRange, Tidy, RawByte, Splice;
    SpliceTwice(Contents(s, i), off, addr, k, n);
    if k == 0 {
      assert addr[..k + n] == addr[k..k + n];
      SpliceAt(Contents(t, i), off + k, addr[k..k + n]);
    }
  }

  class FileSys {
    /** The first data block; those below it hold metadata and are always marked. */
    const first: nat
    var bitmap: seq<bv8>
    var blocks: seq<Block>
    var inodes: seq<Inode>
    var dinodes: seq<Inode>
    /** Sectors passed to log_write since begin_trans. */
    ghost var logged: set<nat>
    /** The disk at begin_trans, and what has been passed to log_write since, in order. */
    ghost var start: seq<Payload>
    ghost var writes: seq<Entry>

    ghost predicate MapOk()
      reads this
    {
      |blocks| <= 8 * |bitmap| && first <= |blocks| && forall b :: 0 <= b < first ==> Bit(bitmap, b)
    }

    ghost function S(): Fs
      reads this
      requires MapOk()
    {
      Fs(UsedBits(bitmap, first, |blocks|), blocks, inodes, dinodes)
    }

    ghost predicate Valid()
      reads this
    {
      MapOk() && Layout(first, |inodes|, |blocks|) && FsOk(first, S())
    }

    /** Every change since begin_trans to a block of the disk has been passed to log_write. */
    ghost predicate Tracked()
      reads this
    {
      && MapOk() && Layout(first, |inodes|, |blocks|)
      && OnDisk(first, S()) == Applied(start, writes)
      && forall e :: e in writes ==> e.sector in logged && e.sector < |blocks|
    }

    ghost method FreshTransaction()
      requires Valid() && logged == {} && start == OnDisk(first, S()) && writes == []
      ensures Tracked()
    {
      hide OnDisk;
    }

    /** What a chunk's log_writes come to. */
    ghost method ChunkLogs(s: Fs)
      requires Tracked() && start == OnDisk(first, s) && |s.blocks| == |blocks| && writes != [] && |logged| <= 7
      ensures Logs(first, s, S(), writes)
    {
      hide OnDisk, Applied;
      SubsetSize(Sectors(writes), logged);
    }

    /** log_write of sector x, the only one that has changed since s. */
    ghost method LogWrite(s: Fs, x: nat)
      requires MapOk() && OnlySector(first, s, S(), x) && x < |blocks|
      modifies this`logged, this`writes
      ensures logged == old(logged) + {x} && writes == old(writes) + [Entry(x, SectorOf(first, S(), x))]
      ensures OnDisk(first, s) == Applied(start, old(writes)) ==> OnDisk(first, S()) == Applied(start, writes)
      ensures (forall e :: e in old(writes) ==> e.sector in old(logged) && e.sector < |blocks|) ==>
                forall e :: e in writes ==> e.sector in logged && e.sector < |blocks|
    {
      if OnDisk(first, s) == Applied(start, writes) {
        LoggedSector(first, s, S(), x, start, writes);
      }
      logged, writes := logged + {x}, writes + [Entry(x, SectorOf(first, S(), x))];
    }

    /** No block is left; balloc panics only then. */
    ghost predicate Full()
      reads this
    {
      |blocks| <= 8 * |bitmap| && forall b :: 0 <= b < |blocks| ==> Bit(bitmap, b)
    }

    function Bblock(b: nat): nat
      reads this
    {
      BitmapSector(|inodes|, b)
    }

    function Iblock(i: nat): nat {
      InodeSector(i)
    }

    /** fs.c:52-76: the first clear bit, set; its block, zeroed. */
    method Balloc() returns (r: Found)
      requires MapOk() && Layout(first, |inodes|, |blocks|)
      modifies this`bitmap, this`blocks, this`logged, this`writes
      ensures MapOk() && (old(Tracked()) ==> Tracked())
      ensures r == Panic ==> S() == old(S()) && Full()
      ensures |writes| >= |old(writes)|
      ensures r.At? ==>
                && first <= r.b < |blocks| == |old(blocks)| && r.b !in old(S()).used
                && (forall c :: 0 <= c < r.b ==> Bit(old(bitmap), c))
                && S() == old(S()).(used := old(S()).used + {r.b}, blocks := old(blocks)[r.b := Zeroes()])
                && logged == old(logged) + {Bblock(r.b), r.b}
    {
      hide OnDisk, Applied, Tracked, Layout, UsedBits, Bit, BitmapSector;
      var b := 0;
      while b < |blocks|
        invariant bitmap == old(bitmap) && blocks == old(blocks) && logged == old(logged) && writes == old(writes)
        invariant b % BPB == 0
        invariant forall c :: 0 <= c < b && c < |blocks| ==> Bit(bitmap, c)
      {
        var bi := 0;
        while bi < BPB && b + bi < |blocks|
          invariant 0 <= bi <= BPB && bitmap == old(bitmap) && blocks == old(blocks)
          invariant logged == old(logged) && writes == old(writes)
          invariant forall c :: 0 <= c < b + bi && c < |blocks| ==> Bit(bitmap, c)
        {
          if !Bit(bitmap, b + bi) {
            ClearIsFree(bitmap, first, |blocks|, b + bi);
            TakeBlock(b + bi);
            return At(b + bi);
          }
          bi := bi + 1;
        }
        b := b + BPB;
      }
      return Panic;
    }

    /** A change to a block's buffer, and its log_write. */
    method PutBlock(b: nat, data: Block)
      requires MapOk() && first <= b < |blocks|
      modifies this`blocks, this`logged, this`writes
      ensures MapOk() && (old(Tracked()) ==> Tracked())
      ensures S() == Stored(old(S()), b, data) && blocks == old(blocks)[b := data] && logged == old(logged) + {b}
      ensures |writes| > |old(writes)|
    {
      hide OnlySector, Bit, Layout, OnDisk, Applied, UsedBits, SectorOf;
      ghost var s := S();
      BlockSector(first, s, b, data);
      blocks := blocks[b := data];
      LogWrite(s, b);
    }

    /** A change to an inode in memory. */
    method SetInode(i: nat, n: Inode)
      requires MapOk() && i < |inodes|
      modifies this`inodes
      ensures MapOk() && (old(Tracked()) ==> Tracked())
      ensures S() == old(S()).(inodes := inodes) && inodes == old(inodes)[i := n]
    {
      hide Bit, Layout, OnDisk, Applied, UsedBits;
      MemorySector(first, S(), inodes[i := n]);
      inodes := inodes[i := n];
    }

    /** fs.c:64-69: a clear bit is set and its block zeroed. */
    method TakeBlock(b: nat)
      requires MapOk() && Layout(first, |inodes|, |blocks|) && first <= b < |blocks|
      modifies this`bitmap, this`blocks, this`logged, this`writes
      ensures MapOk() && (old(Tracked()) ==> Tracked())
      ensures S() == old(S()).(used := old(S()).used + {b}, blocks := old(blocks)[b := Zeroes()])
      ensures |blocks| == |old(blocks)| && logged == old(logged) + {Bblock(b), b} && |writes| > |old(writes)|
    {
      hide OnlySector, Bit, SetBit, Layout, BitmapSector, OnDisk, Applied, UsedBits, SectorOf;
      ghost var s := S();
      UsedAfter(bitmap, first, |blocks|, b);
      BitSector(first, s, b);
      bitmap := SetBit(bitmap, b);
      LogWrite(s, Bblock(b));
      PutBlock(b, Zeroes());
    }

    /** fs.c:79-95; `ok` is false where the code panics "freeing free block". */
    method Bfree(b: nat) returns (ok: bool)
      requires MapOk() && Layout(first, |inodes|, |blocks|) && first <= b < |blocks|
      modifies this`bitmap, this`logged, this`writes
      ensures MapOk() && (old(Tracked()) ==> Tracked()) && ok == (b in old(S()).used)
      ensures ok ==> S() == old(S()).(used := old(S()).used - {b}) && logged == old(logged) + {Bblock(b)}
      ensures !ok ==> S() == old(S()) && logged == old(logged)
    {
      hide OnlySector, ClearBit, Layout, BitmapSector, OnDisk, Applied, SectorOf;
      ok := Bit(bitmap, b);
      if ok {
        ghost var s := S();
        UsedAfter(bitmap, first, |blocks|, b);
        BitSector(first, s, b);
        bitmap := ClearBit(bitmap, b);
        LogWrite(s, Bblock(b));
      }
    }

    /** bmap for the first 12 blocks and for the indirect block itself, fs.c:363-364 and
        371-372. */
    method BmapDirect(i: nat, k: nat) returns (r: Found)
      requires Valid() && i < |inodes| && k <= NDIRECT
      modifies this
      ensures AddrOf(old(S()), i, k) != 0 ==> r.At?
      ensures r == Panic ==> Full()
      ensures start == old(start) && |writes| >= |old(writes)|
      ensures r.At? ==>
                && Valid() && DirectStep(first, old(S()), S(), i, k) && (old(Tracked()) ==> Tracked())
                && OnlyGrows(first, old(S()), S(), i) && r.b == AddrOf(S(), i, k) != 0
                && (AddrOf(old(S()), i, k) != 0 ==> S() == old(S()) && logged == old(logged))
                && (forall x :: x in logged && x !in old(logged) ==> x == r.b || InBitmap(S(), x))
    {
      hide Owned, RawByte, Tracked, Layout, UsedBits, Bit;
      ghost var s := S();
      var addr := inodes[i].addrs[k];
      if addr == 0 {
        r := Balloc();
        if r == Panic {
          return;
        }
        LinkedGrows(first, s, i, k, r.b);
        SetInode(i, inodes[i].(addrs := inodes[i].addrs[k := r.b]));
        assert S() == Linked(s, i, k, r.b);
        assert LinkStep(first, s, S(), i, k, r.b);
      } else {
        GrowsRefl(first, s, i);
        r := At(addr);
      }
    }

    /** bmap's indirect half once the indirect block exists, fs.c:373-380. */
    method BmapWord(i: nat, w: nat) returns (r: Found)
      requires Valid() && IsSlot(S(), i, NDIRECT) && w < WORDS
      modifies this
      ensures AddrOf(old(S()), i, 13 + w) != 0 ==> r.At?
      ensures r == Panic ==> Full()
      ensures start == old(start) && |writes| >= |old(writes)|
      ensures r.At? ==>
                && Valid() && WordStep(first, old(S()), S(), i, w) && (old(Tracked()) ==> Tracked())
                && OnlyGrows(first, old(S()), S(), i) && r.b == AddrOf(S(), i, 13 + w) != 0
                && (AddrOf(old(S()), i, 13 + w) != 0 ==> S() == old(S()) && logged == old(logged))
                && (forall x :: x in logged && x !in old(logged) ==>
                      x == r.b || x == AddrOf(S(), i, NDIRECT) || InBitmap(S(), x))
    {
      hide Owned, RawByte, Tracked, Layout, UsedBits, Bit, OnlyGrows;
      ghost var s := S();
      var addr := inodes[i].addrs[NDIRECT];
      IndirectInUse(first, s, i);
      var a := WordAt(blocks[addr], w);
      if a == 0 {
        r := Balloc();
        if r == Panic {
          return;
        }
        LinkedWordGrows(first, s, i, w, r.b);
        GrowsOk(first, s, LinkedWord(s, i, w, r.b), i);
        PutBlock(addr, SetWord(blocks[addr], w, r.b));
        assert S() == LinkedWord(s, i, w, r.b);
        assert LinkWordStep(first, s, S(), i, w, r.b);
      } else {
        GrowsRefl(first, s, i);
        r := At(a);
      }
    }

    /** bmap, fs.c:356-384. */
    method Bmap(i: nat, bn: nat) returns (r: Found)
      requires Valid() && i < |inodes|
      modifies this
      ensures bn >= MAXFILE ==> r == Panic
      ensures bn < MAXFILE && r == Panic ==> Full()
      ensures start == old(start) && |writes| >= |old(writes)|
      ensures bn < MAXFILE && AddrOf(old(S()), i, SlotOf(bn)) != 0 ==> r.At?
      ensures r.At? ==>
                && Valid() && MapStep(first, old(S()), S(), i, bn) && (old(Tracked()) ==> Tracked())
                && OnlyGrows(first, old(S()), S(), i) && r.b == AddrOf(S(), i, SlotOf(bn)) != 0
                && (AddrOf(old(S()), i, SlotOf(bn)) != 0 ==> S() == old(S()) && logged == old(logged))
                && (forall x :: x in logged && x !in old(logged) ==> MayLog(S(), i, bn, bn, x))
    {
      hide Owned, RawByte, Tracked, Layout, DirectStep, WordStep;
      if bn < NDIRECT {
        r := BmapDirect(i, bn);
        return;
      }
      if bn >= MAXFILE {
        return Panic;
      }
      ghost var s := S();
      if AddrOf(s, i, SlotOf(bn)) != 0 {
        WordNeedsIndirect(s, i, bn - NDIRECT);
      }
      r := BmapDirect(i, NDIRECT);
      if r == Panic {
        return;
      }
      ghost var t := S();
      assert IsSlot(t, i, NDIRECT);
      r := BmapWord(i, bn - NDIRECT);
      if r.At? {
        GrowsTrans(first, s, t, S(), i);
      }
    }

    /** One pass of writei's loop, fs.c:480-484: as many of the bytes as fit in one block. */
    method WriteBlock(i: nat, src: seq<Byte>, off: nat) returns (m: nat, ok: bool)
      requires Valid() && i < |inodes| && src != [] && off + |src| <= MAXBYTES
      modifies this
      ensures m == if |src| < BSIZE - off % BSIZE then |src| else BSIZE - off % BSIZE
      ensures !ok ==> Full()
      ensures start == old(start) && |writes| >= |old(writes)|
      ensures ok ==>
                && Valid() && (old(Tracked()) ==> Tracked()) && |writes| > |old(writes)|
                && (exists mid :: ChunkStep(first, old(S()), S(), i, off, src[..m], mid))
                && Wrote(first, old(S()), S(), i, off, src[..m])
                && (forall x :: x in logged && x !in old(logged) ==> MayLog(S(), i, off / BSIZE, off / BSIZE, x))
    {
      hide Owned, RawByte, Wrote, AddrOf, Tracked, Layout, MapStep;
      ghost var s, l := S(), logged;
      m := if |src| < BSIZE - off % BSIZE then |src| else BSIZE - off % BSIZE;
      var a := Bmap(i, off / BSIZE);
      if a == Panic {
        return m, false;
      }
      ghost var t := S();
      WroteChunk(first, s, t, i, off, src[..m]);
      SlotsKept(first, t, i, off, src[..m]);
      BlockOf(first, t, i, off / BSIZE);
      PutBlock(a.b, Patched(blocks[a.b], off % BSIZE, src[..m]));
      ghost var u := S();
      assert u == Stored(t, a.b, Patched(t.blocks[a.b], off % BSIZE, src[..m]));
      forall x | x in logged && x !in l
        ensures MayLog(u, i, off / BSIZE, off / BSIZE, x)
      {
        MayLogKept(t, u, i, off / BSIZE, off / BSIZE, off / BSIZE, off / BSIZE, x);
      }
      assert ChunkStep(first, s, u, i, off, src[..m], t);
      ok := true;
    }

    /** The loop of writei, fs.c:479-485. */
    method WriteLoop(i: nat, src: seq<Byte>, off: nat) returns (ok: bool)
      requires Valid() && i < |inodes| && off + |src| <= MAXBYTES
      modifies this
      ensures !ok ==> Full()
      ensures start == old(start) && |writes| >= |old(writes)|
      ensures ok ==>
                && Valid() && (old(Tracked()) ==> Tracked()) && Writes(first, old(S()), S(), i, off, src)
                && (src != [] ==> |writes| > |old(writes)|)
                && Wrote(first, old(S()), S(), i, off, src)
                && (forall x :: x in logged && x !in old(logged) ==>
                      src != [] && MayLog(S(), i, off / BSIZE, (off + |src| - 1) / BSIZE, x))
    {
      hide Owned, RawByte, Wrote, AddrOf, MayLog, Tracked, Layout, ChunkStep, Writes, UsedBits, Bit;
      ghost var s := S();
      WroteNothing(first, s, i, off);
      NoTurns(first, s, i, off);
      var tot := 0;
      while tot < |src|
        invariant 0 <= tot <= |src| && Valid() && i < |inodes|
        invariant Wrote(first, s, S(), i, off, src[..tot]) && Writes(first, s, S(), i, off, src[..tot])
        invariant start == old(start) && (old(Tracked()) ==> Tracked())
        invariant |writes| >= |old(writes)| && (tot > 0 ==> |writes| > |old(writes)|)
        invariant tot == 0 || tot == |src| || (off + tot) % BSIZE == 0
        invariant forall x :: x in logged && x !in old(logged) ==>
                    src != [] && MayLog(S(), i, off / BSIZE, (off + |src| - 1) / BSIZE, x)
      {
        ghost var t, l := S(), logged;
        var m, fine := WriteBlock(i, src[tot..], off + tot);
        if !fine {
          return false;
        }
        ghost var u := S();
        WroteMore(first, s, t, u, i, off, src[..tot], src[tot..][..m]);
        assert src[..tot] + src[tot..][..m] == src[..tot + m];
        OneMoreTurn(first, s, t, u, i, off, src, tot, off + tot, m, src[tot..][..m]);
        WroteKeepsSlots(first, t, u, i, off + tot, src[tot..][..m]);
        MoreLogged(t, u, i, off, |src|, tot, old(logged), l, logged);
        tot := tot + m;
      }
      assert src[..tot] == src;
      ok := true;
    }

    /** iupdate, fs.c:202-217. */
    method Iupdate(i: nat)
      requires MapOk() && Layout(first, |inodes|, |blocks|) && i < |inodes| == |dinodes| && 0 < first
      modifies this`dinodes, this`logged, this`writes
      ensures dinodes == old(dinodes)[i := inodes[i]] && logged == old(logged) + {Iblock(i)}
      ensures |writes| > |old(writes)|
      ensures old(Tracked()) ==> Tracked()
    {
      ghost var s := S();
      DinodeSector(first, s, i, inodes[i]);
      dinodes := dinodes[i := inodes[i]];
      LogWrite(s, Iblock(i));
    }

    /** writei, fs.c:463-492. */
    method Writei(i: nat, src: seq<Byte>, off: nat) returns (r: IoResult)
      requires Valid() && Tidy(S()) && Synced(S()) && i < |inodes| && off < UINT && |src| < UINT
      modifies this
      ensures r == Device <==> old(inodes)[i].typ == T_DEV
      ensures r == Fail <==> old(inodes)[i].typ != T_DEV
                             && (off > old(inodes)[i].size || off + |src| > MAXBYTES)
      ensures r == Panicked ==> Full()
      ensures start == old(start) && (r != Panicked && old(Tracked()) ==> Tracked())
      ensures r == Device || r == Fail || src == [] ==> Valid() && S() == old(S()) && logged == old(logged)
      ensures r.Count? ==>
                && r.n == |src| && Valid() && Tidy(S()) && Synced(S()) && |inodes| == |old(inodes)|
                && |blocks| == |old(blocks)|
                && (src != [] ==> exists mid :: WriteStep(first, old(S()), S(), i, off, src, mid))
                && (src != [] ==> |writes| > |old(writes)|)
                && Contents(S(), i) == Splice(Contents(old(S()), i), off, src)
                && inodes[i] == old(inodes)[i].(size := inodes[i].size, addrs := inodes[i].addrs)
                && (forall j :: 0 <= j < |inodes| && j != i ==>
                      inodes[j] == old(inodes)[j] && Contents(S(), j) == Contents(old(S()), j))
                && (forall x :: x in logged && x !in old(logged) ==>
                      src != [] && (x == Iblock(i) || MayLog(S(), i, off / BSIZE, (off + |src| - 1) / BSIZE, x)))
    {
      hide Owned, RawByte, AddrOf, Tidy, Synced, Tracked, Layout, Writes, Wrote, MayLog, Contents, Splice, UsedBits,
        Bit;
      ghost var s := S();
      if inodes[i].typ == T_DEV {
        return Device;
      }
      if off > inodes[i].size || (off + |src|) % UINT < off {
        return Fail;
      }
      if (off + |src|) % UINT > MAXBYTES {
        return Fail;
      }
      if src == [] {
        SpliceNothing(Contents(s, i), off);
        return Count(0);
      }
      var ok := WriteLoop(i, src, off);
      if !ok {
        return Panicked;
      }
      ghost var t := S();
      WriteRefines(first, s, t, i, off, src);
      WroteInodes(first, s, t, i, off, src);
      if |src| > 0 && off + |src| > inodes[i].size {
        SetInode(i, inodes[i].(size := off + |src|));
        Iupdate(i);
      }
      assert S() == Sized(t, i, off + |src|);
      assert WriteStep(first, s, S(), i, off, src, t);
      SizedOk(first, t, i, off + |src|);
      SizedLogs(first, t, i, off + |src|, off / BSIZE, (off + |src| - 1) / BSIZE);
      r := Count(|src|);
    }

    /** One turn of readi's loop, fs.c:451-456. */
    method ReadBlock(i: nat, o: nat, m: nat) returns (got: seq<Byte>)
      requires Valid() && i < |inodes| && NoHoles(S(), i) && 0 < m && o + m <= inodes[i].size
      requires o % BSIZE + m <= BSIZE
      modifies this
      ensures Valid() && S() == old(S()) && logged == old(logged) && got == Contents(S(), i)[o..o + m]
    {
      hide Owned, RawByte, AddrOf, InRange, Tracked, Layout, MapStep, UsedBits, Bit, OnlyGrows;
      ghost var s := S();
      assert AddrOf(s, i, SlotOf(o / BSIZE)) != 0;
      var a := Bmap(i, o / BSIZE);
      BlockOf(first, s, i, o / BSIZE);
      got := blocks[a.b][o % BSIZE..o % BSIZE + m];
      BytesOfBlock(first, s, i, o, m);
    }

    /** readi, fs.c:434-458: exactly the clipped slice, and nothing is allocated although the
        loop goes through bmap. */
    method Readi(i: nat, off: nat, n: nat) returns (r: IoResult, dst: seq<Byte>)
      requires Valid() && i < |inodes| && NoHoles(S(), i) && off < UINT && n < UINT
      modifies this
      ensures Valid() && S() == old(S()) && logged == old(logged)
      ensures r == if inodes[i].typ == T_DEV then Device
                   else if off > inodes[i].size || off + n >= UINT then Fail
                   else Count(|dst|)
      ensures r.Count? ==>
                dst == Contents(S(), i)[off..if off + n > inodes[i].size then inodes[i].size else off + n]
    {
      hide Owned, RawByte, AddrOf, Tidy, Synced, InRange, Tracked, Layout, MapStep, UsedBits, Bit, OnlyGrows, NoHoles,
        Contents;
      ghost var s := S();
      dst := [];
      if inodes[i].typ == T_DEV {
        return Device, [];
      }
      if off > inodes[i].size || (off + n) % UINT < off {
        return Fail, [];
      }
      var clipped := if (off + n) % UINT > inodes[i].size then inodes[i].size - off else n;
      ghost var c := Contents(s, i);
      while |dst| < clipped
        invariant |dst| <= clipped && off + clipped <= |c| && dst == c[off..off + |dst|]
        invariant Valid() && S() == s && logged == old(logged)
      {
        var o := off + |dst|;
        var m := if clipped - |dst| < BSIZE - o % BSIZE then clipped - |dst| else BSIZE - o % BSIZE;
        var got := ReadBlock(i, o, m);
        assert c[off..o] + c[o..o + m] == c[off..o + m];
        dst := dst + got;
      }
      r := Count(clipped);
    }

    /** fs.c:398-403. */
    method FreeDirect(i: nat) returns (ghost freed: seq<nat>)
      requires Valid() && i < |inodes|
      modifies this`bitmap, this`inodes, this`logged, this`writes
      ensures MapOk() && FreedTo(old(S()), S(), i, NDIRECT, 0, false, freed)
      ensures old(Tracked()) ==> Tracked()
      ensures forall x :: x in logged && x !in old(logged) ==> InBitmap(S(), x)
    {
      hide Owned, RawByte, AddrOf, FreedIs, Tracked, UsedBits, Bit;
      ghost var s := S();
      freed := [];
      FreedNone(s, i);
      assert inodes[i].addrs == Cut(inodes[i].addrs, 0, false);
      assert s.inodes == s.inodes[i := s.inodes[i]];
      var k := 0;
      while k < NDIRECT
        invariant 0 <= k <= NDIRECT && MapOk() && i < |inodes| && |inodes[i].addrs| == NDIRECT + 1
        invariant FreedTo(s, S(), i, k, 0, false, freed)
        invariant old(Tracked()) ==> Tracked()
        invariant forall x :: x in logged && x !in old(logged) ==> InBitmap(S(), x)
      {
        assert inodes[i].addrs[k] == s.inodes[i].addrs[k] == AddrOf(s, i, k) by { DirectAddr(s, i, k); }
        FreeNext(first, s, i, k, k, 0, false, k + 1, 0, false, freed);
        if inodes[i].addrs[k] != 0 {
          var ok := Bfree(inodes[i].addrs[k]);
          assert ok;
          BitInBitmap(S(), inodes[i].addrs[k]);
          freed := freed + [inodes[i].addrs[k]];
          SetInode(i, inodes[i].(addrs := inodes[i].addrs[k := 0]));
        }
        assert inodes[i].addrs == Cut(s.inodes[i].addrs, k + 1, false);
        k := k + 1;
      }
    }

    /** fs.c:405-415: the indirect block's entries, then the block itself. */
    method FreeIndirect(i: nat, ghost s: Fs, ghost done: seq<nat>) returns (ghost freed: seq<nat>)
      requires MapOk() && FsOk(first, s) && i < |s.inodes| && FreedTo(s, S(), i, NDIRECT, 0, false, done)
      requires Layout(first, |inodes|, |blocks|)
      modifies this`bitmap, this`inodes, this`logged, this`writes
      ensures MapOk() && FreedTo(s, S(), i, NDIRECT, WORDS, true, freed)
      ensures old(Tracked()) ==> Tracked()
      ensures forall x :: x in logged && x !in old(logged) ==> InBitmap(S(), x)
    {
      hide Owned, RawByte, AddrOf, FreedIs, Tracked, UsedBits, Bit;
      freed := done;
      var ind := inodes[i].addrs[NDIRECT];
      DirectAddr(s, i, NDIRECT);
      if ind == 0 {
        NoIndirect(s, i, freed);
        assert inodes[i].addrs == Cut(s.inodes[i].addrs, NDIRECT, true);
        return;
      }
      IndirectInUse(first, s, i);
      var w := 0;
      while w < WORDS
        invariant 0 <= w <= WORDS && MapOk() && i < |inodes| && |inodes[i].addrs| == NDIRECT + 1
        invariant inodes[i].addrs[NDIRECT] == ind
        invariant FreedTo(s, S(), i, NDIRECT, w, false, freed)
        invariant old(Tracked()) ==> Tracked()
        invariant forall x :: x in logged && x !in old(logged) ==> InBitmap(S(), x)
      {
        var a := WordAt(blocks[ind], w);
        WordAddr(s, i, w);
        FreeNext(first, s, i, 13 + w, NDIRECT, w, false, NDIRECT, w + 1, false, freed);
        if a != 0 {
          var ok := Bfree(a);
          assert ok;
          BitInBitmap(S(), a);
          freed := freed + [a];
        }
        w := w + 1;
      }
      FreeNext(first, s, i, NDIRECT, NDIRECT, WORDS, false, NDIRECT, WORDS, true, freed);
      var ok := Bfree(ind);
      assert ok;
      BitInBitmap(S(), ind);
      freed := freed + [ind];
      SetInode(i, inodes[i].(addrs := inodes[i].addrs[NDIRECT := 0]));
      assert inodes[i].addrs == Cut(s.inodes[i].addrs, NDIRECT, true);
    }

    /** itrunc, fs.c:392-419. Each of the file's blocks is freed once, no other block is, and
        the "freeing free block" panic cannot happen. */
    method Itrunc(i: nat) returns (ghost freed: seq<nat>)
      requires Valid() && i < |inodes|
      modifies this
      ensures Valid() && Freed(old(S()), S(), i)
      ensures NoneTwice(freed)
      ensures forall b :: b in freed <==> InSlots(old(S()), i, 0, SLOTS, b)
      ensures start == old(start) && (old(Tracked()) ==> Tracked())
      ensures forall x :: x in logged && x !in old(logged) ==> x == Iblock(i) || InBitmap(S(), x)
    {
      hide Owned, RawByte, AddrOf, Tracked, UsedBits, Bit;
      ghost var s := S();
      freed := FreeDirect(i);
      freed := FreeIndirect(i, s, freed);
      SetInode(i, inodes[i].(size := 0));
      Iupdate(i);
      AllFreed(s, i, freed);
      assert inodes[i] == Truncated(s.inodes[i]);
      FreedOk(first, s, S(), i);
    }

    /** iput in fileclose's transaction, fs.c:317-336 and file.c:69-71. `last`: this is the last
        reference and the inode is valid. An inode without links is truncated and freed. */
    method Iput(i: nat, last: bool)
      requires Valid() && Tidy(S()) && Synced(S()) && i < |inodes| && |blocks| <= BPB
      modifies this
      ensures Valid() && Tidy(S()) && Synced(S())
      ensures !last || old(inodes)[i].nlink != 0 ==> S() == old(S()) && writes == []
      ensures last && old(inodes)[i].nlink == 0 ==>
                DropStep(old(S()), S(), i) && Logs(first, old(S()), S(), writes) && |logged| <= 2
    {
      hide Owned, RawByte, AddrOf, Tidy, Tracked, Layout, InSlots, UsedBits, Bit, OnDisk, Logs;
      logged, start, writes := {}, OnDisk(first, S()), [];
      ghost var s := S();
      FreshTransaction();
      if !last || inodes[i].nlink != 0 {
        return;
      }
      ghost var freed := Itrunc(i);
      SetInode(i, inodes[i].(typ := 0));
      Iupdate(i);
      assert Dropped(s, S(), i);
      DroppedOk(first, s, S(), i);
      TwoSectors(S(), logged, Iblock(i));
      ChunkLogs(s);
    }

    /** One transaction of filewrite, file.c:141-146. */
    method WriteChunk(i: nat, src: seq<Byte>, off: nat) returns (w: IoResult)
      requires Valid() && Tidy(S()) && Synced(S()) && i < |inodes| && inodes[i].typ != T_DEV
      requires off < UINT && 0 < |src| <= 3 * BSIZE && |blocks| <= BPB
      modifies this
      ensures w != Device && (w == Panicked ==> Full())
      ensures w == Fail <==> off > old(inodes)[i].size || off + |src| > MAXBYTES
      ensures w == Fail ==> Valid() && S() == old(S())
      ensures w.Count? ==>
                && Valid() && Tidy(S()) && Synced(S()) && |inodes| == |old(inodes)| && |blocks| == |old(blocks)|
                && WritesFile(first, old(S()), S(), i) && Logs(first, old(S()), S(), writes)
                && Contents(S(), i) == Splice(Contents(old(S()), i), off, src) && inodes[i].typ == old(inodes)[i].typ
                && (forall j :: 0 <= j < |inodes| && j != i ==> Contents(S(), j) == Contents(old(S()), j))
    {
      hide InRange, Owned, RawByte, AddrOf, Tidy, Synced, MayLog, Splice, Contents, Tracked, Layout, WriteStep, Logs,
        UsedBits, Bit, OnDisk;
      logged, start, writes := {}, OnDisk(first, S()), [];
      ghost var s := S();
      FreshTransaction();
      w := Writei(i, src, off);
      if w.Count? {
        SevenSectors(S(), i, off, |src|, logged, Iblock(i));
        ChunkLogs(s);
      }
    }

    /** filewrite on an inode, file.c:132-152: chunks of at most 1536 bytes, each its own
        transaction. `states` are the file system before, between and after them, and `logs`
        what each passed to log_write. */
    method Filewrite(i: nat, addr: seq<Byte>, off: nat)
      returns (r: FileResult, newoff: nat, ghost states: seq<Fs>, ghost logs: seq<seq<Entry>>)
      requires Valid() && Tidy(S()) && Synced(S()) && i < |inodes| && inodes[i].typ != T_DEV
      requires off < UINT && |addr| < UINT / 2 && |blocks| <= BPB
      modifies this
      ensures Transacts(first, states, logs, i, off, addr) && states[0] == old(S())
      ensures newoff == off + ChunkStart(|logs|, |addr|)
      ensures r != PanicNoBlocks ==> Valid() && S() == states[|logs|]
      ensures r == PanicNoBlocks ==> Full()
      ensures r != PanicNoBlocks ==>
                (r == MinusOne <==> addr != [] && (off > old(inodes)[i].size || off + |addr| > MAXBYTES))
      ensures r == MinusOne && off <= old(inodes)[i].size ==> newoff + 3 * BSIZE > MAXBYTES
      ensures r == PanicNoBlocks ||
              (&& Valid() && Tidy(S()) && Synced(S()) && |inodes| == |old(inodes)|
               && off <= newoff <= off + |addr|
               && (newoff == off + |addr| <==> r == Written(|addr|)) && (newoff < off + |addr| <==> r == MinusOne)
               && (newoff > off ==> off <= old(inodes)[i].size)
               && Contents(S(), i) == (if newoff == off then Contents(old(S()), i)
                                       else Splice(Contents(old(S()), i), off, addr[..newoff - off]))
               && (forall j :: 0 <= j < |inodes| && j != i ==> Contents(S(), j) == Contents(old(S()), j)))
    {
      hide InRange, Owned, RawByte, AddrOf, Tidy, Synced, MayLog, Splice, Contents, Tracked, Layout, WriteStep,
        Transacts, FileAfter, Logs, WritesFile, UsedBits, Bit, OnDisk, OnlyGrows, NoneTwice;
      var max := (LOGSIZE - 1 - 1 - 2) / 2 * BSIZE;
      var k := 0;
      newoff := off;
      ghost var s := S();
      states, logs := [s], [];
      TransactsNone(first, s, i, off, addr);
      while k < |addr|
        invariant 0 <= k <= |addr| && newoff == off + k && k == ChunkStart(|logs|, |addr|)
        invariant Valid() && Tidy(S()) && Synced(S()) && |inodes| == |old(inodes)| && |blocks| == |old(blocks)|
        invariant inodes[i].typ == old(inodes)[i].typ
        invariant newoff < UINT && (k > 0 ==> off <= s.inodes[i].size && off + k <= MAXBYTES)
        invariant if k > 0 then newoff <= inodes[i].size else s.inodes[i].size == inodes[i].size
        invariant FileAfter(first, s, S(), i, off, addr, k)
        invariant Transacts(first, states, logs, i, off, addr) && |states| == |logs| + 1
        invariant states[0] == s && states[|logs|] == S()
      {
        var n1 := if |addr| - k > max then max else |addr| - k;
        ghost var t := S();
        var w := WriteChunk(i, addr[k..k + n1], newoff);
        if w == Panicked {
          return PanicNoBlocks, newoff, states, logs;
        }
        if w == Fail {
          FileAfterIs(first, s, S(), i, off, addr, k);
          return MinusOne, newoff, states, logs;
        }
        OneChunkOn(first, s, t, S(), i, off, addr, k, n1);
        TransactsMore(first, states, logs, i, off, addr, S(), writes);
        states, logs := states + [S()], logs + [writes];
        newoff := newoff + n1;
        k := k + n1;
      }
      FileAfterIs(first, s, S(), i, off, addr, k);
      r := Written(|addr|);
    }
  }
}

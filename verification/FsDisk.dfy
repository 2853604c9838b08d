/** What fs.c's state looks like on the disk, sector by sector, and how a transaction's
    log_writes change it. The layout is mkfs's: inode blocks from sector 2, the bitmap after
    them, data blocks from `first` on. */
module FsDisk {
  import opened Params
  import opened Blocks
  import opened FsSpec

  /** Bits of a bitmap block, inodes of an inode block. */
  const BPB := 4096
  const IPB := 8

  /** What a sector holds. */
  datatype Payload = DataBlock(data: Block) | InodeBlock(inodes: seq<Inode>) | BitmapBlock(used: set<nat>)

  /** A log_write: the sector and what its buffer holds then. */
  datatype Entry = Entry(sector: nat, payload: Payload)

  function InodeSector(i: nat): nat {
    i / IPB + 2
  }

  function BitmapSector(inodes: nat, b: nat): nat {
    b / BPB + inodes / IPB + 3
  }

  /** The bitmap ends below the first data block. */
  predicate Layout(first: nat, inodes: nat, blocks: nat) {
    blocks > 0 ==> BitmapSector(inodes, blocks - 1) < first
  }

  function InodesIn(d: seq<Inode>, j: nat): seq<Inode> {
    if IPB * j >= |d| then [] else if IPB * (j + 1) >= |d| then d[IPB * j..] else d[IPB * j..IPB * (j + 1)]
  }

  function BitsIn(used: set<nat>, j: nat): set<nat> {
    set b | b in used && b / BPB == j
  }

  function SectorOf(first: nat, s: Fs, x: nat): Payload
    requires x < |s.blocks|
  {
    if 2 <= x < |s.inodes| / IPB + 3 then InodeBlock(InodesIn(s.dinodes, x - 2))
    else if 2 <= x < first then BitmapBlock(BitsIn(s.used, x - (|s.inodes| / IPB + 3)))
    else DataBlock(s.blocks[x])
  }

  ghost function OnDisk(first: nat, s: Fs): (d: seq<Payload>)
    ensures |d| == |s.blocks|
  {
    seq(|s.blocks|, x requires 0 <= x < |s.blocks| => SectorOf(first, s, x))
  }

  /** The disk after a transaction's log_writes have all reached it. */
  function Applied(d: seq<Payload>, ws: seq<Entry>): (r: seq<Payload>)
    ensures |r| == |d|
  {
    if ws == [] then d else
      var e := ws[|ws| - 1];
      var r := Applied(d, ws[..|ws| - 1]);
      if e.sector < |r| then r[e.sector := e.payload] else r
  }

  lemma AppliedMore(d: seq<Payload>, ws: seq<Entry>, e: Entry)
    requires e.sector < |d|
    ensures Applied(d, ws + [e]) == Applied(d, ws)[e.sector := e.payload]
  {
    assert (ws + [e])[..|ws|] == ws;
  }

  // ------------------------------------------------ one sector at a time

  /** Only sector x may differ. */
  ghost predicate OnlySector(first: nat, s: Fs, t: Fs, x: nat) {
    && |t.blocks| == |s.blocks|
    && forall y: nat :: y < |s.blocks| && y != x ==> SectorOf(first, t, y) == SectorOf(first, s, y)
  }

  lemma BitSector(first: nat, s: Fs, b: nat)
    requires Layout(first, |s.inodes|, |s.blocks|) && first <= b < |s.blocks|
    ensures BitmapSector(|s.inodes|, b) < |s.blocks|
    ensures OnlySector(first, s, s.(used := s.used + {b}), BitmapSector(|s.inodes|, b))
    ensures OnlySector(first, s, s.(used := s.used - {b}), BitmapSector(|s.inodes|, b))
  {
    assert b / BPB <= (|s.blocks| - 1) / BPB;
    forall y: nat | y != b / BPB
      ensures BitsIn(s.used + {b}, y) == BitsIn(s.used, y) && BitsIn(s.used - {b}, y) == BitsIn(s.used, y)
    {
    }
  }

  lemma BlockSector(first: nat, s: Fs, b: nat, data: Block)
    requires first <= b < |s.blocks|
    ensures OnlySector(first, s, s.(blocks := s.blocks[b := data]), b)
  {
  }

  lemma DinodeSector(first: nat, s: Fs, i: nat, n: Inode)
    requires |s.dinodes| == |s.inodes| && i < |s.inodes|
    ensures OnlySector(first, s, s.(dinodes := s.dinodes[i := n]), InodeSector(i))
  {
    var t := s.dinodes[i := n];
    forall j: nat | j != i / IPB
      ensures InodesIn(t, j) == InodesIn(s.dinodes, j)
    {
      assert i < IPB * j || IPB * (j + 1) <= i;
    }
  }

  /** In-memory inodes are not on the disk. */
  lemma MemorySector(first: nat, s: Fs, inodes: seq<Inode>)
    requires |inodes| == |s.inodes|
    ensures OnDisk(first, s.(inodes := inodes)) == OnDisk(first, s)
  {
  }

  lemma LoggedSector(first: nat, s: Fs, t: Fs, x: nat, start: seq<Payload>, ws: seq<Entry>)
    requires OnDisk(first, s) == Applied(start, ws) && OnlySector(first, s, t, x) && x < |t.blocks|
    ensures OnDisk(first, t) == Applied(start, ws + [Entry(x, SectorOf(first, t, x))])
  {
    hide SectorOf;
    AppliedMore(start, ws, Entry(x, SectorOf(first, t, x)));
  }

  // ------------------------------------------------------- reading it back

  /** The file system that a disk holds, for a kernel that has just started. */
  ghost function Decoded(first: nat, inodes: nat, d: seq<Payload>): Fs {
    var di := seq(inodes, i requires 0 <= i < inodes => InodeAt(d, i));
    Fs(set b | first <= b < |d| && BitAt(inodes, d, b),
       seq(|d|, x requires 0 <= x < |d| => if d[x].DataBlock? then d[x].data else Zeroes()), di, di)
  }

  function InodeAt(d: seq<Payload>, i: nat): Inode {
    var x := InodeSector(i);
    if x < |d| && d[x].InodeBlock? && i % IPB < |d[x].inodes| then d[x].inodes[i % IPB]
    else Inode(0, 0, 0, 0, 0, seq(NDIRECT + 1, _ => 0))
  }

  predicate BitAt(inodes: nat, d: seq<Payload>, b: nat) {
    var x := BitmapSector(inodes, b);
    x < |d| && d[x].BitmapBlock? && b in d[x].used
  }

  lemma InodeReadBack(first: nat, s: Fs, i: nat)
    requires |s.dinodes| == |s.inodes| && i < |s.inodes| && |s.inodes| / IPB + 3 <= |s.blocks|
    ensures InodeAt(OnDisk(first, s), i) == s.dinodes[i]
  {
    var j := i / IPB;
    assert InodesIn(s.dinodes, j)[i % IPB] == s.dinodes[IPB * j + i % IPB];
  }

  /** A block of a file reads back as it was. */
  lemma BlockReadBack(first: nat, s: Fs, b: nat)
    requires FsOk(first, s) && |s.inodes| / IPB + 3 <= first && 2 <= first && b in s.used
    ensures b < |s.blocks| && Decoded(first, |s.inodes|, OnDisk(first, s)).blocks[b] == s.blocks[b]
  {
    hide Owned;
  }

  lemma InodesReadBack(first: nat, s: Fs)
    requires FsOk(first, s) && |s.inodes| / IPB + 3 <= first && Synced(s)
    ensures Decoded(first, |s.inodes|, OnDisk(first, s)).inodes == s.inodes
  {
    hide Owned, InodeAt, SectorOf;
    var t := Decoded(first, |s.inodes|, OnDisk(first, s));
    forall i: nat | i < |s.inodes|
      ensures t.inodes[i] == s.inodes[i]
    {
      InodeReadBack(first, s, i);
    }
  }

  lemma AddrReadBack(first: nat, s: Fs, i: nat, k: nat)
    requires FsOk(first, s) && |s.inodes| / IPB + 3 <= first && Synced(s) && i < |s.inodes| && k < SLOTS
    ensures var t := Decoded(first, |s.inodes|, OnDisk(first, s));
            t.inodes == s.inodes && AddrOf(t, i, k) == AddrOf(s, i, k)
  {
    hide SectorOf, InodeAt, BitAt;
    InodesReadBack(first, s);
    var ind := s.inodes[i].addrs[NDIRECT];
    if ind != 0 {
      assert IsSlot(s, i, NDIRECT) && AddrOf(s, i, NDIRECT) == ind;
      BlockReadBack(first, s, ind);
    }
    hide Owned;
  }

  /** Between calls, what a kernel that starts from the disk finds in a file is what the file
      held. */
  lemma FileReadBack(first: nat, s: Fs, i: nat)
    requires Sound(first, s) && |s.inodes| / IPB + 3 <= first && i < |s.inodes|
    ensures var t := Decoded(first, |s.inodes|, OnDisk(first, s));
            Shape(t) && t.inodes == s.inodes && Contents(t, i) == Contents(s, i)
  {
    hide SectorOf, InodeAt, BitAt, Tidy, AddrOf;
    InodesReadBack(first, s);
    var t := Decoded(first, |s.inodes|, OnDisk(first, s));
    forall o | 0 <= o < s.inodes[i].size
      ensures RawByte(t, i, o) == RawByte(s, i, o)
    {
      var k := SlotOf(o / BSIZE);
      AddrReadBack(first, s, i, k);
      if AddrOf(s, i, k) != 0 {
        assert IsSlot(s, i, k);
        BlockReadBack(first, s, AddrOf(s, i, k));
      }
    }
  }

  lemma BitReadBack(first: nat, s: Fs, b: nat)
    requires Layout(first, |s.inodes|, |s.blocks|) && first <= b < |s.blocks|
    ensures BitAt(|s.inodes|, OnDisk(first, s), b) <==> b in s.used
  {
    assert b / BPB <= (|s.blocks| - 1) / BPB;
  }

  /** And the whole of it is sound, with every block owned as it was. */
  lemma SoundReadBack(first: nat, s: Fs)
    requires Sound(first, s) && Layout(first, |s.inodes|, |s.blocks|) && |s.inodes| / IPB + 3 <= first
    ensures var t := Decoded(first, |s.inodes|, OnDisk(first, s));
            && Sound(first, t) && t.used == s.used && t.inodes == s.inodes
            && forall i :: 0 <= i < |s.inodes| ==> Contents(t, i) == Contents(s, i)
  {
    hide SectorOf, InodeAt, BitAt, AddrOf, RawByte, Layout, Owned;
    var t := Decoded(first, |s.inodes|, OnDisk(first, s));
    InodesReadBack(first, s);
    forall b | first <= b < |s.blocks|
      ensures b in t.used <==> b in s.used
    {
      BitReadBack(first, s, b);
    }
    forall j, k | 0 <= j < |s.inodes| && 0 <= k < SLOTS
      ensures AddrOf(t, j, k) == AddrOf(s, j, k)
    {
      AddrReadBack(first, s, j, k);
    }
    SameSlots(first, s, t);
    forall i | 0 <= i < |s.inodes|
      ensures NoHoles(t, i) && Contents(t, i) == Contents(s, i)
    {
      assert NoHoles(s, i);
      FileReadBack(first, s, i);
    }
  }

  // ------------------------------------------------ a write in transactions

  ghost function Sectors(ws: seq<Entry>): set<nat> {
    set e | e in ws :: e.sector
  }

  /** A transaction that takes s to t: its log_writes make the disk of s that of t, and they
      are to at most seven sectors. */
  ghost predicate Logs(first: nat, s: Fs, t: Fs, ws: seq<Entry>) {
    && ws != [] && OnDisk(first, t) == Applied(OnDisk(first, s), ws) && |Sectors(ws)| <= 7
    && forall e :: e in ws ==> e.sector < |s.blocks|
  }

  /** Where chunk c of a write of n bytes starts; filewrite's chunks are of 1536 bytes. */
  function ChunkStart(c: nat, n: nat): nat {
    if c * (3 * BSIZE) < n then c * (3 * BSIZE) else n
  }

  /** File i has had the first k bytes written at `off`, and no other file has changed. */
  ghost predicate FileAfter(first: nat, s: Fs, t: Fs, i: nat, off: nat, addr: seq<Byte>, k: nat) {
    && Shape(s) && Sound(first, t) && |t.inodes| == |s.inodes| && |t.blocks| == |s.blocks|
    && Layout(first, |t.inodes|, |t.blocks|) && i < |s.inodes| && k <= |addr|
    && (k > 0 ==> off <= s.inodes[i].size)
    && Contents(t, i) == (if k == 0 then Contents(s, i) else Splice(Contents(s, i), off, addr[..k]))
    && forall j :: 0 <= j < |s.inodes| && j != i ==> Contents(t, j) == Contents(s, j)
  }

  /** A write of a file in transactions, from states[0] on, a chunk each. */
  ghost predicate Transacts(first: nat, states: seq<Fs>, logs: seq<seq<Entry>>, i: nat, off: nat, addr: seq<Byte>) {
    && |states| == |logs| + 1
    && (forall c :: 0 <= c < |states| ==>
          FileAfter(first, states[0], states[c], i, off, addr, ChunkStart(c, |addr|)))
    && (forall c :: 0 <= c < |logs| ==> Logs(first, states[c], states[c + 1], logs[c]))
    && (forall c :: 0 <= c < |logs| ==> WritesFile(first, states[c], states[c + 1], i))
  }

  lemma TransactsMore(first: nat, states: seq<Fs>, logs: seq<seq<Entry>>, i: nat, off: nat, addr: seq<Byte>, t: Fs,
                      ws: seq<Entry>)
    requires Transacts(first, states, logs, i, off, addr) && Logs(first, states[|logs|], t, ws)
    requires WritesFile(first, states[|logs|], t, i)
    requires FileAfter(first, states[0], t, i, off, addr, ChunkStart(|states|, |addr|))
    ensures Transacts(first, states + [t], logs + [ws], i, off, addr)
  {
    hide FileAfter, Logs, ChunkStart, WritesFile;
  }
}

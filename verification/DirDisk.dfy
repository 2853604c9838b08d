/** Directories as files: the entries that a directory's bytes hold, and what a transaction of
    link, unlink, create or iput on the file system does to the inode table of LinkSpec. */
module DirDisk {
  import opened Params
  import F = FsSpec
  import L = LinkSpec

  const DIRSIZ := 14
  /** The size of a struct dirent. */
  const DIRENT := 16

  // ---------------------------------------------------------------- entries

  predicate ValidEntry(e: L.Dirent) {
    e.inum < 0x1_0000 && |e.name| <= DIRSIZ && forall k :: 0 <= k < |e.name| ==> 0 < e.name[k] as int < 256
  }

  function NameByte(name: string, k: nat): Byte
    requires forall j :: 0 <= j < |name| ==> 0 < name[j] as int < 256
  {
    if k < |name| then name[k] as int else 0
  }

  /** inum as two bytes, then the name, filled up with zeros. */
  function Encode(e: L.Dirent): (b: seq<Byte>)
    requires ValidEntry(e)
    ensures |b| == DIRENT
  {
    [e.inum % 256, e.inum / 256] + seq(DIRSIZ, k requires 0 <= k < DIRSIZ => NameByte(e.name, k))
  }

  /** The bytes up to the first zero. */
  function NameIn(b: seq<Byte>): string {
    if b == [] || b[0] == 0 then "" else [(b[0] as int) as char] + NameIn(b[1..])
  }

  function Decode(b: seq<Byte>): L.Dirent
    requires |b| == DIRENT
  {
    L.Dirent(b[0] as int + 256 * (b[1] as int), NameIn(b[2..]))
  }

  lemma {:induction false} NameReadBack(b: seq<Byte>, name: string)
    requires |name| <= |b| && forall k :: 0 <= k < |name| ==> 0 < name[k] as int == b[k]
    requires |name| < |b| ==> b[|name|] == 0
    ensures NameIn(b) == name
    decreases |b|
  {
    if name != "" {
      NameReadBack(b[1..], name[1..]);
      assert name == [name[0]] + name[1..];
    }
  }

  /** struct dirent: the low byte of inum first, then the name's characters and zeros. */
  lemma EntryLayout(e: L.Dirent, k: nat)
    requires ValidEntry(e) && k < DIRSIZ
    ensures e.inum == Encode(e)[0] as int + 256 * (Encode(e)[1] as int)
    ensures Encode(e)[2 + k] == if k < |e.name| then e.name[k] as int else 0
  {
  }

  lemma EntryReadBack(e: L.Dirent)
    requires ValidEntry(e)
    ensures Decode(Encode(e)) == e
  {
    var b := Encode(e);
    assert b[2..] == seq(DIRSIZ, k requires 0 <= k < DIRSIZ => NameByte(e.name, k));
    NameReadBack(b[2..], e.name);
  }

  function Entries(c: seq<Byte>): (es: seq<L.Dirent>)
    ensures |es| == |c| / DIRENT
  {
    seq(|c| / DIRENT, k requires 0 <= k < |c| / DIRENT => Decode(c[DIRENT * k..DIRENT * k + DIRENT]))
  }

  /** Entry k replaced, or appended. */
  function Put(es: seq<L.Dirent>, k: nat, e: L.Dirent): seq<L.Dirent>
    requires k <= |es|
  {
    if k < |es| then es[k := e] else es + [e]
  }

  /** Writing an entry's bytes writes the entry. */
  lemma EntryWritten(c: seq<Byte>, k: nat, e: L.Dirent)
    requires |c| % DIRENT == 0 && DIRENT * k <= |c| && ValidEntry(e)
    ensures k <= |Entries(c)| && Entries(F.Splice(c, DIRENT * k, Encode(e))) == Put(Entries(c), k, e)
    ensures |F.Splice(c, DIRENT * k, Encode(e))| % DIRENT == 0
  {
    hide Encode, Decode;
    F.SpliceAt(c, DIRENT * k, Encode(e));
    hide F.Splice;
    var d := F.Splice(c, DIRENT * k, Encode(e));
    assert |d| / DIRENT == |Put(Entries(c), k, e)|;
    forall j | 0 <= j < |d| / DIRENT
      ensures Entries(d)[j] == Put(Entries(c), k, e)[j]
    {
      var part := d[DIRENT * j..DIRENT * j + DIRENT];
      if j == k {
        assert part == Encode(e);
        EntryReadBack(e);
      } else {
        assert part == c[DIRENT * j..DIRENT * j + DIRENT];
      }
    }
  }

  // ------------------------------------------------------- the inode table

  function KindOf(typ: int): L.Kind {
    if typ == T_DIR then L.Dir else if typ == T_FILE then L.File else if typ == T_DEV then L.Device else L.Free
  }

  ghost function Seen(s: F.Fs, i: nat): L.Inode
    requires F.Shape(s) && i < |s.inodes|
  {
    var n := s.inodes[i];
    L.Inode(KindOf(n.typ), n.nlink, if n.typ == T_DIR then Entries(F.Contents(s, i)) else [])
  }

  /** The inodes with their links and, for directories, entries. */
  ghost function View(s: F.Fs): (v: seq<L.Inode>)
    requires F.Shape(s)
    ensures |v| == |s.inodes| && forall i :: 0 <= i < |v| ==> v[i] == Seen(s, i)
  {
    seq(|s.inodes|, i requires 0 <= i < |s.inodes| => Seen(s, i))
  }

  /** Directories hold whole entries, and free inodes nothing. */
  ghost predicate DirsOk(s: F.Fs) {
    forall i :: 0 <= i < |s.inodes| ==> DirOk(s.inodes[i])
  }

  predicate DirOk(n: F.Inode) {
    && 0 <= n.typ <= T_DEV && (n.typ == T_DIR ==> n.size % DIRENT == 0) && (n.typ == 0 ==> n.size == 0)
  }

  ghost predicate Good(first: nat, s: F.Fs) {
    F.Sound(first, s) && DirsOk(s)
  }

  // ------------------------------------------------------------ small steps

  /** A change of an inode's type, device or link count, and iupdate. */
  ghost predicate MetaStep(s: F.Fs, t: F.Fs, i: nat, n: F.Inode) {
    && i < |s.inodes| && i < |s.dinodes| && n.size == s.inodes[i].size && n.addrs == s.inodes[i].addrs
    && t == s.(inodes := s.inodes[i := n], dinodes := s.dinodes[i := n])
  }

  /** writei of one entry. */
  ghost predicate EntryStep(first: nat, s: F.Fs, t: F.Fs, d: nat, k: nat, e: L.Dirent) {
    && d < |s.inodes| && s.inodes[d].typ == T_DIR && ValidEntry(e)
    && exists mid :: F.WriteStep(first, s, t, d, DIRENT * k, Encode(e), mid)
  }

  lemma ViewIs(s: F.Fs, t: F.Fs, i: nat, n: L.Inode)
    requires F.Shape(s) && F.Shape(t) && |t.inodes| == |s.inodes| && i < |s.inodes| && Seen(t, i) == n
    requires forall j :: 0 <= j < |s.inodes| && j != i ==> Seen(t, j) == Seen(s, j)
    ensures View(t) == View(s)[i := n]
  {
  }

  /** An inode keeps its type, or is free and gets one. */
  lemma MetaView(first: nat, s: F.Fs, t: F.Fs, i: nat, n: F.Inode)
    requires Good(first, s) && MetaStep(s, t, i, n) && 0 <= n.typ <= T_DEV
    requires n.typ == s.inodes[i].typ || s.inodes[i].typ == 0
    ensures |t.inodes| == |s.inodes|
    ensures Good(first, t) && View(t) == View(s)[i := View(s)[i].(kind := KindOf(n.typ), nlink := n.nlink)]
  {
    hide F.Owned, F.InRange, F.Tidy, F.Contents, Entries;
    F.RetypedOk(first, s, t, i, n);
    assert DirOk(s.inodes[i]);
    assert s.inodes[i].typ == 0 ==> Entries(F.Contents(t, i)) == [];
    ViewIs(s, t, i, View(s)[i].(kind := KindOf(n.typ), nlink := n.nlink));
  }

  /** What a write does to the files. */
  lemma WriteEffect(first: nat, s: F.Fs, t: F.Fs, i: nat, off: nat, src: seq<Byte>)
    requires F.Sound(first, s) && exists mid :: F.WriteStep(first, s, t, i, off, src, mid)
    ensures F.Sound(first, t) && |t.inodes| == |s.inodes| && i < |s.inodes| && off <= s.inodes[i].size
    ensures t.inodes == s.inodes[i := s.inodes[i].(size := t.inodes[i].size, addrs := t.inodes[i].addrs)]
    ensures F.Contents(t, i) == F.Splice(F.Contents(s, i), off, src)
    ensures forall j :: 0 <= j < |s.inodes| && j != i ==> F.Contents(t, j) == F.Contents(s, j)
  {
    hide F.Owned, F.InRange, F.AddrOf, F.RawByte, F.Tidy, F.Writes, F.Contents, F.Splice;
    var mid :| F.WriteStep(first, s, t, i, off, src, mid);
    F.WritesWrote(first, s, mid, i, off, src);
    F.WriteRefines(first, s, mid, i, off, src);
  }

  lemma EntryView(first: nat, s: F.Fs, t: F.Fs, d: nat, k: nat, e: L.Dirent)
    requires Good(first, s) && EntryStep(first, s, t, d, k, e)
    ensures |t.inodes| == |s.inodes|
    ensures Good(first, t) && k <= |View(s)[d].ents|
    ensures View(t) == View(s)[d := View(s)[d].(ents := Put(View(s)[d].ents, k, e))]
  {
    hide F.Owned, F.InRange, F.Tidy, F.Contents, F.Splice, F.WriteStep, Entries, Encode, ValidEntry;
    WriteEffect(first, s, t, d, DIRENT * k, Encode(e));
    assert DirOk(s.inodes[d]);
    EntryWritten(F.Contents(s, d), k, e);
    ViewIs(s, t, d, View(s)[d].(ents := Put(View(s)[d].ents, k, e)));
  }

  // ------------------------------------------------------------ transactions

  /** An inode with another link count. */
  function Recounted(s: F.Fs, i: nat, more: int): F.Inode
    requires i < |s.inodes|
  {
    s.inodes[i].(nlink := s.inodes[i].nlink + more)
  }

  lemma CountView(first: nat, s: F.Fs, t: F.Fs, i: nat, more: int)
    requires Good(first, s) && i < |s.inodes| && MetaStep(s, t, i, Recounted(s, i, more))
    ensures |t.inodes| == |s.inodes|
    ensures Good(first, t) && View(t) == View(s)[i := View(s)[i].(nlink := View(s)[i].nlink + more)]
  {
    hide F.Owned, F.InRange, F.Tidy, MetaStep;
    assert DirOk(s.inodes[i]);
    MetaView(first, s, t, i, Recounted(s, i, more));
  }

  /** dirlink of a name that is not there. */
  ghost predicate Enters(first: nat, s: F.Fs, t: F.Fs, dp: nat, name: string, ip: nat) {
    && F.Shape(s) && dp < |s.inodes| && EntryStep(first, s, t, dp, L.FreeSlot(Seen(s, dp).ents), L.Dirent(ip, name))
  }

  lemma EntersView(first: nat, s: F.Fs, t: F.Fs, dp: nat, name: string, ip: nat)
    requires Good(first, s) && Enters(first, s, t, dp, name, ip)
    ensures |t.inodes| == |s.inodes|
    ensures Good(first, t) && View(t) == L.Entered(View(s), dp, name, ip, 0)
  {
    hide F.Owned, F.InRange, F.Tidy, EntryStep;
    EntryView(first, s, t, dp, L.FreeSlot(Seen(s, dp).ents), L.Dirent(ip, name));
  }

  /** ialloc and the first iupdate of a new inode. */
  lemma TypeView(first: nat, s: F.Fs, t: F.Fs, i: nat, n: F.Inode)
    requires Good(first, s) && MetaStep(s, t, i, n) && View(s)[i].kind.Free? && 0 <= n.typ <= T_DEV
    ensures Good(first, t) && View(t) == View(s)[i := L.Inode(KindOf(n.typ), n.nlink, [])]
  {
    hide F.Owned, F.InRange, F.Tidy;
    assert DirOk(s.inodes[i]);
    MetaView(first, s, t, i, n);
  }

  /** sys_link, sysfile.c:115-160. */
  ghost predicate LinkTx(first: nat, s: F.Fs, t: F.Fs, ip: nat, dp: nat, name: string, a: F.Fs) {
    && F.Shape(s) && 0 < ip < |s.inodes| && !View(s)[ip].kind.Dir? && !View(s)[ip].kind.Free?
    && L.CanEnter(View(s), dp, name)
    && MetaStep(s, a, ip, Recounted(s, ip, 1)) && Enters(first, a, t, dp, name, ip)
  }

  lemma LinkTxView(first: nat, s: F.Fs, t: F.Fs, ip: nat, dp: nat, name: string, a: F.Fs)
    requires Good(first, s) && LinkTx(first, s, t, ip, dp, name, a)
    ensures |t.inodes| == |s.inodes|
    ensures Good(first, t) && L.LinkStep(View(s), View(t), ip, dp, name)
  {
    hide F.Owned, F.InRange, F.Tidy, Enters, MetaStep, Seen, L.CanEnter, L.Enter;
    CountView(first, s, a, ip, 1);
    EntersView(first, a, t, dp, name, ip);
  }

  /** sys_unlink, sysfile.c:179-232. */
  ghost predicate UnlinkTx(first: nat, s: F.Fs, t: F.Fs, dp: nat, k: nat, a: F.Fs, b: F.Fs) {
    && F.Shape(s) && L.Linked(View(s), dp) && k < |View(s)[dp].ents|
    && var e := View(s)[dp].ents[k];
       && 0 < e.inum < |s.inodes| && e.name != "." && e.name != ".."
       && (View(s)[e.inum].kind.Dir? ==> L.Empty(View(s)[e.inum].ents))
       && EntryStep(first, s, a, dp, k, L.NO_ENTRY)
       && dp < |a.inodes| && e.inum < |b.inodes|
       && (if View(s)[e.inum].kind.Dir? then MetaStep(a, b, dp, Recounted(a, dp, -1)) else b == a)
       && MetaStep(b, t, e.inum, Recounted(b, e.inum, -1))
  }

  lemma UnlinkTxView(first: nat, s: F.Fs, t: F.Fs, dp: nat, k: nat, a: F.Fs, b: F.Fs)
    requires Good(first, s) && UnlinkTx(first, s, t, dp, k, a, b)
    ensures |t.inodes| == |s.inodes|
    ensures Good(first, t) && L.UnlinkStep(View(s), View(t), dp, k)
  {
    hide F.Owned, F.InRange, F.Tidy, EntryStep, MetaStep, Seen, DirsOk, L.Empty;
    var ip := View(s)[dp].ents[k].inum;
    EntryView(first, s, a, dp, k, L.NO_ENTRY);
    if View(s)[ip].kind.Dir? {
      CountView(first, a, b, dp, -1);
    }
    CountView(first, b, t, ip, -1);
  }

  /** create of a file or device, sysfile.c:254-276. */
  ghost predicate CreateTx(first: nat, s: F.Fs, t: F.Fs, dp: nat, name: string, ip: nat, n: F.Inode, a: F.Fs) {
    && F.Shape(s) && 0 < ip < |s.inodes| && View(s)[ip].kind.Free? && L.CanEnter(View(s), dp, name)
    && (n.typ == T_FILE || n.typ == T_DEV) && n.nlink == 1
    && MetaStep(s, a, ip, n) && Enters(first, a, t, dp, name, ip)
  }

  lemma CreateTxView(first: nat, s: F.Fs, t: F.Fs, dp: nat, name: string, ip: nat, n: F.Inode, a: F.Fs)
    requires Good(first, s) && CreateTx(first, s, t, dp, name, ip, n, a)
    ensures |t.inodes| == |s.inodes|
    ensures Good(first, t) && L.CreateFileStep(View(s), View(t), dp, name, ip, KindOf(n.typ))
  {
    hide F.Owned, F.InRange, F.Tidy, Enters, MetaStep, L.CanEnter, L.Enter;
    TypeView(first, s, a, ip, n);
    EntersView(first, a, t, dp, name, ip);
  }

  /** create of a directory: its count and its parent's, its two entries, and its name. */
  ghost predicate MkdirTx(first: nat, s: F.Fs, t: F.Fs, dp: nat, name: string, ip: nat, n: F.Inode,
                          a: F.Fs, b: F.Fs, c: F.Fs, d: F.Fs) {
    && F.Shape(s) && 0 < ip < |s.inodes| && View(s)[ip].kind.Free? && L.CanEnter(View(s), dp, name)
    && n.typ == T_DIR && n.nlink == 1 && MetaStep(s, a, ip, n)
    && dp < |a.inodes| && MetaStep(a, b, dp, Recounted(a, dp, 1))
    && EntryStep(first, b, c, ip, 0, L.Dirent(ip, ".")) && EntryStep(first, c, d, ip, 1, L.Dirent(dp, ".."))
    && Enters(first, d, t, dp, name, ip)
  }

  lemma MkdirTxView(first: nat, s: F.Fs, t: F.Fs, dp: nat, name: string, ip: nat, n: F.Inode,
                    a: F.Fs, b: F.Fs, c: F.Fs, d: F.Fs)
    requires Good(first, s) && MkdirTx(first, s, t, dp, name, ip, n, a, b, c, d)
    ensures |t.inodes| == |s.inodes|
    ensures Good(first, t) && L.CreateDirStep(View(s), View(t), dp, name, ip)
  {
    hide F.Owned, F.InRange, F.Tidy, Enters, EntryStep, MetaStep, Seen, DirsOk, L.Present, L.Enter;
    TypeView(first, s, a, ip, n);
    CountView(first, a, b, dp, 1);
    EntryView(first, b, c, ip, 0, L.Dirent(ip, "."));
    EntryView(first, c, d, ip, 1, L.Dirent(dp, ".."));
    assert View(d)[ip].ents == L.Dots(ip, dp);
    EntersView(first, d, t, dp, name, ip);
  }

  /** iput of an inode without links, fs.c:317-336. */
  ghost predicate IputTx(s: F.Fs, t: F.Fs, ip: nat) {
    0 < ip < |s.inodes| && s.inodes[ip].typ != 0 && s.inodes[ip].nlink == 0 && F.DropStep(s, t, ip)
  }

  lemma IputTxView(first: nat, s: F.Fs, t: F.Fs, ip: nat)
    requires Good(first, s) && IputTx(s, t, ip)
    ensures |t.inodes| == |s.inodes|
    ensures Good(first, t) && L.FreeStep(View(s), View(t), ip)
  {
    hide F.Owned, F.InRange, F.Tidy, F.Contents, F.InSlots, Entries;
    F.DroppedOk(first, s, t, ip);
    assert DirOk(s.inodes[ip]);
    ViewIs(s, t, ip, L.Inode(L.Free, 0, []));
  }

  /** writei of a file. */
  ghost predicate WriteTx(first: nat, s: F.Fs, t: F.Fs, i: nat) {
    i < |s.inodes| && s.inodes[i].typ == T_FILE && F.WritesFile(first, s, t, i)
  }

  lemma WriteTxView(first: nat, s: F.Fs, t: F.Fs, i: nat)
    requires Good(first, s) && WriteTx(first, s, t, i)
    ensures i < |t.inodes| && t.inodes[i].typ == T_FILE
    ensures |t.inodes| == |s.inodes|
    ensures Good(first, t) && View(t) == View(s)
  {
    hide F.Owned, F.InRange, F.Tidy, F.Contents, F.Splice, F.WriteStep, Entries;
    var off, src, mid :| F.WriteStep(first, s, t, i, off, src, mid);
    WriteEffect(first, s, t, i, off, src);
    ViewIs(s, t, i, View(s)[i]);
  }

  ghost predicate Tx(first: nat, s: F.Fs, t: F.Fs) {
    || (exists ip, dp, name, a :: LinkTx(first, s, t, ip, dp, name, a))
    || (exists dp, k, a, b :: UnlinkTx(first, s, t, dp, k, a, b))
    || (exists dp, name, ip, n, a :: CreateTx(first, s, t, dp, name, ip, n, a))
    || (exists dp, name, ip, n, a, b, c, d :: MkdirTx(first, s, t, dp, name, ip, n, a, b, c, d))
    || (exists ip :: IputTx(s, t, ip))
    || (exists i :: WriteTx(first, s, t, i))
  }

  /** Every such transaction is a step of the inode table, or none, and so keeps the link counts
      exact and the directories a tree. */
  lemma TxKeeps(first: nat, s: F.Fs, t: F.Fs)
    requires Good(first, s) && Tx(first, s, t)
    ensures |t.inodes| == |s.inodes| && Good(first, t) && (View(t) == View(s) || L.Next(View(s), View(t)))
    ensures L.Inv(View(s)) ==> L.Inv(View(t))
  {
    hide F.Owned, F.InRange, F.Tidy, DirsOk, L.Inv, LinkTx, UnlinkTx, CreateTx, MkdirTx, IputTx, WriteTx,
      L.LinkStep, L.UnlinkStep, L.CreateFileStep, L.CreateDirStep, L.FreeStep;
    if ip, dp, name, a :| LinkTx(first, s, t, ip, dp, name, a) {
      LinkTxView(first, s, t, ip, dp, name, a);
    } else if dp, k, a, b :| UnlinkTx(first, s, t, dp, k, a, b) {
      UnlinkTxView(first, s, t, dp, k, a, b);
    } else if dp, name, ip, n, a :| CreateTx(first, s, t, dp, name, ip, n, a) {
      CreateTxView(first, s, t, dp, name, ip, n, a);
    } else if dp, name, ip, n, a, b, c, d :| MkdirTx(first, s, t, dp, name, ip, n, a, b, c, d) {
      MkdirTxView(first, s, t, dp, name, ip, n, a, b, c, d);
    } else if ip :| IputTx(s, t, ip) {
      IputTxView(first, s, t, ip);
    } else {
      var i :| WriteTx(first, s, t, i);
      WriteTxView(first, s, t, i);
    }
    if L.Inv(View(s)) && View(t) != View(s) {
      L.StepKeeps(View(s), View(t));
    }
  }

  /** What one transaction may come to: nothing, one of these, or one whose last reference to an
      unlinked inode goes with it. */
  ghost predicate Transaction(first: nat, s: F.Fs, t: F.Fs) {
    || t == s || Tx(first, s, t)
    || exists mid, ip :: Tx(first, s, mid) && IputTx(mid, t, ip)
  }

  lemma TransactionKeeps(first: nat, s: F.Fs, t: F.Fs)
    requires Good(first, s) && L.Inv(View(s)) && Transaction(first, s, t)
    ensures |t.inodes| == |s.inodes| && Good(first, t) && L.Inv(View(t))
  {
    hide F.Owned, F.InRange, F.Tidy, DirsOk, L.Inv, LinkTx, UnlinkTx, CreateTx, MkdirTx, IputTx, WriteTx;
    if Tx(first, s, t) {
      TxKeeps(first, s, t);
    } else if t != s {
      var mid, ip :| Tx(first, s, mid) && IputTx(mid, t, ip);
      TxKeeps(first, s, mid);
      assert Tx(first, mid, t);
      TxKeeps(first, mid, t);
    }
  }

  /** The view is of inodes and bytes alone. */
  lemma ViewSame(s: F.Fs, t: F.Fs)
    requires F.Shape(s) && F.Shape(t) && t.inodes == s.inodes
    requires forall i :: 0 <= i < |s.inodes| ==> F.Contents(t, i) == F.Contents(s, i)
    ensures View(t) == View(s)
  {
  }
}

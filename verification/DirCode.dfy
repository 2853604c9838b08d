/** The writes that link, unlink and create make to inodes and directories, each within one
    transaction, once their tests have passed. */
module DirCode {
  import opened Params
  import opened Blocks
  import opened Sets
  import opened FsDisk
  import opened FsCode
  import opened DirDisk
  import F = FsSpec
  import L = LinkSpec

  // -------------------------------------------------- the sectors they log

  /** A sector of one of two inodes, or one that writing block 0 of the first or block bn of the
      second may log. */
  ghost predicate MayTouch(s: F.Fs, ip: nat, dp: nat, bn: nat, x: nat)
    requires F.Shape(s) && ip < |s.inodes| && dp < |s.inodes|
  {
    x == InodeSector(ip) || x == InodeSector(dp) || MayLog(s, ip, 0, 0, x) || MayLog(s, dp, bn, bn, x)
  }

  ghost predicate TouchesOnly(s: F.Fs, ip: nat, dp: nat, bn: nat, logged: set<nat>)
    requires F.Shape(s) && ip < |s.inodes| && dp < |s.inodes|
  {
    forall x :: x in logged ==> MayTouch(s, ip, dp, bn, x)
  }

  function Slot(s: F.Fs, i: nat, k: nat): nat
    requires F.Shape(s) && i < |s.inodes|
  {
    if k < F.SLOTS then F.AddrOf(s, i, k) else 0
  }

  lemma LogsOneOf(s: F.Fs, i: nat, bn: nat, x: nat)
    requires F.Shape(s) && i < |s.inodes| && |s.blocks| <= BPB && MayLog(s, i, bn, bn, x)
    ensures || x == |s.inodes| / IPB + 3 || x == Slot(s, i, F.NDIRECT)
            || (bn < F.MAXFILE && x == Slot(s, i, F.SlotOf(bn)))
  {
    hide F.AddrOf;
  }

  /** They are at most seven. */
  lemma SevenAgain(s: F.Fs, ip: nat, dp: nat, bn: nat, logged: set<nat>)
    requires F.Shape(s) && ip < |s.inodes| && dp < |s.inodes| && |s.blocks| <= BPB
    requires TouchesOnly(s, ip, dp, bn, logged)
    ensures |logged| <= 7
  {
    hide MayLog, Slot;
    var last := if bn < F.MAXFILE then Slot(s, dp, F.SlotOf(bn)) else 0;
    var all := {InodeSector(ip), InodeSector(dp), |s.inodes| / IPB + 3, Slot(s, ip, F.NDIRECT), Slot(s, dp, F.NDIRECT),
                Slot(s, ip, 0), last};
    forall x | x in logged
      ensures x in all
    {
      if MayLog(s, ip, 0, 0, x) {
        LogsOneOf(s, ip, 0, x);
      } else if MayLog(s, dp, bn, bn, x) {
        LogsOneOf(s, dp, bn, x);
      }
    }
    SubsetSize(logged, all);
  }

  /** No slot in use is moved. */
  ghost predicate KeepsSlots(s: F.Fs, t: F.Fs) {
    && F.Shape(s) && F.Shape(t) && |t.inodes| == |s.inodes| && |t.blocks| == |s.blocks|
    && forall j, k :: F.IsSlot(s, j, k) ==> F.AddrOf(t, j, k) == F.AddrOf(s, j, k)
  }

  lemma TouchesKept(s: F.Fs, t: F.Fs, ip: nat, dp: nat, bn: nat, l: set<nat>, logged: set<nat>)
    requires KeepsSlots(s, t) && ip < |s.inodes| && dp < |s.inodes| && TouchesOnly(s, ip, dp, bn, l)
    requires forall x :: x in logged && x !in l ==> MayTouch(t, ip, dp, bn, x)
    ensures TouchesOnly(t, ip, dp, bn, logged)
  {
    hide MayLog, F.AddrOf;
    forall x | x in l
      ensures MayTouch(t, ip, dp, bn, x)
    {
      assert MayTouch(s, ip, dp, bn, x);
      if MayLog(s, ip, 0, 0, x) {
        MayLogKept(s, t, ip, 0, 0, 0, 0, x);
      }
      if MayLog(s, dp, bn, bn, x) {
        MayLogKept(s, t, dp, bn, bn, bn, bn, x);
      }
    }
  }

  lemma MetaKeepsSlots(first: nat, s: F.Fs, t: F.Fs, i: nat, n: F.Inode)
    requires F.FsOk(first, s) && MetaStep(s, t, i, n)
    ensures KeepsSlots(s, t)
  {
  }

  lemma WriteKeepsSlots(first: nat, s: F.Fs, t: F.Fs, i: nat, off: nat, src: seq<Byte>)
    requires F.FsOk(first, s) && exists mid :: F.WriteStep(first, s, t, i, off, src, mid)
    ensures KeepsSlots(s, t)
  {
    hide F.Owned, F.AddrOf, F.RawByte, F.Writes, F.Touches;
    var mid :| F.WriteStep(first, s, t, i, off, src, mid);
    F.WritesWrote(first, s, mid, i, off, src);
    F.SizedOk(first, mid, i, off + |src|);
  }

  // ---------------------------------------------------------- single writes

  /** A transaction that began with the disk of s. */
  ghost predicate InTx(fs: FileSys, s: F.Fs, ip: nat, dp: nat, bn: nat)
    reads fs
  {
    && fs.Valid() && F.Tidy(fs.S()) && F.Synced(fs.S()) && fs.Tracked()
    && fs.start == OnDisk(fs.first, s) && |fs.blocks| == |s.blocks| <= BPB
    && ip < |fs.inodes| && dp < |fs.inodes| && TouchesOnly(fs.S(), ip, dp, bn, fs.logged)
  }

  /** begin_trans. */
  ghost method BeginTrans(fs: FileSys, ip: nat, dp: nat, bn: nat)
    requires fs.Valid() && F.Tidy(fs.S()) && F.Synced(fs.S()) && |fs.blocks| <= BPB
    requires ip < |fs.inodes| && dp < |fs.inodes|
    modifies fs`logged, fs`start, fs`writes
    ensures InTx(fs, fs.S(), ip, dp, bn) && fs.S() == old(fs.S())
  {
    hide F.Owned, F.Tidy, F.RawByte, F.AddrOf, MayLog, Layout, UsedBits, OnDisk;
    fs.logged, fs.start, fs.writes := {}, OnDisk(fs.first, fs.S()), [];
    fs.FreshTransaction();
  }

  /** What commit_trans is given. */
  ghost method CommitTrans(fs: FileSys, s: F.Fs, ip: nat, dp: nat, bn: nat)
    requires InTx(fs, s, ip, dp, bn) && fs.writes != []
    ensures Logs(fs.first, s, fs.S(), fs.writes)
  {
    hide F.Owned, F.Tidy, F.RawByte, F.AddrOf, MayTouch, Layout, UsedBits, OnDisk, Logs;
    SevenAgain(fs.S(), ip, dp, bn, fs.logged);
    fs.ChunkLogs(s);
  }

  /** A change to one of the two inodes, and iupdate. */
  method SetMeta(fs: FileSys, i: nat, n: F.Inode, ghost s: F.Fs, ghost ip: nat, ghost dp: nat, ghost bn: nat)
    requires InTx(fs, s, ip, dp, bn) && (i == ip || i == dp)
    requires n.size == fs.inodes[i].size && n.addrs == fs.inodes[i].addrs
    modifies fs
    ensures InTx(fs, s, ip, dp, bn) && MetaStep(old(fs.S()), fs.S(), i, n) && fs.writes != []
  {
    hide F.Owned, F.Tidy, F.RawByte, F.AddrOf, MayLog, Layout, UsedBits, OnDisk, FileSys.Tracked;
    ghost var a, l := fs.S(), fs.logged;
    fs.SetInode(i, n);
    fs.Iupdate(i);
    F.RetypedOk(fs.first, a, fs.S(), i, n);
    MetaKeepsSlots(fs.first, a, fs.S(), i, n);
    TouchesKept(a, fs.S(), ip, dp, bn, l, fs.logged);
  }

  /** writei of entry k of a directory; it fails only for want of a block. */
  method PutEntry(fs: FileSys, d: nat, k: nat, e: L.Dirent, ghost s: F.Fs, ghost ip: nat, ghost dp: nat, ghost bn: nat)
    returns (ok: bool)
    requires InTx(fs, s, ip, dp, bn) && ((d == ip && k < 32) || (d == dp && k / 32 == bn))
    requires fs.inodes[d].typ == T_DIR && ValidEntry(e)
    requires DIRENT * k <= fs.inodes[d].size && DIRENT * k + DIRENT <= F.MAXBYTES
    modifies fs
    ensures !ok ==> fs.Full()
    ensures ok ==> InTx(fs, s, ip, dp, bn) && EntryStep(fs.first, old(fs.S()), fs.S(), d, k, e) && fs.writes != []
  {
    hide F.Owned, F.Tidy, F.Synced, F.RawByte, F.AddrOf, F.Contents, F.Splice, F.WriteStep, MayLog, Layout, UsedBits,
      Encode, OnDisk, FileSys.Tracked, KeepsSlots;
    ghost var a, l := fs.S(), fs.logged;
    var r := fs.Writei(d, Encode(e), DIRENT * k);
    ok := r.Count?;
    if ok {
      WriteKeepsSlots(fs.first, a, fs.S(), d, DIRENT * k, Encode(e));
      TouchesKept(a, fs.S(), ip, dp, bn, l, fs.logged);
    }
  }

  // ------------------------------------------------------- whole transactions

  lemma Enterable(first: nat, s: F.Fs, dp: nat, name: string)
    requires Good(first, s) && L.CanEnter(View(s), dp, name)
    ensures s.inodes[dp].typ == T_DIR && DIRENT * L.FreeSlot(Seen(s, dp).ents) <= s.inodes[dp].size
  {
    hide F.Owned, F.InRange, F.Tidy, L.Present, Decode;
    assert DirOk(s.inodes[dp]);
  }

  /** sys_link, sysfile.c:126-149, for a name that is not there yet. */
  method LinkWrites(fs: FileSys, ip: nat, dp: nat, name: string, k: nat) returns (ok: bool, ghost a: F.Fs)
    requires fs.Valid() && Good(fs.first, fs.S()) && |fs.blocks| <= BPB && 0 < ip < |fs.inodes|
    requires !View(fs.S())[ip].kind.Dir? && !View(fs.S())[ip].kind.Free? && L.CanEnter(View(fs.S()), dp, name)
    requires k == L.FreeSlot(Seen(fs.S(), dp).ents) && k < L.MAX_ENTRIES && ValidEntry(L.Dirent(ip, name))
    modifies fs
    ensures !ok ==> fs.Full()
    ensures ok ==>
              && fs.Valid() && LinkTx(fs.first, old(fs.S()), fs.S(), ip, dp, name, a)
              && Logs(fs.first, old(fs.S()), fs.S(), fs.writes)
  {
    hide F.Owned, F.InRange, F.Tidy, F.RawByte, F.AddrOf, Layout, UsedBits, OnDisk, FileSys.Tracked, TouchesOnly, Logs,
      Entries, ValidEntry, EntryStep, L.Present;
    ghost var s := fs.S();
    Enterable(fs.first, s, dp, name);
    BeginTrans(fs, ip, dp, k / 32);
    SetMeta(fs, ip, fs.inodes[ip].(nlink := fs.inodes[ip].nlink + 1), s, ip, dp, k / 32);
    a := fs.S();
    CountView(fs.first, s, a, ip, 1);
    assert Seen(a, dp) == View(a)[dp] == View(s)[dp];
    ok := PutEntry(fs, dp, k, L.Dirent(ip, name), s, ip, dp, k / 32);
    if ok {
      CommitTrans(fs, s, ip, dp, k / 32);
    }
  }

  /** sys_unlink, sysfile.c:211-222, of entry k, which names ip. */
  method UnlinkWrites(fs: FileSys, dp: nat, k: nat, ip: nat) returns (ok: bool, ghost a: F.Fs, ghost b: F.Fs)
    requires fs.Valid() && Good(fs.first, fs.S()) && |fs.blocks| <= BPB && 0 < ip < |fs.inodes|
    requires L.Linked(View(fs.S()), dp) && k < |View(fs.S())[dp].ents|
    requires var e := View(fs.S())[dp].ents[k]; e.inum == ip && e.name != "." && e.name != ".."
    requires View(fs.S())[ip].kind.Dir? ==> L.Empty(View(fs.S())[ip].ents)
    modifies fs
    ensures !ok ==> fs.Full()
    ensures ok ==>
              && fs.Valid() && UnlinkTx(fs.first, old(fs.S()), fs.S(), dp, k, a, b)
              && Logs(fs.first, old(fs.S()), fs.S(), fs.writes)
  {
    hide F.Owned, F.InRange, F.Tidy, F.RawByte, F.AddrOf, Layout, UsedBits, OnDisk, FileSys.Tracked, TouchesOnly, Logs,
      EntryStep, L.Empty;
    ghost var s := fs.S();
    EntryInSize(fs.first, s, dp, k);
    var isdir := fs.inodes[ip].typ == T_DIR;
    BeginTrans(fs, ip, dp, k / 32);
    ok := PutEntry(fs, dp, k, L.NO_ENTRY, s, ip, dp, k / 32);
    a, b := s, s;
    if !ok {
      return;
    }
    a := fs.S();
    EntryView(fs.first, s, a, dp, k, L.NO_ENTRY);
    if isdir {
      SetMeta(fs, dp, fs.inodes[dp].(nlink := fs.inodes[dp].nlink - 1), s, ip, dp, k / 32);
    }
    b := fs.S();
    SetMeta(fs, ip, fs.inodes[ip].(nlink := fs.inodes[ip].nlink - 1), s, ip, dp, k / 32);
    CommitTrans(fs, s, ip, dp, k / 32);
  }

  lemma EntryInSize(first: nat, s: F.Fs, dp: nat, k: nat)
    requires Good(first, s) && L.Linked(View(s), dp) && k < |View(s)[dp].ents|
    ensures s.inodes[dp].typ == T_DIR && DIRENT * k + DIRENT <= s.inodes[dp].size <= F.MAXBYTES
  {
    hide F.Owned, F.InRange, F.Tidy, Decode;
  }

  /** create of a file or device, sysfile.c:254-275: ialloc's inode n, and its name. */
  method CreateWrites(fs: FileSys, dp: nat, name: string, ip: nat, n: F.Inode, k: nat) returns (ok: bool, ghost a: F.Fs)
    requires fs.Valid() && Good(fs.first, fs.S()) && |fs.blocks| <= BPB && 0 < ip < |fs.inodes|
    requires View(fs.S())[ip].kind.Free? && L.CanEnter(View(fs.S()), dp, name)
    requires (n.typ == T_FILE || n.typ == T_DEV) && n.nlink == 1
    requires n.size == fs.inodes[ip].size && n.addrs == fs.inodes[ip].addrs
    requires k == L.FreeSlot(Seen(fs.S(), dp).ents) && k < L.MAX_ENTRIES && ValidEntry(L.Dirent(ip, name))
    modifies fs
    ensures !ok ==> fs.Full()
    ensures ok ==>
              && fs.Valid() && CreateTx(fs.first, old(fs.S()), fs.S(), dp, name, ip, n, a)
              && Logs(fs.first, old(fs.S()), fs.S(), fs.writes)
  {
    hide F.Owned, F.InRange, F.Tidy, F.RawByte, F.AddrOf, Layout, UsedBits, OnDisk, FileSys.Tracked, TouchesOnly, Logs,
      Entries, ValidEntry, EntryStep, L.Present;
    ghost var s := fs.S();
    Enterable(fs.first, s, dp, name);
    BeginTrans(fs, ip, dp, k / 32);
    SetMeta(fs, ip, n, s, ip, dp, k / 32);
    a := fs.S();
    TypeView(fs.first, s, a, ip, n);
    assert Seen(a, dp) == View(a)[dp] == View(s)[dp];
    ok := PutEntry(fs, dp, k, L.Dirent(ip, name), s, ip, dp, k / 32);
    if ok {
      CommitTrans(fs, s, ip, dp, k / 32);
    }
  }

  /** create of a directory: its inode n, its parent's count, its two entries, and its name. */
  method MkdirWrites(fs: FileSys, dp: nat, name: string, ip: nat, n: F.Inode, k: nat)
    returns (ok: bool, ghost a: F.Fs, ghost b: F.Fs, ghost c: F.Fs, ghost d: F.Fs)
    requires fs.Valid() && Good(fs.first, fs.S()) && |fs.blocks| <= BPB && 0 < ip < |fs.inodes| <= 0x1_0000
    requires View(fs.S())[ip].kind.Free? && L.CanEnter(View(fs.S()), dp, name)
    requires n.typ == T_DIR && n.nlink == 1 && n.size == fs.inodes[ip].size && n.addrs == fs.inodes[ip].addrs
    requires k == L.FreeSlot(Seen(fs.S(), dp).ents) && k < L.MAX_ENTRIES && ValidEntry(L.Dirent(ip, name))
    modifies fs
    ensures !ok ==> fs.Full()
    ensures ok ==>
              && fs.Valid() && MkdirTx(fs.first, old(fs.S()), fs.S(), dp, name, ip, n, a, b, c, d)
              && Logs(fs.first, old(fs.S()), fs.S(), fs.writes)
  {
    hide F.Owned, F.InRange, F.Tidy, F.RawByte, F.AddrOf, Layout, UsedBits, OnDisk, FileSys.Tracked, TouchesOnly, Logs,
      Entries, EntryStep, L.Present;
    ghost var s := fs.S();
    Enterable(fs.first, s, dp, name);
    BeginTrans(fs, ip, dp, k / 32);
    SetMeta(fs, ip, n, s, ip, dp, k / 32);
    a, b, c, d := fs.S(), s, s, s;
    TypeView(fs.first, s, a, ip, n);
    SetMeta(fs, dp, fs.inodes[dp].(nlink := fs.inodes[dp].nlink + 1), s, ip, dp, k / 32);
    b := fs.S();
    CountView(fs.first, a, b, dp, 1);
    ok := PutEntry(fs, ip, 0, L.Dirent(ip, "."), s, ip, dp, k / 32);
    if !ok {
      return;
    }
    c := fs.S();
    EntryView(fs.first, b, c, ip, 0, L.Dirent(ip, "."));
    EntryCount(fs.first, c, ip);
    ok := PutEntry(fs, ip, 1, L.Dirent(dp, ".."), s, ip, dp, k / 32);
    if !ok {
      return;
    }
    d := fs.S();
    EntryView(fs.first, c, d, ip, 1, L.Dirent(dp, ".."));
    assert Seen(d, dp) == View(d)[dp] && View(d)[dp].ents == View(s)[dp].ents;
    EntryCount(fs.first, d, dp);
    ok := PutEntry(fs, dp, k, L.Dirent(ip, name), s, ip, dp, k / 32);
    if ok {
      CommitTrans(fs, s, ip, dp, k / 32);
    }
  }

  lemma EntryCount(first: nat, s: F.Fs, d: nat)
    requires Good(first, s) && d < |s.inodes| && View(s)[d].kind.Dir?
    ensures s.inodes[d].typ == T_DIR && s.inodes[d].size == DIRENT * |View(s)[d].ents|
  {
    hide F.Owned, F.InRange, F.Tidy, Decode;
    assert DirOk(s.inodes[d]);
  }
}

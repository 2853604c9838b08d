/** System calls over the log: each transaction's log_writes, commit and installation as steps of
    the log machine, cut by a crash at any of them and followed by any number of recoveries. */
module FileCrash {
  import opened Params
  import opened Sets
  import opened LogMachine
  import opened FsDisk
  import opened Capacity
  import FsSpec

  /** A state of the log, `c` transactions committed and `j` log_writes made in the next. */
  datatype Moment = Moment(s: State<Payload>, c: nat, j: nat, crashed: bool)

  /** Transaction c's next log_write. */
  ghost predicate WriteDue(logs: seq<seq<Entry>>, m: Moment) {
    !m.crashed && m.c < |logs| && m.j < |logs[m.c]|
  }

  ghost predicate FileWrite(logs: seq<seq<Entry>>, m: Moment, n: Moment) {
    && WriteDue(logs, m) && LogWrite(m.s, n.s, logs[m.c][m.j].sector, logs[m.c][m.j].payload)
    && n == Moment(n.s, m.c, m.j + 1, false)
  }

  ghost predicate FileCommit(logs: seq<seq<Entry>>, m: Moment, n: Moment) {
    && !m.crashed && m.c < |logs| && m.j == |logs[m.c]| && CommitHead(m.s, n.s)
    && n == Moment(n.s, m.c + 1, 0, false)
  }

  ghost predicate FileOther(m: Moment, n: Moment) {
    && !m.crashed && (Begin(m.s, n.s) || InstallStep(m.s, n.s) || End(m.s, n.s))
    && n == Moment(n.s, m.c, m.j, false)
  }

  /** A crash, after which there is only recovery. */
  ghost predicate FileLost(m: Moment, n: Moment) {
    && (Crash(m.s, n.s) || (m.crashed && RecoveryStep(m.s, n.s)))
    && n == Moment(n.s, m.c, m.j, true)
  }

  ghost predicate FileStep(logs: seq<seq<Entry>>, m: Moment, n: Moment) {
    FileWrite(logs, m, n) || FileCommit(logs, m, n) || FileOther(m, n) || FileLost(m, n)
  }

  /** The calls start on the disk of states[0], with no transaction open. */
  ghost predicate IsFileRun(first: nat, states: seq<FsSpec.Fs>, logs: seq<seq<Entry>>, run: seq<Moment>) {
    && |run| > 0 && states != [] && run[0] == Moment(run[0].s, 0, 0, false)
    && Inv(run[0].s) && run[0].s.phase == Open(false) && run[0].s.lh == [] && run[0].s.home == OnDisk(first, states[0])
    && forall k :: 0 < k < |run| ==> FileStep(logs, run[k - 1], run[k])
  }

  // -------------------------------------------------------------- invariant

  /** What the open transaction has written so far is what the disk would be with it. */
  ghost predicate Writing(logs: seq<seq<Entry>>, m: Moment)
    requires Inv(m.s)
  {
    && (m.c == |logs| ==> m.j == 0 && m.s.lh == [])
    && (m.j > 0 ==> m.s.lh != [])
    && (m.c < |logs| ==>
          && m.j <= |logs[m.c]| && Elements(m.s.lh) <= Sectors(logs[m.c])
          && Overlay(Durable(m.s), m.s.dirty) == Applied(Durable(m.s), logs[m.c][..m.j]))
  }

  ghost predicate MomentOk(first: nat, states: seq<FsSpec.Fs>, logs: seq<seq<Entry>>, m: Moment) {
    && Inv(m.s) && m.c <= |logs| && m.c < |states| && Durable(m.s) == OnDisk(first, states[m.c])
    && (!m.crashed ==>
          match m.s.phase
          case Open(busy) => if busy then Writing(logs, m) else m.s.lh == [] && m.j == 0
          case Install(_, recovering) => !recovering && m.j == 0
          case Down => false)
  }

  lemma OverlayMore<T(!new)>(d: seq<T>, w: map<nat, T>, x: nat, b: T)
    requires x < |d|
    ensures Overlay(d, w[x := b]) == Overlay(d, w)[x := b]
  {
  }

  lemma OverlayNothing<T(!new)>(d: seq<T>)
    ensures Overlay(d, map[]) == d
  {
  }

  lemma WriteOk(first: nat, states: seq<FsSpec.Fs>, logs: seq<seq<Entry>>, m: Moment, n: Moment)
    requires MomentOk(first, states, logs, m) && FileWrite(logs, m, n)
    ensures MomentOk(first, states, logs, n)
  {
    hide Inv, IndexOf, Durable, Overlay, OnDisk, Applied;
    var ws := logs[m.c];
    var e := ws[m.j];
    WriteRefines(m.s, n.s, e.sector, e.payload);
    DurableSize(m.s);
    var d := Durable(m.s);
    assert Durable(n.s) == d && n.s.dirty == m.s.dirty[e.sector := e.payload];
    OverlayMore(d, m.s.dirty, e.sector, e.payload);
    AppliedMore(d, ws[..m.j], e);
    assert ws[..m.j] + [e] == ws[..m.j + 1];
    assert e in ws && e.sector in Sectors(ws);
  }

  lemma DurableSize<T(!new)>(s: State<T>)
    requires Inv(s)
    ensures |s.head| <= |s.slots| && |Durable(s)| == |s.home|
  {
  }

  lemma CommitOk(first: nat, states: seq<FsSpec.Fs>, logs: seq<seq<Entry>>, m: Moment, n: Moment)
    requires MomentOk(first, states, logs, m) && FileCommit(logs, m, n) && |states| == |logs| + 1
    requires Logs(first, states[m.c], states[m.c + 1], logs[m.c])
    ensures MomentOk(first, states, logs, n)
  {
    hide Inv, IndexOf, Durable, Overlay, OnDisk, Applied, Sectors;
    CommitRefines(m.s, n.s);
    assert logs[m.c][..m.j] == logs[m.c];
  }

  lemma OtherOk(first: nat, states: seq<FsSpec.Fs>, logs: seq<seq<Entry>>, m: Moment, n: Moment)
    requires MomentOk(first, states, logs, m) && FileOther(m, n)
    ensures MomentOk(first, states, logs, n)
  {
    hide IndexOf, Durable, Overlay, OnDisk, HomeSectors, Pinned, Installed, Sectors;
    if InstallStep(m.s, n.s) {
      InstallRefines(m.s, n.s);
    } else {
      MemoryStepRefines(m.s, n.s);
    }
    if n.s.phase == Open(true) {
      NothingToReplay(n.s);
      OverlayNothing(Durable(n.s));
      assert m.c < |logs| ==> logs[m.c][..0] == [];
      assert Elements([]) == {};
    }
  }

  lemma LostOk(first: nat, states: seq<FsSpec.Fs>, logs: seq<seq<Entry>>, m: Moment, n: Moment)
    requires MomentOk(first, states, logs, m) && FileLost(m, n)
    ensures MomentOk(first, states, logs, n)
  {
    hide Inv, Durable, Overlay, OnDisk;
    StepRefines(m.s, n.s);
  }

  ghost predicate AllLogged(first: nat, states: seq<FsSpec.Fs>, logs: seq<seq<Entry>>) {
    && |states| == |logs| + 1
    && forall c :: 0 <= c < |logs| ==> Logs(first, states[c], states[c + 1], logs[c])
  }

  lemma {:induction false} MomentAt(first: nat, states: seq<FsSpec.Fs>, logs: seq<seq<Entry>>, run: seq<Moment>, k: nat)
    requires AllLogged(first, states, logs) && IsFileRun(first, states, logs, run) && k < |run|
    ensures MomentOk(first, states, logs, run[k])
  {
    hide Logs;
    if k == 0 {
      NothingToReplay(run[0].s);
    } else {
      hide MomentOk, FileWrite, FileCommit, FileOther, FileLost;
      MomentAt(first, states, logs, run, k - 1);
      var m, n := run[k - 1], run[k];
      if FileWrite(logs, m, n) {
        WriteOk(first, states, logs, m, n);
      } else if FileCommit(logs, m, n) {
        CommitInRange(logs, m, n);
        CommitOk(first, states, logs, m, n);
      } else if FileOther(m, n) {
        OtherOk(first, states, logs, m, n);
      } else {
        LostOk(first, states, logs, m, n);
      }
    }
  }

  lemma CommitInRange(logs: seq<seq<Entry>>, m: Moment, n: Moment)
    requires FileCommit(logs, m, n)
    ensures m.c < |logs|
  {
  }

  // --------------------------------------------------------------- theorems

  /** The log is never too small for the next log_write: "too big a transaction" cannot happen. */
  lemma NextWriteFits(first: nat, states: seq<FsSpec.Fs>, logs: seq<seq<Entry>>, run: seq<Moment>, k: nat)
    requires AllLogged(first, states, logs) && IsFileRun(first, states, logs, run) && k < |run|
    requires run[k].s.phase == Open(true) && WriteDue(logs, run[k]) && |run[k].s.slots| >= 8
    ensures |run[k].s.lh| < run[k].s.Capacity()
  {
    MomentAt(first, states, logs, run, k);
    var m := run[k];
    assert Logs(first, states[m.c], states[m.c + 1], logs[m.c]);
    NoneTwiceCard(m.s.lh);
    SubsetSize(Elements(m.s.lh), Sectors(logs[m.c]));
  }

  lemma SoundDisk(first: nat, s: FsSpec.Fs)
    requires FsSpec.Sound(first, s) && Layout(first, |s.inodes|, |s.blocks|)
    ensures |s.inodes| / IPB + 3 <= first
  {
    hide FsSpec.Owned, FsSpec.Tidy;
  }

  /** Transactions that each make one call of writei, or free an inode, of a sound file system. */
  ghost predicate Calls(first: nat, states: seq<FsSpec.Fs>, logs: seq<seq<Entry>>) {
    && AllLogged(first, states, logs)
    && FsSpec.Sound(first, states[0]) && Layout(first, |states[0].inodes|, |states[0].blocks|)
    && forall c :: 0 <= c < |logs| ==> FsSpec.CallStep(first, states[c], states[c + 1])
  }

  lemma {:induction false} CallsSound(first: nat, states: seq<FsSpec.Fs>, logs: seq<seq<Entry>>, c: nat)
    requires Calls(first, states, logs) && c < |states|
    ensures FsSpec.Sound(first, states[c])
    ensures |states[c].inodes| == |states[0].inodes| && |states[c].blocks| == |states[0].blocks|
  {
    hide FsSpec.Sound, FsSpec.CallStep, Logs, Layout;
    if c > 0 {
      CallsSound(first, states, logs, c - 1);
      FsSpec.CallSound(first, states[c - 1], states[c]);
    }
  }

  /** Cut any run of such calls at any write, let recovery crash any number of times, and once it
      is done the disk holds the file system of the calls committed: every block has one owner,
      no file has a hole, and each file has the bytes it had then. */
  lemma CallsSurvive(first: nat, states: seq<FsSpec.Fs>, logs: seq<seq<Entry>>, run: seq<Moment>)
    requires Calls(first, states, logs) && IsFileRun(first, states, logs, run)
    requires run[|run| - 1].s.phase == Open(false)
    ensures var m := run[|run| - 1];
            var t := Decoded(first, |states[0].inodes|, m.s.home);
            && m.c <= |logs| && FsSpec.Sound(first, t) && FsSpec.Shape(states[m.c])
            && t.used == states[m.c].used && t.inodes == states[m.c].inodes
            && forall i :: 0 <= i < |t.inodes| ==> FsSpec.Contents(t, i) == FsSpec.Contents(states[m.c], i)
  {
    hide Logs, OnDisk, Decoded, FsSpec.Owned, FsSpec.InRange, FsSpec.Tidy, FsSpec.Contents, Inv, Durable, Layout,
      FsSpec.CallStep;
    var last := |run| - 1;
    MomentAt(first, states, logs, run, last);
    var m := run[last];
    NothingToReplay(m.s);
    CallsSound(first, states, logs, m.c);
    SoundDisk(first, states[m.c]);
    SoundReadBack(first, states[m.c]);
  }

  /** A filewrite is such a run. */
  lemma FilewriteCalls(first: nat, states: seq<FsSpec.Fs>, logs: seq<seq<Entry>>, i: nat, off: nat, addr: seq<Byte>)
    requires Transacts(first, states, logs, i, off, addr)
    ensures Calls(first, states, logs)
  {
    hide Logs, Layout, FsSpec.WritesFile, FsSpec.Sound, FsSpec.Contents, FsSpec.Splice, ChunkStart;
    assert FileAfter(first, states[0], states[0], i, off, addr, ChunkStart(0, |addr|));
  }

  /** Cut filewrite at any write, let recovery crash any number of times, and once it is done
      the disk holds the file with a whole number of chunks written, those committed, and every
      other file as it was. */
  lemma ChunksSurvive(first: nat, states: seq<FsSpec.Fs>, logs: seq<seq<Entry>>, i: nat, off: nat, addr: seq<Byte>,
                      run: seq<Moment>)
    requires Transacts(first, states, logs, i, off, addr) && IsFileRun(first, states, logs, run)
    requires run[|run| - 1].s.phase == Open(false)
    ensures var m := run[|run| - 1];
            var s := states[0];
            var t := Decoded(first, |s.inodes|, m.s.home);
            && m.c <= |logs| && FsSpec.Shape(s) && FsSpec.Shape(t) && |t.inodes| == |s.inodes| && i < |s.inodes|
            && var k := ChunkStart(m.c, |addr|);
            && (k > 0 ==> off <= s.inodes[i].size)
            && FsSpec.Contents(t, i) == (if k == 0 then FsSpec.Contents(s, i)
                                         else FsSpec.Splice(FsSpec.Contents(s, i), off, addr[..k]))
            && forall j :: 0 <= j < |s.inodes| && j != i ==> FsSpec.Contents(t, j) == FsSpec.Contents(s, j)
  {
    hide Logs, OnDisk, Decoded, FsSpec.Owned, FsSpec.InRange, FsSpec.Tidy, FsSpec.Contents, FsSpec.Splice, Inv, Durable,
      ChunkStart;
    var last := |run| - 1;
    MomentAt(first, states, logs, run, last);
    var m := run[last];
    NothingToReplay(m.s);
    assert FileAfter(first, states[0], states[m.c], i, off, addr, ChunkStart(m.c, |addr|));
    assert FileAfter(first, states[0], states[0], i, off, addr, ChunkStart(0, |addr|));
    var s, u := states[0], states[m.c];
    SoundDisk(first, u);
    forall j | 0 <= j < |s.inodes|
      ensures FsSpec.Shape(Decoded(first, |s.inodes|, m.s.home))
      ensures |Decoded(first, |s.inodes|, m.s.home).inodes| == |s.inodes|
      ensures FsSpec.Contents(Decoded(first, |s.inodes|, m.s.home), j) == FsSpec.Contents(u, j)
    {
      FileReadBack(first, u, j);
    }
  }
}

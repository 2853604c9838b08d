/** The directory tree over the log: link, unlink, create, iput and writes, each a transaction,
    cut by a crash at any write and followed by any number of recoveries. */
module TreeCrash {
  import M = LogMachine
  import opened Params
  import opened FsDisk
  import opened FileCrash
  import opened DirDisk
  import F = FsSpec
  import L = LinkSpec

  /** Transactions from a sound file system whose link counts are exact and whose directories
      form a tree. */
  ghost predicate Trees(first: nat, states: seq<F.Fs>, logs: seq<seq<Entry>>) {
    && AllLogged(first, states, logs)
    && Good(first, states[0]) && L.Inv(View(states[0])) && Layout(first, |states[0].inodes|, |states[0].blocks|)
    && forall c :: 0 <= c < |logs| ==> Transaction(first, states[c], states[c + 1])
  }

  lemma LoggedSize(first: nat, s: F.Fs, t: F.Fs, ws: seq<Entry>)
    requires Logs(first, s, t, ws)
    ensures |t.blocks| == |s.blocks|
  {
  }

  lemma {:induction false} TreeAt(first: nat, states: seq<F.Fs>, logs: seq<seq<Entry>>, c: nat)
    requires Trees(first, states, logs) && c < |states|
    ensures Good(first, states[c]) && L.Inv(View(states[c]))
    ensures |states[c].inodes| == |states[0].inodes| && |states[c].blocks| == |states[0].blocks|
  {
    hide F.Owned, F.InRange, F.Tidy, DirsOk, L.Inv, Transaction, Logs, Layout;
    if c > 0 {
      TreeAt(first, states, logs, c - 1);
      TransactionKeeps(first, states[c - 1], states[c]);
      LoggedSize(first, states[c - 1], states[c], logs[c - 1]);
    }
  }

  /** A filewrite is a run of such transactions. */
  lemma FilewriteTrees(first: nat, states: seq<F.Fs>, logs: seq<seq<Entry>>, i: nat, off: nat, addr: seq<Byte>)
    requires Transacts(first, states, logs, i, off, addr) && F.Shape(states[0]) && i < |states[0].inodes|
    requires states[0].inodes[i].typ == T_FILE && Good(first, states[0]) && L.Inv(View(states[0]))
    ensures Trees(first, states, logs)
  {
    hide F.Owned, F.InRange, F.Tidy, DirsOk, L.Inv, Logs, FileAfter, F.WritesFile, ChunkStart, Layout;
    FileLayout(first, states, logs, i, off, addr);
    forall c | 0 <= c < |logs|
      ensures Transaction(first, states[c], states[c + 1])
    {
      FileStays(first, states, logs, i, off, addr, c);
      assert WriteTx(first, states[c], states[c + 1], i);
      assert Tx(first, states[c], states[c + 1]);
    }
  }

  lemma FileLayout(first: nat, states: seq<F.Fs>, logs: seq<seq<Entry>>, i: nat, off: nat, addr: seq<Byte>)
    requires Transacts(first, states, logs, i, off, addr)
    ensures Layout(first, |states[0].inodes|, |states[0].blocks|)
  {
    hide Layout, F.Sound, F.Contents, F.Splice, Logs, ChunkStart;
    assert FileAfter(first, states[0], states[0], i, off, addr, ChunkStart(0, |addr|));
  }

  lemma {:induction false} FileStays(first: nat, states: seq<F.Fs>, logs: seq<seq<Entry>>, i: nat, off: nat,
                                     addr: seq<Byte>, c: nat)
    requires Transacts(first, states, logs, i, off, addr) && i < |states[0].inodes| && c < |states|
    requires states[0].inodes[i].typ == T_FILE && Good(first, states[0])
    ensures Good(first, states[c]) && i < |states[c].inodes| && states[c].inodes[i].typ == T_FILE
  {
    hide F.Owned, F.InRange, F.Tidy, DirsOk, Logs, FileAfter, F.WritesFile, ChunkStart;
    if c > 0 {
      FileStays(first, states, logs, i, off, addr, c - 1);
      assert WriteTx(first, states[c - 1], states[c], i);
      WriteTxView(first, states[c - 1], states[c], i);
    }
  }

  /** Once a crashed system has recovered, however often recovery itself crashed, the disk holds
      the inodes and entries of the transactions committed: every block has one owner, every link
      count is exact and the directories form a tree. */
  lemma TreeSurvives(first: nat, states: seq<F.Fs>, logs: seq<seq<Entry>>, run: seq<Moment>)
    requires Trees(first, states, logs) && IsFileRun(first, states, logs, run)
    requires run[|run| - 1].s.phase == M.Open(false)
    ensures var m := run[|run| - 1];
            var t := Decoded(first, |states[0].inodes|, m.s.home);
            && m.c <= |logs| && F.Sound(first, t) && F.Shape(states[m.c])
            && View(t) == View(states[m.c]) && L.Inv(View(t))
  {
    hide F.Owned, F.InRange, F.Tidy, F.Contents, DirsOk, L.Inv, Transaction, Logs, Layout, OnDisk, Decoded, M.Inv,
      M.Durable;
    var last := |run| - 1;
    MomentAt(first, states, logs, run, last);
    var m := run[last];
    M.NothingToReplay(m.s);
    var u := states[m.c];
    TreeAt(first, states, logs, m.c);
    SoundDisk(first, u);
    SoundReadBack(first, u);
    ViewSame(u, Decoded(first, |u.inodes|, OnDisk(first, u)));
  }
}

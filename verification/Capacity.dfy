/** The log is never too small for a filewrite chunk: it logs at most seven sectors, and
    absorption keeps the logged sectors distinct. */
module Capacity {
  import opened Lists
  import opened Blocks
  import opened Sets
  import opened LogMachine
  import FsSpec
  import FsDisk
  import FsCode

  function Elements(s: seq<nat>): set<nat> {
    set x | x in s
  }

  lemma {:induction false} NoneTwiceCard(s: seq<nat>)
    requires NoneTwice(s)
    ensures |Elements(s)| == |s|
  {
    if s != [] {
      var n := |s| - 1;
      assert s == s[..n] + [s[n]];
      NoneTwiceCard(s[..n]);
      assert Elements(s) == Elements(s[..n]) + {s[n]};
    }
  }

  /** A transaction whose writes all go to `sectors`. */
  ghost predicate WritesTo<T(!new)>(run: seq<State<T>>, sectors: set<nat>) {
    && |run| > 0 && Inv(run[0]) && run[0].lh == []
    && forall i :: 0 < i < |run| ==> WriteTo(run[i - 1], run[i], sectors)
  }
  ghost predicate WriteTo<T(!new)>(s: State<T>, t: State<T>, sectors: set<nat>) {
    exists x, b: T :: x in sectors && LogWrite(s, t, x, b)
  }

  lemma {:induction false} LoggedIsWritten<T(!new)>(run: seq<State<T>>, sectors: set<nat>, i: nat)
    requires WritesTo(run, sectors) && i < |run|
    ensures Inv(run[i]) && Elements(run[i].lh) <= sectors && |run[i].slots| == |run[0].slots|
  {
    hide Inv;
    if i > 0 {
      LoggedIsWritten(run, sectors, i - 1);
      assert WriteTo(run[i - 1], run[i], sectors);
      var x, b: T :| x in sectors && LogWrite(run[i - 1], run[i], x, b);
      WriteRefines(run[i - 1], run[i], x, b);
    }
  }

  /** With a log of at least eight slots, "too big a transaction" cannot happen to a
      transaction that writes to at most seven sectors, however often it writes them. */
  lemma NeverTooBig<T(!new)>(run: seq<State<T>>, sectors: set<nat>, i: nat)
    requires WritesTo(run, sectors) && i < |run| && |sectors| <= 7 && |run[0].slots| >= 8
    ensures |run[i].lh| < run[i].Capacity()
  {
    LoggedIsWritten(run, sectors, i);
    NoneTwiceCard(run[i].lh);
    SubsetSize(Elements(run[i].lh), sectors);
  }

  /** So it cannot happen to a chunk of filewrite, which writes only to the inode's sector and
      to those that the chunk may log. */
  lemma ChunkNeverTooBig<T(!new)>(run: seq<State<T>>, sectors: set<nat>, k: nat, s: FsSpec.Fs, i: nat, off: nat, n: nat,
                                  iblock: nat)
    requires WritesTo(run, sectors) && k < |run| && |run[0].slots| >= 8
    requires FsSpec.Shape(s) && i < |s.inodes| && 0 < n <= 3 * BSIZE && |s.blocks| <= FsDisk.BPB
    requires forall x :: x in sectors ==> x == iblock || FsCode.MayLog(s, i, off / BSIZE, (off + n - 1) / BSIZE, x)
    ensures |run[k].lh| < run[k].Capacity()
  {
    hide WritesTo, FsSpec.Shape, FsCode.MayLog;
    FsCode.SevenSectors(s, i, off, n, sectors, iblock);
    NeverTooBig(run, sectors, k);
  }
}

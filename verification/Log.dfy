/** The write-ahead log as a machine whose every step makes at most one block write,
    and the atomic transactional disk it implements. */
module LogMachine {
  import opened Params
  import opened Lists

  /** `Open`: taking writes. `Install`: the header on disk lists `lh`, and the first
      `tail` slots are copied home. `Down`: memory lost, recovery not begun. */
  datatype Phase = Open(busy: bool) | Install(tail: nat, recovering: bool) | Down

  /** T is what a sector holds. On disk: `home` sectors, the sector list `head` that the log's
      header block holds, and the log's `slots`. In memory: `lh`, which is
      log.lh.sector[..n], and the pinned B_DIRTY buffers `dirty`. */
  datatype State<T> = State(home: seq<T>, head: seq<nat>, slots: seq<T>,
                            lh: seq<nat>, dirty: map<nat, T>, phase: Phase)
  {
    function Capacity(): nat {
      if |slots| < LOGSIZE then |slots| else LOGSIZE
    }
  }

  /** The first index at which `x` stands in `s`, or |s|: the search of log.c:169-172. */
  function IndexOf(s: seq<nat>, x: nat): (i: nat)
    ensures i <= |s|
    ensures i < |s| ==> s[i] == x
  {
    if s == [] then 0 else if s[0] == x then 0 else 1 + IndexOf(s[1..], x)
  }

  lemma IndexOfIsFirst(s: seq<nat>, x: nat, j: nat)
    requires j < IndexOf(s, x)
    ensures s[j] != x
  {
    if j > 0 {
      IndexOfIsFirst(s[1..], x, j - 1);
    }
  }

  lemma IndexOfAppend(s: seq<nat>, y: nat, x: nat)
    ensures IndexOf(s + [y], x) ==
            if IndexOf(s, x) < |s| then IndexOf(s, x) else if x == y then |s| else |s| + 1
  {
    if s == [] {
      assert s + [y] == [y];
    } else {
      assert (s + [y])[1..] == s[1..] + [y];
      IndexOfAppend(s[1..], y, x);
    }
  }

  lemma OwnIndex(s: seq<nat>, i: nat)
    requires NoneTwice(s) && i < |s|
    ensures IndexOf(s, s[i]) == i
  {
    var k := IndexOf(s, s[i]);
    if i < k {
      IndexOfIsFirst(s, s[i], i);
    }
  }

  // ---------------------------------------------------------------- steps

  ghost predicate Begin<T(!new)>(s: State<T>, t: State<T>) {
    s.phase == Open(false) && t == s.(phase := Open(true))
  }

  ghost predicate LogWrite<T(!new)>(s: State<T>, t: State<T>, sector: nat, b: T) {
    && s.phase == Open(true)
    && |s.lh| < s.Capacity()
    && sector < |s.home|
    && var i := IndexOf(s.lh, sector);
       t == s.(slots := s.slots[i := b],
               lh := if i == |s.lh| then s.lh + [sector] else s.lh,
               dirty := s.dirty[sector := b])
  }

  ghost predicate CommitHead<T(!new)>(s: State<T>, t: State<T>) {
    s.phase == Open(true) && s.lh != [] && t == s.(head := s.lh, phase := Install(0, false))
  }

  ghost predicate InstallOne<T(!new)>(s: State<T>, t: State<T>) {
    && s.phase.Install? && s.phase.tail < |s.lh|
    && s.phase.tail < |s.slots|
    && s.lh[s.phase.tail] < |s.home|
    && t == s.(home := s.home[s.lh[s.phase.tail] := s.slots[s.phase.tail]],
               dirty := s.dirty - {s.lh[s.phase.tail]},
               phase := s.phase.(tail := s.phase.tail + 1))
  }

  ghost predicate Erase<T(!new)>(s: State<T>, t: State<T>) {
    && s.phase.Install? && s.phase.tail == |s.lh|
    && t == s.(head := [], lh := [], phase := Open(!s.phase.recovering))
  }

  ghost predicate End<T(!new)>(s: State<T>, t: State<T>) {
    s.phase == Open(true) && s.lh == [] && t == s.(phase := Open(false))
  }

  ghost predicate Crash<T(!new)>(s: State<T>, t: State<T>) {
    t == s.(lh := [], dirty := map[], phase := Down)
  }

  ghost predicate ReadHead<T(!new)>(s: State<T>, t: State<T>) {
    s.phase == Down && t == s.(lh := s.head, phase := Install(0, true))
  }

  ghost predicate Write<T(!new)>(s: State<T>, t: State<T>) {
    exists sector, b: T :: LogWrite(s, t, sector, b)
  }

  ghost predicate InstallStep<T(!new)>(s: State<T>, t: State<T>) {
    InstallOne(s, t) || Erase(s, t)
  }

  /** Steps of a machine that has lost its memory and is recovering. */
  ghost predicate RecoveryStep<T(!new)>(s: State<T>, t: State<T>) {
    Crash(s, t) || ReadHead(s, t) || (s.phase.Install? && s.phase.recovering && InstallStep(s, t))
  }

  ghost predicate Next<T(!new)>(s: State<T>, t: State<T>) {
    || Begin(s, t) || Write(s, t) || CommitHead(s, t) || InstallStep(s, t)
    || End(s, t) || Crash(s, t) || ReadHead(s, t)
  }

  // ------------------------------------------------------------ invariant

  ghost predicate HomeSectors<T(!new)>(s: State<T>, h: seq<nat>) {
    |h| <= s.Capacity() && NoneTwice(h) && forall i :: 0 <= i < |h| ==> h[i] < |s.home|
  }

  ghost predicate Inv<T(!new)>(s: State<T>) {
    && HomeSectors(s, s.lh)
    && HomeSectors(s, s.head)
    && match s.phase
       case Open(_) => s.head == [] && Pinned(s, 0)
       case Install(tail, recovering) =>
         && s.head == s.lh && tail <= |s.lh|
         && Installed(s, tail)
         && (if recovering then s.dirty == map[] else Pinned(s, tail))
       case Down => s.lh == [] && s.dirty == map[]
  }

  /** The pinned buffers are exactly those of lh[from..], each equal to its log slot. */
  ghost predicate Pinned<T(!new)>(s: State<T>, from: nat)
    requires |s.lh| <= |s.slots|
  {
    && (forall x :: x in s.dirty <==> from <= IndexOf(s.lh, x) < |s.lh|)
    && (forall x :: x in s.dirty ==> s.dirty[x] == s.slots[IndexOf(s.lh, x)])
  }

  ghost predicate Installed<T(!new)>(s: State<T>, tail: nat)
    requires tail <= |s.lh| <= |s.slots|
  {
    forall x :: 0 <= x < |s.home| && IndexOf(s.lh, x) < tail ==> s.home[x] == s.slots[IndexOf(s.lh, x)]
  }

  // ------------------------------------------- the disk it stands for

  /** An atomic transactional disk: committed home blocks, and the writes of the open
      transaction, which a crash discards. */
  datatype TxDisk<T> = TxDisk(durable: seq<T>, pending: map<nat, T>)

  function Overlay<T(!new)>(d: seq<T>, w: map<nat, T>): (r: seq<T>)
    ensures |r| == |d|
  {
    seq(|d|, i requires 0 <= i < |d| => if i in w then w[i] else d[i])
  }

  function AfterWrite<T(!new)>(a: TxDisk<T>, sector: nat, b: T): TxDisk<T> {
    a.(pending := a.pending[sector := b])
  }
  ghost predicate TxWrite<T(!new)>(a: TxDisk<T>, b: TxDisk<T>) {
    exists sector: nat, blk: T :: b == AfterWrite(a, sector, blk)
  }
  ghost predicate TxCommit<T(!new)>(a: TxDisk<T>, b: TxDisk<T>) {
    b == TxDisk(Overlay(a.durable, a.pending), map[])
  }
  ghost predicate TxCrash<T(!new)>(a: TxDisk<T>, b: TxDisk<T>) {
    b == TxDisk(a.durable, map[])
  }
  ghost predicate TxStep<T(!new)>(a: TxDisk<T>, b: TxDisk<T>) {
    a == b || TxWrite(a, b) || TxCommit(a, b) || TxCrash(a, b)
  }

  /** What the home sectors hold once recovery has run: the logged copy of each sector
      that the header on disk lists, else what is there. */
  ghost function Durable<T(!new)>(s: State<T>): (r: seq<T>)
    requires |s.head| <= |s.slots|
    ensures |r| == |s.home|
    ensures forall x :: 0 <= x < |r| ==>
              r[x] == if IndexOf(s.head, x) < |s.head| then s.slots[IndexOf(s.head, x)] else s.home[x]
  {
    seq(|s.home|, x requires 0 <= x < |s.home| =>
      if IndexOf(s.head, x) < |s.head| then s.slots[IndexOf(s.head, x)] else s.home[x])
  }

  ghost function Abs<T(!new)>(s: State<T>): TxDisk<T>
    requires Inv(s)
  {
    TxDisk(Durable(s), if s.phase.Open? then s.dirty else map[])
  }

  /** What bread returns for a home sector: the pinned buffer, if any, else the disk. */
  function View<T(!new)>(s: State<T>, x: nat): T
    requires x < |s.home|
  {
    if x in s.dirty then s.dirty[x] else s.home[x]
  }

  // ------------------------------------------------------- refinement

  lemma AppendNew(h: seq<nat>, y: nat)
    requires NoneTwice(h) && IndexOf(h, y) == |h|
    ensures NoneTwice(h + [y])
  {
    forall i | 0 <= i < |h|
      ensures h[i] != y
    {
      IndexOfIsFirst(h, y, i);
    }
  }

  lemma WritePins<T(!new)>(s: State<T>, t: State<T>, sector: nat, b: T)
    requires HomeSectors(s, s.lh) && Pinned(s, 0) && LogWrite(s, t, sector, b)
    ensures HomeSectors(t, t.lh) && Pinned(t, 0)
  {
    hide IndexOf;
    if IndexOf(s.lh, sector) == |s.lh| {
      AppendNew(s.lh, sector);
      forall x: nat
        ensures IndexOf(t.lh, x) == if IndexOf(s.lh, x) < |s.lh| then IndexOf(s.lh, x)
                                    else if x == sector then |s.lh| else |s.lh| + 1
      {
        IndexOfAppend(s.lh, sector, x);
      }
    }
  }

  lemma WriteRefines<T(!new)>(s: State<T>, t: State<T>, sector: nat, b: T)
    requires Inv(s) && LogWrite(s, t, sector, b)
    ensures Inv(t) && Abs(t) == AfterWrite(Abs(s), sector, b)
  {
    hide IndexOf, Pinned, NoneTwice;
    WritePins(s, t, sector, b);
    assert Durable(t) == Durable(s);
  }

  /** The header write is the commit point: it moves all pending writes at once. */
  lemma CommitRefines<T(!new)>(s: State<T>, t: State<T>)
    requires Inv(s) && CommitHead(s, t)
    ensures Inv(t) && TxCommit(Abs(s), Abs(t))
  {
    assert Durable(t) == Overlay(Durable(s), s.dirty);
  }

  lemma InstallOneInstalls<T(!new)>(s: State<T>, t: State<T>)
    requires InstallOne(s, t) && |s.lh| <= |s.slots| && Installed(s, s.phase.tail)
    requires IndexOf(s.lh, s.lh[s.phase.tail]) == s.phase.tail
    ensures Installed(t, t.phase.tail)
  {
    hide IndexOf;
  }

  lemma InstallOneKeepsInv<T(!new)>(s: State<T>, t: State<T>)
    requires Inv(s) && InstallOne(s, t)
    ensures Inv(t)
  {
    hide IndexOf, NoneTwice;
    OwnIndex(s.lh, s.phase.tail);
    InstallOneInstalls(s, t);
  }

  lemma InstallRefines<T(!new)>(s: State<T>, t: State<T>)
    requires Inv(s) && InstallStep(s, t)
    ensures Inv(t) && Abs(t) == Abs(s)
  {
    hide IndexOf;
    if InstallOne(s, t) {
      InstallOneKeepsInv(s, t);
      OwnIndex(s.lh, s.phase.tail);
    } else {
      assert t.dirty == map[];
    }
    hide HomeSectors, Pinned;
    assert Durable(t) == Durable(s);
  }

  lemma MemoryStepRefines<T(!new)>(s: State<T>, t: State<T>)
    requires Inv(s) && (Begin(s, t) || End(s, t) || Crash(s, t) || ReadHead(s, t))
    ensures Inv(t) && if Crash(s, t) then TxCrash(Abs(s), Abs(t)) else Abs(t) == Abs(s)
  {
    hide IndexOf;
    assert HomeSectors(t, t.lh);
    assert Durable(t) == Durable(s);
  }

  /** Every step of the log is a step of the atomic disk; only the header write of
      commit_trans commits, and only a crash discards. */
  lemma StepRefines<T(!new)>(s: State<T>, t: State<T>)
    requires Inv(s) && Next(s, t)
    ensures Inv(t) && TxStep(Abs(s), Abs(t))
    ensures !Crash(s, t) && !CommitHead(s, t) && !Write(s, t) ==> Abs(s) == Abs(t)
    ensures RecoveryStep(s, t) ==> TxCrash(Abs(s), Abs(t))
  {
    hide IndexOf, HomeSectors, Pinned, Installed;
    if Write(s, t) {
      var sector, b: T :| LogWrite(s, t, sector, b);
      WriteRefines(s, t, sector, b);
    } else if CommitHead(s, t) {
      CommitRefines(s, t);
    } else if InstallStep(s, t) {
      InstallRefines(s, t);
    } else {
      MemoryStepRefines(s, t);
    }
  }

  /** Readers always see the committed blocks overlaid with the open transaction's. */
  lemma ReadersSeeLatest<T(!new)>(s: State<T>, x: nat)
    requires Inv(s) && x < |s.home|
    requires s.phase.Open? || (s.phase.Install? && !s.phase.recovering)
    ensures View(s, x) == Overlay(Abs(s).durable, Abs(s).pending)[x]
  {
  }

  // -------------------------------------------------------------- runs

  ghost predicate IsRun<T(!new)>(run: seq<State<T>>) {
    && |run| > 0 && Inv(run[0])
    && forall i :: 0 < i < |run| ==> Next(run[i - 1], run[i])
  }

  lemma {:induction false} InvAt<T(!new)>(run: seq<State<T>>, i: nat)
    requires IsRun(run) && i < |run|
    ensures Inv(run[i])
  {
    hide Inv, Next;
    if i > 0 {
      InvAt(run, i - 1);
      StepRefines(run[i - 1], run[i]);
    }
  }

  /** Over every run, with crashes anywhere, the log is an atomic transactional disk. */
  lemma RunRefines<T(!new)>(run: seq<State<T>>)
    requires IsRun(run)
    ensures forall i :: 0 <= i < |run| ==> Inv(run[i])
    ensures forall i :: 0 < i < |run| ==> TxStep(Abs(run[i - 1]), Abs(run[i]))
  {
    hide Inv, Next, TxStep, Abs;
    forall i | 0 <= i < |run|
      ensures Inv(run[i])
    {
      InvAt(run, i);
    }
    forall i | 0 < i < |run|
      ensures TxStep(Abs(run[i - 1]), Abs(run[i]))
    {
      StepRefines(run[i - 1], run[i]);
    }
  }

  lemma {:induction false} RecoveryKeepsDurable<T(!new)>(run: seq<State<T>>, c: nat, i: nat)
    requires IsRun(run) && c <= i < |run|
    requires forall k :: c < k <= i ==> RecoveryStep(run[k - 1], run[k])
    ensures Inv(run[c]) && Inv(run[i]) && Durable(run[i]) == Durable(run[c])
  {
    hide Next, RecoveryStep;
    InvAt(run, c);
    if i > c {
      RecoveryKeepsDurable(run, c, i - 1);
      StepRefines(run[i - 1], run[i]);
    }
  }

  lemma {:induction false} InstallKeepsAbs<T(!new)>(run: seq<State<T>>, c: nat, i: nat)
    requires IsRun(run) && c <= i < |run|
    requires forall k :: c < k <= i ==> InstallStep(run[k - 1], run[k])
    ensures Inv(run[c]) && Inv(run[i]) && Abs(run[i]) == Abs(run[c])
  {
    hide Next, Abs, InstallStep;
    InvAt(run, c);
    if i > c {
      InstallKeepsAbs(run, c, i - 1);
      InstallRefines(run[i - 1], run[i]);
    }
  }

  lemma {:induction false} WritesPending<T(!new)>(run: seq<State<T>>, i: nat)
    requires IsRun(run) && i < |run|
    requires forall k :: 0 < k <= i ==> Write(run[k - 1], run[k])
    ensures Inv(run[0]) && Inv(run[i]) && Durable(run[i]) == Durable(run[0])
  {
    hide Next, LogWrite;
    if i > 0 {
      WritesPending(run, i - 1);
      var sector, b: T :| LogWrite(run[i - 1], run[i], sector, b);
      WriteRefines(run[i - 1], run[i], sector, b);
    }
  }

  /** run[0..cut] is one transaction: log_write steps up to `commit`, then, if the
      header was written at all, install and erase steps. */
  ghost predicate OneTransaction<T(!new)>(run: seq<State<T>>, commit: nat, cut: nat)
    requires commit <= cut < |run|
  {
    && run[0].phase == Open(true) && run[0].lh == []
    && (forall i :: 0 < i <= commit ==> Write(run[i - 1], run[i]))
    && (commit < cut ==> CommitHead(run[commit], run[commit + 1]))
    && (forall i :: commit + 1 < i <= cut ==> InstallStep(run[i - 1], run[i]))
  }

  /** With no transaction and no recovery in hand, the home sectors are the durable ones. */
  lemma NothingToReplay<T(!new)>(s: State<T>)
    requires Inv(s) && s.phase.Open?
    ensures Durable(s) == s.home
    ensures s.lh == [] ==> s.dirty == map[]
  {
  }

  lemma TransactionState<T(!new)>(run: seq<State<T>>, commit: nat, cut: nat)
    requires IsRun(run) && commit <= cut < |run| && OneTransaction(run, commit, cut)
    ensures Inv(run[0]) && Inv(run[cut])
    ensures Durable(run[cut]) ==
            if commit < cut then Overlay(run[0].home, run[commit].dirty) else run[0].home
  {
    hide Next, InstallStep, Write;
    NothingToReplay(run[0]);
    WritesPending(run, commit);
    if commit < cut {
      CommitRefines(run[commit], run[commit + 1]);
      InstallKeepsAbs(run, commit + 1, cut);
    }
  }

  /** Crash atomicity. Cut a transaction anywhere, let recovery itself crash any number
      of times, and once recovery finishes the home sectors hold either all the old
      blocks or all the blocks last passed to log_write: the new ones exactly when the
      commit header reached the disk. */
  lemma CrashAtomicity<T(!new)>(run: seq<State<T>>, commit: nat, cut: nat)
    requires IsRun(run) && commit <= cut < |run| - 1
    requires OneTransaction(run, commit, cut)
    requires Crash(run[cut], run[cut + 1])
    requires forall k :: cut + 1 < k < |run| ==> RecoveryStep(run[k - 1], run[k])
    requires run[|run| - 1].phase == Open(false)
    ensures run[|run| - 1].home ==
            if commit < cut then Overlay(run[0].home, run[commit].dirty) else run[0].home
  {
    hide Next, RecoveryStep;
    var last := |run| - 1;
    TransactionState(run, commit, cut);
    RecoveryKeepsDurable(run, cut + 1, last);
    NothingToReplay(run[last]);
    assert Durable(run[cut + 1]) == Durable(run[cut]);
  }
}

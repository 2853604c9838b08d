/** log.c over a flat disk: home sectors, then the log's header at `start`, then its slots.
    Each method records every state it passes through in `trace`, and the class invariant
    says that `trace` is a run of LogMachine. */
module LogCode {
  import opened Params
  import opened Blocks
  import opened LogMachine

  datatype Outcome = Done | PanicTooBig | PanicOutsideTrans

  /** What read_head decodes from the header block. */
  function Header(b: Block): (h: seq<nat>)
    requires WordAt(b, 0) <= LOGSIZE
    ensures |h| == WordAt(b, 0)
  {
    seq(WordAt(b, 0), i requires 0 <= i < WordAt(b, 0) => WordAt(b, i + 1))
  }

  ghost predicate Formatted(disk: seq<Block>, start: nat) {
    start < |disk| < UINT && WordAt(disk[start], 0) <= LOGSIZE
  }

  ghost function Decoded(disk: seq<Block>, start: nat, lh: seq<nat>, dirty: map<nat, Block>,
                      phase: Phase): State<Block>
    requires Formatted(disk, start)
  {
    State(disk[..start], Header(disk[start]), disk[start + 1..], lh, dirty, phase)
  }

  /** A block write changes one of: a home sector, the header, a slot. */
  lemma OneWrite(disk: seq<Block>, start: nat, i: nat, b: Block)
    requires start < |disk| && i < |disk|
    ensures i < start ==> disk[i := b][..start] == disk[..start][i := b]
                          && disk[i := b][start + 1..] == disk[start + 1..]
    ensures i == start ==> disk[i := b][..start] == disk[..start]
                           && disk[i := b][start + 1..] == disk[start + 1..]
    ensures i > start ==> disk[i := b][..start] == disk[..start]
                          && disk[i := b][start + 1..] == disk[start + 1..][i - start - 1 := b]
  {
  }

  lemma ExtendRun(run: seq<State<Block>>, s: State<Block>)
    requires IsRun(run) && Next(run[|run| - 1], s)
    ensures IsRun(run + [s])
  {
    hide Inv, Next;
  }

  lemma InstallTarget(s: State<Block>)
    requires Inv(s) && s.phase.Install? && s.phase.tail < |s.lh|
    ensures s.lh[s.phase.tail] < |s.home| && s.phase.tail < |s.slots|
  {
  }

  /** Only home sectors are ever pinned, so the log's own blocks are read from the disk. */
  lemma LogNotPinned(s: State<Block>, x: nat)
    requires Inv(s) && |s.home| <= x
    ensures x !in s.dirty
  {
  }

  class Log {
    const start: nat
    var disk: seq<Block>
    var dirty: map<nat, Block>
    var n: nat
    var sector: array<nat>
    var busy: bool
    ghost var phase: Phase
    ghost var trace: seq<State<Block>>

    ghost predicate Shape()
      reads this, sector
    {
      Formatted(disk, start) && sector.Length == LOGSIZE && n <= LOGSIZE
    }

    ghost function Now(): State<Block>
      reads this, sector
      requires Shape()
    {
      Decoded(disk, start, sector[..n], dirty, phase)
    }

    ghost predicate Valid()
      reads this, sector
    {
      && Shape()
      && |trace| > 0 && trace[|trace| - 1] == Now() && IsRun(trace) && Inv(Now())
      && (phase.Open? ==> phase.busy == busy) && (phase.Install? ==> busy == !phase.recovering)
    }

    /** Power up on a disk that some earlier run may have left. */
    constructor (start: nat, disk: seq<Block>)
      requires Formatted(disk, start) && Inv(Decoded(disk, start, [], map[], Down))
      ensures Valid() && phase == Down && !busy && n == 0 && fresh(sector)
      ensures this.start == start && this.disk == disk && trace == [Now()]
    {
      this.start, this.disk, dirty, n, busy := start, disk, map[], 0, false;
      sector := new nat[LOGSIZE];
      phase := Down;
      trace := [Decoded(disk, start, [], map[], Down)];
      new;
      assert sector[..n] == [];
    }

    /** bread: a pinned buffer is still cached, so it wins over the disk. */
    function Bread(s: nat): Block
      reads this
      requires s < |disk|
    {
      if s in dirty then dirty[s] else disk[s]
    }

    ghost method Record()
      requires Shape() && |trace| > 0 && IsRun(trace) && Next(trace[|trace| - 1], Now())
      modifies this`trace
      ensures trace == old(trace) + [Now()] && IsRun(trace) && Inv(Now())
    {
      hide Inv, Next;
      InvAt(trace, |trace| - 1);
      StepRefines(trace[|trace| - 1], Now());
      ExtendRun(trace, Now());
      trace := trace + [Now()];
    }

    /** log.c:101-113: one block write, of a header that lists sector[..n]. */
    method WriteHead()
      requires Shape() && start !in dirty
      requires forall i :: 0 <= i < n ==> sector[i] < UINT
      modifies this`disk
      ensures Shape() && Header(disk[start]) == sector[..n]
      ensures disk == old(disk)[start := disk[start]]
    {
      var buf := Bread(start);
      var hb := SetWord(buf, 0, n);
      WordAfterSet(buf, 0, n, 0);
      var i := 0;
      while i < n
        invariant 0 <= i <= n
        invariant WordAt(hb, 0) == n
        invariant forall k :: 0 <= k < i ==> WordAt(hb, k + 1) == sector[k]
      {
        ghost var before := hb;
        hb := SetWord(hb, i + 1, sector[i]);
        forall k | 0 <= k <= i + 1
          ensures WordAt(hb, k) == if k == i + 1 then sector[i] else WordAt(before, k)
        {
          WordAfterSet(before, i + 1, sector[i], k);
        }
        i := i + 1;
      }
      disk := disk[start := hb];
      assert Header(hb) == sector[..n];
    }

    /** log.c:85-96. */
    method ReadHead()
      requires Shape() && start !in dirty
      modifies this`n, sector
      ensures Shape() && sector[..n] == Header(disk[start])
    {
      var buf := Bread(start);
      n := WordAt(buf, 0);
      var i := 0;
      while i < n
        invariant 0 <= i <= n && n == WordAt(buf, 0)
        invariant forall k :: 0 <= k < i ==> sector[k] == WordAt(buf, k + 1)
      {
        sector[i] := WordAt(buf, i + 1);
        i := i + 1;
      }
    }

    /** One turn of the loop at log.c:74-81. */
    method InstallBlock(tail: nat)
      requires Valid() && phase.Install? && phase.tail == tail < n
      modifies this`disk, this`dirty, this`phase, this`trace
      ensures Valid() && trace == old(trace) + [Now()]
      ensures phase == old(phase).(tail := tail + 1)
      ensures InstallOne(old(Now()), Now())
    {
      hide Inv, IsRun;
      ghost var before := Now();
      InstallTarget(before);
      assert sector[tail] == before.lh[tail];
      LogNotPinned(before, start + tail + 1);
      var lbuf := Bread(start + tail + 1);
      assert lbuf == before.slots[tail];
      OneWrite(disk, start, sector[tail], lbuf);
      disk := disk[sector[tail] := lbuf];
      dirty := dirty - {sector[tail]};
      phase := phase.(tail := tail + 1);
      assert InstallOne(before, Now());
      Record();
    }

    /** log.c:69-82: copies every logged block home, one write at a time. */
    method InstallTrans()
      requires Valid() && phase.Install? && phase.tail == 0
      modifies this`disk, this`dirty, this`phase, this`trace
      ensures Valid() && old(trace) <= trace && phase == old(phase).(tail := n)
      ensures forall k :: |old(trace)| <= k < |trace| ==> InstallStep(trace[k - 1], trace[k])
      ensures forall k :: |old(trace)| - 1 <= k < |trace| ==>
                trace[k].phase.Install? && trace[k].phase.recovering == phase.recovering
    {
      hide Inv, InstallOne, IsRun;
      var tail := 0;
      while tail < n
        invariant Valid() && 0 <= tail <= n
        invariant old(trace) <= trace && phase == old(phase).(tail := tail)
        invariant forall k :: |old(trace)| <= k < |trace| ==> InstallStep(trace[k - 1], trace[k])
        invariant forall k :: |old(trace)| - 1 <= k < |trace| ==>
                    trace[k].phase.Install? && trace[k].phase.recovering == phase.recovering
      {
        InstallBlock(tail);
        tail := tail + 1;
      }
    }

    /** log.c:118. */
    method LoadHead()
      requires Valid() && phase == Down && !busy
      modifies this`n, this`phase, this`trace, sector
      ensures Valid() && phase == Install(0, true) && trace == old(trace) + [Now()]
      ensures LogMachine.ReadHead(old(Now()), Now())
    {
      ghost var before := Now();
      LogNotPinned(before, start);
      hide Inv, IsRun;
      ReadHead();
      phase := Install(0, true);
      assert LogMachine.ReadHead(before, Now());
      Record();
    }

    /** log.c:120-121 and 141-142: the write that empties the log. */
    method EraseLog()
      requires Valid() && phase.Install? && phase.tail == n
      modifies this`n, this`disk, this`phase, this`trace
      ensures Valid() && n == 0 && phase == Open(!old(phase).recovering)
      ensures trace == old(trace) + [Now()]
      ensures Erase(old(Now()), Now()) && InstallStep(old(Now()), Now())
    {
      ghost var before := Now();
      LogNotPinned(before, start);
      hide Inv, IsRun;
      ghost var was := disk;
      n := 0;
      WriteHead();
      OneWrite(was, start, start, disk[start]);
      phase := Open(!phase.recovering);
      assert sector[..n] == [];
      assert Erase(before, Now());
      Record();
    }

    /** log.c:115-122. Every write it makes is a recovery step, so a crash inside it is
        one of those that CrashAtomicity covers. */
    method RecoverFromLog()
      requires Valid() && phase == Down && !busy
      modifies this, sector
      ensures Valid() && sector == old(sector) && phase == Open(false) && n == 0 && dirty == map[]
      ensures old(trace) <= trace
      ensures disk[..start] == Abs(old(Now())).durable
      ensures forall k :: |old(trace)| <= k < |trace| ==> RecoveryStep(trace[k - 1], trace[k])
    {
      hide Inv, IsRun, InstallStep;
      ghost var c := |trace| - 1;
      ghost var before := Now();
      LoadHead();
      InstallTrans();
      EraseLog();
      NothingToReplay(Now());
      forall k | c < k < |trace|
        ensures RecoveryStep(trace[k - 1], trace[k])
      {
      }
      RecoveryKeepsDurable(trace, c, |trace| - 1);
    }

    /** One pass of begin_trans (log.c:125-133); `false` means it sleeps and retries. */
    method BeginTrans() returns (entered: bool)
      requires Valid() && phase.Open?
      modifies this`busy, this`phase, this`trace
      ensures Valid() && phase == Open(true)
      ensures entered == !old(busy)
      ensures if entered then trace == old(trace) + [Now()] && Begin(old(Now()), Now())
              else Now() == old(Now()) && trace == old(trace)
    {
      hide Inv, IsRun;
      entered := !busy;
      if entered {
        ghost var before := Now();
        busy := true;
        phase := Open(true);
        assert Begin(before, Now());
        Record();
      }
    }

    /** The absorption search, log.c:169-172. */
    method FindSlot(s: nat) returns (i: nat)
      requires n <= sector.Length
      ensures i == IndexOf(sector[..n], s)
    {
      i := 0;
      while i < n && sector[i] != s
        invariant 0 <= i <= n && IndexOf(sector[..n], s) == i + IndexOf(sector[i..n], s)
      {
        assert sector[i..n][1..] == sector[i + 1..n];
        i := i + 1;
      }
    }

    /** log.c:160-181 on a buffer holding `b` for home sector `s`. */
    method LogWrite(s: nat, b: Block) returns (r: Outcome)
      requires Valid() && phase.Open? && s < start
      modifies this`n, this`disk, this`dirty, this`trace, sector
      ensures Valid()
      ensures r == if old(n) >= LOGSIZE || old(n) >= |disk| - start - 1 then PanicTooBig
                   else if !busy then PanicOutsideTrans else Done
      ensures r != Done ==> Now() == old(Now()) && trace == old(trace)
      ensures r == Done ==> trace == old(trace) + [Now()] && LogMachine.LogWrite(old(Now()), Now(), s, b)
    {
      hide Inv, IsRun, IndexOf;
      if n >= LOGSIZE || n >= |disk| - start - 1 {
        return PanicTooBig;
      }
      if !busy {
        return PanicOutsideTrans;
      }
      ghost var before := Now();
      var i := FindSlot(s);
      sector[i] := s;
      OneWrite(disk, start, start + i + 1, b);
      disk := disk[start + i + 1 := b];
      if i == n {
        n := n + 1;
      }
      dirty := dirty[s := b];
      assert sector[..n] == if i == |before.lh| then before.lh + [s] else before.lh;
      assert LogMachine.LogWrite(before, Now(), s, b);
      hide LogMachine.LogWrite;
      Record();
      r := Done;
    }

    /** log.c:139: the write that commits. */
    method CommitLog()
      requires Valid() && phase == Open(true) && n > 0
      modifies this`disk, this`phase, this`trace
      ensures Valid() && phase == Install(0, false)
      ensures trace == old(trace) + [Now()] && CommitHead(old(Now()), Now())
    {
      ghost var before := Now();
      LogNotPinned(before, start);
      assert forall i :: 0 <= i < n ==> before.lh[i] < start;
      assert forall i :: 0 <= i < n ==> sector[i] == before.lh[i];
      hide Inv, IsRun;
      ghost var was := disk;
      WriteHead();
      OneWrite(was, start, start, disk[start]);
      phase := Install(0, false);
      assert CommitHead(before, Now());
      Record();
    }

    /** log.c:145-148. */
    method EndTrans()
      requires Valid() && phase == Open(true) && n == 0
      modifies this`busy, this`phase, this`trace
      ensures Valid() && phase == Open(false)
      ensures trace == old(trace) + [Now()] && End(old(Now()), Now())
    {
      hide Inv, IsRun;
      ghost var before := Now();
      busy := false;
      phase := Open(false);
      assert End(before, Now());
      Record();
    }

    /** log.c:139-142. */
    method CommitAndInstall()
      requires Valid() && phase == Open(true) && n > 0
      modifies this`disk, this`dirty, this`n, this`phase, this`trace
      ensures Valid() && phase == Open(true) && n == 0 && old(trace) < trace
      ensures forall k :: |old(trace)| <= k < |trace| ==>
                Inv(trace[k]) && TxCommit(Abs(old(Now())), Abs(trace[k]))
    {
      hide Inv, IsRun, InstallStep, Abs;
      ghost var c := |trace|;
      ghost var before := Now();
      CommitLog();
      CommitRefines(before, Now());
      InstallTrans();
      EraseLog();
      forall k | c <= k < |trace|
        ensures Inv(trace[k]) && TxCommit(Abs(before), Abs(trace[k]))
      {
        InstallKeepsAbs(trace, c, k);
      }
    }

    /** log.c:135-149. Afterwards the home sectors hold the transaction's blocks, and
        recovery from any state passed through would have left exactly these. */
    method CommitTrans()
      requires Valid() && phase == Open(true)
      modifies this, sector
      ensures Valid() && sector == old(sector) && phase == Open(false) && n == 0 && dirty == map[]
      ensures disk[..start] == Overlay(old(disk)[..start], old(dirty))
      ensures old(trace) <= trace
      ensures forall k :: |old(trace)| <= k < |trace| ==>
                Inv(trace[k]) && Abs(trace[k]).durable == disk[..start]
    {
      hide Inv, IsRun;
      ghost var before := Now();
      NothingToReplay(before);
      if n > 0 {
        CommitAndInstall();
      } else {
        assert Overlay(before.home, before.dirty) == before.home;
      }
      NothingToReplay(Now());
      EndTrans();
      NothingToReplay(Now());
    }

    /** Power failure: what is on disk stays, memory starts over. */
    method Crash()
      requires Valid()
      modifies this`n, this`dirty, this`busy, this`phase, this`trace
      ensures Valid() && phase == Down && !busy && disk == old(disk)
      ensures trace == old(trace) + [Now()] && LogMachine.Crash(old(Now()), Now())
    {
      hide Inv, IsRun;
      ghost var before := Now();
      n, dirty, busy, phase := 0, map[], false, Down;
      assert sector[..n] == [];
      assert LogMachine.Crash(before, Now());
      Record();
    }
  }
}

/** ide.c's request queue, as interleaved steps of processes, the drive and its interrupt
    handler, against memide.c's synchronous disk. idelock is held from iderw's entry to its
    sleep, and throughout ideintr, so each of these is one step. */
module IdeMachine {
  import opened Blocks
  import opened Lists

  datatype Buf = Buf(sector: nat, valid: bool, dirty: bool, data: Block)

  datatype Op = Read(sector: nat) | Write(sector: nat, block: Block)

  /** idestart hands the drive an operation; it finishes it and then interrupts. */
  datatype Drive = Quiet | Working(op: Op) | Finished(op: Op, data: Block)

  datatype PC = Running | Waiting(b: nat, asleep: bool)

  /** `holder` maps each busy buffer to the process that has it. `asked` and `served` list all
      requests so far, in the order of iderw's calls and of the interrupts. */
  datatype State = State(disk: seq<Block>, bufs: seq<Buf>, holder: map<nat, nat>, queue: seq<nat>, drive: Drive,
                         procs: map<nat, PC>, asked: seq<nat>, served: seq<nat>)

  /** memide.c:36-58: what one call does to the disk and to the buffer. */
  function MemDisk(disk: seq<Block>, f: Buf): seq<Block> {
    if f.dirty && f.sector < |disk| then disk[f.sector := f.data] else disk
  }

  function MemBuf(disk: seq<Block>, f: Buf): Buf {
    if f.dirty || f.sector >= |disk| then f.(dirty := false, valid := true)
    else f.(valid := true, data := disk[f.sector])
  }

  predicate InSync(f: Buf) {
    f.valid && !f.dirty
  }

  function OpOf(f: Buf): Op {
    if f.dirty then Write(f.sector, f.data) else Read(f.sector)
  }

  /** ideintr's change to the buffer at the head. */
  function Served(f: Buf, data: Block): Buf {
    f.(valid := true, dirty := false, data := if f.dirty then f.data else data)
  }

  function Woken(pc: PC, b: nat): PC {
    if pc.Waiting? && pc.b == b then Waiting(b, false) else pc
  }

  // ------------------------------------------------------------------ steps

  /** Outside iderw a process may take, change and give back buffers. */
  ghost predicate Take(s: State, t: State, p: nat, b: nat) {
    && p in s.procs && s.procs[p].Running? && b < |s.bufs| && b !in s.holder
    && t == s.(holder := s.holder[b := p])
  }

  ghost predicate Change(s: State, t: State, p: nat, b: nat, f: Buf) {
    && p in s.procs && s.procs[p].Running? && b < |s.bufs| && b in s.holder && s.holder[b] == p
    && f.sector < |s.disk|
    && t == s.(bufs := s.bufs[b := f])
  }

  ghost predicate Give(s: State, t: State, p: nat, b: nat) {
    && p in s.procs && s.procs[p].Running? && b in s.holder && s.holder[b] == p
    && t == s.(holder := s.holder - {b})
  }

  /** iderw up to its first sleep, ide.c:125-152. */
  ghost predicate Call(s: State, t: State, p: nat, b: nat) {
    && p in s.procs && s.procs[p].Running? && b < |s.bufs| && b in s.holder && s.holder[b] == p
    && !InSync(s.bufs[b]) && s.bufs[b].sector < |s.disk|
    && t == s.(queue := s.queue + [b], asked := s.asked + [b], procs := s.procs[p := Waiting(b, true)],
               drive := if s.queue == [] then Working(OpOf(s.bufs[b])) else s.drive)
  }

  ghost predicate Finish(s: State, t: State) {
    && s.drive.Working? && s.drive.op.sector < |s.disk|
    && t == match s.drive.op
            case Read(x) => s.(drive := Finished(s.drive.op, s.disk[x]))
            case Write(x, block) => s.(disk := s.disk[x := block], drive := Finished(s.drive.op, block))
  }

  /** ideintr, ide.c:91-119. */
  ghost predicate Interrupt(s: State, t: State) {
    && s.drive.Finished? && s.queue != [] && s.queue[0] < |s.bufs|
    && (|s.queue| > 1 ==> s.queue[1] < |s.bufs|)
    && var b := s.queue[0];
       t == s.(queue := s.queue[1..], served := s.served + [b],
               bufs := s.bufs[b := Served(s.bufs[b], s.drive.data)],
               procs := map p | p in s.procs :: Woken(s.procs[p], b),
               drive := if |s.queue| > 1 then Working(OpOf(s.bufs[s.queue[1]])) else Quiet)
  }

  /** The loop of iderw, ide.c:150-152, after a wakeup: back to sleep, or return. */
  ghost predicate Recheck(s: State, t: State, p: nat, b: nat) {
    && p in s.procs && s.procs[p] == Waiting(b, false) && b < |s.bufs|
    && t == s.(procs := s.procs[p := if InSync(s.bufs[b]) then Running else Waiting(b, true)])
  }

  /** kill may wake any sleeper. */
  ghost predicate Kill(s: State, t: State, p: nat, b: nat) {
    p in s.procs && s.procs[p] == Waiting(b, true) && t == s.(procs := s.procs[p := Waiting(b, false)])
  }

  ghost predicate ProcStep(s: State, t: State, p: nat, b: nat) {
    || Take(s, t, p, b) || (exists f :: Change(s, t, p, b, f)) || Give(s, t, p, b)
    || Call(s, t, p, b) || Recheck(s, t, p, b) || Kill(s, t, p, b)
  }

  ghost predicate Next(s: State, t: State) {
    Finish(s, t) || Interrupt(s, t) || exists p, b :: ProcStep(s, t, p, b)
  }

  // ------------------------------------------------------------- invariants

  predicate WaitsFor(s: State, p: nat, b: nat) {
    p in s.procs && s.procs[p].Waiting? && s.procs[p].b == b
  }

  ghost predicate Queued(s: State, b: nat) {
    && b < |s.bufs| && !InSync(s.bufs[b]) && s.bufs[b].sector < |s.disk|
    && b in s.holder && WaitsFor(s, s.holder[b], b)
  }

  /** Requests are served once each, in order, and none is lost. */
  ghost predicate Fifo(s: State) {
    NoneTwice(s.queue) && s.asked == s.served + s.queue
  }

  ghost predicate Waiters(s: State) {
    && (forall b :: b in s.queue ==> Queued(s, b))
    && (forall p :: p in s.procs && s.procs[p].Waiting? ==>
          var b := s.procs[p].b;
          && b < |s.bufs| && b in s.holder && s.holder[b] == p
          && (b in s.queue || (InSync(s.bufs[b]) && !s.procs[p].asleep)))
  }

  ghost predicate DriveOk(s: State) {
    match s.drive
    case Quiet => s.queue == []
    case Working(op) => s.queue != [] && s.queue[0] < |s.bufs| && op == OpOf(s.bufs[s.queue[0]])
    case Finished(op, data) =>
      && s.queue != [] && s.queue[0] < |s.bufs|
      && var f := s.bufs[s.queue[0]];
         op == OpOf(f) && f.sector < |s.disk| && s.disk[f.sector] == data && (f.dirty ==> data == f.data)
  }

  ghost predicate Inv(s: State) {
    Fifo(s) && Waiters(s) && DriveOk(s)
  }

  // ---------------------------------------------------------- preservation

  lemma TakeKeeps(s: State, t: State, p: nat, b: nat)
    requires Inv(s) && Take(s, t, p, b)
    ensures Inv(t)
  {
    assert forall c :: c in s.queue ==> Queued(s, c);
  }

  lemma ChangeKeeps(s: State, t: State, p: nat, b: nat, f: Buf)
    requires Inv(s) && Change(s, t, p, b, f)
    ensures Inv(t) && b !in s.queue
  {
    assert forall c :: c in s.queue ==> Queued(s, c);
    assert b !in s.queue;
  }

  lemma GiveKeeps(s: State, t: State, p: nat, b: nat)
    requires Inv(s) && Give(s, t, p, b)
    ensures Inv(t)
  {
    assert forall c :: c in s.queue ==> Queued(s, c);
  }

  lemma CallKeeps(s: State, t: State, p: nat, b: nat)
    requires Inv(s) && Call(s, t, p, b)
    ensures Inv(t) && b !in s.queue
  {
    assert forall c :: c in s.queue ==> Queued(s, c);
    assert b !in s.queue;
    assert t.asked == t.served + t.queue;
    assert forall c :: c in t.queue <==> c in s.queue || c == b;
  }

  lemma FinishKeeps(s: State, t: State)
    requires Inv(s) && Finish(s, t)
    ensures Inv(t)
  {
    assert forall c :: c in s.queue ==> Queued(s, c);
    assert s.queue[0] in s.queue;
  }

  lemma InterruptFifo(s: State, t: State)
    requires Fifo(s) && Interrupt(s, t)
    ensures Fifo(t) && s.queue == [s.queue[0]] + t.queue && s.queue[0] !in t.queue
  {
    var b := s.queue[0];
    assert s.queue == [b] + s.queue[1..];
    assert t.asked == t.served + t.queue;
  }

  lemma InterruptKeeps(s: State, t: State)
    requires Inv(s) && Interrupt(s, t)
    ensures Inv(t)
  {
    hide Fifo, NoneTwice;
    InterruptFifo(s, t);
    var b := s.queue[0];
    assert forall c :: c in s.queue <==> c in t.queue || c == b;
    assert forall c :: c in s.queue ==> Queued(s, c);
    forall c | c in t.queue
      ensures Queued(t, c)
    {
      assert Queued(s, c) && t.bufs[c] == s.bufs[c];
    }
  }

  lemma RecheckKeeps(s: State, t: State, p: nat, b: nat)
    requires Inv(s) && Recheck(s, t, p, b)
    ensures Inv(t)
  {
    assert forall c :: c in s.queue ==> Queued(s, c);
  }

  lemma KillKeeps(s: State, t: State, p: nat, b: nat)
    requires Inv(s) && Kill(s, t, p, b)
    ensures Inv(t)
  {
    assert forall c :: c in s.queue ==> Queued(s, c);
  }

  lemma StepKeeps(s: State, t: State)
    requires Inv(s) && Next(s, t)
    ensures Inv(t)
  {
    hide Inv;
    if Finish(s, t) {
      FinishKeeps(s, t);
    } else if Interrupt(s, t) {
      InterruptKeeps(s, t);
    } else {
      var p, b :| ProcStep(s, t, p, b);
      if Take(s, t, p, b) {
        TakeKeeps(s, t, p, b);
      } else if f :| Change(s, t, p, b, f) {
        ChangeKeeps(s, t, p, b, f);
      } else if Give(s, t, p, b) {
        GiveKeeps(s, t, p, b);
      } else if Call(s, t, p, b) {
        CallKeeps(s, t, p, b);
      } else if Recheck(s, t, p, b) {
        RecheckKeeps(s, t, p, b);
      } else {
        KillKeeps(s, t, p, b);
      }
    }
  }

  // ------------------------------------------------------------------- runs

  ghost predicate Init(s: State) {
    && s.queue == s.asked == s.served == [] && s.drive == Quiet && s.holder == map[]
    && forall p :: p in s.procs ==> s.procs[p].Running?
  }

  ghost predicate IsRun(run: seq<State>) {
    |run| > 0 && Init(run[0]) && forall i :: 0 < i < |run| ==> Next(run[i - 1], run[i])
  }

  lemma {:induction false} InvAt(run: seq<State>, i: nat)
    requires IsRun(run) && i < |run|
    ensures Inv(run[i])
  {
    hide Next;
    if i > 0 {
      InvAt(run, i - 1);
      StepKeeps(run[i - 1], run[i]);
    }
  }

  /** The queue never holds a buffer twice, and requests are served in the order of the calls,
      each once and none skipped. */
  lemma ServedInOrder(run: seq<State>, i: nat)
    requires IsRun(run) && i < |run|
    ensures NoneTwice(run[i].queue) && run[i].asked == run[i].served + run[i].queue
  {
    InvAt(run, i);
  }

  /** A process asleep in iderw has a request that the drive is working towards. */
  lemma SleepersAreQueued(run: seq<State>, i: nat, p: nat)
    requires IsRun(run) && i < |run| && p in run[i].procs && run[i].procs[p].Waiting? && run[i].procs[p].asleep
    ensures run[i].procs[p].b in run[i].queue && !run[i].drive.Quiet?
  {
    InvAt(run, i);
  }

  // ------------------------------------------------------------- refinement

  /** The buffers as the synchronous disk would have them: a finished request is done. */
  function Abs(s: State): seq<Buf> {
    if s.drive.Finished? && s.queue != [] && s.queue[0] < |s.bufs|
    then s.bufs[s.queue[0] := Served(s.bufs[s.queue[0]], s.drive.data)]
    else s.bufs
  }

  /** A step of the synchronous disk: a whole iderw on buffer b. */
  ghost predicate MemServe(s: State, t: State, b: nat) {
    && b < |s.bufs| && (exists p :: WaitsFor(s, p, b)) && !InSync(Abs(s)[b])
    && t.disk == MemDisk(s.disk, Abs(s)[b]) && Abs(t) == Abs(s)[b := MemBuf(s.disk, Abs(s)[b])]
  }

  ghost predicate MemChange(s: State, t: State, p: nat, b: nat, f: Buf) {
    && b < |s.bufs| && b in s.holder && s.holder[b] == p && p in s.procs && s.procs[p].Running?
    && t.disk == s.disk && Abs(t) == Abs(s)[b := f]
  }

  ghost predicate MemNext(s: State, t: State) {
    || (t.disk == s.disk && Abs(t) == Abs(s))
    || (exists b :: MemServe(s, t, b))
    || (exists p, b, f :: MemChange(s, t, p, b, f))
  }

  lemma FinishRefines(s: State, t: State)
    requires Inv(s) && Finish(s, t)
    ensures s.queue != [] && MemServe(s, t, s.queue[0])
  {
    var b := s.queue[0];
    assert b in s.queue && Queued(s, b);
    assert WaitsFor(s, s.holder[b], b);
  }

  lemma ChangeRefines(s: State, t: State, p: nat, b: nat, f: Buf)
    requires Inv(s) && Change(s, t, p, b, f)
    ensures MemChange(s, t, p, b, f)
  {
    ChangeKeeps(s, t, p, b, f);
    if s.drive.Finished? {
      assert s.queue[0] in s.queue;
      var c := s.queue[0];
      var g := Served(s.bufs[c], s.drive.data);
      assert c != b && s.bufs[b := f][c := g] == s.bufs[c := g][b := f];
    }
  }

  lemma InterruptRefines(s: State, t: State)
    requires Interrupt(s, t)
    ensures t.disk == s.disk && Abs(t) == Abs(s)
  {
  }

  lemma OtherRefines(s: State, t: State, p: nat, b: nat)
    requires Inv(s)
    requires Take(s, t, p, b) || Give(s, t, p, b) || Call(s, t, p, b) || Recheck(s, t, p, b) || Kill(s, t, p, b)
    ensures t.disk == s.disk && Abs(t) == Abs(s)
  {
    hide Waiters, Fifo;
  }

  /** Every step of the queued disk is a step of the synchronous one: either nothing, or a
      process changing a buffer that it holds, or one whole request. */
  lemma StepRefines(s: State, t: State)
    requires Inv(s) && Next(s, t)
    ensures MemNext(s, t)
  {
    hide Inv, Finish, Interrupt, Take, Change, Give, Call, Recheck, Kill, MemServe, MemChange;
    if Finish(s, t) {
      FinishRefines(s, t);
    } else if Interrupt(s, t) {
      InterruptRefines(s, t);
    } else {
      var p, b :| ProcStep(s, t, p, b);
      if f :| Change(s, t, p, b, f) {
        ChangeRefines(s, t, p, b, f);
      } else {
        OtherRefines(s, t, p, b);
      }
    }
  }

  lemma QueuedDiskRefines(run: seq<State>, i: nat)
    requires IsRun(run) && i + 1 < |run|
    ensures MemNext(run[i], run[i + 1])
  {
    hide MemNext, Next, Inv;
    InvAt(run, i);
    assert Next(run[i], run[i + 1]);
    StepRefines(run[i], run[i + 1]);
  }

  /** Request b, made in a state where its buffer was f, was served as memide would, when the
      disk was as in u. */
  ghost predicate ServedAs(u: State, v: State, s: State, b: nat, f: Buf) {
    && Finish(u, v) && u.queue != [] && u.queue[0] == b && b < |u.bufs| && u.bufs[b] == f
    && v.disk == MemDisk(u.disk, f)
    && b < |s.bufs| && Abs(s)[b] == MemBuf(u.disk, f)
  }

  ghost predicate Pending(s: State, b: nat, f: Buf) {
    && b in s.queue && b < |s.bufs| && s.bufs[b] == f
    && (s.drive.Finished? ==> s.queue[0] != b)
  }

  /** Buffer b stays as it is, or its request is served. */
  ghost predicate Steady(s: State, t: State, b: nat) {
    && b < |s.bufs| == |t.bufs|
    && (Pending(s, b, s.bufs[b]) ==> Pending(t, b, s.bufs[b]) || ServedAs(s, t, t, b, s.bufs[b]))
    && (!Pending(s, b, s.bufs[b]) ==> Abs(t)[b] == Abs(s)[b] && !Pending(t, b, t.bufs[b]))
  }

  lemma FinishSteady(s: State, t: State, p: nat, b: nat)
    requires Inv(s) && Finish(s, t) && WaitsFor(s, p, b)
    ensures Steady(s, t, b)
  {
    FinishRefines(s, t);
    hide Fifo;
  }

  lemma InterruptSteady(s: State, t: State, p: nat, b: nat)
    requires Inv(s) && Interrupt(s, t) && WaitsFor(s, p, b)
    ensures Steady(s, t, b)
  {
    hide Queued, DriveOk, NoneTwice;
    InterruptFifo(s, t);
    assert forall c :: c in s.queue <==> c in t.queue || c == s.queue[0];
  }

  lemma ChangeSteady(s: State, t: State, p: nat, b: nat, q: nat, c: nat, f: Buf)
    requires Inv(s) && Change(s, t, q, c, f) && WaitsFor(s, p, b)
    ensures Steady(s, t, b)
  {
    hide Queued, DriveOk, Fifo;
    ChangeRefines(s, t, q, c, f);
  }

  lemma CallSteady(s: State, t: State, p: nat, b: nat, q: nat, c: nat)
    requires Inv(s) && Call(s, t, q, c) && WaitsFor(s, p, b)
    ensures Steady(s, t, b)
  {
    hide Queued, Fifo;
    assert c != b;
    assert forall x :: x in t.queue <==> x in s.queue || x == c;
  }

  /** While p waits nothing but its own request touches its buffer. */
  lemma WaitStep(s: State, t: State, p: nat, b: nat)
    requires Inv(s) && Next(s, t) && WaitsFor(s, p, b)
    ensures Steady(s, t, b)
  {
    hide Queued, Fifo, DriveOk, Finish, Interrupt, Change, Call;
    if Finish(s, t) {
      FinishSteady(s, t, p, b);
    } else if Interrupt(s, t) {
      InterruptSteady(s, t, p, b);
    } else {
      var q, c :| ProcStep(s, t, q, c);
      if f :| Change(s, t, q, c, f) {
        ChangeSteady(s, t, p, b, q, c, f);
      } else if Call(s, t, q, c) {
        CallSteady(s, t, p, b, q, c);
      }
    }
  }

  ghost predicate WaitsFrom(run: seq<State>, i: nat, j: nat, p: nat, b: nat) {
    forall m :: i < m <= j && m < |run| ==> WaitsFor(run[m], p, b)
  }

  ghost predicate ServedBetween(run: seq<State>, i: nat, k: nat, j: nat, b: nat) {
    && i < k < j < |run| && b < |run[i].bufs|
    && ServedAs(run[k], run[k + 1], run[j], b, run[i].bufs[b])
  }

  lemma {:induction false} WaitRun(run: seq<State>, i: nat, j: nat, p: nat, b: nat)
    requires IsRun(run) && i < j < |run| && Call(run[i], run[i + 1], p, b) && WaitsFrom(run, i, j, p, b)
    ensures b < |run[j].bufs| && b < |run[i].bufs|
    ensures
      || Pending(run[j], b, run[i].bufs[b])
      || (!Pending(run[j], b, run[j].bufs[b]) && exists k: nat :: ServedBetween(run, i, k, j, b))
    decreases j
  {
    hide Next, Inv, Steady, Pending, Init, ServedAs;
    if j == i + 1 {
      InvAt(run, i);
      CallPending(run[i], run[j], p, b);
    } else {
      WaitRun(run, i, j - 1, p, b);
      InvAt(run, j - 1);
      assert WaitsFor(run[j - 1], p, b);
      assert Next(run[j - 1], run[j]);
      WaitStep(run[j - 1], run[j], p, b);
      SteadyRun(run, i, j - 1, j, b);
    }
  }

  lemma CallPending(s: State, t: State, p: nat, b: nat)
    requires Inv(s) && Call(s, t, p, b)
    ensures b < |t.bufs| && Pending(t, b, s.bufs[b])
  {
    CallKeeps(s, t, p, b);
    assert t.queue[|s.queue|] == b;
  }

  lemma SteadyRun(run: seq<State>, i: nat, h: nat, j: nat, b: nat)
    requires i < h < j == h + 1 < |run| && Steady(run[h], run[j], b) && b < |run[i].bufs|
    requires
      || Pending(run[h], b, run[i].bufs[b])
      || (!Pending(run[h], b, run[h].bufs[b]) && exists k: nat :: ServedBetween(run, i, k, h, b))
    ensures b < |run[j].bufs|
    ensures
      || Pending(run[j], b, run[i].bufs[b])
      || (!Pending(run[j], b, run[j].bufs[b]) && exists k: nat :: ServedBetween(run, i, k, j, b))
  {
    hide Abs, MemDisk, MemBuf, Next;
    if Pending(run[h], b, run[i].bufs[b]) {
      if ServedAs(run[h], run[j], run[j], b, run[h].bufs[b]) {
        assert ServedBetween(run, i, h, j, b);
      }
    } else {
      var k: nat :| ServedBetween(run, i, k, h, b);
      assert ServedBetween(run, i, k, j, b);
    }
  }

  /** An iderw called at i that can return at j has been served at one moment k in between, and
      the disk and the buffer are what memide's iderw makes of them at k. */
  lemma ReturnsAsMemide(run: seq<State>, i: nat, j: nat, p: nat, b: nat)
    requires IsRun(run) && i < j < |run| && Call(run[i], run[i + 1], p, b) && WaitsFrom(run, i, j, p, b)
    requires b < |run[j].bufs| && InSync(run[j].bufs[b])
    ensures b < |run[i].bufs|
    ensures exists k: nat ::
              && i < k < j && run[k].queue != [] && run[k].queue[0] == b
              && run[k + 1].disk == MemDisk(run[k].disk, run[i].bufs[b])
              && run[j].bufs[b] == MemBuf(run[k].disk, run[i].bufs[b])
  {
    WaitRun(run, i, j, p, b);
    InvAt(run, j);
    assert run[j].queue == [] || run[j].queue[0] in run[j].queue;
    assert forall c :: c in run[j].queue ==> Queued(run[j], c);
    var k: nat :| ServedBetween(run, i, k, j, b);
  }

  // --------------------------------------------------------------- progress

  /** Whatever is queued, the drive, its interrupt and a woken process can go on. */
  lemma DriveGoesOn(s: State)
    requires Inv(s)
    ensures s.queue != [] ==> exists t :: Finish(s, t) || Interrupt(s, t)
    ensures forall p, b: nat :: p in s.procs && s.procs[p] == Waiting(b, false) ==> exists t :: Recheck(s, t, p, b)
  {
    hide Fifo;
    forall p, b: nat | p in s.procs && s.procs[p] == Waiting(b, false)
      ensures exists t :: Recheck(s, t, p, b)
    {
      var t := s.(procs := s.procs[p := if InSync(s.bufs[b]) then Running else Waiting(b, true)]);
      assert Recheck(s, t, p, b);
    }
    if s.queue != [] {
      assert forall c :: c in s.queue ==> Queued(s, c);
      assert s.queue[0] in s.queue;
      if s.drive.Working? {
        var t := match s.drive.op
                 case Read(x) => s.(drive := Finished(s.drive.op, s.disk[x]))
                 case Write(x, block) => s.(disk := s.disk[x := block], drive := Finished(s.drive.op, block));
        assert Finish(s, t);
      } else {
        assert |s.queue| > 1 ==> s.queue[1] in s.queue;
        var b := s.queue[0];
        var t := s.(queue := s.queue[1..], served := s.served + [b],
                    bufs := s.bufs[b := Served(s.bufs[b], s.drive.data)],
                    procs := map p | p in s.procs :: Woken(s.procs[p], b),
                    drive := if |s.queue| > 1 then Working(OpOf(s.bufs[s.queue[1]])) else Quiet);
        assert Interrupt(s, t);
      }
    }
  }

  /** The process whose request an interrupt completes returns from iderw when it runs. */
  lemma InterruptReturns(s: State, t: State, u: State, p: nat, b: nat)
    requires Inv(s) && Interrupt(s, t) && s.queue[0] == b && WaitsFor(s, p, b) && Recheck(t, u, p, b)
    ensures u.procs[p].Running? && InSync(u.bufs[b])
  {
    hide Fifo, Waiters, DriveOk;
  }
}

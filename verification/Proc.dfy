/** proc.c: any number of CPUs sharing one process table. Each step is what one CPU does
    between two points where another CPU, or fork's writes outside ptable.lock, could
    interfere. */
module ProcMachine {
  import opened Params

  datatype Option<T> = None | Some(value: T)

  datatype PState = Unused | Embryo | Sleeping | Runnable | Running | Zombie
  datatype Chan = NoChan | OfProc(p: nat) | Other(x: int)

  /** `saved`: p->context holds the process's registers. `kstack`: its kernel stack is
      allocated. `making`: the EMBRYO child that its fork() is building. */
  datatype Proc = Proc(state: PState, pid: nat, parent: Option<nat>, chan: Chan, killed: bool,
                       kstack: bool, saved: bool, making: Option<nat>)

  /** What a CPU is executing. From Chosen to Back its `proc` points at p. Resumed, KLocked
      and Leaving hold ptable.lock on p's kernel stack; Chosen, Enter and Back hold it on
      the scheduler's. */
  datatype Cpu =
    | Scan
    | Locked
    | Chosen(p: nat)
    | Enter(p: nat)
    | Resumed(p: nat)
    | Kernel(p: nat)
    | KLocked(p: nat)
    | Leaving(p: nat)
    | Back(p: nat)

  /** `reaped` lists the pids that wait() has returned. */
  datatype State = State(procs: seq<Proc>, cpus: seq<Cpu>, lock: Owner, nextpid: nat, reaped: seq<nat>) {
    predicate On(c: nat, k: Cpu) {
      c < |cpus| && cpus[c] == k && (k.Scan? || k.Locked? || k.p < |procs|)
    }
    function Move(c: nat, k: Cpu): State
      requires c < |cpus|
    {
      this.(cpus := cpus[c := k])
    }
    function With(p: nat, q: Proc): State
      requires p < |procs|
    {
      this.(procs := procs[p := q])
    }
  }

  const INIT := 0

  predicate HasProc(k: Cpu) {
    !k.Scan? && !k.Locked?
  }
  predicate HoldsLock(k: Cpu) {
    !k.Scan? && !k.Kernel?
  }

  // ------------------------------------------------------ table operations

  function Woken(q: Proc, ch: Chan): Proc {
    if q.state == Sleeping && q.chan == ch then q.(state := Runnable) else q
  }

  /** wakeup1 */
  function Wakeup1(procs: seq<Proc>, ch: Chan): (r: seq<Proc>)
    ensures |r| == |procs|
    ensures forall i :: 0 <= i < |r| ==> r[i] == Woken(procs[i], ch)
  {
    seq(|procs|, i requires 0 <= i < |procs| => Woken(procs[i], ch))
  }

  ghost predicate HasZombie(procs: seq<Proc>, p: nat) {
    exists i :: 0 <= i < |procs| && procs[i].parent == Some(p) && procs[i].state == Zombie
  }

  ghost predicate HasChild(procs: seq<Proc>, p: nat) {
    exists i :: 0 <= i < |procs| && procs[i].parent == Some(p)
  }

  /** What exit of p, whose parent is pp, makes of process i; `z`: p has a zombie child. */
  function ExitedProc(q: Proc, i: nat, p: nat, pp: nat, z: bool): Proc {
    var a := Woken(q, OfProc(pp));
    var b := if z then Woken(a, OfProc(INIT)) else a;
    var r := if b.parent == Some(p) then b.(parent := Some(INIT)) else b;
    if i == p then r.(state := Zombie) else r
  }

  /** exit: wake the parent, give the children to init, wake init if one is a zombie. */
  ghost function Exited(procs: seq<Proc>, p: nat): (r: seq<Proc>)
    requires p < |procs| && procs[p].parent.Some?
    ensures |r| == |procs|
    ensures forall i :: 0 <= i < |r| ==>
              r[i] == ExitedProc(procs[i], i, p, procs[p].parent.value, HasZombie(procs, p))
  {
    seq(|procs|, i requires 0 <= i < |procs| =>
      ExitedProc(procs[i], i, p, procs[p].parent.value, HasZombie(procs, p)))
  }

  function Reaped(q: Proc): Proc {
    q.(state := Unused, pid := 0, parent := None, killed := false, kstack := false, saved := false)
  }

  // ------------------------------------------------------------------ steps

  /** The scheduler's loop, and the two halves of swtch: Enter loads p->context, Leaving
      saves it. */
  ghost predicate SchedStep(s: State, t: State, c: nat) {
    && c < |s.cpus| && s.On(c, s.cpus[c])
    && match s.cpus[c]
       case Scan => s.lock == Free && t == s.(lock := Held(c)).Move(c, Locked)
       case Locked => t == s.(lock := Free).Move(c, Scan) || exists p :: PickStep(s, t, c, p)
       case Chosen(p) => t == s.With(p, s.procs[p].(state := Running)).Move(c, Enter(p))
       case Enter(p) => t == s.With(p, s.procs[p].(saved := false)).Move(c, Resumed(p))
       case Resumed(p) => t == s.With(p, s.procs[p].(chan := NoChan)).Move(c, KLocked(p))
       case Leaving(p) => t == s.With(p, s.procs[p].(saved := true)).Move(c, Back(p))
       case Back(_) => t == s.Move(c, Locked)
       case _ => false
  }

  ghost predicate PickStep(s: State, t: State, c: nat, p: nat) {
    s.On(c, Locked) && p < |s.procs| && s.procs[p].state == Runnable && t == s.Move(c, Chosen(p))
  }

  ghost predicate LockStep(s: State, t: State, c: nat, p: nat) {
    || (s.On(c, Kernel(p)) && s.lock == Free && t == s.(lock := Held(c)).Move(c, KLocked(p)))
    || (s.On(c, KLocked(p)) && t == s.(lock := Free).Move(c, Kernel(p)))
  }

  ghost predicate Yield(s: State, t: State, c: nat, p: nat) {
    s.On(c, KLocked(p)) && t == s.With(p, s.procs[p].(state := Runnable)).Move(c, Leaving(p))
  }

  /** sleep on anything but a process. */
  ghost predicate Sleep(s: State, t: State, c: nat, p: nat, x: int) {
    s.On(c, KLocked(p)) && t == s.With(p, Bedded(s.procs[p], Other(x))).Move(c, Leaving(p))
  }

  ghost predicate GiveUp(s: State, t: State, c: nat, p: nat) {
    Yield(s, t, c, p) || exists x :: Sleep(s, t, c, p, x)
  }

  function Bedded(q: Proc, ch: Chan): Proc {
    q.(state := Sleeping, chan := ch)
  }

  /** wait() with children but no zombie among them. */
  ghost predicate WaitSleep(s: State, t: State, c: nat, p: nat) {
    && s.On(c, KLocked(p)) && s.procs[p].making == None && !HasZombie(s.procs, p)
    && HasChild(s.procs, p) && !s.procs[p].killed
    && t == s.With(p, Bedded(s.procs[p], OfProc(p))).Move(c, Leaving(p))
  }

  ghost predicate WaitReap(s: State, t: State, c: nat, p: nat, q: nat) {
    && s.On(c, KLocked(p)) && s.procs[p].making == None
    && q < |s.procs| && s.procs[q].parent == Some(p) && s.procs[q].state == Zombie
    && t == s.(reaped := s.reaped + [s.procs[q].pid]).With(q, Reaped(s.procs[q]))
  }

  ghost predicate Exit(s: State, t: State, c: nat, p: nat) {
    && s.On(c, KLocked(p)) && p != INIT && s.procs[p].making == None && s.procs[p].parent.Some?
    && t == s.(procs := Exited(s.procs, p)).Move(c, Leaving(p))
  }

  ghost predicate Wakeup(s: State, t: State, c: nat, p: nat, ch: Chan) {
    s.On(c, KLocked(p)) && t == s.(procs := Wakeup1(s.procs, ch))
  }

  /** wakeup by an interrupt that a CPU takes in scheduler(), with no process of its own. */
  ghost predicate IdleWakeup(s: State, t: State, c: nat, ch: Chan) {
    s.On(c, Locked) && t == s.(procs := Wakeup1(s.procs, ch))
  }

  /** kill on whichever slot matches, even a stale one. */
  ghost predicate Kill(s: State, t: State, c: nat, p: nat, q: nat) {
    && s.On(c, KLocked(p)) && q < |s.procs|
    && t == s.With(q, Killed(s.procs[q]))
  }

  function Killed(q: Proc): Proc {
    q.(killed := true, state := if q.state == Sleeping then Runnable else q.state)
  }

  ghost predicate Alloc(s: State, t: State, c: nat, p: nat, q: nat) {
    && s.On(c, KLocked(p)) && s.procs[p].making == None && q < |s.procs| && s.procs[q].state == Unused
    && t == s.(nextpid := s.nextpid + 1)
             .With(q, s.procs[q].(state := Embryo, pid := s.nextpid))
             .With(p, s.procs[p].(making := Some(q)))
  }

  /** fork's writes to its EMBRYO child, made without ptable.lock: stack and context, the
      parent, going RUNNABLE, or giving up. */
  ghost predicate Fork(s: State, t: State, c: nat, p: nat, q: nat) {
    && s.On(c, Kernel(p)) && q < |s.procs| && s.procs[p].making == Some(q) && p != q
    && (|| t == s.With(q, s.procs[q].(kstack := true, saved := true))
        || Adopt(s, t, p, q) || Launch(s, t, p, q) || Abandon(s, t, p, q))
  }
  ghost predicate Adopt(s: State, t: State, p: nat, q: nat) {
    p < |s.procs| && q < |s.procs| && s.procs[q].kstack && t == s.With(q, s.procs[q].(parent := Some(p)))
  }
  ghost predicate Launch(s: State, t: State, p: nat, q: nat) {
    && p < |s.procs| && q < |s.procs| && s.procs[q].kstack && s.procs[q].parent == Some(p)
    && t == s.With(q, s.procs[q].(state := Runnable)).With(p, s.procs[p].(making := None))
  }
  ghost predicate Abandon(s: State, t: State, p: nat, q: nat) {
    && p < |s.procs| && q < |s.procs| && s.procs[q].parent == None
    && t == s.With(q, s.procs[q].(state := Unused, kstack := false, saved := false))
             .With(p, s.procs[p].(making := None))
  }

  ghost predicate ProcStep(s: State, t: State, c: nat, p: nat) {
    || LockStep(s, t, c, p) || GiveUp(s, t, c, p) || WaitSleep(s, t, c, p) || Exit(s, t, c, p)
    || (exists q :: WaitReap(s, t, c, p, q)) || (exists ch :: Wakeup(s, t, c, p, ch))
    || (exists q :: Kill(s, t, c, p, q)) || (exists q :: Alloc(s, t, c, p, q))
    || (exists q :: Fork(s, t, c, p, q))
  }

  ghost predicate CpuStep(s: State, t: State, c: nat) {
    SchedStep(s, t, c) || (exists ch :: IdleWakeup(s, t, c, ch)) || exists p :: ProcStep(s, t, c, p)
  }

  ghost predicate Next(s: State, t: State) {
    exists c :: CpuStep(s, t, c)
  }

  // ------------------------------------------------------------- invariants

  ghost predicate Locks(s: State) {
    && (forall c :: 0 <= c < |s.cpus| ==> (HoldsLock(s.cpus[c]) <==> s.lock == Held(c)))
    && (s.lock.Held? ==> s.lock.who < |s.cpus|)
  }

  /** Each CPU's process is in the state, and has the context and stack, that the point the
      CPU has reached calls for. */
  predicate Fits(k: Cpu, q: Proc) {
    && q.kstack
    && match k
       case Chosen(_) => q.state == Runnable && q.saved
       case Enter(_) => q.state == Running && q.saved
       case Leaving(_) => (q.state == Runnable || q.state == Sleeping || q.state == Zombie) && !q.saved
       case Back(_) => (q.state == Runnable || q.state == Sleeping || q.state == Zombie) && q.saved
       case _ => q.state == Running && !q.saved
  }

  ghost predicate CpusOk(s: State) {
    && (forall c :: 0 <= c < |s.cpus| && HasProc(s.cpus[c]) ==>
          s.cpus[c].p < |s.procs| && Fits(s.cpus[c], s.procs[s.cpus[c].p]))
    && (forall c, d :: 0 <= c < d < |s.cpus| && HasProc(s.cpus[c]) && HasProc(s.cpus[d]) ==>
          s.cpus[c].p != s.cpus[d].p)
  }

  ghost predicate OnCpu(s: State, p: nat) {
    exists c :: 0 <= c < |s.cpus| && HasProc(s.cpus[c]) && s.cpus[c].p == p
  }

  /** A process that no CPU has is not RUNNING and, once launched, is ready to be resumed. */
  predicate Parked(q: Proc) {
    match q.state
    case Running => false
    case Unused => !q.saved && !q.kstack
    case Embryo => q.saved == q.kstack
    case _ => q.saved && q.kstack
  }

  ghost predicate RestOk(s: State) {
    forall p :: 0 <= p < |s.procs| && !OnCpu(s, p) ==> Parked(s.procs[p])
  }

  predicate Alive(q: Proc) {
    q.state != Unused && q.state != Embryo && q.state != Zombie
  }

  ghost predicate FamilyFor(procs: seq<Proc>, i: nat)
    requires i < |procs|
  {
    var q := procs[i];
    && (q.state == Unused || i == INIT ==> q.parent == None)
    && (q.state != Unused && q.state != Embryo && i != INIT ==> q.parent.Some?)
    && (q.parent.Some? ==> q.parent.value != i && q.parent.value < |procs| && Alive(procs[q.parent.value]))
    && (q.state == Embryo && q.parent.Some? ==> procs[q.parent.value].making == Some(i))
    && (q.making.Some? ==> Alive(q) && q.making.value < |procs| && procs[q.making.value].state == Embryo)
    && (q.making.Some? && procs[q.making.value].parent.Some? ==> procs[q.making.value].parent == Some(i))
    && (q.state == Sleeping && q.chan == OfProc(i) ==> !HasZombie(procs, i))
  }

  /** Parents are alive; nobody sleeps in wait with a zombie child; an EMBRYO has one maker. */
  ghost predicate Family(s: State) {
    && |s.procs| > INIT && Alive(s.procs[INIT])
    && (forall i :: 0 <= i < |s.procs| ==> FamilyFor(s.procs, i))
    && (forall i, j :: 0 <= i < j < |s.procs| && s.procs[i].making.Some? ==>
          s.procs[i].making != s.procs[j].making)
  }

  ghost predicate Pids(s: State) {
    && (forall i :: 0 <= i < |s.procs| && s.procs[i].state != Unused ==>
          s.procs[i].pid < s.nextpid && s.procs[i].pid !in s.reaped)
    && (forall i, j :: 0 <= i < j < |s.procs| && s.procs[i].state != Unused && s.procs[j].state != Unused ==>
          s.procs[i].pid != s.procs[j].pid)
    && (forall k :: 0 <= k < |s.reaped| ==> s.reaped[k] < s.nextpid)
    && (forall j, k :: 0 <= j < k < |s.reaped| ==> s.reaped[j] != s.reaped[k])
  }

  ghost predicate Inv(s: State) {
    Locks(s) && CpusOk(s) && RestOk(s) && Family(s) && Pids(s)
  }

  /** userinit has made init RUNNABLE; every CPU is about to schedule. */
  ghost predicate Init(s: State) {
    && |s.procs| > INIT && s.procs[INIT] == Proc(Runnable, 1, None, NoChan, false, true, true, None)
    && (forall i :: 0 <= i < |s.procs| && i != INIT ==>
          s.procs[i] == Proc(Unused, 0, None, NoChan, false, false, false, None))
    && (forall c :: 0 <= c < |s.cpus| ==> s.cpus[c] == Scan)
    && s.lock == Free && s.nextpid == 2 && s.reaped == []
  }

  lemma InitOk(s: State)
    requires Init(s)
    ensures Inv(s)
  {
  }

  // ------------------------------------------------------ context hand-off

  ghost predicate HandOff(s: State) {
    CpusOk(s) && RestOk(s)
  }

  /** While c holds the lock, every other CPU is scanning or runs a RUNNING process. */
  lemma OthersRun(s: State, c: nat, d: nat)
    requires Locks(s) && CpusOk(s) && s.lock == Held(c) && d < |s.cpus| && d != c && HasProc(s.cpus[d])
    ensures s.cpus[d].Kernel? && s.procs[s.cpus[d].p].state == Running
  {
    assert !HoldsLock(s.cpus[d]);
    assert Fits(s.cpus[d], s.procs[s.cpus[d].p]);
  }

  /** So a process that is not RUNNING is on no CPU but perhaps c. */
  lemma NotElsewhere(s: State, c: nat, q: nat)
    requires Locks(s) && CpusOk(s) && s.lock == Held(c) && q < |s.procs|
    requires s.procs[q].state != Running
    requires c < |s.cpus| && HasProc(s.cpus[c]) ==> s.cpus[c].p != q
    ensures !OnCpu(s, q)
  {
    forall d | 0 <= d < |s.cpus| && HasProc(s.cpus[d])
      ensures s.cpus[d].p != q
    {
      if d != c {
        OthersRun(s, c, d);
      }
    }
  }

  /** One CPU moves on with the same process, takes a free one, or lets its own go. */
  lemma CpuMoves(s: State, t: State, c: nat)
    requires HandOff(s) && c < |s.cpus| && |t.procs| == |s.procs| && |t.cpus| == |s.cpus|
    requires t.cpus == s.cpus[c := t.cpus[c]]
    requires HasProc(s.cpus[c]) ==> s.cpus[c].p < |s.procs|
    requires forall i :: 0 <= i < |s.procs| ==>
               t.procs[i] == s.procs[i] || (HasProc(s.cpus[c]) && s.cpus[c].p == i)
    requires HasProc(t.cpus[c]) ==>
               && t.cpus[c].p < |t.procs| && Fits(t.cpus[c], t.procs[t.cpus[c].p])
               && if HasProc(s.cpus[c]) then t.cpus[c].p == s.cpus[c].p else !OnCpu(s, t.cpus[c].p)
    requires HasProc(s.cpus[c]) && !HasProc(t.cpus[c]) ==> Parked(t.procs[s.cpus[c].p])
    ensures HandOff(t)
  {
    hide Fits, Parked;
    forall d | 0 <= d < |t.cpus| && d != c && HasProc(t.cpus[d])
      ensures HasProc(t.cpus[c]) ==> t.cpus[d].p != t.cpus[c].p
      ensures t.cpus[d].p < |t.procs| && t.procs[t.cpus[d].p] == s.procs[t.cpus[d].p]
    {
      assert s.cpus[d] == t.cpus[d];
    }
    forall d | 0 <= d < |s.cpus| && d != c && HasProc(s.cpus[d])
      ensures OnCpu(t, s.cpus[d].p)
    {
      assert s.cpus[d] == t.cpus[d];
    }
    assert HasProc(t.cpus[c]) ==> OnCpu(t, t.cpus[c].p);
    forall i | 0 <= i < |t.procs| && !OnCpu(t, i)
      ensures Parked(t.procs[i])
    {
      if OnCpu(s, i) {
        var d :| 0 <= d < |s.cpus| && HasProc(s.cpus[d]) && s.cpus[d].p == i;
        assert d == c;
      }
    }
  }

  predicate SameRun(a: Proc, b: Proc) {
    a.state == b.state && a.kstack == b.kstack && a.saved == b.saved
  }

  /** No CPU moves; only processes that no CPU has change in a way that matters here. */
  lemma TableMoves(s: State, t: State)
    requires HandOff(s) && |t.procs| == |s.procs| && t.cpus == s.cpus
    requires forall i :: 0 <= i < |s.procs| ==>
               SameRun(t.procs[i], s.procs[i]) || (!OnCpu(s, i) && Parked(t.procs[i]))
    ensures HandOff(t)
  {
    forall c | 0 <= c < |t.cpus| && HasProc(t.cpus[c])
      ensures Fits(t.cpus[c], t.procs[t.cpus[c].p])
    {
      assert OnCpu(s, s.cpus[c].p);
    }
    forall i | 0 <= i < |t.procs| && !OnCpu(t, i)
      ensures Parked(t.procs[i])
    {
      assert !OnCpu(s, i) by {
        if c :| 0 <= c < |s.cpus| && HasProc(s.cpus[c]) && s.cpus[c].p == i {
          assert OnCpu(t, i);
        }
      }
    }
  }

  lemma SchedRuns(s: State, t: State, c: nat)
    requires Locks(s) && HandOff(s) && SchedStep(s, t, c)
    ensures Locks(t) && HandOff(t)
  {
    if p: nat :| s.cpus[c].Locked? && PickStep(s, t, c, p) {
      NotElsewhere(s, c, p);
      assert Parked(s.procs[p]);
    }
    assert HasProc(s.cpus[c]) ==> Fits(s.cpus[c], s.procs[s.cpus[c].p]);
    CpuMoves(s, t, c);
    hide CpusOk, RestOk;
  }

  lemma GiveUpRuns(s: State, t: State, c: nat, p: nat)
    requires Locks(s) && HandOff(s) && (GiveUp(s, t, c, p) || WaitSleep(s, t, c, p) || LockStep(s, t, c, p))
    ensures Locks(t) && HandOff(t)
  {
    assert Fits(s.cpus[c], s.procs[p]);
    CpuMoves(s, t, c);
    hide CpusOk, RestOk;
  }

  /** Waking sleepers, under the lock, disturbs no CPU. */
  lemma WakeRuns(s: State, c: nat, ch: Chan)
    requires Locks(s) && HandOff(s) && s.lock == Held(c) && c < |s.cpus| && (s.cpus[c].KLocked? || s.cpus[c].Locked?)
    ensures HandOff(s.(procs := Wakeup1(s.procs, ch)))
  {
    assert HasProc(s.cpus[c]) ==> Fits(s.cpus[c], s.procs[s.cpus[c].p]);
    forall i | 0 <= i < |s.procs| && s.procs[i].state == Sleeping
      ensures !OnCpu(s, i) && Parked(s.procs[i])
    {
      NotElsewhere(s, c, i);
    }
    hide OnCpu;
    TableMoves(s, s.(procs := Wakeup1(s.procs, ch)));
  }

  /** A process the lock's holder sees in any state but RUNNING is on no CPU. */
  lemma SlotMoves(s: State, t: State, c: nat, q: nat, n: Proc)
    requires Locks(s) && HandOff(s) && s.lock == Held(c) && c < |s.cpus| && s.cpus[c].KLocked?
    requires q < |s.procs| && t == s.With(q, n)
    requires SameRun(n, s.procs[q]) || (s.procs[q].state != Running && Parked(n))
    ensures HandOff(t)
  {
    assert Fits(s.cpus[c], s.procs[s.cpus[c].p]);
    if !SameRun(n, s.procs[q]) {
      NotElsewhere(s, c, q);
    }
    TableMoves(s, t);
  }

  function Reparented(procs: seq<Proc>, p: nat): (r: seq<Proc>)
    ensures |r| == |procs|
    ensures forall i :: 0 <= i < |r| ==>
              r[i] == if procs[i].parent == Some(p) then procs[i].(parent := Some(INIT)) else procs[i]
  {
    seq(|procs|, i requires 0 <= i < |procs| =>
      if procs[i].parent == Some(p) then procs[i].(parent := Some(INIT)) else procs[i])
  }

  lemma ReparentRuns(s: State, p: nat)
    requires HandOff(s)
    ensures HandOff(s.(procs := Reparented(s.procs, p)))
  {
    hide CpusOk, RestOk, OnCpu;
    TableMoves(s, s.(procs := Reparented(s.procs, p)));
  }

  lemma ExitRuns(s: State, t: State, c: nat, p: nat)
    requires Locks(s) && HandOff(s) && Exit(s, t, c, p)
    ensures Locks(t) && HandOff(t)
  {
    var a := s.(procs := Wakeup1(s.procs, OfProc(s.procs[p].parent.value)));
    var b := if HasZombie(s.procs, p) then a.(procs := Wakeup1(a.procs, OfProc(INIT))) else a;
    assert HandOff(b) by {
      WakeRuns(s, c, OfProc(s.procs[p].parent.value));
      WakeRuns(a, c, OfProc(INIT));
    }
    var r := b.(procs := Reparented(b.procs, p));
    ReparentRuns(b, p);
    assert Fits(r.cpus[c], r.procs[p]);
    assert forall i :: 0 <= i < |s.procs| && i != p ==> t.procs[i] == r.procs[i];
    hide HasZombie, CpusOk, RestOk, Exited;
    CpuMoves(r, t, c);
  }

  lemma ForkRuns(s: State, t: State, c: nat, p: nat, q: nat)
    requires HandOff(s) && Family(s) && Fork(s, t, c, p, q)
    ensures HandOff(t)
  {
    assert FamilyFor(s.procs, p) && s.procs[q].state == Embryo;
    forall d | 0 <= d < |s.cpus| && HasProc(s.cpus[d])
      ensures s.cpus[d].p != q
    {
      assert Fits(s.cpus[d], s.procs[s.cpus[d].p]);
    }
    assert !OnCpu(s, q);
    hide Family, FamilyFor;
    TableMoves(s, t);
  }

  // ------------------------------------------------------------- the family

  /** Family depends on state, parent, making and chan only; this is its effect of changing
      one process's run state between live states. */
  lemma FamilyLive(s: State, t: State, p: nat, n: Proc)
    requires Family(s) && p < |s.procs| && t.procs == s.procs[p := n]
    requires Alive(s.procs[p]) && Alive(n) && n.parent == s.procs[p].parent && n.making == s.procs[p].making
    requires n.state == Sleeping && n.chan == OfProc(p) ==> !HasZombie(s.procs, p)
    ensures Family(t)
  {
    forall i | 0 <= i < |s.procs|
      ensures HasZombie(t.procs, i) ==> HasZombie(s.procs, i)
    {
      if HasZombie(t.procs, i) {
        var k :| 0 <= k < |t.procs| && t.procs[k].parent == Some(i) && t.procs[k].state == Zombie;
        assert s.procs[k] == t.procs[k];
      }
    }
    hide HasZombie;
    forall i | 0 <= i < |t.procs|
      ensures FamilyFor(t.procs, i)
    {
      assert FamilyFor(s.procs, i);
    }
  }

  ghost predicate Kin(a: Proc, b: Proc) {
    a.parent == b.parent && a.making == b.making
  }

  /** Nothing the family depends on changes, except that sleepers may wake. */
  lemma FamilyWakes(s: State, t: State)
    requires Family(s) && |t.procs| == |s.procs|
    requires forall i :: 0 <= i < |s.procs| ==>
               && Kin(t.procs[i], s.procs[i]) && t.procs[i].chan == s.procs[i].chan
               && (t.procs[i].state == s.procs[i].state
                   || (s.procs[i].state == Sleeping && t.procs[i].state == Runnable))
    ensures Family(t)
  {
    forall i | 0 <= i < |s.procs|
      ensures HasZombie(t.procs, i) ==> HasZombie(s.procs, i)
    {
      if HasZombie(t.procs, i) {
        var k :| 0 <= k < |t.procs| && t.procs[k].parent == Some(i) && t.procs[k].state == Zombie;
        assert s.procs[k].state == Zombie;
      }
    }
    hide HasZombie;
    forall i | 0 <= i < |t.procs|
      ensures FamilyFor(t.procs, i)
    {
      assert FamilyFor(s.procs, i);
    }
  }

  lemma SchedFamily(s: State, t: State, c: nat)
    requires CpusOk(s) && Family(s) && SchedStep(s, t, c)
    ensures Family(t)
  {
    if HasProc(s.cpus[c]) {
      var p := s.cpus[c].p;
      assert Fits(s.cpus[c], s.procs[p]);
      if s.cpus[c].Chosen? || s.cpus[c].Resumed? {
        FamilyLive(s, t, p, t.procs[p]);
      } else {
        FamilyWakes(s, t);
      }
    } else {
      assert t.procs == s.procs;
    }
  }

  lemma GiveUpFamily(s: State, t: State, c: nat, p: nat)
    requires CpusOk(s) && Family(s) && (GiveUp(s, t, c, p) || WaitSleep(s, t, c, p))
    ensures Family(t)
  {
    assert Fits(s.cpus[c], s.procs[p]);
    FamilyLive(s, t, p, t.procs[p]);
  }

  lemma ReapFamily(s: State, t: State, c: nat, p: nat, q: nat)
    requires Family(s) && WaitReap(s, t, c, p, q)
    ensures Family(t)
  {
    forall i | 0 <= i < |s.procs|
      ensures HasZombie(t.procs, i) ==> HasZombie(s.procs, i)
      ensures s.procs[i].parent != Some(q) && s.procs[i].making != Some(q)
    {
      assert FamilyFor(s.procs, i);
      if HasZombie(t.procs, i) {
        var k :| 0 <= k < |t.procs| && t.procs[k].parent == Some(i) && t.procs[k].state == Zombie;
        assert s.procs[k] == t.procs[k];
      }
    }
    hide HasZombie;
    forall i | 0 <= i < |t.procs|
      ensures FamilyFor(t.procs, i)
    {
      assert FamilyFor(s.procs, i) && FamilyFor(s.procs, q);
    }
  }

  lemma AllocFamily(s: State, t: State, c: nat, p: nat, q: nat)
    requires CpusOk(s) && Family(s) && Alloc(s, t, c, p, q)
    ensures Family(t)
  {
    assert Fits(s.cpus[c], s.procs[p]);
    forall i | 0 <= i < |s.procs|
      ensures HasZombie(t.procs, i) ==> HasZombie(s.procs, i)
      ensures s.procs[i].parent != Some(q) && s.procs[i].making != Some(q)
    {
      assert FamilyFor(s.procs, i);
      if HasZombie(t.procs, i) {
        var k :| 0 <= k < |t.procs| && t.procs[k].parent == Some(i) && t.procs[k].state == Zombie;
        assert s.procs[k].state == Zombie && s.procs[k].parent == Some(i);
      }
    }
    hide HasZombie;
    forall i | 0 <= i < |t.procs|
      ensures FamilyFor(t.procs, i)
    {
      assert FamilyFor(s.procs, i) && FamilyFor(s.procs, q);
    }
  }

  /** Changes confined to an EMBRYO and its maker create no zombie. */
  lemma NoNewZombie(procs: seq<Proc>, after: seq<Proc>, i: nat)
    requires |after| == |procs|
    requires forall k :: 0 <= k < |procs| && after[k].state == Zombie ==>
               procs[k].state == Zombie && procs[k].parent == after[k].parent
    ensures HasZombie(after, i) ==> HasZombie(procs, i)
  {
    if HasZombie(after, i) {
      var k :| 0 <= k < |after| && after[k].parent == Some(i) && after[k].state == Zombie;
      assert procs[k].state == Zombie;
    }
  }

  lemma ForkFamilyFor(s: State, t: State, p: nat, q: nat, i: nat)
    requires p < |s.procs| && q < |s.procs| && i < |s.procs| && p != q && q != INIT
    requires FamilyFor(s.procs, i) && FamilyFor(s.procs, p) && FamilyFor(s.procs, q)
    requires i != p ==> s.procs[i].making != Some(q)
    requires s.procs[p].making == Some(q) && s.procs[q].state == Embryo && Alive(s.procs[p])
    requires Adopt(s, t, p, q) || Launch(s, t, p, q) || Abandon(s, t, p, q)
    ensures FamilyFor(t.procs, i)
  {
    hide HasZombie;
    NoNewZombie(s.procs, t.procs, i);
  }

  lemma ForkFamily(s: State, t: State, c: nat, p: nat, q: nat)
    requires CpusOk(s) && Family(s) && Fork(s, t, c, p, q)
    ensures Family(t)
  {
    assert Fits(s.cpus[c], s.procs[p]);
    assert FamilyFor(s.procs, p) && FamilyFor(s.procs, q);
    if t == s.With(q, s.procs[q].(kstack := true, saved := true)) {
      FamilyWakes(s, t);
    } else {
      forall i | 0 <= i < |t.procs|
        ensures FamilyFor(t.procs, i)
      {
        ForkFamilyFor(s, t, p, q, i);
      }
      hide FamilyFor;
    }
  }

  lemma ExitedIs(q: Proc, i: nat, p: nat, pp: nat, z: bool)
    ensures var r := ExitedProc(q, i, p, pp, z);
            && r.making == q.making && r.chan == q.chan && r.pid == q.pid && r.killed == q.killed
            && r.parent == (if q.parent == Some(p) then Some(INIT) else q.parent)
            && (i == p ==> r.state == Zombie)
            && (i != p ==> r.state == q.state || (q.state == Sleeping && r.state == Runnable))
            && (i != p && (q.chan == OfProc(pp) || (z && q.chan == OfProc(INIT))) ==> r.state != Sleeping)
  {
  }

  /** What exit leaves of process i. */
  lemma ExitedAt(procs: seq<Proc>, p: nat, i: nat)
    requires p < |procs| && procs[p].parent.Some? && i < |procs|
    ensures var q, r := procs[i], Exited(procs, p)[i];
            && r.making == q.making && r.chan == q.chan && r.pid == q.pid
            && r.parent == (if q.parent == Some(p) then Some(INIT) else q.parent)
            && (i == p ==> r.state == Zombie)
            && (i != p ==> r.state == q.state || (q.state == Sleeping && r.state == Runnable))
            && (i != p && q.chan == OfProc(procs[p].parent.value) ==> r.state != Sleeping)
            && (i != p && HasZombie(procs, p) && q.chan == OfProc(INIT) ==> r.state != Sleeping)
  {
    hide HasZombie, Exited, ExitedProc;
    ExitedIs(procs[i], i, p, procs[p].parent.value, HasZombie(procs, p));
  }

  lemma ExitZombies(s: State, p: nat, i: nat)
    requires Family(s) && p < |s.procs| && s.procs[p].parent.Some? && i < |s.procs|
    ensures HasZombie(Exited(s.procs, p), i) ==>
              HasZombie(s.procs, i) || Some(i) == s.procs[p].parent || (i == INIT && HasZombie(s.procs, p))
  {
    var r := Exited(s.procs, p);
    if HasZombie(r, i) {
      var k :| 0 <= k < |r| && r[k].parent == Some(i) && r[k].state == Zombie;
      ExitedAt(s.procs, p, k);
      assert FamilyFor(s.procs, p);
      if k != p {
        assert s.procs[k].state == Zombie;
      }
    }
  }

  lemma FamilyAt(s: State, i: nat)
    requires Family(s) && i < |s.procs|
    ensures FamilyFor(s.procs, i) && |s.procs| > INIT && Alive(s.procs[INIT])
  {
  }

  lemma ExitFamilyFor(s: State, p: nat, i: nat)
    requires Family(s) && p < |s.procs| && p != INIT && i < |s.procs|
    requires s.procs[p].making == None && s.procs[p].parent.Some? && Alive(s.procs[p])
    ensures FamilyFor(Exited(s.procs, p), i)
  {
    hide Exited, Family, HasZombie;
    var q := s.procs[i];
    FamilyAt(s, i);
    FamilyAt(s, p);
    ExitedAt(s.procs, p, i);
    ExitZombies(s, p, i);
    ExitedAt(s.procs, p, INIT);
    if q.parent.Some? {
      ExitedAt(s.procs, p, q.parent.value);
    }
    if q.making.Some? {
      ExitedAt(s.procs, p, q.making.value);
      FamilyAt(s, q.making.value);
    }
  }

  lemma ExitFamily(s: State, t: State, c: nat, p: nat)
    requires CpusOk(s) && Family(s) && Exit(s, t, c, p)
    ensures Family(t)
  {
    assert Fits(s.cpus[c], s.procs[p]);
    hide Exited;
    forall i | 0 <= i < |t.procs|
      ensures FamilyFor(t.procs, i) && t.procs[i].making == s.procs[i].making
    {
      ExitedAt(s.procs, p, i);
      ExitFamilyFor(s, p, i);
    }
    ExitedAt(s.procs, p, INIT);
    hide FamilyFor;
  }

  // ------------------------------------------------------------------- pids

  lemma PidsSame(s: State, t: State)
    requires Pids(s) && t.nextpid == s.nextpid && t.reaped == s.reaped && |t.procs| == |s.procs|
    requires forall i :: 0 <= i < |s.procs| && t.procs[i].state != Unused ==>
               s.procs[i].state != Unused && t.procs[i].pid == s.procs[i].pid
    ensures Pids(t)
  {
  }

  lemma ReapPids(s: State, t: State, c: nat, p: nat, q: nat)
    requires Pids(s) && WaitReap(s, t, c, p, q)
    ensures Pids(t)
  {
  }

  lemma AllocPids(s: State, t: State, c: nat, p: nat, q: nat)
    requires Pids(s) && Alloc(s, t, c, p, q) && s.procs[p].state != Unused
    ensures Pids(t)
  {
  }

  // -------------------------------------------------------------- all steps

  lemma SchedKeeps(s: State, t: State, c: nat)
    requires Inv(s) && SchedStep(s, t, c)
    ensures Inv(t)
  {
    SchedRuns(s, t, c);
    SchedFamily(s, t, c);
    assert HasProc(s.cpus[c]) ==> Fits(s.cpus[c], s.procs[s.cpus[c].p]);
    PidsSame(s, t);
  }

  lemma ProcKeeps(s: State, t: State, c: nat, p: nat)
    requires Inv(s) && ProcStep(s, t, c, p)
    ensures Inv(t)
  {
    assert Fits(s.cpus[c], s.procs[p]);
    hide Fits, Parked, Family, Pids, CpusOk, RestOk, Locks, Exit, Fork, WaitReap, Alloc, Kill;
    if LockStep(s, t, c, p) {
      GiveUpRuns(s, t, c, p);
      SameTable(s, t);
    } else if GiveUp(s, t, c, p) || WaitSleep(s, t, c, p) {
      GiveUpRuns(s, t, c, p);
      GiveUpFamily(s, t, c, p);
      GiveUpPids(s, t, c, p);
    } else if Exit(s, t, c, p) {
      ExitRuns(s, t, c, p);
      ExitFamily(s, t, c, p);
      ExitPids(s, t, c, p);
    } else if q :| WaitReap(s, t, c, p, q) {
      ReapKeeps(s, t, c, p, q);
    } else if ch :| Wakeup(s, t, c, p, ch) {
      WakeupKeeps(s, t, c, ch);
    } else if q :| Kill(s, t, c, p, q) {
      KillKeeps(s, t, c, p, q);
    } else if q :| Alloc(s, t, c, p, q) {
      AllocKeeps(s, t, c, p, q);
    } else {
      var q :| Fork(s, t, c, p, q);
      ForkKeeps(s, t, c, p, q);
    }
  }

  lemma SameTable(s: State, t: State)
    requires Family(s) && Pids(s) && t.procs == s.procs && t.nextpid == s.nextpid && t.reaped == s.reaped
    ensures Family(t) && Pids(t)
  {
  }

  lemma GiveUpPids(s: State, t: State, c: nat, p: nat)
    requires Pids(s) && CpusOk(s) && (GiveUp(s, t, c, p) || WaitSleep(s, t, c, p))
    ensures Pids(t)
  {
    assert Fits(s.cpus[c], s.procs[p]);
    PidsSame(s, t);
  }

  lemma ExitPids(s: State, t: State, c: nat, p: nat)
    requires Pids(s) && CpusOk(s) && Exit(s, t, c, p)
    ensures Pids(t)
  {
    assert Fits(s.cpus[c], s.procs[p]);
    PidsSame(s, t);
  }

  lemma ReapKeeps(s: State, t: State, c: nat, p: nat, q: nat)
    requires Inv(s) && WaitReap(s, t, c, p, q)
    ensures Inv(t)
  {
    ReapFamily(s, t, c, p, q);
    ReapPids(s, t, c, p, q);
    hide Family, Pids;
    SlotMoves(s, t.(reaped := s.reaped), c, q, Reaped(s.procs[q]));
  }

  lemma WakeupKeeps(s: State, t: State, c: nat, ch: Chan)
    requires Inv(s) && (IdleWakeup(s, t, c, ch) || exists p :: Wakeup(s, t, c, p, ch))
    ensures Inv(t)
  {
    WakeRuns(s, c, ch);
    FamilyWakes(s, t);
    PidsSame(s, t);
  }

  lemma KillKeeps(s: State, t: State, c: nat, p: nat, q: nat)
    requires Inv(s) && Kill(s, t, c, p, q)
    ensures Inv(t)
  {
    FamilyWakes(s, t);
    PidsSame(s, t);
    hide Family, Pids;
    if s.procs[q].state == Sleeping {
      NotOnLockHolder(s, c, q);
    }
    SlotMoves(s, t, c, q, t.procs[q]);
  }

  /** The lock's holder sees a process that is not RUNNING as Parked says. */
  lemma NotOnLockHolder(s: State, c: nat, q: nat)
    requires Locks(s) && HandOff(s) && s.lock == Held(c) && c < |s.cpus| && s.cpus[c].KLocked?
    requires q < |s.procs| && s.procs[q].state != Running
    ensures Parked(s.procs[q])
  {
    assert Fits(s.cpus[c], s.procs[s.cpus[c].p]);
    NotElsewhere(s, c, q);
  }

  lemma AllocKeeps(s: State, t: State, c: nat, p: nat, q: nat)
    requires Inv(s) && Alloc(s, t, c, p, q)
    ensures Inv(t)
  {
    assert Fits(s.cpus[c], s.procs[p]);
    AllocFamily(s, t, c, p, q);
    AllocPids(s, t, c, p, q);
    hide Family, Pids;
    NotOnLockHolder(s, c, q);
    var u := s.With(q, s.procs[q].(state := Embryo, pid := s.nextpid));
    SlotMoves(s, u, c, q, u.procs[q]);
    SlotMoves(u, t.(nextpid := s.nextpid), c, p, t.procs[p]);
  }

  lemma ForkPids(s: State, t: State, c: nat, p: nat, q: nat)
    requires Locks(s) && Family(s) && Pids(s) && Fork(s, t, c, p, q)
    ensures Locks(t) && Pids(t)
  {
    hide Pids, HasZombie;
    assert FamilyFor(s.procs, p);
    PidsSame(s, t);
  }

  lemma ForkKeeps(s: State, t: State, c: nat, p: nat, q: nat)
    requires Inv(s) && Fork(s, t, c, p, q)
    ensures Inv(t)
  {
    hide CpusOk, RestOk, Family, Pids, Locks;
    ForkRuns(s, t, c, p, q);
    ForkFamily(s, t, c, p, q);
    ForkPids(s, t, c, p, q);
  }

  lemma StepKeeps(s: State, t: State)
    requires Inv(s) && Next(s, t)
    ensures Inv(t)
  {
    hide Inv, SchedStep, ProcStep;
    var c :| CpuStep(s, t, c);
    if SchedStep(s, t, c) {
      SchedKeeps(s, t, c);
    } else if ch :| IdleWakeup(s, t, c, ch) {
      WakeupKeeps(s, t, c, ch);
    } else {
      var p :| ProcStep(s, t, c, p);
      ProcKeeps(s, t, c, p);
    }
  }

  // ------------------------------------------------------------------- runs

  ghost predicate IsRun(run: seq<State>) {
    |run| > 0 && Init(run[0]) && forall i :: 0 < i < |run| ==> Next(run[i - 1], run[i])
  }

  lemma {:induction false} InvAt(run: seq<State>, i: nat)
    requires IsRun(run) && i < |run|
    ensures Inv(run[i])
  {
    hide Inv, Next, Init;
    if i == 0 {
      InitOk(run[0]);
    } else {
      InvAt(run, i - 1);
      StepKeeps(run[i - 1], run[i]);
    }
  }

  /** Whenever ptable.lock is free, a process is RUNNING iff exactly one CPU's `proc` points
      at it. */
  lemma RunningIffOnOneCpu(run: seq<State>, i: nat, p: nat)
    requires IsRun(run) && i < |run| && run[i].lock == Free && p < |run[i].procs|
    ensures run[i].procs[p].state == Running <==> OnCpu(run[i], p)
    ensures forall c, d :: 0 <= c < d < |run[i].cpus| && HasProc(run[i].cpus[c]) && HasProc(run[i].cpus[d]) ==>
              !(run[i].cpus[c].p == p == run[i].cpus[d].p)
  {
    InvAt(run, i);
    var s := run[i];
    forall c | 0 <= c < |s.cpus| && HasProc(s.cpus[c])
      ensures s.cpus[c].Kernel? && s.procs[s.cpus[c].p].state == Running
    {
      assert !HoldsLock(s.cpus[c]);
    }
    hide Family, Pids;
  }

  /** At every swtch into a process its context is saved and its stack is allocated, and no
      other CPU is on that stack. */
  lemma ResumesSavedContext(run: seq<State>, i: nat, c: nat, p: nat)
    requires IsRun(run) && i < |run| && run[i].On(c, Enter(p))
    ensures run[i].procs[p].saved && run[i].procs[p].kstack
    ensures forall d :: 0 <= d < |run[i].cpus| && d != c && HasProc(run[i].cpus[d]) ==> run[i].cpus[d].p != p
  {
    InvAt(run, i);
    hide Family, Pids, RestOk;
    assert Fits(run[i].cpus[c], run[i].procs[p]);
  }

  /** wait frees a kernel stack only when no CPU is on it. */
  lemma ReapsUnusedStack(run: seq<State>, i: nat, t: State, c: nat, p: nat, q: nat)
    requires IsRun(run) && i < |run| && WaitReap(run[i], t, c, p, q)
    ensures !OnCpu(run[i], q) && run[i].procs[q].saved
  {
    InvAt(run, i);
    hide Family, Pids;
    NotElsewhere(run[i], c, q);
  }

  /** Every launched process but init has a parent, every parent is live, even that of a child
      still being made, and no parent sleeps in wait with a zombie child. */
  lemma ChildrenAreMinded(run: seq<State>, i: nat, p: nat)
    requires IsRun(run) && i < |run| && p < |run[i].procs|
    ensures var s := run[i];
            && (s.procs[p].state != Unused && s.procs[p].state != Embryo && p != INIT ==> s.procs[p].parent.Some?)
            && (s.procs[p].parent.Some? ==>
                  s.procs[p].parent.value < |s.procs| && Alive(s.procs[s.procs[p].parent.value]))
            && (s.procs[p].state == Sleeping && s.procs[p].chan == OfProc(p) ==> !HasZombie(s.procs, p))
  {
    InvAt(run, i);
    hide HasZombie, Pids, CpusOk, RestOk, Locks;
    assert FamilyFor(run[i].procs, p);
  }

  // ------------------------------------------------------ one process's life

  /** What a step may do to process p: a sleeper keeps its channel until it is made RUNNABLE, a
      zombie stays one until wait returns its pid, and `killed` stays set until the slot is free. */
  ghost predicate Lives(s: State, t: State, p: nat)
    requires p < |s.procs|
  {
    && |t.procs| == |s.procs| && s.reaped <= t.reaped
    && var q, r := s.procs[p], t.procs[p];
       && (q.state == Sleeping ==> r.chan == q.chan && (r.state == Sleeping || r.state == Runnable))
       && (q.killed && q.state != Unused ==> r.killed || r.state == Unused)
       && (q.state == Zombie ==> if r.state == Zombie then r.pid == q.pid else q.pid in t.reaped)
  }

  lemma CpuHas(s: State, c: nat)
    requires Inv(s) && c < |s.cpus| && HasProc(s.cpus[c])
    ensures s.cpus[c].p < |s.procs| && Fits(s.cpus[c], s.procs[s.cpus[c].p])
  {
    hide Family, Pids, RestOk, Locks;
  }

  lemma SchedLives(s: State, t: State, c: nat, p: nat)
    requires Inv(s) && SchedStep(s, t, c) && p < |s.procs|
    ensures Lives(s, t, p)
  {
    hide Inv;
    if HasProc(s.cpus[c]) {
      CpuHas(s, c);
    }
  }

  lemma TurnLives(s: State, t: State, c: nat, q: nat, p: nat)
    requires Inv(s) && p < |s.procs| && (LockStep(s, t, c, q) || GiveUp(s, t, c, q) || WaitSleep(s, t, c, q))
    ensures Lives(s, t, p)
  {
    hide Inv, HasZombie, HasChild;
    CpuHas(s, c);
  }

  lemma ExitLives(s: State, t: State, c: nat, q: nat, p: nat)
    requires Inv(s) && p < |s.procs| && Exit(s, t, c, q)
    ensures Lives(s, t, p)
  {
    hide Inv, HasZombie, Exited, ExitedProc;
    CpuHas(s, c);
    ExitedIs(s.procs[p], p, q, s.procs[q].parent.value, HasZombie(s.procs, q));
  }

  lemma TableLives(s: State, t: State, c: nat, q: nat, p: nat)
    requires Inv(s) && p < |s.procs|
    requires || (exists r :: WaitReap(s, t, c, q, r))
             || (exists ch :: Wakeup(s, t, c, q, ch) || IdleWakeup(s, t, c, ch))
             || (exists r :: Kill(s, t, c, q, r)) || (exists r :: Alloc(s, t, c, q, r))
    ensures Lives(s, t, p)
  {
    hide Inv;
    if HasProc(s.cpus[c]) {
      CpuHas(s, c);
    }
  }

  lemma ForkLives(s: State, t: State, c: nat, q: nat, r: nat, p: nat)
    requires Inv(s) && p < |s.procs| && Fork(s, t, c, q, r)
    ensures Lives(s, t, p)
  {
    hide CpusOk, Pids, RestOk, Locks, HasZombie;
    CpuHas(s, c);
    assert FamilyFor(s.procs, q);
  }

  lemma StepLives(s: State, t: State, p: nat)
    requires Inv(s) && Next(s, t) && p < |s.procs|
    ensures Lives(s, t, p)
  {
    hide Inv, SchedStep, LockStep, GiveUp, WaitSleep, Exit, WaitReap, Wakeup, IdleWakeup, Kill, Alloc, Fork, Lives;
    var c :| CpuStep(s, t, c);
    if SchedStep(s, t, c) {
      SchedLives(s, t, c, p);
    } else if ch :| IdleWakeup(s, t, c, ch) {
      TableLives(s, t, c, 0, p);
    } else {
      var q :| ProcStep(s, t, c, q);
      if LockStep(s, t, c, q) || GiveUp(s, t, c, q) || WaitSleep(s, t, c, q) {
        TurnLives(s, t, c, q, p);
      } else if Exit(s, t, c, q) {
        ExitLives(s, t, c, q, p);
      } else if r :| Fork(s, t, c, q, r) {
        ForkLives(s, t, c, q, r, p);
      } else {
        TableLives(s, t, c, q, p);
      }
    }
  }

  /** p is asleep from run[i + 1] to run[j]. */
  ghost predicate Asleep(run: seq<State>, i: nat, j: nat, p: nat) {
    i < j < |run| && forall k :: i < k <= j ==> p < |run[k].procs| && run[k].procs[p].state == Sleeping
  }

  lemma {:induction false} StillInBed(run: seq<State>, i: nat, j: nat, p: nat)
    requires IsRun(run) && Asleep(run, i, j, p)
    ensures run[j].procs[p].chan == run[i + 1].procs[p].chan
    decreases j
  {
    hide Inv, Next, Init;
    if j > i + 1 {
      StillInBed(run, i, j - 1, p);
      InvAt(run, j - 1);
      assert Next(run[j - 1], run[j]);
      StepLives(run[j - 1], run[j], p);
    }
  }

  lemma ExitKeepsChild(s: State, t: State, c: nat, q: nat, p: nat, k: nat)
    requires Inv(s) && Exit(s, t, c, q) && p < |s.procs| && k < |s.procs| && s.procs[p].state == Sleeping
    requires s.procs[k].parent == Some(p)
    ensures t.procs[k].parent == Some(p)
  {
    hide Inv, HasZombie, Exited, ExitedProc;
    CpuHas(s, c);
    ExitedIs(s.procs[k], k, q, s.procs[q].parent.value, HasZombie(s.procs, q));
  }

  lemma ForkKeepsChild(s: State, t: State, c: nat, q: nat, r: nat, p: nat, k: nat)
    requires Inv(s) && Fork(s, t, c, q, r) && p < |s.procs| && k < |s.procs|
    requires s.procs[k].parent == Some(p)
    ensures t.procs[k].parent == Some(p)
  {
    hide CpusOk, Pids, RestOk, Locks, HasZombie;
    assert FamilyFor(s.procs, q) && FamilyFor(s.procs, k);
  }

  lemma ReapKeepsChild(s: State, t: State, c: nat, q: nat, p: nat, k: nat)
    requires Inv(s) && p < |s.procs| && k < |s.procs| && s.procs[p].state == Sleeping && s.procs[k].parent == Some(p)
    requires (exists r :: WaitReap(s, t, c, q, r)) || (exists r :: Alloc(s, t, c, q, r))
    ensures t.procs[k].parent == Some(p)
  {
    hide Inv;
    CpuHas(s, c);
  }

  /** A sleeper's children stay its own. */
  lemma ChildStays(s: State, t: State, p: nat, k: nat)
    requires Inv(s) && Next(s, t) && p < |s.procs| && k < |s.procs|
    requires s.procs[p].state == Sleeping && s.procs[k].parent == Some(p)
    ensures k < |t.procs| && t.procs[k].parent == Some(p)
  {
    hide Inv, SchedStep, LockStep, GiveUp, WaitSleep, Exit, WaitReap, Wakeup, IdleWakeup, Kill, Alloc, Fork;
    StepLives(s, t, k);
    var c :| CpuStep(s, t, c);
    if SchedStep(s, t, c) || exists ch :: IdleWakeup(s, t, c, ch) {
      SchedKeepsParents(s, t, c, k);
    } else {
      var q :| ProcStep(s, t, c, q);
      if Exit(s, t, c, q) {
        ExitKeepsChild(s, t, c, q, p, k);
      } else if r :| Fork(s, t, c, q, r) {
        ForkKeepsChild(s, t, c, q, r, p, k);
      } else if (exists r :: WaitReap(s, t, c, q, r)) || (exists r :: Alloc(s, t, c, q, r)) {
        ReapKeepsChild(s, t, c, q, p, k);
      } else {
        TurnKeepsParents(s, t, c, q, k);
      }
    }
  }

  lemma SchedKeepsParents(s: State, t: State, c: nat, k: nat)
    requires (SchedStep(s, t, c) || exists ch :: IdleWakeup(s, t, c, ch)) && k < |s.procs|
    ensures |t.procs| == |s.procs| && t.procs[k].parent == s.procs[k].parent
  {
  }

  lemma TurnKeepsParents(s: State, t: State, c: nat, q: nat, k: nat)
    requires || LockStep(s, t, c, q) || GiveUp(s, t, c, q) || WaitSleep(s, t, c, q)
             || (exists ch :: Wakeup(s, t, c, q, ch)) || (exists r :: Kill(s, t, c, q, r))
    requires k < |s.procs|
    ensures |t.procs| == |s.procs| && t.procs[k].parent == s.procs[k].parent
  {
    hide HasZombie, HasChild;
  }

  /** A parent asleep in wait always has a child to wait for, and never a zombie one. */
  lemma {:induction false} WaitersHaveReason(run: seq<State>, i: nat, j: nat, c: nat, p: nat)
    requires IsRun(run) && Asleep(run, i, j, p) && WaitSleep(run[i], run[i + 1], c, p)
    ensures HasChild(run[j].procs, p) && !HasZombie(run[j].procs, p)
    decreases j
  {
    hide Inv, Next, Init;
    StillInBed(run, i, j, p);
    InvAt(run, j);
    NoZombieChild(run[j], p);
    if j == i + 1 {
      var k :| 0 <= k < |run[i].procs| && run[i].procs[k].parent == Some(p);
      assert run[j].procs[k].parent == Some(p);
    } else {
      WaitersHaveReason(run, i, j - 1, c, p);
      InvAt(run, j - 1);
      assert Next(run[j - 1], run[j]);
      var k :| 0 <= k < |run[j - 1].procs| && run[j - 1].procs[k].parent == Some(p);
      ChildStays(run[j - 1], run[j], p, k);
    }
  }

  lemma NoZombieChild(s: State, p: nat)
    requires Inv(s) && p < |s.procs| && s.procs[p].state == Sleeping && s.procs[p].chan == OfProc(p)
    ensures !HasZombie(s.procs, p)
  {
    hide HasZombie, Pids, CpusOk, RestOk, Locks;
    assert FamilyFor(s.procs, p);
  }

  ghost predicate Wakes(s: State, t: State, ch: Chan) {
    (exists c :: IdleWakeup(s, t, c, ch)) || (exists c, q :: Wakeup(s, t, c, q, ch))
  }

  ghost predicate Kills(s: State, t: State, p: nat) {
    exists c, q :: Kill(s, t, c, q, p)
  }

  /** A step that is neither leaves a sleeper on anything but a process asleep. */
  lemma OthersDoNotWake(s: State, t: State, p: nat, x: int)
    requires Inv(s) && Next(s, t) && p < |s.procs| && s.procs[p].state == Sleeping && s.procs[p].chan == Other(x)
    requires p < |t.procs| && t.procs[p].state != Sleeping
    ensures Wakes(s, t, Other(x)) || Kills(s, t, p)
  {
    hide Inv, SchedStep, LockStep, GiveUp, WaitSleep, Exit, WaitReap, Wakeup, IdleWakeup, Kill, Alloc, Fork;
    var c :| CpuStep(s, t, c);
    if SchedStep(s, t, c) {
      NoWakeInSched(s, t, c, p);
    } else if ch :| IdleWakeup(s, t, c, ch) {
      WokenOnChannel(s, t, c, 0, p, ch);
    } else {
      var q :| ProcStep(s, t, c, q);
      if ch :| Wakeup(s, t, c, q, ch) {
        WokenOnChannel(s, t, c, q, p, ch);
      } else if r :| Kill(s, t, c, q, r) {
        KillsOne(s, t, c, q, p, r);
      } else {
        NoWakeInTurn(s, t, c, q, p, x);
      }
    }
  }

  lemma NoWakeInSched(s: State, t: State, c: nat, p: nat)
    requires Inv(s) && SchedStep(s, t, c) && p < |s.procs| && s.procs[p].state == Sleeping
    ensures |t.procs| == |s.procs| && t.procs[p].state == Sleeping
  {
    hide Inv;
    if HasProc(s.cpus[c]) {
      CpuHas(s, c);
    }
  }

  lemma WokenOnChannel(s: State, t: State, c: nat, q: nat, p: nat, ch: Chan)
    requires (IdleWakeup(s, t, c, ch) || Wakeup(s, t, c, q, ch)) && p < |s.procs| && s.procs[p].state == Sleeping
    ensures |t.procs| == |s.procs|
    ensures t.procs[p].state == if ch == s.procs[p].chan then Runnable else Sleeping
  {
  }

  lemma KillsOne(s: State, t: State, c: nat, q: nat, p: nat, r: nat)
    requires Kill(s, t, c, q, r) && p < |s.procs| && s.procs[p].state == Sleeping
    ensures |t.procs| == |s.procs| && t.procs[p].state == if r == p then Runnable else Sleeping
  {
  }

  lemma NoWakeInTurn(s: State, t: State, c: nat, q: nat, p: nat, x: int)
    requires Inv(s) && p < |s.procs| && s.procs[p].state == Sleeping && s.procs[p].chan == Other(x)
    requires || LockStep(s, t, c, q) || GiveUp(s, t, c, q) || WaitSleep(s, t, c, q) || Exit(s, t, c, q)
             || (exists r :: WaitReap(s, t, c, q, r)) || (exists r :: Alloc(s, t, c, q, r))
             || (exists r :: Fork(s, t, c, q, r))
    ensures |t.procs| == |s.procs| && t.procs[p].state == Sleeping
  {
    hide Inv, HasZombie, HasChild, Fork, Exit;
    if Exit(s, t, c, q) {
      ExitWakesNot(s, t, c, q, p, x);
    } else if r :| Fork(s, t, c, q, r) {
      ForkWakesNot(s, t, c, q, r, p);
    } else {
      CpuHas(s, c);
    }
  }

  lemma ExitWakesNot(s: State, t: State, c: nat, q: nat, p: nat, x: int)
    requires Inv(s) && p < |s.procs| && s.procs[p].state == Sleeping && s.procs[p].chan == Other(x) && Exit(s, t, c, q)
    ensures |t.procs| == |s.procs| && t.procs[p].state == Sleeping
  {
    hide Inv, HasZombie, Exited;
    CpuHas(s, c);
  }

  lemma ForkWakesNot(s: State, t: State, c: nat, q: nat, r: nat, p: nat)
    requires Inv(s) && p < |s.procs| && s.procs[p].state == Sleeping && Fork(s, t, c, q, r)
    ensures |t.procs| == |s.procs| && t.procs[p].state == Sleeping
  {
    hide CpusOk, Pids, RestOk, Locks, HasZombie;
    CpuHas(s, c);
    assert FamilyFor(s.procs, q);
  }

  /** Who sleeps on something other than a process is made RUNNABLE by a wakeup on that channel
      and by kill, and by nothing else. */
  lemma WokenExactly(run: seq<State>, i: nat, j: nat, c: nat, p: nat, x: int, t: State)
    requires IsRun(run) && Asleep(run, i, j, p) && Sleep(run[i], run[i + 1], c, p, x) && Next(run[j], t)
    ensures p < |t.procs| && (t.procs[p].state == Runnable <==> Wakes(run[j], t, Other(x)) || Kills(run[j], t, p))
    ensures t.procs[p].state == Runnable || t.procs[p].state == Sleeping
  {
    hide Inv, Next, Init, Kill, Wakeup, IdleWakeup;
    var s := run[j];
    StillInBed(run, i, j, p);
    InvAt(run, j);
    StepLives(s, t, p);
    if t.procs[p].state != Sleeping {
      OthersDoNotWake(s, t, p, x);
    } else if d :| IdleWakeup(s, t, d, Other(x)) {
      WokenOnChannel(s, t, d, 0, p, Other(x));
    } else if d, q :| Wakeup(s, t, d, q, Other(x)) {
      WokenOnChannel(s, t, d, q, p, Other(x));
    } else if d, q :| Kill(s, t, d, q, p) {
      KillsOne(s, t, d, q, p, p);
    }
  }

  /** kill wakes its process, and from then on, until its slot is free, it is marked killed and
      never sleeps in wait. */
  lemma {:induction false} KilledStays(run: seq<State>, i: nat, j: nat, c: nat, q: nat, p: nat)
    requires IsRun(run) && i < j < |run| && Kill(run[i], run[i + 1], c, q, p)
    requires forall k :: i <= k <= j ==> p < |run[k].procs| && run[k].procs[p].state != Unused
    ensures run[j].procs[p].killed && run[i + 1].procs[p].state != Sleeping
    ensures forall d, t :: !WaitSleep(run[j], t, d, p)
    decreases j
  {
    hide Inv, Next, Init;
    if j > i + 1 {
      KilledStays(run, i, j - 1, c, q, p);
      InvAt(run, j - 1);
      assert Next(run[j - 1], run[j]);
      StepLives(run[j - 1], run[j], p);
    }
  }

  /** A process that has exited never runs again: it is a zombie until wait returns its pid. */
  lemma {:induction false} ExitIsFinal(run: seq<State>, i: nat, j: nat, c: nat, p: nat)
    requires IsRun(run) && i < j < |run| && Exit(run[i], run[i + 1], c, p)
    ensures p < |run[j].procs|
    ensures var pid := run[i].procs[p].pid;
            (run[j].procs[p].state == Zombie && run[j].procs[p].pid == pid) || pid in run[j].reaped
    decreases j
  {
    hide Inv, Next, Init;
    var pid := run[i].procs[p].pid;
    if j == i + 1 {
      ExitedAt(run[i].procs, p, p);
    } else {
      ExitIsFinal(run, i, j - 1, c, p);
      InvAt(run, j - 1);
      assert Next(run[j - 1], run[j]);
      StepLives(run[j - 1], run[j], p);
    }
  }

  /** Each pid is returned by at most one wait. */
  lemma ReapedOnce(run: seq<State>, i: nat)
    requires IsRun(run) && i < |run|
    ensures forall j, k :: 0 <= j < k < |run[i].reaped| ==> run[i].reaped[j] != run[i].reaped[k]
    ensures forall p :: 0 <= p < |run[i].procs| && run[i].procs[p].state != Unused ==>
              run[i].procs[p].pid !in run[i].reaped
  {
    InvAt(run, i);
    hide Family, CpusOk, RestOk, Locks;
  }
}

/** pipe.c as interleaved steps of any number of threads. A thread holds the pipe's lock
    between its steps; sleep takes ptable.lock, drops the pipe's lock, marks the thread
    asleep and only then drops ptable.lock, as in proc.c:374-382. A wakeup is one step,
    possible while ptable.lock is free. */
module PipeMachine {
  import opened Params

  const PIPESIZE := 512

  /** Where a call stands. Bed0: holds the pipe's lock, wants ptable.lock. Bed1: holds both.
      Bed2: holds ptable.lock only. Asleep; Woken: wants the pipe's lock back. Finish: about
      to call wakeup. Leave: about to release the pipe's lock and return. */
  datatype At = Loop | Copy | Notify | Bed0 | Bed1 | Bed2 | Asleep | Woken | Finish | Leave

  datatype PC =
    | Idle
    | Write(src: seq<Byte>, i: nat, at: At)
    | Read(n: nat, got: seq<Byte>, at: At)
    | Close(writable: bool, at: At)

  /** `accepted` and `delivered` record every byte put into and taken out of the pipe. */
  datatype State = State(lock: Owner, ptable: Owner, data: seq<Byte>, nread: nat, nwrite: nat,
                         readopen: bool, writeopen: bool, pc: map<nat, PC>,
                         accepted: seq<Byte>, delivered: seq<Byte>)
  {
    predicate Full() {
      nwrite == (nread + PIPESIZE) % UINT
    }
    predicate Empty() {
      nread == nwrite
    }
    /** Thread t runs inside the pipe's lock at `p`. */
    predicate Runs(t: nat, p: PC) {
      lock == Held(t) && t in pc && pc[t] == p
    }
    function Goto(t: nat, p: PC): State {
      this.(pc := pc[t := p])
    }
  }

  /** The channel a thread sleeps on: readers on nread, writers on nwrite. */
  predicate Sleeps(p: PC, reader: bool) {
    if reader then p.Read? && p.at == Asleep else p.Write? && p.at == Asleep
  }

  function Woke(p: PC, reader: bool): PC {
    if Sleeps(p, reader) then To(p, Woken) else p
  }

  function Wakeup(pc: map<nat, PC>, reader: bool): map<nat, PC> {
    map t | t in pc :: Woke(pc[t], reader)
  }

  // --------------------------------------------------------------- steps

  ghost predicate Start(s: State, s': State, t: nat, p: PC) {
    && s.lock == Free && t in s.pc && s.pc[t] == Idle
    && (match p
        case Write(_, i, at) => i == 0 && at == Loop && s.writeopen
        case Read(_, got, at) => got == [] && at == Loop && s.readopen
        // pipeclose runs when the last reference to that end goes away
        case Close(w, at) => at == Loop && Unused(s, w)
        case Idle => false)
    && s' == s.(lock := Held(t)).Goto(t, p)
  }

  ghost predicate WriteStep(s: State, s': State, t: nat, src: seq<Byte>, i: nat) {
    && s.Runs(t, Write(src, i, Loop)) && i <= |src| && |s.data| == PIPESIZE
    && if i == |src| then s' == s.Goto(t, Write(src, i, Finish))
       else if s.Full() then
         s' == s.Goto(t, Write(src, i, if s.readopen then Notify else Leave))
       else s' == s.(data := s.data[s.nwrite % PIPESIZE := src[i]], nwrite := (s.nwrite + 1) % UINT,
                     accepted := s.accepted + [src[i]]).Goto(t, Write(src, i + 1, Loop))
  }

  ghost predicate ReadStep(s: State, s': State, t: nat, n: nat, got: seq<Byte>) {
    && s.Runs(t, Read(n, got, Loop))
    && s' == s.Goto(t, Read(n, got, if s.Empty() && s.writeopen then Bed0 else Copy))
  }

  ghost predicate CopyStep(s: State, s': State, t: nat, n: nat, got: seq<Byte>) {
    && s.Runs(t, Read(n, got, Copy)) && |s.data| == PIPESIZE
    && if |got| >= n || s.Empty() then s' == s.Goto(t, Read(n, got, Finish))
       else
         var b := s.data[s.nread % PIPESIZE];
         s' == s.(nread := (s.nread + 1) % UINT, delivered := s.delivered + [b])
                .Goto(t, Read(n, got + [b], Copy))
  }

  ghost predicate CloseStep(s: State, s': State, t: nat, w: bool) {
    && s.Runs(t, Close(w, Loop))
    && s' == (if w then s.(writeopen := false) else s.(readopen := false)).Goto(t, Close(w, Finish))
  }

  /** wakeup(&p->nread) before a writer sleeps. */
  ghost predicate NotifyStep(s: State, s': State, t: nat, src: seq<Byte>, i: nat) {
    && s.Runs(t, Write(src, i, Notify)) && s.ptable == Free
    && s' == s.(pc := Wakeup(s.pc, true)).Goto(t, Write(src, i, Bed0))
  }

  /** The wakeup that ends a call: of readers by a writer or a closing write end. */
  ghost predicate FinishStep(s: State, s': State, t: nat) {
    && s.lock == Held(t) && t in s.pc && !s.pc[t].Idle? && s.pc[t].at == Finish && s.ptable == Free
    && var p := s.pc[t];
       s' == s.(pc := Wakeup(s.pc, p.Write? || (p.Close? && p.writable))).Goto(t, To(p, Leave))
  }

  function To(p: PC, at: At): PC
    requires !p.Idle?
  {
    match p
    case Write(src, i, _) => Write(src, i, at)
    case Read(n, got, _) => Read(n, got, at)
    case Close(w, _) => Close(w, at)
  }

  ghost predicate LeaveStep(s: State, s': State, t: nat) {
    && s.lock == Held(t) && t in s.pc && !s.pc[t].Idle? && s.pc[t].at == Leave
    && s' == s.(lock := Free).Goto(t, Idle)
  }

  /** The three moves of sleep, then waking to take the lock back. */
  ghost predicate SleepStep(s: State, s': State, t: nat) {
    && t in s.pc && !s.pc[t].Idle?
    && var p := s.pc[t];
       match p.at
       case Bed0 => s.lock == Held(t) && s.ptable == Free && s' == s.(ptable := Held(t)).Goto(t, To(p, Bed1))
       case Bed1 => s.lock == Held(t) && s.ptable == Held(t) && s' == s.(lock := Free).Goto(t, To(p, Bed2))
       case Bed2 => s.ptable == Held(t) && s' == s.(ptable := Free).Goto(t, To(p, Asleep))
       case Woken => s.lock == Free && s' == s.(lock := Held(t)).Goto(t, To(p, Loop))
       case _ => false
  }

  /** kill() makes any sleeper runnable; a killed reader leaves at once. */
  ghost predicate KillStep(s: State, s': State, t: nat) {
    && t in s.pc && !s.pc[t].Idle?
    && (|| (s.pc[t].at == Asleep && s.ptable == Free && s' == s.Goto(t, To(s.pc[t], Woken)))
        || (s.lock == Held(t) && s.pc[t].Read? && s.pc[t].at == Loop && s.Empty() && s.writeopen
            && s' == s.Goto(t, To(s.pc[t], Leave))))
  }

  /** A killed writer that finds the pipe full returns -1 without a wakeup (pipe.c:85-88). */
  ghost predicate KilledWriter(s: State, s': State, t: nat, src: seq<Byte>, i: nat) {
    && s.Runs(t, Write(src, i, Loop)) && i < |src| && s.Full()
    && s' == s.Goto(t, Write(src, i, Leave))
  }

  ghost predicate ThreadStep(s: State, s': State, t: nat) {
    || (exists p :: Start(s, s', t, p))
    || (exists src, i :: WriteStep(s, s', t, src, i))
    || (exists n, got :: ReadStep(s, s', t, n, got))
    || (exists n, got :: CopyStep(s, s', t, n, got))
    || (exists w :: CloseStep(s, s', t, w))
    || (exists src, i :: NotifyStep(s, s', t, src, i))
    || FinishStep(s, s', t) || LeaveStep(s, s', t) || SleepStep(s, s', t) || KillStep(s, s', t)
  }

  ghost predicate Next(s: State, s': State) {
    exists t :: ThreadStep(s, s', t)
  }

  // ------------------------------------------------------------ invariants

  /** The ring holds the undelivered bytes, whatever the counters have wrapped to. */
  ghost predicate Fifo(s: State) {
    && |s.data| == PIPESIZE
    && |s.delivered| <= |s.accepted| <= |s.delivered| + PIPESIZE
    && s.delivered == s.accepted[..|s.delivered|]
    && s.nread == |s.delivered| % UINT && s.nwrite == |s.accepted| % UINT
    && forall k :: |s.delivered| <= k < |s.accepted| ==> s.data[k % PIPESIZE] == s.accepted[k]
  }

  predicate HoldsLock(p: PC) {
    !p.Idle? && p.at != Bed2 && p.at != Asleep && p.at != Woken
  }
  predicate HoldsPtable(p: PC) {
    !p.Idle? && (p.at == Bed1 || p.at == Bed2)
  }

  ghost predicate Locks(s: State) {
    && (forall t :: t in s.pc ==> (HoldsLock(s.pc[t]) <==> s.lock == Held(t)))
    && (forall t :: t in s.pc ==> (HoldsPtable(s.pc[t]) <==> s.ptable == Held(t)))
    && (s.lock.Held? ==> s.lock.who in s.pc) && (s.ptable.Held? ==> s.ptable.who in s.pc)
  }

  /** No call uses the write (or read) end, which is still open. */
  ghost predicate Unused(s: State, w: bool) {
    && (if w then s.writeopen else s.readopen)
    && forall u :: u in s.pc ==> if w then !s.pc[u].Write? else !s.pc[u].Read?
  }

  /** Each end is open while some call uses it, and each call visits only its own points. */
  ghost predicate Ends(s: State) {
    forall t :: t in s.pc ==> EndsFor(s, s.pc[t])
  }
  ghost predicate EndsFor(s: State, p: PC) {
    match p
    case Idle => true
    case Write(src, i, at) => s.writeopen && i <= |src| && at != Copy
    case Read(_, _, at) => s.readopen && at != Notify
    case Close(w, at) => (at == Loop || at == Finish || at == Leave) && (at == Loop ==> Unused(s, w))
  }

  /** In bed or on the way there. */
  predicate Abed(p: PC) {
    !p.Idle? && (p.at == Bed0 || p.at == Bed1 || p.at == Bed2 || p.at == Asleep)
  }

  /** The lock's holder will call wakeup for the readers (or the writers) before it lets go. */
  predicate Owes(p: PC, reader: bool) {
    if reader then (p.Write? && (p.at == Loop || p.at == Notify || p.at == Finish)) || p == Close(true, Finish)
    else (p.Read? && (p.at == Copy || p.at == Finish)) || p == Close(false, Finish)
  }
  ghost predicate Owed(s: State, reader: bool) {
    s.lock.Held? && s.lock.who in s.pc && Owes(s.pc[s.lock.who], reader)
  }

  ghost predicate ReadersOk(s: State) {
    (s.Empty() && s.writeopen) || Owed(s, true)
  }
  ghost predicate WritersOk(s: State) {
    (s.Full() && s.readopen) || Owed(s, false)
  }
  ghost predicate WakeFor(s: State, p: PC) {
    && (p.Read? && Abed(p) ==> ReadersOk(s))
    && (p.Write? && (Abed(p) || p.at == Notify) ==> WritersOk(s))
  }

  ghost predicate Wakeups(s: State) {
    forall t :: t in s.pc ==> WakeFor(s, s.pc[t])
  }

  ghost predicate Inv(s: State) {
    Fifo(s) && Locks(s) && Ends(s) && Wakeups(s)
  }

  ghost predicate Init(s: State) {
    && s.lock == Free && s.ptable == Free && |s.data| == PIPESIZE && s.nread == 0 && s.nwrite == 0
    && s.readopen && s.writeopen && s.accepted == [] && s.delivered == []
    && forall t :: t in s.pc ==> s.pc[t] == Idle
  }

  // ----------------------------------------------------------------- FIFO

  /** The counter tests mean what they say although the counters wrap at 2^32. */
  lemma CounterTests(s: State)
    requires Fifo(s)
    ensures s.Empty() <==> |s.accepted| == |s.delivered|
    ensures s.Full() <==> |s.accepted| == |s.delivered| + PIPESIZE
    ensures s.nwrite % PIPESIZE == |s.accepted| % PIPESIZE
    ensures s.nread % PIPESIZE == |s.delivered| % PIPESIZE
  {
    Wraps(|s.accepted|, |s.delivered|);
  }

  lemma Wraps(a: nat, d: nat)
    requires d <= a <= d + PIPESIZE
    ensures a % UINT == d % UINT <==> a == d
    ensures a % UINT == (d % UINT + PIPESIZE) % UINT <==> a == d + PIPESIZE
    ensures a % UINT % PIPESIZE == a % PIPESIZE && d % UINT % PIPESIZE == d % PIPESIZE
  {
    WrapMod(a);
    WrapMod(d);
    SameWrap(d, a - d, 0);
    SameWrap(d, a - d, PIPESIZE);
    WrapPlus(d);
  }

  lemma WrapPlus(x: nat)
    ensures (x % UINT + PIPESIZE) % UINT == (x + PIPESIZE) % UINT
    ensures (x % UINT + 1) % UINT == (x + 1) % UINT
  {
  }

  lemma WrapMod(x: nat)
    ensures x % UINT % PIPESIZE == x % PIPESIZE
  {
    assert x == UINT * (x / UINT) + x % UINT;
    assert x == PIPESIZE * (0x80_0000 * (x / UINT)) + x % UINT;
    ModShift(0x80_0000 * (x / UINT), x % UINT);
  }

  lemma {:induction false} ModShift(q: nat, r: nat)
    ensures (PIPESIZE * q + r) % PIPESIZE == r % PIPESIZE
  {
    if q > 0 {
      ModShift(q - 1, r);
      assert PIPESIZE * q + r == PIPESIZE + (PIPESIZE * (q - 1) + r);
    }
  }

  lemma SameWrap(x: nat, d: nat, e: nat)
    requires d <= PIPESIZE && e <= PIPESIZE
    ensures (x + d) % UINT == (x + e) % UINT <==> d == e
  {
  }

  lemma SlotsDiffer(j: nat, k: nat)
    requires k < j < k + PIPESIZE
    ensures j % PIPESIZE != k % PIPESIZE
  {
  }

  lemma FifoData(s: State)
    requires Fifo(s)
    ensures |s.data| == PIPESIZE
  {
  }

  /** One byte in: the ring still holds exactly the undelivered bytes. */
  lemma PutFifo(s: State, b: Byte)
    requires Fifo(s) && !s.Full()
    ensures Fifo(s.(data := s.data[s.nwrite % PIPESIZE := b], nwrite := (s.nwrite + 1) % UINT,
                    accepted := s.accepted + [b]))
  {
    CounterTests(s);
    var n := |s.accepted|;
    forall k | |s.delivered| <= k < n
      ensures k % PIPESIZE != n % PIPESIZE
    {
      SlotsDiffer(n, k);
    }
    WrapPlus(n);
    assert (s.accepted + [b])[..|s.delivered|] == s.delivered;
  }

  /** One byte out: it is the oldest undelivered one. */
  lemma GetFifo(s: State)
    requires Fifo(s) && !s.Empty()
    ensures |s.delivered| < |s.accepted| && s.data[s.nread % PIPESIZE] == s.accepted[|s.delivered|]
    ensures Fifo(s.(nread := (s.nread + 1) % UINT,
                    delivered := s.delivered + [s.data[s.nread % PIPESIZE]]))
  {
    CounterTests(s);
    var d := |s.delivered|;
    WrapPlus(d);
    assert s.accepted[..d + 1] == s.accepted[..d] + [s.accepted[d]];
  }

  // ------------------------------------------------------------ the steps

  ghost predicate Ctl(s: State) {
    Locks(s) && Ends(s) && Wakeups(s)
  }

  lemma Thread(s: State, t: nat)
    requires Ctl(s) && t in s.pc
    ensures (HoldsLock(s.pc[t]) <==> s.lock == Held(t)) && (HoldsPtable(s.pc[t]) <==> s.ptable == Held(t))
    ensures EndsFor(s, s.pc[t]) && WakeFor(s, s.pc[t])
  {
  }

  /** A step of t leaves the other threads' locks alone. */
  lemma MoveLocks(s: State, s': State, t: nat)
    requires Locks(s) && t in s.pc && t in s'.pc && s'.pc == s.pc[t := s'.pc[t]]
    requires HoldsLock(s'.pc[t]) <==> s'.lock == Held(t)
    requires HoldsPtable(s'.pc[t]) <==> s'.ptable == Held(t)
    requires s'.lock == s.lock || {s.lock, s'.lock} == {Free, Held(t)}
    requires s'.ptable == s.ptable || {s.ptable, s'.ptable} == {Free, Held(t)}
    ensures Locks(s')
  {
    hide HoldsLock, HoldsPtable;
    assert s.lock in {s.lock, s'.lock} && s'.lock in {s.lock, s'.lock};
    assert s.ptable in {s.ptable, s'.ptable} && s'.ptable in {s.ptable, s'.ptable};
  }

  /** A step of t within its call leaves the other threads' ends alone. */
  lemma MoveEnds(s: State, s': State, t: nat)
    requires Ends(s) && t in s.pc && t in s'.pc && s'.pc == s.pc[t := s'.pc[t]]
    requires s'.readopen == s.readopen && s'.writeopen == s.writeopen
    requires s'.pc[t].Write? ==> s.pc[t].Write?
    requires s'.pc[t].Read? ==> s.pc[t].Read?
    requires EndsFor(s', s'.pc[t])
    ensures Ends(s')
  {
    forall u | u in s'.pc && u != t
      ensures EndsFor(s', s'.pc[u])
    {
      assert EndsFor(s, s.pc[u]);
    }
  }

  lemma MoveWakeups(s: State, s': State, t: nat)
    requires Wakeups(s) && t in s.pc && t in s'.pc && s'.pc == s.pc[t := s'.pc[t]]
    requires ReadersOk(s) ==> ReadersOk(s')
    requires WritersOk(s) ==> WritersOk(s')
    requires WakeFor(s', s'.pc[t])
    ensures Wakeups(s')
  {
    hide ReadersOk, WritersOk;
    forall u | u in s'.pc && u != t
      ensures WakeFor(s', s'.pc[u])
    {
      assert WakeFor(s, s.pc[u]);
    }
  }

  lemma StartKeeps(s: State, s': State, t: nat, p: PC)
    requires Ctl(s) && Start(s, s', t, p)
    ensures Ctl(s')
  {
    MoveLocks(s, s', t);
  }

  lemma WriteFifo(s: State, s': State, t: nat, src: seq<Byte>, i: nat)
    requires Fifo(s) && WriteStep(s, s', t, src, i)
    ensures Fifo(s')
  {
    if i < |src| && !s.Full() {
      PutFifo(s, src[i]);
    }
  }

  lemma WroteFor(s: State, s': State, t: nat, src: seq<Byte>, i: nat, u: nat)
    requires Ctl(s) && WriteStep(s, s', t, src, i) && u in s'.pc
    ensures WakeFor(s', s'.pc[u])
  {
    hide Locks, Ends, Wakeups;
    Thread(s, t);
    Thread(s, u);
  }

  lemma WriteKeeps(s: State, s': State, t: nat, src: seq<Byte>, i: nat)
    requires Ctl(s) && WriteStep(s, s', t, src, i)
    ensures Ctl(s')
  {
    hide Locks, Ends, WakeFor;
    Thread(s, t);
    MoveLocks(s, s', t);
    MoveEnds(s, s', t);
    forall u | u in s'.pc
      ensures WakeFor(s', s'.pc[u])
    {
      WroteFor(s, s', t, src, i, u);
    }
  }

  lemma ReadKeeps(s: State, s': State, t: nat, n: nat, got: seq<Byte>)
    requires Ctl(s) && ReadStep(s, s', t, n, got)
    ensures Ctl(s')
  {
    hide Locks, Ends, Wakeups;
    Thread(s, t);
    MoveLocks(s, s', t);
    MoveEnds(s, s', t);
    MoveWakeups(s, s', t);
  }

  lemma CopyFifo(s: State, s': State, t: nat, n: nat, got: seq<Byte>)
    requires Fifo(s) && CopyStep(s, s', t, n, got)
    ensures Fifo(s')
  {
    if |got| < n && !s.Empty() {
      GetFifo(s);
    }
  }

  lemma CopyKeeps(s: State, s': State, t: nat, n: nat, got: seq<Byte>)
    requires Ctl(s) && CopyStep(s, s', t, n, got)
    ensures Ctl(s')
  {
    hide Locks, Ends, Wakeups;
    Thread(s, t);
    MoveLocks(s, s', t);
    MoveEnds(s, s', t);
    MoveWakeups(s, s', t);
  }

  lemma CloseKeeps(s: State, s': State, t: nat, w: bool)
    requires Ctl(s) && CloseStep(s, s', t, w)
    ensures Ctl(s')
  {
    MoveLocks(s, s', t);
  }

  /** Waking the readers leaves each thread in its place but for readers out of bed. */
  lemma NotifiedFor(s: State, s': State, t: nat, src: seq<Byte>, i: nat, u: nat)
    requires Ctl(s) && NotifyStep(s, s', t, src, i) && u in s'.pc
    ensures (HoldsLock(s'.pc[u]) <==> s'.lock == Held(u)) && (HoldsPtable(s'.pc[u]) <==> s'.ptable == Held(u))
    ensures EndsFor(s', s'.pc[u]) && WakeFor(s', s'.pc[u])
  {
    hide Locks, Ends, Wakeups;
    Thread(s, t);
    Thread(s, u);
    assert forall v :: v in s'.pc && v != t ==> s'.pc[v] == Woke(s.pc[v], true);
  }

  lemma NotifyKeeps(s: State, s': State, t: nat, src: seq<Byte>, i: nat)
    requires Ctl(s) && NotifyStep(s, s', t, src, i)
    ensures Ctl(s')
  {
    hide HoldsLock, HoldsPtable, EndsFor, WakeFor;
    forall u | u in s'.pc
      ensures (HoldsLock(s'.pc[u]) <==> s'.lock == Held(u)) && (HoldsPtable(s'.pc[u]) <==> s'.ptable == Held(u))
      ensures EndsFor(s', s'.pc[u]) && WakeFor(s', s'.pc[u])
    {
      NotifiedFor(s, s', t, src, i, u);
    }
  }

  lemma FinishKeeps(s: State, s': State, t: nat)
    requires Ctl(s) && FinishStep(s, s', t)
    ensures Ctl(s')
  {
    FinishLocks(s, s', t);
    FinishWakeups(s, s', t);
    hide Wakeups, Locks;
  }

  lemma FinishLocks(s: State, s': State, t: nat)
    requires Locks(s) && FinishStep(s, s', t)
    ensures Locks(s')
  {
  }

  lemma FinishWakeups(s: State, s': State, t: nat)
    requires Ctl(s) && FinishStep(s, s', t)
    ensures Wakeups(s')
  {
    hide WakeFor, FinishStep, Locks, Ends;
    forall u | u in s'.pc
      ensures WakeFor(s', s'.pc[u])
    {
      FinishWakesFor(s, s', t, u);
    }
  }

  lemma FinishWakesFor(s: State, s': State, t: nat, u: nat)
    requires Ctl(s) && FinishStep(s, s', t) && u in s'.pc
    ensures WakeFor(s', s'.pc[u])
  {
    hide Locks, Ends, Wakeups;
    Thread(s, u);
    Thread(s, t);
    var p := s.pc[t];
    assert forall v :: v in s'.pc && v != t ==> s'.pc[v] == Woke(s.pc[v], p.Write? || (p.Close? && p.writable));
  }

  lemma LeaveKeeps(s: State, s': State, t: nat)
    requires Ctl(s) && LeaveStep(s, s', t)
    ensures Ctl(s')
  {
    hide Locks, Ends, Wakeups;
    Thread(s, t);
    MoveLocks(s, s', t);
    MoveEnds(s, s', t);
    MoveWakeups(s, s', t);
  }

  lemma SleepKeeps(s: State, s': State, t: nat)
    requires Ctl(s) && SleepStep(s, s', t)
    ensures Ctl(s')
  {
    SleepLocks(s, s', t);
    SleepEnds(s, s', t);
    SleepWakeups(s, s', t);
    hide Wakeups, Locks, Ends;
  }

  lemma SleepLocks(s: State, s': State, t: nat)
    requires Locks(s) && SleepStep(s, s', t)
    ensures Locks(s')
  {
    MoveLocks(s, s', t);
  }

  lemma SleepEnds(s: State, s': State, t: nat)
    requires Ends(s) && SleepStep(s, s', t)
    ensures Ends(s')
  {
    assert EndsFor(s, s.pc[t]);
    MoveEnds(s, s', t);
  }

  lemma SleepWakeups(s: State, s': State, t: nat)
    requires Ctl(s) && SleepStep(s, s', t)
    ensures Wakeups(s')
  {
    hide Locks, Ends, Wakeups;
    Thread(s, t);
    MoveWakeups(s, s', t);
  }

  lemma KillKeeps(s: State, s': State, t: nat)
    requires Ctl(s) && KillStep(s, s', t)
    ensures Ctl(s')
  {
    hide Locks, Ends, Wakeups;
    Thread(s, t);
    MoveLocks(s, s', t);
    MoveEnds(s, s', t);
    MoveWakeups(s, s', t);
  }

  lemma StepCtl(s: State, s': State, t: nat)
    requires Ctl(s) && ThreadStep(s, s', t)
    ensures Ctl(s')
  {
    hide Ctl, Start, WriteStep, ReadStep, CopyStep, CloseStep, NotifyStep, FinishStep, LeaveStep, SleepStep, KillStep;
    if p :| Start(s, s', t, p) {
      StartKeeps(s, s', t, p);
    } else if src, i :| WriteStep(s, s', t, src, i) {
      WriteKeeps(s, s', t, src, i);
    } else if n, got :| ReadStep(s, s', t, n, got) {
      ReadKeeps(s, s', t, n, got);
    } else if n, got :| CopyStep(s, s', t, n, got) {
      CopyKeeps(s, s', t, n, got);
    } else if w :| CloseStep(s, s', t, w) {
      CloseKeeps(s, s', t, w);
    } else if src, i :| NotifyStep(s, s', t, src, i) {
      NotifyKeeps(s, s', t, src, i);
    } else if FinishStep(s, s', t) {
      FinishKeeps(s, s', t);
    } else if LeaveStep(s, s', t) {
      LeaveKeeps(s, s', t);
    } else if SleepStep(s, s', t) {
      SleepKeeps(s, s', t);
    } else {
      KillKeeps(s, s', t);
    }
  }

  /** Only the steps that write and copy move bytes. */
  lemma OnlyControl(s: State, s': State, t: nat)
    requires ThreadStep(s, s', t)
    requires forall src, i :: !WriteStep(s, s', t, src, i)
    requires forall n, got :: !CopyStep(s, s', t, n, got)
    ensures s'.data == s.data && s'.nread == s.nread && s'.nwrite == s.nwrite
    ensures s'.accepted == s.accepted && s'.delivered == s.delivered
  {
    hide WriteStep, CopyStep, Unused, To, Wakeup;
  }

  lemma StepFifo(s: State, s': State, t: nat)
    requires Fifo(s) && ThreadStep(s, s', t)
    ensures Fifo(s') && s.accepted <= s'.accepted && s.delivered <= s'.delivered
  {
    hide ThreadStep;
    if src, i :| WriteStep(s, s', t, src, i) {
      WriteFifo(s, s', t, src, i);
    } else if n, got :| CopyStep(s, s', t, n, got) {
      CopyFifo(s, s', t, n, got);
    } else {
      OnlyControl(s, s', t);
    }
  }

  lemma StepKeeps(s: State, s': State, t: nat)
    requires Inv(s) && ThreadStep(s, s', t)
    ensures Inv(s') && s.accepted <= s'.accepted && s.delivered <= s'.delivered
  {
    hide ThreadStep, Fifo, Locks, Ends, Wakeups;
    StepCtl(s, s', t);
    StepFifo(s, s', t);
  }

  lemma InitOk(s: State)
    requires Init(s)
    ensures Inv(s)
  {
  }

  // ----------------------------------------------------------------- runs

  ghost predicate IsRun(run: seq<State>) {
    |run| > 0 && Init(run[0]) && forall i :: 0 < i < |run| ==> Next(run[i - 1], run[i])
  }

  lemma {:induction false} InvAt(run: seq<State>, i: nat)
    requires IsRun(run) && i < |run|
    ensures Inv(run[i])
  {
    hide Inv, ThreadStep, Init;
    if i == 0 {
      InitOk(run[0]);
    } else {
      InvAt(run, i - 1);
      assert Next(run[i - 1], run[i]);
      var t :| ThreadStep(run[i - 1], run[i], t);
      StepKeeps(run[i - 1], run[i], t);
    }
  }

  /** Over every interleaving of readers and writers, the bytes delivered are a prefix of
      the bytes accepted, and at most 512 are outstanding. */
  lemma PipeIsFifo(run: seq<State>, i: nat)
    requires IsRun(run) && i < |run|
    ensures run[i].delivered <= run[i].accepted
    ensures |run[i].accepted| <= |run[i].delivered| + PIPESIZE
  {
    InvAt(run, i);
    hide Locks, Ends, Wakeups;
  }

  /** No lost wakeup. Whenever the pipe's lock is free, a reader that is asleep, or past the
      point where it can still notice a change, faces an empty pipe with the write end
      open, and a writer a full pipe with the read end open; so never one of each. */
  lemma NoLostWakeup(run: seq<State>, i: nat, t: nat)
    requires IsRun(run) && i < |run| && run[i].lock == Free && t in run[i].pc && Abed(run[i].pc[t])
    ensures run[i].pc[t].Read? ==>
              run[i].accepted == run[i].delivered && run[i].writeopen
    ensures run[i].pc[t].Write? ==>
              |run[i].accepted| == |run[i].delivered| + PIPESIZE && run[i].readopen
    ensures forall u :: u in run[i].pc && Abed(run[i].pc[u]) ==>
              run[i].pc[u].Read? == run[i].pc[t].Read?
  {
    InvAt(run, i);
    CounterTests(run[i]);
    hide Locks, Fifo;
    assert run[i].delivered == run[i].accepted[..|run[i].delivered|] by { Prefix(run[i]); }
  }

  lemma Prefix(s: State)
    requires Fifo(s)
    ensures |s.delivered| <= |s.accepted| && s.delivered == s.accepted[..|s.delivered|]
  {
  }

  // ------------------------------------------------------- killed writers

  /** A killed writer's return keeps the guarantee exactly when no reader is in bed. */
  lemma KilledWriterKeepsIff(s: State, s': State, t: nat, src: seq<Byte>, i: nat)
    requires Inv(s) && KilledWriter(s, s', t, src, i)
    ensures Fifo(s') && Locks(s') && Ends(s')
    ensures Inv(s') <==> forall u :: u in s.pc && s.pc[u].Read? ==> !Abed(s.pc[u])
  {
    MoveLocks(s, s', t);
    assert EndsFor(s, s.pc[t]);
    MoveEnds(s, s', t);
    CounterTests(s);
    hide Fifo, Locks, Ends;
    if u :| u in s.pc && s.pc[u].Read? && Abed(s.pc[u]) {
      assert s'.pc[u] == s.pc[u] && !WakeFor(s', s'.pc[u]);
    } else {
      forall u | u in s'.pc && u != t
        ensures WakeFor(s', s'.pc[u])
      {
        assert WakeFor(s, s.pc[u]);
      }
    }
  }

  ghost predicate Steps(run: seq<State>) {
    |run| > 0 && forall i :: 0 < i < |run| ==> Next(run[i - 1], run[i])
  }

  lemma Extend(run: seq<State>, s: State, t: nat)
    requires Steps(run) && ThreadStep(run[|run| - 1], s, t)
    ensures Steps(run + [s])
  {
    hide ThreadStep;
    assert Next(run[|run| - 1], s);
  }

  /** Thread t writes k more bytes into a pipe with room for them. */
  lemma {:induction false} Fill(run: seq<State>, t: nat, src: seq<Byte>, i: nat, k: nat) returns (more: seq<State>)
    requires Steps(run) && i + k <= |src|
    requires var s := run[|run| - 1]; Fifo(s) && s.Runs(t, Write(src, i, Loop))
                                      && |s.accepted| + k <= |s.delivered| + PIPESIZE
    ensures Steps(more) && more[0] == run[0]
    ensures var s, f := run[|run| - 1], more[|more| - 1];
            && Fifo(f) && f.Runs(t, Write(src, i + k, Loop)) && |f.accepted| == |s.accepted| + k
            && f == s.(data := f.data, nwrite := f.nwrite, accepted := f.accepted, pc := f.pc)
            && f.pc == s.pc[t := Write(src, i + k, Loop)]
    decreases k
  {
    var s := run[|run| - 1];
    if k == 0 {
      more := run;
      assert s.pc == s.pc[t := Write(src, i, Loop)];
    } else {
      CounterTests(s);
      PutFifo(s, src[i]);
      var s' := s.(data := s.data[s.nwrite % PIPESIZE := src[i]], nwrite := (s.nwrite + 1) % UINT,
                   accepted := s.accepted + [src[i]]).Goto(t, Write(src, i + 1, Loop));
      assert WriteStep(s, s', t, src, i);
      hide Fifo;
      Extend(run, s', t);
      more := Fill(run + [s'], t, src, i + 1, k - 1);
      assert s'.pc[t := Write(src, i + k, Loop)] == s.pc[t := Write(src, i + k, Loop)];
    }
  }

  lemma ThenSleeps(run: seq<State>, s: State, t: nat)
    requires Steps(run) && SleepStep(run[|run| - 1], s, t)
    ensures Steps(run + [s])
  {
    Extend(run, s, t);
  }

  function Fresh(): State {
    State(Free, Free, seq(PIPESIZE, _ => 0), 0, 0, true, true, map[0 := Idle, 1 := Idle], [], [])
  }

  /** Reader 0 finds the pipe empty and calls sleep. */
  lemma ReaderInBed() returns (run: seq<State>)
    ensures Steps(run) && run[0] == Fresh()
    ensures run[|run| - 1] == Fresh().(lock := Held(0)).Goto(0, Read(1, [], Bed0))
  {
    hide ThreadStep;
    var s0 := Fresh();
    var s1 := s0.(lock := Held(0)).Goto(0, Read(1, [], Loop));
    var s2 := s1.Goto(0, Read(1, [], Bed0));
    ReaderStarts(s0, s1, s2);
    Extend([s0], s1, 0);
    Extend([s0] + [s1], s2, 0);
    run := [s0] + [s1] + [s2];
    assert s2.pc == map[0 := Read(1, [], Bed0), 1 := Idle];
  }

  lemma ReaderStarts(s0: State, s1: State, s2: State)
    requires s0 == Fresh() && s1 == s0.(lock := Held(0)).Goto(0, Read(1, [], Loop))
    requires s2 == s1.Goto(0, Read(1, [], Bed0))
    ensures ThreadStep(s0, s1, 0) && ThreadStep(s1, s2, 0)
  {
    assert Start(s0, s1, 0, Read(1, [], Loop));
    assert ReadStep(s1, s2, 0, 1, []);
  }

  /** It falls asleep, and writer 1 starts. */
  lemma ReaderAsleep(src: seq<Byte>) returns (run: seq<State>)
    ensures IsRun(run)
    ensures var s := run[|run| - 1];
            && Fifo(s) && s.accepted == [] && s.delivered == [] && s.readopen
            && s.lock == Held(1) && s.pc == map[0 := Read(1, [], Asleep), 1 := Write(src, 0, Loop)]
  {
    hide ThreadStep;
    run := ReaderInBed();
    var s2 := run[|run| - 1];
    var s3 := s2.(ptable := Held(0)).Goto(0, Read(1, [], Bed1));
    var s4 := s3.(lock := Free).Goto(0, Read(1, [], Bed2));
    var s5 := s4.(ptable := Free).Goto(0, Read(1, [], Asleep));
    var s6 := s5.(lock := Held(1)).Goto(1, Write(src, 0, Loop));
    ThenSleeps(run, s3, 0);
    ThenSleeps(run + [s3], s4, 0);
    ThenSleeps(run + [s3] + [s4], s5, 0);
    WriterStarts(s5, s6, src);
    Extend(run + [s3] + [s4] + [s5], s6, 1);
    run := run + [s3] + [s4] + [s5] + [s6];
  }

  lemma WriterStarts(s: State, s': State, src: seq<Byte>)
    requires s.lock == Free && s.writeopen && 1 in s.pc && s.pc[1] == Idle
    requires s' == s.(lock := Held(1)).Goto(1, Write(src, 0, Loop))
    ensures ThreadStep(s, s', 1)
  {
    assert Start(s, s', 1, Write(src, 0, Loop));
  }

  /** And it does happen: a reader sleeps on the empty pipe, a killed writer fills the pipe
      and returns, and the reader sleeps on although 512 bytes wait for it. */
  lemma KilledWriterLosesWakeup() returns (run: seq<State>, mid: State, end: State, src: seq<Byte>)
    ensures IsRun(run) && KilledWriter(run[|run| - 1], mid, 1, src, PIPESIZE) && LeaveStep(mid, end, 1)
    ensures end.lock == Free && 0 in end.pc && end.pc[0] == Read(1, [], Asleep)
    ensures |end.accepted| == PIPESIZE && end.delivered == []
  {
    src := seq(PIPESIZE + 1, _ => 0);
    var start := ReaderAsleep(src);
    run := Fill(start, 1, src, 0, PIPESIZE);
    var full := run[|run| - 1];
    CounterTests(full);
    mid := full.Goto(1, Write(src, PIPESIZE, Leave));
    end := mid.(lock := Free).Goto(1, Idle);
  }
}

/** The copying loops of pipe.c over the in-place ring. */
module PipeCode {
  import opened Params
  import opened PipeMachine

  class Ring {
    const data: array<Byte>
    var nread: nat
    var nwrite: nat
    ghost var accepted: seq<Byte>
    ghost var delivered: seq<Byte>

    ghost function View(): State
      reads this, data
    {
      State(Free, Free, data[..], nread, nwrite, true, true, map[], accepted, delivered)
    }

    ghost predicate Valid()
      reads this, data
    {
      Fifo(View())
    }

    constructor ()
      ensures Valid() && accepted == [] && delivered == [] && fresh(data)
    {
      data := new Byte[PIPESIZE];
      nread, nwrite, accepted, delivered := 0, 0, [], [];
    }

    /** pipe.c:83-93 up to the next sleep: copies from src[from..] until done or full. */
    method Put(src: seq<Byte>, from: nat) returns (i: nat)
      requires Valid() && from <= |src|
      modifies this`nwrite, this`accepted, data
      ensures Valid() && from <= i <= |src|
      ensures accepted == old(accepted) + src[from..i]
      ensures i == |src| || |accepted| == |delivered| + PIPESIZE
    {
      hide Fifo;
      FifoData(View());
      i := from;
      CounterTests(View());
      while i < |src| && nwrite != (nread + PIPESIZE) % UINT
        invariant Valid() && from <= i <= |src| && delivered == old(delivered) && nread == old(nread)
        invariant accepted == old(accepted) + src[from..i]
        invariant nwrite != (nread + PIPESIZE) % UINT || |accepted| == |delivered| + PIPESIZE
      {
        ghost var before := View();
        FifoData(before);
        CounterTests(before);
        PutFifo(before, src[i]);
        data[nwrite % PIPESIZE] := src[i];
        nwrite := (nwrite + 1) % UINT;
        accepted := accepted + [src[i]];
        assert data[..] == before.data[before.nwrite % PIPESIZE := src[i]];
        i := i + 1;
        CounterTests(View());
      }
    }

    /** pipe.c:112-116: takes up to n bytes, the oldest first. */
    method Get(n: nat) returns (got: seq<Byte>)
      requires Valid()
      modifies this`nread, this`delivered
      ensures Valid() && delivered == old(delivered) + got && |got| <= n
      ensures |got| == n || delivered == accepted
    {
      got := [];
      while |got| < n
        invariant Valid() && |got| <= n && delivered == old(delivered) + got
      {
        CounterTests(View());
        if nread == nwrite {
          break;
        }
        GetFifo(View());
        var b := data[nread % PIPESIZE];
        nread := (nread + 1) % UINT;
        delivered := delivered + [b];
        got := got + [b];
      }
    }
  }
}

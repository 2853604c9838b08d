/** What pipewrite, piperead and pipeclose have done when they return, over every interleaving. */
module PipeCalls {
  import opened Params
  import opened PipeMachine

  // ------------------------------------------------------------ how calls end

  /** A writer finishes with all of its bytes in, and leaves early only if no reader is left. A
      reader copies once there is something to copy or no writer is left, and finishes with all
      it asked for or an empty pipe. A closed end is closed. */
  ghost predicate CallOk(s: State, p: PC) {
    match p
    case Idle => true
    case Write(src, i, at) =>
      && i <= |src| && (at == Finish ==> i == |src|) && (at == Leave ==> i == |src| || !s.readopen)
    case Read(n, got, at) =>
      && |got| <= n
      && (at == Copy ==> got != [] || !s.Empty() || !s.writeopen)
      && (at == Finish ==> (|got| == n || s.Empty()) && (got != [] || n == 0 || !s.writeopen))
      && (at != Copy && at != Finish && at != Leave ==> got == [])
    case Close(w, at) => at == Finish || at == Leave ==> !(if w then s.writeopen else s.readopen)
  }

  ghost predicate Calls(s: State) {
    forall t :: t in s.pc ==> CallOk(s, s.pc[t])
  }

  // ------------------------------------------------------------- what a step does

  function Added(a: seq<Byte>, b: seq<Byte>): seq<Byte> {
    if |a| <= |b| then b[|a|..] else []
  }

  /** t's step leaves every other thread where it is, or wakes it, opens nothing, and touches the
      ring only under the pipe's lock. */
  ghost predicate Others(s: State, s': State, t: nat) {
    && t in s.pc && s'.pc.Keys == s.pc.Keys
    && (forall u :: u in s.pc && u != t ==>
          s'.pc[u] == s.pc[u] || (!s.pc[u].Idle? && s.pc[u].at == Asleep && s'.pc[u] == To(s.pc[u], Woken)))
    && (s'.readopen ==> s.readopen) && (s'.writeopen ==> s.writeopen)
    && (s.lock != Held(t) ==> s'.nread == s.nread && s'.nwrite == s.nwrite)
  }

  /** t starts a call or goes on with it, moving its own bytes. */
  ghost predicate Moves(s: State, s': State, t: nat)
    requires t in s.pc && t in s'.pc
  {
    var p, r := s.pc[t], s'.pc[t];
    var put, took := Added(s.accepted, s'.accepted), Added(s.delivered, s'.delivered);
    match p
    case Idle => put == [] && took == []
    case Write(src, i, _) =>
      && took == []
      && (!r.Idle? && i <= |src| ==> r.Write? && r.src == src && i <= r.i <= |src| && put == src[i..r.i])
    case Read(n, got, _) => put == [] && (!r.Idle? ==> r.Read? && r.n == n && r.got == got + took)
    case Close(w, _) => put == [] && took == []
  }

  ghost predicate Does(s: State, s': State, t: nat) {
    && Others(s, s', t) && Moves(s, s', t)
    && (CallOk(s, s.pc[t]) && EndsFor(s, s.pc[t]) ==> CallOk(s', s'.pc[t]))
  }

  lemma StartDoes(s: State, s': State, t: nat, p: PC)
    requires Start(s, s', t, p)
    ensures Does(s, s', t)
  {
    hide Unused;
  }

  lemma WriteDoes(s: State, s': State, t: nat, src: seq<Byte>, i: nat)
    requires WriteStep(s, s', t, src, i)
    ensures Does(s, s', t)
  {
    hide Unused;
  }

  lemma ReadDoes(s: State, s': State, t: nat, n: nat, got: seq<Byte>)
    requires ReadStep(s, s', t, n, got)
    ensures Does(s, s', t)
  {
    hide Unused;
  }

  lemma CopyDoes(s: State, s': State, t: nat, n: nat, got: seq<Byte>)
    requires CopyStep(s, s', t, n, got)
    ensures Does(s, s', t)
  {
    hide Unused;
  }

  lemma CloseDoes(s: State, s': State, t: nat, w: bool)
    requires CloseStep(s, s', t, w)
    ensures Does(s, s', t)
  {
    hide Unused;
  }

  lemma NotifyDoes(s: State, s': State, t: nat, src: seq<Byte>, i: nat)
    requires NotifyStep(s, s', t, src, i)
    ensures Does(s, s', t)
  {
    hide Unused;
  }

  lemma FinishDoes(s: State, s': State, t: nat)
    requires FinishStep(s, s', t)
    ensures Does(s, s', t)
  {
    hide Unused;
  }

  lemma LeaveDoes(s: State, s': State, t: nat)
    requires LeaveStep(s, s', t)
    ensures Does(s, s', t)
  {
    hide Unused;
  }

  /** t goes to sleep or gets up: only locks and where t is change. */
  lemma RestDoes(s: State, s': State, t: nat, at: At)
    requires t in s.pc && !s.pc[t].Idle? && s.pc[t].at in {Bed0, Bed1, Bed2, Woken} && at in {Bed1, Bed2, Asleep, Loop}
    requires s' == s.(lock := s'.lock, ptable := s'.ptable).Goto(t, To(s.pc[t], at))
    ensures Does(s, s', t)
  {
    hide Unused;
    assert s'.pc[t] == To(s.pc[t], at);
  }

  lemma SleepDoes(s: State, s': State, t: nat)
    requires SleepStep(s, s', t)
    ensures Does(s, s', t)
  {
    hide Does, Unused;
    RestDoes(s, s', t, s'.pc[t].at);
  }

  lemma KillDoes(s: State, s': State, t: nat)
    requires KillStep(s, s', t)
    ensures Does(s, s', t)
  {
    hide Unused;
  }

  lemma StepDoes(s: State, s': State, t: nat)
    requires ThreadStep(s, s', t)
    ensures Does(s, s', t)
  {
    hide Does, Start, WriteStep, ReadStep, CopyStep, CloseStep, NotifyStep, FinishStep, LeaveStep, SleepStep, KillStep;
    if p :| Start(s, s', t, p) {
      StartDoes(s, s', t, p);
    } else if src, i :| WriteStep(s, s', t, src, i) {
      WriteDoes(s, s', t, src, i);
    } else if n, got :| ReadStep(s, s', t, n, got) {
      ReadDoes(s, s', t, n, got);
    } else if n, got :| CopyStep(s, s', t, n, got) {
      CopyDoes(s, s', t, n, got);
    } else if w :| CloseStep(s, s', t, w) {
      CloseDoes(s, s', t, w);
    } else if src, i :| NotifyStep(s, s', t, src, i) {
      NotifyDoes(s, s', t, src, i);
    } else if FinishStep(s, s', t) {
      FinishDoes(s, s', t);
    } else if LeaveStep(s, s', t) {
      LeaveDoes(s, s', t);
    } else if SleepStep(s, s', t) {
      SleepDoes(s, s', t);
    } else {
      KillDoes(s, s', t);
    }
  }

  lemma OtherOk(s: State, s': State, t: nat, u: nat)
    requires Inv(s) && Others(s, s', t) && u in s.pc && u != t && CallOk(s, s.pc[u])
    ensures u in s'.pc && CallOk(s', s'.pc[u])
  {
    hide Fifo, Ends, Wakeups;
    assert HoldsLock(s.pc[u]) <==> s.lock == Held(u);
    hide Locks;
  }

  lemma MoverOk(s: State, s': State, t: nat)
    requires Inv(s) && Does(s, s', t) && CallOk(s, s.pc[t])
    ensures CallOk(s', s'.pc[t])
  {
    hide Fifo, Locks, Wakeups, CallOk;
    assert EndsFor(s, s.pc[t]);
  }

  lemma {:induction false} CallsAt(run: seq<State>, k: nat)
    requires IsRun(run) && k < |run|
    ensures Inv(run[k]) && Calls(run[k])
  {
    hide Inv, ThreadStep, CallOk, Moves;
    InvAt(run, k);
    if k == 0 {
      IdleOk(run[0]);
    } else {
      CallsAt(run, k - 1);
      assert Next(run[k - 1], run[k]);
      var t :| ThreadStep(run[k - 1], run[k], t);
      StepDoes(run[k - 1], run[k], t);
      forall u | u in run[k].pc
        ensures CallOk(run[k], run[k].pc[u])
      {
        if u == t {
          MoverOk(run[k - 1], run[k], t);
        } else {
          OtherOk(run[k - 1], run[k], t, u);
        }
      }
    }
  }

  lemma IdleOk(s: State)
    requires Init(s)
    ensures Calls(s)
  {
  }

  /** pipewrite returns with all of its bytes in the pipe, unless no reader is left. */
  lemma WritesAll(run: seq<State>, k: nat, t: nat, src: seq<Byte>, i: nat)
    requires IsRun(run) && k < |run| && t in run[k].pc && run[k].pc[t] == Write(src, i, Leave)
    ensures i == |src| || !run[k].readopen
  {
    hide Inv;
    CallsAt(run, k);
    assert CallOk(run[k], run[k].pc[t]);
  }

  /** piperead has all it asked for or has emptied the pipe, and has nothing only at the end. */
  lemma ReadsAll(run: seq<State>, k: nat, t: nat, n: nat, got: seq<Byte>)
    requires IsRun(run) && k < |run| && t in run[k].pc && run[k].pc[t] == Read(n, got, Finish)
    ensures |got| <= n && (|got| == n || run[k].accepted == run[k].delivered)
    ensures got == [] ==> n == 0 || (run[k].accepted == run[k].delivered && !run[k].writeopen)
  {
    hide Locks, Ends, Wakeups;
    CallsAt(run, k);
    assert CallOk(run[k], run[k].pc[t]);
    CounterTests(run[k]);
    Prefix(run[k]);
  }

  /** pipeclose has closed its end. */
  lemma Closes(run: seq<State>, k: nat, t: nat, w: bool)
    requires IsRun(run) && k < |run| && t in run[k].pc && run[k].pc[t] == Close(w, Leave)
    ensures !(if w then run[k].writeopen else run[k].readopen)
  {
    hide Inv;
    CallsAt(run, k);
    assert CallOk(run[k], run[k].pc[t]);
  }

  // ------------------------------------------------------ whose bytes they are

  /** A run and the thread that makes each step. */
  ghost predicate IsRunBy(run: seq<State>, who: seq<nat>) {
    && IsRun(run) && |who| + 1 == |run|
    && forall k :: 0 <= k < |who| ==> ThreadStep(run[k], run[k + 1], who[k])
  }

  /** The bytes that t's steps from run[i] to run[j] put into the pipe. */
  ghost function Sent(run: seq<State>, who: seq<nat>, t: nat, i: nat, j: nat): seq<Byte>
    requires IsRunBy(run, who) && j < |run|
  {
    if j <= i then []
    else Sent(run, who, t, i, j - 1) + if who[j - 1] == t then Added(run[j - 1].accepted, run[j].accepted) else []
  }

  /** And those that they took out. */
  ghost function Taken(run: seq<State>, who: seq<nat>, t: nat, i: nat, j: nat): seq<Byte>
    requires IsRunBy(run, who) && j < |run|
  {
    if j <= i then []
    else Taken(run, who, t, i, j - 1) + if who[j - 1] == t then Added(run[j - 1].delivered, run[j].delivered) else []
  }

  /** Thread t is in one call from run[i + 1] to run[j]. */
  ghost predicate InCall(run: seq<State>, i: nat, j: nat, t: nat, p: PC) {
    && i < j < |run| && t in run[i].pc && run[i].pc[t] == Idle && Start(run[i], run[i + 1], t, p)
    && forall k :: i < k <= j ==> t in run[k].pc && !run[k].pc[t].Idle?
  }

  /** The bytes that a call of pipewrite has put in are the first bytes of its source, in order. */
  lemma {:induction false} SendsItsBytes(run: seq<State>, who: seq<nat>, i: nat, j: nat, t: nat, src: seq<Byte>)
    requires IsRunBy(run, who) && InCall(run, i, j, t, Write(src, 0, Loop))
    ensures run[j].pc[t].Write? && run[j].pc[t].src == src && run[j].pc[t].i <= |src|
    ensures Sent(run, who, t, i, j) == src[..run[j].pc[t].i]
    decreases j
  {
    hide IsRun, ThreadStep, CallOk;
    var s, s' := run[j - 1], run[j];
    if j == i + 1 {
      StartsNothing(s, s', t, Write(src, 0, Loop));
    } else {
      SendsItsBytes(run, who, i, j - 1, t, src);
      StepDoes(s, s', who[j - 1]);
      if who[j - 1] == t {
        assert src[..s.pc[t].i] + src[s.pc[t].i..s'.pc[t].i] == src[..s'.pc[t].i];
      }
    }
  }

  lemma StartsNothing(s: State, s': State, t: nat, p: PC)
    requires Start(s, s', t, p)
    ensures s'.pc[t] == p && Added(s.accepted, s'.accepted) == [] && Added(s.delivered, s'.delivered) == []
  {
  }

  /** What a call of piperead has is what it has taken out, in order. */
  lemma {:induction false} GetsItsBytes(run: seq<State>, who: seq<nat>, i: nat, j: nat, t: nat, n: nat)
    requires IsRunBy(run, who) && InCall(run, i, j, t, Read(n, [], Loop))
    ensures run[j].pc[t].Read? && run[j].pc[t].n == n && run[j].pc[t].got == Taken(run, who, t, i, j)
    decreases j
  {
    hide IsRun, ThreadStep, CallOk;
    var s, s' := run[j - 1], run[j];
    if j == i + 1 {
      StartsNothing(s, s', t, Read(n, [], Loop));
    } else {
      GetsItsBytes(run, who, i, j - 1, t, n);
      StepDoes(s, s', who[j - 1]);
    }
  }
}

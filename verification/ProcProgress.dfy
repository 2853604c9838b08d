/** What one CPU's steps come to: switching to a process and back, fork, exit and wait. */
module ProcProgress {
  import opened Params
  import opened ProcMachine

  ghost predicate Steps(run: seq<State>) {
    |run| > 0 && forall i :: 0 < i < |run| ==> Next(run[i - 1], run[i])
  }

  lemma Then(run: seq<State>, s: State, c: nat)
    requires Steps(run) && CpuStep(run[|run| - 1], s, c)
    ensures Steps(run + [s])
  {
    hide CpuStep;
    assert Next(run[|run| - 1], s);
  }

  lemma ThenSched(run: seq<State>, s: State, c: nat)
    requires Steps(run) && SchedStep(run[|run| - 1], s, c)
    ensures Steps(run + [s])
  {
    hide SchedStep;
    Then(run, s, c);
  }

  lemma ThenProc(run: seq<State>, s: State, c: nat, p: nat)
    requires Steps(run) && ProcStep(run[|run| - 1], s, c, p)
    ensures Steps(run + [s])
  {
    hide ProcStep;
    Then(run, s, c);
  }

  /** scheduler switches to any RUNNABLE process, which goes on with its channel cleared. */
  lemma Dispatches(s: State, c: nat, p: nat) returns (run: seq<State>)
    requires s.On(c, Scan) && s.lock == Free && p < |s.procs| && s.procs[p].state == Runnable
    ensures Steps(run) && run[0] == s
    ensures run[|run| - 1] ==
            s.With(p, s.procs[p].(state := Running, saved := false, chan := NoChan)).Move(c, Kernel(p))
  {
    var s1 := s.(lock := Held(c)).Move(c, Locked);
    var s2 := s1.Move(c, Chosen(p));
    var s3 := s2.With(p, s2.procs[p].(state := Running)).Move(c, Enter(p));
    var s4 := s3.With(p, s3.procs[p].(saved := false)).Move(c, Resumed(p));
    var s5 := s4.With(p, s4.procs[p].(chan := NoChan)).Move(c, KLocked(p));
    var s6 := s5.(lock := Free).Move(c, Kernel(p));
    assert PickStep(s1, s2, c, p);
    assert LockStep(s5, s6, c, p);
    hide LockStep, PickStep;
    ThenSched([s], s1, c);
    ThenSched([s] + [s1], s2, c);
    run := [s] + [s1] + [s2];
    ThenSched(run, s3, c);
    ThenSched(run + [s3], s4, c);
    ThenSched(run + [s3] + [s4], s5, c);
    ThenProc(run + [s3] + [s4] + [s5], s6, c, p);
    run := run + [s3] + [s4] + [s5] + [s6];
  }

  /** From where a process has given up the CPU, the CPU comes back to the scheduler's loop. */
  lemma SwitchesBack(s: State, c: nat, p: nat) returns (run: seq<State>)
    requires s.On(c, Leaving(p)) && s.lock == Held(c)
    ensures Steps(run) && run[0] == s
    ensures run[|run| - 1] == s.(lock := Free).With(p, s.procs[p].(saved := true)).Move(c, Scan)
  {
    var s1 := s.With(p, s.procs[p].(saved := true)).Move(c, Back(p));
    var s2 := s1.Move(c, Locked);
    var s3 := s2.(lock := Free).Move(c, Scan);
    ThenSched([s], s1, c);
    ThenSched([s] + [s1], s2, c);
    ThenSched([s] + [s1] + [s2], s3, c);
    run := [s] + [s1] + [s2] + [s3];
  }

  lemma ThreeSteps(s: State, s1: State, s2: State, s3: State, c: nat, p: nat)
    requires ProcStep(s, s1, c, p) && ProcStep(s1, s2, c, p) && ProcStep(s2, s3, c, p)
    ensures Steps([s, s1, s2, s3])
  {
    hide ProcStep;
    assert CpuStep(s, s1, c) && CpuStep(s1, s2, c) && CpuStep(s2, s3, c);
  }

  /** fork makes an unused slot a RUNNABLE child with a fresh pid and this process for its parent. */
  lemma Forks(s: State, c: nat, p: nat, q: nat) returns (run: seq<State>)
    requires s.On(c, Kernel(p)) && s.lock == Free && s.procs[p].making == None
    requires q < |s.procs| && q != p && s.procs[q].state == Unused
    ensures Steps(run) && run[0] == s
    ensures run[|run| - 1] ==
            s.(nextpid := s.nextpid + 1)
             .With(q, s.procs[q].(state := Runnable, pid := s.nextpid, parent := Some(p),
                                  kstack := true, saved := true))
  {
    hide ProcStep, Next;
    var s1 := s.(lock := Held(c)).Move(c, KLocked(p));
    var s2 := s1.(nextpid := s.nextpid + 1).With(q, s1.procs[q].(state := Embryo, pid := s.nextpid))
               .With(p, s1.procs[p].(making := Some(q)));
    var s3 := s2.(lock := Free).Move(c, Kernel(p));
    var s4 := s3.With(q, s3.procs[q].(kstack := true, saved := true));
    var s5 := s4.With(q, s4.procs[q].(parent := Some(p)));
    var s6 := s5.With(q, s5.procs[q].(state := Runnable)).With(p, s5.procs[p].(making := None));
    AllocSteps(s, s1, s2, s3, c, p, q);
    ForkSteps(s3, s4, s5, s6, c, p, q);
    ThreeSteps(s, s1, s2, s3, c, p);
    ThreeSteps(s3, s4, s5, s6, c, p);
    run := Joined([s, s1, s2, s3], [s3, s4, s5, s6]);
    assert s6.cpus == s.cpus && s6.procs[p] == s.procs[p];
  }

  lemma AllocSteps(s: State, s1: State, s2: State, s3: State, c: nat, p: nat, q: nat)
    requires s.On(c, Kernel(p)) && s.lock == Free && s.procs[p].making == None
    requires q < |s.procs| && q != p && s.procs[q].state == Unused
    requires s1 == s.(lock := Held(c)).Move(c, KLocked(p))
    requires s2 == s1.(nextpid := s.nextpid + 1).With(q, s1.procs[q].(state := Embryo, pid := s.nextpid))
                     .With(p, s1.procs[p].(making := Some(q)))
    requires s3 == s2.(lock := Free).Move(c, Kernel(p))
    ensures ProcStep(s, s1, c, p) && ProcStep(s1, s2, c, p) && ProcStep(s2, s3, c, p)
  {
    assert Alloc(s1, s2, c, p, q);
    assert LockStep(s, s1, c, p) && LockStep(s2, s3, c, p);
  }

  lemma ForkSteps(s3: State, s4: State, s5: State, s6: State, c: nat, p: nat, q: nat)
    requires s3.On(c, Kernel(p)) && q < |s3.procs| && p != q && s3.procs[p].making == Some(q)
    requires s4 == s3.With(q, s3.procs[q].(kstack := true, saved := true))
    requires s5 == s4.With(q, s4.procs[q].(parent := Some(p)))
    requires s6 == s5.With(q, s5.procs[q].(state := Runnable)).With(p, s5.procs[p].(making := None))
    ensures ProcStep(s3, s4, c, p) && ProcStep(s4, s5, c, p) && ProcStep(s5, s6, c, p)
  {
    assert Fork(s3, s4, c, p, q);
    assert Adopt(s4, s5, p, q) && Fork(s4, s5, c, p, q);
    assert Launch(s5, s6, p, q) && Fork(s5, s6, c, p, q);
  }

  /** wait by the parent of a zombie returns its pid and frees its slot. */
  lemma Waits(s: State, c: nat, p: nat, q: nat) returns (run: seq<State>)
    requires s.On(c, Kernel(p)) && s.lock == Free && s.procs[p].making == None
    requires q < |s.procs| && s.procs[q].parent == Some(p) && s.procs[q].state == Zombie
    ensures Steps(run) && run[0] == s
    ensures var t := run[|run| - 1];
            && t.reaped == s.reaped + [s.procs[q].pid] && t.cpus == s.cpus && t.lock == Free && |t.procs| == |s.procs|
            && t.procs == s.procs[q := t.procs[q]] && t.procs[q].state == Unused && t.procs[q].parent == None
            && !t.procs[q].kstack && !t.procs[q].killed
  {
    var s1 := s.(lock := Held(c)).Move(c, KLocked(p));
    var s2 := s1.(reaped := s1.reaped + [s1.procs[q].pid]).With(q, Reaped(s1.procs[q]));
    var s3 := s2.(lock := Free).Move(c, Kernel(p));
    assert WaitReap(s1, s2, c, p, q);
    ThenProc([s], s1, c, p);
    ThenProc([s] + [s1], s2, c, p);
    ThenProc([s] + [s1] + [s2], s3, c, p);
    run := [s] + [s1] + [s2] + [s3];
    assert s3.cpus == s.cpus;
  }

  /** exit leaves a zombie behind, and the CPU in the scheduler's loop. */
  lemma Exits(s: State, c: nat, p: nat) returns (run: seq<State>)
    requires s.On(c, Kernel(p)) && s.lock == Free && p != INIT && s.procs[p].making == None && s.procs[p].parent.Some?
    ensures Steps(run) && run[0] == s
    ensures var t := run[|run| - 1];
            && t.On(c, Scan) && t.lock == Free && |t.procs| == |s.procs|
            && t.procs[p].state == Zombie && t.procs[p].pid == s.procs[p].pid
            && forall k :: 0 <= k < |s.procs| ==> t.procs[k].parent != Some(p)
  {
    hide Exited;
    var s1 := s.(lock := Held(c)).Move(c, KLocked(p));
    var s2 := s1.(procs := Exited(s1.procs, p)).Move(c, Leaving(p));
    assert Exit(s1, s2, c, p);
    ThenProc([s], s1, c, p);
    ThenProc([s] + [s1], s2, c, p);
    var back := SwitchesBack(s2, c, p);
    run := Joined([s] + [s1] + [s2], back);
    forall k | 0 <= k < |s.procs|
      ensures Exited(s.procs, p)[k].parent != Some(p)
    {
      ExitedAt(s.procs, p, k);
    }
    ExitedAt(s.procs, p, p);
  }

  lemma Joined(a: seq<State>, b: seq<State>) returns (run: seq<State>)
    requires Steps(a) && Steps(b) && a[|a| - 1] == b[0]
    ensures Steps(run) && run[0] == a[0] && run[|run| - 1] == b[|b| - 1]
  {
    hide Next;
    run := a + b[1..];
    assert forall i :: |a| <= i < |run| ==> run[i] == b[i - |a| + 1];
  }
}

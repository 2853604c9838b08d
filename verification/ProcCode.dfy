/** The table scans of proc.c, in place on the process table. */
module ProcCode {
  import opened ProcMachine

  datatype WaitResult = Pid(pid: nat, slot: nat) | NoChildren | MustSleep

  /** Some child of p among the first n slots is a zombie. */
  ghost predicate ZombieIn(procs: seq<Proc>, p: nat, n: nat)
    requires n <= |procs|
  {
    exists i :: 0 <= i < n && procs[i].parent == Some(p) && procs[i].state == Zombie
  }

  /** A slot in the middle of exit's scan; `seen`: the scan has passed it. */
  function Step(q: Proc, seen: bool, p: nat, pp: nat, z: bool): Proc {
    var a := Woken(q, OfProc(pp));
    var b := if z then Woken(a, OfProc(INIT)) else a;
    if seen && b.parent == Some(p) then b.(parent := Some(INIT)) else b
  }

  /** The table when exit's scan has passed n slots. */
  ghost function Scanned(was: seq<Proc>, p: nat, n: nat): (r: seq<Proc>)
    requires p < |was| && was[p].parent.Some? && n <= |was|
    ensures |r| == |was|
    ensures forall k :: 0 <= k < |r| ==> r[k] == Step(was[k], k < n, p, was[p].parent.value, ZombieIn(was, p, n))
  {
    seq(|was|, k requires 0 <= k < |was| =>
      Step(was[k], k < n, p, was[p].parent.value, ZombieIn(was, p, n)))
  }

  lemma ScanBegins(was: seq<Proc>, p: nat)
    requires p < |was| && was[p].parent.Some?
    ensures Scanned(was, p, 0) == ProcMachine.Wakeup1(was, OfProc(was[p].parent.value))
  {
  }

  /** One turn of the scan: a child goes to init, which is woken if the child is a zombie. */
  lemma ScanNext(was: seq<Proc>, p: nat, n: nat)
    requires p < |was| && was[p].parent.Some? && n < |was|
    ensures var cur := Scanned(was, p, n);
            var child := cur[n].parent == Some(p);
            var mid := if child then cur[n := cur[n].(parent := Some(INIT))] else cur;
            Scanned(was, p, n + 1) ==
              if child && cur[n].state == Zombie then ProcMachine.Wakeup1(mid, OfProc(INIT)) else mid
  {
    var z := was[n].parent == Some(p) && was[n].state == Zombie;
    assert ZombieIn(was, p, n + 1) <==> ZombieIn(was, p, n) || z;
    hide ZombieIn;
  }

  lemma ScanEnds(was: seq<Proc>, p: nat)
    requires p < |was| && was[p].parent.Some?
    ensures var end := Scanned(was, p, |was|);
            end[p := end[p].(state := Zombie)] == Exited(was, p)
  {
    assert ZombieIn(was, p, |was|) <==> HasZombie(was, p);
    hide ZombieIn, HasZombie;
  }

  class Table {
    const procs: array<Proc>
    var nextpid: nat

    constructor (n: nat)
      ensures procs.Length == n && nextpid == 1 && fresh(procs)
      ensures forall i :: 0 <= i < n ==> procs[i] == Proc(Unused, 0, None, NoChan, false, false, false, None)
    {
      procs := new Proc[n](_ => Proc(Unused, 0, None, NoChan, false, false, false, None));
      nextpid := 1;
    }

    /** proc.c:397-405. */
    method Wakeup1(ch: Chan)
      modifies procs
      ensures procs[..] == ProcMachine.Wakeup1(old(procs[..]), ch)
    {
      for i := 0 to procs.Length
        invariant forall k :: 0 <= k < i ==> procs[k] == Woken(old(procs[k]), ch)
        invariant forall k :: i <= k < procs.Length ==> procs[k] == old(procs[k])
      {
        if procs[i].state == Sleeping && procs[i].chan == ch {
          procs[i] := procs[i].(state := Runnable);
        }
      }
    }

    /** proc.c:188-201: after it, the table is what the Exit step says. */
    method ExitScan(p: nat)
      requires p < procs.Length && procs[p].parent.Some?
      modifies procs
      ensures procs[..] == Exited(old(procs[..]), p)
    {
      ghost var was := procs[..];
      Wakeup1(OfProc(procs[p].parent.value));
      var i := 0;
      ScanBegins(was, p);
      while i < procs.Length
        invariant 0 <= i <= procs.Length && procs[..] == Scanned(was, p, i)
      {
        hide Step;
        ScanNext(was, p, i);
        if procs[i].parent == Some(p) {
          procs[i] := procs[i].(parent := Some(INIT));
          if procs[i].state == Zombie {
            Wakeup1(OfProc(INIT));
          }
        }
        i := i + 1;
      }
      ScanEnds(was, p);
      procs[p] := procs[p].(state := Zombie);
    }

    /** One pass of wait's loop, proc.c:217-242. It reaps the first zombie child, gives up
        without children or when killed, and otherwise is to sleep. */
    method WaitScan(p: nat) returns (r: WaitResult)
      requires p < procs.Length
      modifies procs
      ensures var was := old(procs[..]);
              match r
              case Pid(pid, q) =>
                && q < |was| && was[q].parent == Some(p) && was[q].state == Zombie && pid == was[q].pid
                && !ZombieIn(was, p, q) && procs[..] == was[q := Reaped(was[q])]
              case NoChildren =>
                && procs[..] == was && !HasZombie(was, p)
                && (was[p].killed || forall i :: 0 <= i < |was| ==> was[i].parent != Some(p))
              case MustSleep =>
                && procs[..] == was && !HasZombie(was, p) && !was[p].killed
                && exists i :: 0 <= i < |was| && was[i].parent == Some(p)
    {
      var havekids := false;
      var i := 0;
      while i < procs.Length
        invariant 0 <= i <= procs.Length && procs[..] == old(procs[..])
        invariant havekids <==> exists k :: 0 <= k < i && old(procs[..])[k].parent == Some(p)
        invariant !ZombieIn(old(procs[..]), p, i)
      {
        assert procs[i] == old(procs[..])[i];
        if procs[i].parent == Some(p) {
          havekids := true;
          if procs[i].state == Zombie {
            r := Pid(procs[i].pid, i);
            procs[i] := Reaped(procs[i]);
            return;
          }
        }
        i := i + 1;
      }
      if !havekids || procs[p].killed {
        return NoChildren;
      }
      return MustSleep;
    }

    /** kill, proc.c:419-437: the first slot with that pid is marked, and made RUNNABLE if asleep. */
    method KillScan(pid: nat) returns (r: Option<nat>)
      modifies procs
      ensures var was := old(procs[..]);
              match r
              case None => procs[..] == was && forall i :: 0 <= i < |was| ==> was[i].pid != pid
              case Some(q) =>
                && q < |was| && was[q].pid == pid && (forall i :: 0 <= i < q ==> was[i].pid != pid)
                && procs[..] == was[q := procs[q]] && procs[q].killed && procs[q].state != Sleeping
                && procs[q] == Killed(was[q])
    {
      var i := 0;
      while i < procs.Length
        invariant 0 <= i <= procs.Length && procs[..] == old(procs[..])
        invariant forall k :: 0 <= k < i ==> old(procs[..])[k].pid != pid
      {
        assert procs[i] == old(procs[..])[i];
        if procs[i].pid == pid {
          procs[i] := procs[i].(killed := true);
          if procs[i].state == Sleeping {
            procs[i] := procs[i].(state := Runnable);
          }
          return Some(i);
        }
        i := i + 1;
      }
      return None;
    }

    /** proc.c:40-50: the first UNUSED slot becomes an EMBRYO with a fresh pid. */
    method AllocScan() returns (r: Option<nat>)
      modifies procs, this
      ensures var was := old(procs[..]);
              match r
              case None => procs[..] == was && nextpid == old(nextpid)
                           && forall i :: 0 <= i < |was| ==> was[i].state != Unused
              case Some(q) =>
                && q < |was| && was[q].state == Unused && nextpid == old(nextpid) + 1
                && (forall i :: 0 <= i < q ==> was[i].state != Unused)
                && procs[..] == was[q := was[q].(state := Embryo, pid := old(nextpid))]
    {
      var i := 0;
      while i < procs.Length
        invariant 0 <= i <= procs.Length && procs[..] == old(procs[..]) && nextpid == old(nextpid)
        invariant forall k :: 0 <= k < i ==> old(procs[..])[k].state != Unused
      {
        assert procs[i] == old(procs[..])[i];
        if procs[i].state == Unused {
          procs[i] := procs[i].(state := Embryo, pid := nextpid);
          nextpid := nextpid + 1;
          return Some(i);
        }
        i := i + 1;
      }
      return None;
    }
  }
}

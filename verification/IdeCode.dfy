/** ide.c's queue as the code keeps it, a list through qnext, and memide.c's iderw. */
module IdeCode {
  import opened Blocks
  import opened Lists
  import opened IdeMachine

  datatype Outcome = Done | PanicNotBusy | PanicNothingToDo | PanicWrongDisk | PanicOutOfRange

  /** Node i of the list, or the null pointer after its end. */
  function At(c: seq<nat>, nil: nat, i: nat): nat {
    if i < |c| then c[i] else nil
  }

  /** From `head`, the pointers run through c and end; the null pointer is |qnext|. */
  ghost predicate IsList(qnext: seq<nat>, head: nat, c: seq<nat>) {
    && NoneTwice(c) && head == At(c, |qnext|, 0)
    && forall i :: 0 <= i < |c| ==> c[i] < |qnext| && qnext[c[i]] == At(c, |qnext|, i + 1)
  }

  lemma AppendedList(qnext: seq<nat>, head: nat, c: seq<nat>, b: nat)
    requires IsList(qnext, head, c) && b < |qnext| && b !in c
    ensures var q := qnext[b := |qnext|];
            if c == [] then IsList(q, b, c + [b])
            else c[|c| - 1] < |q| && IsList(q[c[|c| - 1] := b], head, c + [b])
  {
  }

  lemma PoppedList(qnext: seq<nat>, head: nat, c: seq<nat>)
    requires IsList(qnext, head, c) && c != []
    ensures head < |qnext| && IsList(qnext, qnext[head], c[1..])
  {
    forall i | 0 <= i < |c[1..]|
      ensures qnext[c[1..][i]] == At(c[1..], |qnext|, i + 1)
    {
      assert c[1..][i] == c[i + 1];
    }
  }

  class Ide {
    var idequeue: nat
    var qnext: seq<nat>
    var bufs: seq<Buf>
    var drive: Drive
    const havedisk1: bool
    ghost var queue: seq<nat>

    ghost predicate Valid()
      reads this
    {
      |qnext| == |bufs| && IsList(qnext, idequeue, queue)
    }

    /** idestart, ide.c:69-88. */
    method Idestart(b: nat)
      requires b < |bufs|
      modifies this`drive
      ensures drive == Working(OpOf(bufs[b]))
    {
      drive := Working(if bufs[b].dirty then Write(bufs[b].sector, bufs[b].data) else Read(bufs[b].sector));
    }

    /** iderw up to its wait, ide.c:125-147, for a buffer that is not queued already. */
    method Iderw(b: nat, busy: bool, dev: nat) returns (r: Outcome)
      requires Valid() && b < |bufs| && b !in queue
      modifies this
      ensures Valid() && bufs == old(bufs)
      ensures r == if !busy then PanicNotBusy else if InSync(bufs[b]) then PanicNothingToDo
                   else if dev != 0 && !havedisk1 then PanicWrongDisk else Done
      ensures r.Done? ==>
                && queue == old(queue) + [b]
                && drive == if old(queue) == [] then Working(OpOf(bufs[b])) else old(drive)
      ensures !r.Done? ==> queue == old(queue) && drive == old(drive)
    {
      if !busy {
        return PanicNotBusy;
      }
      if bufs[b].valid && !bufs[b].dirty {
        return PanicNothingToDo;
      }
      if dev != 0 && !havedisk1 {
        return PanicWrongDisk;
      }
      AppendedList(qnext, idequeue, queue, b);
      var nil := |qnext|;
      qnext := qnext[b := nil];
      // pp is &idequeue while last is nil, and &last->qnext after that.
      var last, at := nil, idequeue;
      ghost var k := 0;
      while at != nil
        invariant 0 <= k <= |queue| && at == At(queue, nil, k)
        invariant last == if k == 0 then nil else queue[k - 1]
        decreases |queue| - k
      {
        assert at == queue[k];
        last, at := at, qnext[at];
        k := k + 1;
      }
      assert k == |queue|;
      if last == nil {
        idequeue := b;
      } else {
        qnext := qnext[last := b];
      }
      queue := queue + [b];
      if idequeue == b {
        assert queue[0] == b;
        Idestart(b);
      }
      return Done;
    }

    /** ideintr, ide.c:91-119, with the data that the drive has for a read. */
    method Ideintr(data: Block)
      requires Valid()
      modifies this
      ensures Valid()
      ensures old(queue) == [] ==> queue == [] && bufs == old(bufs) && drive == old(drive)
      ensures old(queue) != [] ==>
                && var b := old(queue)[0];
                && b < |old(bufs)| && queue == old(queue)[1..]
                && bufs == old(bufs)[b := Served(old(bufs)[b], data)]
                && (queue == [] ==> drive == Quiet)
                && (queue != [] ==> queue[0] < |bufs| && drive == Working(OpOf(bufs[queue[0]])))
    {
      var b := idequeue;
      if b == |qnext| {
        return;
      }
      PoppedList(qnext, idequeue, queue);
      idequeue := qnext[b];
      queue := queue[1..];
      if !bufs[b].dirty {
        bufs := bufs[b := bufs[b].(data := data)];
      }
      bufs := bufs[b := bufs[b].(valid := true)];
      bufs := bufs[b := bufs[b].(dirty := false)];
      drive := Quiet;
      if idequeue != |qnext| {
        Idestart(idequeue);
      }
    }
  }

  class Memide {
    var memdisk: seq<Block>

    /** memide.c:36-58. */
    method Iderw(b: Buf, busy: bool, dev: nat) returns (r: Outcome, f: Buf)
      modifies this
      ensures r == if !busy then PanicNotBusy else if InSync(b) then PanicNothingToDo
                   else if dev != 1 then PanicWrongDisk
                   else if b.sector >= |old(memdisk)| then PanicOutOfRange else Done
      ensures r.Done? ==> memdisk == MemDisk(old(memdisk), b) && f == MemBuf(old(memdisk), b)
      ensures r.Done? ==> InSync(f) && f.sector == b.sector && memdisk[f.sector] == f.data
      ensures r.Done? ==> if b.dirty then f.data == b.data else memdisk == old(memdisk)
      ensures r.Done? ==> |memdisk| == |old(memdisk)| &&
                          forall x :: 0 <= x < |memdisk| && x != b.sector ==> memdisk[x] == old(memdisk)[x]
      ensures !r.Done? ==> memdisk == old(memdisk) && f == b
    {
      f := b;
      if !busy {
        return PanicNotBusy, f;
      }
      if f.valid && !f.dirty {
        return PanicNothingToDo, f;
      }
      if dev != 1 {
        return PanicWrongDisk, f;
      }
      if f.sector >= |memdisk| {
        return PanicOutOfRange, f;
      }
      if f.dirty {
        f := f.(dirty := false);
        memdisk := memdisk[f.sector := f.data];
      } else {
        f := f.(data := memdisk[f.sector]);
      }
      f := f.(valid := true);
      return Done, f;
    }
  }
}

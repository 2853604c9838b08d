/** vm.c and kalloc.c over physical memory and the list of free frames. Sizes and addresses
    that need not be page aligned are in bytes; page numbers stand for aligned addresses. */
module VmCode {
  import opened Params
  import opened Lists
  import opened Sets
  import opened VmSpec

  const PGSIZE: nat := 4096

  function Fill(x: nat): Page {
    Data(seq(PGSIZE, _ => x))
  }

  datatype CopyResult = Copy(d: nat) | OutOfMemory | PanicNoPage(v: nat)
  datatype MapResult = Done | NoMemory | PanicRemap

  /** The last page that mappages maps, with va + size - 1 in 32 bits. */
  function LastPage(va: nat, size: nat): nat
    requires va < UINT && size < UINT
  {
    ((va + size + UINT - 1) % UINT) / PGSIZE
  }

  /** The k pages from a on are not mapped. */
  ghost predicate Unmapped(p: Memory, d: nat, a: nat, k: nat)
    requires a < PAGES
  {
    forall x: nat :: x < PAGES && Off(a, x) < k ==> Lookup(p, d, x).Absent?
  }

  lemma MappedNone(p: Memory, d: nat, a: nat, pa: nat, w: bool, u: bool)
    requires a < PAGES
    ensures Mapped(p, p, d, a, 0, pa, w, u) && Unmapped(p, d, a, 0)
  {
    hide Lookup;
  }

  /** After one page more, or none. */
  lemma MappedMore(p: Memory, q: Memory, r: Memory, d: nat, a: nat, k: nat, pa: nat, w: bool, u: bool, v: nat,
                   done: bool)
    requires a < PAGES && v < PAGES && Off(a, v) == k && Mapped(p, q, d, a, k, pa, w, u) && Unmapped(p, d, a, k)
    requires done ==> Lookup(q, d, v).Absent?
    requires forall x: nat :: x < PAGES ==>
               Lookup(r, d, x) == if done && x == v then Present((pa + k) % PAGES, w, u) else Lookup(q, d, x)
    ensures var k' := if done then k + 1 else k;
            Mapped(p, r, d, a, k', pa, w, u) && Unmapped(p, d, a, k')
    ensures Lookup(q, d, v) == Lookup(p, d, v)
  {
    hide Lookup;
  }

  lemma MappedHasTable(p: Memory, d: nat, v: nat)
    requires v < PAGES && Lookup(p, d, v).Present?
    ensures v / ENTRIES in Slots(p, d)
  {
  }

  lemma TouchesMore(a: nat, k: nat, v: nat)
    requires a < PAGES && v < PAGES && Off(a, v) == k
    ensures Touches(a, k + 1, v / ENTRIES) && forall i :: Touches(a, k, i) ==> Touches(a, k + 1, i)
  {
  }

  /** Pages that hold the first sz bytes. */
  function RoundUp(sz: nat): nat {
    (sz + PGSIZE - 1) / PGSIZE
  }

  /** Releasing pages takes away no table. */
  lemma SameTable(lo: nat, p: Memory, free: seq<nat>, q: Memory, rest: seq<nat>, d: nat, done: set<nat>, v: nat)
    requires Released(lo, p, free, q, rest, d, done)
    ensures Sep(lo, q, rest, d) && Space(q, d) && HasTable(q, d, v) == HasTable(p, d, v)
  {
  }

  // --- adding pages

  lemma OnePage(v: nat)
    requires v < PAGES
    ensures v * PGSIZE < UINT && v * PGSIZE / PGSIZE == v && LastPage(v * PGSIZE, PGSIZE) == v
  {
    assert v * PGSIZE + PGSIZE <= UINT;
  }

  lemma AddReady(lo: nat, p: Memory, free: seq<nat>, d: nat, page: Page)
    requires Sep(lo, p, free, d) && free != []
    ensures var q := p[free[0] := page];
            && free[0] in p && free[0] != d && free[0] < TOP && Space(q, d) && FreeOk(lo, q, free[1..], d)
            && (forall f: nat :: Uses(q, d, f) <==> Uses(p, d, f))
            && (forall v: nat :: v < PAGES ==> Lookup(q, d, v) == Lookup(p, d, v))
  {
    OtherFrame(p, d, free[0], page);
    UsesSelf(p, d);
    hide Uses, Lookup, Space;
    assert forall f :: f in free[1..] ==> f in free;
  }

  /** A page costs a frame, and another for its table if that is missing. */
  lemma AddedSlots(p: Memory, free: seq<nat>, page: Page, q: Memory, rest: seq<nat>, d: nat, v: nat, k: nat, n: nat,
                   mapped: bool)
    requires v < PAGES && free != [] && free[0] != d && Grown(p[free[0] := page], free[1..], q, rest, d, n)
    requires k == (if mapped then 1 else 0) && (mapped ==> Lookup(q, d, v).Present?)
    requires forall i :: i in Slots(q, d) ==> i in Slots(p[free[0] := page], d) || Touches(v, k, i)
    requires !mapped ==> rest == [] && exists x: nat :: x < PAGES && Off(v, x) == k && x / ENTRIES !in Slots(q, d)
    ensures mapped <==> v / ENTRIES in Slots(p, d) || |free| >= 2
    ensures Slots(q, d) == if mapped then Slots(p, d) + {v / ENTRIES} else Slots(p, d)
    ensures |rest| == |free| - if mapped && v / ENTRIES !in Slots(p, d) then 2 else 1
  {
    hide Grown, Slots, Lookup;
    OtherSlots(p, d, free[0], page);
    GrownSlots(p[free[0] := page], free[1..], q, rest, d, n);
    if mapped {
      MappedHasTable(q, d, v);
    }
    var was, x := Slots(p, d), v / ENTRIES;
    assert forall i :: Touches(v, k, i) ==> mapped && i == x;
    assert Slots(q, d) == if mapped then was + {x} else was;
    assert |was + {x}| == |was| + if x in was then 0 else 1;
  }

  lemma OtherSlots(p: Memory, d: nat, g: nat, page: Page)
    requires g != d
    ensures Slots(p[g := page], d) == Slots(p, d)
  {
  }

  lemma GrownSlots(p: Memory, free: seq<nat>, q: Memory, rest: seq<nat>, d: nat, n: nat)
    requires Grown(p, free, q, rest, d, n)
    ensures n <= |free| && |rest| == |free| - n
    ensures |Slots(q, d)| == |Slots(p, d)| + n && Slots(p, d) <= Slots(q, d)
  {
    hide Uses, Space, Slots;
  }

  lemma OneFree(p: Memory, p1: Memory, d: nat, v: nat, k: nat, r: MapResult)
    requires v < PAGES && Lookup(p, d, v).Absent? && forall x: nat :: x < PAGES ==> Lookup(p1, d, x) == Lookup(p, d, x)
    requires r.PanicRemap? ==> k == 0 && exists x: nat :: x < PAGES && Off(v, x) == k && Lookup(p1, d, x).Present?
    ensures !r.PanicRemap?
  {
    hide Lookup;
  }

  lemma AddedOne(p: Memory, p1: Memory, q: Memory, d: nat, v: nat, k: nat, g: nat)
    requires v < PAGES && k <= 1 && g < TOP && Mapped(p1, q, d, v, k, g, true, true)
    requires forall x: nat :: x < PAGES ==> Lookup(p1, d, x) == Lookup(p, d, x)
    ensures Added(p, q, d, v, g, k == 1) && (k == 1 ==> Lookup(q, d, v).Present?)
  {
    hide Lookup;
  }

  lemma NeedNone(p: Memory, d: nat, a: nat)
    ensures SlotsAfter(p, d, a, a) == Slots(p, d) && Need(p, d, a, a) == 0
  {
  }

  /** With n frames free, allocuvm of pages a to b succeeds and keeps them all exactly if they
      cover its need. It loses one exactly if at some page they cover that page but not the
      table it starts, and then it fails unless that is the last page. */
  ghost predicate AllocExact(p: Memory, d: nat, a: nat, b: nat, n: nat, ok: bool, kept: bool) {
    && (ok && kept <==> n >= Need(p, d, a, b))
    && (!kept <==> exists k :: LosesAt(p, d, a, b, n, k))
    && (ok && !kept <==> b > a && LosesAt(p, d, a, b, n, b - 1))
  }

  /** How allocuvm's loop over pages a to `end` ends with n frames, b pages mapped and l lost. */
  lemma AllocEnds(p: Memory, d: nat, a: nat, end: nat, n: nat, b: nat, l: nat, ok: bool)
    requires a <= b && b + l <= end <= PAGES && l <= 1 && n >= Need(p, d, a, b) + l
    requires l == 1 || !ok ==> n == Need(p, d, a, b) + l
    requires l == 1 ==> Starts(p, d, a, b)
    requires ok <==> b + l == end
    ensures AllocExact(p, d, a, end, n, ok, l == 0)
  {
    hide Need, Starts;
    if l == 1 {
      assert LosesAt(p, d, a, end, n, b);
      LosesOnce(p, d, a, end, n, b, end - 1);
    } else {
      LosesNone(p, d, a, end, n, b, 0);
      forall k: nat
        ensures !LosesAt(p, d, a, end, n, k)
      {
        LosesNone(p, d, a, end, n, b, k);
      }
    }
  }

  lemma ExtendedNone(p: Memory, d: nat, a: nat)
    ensures Extended(p, p, d, a, a, Fill(0))
  {
  }

  lemma ExtendedAbsent(p: Memory, q: Memory, d: nat, a: nat, b: nat, v: nat)
    requires Extended(p, q, d, a, b, Fill(0)) && b <= v < PAGES && Lookup(p, d, v).Absent?
    ensures Lookup(q, d, v).Absent?
  {
  }

  /** Undoing a partial extension undoes all of it: its first page, if mapped, has a table. */
  lemma Restored(lo: nat, p: Memory, q: Memory, list: seq<nat>, r: Memory, rest: seq<nat>, d: nat, a: nat, b: nat,
                 end: nat, done: set<nat>)
    requires Extended(p, q, d, a, b, Fill(0)) && Released(lo, q, list, r, rest, d, done) && a <= b <= end <= USER
    requires forall v: nat :: a <= v < USER ==> Lookup(p, d, v).Absent?
    requires forall v: nat :: v in done <==> Visits(q, d, a, end, v)
    ensures Sep(lo, r, rest, d) && forall v: nat :: v < PAGES ==> Lookup(r, d, v) == Lookup(p, d, v)
  {
    hide Sep, Uses, Visits;
    forall v: nat | v < PAGES
      ensures Lookup(r, d, v) == Lookup(p, d, v)
    {
      if a <= v < b {
        assert Holds(q, d, v, Fill(0)) && Holds(q, d, a, Fill(0));
        VisitsIff(q, d, a, end, v);
        if a / ENTRIES < v / ENTRIES {
          assert TableBefore(q, d, a, v);
        }
      } else if v in done {
        if v < a {
          VisitsNot(q, d, a, end, v);
        } else {
          VisitsBelow(q, d, a, end, v);
        }
      }
    }
  }

  lemma {:induction false} VisitsBelow(p: Memory, d: nat, a: nat, end: nat, v: nat)
    requires Visits(p, d, a, end, v)
    ensures v < end
    decreases end - a
  {
    if HasTable(p, d, a) {
      if v != a {
        VisitsBelow(p, d, a + 1, end, v);
      }
    } else {
      VisitsBelow(p, d, a + ENTRIES, end, v);
    }
  }

  lemma LostIs(q: Memory, rest: seq<nat>, p: Memory, lost: set<nat>)
    requires forall f: nat :: Total(q, rest, 1, f) || f in lost <==> Total(p, [2], 1, f)
    requires forall f: nat :: f in lost ==> !Total(q, rest, 1, f)
    requires lost != {} && forall f: nat :: Total(p, [2], 1, f) ==> f == 1 || f == 2
    ensures lost == {2}
  {
    UsesSelf(q, 1);
  }

  lemma EmptySpace(p: Memory)
    requires p == map[1 := Table(NoEntries()), 2 := Fill(1)]
    ensures Sep(1, p, [2], 1)
    ensures (forall v: nat :: Lookup(p, 1, v).Absent?) && (forall i: nat :: EntryAt(p, 1, i).Absent?)
    ensures forall f: nat :: Total(p, [2], 1, f) <==> f == 1 || f == 2
  {
    assert forall i: nat :: EntryAt(p, 1, i).Absent?;
    assert forall f: nat :: Uses(p, 1, f) <==> f == 1;
    assert forall v: nat, f: nat :: !Maps(p, 1, v, f);
  }

  // --- copying

  /** copyuvm of n pages, of which the first m are mapped in the parent, ends in order: out of
      memory if the frames do not cover a space of m pages, else in a panic at page m, else in a
      copy. Out of memory, it loses all it took if that is not even the kernel's half, and
      otherwise a frame exactly if they cover some page but not the table that it starts. */
  ghost predicate CopyExact(p: Memory, par: nat, n: nat, free: seq<nat>, r: CopyResult, lost: set<nat>) {
    var m := FirstAbsent(p, par, 0, n);
    && (r.OutOfMemory? <==> |free| < SpaceNeed(m))
    && (r.PanicNoPage? <==> |free| >= SpaceNeed(m) && m < n) && (r.PanicNoPage? ==> r.v == m)
    && (r.Copy? <==> |free| >= SpaceNeed(m) && m == n)
    && (|free| < SETUP_FRAMES ==> lost == set f | f in free)
    && (|free| >= SETUP_FRAMES ==> |lost| <= 1)
    && (|free| >= SETUP_FRAMES ==> (lost != {} <==> exists k :: CopyLosesAt(m, |free|, k)))
  }

  ghost predicate CopyLosesAt(m: nat, n: nat, k: nat) {
    0 <= k < m && k % ENTRIES == 0 && n == SpaceNeed(k) + 1
  }

  lemma SpaceGrows(k: nat, m: nat)
    requires k <= m
    ensures SETUP_FRAMES <= SpaceNeed(k) && SpaceNeed(k) + (m - k) <= SpaceNeed(m)
    ensures k < m && k % ENTRIES == 0 ==> SpaceNeed(k) + 2 <= SpaceNeed(m)
  {
  }

  lemma CopyLosesNone(m: nat, n: nat, j: nat)
    requires j <= m && (if j == m then n >= SpaceNeed(m) else n == SpaceNeed(j))
    ensures forall k :: !CopyLosesAt(m, n, k)
  {
    hide SpaceNeed;
    forall k: nat | k < m
      ensures !CopyLosesAt(m, n, k)
    {
      if k < j {
        SpaceGrows(k, j);
      } else {
        SpaceGrows(j, k);
      }
    }
  }

  lemma SetupFails(p: Memory, par: nat, n: nat, free: seq<nat>, lost: set<nat>)
    requires |free| < SETUP_FRAMES && lost == set f | f in free
    ensures CopyExact(p, par, n, free, OutOfMemory, lost)
  {
    hide FirstAbsent;
  }

  lemma CopyPanics(p: Memory, par: nat, n: nat, free: seq<nat>, i: nat)
    requires FirstAbsent(p, par, 0, n) == i < n && |free| >= SpaceNeed(i)
    ensures CopyExact(p, par, n, free, PanicNoPage(i), {})
  {
    hide FirstAbsent;
    SpaceGrows(0, i);
    CopyLosesNone(i, |free|, i);
  }

  lemma CopyWorks(p: Memory, par: nat, n: nat, free: seq<nat>, d: nat)
    requires FirstAbsent(p, par, 0, n) == n && |free| >= SpaceNeed(n)
    ensures CopyExact(p, par, n, free, Copy(d), {})
  {
    hide FirstAbsent;
    SpaceGrows(0, n);
    CopyLosesNone(n, |free|, n);
  }

  lemma CopyFails(p: Memory, par: nat, n: nat, free: seq<nat>, i: nat, lost: set<nat>)
    requires i < n && (forall x: nat :: x <= i ==> Lookup(p, par, x).Present?) && |lost| <= 1
    requires |free| == SpaceNeed(i) + |lost| && (lost != {} ==> i % ENTRIES == 0)
    ensures CopyExact(p, par, n, free, OutOfMemory, lost)
  {
    hide SpaceNeed, Lookup;
    var m := FirstAbsent(p, par, 0, n);
    assert i < m;
    SpaceGrows(0, i);
    SpaceGrows(i, m);
    if lost == {} {
      CopyLosesNone(m, |free|, i);
    } else {
      assert CopyLosesAt(m, |free|, i);
    }
  }

  lemma ListHas(lo: nat, p: Memory, free: seq<nat>)
    requires ListOk(lo, p, free) && free != []
    ensures free[0] in p
  {
  }

  lemma SepList(lo: nat, p: Memory, free: seq<nat>, d: nat)
    requires Sep(lo, p, free, d)
    ensures ListOk(lo, p, free)
  {
  }

  lemma SepSpace(lo: nat, p: Memory, free: seq<nat>, d: nat)
    requires Sep(lo, p, free, d)
    ensures Space(p, d) && forall f: nat :: f in free ==> f in p
  {
  }

  lemma CopiedNone(p: Memory, q: Memory, par: nat, d: nat)
    ensures Copied(p, q, par, d, 0)
  {
  }

  lemma SetupOnlyFree(p: Memory, free: seq<nat>, q: Memory)
    requires q.Keys == p.Keys && forall f: nat :: f in p && f !in free ==> f in q && q[f] == p[f]
    ensures OnlyFree(p, free, q)
  {
  }

  lemma TotalSub(p: Memory, free: seq<nat>, d: nat, list: seq<nat>)
    requires forall f: nat :: Total(p, free, d, f) <==> f in list
    ensures forall f: nat :: f in free ==> f in list
  {
    hide Owns;
  }

  lemma SetupKept(lo: nat, p: Memory, free: seq<nat>, q: Memory, rest: seq<nat>, par: nat)
    requires Sep(lo, p, free, par) && rest == [] && q.Keys == p.Keys
    requires forall f: nat :: f in p && f !in free ==> f in q && q[f] == p[f]
    ensures OnlyFree(p, free, q) && Sep(lo, q, rest, par)
  {
    BystanderSep(lo, p, free, q, rest, par);
  }

  /** The parent is still separate once frames have gone to the child. */
  lemma BystanderFree(lo: nat, p: Memory, free: seq<nat>, q: Memory, rest: seq<nat>, par: nat, d: nat)
    requires Sep(lo, p, free, par) && OnlyFree(p, free, q) && Sep(lo, q, rest, d)
    requires forall f: nat :: f in rest ==> f in free
    ensures Sep(lo, q, rest, par)
  {
    SepList(lo, q, rest, d);
    hide Sep, OnlyFree;
    BystanderSep(lo, p, free, q, rest, par);
  }

  lemma BystanderTotal(lo: nat, p: Memory, free: seq<nat>, q: Memory, rest: seq<nat>, par: nat, d: nat)
    requires Sep(lo, p, free, par) && OnlyFree(p, free, q) && Sep(lo, q, rest, d)
    requires forall f: nat :: Total(q, rest, d, f) ==> f in free
    ensures Sep(lo, q, rest, par)
  {
    hide Sep, OnlyFree, Owns;
    BystanderFree(lo, p, free, q, rest, par, d);
  }

  lemma ParentFrame(lo: nat, p: Memory, free: seq<nat>, par: nat, v: nat)
    requires Sep(lo, p, free, par) && v < USER && Lookup(p, par, v).Present?
    ensures Maps(p, par, v, Lookup(p, par, v).frame) && Lookup(p, par, v).frame in p
  {
    assert Maps(p, par, v, Lookup(p, par, v).frame);
  }

  lemma AddedElse(q: Memory, r: Memory, d: nat, i: nat, g: nat, data: nat)
    requires Added(q, r, d, i, g, true) && forall v: nat :: i <= v < PAGES ==> Lookup(q, d, v) == KernelAt(data, v)
    ensures forall v: nat :: i + 1 <= v < PAGES ==> Lookup(r, d, v) == KernelAt(data, v)
  {
    hide Lookup, KernelAt;
  }

  lemma Disjoint(lo: nat, p: Memory, free: seq<nat>, q: Memory, rest: seq<nat>, par: nat, d: nat)
    requires Sep(lo, p, free, par) && OnlyFree(p, free, q) && forall f: nat :: Total(q, rest, d, f) <==> f in free
    ensures forall f: nat :: !(Owns(q, d, f) && Owns(q, par, f))
  {
    Bystander(lo, p, free, q, par);
    hide Sep, Owns, OnlyFree;
  }

  lemma FreedKept(lo: nat, p: Memory, free: seq<nat>, p1: Memory, list1: seq<nat>, q: Memory, rest: seq<nat>,
                  par: nat, d: nat, lost: set<nat>)
    requires Sep(lo, p, free, par) && OnlyFree(p, free, p1) && ListOk(lo, q, rest) && q.Keys == p1.Keys
    requires forall f: nat :: f in rest <==> Total(p1, list1, d, f)
    requires forall f: nat :: Total(p1, list1, d, f) || f in lost <==> f in free
    requires forall f: nat :: f in q && !Owns(p1, d, f) ==> q[f] == p1[f]
    ensures OnlyFree(p, free, q) && Sep(lo, q, rest, par)
    ensures forall f: nat :: f in rest || f in lost <==> f in free
  {
    hide Sep, Owns, ListOk;
    assert forall f: nat :: Owns(p1, d, f) ==> f in free;
    BystanderSep(lo, p, free, q, rest, par);
  }

  // --- the kernel's map

  datatype KmapEntry = KmapEntry(virt: nat, phys: nat, size: nat, w: bool)

  /** phys_end - phys_start, in 32 bits. */
  function Extent(start: nat, end: nat): nat
    requires start < UINT && end < UINT
  {
    (end + UINT - start) % UINT
  }

  /** The table kmap, vm.c:120-125. */
  function Kmap(data: nat): seq<KmapEntry>
    requires USER + 0x100 < data < USER + TOP
  {
    [KmapEntry(USER, 0, Extent(0, 0x100 * PGSIZE), true),
     KmapEntry(USER + 0x100, 0x100, Extent(0x100 * PGSIZE, (data - USER) * PGSIZE), false),
     KmapEntry(data, data - USER, Extent((data - USER) * PGSIZE, TOP * PGSIZE), true),
     KmapEntry(0xF_E000, 0xF_E000, Extent(0xF_E000 * PGSIZE, 0), true)]
  }

  /** The first page after region i. */
  function KmapEnd(data: nat, i: nat): nat {
    if i == 0 then USER + 0x100 else if i == 1 then data else if i == 2 then USER + TOP else PAGES
  }

  /** Page v is in one of the first i regions. */
  predicate InKmap(data: nat, i: nat, v: nat) {
    && i > 0
    && ((USER <= v && v < USER + TOP && v < KmapEnd(data, i - 1)) || (i > 3 && 0xF_E000 <= v < PAGES))
  }

  /** Each region ends where its last page says, the last one at the top of the address space. */
  lemma KmapPages(data: nat, i: nat)
    requires USER + 0x100 < data < USER + TOP && i < 4
    ensures var k := Kmap(data)[i];
            && k.virt < KmapEnd(data, i) <= PAGES && k.virt * PGSIZE < UINT && k.size < UINT
            && LastPage(k.virt * PGSIZE, k.size) == KmapEnd(data, i) - 1
  {
    var k := Kmap(data)[i];
    var n := KmapEnd(data, i) - k.virt;
    assert k.size == n * PGSIZE;
    assert (k.virt + n) * PGSIZE <= UINT;
  }

  ghost predicate KmapAt(p: Memory, d: nat, data: nat, i: nat) {
    forall v: nat :: v < PAGES ==> Lookup(p, d, v) == if InKmap(data, i, v) then KernelAt(data, v) else Absent
  }

  /** No region meets an earlier one, so mappages does not panic. */
  lemma KmapNew(p: Memory, d: nat, data: nat, i: nat, k: nat, r: MapResult)
    requires USER + 0x100 < data < USER + TOP && i < 4 && KmapAt(p, d, data, i)
    requires var a := Kmap(data)[i].virt;
             r.PanicRemap? ==>
               && k <= Off(a, KmapEnd(data, i) - 1)
               && exists x: nat :: x < PAGES && Off(a, x) == k && Lookup(p, d, x).Present?
    ensures !r.PanicRemap?
  {
    hide Lookup;
  }

  lemma KmapMore(p: Memory, q: Memory, d: nat, data: nat, i: nat)
    requires USER + 0x100 < data < USER + TOP && i < 4 && KmapAt(p, d, data, i)
    requires var e := Kmap(data)[i];
             Mapped(p, q, d, e.virt, Off(e.virt, KmapEnd(data, i) - 1) + 1, e.phys, e.w, false)
    ensures KmapAt(q, d, data, i + 1)
  {
    hide Lookup;
  }

  /** A page of region i lies in one of the kernel's slots. */
  lemma KmapSlot(data: nat, i: nat, x: nat)
    requires USER + 0x100 < data < USER + TOP && i < 4 && Kmap(data)[i].virt <= x < KmapEnd(data, i)
    ensures x / ENTRIES in KernelSlots()
  {
    hide Interval;
  }

  lemma KmapTouches(data: nat, i: nat, a: nat, k: nat, s: nat)
    requires USER + 0x100 < data < USER + TOP && i < 4 && a == Kmap(data)[i].virt && a < PAGES
    requires k <= KmapEnd(data, i) - a && Touches(a, k, s)
    ensures s in KernelSlots()
  {
    hide KernelSlots;
    var x: nat :| x < PAGES && Off(a, x) < k && x / ENTRIES == s;
    KmapSlot(data, i, x);
  }

  lemma NoSlots(p: Memory, d: nat)
    ensures Slots(p[d := Table(NoEntries())], d) == {}
  {
  }

  lemma SetupCount(p: Memory, list: seq<nat>, q: Memory, rest: seq<nat>, d: nat, n: nat)
    requires Grown(p, list, q, rest, d, n) && Slots(p, d) == {}
    ensures |rest| + |Slots(q, d)| == |list|
  {
    hide Uses, Space, Slots;
  }

  /** With no frame left for one of the kernel's tables, there were too few. */
  lemma SetupShort(p: Memory, list: seq<nat>, q: Memory, rest: seq<nat>, d: nat, n: nat, i: nat)
    requires Grown(p, list, q, rest, d, n) && Slots(p, d) == {} && rest == []
    requires Slots(q, d) <= KernelSlots() && i in KernelSlots() && i !in Slots(q, d)
    ensures |list| + 1 < SETUP_FRAMES
  {
    hide Slots, KernelSlots;
    SetupCount(p, list, q, rest, d, n);
    KernelSlotsCount();
    SubsetSize(Slots(q, d) + {i}, KernelSlots());
  }

  lemma SetupRest(p0: Memory, free0: seq<nat>, p: Memory, list: seq<nat>, q: Memory, rest: seq<nat>, d: nat, n: nat)
    requires free0 != [] && d == free0[0] && d in p0 && list == free0[1..] && p == p0[d := Table(NoEntries())]
    requires Grown(p, list, q, rest, d, n) && forall f: nat :: Uses(p, d, f) <==> f == d
    ensures q.Keys == p0.Keys
    ensures forall f: nat :: f in p0 && f !in free0 ==> f in q && q[f] == p0[f]
  {
    hide Uses, Space;
    assert forall f: nat :: f in list[..n] ==> f in free0;
  }

  lemma ReleasedKeys(lo: nat, p: Memory, free: seq<nat>, q: Memory, rest: seq<nat>, d: nat, done: set<nat>)
    requires Released(lo, p, free, q, rest, d, done)
    ensures q.Keys == p.Keys && forall f: nat :: Uses(q, d, f) <==> Uses(p, d, f)
  {
  }

  lemma TablesDir(p: Memory, free: seq<nat>, q: Memory, rest: seq<nat>, d: nat, i: nat)
    requires TablesFreed(p, free, q, rest, d, i)
    ensures q.Keys == p.Keys && d in q && q[d] == p[d]
  {
  }

  lemma TablesRest(p: Memory, free: seq<nat>, q: Memory, rest: seq<nat>, d: nat, i: nat)
    requires TablesFreed(p, free, q, rest, d, i)
    ensures forall f: nat :: f in p && !Uses(p, d, f) ==> f in q && q[f] == p[f]
  {
  }

  lemma TableUsed(p: Memory, d: nat, i: nat, f: nat)
    requires IsTable(p, d) && i < ENTRIES && p[d].entries[i].Present? && p[d].entries[i].frame == f
    ensures Uses(p, d, f) && TableOf(p, d, i, f)
  {
    assert TableOf(p, d, i, f);
  }

  lemma NoTable(p: Memory, d: nat, v: nat)
    requires EntryAt(p, d, v / ENTRIES).Absent?
    ensures Lookup(p, d, v).Absent?
  {
  }

  lemma DirIsTable(p: Memory, d: nat)
    requires Space(p, d)
    ensures IsTable(p, d)
  {
  }

  lemma FirstFree(lo: nat, p: Memory, free: seq<nat>, d: nat)
    requires FreeOk(lo, p, free, d) && free != []
    ensures !Uses(p, d, free[0]) && free[0] != d
  {
    UsesSelf(p, d);
  }

  lemma GrownSpace(p: Memory, free: seq<nat>, q: Memory, rest: seq<nat>, d: nat, n: nat)
    requires Grown(p, free, q, rest, d, n)
    ensures Space(q, d)
  {
  }

  class Vm {
    var pages: Memory
    var free: seq<nat>
    const first: nat

    constructor (pages: Memory, free: seq<nat>, first: nat)
      ensures this.pages == pages && this.free == free && this.first == first
    {
      this.pages, this.free, this.first := pages, free, first;
    }

    /** kalloc, kalloc.c:82-95. */
    method Kalloc() returns (ok: bool, f: nat)
      modifies this`free
      ensures ok <==> old(free) != []
      ensures ok ==> f == old(free)[0] && free == old(free)[1..]
      ensures !ok ==> free == old(free)
    {
      if free == [] {
        return false, 0;
      }
      ok, f := true, free[0];
      free := free[1..];
    }

    /** kfree, kalloc.c:59-77. */
    method Kfree(f: nat) returns (panic: bool)
      modifies this
      ensures panic <==> f < first || f >= TOP
      ensures panic ==> pages == old(pages) && free == old(free)
      ensures !panic ==> pages == old(pages)[f := Fill(1)] && free == [f] + old(free)
    {
      if f < first || f >= TOP {
        return true;
      }
      pages := pages[f := Fill(1)];
      free := [f] + free;
      return false;
    }

    /** walkpgdir with alloc set, vm.c:45-65. */
    method WalkAlloc(d: nat, v: nat) returns (ok: bool, ghost n: nat)
      requires Space(pages, d) && FreeOk(first, pages, free, d) && v < PAGES
      modifies this
      ensures Grown(old(pages), old(free), pages, free, d, n) && FreeOk(first, pages, free, d)
      ensures forall x: nat :: x < PAGES ==> Lookup(pages, d, x) == Lookup(old(pages), d, x)
      ensures ok <==> EntryAt(pages, d, v / ENTRIES).Present?
      ensures Slots(pages, d) == if ok then Slots(old(pages), d) + {v / ENTRIES} else Slots(old(pages), d)
      ensures !ok ==> free == [] && n == 0 && v / ENTRIES !in Slots(pages, d)
    {
      hide Space, FreeOk, Uses, Lookup, Grown;
      n := 0;
      GrownNot(pages, free, d);
      assert IsTable(pages, d) by {
        DirIsTable(pages, d);
      }
      var i := v / ENTRIES;
      if pages[d].entries[i].Present? {
        return true, n;
      }
      if free == [] {
        return false, n;
      }
      n := 1;
      FirstFree(first, pages, free, d);
      GrownTable(first, pages, free, d, i);
      NewTable(pages, d, i, free[0]);
      var got, t := Kalloc();
      pages := pages[t := Table(NoEntries())];
      pages := pages[d := Table(pages[d].entries[i := Present(t, true, true)])];
      assert pages == WithTable(old(pages), d, i, t);
      GrownFree(first, old(pages), old(free), pages, free, d, n);
      return true, n;
    }

    /** One turn of mappages' loop, vm.c:79-83. */
    method MapPage(d: nat, v: nat, f: nat, w: bool, u: bool) returns (r: MapResult, ghost n: nat)
      requires Space(pages, d) && FreeOk(first, pages, free, d) && v < PAGES
      modifies this
      ensures Space(pages, d) && Grown(old(pages), old(free), pages, free, d, n) && FreeOk(first, pages, free, d)
      ensures forall x: nat :: x < PAGES ==>
                Lookup(pages, d, x) == if r.Done? && x == v then Present(f, w, u) else Lookup(old(pages), d, x)
      ensures Slots(pages, d) == if r.Done? then Slots(old(pages), d) + {v / ENTRIES} else Slots(old(pages), d)
      ensures r.NoMemory? ==> free == [] && n == 0 && v / ENTRIES !in Slots(pages, d)
      ensures r.PanicRemap? <==> Lookup(old(pages), d, v).Present?
    {
      hide Space, FreeOk, Uses, Lookup, Grown;
      var ok, m := WalkAlloc(d, v);
      n := m;
      GrownSpace(old(pages), old(free), pages, free, d, n);
      if !ok {
        NoTable(pages, d, v);
        return NoMemory, n;
      }
      var present := PtePresent(d, v);
      if present {
        MappedHasTable(old(pages), d, v);
        return PanicRemap, n;
      }
      ghost var p := pages;
      SetEntry(pages, d, v, Present(f, w, u));
      GrownEntry(pages, free, d, v, Present(f, w, u));
      WritePte(d, v, Present(f, w, u));
      GrownTwice(old(pages), old(free), p, free, pages, free, d, n, 0);
      GrownFree(first, p, free, pages, free, d, 0);
      return Done, n;
    }

    /** mappages, vm.c:70-90. */
    method Mappages(d: nat, va: nat, size: nat, pa: nat, w: bool, u: bool) returns (r: MapResult, ghost k: nat,
                    ghost n: nat)
      requires Space(pages, d) && FreeOk(first, pages, free, d) && va < UINT && size < UINT
      modifies this
      ensures Space(pages, d) && Grown(old(pages), old(free), pages, free, d, n) && FreeOk(first, pages, free, d)
      ensures Mapped(old(pages), pages, d, va / PGSIZE, k, pa, w, u)
      ensures k <= Off(va / PGSIZE, LastPage(va, size)) + 1
      ensures r.Done? <==> k == Off(va / PGSIZE, LastPage(va, size)) + 1
      ensures Unmapped(old(pages), d, va / PGSIZE, k)
      ensures forall i :: i in Slots(pages, d) ==> i in Slots(old(pages), d) || Touches(va / PGSIZE, k, i)
      ensures r.NoMemory? ==>
                && free == []
                && exists x: nat :: x < PAGES && Off(va / PGSIZE, x) == k && x / ENTRIES !in Slots(pages, d)
      ensures r.PanicRemap? ==>
                exists x: nat :: x < PAGES && Off(va / PGSIZE, x) == k && Lookup(old(pages), d, x).Present?
    {
      hide Space, FreeOk, Uses, Lookup, Grown, Mapped, Unmapped, Touches, Slots;
      var a: nat, f: nat := va / PGSIZE, pa;
      ghost var a0 := a;
      var last := LastPage(va, size);
      k, n := 0, 0;
      GrownNot(pages, free, d);
      MappedNone(pages, d, a, pa, w, u);
      while true
        invariant a < PAGES && k == Off(a0, a) <= Off(a0, last) && f == pa + k
        invariant Space(pages, d) && FreeOk(first, pages, free, d)
        invariant Grown(old(pages), old(free), pages, free, d, n)
        invariant Mapped(old(pages), pages, d, a0, k, pa, w, u)
        invariant Unmapped(old(pages), d, a0, k)
        invariant forall i :: i in Slots(pages, d) ==> i in Slots(old(pages), d) || Touches(a0, k, i)
        decreases Off(a0, last) - k
      {
        ghost var p1, free1 := pages, free;
        var step, m := MapPage(d, a, f % PAGES, w, u);
        GrownTwice(old(pages), old(free), p1, free1, pages, free, d, n, m);
        n := n + m;
        MappedMore(old(pages), p1, pages, d, a0, k, pa, w, u, a, step.Done?);
        TouchesMore(a0, k, a);
        if !step.Done? {
          return step, k, n;
        }
        k := k + 1;
        if a == last {
          return Done, k, n;
        }
        a := if a + 1 == PAGES then 0 else a + 1;
        f := f + 1;
      }
    }

    /** deallocuvm, vm.c:249-273: the pages it looks at are unmapped and their frames freed,
        and kfree never panics. */
    method Deallocuvm(d: nat, oldsz: nat, newsz: nat) returns (sz: nat, ghost done: set<nat>)
      requires Sep(first, pages, free, d) && oldsz <= USER * PGSIZE
      modifies this
      ensures Released(first, old(pages), old(free), pages, free, d, done)
      ensures newsz >= oldsz ==> sz == oldsz && done == {}
      ensures newsz < oldsz ==> sz == newsz
      ensures newsz < oldsz ==> forall v: nat :: v in done <==> Visits(old(pages), d, RoundUp(newsz), RoundUp(oldsz), v)
    {
      hide Sep, Lookup, Uses, Released, EntryAt, Space;
      done := {};
      ReleasedNone(first, pages, free, d);
      if newsz >= oldsz {
        return oldsz, done;
      }
      ghost var end := RoundUp(oldsz);
      ghost var p := pages;
      var a := RoundUp(newsz);
      ghost var a0 := a;
      while a * PGSIZE < oldsz
        invariant Released(first, p, old(free), pages, free, d, done)
        invariant forall v: nat :: v in done ==> v < a
        invariant forall v: nat :: v in done || Visits(p, d, a, end, v) <==> Visits(p, d, a0, end, v)
        decreases end - a
      {
        SameTable(first, p, old(free), pages, free, d, done, a);
        var table, present := WalkPte(d, a);
        if !table {
          a := a + (ENTRIES - 1);
        } else if present {
          VisitsNot(p, d, a + 1, end, a);
          var g := ReadFrame(d, a);
          Unmap(first, pages, free, d, a, Fill(1));
          ghost var q := WithEntry(pages[g := Fill(1)], d, a, Absent);
          ReleasedMore(first, p, old(free), pages, free, q, d, done, a);
          var panic := Kfree(g);
          WritePte(d, a, Absent);
          done := done + {a};
        } else {
          VisitsNot(p, d, a + 1, end, a);
          ReleasedAbsent(first, p, old(free), pages, free, d, done, a);
          done := done + {a};
        }
        a := a + 1;
      }
      return newsz, done;
    }

    /** freevm, vm.c:277-292: every frame of the space is free again, each once. */
    method Freevm(d: nat)
      requires Sep(first, pages, free, d)
      modifies this
      ensures ListOk(first, pages, free) && pages.Keys == old(pages).Keys
      ensures forall f: nat :: f in free <==> Total(old(pages), old(free), d, f)
      ensures forall f: nat :: f in pages && !Owns(old(pages), d, f) ==> pages[f] == old(pages)[f]
    {
      hide Sep, Lookup, Uses, Released, Space, Total, Visits, TablesFreed, NoneTwice;
      var _, done := Deallocuvm(d, USER * PGSIZE, 0);
      ghost var p, rest := pages, free;
      ReleasedAll(first, old(pages), old(free), p, rest, d, done);
      ReleasedKeys(first, old(pages), old(free), p, rest, d, done);
      DirIsTable(p, d);
      UsesSelf(p, d);
      TablesFreedNone(first, p, rest, d);
      var i := 0;
      while i < ENTRIES
        invariant 0 <= i <= ENTRIES && TablesFreed(p, rest, pages, free, d, i)
      {
        TablesDir(p, rest, pages, free, d, i);
        var e := pages[d].entries[i];
        if e.Present? {
          TableUsed(p, d, i, e.frame);
          TablesFreedMore(p, rest, pages, free, d, i, e.frame, Fill(1));
          var panic := Kfree(e.frame);
        } else {
          TablesFreedSkip(p, rest, pages, free, d, i);
        }
        i := i + 1;
      }
      TablesFreedAll(p, rest, pages, free, d);
      TablesDir(p, rest, pages, free, d, i);
      TablesRest(p, rest, pages, free, d, i);
      ghost var q := pages;
      var panic := Kfree(d);
    }

    /** setupkvm, vm.c:128-144, for a kernel whose data starts at page `data`. If it runs out of
        frames it gives up what it has taken. */
    method Setupkvm(data: nat) returns (ok: bool, d: nat)
      requires ListOk(first, pages, free) && USER + 0x100 < data < USER + TOP
      modifies this
      ensures ok ==>
                && Sep(first, pages, free, d) && pages.Keys == old(pages).Keys
                && (forall v: nat :: v < PAGES ==> Lookup(pages, d, v) == KernelAt(data, v))
                && (forall f: nat :: Total(pages, free, d, f) <==> f in old(free))
                && Slots(pages, d) == KernelSlots() && |free| + SETUP_FRAMES == |old(free)|
      ensures ok <==> |old(free)| >= SETUP_FRAMES
      ensures forall f: nat :: f in old(pages) && f !in old(free) ==> f in pages && pages[f] == old(pages)[f]
      ensures !ok ==> free == [] && pages.Keys == old(pages).Keys
    {
      hide Sep, Lookup, Uses, Space, FreeOk, Grown, Total, ListOk, Mapped, Unmapped, Slots, KernelSlots, Touches;
      ok, d := Kalloc();
      if !ok {
        return;
      }
      NoSlots(pages, d);
      FreshDir(first, pages, old(free));
      ListHas(first, pages, old(free));
      pages := pages[d := Table(NoEntries())];
      ghost var p, list := pages, free;
      ghost var n := 0;
      GrownNot(p, list, d);
      var i := 0;
      while i < 4
        invariant 0 <= i <= 4 && Space(pages, d) && FreeOk(first, pages, free, d)
        invariant Grown(p, list, pages, free, d, n)
        invariant KmapAt(pages, d, data, i) && Slots(pages, d) <= KernelSlots()
      {
        var k := Kmap(data)[i];
        KmapPages(data, i);
        ghost var p1, list1 := pages, free;
        var r, count, m := Mappages(d, k.virt * PGSIZE, k.size, k.phys, k.w, false);
        GrownTwice(p, list, p1, list1, pages, free, d, n, m);
        n := n + m;
        KmapNew(p1, d, data, i, count, r);
        forall x | x in Slots(pages, d)
          ensures x in KernelSlots()
        {
          if x !in Slots(p1, d) {
            KmapTouches(data, i, k.virt, count, x);
          }
        }
        if r.NoMemory? {
          ghost var x: nat :| x < PAGES && Off(k.virt, x) == count && x / ENTRIES !in Slots(pages, d);
          KmapSlot(data, i, x);
          SetupShort(p, list, pages, free, d, n, x / ENTRIES);
          SetupRest(old(pages), old(free), p, list, pages, free, d, n);
          return false, d;
        }
        KmapMore(p1, pages, d, data, i);
        i := i + 1;
      }
      SetupSep(first, old(pages), old(free), p, pages, free, d, n, data);
      SetupCount(p, list, pages, free, d, n);
      KernelSlotsAre(pages, d, data);
      KernelSlotsCount();
    }

    /** kalloc, fill, mappages: how allocuvm and copyuvm add page v. Nothing tells them whether
        mappages found a frame for a table that it needs. */
    method AddPage(d: nat, v: nat, page: Page) returns (got: bool, mapped: bool, g: nat)
      requires Sep(first, pages, free, d) && v < USER && Lookup(pages, d, v).Absent?
      modifies this
      ensures got <==> old(free) != []
      ensures !got ==> pages == old(pages) && free == old(free)
      ensures got ==>
                && g == old(free)[0] && Sep(first, pages, free, d) && pages.Keys == old(pages).Keys
                && g in pages && pages[g] == page && Added(old(pages), pages, d, v, g, mapped)
                && (forall f: nat ::
                      Total(pages, free, d, f) || (!mapped && f == g) <==> Total(old(pages), old(free), d, f))
                && (!mapped ==> free == [] && !Total(pages, free, d, g))
                && (mapped <==> v / ENTRIES in Slots(old(pages), d) || |old(free)| >= 2)
                && Slots(pages, d) == (if mapped then Slots(old(pages), d) + {v / ENTRIES} else Slots(old(pages), d))
                && |free| == |old(free)| - (if mapped && v / ENTRIES !in Slots(old(pages), d) then 2 else 1)
                && (forall f: nat :: f in old(pages) && f !in old(free) && !Uses(old(pages), d, f) ==>
                      pages[f] == old(pages)[f])
    {
      hide Sep, Lookup, Uses, Space, FreeOk, Grown, Total, Mapped, Unmapped, Added, Slots;
      mapped := false;
      got, g := Kalloc();
      if !got {
        return;
      }
      ghost var p, list := pages, old(free);
      AddReady(first, p, list, d, page);
      pages := pages[g := page];
      ghost var p1 := pages;
      OnePage(v);
      var r, k, n := Mappages(d, v * PGSIZE, PGSIZE, g, true, true);
      mapped := r.Done?;
      assert !r.PanicRemap? by {
        OneFree(p, p1, d, v, k, r);
      }
      AddedOne(p, p1, pages, d, v, k, g);
      AddedSep(first, p, list, page, pages, free, d, v, n, mapped);
      AddedTotal(first, p, list, page, pages, free, d, v, n, mapped);
      AddedSlots(p, list, page, pages, free, d, v, k, n, mapped);
    }

    /** allocuvm, vm.c:220-243, for a space with nothing mapped past oldsz. `ok` tells the two
        ways to return 0 apart, and `lost` is a frame that mappages could not map. */
    method Allocuvm(d: nat, oldsz: nat, newsz: nat) returns (sz: nat, ghost ok: bool, ghost lost: set<nat>)
      requires Sep(first, pages, free, d)
      requires forall v: nat :: RoundUp(oldsz) <= v < USER ==> Lookup(pages, d, v).Absent?
      modifies this
      ensures Sep(first, pages, free, d)
      ensures newsz >= USER * PGSIZE ==> sz == 0 && pages == old(pages) && free == old(free) && lost == {}
      ensures newsz < oldsz && newsz < USER * PGSIZE ==>
                sz == oldsz && pages == old(pages) && free == old(free) && lost == {}
      ensures oldsz <= newsz < USER * PGSIZE ==>
                && sz == (if ok then newsz else 0)
                && |lost| <= RoundUp(newsz) - RoundUp(oldsz)
                && (ok ==> Extended(old(pages), pages, d, RoundUp(oldsz), RoundUp(newsz) - |lost|, Fill(0)))
                && (!ok ==> forall v: nat :: v < PAGES ==> Lookup(pages, d, v) == Lookup(old(pages), d, v))
      ensures |lost| <= 1 && (ok && lost != {} ==> free == [])
      ensures oldsz <= newsz < USER * PGSIZE ==>
                AllocExact(old(pages), d, RoundUp(oldsz), RoundUp(newsz), |old(free)|, ok, lost == {})
      ensures forall f: nat :: Total(pages, free, d, f) || f in lost <==> Total(old(pages), old(free), d, f)
      ensures forall f: nat :: f in lost ==> !Total(pages, free, d, f)
    {
      hide Sep, Lookup, Uses, Total, Added, Extended, Released, Visits, Slots, SlotsAfter, Need, Starts, AllocExact;
      ok, lost := false, {};
      if newsz >= USER * PGSIZE {
        return 0, ok, lost;
      }
      if newsz < oldsz {
        return oldsz, ok, lost;
      }
      var a := RoundUp(oldsz);
      ghost var a0, p := a, pages;
      ghost var b := a;
      ExtendedNone(p, d, a);
      NeedNone(p, d, a);
      while a * PGSIZE < newsz
        invariant a0 <= a <= RoundUp(newsz) && b == a - |lost| && a0 <= b && |lost| <= 1 && (lost != {} ==> free == [])
        invariant Sep(first, pages, free, d) && Extended(p, pages, d, a0, b, Fill(0))
        invariant forall f: nat :: Total(pages, free, d, f) || f in lost <==> Total(old(pages), old(free), d, f)
        invariant forall f: nat :: f in lost ==> !Total(pages, free, d, f)
        invariant Slots(pages, d) == SlotsAfter(p, d, a0, b)
        invariant |free| + Need(p, d, a0, b) + |lost| == |old(free)| && (lost != {} ==> Starts(p, d, a0, b))
        decreases RoundUp(newsz) - a
      {
        ghost var q, list := pages, free;
        ExtendedAbsent(p, q, d, a0, b, a);
        var got, mapped, g := AddPage(d, a, Fill(0));
        if !got {
          var _, done := Deallocuvm(d, newsz, oldsz);
          ReleasedTotal(first, q, list, pages, free, d, done);
          Restored(first, p, q, list, pages, free, d, a0, b, RoundUp(newsz), done);
          AllocEnds(p, d, a0, RoundUp(newsz), |old(free)|, b, |lost|, false);
          return 0, ok, lost;
        }
        assert lost == {} && b == a;
        SlotsStep(p, d, a0, b);
        ExtendedMore(first, p, q, list, pages, d, a0, b, Fill(0), g, mapped);
        b := if mapped then b + 1 else b;
        lost := if mapped then {} else {g};
        a := a + 1;
      }
      AllocEnds(p, d, a0, RoundUp(newsz), |old(free)|, b, |lost|, true);
      ok := true;
      return newsz, ok, lost;
    }

    /** One turn of copyuvm's loop, vm.c:319-328, in a space d whose frames were free in p. */
    method CopyPage(par: nat, d: nat, i: nat, ghost p: Memory, ghost list0: seq<nat>)
      returns (present: bool, got: bool, mapped: bool, g: nat)
      requires Sep(first, p, list0, par) && OnlyFree(p, list0, pages) && Sep(first, pages, free, par)
      requires Sep(first, pages, free, d) && i < USER && Lookup(pages, d, i).Absent?
      requires forall f: nat :: Total(pages, free, d, f) <==> f in list0
      modifies this
      ensures present == Lookup(p, par, i).Present?
      ensures !present || !got ==> pages == old(pages) && free == old(free)
      ensures present ==> (got <==> old(free) != [])
      ensures OnlyFree(p, list0, pages) && Sep(first, pages, free, par) && Sep(first, pages, free, d)
      ensures present && got ==>
                && Added(old(pages), pages, d, i, g, mapped)
                && (forall f: nat :: Total(pages, free, d, f) || (!mapped && f == g) <==> f in list0)
                && (mapped <==> i / ENTRIES in Slots(old(pages), d) || |old(free)| >= 2)
                && Slots(pages, d) == (if mapped then Slots(old(pages), d) + {i / ENTRIES} else Slots(old(pages), d))
                && |free| == |old(free)| - (if mapped && i / ENTRIES !in Slots(old(pages), d) then 2 else 1)
                && (mapped && Copied(p, old(pages), par, d, i) ==> Copied(p, pages, par, d, i + 1))
    {
      hide Sep, Lookup, Uses, Total, Added, Copied, Space, OnlyFree, Owns, Slots;
      got, mapped, g := false, false, 0;
      Bystander(first, p, list0, pages, par);
      var table, there := WalkPte(par, i);
      present := there;
      if !table || !present {
        return;
      }
      var from := ReadFrame(par, i);
      ParentFrame(first, p, list0, par, i);
      ghost var q, list := pages, free;
      SepSpace(first, q, list, d);
      got, mapped, g := AddPage(d, i, pages[from]);
      if got {
        OnlyFreeMore(p, list0, q, list, pages, d);
        BystanderTotal(first, p, list0, pages, free, par, d);
        if mapped && Copied(p, q, par, d, i) {
          CopiedMore(first, p, q, list, pages, par, d, i, g);
        }
      }
    }

    /** copyuvm, vm.c:309-336. `lost` are the frames that a failure leaves in no one's hands:
        all that setupkvm took if that failed, or else at most the last page. */
    method Copyuvm(par: nat, size: nat, data: nat) returns (r: CopyResult, ghost lost: set<nat>)
      requires Sep(first, pages, free, par) && size <= USER * PGSIZE && USER + 0x100 < data < USER + TOP
      modifies this
      ensures OnlyFree(old(pages), old(free), pages) && Sep(first, pages, free, par)
      ensures r.Copy? ==>
                && Sep(first, pages, free, r.d) && lost == {}
                && Copied(old(pages), pages, par, r.d, RoundUp(size))
                && (forall v: nat :: RoundUp(size) <= v < PAGES ==> Lookup(pages, r.d, v) == KernelAt(data, v))
                && (forall f: nat :: Total(pages, free, r.d, f) <==> f in old(free))
                && (forall f: nat :: !(Owns(pages, r.d, f) && Owns(pages, par, f)))
      ensures r.OutOfMemory? ==> forall f: nat :: f in free || f in lost <==> f in old(free)
      ensures CopyExact(old(pages), par, RoundUp(size), old(free), r, lost)
    {
      hide Sep, Lookup, Uses, Total, Added, Copied, Space, OnlyFree, Owns, ListOk, Slots, KernelSlots, SlotsAfter, Need,
        Starts, FirstAbsent, SpaceNeed, CopyExact;
      lost := {};
      SepList(first, pages, free, par);
      ghost var p, list0 := pages, free;
      var ok, d := Setupkvm(data);
      if !ok {
        lost := set f | f in list0;
        SetupKept(first, p, list0, pages, free, par);
        SetupFails(p, par, RoundUp(size), list0, lost);
        return OutOfMemory, lost;
      }
      SetupOnlyFree(p, list0, pages);
      TotalSub(pages, free, d, list0);
      BystanderFree(first, p, list0, pages, free, par, d);
      CopiedNone(p, pages, par, d);
      ghost var p1 := pages;
      NeedNone(p1, d, 0);
      var i := 0;
      while i * PGSIZE < size
        invariant 0 <= i <= RoundUp(size) && Sep(first, pages, free, d) && Sep(first, pages, free, par)
        invariant OnlyFree(p, list0, pages) && Copied(p, pages, par, d, i)
        invariant forall v: nat :: i <= v < PAGES ==> Lookup(pages, d, v) == KernelAt(data, v)
        invariant forall f: nat :: Total(pages, free, d, f) <==> f in list0
        invariant Slots(pages, d) == SlotsAfter(p1, d, 0, i) && Slots(p1, d) == KernelSlots()
        invariant |free| + Need(p1, d, 0, i) + SETUP_FRAMES == |list0|
        invariant forall v: nat :: v < i ==> Lookup(p, par, v).Present?
        decreases RoundUp(size) - i
      {
        UserNeed(p1, d, i);
        SlotsStep(p1, d, 0, i);
        ghost var q := pages;
        var present, got, mapped, g := CopyPage(par, d, i, p, list0);
        if !present {
          FirstAbsentIs(p, par, 0, RoundUp(size), i);
          CopyPanics(p, par, RoundUp(size), list0, i);
          return PanicNoPage(i), lost;
        }
        if !got || !mapped {
          lost := if got then {g} else {};
          ghost var q1, list1 := pages, free;
          Freevm(d);
          FreedKept(first, p, list0, q1, list1, pages, free, par, d, lost);
          CopyFails(p, par, RoundUp(size), list0, i, lost);
          return OutOfMemory, lost;
        }
        AddedElse(q, pages, d, i, g, data);
        i := i + 1;
      }
      Disjoint(first, p, list0, pages, free, par, d);
      UserNeed(p1, d, i);
      FirstAbsentIs(p, par, 0, RoundUp(size), i);
      CopyWorks(p, par, RoundUp(size), list0, d);
      return Copy(d), lost;
    }

    /** The life of an address space: if it gets its memory, then freeing it leaves exactly the
        frames on the list that were there before, each once. */
    method Lifetime(data: nat, size: nat) returns (ok: bool, ghost grown: bool, ghost lost: set<nat>)
      requires ListOk(first, pages, free) && USER + 0x100 < data < USER + TOP && size < USER * PGSIZE
      modifies this
      ensures ok ==> ListOk(first, pages, free) && forall f: nat :: f in free || f in lost <==> f in old(free)
      ensures ok ==> |lost| <= 1 && forall f: nat :: f in lost ==> f !in free
      ensures ok <==> |old(free)| >= SETUP_FRAMES
      ensures ok && grown && lost == {} <==> |old(free)| >= SpaceNeed(RoundUp(size))
    {
      hide Sep, Lookup, Total, Extended, Owns, ListOk, Slots, KernelSlots, Need, SpaceNeed;
      var made, d := Setupkvm(data);
      grown, lost := false, {};
      if !made {
        SpaceGrows(0, RoundUp(size));
        return false, grown, lost;
      }
      assert forall v: nat :: v < USER ==> KernelAt(data, v).Absent?;
      UserNeed(pages, d, RoundUp(size));
      var sz, fit, gone := Allocuvm(d, 0, size);
      grown, lost := fit, gone;
      Freevm(d);
      return true, grown, lost;
    }

    /** walkpgdir without alloc, and the entry's present bit. */
    method WalkPte(d: nat, v: nat) returns (table: bool, present: bool)
      requires Space(pages, d) && v < PAGES
      ensures table == HasTable(pages, d, v) && present == Lookup(pages, d, v).Present? && (present ==> table)
    {
      table := pages[d].entries[v / ENTRIES].Present?;
      present := false;
      if table {
        present := PtePresent(d, v);
      }
    }

    method ReadFrame(d: nat, v: nat) returns (f: nat)
      requires Space(pages, d) && v < PAGES && Lookup(pages, d, v).Present?
      ensures f == Lookup(pages, d, v).frame
    {
      var t := pages[d].entries[v / ENTRIES].frame;
      assert TableOf(pages, d, v / ENTRIES, t);
      f := pages[t].entries[v % ENTRIES].frame;
    }

    /** Reading and writing through the entry that walkpgdir finds. */
    method PtePresent(d: nat, v: nat) returns (b: bool)
      requires Space(pages, d) && v < PAGES && EntryAt(pages, d, v / ENTRIES).Present?
      ensures b == Lookup(pages, d, v).Present?
    {
      var t := pages[d].entries[v / ENTRIES].frame;
      assert TableOf(pages, d, v / ENTRIES, t);
      b := pages[t].entries[v % ENTRIES].Present?;
    }

    method WritePte(d: nat, v: nat, e: Entry)
      requires Space(pages, d) && v < PAGES && EntryAt(pages, d, v / ENTRIES).Present?
      modifies this`pages
      ensures pages == WithEntry(old(pages), d, v, e)
    {
      var t := pages[d].entries[v / ENTRIES].frame;
      assert TableOf(pages, d, v / ENTRIES, t);
      pages := pages[t := Table(pages[t].entries[v % ENTRIES := e])];
    }
  }

  /** The loss does happen. One frame is free and slot 0 has no table: allocuvm to one page
      takes the frame for the page, mappages finds none for the table, and allocuvm reports
      success with page 0 unmapped and the frame in no one's hands. */
  method LosesAFrame() returns (vm: Vm, sz: nat, ghost lost: set<nat>)
    ensures fresh(vm) && sz == PGSIZE && Lookup(vm.pages, 1, 0).Absent? && vm.free == [] && lost == {2}
    ensures !Owns(vm.pages, 1, 2)
  {
    hide Sep, Uses, Lookup, Owns, Need, NewSlots, Fill, NoEntries;
    var p := map[1 := Table(NoEntries()), 2 := Fill(1)];
    vm := new Vm(p, [2], 1);
    EmptySpace(p);
    ghost var ok;
    sz, ok, lost := vm.Allocuvm(1, 0, PGSIZE);
    assert RoundUp(0) == 0 && RoundUp(PGSIZE) == 1;
    NeedNone(p, 1, 0);
    assert LosesAt(p, 1, 0, 1, 1, 0);
    assert Total(p, [2], 1, 2);
    LostIs(vm.pages, vm.free, p, lost);
  }
}

/** umalloc.c: the allocator of The C Programming Language (2nd ed.), section 8.7, over
    memory addressed in header-sized units. */
module Umalloc {
  import opened Params
  import opened HeapSpec
  import opened Sets

  const HEADER_BYTES := 8

  /** malloc's block size in units, in 32-bit unsigned arithmetic (umalloc.c:69). */
  function Units(nbytes: nat): (n: nat)
    ensures n >= 1
  {
    (nbytes + HEADER_BYTES - 1) % UINT / HEADER_BYTES + 1
  }

  /** The block has room for the request unless the sum wraps. */
  lemma RoomUnlessWrapped(nbytes: nat)
    requires nbytes < UINT
    ensures HEADER_BYTES * (Units(nbytes) - 1) >= nbytes <==> nbytes <= UINT - HEADER_BYTES
    ensures nbytes <= UINT - HEADER_BYTES ==>
              HEADER_BYTES * (Units(nbytes) - 1) < nbytes + HEADER_BYTES
  {
    if nbytes > UINT - HEADER_BYTES {
      assert (nbytes + HEADER_BYTES - 1) % UINT == nbytes - (UINT - HEADER_BYTES) - 1;
    }
  }

  lemma WrappedRequest()
    ensures Units(0xffff_ffff) == 1
  {
  }

  /** morecore asks for at least 4096 units; sbrk sees the product as a signed int. */
  function Core(nu: nat): nat {
    if nu < 4096 then 4096 else nu
  }
  function SbrkArgument(nu: nat): int {
    var w := nu * HEADER_BYTES % UINT;
    if w < UINT / 2 then w else w - UINT
  }

  /** sbrk is asked for exactly the block that morecore then builds iff the block is below
      2^28 units; above that the product is zero or negative as an int. */
  lemma HonestRequest(nbytes: nat)
    requires nbytes < UINT
    ensures SbrkArgument(Core(Units(nbytes))) == HEADER_BYTES * Core(Units(nbytes))
            <==> Units(nbytes) < 0x1000_0000
    ensures Units(nbytes) >= 0x1000_0000 ==> SbrkArgument(Core(Units(nbytes))) <= 0
  {
    var nu := Core(Units(nbytes));
    assert nu <= UINT / HEADER_BYTES;
  }

  // ---------------------------------------------------------------- sbrk

  /** The end of user memory (KERNBASE) and a page, in units. */
  const USER_END := 0x1000_0000
  const PAGE_UNITS := 512

  /** How allocuvm fares in growing the process: it maps every page; it reports success with
      its last page unmapped, for want of a frame for the page's table; or it fails. */
  datatype Frames = Enough | LastLost | Short

  /** The process's size and the units below it that are mapped. */
  datatype Space = Space(brk: nat, given: set<nat>)

  predicate SpaceOk(p: Space) {
    0 < p.brk <= USER_END && forall u :: u in p.given ==> u < p.brk
  }

  function LastPage(to: nat): nat
    requires to > 0
  {
    (to - 1) / PAGE_UNITS * PAGE_UNITS
  }

  /** The end of what allocuvm maps. */
  function MappedEnd(brk: nat, to: nat, f: Frames): nat
    requires brk < to
  {
    if f == LastLost && LastPage(to) >= brk then LastPage(to) else to
  }

  /** growproc returns -1 if the process would reach the kernel, if frames run out, and when
      the new size is zero, which it takes for deallocuvm's failure (proc.c:107-123). */
  predicate SbrkFails(brk: nat, arg: int, f: Frames) {
    var to := brk + arg / HEADER_BYTES;
    if arg > 0 then to >= USER_END || f == Short else to == 0
  }

  /** The process after sbrk(arg). A negative count takes units back. If the new size would be
      negative the 32-bit sum wraps and nothing changes; if it is zero all memory goes, but
      the size stays (sysproc.c:45-56, proc.c:107-123, vm.c:220-273). */
  function AfterSbrk(p: Space, arg: int, f: Frames): (q: Space)
    ensures SpaceOk(p) ==> SpaceOk(q)
  {
    var to := p.brk + arg / HEADER_BYTES;
    if to == p.brk || to < 0 || (arg > 0 && SbrkFails(p.brk, arg, f)) then p
    else if arg > 0 then
      var n := MappedEnd(p.brk, to, f) - p.brk;
      Space(to, p.given + set u | p.brk <= u < p.brk + n && InUnits(p.brk, n, u))
    else if to == 0 then Space(p.brk, {})
    else Space(to, set u | u in p.given && u < to)
  }

  predicate InUnits(a: nat, n: nat, u: nat) {
    a <= u < a + n
  }

  /** What one sbrk has added another takes back. */
  lemma SbrkBack(p: Space, n: nat, f: Frames)
    requires SpaceOk(p) && n > 0 && !SbrkFails(p.brk, HEADER_BYTES * n, Enough)
    ensures var q := AfterSbrk(p, HEADER_BYTES * n, Enough);
            && q.brk == p.brk + n && (forall u :: p.brk <= u < q.brk ==> u in q.given)
            && !SbrkFails(q.brk, -HEADER_BYTES * n, f) && AfterSbrk(q, -HEADER_BYTES * n, f) == p
  {
    var q := AfterSbrk(p, HEADER_BYTES * n, Enough);
    assert forall u :: u in q.given <==> u in p.given || InUnits(p.brk, n, u);
  }

  /** sbrk is asked to take back the whole process at one block size for each break. */
  lemma EmptiesIff(brk: nat, nbytes: nat)
    requires 0 < brk <= USER_END && nbytes < UINT
    ensures brk + SbrkArgument(Core(Units(nbytes))) / HEADER_BYTES == 0 <==> Units(nbytes) == 0x2000_0000 - brk
  {
    assert Units(nbytes) <= UINT / HEADER_BYTES;
  }

  /** A process of 64 kilobytes that loses all its memory to a malloc. */
  lemma EmptyingRequest(given: set<nat>)
    ensures var arg := SbrkArgument(Core(Units(0xfffe_fff8)));
            SbrkFails(0x2000, arg, Enough) && AfterSbrk(Space(0x2000, given), arg, Enough) == Space(0x2000, {})
  {
  }

  /** The requests malloc serves soundly: both conditions hold up to 2^31 - 16 bytes. */
  lemma SoundRequests(nbytes: nat)
    requires nbytes < UINT
    ensures (Units(nbytes) < 0x1000_0000 && HEADER_BYTES * (Units(nbytes) - 1) >= nbytes)
            <==> nbytes <= 0x7fff_fff0
  {
    RoomUnlessWrapped(nbytes);
  }

  /** The block that malloc carves has room for the request. */
  predicate Roomy(nbytes: nat) {
    HEADER_BYTES * (Units(nbytes) - 1) >= nbytes
  }

  // ------------------------------------------------------------ the heap

  /** `free` and `live` (header address to units) tile `arena`, the units obtained from
      sbrk, all of which lie between the static header and `top`. */
  datatype Heap = Heap(free: seq<Blk>, live: map<nat, nat>, arena: set<nat>, top: nat)

  ghost predicate InLive(live: map<nat, nat>, u: nat) {
    exists a :: a in live && Blk(a, live[a]).Has(u)
  }

  ghost predicate HeapOk(base: nat, h: Heap) {
    && base < h.top
    && Separated(base, h.free)
    && (forall a :: a in h.live ==> base < a && h.live[a] >= 1 && ApartFromAll(Blk(a, h.live[a]), h.free))
    && (forall a, c :: a in h.live && c in h.live && a != c ==>
          Apart(Blk(a, h.live[a]), Blk(c, h.live[c])))
    && (forall u :: u in h.arena <==> InFree(h.free, u) || InLive(h.live, u))
    && (forall u :: u in h.arena ==> base < u < h.top)
  }

  function Freed(h: Heap, a: nat): Heap
    requires a in h.live
  {
    h.(free := Insert(h.free, Blk(a, h.live[a])), live := h.live - {a})
  }

  function Allocated(h: Heap, j: nat, n: nat): Heap
    requires j < |h.free| && h.free[j].n >= n
  {
    var (rest, b) := Take(h.free, j, n);
    h.(free := rest, live := h.live[b.a := n])
  }

  function Obtained(h: Heap, a: nat, n: nat): Heap {
    h.(live := h.live[a := n], arena := h.arena + (set u | a <= u < a + n && Blk(a, n).Has(u)), top := a + n)
  }

  /** In a sound heap every unit obtained from sbrk is in exactly one block. */
  lemma Tiling(base: nat, h: Heap, u: nat)
    requires HeapOk(base, h) && u in h.arena
    ensures InFree(h.free, u) != InLive(h.live, u)
    ensures forall a, c :: a in h.live && c in h.live && Blk(a, h.live[a]).Has(u) && Blk(c, h.live[c]).Has(u)
                           ==> a == c
    ensures forall i, j :: 0 <= i < |h.free| && 0 <= j < |h.free| && h.free[i].Has(u) && h.free[j].Has(u)
                           ==> i == j
  {
  }

  lemma InLiveUpdate(live: map<nat, nat>, a: nat, n: nat, u: nat)
    requires a !in live
    ensures InLive(live[a := n], u) <==> InLive(live, u) || Blk(a, n).Has(u)
  {
    var l := live[a := n];
    if InLive(live, u) {
      var c :| c in live && Blk(c, live[c]).Has(u);
      assert c in l && Blk(c, l[c]).Has(u);
    }
    if Blk(a, n).Has(u) {
      assert a in l && Blk(a, l[a]).Has(u);
    }
  }

  lemma FreedOk(base: nat, h: Heap, a: nat)
    requires HeapOk(base, h) && a in h.live
    ensures HeapOk(base, Freed(h, a))
  {
    var b := Blk(a, h.live[a]);
    var g := Freed(h, a);
    InsertSeparated(base, h.free, b);
    forall u
      ensures u in g.arena <==> InFree(g.free, u) || InLive(g.live, u)
    {
      InsertUnits(base, h.free, b, u);
      InLiveUpdate(g.live, a, h.live[a], u);
      assert g.live[a := h.live[a]] == h.live;
    }
    forall c | c in g.live
      ensures ApartFromAll(Blk(c, g.live[c]), g.free)
    {
      ApartFromInsert(base, h.free, b, Blk(c, g.live[c]));
    }
  }

  lemma ApartByUnits(b: Blk, c: Blk)
    requires b.n >= 1 && c.n >= 1
    ensures Apart(b, c) <==> forall u :: !(b.Has(u) && c.Has(u))
  {
    if !Apart(b, c) {
      var u := if b.a < c.a then c.a else b.a;
      assert b.Has(u) && c.Has(u);
    }
  }

  lemma ApartFromInsert(base: nat, free: seq<Blk>, b: Blk, c: Blk)
    requires Separated(base, free) && base < b.a && b.n >= 1 && c.n >= 1
    requires ApartFromAll(b, free) && ApartFromAll(c, free) && Apart(b, c)
    ensures ApartFromAll(c, Insert(free, b))
  {
    var r := Insert(free, b);
    InsertSeparated(base, free, b);
    forall i | 0 <= i < |r|
      ensures Apart(c, r[i])
    {
      forall u
        ensures !(c.Has(u) && r[i].Has(u))
      {
        if r[i].Has(u) {
          assert InFree(r, u);
          InsertUnits(base, free, b, u);
        }
      }
      ApartByUnits(c, r[i]);
    }
  }

  lemma AllocatedOk(base: nat, h: Heap, j: nat, n: nat)
    requires HeapOk(base, h) && j < |h.free| && 1 <= n <= h.free[j].n
    ensures HeapOk(base, Allocated(h, j, n))
    ensures Take(h.free, j, n).1.a !in h.live
  {
    var (rest, b) := Take(h.free, j, n);
    var g := Allocated(h, j, n);
    TakeSeparated(base, h.free, j, n);
    forall a | a in h.live
      ensures Apart(Blk(a, h.live[a]), b) && ApartFromAll(Blk(a, h.live[a]), rest)
    {
      assert Apart(Blk(a, h.live[a]), h.free[j]);
    }
    forall u
      ensures u in g.arena <==> InFree(g.free, u) || InLive(g.live, u)
    {
      TakeUnits(base, h.free, j, n, u);
      InLiveUpdate(h.live, b.a, n, u);
    }
  }

  lemma ObtainedOk(base: nat, h: Heap, a: nat, n: nat)
    requires HeapOk(base, h) && h.top <= a && n >= 1
    ensures HeapOk(base, Obtained(h, a, n)) && a !in h.live
  {
    var g := Obtained(h, a, n);
    forall c | c in h.live
      ensures c + h.live[c] <= h.top
    {
      var u := c + h.live[c] - 1;
      assert Blk(c, h.live[c]).Has(u);
      assert u in h.arena;
    }
    forall i | 0 <= i < |h.free|
      ensures h.free[i].End() <= h.top
    {
      var u := h.free[i].End() - 1;
      assert h.free[i].Has(u);
      assert u in h.arena;
    }
    forall u
      ensures u in g.arena <==> InFree(g.free, u) || InLive(g.live, u)
    {
      InLiveUpdate(h.live, a, n, u);
    }
  }

  // ------------------------------------------------------------ the ring

  datatype Header = Header(ptr: nat, size: nat)

  function At(mem: map<nat, Header>, x: nat): Header {
    if x in mem then mem[x] else Header(0, 0)
  }

  /** Ring nodes in order: the static header, then the free blocks. */
  function Node(base: nat, free: seq<Blk>, i: nat): nat
    requires i <= |free|
  {
    if i == 0 then base else free[i - 1].a
  }
  function Succ(base: nat, free: seq<Blk>, i: nat): nat
    requires i <= |free|
  {
    if i == |free| then base else free[i].a
  }

  /** Memory holds one circular list through `base`, in address order. */
  ghost predicate Ring(mem: map<nat, Header>, base: nat, free: seq<Blk>) {
    && At(mem, base).size == 0
    && (forall i :: 0 <= i < |free| ==> At(mem, free[i].a).size == free[i].n)
    && (forall i :: 0 <= i <= |free| ==> At(mem, Node(base, free, i)).ptr == Succ(base, free, i))
  }

  /** The stores of free() once it has found the predecessor `p` of `bp`. */
  function Joined(mem: map<nat, Header>, p: nat, bp: nat): map<nat, Header> {
    var next := At(mem, p).ptr;
    var m := if bp + At(mem, bp).size == next
             then mem[bp := Header(At(mem, next).ptr, At(mem, bp).size + At(mem, next).size)]
             else mem[bp := At(mem, bp).(ptr := next)];
    if p + At(m, p).size == bp
    then m[p := Header(At(m, bp).ptr, At(m, p).size + At(m, bp).size)]
    else m[p := At(m, p).(ptr := bp)]
  }

  /** Replace free[l..k] by `mid`, touching only mid's header and its predecessor's ptr. */
  lemma RingSplice(mem: map<nat, Header>, m: map<nat, Header>, base: nat, free: seq<Blk>,
                   l: nat, mid: Blk, k: nat)
    requires Ring(mem, base, free) && l <= k <= |free|
    requires forall i :: 0 <= i < l ==> At(m, Node(base, free, i)) == At(mem, Node(base, free, i))
    requires At(m, Node(base, free, l)) == At(mem, Node(base, free, l)).(ptr := mid.a)
    requires At(m, mid.a) == Header(Succ(base, free, k), mid.n)
    requires forall i :: k <= i < |free| ==> At(m, free[i].a) == At(mem, free[i].a)
    ensures Ring(m, base, free[..l] + [mid] + free[k..])
  {
    var r := free[..l] + [mid] + free[k..];
    forall i | 0 <= i <= |r|
      ensures At(m, Node(base, r, i)).ptr == Succ(base, r, i)
    {
      if i <= l {
        assert Node(base, r, i) == Node(base, free, i);
      } else if i > l + 1 {
        assert Node(base, r, i) == Node(base, free, i - l - 1 + k);
      }
    }
    forall i | 0 <= i < |r|
      ensures At(m, r[i].a).size == r[i].n
    {
      if i < l {
        assert Node(base, free, i + 1) == free[i].a;
      } else if i > l {
        assert r[i] == free[i - l - 1 + k];
      }
    }
    assert Node(base, free, 0) == base;
  }

  /** Nodes ascend, so distinct positions have distinct addresses. */
  lemma NodesAscend(base: nat, free: seq<Blk>, i: nat, j: nat)
    requires Separated(base, free) && i < j <= |free|
    ensures Node(base, free, i) < Node(base, free, j)
  {
  }

  /** The stores of free(), case by case, without the list. */
  lemma JoinedIs(mem: map<nat, Header>, p: nat, bp: nat, next: nat, up: bool, down: bool)
    requires p < bp && At(mem, p).ptr == next && (up ==> bp < next)
    requires up <==> bp + At(mem, bp).size == next
    requires down <==> p + At(mem, p).size == bp
    ensures var m := Joined(mem, p, bp);
            var n := At(mem, bp).size + if up then At(mem, next).size else 0;
            var after := if up then At(mem, next).ptr else next;
            && (forall x :: x != p && x != bp ==> At(m, x) == At(mem, x))
            && (if down then At(m, p) == Header(after, At(mem, p).size + n)
                else At(m, bp) == Header(after, n) && At(m, p) == At(mem, p).(ptr := bp))
  {
  }

  /** What the ring says about the two neighbours of `b`. */
  lemma Neighbours(mem: map<nat, Header>, base: nat, free: seq<Blk>, b: Blk)
    requires Separated(base, free) && Ring(mem, base, free)
    requires base < b.a && b.n >= 1 && ApartFromAll(b, free)
    ensures var t := Below(free, b.a);
            var p, next := Node(base, free, t), Succ(base, free, t);
            && p < b.a && At(mem, p).ptr == next
            && (b.End() == next <==> TouchesUp(free, b))
            && (p + At(mem, p).size == b.a <==> TouchesDown(free, b))
            && (t < |free| ==> At(mem, next) == Header(Succ(base, free, t + 1), free[t].n))
            && (t > 0 ==> At(mem, p).size == free[t - 1].n)
            && forall i :: t <= i < |free| ==> b.a < free[i].a
  {
    hide Below;
    Place(base, free, b);
    var t := Below(free, b.a);
    assert t < |free| ==> At(mem, Node(base, free, t + 1)).ptr == Succ(base, free, t + 1);
    hide ApartFromAll;
  }

  lemma JoinedStores(mem: map<nat, Header>, base: nat, free: seq<Blk>, b: Blk)
    requires Separated(base, free) && Ring(mem, base, free)
    requires base < b.a && b.n >= 1 && ApartFromAll(b, free) && At(mem, b.a).size == b.n
    ensures var t := Below(free, b.a);
            var parts, p := Placed(free, b), Node(base, free, t);
            var k := if TouchesUp(free, b) then t + 1 else t;
            var m := Joined(mem, p, b.a);
            && (forall x :: x != p && x != b.a ==> At(m, x) == At(mem, x))
            && At(m, parts.mid.a) == Header(Succ(base, free, k), parts.mid.n)
            && (TouchesDown(free, b) || At(m, p) == At(mem, p).(ptr := b.a))
            && p < b.a
            && forall i :: t <= i < |free| ==> b.a < free[i].a
  {
    hide Below, Separated, Ring, ApartFromAll, Joined;
    Neighbours(mem, base, free, b);
    var t := Below(free, b.a);
    var p, next := Node(base, free, t), Succ(base, free, t);
    JoinedIs(mem, p, b.a, next, TouchesUp(free, b), TouchesDown(free, b));
  }

  lemma RingJoined(mem: map<nat, Header>, base: nat, free: seq<Blk>, b: Blk)
    requires Separated(base, free) && Ring(mem, base, free)
    requires base < b.a && b.n >= 1 && ApartFromAll(b, free) && At(mem, b.a).size == b.n
    ensures Ring(Joined(mem, Node(base, free, Below(free, b.a)), b.a), base, Insert(free, b))
  {
    JoinedStores(mem, base, free, b);
    hide Below, Joined;
    var t := Below(free, b.a);
    var parts, p := Placed(free, b), Node(base, free, t);
    var k := if TouchesUp(free, b) then t + 1 else t;
    var l := if TouchesDown(free, b) then t - 1 else t;
    var m := Joined(mem, p, b.a);
    forall i | 0 <= i < t
      ensures At(m, Node(base, free, i)) == At(mem, Node(base, free, i))
    {
      NodesAscend(base, free, i, t);
    }
    forall i | t <= i < |free|
      ensures At(m, free[i].a) == At(mem, free[i].a)
    {
      NodesAscend(base, free, t, i + 1);
    }
    hide Separated, ApartFromAll;
    if TouchesDown(free, b) {
      assert At(mem, Node(base, free, l)).ptr == Succ(base, free, l);
    }
    RingSplice(mem, m, base, free, l, parts.mid, k);
  }

  /** The stores of malloc() on free[j], whose predecessor in the ring is node j. */
  function Carved(mem: map<nat, Header>, prevp: nat, p: nat, n: nat): map<nat, Header>
    requires At(mem, p).size >= n
  {
    if At(mem, p).size == n then mem[prevp := At(mem, prevp).(ptr := At(mem, p).ptr)]
    else
      var m := mem[p := At(mem, p).(size := At(mem, p).size - n)];
      var q := p + At(m, p).size;
      m[q := At(m, q).(size := n)]
  }

  lemma RingUnlinked(mem: map<nat, Header>, m: map<nat, Header>, base: nat, free: seq<Blk>, j: nat)
    requires Separated(base, free) && Ring(mem, base, free) && j < |free|
    requires m == Carved(mem, Node(base, free, j), free[j].a, free[j].n)
    ensures Ring(m, base, free[..j] + free[j + 1..])
  {
    var r := free[..j] + free[j + 1..];
    var prevp := Node(base, free, j);
    assert At(mem, Node(base, free, j + 1)).ptr == Succ(base, free, j + 1);
    assert forall x :: x != prevp ==> At(m, x) == At(mem, x);
    assert At(m, prevp) == Header(Succ(base, free, j + 1), At(mem, prevp).size);
    hide Carved;
    forall i | 0 <= i <= |free| && i != j
      ensures Node(base, free, i) != prevp
    {
      if i < j {
        NodesAscend(base, free, i, j);
      } else {
        NodesAscend(base, free, j, i);
      }
    }
    hide Separated;
    forall i | 0 <= i <= |r|
      ensures At(m, Node(base, r, i)).ptr == Succ(base, r, i)
    {
      assert Node(base, r, i) == Node(base, free, if i <= j then i else i + 1);
    }
    forall i | 0 <= i < |r|
      ensures At(m, r[i].a).size == r[i].n
    {
      assert r[i] == free[if i < j then i else i + 1];
    }
  }

  lemma RingShrunk(mem: map<nat, Header>, m: map<nat, Header>, base: nat, free: seq<Blk>, j: nat, n: nat)
    requires Separated(base, free) && Ring(mem, base, free) && j < |free| && 1 <= n < free[j].n
    requires m == Carved(mem, Node(base, free, j), free[j].a, n)
    ensures Ring(m, base, Take(free, j, n).0)
    ensures At(m, Take(free, j, n).1.a).size == n
  {
    var r := Take(free, j, n).0;
    var q := free[j].a + free[j].n - n;
    forall i | 0 <= i <= |free|
      ensures Node(base, free, i) != q
      ensures i != j + 1 ==> Node(base, free, i) != free[j].a
      ensures Node(base, free, i) == Node(base, r, i) && Succ(base, free, i) == Succ(base, r, i)
    {
      if i < j + 1 {
        NodesAscend(base, free, i, j + 1);
      }
    }
    hide Separated;
    assert forall x :: x != q && x != free[j].a ==> At(m, x) == At(mem, x);
    assert At(m, free[j].a) == Header(At(mem, free[j].a).ptr, free[j].n - n);
    hide Carved;
    forall i | 0 <= i < |r|
      ensures At(m, r[i].a).size == r[i].n
    {
      assert r[i].a == Node(base, r, i + 1) == Node(base, free, i + 1);
    }
  }

  lemma RingCarved(mem: map<nat, Header>, base: nat, free: seq<Blk>, j: nat, n: nat)
    requires Separated(base, free) && Ring(mem, base, free) && j < |free| && 1 <= n <= free[j].n
    ensures At(mem, free[j].a).size == free[j].n
    ensures var m := Carved(mem, Node(base, free, j), free[j].a, n);
            Ring(m, base, Take(free, j, n).0) && At(m, Take(free, j, n).1.a).size == n
  {
    var m := Carved(mem, Node(base, free, j), free[j].a, n);
    if free[j].n == n {
      RingUnlinked(mem, m, base, free, j);
      assert Node(base, free, j) != free[j].a;
    } else {
      RingShrunk(mem, m, base, free, j, n);
    }
  }

  // ------------------------------------------------------------ the code

  ghost predicate LiveHeaders(mem: map<nat, Header>, live: map<nat, nat>) {
    forall a :: a in live ==> At(mem, a).size == live[a]
  }

  /** free() writes only `bp` and its predecessor, which no live block's header is. */
  lemma FreeKeepsLive(mem: map<nat, Header>, base: nat, h: Heap, bp: nat)
    requires HeapOk(base, h) && Ring(mem, base, h.free) && LiveHeaders(mem, h.live) && bp in h.live
    ensures LiveHeaders(Joined(mem, Node(base, h.free, Below(h.free, bp)), bp), Freed(h, bp).live)
  {
    var b := Blk(bp, h.live[bp]);
    var p := Node(base, h.free, Below(h.free, bp));
    JoinedStores(mem, base, h.free, b);
    hide Below, Joined;
    forall a | a in h.live && a != bp
      ensures a != p
    {
      assert Below(h.free, bp) > 0 ==> Apart(Blk(a, h.live[a]), h.free[Below(h.free, bp) - 1]);
    }
  }

  lemma NodeAfterInsert(base: nat, free: seq<Blk>, b: Blk)
    ensures var t := Below(free, b.a);
            t <= |Insert(free, b)| && Node(base, Insert(free, b), t) == Node(base, free, t)
  {
  }

  /** All of free()'s effect: the heap, the ring, the live headers and the cursor. */
  lemma FreeEffect(mem: map<nat, Header>, base: nat, h: Heap, bp: nat)
    requires HeapOk(base, h) && Ring(mem, base, h.free) && LiveHeaders(mem, h.live) && bp in h.live
    ensures var t := Below(h.free, bp);
            var p, g := Node(base, h.free, t), Freed(h, bp);
            var m := Joined(mem, p, bp);
            && HeapOk(base, g) && Ring(m, base, g.free) && LiveHeaders(m, g.live)
            && t <= |g.free| && p == Node(base, g.free, t)
    ensures base < bp && base <= Node(base, h.free, Below(h.free, bp))
    ensures forall i :: 0 <= i < |h.free| ==> h.free[i].a != bp
  {
    var b := Blk(bp, h.live[bp]);
    assert forall i :: 0 <= i < |h.free| ==> Apart(b, h.free[i]) && h.free[i].n >= 1;
    FreedOk(base, h, bp);
    RingJoined(mem, base, h.free, b);
    FreeKeepsLive(mem, base, h, bp);
    NodeAfterInsert(base, h.free, b);
  }

  /** What morecore leaves: the new block, freed. */
  function Grown(h: Heap, a: nat, n: nat): Heap {
    Freed(Obtained(h, a, n), a)
  }

  /** Fresh memory holds no header of the ring or of a live block. */
  lemma ObtainedIsNew(mem: map<nat, Header>, base: nat, h: Heap, a: nat, n: nat)
    requires HeapOk(base, h) && Ring(mem, base, h.free) && LiveHeaders(mem, h.live)
    requires h.top <= a && n >= 1
    ensures var m := mem[a := At(mem, a).(size := n)];
            Ring(m, base, Obtained(h, a, n).free) && LiveHeaders(m, Obtained(h, a, n).live)
    ensures a in Obtained(h, a, n).live
  {
    forall c | c in h.live
      ensures c < a
    {
      assert Blk(c, h.live[c]).Has(c);
      assert c in h.arena;
    }
    forall i | 0 <= i <= |h.free|
      ensures Node(base, h.free, i) < a
    {
      if i > 0 {
        assert h.free[i - 1].Has(h.free[i - 1].a);
        assert h.free[i - 1].a in h.arena;
      }
    }
    hide HeapOk;
    var m := mem[a := At(mem, a).(size := n)];
    forall i | 0 <= i < |h.free|
      ensures At(m, h.free[i].a).size == h.free[i].n
    {
      assert Node(base, h.free, i + 1) == h.free[i].a;
    }
    assert Node(base, h.free, 0) == base;
  }

  lemma CoreEffect(mem: map<nat, Header>, base: nat, h: Heap, a: nat, nu: nat)
    requires HeapOk(base, h) && Ring(mem, base, h.free) && LiveHeaders(mem, h.live)
    requires h.top <= a
    ensures var n := Core(nu);
            var m, g := mem[a := At(mem, a).(size := n)], Obtained(h, a, n);
            && HeapOk(base, g) && Ring(m, base, g.free) && LiveHeaders(m, g.live)
            && g.free == h.free && a in g.live
            && !NoFit(Grown(h, a, n).free, nu)
  {
    GrownFits(base, h, a, Core(nu));
    assert !NoFit(Grown(h, a, Core(nu)).free, nu);
    hide NoFit, Grown;
    ObtainedOk(base, h, a, Core(nu));
    ObtainedIsNew(mem, base, h, a, Core(nu));
  }

  lemma CarvedStores(mem: map<nat, Header>, base: nat, h: Heap, j: nat, n: nat, a: nat)
    requires HeapOk(base, h) && Ring(mem, base, h.free) && j < |h.free| && 1 <= n <= h.free[j].n
    requires a in h.live
    ensures At(Carved(mem, Node(base, h.free, j), h.free[j].a, n), a) == At(mem, a)
  {
    assert Apart(Blk(a, h.live[a]), h.free[j]);
    assert j > 0 ==> Apart(Blk(a, h.live[a]), h.free[j - 1]);
    assert a != Node(base, h.free, j);
  }

  /** All of the carving's effect: the heap, the ring, the live headers and the cursor. */
  lemma CarveEffect(mem: map<nat, Header>, base: nat, h: Heap, j: nat, n: nat)
    requires HeapOk(base, h) && Ring(mem, base, h.free) && LiveHeaders(mem, h.live)
    requires j < |h.free| && 1 <= n <= h.free[j].n
    ensures At(mem, h.free[j].a).size == h.free[j].n && base <= Node(base, h.free, j)
    ensures var m, g := Carved(mem, Node(base, h.free, j), h.free[j].a, n), Allocated(h, j, n);
            && HeapOk(base, g) && Ring(m, base, g.free) && LiveHeaders(m, g.live)
            && j <= |g.free| && Node(base, g.free, j) == Node(base, h.free, j)
  {
    AllocatedOk(base, h, j, n);
    RingCarved(mem, base, h.free, j, n);
    forall a | a in h.live
      ensures At(Carved(mem, Node(base, h.free, j), h.free[j].a, n), a) == At(mem, a)
    {
      CarvedStores(mem, base, h, j, n, a);
    }
    hide HeapOk, Ring, Carved;
  }

  lemma PayloadIsNoHeader(mem: map<nat, Header>, base: nat, h: Heap, c: nat, x: nat, w: Header)
    requires HeapOk(base, h) && c in h.live && c < x < c + h.live[c]
    ensures LiveHeaders(mem, h.live) ==> LiveHeaders(mem[x := w], h.live)
    ensures Ring(mem, base, h.free) ==> Ring(mem[x := w], base, h.free)
  {
    forall a | a in h.live
      ensures a != x
    {
      assert a != c ==> Apart(Blk(a, h.live[a]), Blk(c, h.live[c]));
    }
    forall i | 0 <= i <= |h.free|
      ensures Node(base, h.free, i) != x
    {
      assert i > 0 ==> Apart(Blk(c, h.live[c]), h.free[i - 1]);
    }
    hide HeapOk;
    forall i | 0 <= i < |h.free|
      ensures h.free[i].a != x
    {
      assert Node(base, h.free, i + 1) == h.free[i].a;
    }
    assert Node(base, h.free, 0) == base;
  }

  /** The ring position `c` moves after position `f` when there are `m` free blocks. */
  function Moved(m: nat, f: nat, c: nat): (k: nat)
    requires f <= m && c <= m + 1
    ensures k <= m
  {
    if f + c <= m then f + c else f + c - (m + 1)
  }

  lemma MovedNext(m: nat, f: nat, c: nat)
    requires f <= m && c <= m
    ensures Moved(m, f, c + 1) == if Moved(m, f, c) == m then 0 else Moved(m, f, c) + 1
    ensures Moved(m, f, 0) == f && (Moved(m, f, c + 1) == f <==> c == m)
  {
  }

  function SizeAt(free: seq<Blk>, k: nat): nat
    requires k <= |free|
  {
    if k == 0 then 0 else free[k - 1].n
  }

  ghost predicate NoFit(free: seq<Blk>, n: nat) {
    forall i :: 0 <= i < |free| ==> free[i].n < n
  }

  lemma Fits(free: seq<Blk>, j: nat, n: nat)
    requires j < |free| && n <= free[j].n
    ensures !NoFit(free, n)
  {
  }

  /** The c - 1 nodes after position `f` are too small. */
  ghost predicate Scanned(free: seq<Blk>, f: nat, c: nat, n: nat)
    requires f <= |free| && c <= |free| + 2
  {
    forall d :: 1 <= d < c ==> SizeAt(free, Moved(|free|, f, d)) < n
  }

  lemma ScannedMore(free: seq<Blk>, f: nat, c: nat, n: nat)
    requires f <= |free| && c <= |free| + 1 && Scanned(free, f, c, n)
    requires SizeAt(free, Moved(|free|, f, c)) < n
    ensures Scanned(free, f, c + 1, n)
  {
  }

  lemma ScannedNone(free: seq<Blk>, f: nat, n: nat)
    requires f <= |free|
    ensures Scanned(free, f, 1, n)
  {
  }

  lemma AllScanned(free: seq<Blk>, f: nat, n: nat)
    requires f <= |free| && Scanned(free, f, |free| + 2, n)
    ensures NoFit(free, n)
  {
    forall i | 0 <= i < |free|
      ensures free[i].n < n
    {
      var d := if i + 1 > f then i + 1 - f else i + 1 + |free| + 1 - f;
      assert Moved(|free|, f, d) == i + 1;
    }
  }

  /** The new block, alone or coalesced, is big enough. */
  lemma GrownFits(base: nat, h: Heap, a: nat, n: nat)
    requires HeapOk(base, h) && h.top <= a && n >= 1
    ensures !NoFit(Grown(h, a, n).free, n)
  {
    ObtainedOk(base, h, a, n);
    var g := Obtained(h, a, n);
    var p := Placed(g.free, Blk(a, n));
    assert Grown(h, a, n).free == p.left + [p.mid] + p.right;
    assert Grown(h, a, n).free[|p.left|] == p.mid;
  }

  lemma AllocatedArena(h: Heap, j: nat, n: nat)
    requires j < |h.free| && h.free[j].n >= n
    ensures Allocated(h, j, n).arena == h.arena
  {
  }

  /** morecore takes n units from `core` on for the heap's. */
  lemma GrownArena(base: nat, h: Heap, core: nat, n: nat)
    requires HeapOk(base, h) && h.top <= core && n >= 1
    ensures Grown(h, core, n).arena == Obtained(h, core, n).arena
    ensures forall u :: u in Obtained(h, core, n).arena <==> u in h.arena || InUnits(core, n, u)
  {
  }

  /** The static header and the units that the allocator takes for its own are the process's. */
  ghost predicate Backs(p: Space, base: nat, arena: set<nat>) {
    base in p.given && arena <= p.given
  }

  /** What a sbrk that succeeds leaves of the units below the old break and maps above it. */
  lemma SbrkGives(p: Space, arg: int, f: Frames, u: nat)
    requires SpaceOk(p) && !SbrkFails(p.brk, arg, f)
    ensures var m := arg / HEADER_BYTES;
            var q := AfterSbrk(p, arg, f);
            if m > 0 then
              u in q.given <==> u in p.given || p.brk <= u < MappedEnd(p.brk, p.brk + m, f)
            else u in q.given ==> u in p.given && u < p.brk
  {
    hide MappedEnd;
  }

  /** What allocuvm maps ends short exactly if it has lost the last page. */
  lemma MappedAll(brk: nat, m: nat, f: Frames)
    requires m > 0
    ensures brk <= MappedEnd(brk, brk + m, f) <= brk + m
    ensures m >= Core(0) ==> (MappedEnd(brk, brk + m, f) == brk + m <==> f != LastLost)
  {
  }

  /** A sbrk that succeeds has given what morecore takes exactly if it was asked for as much and
      every page was mapped. One that fails has left the heap alone unless it freed everything. */
  lemma SbrkExact(base: nat, h: Heap, p: Space, n: nat, f: Frames)
    requires HeapOk(base, h) && SpaceOk(p) && h.top <= p.brk && Backs(p, base, h.arena) && n >= Core(0)
    ensures var arg := SbrkArgument(n);
            var q := AfterSbrk(p, arg, f);
            if SbrkFails(p.brk, arg, f) then Backs(q, base, h.arena) <==> p.brk + arg / HEADER_BYTES != 0
            else Backs(q, base, Obtained(h, p.brk, n).arena) <==> arg == HEADER_BYTES * n && f == Enough
  {
    var arg := SbrkArgument(n);
    if !SbrkFails(p.brk, arg, f) {
      SbrkBacks(base, h, p, n, f);
    }
  }

  lemma SbrkBacks(base: nat, h: Heap, p: Space, n: nat, f: Frames)
    requires HeapOk(base, h) && SpaceOk(p) && h.top <= p.brk && Backs(p, base, h.arena) && n >= Core(0)
    requires !SbrkFails(p.brk, SbrkArgument(n), f)
    ensures var arg := SbrkArgument(n);
            Backs(AfterSbrk(p, arg, f), base, Obtained(h, p.brk, n).arena) <==> arg == HEADER_BYTES * n && f == Enough
  {
    hide HeapOk, AfterSbrk, MappedEnd, Obtained;
    var arg := SbrkArgument(n);
    var q, m := AfterSbrk(p, arg, f), arg / HEADER_BYTES;
    var arena := Obtained(h, p.brk, n).arena;
    GrownArena(base, h, p.brk, n);
    assert arg == m * HEADER_BYTES && m <= n;
    if m > 0 {
      MappedAll(p.brk, m, f);
    }
    var end := if m > 0 then MappedEnd(p.brk, p.brk + m, f) else p.brk;
    if end < p.brk + n {
      SbrkGives(p, arg, f, end);
      assert end in arena;
    } else {
      forall u | u in p.given || p.brk <= u < p.brk + n
        ensures u in q.given
      {
        SbrkGives(p, arg, f, u);
      }
    }
  }

  /** A request for which malloc asks sbrk, of a process whose heap is its own: the request is
      served soundly exactly if it is at most 0x7ffffff0 bytes, ends below the kernel and finds
      its frames. A sbrk that fails has freed everything exactly at one block size for each break. */
  lemma GrowthBacked(base: nat, h: Heap, p: Space, nbytes: nat, f: Frames)
    requires HeapOk(base, h) && SpaceOk(p) && h.top <= p.brk && Backs(p, base, h.arena) && nbytes < UINT
    ensures var n := Core(Units(nbytes));
            var arg := SbrkArgument(n);
            var q := AfterSbrk(p, arg, f);
            if SbrkFails(p.brk, arg, f) then Backs(q, base, h.arena) <==> Units(nbytes) != 0x2000_0000 - p.brk
            else
              var backed := Backs(q, base, Grown(h, p.brk, n).arena);
              && (backed <==> Units(nbytes) < 0x1000_0000 && f == Enough)
              && (backed && Roomy(nbytes) <==> nbytes <= 0x7fff_fff0 && f == Enough)
  {
    hide HeapOk, AfterSbrk, Obtained, Freed, Backs;
    var n := Core(Units(nbytes));
    GrownArena(base, h, p.brk, n);
    SbrkExact(base, h, p, n, f);
    HonestRequest(nbytes);
    SoundRequests(nbytes);
    EmptiesIff(p.brk, nbytes);
  }

  lemma NextNode(mem: map<nat, Header>, base: nat, free: seq<Blk>, k: nat)
    requires Ring(mem, base, free) && k <= |free|
    ensures At(mem, Node(base, free, k)).ptr == Node(base, free, if k == |free| then 0 else k + 1)
  {
  }

  lemma SizeOfNode(mem: map<nat, Header>, base: nat, free: seq<Blk>, k: nat)
    requires Ring(mem, base, free) && k <= |free|
    ensures At(mem, Node(base, free, k)).size == SizeAt(free, k)
  {
  }

  lemma SameNode(base: nat, h: Heap, i: nat, j: nat)
    requires HeapOk(base, h) && i <= |h.free| && j <= |h.free|
    requires Node(base, h.free, i) == Node(base, h.free, j)
    ensures i == j
  {
    if i < j {
      NodesAscend(base, h.free, i, j);
    } else if j < i {
      NodesAscend(base, h.free, j, i);
    }
  }

  // ------------------------------------------------------------------ runs

  ghost predicate FreeStep(h: Heap, g: Heap, a: nat) {
    a in h.live && g == Freed(h, a)
  }
  ghost predicate CoreStep(h: Heap, g: Heap, a: nat, n: nat) {
    h.top <= a && n >= 1 && g == Grown(h, a, n)
  }
  ghost predicate MallocStep(h: Heap, g: Heap, j: nat, n: nat) {
    j < |h.free| && 1 <= n <= h.free[j].n && g == Allocated(h, j, n)
  }
  ghost predicate HeapStep(h: Heap, g: Heap) {
    || (exists a :: FreeStep(h, g, a))
    || (exists a, n :: CoreStep(h, g, a, n))
    || (exists j, n :: MallocStep(h, g, j, n))
  }

  lemma HeapStepOk(base: nat, h: Heap, g: Heap)
    requires HeapOk(base, h) && HeapStep(h, g)
    ensures HeapOk(base, g) && h.arena <= g.arena
  {
    if a :| FreeStep(h, g, a) {
      FreedOk(base, h, a);
    } else if a, n :| CoreStep(h, g, a, n) {
      ObtainedOk(base, h, a, n);
      FreedOk(base, Obtained(h, a, n), a);
    } else {
      var j, n :| MallocStep(h, g, j, n);
      AllocatedOk(base, h, j, n);
    }
  }

  /** After any run of malloc, free and morecore from the empty heap, free and live blocks
      tile the memory obtained from sbrk, and no two free blocks are adjacent. */
  lemma {:induction false} EveryRunTiles(base: nat, run: seq<Heap>, i: nat)
    requires i < |run| && base < run[0].top && run[0] == Heap([], map[], {}, run[0].top)
    requires forall k :: 0 < k < |run| ==> HeapStep(run[k - 1], run[k])
    ensures HeapOk(base, run[i])
    ensures forall u :: u in run[i].arena ==> InFree(run[i].free, u) != InLive(run[i].live, u)
    ensures forall j :: 0 < j < |run[i].free| ==> run[i].free[j - 1].End() < run[i].free[j].a
  {
    hide HeapStep;
    if i > 0 {
      EveryRunTiles(base, run, i - 1);
      hide HeapOk;
      HeapStepOk(base, run[i - 1], run[i]);
    }
    NothingAdjacent(base, run[i]);
    forall u | u in run[i].arena
      ensures InFree(run[i].free, u) != InLive(run[i].live, u)
    {
      Tiling(base, run[i], u);
    }
  }

  lemma NothingAdjacent(base: nat, h: Heap)
    requires HeapOk(base, h)
    ensures forall j :: 0 < j < |h.free| ==> h.free[j - 1].End() < h.free[j].a
  {
  }

  lemma BelowAll(base: nat, h: Heap, bp: nat)
    requires HeapOk(base, h)
    ensures forall i :: 0 <= i < |h.free| ==> (i < Below(h.free, bp) <==> h.free[i].a < bp)
    ensures Separated(base, h.free)
  {
    forall i | 0 <= i < |h.free|
      ensures i < Below(h.free, bp) <==> h.free[i].a < bp
    {
      BelowSplits(base, h.free, bp, i);
    }
  }

  class Allocator {
    const base: nat
    var mem: map<nat, Header>
    var freep: nat
    ghost var h: Heap
    ghost var at: nat
    /** The process's size, in units, and the units that are mapped. */
    var brk: nat
    ghost var given: set<nat>

    ghost function Memory(): Space
      reads this
    {
      Space(brk, given)
    }

    /** The memory that the allocator takes for its own is the process's. */
    ghost predicate Backed()
      reads this
    {
      Backs(Memory(), base, h.arena)
    }

    ghost predicate Valid()
      reads this
    {
      && 0 < base && HeapOk(base, h) && LiveHeaders(mem, h.live) && SpaceOk(Memory())
      && (freep == 0 ==> h.free == [] && h.live == map[])
      && (freep != 0 ==> Ready())
    }

    ghost predicate Ready()
      reads this
    {
      Ring(mem, base, h.free) && at <= |h.free| && freep == Node(base, h.free, at)
    }

    /** A program as exec starts it, with `base` in its data. */
    constructor (base: nat, brk: nat)
      requires 0 < base < brk <= USER_END
      ensures Valid() && Backed() && this.base == base && freep == 0 && h == Heap([], map[], {}, brk)
      ensures Memory() == Space(brk, Interval(0, brk))
    {
      this.base, mem, freep, h, at := base, map[], 0, Heap([], map[], {}, brk), 0;
      this.brk, given := brk, Interval(0, brk);
    }

    /** The search loop of free(), umalloc.c:30-32: it stops at the node below `bp`. */
    method FindPlace(bp: nat) returns (p: nat)
      requires Valid() && freep != 0 && base < bp
      requires forall i :: 0 <= i < |h.free| ==> h.free[i].a != bp
      ensures p == Node(base, h.free, Below(h.free, bp))
    {
      hide Below, HeapOk, LiveHeaders, SpaceOk;
      ghost var free := h.free;
      ghost var t := Below(free, bp);
      ghost var k: nat := at;
      BelowAll(base, h, bp);
      p := freep;
      while !(bp > p && bp < At(mem, p).ptr)
        invariant k <= |free| && p == Node(base, free, k)
        decreases if k <= t then t - k else t + |free| + 1 - k
      {
        assert At(mem, p).ptr == Succ(base, free, k);
        if p >= At(mem, p).ptr && (bp > p || bp < At(mem, p).ptr) {
          break;
        }
        p := At(mem, p).ptr;
        k := if k == |free| then 0 else k + 1;
      }
      assert At(mem, p).ptr == Succ(base, free, k);
    }

    /** umalloc.c:33-42. */
    method Join(p: nat, bp: nat)
      modifies this`mem
      ensures mem == Joined(old(mem), p, bp)
    {
      if bp + At(mem, bp).size == At(mem, p).ptr {
        var next := At(mem, p).ptr;
        mem := mem[bp := Header(At(mem, next).ptr, At(mem, bp).size + At(mem, next).size)];
      } else {
        mem := mem[bp := At(mem, bp).(ptr := At(mem, p).ptr)];
      }
      if p + At(mem, p).size == bp {
        mem := mem[p := Header(At(mem, bp).ptr, At(mem, p).size + At(mem, bp).size)];
      } else {
        mem := mem[p := At(mem, p).(ptr := bp)];
      }
    }

    /** free(), umalloc.c:24-44. */
    method Free(ap: nat)
      requires Valid() && ap >= 1 && ap - 1 in h.live
      modifies this
      ensures Valid() && freep != 0 && h == Freed(old(h), ap - 1) && Memory() == old(Memory())
    {
      hide HeapOk, Below, Ring, LiveHeaders, Joined, Freed;
      var bp := ap - 1;
      FreeEffect(mem, base, h, bp);
      var p := FindPlace(bp);
      Join(p, bp);
      freep, at, h := p, Below(h.free, bp), Freed(h, bp);
    }

    /** The program storing into a block it holds. */
    method Store(c: nat, x: nat, w: Header)
      requires Valid() && c in h.live && c < x < c + h.live[c]
      modifies this`mem
      ensures Valid() && mem == old(mem)[x := w]
    {
      PayloadIsNoHeader(mem, base, h, c, x, w);
      hide HeapOk, Ring, LiveHeaders;
      mem := mem[x := w];
    }

    /** sys_sbrk and growproc, sysproc.c:45-56 and proc.c:107-123. */
    method Sbrk(arg: int, f: Frames) returns (addr: int)
      modifies this`brk, this`given
      ensures Memory() == AfterSbrk(old(Memory()), arg, f)
      ensures addr == if SbrkFails(old(brk), arg, f) then -1 else old(brk)
    {
      addr := if SbrkFails(brk, arg, f) then -1 else brk;
      ghost var q := AfterSbrk(Memory(), arg, f);
      var to := brk + arg / HEADER_BYTES;
      given := q.given;
      if addr != -1 && to >= 0 {
        brk := to;
      }
    }

    /** morecore(), umalloc.c:46-61. The block it builds is the process's memory exactly if sbrk
        was asked for all of it and mapped it. */
    method Morecore(nu: nat, f: Frames) returns (r: nat)
      requires Valid() && freep != 0 && nu >= 1 && h.top <= brk
      modifies this
      ensures Valid() && freep != 0
      ensures Memory() == AfterSbrk(old(Memory()), SbrkArgument(Core(nu)), f)
      ensures old(Backed()) && r != 0 ==>
                (Backed() <==> SbrkArgument(Core(nu)) == HEADER_BYTES * Core(nu) && f == Enough)
      ensures old(Backed()) && r == 0 ==> (Backed() <==> old(brk) + SbrkArgument(Core(nu)) / HEADER_BYTES != 0)
      ensures r == 0 <==> SbrkFails(old(brk), SbrkArgument(Core(nu)), f)
      ensures r == 0 ==> h == old(h) && at == old(at) && freep == old(freep) && mem == old(mem)
      ensures r != 0 ==> r == freep && h == Grown(old(h), old(brk), Core(nu)) && !NoFit(h.free, nu)
    {
      hide HeapOk, Ring, LiveHeaders, Obtained, Freed, NoFit, Node, AfterSbrk, SbrkArgument, SbrkFails, Backs, SpaceOk;
      var n := Core(nu);
      GrownArena(base, h, brk, n);
      if Backed() {
        SbrkExact(base, h, Memory(), n, f);
      }
      CoreEffect(mem, base, h, brk, nu);
      var core := Sbrk(SbrkArgument(n), f);
      if core == -1 {
        return 0;
      }
      mem := mem[core := At(mem, core).(size := n)];
      h := Obtained(h, core, n);
      Free(core + 1);
      r := freep;
    }

    /** umalloc.c:76-83. */
    method Carve(prevp: nat, p: nat, n: nat, ghost j: nat) returns (q: nat)
      requires Valid() && freep != 0 && j < |h.free| && 1 <= n <= h.free[j].n
      requires prevp == Node(base, h.free, j) && p == Node(base, h.free, j + 1)
      modifies this
      ensures Valid() && freep == prevp && freep != 0 && q == Take(old(h.free), j, n).1.a
      ensures h == Allocated(old(h), j, n) && Memory() == old(Memory())
    {
      hide HeapOk, Ring, LiveHeaders, SpaceOk;
      CarveEffect(mem, base, h, j, n);
      q := p;
      ghost var before := mem;
      if At(mem, p).size == n {
        mem := mem[prevp := At(mem, prevp).(ptr := At(mem, p).ptr)];
      } else {
        mem := mem[p := At(mem, p).(size := At(mem, p).size - n)];
        q := p + At(mem, p).size;
        mem := mem[q := At(mem, q).(size := n)];
      }
      assert mem == Carved(before, prevp, p, n);
      hide Carved;
      freep, at, h := prevp, j, Allocated(h, j, n);
    }

    /** malloc(), umalloc.c:63-90. It takes a free block that fits, and asks sbrk for more, once,
        only if none does; it fails exactly if sbrk then fails. If it has asked and not failed,
        the heap is still the process's memory and the block has room for the request exactly
        up to 0x7ffffff0 bytes, given the frames; if it has failed, exactly if sbrk was not
        asked to take back the whole process. */
    method Malloc(nbytes: nat, f: Frames) returns (r: nat, ghost asked: bool, ghost j: nat)
      requires Valid() && h.top <= brk && nbytes < UINT
      modifies this
      ensures Valid() && freep != 0
      ensures asked <==> NoFit(old(h).free, Units(nbytes))
      ensures Memory() ==
                if asked then AfterSbrk(old(Memory()), SbrkArgument(Core(Units(nbytes))), f) else old(Memory())
      ensures r == 0 <==> asked && SbrkFails(old(brk), SbrkArgument(Core(Units(nbytes))), f)
      ensures old(Backed()) && !asked ==> Backed()
      ensures old(Backed()) && asked && r != 0 ==> (Backed() <==> Units(nbytes) < 0x1000_0000 && f == Enough)
      ensures old(Backed()) && asked && r != 0 ==>
                (Backed() && Roomy(nbytes) <==> nbytes <= 0x7fff_fff0 && f == Enough)
      ensures old(Backed()) && r == 0 ==> (Backed() <==> Units(nbytes) != 0x2000_0000 - old(brk))
      ensures r == 0 ==> h == old(h)
      ensures r != 0 ==>
                var g := if asked then Grown(old(h), old(brk), Core(Units(nbytes))) else old(h);
                && j < |g.free| && g.free[j].n >= Units(nbytes)
                && h == Allocated(g, j, Units(nbytes)) && r - 1 == Take(g.free, j, Units(nbytes)).1.a
    {
      hide HeapOk, Ring, LiveHeaders, Units, Freed, Obtained, Grown, Allocated, Take, NoFit, Core, Scanned, Node,
        AfterSbrk, SbrkArgument, Roomy, SbrkFails, Backs, SpaceOk, Moved;
      var nunits := Units(nbytes);
      asked, j := false, 0;
      var prevp := freep;
      if prevp == 0 {
        InitBase();
        prevp := freep;
      }
      ghost var k, c := Moved(|h.free|, at, 1), 1;
      MovedNext(|h.free|, at, 0);
      ScannedNone(h.free, at, nunits);
      NextNode(mem, base, h.free, at);
      var p := At(mem, prevp).ptr;
      while true
        invariant Valid() && freep != 0
        invariant asked ==> NoFit(old(h).free, nunits) && !NoFit(h.free, nunits)
        invariant asked ==> !SbrkFails(old(brk), SbrkArgument(Core(nunits)), f)
        invariant h == if asked then Grown(old(h), old(brk), Core(nunits)) else old(h)
        invariant Memory() == if asked then AfterSbrk(old(Memory()), SbrkArgument(Core(nunits)), f) else old(Memory())
        invariant 1 <= c <= |h.free| + 1 && k == Moved(|h.free|, at, c)
        invariant p == Node(base, h.free, k)
        invariant prevp == Node(base, h.free, Moved(|h.free|, at, c - 1))
        invariant Scanned(h.free, at, c, nunits)
        decreases !asked, |h.free| + 1 - c
      {
        MovedNext(|h.free|, at, c - 1);
        SizeOfNode(mem, base, h.free, k);
        if At(mem, p).size >= nunits {
          j := k - 1;
          AllocatedArena(h, j, nunits);
          Fits(h.free, j, nunits);
          var q := Carve(prevp, p, nunits, j);
          if old(Backed()) {
            GrowthBacked(base, old(h), old(Memory()), nbytes, f);
          }
          return q + 1, asked, j;
        }
        ScannedMore(h.free, at, c, nunits);
        if p == freep {
          SameNode(base, h, k, at);
          AllScanned(h.free, at, nunits);
          p := Morecore(nunits, f);
          if p == 0 {
            if old(Backed()) {
              GrowthBacked(base, old(h), old(Memory()), nbytes, f);
            }
            return 0, true, 0;
          }
          asked, k, c := true, at, 0;
          ScannedNone(h.free, at, nunits);
        }
        prevp := p;
        MovedNext(|h.free|, at, c);
        NextNode(mem, base, h.free, k);
        p := At(mem, p).ptr;
        k, c := if k == |h.free| then 0 else k + 1, c + 1;
      }
    }

    /** umalloc.c:70-73. */
    method InitBase()
      requires Valid() && freep == 0
      modifies this`mem, this`freep, this`at
      ensures Valid() && freep == base
    {
      mem := mem[base := Header(base, 0)];
      freep, at := base, 0;
    }
  }
}

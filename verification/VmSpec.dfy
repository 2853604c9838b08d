/** Two-level page tables held in frames of physical memory, and the flat translation that
    they stand for. Addresses are counted in pages. */
module VmSpec {
  import opened Lists
  import opened Sets

  datatype Entry = Absent | Present(frame: nat, w: bool, u: bool)

  /** A frame read as a table of entries, or as plain bytes. */
  datatype Page = Table(entries: seq<Entry>) | Data(bytes: seq<nat>)

  type Memory = map<nat, Page>

  const ENTRIES: nat := 1024
  const PAGES: nat := 0x10_0000
  /** The first page of the kernel's half, KERNBASE. */
  const USER: nat := 0x8_0000

  predicate IsTable(p: Memory, f: nat) {
    f in p && p[f].Table? && |p[f].entries| == ENTRIES
  }

  function EntryAt(p: Memory, f: nat, i: nat): Entry {
    if f in p && p[f].Table? && i < |p[f].entries| then p[f].entries[i] else Absent
  }

  /** What the hardware translates page v to: the flat map behind the two levels. Both must
      allow a write, and an access by the user. */
  function Lookup(p: Memory, d: nat, v: nat): Entry {
    var e := EntryAt(p, d, v / ENTRIES);
    if e.Present? then Through(e, EntryAt(p, e.frame, v % ENTRIES)) else Absent
  }

  function Through(e: Entry, x: Entry): Entry
    requires e.Present?
  {
    if x.Present? then Present(x.frame, e.w && x.w, e.u && x.u) else Absent
  }

  /** Frame f holds the directory d or one of its tables. */
  ghost predicate Uses(p: Memory, d: nat, f: nat) {
    f == d || exists i :: 0 <= i < ENTRIES && TableOf(p, d, i, f)
  }

  predicate TableOf(p: Memory, d: nat, i: nat, f: nat) {
    EntryAt(p, d, i).Present? && EntryAt(p, d, i).frame == f
  }

  /** A directory whose tables are frames of their own. */
  ghost predicate Space(p: Memory, d: nat) {
    && IsTable(p, d)
    && (forall i: nat, f: nat :: i < ENTRIES && TableOf(p, d, i, f) ==>
          f != d && IsTable(p, f) && EntryAt(p, d, i) == Present(f, true, true))
    && (forall i: nat, j: nat, f: nat :: i < j < ENTRIES && TableOf(p, d, i, f) ==> !TableOf(p, d, j, f))
  }

  function NoEntries(): seq<Entry> {
    seq(ENTRIES, _ => Absent)
  }

  // ----------------------------------------------------------------- writes

  /** walkpgdir's new table t for directory slot i. */
  function WithTable(p: Memory, d: nat, i: nat, t: nat): Memory
    requires IsTable(p, d) && i < ENTRIES
  {
    p[t := Table(NoEntries())][d := Table(p[d].entries[i := Present(t, true, true)])]
  }

  lemma NewTable(p: Memory, d: nat, i: nat, t: nat)
    requires Space(p, d) && i < ENTRIES && EntryAt(p, d, i).Absent? && !Uses(p, d, t)
    ensures Space(WithTable(p, d, i, t), d)
    ensures TableOf(WithTable(p, d, i, t), d, i, t)
    ensures forall f: nat :: Uses(WithTable(p, d, i, t), d, f) <==> Uses(p, d, f) || f == t
    ensures forall v: nat :: v < PAGES ==> Lookup(WithTable(p, d, i, t), d, v) == Lookup(p, d, v)
  {
    var q := WithTable(p, d, i, t);
    forall j: nat, f: nat | j < ENTRIES
      ensures TableOf(q, d, j, f) <==> if j == i then f == t else TableOf(p, d, j, f)
    {
    }
    assert forall j: nat :: j < ENTRIES ==> !TableOf(p, d, j, t);
    assert forall f: nat :: f != t && f != d ==> (f in q <==> f in p) && (f in p ==> q[f] == p[f]);
    hide EntryAt;
    forall v: nat | v < PAGES
      ensures Lookup(q, d, v) == Lookup(p, d, v)
    {
      NewTableLookup(p, d, i, t, v);
    }
  }

  lemma NewTableLookup(p: Memory, d: nat, i: nat, t: nat, v: nat)
    requires Space(p, d) && i < ENTRIES && EntryAt(p, d, i).Absent? && !Uses(p, d, t) && v < PAGES
    ensures Lookup(WithTable(p, d, i, t), d, v) == Lookup(p, d, v)
  {
    var j := v / ENTRIES;
    assert EntryAt(p, d, j).Present? ==> TableOf(p, d, j, EntryAt(p, d, j).frame);
  }

  /** A store to the entry for page v. */
  function WithEntry(p: Memory, d: nat, v: nat, e: Entry): Memory
    requires Space(p, d) && v < PAGES && EntryAt(p, d, v / ENTRIES).Present?
  {
    var t := EntryAt(p, d, v / ENTRIES).frame;
    assert TableOf(p, d, v / ENTRIES, t);
    p[t := Table(p[t].entries[v % ENTRIES := e])]
  }

  lemma SetEntry(p: Memory, d: nat, v: nat, e: Entry)
    requires Space(p, d) && v < PAGES && EntryAt(p, d, v / ENTRIES).Present?
    ensures Space(WithEntry(p, d, v, e), d)
    ensures forall f: nat :: Uses(WithEntry(p, d, v, e), d, f) <==> Uses(p, d, f)
    ensures forall w: nat :: w < PAGES ==>
              Lookup(WithEntry(p, d, v, e), d, w) == if w == v then e else Lookup(p, d, w)
  {
    var q := WithEntry(p, d, v, e);
    var t := EntryAt(p, d, v / ENTRIES).frame;
    assert TableOf(p, d, v / ENTRIES, t);
    forall j: nat, f: nat
      ensures TableOf(q, d, j, f) <==> TableOf(p, d, j, f)
    {
    }
    hide EntryAt;
    forall w: nat | w < PAGES
      ensures Lookup(q, d, w) == if w == v then e else Lookup(p, d, w)
    {
      SetEntryLookup(p, d, v, e, w);
    }
  }

  lemma SetEntryLookup(p: Memory, d: nat, v: nat, e: Entry, w: nat)
    requires Space(p, d) && v < PAGES && EntryAt(p, d, v / ENTRIES).Present? && w < PAGES
    ensures Lookup(WithEntry(p, d, v, e), d, w) == if w == v then e else Lookup(p, d, w)
  {
    var i, j := v / ENTRIES, w / ENTRIES;
    assert v == i * ENTRIES + v % ENTRIES && w == j * ENTRIES + w % ENTRIES;
    var t := EntryAt(p, d, i).frame;
    assert TableOf(p, d, i, t);
    if EntryAt(p, d, j).Present? {
      assert TableOf(p, d, j, EntryAt(p, d, j).frame);
      assert i != j ==> EntryAt(p, d, j).frame != t;
    }
  }

  /** Writing a frame that the tables do not use changes no translation. */
  lemma OtherFrame(p: Memory, d: nat, g: nat, page: Page)
    requires Space(p, d) && !Uses(p, d, g)
    ensures Space(p[g := page], d)
    ensures forall f: nat :: Uses(p[g := page], d, f) <==> Uses(p, d, f)
    ensures forall v: nat :: v < PAGES ==> Lookup(p[g := page], d, v) == Lookup(p, d, v)
  {
    var q := p[g := page];
    SameTables(p, q, d);
  }

  /** Translations depend only on the directory and its tables. */
  lemma SameTables(p: Memory, q: Memory, d: nat)
    requires Space(p, d)
    requires forall f: nat :: f in p && Uses(p, d, f) ==> f in q && q[f] == p[f]
    ensures Space(q, d)
    ensures forall f: nat :: Uses(q, d, f) <==> Uses(p, d, f)
    ensures forall v: nat :: v < PAGES ==> Lookup(q, d, v) == Lookup(p, d, v)
  {
    assert Uses(p, d, d);
    forall j: nat, f: nat
      ensures TableOf(q, d, j, f) <==> TableOf(p, d, j, f)
    {
    }
    forall v: nat | v < PAGES
      ensures Lookup(q, d, v) == Lookup(p, d, v)
    {
      var j := v / ENTRIES;
      if EntryAt(p, d, j).Present? {
        var f := EntryAt(p, d, j).frame;
        assert TableOf(p, d, j, f) && Uses(p, d, f);
      }
    }
  }

  // -------------------------------------------------------------- ownership

  /** kfree takes frames from the kernel's end to PHYSTOP. */
  const TOP: nat := 0xE000

  predicate Valid(lo: nat, f: nat) {
    0 < lo <= f < TOP
  }

  ghost predicate FreeOk(lo: nat, p: Memory, free: seq<nat>, d: nat) {
    NoneTwice(free) && forall f :: f in free ==> f in p && Valid(lo, f) && !Uses(p, d, f)
  }

  predicate Maps(p: Memory, d: nat, v: nat, f: nat) {
    v < USER && Lookup(p, d, v).Present? && Lookup(p, d, v).frame == f
  }

  /** Each user page has a frame to itself, which is neither free nor a table. */
  ghost predicate UserOk(lo: nat, p: Memory, free: seq<nat>, d: nat) {
    && (forall v: nat, f: nat :: Maps(p, d, v, f) ==> f in p && Valid(lo, f) && !Uses(p, d, f) && f !in free)
    && (forall v: nat, w: nat, f: nat :: Maps(p, d, v, f) && Maps(p, d, w, f) ==> v == w)
  }

  ghost predicate Sep(lo: nat, p: Memory, free: seq<nat>, d: nat) {
    && Space(p, d) && FreeOk(lo, p, free, d) && UserOk(lo, p, free, d)
    && forall f: nat :: Uses(p, d, f) ==> Valid(lo, f) && f in p
  }

  /** The frames of an address space: its tables and its user pages. */
  ghost predicate Owns(p: Memory, d: nat, f: nat) {
    Uses(p, d, f) || exists v: nat :: Maps(p, d, v, f)
  }

  // ---------------------------------------------------------------- mapping

  /** How far page x lies past page a, around the end of the address space. */
  function Off(a: nat, x: nat): nat
    requires a < PAGES && x < PAGES
  {
    if x >= a then x - a else x + PAGES - a
  }

  /** k pages from a on are mapped to the frames from pa on, and no other page is changed. */
  ghost predicate Mapped(p: Memory, q: Memory, d: nat, a: nat, k: nat, pa: nat, w: bool, u: bool)
    requires a < PAGES
  {
    forall x: nat :: x < PAGES ==>
      Lookup(q, d, x) == if Off(a, x) < k then Present((pa + Off(a, x)) % PAGES, w, u) else Lookup(p, d, x)
  }

  /** The directory slots that have a table. */
  ghost function Slots(p: Memory, d: nat): set<nat> {
    set i: nat | i < ENTRIES && EntryAt(p, d, i).Present?
  }

  /** One of the k pages from a on lies in slot i. */
  ghost predicate Touches(a: nat, k: nat, i: nat)
    requires a < PAGES
  {
    exists x: nat :: x < PAGES && Off(a, x) < k && x / ENTRIES == i
  }

  /** The directory has grown by the first n free frames, and nothing else has changed. */
  ghost predicate Grown(p: Memory, free: seq<nat>, q: Memory, rest: seq<nat>, d: nat, n: nat) {
    && n <= |free| && rest == free[n..] && Space(q, d) && q.Keys == p.Keys
    && |Slots(q, d)| == |Slots(p, d)| + n && Slots(p, d) <= Slots(q, d)
    && (forall f: nat :: Uses(q, d, f) <==> Uses(p, d, f) || f in free[..n])
    && (forall f: nat :: f in p && !Uses(q, d, f) ==> f in q && q[f] == p[f])
  }

  lemma GrownNot(p: Memory, free: seq<nat>, d: nat)
    requires Space(p, d)
    ensures Grown(p, free, p, free, d, 0)
  {
    assert free[0..] == free;
  }

  lemma GrownTwice(p: Memory, free: seq<nat>, q: Memory, mid: seq<nat>, r: Memory, rest: seq<nat>, d: nat, n: nat,
                   m: nat)
    requires Grown(p, free, q, mid, d, n) && Grown(q, mid, r, rest, d, m)
    ensures Grown(p, free, r, rest, d, n + m)
  {
    hide Uses, Space, Slots;
    assert free[n..][m..] == free[n + m..];
    assert free[..n + m] == free[..n] + free[n..][..m];
    forall f: nat | f in p && !Uses(r, d, f)
      ensures f in r && r[f] == p[f]
    {
      assert !Uses(q, d, f);
    }
  }

  lemma GrownTable(lo: nat, p: Memory, free: seq<nat>, d: nat, i: nat)
    requires Space(p, d) && FreeOk(lo, p, free, d) && free != [] && i < ENTRIES && EntryAt(p, d, i).Absent?
    ensures Grown(p, free, WithTable(p, d, i, free[0]), free[1..], d, 1)
  {
    NewTable(p, d, i, free[0]);
    assert free[..1] == [free[0]];
    assert Slots(WithTable(p, d, i, free[0]), d) == Slots(p, d) + {i};
    hide Uses, Space, EntryAt;
    assert Uses(WithTable(p, d, i, free[0]), d, d) by {
      UsesSelf(WithTable(p, d, i, free[0]), d);
    }
  }

  lemma UsesSelf(p: Memory, d: nat)
    ensures Uses(p, d, d)
  {
  }

  lemma GrownEntry(p: Memory, free: seq<nat>, d: nat, v: nat, e: Entry)
    requires Space(p, d) && v < PAGES && EntryAt(p, d, v / ENTRIES).Present?
    ensures Grown(p, free, WithEntry(p, d, v, e), free, d, 0)
    ensures Slots(WithEntry(p, d, v, e), d) == Slots(p, d)
  {
    SetEntry(p, d, v, e);
    assert free[0..] == free;
    var t := EntryAt(p, d, v / ENTRIES).frame;
    assert TableOf(p, d, v / ENTRIES, t) && Uses(p, d, t) && Uses(p, d, d);
    assert Slots(WithEntry(p, d, v, e), d) == Slots(p, d);
  }

  /** Growing leaves the remaining free frames free. */
  lemma GrownFree(lo: nat, p: Memory, free: seq<nat>, q: Memory, rest: seq<nat>, d: nat, n: nat)
    requires FreeOk(lo, p, free, d) && Grown(p, free, q, rest, d, n)
    ensures FreeOk(lo, q, rest, d)
  {
    hide Uses, Space;
    forall f | f in rest
      ensures f in q && Valid(lo, f) && !Uses(q, d, f)
    {
      var i :| 0 <= i < |rest| && rest[i] == f;
      assert free[n + i] == f && f in free;
    }
  }

  // -------------------------------------------------------------- unmapping

  /** deallocuvm's step: the frame of page v is freed and its entry cleared. */
  lemma Unmap(lo: nat, p: Memory, free: seq<nat>, d: nat, v: nat, junk: Page)
    requires Sep(lo, p, free, d) && v < USER && Lookup(p, d, v).Present?
    ensures var g := Lookup(p, d, v).frame;
            && Valid(lo, g) && g in p && g !in free && !Uses(p, d, g)
            && Space(p[g := junk], d) && EntryAt(p[g := junk], d, v / ENTRIES).Present?
            && var q := WithEntry(p[g := junk], d, v, Absent);
               && Sep(lo, q, [g] + free, d) && Cleared(p, q, d, v) && OnlyFreed(p, q, d, g)
  {
    var g := Lookup(p, d, v).frame;
    assert Maps(p, d, v, g);
    OtherFrame(p, d, g, junk);
    UsesSelf(p, d);
    var q0 := p[g := junk];
    SetEntry(q0, d, v, Absent);
    var q := WithEntry(q0, d, v, Absent);
    UnmapRest(p, q0, q, d, v, g);
    UnmapSep(lo, p, free, q, d, v, g);
  }

  ghost predicate Cleared(p: Memory, q: Memory, d: nat, v: nat) {
    forall w: nat :: w < PAGES ==> Lookup(q, d, w) == if w == v then Absent else Lookup(p, d, w)
  }

  /** The directory itself is as it was, and so is every frame but g and the tables. */
  ghost predicate OnlyFreed(p: Memory, q: Memory, d: nat, g: nat) {
    && q.Keys == p.Keys && d in p && q[d] == p[d]
    && (forall f: nat :: Uses(q, d, f) <==> Uses(p, d, f))
    && (forall f: nat :: f in p && f != g && !Uses(p, d, f) ==> q[f] == p[f])
  }

  lemma UnmapRest(p: Memory, q0: Memory, q: Memory, d: nat, v: nat, g: nat)
    requires Space(p, d) && g in p && q0.Keys == p.Keys && q0 == p[g := q0[g]] && !Uses(p, d, g) && v < PAGES
    requires Space(q0, d) && EntryAt(q0, d, v / ENTRIES).Present? && q == WithEntry(q0, d, v, Absent)
    requires forall f: nat :: Uses(q, d, f) <==> Uses(p, d, f)
    ensures OnlyFreed(p, q, d, g)
  {
    UsesSelf(p, d);
    var t := EntryAt(q0, d, v / ENTRIES).frame;
    assert TableOf(q0, d, v / ENTRIES, t) && TableOf(p, d, v / ENTRIES, t);
    assert Uses(p, d, t);
  }

  lemma UnmapSep(lo: nat, p: Memory, free: seq<nat>, q: Memory, d: nat, v: nat, g: nat)
    requires Sep(lo, p, free, d) && Maps(p, d, v, g) && Space(q, d) && Cleared(p, q, d, v) && OnlyFreed(p, q, d, g)
    ensures Sep(lo, q, [g] + free, d)
  {
    hide Space, Lookup, Uses;
    assert forall w: nat, f: nat :: Maps(q, d, w, f) <==> Maps(p, d, w, f) && w != v;
    hide Maps;
    assert g !in free;
  }

  predicate HasTable(p: Memory, d: nat, v: nat) {
    EntryAt(p, d, v / ENTRIES).Present?
  }

  /** The pages that deallocuvm's loop looks at from page a on. Where there is no table it goes
      on 1024 pages further. */
  ghost predicate Visits(p: Memory, d: nat, a: nat, end: nat, v: nat)
    decreases end - a
  {
    && a < end
    && if HasTable(p, d, a) then v == a || Visits(p, d, a + 1, end, v) else Visits(p, d, a + ENTRIES, end, v)
  }

  ghost predicate TableBefore(p: Memory, d: nat, a: nat, v: nat) {
    exists t: nat :: a / ENTRIES <= t < v / ENTRIES && EntryAt(p, d, t).Present?
  }

  /** A page with a table is looked at if and only if it lies at least as far into its table as
      the start does into its own, or there is a table between the two. */
  lemma {:induction false} VisitsIff(p: Memory, d: nat, a: nat, end: nat, v: nat)
    requires a <= v < end
    ensures Visits(p, d, a, end, v) <==> HasTable(p, d, v) && (a % ENTRIES <= v % ENTRIES || TableBefore(p, d, a, v))
    decreases end - a
  {
    hide EntryAt;
    if HasTable(p, d, a) {
      if v > a {
        VisitsIff(p, d, a + 1, end, v);
        StepOne(p, d, a, v);
      }
    } else if a + ENTRIES <= v {
      VisitsIff(p, d, a + ENTRIES, end, v);
      StepTable(p, d, a, v);
    } else {
      VisitsNot(p, d, a + ENTRIES, end, v);
      assert v / ENTRIES <= a / ENTRIES + 1;
    }
  }

  lemma StepOne(p: Memory, d: nat, a: nat, v: nat)
    requires HasTable(p, d, a) && a < v
    ensures (a % ENTRIES <= v % ENTRIES || TableBefore(p, d, a, v)) <==>
            ((a + 1) % ENTRIES <= v % ENTRIES || TableBefore(p, d, a + 1, v))
  {
    var t := a / ENTRIES;
    if t < v / ENTRIES {
      assert TableBefore(p, d, a, v);
      if (a + 1) / ENTRIES == t {
        assert TableBefore(p, d, a + 1, v);
      }
    }
  }

  lemma StepTable(p: Memory, d: nat, a: nat, v: nat)
    requires !HasTable(p, d, a) && a + ENTRIES <= v
    ensures TableBefore(p, d, a, v) <==> TableBefore(p, d, a + ENTRIES, v)
  {
    assert (a + ENTRIES) / ENTRIES == a / ENTRIES + 1;
    if t: nat :| a / ENTRIES <= t < v / ENTRIES && EntryAt(p, d, t).Present? {
      assert t != a / ENTRIES;
    }
  }

  lemma {:induction false} VisitsNot(p: Memory, d: nat, a: nat, end: nat, v: nat)
    requires v < a
    ensures !Visits(p, d, a, end, v)
    decreases end - a
  {
    if a < end {
      if HasTable(p, d, a) {
        VisitsNot(p, d, a + 1, end, v);
      } else {
        VisitsNot(p, d, a + ENTRIES, end, v);
      }
    }
  }

  /** Every mapped page from a up to end is looked at. */
  ghost predicate MissesNone(p: Memory, d: nat, a: nat, end: nat) {
    forall v: nat :: a <= v < end && Lookup(p, d, v).Present? ==> Visits(p, d, a, end, v)
  }

  /** A start on a 4MB boundary misses nothing. */
  lemma AlignedMissesNone(p: Memory, d: nat, a: nat, end: nat)
    requires a % ENTRIES == 0
    ensures MissesNone(p, d, a, end)
  {
    forall v: nat | a <= v < end && Lookup(p, d, v).Present?
      ensures Visits(p, d, a, end, v)
    {
      VisitsIff(p, d, a, end, v);
    }
  }

  /** Nor does any start in user memory that is mapped from page 0 without gaps. */
  lemma ContiguousMissesNone(p: Memory, d: nat, a: nat, end: nat)
    requires forall v: nat, w: nat :: v <= w < end && Lookup(p, d, w).Present? ==> Lookup(p, d, v).Present?
    ensures MissesNone(p, d, a, end)
  {
    forall v: nat | a <= v < end && Lookup(p, d, v).Present?
      ensures Visits(p, d, a, end, v)
    {
      VisitsIff(p, d, a, end, v);
      assert Lookup(p, d, a).Present?;
      if a / ENTRIES < v / ENTRIES {
        assert TableBefore(p, d, a, v);
      }
    }
  }

  /** Exactly when deallocuvm misses a mapped page: the start lies further into its table than
      the page, and no table stands between them. */
  lemma MissedIff(p: Memory, d: nat, a: nat, end: nat)
    ensures MissesNone(p, d, a, end) <==>
              forall v: nat :: a <= v < end && v % ENTRIES < a % ENTRIES && Lookup(p, d, v).Present? ==>
                TableBefore(p, d, a, v)
  {
    forall v: nat | a <= v < end
      ensures Lookup(p, d, v).Present? ==>
                (Visits(p, d, a, end, v) <==> a % ENTRIES <= v % ENTRIES || TableBefore(p, d, a, v))
    {
      VisitsIff(p, d, a, end, v);
    }
  }

  /** It does happen: page 1024 is mapped, and a deallocation from page 1 goes to page 1025. */
  lemma MissesOne()
    ensures var top := Table(NoEntries()[1 := Present(2, true, true)]);
            var table := Table(NoEntries()[0 := Present(3, true, true)]);
            var p := map[1 := top, 2 := table, 3 := Data([])];
            Space(p, 1) && !MissesNone(p, 1, 1, 2048)
  {
    var top := Table(NoEntries()[1 := Present(2, true, true)]);
    var table := Table(NoEntries()[0 := Present(3, true, true)]);
    var p := map[1 := top, 2 := table, 3 := Data([])];
    assert forall i: nat, f: nat :: i < ENTRIES && TableOf(p, 1, i, f) ==> i == 1 && f == 2;
    assert Lookup(p, 1, 1024) == Present(3, true, true);
    VisitsIff(p, 1, 1, 2048, 1024);
    assert !TableBefore(p, 1, 1, 1024) by {
      assert EntryAt(p, 1, 0).Absent?;
    }
  }

  /** Some page of `done` was mapped to f. */
  ghost predicate FreedBy(p: Memory, d: nat, done: set<nat>, f: nat) {
    exists v: nat :: v in done && Maps(p, d, v, f)
  }

  /** The pages of `done` are unmapped and their frames are free; the rest is as it was. */
  ghost predicate Released(lo: nat, p: Memory, free: seq<nat>, q: Memory, rest: seq<nat>, d: nat, done: set<nat>) {
    && Sep(lo, q, rest, d) && q.Keys == p.Keys && d in p && q[d] == p[d]
    && (forall v: nat :: v < PAGES ==> Lookup(q, d, v) == if v in done then Absent else Lookup(p, d, v))
    && (forall f: nat :: Uses(q, d, f) <==> Uses(p, d, f))
    && (forall f: nat :: f in rest <==> f in free || FreedBy(p, d, done, f))
    && (forall f: nat :: f in p && !Uses(p, d, f) && !FreedBy(p, d, done, f) ==> q[f] == p[f])
  }

  lemma ReleasedNone(lo: nat, p: Memory, free: seq<nat>, d: nat)
    requires Sep(lo, p, free, d)
    ensures Released(lo, p, free, p, free, d, {})
  {
    hide Uses, Lookup;
  }

  lemma ReleasedAbsent(lo: nat, p: Memory, free: seq<nat>, q: Memory, rest: seq<nat>, d: nat, done: set<nat>, v: nat)
    requires Released(lo, p, free, q, rest, d, done) && v !in done && v < USER && Lookup(q, d, v).Absent?
    ensures Released(lo, p, free, q, rest, d, done + {v})
  {
    hide Sep, Uses, Lookup;
    forall f: nat
      ensures FreedBy(p, d, done + {v}, f) <==> FreedBy(p, d, done, f)
    {
    }
  }

  lemma ReleasedMore(lo: nat, p: Memory, free: seq<nat>, q: Memory, rest: seq<nat>, r: Memory, d: nat,
                     done: set<nat>, v: nat)
    requires Released(lo, p, free, q, rest, d, done) && v !in done && v < USER && Lookup(q, d, v).Present?
    requires var g := Lookup(q, d, v).frame; Cleared(q, r, d, v) && OnlyFreed(q, r, d, g) && Sep(lo, r, [g] + rest, d)
    ensures Released(lo, p, free, r, [Lookup(q, d, v).frame] + rest, d, done + {v})
  {
    hide Sep, Uses, Lookup;
    var g := Lookup(q, d, v).frame;
    assert Lookup(q, d, v) == Lookup(p, d, v);
    forall f: nat
      ensures FreedBy(p, d, done + {v}, f) <==> FreedBy(p, d, done, f) || f == g
    {
      if f == g {
        assert v in done + {v} && Maps(p, d, v, f);
      } else if FreedBy(p, d, done, f) {
        var w: nat :| w in done && Maps(p, d, w, f);
        assert w in done + {v} && Maps(p, d, w, f);
      }
    }
    hide FreedBy;
  }

  // ------------------------------------------------------------ conservation

  /** Free, or in use by the space: what a space and the free list have between them. */
  ghost predicate Total(p: Memory, free: seq<nat>, d: nat, f: nat) {
    f in free || Owns(p, d, f)
  }

  ghost predicate ListOk(lo: nat, p: Memory, free: seq<nat>) {
    NoneTwice(free) && forall f :: f in free ==> f in p && Valid(lo, f)
  }

  /** With every user page released, the tables are all that is left to free. */
  lemma ReleasedAll(lo: nat, p: Memory, free: seq<nat>, q: Memory, rest: seq<nat>, d: nat, done: set<nat>)
    requires Released(lo, p, free, q, rest, d, done)
    requires forall v: nat :: v in done <==> Visits(p, d, 0, USER, v)
    ensures ListOk(lo, q, rest) && Space(q, d)
    ensures forall f: nat :: Uses(q, d, f) ==> f !in rest && Valid(lo, f) && f in q
    ensures forall f: nat :: f in rest || Uses(q, d, f) <==> Total(p, free, d, f)
    ensures forall f: nat :: f in p && !Owns(p, d, f) ==> f in q && q[f] == p[f]
  {
    hide Lookup, Uses, Visits, Space;
    AllVisited(p, d, done);
    forall f: nat
      ensures FreedBy(p, d, done, f) <==> exists v: nat :: Maps(p, d, v, f)
    {
      if v: nat :| Maps(p, d, v, f) {
        assert v in done;
      }
    }
  }

  lemma AllVisited(p: Memory, d: nat, done: set<nat>)
    requires forall v: nat :: v in done <==> Visits(p, d, 0, USER, v)
    ensures forall v: nat, f: nat :: Maps(p, d, v, f) ==> v in done
  {
    hide Visits;
    AlignedMissesNone(p, d, 0, USER);
  }

  /** The first i tables have been freed. */
  ghost predicate TablesFreed(p: Memory, free: seq<nat>, q: Memory, rest: seq<nat>, d: nat, i: nat) {
    && q.Keys == p.Keys && d in q && q[d] == p[d] && NoneTwice(rest)
    && (forall f: nat :: f in rest <==> f in free || FreedTable(p, d, i, f))
    && (forall f: nat :: f in p && !Uses(p, d, f) ==> q[f] == p[f])
  }

  ghost predicate FreedTable(p: Memory, d: nat, i: nat, f: nat) {
    exists j: nat :: j < i && j < ENTRIES && TableOf(p, d, j, f)
  }

  lemma TablesFreedNone(lo: nat, p: Memory, free: seq<nat>, d: nat)
    requires ListOk(lo, p, free) && d in p
    ensures TablesFreed(p, free, p, free, d, 0)
  {
  }

  lemma TablesFreedMore(p: Memory, free: seq<nat>, q: Memory, rest: seq<nat>, d: nat, i: nat, t: nat, junk: Page)
    requires Space(p, d) && TablesFreed(p, free, q, rest, d, i) && i < ENTRIES
    requires TableOf(p, d, i, t) && t !in free
    ensures TablesFreed(p, free, q[t := junk], [t] + rest, d, i + 1) && t != d
  {
    assert !FreedTable(p, d, i, t);
    forall f: nat
      ensures FreedTable(p, d, i + 1, f) <==> FreedTable(p, d, i, f) || f == t
    {
    }
    assert Uses(p, d, t);
  }

  lemma TablesFreedSkip(p: Memory, free: seq<nat>, q: Memory, rest: seq<nat>, d: nat, i: nat)
    requires TablesFreed(p, free, q, rest, d, i) && i < ENTRIES && EntryAt(p, d, i).Absent?
    ensures TablesFreed(p, free, q, rest, d, i + 1)
  {
    forall f: nat
      ensures FreedTable(p, d, i + 1, f) <==> FreedTable(p, d, i, f)
    {
    }
  }

  lemma TablesFreedAll(p: Memory, free: seq<nat>, q: Memory, rest: seq<nat>, d: nat)
    requires Space(p, d) && TablesFreed(p, free, q, rest, d, ENTRIES) && d !in free
    ensures NoneTwice([d] + rest) && forall f: nat :: f in [d] + rest <==> f in free || Uses(p, d, f)
  {
    forall f: nat
      ensures Uses(p, d, f) <==> f == d || FreedTable(p, d, ENTRIES, f)
    {
    }
    assert d !in rest;
  }

  // ------------------------------------------------------- new spaces, growth

  /** A zeroed directory in the first free frame. */
  lemma FreshDir(lo: nat, p: Memory, free: seq<nat>)
    requires ListOk(lo, p, free) && free != []
    ensures var d := free[0];
            var q := p[d := Table(NoEntries())];
            && Space(q, d) && FreeOk(lo, q, free[1..], d)
            && (forall f: nat :: Uses(q, d, f) <==> f == d)
            && (forall v: nat :: v < PAGES ==> Lookup(q, d, v).Absent?)
  {
    var d := free[0];
    var q := p[d := Table(NoEntries())];
    assert forall i: nat, f: nat :: !TableOf(q, d, i, f);
    assert forall f :: f in free[1..] ==> f in free && f != d;
  }

  /** The kernel's half, once complete: low memory at KERNBASE, devices at the top. `data` is
      the first page of the kernel's data. */
  function KernelAt(data: nat, v: nat): Entry {
    if USER <= v < USER + TOP then Present(v - USER, !(USER + 0x100 <= v < data), false)
    else if 0xF_E000 <= v then Present(v, true, false)
    else Absent
  }

  /** The directory slots of the kernel's half: those of low memory and of the devices. */
  function KernelSlots(): set<nat> {
    Interval(512, 568) + Interval(1016, 1024)
  }

  /** A directory, a table for each of those slots: what every address space costs. */
  const SETUP_FRAMES: nat := 65

  lemma KernelSlotsCount()
    ensures |KernelSlots()| + 1 == SETUP_FRAMES
  {
    hide Interval;
  }

  lemma KernelSlotsAre(p: Memory, d: nat, data: nat)
    requires forall v: nat :: v < PAGES ==> Lookup(p, d, v) == KernelAt(data, v)
    requires Slots(p, d) <= KernelSlots()
    ensures Slots(p, d) == KernelSlots()
  {
    hide Interval;
    forall i | i in KernelSlots()
      ensures i in Slots(p, d)
    {
      assert Lookup(p, d, i * ENTRIES) == KernelAt(data, i * ENTRIES);
    }
  }

  /** A new space with only kernel pages owns exactly what was taken from the list. */
  lemma SetupSep(lo: nat, p0: Memory, free0: seq<nat>, p: Memory, q: Memory, rest: seq<nat>, d: nat, n: nat, data: nat)
    requires ListOk(lo, p0, free0) && free0 != [] && d == free0[0] && p == p0[d := Table(NoEntries())]
    requires Grown(p, free0[1..], q, rest, d, n) && FreeOk(lo, q, rest, d)
    requires forall f: nat :: Uses(p, d, f) <==> f == d
    requires forall v: nat :: v < PAGES ==> Lookup(q, d, v) == KernelAt(data, v)
    ensures Sep(lo, q, rest, d) && q.Keys == p0.Keys
    ensures forall f: nat :: Total(q, rest, d, f) <==> f in free0
    ensures forall f: nat :: f in p0 && f !in free0 ==> f in q && q[f] == p0[f]
  {
    hide Uses, Space, Lookup;
    assert d in free0;
    assert forall v: nat, f: nat :: !Maps(q, d, v, f);
    hide Maps;
    assert forall f: nat :: f in free0 <==> f == d || f in free0[1..];
    var tail := free0[1..];
    assert tail == tail[..n] + tail[n..];
    assert forall f: nat :: f in tail <==> f in tail[..n] || f in tail[n..];
  }

  /** Frame g, taken from the free list and filled, has been mapped at v, or else mappages ran
      out of frames for a table and g is in no one's hands. */
  ghost predicate Added(p: Memory, q: Memory, d: nat, v: nat, g: nat, done: bool) {
    forall x: nat :: x < PAGES ==>
      Lookup(q, d, x) == if done && x == v then Present(g, true, true) else Lookup(p, d, x)
  }

  lemma AddedSep(lo: nat, p: Memory, free: seq<nat>, page: Page, q: Memory, rest: seq<nat>, d: nat, v: nat, n: nat,
                 done: bool)
    requires Sep(lo, p, free, d) && free != [] && v < USER && Lookup(p, d, v).Absent?
    requires Grown(p[free[0] := page], free[1..], q, rest, d, n) && FreeOk(lo, q, rest, d)
    requires Added(p, q, d, v, free[0], done)
    requires forall f: nat :: Uses(p[free[0] := page], d, f) <==> Uses(p, d, f)
    ensures Sep(lo, q, rest, d) && q.Keys == p.Keys
    ensures forall f: nat :: Uses(q, d, f) ==> Uses(p, d, f) || (f in free && f != free[0])
    ensures forall f: nat :: f in rest ==> f in free && f != free[0]
    ensures free[0] in q && q[free[0]] == page && !Uses(q, d, free[0])
    ensures forall f: nat :: f in p && f !in free && !Uses(p, d, f) ==> q[f] == p[f]
  {
    hide Uses, Space, Lookup;
    var g, tail := free[0], free[1..];
    assert g in free && forall f: nat :: f in tail ==> f in free && f != g;
    assert forall f: nat :: f in tail[..n] ==> f in tail;
    assert forall f: nat :: f in tail[n..] ==> f in tail;
    forall x: nat, f: nat
      ensures Maps(q, d, x, f) <==> (done && x == v && f == g) || Maps(p, d, x, f)
    {
    }
    hide Maps;
    assert !Uses(q, d, g);
  }

  lemma AddedTotal(lo: nat, p: Memory, free: seq<nat>, page: Page, q: Memory, rest: seq<nat>, d: nat, v: nat,
                   n: nat, done: bool)
    requires Sep(lo, p, free, d) && free != [] && v < USER && Lookup(p, d, v).Absent?
    requires Grown(p[free[0] := page], free[1..], q, rest, d, n)
    requires Added(p, q, d, v, free[0], done)
    requires forall f: nat :: Uses(p[free[0] := page], d, f) <==> Uses(p, d, f)
    ensures forall f: nat :: Total(q, rest, d, f) || (!done && f == free[0]) <==> Total(p, free, d, f)
    ensures !done ==> !Total(q, rest, d, free[0])
  {
    hide Uses, Space, Lookup;
    var g, tail := free[0], free[1..];
    assert free == [g] + tail && tail == tail[..n] + tail[n..];
    assert forall f: nat :: f in free <==> f == g || f in tail[..n] || f in rest;
    forall x: nat, f: nat
      ensures Maps(q, d, x, f) <==> (done && x == v && f == g) || Maps(p, d, x, f)
    {
    }
    assert g in free && g !in tail;
    forall f: nat
      ensures Owns(q, d, f) <==> Owns(p, d, f) || f in tail[..n] || (done && f == g)
    {
      if done && f == g {
        assert Maps(q, d, v, f);
      }
      if x: nat :| Maps(p, d, x, f) {
        assert Maps(q, d, x, f);
      }
    }
    assert !Owns(p, d, g);
  }

  /** Releasing moves frames from the space to the list. */
  lemma ReleasedTotal(lo: nat, p: Memory, free: seq<nat>, q: Memory, rest: seq<nat>, d: nat, done: set<nat>)
    requires Released(lo, p, free, q, rest, d, done)
    ensures forall f: nat :: Total(q, rest, d, f) <==> Total(p, free, d, f)
  {
    hide Sep, Uses, Lookup;
    forall f: nat
      ensures Total(q, rest, d, f) <==> Total(p, free, d, f)
    {
      if v: nat :| Maps(p, d, v, f) {
        assert v !in done ==> Maps(q, d, v, f);
        assert v in done ==> FreedBy(p, d, done, f);
      }
      if v: nat :| Maps(q, d, v, f) {
        assert Maps(p, d, v, f);
      }
    }
  }

  /** Pages a to b have been given fresh frames that hold `page`; no other page has changed. */
  ghost predicate Extended(p: Memory, q: Memory, d: nat, a: nat, b: nat, page: Page) {
    && (forall x: nat :: x < PAGES && !(a <= x < b) ==> Lookup(q, d, x) == Lookup(p, d, x))
    && (forall x: nat :: a <= x < b ==> Holds(q, d, x, page))
  }

  predicate Holds(q: Memory, d: nat, x: nat, page: Page) {
    var e := Lookup(q, d, x);
    e.Present? && e.w && e.u && e.frame in q && q[e.frame] == page
  }

  lemma ExtendedMore(lo: nat, p: Memory, q: Memory, free: seq<nat>, r: Memory, d: nat, a: nat, b: nat, page: Page,
                     g: nat, done: bool)
    requires Extended(p, q, d, a, b, page) && a <= b < USER && Sep(lo, q, free, d) && g in free
    requires Added(q, r, d, b, g, done) && g in r && r[g] == page
    requires r.Keys == q.Keys && forall f: nat :: f in q && f !in free && !Uses(q, d, f) ==> r[f] == q[f]
    ensures Extended(p, r, d, a, if done then b + 1 else b, page)
  {
    hide Uses, Space, Lookup;
    forall x: nat | a <= x < b
      ensures Holds(r, d, x, page)
    {
      assert Holds(q, d, x, page) && Maps(q, d, x, Lookup(q, d, x).frame);
    }
  }

  // ------------------------------------------------------------------ copies

  /** Every frame that was not free is as it was. */
  ghost predicate OnlyFree(p: Memory, free: seq<nat>, q: Memory) {
    q.Keys == p.Keys && forall f: nat :: f in p && f !in free ==> q[f] == p[f]
  }

  /** Another space does not notice what is done with frames that were free. */
  lemma Bystander(lo: nat, p: Memory, free: seq<nat>, q: Memory, par: nat)
    requires Sep(lo, p, free, par) && OnlyFree(p, free, q)
    ensures Space(q, par) && (forall f: nat :: Uses(q, par, f) <==> Uses(p, par, f))
    ensures forall v: nat :: v < PAGES ==> Lookup(q, par, v) == Lookup(p, par, v)
    ensures forall v: nat, f: nat :: Maps(p, par, v, f) ==> f in q && q[f] == p[f]
    ensures forall f: nat :: Owns(q, par, f) <==> Owns(p, par, f)
    ensures forall f: nat :: Owns(p, par, f) ==> f !in free
  {
    assert forall f: nat :: Uses(p, par, f) ==> f !in free;
    SameTables(p, q, par);
    hide Uses, Lookup, Space;
    assert forall v: nat, f: nat :: Maps(q, par, v, f) <==> Maps(p, par, v, f);
  }

  lemma BystanderSep(lo: nat, p: Memory, free: seq<nat>, q: Memory, rest: seq<nat>, par: nat)
    requires Sep(lo, p, free, par) && OnlyFree(p, free, q) && ListOk(lo, q, rest) && forall f :: f in rest ==> f in free
    ensures Sep(lo, q, rest, par)
  {
    Bystander(lo, p, free, q, par);
    hide Uses, Lookup, Space;
    assert forall v: nat, f: nat :: Maps(q, par, v, f) <==> Maps(p, par, v, f);
  }

  /** The first n pages of d hold what the pages of par held, in frames of their own. */
  ghost predicate Copied(p: Memory, q: Memory, par: nat, d: nat, n: nat) {
    forall v: nat :: v < n ==> CopyAt(p, q, par, d, v)
  }

  predicate CopyAt(p: Memory, q: Memory, par: nat, d: nat, v: nat) {
    var e := Lookup(p, par, v);
    e.Present? && e.frame in p && Holds(q, d, v, p[e.frame])
  }

  lemma CopiedMore(lo: nat, p: Memory, q: Memory, free: seq<nat>, r: Memory, par: nat, d: nat, n: nat, g: nat)
    requires Copied(p, q, par, d, n) && n < USER && Sep(lo, q, free, d) && g in free
    requires Lookup(p, par, n).Present? && Lookup(p, par, n).frame in p
    requires Added(q, r, d, n, g, true) && g in r && r[g] == p[Lookup(p, par, n).frame]
    requires r.Keys == q.Keys && forall f: nat :: f in q && f !in free && !Uses(q, d, f) ==> r[f] == q[f]
    ensures Copied(p, r, par, d, n + 1)
  {
    hide Uses, Space, Lookup;
    forall v: nat | v < n + 1
      ensures CopyAt(p, r, par, d, v)
    {
      if v < n {
        assert CopyAt(p, q, par, d, v) && Maps(q, d, v, Lookup(q, d, v).frame);
      }
    }
  }

  lemma OnlyFreeMore(p: Memory, free: seq<nat>, q: Memory, list: seq<nat>, r: Memory, d: nat)
    requires OnlyFree(p, free, q) && r.Keys == q.Keys && forall f: nat :: Total(q, list, d, f) ==> f in free
    requires forall f: nat :: f in q && f !in list && !Uses(q, d, f) ==> r[f] == q[f]
    ensures OnlyFree(p, free, r)
  {
    hide Uses, Lookup;
    forall f: nat | f in p && f !in free
      ensures r[f] == p[f]
    {
      assert !Total(q, list, d, f);
    }
  }

  // ----------------------------------------------------- what a space costs

  /** The slots of pages a to b that have no table yet. */
  ghost function NewSlots(p: Memory, d: nat, a: nat, b: nat): set<nat> {
    set i: nat | i < ENTRIES && a < b && a / ENTRIES <= i <= (b - 1) / ENTRIES && EntryAt(p, d, i).Absent?
  }

  /** The frames it takes to map pages a to b: one for each page and each missing table. */
  ghost function Need(p: Memory, d: nat, a: nat, b: nat): nat {
    (if a < b then b - a else 0) + |NewSlots(p, d, a, b)|
  }

  /** Page v is the first from a on in a slot without a table. */
  predicate Starts(p: Memory, d: nat, a: nat, v: nat) {
    EntryAt(p, d, v / ENTRIES).Absent? && (v == a || v % ENTRIES == 0)
  }

  lemma NewSlotsStep(p: Memory, d: nat, a: nat, b: nat)
    requires a <= b < PAGES
    ensures NewSlots(p, d, a, b + 1) == NewSlots(p, d, a, b) + if Starts(p, d, a, b) then {b / ENTRIES} else {}
    ensures Starts(p, d, a, b) ==> b / ENTRIES !in NewSlots(p, d, a, b)
    ensures b / ENTRIES in Slots(p, d) + NewSlots(p, d, a, b) <==> !Starts(p, d, a, b)
  {
    hide EntryAt;
    var i := b / ENTRIES;
    assert a < b && b % ENTRIES != 0 ==> (b - 1) / ENTRIES == i;
    assert a < b && b % ENTRIES == 0 ==> (b - 1) / ENTRIES == i - 1;
  }

  lemma NeedStep(p: Memory, d: nat, a: nat, b: nat)
    requires a <= b < PAGES
    ensures Need(p, d, a, b + 1) == Need(p, d, a, b) + if Starts(p, d, a, b) then 2 else 1
  {
    hide Starts;
    NewSlotsStep(p, d, a, b);
  }

  /** The slots that have a table once pages a to b are mapped. */
  ghost function SlotsAfter(p: Memory, d: nat, a: nat, b: nat): set<nat> {
    Slots(p, d) + NewSlots(p, d, a, b)
  }

  lemma SlotsStep(p: Memory, d: nat, a: nat, b: nat)
    requires a <= b < PAGES
    ensures b / ENTRIES in SlotsAfter(p, d, a, b) <==> !Starts(p, d, a, b)
    ensures SlotsAfter(p, d, a, b) + {b / ENTRIES} == SlotsAfter(p, d, a, b + 1)
    ensures Need(p, d, a, b + 1) == Need(p, d, a, b) + if Starts(p, d, a, b) then 2 else 1
  {
    hide Need, Slots, NewSlots, Starts;
    NewSlotsStep(p, d, a, b);
    NeedStep(p, d, a, b);
  }

  lemma {:induction false} NeedGrows(p: Memory, d: nat, a: nat, x: nat, y: nat)
    requires a <= x <= y <= PAGES
    ensures Need(p, d, a, x) + (y - x) <= Need(p, d, a, y)
    ensures x < y && Starts(p, d, a, x) ==> Need(p, d, a, x) + 2 <= Need(p, d, a, y)
    decreases y
  {
    hide Need, Starts;
    if x < y {
      NeedGrows(p, d, a, x, y - 1);
      NeedStep(p, d, a, y - 1);
    }
  }

  /** With n frames free, mapping pages a to b gets a frame for page k and none for its table. */
  ghost predicate LosesAt(p: Memory, d: nat, a: nat, b: nat, n: nat, k: nat) {
    a <= k < b && n == Need(p, d, a, k) + 1 && Starts(p, d, a, k)
  }

  /** It happens at one page at most, and then the frames were too few. */
  lemma LosesOnce(p: Memory, d: nat, a: nat, b: nat, n: nat, k: nat, l: nat)
    requires b <= PAGES && LosesAt(p, d, a, b, n, k)
    ensures n < Need(p, d, a, b) && (LosesAt(p, d, a, b, n, l) ==> l == k)
  {
    hide Need, Starts;
    NeedGrows(p, d, a, k, b);
    if LosesAt(p, d, a, b, n, l) {
      if k < l {
        NeedGrows(p, d, a, k, l);
      } else {
        NeedGrows(p, d, a, l, k);
      }
    }
  }

  /** It does not happen if the frames are enough, or run out between two pages. */
  lemma LosesNone(p: Memory, d: nat, a: nat, b: nat, n: nat, m: nat, k: nat)
    requires a <= m <= b <= PAGES && (if m == b then n >= Need(p, d, a, b) else n == Need(p, d, a, m))
    ensures !LosesAt(p, d, a, b, n, k) && (m < b ==> n < Need(p, d, a, b))
  {
    hide Need, Starts;
    NeedGrows(p, d, a, m, b);
    if LosesAt(p, d, a, b, n, k) {
      if k < m {
        NeedGrows(p, d, a, k, m);
      } else {
        NeedGrows(p, d, a, m, k);
      }
    }
  }

  /** What a space with n user pages from 0 on costs altogether. */
  function SpaceNeed(n: nat): nat {
    SETUP_FRAMES + n + (n + ENTRIES - 1) / ENTRIES
  }

  lemma UserNeed(p: Memory, d: nat, n: nat)
    requires Slots(p, d) == KernelSlots() && n <= USER
    ensures SETUP_FRAMES + Need(p, d, 0, n) == SpaceNeed(n)
    ensures n < USER ==> (Starts(p, d, 0, n) <==> n % ENTRIES == 0)
  {
    hide Interval;
    forall i: nat | i < 512
      ensures EntryAt(p, d, i).Absent?
    {
      assert i !in Slots(p, d);
    }
    assert NewSlots(p, d, 0, n) == Interval(0, (n + ENTRIES - 1) / ENTRIES);
  }

  /** The first page from v on that is not mapped, or n. */
  ghost function FirstAbsent(p: Memory, d: nat, v: nat, n: nat): (m: nat)
    requires v <= n
    ensures v <= m <= n && (m < n ==> Lookup(p, d, m).Absent?)
    ensures forall x: nat :: v <= x < m ==> Lookup(p, d, x).Present?
    decreases n - v
  {
    if v == n || Lookup(p, d, v).Absent? then v else FirstAbsent(p, d, v + 1, n)
  }

  lemma {:induction false} FirstAbsentIs(p: Memory, d: nat, v: nat, n: nat, m: nat)
    requires v <= m <= n && (m < n ==> Lookup(p, d, m).Absent?)
    requires forall x: nat :: v <= x < m ==> Lookup(p, d, x).Present?
    ensures FirstAbsent(p, d, v, n) == m
    decreases n - v
  {
    hide Lookup;
    if v < m {
      FirstAbsentIs(p, d, v + 1, n, m);
    }
  }
}

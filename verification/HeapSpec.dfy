/** The free list of umalloc.c as a value: blocks of header-sized units in address order,
    no two adjacent, all above the static header `base`. */
module HeapSpec {

  datatype Blk = Blk(a: nat, n: nat) {
    function End(): nat {
      a + n
    }
    predicate Has(u: nat) {
      a <= u < a + n
    }
  }

  /** Address order with a gap after every block: nothing is left to coalesce. */
  ghost predicate Separated(base: nat, free: seq<Blk>) {
    && (forall i :: 0 <= i < |free| ==> base < free[i].a && 1 <= free[i].n)
    && (forall i, j :: 0 <= i < j < |free| ==> free[i].End() < free[j].a)
  }

  ghost predicate InFree(free: seq<Blk>, u: nat) {
    exists i :: 0 <= i < |free| && free[i].Has(u)
  }

  ghost predicate Apart(b: Blk, c: Blk) {
    b.End() <= c.a || c.End() <= b.a
  }

  ghost predicate ApartFromAll(b: Blk, free: seq<Blk>) {
    forall i :: 0 <= i < |free| ==> Apart(b, free[i])
  }

  /** How many free blocks lie below address `x`: the place where `x` belongs. */
  function Below(free: seq<Blk>, x: nat): (t: nat)
    ensures t <= |free|
  {
    if free == [] || free[0].a >= x then 0 else 1 + Below(free[1..], x)
  }

  lemma BelowSplits(base: nat, free: seq<Blk>, x: nat, i: nat)
    requires Separated(base, free) && i < |free|
    ensures i < Below(free, x) <==> free[i].a < x
  {
    if i > 0 {
      assert Separated(base, free[1..]);
      BelowSplits(base, free[1..], x, i - 1);
      if free[0].a >= x {
        assert free[0].End() < free[i].a;
      }
    }
  }

  /** free(): put `b` in its place and coalesce it with the neighbours it touches. The
      list becomes `left + [mid] + right`. */
  datatype Parts = Parts(left: seq<Blk>, mid: Blk, right: seq<Blk>)

  predicate TouchesUp(free: seq<Blk>, b: Blk) {
    var t := Below(free, b.a);
    t < |free| && b.End() == free[t].a
  }
  predicate TouchesDown(free: seq<Blk>, b: Blk) {
    var t := Below(free, b.a);
    t > 0 && free[t - 1].End() == b.a
  }

  function Placed(free: seq<Blk>, b: Blk): Parts {
    var t := Below(free, b.a);
    var up, down := TouchesUp(free, b), TouchesDown(free, b);
    var n := b.n + if up then free[t].n else 0;
    Parts(if down then free[..t - 1] else free[..t],
          if down then Blk(free[t - 1].a, free[t - 1].n + n) else Blk(b.a, n),
          if up then free[t + 1..] else free[t..])
  }

  function Insert(free: seq<Blk>, b: Blk): seq<Blk> {
    var p := Placed(free, b);
    p.left + [p.mid] + p.right
  }

  /** malloc() on free[j]: the whole block, or its last `n` units. */
  function Take(free: seq<Blk>, j: nat, n: nat): (r: (seq<Blk>, Blk))
    requires j < |free| && free[j].n >= n
  {
    if free[j].n == n then (free[..j] + free[j + 1..], free[j])
    else (free[j := Blk(free[j].a, free[j].n - n)], Blk(free[j].a + free[j].n - n, n))
  }

  // ----------------------------------------------------------- properties

  lemma Place(base: nat, free: seq<Blk>, b: Blk)
    requires Separated(base, free) && b.n >= 1 && ApartFromAll(b, free)
    ensures var t := Below(free, b.a);
            && (forall i :: 0 <= i < t ==> free[i].End() <= b.a)
            && (forall i :: t <= i < |free| ==> b.End() <= free[i].a)
  {
    var t := Below(free, b.a);
    forall i | 0 <= i < |free|
      ensures if i < t then free[i].End() <= b.a else b.End() <= free[i].a
    {
      BelowSplits(base, free, b.a, i);
      assert Apart(b, free[i]);
    }
  }

  lemma JoinSeparated(base: nat, left: seq<Blk>, mid: Blk, right: seq<Blk>)
    requires Separated(base, left) && Separated(base, right) && base < mid.a && mid.n >= 1
    requires left != [] ==> left[|left| - 1].End() < mid.a
    requires right != [] ==> mid.End() < right[0].a
    ensures Separated(base, left + [mid] + right)
  {
    var s := left + [mid] + right;
    forall i | 0 <= i < |left|
      ensures left[i].End() < mid.a
    {
      if i < |left| - 1 {
        assert left[i].End() < left[|left| - 1].a;
      }
    }
    forall i | 0 <= i < |right|
      ensures mid.End() < right[i].a
    {
      if i > 0 {
        assert right[0].End() < right[i].a;
      }
    }
  }

  lemma InFreeConcat(s: seq<Blk>, t: seq<Blk>, u: nat)
    ensures InFree(s + t, u) <==> InFree(s, u) || InFree(t, u)
  {
    if InFree(s, u) {
      var i :| 0 <= i < |s| && s[i].Has(u);
      assert (s + t)[i].Has(u);
    }
    if InFree(t, u) {
      var i :| 0 <= i < |t| && t[i].Has(u);
      assert (s + t)[|s| + i].Has(u);
    }
    if InFree(s + t, u) {
      var i :| 0 <= i < |s + t| && (s + t)[i].Has(u);
      assert if i < |s| then s[i].Has(u) else t[i - |s|].Has(u);
    }
  }

  lemma InFreeSplit(free: seq<Blk>, i: nat, u: nat)
    requires i < |free|
    ensures InFree(free, u) <==> InFree(free[..i], u) || free[i].Has(u) || InFree(free[i + 1..], u)
    ensures InFree([free[i]], u) <==> free[i].Has(u)
  {
    assert free == free[..i] + [free[i]] + free[i + 1..];
    InFreeConcat(free[..i] + [free[i]], free[i + 1..], u);
    InFreeConcat(free[..i], [free[i]], u);
    assert free[i].Has(u) ==> [free[i]][0].Has(u);
  }

  lemma SliceSeparated(base: nat, free: seq<Blk>, i: nat, j: nat)
    requires Separated(base, free) && i <= j <= |free|
    ensures Separated(base, free[i..j])
  {
  }

  /** Nothing that is left of the list touches the coalesced block. */
  lemma PlacedApart(base: nat, free: seq<Blk>, b: Blk)
    requires Separated(base, free) && base < b.a && b.n >= 1 && ApartFromAll(b, free)
    ensures var p := Placed(free, b);
            && base < p.mid.a && p.mid.n >= 1
            && (p.left != [] ==> p.left[|p.left| - 1].End() < p.mid.a)
            && (p.right != [] ==> p.mid.End() < p.right[0].a)
  {
    hide Below, ApartFromAll;
    Place(base, free, b);
  }

  lemma PlacedSeparated(base: nat, free: seq<Blk>, b: Blk)
    requires Separated(base, free)
    ensures var p := Placed(free, b);
            Separated(base, p.left) && Separated(base, p.right)
  {
    hide Below, Separated;
    var t := Below(free, b.a);
    var i, j := if TouchesDown(free, b) then t - 1 else t, if TouchesUp(free, b) then t + 1 else t;
    assert free[0..i] == free[..i] && free[j..|free|] == free[j..];
    SliceSeparated(base, free, 0, i);
    SliceSeparated(base, free, j, |free|);
  }

  /** Coalescing leaves the list in order and with nothing adjacent. */
  lemma InsertSeparated(base: nat, free: seq<Blk>, b: Blk)
    requires Separated(base, free) && base < b.a && b.n >= 1 && ApartFromAll(b, free)
    ensures Separated(base, Insert(free, b))
  {
    hide Separated, ApartFromAll, Placed;
    var p := Placed(free, b);
    PlacedApart(base, free, b);
    PlacedSeparated(base, free, b);
    JoinSeparated(base, p.left, p.mid, p.right);
  }

  /** The blocks below the place of b, less the one it touches. */
  lemma LowUnits(free: seq<Blk>, b: Blk, u: nat)
    ensures var t := Below(free, b.a);
            InFree(free[..t], u) <==>
              InFree(Placed(free, b).left, u) || (TouchesDown(free, b) && free[t - 1].Has(u))
  {
    hide Below, InFree, Blk.Has;
    var low := free[..Below(free, b.a)];
    if TouchesDown(free, b) {
      InFreeSplit(low, |low| - 1, u);
      assert low[..|low| - 1] == Placed(free, b).left && low[|low|..] == [];
      InFreeNone(u);
    }
  }

  lemma HighUnits(free: seq<Blk>, b: Blk, u: nat)
    ensures var t := Below(free, b.a);
            InFree(free[t..], u) <==>
              InFree(Placed(free, b).right, u) || (TouchesUp(free, b) && free[t].Has(u))
  {
    hide Below, InFree, Blk.Has;
    var high := free[Below(free, b.a)..];
    if TouchesUp(free, b) {
      InFreeSplit(high, 0, u);
      assert high[1..] == Placed(free, b).right && high[..0] == [];
      InFreeNone(u);
    }
  }

  lemma MidUnits(free: seq<Blk>, b: Blk, u: nat)
    ensures var t := Below(free, b.a);
            Placed(free, b).mid.Has(u) <==>
              || b.Has(u) || (TouchesDown(free, b) && free[t - 1].Has(u))
              || (TouchesUp(free, b) && free[t].Has(u))
  {
    hide Below;
  }

  lemma InsertSplit(free: seq<Blk>, b: Blk, u: nat)
    ensures var p := Placed(free, b);
            InFree(free, u) || b.Has(u) <==> InFree(p.left, u) || p.mid.Has(u) || InFree(p.right, u)
  {
    hide Below, InFree, Placed, TouchesUp, TouchesDown, Blk.Has;
    var t := Below(free, b.a);
    assert free == free[..t] + free[t..];
    InFreeConcat(free[..t], free[t..], u);
    LowUnits(free, b, u);
    HighUnits(free, b, u);
    MidUnits(free, b, u);
  }

  lemma InFreeNone(u: nat)
    ensures !InFree([], u)
  {
  }

  /** free() adds exactly the units of `b`. */
  lemma InsertUnits(base: nat, free: seq<Blk>, b: Blk, u: nat)
    requires Separated(base, free) && b.n >= 1 && ApartFromAll(b, free)
    ensures InFree(Insert(free, b), u) <==> InFree(free, u) || b.Has(u)
  {
    hide InFree, ApartFromAll, Separated, Placed;
    InsertSplit(free, b, u);
    var p := Placed(free, b);
    var s := p.left + [p.mid] + p.right;
    InFreeSplit(s, |p.left|, u);
    assert s[..|p.left|] == p.left && s[|p.left| + 1..] == p.right;
  }

  lemma TakeSeparated(base: nat, free: seq<Blk>, j: nat, n: nat)
    requires Separated(base, free) && j < |free| && 1 <= n <= free[j].n
    ensures var (rest, b) := Take(free, j, n);
            Separated(base, rest) && base < b.a && b.n == n && ApartFromAll(b, rest)
  {
  }

  /** malloc() removes exactly the units of the block it returns. */
  lemma TakeUnits(base: nat, free: seq<Blk>, j: nat, n: nat, u: nat)
    requires Separated(base, free) && j < |free| && 1 <= n <= free[j].n
    ensures var (rest, b) := Take(free, j, n);
            InFree(free, u) <==> InFree(rest, u) || b.Has(u)
  {
    hide InFree;
    var (rest, b) := Take(free, j, n);
    InFreeSplit(free, j, u);
    if free[j].n == n {
      InFreeConcat(free[..j], free[j + 1..], u);
    } else {
      InFreeSplit(rest, j, u);
      assert rest[..j] == free[..j] && rest[j + 1..] == free[j + 1..];
    }
  }

  lemma {:induction false} BelowIs(base: nat, free: seq<Blk>, x: nat, t: nat)
    requires Separated(base, free) && t <= |free|
    requires forall i :: 0 <= i < t ==> free[i].a < x
    requires forall i :: t <= i < |free| ==> free[i].a >= x
    ensures Below(free, x) == t
  {
    if Below(free, x) < t {
      BelowSplits(base, free, x, Below(free, x));
    } else if t < Below(free, x) {
      BelowSplits(base, free, x, t);
    }
  }

  lemma ExactPlaced(base: nat, free: seq<Blk>, j: nat)
    requires Separated(base, free) && j < |free|
    ensures var rest, b := free[..j] + free[j + 1..], free[j];
            Below(rest, b.a) == j && !TouchesDown(rest, b) && !TouchesUp(rest, b)
  {
    hide Below;
    var rest, b := free[..j] + free[j + 1..], free[j];
    TakeSeparated(base, free, j, b.n);
    BelowIs(base, rest, b.a, j);
    assert j < |rest| ==> rest[j] == free[j + 1] && b.End() < free[j + 1].a;
    assert j > 0 ==> rest[j - 1] == free[j - 1] && free[j - 1].End() < b.a;
  }

  lemma FreeUndoesExactFit(base: nat, free: seq<Blk>, j: nat)
    requires Separated(base, free) && j < |free|
    ensures Insert(free[..j] + free[j + 1..], free[j]) == free
  {
    hide Below, Separated, TouchesDown, TouchesUp;
    var rest, b := free[..j] + free[j + 1..], free[j];
    ExactPlaced(base, free, j);
    assert rest[..j] == free[..j] && rest[j..] == free[j + 1..];
    assert free == free[..j] + [free[j]] + free[j + 1..];
  }

  lemma SplitPlaced(base: nat, free: seq<Blk>, j: nat, n: nat)
    requires Separated(base, free) && j < |free| && 1 <= n < free[j].n
    ensures var (rest, b) := Take(free, j, n);
            Below(rest, b.a) == j + 1 && TouchesDown(rest, b) && !TouchesUp(rest, b)
  {
    hide Below;
    var (rest, b) := Take(free, j, n);
    TakeSeparated(base, free, j, n);
    BelowIs(base, rest, b.a, j + 1);
    assert j + 1 < |rest| ==> b.End() < rest[j + 1].a;
  }

  lemma FreeUndoesSplit(base: nat, free: seq<Blk>, j: nat, n: nat)
    requires Separated(base, free) && j < |free| && 1 <= n < free[j].n
    ensures Insert(Take(free, j, n).0, Take(free, j, n).1) == free
  {
    hide Below, Separated, TouchesDown, TouchesUp;
    var (rest, b) := Take(free, j, n);
    SplitPlaced(base, free, j, n);
    assert Placed(rest, b) == Parts(rest[..j], free[j], rest[j + 1..]);
    assert rest[..j] == free[..j] && rest[j + 1..] == free[j + 1..];
    assert free == free[..j] + [free[j]] + free[j + 1..];
  }

  /** Freeing what malloc just returned restores the free list. */
  lemma FreeUndoesMalloc(base: nat, free: seq<Blk>, j: nat, n: nat)
    requires Separated(base, free) && j < |free| && 1 <= n <= free[j].n
    ensures Insert(Take(free, j, n).0, Take(free, j, n).1) == free
  {
    if free[j].n == n {
      FreeUndoesExactFit(base, free, j);
    } else {
      FreeUndoesSplit(base, free, j, n);
    }
  }
}

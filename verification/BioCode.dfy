/** bio.c over its doubly linked ring: `next` and `prev` are indexed by buffer, with the list
    head as the index after the last buffer. */
module BioCode {
  import opened Blocks
  import opened Lists
  import opened BioMachine

  datatype GetResult = Hit(b: nat) | Sleep(b: nat) | Recycled(b: nat) | PanicNoBuffers

  function Succ(n: nat, i: nat): (j: nat)
    requires i < n
    ensures j < n
  {
    if i + 1 < n then i + 1 else 0
  }

  /** The pointers run through `c` in order, both ways and back to its start. */
  ghost predicate Links(next: seq<nat>, prev: seq<nat>, c: seq<nat>) {
    && |next| == |prev| && NoneTwice(c)
    && (forall i :: 0 <= i < |c| ==> c[i] < |next|)
    && (forall i :: 0 <= i < |c| ==> next[c[i]] == c[Succ(|c|, i)] && prev[c[Succ(|c|, i)]] == c[i])
  }

  /** The list less its k-th element. */
  function Skipping(c: seq<nat>, k: nat): seq<nat>
    requires k < |c|
  {
    c[..k] + c[k + 1..]
  }

  lemma SkippingAt(c: seq<nat>, k: nat)
    requires k < |c| && NoneTwice(c)
    ensures NoneTwice(Skipping(c, k)) && c[k] !in Skipping(c, k)
    ensures forall i :: 0 <= i < |c| - 1 ==> Skipping(c, k)[i] == c[if i < k then i else i + 1]
  {
  }

  lemma UnlinkedAt(next: seq<nat>, prev: seq<nat>, c: seq<nat>, k: nat, i: nat)
    requires Links(next, prev, c) && 0 < k < |c| && i < |c| - 1
    ensures var d, p, q := Skipping(c, k), c[k - 1], c[Succ(|c|, k)];
            && d[i] < |next| && d[Succ(|d|, i)] < |next| && p < |next| && q < |next|
            && next[p := q][d[i]] == d[Succ(|d|, i)] && prev[q := p][d[Succ(|d|, i)]] == d[i]
  {
    var d := Skipping(c, k);
    var j := if i < k then i else i + 1;
    assert d[i] == c[j];
    if j != k - 1 {
      assert d[Succ(|d|, i)] == c[Succ(|c|, j)];
      assert Succ(|c|, j) != Succ(|c|, k);
    }
  }

  /** Node k leaves the circle: two stores. */
  lemma Unlinked(next: seq<nat>, prev: seq<nat>, c: seq<nat>, k: nat)
    requires Links(next, prev, c) && 0 < k < |c|
    ensures c[k] < |next| && prev[c[k]] < |next| && next[c[k]] < |next| && c[k] !in Skipping(c, k)
    ensures Links(next[prev[c[k]] := next[c[k]]], prev[next[c[k]] := prev[c[k]]], Skipping(c, k))
  {
    SkippingAt(c, k);
    hide Skipping, NoneTwice;
    assert c[Succ(|c|, k - 1)] == c[k];
    forall i | 0 <= i < |c| - 1
      ensures var d, p, q := Skipping(c, k), c[k - 1], c[Succ(|c|, k)];
              && d[i] < |next| && d[Succ(|d|, i)] < |next|
              && next[p := q][d[i]] == d[Succ(|d|, i)] && prev[q := p][d[Succ(|d|, i)]] == d[i]
    {
      UnlinkedAt(next, prev, c, k, i);
    }
  }

  /** Node b joins the circle after its first node: four stores. */
  lemma Pushed(next: seq<nat>, prev: seq<nat>, c: seq<nat>, b: nat)
    requires Links(next, prev, c) && 0 < |c| && b < |next| && b !in c
    ensures next[c[0]] < |next|
    ensures Links(next[b := next[c[0]]][c[0] := b], prev[b := c[0]][next[c[0]] := b], [c[0], b] + c[1..])
  {
    var d := [c[0], b] + c[1..];
    var n', p' := next[b := next[c[0]]][c[0] := b], prev[b := c[0]][next[c[0]] := b];
    assert next[c[0]] == c[Succ(|c|, 0)];
    forall i | 0 <= i < |d|
      ensures n'[d[i]] == d[Succ(|d|, i)] && p'[d[Succ(|d|, i)]] == d[i]
    {
      if i >= 2 {
        assert d[i] == c[i - 1] && d[Succ(|d|, i)] == c[Succ(|c|, i - 1)];
      }
    }
  }

  lemma CutRest(ring: seq<nat>, k: nat)
    requires 0 < k < |ring|
    ensures ring[..k] + ring[k + 1..] == [ring[0]] + (ring[1..][..k - 1] + ring[1..][k..])
  {
  }

  lemma TailNoneTwice(ring: seq<nat>)
    requires ring != [] && NoneTwice(ring)
    ensures NoneTwice(ring[1..])
  {
  }

  lemma {:induction false} CutOut(ring: seq<nat>, k: nat)
    requires k < |ring| && NoneTwice(ring)
    ensures Without(ring, ring[k]) == ring[..k] + ring[k + 1..]
  {
    if k > 0 {
      assert ring[0] != ring[k];
      hide NoneTwice;
      TailNoneTwice(ring);
      CutOut(ring[1..], k - 1);
      CutRest(ring, k);
    }
  }

  lemma RingParts(head: nat, ring: seq<nat>, k: nat)
    requires k < |ring|
    ensures ([head] + ring)[k + 1] == ring[k]
    ensures ([head] + ring)[..k + 1] + ([head] + ring)[k + 2..] == [head] + (ring[..k] + ring[k + 1..])
  {
  }

  /** brelse's first two stores take b out of the ring. */
  lemma RingUnlinked(next: seq<nat>, prev: seq<nat>, head: nat, ring: seq<nat>, b: nat)
    requires Links(next, prev, [head] + ring) && NoneTwice(ring) && b in ring
    ensures b < |next| && next[b] < |next| && prev[b] < |next| && b !in [head] + Without(ring, b)
    ensures Links(next[prev[b] := next[b]], prev[next[b] := prev[b]], [head] + Without(ring, b))
  {
    var k: nat :| k < |ring| && ring[k] == b;
    RingParts(head, ring, k);
    CutOut(ring, k);
    Unlinked(next, prev, [head] + ring, k + 1);
  }

  /** Its last four put b in front of a ring that does not hold it. */
  lemma RingPushed(next: seq<nat>, prev: seq<nat>, head: nat, ring: seq<nat>, b: nat)
    requires Links(next, prev, [head] + ring) && b < |next| && b !in [head] + ring
    ensures head < |next| && next[head] < |next|
    ensures Links(next[b := next[head]][head := b], prev[b := head][next[head] := b], [head] + ([b] + ring))
  {
    var c := [head] + ring;
    assert c[0] == head && c[1..] == ring;
    Pushed(next, prev, c, b);
    assert [head, b] + ring == [head] + ([b] + ring);
  }

  lemma PushPermutation(ring: seq<nat>, n: nat)
    requires IsPermutation(ring, n)
    ensures IsPermutation([n] + ring, n + 1)
  {
    assert ([n] + ring)[1..] == ring;
    assert forall i :: 0 <= i < |ring| ==> ring[i] in ring;
  }

  /** Together they move b to the front of the ring. */
  lemma FrontLinks(next: seq<nat>, prev: seq<nat>, head: nat, ring: seq<nat>, b: nat)
    requires Links(next, prev, [head] + ring) && IsPermutation(ring, head) && |next| == head + 1 && b < head
    ensures next[b] < |next| && prev[b] < |next| && head < |prev|
    ensures var n', p' := next[prev[b] := next[b]], prev[next[b] := prev[b]];
            && n'[head] < |next|
            && Links(n'[b := n'[head]][head := b], p'[b := head][n'[head] := b], [head] + MoveToFront(ring, b))
  {
    assert b in ring;
    RingUnlinked(next, prev, head, ring, b);
    RingPushed(next[prev[b] := next[b]], prev[next[b] := prev[b]], head, Without(ring, b), b);
  }

  class Cache {
    var bufs: seq<Buf>
    var next: seq<nat>
    var prev: seq<nat>
    ghost var ring: seq<nat>

    ghost predicate Valid()
      reads this
    {
      && |next| == |bufs| + 1 && IsPermutation(ring, |bufs|)
      && Links(next, prev, [|bufs|] + ring)
    }

    /** binit, bio.c:39-56. */
    constructor (n: nat)
      ensures Valid() && |bufs| == n
      ensures forall b :: 0 <= b < n ==> bufs[b] == Buf(NoDev, false, false, false, Zeroes())
    {
      bufs := seq(n, _ => Buf(NoDev, false, false, false, Zeroes()));
      next, prev := seq(n + 1, _ => n), seq(n + 1, _ => n);
      ring := [];
      new;
      var b := 0;
      assert [n] + ring == [n];
      while b < n
        invariant 0 <= b <= n && |bufs| == n && |next| == n + 1
        invariant forall k :: 0 <= k < n ==> bufs[k] == Buf(NoDev, false, false, false, Zeroes())
        invariant IsPermutation(ring, b) && Links(next, prev, [n] + ring)
      {
        RingPushed(next, prev, n, ring, b);
        PushPermutation(ring, b);
        var first := next[n];
        next, prev := next[b := first], prev[b := n];
        prev := prev[first := b];
        next := next[n := b];
        ring := [b] + ring;
        b := b + 1;
      }
    }

    /** The forward search, bio.c:70-80. */
    method FindCached(key: Key) returns (b: nat)
      requires Valid()
      ensures b <= |bufs|
      ensures b < |bufs| ==> bufs[b].key == key
      ensures b == |bufs| <==> !Cached(bufs, key)
    {
      ghost var c := [|bufs|] + ring;
      ghost var k := 0;
      b := next[|bufs|];
      assert c[0] == |bufs| && next[c[0]] == c[Succ(|c|, 0)];
      k := Succ(|c|, 0);
      while b != |bufs|
        invariant k < |c| && b == c[k]
        invariant forall j :: 0 < j < (if k == 0 then |c| else k) ==> bufs[c[j]].key != key
        decreases if k == 0 then 0 else |c| - k
      {
        assert c[k] == ring[k - 1] && ring[k - 1] in ring;
        if bufs[b].key == key {
          return b;
        }
        assert next[c[k]] == c[Succ(|c|, k)];
        b := next[b];
        k := Succ(|c|, k);
      }
      assert k == 0;
      forall j | 0 <= j < |bufs|
        ensures bufs[j].key != key
      {
        assert j in ring;
        var i :| 0 <= i < |ring| && ring[i] == j;
        assert c[i + 1] == j;
      }
    }

    /** The backward search, bio.c:83-91, by position in the ring. */
    method FindVictim() returns (b: nat, ghost i: nat)
      requires Valid()
      ensures b <= |bufs|
      ensures b < |bufs| ==> IsVictim(bufs, ring, i) && b == ring[i]
      ensures b == |bufs| <==> forall j :: 0 <= j < |bufs| ==> bufs[j].busy || bufs[j].dirty
    {
      ghost var c := [|bufs|] + ring;
      ghost var k := |ring|;
      assert c[Succ(|c|, k)] == c[0] == |bufs| && prev[c[Succ(|c|, k)]] == c[k];
      b := prev[|bufs|];
      assert forall j :: 0 <= j < |ring| ==> ring[j] in ring;
      while b != |bufs|
        invariant 0 <= k < |c| && b == c[k]
        invariant forall j :: k <= j < |ring| ==> bufs[ring[j]].busy || bufs[ring[j]].dirty
        decreases k
      {
        assert c[k] == ring[k - 1] && ring[k - 1] in ring;
        if !bufs[b].busy && !bufs[b].dirty {
          i := k - 1;
          return;
        }
        assert c[Succ(|c|, k - 1)] == c[k];
        b := prev[b];
        k := k - 1;
      }
      assert k == 0;
      i := 0;
      forall j | 0 <= j < |bufs|
        ensures bufs[j].busy || bufs[j].dirty
      {
        assert j in ring;
        var x :| 0 <= x < |ring| && ring[x] == j;
      }
    }

    /** One pass of bget, bio.c:68-92; after Sleep the caller waits and starts over. */
    method Bget(key: Key) returns (r: GetResult, ghost i: nat)
      requires Valid()
      modifies this`bufs
      ensures Valid() && |bufs| == |old(bufs)|
      ensures match r
              case Hit(b) =>
                && b < |bufs| && old(bufs)[b].key == key && !old(bufs)[b].busy
                && bufs == old(bufs)[b := old(bufs)[b].(busy := true)]
              case Sleep(b) => b < |bufs| && bufs[b].key == key && bufs[b].busy && bufs == old(bufs)
              case Recycled(b) =>
                && !Cached(old(bufs), key) && IsVictim(old(bufs), ring, i) && b == ring[i]
                && bufs == old(bufs)[b := Buf(key, true, false, false, old(bufs)[b].data)]
              case PanicNoBuffers =>
                && bufs == old(bufs) && !Cached(bufs, key)
                && forall j :: 0 <= j < |bufs| ==> bufs[j].busy || bufs[j].dirty
    {
      i := 0;
      var b := FindCached(key);
      if b < |bufs| {
        if !bufs[b].busy {
          bufs := bufs[b := bufs[b].(busy := true)];
          return Hit(b), i;
        }
        return Sleep(b), i;
      }
      b, i := FindVictim();
      if b < |bufs| {
        bufs := bufs[b := Buf(key, true, false, false, bufs[b].data)];
        return Recycled(b), i;
      }
      return PanicNoBuffers, i;
    }

    /** brelse, bio.c:120-138: six stores move the buffer to the front of the ring. */
    method Brelse(b: nat) returns (panic: bool)
      requires Valid() && b < |bufs|
      modifies this
      ensures Valid() && panic == !old(bufs)[b].busy
      ensures panic ==> bufs == old(bufs) && ring == old(ring)
      ensures !panic ==> ring == MoveToFront(old(ring), b)
      ensures !panic ==> bufs == old(bufs)[b := old(bufs)[b].(busy := false)]
    {
      if !bufs[b].busy {
        return true;
      }
      FrontLinks(next, prev, |bufs|, ring, b);
      FrontKeepsPermutation(ring, |bufs|, b);
      hide Links, IsPermutation, MoveToFront;
      var head := |bufs|;
      var n, p := next[b], prev[b];
      prev := prev[n := p];
      next := next[p := n];
      next := next[b := next[head]];
      prev := prev[b := head];
      prev := prev[next[head] := b];
      next := next[head := b];
      ring := MoveToFront(ring, b);
      bufs := bufs[b := bufs[b].(busy := false)];
      return false;
    }
  }
}

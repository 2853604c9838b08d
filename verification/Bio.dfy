/** bio.c: processes getting, using and releasing buffers. bget's search holds bcache.lock
    throughout, so it is one step; a process that finds its buffer busy sleeps and searches
    again from the start. */
module BioMachine {
  import opened Blocks
  import opened Lists

  /** What a buffer caches; binit gives every buffer the device number -1. */
  datatype Key = NoDev | Sector(dev: nat, sector: nat)

  datatype Buf = Buf(key: Key, busy: bool, valid: bool, dirty: bool, data: Block)

  /** A process here is one use of a buffer at a time; log_write and install_trans, which use
      two at once, are two of them. */
  datatype PC =
    | Idle
    | Getting(key: Key)
    | Waiting(key: Key, b: nat)
    | Got(key: Key, b: nat)
    | Holding(key: Key, b: nat)
    | Writing(key: Key, b: nat)

  /** `ring` is the list through head.next. `latest` records, for each sector, the block last
      passed to log_write or bwrite, or else the disk's. `released` lists the buffers in the
      order in which brelse was called on them. */
  datatype State = State(bufs: seq<Buf>, ring: seq<nat>, disk: map<Key, Block>, latest: map<Key, Block>,
                         procs: map<nat, PC>, released: seq<nat>)
  {
    predicate At(p: nat, pc: PC) {
      p in procs && procs[p] == pc && (pc.Idle? || pc.Getting? || pc.b < |bufs|)
    }
    function Go(p: nat, pc: PC): State {
      this.(procs := procs[p := pc])
    }
    function Set(b: nat, buf: Buf): State
      requires b < |bufs|
    {
      this.(bufs := bufs[b := buf])
    }
  }

  ghost predicate Cached(bufs: seq<Buf>, key: Key) {
    exists b :: 0 <= b < |bufs| && bufs[b].key == key
  }

  /** The last buffer of the ring that is neither busy nor dirty. */
  ghost predicate IsVictim(bufs: seq<Buf>, ring: seq<nat>, i: nat) {
    && i < |ring| && ring[i] < |bufs| && !bufs[ring[i]].busy && !bufs[ring[i]].dirty
    && forall j :: i < j < |ring| && ring[j] < |bufs| ==> bufs[ring[j]].busy || bufs[ring[j]].dirty
  }

  function MoveToFront(ring: seq<nat>, b: nat): seq<nat> {
    [b] + Without(ring, b)
  }

  function Without(ring: seq<nat>, b: nat): seq<nat> {
    if ring == [] then [] else if ring[0] == b then ring[1..] else [ring[0]] + Without(ring[1..], b)
  }

  function Woken(pc: PC, b: nat): PC {
    if pc.Waiting? && pc.b == b then Getting(pc.key) else pc
  }

  // ------------------------------------------------------------------ steps

  ghost predicate Start(s: State, t: State, p: nat, key: Key) {
    s.At(p, Idle) && key in s.disk && t == s.Go(p, Getting(key))
  }

  /** bio.c:70-80. */
  ghost predicate Found(s: State, t: State, p: nat, key: Key, b: nat) {
    && s.At(p, Getting(key)) && b < |s.bufs| && s.bufs[b].key == key
    && t == if s.bufs[b].busy then s.Go(p, Waiting(key, b))
            else s.Set(b, s.bufs[b].(busy := true)).Go(p, Got(key, b))
  }

  /** bio.c:83-91: the least recently used buffer that is neither busy nor dirty. */
  ghost predicate Recycle(s: State, t: State, p: nat, key: Key, i: nat) {
    && s.At(p, Getting(key)) && !Cached(s.bufs, key)
    && IsVictim(s.bufs, s.ring, i)
    && t == s.Set(s.ring[i], Buf(key, true, false, false, s.bufs[s.ring[i]].data)).Go(p, Got(key, s.ring[i]))
  }

  /** bread's read, if the buffer has no data yet. */
  ghost predicate Fetch(s: State, t: State, p: nat, key: Key, b: nat) {
    && s.At(p, Got(key, b)) && key in s.disk
    && t == (if s.bufs[b].valid then s else s.Set(b, s.bufs[b].(valid := true, data := s.disk[key])))
              .Go(p, Holding(key, b))
  }

  ghost predicate Modify(s: State, t: State, p: nat, key: Key, b: nat, data: Block) {
    s.At(p, Holding(key, b)) && t == s.Set(b, s.bufs[b].(data := data))
  }

  ghost predicate LogWrite(s: State, t: State, p: nat, key: Key, b: nat) {
    && s.At(p, Holding(key, b))
    && t == s.(latest := s.latest[key := s.bufs[b].data]).Set(b, s.bufs[b].(dirty := true))
  }

  ghost predicate Bwrite(s: State, t: State, p: nat, key: Key, b: nat) {
    && s.At(p, Holding(key, b))
    && t == s.(latest := s.latest[key := s.bufs[b].data]).Set(b, s.bufs[b].(dirty := true)).Go(p, Writing(key, b))
  }

  ghost predicate WriteDone(s: State, t: State, p: nat, key: Key, b: nat) {
    && s.At(p, Writing(key, b))
    && t == s.(disk := s.disk[key := s.bufs[b].data]).Set(b, s.bufs[b].(dirty := false)).Go(p, Holding(key, b))
  }

  /** brelse, by a process that has log_written or bwritten what it changed. */
  ghost predicate Release(s: State, t: State, p: nat, key: Key, b: nat) {
    && s.At(p, Holding(key, b)) && key in s.latest && s.bufs[b].data == s.latest[key]
    && t == State(s.bufs[b := s.bufs[b].(busy := false)], MoveToFront(s.ring, b), s.disk, s.latest,
                  (map q | q in s.procs :: Woken(s.procs[q], b))[p := Idle], s.released + [b])
  }

  /** A sleeper may also be woken by kill. */
  ghost predicate Wake(s: State, t: State, p: nat, key: Key, b: nat) {
    s.At(p, Waiting(key, b)) && t == s.Go(p, Getting(key))
  }

  ghost predicate ProcStep(s: State, t: State, p: nat, key: Key) {
    || Start(s, t, p, key)
    || (exists b :: Found(s, t, p, key, b)) || (exists i :: Recycle(s, t, p, key, i))
    || (exists b :: Fetch(s, t, p, key, b)) || (exists b, data: Block :: Modify(s, t, p, key, b, data))
    || (exists b :: LogWrite(s, t, p, key, b)) || (exists b :: Bwrite(s, t, p, key, b))
    || (exists b :: WriteDone(s, t, p, key, b)) || (exists b :: Release(s, t, p, key, b))
    || (exists b :: Wake(s, t, p, key, b))
  }

  ghost predicate Next(s: State, t: State) {
    exists p, key :: ProcStep(s, t, p, key)
  }

  // ------------------------------------------------------------- invariants

  /** The numbers below n, each once. */
  ghost predicate IsPermutation(ring: seq<nat>, n: nat) {
    |ring| == n && NoneTwice(ring) && forall x: nat :: x in ring <==> x < n
  }

  /** No sector is in two buffers. */
  ghost predicate OneCopy(s: State) {
    forall a, b :: 0 <= a < b < |s.bufs| && s.bufs[a].key == s.bufs[b].key ==> s.bufs[a].key == NoDev
  }

  predicate Holds(pc: PC) {
    pc.Got? || pc.Holding? || pc.Writing?
  }

  /** A process's own buffer: busy, for its sector, and with the data that its point calls for. */
  ghost predicate HoldOk(s: State, pc: PC) {
    Holds(pc) ==>
      && pc.b < |s.bufs| && pc.key in s.disk && pc.key in s.latest && pc.key != NoDev
      && var f := s.bufs[pc.b];
         && f.busy && f.key == pc.key
         && (pc.Got? && f.valid ==> f.data == s.latest[pc.key])
         && (!pc.Got? ==> f.valid)
         && (pc.Writing? ==> f.dirty && f.data == s.latest[pc.key])
  }

  ghost predicate Holders(s: State) {
    && (forall p :: p in s.procs ==> HoldOk(s, s.procs[p]))
    && (forall p :: p in s.procs && (s.procs[p].Getting? || s.procs[p].Waiting?) ==> s.procs[p].key in s.disk)
    && (forall p, q :: p in s.procs && q in s.procs && p != q && Holds(s.procs[p]) && Holds(s.procs[q]) ==>
          s.procs[p].b != s.procs[q].b)
  }

  /** Idle buffers hold the latest data, dirty ones hold it safely, and a sector that no
      dirty buffer holds has it on disk. */
  ghost predicate BufOk(s: State, f: Buf) {
    && (f.key != NoDev ==> f.key in s.disk && f.key in s.latest)
    && (!f.busy && f.valid && f.key != NoDev ==> f.data == s.latest[f.key])
    && (f.dirty ==> f.valid && f.key != NoDev)
  }

  ghost predicate DirtyHolds(s: State, key: Key) {
    exists b :: 0 <= b < |s.bufs| && s.bufs[b].key == key && s.bufs[b].dirty
  }

  ghost predicate Coherent(s: State) {
    && s.disk.Keys == s.latest.Keys && NoDev !in s.disk
    && (forall b :: 0 <= b < |s.bufs| ==> BufOk(s, s.bufs[b]))
    && (forall key :: key in s.disk && s.disk[key] != s.latest[key] ==> DirtyHolds(s, key))
  }

  /** Who sleeps waits for a buffer that is busy and still caches the sector. */
  ghost predicate WaitOk(s: State, pc: PC) {
    pc.Waiting? ==> pc.b < |s.bufs| && s.bufs[pc.b].busy && s.bufs[pc.b].key == pc.key
  }

  ghost predicate Waiters(s: State) {
    forall p :: p in s.procs ==> WaitOk(s, s.procs[p])
  }

  /** When buffer b was last released: 0 if never, larger if later. */
  function LastUse(released: seq<nat>, b: nat): nat {
    if released == [] then 0
    else if released[|released| - 1] == b then |released|
    else LastUse(released[..|released| - 1], b)
  }

  /** The ring runs from the most to the least recently released. */
  ghost predicate ByUse(released: seq<nat>, ring: seq<nat>) {
    forall i, j :: 0 <= i < j < |ring| ==> LastUse(released, ring[i]) >= LastUse(released, ring[j])
  }

  ghost predicate Inv(s: State) {
    && IsPermutation(s.ring, |s.bufs|) && OneCopy(s) && Holders(s) && Coherent(s) && Waiters(s)
    && ByUse(s.released, s.ring)
  }

  /** A dirty buffer keeps its sector, and stays dirty until its data is on the disk. */
  ghost predicate DirtyKept(s: State, t: State) {
    && |t.bufs| == |s.bufs|
    && forall b :: 0 <= b < |s.bufs| && s.bufs[b].dirty ==>
         && t.bufs[b].key == s.bufs[b].key
         && (t.bufs[b].dirty || OnDisk(t, t.bufs[b]))
  }
  predicate OnDisk(t: State, f: Buf) {
    f.key in t.disk && f.key in t.latest && t.disk[f.key] == f.data == t.latest[f.key]
  }

  // ---------------------------------------------------------- preservation

  /** Only process p moves; what the others hold is as it was. */
  lemma MoveHolders(s: State, t: State, p: nat)
    requires Holders(s) && p in s.procs && p in t.procs && t.procs == s.procs[p := t.procs[p]]
    requires forall q :: q in s.procs && q != p && Holds(s.procs[q]) ==>
               s.procs[q].b < |s.bufs| ==> HoldOk(t, s.procs[q])
    requires s.disk.Keys == t.disk.Keys
    requires HoldOk(t, t.procs[p])
    requires t.procs[p].Getting? || t.procs[p].Waiting? ==> t.procs[p].key in t.disk
    requires forall q :: q in s.procs && q != p && Holds(s.procs[q]) && Holds(t.procs[p]) ==>
               s.procs[q].b != t.procs[p].b
    ensures Holders(t)
  {
    forall q | q in t.procs
      ensures HoldOk(t, t.procs[q])
    {
      assert HoldOk(s, s.procs[q]);
    }
  }

  /** Changing p's own buffer, or an unheld one, for no other process's sector. */
  lemma OthersKeep(s: State, t: State, p: nat, b: nat, f: Buf)
    requires OneCopy(s) && Holders(s) && b < |s.bufs| && t.bufs == s.bufs[b := f]
    requires forall q :: q in s.procs && q != p && Holds(s.procs[q]) ==> s.procs[q].b != b
    requires s.disk.Keys == t.disk.Keys && s.latest.Keys <= t.latest.Keys
    requires forall key :: key in s.latest && key != f.key ==> t.latest[key] == s.latest[key]
    requires t.latest == s.latest || s.bufs[b].key == f.key
    ensures forall q :: q in s.procs && q != p && Holds(s.procs[q]) ==> HoldOk(t, s.procs[q])
  {
    forall q | q in s.procs && q != p && Holds(s.procs[q])
      ensures HoldOk(t, s.procs[q])
    {
      assert HoldOk(s, s.procs[q]);
    }
  }

  lemma HeldBuf(s: State, p: nat)
    requires Holders(s) && p in s.procs
    ensures HoldOk(s, s.procs[p])
    ensures forall q :: q in s.procs && q != p && Holds(s.procs[p]) && Holds(s.procs[q]) ==>
              s.procs[q].b != s.procs[p].b
  {
  }

  lemma BufAt(s: State, b: nat)
    requires Coherent(s) && b < |s.bufs|
    ensures BufOk(s, s.bufs[b])
  {
  }

  lemma WantedKey(s: State, p: nat)
    requires Holders(s) && Coherent(s) && p in s.procs && (s.procs[p].Getting? || s.procs[p].Waiting?)
    ensures s.procs[p].key in s.disk && s.procs[p].key in s.latest && s.procs[p].key != NoDev
  {
  }

  /** Process p moves, and buffer b becomes f, which is still busy for its sector if it was. */
  lemma WaitersKept(s: State, t: State, p: nat, b: nat, f: Buf)
    requires Waiters(s) && p in s.procs && p in t.procs && t.procs == s.procs[p := t.procs[p]]
    requires b < |s.bufs| && t.bufs == s.bufs[b := f]
    requires s.bufs[b].busy ==> f.busy && f.key == s.bufs[b].key
    requires WaitOk(t, t.procs[p])
    ensures Waiters(t)
  {
    forall q | q in t.procs
      ensures WaitOk(t, t.procs[q])
    {
      assert q != p ==> WaitOk(s, s.procs[q]);
    }
  }

  /** Process p comes to hold buffer b, or holds it still, and b becomes f. */
  lemma SetHolders(s: State, t: State, p: nat, b: nat, f: Buf)
    requires OneCopy(s) && Holders(s) && p in s.procs && p in t.procs && t.procs == s.procs[p := t.procs[p]]
    requires b < |s.bufs| && t.bufs == s.bufs[b := f] && Holds(t.procs[p]) && t.procs[p].b == b
    requires forall q :: q in s.procs && q != p && Holds(s.procs[q]) ==> s.procs[q].b != b
    requires t.disk == s.disk && t.latest == s.latest && HoldOk(t, t.procs[p])
    ensures Holders(t)
  {
    hide OneCopy, HoldOk;
    OthersKeep(s, t, p, b, f);
    MoveHolders(s, t, p);
  }

  /** A dirty buffer is left with its key and dirty. */
  lemma DirtyStill(s: State, t: State, b: nat, f: Buf)
    requires b < |s.bufs| && t.bufs == s.bufs[b := f]
    requires s.bufs[b].dirty ==> f.dirty && f.key == s.bufs[b].key
    ensures DirtyKept(s, t)
  {
  }

  lemma SameKey(s: State, t: State, b: nat, f: Buf)
    requires OneCopy(s) && b < |s.bufs| && t.bufs == s.bufs[b := f] && f.key == s.bufs[b].key
    ensures OneCopy(t)
  {
  }

  lemma NewKey(s: State, t: State, b: nat, f: Buf)
    requires OneCopy(s) && b < |s.bufs| && t.bufs == s.bufs[b := f] && !Cached(s.bufs, f.key)
    ensures OneCopy(t)
  {
  }

  lemma SameBufs(s: State, t: State)
    requires OneCopy(s) && Coherent(s) && t.bufs == s.bufs && t.disk == s.disk && t.latest == s.latest
    ensures OneCopy(t) && Coherent(t) && DirtyKept(s, t)
  {
    assert forall k :: DirtyHolds(s, k) ==> DirtyHolds(t, k);
    hide DirtyHolds;
    assert forall b :: 0 <= b < |s.bufs| ==> BufOk(s, s.bufs[b]);
  }

  lemma MoveUnheld(s: State, t: State, p: nat, pc: PC)
    requires Holders(s) && p in s.procs && t == s.Go(p, pc) && !Holds(pc)
    requires pc.Getting? || pc.Waiting? ==> pc.key in s.disk
    ensures Holders(t)
  {
    forall q | q in t.procs
      ensures HoldOk(t, t.procs[q])
    {
      assert q != p ==> HoldOk(s, s.procs[q]);
    }
    hide HoldOk;
  }

  /** Process p moves to where it holds nothing. */
  lemma MoveKeeps(s: State, t: State, p: nat, pc: PC)
    requires Inv(s) && p in s.procs && t == s.Go(p, pc) && !Holds(pc) && WaitOk(s, pc)
    requires pc.Getting? || pc.Waiting? ==> pc.key in s.disk
    ensures Inv(t) && DirtyKept(s, t)
  {
    hide Holders, OneCopy, Coherent, IsPermutation, DirtyKept, ByUse;
    MoveUnheld(s, t, p, pc);
    SameBufs(s, t);
    assert forall q :: q in s.procs ==> WaitOk(s, s.procs[q]);
  }

  lemma StartKeeps(s: State, t: State, p: nat, key: Key)
    requires Inv(s) && Start(s, t, p, key)
    ensures Inv(t) && DirtyKept(s, t)
  {
    hide Inv, DirtyKept;
    MoveKeeps(s, t, p, Getting(key));
  }

  lemma WakeKeeps(s: State, t: State, p: nat, key: Key, b: nat)
    requires Inv(s) && Wake(s, t, p, key, b)
    ensures Inv(t) && DirtyKept(s, t)
  {
    hide Holders, OneCopy, Coherent, Waiters, ByUse, IsPermutation, DirtyKept;
    WantedKey(s, p);
    MoveKeeps(s, t, p, Getting(key));
  }

  /** Whoever holds a buffer has it busy. */
  lemma IdleUnheld(s: State, b: nat)
    requires Holders(s) && b < |s.bufs| && !s.bufs[b].busy
    ensures forall q :: q in s.procs && Holds(s.procs[q]) ==> s.procs[q].b != b
  {
    forall q | q in s.procs && Holds(s.procs[q])
      ensures s.procs[q].b != b
    {
      assert HoldOk(s, s.procs[q]);
    }
  }

  /** Coherence survives replacing buffer b by f if f is fit and hides no dirty sector. */
  lemma SetCoherent(s: State, t: State, b: nat, f: Buf)
    requires Coherent(s) && b < |s.bufs| && t.bufs == s.bufs[b := f]
    requires t.disk == s.disk && t.latest == s.latest && BufOk(t, f)
    requires s.bufs[b].dirty ==> f.dirty && f.key == s.bufs[b].key
    ensures Coherent(t)
  {
    forall key | DirtyHolds(s, key)
      ensures DirtyHolds(t, key)
    {
      var c :| 0 <= c < |s.bufs| && s.bufs[c].key == key && s.bufs[c].dirty;
      assert t.bufs[c].key == key && t.bufs[c].dirty;
    }
    hide DirtyHolds;
    forall c | 0 <= c < |t.bufs|
      ensures BufOk(t, t.bufs[c])
    {
      assert BufOk(s, s.bufs[c]);
    }
  }

  lemma FoundKeeps(s: State, t: State, p: nat, key: Key, b: nat)
    requires Inv(s) && Found(s, t, p, key, b)
    ensures Inv(t) && DirtyKept(s, t)
  {
    hide Holders, OneCopy, Coherent, Waiters, ByUse, IsPermutation, DirtyKept;
    WantedKey(s, p);
    if s.bufs[b].busy {
      MoveKeeps(s, t, p, Waiting(key, b));
    } else {
      BufAt(s, b);
      IdleUnheld(s, b);
      var f := s.bufs[b].(busy := true);
      SetHolders(s, t, p, b, f);
      WaitersKept(s, t, p, b, f);
      SetCoherent(s, t, b, f);
      SameKey(s, t, b, f);
      DirtyStill(s, t, b, f);
    }
  }

  lemma RecycleKeeps(s: State, t: State, p: nat, key: Key, i: nat)
    requires Inv(s) && Recycle(s, t, p, key, i)
    ensures Inv(t) && DirtyKept(s, t)
  {
    hide Holders, OneCopy, Coherent, Waiters, ByUse, IsPermutation, DirtyKept, Cached;
    var b := s.ring[i];
    var f := Buf(key, true, false, false, s.bufs[b].data);
    WantedKey(s, p);
    IdleUnheld(s, b);
    SetHolders(s, t, p, b, f);
    WaitersKept(s, t, p, b, f);
    SetCoherent(s, t, b, f);
    NewKey(s, t, b, f);
    DirtyStill(s, t, b, f);
  }

  lemma FetchKeeps(s: State, t: State, p: nat, key: Key, b: nat)
    requires Inv(s) && Fetch(s, t, p, key, b)
    ensures Inv(t) && t.bufs[b].data == t.latest[key] && DirtyKept(s, t)
  {
    hide Holders, OneCopy, Coherent, Waiters, ByUse, IsPermutation, DirtyKept;
    HeldBuf(s, p);
    BufAt(s, b);
    var f := t.bufs[b];
    assert t.bufs == s.bufs[b := f];
    if !s.bufs[b].valid {
      CleanOnDisk(s, b);
    }
    SetHolders(s, t, p, b, f);
    WaitersKept(s, t, p, b, f);
    SetCoherent(s, t, b, f);
    SameKey(s, t, b, f);
    DirtyStill(s, t, b, f);
  }

  /** If the one buffer for a sector is clean, the disk has the latest data. */
  lemma CleanOnDisk(s: State, b: nat)
    requires OneCopy(s) && Coherent(s) && b < |s.bufs| && s.bufs[b].key != NoDev && !s.bufs[b].dirty
    ensures s.bufs[b].key in s.disk && s.disk[s.bufs[b].key] == s.latest[s.bufs[b].key]
  {
    assert BufOk(s, s.bufs[b]);
  }

  lemma DirtyElsewhere(s: State, t: State, b: nat, key: Key)
    requires b < |s.bufs| && |t.bufs| == |s.bufs| && t.bufs == s.bufs[b := t.bufs[b]]
    requires DirtyHolds(s, key) && s.bufs[b].key != key
    ensures DirtyHolds(t, key)
  {
    var c :| 0 <= c < |s.bufs| && s.bufs[c].key == key && s.bufs[c].dirty;
    assert t.bufs[c].key == key && t.bufs[c].dirty;
  }

  /** Coherence when the holder of a sector's buffer b records its data as the latest. */
  lemma RecordCoherent(s: State, t: State, b: nat, f: Buf)
    requires OneCopy(s) && Coherent(s) && b < |s.bufs| && t.bufs == s.bufs[b := f] && f.key == s.bufs[b].key
    requires f.key in s.disk && f.busy && f.valid && f.key != NoDev
    requires t.latest == s.latest[f.key := f.data]
    requires (t.disk == s.disk && f.dirty) || t.disk == s.disk[f.key := f.data]
    ensures Coherent(t)
  {
    forall key | key in t.disk && t.disk[key] != t.latest[key]
      ensures DirtyHolds(t, key)
    {
      if key == f.key {
        assert t.bufs[b].key == key && t.bufs[b].dirty;
      } else {
        DirtyElsewhere(s, t, b, key);
      }
    }
    hide DirtyHolds;
    assert t.disk.Keys == s.disk.Keys && t.latest.Keys == s.latest.Keys;
    forall c | 0 <= c < |t.bufs|
      ensures BufOk(t, t.bufs[c])
    {
      assert BufOk(s, s.bufs[c]);
      assert c != b && s.bufs[c].key != NoDev ==> s.bufs[c].key != f.key;
    }
  }

  lemma ModifyKeeps(s: State, t: State, p: nat, key: Key, b: nat, data: Block)
    requires Inv(s) && Modify(s, t, p, key, b, data)
    ensures Inv(t) && DirtyKept(s, t)
  {
    hide Holders, OneCopy, Coherent, Waiters, ByUse, IsPermutation, DirtyKept;
    HeldBuf(s, p);
    BufAt(s, b);
    var f := s.bufs[b].(data := data);
    assert s.procs == s.procs[p := s.procs[p]];
    SetHolders(s, t, p, b, f);
    WaitersKept(s, t, p, b, f);
    SetCoherent(s, t, b, f);
    SameKey(s, t, b, f);
    DirtyStill(s, t, b, f);
  }

  /** Process p, holding b, goes to pc with its data recorded as the latest. */
  lemma RecordHolders(s: State, t: State, p: nat, b: nat, pc: PC)
    requires OneCopy(s) && Holders(s) && p in s.procs && Holds(s.procs[p]) && s.procs[p].b == b < |s.bufs|
    requires t.procs == s.procs[p := pc] && (pc.Holding? || pc.Writing?) && pc.key == s.procs[p].key && pc.b == b
    requires |t.bufs| == |s.bufs| && t.bufs == s.bufs[b := t.bufs[b]]
    requires t.bufs[b] == s.bufs[b].(dirty := pc.Writing? || t.bufs[b].dirty) && s.bufs[b].valid
    requires t.latest == s.latest[pc.key := s.bufs[b].data] && t.disk.Keys == s.disk.Keys
    ensures Holders(t)
  {
    assert HoldOk(s, s.procs[p]);
    OthersKeep(s, t, p, b, t.bufs[b]);
    MoveHolders(s, t, p);
  }

  lemma RecordKeeps(s: State, t: State, p: nat, key: Key, b: nat)
    requires Inv(s) && (LogWrite(s, t, p, key, b) || Bwrite(s, t, p, key, b) || WriteDone(s, t, p, key, b))
    ensures Inv(t) && DirtyKept(s, t)
  {
    hide Holders, OneCopy, Coherent, Waiters, ByUse, IsPermutation, DirtyKept;
    HeldBuf(s, p);
    assert s.latest[key := s.latest[key]] == s.latest && s.procs[p := s.procs[p]] == s.procs;
    assert s.disk.Keys == s.disk[key := t.bufs[b].data].Keys;
    RecordHolders(s, t, p, b, t.procs[p]);
    RecordCoherent(s, t, b, t.bufs[b]);
    WaitersKept(s, t, p, b, t.bufs[b]);
    SameKey(s, t, b, t.bufs[b]);
    RecordDirty(s, t, p, key, b);
  }

  lemma RecordDirty(s: State, t: State, p: nat, key: Key, b: nat)
    requires LogWrite(s, t, p, key, b) || Bwrite(s, t, p, key, b) || WriteDone(s, t, p, key, b)
    requires s.bufs[b].key == key && key in t.latest && t.latest[key] == s.bufs[b].data
    ensures DirtyKept(s, t)
  {
  }

  lemma {:induction false} WithoutKeeps(ring: seq<nat>, b: nat)
    requires NoneTwice(ring) && b in ring
    ensures |Without(ring, b)| == |ring| - 1 && NoneTwice(Without(ring, b))
    ensures forall x :: x in Without(ring, b) <==> x in ring && x != b
  {
    assert ring == [ring[0]] + ring[1..];
    if ring[0] != b {
      WithoutKeeps(ring[1..], b);
      var rest := Without(ring[1..], b);
      assert forall i :: 0 <= i < |rest| ==> rest[i] in rest;
    }
  }

  /** brelse keeps the ring a permutation of all buffers. */
  lemma FrontKeepsPermutation(ring: seq<nat>, n: nat, b: nat)
    requires IsPermutation(ring, n) && b < n
    ensures IsPermutation(MoveToFront(ring, b), n)
  {
    WithoutKeeps(ring, b);
    assert MoveToFront(ring, b)[1..] == Without(ring, b);
  }

  lemma ReleasedFor(s: State, t: State, p: nat, key: Key, b: nat, q: nat)
    requires Holders(s) && Release(s, t, p, key, b) && q in t.procs
    ensures HoldOk(t, t.procs[q])
    ensures Holds(t.procs[q]) ==> q != p && t.procs[q] == s.procs[q]
  {
    hide Holders, MoveToFront;
    HeldBuf(s, p);
    HeldBuf(s, q);
  }

  lemma ReleaseHolders(s: State, t: State, p: nat, key: Key, b: nat)
    requires Holders(s) && Release(s, t, p, key, b)
    ensures Holders(t)
  {
    hide MoveToFront, HoldOk;
    forall q | q in t.procs
      ensures HoldOk(t, t.procs[q]) && (Holds(t.procs[q]) ==> q != p && t.procs[q] == s.procs[q])
    {
      ReleasedFor(s, t, p, key, b, q);
    }
  }

  /** No process waits for b any more, and the others' buffers are as they were. */
  lemma ReleaseWaiters(s: State, t: State, p: nat, key: Key, b: nat)
    requires Waiters(s) && Release(s, t, p, key, b)
    ensures Waiters(t)
  {
    hide MoveToFront;
    forall q | q in t.procs
      ensures WaitOk(t, t.procs[q])
    {
      assert WaitOk(s, s.procs[q]);
    }
  }

  lemma RestByUse(released: seq<nat>, ring: seq<nat>)
    requires ByUse(released, ring) && ring != []
    ensures ByUse(released, ring[1..])
    ensures forall x :: x in ring[1..] ==> LastUse(released, ring[0]) >= LastUse(released, x)
  {
    hide LastUse;
    var rest := ring[1..];
    assert forall i :: 0 <= i < |rest| ==> rest[i] == ring[i + 1];
  }

  lemma OntoByUse(released: seq<nat>, a: nat, w: seq<nat>)
    requires ByUse(released, w) && forall x :: x in w ==> LastUse(released, a) >= LastUse(released, x)
    ensures ByUse(released, [a] + w)
  {
    hide LastUse;
    var all := [a] + w;
    assert forall i :: 0 < i < |all| ==> all[i] == w[i - 1] && w[i - 1] in w;
  }

  lemma {:induction false} WithoutByUse(released: seq<nat>, ring: seq<nat>, b: nat)
    requires ByUse(released, ring)
    ensures ByUse(released, Without(ring, b))
    ensures forall x :: x in Without(ring, b) ==> x in ring
  {
    hide LastUse;
    if ring != [] {
      var rest := ring[1..];
      RestByUse(released, ring);
      if ring[0] != b {
        WithoutByUse(released, rest, b);
        OntoByUse(released, ring[0], Without(rest, b));
      }
    }
  }

  lemma {:induction false} LastUseBound(released: seq<nat>, b: nat)
    ensures LastUse(released, b) <= |released|
  {
    if released != [] {
      LastUseBound(released[..|released| - 1], b);
    }
  }

  /** The buffer just released becomes the first of the ring. */
  lemma ReleaseByUse(released: seq<nat>, ring: seq<nat>, b: nat)
    requires ByUse(released, ring) && NoneTwice(ring) && b in ring
    ensures ByUse(released + [b], MoveToFront(ring, b))
  {
    var after, w := released + [b], Without(ring, b);
    WithoutByUse(released, ring, b);
    WithoutKeeps(ring, b);
    assert after[..|released|] == released;
    forall i | 0 <= i < |w|
      ensures LastUse(after, w[i]) == LastUse(released, w[i]) <= |released|
    {
      assert w[i] in w;
      LastUseBound(released, w[i]);
    }
  }

  lemma BufInRing(s: State, b: nat)
    requires IsPermutation(s.ring, |s.bufs|) && b < |s.bufs|
    ensures NoneTwice(s.ring) && b in s.ring
  {
  }

  lemma ReleaseKeeps(s: State, t: State, p: nat, key: Key, b: nat)
    requires Inv(s) && Release(s, t, p, key, b)
    ensures Inv(t) && DirtyKept(s, t)
  {
    hide Holders, OneCopy, Coherent, Waiters, ByUse, IsPermutation, DirtyKept, MoveToFront;
    var f := s.bufs[b].(busy := false);
    HeldBuf(s, p);
    BufAt(s, b);
    ReleaseHolders(s, t, p, key, b);
    ReleaseWaiters(s, t, p, key, b);
    BufInRing(s, b);
    ReleaseByUse(s.released, s.ring, b);
    FrontKeepsPermutation(s.ring, |s.bufs|, b);
    SetCoherent(s, t, b, f);
    SameKey(s, t, b, f);
    DirtyStill(s, t, b, f);
  }

  lemma StepKeeps(s: State, t: State, p: nat, key: Key)
    requires Inv(s) && ProcStep(s, t, p, key)
    ensures Inv(t) && DirtyKept(s, t)
  {
    hide Inv, DirtyKept;
    if Start(s, t, p, key) {
      StartKeeps(s, t, p, key);
    } else if b :| Found(s, t, p, key, b) {
      FoundKeeps(s, t, p, key, b);
    } else if i :| Recycle(s, t, p, key, i) {
      RecycleKeeps(s, t, p, key, i);
    } else if b :| Fetch(s, t, p, key, b) {
      FetchKeeps(s, t, p, key, b);
    } else if b, data: Block :| Modify(s, t, p, key, b, data) {
      ModifyKeeps(s, t, p, key, b, data);
    } else if b :| LogWrite(s, t, p, key, b) || Bwrite(s, t, p, key, b) || WriteDone(s, t, p, key, b) {
      RecordKeeps(s, t, p, key, b);
    } else if b :| Release(s, t, p, key, b) {
      ReleaseKeeps(s, t, p, key, b);
    } else {
      var b :| Wake(s, t, p, key, b);
      WakeKeeps(s, t, p, key, b);
    }
  }

  // ------------------------------------------------------------------- runs

  /** After binit: no buffer caches anything. */
  ghost predicate Init(s: State) {
    && IsPermutation(s.ring, |s.bufs|)
    && (forall b :: 0 <= b < |s.bufs| ==> s.bufs[b].key == NoDev && !s.bufs[b].busy && !s.bufs[b].dirty)
    && s.latest == s.disk && NoDev !in s.disk && s.released == []
    && forall p :: p in s.procs ==> s.procs[p] == Idle
  }

  ghost predicate IsRun(run: seq<State>) {
    |run| > 0 && Init(run[0]) && forall i :: 0 < i < |run| ==> Next(run[i - 1], run[i])
  }

  lemma InitOk(s: State)
    requires Init(s)
    ensures Inv(s)
  {
  }

  lemma {:induction false} InvAt(run: seq<State>, i: nat)
    requires IsRun(run) && i < |run|
    ensures Inv(run[i])
  {
    hide Inv, ProcStep, Init;
    if i == 0 {
      InitOk(run[0]);
    } else {
      InvAt(run, i - 1);
      assert Next(run[i - 1], run[i]);
      var p, key :| ProcStep(run[i - 1], run[i], p, key);
      StepKeeps(run[i - 1], run[i], p, key);
    }
  }

  /** Over every interleaving no sector is ever in two buffers, and the ring is always a
      permutation of the buffers. */
  lemma CacheIsConsistent(run: seq<State>, i: nat)
    requires IsRun(run) && i < |run|
    ensures OneCopy(run[i]) && IsPermutation(run[i].ring, |run[i].bufs|)
  {
    InvAt(run, i);
    hide OneCopy, IsPermutation, Holders, Coherent, Waiters, ByUse;
  }

  /** bread returns the block last log_written or bwritten, and a process that holds a buffer
      is the only one to. */
  lemma BreadReturnsLatest(run: seq<State>, i: nat, t: State, p: nat, key: Key, b: nat)
    requires IsRun(run) && i < |run| && Fetch(run[i], t, p, key, b)
    ensures key in t.latest && t.bufs[b].data == t.latest[key] && t.bufs[b].key == key
    ensures forall q :: q in t.procs && q != p && Holds(t.procs[q]) ==> t.procs[q].b != b
  {
    InvAt(run, i);
    FetchKeeps(run[i], t, p, key, b);
    assert HoldOk(t, t.procs[p]);
    hide OneCopy, IsPermutation, Coherent;
  }

  /** Nobody sleeps on a buffer that is free: brelse wakes all who wait for it. */
  lemma NobodyWaitsForFree(run: seq<State>, i: nat, p: nat, key: Key, b: nat)
    requires IsRun(run) && i < |run| && p in run[i].procs && run[i].procs[p] == Waiting(key, b)
    ensures b < |run[i].bufs| && run[i].bufs[b].busy && run[i].bufs[b].key == key
  {
    InvAt(run, i);
    hide OneCopy, IsPermutation, Holders, Coherent, ByUse;
    assert WaitOk(run[i], run[i].procs[p]);
  }

  /** bget recycles the least recently used of the buffers that are neither busy nor dirty. */
  lemma RecyclesLeastRecentlyUsed(run: seq<State>, i: nat, t: State, p: nat, key: Key, k: nat, c: nat)
    requires IsRun(run) && i < |run| && Recycle(run[i], t, p, key, k)
    requires c < |run[i].bufs| && !run[i].bufs[c].busy && !run[i].bufs[c].dirty
    ensures LastUse(run[i].released, run[i].ring[k]) <= LastUse(run[i].released, c)
  {
    InvAt(run, i);
    hide OneCopy, Holders, Coherent, Waiters, Cached;
    var ring := run[i].ring;
    assert c in ring;
    var j :| 0 <= j < |ring| && ring[j] == c;
    assert j <= k;
  }

  /** Uncommitted data is never dropped. */
  lemma DirtyStays(run: seq<State>, i: nat)
    requires IsRun(run) && i + 1 < |run|
    ensures DirtyKept(run[i], run[i + 1])
  {
    hide Inv, ProcStep, DirtyKept, Init;
    InvAt(run, i);
    assert Next(run[i], run[i + 1]);
    var p, key :| ProcStep(run[i], run[i + 1], p, key);
    StepKeeps(run[i], run[i + 1], p, key);
  }

  // --------------------------------------------------------------- progress

  predicate Spare(bufs: seq<Buf>, b: nat) {
    b < |bufs| && !bufs[b].busy && !bufs[b].dirty
  }

  lemma {:induction false} LastVictim(s: State, n: nat) returns (i: nat)
    requires n <= |s.ring| && exists j :: 0 <= j < n && Spare(s.bufs, s.ring[j])
    requires forall j :: n <= j < |s.ring| ==> !Spare(s.bufs, s.ring[j])
    ensures IsVictim(s.bufs, s.ring, i)
    decreases n
  {
    if Spare(s.bufs, s.ring[n - 1]) {
      i := n - 1;
    } else {
      i := LastVictim(s, n - 1);
    }
  }

  /** bget can always go on: a sector that is cached is found, one that is not gets a buffer
      unless all are busy or dirty. */
  lemma BgetGoesOn(s: State, p: nat, key: Key)
    requires Inv(s) && s.At(p, Getting(key))
    ensures || (exists t, b :: Found(s, t, p, key, b)) || (exists t, i :: Recycle(s, t, p, key, i))
            || forall b :: 0 <= b < |s.bufs| ==> s.bufs[b].busy || s.bufs[b].dirty
  {
    hide OneCopy, Holders, Coherent, Waiters, ByUse;
    if b :| 0 <= b < |s.bufs| && s.bufs[b].key == key {
      var t := if s.bufs[b].busy then s.Go(p, Waiting(key, b))
               else s.Set(b, s.bufs[b].(busy := true)).Go(p, Got(key, b));
      assert Found(s, t, p, key, b);
    } else if b :| 0 <= b < |s.bufs| && !s.bufs[b].busy && !s.bufs[b].dirty {
      assert b in s.ring && Spare(s.bufs, b);
      var i := LastVictim(s, |s.ring|);
      var c := s.ring[i];
      var t := s.Set(c, Buf(key, true, false, false, s.bufs[c].data)).Go(p, Got(key, c));
      assert Recycle(s, t, p, key, i);
    }
  }

  /** And once it has a buffer, bread has the latest data of the sector in it. */
  lemma BreadGoesOn(s: State, p: nat, key: Key, b: nat) returns (t: State)
    requires Inv(s) && s.At(p, Got(key, b))
    ensures Fetch(s, t, p, key, b) && t.At(p, Holding(key, b)) && key in s.latest && t.bufs[b].data == s.latest[key]
  {
    hide OneCopy, Holders, Coherent, Waiters, ByUse, IsPermutation, DirtyKept;
    HeldBuf(s, p);
    t := (if s.bufs[b].valid then s else s.Set(b, s.bufs[b].(valid := true, data := s.disk[key])))
           .Go(p, Holding(key, b));
    FetchKeeps(s, t, p, key, b);
  }

  /** bwrite puts the holder's data on the disk and leaves the buffer clean. */
  lemma BwriteGoesOn(s: State, p: nat, key: Key, b: nat) returns (t: State, u: State)
    requires Inv(s) && s.At(p, Holding(key, b))
    ensures Bwrite(s, t, p, key, b) && WriteDone(t, u, p, key, b) && u.At(p, Holding(key, b))
    ensures key in u.disk && key in u.latest && u.disk[key] == u.latest[key] == u.bufs[b].data == s.bufs[b].data
    ensures !u.bufs[b].dirty && u.bufs[b].busy && |u.bufs| == |s.bufs|
    ensures forall c :: 0 <= c < |s.bufs| && c != b ==> u.bufs[c] == s.bufs[c]
    ensures forall k :: k in s.disk && k != key ==> k in u.disk && u.disk[k] == s.disk[k]
  {
    hide OneCopy, Holders, Coherent, Waiters, ByUse, IsPermutation;
    HeldBuf(s, p);
    t := s.(latest := s.latest[key := s.bufs[b].data]).Set(b, s.bufs[b].(dirty := true)).Go(p, Writing(key, b));
    u := t.(disk := t.disk[key := t.bufs[b].data]).Set(b, t.bufs[b].(dirty := false)).Go(p, Holding(key, b));
  }

  /** brelse by a holder who has recorded its data leaves the buffer free, and awake all who
      wanted it. */
  lemma BrelseGoesOn(s: State, p: nat, key: Key, b: nat) returns (t: State)
    requires Inv(s) && s.At(p, Holding(key, b)) && key in s.latest && s.bufs[b].data == s.latest[key]
    ensures Release(s, t, p, key, b) && b < |t.bufs| && !t.bufs[b].busy && t.At(p, Idle)
    ensures forall q, k :: q in s.procs && s.procs[q] == Waiting(k, b) ==> t.At(q, Getting(k))
  {
    hide OneCopy, Holders, Coherent, Waiters, ByUse, IsPermutation, MoveToFront;
    t := State(s.bufs[b := s.bufs[b].(busy := false)], MoveToFront(s.ring, b), s.disk, s.latest,
               (map q | q in s.procs :: Woken(s.procs[q], b))[p := Idle], s.released + [b]);
  }
}

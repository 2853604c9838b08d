/** Directory entries and link counts: what link, unlink, create and the freeing of unlinked
    inodes do to a file system, each within one transaction. */
module LinkSpec {
  import opened Sets

  /** Entry 0 marks a free slot. Names are at most DIRSIZ characters, as skipelem cuts them. */
  datatype Dirent = Dirent(inum: nat, name: string)

  datatype Kind = Free | Dir | File | Device

  datatype Inode = Inode(kind: Kind, nlink: int, ents: seq<Dirent>)

  const ROOT: nat := 1
  const NO_ENTRY := Dirent(0, "")
  /** MAXFILE blocks of 512 / 16 entries. */
  const MAX_ENTRIES: nat := 140 * 32

  predicate Linked(s: seq<Inode>, d: nat) {
    d < |s| && s[d].kind.Dir? && s[d].nlink > 0
  }

  // ------------------------------------------------------------ directories

  predicate Used(e: Dirent, name: string) {
    e.inum != 0 && e.name == name
  }

  predicate Present(ents: seq<Dirent>, name: string) {
    exists k :: 0 <= k < |ents| && Used(ents[k], name)
  }

  /** dirlink writes the first free slot, or one past the last. */
  function FreeSlot(ents: seq<Dirent>): (k: nat)
    ensures k <= |ents| && (k < |ents| ==> ents[k].inum == 0)
    ensures forall j :: 0 <= j < k ==> ents[j].inum != 0
  {
    if ents == [] || ents[0].inum == 0 then 0 else
      var k := FreeSlot(ents[1..]);
      assert forall j :: 0 < j < k + 1 ==> ents[j] == ents[1..][j - 1];
      k + 1
  }

  function Enter(ents: seq<Dirent>, name: string, inum: nat): seq<Dirent> {
    var k := FreeSlot(ents);
    if k < |ents| then ents[k := Dirent(inum, name)] else ents + [Dirent(inum, name)]
  }

  ghost predicate NamesOnce(ents: seq<Dirent>) {
    forall i, j :: 0 <= i < j < |ents| && ents[i].inum != 0 && ents[j].inum != 0 ==> ents[i].name != ents[j].name
  }

  /** isdirempty looks from the third entry on. */
  predicate Empty(ents: seq<Dirent>) {
    forall k :: 2 <= k < |ents| ==> ents[k].inum == 0
  }

  // ------------------------------------------------------------------ steps

  ghost predicate CanEnter(s: seq<Inode>, dp: nat, name: string) {
    Linked(s, dp) && !Present(s[dp].ents, name)
  }

  function Entered(s: seq<Inode>, dp: nat, name: string, inum: nat, more: int): seq<Inode>
    requires dp < |s|
  {
    s[dp := Inode(s[dp].kind, s[dp].nlink + more, Enter(s[dp].ents, name, inum))]
  }

  /** sys_link of a file that is not a directory; its own count may have gone to zero. */
  ghost predicate LinkStep(s: seq<Inode>, t: seq<Inode>, ip: nat, dp: nat, name: string) {
    && 0 < ip < |s| && !s[ip].kind.Dir? && !s[ip].kind.Free? && CanEnter(s, dp, name)
    && t == Entered(s[ip := s[ip].(nlink := s[ip].nlink + 1)], dp, name, ip, 0)
  }

  /** sys_unlink of entry k of dp. */
  ghost predicate UnlinkStep(s: seq<Inode>, t: seq<Inode>, dp: nat, k: nat) {
    && Linked(s, dp) && k < |s[dp].ents|
    && var e := s[dp].ents[k];
       && 0 < e.inum < |s| && e.name != "." && e.name != ".."
       && var ip := e.inum;
          && (s[ip].kind.Dir? ==> Empty(s[ip].ents))
          && t == Unlinked(s, dp, k, ip)
  }

  function Unlinked(s: seq<Inode>, dp: nat, k: nat, ip: nat): seq<Inode>
    requires dp < |s| && k < |s[dp].ents| && ip < |s|
  {
    var less := if s[ip].kind.Dir? then 1 else 0;
    var u := s[dp := Inode(s[dp].kind, s[dp].nlink - less, s[dp].ents[k := NO_ENTRY])];
    u[ip := u[ip].(nlink := u[ip].nlink - 1)]
  }

  /** create of a new file or device. */
  ghost predicate CreateFileStep(s: seq<Inode>, t: seq<Inode>, dp: nat, name: string, ip: nat, kind: Kind) {
    && 0 < ip < |s| && s[ip].kind.Free? && CanEnter(s, dp, name) && (kind.File? || kind.Device?)
    && t == Entered(s[ip := Inode(kind, 1, [])], dp, name, ip, 0)
  }

  function Dots(ip: nat, dp: nat): seq<Dirent> {
    [Dirent(ip, "."), Dirent(dp, "..")]
  }

  /** create of a new directory. */
  ghost predicate CreateDirStep(s: seq<Inode>, t: seq<Inode>, dp: nat, name: string, ip: nat) {
    && 0 < ip < |s| && s[ip].kind.Free? && CanEnter(s, dp, name)
    && t == Entered(s[ip := Inode(Dir, 1, Dots(ip, dp))], dp, name, ip, 1)
  }

  /** iput of the last reference to an unlinked inode. */
  ghost predicate FreeStep(s: seq<Inode>, t: seq<Inode>, ip: nat) {
    0 < ip < |s| && !s[ip].kind.Free? && s[ip].nlink == 0 && t == s[ip := Inode(Free, 0, [])]
  }

  ghost predicate Next(s: seq<Inode>, t: seq<Inode>) {
    || (exists ip, dp, name :: LinkStep(s, t, ip, dp, name))
    || (exists dp, k :: UnlinkStep(s, t, dp, k))
    || (exists dp, name, ip, kind :: CreateFileStep(s, t, dp, name, ip, kind))
    || (exists dp, name, ip :: CreateDirStep(s, t, dp, name, ip))
    || (exists ip :: FreeStep(s, t, ip))
  }

  // ------------------------------------------------------------- invariants

  /** Entry k of the linked directory d names inode i, and is not ".". */
  predicate IsRef(s: seq<Inode>, i: nat, d: nat, k: nat) {
    Linked(s, d) && k < |s[d].ents| && s[d].ents[k].inum == i && s[d].ents[k].name != "."
  }

  ghost function Refs(s: seq<Inode>, i: nat): set<(nat, nat)> {
    set d: nat, k: nat | d < |s| && k < |s[d].ents| && IsRef(s, i, d, k) :: (d, k)
  }

  ghost predicate Counts(s: seq<Inode>) {
    forall i: nat {:trigger Refs(s, i)} :: 0 < i < |s| ==> s[i].nlink == |Refs(s, i)|
  }

  ghost predicate DirOk(s: seq<Inode>, d: nat)
    requires d < |s|
  {
    var e := s[d].ents;
    && |e| >= 2 && e[0] == Dirent(d, ".") && e[1].name == ".."
    && e[1].inum < |s| && s[e[1].inum].kind.Dir? && s[e[1].inum].nlink > 0
    && NamesOnce(e) && (forall k :: 0 <= k < |e| ==> e[k].inum < |s|)
  }

  ghost predicate Shape(s: seq<Inode>) {
    && |s| > ROOT && Linked(s, ROOT) && s[0].kind.Free?
    && (forall i :: 0 <= i < |s| && s[i].kind.Free? ==> s[i].nlink == 0)
    && (forall d: nat :: Linked(s, d) ==> d != 0 && DirOk(s, d))
  }

  function Parent(s: seq<Inode>, d: nat): nat {
    if d < |s| && |s[d].ents| >= 2 then s[d].ents[1].inum else 0
  }

  /** Entry k >= 2 of the linked directory d names the directory c. */
  predicate Holds(s: seq<Inode>, d: nat, k: nat, c: nat) {
    && Linked(s, d) && 2 <= k < |s[d].ents| && s[d].ents[k].inum == c
    && 0 < c < |s| && s[c].kind.Dir?
  }

  /** Every directory but the root has one entry, in the directory that its ".." names. */
  ghost predicate Tree(s: seq<Inode>) {
    && Parent(s, ROOT) == ROOT
    && (forall d: nat, k: nat, c: nat :: Holds(s, d, k, c) ==> c != ROOT && Linked(s, c) && Parent(s, c) == d)
    && (forall d: nat, k: nat, m: nat, c: nat :: Holds(s, d, k, c) && Holds(s, d, m, c) ==> k == m)
    && (forall c: nat {:trigger Parent(s, c)} ::
          Linked(s, c) && c != ROOT ==> exists k: nat :: Holds(s, Parent(s, c), k, c))
    && (forall d: nat {:trigger Rooted(s, d)} :: Linked(s, d) ==> Rooted(s, d))
  }

  /** The way up from d leads to the root. */
  ghost predicate Rooted(s: seq<Inode>, d: nat) {
    exists n: nat :: Reaches(s, d, n)
  }

  /** n steps along ".." lead from d to the root, and no fewer. */
  ghost predicate Reaches(s: seq<Inode>, d: nat, n: nat)
    decreases n
  {
    && Linked(s, d)
    && if n == 0 then d == ROOT else d != ROOT && Reaches(s, Parent(s, d), n - 1)
  }

  ghost predicate Inv(s: seq<Inode>) {
    Shape(s) && Counts(s) && Tree(s)
  }

  // ---------------------------------------------------------- preservation

  lemma RefsAre(s: seq<Inode>, i: nat, r: set<(nat, nat)>)
    requires forall d: nat, k: nat :: (d, k) in r <==> IsRef(s, i, d, k)
    ensures Refs(s, i) == r
  {
    forall x: (nat, nat)
      ensures x in Refs(s, i) <==> x in r
    {
      var (d, k) := x;
      assert (d, k) in r <==> IsRef(s, i, d, k);
    }
  }

  lemma InRefs(s: seq<Inode>, i: nat)
    ensures forall d: nat, k: nat :: (d, k) in Refs(s, i) <==> IsRef(s, i, d, k)
  {
  }

  lemma RefsSame(s: seq<Inode>, t: seq<Inode>, i: nat)
    requires forall a: nat, j: nat :: IsRef(t, i, a, j) <==> IsRef(s, i, a, j)
    ensures |Refs(t, i)| == |Refs(s, i)|
  {
    InRefs(s, i);
    hide IsRef, Refs;
    RefsAre(t, i, Refs(s, i));
  }

  lemma RefAdded(s: seq<Inode>, t: seq<Inode>, i: nat, d: nat, k: nat)
    requires !IsRef(s, i, d, k)
    requires forall a: nat, j: nat :: IsRef(t, i, a, j) <==> IsRef(s, i, a, j) || (a == d && j == k)
    ensures |Refs(t, i)| == |Refs(s, i)| + 1
  {
    InRefs(s, i);
    hide IsRef, Refs;
    RefsAre(t, i, Refs(s, i) + {(d, k)});
  }

  lemma RefRemoved(s: seq<Inode>, t: seq<Inode>, i: nat, d: nat, k: nat)
    requires IsRef(s, i, d, k)
    requires forall a: nat, j: nat :: IsRef(t, i, a, j) <==> IsRef(s, i, a, j) && !(a == d && j == k)
    ensures |Refs(t, i)| == |Refs(s, i)| - 1
  {
    InRefs(s, i);
    hide IsRef, Refs;
    RefsAre(t, i, Refs(s, i) - {(d, k)});
  }

  /** An entry read back after a dirlink. */
  lemma EnterAt(ents: seq<Dirent>, name: string, inum: nat)
    ensures var e, k := Enter(ents, name, inum), FreeSlot(ents);
            && k < |e| && e[k] == Dirent(inum, name) && |ents| <= |e|
            && (forall j :: 0 <= j < |e| && j != k ==> j < |ents| && e[j] == ents[j])
  {
  }

  lemma EnterNames(ents: seq<Dirent>, name: string, inum: nat)
    requires NamesOnce(ents) && !Present(ents, name)
    ensures NamesOnce(Enter(ents, name, inum))
  {
    EnterAt(ents, name, inum);
    hide Enter;
    assert forall j :: 0 <= j < |ents| && ents[j].inum != 0 ==> !Used(ents[j], name);
  }

  lemma LinkedDir(s: seq<Inode>, d: nat)
    requires Shape(s) && Linked(s, d)
    ensures d != 0 && DirOk(s, d)
  {
  }

  lemma FreeZero(s: seq<Inode>, i: nat)
    requires Shape(s) && i < |s| && s[i].kind.Free?
    ensures s[i].nlink == 0
  {
  }

  /** The new slot of a linked directory is past its dots. */
  lemma SlotPastDots(s: seq<Inode>, dp: nat, name: string)
    requires Shape(s) && CanEnter(s, dp, name)
    ensures FreeSlot(s[dp].ents) >= 2 && name != "." && name != ".."
  {
    assert DirOk(s, dp);
    assert !Used(s[dp].ents[0], name) && !Used(s[dp].ents[1], name);
  }

  // --- link, and creating a file: one new entry, for an inode that is not a directory

  ghost predicate FileEntered(s: seq<Inode>, t: seq<Inode>, dp: nat, name: string, ip: nat) {
    && 0 < ip < |s| && !s[ip].kind.Dir? && CanEnter(s, dp, name)
    && |t| == |s| && !t[ip].kind.Dir? && !t[ip].kind.Free?
    && t[dp] == s[dp].(ents := Enter(s[dp].ents, name, ip))
    && (forall i :: 0 <= i < |s| && i != ip && i != dp ==> t[i] == s[i])
  }

  lemma FileEnteredDir(s: seq<Inode>, t: seq<Inode>, dp: nat, name: string, ip: nat, d: nat)
    requires Shape(s) && FileEntered(s, t, dp, name, ip)
    ensures Linked(t, d) <==> Linked(s, d)
    ensures Linked(s, d) ==> DirOk(t, d)
  {
    SlotPastDots(s, dp, name);
    EnterAt(s[dp].ents, name, ip);
    EnterNames(s[dp].ents, name, ip) by {
      assert DirOk(s, dp);
    }
    assert Linked(s, d) ==> DirOk(s, d);
    hide Enter, NamesOnce, Shape;
  }

  lemma FileEnteredShape(s: seq<Inode>, t: seq<Inode>, dp: nat, name: string, ip: nat)
    requires Shape(s) && FileEntered(s, t, dp, name, ip)
    ensures Shape(t)
  {
    forall d: nat
      ensures Linked(t, d) <==> Linked(s, d)
      ensures Linked(s, d) ==> DirOk(t, d)
    {
      FileEnteredDir(s, t, dp, name, ip, d);
    }
    hide DirOk, Enter, Present;
  }

  lemma FileEnteredRef(s: seq<Inode>, t: seq<Inode>, dp: nat, name: string, ip: nat, i: nat, d: nat, j: nat)
    requires Shape(s) && FileEntered(s, t, dp, name, ip) && i > 0
    ensures IsRef(t, i, d, j) <==> IsRef(s, i, d, j) || (i == ip && d == dp && j == FreeSlot(s[dp].ents))
    ensures !IsRef(s, i, dp, FreeSlot(s[dp].ents))
  {
    SlotPastDots(s, dp, name);
    EnterAt(s[dp].ents, name, ip);
    hide Enter, Shape;
  }

  lemma FileEnteredRefs(s: seq<Inode>, t: seq<Inode>, dp: nat, name: string, ip: nat, i: nat)
    requires Shape(s) && FileEntered(s, t, dp, name, ip) && i > 0
    ensures |Refs(t, i)| == |Refs(s, i)| + if i == ip then 1 else 0
  {
    var k := FreeSlot(s[dp].ents);
    forall d: nat, j: nat
      ensures IsRef(t, i, d, j) <==> IsRef(s, i, d, j) || (i == ip && d == dp && j == k)
    {
      FileEnteredRef(s, t, dp, name, ip, i, d, j);
    }
    FileEnteredRef(s, t, dp, name, ip, i, dp, k);
    hide IsRef, Refs, Shape;
    if i == ip {
      RefAdded(s, t, i, dp, k);
    } else {
      RefsSame(s, t, i);
    }
  }

  lemma FileEnteredHold(s: seq<Inode>, t: seq<Inode>, dp: nat, name: string, ip: nat, d: nat, k: nat, c: nat)
    requires Shape(s) && FileEntered(s, t, dp, name, ip)
    ensures Holds(s, d, k, c) <==> Holds(t, d, k, c)
    ensures Linked(s, d) <==> Linked(t, d)
    ensures Parent(t, dp) == Parent(s, dp)
  {
    SlotPastDots(s, dp, name);
    EnterAt(s[dp].ents, name, ip);
    hide Enter;
    assert Linked(s, d) ==> DirOk(s, d);
  }

  lemma FileEnteredTree(s: seq<Inode>, t: seq<Inode>, dp: nat, name: string, ip: nat)
    requires Shape(s) && Tree(s) && FileEntered(s, t, dp, name, ip)
    ensures Tree(t)
  {
    forall d: nat, k: nat, c: nat
      ensures Holds(s, d, k, c) <==> Holds(t, d, k, c)
    {
      FileEnteredHold(s, t, dp, name, ip, d, k, c);
    }
    forall d: nat
      ensures Linked(s, d) <==> Linked(t, d)
      ensures Linked(s, d) ==> Parent(t, d) == Parent(s, d)
    {
      FileEnteredHold(s, t, dp, name, ip, d, 0, 0);
    }
    hide Holds, Linked, Parent;
    SameTree(s, t);
  }

  /** The tree part depends only on which directories are linked and on their entries for
      directories. */
  lemma SameTree(s: seq<Inode>, t: seq<Inode>)
    requires Tree(s) && Linked(s, ROOT)
    requires forall d: nat :: Linked(s, d) <==> Linked(t, d)
    requires forall d: nat :: Linked(s, d) ==> Parent(t, d) == Parent(s, d)
    requires forall d: nat, k: nat, c: nat :: Holds(s, d, k, c) <==> Holds(t, d, k, c)
    ensures Tree(t)
  {
    hide Holds, Linked, Parent;
    forall d: nat | Linked(t, d)
      ensures Rooted(t, d)
    {
      assert Rooted(s, d);
      var n: nat :| Reaches(s, d, n);
      SameReach(s, t, d, n);
    }
    hide Reaches;
    forall c: nat | Linked(t, c) && c != ROOT
      ensures exists k: nat :: Holds(t, Parent(t, c), k, c)
    {
      var k: nat :| Holds(s, Parent(s, c), k, c);
    }
  }

  lemma {:induction false} SameReach(s: seq<Inode>, t: seq<Inode>, d: nat, n: nat)
    requires forall x: nat :: Linked(s, x) ==> Linked(t, x) && Parent(t, x) == Parent(s, x)
    requires Reaches(s, d, n)
    ensures Reaches(t, d, n)
    decreases n
  {
    hide Linked, Parent;
    if n > 0 {
      SameReach(s, t, Parent(s, d), n - 1);
    }
  }

  lemma FileEnteredKeeps(s: seq<Inode>, t: seq<Inode>, dp: nat, name: string, ip: nat)
    requires Inv(s) && FileEntered(s, t, dp, name, ip) && t[ip].nlink == s[ip].nlink + 1
    ensures Inv(t)
  {
    hide Enter, Shape, Tree, Refs, Present, Linked;
    FileEnteredShape(s, t, dp, name, ip);
    FileEnteredTree(s, t, dp, name, ip);
    forall i: nat | 0 < i < |t|
      ensures t[i].nlink == |Refs(t, i)|
    {
      FileEnteredRefs(s, t, dp, name, ip, i);
    }
  }

  lemma LinkKeeps(s: seq<Inode>, t: seq<Inode>, ip: nat, dp: nat, name: string)
    requires Inv(s) && LinkStep(s, t, ip, dp, name)
    ensures Inv(t)
  {
    hide Inv, Enter, Present;
    FileEnteredKeeps(s, t, dp, name, ip);
  }

  /** Nothing names a free inode, or one whose count is zero. */
  lemma NotNamed(s: seq<Inode>, ip: nat, d: nat, k: nat)
    requires Counts(s) && 0 < ip < |s| && s[ip].nlink == 0
    ensures !IsRef(s, ip, d, k)
  {
    InRefs(s, ip);
    hide IsRef, Refs;
    assert Refs(s, ip) == {};
    assert (d, k) !in Refs(s, ip);
  }

  lemma CreateFileKeeps(s: seq<Inode>, t: seq<Inode>, dp: nat, name: string, ip: nat, kind: Kind)
    requires Inv(s) && CreateFileStep(s, t, dp, name, ip, kind)
    ensures Inv(t)
  {
    hide Shape, Counts, Tree, Enter, Present;
    FreeZero(s, ip);
    FileEnteredKeeps(s, t, dp, name, ip);
  }

  // --- creating a directory: two new entries

  ghost predicate DirEntered(s: seq<Inode>, t: seq<Inode>, dp: nat, name: string, ip: nat) {
    && 0 < ip < |s| && ip != dp < |s| && s[ip].kind.Free? && CanEnter(s, dp, name) && |t| == |s|
    && t[ip] == Inode(Dir, 1, Dots(ip, dp))
    && t[dp] == Inode(Dir, s[dp].nlink + 1, Enter(s[dp].ents, name, ip))
    && (forall i :: 0 <= i < |s| && i != ip && i != dp ==> t[i] == s[i])
  }

  lemma CreatedDir(s: seq<Inode>, t: seq<Inode>, dp: nat, name: string, ip: nat)
    requires CreateDirStep(s, t, dp, name, ip)
    ensures DirEntered(s, t, dp, name, ip)
  {
    hide Enter, Present, Dots;
  }

  lemma NewDir(s: seq<Inode>, t: seq<Inode>, dp: nat, name: string, ip: nat, d: nat)
    requires Shape(s) && DirEntered(s, t, dp, name, ip)
    ensures Linked(t, d) <==> Linked(s, d) || d == ip
    ensures Linked(t, d) ==> DirOk(t, d) && Parent(t, d) == if d == ip then dp else Parent(s, d)
  {
    hide Enter, Shape, NamesOnce, Present;
    SlotPastDots(s, dp, name);
    EnterAt(s[dp].ents, name, ip);
    LinkedDir(s, dp);
    EnterNames(s[dp].ents, name, ip);
    DotsOnce(ip, dp);
    if Linked(s, d) {
      LinkedDir(s, d);
    }
  }

  lemma DotsOnce(ip: nat, dp: nat)
    ensures NamesOnce(Dots(ip, dp))
  {
  }

  lemma NewDirRef(s: seq<Inode>, t: seq<Inode>, dp: nat, name: string, ip: nat, i: nat, d: nat, j: nat)
    requires Shape(s) && DirEntered(s, t, dp, name, ip) && i > 0
    ensures IsRef(t, i, d, j) <==>
              || IsRef(s, i, d, j)
              || (i == ip && d == dp && j == FreeSlot(s[dp].ents)) || (i == dp && d == ip && j == 1)
    ensures !IsRef(s, i, dp, FreeSlot(s[dp].ents)) && !IsRef(s, i, ip, j)
  {
    hide Enter, Shape, Present;
    SlotPastDots(s, dp, name);
    EnterAt(s[dp].ents, name, ip);
  }

  lemma NewDirRefs(s: seq<Inode>, t: seq<Inode>, dp: nat, name: string, ip: nat, i: nat)
    requires Shape(s) && DirEntered(s, t, dp, name, ip) && i > 0
    ensures |Refs(t, i)| == |Refs(s, i)| + if i == ip || i == dp then 1 else 0
  {
    hide IsRef, Refs, Shape, CanEnter, Enter, Dots;
    var k := FreeSlot(s[dp].ents);
    forall d: nat, j: nat
      ensures IsRef(t, i, d, j) <==>
                IsRef(s, i, d, j) || (i == ip && d == dp && j == k) || (i == dp && d == ip && j == 1)
      ensures !IsRef(s, i, dp, k) && !IsRef(s, i, ip, j)
    {
      NewDirRef(s, t, dp, name, ip, i, d, j);
    }
    if i == ip {
      RefAdded(s, t, i, dp, k);
    } else if i == dp {
      RefAdded(s, t, i, ip, 1);
    } else {
      RefsSame(s, t, i);
    }
  }

  lemma NewDirHold(s: seq<Inode>, t: seq<Inode>, dp: nat, name: string, ip: nat, d: nat, k: nat, c: nat)
    requires Shape(s) && Counts(s) && DirEntered(s, t, dp, name, ip)
    ensures Holds(t, d, k, c) <==> Holds(s, d, k, c) || (d == dp && k == FreeSlot(s[dp].ents) && c == ip)
  {
    hide Enter, Shape, Counts, Present;
    SlotPastDots(s, dp, name);
    EnterAt(s[dp].ents, name, ip);
    FreeZero(s, ip);
    NotNamed(s, ip, d, k);
    if Linked(s, d) {
      LinkedDir(s, d);
    }
  }

  lemma NewDirTree(s: seq<Inode>, t: seq<Inode>, dp: nat, name: string, ip: nat)
    requires Inv(s) && DirEntered(s, t, dp, name, ip)
    ensures Tree(t)
  {
    hide Holds, Linked, Parent, Shape, Counts, CanEnter, Enter, Dots, Reaches;
    var slot := FreeSlot(s[dp].ents);
    NewDirFacts(s, t, dp, name, ip);
    forall d: nat, k: nat, c: nat
      ensures Holds(t, d, k, c) <==> Holds(s, d, k, c) || (d == dp && k == slot && c == ip)
    {
      NewDirHold(s, t, dp, name, ip, d, k, c);
    }
    forall d: nat
      ensures Linked(t, d) <==> Linked(s, d) || d == ip
      ensures Linked(t, d) ==> Parent(t, d) == if d == ip then dp else Parent(s, d)
    {
      NewDir(s, t, dp, name, ip, d);
    }
    forall d: nat | Linked(t, d)
      ensures Rooted(t, d)
    {
      assert Rooted(s, if d == ip then dp else d);
      var n: nat :| Reaches(s, if d == ip then dp else d, n);
      SameReach(s, t, if d == ip then dp else d, n);
      if d == ip {
        ReachOneMore(t, d, n);
      }
    }
    forall c: nat | Linked(t, c) && c != ROOT
      ensures exists k: nat :: Holds(t, Parent(t, c), k, c)
    {
      if c == ip {
        assert Holds(t, dp, slot, ip);
      } else {
        var k: nat :| Holds(s, Parent(s, c), k, c);
      }
    }
  }

  lemma ReachOneMore(s: seq<Inode>, d: nat, n: nat)
    requires Linked(s, d) && d != ROOT && Reaches(s, Parent(s, d), n)
    ensures Reaches(s, d, n + 1)
  {
  }

  lemma NewDirFacts(s: seq<Inode>, t: seq<Inode>, dp: nat, name: string, ip: nat)
    requires Shape(s) && DirEntered(s, t, dp, name, ip)
    ensures Linked(s, ROOT) && Linked(s, dp) && !Linked(s, ip) && ip != ROOT
    ensures forall d: nat, k: nat :: !Holds(s, d, k, ip) && !Holds(s, ip, d, k)
  {
    hide Enter, DirOk, Present;
  }

  lemma NewDirShape(s: seq<Inode>, t: seq<Inode>, dp: nat, name: string, ip: nat)
    requires Shape(s) && DirEntered(s, t, dp, name, ip)
    ensures Shape(t)
  {
    hide DirOk, Enter, Present, Dots, Parent;
    forall d: nat
      ensures Linked(t, d) <==> Linked(s, d) || d == ip
      ensures Linked(t, d) ==> DirOk(t, d)
    {
      NewDir(s, t, dp, name, ip, d);
    }
  }

  lemma CreateDirKeeps(s: seq<Inode>, t: seq<Inode>, dp: nat, name: string, ip: nat)
    requires Inv(s) && CreateDirStep(s, t, dp, name, ip)
    ensures Inv(t)
  {
    hide CreateDirStep, Enter, Tree, Refs, Shape, CanEnter, Dots;
    CreatedDir(s, t, dp, name, ip);
    FreeZero(s, ip);
    NewDirTree(s, t, dp, name, ip);
    NewDirShape(s, t, dp, name, ip);
    forall i: nat | 0 < i < |t|
      ensures t[i].nlink == |Refs(t, i)|
    {
      NewDirRefs(s, t, dp, name, ip, i);
    }
  }

  // --- unlinking: an entry is cleared, and with it a directory's ".."

  /** What unlink finds: the entry is past the dots, and its inode is counted. */
  lemma UnlinkedEntry(s: seq<Inode>, dp: nat, k: nat)
    requires Shape(s) && Linked(s, dp) && k < |s[dp].ents|
    requires s[dp].ents[k].name != "." && s[dp].ents[k].name != ".."
    ensures k >= 2
  {
    hide Shape, NamesOnce;
    LinkedDir(s, dp);
  }

  ghost predicate EntryCleared(s: seq<Inode>, t: seq<Inode>, dp: nat, k: nat, ip: nat) {
    && 0 < ip < |s| && ip != dp < |s| && |t| == |s|
    && Linked(s, dp) && k < |s[dp].ents|
    && s[dp].ents[k].inum == ip && s[dp].ents[k].name != "." && s[dp].ents[k].name != ".."
    && t[ip] == s[ip].(nlink := s[ip].nlink - 1)
    && t[dp] == Inode(Dir, s[dp].nlink - (if s[ip].kind.Dir? then 1 else 0), s[dp].ents[k := NO_ENTRY])
    && (forall i :: 0 <= i < |s| && i != ip && i != dp ==> t[i] == s[i])
  }

  /** The panic "unlink: nlink < 1" cannot happen: the entry found is counted. */
  lemma UnlinkCounted(s: seq<Inode>, dp: nat, k: nat)
    requires Counts(s) && Linked(s, dp) && k < |s[dp].ents|
    requires 0 < s[dp].ents[k].inum < |s| && s[dp].ents[k].name != "."
    ensures s[s[dp].ents[k].inum].nlink >= 1
  {
    var ip := s[dp].ents[k].inum;
    InRefs(s, ip);
    assert (dp, k) in Refs(s, ip);
  }

  lemma ClearedNames(ents: seq<Dirent>, k: nat)
    requires NamesOnce(ents) && k < |ents|
    ensures NamesOnce(ents[k := NO_ENTRY])
  {
  }

  // --- of a file

  lemma ClearedFile(s: seq<Inode>, t: seq<Inode>, dp: nat, k: nat, ip: nat, d: nat)
    requires Shape(s) && EntryCleared(s, t, dp, k, ip) && !s[ip].kind.Dir?
    ensures Linked(t, d) <==> Linked(s, d)
    ensures Linked(t, d) ==> DirOk(t, d) && Parent(t, d) == Parent(s, d)
  {
    hide Shape, NamesOnce;
    UnlinkedEntry(s, dp, k);
    LinkedDir(s, dp);
    ClearedNames(s[dp].ents, k);
    if Linked(s, d) {
      LinkedDir(s, d);
    }
  }

  lemma ClearedRef(s: seq<Inode>, t: seq<Inode>, dp: nat, k: nat, ip: nat, i: nat, d: nat, j: nat)
    requires Shape(s) && EntryCleared(s, t, dp, k, ip) && i > 0 && (Linked(t, d) <==> Linked(s, d))
    ensures IsRef(t, i, d, j) <==> IsRef(s, i, d, j) && !(d == dp && j == k)
  {
    hide Shape;
  }

  lemma ClearedFileRefs(s: seq<Inode>, t: seq<Inode>, dp: nat, k: nat, ip: nat, i: nat)
    requires Shape(s) && EntryCleared(s, t, dp, k, ip) && !s[ip].kind.Dir? && i > 0
    ensures |Refs(t, i)| == |Refs(s, i)| - if i == ip then 1 else 0
  {
    hide Refs, Shape;
    forall d: nat, j: nat
      ensures IsRef(t, i, d, j) <==> IsRef(s, i, d, j) && !(d == dp && j == k)
    {
      ClearedFile(s, t, dp, k, ip, d);
      ClearedRef(s, t, dp, k, ip, i, d, j);
    }
    if i == ip {
      RefRemoved(s, t, i, dp, k);
    } else {
      RefsSame(s, t, i);
    }
  }

  lemma ClearedFileShape(s: seq<Inode>, t: seq<Inode>, dp: nat, k: nat, ip: nat)
    requires Shape(s) && EntryCleared(s, t, dp, k, ip) && !s[ip].kind.Dir? && s[ip].nlink >= 1
    ensures Shape(t)
  {
    hide DirOk, Parent;
    forall d: nat
      ensures Linked(t, d) <==> Linked(s, d)
      ensures Linked(t, d) ==> DirOk(t, d)
    {
      ClearedFile(s, t, dp, k, ip, d);
    }
  }

  lemma ClearedHold(s: seq<Inode>, t: seq<Inode>, dp: nat, k: nat, ip: nat, d: nat, j: nat, c: nat)
    requires EntryCleared(s, t, dp, k, ip) && (Linked(s, d) <==> Linked(t, d))
    ensures Holds(t, d, j, c) <==> Holds(s, d, j, c) && !(d == dp && j == k)
  {
  }

  lemma ClearedFileTree(s: seq<Inode>, t: seq<Inode>, dp: nat, k: nat, ip: nat)
    requires Shape(s) && Tree(s) && EntryCleared(s, t, dp, k, ip) && !s[ip].kind.Dir?
    ensures Tree(t)
  {
    hide DirOk, Parent, Tree, Shape;
    forall d: nat
      ensures Linked(t, d) <==> Linked(s, d)
      ensures Linked(t, d) ==> Parent(t, d) == Parent(s, d)
    {
      ClearedFile(s, t, dp, k, ip, d);
    }
    forall d: nat, j: nat, c: nat
      ensures Holds(s, d, j, c) <==> Holds(t, d, j, c)
    {
      ClearedHold(s, t, dp, k, ip, d, j, c);
    }
    RootLinked(s);
    SameTree(s, t);
  }

  lemma RootLinked(s: seq<Inode>)
    requires Shape(s)
    ensures Linked(s, ROOT)
  {
  }

  lemma UnlinkFileKeeps(s: seq<Inode>, t: seq<Inode>, dp: nat, k: nat, ip: nat)
    requires Inv(s) && EntryCleared(s, t, dp, k, ip) && !s[ip].kind.Dir?
    ensures Inv(t)
  {
    hide Tree, Refs, Shape, Linked;
    UnlinkCounted(s, dp, k);
    ClearedFileShape(s, t, dp, k, ip);
    ClearedFileTree(s, t, dp, k, ip);
    forall i: nat | 0 < i < |t|
      ensures t[i].nlink == |Refs(t, i)|
    {
      ClearedFileRefs(s, t, dp, k, ip, i);
    }
  }

  // --- of a directory

  ghost predicate DirCleared(s: seq<Inode>, t: seq<Inode>, dp: nat, k: nat, ip: nat) {
    EntryCleared(s, t, dp, k, ip) && s[ip].kind.Dir? && Empty(s[ip].ents)
  }

  /** No directory lies below an empty one. */
  lemma EmptyHasNoChild(s: seq<Inode>, ip: nat, d: nat)
    requires Shape(s) && Tree(s) && ip != ROOT && 0 < ip < |s| && Empty(s[ip].ents) && Linked(s, d)
    ensures Parent(s, d) != ip
  {
    hide Shape, Reaches;
    assert forall j: nat :: !Holds(s, ip, j, d);
  }

  /** The only entry for an empty directory is the one in its parent. */
  lemma EmptyRef(s: seq<Inode>, dp: nat, k: nat, ip: nat, d: nat, j: nat)
    requires Shape(s) && Tree(s) && Holds(s, dp, k, ip) && Empty(s[ip].ents)
    ensures ip != ROOT && ip != dp && Linked(s, ip) && Parent(s, ip) == dp
    ensures IsRef(s, ip, d, j) <==> d == dp && j == k
  {
    hide Shape, Reaches;
    LinkedDir(s, dp);
    if IsRef(s, ip, d, j) {
      LinkedDir(s, d);
      if j >= 2 {
        assert Holds(s, d, j, ip);
      } else {
        EmptyHasNoChild(s, ip, d);
      }
    }
    if d == dp && j == k {
      assert s[dp].ents[k].name != s[dp].ents[0].name;
    }
  }

  lemma SingleRef(s: seq<Inode>, i: nat, d: nat, k: nat)
    requires forall a: nat, j: nat :: IsRef(s, i, a, j) <==> a == d && j == k
    ensures |Refs(s, i)| == 1
  {
    hide IsRef, Refs;
    RefsAre(s, i, {(d, k)});
  }

  lemma EmptyCount(s: seq<Inode>, dp: nat, k: nat, ip: nat)
    requires Inv(s) && Holds(s, dp, k, ip) && Empty(s[ip].ents)
    ensures s[ip].nlink == 1
  {
    hide Shape, Tree, Refs;
    forall d: nat, j: nat
      ensures IsRef(s, ip, d, j) <==> d == dp && j == k
    {
      EmptyRef(s, dp, k, ip, d, j);
    }
    SingleRef(s, ip, dp, k);
  }

  lemma TwoRefs(s: seq<Inode>, i: nat, a: nat, j: nat, b: nat, k: nat)
    requires IsRef(s, i, a, j) && IsRef(s, i, b, k) && (a != b || j != k)
    ensures |Refs(s, i)| >= 2
  {
    InRefs(s, i);
    hide IsRef, Refs;
    SubsetSize({(a, j), (b, k)}, Refs(s, i));
  }

  /** A directory that has a directory below it counts at least two. */
  lemma ParentCount(s: seq<Inode>, dp: nat, k: nat, ip: nat)
    requires Inv(s) && Holds(s, dp, k, ip)
    ensures s[dp].nlink >= 2
  {
    hide Refs, Reaches, Shape;
    LinkedDir(s, ip);
    LinkedDir(s, dp);
    assert IsRef(s, dp, ip, 1);
    if dp == ROOT {
      assert IsRef(s, dp, dp, 1);
      TwoRefs(s, dp, ip, 1, dp, 1);
    } else {
      var j: nat :| Holds(s, Parent(s, dp), j, dp);
      LinkedDir(s, Parent(s, dp));
      assert s[Parent(s, dp)].ents[0].name != s[Parent(s, dp)].ents[j].name;
      assert IsRef(s, dp, Parent(s, dp), j);
      TwoRefs(s, dp, ip, 1, Parent(s, dp), j);
    }
  }

  lemma DirClearedFacts(s: seq<Inode>, t: seq<Inode>, dp: nat, k: nat, ip: nat)
    requires Inv(s) && DirCleared(s, t, dp, k, ip)
    ensures k >= 2 && Holds(s, dp, k, ip) && s[ip].nlink == 1 && s[dp].nlink >= 2
    ensures ip != ROOT && Linked(s, ip) && Parent(s, ip) == dp && |s[ip].ents| >= 2
    ensures s[ip].ents[0].name == "." && s[ip].ents[1].name == ".."
  {
    hide Shape, Tree, Counts;
    UnlinkedEntry(s, dp, k);
    EmptyCount(s, dp, k, ip);
    ParentCount(s, dp, k, ip);
    EmptyRef(s, dp, k, ip, dp, k);
    LinkedDir(s, ip);
  }

  lemma ClearedDir(s: seq<Inode>, t: seq<Inode>, dp: nat, k: nat, ip: nat, d: nat)
    requires Inv(s) && DirCleared(s, t, dp, k, ip)
    ensures Linked(t, d) <==> Linked(s, d) && d != ip
    ensures Linked(t, d) ==> DirOk(t, d) && Parent(t, d) == Parent(s, d) != ip
  {
    hide Shape, NamesOnce, Tree, Counts;
    DirClearedFacts(s, t, dp, k, ip);
    LinkedDir(s, dp);
    ClearedNames(s[dp].ents, k);
    if Linked(s, d) && d != ip {
      LinkedDir(s, d);
      EmptyHasNoChild(s, ip, d);
    }
  }

  lemma ClearedDirRef(s: seq<Inode>, t: seq<Inode>, dp: nat, k: nat, ip: nat, i: nat, d: nat, j: nat)
    requires Inv(s) && DirCleared(s, t, dp, k, ip) && i > 0
    ensures IsRef(t, i, d, j) <==>
              IsRef(s, i, d, j) && !(i == ip && d == dp && j == k) && !(i == dp && d == ip && j == 1)
  {
    hide Inv;
    DirClearedFacts(s, t, dp, k, ip);
    ClearedDir(s, t, dp, k, ip, d);
    hide DirOk;
  }

  lemma ClearedDirRefs(s: seq<Inode>, t: seq<Inode>, dp: nat, k: nat, ip: nat, i: nat)
    requires Inv(s) && DirCleared(s, t, dp, k, ip) && i > 0
    ensures |Refs(t, i)| == |Refs(s, i)| - if i == ip || i == dp then 1 else 0
  {
    hide Refs, Inv, Empty, Holds;
    DirClearedFacts(s, t, dp, k, ip);
    forall d: nat, j: nat
      ensures IsRef(t, i, d, j) <==>
                IsRef(s, i, d, j) && !(i == ip && d == dp && j == k) && !(i == dp && d == ip && j == 1)
    {
      ClearedDirRef(s, t, dp, k, ip, i, d, j);
    }
    if i == ip {
      RefRemoved(s, t, i, dp, k);
    } else if i == dp {
      RefRemoved(s, t, i, ip, 1);
    } else {
      RefsSame(s, t, i);
    }
  }

  lemma ClearedDirHold(s: seq<Inode>, t: seq<Inode>, dp: nat, k: nat, ip: nat, d: nat, j: nat, c: nat)
    requires Inv(s) && DirCleared(s, t, dp, k, ip)
    ensures Holds(t, d, j, c) <==> Holds(s, d, j, c) && c != ip
  {
    hide Shape, Counts, Reaches;
    DirClearedFacts(s, t, dp, k, ip);
    ClearedDir(s, t, dp, k, ip, d);
    if Holds(s, d, j, ip) {
      assert d == dp && j == k;
    }
  }

  lemma {:induction false} ReachAvoids(s: seq<Inode>, t: seq<Inode>, ip: nat, d: nat, n: nat)
    requires forall x: nat :: Linked(t, x) <==> Linked(s, x) && x != ip
    requires forall x: nat :: Linked(t, x) ==> Parent(t, x) == Parent(s, x) != ip
    requires Reaches(s, d, n) && d != ip
    ensures Reaches(t, d, n)
    decreases n
  {
    hide Linked, Parent;
    if n > 0 {
      ReachAvoids(s, t, ip, Parent(s, d), n - 1);
    }
  }

  lemma ClearedDirTree(s: seq<Inode>, t: seq<Inode>, dp: nat, k: nat, ip: nat)
    requires Inv(s) && DirCleared(s, t, dp, k, ip)
    ensures Tree(t)
  {
    hide Holds, Linked, Parent, Shape, Counts, DirCleared, Reaches, DirOk;
    DirClearedFacts(s, t, dp, k, ip);
    RootLinked(s);
    forall d: nat
      ensures Linked(t, d) <==> Linked(s, d) && d != ip
      ensures Linked(t, d) ==> Parent(t, d) == Parent(s, d) != ip
    {
      ClearedDir(s, t, dp, k, ip, d);
    }
    forall d: nat, j: nat, c: nat
      ensures Holds(t, d, j, c) <==> Holds(s, d, j, c) && c != ip
    {
      ClearedDirHold(s, t, dp, k, ip, d, j, c);
    }
    forall d: nat | Linked(t, d)
      ensures Rooted(t, d)
    {
      assert Rooted(s, d);
      var n: nat :| Reaches(s, d, n);
      ReachAvoids(s, t, ip, d, n);
    }
    forall c: nat | Linked(t, c) && c != ROOT
      ensures exists j: nat :: Holds(t, Parent(t, c), j, c)
    {
      var j: nat :| Holds(s, Parent(s, c), j, c);
    }
  }

  lemma ClearedDirShape(s: seq<Inode>, t: seq<Inode>, dp: nat, k: nat, ip: nat)
    requires Inv(s) && DirCleared(s, t, dp, k, ip)
    ensures Shape(t)
  {
    hide DirOk, Parent, Tree, Counts, Empty;
    DirClearedFacts(s, t, dp, k, ip);
    forall d: nat
      ensures Linked(t, d) <==> Linked(s, d) && d != ip
      ensures Linked(t, d) ==> DirOk(t, d)
    {
      ClearedDir(s, t, dp, k, ip, d);
    }
  }

  lemma UnlinkDirKeeps(s: seq<Inode>, t: seq<Inode>, dp: nat, k: nat, ip: nat)
    requires Inv(s) && DirCleared(s, t, dp, k, ip)
    ensures Inv(t)
  {
    hide Tree, Refs, Shape, Linked, Empty;
    ClearedDirShape(s, t, dp, k, ip);
    ClearedDirTree(s, t, dp, k, ip);
    forall i: nat | 0 < i < |t|
      ensures t[i].nlink == |Refs(t, i)|
    {
      ClearedDirRefs(s, t, dp, k, ip, i);
    }
  }

  /** An entry of a linked directory past its dots never names that directory itself, if
      unlink gets past its test for an empty directory. */
  lemma UnlinkKeeps(s: seq<Inode>, t: seq<Inode>, dp: nat, k: nat)
    requires Inv(s) && UnlinkStep(s, t, dp, k)
    ensures Inv(t)
  {
    hide Inv;
    var ip := s[dp].ents[k].inum;
    UnlinkOther(s, t, dp, k);
    if s[ip].kind.Dir? {
      UnlinkDirKeeps(s, t, dp, k, ip);
    } else {
      UnlinkFileKeeps(s, t, dp, k, ip);
    }
  }

  lemma UnlinkOther(s: seq<Inode>, t: seq<Inode>, dp: nat, k: nat)
    requires Inv(s) && UnlinkStep(s, t, dp, k)
    ensures EntryCleared(s, t, dp, k, s[dp].ents[k].inum)
  {
    hide Shape, Tree, Counts;
    UnlinkedEntry(s, dp, k);
  }

  // --- freeing

  lemma FreeKeeps(s: seq<Inode>, t: seq<Inode>, ip: nat)
    requires Inv(s) && FreeStep(s, t, ip)
    ensures Inv(t)
  {
    hide Shape, Tree, Refs;
    FreedShape(s, t, ip);
    FreedTree(s, t, ip);
    forall i: nat | 0 < i < |t|
      ensures t[i].nlink == |Refs(t, i)|
    {
      assert forall d: nat, j: nat :: IsRef(t, i, d, j) <==> IsRef(s, i, d, j);
      RefsSame(s, t, i);
    }
  }

  lemma FreedShape(s: seq<Inode>, t: seq<Inode>, ip: nat)
    requires Shape(s) && FreeStep(s, t, ip)
    ensures Shape(t)
  {
    assert forall d: nat :: Linked(t, d) <==> Linked(s, d);
    forall d: nat | Linked(t, d)
      ensures DirOk(t, d)
    {
      assert DirOk(s, d);
    }
  }

  lemma FreedTree(s: seq<Inode>, t: seq<Inode>, ip: nat)
    requires Shape(s) && Tree(s) && FreeStep(s, t, ip)
    ensures Tree(t)
  {
    hide Shape, Reaches;
    RootLinked(s);
    SameTree(s, t);
  }

  // ------------------------------------------------------------------- runs

  /** What mkfs writes: a root directory of ordinary files, each with one entry. */
  ghost predicate Init(s: seq<Inode>) {
    && |s| > ROOT && s[0].kind.Free? && s[ROOT].kind.Dir? && s[ROOT].nlink == 1
    && RootOk(s, s[ROOT].ents)
    && (forall i :: 0 <= i < |s| && i != ROOT ==> !s[i].kind.Dir? && (s[i].kind.Free? ==> s[i].nlink == 0))
    && (forall i: nat :: i < |s| && i != ROOT && !s[i].kind.Free? ==>
          s[i].nlink == 1 && exists k :: OnlyAt(s[ROOT].ents, k, i))
  }

  ghost predicate RootOk(s: seq<Inode>, e: seq<Dirent>) {
    && |e| >= 2 && e[0] == Dirent(ROOT, ".") && e[1] == Dirent(ROOT, "..") && NamesOnce(e)
    && forall k :: 2 <= k < |e| && e[k].inum != 0 ==> ROOT != e[k].inum < |s| && !s[e[k].inum].kind.Free?
  }

  ghost predicate OnlyAt(e: seq<Dirent>, k: nat, i: nat) {
    2 <= k < |e| && e[k].inum == i && forall j :: 2 <= j < |e| && e[j].inum == i ==> j == k
  }

  lemma InitCount(s: seq<Inode>, i: nat)
    requires Init(s) && 0 < i < |s|
    ensures s[i].nlink == |Refs(s, i)|
  {
    hide Refs;
    if i == ROOT {
      SingleRef(s, i, ROOT, 1);
    } else if s[i].kind.Free? {
      RefsAre(s, i, {});
    } else {
      var k :| OnlyAt(s[ROOT].ents, k, i);
      SingleRef(s, i, ROOT, k);
    }
  }

  lemma InitOk(s: seq<Inode>)
    requires Init(s)
    ensures Inv(s)
  {
    hide Refs;
    forall i: nat | 0 < i < |s|
      ensures s[i].nlink == |Refs(s, i)|
    {
      InitCount(s, i);
    }
    assert Reaches(s, ROOT, 0);
    assert Rooted(s, ROOT);
    assert forall d: nat :: Linked(s, d) ==> d == ROOT;
  }

  ghost predicate IsRun(run: seq<seq<Inode>>) {
    |run| > 0 && Init(run[0]) && forall i :: 0 < i < |run| ==> Next(run[i - 1], run[i])
  }

  lemma StepKeeps(s: seq<Inode>, t: seq<Inode>)
    requires Inv(s) && Next(s, t)
    ensures Inv(t)
  {
    hide Inv, LinkStep, UnlinkStep, CreateFileStep, CreateDirStep, FreeStep;
    if ip, dp, name :| LinkStep(s, t, ip, dp, name) {
      LinkKeeps(s, t, ip, dp, name);
    } else if dp, k :| UnlinkStep(s, t, dp, k) {
      UnlinkKeeps(s, t, dp, k);
    } else if dp, name, ip, kind :| CreateFileStep(s, t, dp, name, ip, kind) {
      CreateFileKeeps(s, t, dp, name, ip, kind);
    } else if dp, name, ip :| CreateDirStep(s, t, dp, name, ip) {
      CreateDirKeeps(s, t, dp, name, ip);
    } else {
      var ip :| FreeStep(s, t, ip);
      FreeKeeps(s, t, ip);
    }
  }

  lemma {:induction false} InvAt(run: seq<seq<Inode>>, i: nat)
    requires IsRun(run) && i < |run|
    ensures Inv(run[i])
  {
    hide Inv, Next, Init;
    if i == 0 {
      InitOk(run[0]);
    } else {
      InvAt(run, i - 1);
      StepKeeps(run[i - 1], run[i]);
    }
  }

  /** In every reachable file system each link count is the number of entries, other than ".",
      that name the inode in linked directories. */
  lemma LinkCountsExact(run: seq<seq<Inode>>, i: nat, n: nat)
    requires IsRun(run) && i < |run| && 0 < n < |run[i]|
    ensures run[i][n].nlink == |Refs(run[i], n)|
  {
    InvAt(run, i);
    hide Shape, Tree, Refs;
  }

  /** The linked directories form a tree: each but the root has exactly one entry, in the
      directory that its ".." names, and the way up leads to the root. */
  lemma DirectoriesFormTree(run: seq<seq<Inode>>, i: nat, d: nat)
    requires IsRun(run) && i < |run| && Linked(run[i], d)
    ensures Rooted(run[i], d)
    ensures d != ROOT ==> exists k: nat :: Holds(run[i], Parent(run[i], d), k, d)
    ensures forall p: nat, k: nat, q: nat, j: nat ::
              Holds(run[i], p, k, d) && Holds(run[i], q, j, d) ==> p == q == Parent(run[i], d) && k == j
  {
    InvAt(run, i);
    hide Shape, Counts, Reaches, Holds, Linked, Parent, IsRun;
  }
}

/** sys_link, sys_unlink and create, over directories that are scanned and rewritten in place.
    Inode number 0 stands for a null inode pointer. */
module LinkCode {
  import opened LinkSpec
  import opened LinkNames

  datatype Outcome = Done | Failed | PanicFull
  datatype Lookup = Found(off: nat) | Missing | PanicNotDir
  datatype Creation = Created(ip: nat) | Existing(ip: nat) | Refused | PanicNoInodes | PanicDirFull

  /** Entry j of directory dp has that name, and names inode c. */
  predicate EntryFor(s: seq<Inode>, dp: nat, j: nat, name: string, c: nat) {
    dp < |s| && j < |s[dp].ents| && Used(s[dp].ents[j], name) && s[dp].ents[j].inum == c < |s|
  }

  lemma EntryInRange(s: seq<Inode>, dp: nat, k: nat)
    requires Inv(s) && Linked(s, dp) && k < |s[dp].ents| && s[dp].ents[k].inum != 0
    ensures s[dp].ents[k].inum < |s|
    ensures s[dp].ents[k].name != "." ==> s[s[dp].ents[k].inum].nlink >= 1
  {
    hide Shape, Tree, Counts;
    LinkedDir(s, dp);
    if s[dp].ents[k].name != "." {
      UnlinkCounted(s, dp, k);
    }
  }

  /** A name stands for one inode, and one that is a directory is empty exactly if it says
      nothing but the dots. */
  lemma OnlyTarget(s: seq<Inode>, dp: nat, k: nat, name: string)
    requires Inv(s) && Linked(s, dp) && k < |s[dp].ents| && Used(s[dp].ents[k], name) && name != "." && name != ".."
    ensures var ip := s[dp].ents[k].inum;
            && ip < |s| && (forall c :: Says(s, dp, name, c) <==> c == ip)
            && (s[ip].kind.Dir? ==>
                  (Empty(s[ip].ents) <==> forall n, i :: Says(s, ip, n, i) ==> n == "." || n == ".."))
  {
    hide Inv;
    var ip := s[dp].ents[k].inum;
    EntryInRange(s, dp, k);
    LinkedNames(s, dp);
    assert s[dp].ents[k] == Dirent(ip, name);
    forall c | Says(s, dp, name, c)
      ensures c == ip
    {
      var j :| 0 <= j < |s[dp].ents| && s[dp].ents[j] == Dirent(c, name);
      assert j == k;
    }
    if s[ip].kind.Dir? {
      assert Linked(s, ip);
      EmptyMeans(s, ip);
      hide Names;
      assert forall n, i :: Says(s, ip, n, i) <==> Names(s[ip].ents, n, i);
    }
  }

  class Directories {
    var inodes: seq<Inode>

    /** dirlookup, fs.c:505-529. */
    method Dirlookup(dp: nat, name: string) returns (r: Lookup)
      requires dp < |inodes|
      ensures r.PanicNotDir? <==> !inodes[dp].kind.Dir?
      ensures r.Found? ==> r.off < |inodes[dp].ents| && Used(inodes[dp].ents[r.off], name)
      ensures r.Found? ==> forall j :: 0 <= j < r.off ==> !Used(inodes[dp].ents[j], name)
      ensures r.Found? ==> Names(inodes[dp].ents, name, inodes[dp].ents[r.off].inum)
      ensures r.Missing? ==> !Present(inodes[dp].ents, name) && !Named(inodes[dp].ents, name)
    {
      if !inodes[dp].kind.Dir? {
        return PanicNotDir;
      }
      var off := 0;
      while off < |inodes[dp].ents|
        invariant off <= |inodes[dp].ents|
        invariant forall j :: 0 <= j < off ==> !Used(inodes[dp].ents[j], name)
      {
        if inodes[dp].ents[off].inum != 0 && inodes[dp].ents[off].name == name {
          assert inodes[dp].ents[off] == Dirent(inodes[dp].ents[off].inum, name);
          return Found(off);
        }
        off := off + 1;
      }
      PresentNamed(inodes[dp].ents, name);
      return Missing;
    }

    /** dirlink, fs.c:532-559. */
    method Dirlink(dp: nat, name: string, inum: nat) returns (r: Outcome)
      requires dp < |inodes| && inodes[dp].kind.Dir?
      modifies this
      ensures r.Failed? <==> Present(old(inodes[dp].ents), name)
      ensures r.PanicFull? <==>
                !Present(old(inodes[dp].ents), name) && FreeSlot(old(inodes[dp].ents)) >= MAX_ENTRIES
      ensures inodes == if r.Done? then old(Entered(inodes, dp, name, inum, 0)) else old(inodes)
    {
      var entry := Dirlookup(dp, name);
      if entry.Found? {
        return Failed;
      }
      var off := 0;
      ghost var slot := FreeSlot(inodes[dp].ents);
      while off < |inodes[dp].ents|
        invariant off <= slot
      {
        if inodes[dp].ents[off].inum == 0 {
          break;
        }
        off := off + 1;
      }
      assert off == slot;
      if off >= MAX_ENTRIES {
        return PanicFull;
      }
      var e := inodes[dp].ents;
      e := if off < |e| then e[off := Dirent(inum, name)] else e + [Dirent(inum, name)];
      inodes := inodes[dp := inodes[dp].(ents := e)];
      return Done;
    }

    /** isdirempty, sysfile.c:163-176. */
    method IsDirEmpty(dp: nat) returns (empty: bool)
      requires dp < |inodes|
      ensures empty == Empty(inodes[dp].ents)
    {
      var off := 2;
      while off < |inodes[dp].ents|
        invariant 2 <= off
        invariant forall k :: 2 <= k < off && k < |inodes[dp].ents| ==> inodes[dp].ents[k].inum == 0
      {
        if inodes[dp].ents[off].inum != 0 {
          return false;
        }
        off := off + 1;
      }
      return true;
    }

    /** sys_link, sysfile.c:115-160: a failed link leaves everything as it was. */
    method Link(ip: nat, dp: nat, name: string) returns (r: Outcome)
      requires Inv(inodes) && ip < |inodes| && (ip != 0 ==> !inodes[ip].kind.Free?)
      requires dp != 0 ==> Linked(inodes, dp)
      modifies this
      ensures r.Done? <==>
                && ip != 0 && !old(inodes)[ip].kind.Dir? && dp != 0 && !Present(old(inodes)[dp].ents, name)
                && FreeSlot(old(inodes)[dp].ents) < MAX_ENTRIES
      ensures r.Done? ==> Inv(inodes) && LinkStep(old(inodes), inodes, ip, dp, name)
      ensures r.Done? ==> forall d, n, i ::
                Says(inodes, d, n, i) <==> Says(old(inodes), d, n, i) || (d == dp && n == name && i == ip)
      ensures r.Failed? ==> inodes == old(inodes)
      ensures r.PanicFull? <==>
                && ip != 0 && !old(inodes)[ip].kind.Dir? && dp != 0 && !Present(old(inodes)[dp].ents, name)
                && FreeSlot(old(inodes)[dp].ents) >= MAX_ENTRIES
    {
      hide Inv, Enter, FreeSlot, Present;
      if ip == 0 {
        return Failed;
      }
      if inodes[ip].kind.Dir? {
        return Failed;
      }
      inodes := inodes[ip := inodes[ip].(nlink := inodes[ip].nlink + 1)];
      if dp != 0 {
        assert dp != ip;
        r := Dirlink(dp, name, ip);
        if r.Done? {
          assert LinkStep(old(inodes), inodes, ip, dp, name);
          LinkKeeps(old(inodes), inodes, ip, dp, name);
          forall d, n, i
            ensures Says(inodes, d, n, i) <==> Says(old(inodes), d, n, i) || (d == dp && n == name && i == ip)
          {
            LinkSays(old(inodes), inodes, ip, dp, name, d, n, i);
          }
          return;
        }
        if r.PanicFull? {
          return;
        }
      }
      inodes := inodes[ip := inodes[ip].(nlink := inodes[ip].nlink - 1)];
      assert inodes == old(inodes);
      return Failed;
    }

    /** sys_unlink, sysfile.c:179-232. The test for nlink < 1 never panics. */
    method Unlink(dp: nat, name: string) returns (r: Outcome, ghost k: nat)
      requires Inv(inodes) && (dp != 0 ==> Linked(inodes, dp))
      modifies this
      ensures Inv(inodes) && !r.PanicFull?
      ensures r.Done? ==>
                UnlinkStep(old(inodes), inodes, dp, k) && Used(old(inodes)[dp].ents[k], name)
      ensures r.Done? ==> forall d, n, i ::
                Says(inodes, d, n, i) <==> Says(old(inodes), d, n, i) && !(d == dp && n == name)
      ensures r.Failed? ==> inodes == old(inodes)
      ensures r.Failed? <==>
                || dp == 0 || name == "." || name == ".." || !Named(old(inodes)[dp].ents, name)
                || exists c, n, i ::
                     Says(old(inodes), dp, name, c) && Says(old(inodes), c, n, i) && n != "." && n != ".."
    {
      hide Inv, Present, Names;
      k := 0;
      if dp == 0 || name == "." || name == ".." {
        return Failed, k;
      }
      var entry := Dirlookup(dp, name);
      if !entry.Found? {
        return Failed, k;
      }
      var off := entry.off;
      k := off;
      var ip := inodes[dp].ents[off].inum;
      EntryInRange(inodes, dp, off);
      OnlyTarget(inodes, dp, off, name);
      assert inodes[ip].nlink >= 1;
      if inodes[ip].kind.Dir? {
        var empty := IsDirEmpty(ip);
        if !empty {
          return Failed, k;
        }
      }
      ghost var step := Unlinked(inodes, dp, k, ip);
      UnlinkKeeps(inodes, step, dp, k);
      forall d, n, i
        ensures Says(step, d, n, i) <==> Says(inodes, d, n, i) && !(d == dp && n == name)
      {
        UnlinkSays(inodes, step, dp, k, d, n, i);
      }
      inodes := inodes[dp := inodes[dp].(ents := inodes[dp].ents[off := NO_ENTRY])];
      if inodes[ip].kind.Dir? {
        inodes := inodes[dp := inodes[dp].(nlink := inodes[dp].nlink - 1)];
      }
      inodes := inodes[ip := inodes[ip].(nlink := inodes[ip].nlink - 1)];
      assert inodes == step;
      return Done, k;
    }

    /** ialloc's search, fs.c:175-198: the first free inode, from number 1. */
    method Ialloc() returns (ip: nat)
      ensures ip == 0 ==> forall i :: 0 < i < |inodes| ==> !inodes[i].kind.Free?
      ensures ip != 0 ==> ip < |inodes| && inodes[ip].kind.Free?
      ensures forall i :: 0 < i < ip ==> !inodes[i].kind.Free?
    {
      ip := 1;
      while ip < |inodes|
        invariant 1 <= ip
        invariant forall i :: 0 < i < ip && i < |inodes| ==> !inodes[i].kind.Free?
      {
        if inodes[ip].kind.Free? {
          return;
        }
        ip := ip + 1;
      }
      ip := 0;
    }

    /** The branch of create for a directory, sysfile.c:262-268: "create dots" cannot happen. */
    method MakeDots(ip: nat, dp: nat)
      requires 0 < ip < |inodes| && dp < |inodes| && ip != dp && inodes[ip] == Inode(Dir, 1, [])
      modifies this
      ensures inodes == old(inodes)[dp := old(inodes)[dp].(nlink := old(inodes)[dp].nlink + 1)]
                                   [ip := Inode(Dir, 1, Dots(ip, dp))]
    {
      inodes := inodes[dp := inodes[dp].(nlink := inodes[dp].nlink + 1)];
      assert !Present([], ".") && FreeSlot([]) == 0;
      var a := Dirlink(ip, ".", ip);
      assert a.Done? && inodes[ip].ents == [Dirent(ip, ".")];
      assert [Dirent(ip, ".")][1..] == [] && FreeSlot([Dirent(ip, ".")]) == 1;
      var b := Dirlink(ip, "..", dp);
      assert b.Done? && inodes[ip].ents == Dots(ip, dp);
    }

    /** create of a name that is not there, sysfile.c:254-276. */
    method MakeNode(dp: nat, name: string, kind: Kind, ip: nat) returns (r: Outcome)
      requires Inv(inodes) && !kind.Free? && CanEnter(inodes, dp, name)
      requires 0 < ip < |inodes| && inodes[ip].kind.Free?
      modifies this
      ensures !r.Failed?
      ensures r.PanicFull? <==> FreeSlot(old(inodes)[dp].ents) >= MAX_ENTRIES
      ensures r.Done? ==>
                && Inv(inodes)
                && if kind.Dir? then CreateDirStep(old(inodes), inodes, dp, name, ip)
                   else CreateFileStep(old(inodes), inodes, dp, name, ip, kind)
    {
      hide Inv, Enter, FreeSlot, Present, Dots;
      inodes := inodes[ip := Inode(kind, 0, [])];
      inodes := inodes[ip := inodes[ip].(nlink := 1)];
      if kind.Dir? {
        MakeDots(ip, dp);
      }
      assert inodes[dp].ents == old(inodes)[dp].ents;
      r := Dirlink(dp, name, ip);
      if r.Done? {
        if kind.Dir? {
          assert CreateDirStep(old(inodes), inodes, dp, name, ip);
          CreateDirKeeps(old(inodes), inodes, dp, name, ip);
        } else {
          assert CreateFileStep(old(inodes), inodes, dp, name, ip, kind);
          CreateFileKeeps(old(inodes), inodes, dp, name, ip, kind);
        }
      }
    }

    /** create, sysfile.c:234-277. Its last panic can only mean a full directory. */
    method Create(dp: nat, name: string, kind: Kind) returns (r: Creation)
      requires Inv(inodes) && !kind.Free? && (dp != 0 ==> Linked(inodes, dp))
      modifies this
      ensures r.Created? ==>
                && Inv(inodes)
                && if kind.Dir? then CreateDirStep(old(inodes), inodes, dp, name, r.ip)
                   else CreateFileStep(old(inodes), inodes, dp, name, r.ip, kind)
      ensures r.Created? ==> forall d, n, i ::
                Says(inodes, d, n, i) <==>
                  || Says(old(inodes), d, n, i) || (d == dp && n == name && i == r.ip)
                  || (kind.Dir? && d == r.ip && ((n == "." && i == r.ip) || (n == ".." && i == dp)))
      ensures r.Existing? ==>
                && inodes == old(inodes) && dp != 0 && kind.File? && r.ip < |inodes| && inodes[r.ip].kind.File?
                && Says(inodes, dp, name, r.ip)
      ensures r.Existing? || r.Refused? <==> dp == 0 || Named(old(inodes)[dp].ents, name)
      ensures r.Refused? ==> inodes == old(inodes)
      ensures r.Refused? && dp != 0 && kind.File? ==>
                exists j: nat, c: nat :: EntryFor(inodes, dp, j, name, c) && !inodes[c].kind.File?
      ensures r.PanicNoInodes? ==>
                inodes == old(inodes) && forall i :: 0 < i < |inodes| ==> !inodes[i].kind.Free?
      ensures r.PanicDirFull? ==>
                dp != 0 && !Present(old(inodes)[dp].ents, name) && FreeSlot(old(inodes)[dp].ents) >= MAX_ENTRIES
    {
      hide Inv, FreeSlot, CreateDirStep, CreateFileStep, Names;
      if dp == 0 {
        return Refused;
      }
      var entry := Dirlookup(dp, name);
      if entry.Found? {
        var off := entry.off;
        EntryInRange(inodes, dp, off);
        var c := inodes[dp].ents[off].inum;
        assert EntryFor(inodes, dp, off, name, c) && Says(inodes, dp, name, c);
        if kind.File? && inodes[c].kind.File? {
          return Existing(c);
        }
        return Refused;
      }
      var ip := Ialloc();
      if ip == 0 {
        return PanicNoInodes;
      }
      var made := MakeNode(dp, name, kind, ip);
      if made.Done? {
        forall d, n, i
          ensures Says(inodes, d, n, i) <==>
                    || Says(old(inodes), d, n, i) || (d == dp && n == name && i == ip)
                    || (kind.Dir? && d == ip && ((n == "." && i == ip) || (n == ".." && i == dp)))
        {
          if kind.Dir? {
            MkdirSays(old(inodes), inodes, dp, name, ip, d, n, i);
          } else {
            CreateSays(old(inodes), inodes, dp, name, ip, kind, d, n, i);
          }
        }
        return Created(ip);
      }
      return PanicDirFull;
    }
  }
}

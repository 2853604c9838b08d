/** Directories by what they say: which inode each name stands for, and what link, unlink and
    create do to that. */
module LinkNames {
  import opened LinkSpec

  /** The entries give the name to inode i. */
  ghost predicate Names(ents: seq<Dirent>, name: string, i: nat) {
    i != 0 && Dirent(i, name) in ents
  }

  ghost predicate Named(ents: seq<Dirent>, name: string) {
    exists i :: Names(ents, name, i)
  }

  /** Directory d gives the name to inode i. */
  ghost predicate Says(s: seq<Inode>, d: nat, name: string, i: nat) {
    d < |s| && s[d].kind.Dir? && Names(s[d].ents, name, i)
  }

  lemma PresentNamed(ents: seq<Dirent>, name: string)
    ensures Present(ents, name) <==> Named(ents, name)
  {
    if Present(ents, name) {
      var k :| 0 <= k < |ents| && Used(ents[k], name);
      assert ents[k] == Dirent(ents[k].inum, name);
      assert Names(ents, name, ents[k].inum);
    }
    if i :| Names(ents, name, i) {
      var k :| 0 <= k < |ents| && ents[k] == Dirent(i, name);
      assert Used(ents[k], name);
    }
  }

  lemma EnterNames(ents: seq<Dirent>, name: string, inum: nat, n: string, i: nat)
    requires inum != 0
    ensures Names(Enter(ents, name, inum), n, i) <==> Names(ents, n, i) || (n == name && i == inum)
  {
    var k, after := FreeSlot(ents), Enter(ents, name, inum);
    assert k < |after| && after[k] == Dirent(inum, name);
    if Names(ents, n, i) {
      var j :| 0 <= j < |ents| && ents[j] == Dirent(i, n);
      assert after[j] == Dirent(i, n);
    }
    if Names(after, n, i) {
      var j :| 0 <= j < |after| && after[j] == Dirent(i, n);
      assert j != k ==> ents[j] == Dirent(i, n);
    }
  }

  lemma ClearNames(ents: seq<Dirent>, k: nat, n: string, i: nat)
    requires NamesOnce(ents) && k < |ents| && ents[k].inum != 0
    ensures Names(ents[k := NO_ENTRY], n, i) <==> Names(ents, n, i) && n != ents[k].name
  {
    var after := ents[k := NO_ENTRY];
    if Names(ents, n, i) && n != ents[k].name {
      var j :| 0 <= j < |ents| && ents[j] == Dirent(i, n);
      assert after[j] == Dirent(i, n);
    }
    if Names(after, n, i) {
      var j :| 0 <= j < |after| && after[j] == Dirent(i, n);
      assert j != k && ents[j] == Dirent(i, n);
    }
  }

  lemma LinkedNames(s: seq<Inode>, d: nat)
    requires Inv(s) && Linked(s, d)
    ensures d != 0 && DirOk(s, d)
  {
    hide Tree, Counts;
  }

  /** isdirempty's test means that the directory has no name but the dots. */
  lemma EmptyMeans(s: seq<Inode>, d: nat)
    requires Inv(s) && Linked(s, d)
    ensures Empty(s[d].ents) <==> forall n, i :: Names(s[d].ents, n, i) ==> n == "." || n == ".."
  {
    hide Inv;
    LinkedNames(s, d);
    var e := s[d].ents;
    if Empty(e) {
      forall n, i | Names(e, n, i)
        ensures n == "." || n == ".."
      {
        var k :| 0 <= k < |e| && e[k] == Dirent(i, n);
      }
    } else {
      var k :| 2 <= k < |e| && e[k].inum != 0;
      assert Names(e, e[k].name, e[k].inum);
      assert e[0].name != e[k].name;
      DotDotUsed(s, d);
    }
  }

  lemma DotDotUsed(s: seq<Inode>, d: nat)
    requires Inv(s) && Linked(s, d)
    ensures s[d].ents[1].inum != 0
  {
    hide Tree, Counts;
  }

  /** sys_link adds the one name. */
  lemma LinkSays(s: seq<Inode>, t: seq<Inode>, ip: nat, dp: nat, name: string, d: nat, n: string, i: nat)
    requires LinkStep(s, t, ip, dp, name)
    ensures Says(t, d, n, i) <==> Says(s, d, n, i) || (d == dp && n == name && i == ip)
  {
    hide Enter, Present, Names;
    EnterNames(s[dp].ents, name, ip, n, i);
  }

  /** sys_unlink removes the one name. */
  lemma UnlinkSays(s: seq<Inode>, t: seq<Inode>, dp: nat, k: nat, d: nat, n: string, i: nat)
    requires Inv(s) && UnlinkStep(s, t, dp, k)
    ensures Says(t, d, n, i) <==> Says(s, d, n, i) && !(d == dp && n == s[dp].ents[k].name)
  {
    hide Inv, Empty, Names;
    LinkedNames(s, dp);
    ClearNames(s[dp].ents, k, n, i);
  }

  /** create adds the one name. */
  lemma CreateSays(s: seq<Inode>, t: seq<Inode>, dp: nat, name: string, ip: nat, kind: Kind, d: nat, n: string, i: nat)
    requires CreateFileStep(s, t, dp, name, ip, kind)
    ensures Says(t, d, n, i) <==> Says(s, d, n, i) || (d == dp && n == name && i == ip)
  {
    hide Enter, Present, Names;
    EnterNames(s[dp].ents, name, ip, n, i);
  }

  /** And, for a directory, its dots. */
  lemma MkdirSays(s: seq<Inode>, t: seq<Inode>, dp: nat, name: string, ip: nat, d: nat, n: string, i: nat)
    requires CreateDirStep(s, t, dp, name, ip)
    ensures Says(t, d, n, i) <==>
              || Says(s, d, n, i) || (d == dp && n == name && i == ip)
              || (d == ip && n == "." && i == ip) || (d == ip && n == ".." && i == dp && dp != 0)
  {
    hide Enter, Present;
    EnterNames(s[dp].ents, name, ip, n, i);
    assert Dots(ip, dp)[0] == Dirent(ip, ".") && Dots(ip, dp)[1] == Dirent(dp, "..");
  }

  /** Freeing an inode takes with it what it said, if it was a directory, and nothing else. */
  lemma FreeSays(s: seq<Inode>, t: seq<Inode>, ip: nat, d: nat, n: string, i: nat)
    requires FreeStep(s, t, ip)
    ensures Says(t, d, n, i) <==> Says(s, d, n, i) && d != ip
    ensures t[ip].kind.Free?
  {
  }
}

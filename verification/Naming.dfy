/** What link, unlink and create do to the names in directories, as lookups see them. */
module Naming {
  import opened Links
  import LinkRuns

  /** The inode that a lookup of the name in a table of entries gives; 0 for none. */
  function Find(es: seq<Entry>, name: string): nat {
    var k := Lookup(es, name);
    if k < |es| then es[k].inum else 0
  }

  function NameOf(t: Tree, d: nat, name: string): nat {
    Find(Entries(t, d), name)
  }

  // ----- Tables of entries -----

  /** A lookup finds an entry in use with the name, if there is one. */
  lemma FindIs(es: seq<Entry>, name: string, k: nat)
    requires k < |es| && es[k].inum != 0 && es[k].name == name
    requires forall j :: 0 <= j < |es| && j != k && es[j].inum != 0 ==> es[j].name != name
    ensures Find(es, name) == es[k].inum
  {
  }

  lemma FindNone(es: seq<Entry>, name: string)
    requires forall j :: 0 <= j < |es| && es[j].inum != 0 ==> es[j].name != name
    ensures Find(es, name) == 0
  {
  }

  /** Tables with the same entries in use under a name give the same. */
  lemma FindSame(es: seq<Entry>, es': seq<Entry>, name: string, k: nat)
    requires forall j :: 0 <= j < |es| && j != k ==> j < |es'| && es'[j] == es[j]
    requires forall j :: 0 <= j < |es'| && j != k ==> j < |es| && es'[j] == es[j]
    requires k < |es| ==> es[k].inum == 0 || es[k].name != name
    requires k < |es'| ==> es'[k].inum == 0 || es'[k].name != name
    ensures Find(es', name) == Find(es, name)
  {
    var a, b := Lookup(es, name), Lookup(es', name);
    if a < |es| && b < |es'| {
      assert a == b;
    }
  }

  /** dirlink: the new name is found as its inode, and every other name as before. */
  lemma DirlinkFinds(es: seq<Entry>, name: string, x: nat, n: string)
    requires Dirlink(es, name, x).Placed? && x != 0
    ensures Find(es, name) == 0
    ensures Find(Dirlink(es, name, x).entries, n) == if n == name then x else Find(es, n)
  {
    var k, es' := FreeFrom(es, 0), Dirlink(es, name, x).entries;
    if n == name {
      FindIs(es', name, k);
    } else {
      FindSame(es, es', n, k);
    }
  }

  /** Clearing an entry takes its name away, and no other. */
  lemma ClearFinds(es: seq<Entry>, k: nat, n: string)
    requires UniqueNames(es) && k < |es| && es[k].inum != 0
    ensures Find(es, es[k].name) == es[k].inum
    ensures Find(es[k := Entry(0, "")], n) == if n == es[k].name then 0 else Find(es, n)
  {
    FindIs(es, es[k].name, k);
    var es' := es[k := Entry(0, "")];
    if n == es[k].name {
      FindNone(es', n);
    } else {
      FindSame(es, es', n, k);
    }
  }

  // ----- create -----

  /** Everything but the inodes x and dp is the same, and of dp everything but its entries and link count. */
  ghost predicate Elsewhere(t: Tree, t': Tree, dp: nat, x: nat) {
    && |t'.inodes| == |t.inodes|
    && (forall y: nat :: y < |t.inodes| && y != x && y != dp ==> t'.inodes[y] == t.inodes[y])
    && (dp < |t.inodes| && dp != x ==> t'.inodes[dp].kind == t.inodes[dp].kind)
  }

  /** In directory dp the name now means x; all other names there mean what they did. */
  ghost predicate Renamed(t: Tree, t': Tree, dp: nat, name: string, x: nat) {
    forall n: string :: NameOf(t', dp, n) == if n == name then x else NameOf(t, dp, n)
  }

  ghost predicate DirFull(es: seq<Entry>) {
    |es| >= MAXENTRIES && forall k :: 0 <= k < MAXENTRIES ==> es[k].inum != 0
  }

  /** A name in a linked directory means an inode in use. */
  lemma NameBound(t: Tree, d: nat, n: string)
    requires Inv(t) && Linked(t, d)
    ensures NameOf(t, d, n) != 0 ==> NameOf(t, d, n) < |t.inodes| && t.inodes[NameOf(t, d, n)].kind != NoInode
  {
    hide CountsOk, PendingOk, NamedOnce, UniqueNames;
    var k := Lookup(Entries(t, d), n);
    assert DirOk(t, d);
    if k < |Entries(t, d)| && 2 <= k {
      var x := Entries(t, d)[k].inum;
      assert Child(t, d, k, x) && EntryOk(t, d, k, x);
    }
  }

  ghost predicate NewInode(t: Tree, t': Tree, dp: nat, x: nat, kind: Kind) {
    && 0 < x < |t.inodes| == |t'.inodes| && dp < |t.inodes| && x != dp && t.inodes[x].kind == NoInode
    && (forall y :: 0 < y < x ==> t.inodes[y].kind != NoInode)
    && t'.inodes[x].kind == kind && t'.inodes[x].nlink == 1 && t'.pending == t.pending
    && t'.inodes[dp].nlink == t.inodes[dp].nlink + (if kind == Directory then 1 else 0)
    && forall n: string :: NameOf(t', x, n) ==
         if kind == Directory && n == "." then x else if kind == Directory && n == ".." then dp else 0
  }

  lemma CreatedMeans(t: Tree, dp: nat, name: string, kind: Kind)
    requires Linked(t, dp) && |t.inodes| > 0 && kind != NoInode && Create(t, dp, name, kind).Created?
    ensures var Created(t', x) := Create(t, dp, name, kind);
      && NameOf(t, dp, name) == 0 && NewInode(t, t', dp, x, kind)
      && Elsewhere(t, t', dp, x) && Renamed(t, t', dp, name, x)
  {
    hide Lookup, FreeFrom, PutEntry, FreeInode;
    var Created(t', x) := Create(t, dp, name, kind);
    forall n: string ensures NameOf(t', dp, n) == if n == name then x else NameOf(t, dp, n) {
      DirlinkFinds(Entries(t, dp), name, x, n);
    }
    forall n: string ensures NameOf(t', x, n) ==
      if kind == Directory && n == "." then x else if kind == Directory && n == ".." then dp else 0
    {
      NewFinds(x, dp, n);
    }
  }

  lemma NewFinds(x: nat, dp: nat, n: string)
    requires x != 0
    ensures Find([], n) == 0
    ensures Find([Entry(x, "."), Entry(dp, "..")], n) == if n == "." then x else if n == ".." then dp else 0
  {
    var es := [Entry(x, "."), Entry(dp, "..")];
    if n == "." { FindIs(es, n, 0); } else if n == ".." && dp != 0 { FindIs(es, n, 1); } else { FindNone(es, n); }
  }

  /** create makes the lowest free inode, of the kind asked for and with one link, and enters it under the name
      in dp and nowhere else; a new directory has its dots and nothing more.  It finds an inode exactly when a
      file is asked for and the name means a file, refuses exactly when the name means something else, and
      panics exactly when the name is new and there is no inode or no room for the entry. */
  lemma CreateMeans(t: Tree, dp: nat, name: string, kind: Kind)
    requires Inv(t) && Linked(t, dp) && kind != NoInode
    ensures |t.inodes| > 0
    ensures match Create(t, dp, name, kind)
      case Created(t', x) =>
        && NameOf(t, dp, name) == 0 && NewInode(t, t', dp, x, kind)
        && Elsewhere(t, t', dp, x) && Renamed(t, t', dp, name, x)
      case Found(x) => kind == File && x == NameOf(t, dp, name) != 0 && x < |t.inodes| && t.inodes[x].kind == File
      case Taken =>
        var x := NameOf(t, dp, name);
        0 < x < |t.inodes| && !(kind == File && t.inodes[x].kind == File)
      case Halted =>
        && NameOf(t, dp, name) == 0
        && ((forall y :: 0 < y < |t.inodes| ==> t.inodes[y].kind != NoInode) || DirFull(Entries(t, dp)))
  {
    hide Inv, NewInode, Elsewhere, Renamed, PutEntry, SetEntries;
    NameBound(t, dp, name);
    if Create(t, dp, name, kind).Created? { CreatedMeans(t, dp, name, kind); }
    else if Create(t, dp, name, kind).Halted? { NewTables(t, dp, kind); }
  }

  /** The new inode is not yet in dp when dirlink looks there. */
  lemma NewTables(t: Tree, dp: nat, kind: Kind)
    requires Linked(t, dp)
    ensures var x := FreeInode(t.inodes, 1);
      x < |t.inodes| && kind != NoInode ==>
        && Entries(NewDirectory(t, dp, x), dp) == Entries(t, dp) && Entries(NewFile(t, x, kind), dp) == Entries(t, dp)
  {
  }

  // ----- sys_link -----

  /** After sys_link the name in dp means the inode, which has one more link; nothing else has changed.  If it fails
      because the name is there, nothing has changed at all. */
  lemma LinkMeans(t: Tree, dp: nat, name: string, x: nat)
    requires Linked(t, dp) && 0 < x < |t.inodes| && t.inodes[x].kind != Directory
    ensures var t' := LinkFinish(LinkStart(t, x), dp, name, x);
      match Dirlink(Entries(t, dp), name, x)
      case Placed(_) =>
        && NameOf(t, dp, name) == 0 && Renamed(t, t', dp, name, x) && Elsewhere(t, t', dp, x)
        && t'.inodes[x] == t.inodes[x].(nlink := t.inodes[x].nlink + 1) && t'.pending == t.pending
        && t'.inodes[dp].nlink == t.inodes[dp].nlink
      case Exists => NameOf(t, dp, name) != 0 && t' == t
      case Full => NameOf(t, dp, name) == 0 && DirFull(Entries(t, dp))
  {
    hide Lookup, FreeFrom, PutEntry;
    var t' := LinkFinish(LinkStart(t, x), dp, name, x);
    assert Entries(LinkStart(t, x), dp) == Entries(t, dp);
    assert t.pending + multiset{x} - multiset{x} == t.pending;
    DirlinkCases(Entries(t, dp), name, x);
    if Dirlink(Entries(t, dp), name, x).Placed? {
      forall n: string ensures NameOf(t', dp, n) == if n == name then x else NameOf(t, dp, n) {
        DirlinkFinds(Entries(t, dp), name, x, n);
      }
    } else if Dirlink(Entries(t, dp), name, x).Exists? {
      assert t'.inodes == t.inodes;
    }
  }

  lemma DirlinkCases(es: seq<Entry>, name: string, x: nat)
    ensures Dirlink(es, name, x).Exists? <==> Find(es, name) != 0
    ensures Dirlink(es, name, x).Full? ==> DirFull(es)
  {
  }

  /** The last part of sys_link on its own, other calls having run since its first part. */
  lemma FinishMeans(t: Tree, dp: nat, name: string, x: nat)
    requires Linked(t, dp) && 0 < x < |t.inodes| && x != dp && Dirlink(Entries(t, dp), name, x).Placed?
    ensures var t' := LinkFinish(t, dp, name, x);
      && Renamed(t, t', dp, name, x) && Elsewhere(t, t', dp, x) && t'.inodes[x] == t.inodes[x]
      && t'.inodes[dp].nlink == t.inodes[dp].nlink
  {
    hide Lookup, FreeFrom, PutEntry;
    var t' := LinkFinish(t, dp, name, x);
    forall n: string ensures NameOf(t', dp, n) == if n == name then x else NameOf(t, dp, n) {
      DirlinkFinds(Entries(t, dp), name, x, n);
    }
  }

  // ----- sys_unlink -----

  /** After sys_unlink the name is not found in dp, all other names everywhere mean what they did, and the inode has one
      link less; so has dp if the inode was a directory. */
  lemma UnlinkMeans(t: Tree, dp: nat, k: nat, x: nat)
    requires Inv(t) && CanUnlink(t, dp, k, x)
    ensures k < |Entries(t, dp)| && x < |t.inodes| && dp < |t.inodes| && x != dp
    ensures var name, t' := Entries(t, dp)[k].name, Unlink(t, dp, k);
      && NameOf(t, dp, name) == x && Renamed(t, t', dp, name, 0) && Elsewhere(t, t', dp, x)
      && t'.inodes[x] == t.inodes[x].(nlink := t.inodes[x].nlink - 1)
      && t'.inodes[dp].nlink == t.inodes[dp].nlink - (if IsDir(t, x) then 1 else 0) && t'.pending == t.pending
  {
    hide CountsOk, PendingOk, NamedOnce, Lookup;
    assert DirOk(t, dp) && EntryOk(t, dp, k, x);
    if IsDir(t, x) { NotOwn(t, dp, k, x); }
    var es, t' := Entries(t, dp), Unlink(t, dp, k);
    ClearFinds(es, k, es[k].name);
    forall n: string ensures NameOf(t', dp, n) == if n == es[k].name then 0 else NameOf(t, dp, n) {
      ClearFinds(es, k, n);
    }
  }

  // ----- iput -----

  /** An inode that is reclaimed is free for create again, and nothing else changes: no name in a linked directory meant
      it. */
  lemma ReclaimMeans(t: Tree, x: nat)
    requires Inv(t) && 0 < x < |t.inodes| && t.inodes[x].nlink == 0
    ensures var t' := Reclaim(t, x);
      && |t'.inodes| == |t.inodes| && t'.inodes[x].kind == NoInode && t'.inodes[x].entries == []
      && (forall y: nat :: y < |t.inodes| && y != x ==> t'.inodes[y] == t.inodes[y])
      && FreeInode(t'.inodes, 1) <= x
    ensures !Linked(t, x) && forall d: nat, n: string :: Linked(t, d) ==> NameOf(t, d, n) != x
  {
    hide Find, UniqueNames, NamedOnce, Refs;
    forall d: nat, n: string | Linked(t, d) ensures NameOf(t, d, n) != x { NotMeant(t, x, d, n); }
  }

  lemma NotMeant(t: Tree, x: nat, d: nat, n: string)
    requires Inv(t) && 0 < x < |t.inodes| && t.inodes[x].nlink == 0 && Linked(t, d)
    ensures NameOf(t, d, n) != x
  {
    hide UniqueNames, NamedOnce, Refs;
    CountAt(t, x);
    assert Refs(t, x) == {};
    var k := Lookup(Entries(t, d), n);
    assert DirOk(t, d);
    if k < |Entries(t, d)| && Entries(t, d)[k].inum == x { InRefs(t, x, d, k); }
  }

  // ----- Every reachable state -----

  /** No name is left behind: in every reachable state a name in a linked directory means an inode in use, so an inode
      is reclaimed only when no name means it. */
  lemma NoDanglingNames(tr: seq<Tree>, i: nat, d: nat, n: string)
    requires LinkRuns.Run(tr) && i < |tr| && Linked(tr[i], d)
    ensures var x := NameOf(tr[i], d, n);
      x != 0 ==> x < |tr[i].inodes| && tr[i].inodes[x].kind != NoInode
  {
    LinkRuns.RunInv(tr, i);
    NameBound(tr[i], d, n);
  }
}

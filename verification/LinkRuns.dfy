/** sys_link, sys_unlink, create and the directory procedures they use, and every sequence of them. */
module LinkRuns {
  import opened Prelude
  import opened Links

  datatype Outcome = Done | Failed | Panicked

  /** There is no such parent directory, or it has the name already. */
  predicate Refused(t: Links.Tree, parent: Option<nat>, name: string, x: nat) {
    parent.None? || Dirlink(Entries(t, parent.value), name, x).Exists?
  }

  class FileTree {
    var inodes: seq<Inode>

    ghost function Tree(): Links.Tree
      reads this
    {
      Links.Tree(inodes, multiset{})
    }

    constructor (inodes: seq<Inode>)
      ensures this.inodes == inodes
    {
      this.inodes := inodes;
    }

    /** dirlookup */
    method Dirlookup(dp: nat, name: string) returns (k: nat)
      requires dp < |inodes|
      ensures k == Lookup(inodes[dp].entries, name)
    {
      var es := inodes[dp].entries;
      k := 0;
      while k < |es|
        invariant k <= |es| && Lookup(es, name) == LookupFrom(es, name, k)
      {
        if es[k].inum != 0 && es[k].name == name { return; }
        k := k + 1;
      }
    }

    /** dirlink */
    method AddEntry(dp: nat, name: string, inum: nat) returns (r: Outcome)
      requires dp < |inodes|
      modifies this
      ensures var l := Dirlink(old(inodes[dp].entries), name, inum);
        && r == (match l case Placed(_) => Done case Exists => Failed case Full => Panicked)
        && inodes == if l.Placed? then old(inodes)[dp := old(inodes[dp]).(entries := l.entries)] else old(inodes)
    {
      var es := inodes[dp].entries;
      var found := Dirlookup(dp, name);
      if found < |es| { return Failed; }
      var k := 0;
      while k < |es|
        invariant k <= |es| && FreeFrom(es, 0) == FreeFrom(es, k)
      {
        if es[k].inum == 0 { break; }
        k := k + 1;
      }
      if k == MAXENTRIES { return Panicked; }
      inodes := inodes[dp := inodes[dp].(entries := PutEntry(es, k, Entry(inum, name)))];
      return Done;
    }

    /** isdirempty */
    method IsEmpty(d: nat) returns (empty: bool)
      requires d < |inodes|
      ensures empty == Empty(inodes[d].entries)
    {
      var es := inodes[d].entries;
      var k := 2;
      while k < |es|
        invariant forall j :: 2 <= j < k && j < |es| ==> es[j].inum == 0
      {
        if es[k].inum != 0 { return false; }
        k := k + 1;
      }
      return true;
    }

    /** ialloc's search */
    method FindInode() returns (x: nat)
      requires |inodes| > 0
      ensures x == FreeInode(inodes, 1)
    {
      x := 1;
      while x < |inodes|
        invariant 1 <= x <= |inodes| && FreeInode(inodes, 1) == FreeInode(inodes, x)
      {
        if inodes[x].kind == NoInode { return; }
        x := x + 1;
      }
    }

    /** sys_link of the inode x found for the old path; the new path's parent may not exist.  A link
        that fails leaves everything as it was. */
    method Link(x: nat, parent: Option<nat>, name: string) returns (r: Outcome)
      requires Inv(Tree()) && 0 < x < |inodes| && inodes[x].kind != NoInode
      requires (parent.Some? ==> Linked(Tree(), parent.value))
      modifies this
      ensures r == Done ==> parent.Some? && Inv(Tree()) && old(inodes[x].kind) != Directory
      ensures r == Done ==>
        parent.value < |old(inodes)| && Tree() == LinkFinish(LinkStart(old(Tree()), x), parent.value, name, x)
      ensures r == Failed ==> inodes == old(inodes)
      ensures r == Failed <==> old(inodes[x].kind) == Directory || Refused(old(Tree()), parent, name, x)
    {
      hide Inv, Lookup, FreeFrom, PutEntry;
      if inodes[x].kind == Directory { return Failed; }
      ghost var t1 := LinkStart(Tree(), x);
      LinkStartInv(Tree(), x);
      inodes := inodes[x := inodes[x].(nlink := inodes[x].nlink + 1)];
      var linked := Failed;
      if parent.Some? {
        LinkFinishInv(t1, parent.value, name, x);
        linked := AddEntry(parent.value, name, x);
        if linked == Done {
          assert multiset{x} - multiset{x} == multiset{};
          return Done;
        }
        if linked == Panicked { return Panicked; }
      }
      inodes := inodes[x := inodes[x].(nlink := inodes[x].nlink - 1)];
      return Failed;
    }

    /** sys_unlink of a name in directory dp. */
    method Unlink(dp: nat, name: string) returns (r: Outcome)
      requires Inv(Tree()) && Linked(Tree(), dp)
      modifies this
      ensures Inv(Tree())
      ensures r == Failed ==> inodes == old(inodes)
      ensures var k := Lookup(Entries(old(Tree()), dp), name);
        if name == "." || name == ".." || k == |Entries(old(Tree()), dp)| then r == Failed
        else var x := Entries(old(Tree()), dp)[k].inum;
             && (r == Failed <==>
                   x < |old(inodes)| && old(inodes)[x].kind == Directory && !Empty(old(inodes)[x].entries))
             && (r == Done ==>
                   && CanUnlink(old(Tree()), dp, k, x) && x < |old(inodes)|
                   && Tree() == Links.Unlink(old(Tree()), dp, k))
      ensures r != Panicked
    {
      hide Inv, Lookup, Empty, CanUnlink;
      if name == "." || name == ".." { return Failed; }
      LinkedBound(Tree(), dp);
      var k := Dirlookup(dp, name);
      if k == |inodes[dp].entries| { return Failed; }
      UnlinkReady(Tree(), dp, name, k);
      var x := inodes[dp].entries[k].inum;
      if inodes[x].nlink < 1 { return Panicked; }
      if inodes[x].kind == Directory {
        var empty := IsEmpty(x);
        if !empty { return Failed; }
      }
      CanUnlinkIs(Tree(), dp, k, x);
      UnlinkInv(Tree(), dp, k, x);
      ghost var t0 := Tree();
      inodes := inodes[dp := inodes[dp].(entries := inodes[dp].entries[k := Entry(0, "")])];
      if inodes[x].kind == Directory {
        inodes := inodes[dp := inodes[dp].(nlink := inodes[dp].nlink - 1)];
      }
      inodes := inodes[x := inodes[x].(nlink := inodes[x].nlink - 1)];
      assert Tree() == Links.Unlink(t0, dp, k);
      return Done;
    }

    /** create in directory dp. */
    method Create(dp: nat, name: string, kind: Kind) returns (r: Outcome, inum: nat)
      requires Inv(Tree()) && Linked(Tree(), dp) && kind != NoInode
      modifies this
      ensures match Links.Create(old(Tree()), dp, name, kind)
              case Created(t, x) => r == Done && inum == x && Tree() == t && Inv(t)
              case Found(x) => r == Done && inum == x && inodes == old(inodes)
              case Taken => r == Failed && inodes == old(inodes)
              case Halted => r == Panicked
    {
      hide Inv, Lookup, FreeFrom, PutEntry, FreeInode;
      LinkedBound(Tree(), dp);
      var es := inodes[dp].entries;
      var k := Dirlookup(dp, name);
      if k < |es| {
        var x := es[k].inum;
        return if kind == File && x < |inodes| && inodes[x].kind == File then Done else Failed, x;
      }
      ghost var t := Tree();
      CreateKeeps(t, dp, name, kind);
      var x := FindInode();
      if x == |inodes| { return Panicked, 0; }
      inodes := inodes[x := Inode(kind, 1, [])];
      if kind == Directory {
        inodes := inodes[dp := inodes[dp].(nlink := inodes[dp].nlink + 1)];
        var _ := AddEntry(x, ".", x);
        var _ := AddEntry(x, "..", dp);
        DotsAdded(x, dp);
        assert inodes == NewDirectory(t, dp, x).inodes;
      }
      r := AddEntry(dp, name, x);
      inum := x;
    }
  }

  /** A name that sys_unlink finds is an entry after the dots, and its inode has a link: the panic
      "nlink < 1" cannot happen. */
  lemma UnlinkReady(t: Links.Tree, dp: nat, name: string, k: nat)
    requires Inv(t) && Linked(t, dp) && name != "." && name != ".."
    requires k == Lookup(Entries(t, dp), name) < |Entries(t, dp)|
    ensures var x := Entries(t, dp)[k].inum;
      Child(t, dp, k, x) && 0 < x < |t.inodes| && t.inodes[x].nlink >= 1
  {
    hide CountsOk, PendingOk, DirsOk, EntriesOk, NamedOnce, UniqueNames, Refs;
    LinkedDir(t, dp);
    var x := Entries(t, dp)[k].inum;
    ChildNames(t, dp, k, x);
    CountAt(t, x);
    InRefs(t, x, dp, k);
  }

  lemma CanUnlinkIs(t: Links.Tree, dp: nat, k: nat, x: nat)
    requires Linked(t, dp) && Child(t, dp, k, x) && x != 0 && (IsDir(t, x) ==> Empty(Entries(t, x)))
    ensures CanUnlink(t, dp, k, x)
  {
  }

  lemma CreateKeeps(t: Links.Tree, dp: nat, name: string, kind: Kind)
    requires Inv(t) && Linked(t, dp) && kind != NoInode
    ensures Links.Create(t, dp, name, kind).Created? ==> Inv(Links.Create(t, dp, name, kind).t)
  {
    hide Inv, Links.Create;
    if Links.Create(t, dp, name, kind).Created? {
      if kind == Directory { CreateDirectoryInv(t, dp, name); } else { CreateFileInv(t, dp, name, kind); }
    }
  }

  lemma DotsAdded(x: nat, dp: nat)
    requires x != 0
    ensures Dirlink([], ".", x) == Placed([Entry(x, ".")])
    ensures Dirlink([Entry(x, ".")], "..", dp) == Placed([Entry(x, "."), Entry(dp, "..")])
  {
    assert FreeFrom([Entry(x, ".")], 0) == 1;
  }

  // ----- Every sequence of steps -----

  /** The parts of sys_link are steps of their own: other calls run between them. */
  ghost predicate Step(t: Links.Tree, t': Links.Tree) {
    || (exists x :: StartStep(t, t', x))
    || (exists x :: AbortStep(t, t', x))
    || (exists dp, name, x :: FinishStep(t, t', dp, name, x))
    || (exists dp, name, kind :: CreateStep(t, t', dp, name, kind))
    || (exists dp, k, x :: UnlinkStep(t, t', dp, k, x))
    || (exists x :: ReclaimStep(t, t', x))
  }

  ghost predicate StartStep(t: Links.Tree, t': Links.Tree, x: nat) {
    0 < x < |t.inodes| && (t.inodes[x].kind == File || t.inodes[x].kind == Device) && t' == LinkStart(t, x)
  }

  ghost predicate AbortStep(t: Links.Tree, t': Links.Tree, x: nat) {
    x in t.pending && x < |t.inodes| && t' == LinkAbort(t, x)
  }

  ghost predicate FinishStep(t: Links.Tree, t': Links.Tree, dp: nat, name: string, x: nat) {
    x in t.pending && x < |t.inodes| && Linked(t, dp) && t' == LinkFinish(t, dp, name, x)
  }

  ghost predicate CreateStep(t: Links.Tree, t': Links.Tree, dp: nat, name: string, kind: Kind) {
    Linked(t, dp) && kind != NoInode && Links.Create(t, dp, name, kind).Created?
        && t' == Links.Create(t, dp, name, kind).t
  }

  ghost predicate UnlinkStep(t: Links.Tree, t': Links.Tree, dp: nat, k: nat, x: nat) {
    CanUnlink(t, dp, k, x) && x < |t.inodes| && t' == Links.Unlink(t, dp, k)
  }

  ghost predicate ReclaimStep(t: Links.Tree, t': Links.Tree, x: nat) {
    0 < x < |t.inodes| && t.inodes[x].nlink == 0 && t' == Reclaim(t, x)
  }

  lemma StepInv(t: Links.Tree, t': Links.Tree)
    requires Inv(t) && Step(t, t')
    ensures Inv(t')
  {
    hide Inv, CanUnlink, LinkFinish, LinkAbort, LinkStart, Links.Create, Links.Unlink, Reclaim;
    if x :| StartStep(t, t', x) {
      LinkStartInv(t, x);
    } else if x :| AbortStep(t, t', x) {
      LinkAbortInv(t, x);
    } else if dp, name, x :| FinishStep(t, t', dp, name, x) {
      LinkFinishInv(t, dp, name, x);
    } else if dp, name, kind :| CreateStep(t, t', dp, name, kind) {
      CreateKeeps(t, dp, name, kind);
    } else if dp, k, x :| UnlinkStep(t, t', dp, k, x) {
      UnlinkInv(t, dp, k, x);
    } else if x :| ReclaimStep(t, t', x) {
      ReclaimInv(t, x);
    }
  }

  /** Names that mkfs can give to program files: different, and none of the dots. */
  ghost predicate Programs(names: seq<string>) {
    && (forall i :: 0 <= i < |names| ==> names[i] != "." && names[i] != "..")
    && (forall i, j :: 0 <= i < j < |names| ==> names[i] != names[j])
  }

  /** The root directory as mkfs writes it: its dots, one entry for each program, whose inodes follow the root's, and
      free entries up to the end of the last block. */
  function RootEntries(names: seq<string>, free: nat): seq<Entry> {
    [Entry(ROOT, "."), Entry(ROOT, "..")] + seq(|names|, i requires 0 <= i < |names| => Entry(i + 2, names[i]))
    + seq(free, _ => Entry(0, ""))
  }

  /** The image mkfs makes: the root with one link, a file with one link for each program, and free inodes. */
  function Image(names: seq<string>, free: nat, n: nat): Links.Tree
    requires n >= |names| + 2
  {
    Links.Tree(seq(n, x => if x == ROOT then Inode(Directory, 1, RootEntries(names, free))
                           else if 2 <= x < |names| + 2 then Inode(File, 1, []) else Inode(NoInode, 0, [])),
               multiset{})
  }

  lemma RootEntry(names: seq<string>, free: nat, k: nat)
    requires Programs(names) && k < |RootEntries(names, free)|
    ensures |RootEntries(names, free)| == |names| + 2 + free
    ensures RootEntries(names, free)[k] ==
      if k == 0 then Entry(ROOT, ".") else if k == 1 then Entry(ROOT, "..")
      else if k < |names| + 2 then Entry(k, names[k - 2]) else Entry(0, "")
  {
  }

  /** In that image every entry from the second on names its own inode; and it is the only one that does. */
  lemma ImageRefs(names: seq<string>, free: nat, n: nat, x: nat)
    requires Programs(names) && n >= |names| + 2 && 0 < x < n
    ensures Refs(Image(names, free, n), x) == if x < |names| + 2 then {(ROOT, x)} else {}
  {
    hide Refs, RootEntries;
    var t := Image(names, free, n);
    forall r | true ensures r in Refs(t, x) <==> x < |names| + 2 && r == (ROOT, x) {
      InRefs(t, x, r.0, r.1);
      if r.0 == ROOT && r.1 < |Entries(t, ROOT)| { RootEntry(names, free, r.1); }
      if x < |names| + 2 { RootLong(names, free, x); }
    }
  }

  lemma RootLong(names: seq<string>, free: nat, x: nat)
    requires Programs(names) && 0 < x < |names| + 2
    ensures x < |RootEntries(names, free)| && RootEntries(names, free)[x].inum == x
    ensures RootEntries(names, free)[x] != Entry(ROOT, ".")
  {
  }

  lemma ImageInv(names: seq<string>, free: nat, n: nat)
    requires Programs(names) && n >= |names| + 2 && |names| + 2 + free <= MAXENTRIES
    ensures Inv(Image(names, free, n))
  {
    hide Refs, RootEntries;
    var t := Image(names, free, n);
    forall x: nat | 0 < x < n ensures CountOk(t, x) { ImageRefs(names, free, n, x); }
    RootShape(names, free);
    forall d: nat | Linked(t, d) ensures DirOk(t, d) {}
    forall d: nat, k: nat, x: nat | Linked(t, d) && Child(t, d, k, x) && x != 0
      ensures EntryOk(t, d, k, x) && !IsDir(t, x)
    {
      RootEntry(names, free, k);
    }
  }

  lemma RootShape(names: seq<string>, free: nat)
    requires Programs(names)
    ensures var es := RootEntries(names, free);
      |es| == |names| + 2 + free && es[0] == Entry(ROOT, ".") && es[1] == Entry(ROOT, "..") && UniqueNames(es)
  {
    hide RootEntries;
    var es := RootEntries(names, free);
    RootSize(names, free);
    RootEntry(names, free, 0);
    RootEntry(names, free, 1);
    forall i, j | 0 <= i < j < |es| && es[i].inum != 0 && es[j].inum != 0 ensures es[i].name != es[j].name {
      RootEntry(names, free, i);
      RootEntry(names, free, j);
    }
  }

  lemma RootSize(names: seq<string>, free: nat)
    ensures |RootEntries(names, free)| == |names| + 2 + free
  {
  }

  /** Some run of mkfs makes the tree. */
  ghost predicate Made(t: Links.Tree) {
    exists names, free :: MadeOf(t, names, free)
  }

  ghost predicate MadeOf(t: Links.Tree, names: seq<string>, free: nat) {
    && Programs(names) && |t.inodes| >= |names| + 2 && |names| + 2 + free <= MAXENTRIES
    && t == Image(names, free, |t.inodes|)
  }

  ghost predicate Run(tr: seq<Links.Tree>) {
    && tr != [] && Made(tr[0])
    && forall i :: 0 <= i < |tr| - 1 ==> Step(tr[i], tr[i + 1])
  }

  lemma {:induction false} RunInv(tr: seq<Links.Tree>, i: nat)
    requires Run(tr) && i < |tr|
    ensures Inv(tr[i])
  {
    hide Inv, Step, Image;
    if i == 0 {
      var names, free :| MadeOf(tr[0], names, free);
      ImageInv(names, free, |tr[0].inodes|);
    } else {
      RunInv(tr, i - 1);
      StepInv(tr[i - 1], tr[i]);
    }
  }

  /** In every reachable state, an inode's link count is the number of entries naming it in linked directories, its
      directory's own "." aside, plus the sys_links on their way; and names within a directory are unique. */
  lemma LinkCounts(tr: seq<Links.Tree>, i: nat, x: nat)
    requires Run(tr) && i < |tr| && 0 < x < |tr[i].inodes|
    ensures tr[i].inodes[x].nlink == |Refs(tr[i], x)| + tr[i].pending[x]
    ensures tr[i].pending == multiset{} ==> tr[i].inodes[x].nlink == |Refs(tr[i], x)|
    ensures Linked(tr[i], x) ==> UniqueNames(tr[i].inodes[x].entries)
  {
    hide Step, Refs, Image;
    RunInv(tr, i);
    CountAt(tr[i], x);
    if Linked(tr[i], x) { LinkedDir(tr[i], x); }
  }
}

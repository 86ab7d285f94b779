/** Link counts and directories (sysfile.c, fs.c).

    An inode here is its type, its link count and, for a directory, its table of entries; an entry whose inode
    number is 0 is free.  What keeps the counts right is that linked directories form a tree: each has its dots
    first, is named once, in its parent, and its ".." names that parent.  So a directory without entries has
    one link left, and removing it takes exactly one link from its parent. */
module Links {
  const ROOT: nat := 1
  const MAXENTRIES: nat := 140 * 512 / 16   // entries in a file of the largest size

  datatype Kind = NoInode | Directory | File | Device

  datatype Entry = Entry(inum: nat, name: string)

  datatype Inode = Inode(kind: Kind, nlink: int, entries: seq<Entry>)

  /** The inodes, and the inodes whose count a sys_link in progress has already raised. */
  datatype Tree = Tree(inodes: seq<Inode>, pending: multiset<nat>)

  // ----- What the counts mean -----

  predicate IsDir(t: Tree, d: nat) {
    d < |t.inodes| && t.inodes[d].kind == Directory
  }

  predicate Linked(t: Tree, d: nat) {
    IsDir(t, d) && t.inodes[d].nlink > 0
  }

  function Entries(t: Tree, d: nat): seq<Entry> {
    if d < |t.inodes| then t.inodes[d].entries else []
  }

  /** Entry k of linked directory d names x, and is not the directory's own ".". */
  predicate Names(t: Tree, d: nat, k: nat, x: nat) {
    && Linked(t, d) && k < |Entries(t, d)| && Entries(t, d)[k].inum == x && Entries(t, d)[k] != Entry(d, ".")
  }

  ghost function Refs(t: Tree, x: nat): set<(nat, nat)> {
    set d: nat, k: nat | d < |t.inodes| && k < |Entries(t, d)| && Names(t, d, k, x) :: (d, k)
  }

  lemma InRefs(t: Tree, x: nat, d: nat, k: nat)
    ensures (d, k) in Refs(t, x) <==> Names(t, d, k, x)
  {
  }

  ghost predicate CountOk(t: Tree, x: nat)
    requires x < |t.inodes|
  {
    && t.inodes[x].nlink == |Refs(t, x)| + t.pending[x]
    && (t.inodes[x].kind == NoInode ==> t.inodes[x].nlink == 0)
    && (t.inodes[x].kind == Directory ==> t.pending[x] == 0)
  }

  // ----- What keeps them true -----

  /** Directory p names x in one of its entries after "." and "..". */
  predicate Child(t: Tree, p: nat, k: nat, x: nat) {
    2 <= k < |Entries(t, p)| && Entries(t, p)[k].inum == x
  }

  predicate UniqueNames(es: seq<Entry>) {
    forall i, j :: 0 <= i < j < |es| && es[i].inum != 0 && es[j].inum != 0 ==> es[i].name != es[j].name
  }

  function Parent(t: Tree, d: nat): nat {
    if |Entries(t, d)| >= 2 then Entries(t, d)[1].inum else 0
  }

  ghost predicate DirOk(t: Tree, d: nat) {
    var es := Entries(t, d);
    && 0 < d && 2 <= |es| <= MAXENTRIES && es[0] == Entry(d, ".") && es[1].name == ".." && UniqueNames(es)
    && Linked(t, es[1].inum)
    && if d == ROOT then es[1].inum == ROOT else exists k :: Child(t, es[1].inum, k, d)
  }

  /** An entry after "." and ".." names an inode in use; a directory so named has this one as its parent. */
  ghost predicate EntryOk(t: Tree, d: nat, k: nat, x: nat) {
    && x < |t.inodes| && t.inodes[x].kind != NoInode && x != ROOT
    && (t.inodes[x].kind == Directory ==> Linked(t, x) && Parent(t, x) == d)
  }

  ghost predicate PendingOk(t: Tree) {
    forall x :: x in t.pending ==> 0 < x < |t.inodes| && (t.inodes[x].kind == File || t.inodes[x].kind == Device)
  }

  /** Every link count is the number of entries that name the inode in linked directories. */
  ghost predicate CountsOk(t: Tree) {
    forall x: nat :: 0 < x < |t.inodes| ==> CountOk(t, x)
  }

  ghost predicate DirsOk(t: Tree) {
    forall d: nat {:trigger DirOk(t, d)} :: Linked(t, d) ==> DirOk(t, d)
  }

  ghost predicate EntriesOk(t: Tree) {
    forall d: nat, k: nat, x: nat {:trigger EntryOk(t, d, k, x)} ::
      Linked(t, d) && Child(t, d, k, x) && x != 0 ==> EntryOk(t, d, k, x)
  }

  /** A directory has one name. */
  ghost predicate NamedOnce(t: Tree) {
    forall d: nat, k: nat, j: nat, x: nat ::
      Linked(t, d) && Child(t, d, k, x) && Child(t, d, j, x) && x != 0 && IsDir(t, x) ==> k == j
  }

  ghost predicate Inv(t: Tree) {
    Linked(t, ROOT) && PendingOk(t) && CountsOk(t) && DirsOk(t) && EntriesOk(t) && NamedOnce(t)
  }

  // ----- Directories -----

  /** dirlookup: the position of a name, or the length of the table. */
  function Lookup(es: seq<Entry>, name: string): (k: nat)
    ensures k <= |es| && (k < |es| ==> es[k].inum != 0 && es[k].name == name)
    ensures forall j :: 0 <= j < k ==> es[j].inum == 0 || es[j].name != name
  {
    LookupFrom(es, name, 0)
  }

  function LookupFrom(es: seq<Entry>, name: string, i: nat): (k: nat)
    requires i <= |es|
    ensures i <= k <= |es| && (k < |es| ==> es[k].inum != 0 && es[k].name == name)
    ensures forall j :: i <= j < k ==> es[j].inum == 0 || es[j].name != name
    decreases |es| - i
  {
    if i == |es| || (es[i].inum != 0 && es[i].name == name) then i else LookupFrom(es, name, i + 1)
  }

  /** The first free entry, or the length of the table. */
  function FreeFrom(es: seq<Entry>, i: nat): (k: nat)
    requires i <= |es|
    ensures i <= k <= |es| && (k < |es| ==> es[k].inum == 0)
    ensures forall j :: i <= j < k ==> es[j].inum != 0
    decreases |es| - i
  {
    if i == |es| || es[i].inum == 0 then i else FreeFrom(es, i + 1)
  }

  function PutEntry(es: seq<Entry>, k: nat, e: Entry): seq<Entry>
    requires k <= |es|
  {
    if k < |es| then es[k := e] else es + [e]
  }

  /** dirlink refuses a name that is there; a full directory is its panic. */
  datatype Linking = Placed(entries: seq<Entry>) | Exists | Full

  function Dirlink(es: seq<Entry>, name: string, inum: nat): (r: Linking) {
    if Lookup(es, name) < |es| then Exists
    else
      var k := FreeFrom(es, 0);
      if k == MAXENTRIES then Full else Placed(PutEntry(es, k, Entry(inum, name)))
  }

  /** isdirempty */
  predicate Empty(es: seq<Entry>) {
    forall k :: 2 <= k < |es| ==> es[k].inum == 0
  }

  /** ialloc: the first free inode from i on, or the number of inodes. */
  function FreeInode(inodes: seq<Inode>, i: nat): (x: nat)
    requires i <= |inodes|
    ensures i <= x <= |inodes| && (x < |inodes| ==> inodes[x].kind == NoInode)
    ensures forall y :: i <= y < x ==> inodes[y].kind != NoInode
    decreases |inodes| - i
  {
    if i == |inodes| || inodes[i].kind == NoInode then i else FreeInode(inodes, i + 1)
  }

  // ----- sys_link, in its three parts -----

  function SetInode(t: Tree, x: nat, i: Inode): Tree
    requires x < |t.inodes|
  {
    t.(inodes := t.inodes[x := i])
  }

  function AddLinks(t: Tree, x: nat, n: int): Tree
    requires x < |t.inodes|
  {
    SetInode(t, x, t.inodes[x].(nlink := t.inodes[x].nlink + n))
  }

  /** The count is raised before the entry is written. */
  function LinkStart(t: Tree, x: nat): Tree
    requires x < |t.inodes|
  {
    AddLinks(t, x, 1).(pending := t.pending + multiset{x})
  }

  /** "bad": the count is lowered again. */
  function LinkAbort(t: Tree, x: nat): Tree
    requires x < |t.inodes|
  {
    AddLinks(t, x, -1).(pending := t.pending - multiset{x})
  }

  function SetEntries(t: Tree, d: nat, es: seq<Entry>): Tree
    requires d < |t.inodes|
  {
    SetInode(t, d, t.inodes[d].(entries := es))
  }

  /** The entry is written; the reference counted ahead of it is now real. */
  function LinkFinish(t: Tree, dp: nat, name: string, x: nat): (t': Tree)
    requires dp < |t.inodes| && x < |t.inodes|
  {
    match Dirlink(Entries(t, dp), name, x)
    case Placed(es) => SetEntries(t, dp, es).(pending := t.pending - multiset{x})
    case Exists => LinkAbort(t, x)
    case Full => t
  }

  /** Same directories with the same entries. */
  ghost predicate SameTables(t: Tree, t': Tree) {
    && |t'.inodes| == |t.inodes| && (forall d: nat :: Linked(t', d) <==> Linked(t, d))
    && (forall d: nat :: IsDir(t', d) <==> IsDir(t, d))
    && (forall d: nat :: Entries(t', d) == Entries(t, d))
    && (forall x: nat :: x < |t.inodes| ==> t'.inodes[x].kind == t.inodes[x].kind)
  }

  lemma SameTablesDirs(t: Tree, t': Tree)
    requires DirsOk(t) && SameTables(t, t')
    ensures DirsOk(t')
  {
    hide Linked, IsDir, Entries, UniqueNames;
    forall d: nat | Linked(t', d) ensures DirOk(t', d) {
      assert DirOk(t, d);
      if d != ROOT {
        var k :| Child(t, Parent(t, d), k, d);
        assert Child(t', Parent(t, d), k, d);
      }
    }
  }

  lemma SameTablesInv(t: Tree, t': Tree)
    requires Inv(t) && SameTables(t, t') && CountsOk(t') && PendingOk(t')
    ensures Inv(t')
  {
    hide CountsOk, PendingOk, DirsOk, Linked, IsDir, Entries;
    SameTablesDirs(t, t');
    forall d: nat, k: nat, x: nat | Linked(t', d) && Child(t', d, k, x) && x != 0 ensures EntryOk(t', d, k, x) {
      assert Child(t, d, k, x) && EntryOk(t, d, k, x);
    }
    forall d: nat, k: nat, j: nat, x: nat | Linked(t', d) && Child(t', d, k, x) && Child(t', d, j, x) && x != 0
        && IsDir(t', x)
      ensures k == j
    {
      assert Child(t, d, k, x) && Child(t, d, j, x);
    }
  }

  lemma SameRefs(t: Tree, t': Tree, x: nat)
    requires SameTables(t, t')
    ensures Refs(t', x) == Refs(t, x)
  {
    forall d: nat, k: nat ensures (d, k) in Refs(t', x) <==> (d, k) in Refs(t, x) {
      InRefs(t, x, d, k);
      InRefs(t', x, d, k);
      assert Names(t', d, k, x) <==> Names(t, d, k, x);
    }
    assert forall r :: r in Refs(t', x) <==> (r.0, r.1) in Refs(t', x);
  }

  lemma LinkStartInv(t: Tree, x: nat)
    requires Inv(t) && 0 < x < |t.inodes| && (t.inodes[x].kind == File || t.inodes[x].kind == Device)
    ensures Inv(LinkStart(t, x))
  {
    hide Refs, DirsOk, EntriesOk, NamedOnce;
    var t' := LinkStart(t, x);
    forall y: nat | 0 < y < |t.inodes| ensures CountOk(t', y) {
      assert CountOk(t, y);
      SameRefs(t, t', y);
    }
    SameTablesInv(t, t');
  }

  lemma LinkAbortInv(t: Tree, x: nat)
    requires Inv(t) && x in t.pending
    ensures x < |t.inodes| && Inv(LinkAbort(t, x))
  {
    hide Refs, DirsOk, EntriesOk, NamedOnce;
    var t' := LinkAbort(t, x);
    forall y: nat | 0 < y < |t.inodes| ensures CountOk(t', y) {
      assert CountOk(t, y);
      SameRefs(t, t', y);
    }
    SameTablesInv(t, t');
  }

  /** Where a new entry goes: after "." and "..", where no entry was. */
  lemma FreePlace(t: Tree, dp: nat, name: string)
    requires Inv(t) && Linked(t, dp) && Lookup(Entries(t, dp), name) == |Entries(t, dp)|
    ensures var es, k := Entries(t, dp), FreeFrom(Entries(t, dp), 0);
      && 2 <= k <= |es| && name != "." && name != ".." && (k < |es| ==> es[k].inum == 0)
      && (forall x :: x != 0 ==> UniqueNames(PutEntry(es, k, Entry(x, name))))
  {
    hide CountsOk, PendingOk, EntriesOk, NamedOnce;
    assert DirOk(t, dp);
    assert DirOk(t, Entries(t, dp)[1].inum);
  }

  // ----- One reference more or less -----

  ghost predicate RefAdded(t: Tree, t': Tree, dp: nat, k: nat, x: nat) {
    forall d: nat, j: nat, y: nat :: y > 0 ==> (Names(t', d, j, y) <==> if d == dp && j == k then y == x
        else Names(t, d, j, y))
  }

  ghost predicate RefCut(t: Tree, t': Tree, dp: nat, k: nat) {
    forall d: nat, j: nat, y: nat :: y > 0 ==> (Names(t', d, j, y) <==> Names(t, d, j, y) && !(d == dp && j == k))
  }

  lemma AddedCount(t: Tree, t': Tree, dp: nat, k: nat, x: nat, y: nat)
    requires y > 0 && RefAdded(t, t', dp, k, x) && !Names(t, dp, k, y)
    ensures |Refs(t', y)| == if y == x then |Refs(t, y)| + 1 else |Refs(t, y)|
  {
    hide Refs, Names;
    InRefs(t, y, dp, k);
    forall r | true ensures r in Refs(t', y) <==> r in Refs(t, y) || (y == x && r == (dp, k)) {
      InRefs(t, y, r.0, r.1);
      InRefs(t', y, r.0, r.1);
    }
    assert Refs(t', y) == if y == x then Refs(t, y) + {(dp, k)} else Refs(t, y);
  }

  lemma CutCount(t: Tree, t': Tree, dp: nat, k: nat, y: nat)
    requires y > 0 && RefCut(t, t', dp, k)
    ensures |Refs(t', y)| == if Names(t, dp, k, y) then |Refs(t, y)| - 1 else |Refs(t, y)|
  {
    hide Refs, Names;
    InRefs(t, y, dp, k);
    forall r | true ensures r in Refs(t', y) <==> r in Refs(t, y) && r != (dp, k) {
      InRefs(t, y, r.0, r.1);
      InRefs(t', y, r.0, r.1);
    }
    assert Refs(t', y) == Refs(t, y) - {(dp, k)};
  }

  lemma NotNamed(t: Tree, x: nat, d: nat, k: nat)
    requires Refs(t, x) == {}
    ensures !Names(t, d, k, x)
  {
    InRefs(t, x, d, k);
  }

  // ----- A new entry -----

  /** Directory dp has a new entry (x, name) at position k, where none was. */
  ghost predicate TablePut(t: Tree, t': Tree, dp: nat, k: nat, e: Entry) {
    && |t'.inodes| == |t.inodes| && (forall d: nat :: Linked(t', d) <==> Linked(t, d)) && Linked(t, dp)
    && (forall x: nat :: x < |t.inodes| ==> t'.inodes[x].kind == t.inodes[x].kind)
    && (forall d: nat :: d != dp ==> Entries(t', d) == Entries(t, d))
    && 2 <= k <= |Entries(t, dp)| && k < MAXENTRIES && (k < |Entries(t, dp)| ==> Entries(t, dp)[k].inum == 0)
    && e.inum > 0 && e.name != "."
    && Entries(t', dp) == PutEntry(Entries(t, dp), k, e) && UniqueNames(Entries(t', dp))
  }

  lemma PutNames(t: Tree, t': Tree, dp: nat, k: nat, e: Entry)
    requires TablePut(t, t', dp, k, e)
    ensures RefAdded(t, t', dp, k, e.inum)
  {
    hide UniqueNames, Linked;
  }

  lemma PutChild(t: Tree, t': Tree, dp: nat, k: nat, e: Entry, d: nat, j: nat, x: nat)
    requires TablePut(t, t', dp, k, e) && x > 0
    ensures Child(t', d, j, x) <==> if d == dp && j == k then x == e.inum else Child(t, d, j, x)
    ensures |Entries(t, dp)| >= 2 && Parent(t', d) == Parent(t, d)
  {
    hide UniqueNames, Linked;
  }

  /** Every directory is in order; a directory newly named by the entry may have lacked its name before. */
  lemma PutDirs(t: Tree, t': Tree, dp: nat, k: nat, e: Entry)
    requires TablePut(t, t', dp, k, e) && (forall d: nat :: Linked(t, d) && d != e.inum ==> DirOk(t, d))
    requires e.inum != ROOT && e.inum != dp
    requires Linked(t, e.inum) ==> DotsOk(t, e.inum, dp)
    ensures DirsOk(t')
  {
    hide Linked, UniqueNames, Entries, TablePut, DirOk, DotsOk;
    SameKinds(t, t', dp, k, e);
    forall d: nat | Linked(t', d) ensures DirOk(t', d) {
      if d != e.inum {
        PutOther(t, t', dp, k, e, d);
      } else {
        PutDots(t, t', dp, k, e);
      }
    }
  }

  lemma PutOther(t: Tree, t': Tree, dp: nat, k: nat, e: Entry, d: nat)
    requires TablePut(t, t', dp, k, e) && Linked(t, d) && DirOk(t, d)
    ensures DirOk(t', d)
  {
    hide Linked, UniqueNames, Child;
    if d != ROOT {
      var j :| Child(t, Parent(t, d), j, d);
      PutChild(t, t', dp, k, e, Parent(t, d), j, d);
      assert Child(t, dp, k, d) ==> false by { EmptySlot(t, t', dp, k, e, d); }
      assert Child(t', Parent(t, d), j, d);
    }
  }

  lemma EmptySlot(t: Tree, t': Tree, dp: nat, k: nat, e: Entry, x: nat)
    requires TablePut(t, t', dp, k, e) && x > 0
    ensures !Child(t, dp, k, x)
  {
  }

  lemma PutDots(t: Tree, t': Tree, dp: nat, k: nat, e: Entry)
    requires TablePut(t, t', dp, k, e) && DotsOk(t, e.inum, dp) && e.inum != dp && e.inum != ROOT
    ensures DirOk(t', e.inum)
  {
    hide Linked;
    assert Child(t', dp, k, e.inum);
  }

  /** A directory with nothing but its dots, in parent p. */
  ghost predicate DotsOk(t: Tree, x: nat, p: nat) {
    0 < x && Entries(t, x) == [Entry(x, "."), Entry(p, "..")] && Linked(t, p)
  }

  lemma PutEntries(t: Tree, t': Tree, dp: nat, k: nat, e: Entry)
    requires TablePut(t, t', dp, k, e) && EntriesOk(t) && NamedOnce(t) && EntryOk(t, dp, k, e.inum)
    requires IsDir(t, e.inum) ==> forall j :: !Child(t, dp, j, e.inum)
    ensures EntriesOk(t') && NamedOnce(t')
  {
    hide Linked, UniqueNames, Entries, TablePut, Child, Parent;
    SameKinds(t, t', dp, k, e);
    forall d: nat, j: nat, x: nat | Linked(t', d) && Child(t', d, j, x) && x != 0 ensures EntryOk(t', d, j, x) {
      PutChild(t, t', dp, k, e, d, j, x);
      PutChild(t, t', dp, k, e, x, j, x);
      assert EntryOk(t, d, j, x);
    }
    forall d: nat, j: nat, i: nat, x: nat | Linked(t', d) && Child(t', d, j, x) && Child(t', d, i, x) && x != 0
        && IsDir(t', x)
      ensures j == i
    {
      PutChild(t, t', dp, k, e, d, j, x);
      PutChild(t, t', dp, k, e, d, i, x);
    }
  }

  lemma SameKinds(t: Tree, t': Tree, dp: nat, k: nat, e: Entry)
    requires TablePut(t, t', dp, k, e)
    ensures |t'.inodes| == |t.inodes| && (forall d: nat :: Linked(t', d) <==> Linked(t, d))
    ensures forall x: nat :: x < |t.inodes| ==> t'.inodes[x].kind == t.inodes[x].kind
  {
  }

  /** Placing an entry through dirlink. */
  lemma DirlinkPuts(t: Tree, t': Tree, dp: nat, name: string, x: nat)
    requires Inv(t) && Linked(t, dp) && Dirlink(Entries(t, dp), name, x).Placed? && 0 < x
    requires t'.inodes == t.inodes[dp := t.inodes[dp].(entries := Dirlink(Entries(t, dp), name, x).entries)]
    ensures TablePut(t, t', dp, FreeFrom(Entries(t, dp), 0), Entry(x, name))
  {
    hide CountsOk, PendingOk, EntriesOk, NamedOnce, DirsOk, UniqueNames;
    FreePlace(t, dp, name);
    assert DirOk(t, dp) by { LinkedDir(t, dp); }
  }

  lemma LinkedDir(t: Tree, d: nat)
    requires DirsOk(t) && Linked(t, d)
    ensures DirOk(t, d)
  {
  }

  lemma LinkFinishInv(t: Tree, dp: nat, name: string, x: nat)
    requires Inv(t) && Linked(t, dp) && x in t.pending
    ensures dp < |t.inodes| && x < |t.inodes| && Inv(LinkFinish(t, dp, name, x))
  {
    hide Refs, Names, DirsOk, EntriesOk, NamedOnce, Dirlink, UniqueNames, Child, TablePut;
    var t', k := LinkFinish(t, dp, name, x), FreeFrom(Entries(t, dp), 0);
    match Dirlink(Entries(t, dp), name, x)
    case Exists => LinkAbortInv(t, x);
    case Full =>
    case Placed(es) =>
      var e := Entry(x, name);
      DirlinkPuts(t, t', dp, name, x);
      PutNames(t, t', dp, k, e);
      PutDirsAll(t, t', dp, k, e);
      PutEntries(t, t', dp, k, e);
      forall y: nat | 0 < y < |t.inodes| ensures CountOk(t', y) {
        assert CountOk(t, y);
        NoNameYet(t, t', dp, k, e, y);
        AddedCount(t, t', dp, k, x, y);
      }
  }

  lemma PutDirsAll(t: Tree, t': Tree, dp: nat, k: nat, e: Entry)
    requires TablePut(t, t', dp, k, e) && DirsOk(t) && !IsDir(t, e.inum) && IsDir(t, ROOT)
    ensures DirsOk(t')
  {
    hide UniqueNames, TablePut, DirOk;
    assert IsDir(t, dp) by { SlotDir(t, t', dp, k, e); }
    forall d: nat | Linked(t, d) && d != e.inum ensures DirOk(t, d) { LinkedDir(t, d); }
    PutDirs(t, t', dp, k, e);
  }

  lemma SlotDir(t: Tree, t': Tree, dp: nat, k: nat, e: Entry)
    requires TablePut(t, t', dp, k, e)
    ensures IsDir(t, dp)
  {
  }

  lemma NoNameYet(t: Tree, t': Tree, dp: nat, k: nat, e: Entry, y: nat)
    requires TablePut(t, t', dp, k, e) && y > 0
    ensures !Names(t, dp, k, y)
  {
  }

  // ----- create -----

  /** create: a new inode; the file that has the name already; a name taken otherwise; or one of its panics
      (no inode left, directory full). */
  datatype Creation = Created(t: Tree, inum: nat) | Found(inum: nat) | Taken | Halted

  function Create(t: Tree, dp: nat, name: string, kind: Kind): Creation
    requires Linked(t, dp) && |t.inodes| > 0
  {
    var es := Entries(t, dp);
    var k, x := Lookup(es, name), FreeInode(t.inodes, 1);
    if k < |es| then
      if kind == File && es[k].inum < |t.inodes| && t.inodes[es[k].inum].kind == File then Found(es[k].inum) else Taken
    else if x == |t.inodes| then Halted
    else
      var t1 := if kind == Directory then NewDirectory(t, dp, x) else NewFile(t, x, kind);
      var r := Dirlink(Entries(t1, dp), name, x);
      if r.Placed? then Created(SetEntries(t1, dp, r.entries).(pending := t.pending), x) else Halted
  }

  /** A new inode with the one link it is about to get. */
  function NewFile(t: Tree, x: nat, kind: Kind): Tree
    requires x < |t.inodes|
  {
    SetInode(t, x, Inode(kind, 1, [])).(pending := t.pending + multiset{x})
  }

  /** A new directory with its dots; the parent has one more link. */
  function NewDirectory(t: Tree, dp: nat, x: nat): Tree
    requires x < |t.inodes| && dp < |t.inodes|
  {
    SetInode(AddLinks(t, dp, 1), x, Inode(Directory, 1, [Entry(x, "."), Entry(dp, "..")]))
  }

  lemma FreeUnnamed(t: Tree, x: nat)
    requires Inv(t) && 0 < x < |t.inodes| && t.inodes[x].kind == NoInode
    ensures Refs(t, x) == {} && t.pending[x] == 0 && t.inodes[x].nlink == 0
    ensures forall d: nat, k: nat :: Linked(t, d) ==> !Child(t, d, k, x)
  {
    hide DirsOk, NamedOnce, Refs;
    assert CountOk(t, x);
    forall d: nat, k: nat | Linked(t, d) ensures !Child(t, d, k, x) {
      assert Child(t, d, k, x) ==> EntryOk(t, d, k, x);
    }
  }

  /** An inode that is no linked directory before or after, and is named nowhere, may change. */
  lemma NewFileInv(t: Tree, x: nat, kind: Kind)
    requires Inv(t) && 0 < x < |t.inodes| && t.inodes[x].kind == NoInode && (kind == File || kind == Device)
    ensures Inv(NewFile(t, x, kind))
  {
    hide Refs, UniqueNames, Parent;
    FreeUnnamed(t, x);
    var t' := NewFile(t, x, kind);
    SideInode(t, t', x);
  }

  /** Inode x changed, but neither before nor after is it a linked directory, and no entry names it. */
  lemma SideInode(t: Tree, t': Tree, x: nat)
    requires Inv(t) && 0 < x < |t.inodes| == |t'.inodes| && t'.inodes == t.inodes[x := t'.inodes[x]] && PendingOk(t')
    requires !Linked(t, x) && t'.inodes[x].kind != Directory && Refs(t, x) == {} && CountOkIf(t', x)
    requires forall y :: y != x ==> t'.pending[y] == t.pending[y]
    requires forall d: nat, k: nat :: Linked(t, d) ==> !Child(t, d, k, x)
    ensures Inv(t')
  {
    hide Refs, UniqueNames, Names, CountsOk;
    SideTables(t, t', x);
    forall y: nat | 0 < y < |t.inodes| ensures CountOk(t', y) {
      SideRefs(t, t', x, y);
      if y != x { CountAt(t, y); }
    }
    assert CountsOk(t') by { CountsFrom(t'); }
  }

  ghost predicate CountOkIf(t: Tree, x: nat) {
    && x < |t.inodes| && t.inodes[x].nlink == t.pending[x]
    && (t.inodes[x].kind == NoInode ==> t.inodes[x].nlink == 0) && (t.inodes[x].kind == Directory ==> t.pending[x] == 0)
  }

  lemma CountAt(t: Tree, x: nat)
    requires CountsOk(t) && 0 < x < |t.inodes|
    ensures CountOk(t, x)
  {
  }

  lemma CountsFrom(t: Tree)
    requires forall x: nat :: 0 < x < |t.inodes| ==> CountOk(t, x)
    ensures CountsOk(t)
  {
  }

  lemma SideRefs(t: Tree, t': Tree, x: nat, y: nat)
    requires x < |t.inodes| && |t'.inodes| == |t.inodes| && t'.inodes == t.inodes[x := t'.inodes[x]] && !Linked(t, x)
    requires !Linked(t', x)
    ensures Refs(t', y) == Refs(t, y)
  {
    hide Refs;
    forall r | true ensures r in Refs(t', y) <==> r in Refs(t, y) {
      InRefs(t, y, r.0, r.1);
      InRefs(t', y, r.0, r.1);
      assert r.0 != x ==> (Names(t', r.0, r.1, y) <==> Names(t, r.0, r.1, y));
    }
  }

  lemma SideTables(t: Tree, t': Tree, x: nat)
    requires Inv(t) && 0 < x < |t.inodes| == |t'.inodes| && t'.inodes == t.inodes[x := t'.inodes[x]]
    requires !Linked(t, x) && t'.inodes[x].kind != Directory
    requires forall d: nat, k: nat :: Linked(t, d) ==> !Child(t, d, k, x)
    ensures Linked(t', ROOT) && DirsOk(t') && EntriesOk(t') && NamedOnce(t')
  {
    hide UniqueNames, CountsOk, PendingOk;
    forall d: nat | Linked(t', d) ensures Linked(t, d) && DirOk(t', d) {
      assert Linked(t, d);
      assert DirOk(t, d);
      if d != ROOT {
        var k :| Child(t, Parent(t, d), k, d);
        assert Child(t', Parent(t, d), k, d);
      }
    }
    forall d: nat, k: nat, y: nat | Linked(t', d) && Child(t', d, k, y) && y != 0 ensures EntryOk(t', d, k, y) {
      assert Child(t, d, k, y) && EntryOk(t, d, k, y);
    }
    forall d: nat, k: nat, j: nat, y: nat | Linked(t', d) && Child(t', d, k, y) && Child(t', d, j, y) && y != 0
        && IsDir(t', y)
      ensures k == j
    {
      assert Child(t, d, k, y) && Child(t, d, j, y);
    }
  }

  lemma CreateFileInv(t: Tree, dp: nat, name: string, kind: Kind)
    requires Inv(t) && Linked(t, dp) && (kind == File || kind == Device) && Create(t, dp, name, kind).Created?
    ensures Inv(Create(t, dp, name, kind).t)
  {
    hide Inv, Lookup, FreeFrom, PutEntry;
    var x := FreeInode(t.inodes, 1);
    var t1 := NewFile(t, x, kind);
    NewFileInv(t, x, kind);
    LinkFinishInv(t1, dp, name, x);
    assert t1.pending - multiset{x} == t.pending;
  }

  lemma NewDirectoryIs(t: Tree, dp: nat, x: nat)
    requires Linked(t, dp) && 0 < x < |t.inodes| && t.inodes[x].kind == NoInode
    ensures dp < |t.inodes|
    ensures var t1 := NewDirectory(t, dp, x);
      && |t1.inodes| == |t.inodes| && (forall d: nat :: Linked(t1, d) <==> Linked(t, d) || d == x)
      && (forall d: nat :: IsDir(t1, d) <==> IsDir(t, d) || d == x)
      && (forall d: nat :: d != x ==> Entries(t1, d) == Entries(t, d))
      && Entries(t1, x) == [Entry(x, "."), Entry(dp, "..")]
      && (forall y: nat :: y < |t.inodes| && y != x ==> t1.inodes[y].kind == t.inodes[y].kind)
  {
  }

  /** Every old directory is in order with the new one there, which still lacks its name. */
  lemma NewDirectoryDirs(t: Tree, dp: nat, x: nat)
    requires Inv(t) && Linked(t, dp) && 0 < x < |t.inodes| && t.inodes[x].kind == NoInode
    ensures forall d: nat :: Linked(NewDirectory(t, dp, x), d) && d != x ==>
      Linked(t, d) && DirOk(NewDirectory(t, dp, x), d)
  {
    hide UniqueNames, CountsOk, PendingOk, EntriesOk, NamedOnce, Entries, Linked, NewDirectory;
    NewDirectoryIs(t, dp, x);
    var t1 := NewDirectory(t, dp, x);
    FreeNotLinked(t, x);
    forall d: nat | Linked(t1, d) && d != x ensures Linked(t, d) && DirOk(t1, d) {
      assert DirOk(t, d);
      if d != ROOT {
        var k :| Child(t, Parent(t, d), k, d);
        assert Child(t1, Parent(t, d), k, d);
      }
    }
  }

  lemma FreeNotLinked(t: Tree, x: nat)
    requires x < |t.inodes| && t.inodes[x].kind == NoInode
    ensures !Linked(t, x) && !IsDir(t, x)
  {
  }

  lemma NewDirectoryTables(t: Tree, dp: nat, x: nat)
    requires Inv(t) && Linked(t, dp) && 0 < x < |t.inodes| && t.inodes[x].kind == NoInode
    ensures var t1 := NewDirectory(t, dp, x);
      && Linked(t1, ROOT) && EntriesOk(t1) && NamedOnce(t1) && DotsOk(t1, x, dp) && Linked(t1, x) && x != dp
      && x != ROOT
      && (forall d: nat, k: nat :: Linked(t1, d) ==> !Child(t1, d, k, x))
  {
    hide UniqueNames, CountsOk, PendingOk, DirsOk, Refs, Linked, NewDirectory, Entries, IsDir;
    NewDirectoryIs(t, dp, x);
    var t1 := NewDirectory(t, dp, x);
    FreeNotLinked(t, x);
    FreeUnnamed(t, x);
    forall d: nat, k: nat, y: nat | Linked(t1, d) && Child(t1, d, k, y) && y != 0 ensures EntryOk(t1, d, k, y) {
      assert d != x && Child(t, d, k, y) && EntryOk(t, d, k, y);
    }
    forall d: nat, k: nat, j: nat, y: nat | Linked(t1, d) && Child(t1, d, k, y) && Child(t1, d, j, y) && y != 0
        && IsDir(t1, y)
      ensures k == j
    {
      assert d != x && Child(t, d, k, y) && Child(t, d, j, y);
    }
    forall d: nat, k: nat | Linked(t1, d) ensures !Child(t1, d, k, x) {
      assert d != x ==> (Child(t1, d, k, x) <==> Child(t, d, k, x));
    }
  }

  lemma NewDirectoryNames(t: Tree, dp: nat, x: nat)
    requires Linked(t, dp) && 0 < x < |t.inodes| && t.inodes[x].kind == NoInode
    ensures RefAdded(t, NewDirectory(t, dp, x), x, 1, dp)
  {
    var t1 := NewDirectory(t, dp, x);
    forall d: nat, j: nat, y: nat | y > 0
      ensures Names(t1, d, j, y) <==> if d == x && j == 1 then y == dp else Names(t, d, j, y)
    {
      assert d != x && d != dp ==> (Linked(t1, d) <==> Linked(t, d));
    }
  }

  lemma CreateDirectoryInv(t: Tree, dp: nat, name: string)
    requires Inv(t) && Linked(t, dp) && Create(t, dp, name, Directory).Created?
    ensures Inv(Create(t, dp, name, Directory).t)
  {
    hide Refs, Names, DirsOk, EntriesOk, NamedOnce, UniqueNames, Child, TablePut, Lookup, CountsOk;
    var x := FreeInode(t.inodes, 1);
    var t1, k, e := NewDirectory(t, dp, x), FreeFrom(Entries(t, dp), 0), Entry(x, name);
    var t' := Create(t, dp, name, Directory).t;
    FreeUnnamed(t, x);
    NewDirectoryTables(t, dp, x);
    NewDirectoryDirs(t, dp, x);
    NewDirectoryNames(t, dp, x);
    NewEntryPuts(t, t1, t', dp, name, x);
    PutNames(t1, t', dp, k, e);
    PutDirs(t1, t', dp, k, e);
    PutEntries(t1, t', dp, k, e);
    forall y: nat | 0 < y < |t.inodes| ensures CountOk(t', y) {
      CountAt(t, y);
      NotLinkedNames(t, x, 1, y);
      AddedCount(t, t1, x, 1, dp, y);
      NoNameYet(t1, t', dp, k, e, y);
      AddedCount(t1, t', dp, k, x, y);
    }
    CountsFrom(t');
  }

  lemma NotLinkedNames(t: Tree, x: nat, k: nat, y: nat)
    requires !Linked(t, x)
    ensures !Names(t, x, k, y)
  {
  }

  lemma NewEntryPuts(t: Tree, t1: Tree, t': Tree, dp: nat, name: string, x: nat)
    requires Inv(t) && Linked(t, dp) && Dirlink(Entries(t, dp), name, x).Placed? && 0 < x < |t.inodes| && x != dp
    requires t1 == NewDirectory(t, dp, x)
    requires t' == SetEntries(t1, dp, Dirlink(Entries(t, dp), name, x).entries).(pending := t.pending)
    ensures TablePut(t1, t', dp, FreeFrom(Entries(t, dp), 0), Entry(x, name))
  {
    hide CountsOk, PendingOk, EntriesOk, NamedOnce, DirsOk, UniqueNames;
    FreePlace(t, dp, name);
    assert DirOk(t, dp) by { LinkedDir(t, dp); }
  }

  // ----- sys_unlink -----

  /** The entry is cleared; for a directory the parent loses the link of its ".."; the inode loses one link. */
  function Unlink(t: Tree, dp: nat, k: nat): Tree
    requires dp < |t.inodes| && k < |Entries(t, dp)| && Entries(t, dp)[k].inum < |t.inodes|
  {
    var x := Entries(t, dp)[k].inum;
    var t1 := ClearEntry(t, dp, k);
    AddLinks(if IsDir(t, x) then AddLinks(t1, dp, -1) else t1, x, -1)
  }

  function ClearEntry(t: Tree, dp: nat, k: nat): Tree
    requires dp < |t.inodes| && k < |Entries(t, dp)|
  {
    SetEntries(t, dp, Entries(t, dp)[k := Entry(0, "")])
  }

  /** An entry that sys_unlink goes through with: not "." or "..", and no directory that still has entries. */
  ghost predicate CanUnlink(t: Tree, dp: nat, k: nat, x: nat) {
    Linked(t, dp) && Child(t, dp, k, x) && x != 0 && (IsDir(t, x) ==> Empty(Entries(t, x)))
  }

  lemma ChildNames(t: Tree, d: nat, k: nat, x: nat)
    requires Inv(t) && Linked(t, d) && Child(t, d, k, x) && x != 0
    ensures Names(t, d, k, x) && EntryOk(t, d, k, x)
  {
    hide CountsOk, PendingOk, NamedOnce;
    assert DirOk(t, d) && EntryOk(t, d, k, x);
  }

  /** No directory other than the root has x for a parent if x has no entries. */
  lemma EmptyNoParent(t: Tree, x: nat, d: nat)
    requires Inv(t) && Empty(Entries(t, x)) && Linked(t, d) && d != ROOT
    ensures Parent(t, d) != x
  {
    hide CountsOk, PendingOk, NamedOnce, EntriesOk;
    assert DirOk(t, d);
  }

  /** A directory without entries is named in one place. */
  lemma OnlyName(t: Tree, dp: nat, k: nat, x: nat, d: nat, j: nat)
    requires Inv(t) && CanUnlink(t, dp, k, x) && IsDir(t, x) && Names(t, d, j, x)
    ensures d == dp && j == k
  {
    hide CountsOk, PendingOk, DirsOk, EntriesOk, UniqueNames;
    LinkedDir(t, d);
    ChildNames(t, dp, k, x);
    if j >= 2 {
      ChildNames(t, d, j, x);
    } else if j == 1 {
      RootIsOwn(t);
      if d != ROOT { EmptyNoParent(t, x, d); }
    }
  }

  lemma RootIsOwn(t: Tree)
    requires Inv(t)
    ensures Parent(t, ROOT) == ROOT
  {
    hide CountsOk, PendingOk, NamedOnce, EntriesOk, UniqueNames;
    assert DirOk(t, ROOT);
  }

  lemma LastLink(t: Tree, dp: nat, k: nat, x: nat)
    requires Inv(t) && CanUnlink(t, dp, k, x) && IsDir(t, x)
    ensures t.inodes[x].nlink == 1 && x != dp
  {
    hide PendingOk, DirsOk, EntriesOk, NamedOnce, CountsOk, Refs, CanUnlink;
    ChildOf(t, dp, k, x);
    ChildNames(t, dp, k, x);
    CountAt(t, x);
    forall r | r in Refs(t, x) ensures r == (dp, k) {
      InRefs(t, x, r.0, r.1);
      OnlyName(t, dp, k, x, r.0, r.1);
    }
    InRefs(t, x, dp, k);
    assert Refs(t, x) == {(dp, k)};
    NotOwn(t, dp, k, x);
  }

  lemma ChildOf(t: Tree, dp: nat, k: nat, x: nat)
    requires CanUnlink(t, dp, k, x)
    ensures Linked(t, dp) && Child(t, dp, k, x) && x != 0
  {
  }

  lemma NotOwn(t: Tree, dp: nat, k: nat, x: nat)
    requires CanUnlink(t, dp, k, x) && IsDir(t, x)
    ensures x != dp
  {
  }

  /** The parent of a directory has a link besides the one from its "..". */
  lemma ParentLinks(t: Tree, dp: nat, x: nat)
    requires Inv(t) && Linked(t, x) && Linked(t, dp) && Parent(t, x) == dp && x != ROOT && x != dp
    ensures t.inodes[dp].nlink >= 2
  {
    hide PendingOk, EntriesOk, NamedOnce, CountsOk, Refs, UniqueNames, Linked;
    LinkedDir(t, x);
    LinkedDir(t, dp);
    LinkedBound(t, dp);
    CountAt(t, dp);
    var a := (x, 1);
    assert Names(t, x, 1, dp);
    InRefs(t, dp, x, 1);
    var b: (nat, nat);
    if dp == ROOT {
      assert Names(t, ROOT, 1, ROOT);
      b := (ROOT, 1);
    } else {
      var j :| Child(t, Parent(t, dp), j, dp);
      ChildNames(t, Parent(t, dp), j, dp);
      b := (Parent(t, dp), j);
    }
    InRefs(t, dp, b.0, b.1);
    TwoRefs(Refs(t, dp), a, b);
  }

  lemma TwoRefs(s: set<(nat, nat)>, a: (nat, nat), b: (nat, nat))
    requires a in s && b in s && a != b
    ensures |s| >= 2
  {
    assert b in s - {a};
    assert |s - {a}| >= 1;
  }

  lemma LinkedBound(t: Tree, d: nat)
    requires Linked(t, d)
    ensures d < |t.inodes| && t.inodes[d].kind == Directory
  {
  }

  /** Entry k of dp is cleared, and x, if a directory, is no longer linked. */
  ghost predicate TableCut(t: Tree, t': Tree, dp: nat, k: nat, x: nat) {
    && |t'.inodes| == |t.inodes| && (forall d: nat :: Linked(t', d) <==> Linked(t, d) && d != x)
    && (forall y: nat :: y < |t.inodes| ==> t'.inodes[y].kind == t.inodes[y].kind)
    && (forall d: nat :: d != dp ==> Entries(t', d) == Entries(t, d)) && dp != x
    && k < |Entries(t, dp)| && Entries(t', dp) == Entries(t, dp)[k := Entry(0, "")]
  }

  lemma UnlinkCuts(t: Tree, dp: nat, k: nat, x: nat)
    requires Inv(t) && CanUnlink(t, dp, k, x)
    ensures dp < |t.inodes| && k < |Entries(t, dp)| && Entries(t, dp)[k].inum == x < |t.inodes|
    ensures TableCut(t, Unlink(t, dp, k), dp, k, x)
  {
    hide PendingOk, DirsOk, EntriesOk, NamedOnce, CountsOk, UniqueNames, Empty;
    ChildNames(t, dp, k, x);
    if IsDir(t, x) {
      LastLink(t, dp, k, x);
      ParentLinks(t, dp, x);
    }
  }

  lemma CutChild(t: Tree, t': Tree, dp: nat, k: nat, x: nat, d: nat, j: nat, y: nat)
    requires TableCut(t, t', dp, k, x) && y > 0 && 2 <= k
    ensures Child(t', d, j, y) <==> Child(t, d, j, y) && !(d == dp && j == k)
    ensures Parent(t', d) == Parent(t, d)
  {
    hide Linked;
  }

  lemma CutDirs(t: Tree, t': Tree, dp: nat, k: nat, x: nat)
    requires Inv(t) && CanUnlink(t, dp, k, x) && TableCut(t, t', dp, k, x)
    ensures DirsOk(t')
  {
    hide CountsOk, PendingOk, NamedOnce, EntriesOk, Linked, DirsOk, CanUnlink, TableCut, DirOk;
    ChildOf(t, dp, k, x);
    CutLinked(t, t', dp, k, x);
    forall d: nat | Linked(t', d) ensures DirOk(t', d) {
      LinkedDir(t, d);
      if d == ROOT { CutRoot(t, t', dp, k, x); } else { CutDir(t, t', dp, k, x, d); }
    }
    DirsFrom(t');
  }

  lemma DirsFrom(t: Tree)
    requires forall d: nat :: Linked(t, d) ==> DirOk(t, d)
    ensures DirsOk(t)
  {
  }

  lemma CutLinked(t: Tree, t': Tree, dp: nat, k: nat, x: nat)
    requires TableCut(t, t', dp, k, x)
    ensures forall d: nat :: Linked(t', d) <==> Linked(t, d) && d != x
    ensures |t'.inodes| == |t.inodes| && (forall y: nat :: y < |t.inodes| ==> t'.inodes[y].kind == t.inodes[y].kind)
    ensures forall y: nat :: IsDir(t', y) <==> IsDir(t, y)
  {
  }

  lemma CutRoot(t: Tree, t': Tree, dp: nat, k: nat, x: nat)
    requires TableCut(t, t', dp, k, x) && Linked(t', ROOT) && DirOk(t, ROOT) && 2 <= k
    ensures DirOk(t', ROOT)
  {
    hide Linked;
  }

  lemma CutDir(t: Tree, t': Tree, dp: nat, k: nat, x: nat, d: nat)
    requires Inv(t) && CanUnlink(t, dp, k, x) && TableCut(t, t', dp, k, x) && Linked(t', d) && DirOk(t, d) && d != ROOT
    requires d != x
    ensures DirOk(t', d)
  {
    hide Linked, Inv, Child, Empty;
    assert 2 <= k by { ChildBound(t, dp, k, x); }
    var j :| Child(t, Parent(t, d), j, d);
    CutChild(t, t', dp, k, x, Parent(t, d), j, d);
    assert j != k || Parent(t, d) != dp by { OneEntry(t, dp, k, x, j, d); }
    assert Child(t', Parent(t, d), j, d);
    assert Parent(t, d) != x by { NotParent(t, dp, k, x, d); }
  }

  lemma ChildBound(t: Tree, dp: nat, k: nat, x: nat)
    requires Child(t, dp, k, x)
    ensures 2 <= k < |Entries(t, dp)|
  {
  }

  lemma OneEntry(t: Tree, dp: nat, k: nat, x: nat, j: nat, d: nat)
    requires Child(t, dp, k, x) && d != x
    ensures j == k ==> !Child(t, dp, j, d)
  {
  }

  lemma NotParent(t: Tree, dp: nat, k: nat, x: nat, d: nat)
    requires Inv(t) && CanUnlink(t, dp, k, x) && Linked(t, d) && d != ROOT
    ensures Parent(t, d) != x
  {
    hide CountsOk, PendingOk, NamedOnce, EntriesOk, UniqueNames, Empty;
    if IsDir(t, x) { EmptyNoParent(t, x, d); } else { assert DirOk(t, d); }
  }

  lemma CutEntries(t: Tree, t': Tree, dp: nat, k: nat, x: nat)
    requires Inv(t) && CanUnlink(t, dp, k, x) && TableCut(t, t', dp, k, x)
    ensures EntriesOk(t') && NamedOnce(t')
  {
    hide Linked, UniqueNames, Entries, TableCut, Child, Parent, CountsOk, PendingOk, DirsOk, IsDir, CanUnlink;
    ChildOf(t, dp, k, x);
    ChildBound(t, dp, k, x);
    CutLinked(t, t', dp, k, x);
    forall d: nat, j: nat, y: nat | Linked(t', d) && Child(t', d, j, y) && y != 0 ensures EntryOk(t', d, j, y) {
      CutChild(t, t', dp, k, x, d, j, y);
      CutChild(t, t', dp, k, x, y, j, y);
      assert EntryOk(t, d, j, y);
      if y == x && IsDir(t, x) {
        ChildNames(t, d, j, x);
        OnlyName(t, dp, k, x, d, j);
      }
      KindIs(t, y);
    }
    forall d: nat, j: nat, i: nat, y: nat | Linked(t', d) && Child(t', d, j, y) && Child(t', d, i, y) && y != 0
        && IsDir(t', y)
      ensures j == i
    {
      CutChild(t, t', dp, k, x, d, j, y);
      CutChild(t, t', dp, k, x, d, i, y);
    }
  }

  lemma KindIs(t: Tree, y: nat)
    ensures IsDir(t, y) <==> y < |t.inodes| && t.inodes[y].kind == Directory
  {
  }

  lemma ClearNames(t: Tree, dp: nat, k: nat, x: nat)
    requires Linked(t, dp) && Child(t, dp, k, x)
    ensures dp < |t.inodes| && RefCut(t, ClearEntry(t, dp, k), dp, k)
  {
    var t1 := ClearEntry(t, dp, k);
    forall d: nat, j: nat, y: nat | y > 0 ensures Names(t1, d, j, y) <==> Names(t, d, j, y) && !(d == dp && j == k) {
      assert Linked(t1, d) <==> Linked(t, d);
      assert d != dp ==> Entries(t1, d) == Entries(t, d);
    }
  }

  /** The rest of sys_unlink takes away the name that a removed directory's ".." was for its parent. */
  lemma UnlinkNames(t: Tree, dp: nat, k: nat, x: nat)
    requires Inv(t) && CanUnlink(t, dp, k, x)
    ensures dp < |t.inodes| && k < |Entries(t, dp)| && Entries(t, dp)[k].inum == x < |t.inodes|
    ensures IsDir(t, x) ==>
      RefCut(ClearEntry(t, dp, k), Unlink(t, dp, k), x, 1) && Names(ClearEntry(t, dp, k), x, 1, dp)
    ensures !IsDir(t, x) ==>
      forall d: nat, j: nat, y: nat :: Names(Unlink(t, dp, k), d, j, y) <==> Names(ClearEntry(t, dp, k), d, j, y)
  {
    hide PendingOk, DirsOk, EntriesOk, NamedOnce, CountsOk, UniqueNames;
    UnlinkCuts(t, dp, k, x);
    ChildNames(t, dp, k, x);
    var t1, t' := ClearEntry(t, dp, k), Unlink(t, dp, k);
    if IsDir(t, x) {
      LinkedDir(t, x);
      assert Entries(t1, x) == Entries(t, x) == Entries(t', x);
      forall d: nat, j: nat, y: nat | y > 0 ensures Names(t', d, j, y) <==> Names(t1, d, j, y) && !(d == x && j == 1) {
        assert Linked(t1, d) <==> Linked(t, d);
        assert Entries(t', d) == Entries(t1, d);
      }
    } else {
      forall d: nat, j: nat, y: nat ensures Names(t', d, j, y) <==> Names(t1, d, j, y) {
        assert Linked(t1, d) <==> Linked(t, d);
        assert Entries(t', d) == Entries(t1, d);
      }
    }
  }

  lemma UnlinkCounts(t: Tree, dp: nat, k: nat, x: nat, y: nat)
    requires Inv(t) && CanUnlink(t, dp, k, x) && 0 < y < |t.inodes|
    ensures dp < |t.inodes| && k < |Entries(t, dp)| && Entries(t, dp)[k].inum == x < |t.inodes|
    ensures y < |Unlink(t, dp, k).inodes| && CountOk(Unlink(t, dp, k), y)
  {
    hide PendingOk, DirsOk, EntriesOk, NamedOnce, CountsOk, UniqueNames, Refs, CanUnlink, Names, Linked, Entries;
    UnlinkNames(t, dp, k, x);
    ChildOf(t, dp, k, x);
    ChildNames(t, dp, k, x);
    ClearNames(t, dp, k, x);
    CountAt(t, y);
    var t1, t' := ClearEntry(t, dp, k), Unlink(t, dp, k);
    CutCount(t, t1, dp, k, y);
    NamesOne(t, dp, k, x, y);
    if IsDir(t, x) {
      NotOwn(t, dp, k, x);
      CutCount(t1, t', x, 1, y);
      NamesOne(t1, x, 1, dp, y);
    } else {
      SameNamesRefs(t1, t', y);
    }
  }

  lemma NamesOne(t: Tree, d: nat, k: nat, x: nat, y: nat)
    requires Names(t, d, k, x)
    ensures Names(t, d, k, y) <==> y == x
  {
  }

  lemma SameNamesRefs(t: Tree, t': Tree, y: nat)
    requires forall d: nat, j: nat, y: nat :: Names(t', d, j, y) <==> Names(t, d, j, y)
    ensures Refs(t', y) == Refs(t, y)
  {
    hide Refs, Names;
    forall r | true ensures r in Refs(t', y) <==> r in Refs(t, y) {
      InRefs(t, y, r.0, r.1);
      InRefs(t', y, r.0, r.1);
    }
  }

  lemma UnlinkInv(t: Tree, dp: nat, k: nat, x: nat)
    requires Inv(t) && CanUnlink(t, dp, k, x)
    ensures dp < |t.inodes| && k < |Entries(t, dp)| && Entries(t, dp)[k].inum == x < |t.inodes|
    ensures Inv(Unlink(t, dp, k))
  {
    hide DirsOk, EntriesOk, NamedOnce, CountsOk, Refs, CanUnlink, CountOk, TableCut, Linked;
    UnlinkCuts(t, dp, k, x);
    var t' := Unlink(t, dp, k);
    CutDirs(t, t', dp, k, x);
    CutEntries(t, t', dp, k, x);
    CutLinked(t, t', dp, k, x);
    assert x != ROOT by {
      ChildOf(t, dp, k, x);
      ChildNames(t, dp, k, x);
    }
    forall y: nat | 0 < y < |t'.inodes| ensures CountOk(t', y) { UnlinkCounts(t, dp, k, x, y); }
    CountsFrom(t');
  }

  // ----- iput -----

  /** The last reference to an inode without links is dropped: it is truncated and free again. */
  function Reclaim(t: Tree, x: nat): Tree
    requires x < |t.inodes|
  {
    SetInode(t, x, Inode(NoInode, 0, []))
  }

  lemma ReclaimInv(t: Tree, x: nat)
    requires Inv(t) && 0 < x < |t.inodes| && t.inodes[x].nlink == 0
    ensures Inv(Reclaim(t, x))
  {
    hide Refs, UniqueNames, DirsOk, EntriesOk, NamedOnce, Names;
    CountAt(t, x);
    assert Refs(t, x) == {};
    forall d: nat, k: nat | Linked(t, d) ensures !Child(t, d, k, x) {
      NotNamed(t, x, d, k);
      if Child(t, d, k, x) { ChildNames(t, d, k, x); }
    }
    SideInode(t, Reclaim(t, x), x);
  }
}

/** Physical pages and page tables (vm.c, kalloc.c) as values.

    Memory is frames of 32-bit words, a free list, and a label for every frame that says what it is used for.
    The labels are not part of the machine: they record ownership, and `Owned` says that they and the entries
    of all page directories and page tables point at each other exactly. */
module Frames {
  const ENTRIES: nat := 1024
  const PGSIZE: nat := 4096
  const VPAGES: nat := 0x100000   // virtual pages
  const USER: nat := 0x80000      // KERNBASE / PGSIZE: virtual pages below it are the user part
  const TOP: nat := 0xE000        // PHYSTOP / PGSIZE

  /** What a frame is used for: a page directory, the table behind entry d of directory pd, the user
      page v of directory pd, free, or anything else (kernel image, kernel stacks, pipes, a page that has
      been allocated and not mapped yet). */
  datatype Use = Kernel | Free | Dir | Table(pd: nat, d: nat) | User(pd: nat, v: nat)

  type Page = p: seq<nat> | |p| == ENTRIES witness seq(ENTRIES, _ => 0)

  function Filled(w: nat): Page { seq(ENTRIES, _ => w) }

  const JUNK_WORD: nat := 0x01010101

  /** Frames below `first` hold the kernel image, whose data segment starts in frame `data`. */
  datatype Memory = Memory(mem: seq<Page>, free: seq<nat>, use: seq<Use>, first: nat, data: nat)

  // ----- Page table entries: a frame number and twelve flag bits -----

  const PTE_P: nat := 1
  const PTE_W: nat := 2
  const PTE_U: nat := 4

  function Word(frame: nat, flags: nat): nat { frame * PGSIZE + flags }

  function Frame(w: nat): nat { w / PGSIZE }

  function Flags(w: nat): nat { w % PGSIZE }

  predicate Present(w: nat) { w % 2 == 1 }

  lemma WordParts(frame: nat, flags: nat)
    requires flags < PGSIZE
    ensures Frame(Word(frame, flags)) == frame && Flags(Word(frame, flags)) == flags
    ensures Present(Word(frame, flags)) <==> flags % 2 == 1
  {
  }

  /** The directory entry for a virtual page, and the page's own entry (0 when there is no table). */
  function Pde(m: Memory, pd: nat, d: nat): nat {
    if pd < |m.mem| && d < ENTRIES then m.mem[pd][d] else 0
  }

  function Pte(m: Memory, pd: nat, v: nat): nat {
    var e := Pde(m, pd, v / ENTRIES);
    if Present(e) && Frame(e) < |m.mem| then m.mem[Frame(e)][v % ENTRIES] else 0
  }

  // ----- Ownership -----

  predicate IsDir(m: Memory, f: nat) {
    f < |m.use| && m.use[f] == Dir
  }

  predicate Usable(m: Memory, f: nat) {
    m.first <= f < TOP && f < |m.use|
  }

  ghost predicate ListOk(m: Memory) {
    && (forall i :: 0 <= i < |m.free| ==> Usable(m, m.free[i]) && m.use[m.free[i]] == Free)
    && (forall i, j :: 0 <= i < j < |m.free| ==> m.free[i] != m.free[j])
  }

  /** The label of a frame is true: what it names points back to the frame. */
  ghost predicate LabelOk(m: Memory, f: nat)
    requires f < |m.use|
  {
    && (!m.use[f].Kernel? ==> f >= m.first)
    && match m.use[f]
       case Kernel => true
       case Free => f in m.free
       case Dir => true
       case Table(pd, d) => IsDir(m, pd) && d < ENTRIES && Present(Pde(m, pd, d)) && Frame(Pde(m, pd, d)) == f
       case User(pd, v) => IsDir(m, pd) && v < USER && Present(Pte(m, pd, v)) && Frame(Pte(m, pd, v)) == f
  }

  /** An entry that is present points to a frame with the right label. */
  ghost predicate PdeOk(m: Memory, pd: nat, d: nat) {
    var e := Pde(m, pd, d);
    Present(e) ==> Frame(e) < |m.use| && m.use[Frame(e)] == Table(pd, d)
  }

  /** A user entry is clear, or points to a frame with the right label. */
  ghost predicate PteOk(m: Memory, pd: nat, v: nat) {
    var e := Pte(m, pd, v);
    e == 0 || (Present(e) && Frame(e) < |m.use| && m.use[Frame(e)] == User(pd, v))
  }

  ghost predicate Shape(m: Memory) {
    |m.mem| == TOP && |m.use| == TOP && 256 < m.data < m.first <= TOP
  }

  /** Every user page and page table belongs to exactly one directory entry, every directory entry to the
      frame it points to, and the free list holds exactly the free frames, once each. */
  ghost predicate Owned(m: Memory) {
    && Shape(m) && ListOk(m)
    && (forall f: nat :: f < TOP ==> LabelOk(m, f))
    && (forall pd: nat, d: nat :: IsDir(m, pd) && d < ENTRIES ==> PdeOk(m, pd, d))
    && (forall pd: nat, v: nat :: IsDir(m, pd) && v < USER ==> PteOk(m, pd, v))
  }

  // ----- kalloc and kfree -----

  function Kalloc(m: Memory): Memory
    requires m.free != [] && m.free[0] < |m.use|
  {
    m.(free := m.free[1..], use := m.use[m.free[0] := Kernel])
  }

  function Kfree(m: Memory, f: nat): Memory
    requires f < |m.mem| && f < |m.use|
  {
    m.(mem := m.mem[f := Filled(JUNK_WORD)], free := [f] + m.free, use := m.use[f := Free])
  }

  /** Overwriting a frame that is no directory and no table changes no entry. */
  lemma PteApart(m: Memory, m': Memory, pd: nat, v: nat)
    requires Owned(m) && |m'.mem| == TOP && v < VPAGES && IsDir(m, pd)
    requires m'.mem[pd] == m.mem[pd]
    requires forall f: nat :: f < TOP && m.use[f] == Table(pd, v / ENTRIES) ==> m'.mem[f] == m.mem[f]
    ensures Pte(m', pd, v) == Pte(m, pd, v)
  {
    assert PdeOk(m, pd, v / ENTRIES);
  }

  /** Two memories with the same free list, where a frame f has changed between Kernel and User/none. */
  lemma KallocOwned(m: Memory)
    requires Owned(m) && m.free != []
    ensures Owned(Kalloc(m)) && m.first <= m.free[0] < TOP && m.use[m.free[0]] == Free
  {
    var f, m' := m.free[0], Kalloc(m);
    forall g: nat | g < TOP ensures LabelOk(m', g) {
      assert LabelOk(m, g);
      if g != f && m.use[g] == Free {
        var i :| 0 <= i < |m.free| && m.free[i] == g;
        assert m'.free[i - 1] == g;
      }
    }
    forall pd: nat, d: nat | IsDir(m', pd) && d < ENTRIES ensures PdeOk(m', pd, d) { assert PdeOk(m, pd, d); }
    forall pd: nat, v: nat | IsDir(m', pd) && v < USER ensures PteOk(m', pd, v) { assert PteOk(m, pd, v); }
  }

  /** Freeing a frame that no directory entry refers to. */
  lemma KfreeOwned(m: Memory, f: nat)
    requires Owned(m) && m.first <= f < TOP && m.use[f] == Kernel
    ensures Owned(Kfree(m, f))
  {
    var m' := Kfree(m, f);
    forall g: nat | g < TOP ensures LabelOk(m', g) {
      assert LabelOk(m, g);
      if m.use[g].User? { PteApart(m, m', m.use[g].pd, m.use[g].v); }
    }
    forall pd: nat, d: nat | IsDir(m', pd) && d < ENTRIES ensures PdeOk(m', pd, d) { assert PdeOk(m, pd, d); }
    forall pd: nat, v: nat | IsDir(m', pd) && v < USER ensures PteOk(m', pd, v) {
      PteApart(m, m', pd, v);
      assert PteOk(m, pd, v);
    }
  }

  // ----- walkpgdir and single entries -----

  /** walkpgdir gives directory entry d a zeroed table from the free list. */
  function AddTable(m: Memory, pd: nat, d: nat): Memory
    requires m.free != [] && m.free[0] < |m.use| && m.free[0] < |m.mem| && pd < |m.mem| && d < ENTRIES
  {
    var f := m.free[0];
    var flags := PTE_P + PTE_W + PTE_U;
    m.(mem := m.mem[f := Filled(0)][pd := m.mem[pd][d := Word(f, flags)]], free := m.free[1..],
        use := m.use[f := Table(pd, d)])
  }

  /** Every entry of every directory but (pd, v) is as before, and that one is w. */
  ghost predicate EntrySet(m: Memory, m': Memory, pd: nat, v: nat, w: nat) {
    forall p: nat, u: nat :: IsDir(m, p) && u < VPAGES ==> Pte(m', p, u) == if p == pd && u == v then w
        else Pte(m, p, u)
  }

  ghost predicate EntriesSame(m: Memory, m': Memory) {
    forall p: nat, u: nat :: IsDir(m, p) && u < VPAGES ==> Pte(m', p, u) == Pte(m, p, u)
  }

  lemma AddTableEntries(m: Memory, pd: nat, d: nat)
    requires Owned(m) && m.free != [] && IsDir(m, pd) && d < ENTRIES && !Present(Pde(m, pd, d))
    ensures m.first <= m.free[0] < TOP && m.use[m.free[0]] == Free && m.free[0] != pd
    ensures EntriesSame(m, AddTable(m, pd, d))
    ensures Pde(AddTable(m, pd, d), pd, d) == Word(m.free[0], 7) && Present(Word(m.free[0], 7))
    ensures Frame(Word(m.free[0], 7)) == m.free[0]
    ensures forall p: nat, e: nat :: IsDir(m, p) && (p != pd || e != d) ==>
      Pde(AddTable(m, pd, d), p, e) == Pde(m, p, e)
  {
    hide ListOk, LabelOk, PteOk;
    ListFirst(m);
    var f, m' := m.free[0], AddTable(m, pd, d);
    WordParts(f, 7);
    forall p: nat, u: nat | IsDir(m, p) && u < VPAGES ensures Pte(m', p, u) == Pte(m, p, u) {
      assert PdeOk(m, p, u / ENTRIES);
    }
  }

  lemma ListFirst(m: Memory)
    requires ListOk(m) && m.free != [] && |m.use| == TOP
    ensures m.first <= m.free[0] < TOP && m.use[m.free[0]] == Free
    ensures forall g :: g in m.free && g != m.free[0] ==> g in m.free[1..]
  {
    forall g | g in m.free && g != m.free[0] ensures g in m.free[1..] {
      var i :| 0 <= i < |m.free| && m.free[i] == g;
      assert m.free[1..][i - 1] == g;
    }
  }

  lemma AddTableOwned(m: Memory, pd: nat, d: nat)
    requires Owned(m) && m.free != [] && IsDir(m, pd) && d < ENTRIES && !Present(Pde(m, pd, d))
    ensures m.first <= m.free[0] < TOP && Owned(AddTable(m, pd, d))
  {
    hide Pte, Pde, Word, Frame, Present;
    AddTableEntries(m, pd, d);
    ListFirst(m);
    var f, m' := m.free[0], AddTable(m, pd, d);
    forall g: nat | g < TOP ensures LabelOk(m', g) { assert LabelOk(m, g); }
    forall p: nat, e: nat | IsDir(m', p) && e < ENTRIES ensures PdeOk(m', p, e) { assert PdeOk(m, p, e); }
    forall p: nat, v: nat | IsDir(m', p) && v < USER ensures PteOk(m', p, v) { assert PteOk(m, p, v); }
  }

  /** The frame of the table that holds a page's entry. */
  function TableOf(m: Memory, pd: nat, v: nat): nat { Frame(Pde(m, pd, v / ENTRIES)) }

  /** mappages writes an entry; a user page then belongs to the directory. */
  function PutPte(m: Memory, pd: nat, v: nat, w: nat): Memory
    requires TableOf(m, pd, v) < |m.mem| && (v < USER ==> Frame(w) < |m.use|)
  {
    var t := TableOf(m, pd, v);
    m.(mem := m.mem[t := m.mem[t][v % ENTRIES := w]], use := if v < USER then m.use[Frame(w) := User(pd, v)] else m.use)
  }

  lemma TableIs(m: Memory, pd: nat, v: nat)
    requires Owned(m) && IsDir(m, pd) && v < VPAGES && Present(Pde(m, pd, v / ENTRIES))
    ensures TableOf(m, pd, v) < TOP && m.use[TableOf(m, pd, v)] == Table(pd, v / ENTRIES)
  {
    assert PdeOk(m, pd, v / ENTRIES);
  }

  /** Writing one word of a table changes one entry of one directory. */
  lemma WriteEntry(m: Memory, m': Memory, pd: nat, v: nat, w: nat)
    requires Owned(m) && IsDir(m, pd) && v < VPAGES && Present(Pde(m, pd, v / ENTRIES))
    requires TableOf(m, pd, v) < TOP && m'.mem == m.mem[TableOf(m, pd, v) := m.mem[TableOf(m, pd, v)][v % ENTRIES := w]]
    ensures EntrySet(m, m', pd, v, w)
    ensures forall p: nat, e: nat :: IsDir(m, p) ==> Pde(m', p, e) == Pde(m, p, e)
  {
    hide ListOk, LabelOk, PteOk;
    TableIs(m, pd, v);
    forall p: nat, u: nat | IsDir(m, p) && u < VPAGES
      ensures Pte(m', p, u) == if p == pd && u == v then w else Pte(m, p, u)
    {
      assert PdeOk(m, p, u / ENTRIES);
      SplitPage(u, v);
    }
  }

  lemma SplitPage(u: nat, v: nat)
    ensures u / ENTRIES == v / ENTRIES && u % ENTRIES == v % ENTRIES <==> u == v
  {
  }

  lemma PutPteOwned(m: Memory, pd: nat, v: nat, w: nat)
    requires Owned(m) && IsDir(m, pd) && v < VPAGES && Present(Pde(m, pd, v / ENTRIES)) && !Present(Pte(m, pd, v))
    requires Present(w) && (v < USER ==> m.first <= Frame(w) < TOP && m.use[Frame(w)] == Kernel)
    ensures TableOf(m, pd, v) < TOP && Owned(PutPte(m, pd, v, w)) && EntrySet(m, PutPte(m, pd, v, w), pd, v, w)
  {
    hide Pte, Pde, Frame, Present, ListOk;
    TableIs(m, pd, v);
    var m' := PutPte(m, pd, v, w);
    WriteEntry(m, m', pd, v, w);
    assert ListOk(m') by { ListKept(m, m'); }
    forall g: nat | g < TOP ensures LabelOk(m', g) { assert LabelOk(m, g); }
    forall p: nat, e: nat | IsDir(m', p) && e < ENTRIES ensures PdeOk(m', p, e) { assert PdeOk(m, p, e); }
    forall p: nat, u: nat | IsDir(m', p) && u < USER ensures PteOk(m', p, u) { assert PteOk(m, p, u); }
  }

  lemma ListKept(m: Memory, m': Memory)
    requires ListOk(m) && m'.free == m.free && |m'.use| == |m.use| && m'.first == m.first
    requires forall f: nat :: f < |m.use| && m.use[f] == Free ==> m'.use[f] == Free
    ensures ListOk(m')
  {
  }

  /** deallocuvm at one page: the frame is freed, then the entry cleared. */
  function UnmapPage(m: Memory, pd: nat, v: nat): Memory
  {
    var e, t := Pte(m, pd, v), TableOf(m, pd, v);
    if !Present(e) || Frame(e) >= |m.mem| || Frame(e) >= |m.use| || t >= |m.mem| then m
    else
      var m1 := Kfree(m, Frame(e));
      m1.(mem := m1.mem[t := m1.mem[t][v % ENTRIES := 0]])
  }

  /** The same two writes with the entry cleared first. */
  lemma UnmapOrder(m: Memory, pd: nat, v: nat)
    requires Owned(m) && IsDir(m, pd) && v < USER && Present(Pte(m, pd, v))
    ensures var f, t := Frame(Pte(m, pd, v)), TableOf(m, pd, v);
      && m.first <= f < TOP && t < TOP && m.use[f] == User(pd, v) && Present(Pde(m, pd, v / ENTRIES))
      && UnmapPage(m, pd, v) ==
         Kfree(m.(mem := m.mem[t := m.mem[t][v % ENTRIES := 0]], use := m.use[f := Kernel]), f)
  {
    hide ListOk;
    assert PteOk(m, pd, v);
    TableIs(m, pd, v);
    var f, t := Frame(Pte(m, pd, v)), TableOf(m, pd, v);
    assert LabelOk(m, f);
    assert f != t;
    assert m.mem[f := Filled(JUNK_WORD)][t := m.mem[t][v % ENTRIES := 0]]
        == m.mem[t := m.mem[t][v % ENTRIES := 0]][f := Filled(JUNK_WORD)];
    assert m.use[f := Kernel][f := Free] == m.use[f := Free];
  }

  lemma ClearOwned(m: Memory, m1: Memory, pd: nat, v: nat)
    requires Owned(m) && IsDir(m, pd) && v < USER && Present(Pte(m, pd, v)) && Present(Pde(m, pd, v / ENTRIES))
    requires var f, t := Frame(Pte(m, pd, v)), TableOf(m, pd, v);
      && f < TOP && t < TOP && m.use[f] == User(pd, v)
      && m1 == m.(mem := m.mem[t := m.mem[t][v % ENTRIES := 0]], use := m.use[f := Kernel])
    ensures Owned(m1) && EntrySet(m, m1, pd, v, 0)
  {
    hide Pte, Pde, Frame, ListOk;
    WriteEntry(m, m1, pd, v, 0);
    assert ListOk(m1) by { ListKept(m, m1); }
    forall g: nat | g < TOP ensures LabelOk(m1, g) { assert LabelOk(m, g); }
    forall p: nat, e: nat | IsDir(m1, p) && e < ENTRIES ensures PdeOk(m1, p, e) { assert PdeOk(m, p, e); }
    forall p: nat, u: nat | IsDir(m1, p) && u < USER ensures PteOk(m1, p, u) { assert PteOk(m, p, u); }
  }

  lemma KfreeEntries(m: Memory, f: nat)
    requires Owned(m) && m.first <= f < TOP && m.use[f] == Kernel
    ensures EntriesSame(m, Kfree(m, f))
  {
    forall p: nat, u: nat | IsDir(m, p) && u < VPAGES ensures Pte(Kfree(m, f), p, u) == Pte(m, p, u) {
      PteApart(m, Kfree(m, f), p, u);
    }
  }

  lemma UnmapPageOwned(m: Memory, pd: nat, v: nat)
    requires Owned(m) && IsDir(m, pd) && v < USER
    ensures Owned(UnmapPage(m, pd, v))
    ensures EntrySet(m, UnmapPage(m, pd, v), pd, v, 0)
  {
    hide ListOk, LabelOk, PdeOk, Pte, Pde, Frame, Kfree;
    assert PteOk(m, pd, v);
    if Present(Pte(m, pd, v)) {
      UnmapOrder(m, pd, v);
      var f, t := Frame(Pte(m, pd, v)), TableOf(m, pd, v);
      var m1 := m.(mem := m.mem[t := m.mem[t][v % ENTRIES := 0]], use := m.use[f := Kernel]);
      ClearOwned(m, m1, pd, v);
      KfreeOwned(m1, f);
      KfreeEntries(m1, f);
    }
  }

  // ----- deallocuvm, page by page -----

  /** The page-by-page walk over [lo, hi). */
  function UnmapPages(m: Memory, pd: nat, lo: nat, hi: nat): Memory
    decreases hi - lo
  {
    if lo >= hi then m else UnmapPages(UnmapPage(m, pd, lo), pd, lo + 1, hi)
  }

  predicate UserIn(u: Use, pd: nat, lo: nat, hi: nat) {
    u.User? && u.pd == pd && lo <= u.v < hi
  }

  predicate TableIn(u: Use, pd: nat) {
    u.Table? && u.pd == pd
  }

  /** What the walk does: exactly the user pages of [lo, hi) are freed and their entries cleared. */
  ghost predicate Unmapped(m: Memory, m': Memory, pd: nat, lo: nat, hi: nat) {
    && |m'.use| == |m.use| == |m.mem| == |m'.mem| == TOP && m'.first == m.first && m'.data == m.data
    && (forall f: nat :: f < TOP ==> m'.use[f] == if UserIn(m.use[f], pd, lo, hi) then Free else m.use[f])
    && (forall f: nat :: f < TOP && m.use[f] != Free && !TableIn(m.use[f], pd) && !UserIn(m.use[f], pd, lo, hi) ==>
          m'.mem[f] == m.mem[f])
    && (forall p: nat, u: nat :: IsDir(m, p) && u < VPAGES ==>
          Pte(m', p, u) == if p == pd && lo <= u < hi then 0 else Pte(m, p, u))
  }

  lemma UnmapOne(m: Memory, pd: nat, v: nat)
    requires Owned(m) && IsDir(m, pd) && v < USER
    ensures Unmapped(m, UnmapPage(m, pd, v), pd, v, v + 1)
  {
    hide ListOk, PdeOk, Pte, Pde, Frame;
    var m' := UnmapPage(m, pd, v);
    UnmapPageOwned(m, pd, v);
    if Present(Pte(m, pd, v)) { UnmapOrder(m, pd, v); }
    forall f: nat | f < TOP ensures m'.use[f] == if UserIn(m.use[f], pd, v, v + 1) then Free else m.use[f] {
      assert LabelOk(m, f);
    }
    if Present(Pte(m, pd, v)) { TableIs(m, pd, v); }
  }

  lemma UnmappedJoin(m: Memory, m1: Memory, m2: Memory, pd: nat, lo: nat, mid: nat, hi: nat)
    requires lo <= mid <= hi && Unmapped(m, m1, pd, lo, mid) && Unmapped(m1, m2, pd, mid, hi)
    ensures Unmapped(m, m2, pd, lo, hi)
  {
    hide Pte;
    forall p: nat, u: nat | IsDir(m, p) && u < VPAGES
      ensures Pte(m2, p, u) == if p == pd && lo <= u < hi then 0 else Pte(m, p, u)
    {
      assert IsDir(m1, p);
    }
    forall f: nat | f < TOP && m.use[f] != Free && !TableIn(m.use[f], pd) && !UserIn(m.use[f], pd, lo, hi)
      ensures m2.mem[f] == m.mem[f]
    {
      assert m1.use[f] == m.use[f];
    }
  }

  lemma {:induction false} UnmapPagesOwned(m: Memory, pd: nat, lo: nat, hi: nat)
    requires Owned(m) && IsDir(m, pd) && lo <= hi <= USER
    ensures Owned(UnmapPages(m, pd, lo, hi)) && Unmapped(m, UnmapPages(m, pd, lo, hi), pd, lo, hi)
    decreases hi - lo
  {
    hide ListOk, LabelOk, PdeOk, PteOk, Pte, UnmapPage;
    if lo < hi {
      var m1 := UnmapPage(m, pd, lo);
      UnmapPageOwned(m, pd, lo);
      UnmapOne(m, pd, lo);
      assert IsDir(m1, pd);
      UnmapPagesOwned(m1, pd, lo + 1, hi);
      UnmappedJoin(m, m1, UnmapPages(m1, pd, lo + 1, hi), pd, lo, lo + 1, hi);
    }
  }

  /** Pages without a page table need no visit. */
  lemma {:induction false} SkipTable(m: Memory, pd: nat, lo: nat, hi: nat)
    requires forall v :: lo <= v < hi ==> !Present(Pde(m, pd, v / ENTRIES))
    ensures UnmapPages(m, pd, lo, hi) == m
    decreases hi - lo
  {
    if lo < hi {
      assert UnmapPage(m, pd, lo) == m;
      SkipTable(m, pd, lo + 1, hi);
    }
  }

  lemma {:induction false} UnmapSplit(m: Memory, pd: nat, lo: nat, mid: nat, hi: nat)
    requires lo <= mid <= hi
    ensures UnmapPages(m, pd, lo, hi) == UnmapPages(UnmapPages(m, pd, lo, mid), pd, mid, hi)
    decreases mid - lo
  {
    hide UnmapPage;
    if lo < mid { UnmapSplit(UnmapPage(m, pd, lo), pd, lo + 1, mid, hi); }
  }

  // ----- freevm -----

  /** The directory and its tables stop being one, before they are freed one by one. */
  ghost function Dissolve(m: Memory, pd: nat): Memory {
    m.(use := seq(|m.use|, f requires 0 <= f < |m.use| => if f == pd || TableIn(m.use[f], pd) then Kernel
        else m.use[f]))
  }

  lemma DissolveOwned(m: Memory, pd: nat)
    requires Owned(m) && IsDir(m, pd) && forall f: nat :: f < TOP ==> !UserIn(m.use[f], pd, 0, USER)
    ensures Owned(Dissolve(m, pd))
  {
    hide Pte, Pde, Frame, ListOk;
    var m' := Dissolve(m, pd);
    assert ListOk(m') by { ListKept(m, m'); }
    forall g: nat | g < TOP ensures LabelOk(m', g) {
      assert LabelOk(m, g);
      if m.use[g].User? || m.use[g].Table? { SameEntries(m, m', m.use[g].pd); }
    }
    forall p: nat, e: nat | IsDir(m', p) && e < ENTRIES ensures PdeOk(m', p, e) {
      SameEntries(m, m', p);
      assert PdeOk(m, p, e);
    }
    forall p: nat, u: nat | IsDir(m', p) && u < USER ensures PteOk(m', p, u) {
      SameEntries(m, m', p);
      assert PteOk(m, p, u);
    }
  }

  lemma SameEntries(m: Memory, m': Memory, p: nat)
    requires m'.mem == m.mem
    ensures forall e: nat :: Pde(m', p, e) == Pde(m, p, e)
    ensures forall v: nat :: Pte(m', p, v) == Pte(m, p, v)
  {
  }

  /** freevm's loop over the directory, from entry d on. */
  function FreeTables(m: Memory, pd: nat, d: nat): Memory
    decreases ENTRIES - d
  {
    if d >= ENTRIES then m
    else
      var e := Pde(m, pd, d);
      FreeTables(if Present(e) && Frame(e) < |m.mem| && Frame(e) < |m.use| then Kfree(m, Frame(e)) else m, pd, d + 1)
  }

  function DissolvedUse(u: Use, f: nat, pd: nat, d: nat): Use {
    if f == pd then Kernel else if TableIn(u, pd) then if u.d < d then Free else Kernel else u
  }

  /** The directory pd of m0 has been dissolved and its tables below entry d are free. */
  ghost predicate Dissolved(m0: Memory, m: Memory, pd: nat, d: nat) {
    && |m.use| == |m0.use| == |m.mem| == |m0.mem| == TOP && m.first == m0.first && m.data == m0.data
    && (forall f: nat :: f < TOP ==> m.use[f] == DissolvedUse(m0.use[f], f, pd, d))
    && (forall f: nat :: f < TOP && !TableIn(m0.use[f], pd) ==> m.mem[f] == m0.mem[f])
  }

  lemma {:induction false} FreeTablesOwned(m0: Memory, m: Memory, pd: nat, d: nat)
    requires Owned(m0) && IsDir(m0, pd) && Owned(m) && Dissolved(m0, m, pd, d) && d <= ENTRIES
    ensures Owned(FreeTables(m, pd, d)) && Dissolved(m0, FreeTables(m, pd, d), pd, ENTRIES)
    decreases ENTRIES - d
  {
    hide ListOk, Pte, PteOk, Frame;
    if d < ENTRIES {
      assert PdeOk(m0, pd, d) && Pde(m, pd, d) == Pde(m0, pd, d);
      var f := Frame(Pde(m, pd, d));
      forall g: nat | g < TOP && TableIn(m0.use[g], pd) && m0.use[g].d == d
        ensures Present(Pde(m, pd, d)) && g == f
      {
        assert LabelOk(m0, g);
      }
      if Present(Pde(m, pd, d)) {
        assert LabelOk(m0, f);
        KfreeOwned(m, f);
        FreeTablesOwned(m0, Kfree(m, f), pd, d + 1);
      } else {
        FreeTablesOwned(m0, m, pd, d + 1);
      }
    }
  }

  ghost function Freevm(m: Memory, pd: nat): Memory
    requires pd < |m.mem| && pd < |m.use|
  {
    var m2 := FreeTables(Dissolve(UnmapPages(m, pd, 0, USER), pd), pd, 0);
    if pd < |m2.mem| && pd < |m2.use| then Kfree(m2, pd) else m2
  }

  /** The frames of one address space: the directory, its tables and its user pages. */
  predicate BelongsTo(m: Memory, f: nat, pd: nat)
    requires f < |m.use|
  {
    f == pd || TableIn(m.use[f], pd) || UserIn(m.use[f], pd, 0, USER)
  }

  /** freevm frees exactly the frames of the address space; nothing else changes. */
  lemma FreevmOwned(m: Memory, pd: nat)
    requires Owned(m) && IsDir(m, pd)
    ensures Owned(Freevm(m, pd)) && Freevm(m, pd).first == m.first && Freevm(m, pd).data == m.data
    ensures forall f: nat :: f < TOP ==> Freevm(m, pd).use[f] == if BelongsTo(m, f, pd) then Free else m.use[f]
    ensures forall f: nat :: f < TOP && m.use[f] != Free && !BelongsTo(m, f, pd) ==> Freevm(m, pd).mem[f] == m.mem[f]
  {
    hide ListOk, PdeOk, PteOk, Pte, Pde, UnmapPages, FreeTables;
    var m1 := UnmapPages(m, pd, 0, USER);
    UnmapPagesOwned(m, pd, 0, USER);
    forall f: nat | f < TOP ensures TableIn(m1.use[f], pd) ==> m1.use[f].d < ENTRIES { assert LabelOk(m1, f); }
    DissolveOwned(m1, pd);
    FreeTablesOwned(m1, Dissolve(m1, pd), pd, 0);
    var m2 := FreeTables(Dissolve(m1, pd), pd, 0);
    DirUsable(m, pd);
    KfreeOwned(m2, pd);
  }

  lemma DirUsable(m: Memory, pd: nat)
    requires Owned(m) && IsDir(m, pd)
    ensures m.first <= pd < TOP
  {
    assert LabelOk(m, pd);
  }
}

/** How many free frames the operations of vm.c need: each succeeds exactly when there are that many. */
module Needs {
  import opened Prelude
  import opened Frames
  import opened Spaces
  import opened Sizes

  // ----- Page tables -----

  function NextTable(v: nat): nat { (v / ENTRIES + 1) * ENTRIES }

  /** How many of the page tables for pages [lo, hi) are missing. */
  function Missing(m: Memory, pd: nat, lo: nat, hi: nat): nat
    decreases hi - lo
  {
    if lo >= hi then 0
    else (if Present(Pde(m, pd, lo / ENTRIES)) then 0 else 1) + Missing(m, pd, NextTable(lo), hi)
  }

  /** The tables from entry e on are there in m' exactly when they are in m. */
  ghost predicate SameTables(m: Memory, m': Memory, pd: nat, e: nat) {
    forall d: nat :: d >= e ==> (Present(Pde(m', pd, d)) <==> Present(Pde(m, pd, d)))
  }

  lemma {:induction false} MissingSame(m: Memory, m': Memory, pd: nat, lo: nat, hi: nat)
    requires SameTables(m, m', pd, lo / ENTRIES)
    ensures Missing(m', pd, lo, hi) == Missing(m, pd, lo, hi)
    decreases hi - lo
  {
    hide Pde, Present;
    if lo < hi {
      TableAfter(lo);
      MissingSame(m, m', pd, NextTable(lo), hi);
    }
  }

  lemma TableAfter(v: nat)
    ensures v < NextTable(v) && NextTable(v) / ENTRIES == v / ENTRIES + 1
    ensures if v + 1 < NextTable(v) then (v + 1) / ENTRIES == v / ENTRIES else v + 1 == NextTable(v)
  {
  }

  /** The table of page v is there in m', and otherwise the directory pd has the tables it had in m. */
  ghost predicate TableAdded(m: Memory, m': Memory, pd: nat, v: nat) {
    forall d: nat :: Present(Pde(m', pd, d)) <==> Present(Pde(m, pd, d)) || d == v / ENTRIES
  }

  function NewTable(m: Memory, pd: nat, v: nat): nat {
    if Present(Pde(m, pd, v / ENTRIES)) then 0 else 1
  }

  /** Once the table of page lo is there, the pages after lo miss one table fewer, if that one was missing. */
  lemma MissingStep(m: Memory, m': Memory, pd: nat, lo: nat, hi: nat)
    requires lo < hi && TableAdded(m, m', pd, lo)
    ensures Missing(m, pd, lo, hi) == NewTable(m, pd, lo) + Missing(m', pd, lo + 1, hi)
  {
    hide Pde, Present;
    TableAfter(lo);
    MissingSame(m, m', pd, NextTable(lo), hi);
    if lo + 1 < NextTable(lo) && lo + 1 < hi {
      assert NextTable(lo + 1) == NextTable(lo);
    }
  }

  /** mappages at one page takes a frame exactly when the table is missing. */
  lemma MapPageNeeds(m: Memory, pd: nat, v: nat, w: nat)
    requires CanMap(m, pd, v, w)
    ensures var r := MapPage(m, pd, v, w);
      && (r.ok <==> |m.free| >= NewTable(m, pd, v))
      && (r.ok ==> |r.m.free| == |m.free| - NewTable(m, pd, v) && TableAdded(m, r.m, pd, v))
  {
    hide ListOk, LabelOk, PteOk, Pte, Frame;
    if Present(Pde(m, pd, v / ENTRIES)) {
      TableIs(m, pd, v);
    } else if m.free != [] {
      AddTableEntries(m, pd, v / ENTRIES);
      AddTableOwned(m, pd, v / ENTRIES);
      TableIs(AddTable(m, pd, v / ENTRIES), pd, v);
    }
  }

  lemma {:induction false} MapPagesNeeds(m: Memory, pd: nat, v: nat, n: nat, w: nat)
    requires Owned(m) && IsDir(m, pd) && USER <= v && v + n <= VPAGES && Present(w)
    requires forall u: nat :: v <= u < v + n ==> !Present(Pte(m, pd, u))
    ensures var r := MapPages(m, pd, v, n, w);
      && (r.ok <==> |m.free| >= Missing(m, pd, v, v + n))
      && (r.ok ==> |r.m.free| == |m.free| - Missing(m, pd, v, v + n) && TablesAdded(m, r.m, pd, v, n))
    decreases n
  {
    hide Owned, Pte, Pde, Frame, MapPage, Missing, NewTable;
    if n == 0 {
      NoneMissing(m, pd, v);
    } else {
      var r := MapPage(m, pd, v, w);
      MapPageEffect(m, pd, v, w);
      MapPageNeeds(m, pd, v, w);
      if r.ok {
        MapPagesNeeds(r.m, pd, v + 1, n - 1, w + PGSIZE);
        MissingStep(m, r.m, pd, v, v + n);
        var rest := MapPages(r.m, pd, v + 1, n - 1, w + PGSIZE);
        if rest.ok { TablesJoin(m, r.m, rest.m, pd, v, n); }
      } else {
        MissingFirst(m, pd, v, v + n);
      }
    }
  }

  lemma NoneMissing(m: Memory, pd: nat, v: nat)
    ensures Missing(m, pd, v, v) == 0
  {
  }

  lemma MissingFirst(m: Memory, pd: nat, lo: nat, hi: nat)
    requires lo < hi
    ensures Missing(m, pd, lo, hi) >= NewTable(m, pd, lo)
  {
  }

  /** The tables of n pages from v on are there in m', and the others as in m. */
  ghost predicate TablesAdded(m: Memory, m': Memory, pd: nat, v: nat, n: nat) {
    forall d: nat :: Present(Pde(m', pd, d)) <==> Present(Pde(m, pd, d)) || InTables(d, v, n)
  }

  /** Table d serves one of n pages from v on. */
  predicate InTables(d: nat, v: nat, n: nat) {
    n > 0 && v / ENTRIES <= d <= (v + n - 1) / ENTRIES
  }

  lemma TablesJoin(m: Memory, m1: Memory, m2: Memory, pd: nat, v: nat, n: nat)
    requires n > 0 && TableAdded(m, m1, pd, v) && TablesAdded(m1, m2, pd, v + 1, n - 1)
    ensures TablesAdded(m, m2, pd, v, n)
  {
    hide Pde, Present;
    TableAfter(v);
  }

  // ----- setupkvm -----

  const USER_TABLES: nat := USER / ENTRIES
  const KERNEL_TABLES: nat := 64   // 56 for physical memory and 8 for the devices

  /** How many tables serve the pages below v. */
  function TablesBelow(v: nat): nat { (v + ENTRIES - 1) / ENTRIES }

  /** The directory has exactly the tables for the pages from KERNBASE to v. */
  ghost predicate TablesTo(m: Memory, pd: nat, v: nat) {
    forall d: nat :: Present(Pde(m, pd, d)) <==> USER_TABLES <= d < TablesBelow(v)
  }

  lemma {:induction false} MissingAll(m: Memory, pd: nat, lo: nat, hi: nat)
    requires lo % ENTRIES == 0 && lo <= hi
    requires forall d: nat :: lo / ENTRIES <= d < TablesBelow(hi) ==> !Present(Pde(m, pd, d))
    ensures Missing(m, pd, lo, hi) == TablesBelow(hi) - TablesBelow(lo)
    decreases hi - lo
  {
    hide Pde, Present;
    if lo < hi {
      TableAfter(lo);
      if NextTable(lo) <= hi {
        MissingAll(m, pd, NextTable(lo), hi);
      } else {
        NoneMissingAbove(m, pd, NextTable(lo), hi);
      }
    }
  }

  lemma NoneMissingAbove(m: Memory, pd: nat, lo: nat, hi: nat)
    requires lo >= hi
    ensures Missing(m, pd, lo, hi) == 0
  {
  }

  lemma MissingTo(m: Memory, pd: nat, lo: nat, hi: nat)
    requires USER <= lo <= hi && TablesTo(m, pd, lo)
    ensures Missing(m, pd, lo, hi) == TablesBelow(hi) - TablesBelow(lo)
  {
    hide Pde, Present;
    TableAfter(lo);
    if lo % ENTRIES == 0 {
      MissingAll(m, pd, lo, hi);
    } else if lo < hi {
      if NextTable(lo) <= hi {
        MissingAll(m, pd, NextTable(lo), hi);
      } else {
        NoneMissingAbove(m, pd, NextTable(lo), hi);
      }
    }
  }

  lemma TablesGrow(m: Memory, m': Memory, pd: nat, v: nat, n: nat)
    requires USER <= v && n > 0 && TablesTo(m, pd, v) && TablesAdded(m, m', pd, v, n)
    ensures TablesTo(m', pd, v + n)
  {
    hide Pde, Present;
  }

  /** The tables that the ranges of kmap from k on need. */
  function KernelLeft(data: nat, k: nat): nat
    requires 256 < data < TOP && k < 4
  {
    if k == 3 then 8 else 8 + TablesBelow(USER + TOP) - TablesBelow(Kmap(data, k).0)
  }

  /** Before range k: the tables of the ranges below are there, and no others. */
  ghost predicate KernelTo(m: Memory, pd: nat, k: nat)
    requires 256 < m.data < TOP && k < 4
  {
    TablesTo(m, pd, if k == 3 then USER + TOP else Kmap(m.data, k).0)
  }

  lemma {:induction false} MapKernelNeeds(m: Memory, pd: nat, k: nat)
    requires Owned(m) && IsDir(m, pd) && k < 4 && ClearFrom(m, pd, Kmap(m.data, k).0) && KernelTo(m, pd, k)
    ensures var r := MapKernel(m, pd, k);
      && (r.ok <==> |m.free| >= KernelLeft(m.data, k))
      && (r.ok ==> |r.m.free| == |m.free| - KernelLeft(m.data, k))
      && (r.ok ==> forall d: nat :: d < USER_TABLES ==> !Present(Pde(r.m, pd, d)))
    decreases 4 - k
  {
    hide ListOk, LabelOk, PdeOk, PteOk, Pte, Pde, Frame, MapPages, Present, Missing, Kmap, KernelLeft, TablesBelow;
    var (v, n, w) := Kmap(m.data, k);
    KmapIsKernel(m.data, k, v);
    KmapTables(m.data, k);
    assert forall u: nat :: v <= u < v + n ==> !Present(Pte(m, pd, u)) by { ZeroAbsent(); }
    MapPagesEffect(m, pd, v, n, w);
    MapPagesNeeds(m, pd, v, n, w);
    var r := MapPages(m, pd, v, n, w);
    if k == 3 {
      assert TablesTo(m, pd, USER + TOP);
      MissingDevices(m, pd);
      assert r.ok ==> MapKernel(r.m, pd, 4) == Mapped(r.m, true);
      UserTables(m, r.m, pd, v, n);
    } else {
      MissingTo(m, pd, v, v + n);
      if r.ok {
        TablesGrow(m, r.m, pd, v, n);
        MapKernelNeeds(r.m, pd, k + 1);
      }
    }
  }

  lemma KmapTables(data: nat, k: nat)
    requires 256 < data < TOP && k < 4
    ensures var (v, n, _) := Kmap(data, k);
      && n > 0 && (k == 3 ==> v == 0xFE000 && n == 0x2000 && KernelLeft(data, k) == 8)
      && (k < 3 ==> v + n == (if k == 2 then USER + TOP else Kmap(data, k + 1).0)
                    && KernelLeft(data, k) == TablesBelow(v + n) - TablesBelow(v) + KernelLeft(data, k + 1))
  {
  }

  lemma MissingDevices(m: Memory, pd: nat)
    requires TablesTo(m, pd, USER + TOP)
    ensures Missing(m, pd, 0xFE000, VPAGES) == 8
  {
    hide Pde, Present, Missing;
    MissingAll(m, pd, 0xFE000, VPAGES);
  }

  lemma UserTables(m: Memory, m': Memory, pd: nat, v: nat, n: nat)
    requires TablesTo(m, pd, USER + TOP) && USER <= v
    ensures TablesAdded(m, m', pd, v, n) ==> forall d: nat :: d < USER_TABLES ==> !Present(Pde(m', pd, d))
  {
    hide Pde, Present;
  }

  lemma ZeroAbsent()
    ensures !Present(0)
  {
  }

  /** setupkvm needs a directory and its 64 page tables. */
  lemma SetupkvmNeeds(m: Memory)
    requires Owned(m)
    ensures var r := Setupkvm(m);
      && (r.pd.Some? <==> |m.free| >= 1 + KERNEL_TABLES)
      && (r.pd.Some? ==> |r.m.free| == |m.free| - 1 - KERNEL_TABLES)
      && (r.pd.Some? ==> forall d: nat :: d < USER_TABLES ==> !Present(Pde(r.m, r.pd.value, d)))
  {
    hide ListOk, LabelOk, PdeOk, PteOk, Pte, Pde, Frame, MapKernel, Freevm;
    if m.free != [] {
      NewDirOwned(m);
      var pd, m1 := m.free[0], NewDir(m);
      NewDirClear(m1, pd);
      NoTables(m1, pd);
      MapKernelNeeds(m1, pd, 0);
    }
  }

  lemma NoTables(m: Memory, pd: nat)
    requires forall e: nat :: e < ENTRIES ==> !Present(Pde(m, pd, e))
    ensures TablesTo(m, pd, USER)
  {
  }

  // ----- New user pages -----

  /** A page and, if it is missing, its table. */
  lemma PageNeeds(m: Memory, pd: nat, v: nat, page: Page, flags: nat)
    requires Owned(m) && IsDir(m, pd) && v < USER && !Present(Pte(m, pd, v)) && m.free != []
    requires flags < PGSIZE && flags % 2 == 1
    ensures m.first <= m.free[0] < TOP && CanMap(TakePage(m, page), pd, v, Word(m.free[0], flags))
    ensures var r := MapPage(TakePage(m, page), pd, v, Word(m.free[0], flags));
      && (r.ok <==> |m.free| >= 1 + NewTable(m, pd, v))
      && (r.ok ==> |r.m.free| == |m.free| - 1 - NewTable(m, pd, v) && TableAdded(m, r.m, pd, v))
  {
    hide ListOk, LabelOk, PdeOk, PteOk, Pte, Frame, Word, MapPage;
    PageFits(m, pd, v, page, flags);
    TakeOwned(m, page);
    MapPageNeeds(TakePage(m, page), pd, v, Word(m.free[0], flags));
    assert forall d: nat :: Pde(TakePage(m, page), pd, d) == Pde(m, pd, d);
  }

  /** allocuvm's loop needs a frame for every page and one for every table that is missing. */
  lemma {:induction false} AllocPagesNeeds(m: Memory, pd: nat, start: nat, lo: nat, hi: nat)
    requires Owned(m) && IsDir(m, pd) && start <= lo <= hi <= USER && NonePresent(m, pd, lo, hi)
    ensures var r := AllocPages(m, pd, start, lo, hi);
      && (r.ok <==> |m.free| >= hi - lo + Missing(m, pd, lo, hi))
      && (r.ok ==> |r.m.free| == |m.free| - (hi - lo) - Missing(m, pd, lo, hi))
    decreases hi - lo
  {
    hide Owned, Pte, Pde, Frame, Flags, MapPage, TakePage, UnmapPages, Word, Kfree, Grows, Missing, NewTable, Present;
    if lo == hi {
      NoneMissing(m, pd, lo);
    } else if m.free != [] {
      OwnedShape(m);
      ZeroAbsent();
      PageMapped(m, pd, lo, Filled(0), PTE_W + PTE_U + PTE_P);
      PageNeeds(m, pd, lo, Filled(0), PTE_W + PTE_U + PTE_P);
      var r := MapPage(TakePage(m, Filled(0)), pd, lo, Word(m.free[0], PTE_W + PTE_U + PTE_P));
      MissingFirst(m, pd, lo, hi);
      if r.ok {
        MissingStep(m, r.m, pd, lo, hi);
        GrowsDir(m, r.m, pd, lo, lo + 1);
        AllocPagesNeeds(r.m, pd, start, lo + 1, hi);
      }
    }
  }

  /** allocuvm succeeds exactly when the new size stays below KERNBASE and there are that many free frames. */
  lemma AllocuvmNeeds(m: Memory, pd: nat, oldsz: nat, newsz: nat)
    requires Owned(m) && Bounded(m, pd, oldsz) && oldsz <= newsz && 0 < newsz
    ensures var lo, hi := Pages(oldsz), Pages(newsz);
      Allocuvm(m, pd, oldsz, newsz).sz == newsz <==>
      newsz < KERNBASE && |m.free| >= hi - lo + Missing(m, pd, lo, hi)
  {
    hide Owned, Pte, Pde, AllocPages, Pages, Missing;
    if newsz < KERNBASE {
      PagesOrder(oldsz, newsz);
      AllocPagesNeeds(m, pd, Pages(oldsz), Pages(oldsz), Pages(newsz));
    }
  }

  /** copyuvm's loop needs the same for the child. */
  lemma {:induction false} CopyPagesNeeds(m: Memory, pd: nat, d: nat, lo: nat, hi: nat)
    requires Owned(m) && IsDir(m, pd) && IsDir(m, d) && pd != d && lo <= hi <= USER
    requires AllPresent(m, pd, lo, hi) && NonePresent(m, d, lo, hi)
    ensures CopyPages(m, pd, d, lo, hi).ok <==> |m.free| >= hi - lo + Missing(m, d, lo, hi)
    decreases hi - lo
  {
    hide Owned, Pte, Pde, Frame, Flags, CopyPage, Grows, Missing, NewTable, Present;
    if lo == hi {
      NoneMissing(m, d, lo);
    } else {
      ZeroAbsent();
      CopyPageEffect(m, pd, d, lo);
      CopyPageNeeds(m, pd, d, lo);
      MissingFirst(m, d, lo, hi);
      var r := CopyPage(m, pd, d, lo);
      if r.ok {
        MissingStep(m, r.m, d, lo, hi);
        CopyPagesNeeds(r.m, pd, d, lo + 1, hi);
      }
    }
  }

  lemma CopyPageNeeds(m: Memory, pd: nat, d: nat, v: nat)
    requires Owned(m) && IsDir(m, pd) && IsDir(m, d) && pd != d && v < USER && Present(Pte(m, pd, v))
    requires !Present(Pte(m, d, v))
    ensures var r := CopyPage(m, pd, d, v);
      && (r.ok <==> |m.free| >= 1 + NewTable(m, d, v))
      && (r.ok ==> |r.m.free| == |m.free| - 1 - NewTable(m, d, v) && TableAdded(m, r.m, d, v))
  {
    hide ListOk, LabelOk, PdeOk, PteOk, Pte, Pde, Frame, Flags, MapPage, TakePage, Word, Kfree, Freevm, NewTable,
      TableAdded;
    UserFrame(m, pd, v);
    if m.free == [] {
      assert |m.free| == 0;
    } else {
      PageNeeds(m, d, v, m.mem[Frame(Pte(m, pd, v))], Flags(Pte(m, pd, v)));
    }
  }

  /** The frames of a copy of n pages: directory and kernel tables, the pages, and their tables. */
  function CopyFrames(n: nat): nat { 1 + KERNEL_TABLES + n + TablesBelow(n) }

  /** copyuvm, exactly.  Let a be the first page below the size that the parent lacks, or the number of its pages if it
      lacks none.  With fewer free frames than a copy of a pages takes, copyuvm fails; otherwise it panics if a page is
      lacking, and succeeds if none is. */
  lemma CopyuvmNeeds(m: Memory, pd: nat, sz: nat)
    requires Owned(m) && Bounded(m, pd, sz)
    ensures var a := FirstAbsent(m, pd, 0, Pages(sz));
      match Copyuvm(m, pd, sz)
      case Panic => a < Pages(sz) && |m.free| >= CopyFrames(a)
      case Copying(_, Some(_)) => a == Pages(sz) && |m.free| >= CopyFrames(a)
      case Copying(_, None) => |m.free| < CopyFrames(a)
  {
    hide Owned, Pte, Pde, Setupkvm, CopyPages, Pages, Apart, Fresh, KernelPte, Missing, TablesBelow;
    SetupkvmBuilds(m);
    SetupkvmNeeds(m);
    var b := Setupkvm(m);
    PagesOrder(sz, sz);
    var a := FirstAbsent(m, pd, 0, Pages(sz));
    if b.pd.Some? {
      var d := b.pd.value;
      CopyReady(m, b.m, pd, d);
      CopyPagesNeeds(b.m, pd, d, 0, a);
      MissingUser(b.m, d, a);
    }
  }

  lemma MissingUser(m: Memory, pd: nat, n: nat)
    requires n <= USER && forall d: nat :: d < USER_TABLES ==> !Present(Pde(m, pd, d))
    ensures Missing(m, pd, 0, n) == TablesBelow(n)
  {
    MissingAll(m, pd, 0, n);
  }
}

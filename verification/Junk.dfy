/** What free pages hold (kalloc.c).

    kfree fills a page with junk before it puts it on the free list, to catch uses of it after it was freed.  So a
    page on the free list never holds what it held when it was in use, whatever the operations of vm.c do: they
    write only to pages that are in use, take pages from the list by kalloc, and return them by kfree.  Each lemma
    below says so of one of them, along the same recursion, and the last one of every reachable state.  The word
    of a free page that links the list is not modelled. */
module Junk {
  import opened Prelude
  import opened Frames
  import opened Spaces
  import opened Sizes
  import Vm
  import VmRuns

  ghost predicate FreeIsJunk(m: Memory) {
    forall i :: 0 <= i < |m.free| ==> m.free[i] < |m.mem| && m.mem[m.free[i]] == Filled(JUNK_WORD)
  }

  lemma KfreeJunk(m: Memory, f: nat)
    requires FreeIsJunk(m) && f < |m.mem| && f < |m.use|
    ensures FreeIsJunk(Kfree(m, f))
  {
  }

  /** A frame in use is not on the free list. */
  lemma UsedNotFree(m: Memory, f: nat)
    requires Owned(m) && f < TOP && m.use[f] != Free
    ensures f !in m.free
  {
    hide LabelOk, PdeOk, PteOk;
  }

  /** Changing a frame in use, or taking the first free one, keeps the rest. */
  lemma WriteJunk(m: Memory, f: nat, page: Page)
    requires Owned(m) && FreeIsJunk(m) && f < TOP && m.use[f] != Free
    ensures FreeIsJunk(m.(mem := m.mem[f := page]))
  {
    hide LabelOk, PdeOk, PteOk;
    UsedNotFree(m, f);
  }

  lemma TakeJunk(m: Memory, page: Page)
    requires Owned(m) && FreeIsJunk(m) && m.free != []
    ensures m.free[0] < TOP && FreeIsJunk(m.(mem := m.mem[m.free[0] := page], free := m.free[1..]))
  {
    hide LabelOk, PdeOk, PteOk;
  }

  lemma AddTableJunk(m: Memory, pd: nat, d: nat)
    requires Owned(m) && FreeIsJunk(m) && m.free != [] && IsDir(m, pd) && d < ENTRIES
    ensures m.free[0] < TOP && FreeIsJunk(AddTable(m, pd, d))
  {
    hide LabelOk, PdeOk, PteOk;
    TakeJunk(m, Filled(0));
    UsedNotFree(m, pd);
  }

  lemma PutPteJunk(m: Memory, pd: nat, v: nat, w: nat)
    requires Owned(m) && FreeIsJunk(m) && IsDir(m, pd) && v < VPAGES && Present(Pde(m, pd, v / ENTRIES))
    requires v < USER ==> Frame(w) < |m.use|
    ensures TableOf(m, pd, v) < |m.mem| && FreeIsJunk(PutPte(m, pd, v, w))
  {
    hide LabelOk, PdeOk, PteOk, Pde;
    TableIs(m, pd, v);
    var t := TableOf(m, pd, v);
    WriteJunk(m, t, m.mem[t][v % ENTRIES := w]);
  }

  lemma MapPageJunk(m: Memory, pd: nat, v: nat, w: nat)
    requires CanMap(m, pd, v, w) && FreeIsJunk(m)
    ensures FreeIsJunk(MapPage(m, pd, v, w).m)
  {
    hide LabelOk, PdeOk, PteOk, ListOk, FreeIsJunk, Pte;
    if Present(Pde(m, pd, v / ENTRIES)) {
      PutPteJunk(m, pd, v, w);
    } else if m.free != [] {
      AddTableJunk(m, pd, v / ENTRIES);
      AddTableEntries(m, pd, v / ENTRIES);
      AddTableOwned(m, pd, v / ENTRIES);
      PutPteJunk(AddTable(m, pd, v / ENTRIES), pd, v, w);
    }
  }

  lemma UnmapPageJunk(m: Memory, pd: nat, v: nat)
    requires Owned(m) && FreeIsJunk(m) && IsDir(m, pd) && v < USER
    ensures FreeIsJunk(UnmapPage(m, pd, v))
  {
    hide LabelOk, PdeOk, ListOk, Pte, Pde, FreeIsJunk;
    assert PteOk(m, pd, v);
    if Present(Pte(m, pd, v)) {
      UnmapOrder(m, pd, v);
      var f, t := Frame(Pte(m, pd, v)), TableOf(m, pd, v);
      TableIs(m, pd, v);
      WriteJunk(m, t, m.mem[t][v % ENTRIES := 0]);
      SameFrees(m.(mem := m.mem[t := m.mem[t][v % ENTRIES := 0]]),
                m.(mem := m.mem[t := m.mem[t][v % ENTRIES := 0]], use := m.use[f := Kernel]));
      KfreeJunk(m.(mem := m.mem[t := m.mem[t][v % ENTRIES := 0]], use := m.use[f := Kernel]), f);
    }
  }

  lemma SameFrees(m: Memory, m': Memory)
    requires FreeIsJunk(m) && m'.mem == m.mem && m'.free == m.free
    ensures FreeIsJunk(m')
  {
  }

  lemma {:induction false} UnmapPagesJunk(m: Memory, pd: nat, lo: nat, hi: nat)
    requires Owned(m) && FreeIsJunk(m) && IsDir(m, pd) && lo <= hi <= USER
    ensures FreeIsJunk(UnmapPages(m, pd, lo, hi))
    decreases hi - lo
  {
    hide Owned, FreeIsJunk, UnmapPage;
    if lo < hi {
      UnmapPageJunk(m, pd, lo);
      UnmapPageOwned(m, pd, lo);
      UnmapSingle(m, pd, lo);
      UnmapPagesJunk(UnmapPage(m, pd, lo), pd, lo + 1, hi);
    }
  }

  lemma UnmapSingle(m: Memory, pd: nat, v: nat)
    requires Owned(m) && IsDir(m, pd) && v < USER
    ensures IsDir(UnmapPage(m, pd, v), pd)
  {
    hide Owned;
    UnmapOne(m, pd, v);
    OwnedShape(m);
  }

  lemma {:induction false} FreeTablesJunk(m: Memory, pd: nat, d: nat)
    requires FreeIsJunk(m)
    ensures FreeIsJunk(FreeTables(m, pd, d))
    decreases ENTRIES - d
  {
    hide FreeIsJunk, Pde;
    if d < ENTRIES {
      var e := Pde(m, pd, d);
      if Present(e) && Frame(e) < |m.mem| && Frame(e) < |m.use| {
        KfreeJunk(m, Frame(e));
        FreeTablesJunk(Kfree(m, Frame(e)), pd, d + 1);
      } else {
        FreeTablesJunk(m, pd, d + 1);
      }
    }
  }

  lemma FreevmJunk(m: Memory, pd: nat)
    requires Owned(m) && FreeIsJunk(m) && IsDir(m, pd)
    ensures pd < |m.mem| && FreeIsJunk(Freevm(m, pd))
  {
    hide Owned, FreeIsJunk, UnmapPages, FreeTables;
    OwnedShape(m);
    UnmapPagesJunk(m, pd, 0, USER);
    var m1 := UnmapPages(m, pd, 0, USER);
    SameFrees(m1, Dissolve(m1, pd));
    FreeTablesJunk(Dissolve(m1, pd), pd, 0);
    var m2 := FreeTables(Dissolve(m1, pd), pd, 0);
    if pd < |m2.mem| && pd < |m2.use| { KfreeJunk(m2, pd); }
  }

  lemma {:induction false} MapPagesJunk(m: Memory, pd: nat, v: nat, n: nat, w: nat)
    requires Owned(m) && FreeIsJunk(m) && IsDir(m, pd) && USER <= v && v + n <= VPAGES && Present(w)
    requires forall u: nat :: v <= u < v + n ==> !Present(Pte(m, pd, u))
    ensures FreeIsJunk(MapPages(m, pd, v, n, w).m)
    decreases n
  {
    hide Owned, FreeIsJunk, MapPage, Pte;
    if n > 0 {
      MapPageEffect(m, pd, v, w);
      MapPageJunk(m, pd, v, w);
      var r := MapPage(m, pd, v, w);
      NextPresent(w);
      if r.ok { MapPagesJunk(r.m, pd, v + 1, n - 1, w + PGSIZE); }
    }
  }

  lemma NextPresent(w: nat)
    ensures Present(w + PGSIZE) <==> Present(w)
  {
  }

  lemma {:induction false} MapKernelJunk(m: Memory, pd: nat, k: nat)
    requires Owned(m) && FreeIsJunk(m) && IsDir(m, pd) && k <= 4 && (k < 4 ==> ClearFrom(m, pd, Kmap(m.data, k).0))
    ensures FreeIsJunk(MapKernel(m, pd, k).m)
    decreases 4 - k
  {
    hide Owned, FreeIsJunk, MapPages, MapKernel, Pte, Kmap;
    OwnedShape(m);
    if k < 4 {
      Vm.KernelStep(m, pd, k);
      var (v, n, w) := Kmap(m.data, k);
      MapPagesJunk(m, pd, v, n, w);
      var r := MapPages(m, pd, v, n, w);
      if r.ok { MapKernelJunk(r.m, pd, k + 1); }
    } else {
      Vm.KernelDone(m, pd);
    }
  }

  lemma SetupkvmJunk(m: Memory)
    requires Owned(m) && FreeIsJunk(m)
    ensures FreeIsJunk(Setupkvm(m).m)
  {
    hide LabelOk, PdeOk, PteOk, FreeIsJunk, MapKernel, Freevm, Pte, Kmap;
    if m.free != [] {
      var pd := m.free[0];
      NewDirOwned(m);
      TakeJunk(m, Filled(0));
      SameFrees(m.(mem := m.mem[pd := Filled(0)], free := m.free[1..]), NewDir(m));
      MapKernelJunk(NewDir(m), pd, 0);
      var r := MapKernel(NewDir(m), pd, 0);
      if !r.ok { FreevmJunk(r.m, pd); }
    }
  }

  lemma TakePageJunk(m: Memory, page: Page)
    requires Owned(m) && FreeIsJunk(m) && m.free != []
    ensures m.free[0] < TOP && FreeIsJunk(TakePage(m, page))
  {
    hide LabelOk, PdeOk, PteOk, FreeIsJunk;
    TakeJunk(m, page);
    SameFrees(m.(mem := m.mem[m.free[0] := page], free := m.free[1..]), TakePage(m, page));
  }

  lemma {:induction false} AllocPagesJunk(m: Memory, pd: nat, start: nat, lo: nat, hi: nat)
    requires Owned(m) && FreeIsJunk(m) && IsDir(m, pd) && start <= lo <= hi <= USER && NonePresent(m, pd, lo, hi)
    ensures FreeIsJunk(AllocPages(m, pd, start, lo, hi).m)
    decreases hi - lo
  {
    hide Owned, FreeIsJunk, AllocPages, MapPage, TakePage, UnmapPages, NonePresent, Word;
    if lo == hi {
      Vm.AllocDone(m, pd, start, hi);
    } else {
      Vm.AllocStep(m, pd, start, lo, hi);
      if m.free == [] {
        UnmapPagesJunk(m, pd, start, hi);
      } else {
        TakePageJunk(m, Filled(0));
        var m1, w := TakePage(m, Filled(0)), Word(m.free[0], PTE_W + PTE_U + PTE_P);
        MapPageJunk(m1, pd, lo, w);
        var r := MapPage(m1, pd, lo, w);
        if r.ok {
          AllocPagesJunk(r.m, pd, start, lo + 1, hi);
        } else {
          UnmapPagesJunk(r.m, pd, start, hi);
          KfreeJunk(UnmapPages(r.m, pd, start, hi), m.free[0]);
        }
      }
    }
  }

  lemma CopyPageJunk(m: Memory, pd: nat, d: nat, v: nat)
    requires Owned(m) && IsDir(m, pd) && IsDir(m, d) && v < USER && Present(Pte(m, pd, v)) && !Present(Pte(m, d, v))
    requires FreeIsJunk(m)
    ensures FreeIsJunk(CopyPage(m, pd, d, v).m)
  {
    hide Owned, FreeIsJunk, MapPage, TakePage, Freevm, Pte, Word, Kfree;
    OwnedShape(m);
    UserFrame(m, pd, v);
    if m.free == [] {
      FreevmJunk(m, d);
    } else {
      var page, flags := m.mem[Frame(Pte(m, pd, v))], Flags(Pte(m, pd, v));
      PageMapped(m, d, v, page, flags);
      TakePageJunk(m, page);
      MapPageJunk(TakePage(m, page), d, v, Word(m.free[0], flags));
      var r := MapPage(TakePage(m, page), d, v, Word(m.free[0], flags));
      if !r.ok {
        GiveBack(m, page, d);
        OwnedShape(r.m);
        KfreeJunk(r.m, m.free[0]);
        FreevmJunk(Kfree(r.m, m.free[0]), d);
      }
    }
  }

  lemma {:induction false} CopyPagesJunk(m: Memory, pd: nat, d: nat, lo: nat, hi: nat)
    requires Owned(m) && FreeIsJunk(m) && IsDir(m, pd) && IsDir(m, d) && pd != d && lo <= hi <= USER
    requires AllPresent(m, pd, lo, hi) && NonePresent(m, d, lo, USER)
    ensures NonePresent(m, d, lo, hi) && FreeIsJunk(CopyPages(m, pd, d, lo, hi).m)
    decreases hi - lo
  {
    hide Owned, FreeIsJunk, CopyPage, CopyPages, Pte;
    if lo == hi {
      Vm.CopyDone(m, pd, d, hi);
    } else {
      Vm.CopyStep(m, pd, d, lo, hi);
      CopyPageJunk(m, pd, d, lo);
      var r := CopyPage(m, pd, d, lo);
      if r.ok { CopyPagesJunk(r.m, pd, d, lo + 1, hi); }
    }
  }

  lemma CopyuvmJunk(m: Memory, pd: nat, sz: nat)
    requires Owned(m) && FreeIsJunk(m) && Bounded(m, pd, sz)
    ensures Copyuvm(m, pd, sz).Copying? ==> FreeIsJunk(Copyuvm(m, pd, sz).m)
  {
    hide Owned, FreeIsJunk, Setupkvm, CopyPages, Pte, Pages, KernelPte;
    SetupkvmJunk(m);
    SetupkvmBuilds(m);
    var b := Setupkvm(m);
    if b.pd.Some? {
      var d := b.pd.value;
      PagesOrder(sz, sz);
      CopyReady(m, b.m, pd, d);
      KernelOnly(m.data);
      CopyPagesJunk(b.m, pd, d, 0, FirstAbsent(m, pd, 0, Pages(sz)));
    }
  }

  lemma KernelOnly(data: nat)
    ensures forall v: nat :: v < USER ==> KernelPte(data, v) == 0
  {
  }

  lemma GrowprocJunk(m: Memory, pd: nat, sz: nat, n: int)
    requires Owned(m) && FreeIsJunk(m) && Bounded(m, pd, sz) && -0x8000_0000 <= n < 0x8000_0000
    ensures FreeIsJunk(Growproc(m, pd, sz, n).0)
  {
    hide Owned, FreeIsJunk, AllocPages, UnmapPages, Pte, Pages;
    if n > 0 {
      var newsz := AddSize(sz, n);
      if sz <= newsz < KERNBASE {
        PagesOrder(sz, newsz);
        AllocPagesJunk(m, pd, Pages(sz), Pages(sz), Pages(newsz));
      }
    } else if n < 0 {
      var newsz := AddSize(sz, n);
      if newsz < sz {
        PagesOrder(newsz, sz);
        UnmapPagesJunk(m, pd, Pages(newsz), Pages(sz));
      }
    }
  }

  lemma StepJunk(s: VmRuns.State, s': VmRuns.State)
    requires VmRuns.Inv(s) && FreeIsJunk(s.m) && VmRuns.Step(s, s')
    ensures FreeIsJunk(s'.m)
  {
    hide Owned, FreeIsJunk, Setupkvm, Copyuvm, Growproc, Freevm, Kfree, Kalloc;
    if VmRuns.DoSetup(s, s') {
      SetupkvmJunk(s.m);
    } else if VmRuns.DoTake(s, s') {
      KallocJunk(s.m);
    } else if pd :| VmRuns.DoCopy(s, s', pd) {
      CopyuvmJunk(s.m, pd, s.size[pd]);
    } else if pd, n :| VmRuns.DoGrow(s, s', pd, n) {
      GrowprocJunk(s.m, pd, s.size[pd], n);
    } else if pd :| VmRuns.DoFree(s, s', pd) {
      FreevmJunk(s.m, pd);
    } else if f :| VmRuns.DoGive(s, s', f) {
      OwnedShape(s.m);
      KfreeJunk(s.m, f);
    }
  }

  lemma KallocJunk(m: Memory)
    requires Owned(m) && FreeIsJunk(m) && m.free != []
    ensures m.free[0] < TOP && FreeIsJunk(Kalloc(m))
  {
    hide LabelOk, PdeOk, PteOk;
  }

  /** In every reachable state, if kinit has given its pages to kfree, every page on the free list is junk: nothing that
      was in it when it was in use is left, and kalloc hands it out so. */
  lemma {:induction false} FreePagesAreJunk(tr: seq<VmRuns.State>, i: nat)
    requires VmRuns.Run(tr) && i < |tr| && FreeIsJunk(tr[0].m)
    ensures FreeIsJunk(tr[i].m)
  {
    hide VmRuns.Step, VmRuns.Inv, FreeIsJunk, Owned;
    if i > 0 {
      FreePagesAreJunk(tr, i - 1);
      VmRuns.RunInv(tr, i - 1);
      StepJunk(tr[i - 1], tr[i]);
    }
  }
}

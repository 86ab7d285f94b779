/** Building, growing and copying address spaces (vm.c), as functions on the memory of Frames.

    Each operation is followed by what it does to the labels and entries: `Apart` says that nothing outside one
    address space has changed, and `Restored` that nothing has at all but the order of the free list and what
    free frames hold. */
module Spaces {
  import opened Prelude
  import opened Frames

  datatype Mapped = Mapped(m: Memory, ok: bool)

  // ----- mappages -----

  /** The entry is free to be set: mappages would not panic with "remap", and a user page is a frame
      that has been allocated and is mapped nowhere. */
  ghost predicate CanMap(m: Memory, pd: nat, v: nat, w: nat) {
    && Owned(m) && IsDir(m, pd) && v < VPAGES && !Present(Pte(m, pd, v)) && Present(w)
    && (v < USER ==> m.first <= Frame(w) < TOP && m.use[Frame(w)] == Kernel)
  }

  /** mappages at one page: find or make the table, then set the entry. */
  ghost function MapPage(m: Memory, pd: nat, v: nat, w: nat): (r: Mapped)
    requires CanMap(m, pd, v, w)
    ensures Owned(r.m) && IsDir(r.m, pd)
  {
    if Present(Pde(m, pd, v / ENTRIES)) then
      PutPteOwned(m, pd, v, w);
      Mapped(PutPte(m, pd, v, w), true)
    else if m.free == [] then Mapped(m, false)
    else
      AddTableEntries(m, pd, v / ENTRIES);
      AddTableOwned(m, pd, v / ENTRIES);
      var m1 := AddTable(m, pd, v / ENTRIES);
      PutPteOwned(m1, pd, v, w);
      Mapped(PutPte(m1, pd, v, w), true)
  }

  /** The only new labels are tables of pd, taken from the free list, and the label of frame x; of the frames in
      use, only the directory and its tables are written. */
  ghost predicate Adds(m: Memory, m': Memory, pd: nat, x: nat) {
    && |m'.use| == |m.use| == |m.mem| == |m'.mem| == TOP && m'.first == m.first && m'.data == m.data
    && (forall f: nat :: f < TOP && f != x ==> m'.use[f] == m.use[f] || (m.use[f] == Free && TableIn(m'.use[f], pd)))
    && (forall f: nat :: f < TOP && f != pd && m.use[f] != Free && !TableIn(m.use[f], pd) ==> m'.mem[f] == m.mem[f])
  }

  lemma MapPageEffect(m: Memory, pd: nat, v: nat, w: nat)
    requires CanMap(m, pd, v, w)
    ensures var r := MapPage(m, pd, v, w);
      && Adds(m, r.m, pd, if v < USER then Frame(w) else TOP)
      && if r.ok then EntrySet(m, r.m, pd, v, w) && (v < USER ==> r.m.use[Frame(w)] == User(pd, v))
          else r.m == m && m.free == []
  {
    hide ListOk, LabelOk, PdeOk, PteOk, Pte, Pde, Frame;
    if Present(Pde(m, pd, v / ENTRIES)) {
      PutPteOwned(m, pd, v, w);
      TableIs(m, pd, v);
    } else if m.free != [] {
      AddTableEntries(m, pd, v / ENTRIES);
      AddTableOwned(m, pd, v / ENTRIES);
      var m1 := AddTable(m, pd, v / ENTRIES);
      PutPteOwned(m1, pd, v, w);
      TableIs(m1, pd, v);
    }
  }

  /** mappages over n kernel pages from v on, backed by consecutive frames from entry w on. */
  ghost function MapPages(m: Memory, pd: nat, v: nat, n: nat, w: nat): (r: Mapped)
    requires Owned(m) && IsDir(m, pd) && USER <= v && v + n <= VPAGES && Present(w)
    requires forall u: nat :: v <= u < v + n ==> !Present(Pte(m, pd, u))
    ensures Owned(r.m) && IsDir(r.m, pd)
    decreases n
  {
    if n == 0 then Mapped(m, true)
    else
      var r := MapPage(m, pd, v, w);
      MapPageEffect(m, pd, v, w);
      if r.ok then MapPages(r.m, pd, v + 1, n - 1, w + PGSIZE) else r
  }

  /** All the entries of the range are set, and no other. */
  ghost predicate RangeSet(m: Memory, m': Memory, pd: nat, v: nat, n: nat, w: nat) {
    forall p: nat, u: nat :: IsDir(m, p) && u < VPAGES ==>
      Pte(m', p, u) == if p == pd && v <= u < v + n then w + (u - v) * PGSIZE else Pte(m, p, u)
  }

  lemma AddsJoin(m: Memory, m1: Memory, m2: Memory, pd: nat)
    requires IsDir(m, pd) && Adds(m, m1, pd, TOP) && Adds(m1, m2, pd, TOP)
    ensures Adds(m, m2, pd, TOP)
  {
  }

  lemma {:induction false} MapPagesEffect(m: Memory, pd: nat, v: nat, n: nat, w: nat)
    requires Owned(m) && IsDir(m, pd) && USER <= v && v + n <= VPAGES && Present(w)
    requires forall u: nat :: v <= u < v + n ==> !Present(Pte(m, pd, u))
    ensures Adds(m, MapPages(m, pd, v, n, w).m, pd, TOP)
    ensures MapPages(m, pd, v, n, w).ok ==> RangeSet(m, MapPages(m, pd, v, n, w).m, pd, v, n, w)
    decreases n
  {
    hide Owned, Pte, Pde, Frame, MapPage;
    if n == 0 {
      AddsNothing(m, pd);
    } else {
      var r := MapPage(m, pd, v, w);
      MapPageEffect(m, pd, v, w);
      if r.ok {
        MapPagesEffect(r.m, pd, v + 1, n - 1, w + PGSIZE);
        AddsJoin(m, r.m, MapPages(r.m, pd, v + 1, n - 1, w + PGSIZE).m, pd);
      }
    }
  }

  lemma AddsNothing(m: Memory, pd: nat)
    requires Owned(m)
    ensures Adds(m, m, pd, TOP)
  {
  }

  // ----- setupkvm -----

  /** The table kmap: first virtual page, number of pages, and first entry of each of its four ranges. */
  function Kmap(data: nat, k: nat): (nat, nat, nat)
    requires 256 < data < TOP && k < 4
  {
    if k == 0 then (USER, 256, Word(0, PTE_W + PTE_P))
    else if k == 1 then (USER + 256, data - 256, Word(256, PTE_P))
    else if k == 2 then (USER + data, TOP - data, Word(data, PTE_W + PTE_P))
    else (0xFE000, 0x2000, Word(0xFE000, PTE_W + PTE_P))
  }

  /** What every address space maps above KERNBASE: low memory, kernel text read-only, kernel data and all of
      physical memory, and the devices. */
  function KernelPte(data: nat, v: nat): nat {
    if USER <= v < USER + TOP then
      Word(v - USER, if USER + 256 <= v < USER + data then PTE_P else PTE_W + PTE_P)
    else if 0xFE000 <= v < VPAGES then Word(v, PTE_W + PTE_P)
    else 0
  }

  lemma KmapIsKernel(data: nat, k: nat, u: nat)
    requires 256 < data < TOP && k < 4
    ensures var (v, n, w) := Kmap(data, k);
      && USER <= v && v + n <= VPAGES && Present(w) && (k < 3 ==> v + n <= Kmap(data, k + 1).0)
      && (v <= u < v + n ==> KernelPte(data, u) == w + (u - v) * PGSIZE)
      && (v + n <= u < VPAGES && (k < 3 ==> u < Kmap(data, k + 1).0) ==> KernelPte(data, u) == 0)
  {
  }

  /** The entries from page v on are clear. */
  ghost predicate ClearFrom(m: Memory, pd: nat, v: nat) {
    forall u: nat :: v <= u < VPAGES ==> Pte(m, pd, u) == 0
  }

  /** The entries are the kernel's from page v on. */
  ghost predicate KernelFrom(m: Memory, pd: nat, v: nat) {
    forall u: nat :: v <= u < VPAGES ==> Pte(m, pd, u) == KernelPte(m.data, u)
  }

  ghost predicate SameBelow(m: Memory, m': Memory, pd: nat, v: nat) {
    forall u: nat :: u < v && u < VPAGES ==> Pte(m', pd, u) == Pte(m, pd, u)
  }

  /** setupkvm's loop over kmap, from range k on. */
  ghost function MapKernel(m: Memory, pd: nat, k: nat): (r: Mapped)
    requires Owned(m) && IsDir(m, pd) && k <= 4 && (k < 4 ==> ClearFrom(m, pd, Kmap(m.data, k).0))
    ensures Owned(r.m) && IsDir(r.m, pd) && Adds(m, r.m, pd, TOP)
    decreases 4 - k
  {
    if k == 4 then Mapped(m, true)
    else
      var (v, n, w) := Kmap(m.data, k);
      KmapIsKernel(m.data, k, v);
      MapPagesEffect(m, pd, v, n, w);
      var r := MapPages(m, pd, v, n, w);
      if r.ok then MapKernel(r.m, pd, k + 1) else r
  }

  lemma {:induction false} MapKernelEffect(m: Memory, pd: nat, k: nat)
    requires Owned(m) && IsDir(m, pd) && k < 4 && ClearFrom(m, pd, Kmap(m.data, k).0)
    ensures MapKernel(m, pd, k).ok ==> KernelFrom(MapKernel(m, pd, k).m, pd, Kmap(m.data, k).0)
    ensures MapKernel(m, pd, k).ok ==> SameBelow(m, MapKernel(m, pd, k).m, pd, Kmap(m.data, k).0)
    decreases 4 - k
  {
    hide ListOk, LabelOk, PdeOk, PteOk, Pte, Pde, Frame, MapPages, Kmap, KernelPte;
    var (v, n, w) := Kmap(m.data, k);
    KmapIsKernel(m.data, k, v);
    MapPagesEffect(m, pd, v, n, w);
    var r := MapPages(m, pd, v, n, w);
    if r.ok && k < 3 {
      MapKernelEffect(r.m, pd, k + 1);
      if MapKernel(r.m, pd, k + 1).ok { KernelJoin(m, r.m, MapKernel(r.m, pd, k + 1).m, pd, k); }
    } else if r.ok {
      assert MapKernel(r.m, pd, k + 1) == Mapped(r.m, true);
      KernelLast(m, r.m, pd);
    }
  }

  lemma KernelJoin(m: Memory, m1: Memory, m2: Memory, pd: nat, k: nat)
    requires 256 < m.data < TOP && m1.data == m.data == m2.data && k < 3 && IsDir(m, pd)
    requires ClearFrom(m, pd, Kmap(m.data, k).0)
    requires var (v, n, w) := Kmap(m.data, k); RangeSet(m, m1, pd, v, n, w)
    requires KernelFrom(m2, pd, Kmap(m.data, k + 1).0) && SameBelow(m1, m2, pd, Kmap(m.data, k + 1).0)
    ensures KernelFrom(m2, pd, Kmap(m.data, k).0) && SameBelow(m, m2, pd, Kmap(m.data, k).0)
  {
    hide Pte, Kmap, KernelPte;
    var (v, n, w) := Kmap(m.data, k);
    forall u: nat | u < VPAGES
      ensures v <= u ==> Pte(m2, pd, u) == KernelPte(m.data, u)
      ensures u < v ==> Pte(m2, pd, u) == Pte(m, pd, u)
    {
      KmapIsKernel(m.data, k, u);
      assert Pte(m1, pd, u) == if v <= u < v + n then w + (u - v) * PGSIZE else Pte(m, pd, u);
    }
  }

  lemma KernelLast(m: Memory, m1: Memory, pd: nat)
    requires 256 < m.data < TOP && m1.data == m.data && IsDir(m, pd) && ClearFrom(m, pd, Kmap(m.data, 3).0)
    requires var (v, n, w) := Kmap(m.data, 3); RangeSet(m, m1, pd, v, n, w)
    ensures KernelFrom(m1, pd, Kmap(m.data, 3).0) && SameBelow(m, m1, pd, Kmap(m.data, 3).0)
  {
    hide Pte, Kmap, KernelPte;
    var (v, n, w) := Kmap(m.data, 3);
    forall u: nat | u < VPAGES
      ensures v <= u ==> Pte(m1, pd, u) == KernelPte(m.data, u)
      ensures u < v ==> Pte(m1, pd, u) == Pte(m, pd, u)
    {
      KmapIsKernel(m.data, 3, u);
      assert Pte(m1, pd, u) == if v <= u < v + n then w + (u - v) * PGSIZE else Pte(m, pd, u);
    }
  }

  function NewDir(m: Memory): Memory
    requires m.free != [] && m.free[0] < |m.mem| && m.free[0] < |m.use|
  {
    m.(mem := m.mem[m.free[0] := Filled(0)], free := m.free[1..], use := m.use[m.free[0] := Dir])
  }

  lemma NewDirOwned(m: Memory)
    requires Owned(m) && m.free != []
    ensures m.first <= m.free[0] < TOP && m.use[m.free[0]] == Free && Owned(NewDir(m))
    ensures ClearFrom(NewDir(m), m.free[0], 0)
    ensures EntriesSame(m, NewDir(m))
  {
    hide Frame, Present;
    ListFirst(m);
    var f, m' := m.free[0], NewDir(m);
    forall p: nat, u: nat | IsDir(m, p) && u < VPAGES ensures Pte(m', p, u) == Pte(m, p, u) { PteApart(m, m', p, u); }
    NewDirClear(m', f);
    forall g: nat | g < TOP ensures LabelOk(m', g) { assert LabelOk(m, g); }
    forall p: nat, e: nat | IsDir(m', p) && e < ENTRIES ensures PdeOk(m', p, e) {
      if p != f { assert PdeOk(m, p, e); }
    }
    forall p: nat, u: nat | IsDir(m', p) && u < USER ensures PteOk(m', p, u) {
      if p != f { assert PteOk(m, p, u); }
    }
  }

  lemma NewDirClear(m: Memory, f: nat)
    requires f < |m.mem| && m.mem[f] == Filled(0)
    ensures forall e: nat :: e < ENTRIES ==> !Present(Pde(m, f, e))
    ensures ClearFrom(m, f, 0)
  {
  }

  /** Frames that are neither free nor part of address space pd. */
  predicate Outside(m: Memory, f: nat, pd: nat)
    requires f < |m.use|
  {
    m.use[f] != Free && !BelongsTo(m, f, pd)
  }

  /** Nothing outside address space pd has changed. */
  ghost predicate Apart(m: Memory, m': Memory, pd: nat) {
    && |m'.use| == |m.use| == |m.mem| == |m'.mem| == TOP && m'.first == m.first && m'.data == m.data
    && (forall f: nat :: f < TOP && (Outside(m, f, pd) || Outside(m', f, pd)) ==>
          m'.use[f] == m.use[f] && m'.mem[f] == m.mem[f])
  }

  /** Everything is as before but the order of the free list and what free frames hold. */
  ghost predicate Restored(m: Memory, m': Memory) {
    && |m'.use| == |m.use| == |m.mem| == |m'.mem| == TOP && m'.first == m.first && m'.data == m.data
    && m'.use == m.use && (forall f: nat :: f < TOP && m.use[f] != Free ==> m'.mem[f] == m.mem[f])
  }

  /** An address space built from free frames only: nothing belonged to it before. */
  ghost predicate Fresh(m: Memory, pd: nat) {
    pd < TOP && |m.use| == TOP && m.use[pd] == Free && forall f: nat :: f < TOP && f != pd ==> !BelongsTo(m, f, pd)
  }

  lemma FreshDir(m: Memory, pd: nat)
    requires Owned(m) && pd < TOP && m.use[pd] == Free
    ensures Fresh(m, pd)
  {
    hide Pte, Pde, ListOk, PdeOk, PteOk;
    forall f: nat | f < TOP && f != pd ensures !BelongsTo(m, f, pd) { assert LabelOk(m, f); }
  }

  /** Freeing a space that was built from free frames gives all of them back. */
  lemma FreevmRestores(m: Memory, m1: Memory, pd: nat)
    requires Owned(m) && Owned(m1) && IsDir(m1, pd) && Fresh(m, pd) && Apart(m, m1, pd)
    ensures Owned(Freevm(m1, pd)) && Restored(m, Freevm(m1, pd))
  {
    hide Owned, Freevm;
    OwnedShape(m1);
    FreevmOwned(m1, pd);
    var m2 := Freevm(m1, pd);
    OwnedShape(m2);
    forall f: nat | f < TOP ensures m2.use[f] == m.use[f] && (m.use[f] != Free ==> m2.mem[f] == m.mem[f]) {
      assert Outside(m, f, pd) <==> m.use[f] != Free;
    }
  }

  lemma OwnedShape(m: Memory)
    requires Owned(m)
    ensures Shape(m)
  {
  }

  datatype Built = Built(m: Memory, pd: Option<nat>)

  ghost function Setupkvm(m: Memory): (r: Built)
    requires Owned(m)
    ensures Owned(r.m)
  {
    if m.free == [] then Built(m, None)
    else
      var pd := m.free[0];
      NewDirOwned(m);
      var r := MapKernel(NewDir(m), pd, 0);
      FreevmOwned(r.m, pd);
      if r.ok then Built(r.m, Some(pd)) else Built(Freevm(r.m, pd), None)
  }

  /** setupkvm builds an address space that maps the kernel and nothing else from free frames, or, when they run
      out on the way, gives every one of them back. */
  lemma SetupkvmBuilds(m: Memory)
    requires Owned(m)
    ensures var r := Setupkvm(m);
      match r.pd
      case None => Restored(m, r.m)
      case Some(pd) => && Fresh(m, pd) && IsDir(r.m, pd) && Apart(m, r.m, pd)
                       && forall v: nat :: v < VPAGES ==> Pte(r.m, pd, v) == KernelPte(m.data, v)
  {
    hide ListOk, LabelOk, PdeOk, PteOk, Pte, Pde, Frame, MapKernel, KernelPte, Freevm;
    if m.free != [] {
      var pd := m.free[0];
      NewDirOwned(m);
      FreshDir(m, pd);
      var m1 := NewDir(m);
      var r := MapKernel(m1, pd, 0);
      MapKernelEffect(m1, pd, 0);
      AddsApart(m, m1, r.m, pd);
      if !r.ok {
        FreevmRestores(m, r.m, pd);
      } else {
        forall v: nat | v < USER ensures KernelPte(m.data, v) == 0 { NoKernelBelow(m.data, v); }
      }
    }
  }

  lemma NoKernelBelow(data: nat, v: nat)
    requires v < USER
    ensures KernelPte(data, v) == 0
  {
  }

  lemma AddsApart(m: Memory, m1: Memory, m2: Memory, pd: nat)
    requires Owned(m) && m.free != [] && m.free[0] == pd && Fresh(m, pd) && m1 == NewDir(m) && Adds(m1, m2, pd, TOP)
    ensures Apart(m, m2, pd)
  {
    hide Owned;
    OwnedShape(m);
  }

  // ----- One new user page -----

  /** kalloc, and the new page filled. */
  function TakePage(m: Memory, page: Page): Memory
    requires m.free != [] && m.free[0] < |m.use| && m.free[0] < |m.mem|
  {
    Kalloc(m).(mem := m.mem[m.free[0] := page])
  }

  lemma TakeOwned(m: Memory, page: Page)
    requires Owned(m) && m.free != []
    ensures m.first <= m.free[0] < TOP && m.use[m.free[0]] == Free && Owned(TakePage(m, page))
    ensures EntriesSame(m, TakePage(m, page))
  {
    hide ListOk, Frame;
    KallocOwned(m);
    var f, m1, m' := m.free[0], Kalloc(m), TakePage(m, page);
    assert ListOk(m') by { ListKept(m1, m'); }
    forall p: nat, u: nat | IsDir(m1, p) && u < VPAGES ensures Pte(m', p, u) == Pte(m1, p, u) == Pte(m, p, u) {
      PteApart(m1, m', p, u);
    }
    forall g: nat | g < TOP ensures LabelOk(m', g) { assert LabelOk(m1, g); }
    forall p: nat, e: nat | IsDir(m', p) && e < ENTRIES ensures PdeOk(m', p, e) { assert PdeOk(m1, p, e); }
    forall p: nat, u: nat | IsDir(m', p) && u < USER ensures PteOk(m', p, u) { assert PteOk(m1, p, u); }
  }

  /** New labels go to tables of pd and to its pages in [lo, hi), all from the free list; of the frames in use only
      the directory and its tables are written. */
  ghost predicate Grows(m: Memory, m': Memory, pd: nat, lo: nat, hi: nat) {
    && |m'.use| == |m.use| == |m.mem| == |m'.mem| == TOP && m'.first == m.first && m'.data == m.data
    && (forall f: nat :: f < TOP ==>
          m'.use[f] == m.use[f] || (m.use[f] == Free && (TableIn(m'.use[f], pd) || UserIn(m'.use[f], pd, lo, hi))))
    && (forall f: nat :: f < TOP && f != pd && m.use[f] != Free && !TableIn(m.use[f], pd) ==> m'.mem[f] == m.mem[f])
  }

  lemma GrowsJoin(m: Memory, m1: Memory, m2: Memory, pd: nat, lo: nat, mid: nat, hi: nat)
    requires lo <= mid <= hi && Grows(m, m1, pd, lo, mid) && Grows(m1, m2, pd, mid, hi)
    ensures Grows(m, m2, pd, lo, hi)
  {
    forall f: nat | f < TOP
      ensures m2.use[f] == m.use[f] || (m.use[f] == Free && (TableIn(m2.use[f], pd) || UserIn(m2.use[f], pd, lo, hi)))
    {
      assert m1.use[f] == m.use[f] || m.use[f] == Free;
    }
    forall f: nat | f < TOP && f != pd && m.use[f] != Free && !TableIn(m.use[f], pd) ensures m2.mem[f] == m.mem[f] {
      assert m1.use[f] == m.use[f];
    }
  }

  lemma PageFits(m: Memory, pd: nat, v: nat, page: Page, flags: nat)
    requires Owned(m) && IsDir(m, pd) && v < USER && !Present(Pte(m, pd, v)) && m.free != [] && flags < PGSIZE
    requires flags % 2 == 1
    ensures m.first <= m.free[0] < TOP && CanMap(TakePage(m, page), pd, v, Word(m.free[0], flags))
  {
    hide ListOk, LabelOk, PdeOk, PteOk, Pte, Frame, Word;
    TakeOwned(m, page);
    WordParts(m.free[0], flags);
  }

  /** A page that has been taken, filled and mapped. */
  lemma PageMapped(m: Memory, pd: nat, v: nat, page: Page, flags: nat)
    requires Owned(m) && IsDir(m, pd) && v < USER && !Present(Pte(m, pd, v)) && m.free != [] && flags < PGSIZE
    requires flags % 2 == 1
    ensures m.first <= m.free[0] < TOP && CanMap(TakePage(m, page), pd, v, Word(m.free[0], flags))
    ensures var f, w := m.free[0], Word(m.free[0], flags);
      var r := MapPage(TakePage(m, page), pd, v, w);
      && m.use[f] == Free && Frame(w) == f && Flags(w) == flags
      && if r.ok then Owned(r.m) && EntrySet(m, r.m, pd, v, w) && Grows(m, r.m, pd, v, v + 1) && r.m.mem[f] == page
          && r.m.use[f] == User(pd, v)
         else r.m == TakePage(m, page)
  {
    hide ListOk, LabelOk, PdeOk, PteOk, Pte, Frame, Word, Flags, MapPage;
    PageFits(m, pd, v, page, flags);
    TakeOwned(m, page);
    WordParts(m.free[0], flags);
    MapPageEffect(TakePage(m, page), pd, v, Word(m.free[0], flags));
  }

  /** A page that has been taken and could not be mapped is given back. */
  lemma PageReturned(m: Memory, page: Page)
    requires Owned(m) && m.free != []
    ensures m.first <= m.free[0] < TOP && Owned(Kfree(TakePage(m, page), m.free[0]))
    ensures Restored(m, Kfree(TakePage(m, page), m.free[0]))
  {
    hide ListOk, LabelOk, PdeOk, PteOk;
    TakeOwned(m, page);
    KfreeOwned(TakePage(m, page), m.free[0]);
    assert m.use[m.free[0] := Kernel][m.free[0] := Free] == m.use;
  }

  // ----- allocuvm -----

  ghost predicate NonePresent(m: Memory, pd: nat, lo: nat, hi: nat) {
    forall u: nat :: lo <= u < hi ==> Pte(m, pd, u) == 0
  }

  /** allocuvm's loop from page lo on; `start` is the first page of the call, from which a failure rolls back. */
  ghost function AllocPages(m: Memory, pd: nat, start: nat, lo: nat, hi: nat): (r: Mapped)
    requires Owned(m) && IsDir(m, pd) && start <= lo <= hi <= USER && NonePresent(m, pd, lo, hi)
    ensures Owned(r.m)
    decreases hi - lo
  {
    if lo == hi then Mapped(m, true)
    else
      UnmapPagesOwned(m, pd, start, hi);
      if m.free == [] then Mapped(UnmapPages(m, pd, start, hi), false)
      else
        PageMapped(m, pd, lo, Filled(0), PTE_W + PTE_U + PTE_P);
        var f := m.free[0];
        var r := MapPage(TakePage(m, Filled(0)), pd, lo, Word(f, PTE_W + PTE_U + PTE_P));
        if r.ok then AllocPages(r.m, pd, start, lo + 1, hi)
        else
          RollbackOwned(m, pd, start, hi);
          Mapped(Kfree(UnmapPages(r.m, pd, start, hi), f), false)
  }

  /** Rolling back with one page still in hand. */
  lemma RollbackOwned(m: Memory, pd: nat, start: nat, hi: nat)
    requires Owned(m) && IsDir(m, pd) && start <= hi <= USER && m.free != []
    ensures m.first <= m.free[0] < TOP && Owned(TakePage(m, Filled(0)))
    ensures var m2 := UnmapPages(TakePage(m, Filled(0)), pd, start, hi);
      && |m2.mem| == TOP == |m2.use| && Owned(m2) && m2.use[m.free[0]] == Kernel && m2.first == m.first
      && Owned(Kfree(m2, m.free[0]))
      && Unmapped(TakePage(m, Filled(0)), m2, pd, start, hi) && EntriesSame(m2, Kfree(m2, m.free[0]))
  {
    hide ListOk, LabelOk, PdeOk, PteOk, UnmapPages;
    TakeOwned(m, Filled(0));
    UnmapPagesOwned(TakePage(m, Filled(0)), pd, start, hi);
    var m2 := UnmapPages(TakePage(m, Filled(0)), pd, start, hi);
    KfreeOwned(m2, m.free[0]);
    KfreeEntries(m2, m.free[0]);
  }

  /** A zeroed user page, readable and writable. */
  ghost predicate ZeroPage(m: Memory, pd: nat, v: nat) {
    var e := Pte(m, pd, v);
    Present(e) && Flags(e) == PTE_W + PTE_U + PTE_P && Frame(e) < |m.mem| && m.mem[Frame(e)] == Filled(0)
  }

  /** The pages of [lo, hi) are new and zero; every other entry is as before. */
  ghost predicate PagesAdded(m: Memory, m': Memory, pd: nat, lo: nat, hi: nat) {
    && (forall u: nat :: lo <= u < hi ==> ZeroPage(m', pd, u))
    && (forall p: nat, u: nat :: IsDir(m, p) && u < VPAGES && !(p == pd && lo <= u < hi) ==>
          Pte(m', p, u) == Pte(m, p, u))
  }

  lemma PagesAddedJoin(m: Memory, m1: Memory, m2: Memory, pd: nat, lo: nat, hi: nat)
    requires Owned(m1) && IsDir(m1, pd) && lo < hi <= USER && Grows(m, m1, pd, lo, lo + 1)
    requires PagesAdded(m, m1, pd, lo, lo + 1)
    requires Grows(m1, m2, pd, lo + 1, hi) && PagesAdded(m1, m2, pd, lo + 1, hi)
    ensures PagesAdded(m, m2, pd, lo, hi)
  {
    hide ListOk, LabelOk, PdeOk, Pte, Frame, Flags;
    assert PteOk(m1, pd, lo);
    forall p: nat, u: nat | IsDir(m, p) && u < VPAGES && !(p == pd && lo <= u < hi)
      ensures Pte(m2, p, u) == Pte(m, p, u)
    {
      assert IsDir(m1, p);
    }
    assert ZeroPage(m1, pd, lo) && Pte(m2, pd, lo) == Pte(m1, pd, lo);
  }

  /** allocuvm gives pages [lo, hi) zeroed frames, or, when memory runs out, takes them all back: the entries are
      as before and the only frames not returned are page tables of the address space itself. */
  lemma {:induction false} AllocPagesEffect(m0: Memory, m: Memory, pd: nat, start: nat, lo: nat, hi: nat)
    requires Owned(m0) && IsDir(m0, pd) && Owned(m) && IsDir(m, pd) && start <= lo <= hi <= USER
    requires NonePresent(m0, pd, start, hi) && NonePresent(m, pd, lo, hi)
    requires Grows(m0, m, pd, start, lo) && PagesAdded(m0, m, pd, start, lo)
    ensures var r := AllocPages(m, pd, start, lo, hi);
      if r.ok then Grows(m, r.m, pd, lo, hi) && PagesAdded(m, r.m, pd, lo, hi) && IsDir(r.m, pd)
      else Adds(m0, r.m, pd, TOP) && EntriesSame(m0, r.m) && IsDir(r.m, pd)
    decreases hi - lo
  {
    hide Owned, Pte, Frame, Flags, MapPage, TakePage, UnmapPages, Word, Kfree, Unmapped;
    OwnedShape(m);
    if lo < hi {
      UnmapPagesOwned(m, pd, start, hi);
      if m.free == [] {
        RolledBack(m0, m, UnmapPages(m, pd, start, hi), pd, start, lo, hi);
      } else {
        PageMapped(m, pd, lo, Filled(0), PTE_W + PTE_U + PTE_P);
        var f := m.free[0];
        var r := MapPage(TakePage(m, Filled(0)), pd, lo, Word(f, PTE_W + PTE_U + PTE_P));
        if r.ok {
          GrowsJoin(m0, m, r.m, pd, start, lo, lo + 1);
          PagesAddedMore(m0, m, r.m, pd, start, lo, Word(f, PTE_W + PTE_U + PTE_P));
          AllocPagesEffect(m0, r.m, pd, start, lo + 1, hi);
          if AllocPages(r.m, pd, start, lo + 1, hi).ok {
            var m2 := AllocPages(r.m, pd, start, lo + 1, hi).m;
            GrowsJoin(m, r.m, m2, pd, lo, lo + 1, hi);
            PagesAddedJoin(m, r.m, m2, pd, lo, hi);
          }
        } else {
          RollbackOwned(m, pd, start, hi);
          RolledBackWith(m0, m, pd, start, lo, hi);
        }
      }
    } else {
      GrowsNothing(m, pd, lo);
    }
  }

  lemma GrowsNothing(m: Memory, pd: nat, lo: nat)
    requires Owned(m)
    ensures Grows(m, m, pd, lo, lo)
  {
  }

  lemma PagesAddedMore(m0: Memory, m: Memory, m1: Memory, pd: nat, start: nat, lo: nat, w: nat)
    requires Owned(m) && IsDir(m, pd) && IsDir(m0, pd) && start <= lo < USER
    requires Grows(m0, m, pd, start, lo) && PagesAdded(m0, m, pd, start, lo)
    requires Grows(m, m1, pd, lo, lo + 1) && EntrySet(m, m1, pd, lo, w) && Present(w)
    requires Flags(w) == PTE_W + PTE_U + PTE_P
    requires Frame(w) < TOP && |m1.mem| == TOP && m1.mem[Frame(w)] == Filled(0)
    ensures PagesAdded(m0, m1, pd, start, lo + 1) && PagesAdded(m, m1, pd, lo, lo + 1) && IsDir(m1, pd)
  {
    hide ListOk, LabelOk, PdeOk, Pte, Frame, Flags;
    forall u: nat | start <= u < lo ensures ZeroPage(m1, pd, u) {
      assert ZeroPage(m, pd, u) && PteOk(m, pd, u);
    }
    forall p: nat, u: nat | IsDir(m0, p) && u < VPAGES && !(p == pd && start <= u < lo + 1)
      ensures Pte(m1, p, u) == Pte(m0, p, u)
    {
      assert IsDir(m, p);
    }
  }

  lemma RolledBack(m0: Memory, m: Memory, m': Memory, pd: nat, start: nat, lo: nat, hi: nat)
    requires Owned(m0) && IsDir(m0, pd) && start <= lo <= hi <= USER && NonePresent(m0, pd, start, hi)
    requires Grows(m0, m, pd, start, lo) && PagesAdded(m0, m, pd, start, lo) && Unmapped(m, m', pd, start, hi)
    ensures Adds(m0, m', pd, TOP) && EntriesSame(m0, m') && IsDir(m', pd)
  {
    hide ListOk, PdeOk, PteOk, Pte, Frame, Flags;
    forall f: nat | f < TOP
      ensures m'.use[f] == m0.use[f] || (m0.use[f] == Free && TableIn(m'.use[f], pd))
      ensures f != pd && m0.use[f] != Free && !TableIn(m0.use[f], pd) ==> m'.mem[f] == m0.mem[f]
    {
      assert LabelOk(m0, f);
      assert m.use[f] == m0.use[f] || m0.use[f] == Free;
    }
    forall p: nat, u: nat | IsDir(m0, p) && u < VPAGES ensures Pte(m', p, u) == Pte(m0, p, u) {
      assert IsDir(m, p);
    }
  }

  lemma RolledBackWith(m0: Memory, m: Memory, pd: nat, start: nat, lo: nat, hi: nat)
    requires Owned(m0) && IsDir(m0, pd) && Owned(m) && IsDir(m, pd) && start <= lo <= hi <= USER
    requires NonePresent(m0, pd, start, hi)
    requires Grows(m0, m, pd, start, lo) && PagesAdded(m0, m, pd, start, lo) && m.free != []
    ensures m.first <= m.free[0] < TOP
    ensures var m2 := UnmapPages(TakePage(m, Filled(0)), pd, start, hi);
      && |m2.mem| == TOP == |m2.use| && Adds(m0, Kfree(m2, m.free[0]), pd, TOP)
      && EntriesSame(m0, Kfree(m2, m.free[0])) && IsDir(Kfree(m2, m.free[0]), pd)
  {
    hide ListOk, LabelOk, PdeOk, PteOk, Pte, UnmapPages;
    RollbackOwned(m, pd, start, hi);
    TakeOwned(m, Filled(0));
    var f, m1 := m.free[0], TakePage(m, Filled(0));
    var m2 := UnmapPages(m1, pd, start, hi);
    var m3 := Kfree(m2, f);
    forall p: nat, u: nat | IsDir(m, p) && u < VPAGES
      ensures Pte(m3, p, u) == if p == pd && start <= u < hi then 0 else Pte(m, p, u)
    {
      assert IsDir(m1, p) && IsDir(m2, p);
    }
    assert Unmapped(m, m3, pd, start, hi);
    RolledBack(m0, m, m3, pd, start, lo, hi);
  }

  // ----- copyuvm -----

  ghost predicate AllPresent(m: Memory, pd: nat, lo: nat, hi: nat) {
    forall u: nat :: lo <= u < hi ==> Present(Pte(m, pd, u))
  }

  lemma UserFrame(m: Memory, pd: nat, v: nat)
    requires Owned(m) && IsDir(m, pd) && v < USER && Present(Pte(m, pd, v))
    ensures Frame(Pte(m, pd, v)) < TOP && m.use[Frame(Pte(m, pd, v))] == User(pd, v)
    ensures Flags(Pte(m, pd, v)) < PGSIZE && Flags(Pte(m, pd, v)) % 2 == 1
  {
    assert PteOk(m, pd, v);
  }

  /** copyuvm at one page: page v of pd is copied into a new frame for d; without memory all of d is freed. */
  ghost function CopyPage(m: Memory, pd: nat, d: nat, v: nat): (r: Mapped)
    requires Owned(m) && IsDir(m, pd) && IsDir(m, d) && v < USER && Present(Pte(m, pd, v)) && !Present(Pte(m, d, v))
    ensures Owned(r.m)
  {
    FreevmOwned(m, d);
    UserFrame(m, pd, v);
    if m.free == [] then Mapped(Freevm(m, d), false)
    else
      var page, flags := m.mem[Frame(Pte(m, pd, v))], Flags(Pte(m, pd, v));
      PageMapped(m, d, v, page, flags);
      var r := MapPage(TakePage(m, page), d, v, Word(m.free[0], flags));
      if r.ok then r
      else
        GiveBack(m, page, d);
        Mapped(Freevm(Kfree(r.m, m.free[0]), d), false)
  }

  lemma GiveBack(m: Memory, page: Page, d: nat)
    requires Owned(m) && IsDir(m, d) && m.free != []
    ensures m.first <= m.free[0] < TOP && IsDir(Kfree(TakePage(m, page), m.free[0]), d)
    ensures Owned(Kfree(TakePage(m, page), m.free[0])) && Owned(Freevm(Kfree(TakePage(m, page), m.free[0]), d))
  {
    hide ListOk, LabelOk, PdeOk, PteOk, Freevm;
    PageReturned(m, page);
    FreevmOwned(Kfree(TakePage(m, page), m.free[0]), d);
  }

  /** copyuvm's loop from page lo on. */
  ghost function CopyPages(m: Memory, pd: nat, d: nat, lo: nat, hi: nat): (r: Mapped)
    requires Owned(m) && IsDir(m, pd) && IsDir(m, d) && pd != d && lo <= hi <= USER
    requires AllPresent(m, pd, lo, hi) && NonePresent(m, d, lo, hi)
    ensures Owned(r.m)
    decreases hi - lo
  {
    if lo == hi then Mapped(m, true)
    else
      CopyPageEffect(m, pd, d, lo);
      var r := CopyPage(m, pd, d, lo);
      if r.ok then CopyPages(r.m, pd, d, lo + 1, hi) else r
  }

  /** Page v of d is a copy of page v of pd in another frame, with the same flags. */
  ghost predicate PageCopied(m: Memory, m': Memory, pd: nat, d: nat, v: nat) {
    var e, e' := Pte(m, pd, v), Pte(m', d, v);
    && Present(e) && Present(e') && Flags(e') == Flags(e) && Frame(e') != Frame(e)
    && Frame(e) < |m.mem| && Frame(e') < |m'.mem| && m'.mem[Frame(e')] == m.mem[Frame(e)]
  }

  ghost predicate PagesCopied(m: Memory, m': Memory, pd: nat, d: nat, lo: nat, hi: nat) {
    && (forall v: nat :: lo <= v < hi ==> PageCopied(m, m', pd, d, v))
    && (forall p: nat, u: nat :: IsDir(m, p) && u < VPAGES && !(p == d && lo <= u < hi) ==>
          Pte(m', p, u) == Pte(m, p, u))
  }

  lemma GrowsApart(m: Memory, m': Memory, pd: nat, lo: nat, hi: nat)
    requires lo <= hi <= USER && IsDir(m, pd) && Grows(m, m', pd, lo, hi)
    ensures Apart(m, m', pd)
  {
  }

  lemma ApartJoin(m: Memory, m1: Memory, m2: Memory, pd: nat)
    requires Apart(m, m1, pd) && Apart(m1, m2, pd)
    ensures Apart(m, m2, pd)
  {
    forall f: nat | f < TOP && (Outside(m, f, pd) || Outside(m2, f, pd))
      ensures m2.use[f] == m.use[f] && m2.mem[f] == m.mem[f]
    {
      if Outside(m, f, pd) { assert Outside(m1, f, pd); } else { assert Outside(m1, f, pd); }
    }
  }

  lemma CopyPageEffect(m: Memory, pd: nat, d: nat, v: nat)
    requires Owned(m) && IsDir(m, pd) && IsDir(m, d) && pd != d && v < USER && Present(Pte(m, pd, v))
    requires !Present(Pte(m, d, v))
    ensures var r := CopyPage(m, pd, d, v);
      r.ok ==> && Grows(m, r.m, d, v, v + 1) && IsDir(r.m, pd) && IsDir(r.m, d) && PagesCopied(m, r.m, pd, d, v, v + 1)
  {
    hide ListOk, LabelOk, PdeOk, PteOk, Pte, Frame, Flags, MapPage, TakePage, Word, Kfree, Freevm;
    UserFrame(m, pd, v);
    if m.free != [] {
      var page, flags := m.mem[Frame(Pte(m, pd, v))], Flags(Pte(m, pd, v));
      PageMapped(m, d, v, page, flags);
      var r := CopyPage(m, pd, d, v);
      if r.ok {
        assert IsDir(r.m, pd) && IsDir(r.m, d);
        assert PageCopied(m, r.m, pd, d, v);
      }
    }
  }

  /** When a page cannot be copied, all of d is given back. m0 is the memory before d was built. */
  lemma CopyPageFails(m0: Memory, m: Memory, pd: nat, d: nat, v: nat)
    requires Owned(m0) && Fresh(m0, d) && Apart(m0, m, d)
    requires Owned(m) && IsDir(m, pd) && IsDir(m, d) && v < USER && Present(Pte(m, pd, v)) && !Present(Pte(m, d, v))
    ensures !CopyPage(m, pd, d, v).ok ==> Restored(m0, CopyPage(m, pd, d, v).m)
  {
    hide Owned, Pte, Frame, Flags, MapPage, TakePage, Word, Kfree, Freevm, Fresh, Apart, Restored;
    OwnedShape(m);
    UserFrame(m, pd, v);
    if m.free == [] {
      FreevmRestores(m0, m, d);
    } else {
      var page, flags := m.mem[Frame(Pte(m, pd, v))], Flags(Pte(m, pd, v));
      PageMapped(m, d, v, page, flags);
      PageReturned(m, page);
      TakeOwned(m, page);
      OwnedShape(TakePage(m, page));
      var m1 := Kfree(TakePage(m, page), m.free[0]);
      RestoredApart(m0, m, m1, d);
      FreevmRestores(m0, m1, d);
    }
  }

  /** The copy is complete, or the whole of d is given back. */
  lemma {:induction false} CopyPagesEffect(m0: Memory, m: Memory, pd: nat, d: nat, lo: nat, hi: nat)
    requires Owned(m0) && Fresh(m0, d) && Apart(m0, m, d)
    requires Owned(m) && IsDir(m, pd) && IsDir(m, d) && pd != d && lo <= hi <= USER
    requires AllPresent(m, pd, lo, hi) && NonePresent(m, d, lo, hi)
    ensures var r := CopyPages(m, pd, d, lo, hi);
      if r.ok then Grows(m, r.m, d, lo, hi) && PagesCopied(m, r.m, pd, d, lo, hi) else Restored(m0, r.m)
    decreases hi - lo
  {
    hide Owned, Pte, Frame, Flags, CopyPage, Fresh, Apart;
    if lo == hi {
      GrowsNothing(m, d, lo);
    } else {
      CopyPageEffect(m, pd, d, lo);
      CopyPageFails(m0, m, pd, d, lo);
      var r := CopyPage(m, pd, d, lo);
      if r.ok {
        GrowsApart(m, r.m, d, lo, lo + 1);
        ApartJoin(m0, m, r.m, d);
        CopyPagesEffect(m0, r.m, pd, d, lo + 1, hi);
        if CopyPages(r.m, pd, d, lo + 1, hi).ok {
          var m2 := CopyPages(r.m, pd, d, lo + 1, hi).m;
          GrowsJoin(m, r.m, m2, d, lo, lo + 1, hi);
          CopiedJoin(m, r.m, m2, pd, d, lo, hi);
        }
      }
    }
  }

  lemma CopiedJoin(m: Memory, m1: Memory, m2: Memory, pd: nat, d: nat, lo: nat, hi: nat)
    requires Owned(m) && Owned(m1) && IsDir(m, pd) && IsDir(m, d) && IsDir(m1, pd) && IsDir(m1, d) && pd != d
    requires lo < hi <= USER
    requires AllPresent(m, pd, lo, hi) && Grows(m, m1, d, lo, lo + 1) && PagesCopied(m, m1, pd, d, lo, lo + 1)
    requires Grows(m1, m2, d, lo + 1, hi) && PagesCopied(m1, m2, pd, d, lo + 1, hi)
    ensures PagesCopied(m, m2, pd, d, lo, hi)
  {
    hide ListOk, LabelOk, PdeOk, Pte, Frame, Flags;
    assert PageCopied(m, m1, pd, d, lo);
    UserFrame(m1, d, lo);
    assert Pte(m2, d, lo) == Pte(m1, d, lo);
    assert PageCopied(m, m2, pd, d, lo);
    forall v: nat | lo + 1 <= v < hi ensures PageCopied(m, m2, pd, d, v) {
      assert PageCopied(m1, m2, pd, d, v);
      UserFrame(m, pd, v);
    }
    forall p: nat, u: nat | IsDir(m, p) && u < VPAGES && !(p == d && lo <= u < hi)
      ensures Pte(m2, p, u) == Pte(m, p, u)
    {
      assert IsDir(m1, p);
    }
  }

  lemma RestoredApart(m0: Memory, m: Memory, m': Memory, d: nat)
    requires Owned(m) && Owned(m') && IsDir(m, d) && Apart(m0, m, d) && Restored(m, m')
    ensures Apart(m0, m', d) && IsDir(m', d)
  {
    hide ListOk, LabelOk, PdeOk, PteOk;
  }
}

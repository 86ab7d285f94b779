/** kalloc.c and vm.c as procedures on the memory they change.

    Each procedure is proved equal to its function in Frames or Spaces, so what is proved about those functions
    holds of the procedures.  The lemmas after the class take one round of a loop at a time: they say that the
    function of the whole range is the function of the rest applied after one round, and that the skip over an
    absent page table leaves the function's value as it is. */
module Vm {
  import opened Prelude
  import opened Frames
  import opened Spaces
  import opened Sizes

  /** The table was there, or is the first free frame. */
  ghost predicate Walked(m: Memory, m': Memory, pd: nat, d: nat) {
    if Present(Pde(m, pd, d)) then m' == m
    else
      && m.free != [] && m.free[0] < |m.use| && m.free[0] < |m.mem| && pd < |m.mem| && d < ENTRIES
      && m' == AddTable(m, pd, d)
  }

  class PhysicalMemory {
    var mem: seq<Page>
    var freelist: seq<nat>
    ghost var use: seq<Use>
    const first: nat
    const data: nat

    ghost function State(): Memory
      reads this
    {
      Memory(mem, freelist, use, first, data)
    }

    /** Before kinit: nothing has been given to the allocator. */
    constructor (contents: seq<Page>, first: nat, data: nat)
      requires |contents| == TOP && 256 < data < first <= TOP
      ensures Owned(State()) && mem == contents && freelist == [] && this.first == first && this.data == data
      ensures forall f: nat :: f < TOP ==> use[f] == Kernel
    {
      mem := contents;
      freelist := [];
      use := seq(TOP, _ => Kernel);
      this.first := first;
      this.data := data;
    }

    // ----- kalloc.c -----

    method Kfree(f: nat)
      requires |mem| == |use| == TOP && first <= f < TOP
      modifies this
      ensures State() == Frames.Kfree(old(State()), f)
    {
      mem := mem[f := Filled(JUNK_WORD)];
      freelist := [f] + freelist;
      use := use[f := Free];
    }

    method Kalloc() returns (r: Option<nat>)
      requires Owned(State())
      modifies this
      ensures Owned(State())
      ensures if r.None? then old(freelist) == [] && State() == old(State())
              else
                && old(freelist) != [] && r.value == old(freelist)[0] && r.value < |old(use)|
                && State() == Frames.Kalloc(old(State()))
    {
      if freelist == [] { return None; }
      KallocOwned(State());
      r := Some(freelist[0]);
      use := use[freelist[0] := Kernel];
      freelist := freelist[1..];
    }

    /** freerange gives every page of a range of kernel frames to the allocator. */
    method Freerange(lo: nat, hi: nat)
      requires Owned(State()) && first <= lo <= hi <= TOP && forall f: nat :: lo <= f < hi ==> use[f] == Kernel
      modifies this
      ensures Owned(State())
      ensures forall f: nat :: f < TOP ==> use[f] == if lo <= f < hi then Free else old(use[f])
      ensures forall f: nat :: f < TOP ==> mem[f] == if lo <= f < hi then Filled(JUNK_WORD) else old(mem[f])
    {
      hide ListOk, LabelOk, PdeOk, PteOk;
      var p := lo;
      while p + 1 <= hi
        invariant lo <= p <= hi && Owned(State())
        invariant forall f: nat :: f < TOP ==> use[f] == if lo <= f < p then Free else old(use[f])
        invariant forall f: nat :: f < TOP ==> mem[f] == if lo <= f < p then Filled(JUNK_WORD) else old(mem[f])
      {
        KfreeOwned(State(), p);
        Kfree(p);
        p := p + 1;
      }
    }

    // ----- vm.c -----

    /** The frame of the page table for page v, made when asked for and absent. */
    method Walkpgdir(pd: nat, v: nat, alloc: bool) returns (table: Option<nat>)
      requires Owned(State()) && IsDir(State(), pd) && v < VPAGES
      modifies this
      ensures Owned(State()) && IsDir(State(), pd)
      ensures table.None? <==> !Present(Pde(State(), pd, v / ENTRIES))
      ensures table.Some? ==> table.value == TableOf(State(), pd, v) < TOP
      ensures table.None? ==> State() == old(State()) && (alloc ==> freelist == [])
      ensures table.Some? ==> Walked(old(State()), State(), pd, v / ENTRIES)
      ensures table.Some? && !alloc ==> State() == old(State())
    {
      hide ListOk, LabelOk, PteOk, Pte, Frame;
      var d := v / ENTRIES;
      if Present(mem[pd][d]) {
        TableIs(State(), pd, v);
        return Some(Frame(mem[pd][d]));
      }
      if !alloc || freelist == [] { return None; }
      AddTableEntries(State(), pd, d);
      AddTableOwned(State(), pd, d);
      var f := freelist[0];
      freelist := freelist[1..];
      mem := mem[f := Filled(0)];
      mem := mem[pd := mem[pd][d := Word(f, PTE_P + PTE_W + PTE_U)]];
      use := use[f := Table(pd, d)];
      return Some(f);
    }

    /** mappages at one page. */
    method MapOne(pd: nat, v: nat, w: nat) returns (ok: bool)
      requires CanMap(State(), pd, v, w)
      modifies this
      ensures State() == MapPage(old(State()), pd, v, w).m && ok == MapPage(old(State()), pd, v, w).ok
    {
      hide ListOk, LabelOk, PdeOk, PteOk, Pte, Pde;
      var t := Walkpgdir(pd, v, true);
      if t.None? { return false; }
      mem := mem[t.value := mem[t.value][v % ENTRIES := w]];
      if v < USER { use := use[Frame(w) := User(pd, v)]; }
      return true;
    }

    /** mappages over n kernel pages. */
    method Mappages(pd: nat, v: nat, n: nat, w: nat) returns (ok: bool)
      requires Owned(State()) && IsDir(State(), pd) && USER <= v && v + n <= VPAGES && Present(w)
      requires forall u: nat :: v <= u < v + n ==> !Present(Pte(State(), pd, u))
      modifies this
      ensures State() == MapPages(old(State()), pd, v, n, w).m && ok == MapPages(old(State()), pd, v, n, w).ok
    {
      hide Owned, Pte, Pde, MapPage;
      var i := 0;
      while i < n
        invariant i <= n && Owned(State()) && IsDir(State(), pd) && Present(w + i * PGSIZE)
        invariant forall u: nat :: v + i <= u < v + n ==> !Present(Pte(State(), pd, u))
        invariant MapPages(old(State()), pd, v, n, w) == MapPages(State(), pd, v + i, n - i, w + i * PGSIZE)
      {
        MapPageEffect(State(), pd, v + i, w + i * PGSIZE);
        ok := MapOne(pd, v + i, w + i * PGSIZE);
        if !ok { return; }
        i := i + 1;
      }
      return true;
    }

    /** deallocuvm.  Where the directory has no table it skips to the next one; the outcome is that of
        the page-by-page walk. */
    method Deallocuvm(pd: nat, oldsz: nat, newsz: nat) returns (sz: nat)
      requires Owned(State()) && IsDir(State(), pd) && oldsz <= KERNBASE
      modifies this
      ensures Resized(State(), sz) == Sizes.Deallocuvm(old(State()), pd, oldsz, newsz)
      ensures Owned(State()) && IsDir(State(), pd)
    {
      hide ListOk, LabelOk, PdeOk, PteOk, Pte, Pde, UnmapPage, UnmapPages, Frame, Pages;
      if newsz >= oldsz { return oldsz; }
      PagesOrder(newsz, oldsz);
      var p := Pages(newsz);
      ghost var hi := Pages(oldsz);
      while p * PGSIZE < oldsz
        invariant Owned(State()) && IsDir(State(), pd)
        invariant UnmapPages(old(State()), pd, Pages(newsz), hi) == UnmapPages(State(), pd, p, hi)
        decreases oldsz - p * PGSIZE
      {
        PageBelow(p, oldsz);
        ghost var m := State();
        var t := Walkpgdir(pd, p, false);
        if t.None? {
          SkipToTable(m, pd, p, hi);
          p := (p / ENTRIES + 1) * ENTRIES - 1;
        } else {
          UnmapHere(m, pd, p, hi);
          if Present(mem[t.value][p % ENTRIES]) {
            Kfree(Frame(mem[t.value][p % ENTRIES]));
            mem := mem[t.value := mem[t.value][p % ENTRIES := 0]];
          }
        }
        p := p + 1;
      }
      PageAbove(p, oldsz);
      UnmapDone(State(), pd, p, hi);
      return newsz;
    }

    method Freevm(pd: nat)
      requires Owned(State()) && IsDir(State(), pd)
      modifies this
      ensures |old(mem)| == |old(use)| == TOP && State() == Frames.Freevm(old(State()), pd)
      ensures Owned(State())
    {
      hide ListOk, LabelOk, PdeOk, PteOk, Pte, UnmapPages, FreeTables, Frame;
      FreevmOwned(State(), pd);
      DirUsable(State(), pd);
      UserPages();
      UnmapPagesOwned(State(), pd, 0, USER);
      var _ := Deallocuvm(pd, KERNBASE, 0);
      ghost var m1 := State();
      DissolveOwned(m1, pd);
      use := Dissolve(m1, pd).use;
      ghost var m2 := State();
      var i := 0;
      while i < ENTRIES
        invariant i <= ENTRIES && Owned(State()) && Dissolved(m1, State(), pd, i)
        invariant FreeTables(m2, pd, 0) == FreeTables(State(), pd, i)
      {
        FreeTablesStep(m1, State(), pd, i);
        if Present(mem[pd][i]) { Kfree(Frame(mem[pd][i])); }
        i := i + 1;
      }
      TablesDone(State(), pd);
      Kfree(pd);
    }

    method Setupkvm() returns (r: Option<nat>)
      requires Owned(State())
      modifies this
      ensures Built(State(), r) == Spaces.Setupkvm(old(State()))
      ensures Owned(State())
    {
      hide ListOk, LabelOk, PdeOk, PteOk, Pte, Pde, Frame, MapPages, MapKernel, Kmap, Frames.Freevm;
      if freelist == [] { return None; }
      NewDirOwned(State());
      var pd := freelist[0];
      freelist := freelist[1..];
      mem := mem[pd := Filled(0)];
      use := use[pd := Dir];
      ghost var m1 := State();
      var k := 0;
      while k < 4
        invariant k <= 4 && Owned(State()) && IsDir(State(), pd) && (k < 4 ==> ClearFrom(State(), pd, Kmap(data, k).0))
        invariant MapKernel(m1, pd, 0) == MapKernel(State(), pd, k)
      {
        var (v, n, w) := Kmap(data, k);
        KernelStep(State(), pd, k);
        var ok := Mappages(pd, v, n, w);
        if !ok {
          Freevm(pd);
          return None;
        }
        k := k + 1;
      }
      KernelDone(State(), pd);
      return Some(pd);
    }

    method Allocuvm(pd: nat, oldsz: nat, newsz: nat) returns (sz: nat)
      requires Owned(State()) && Bounded(State(), pd, oldsz)
      modifies this
      ensures Resized(State(), sz) == Sizes.Allocuvm(old(State()), pd, oldsz, newsz)
      ensures Owned(State())
    {
      hide Owned, Pte, Pde, Frame, MapPage, UnmapPages, Pages, AllocPages, Word, Frames.Kfree;
      if newsz >= KERNBASE { return 0; }
      if newsz < oldsz { return oldsz; }
      PagesOrder(oldsz, newsz);
      ghost var lo, hi := Pages(oldsz), Pages(newsz);
      var p := Pages(oldsz);
      while p * PGSIZE < newsz
        invariant lo <= p <= hi && Owned(State()) && IsDir(State(), pd) && NonePresent(State(), pd, p, hi)
        invariant AllocPages(old(State()), pd, lo, lo, hi) == AllocPages(State(), pd, lo, p, hi)
        decreases newsz - p * PGSIZE
      {
        PageBelow(p, newsz);
        ghost var m := State();
        OwnedShape(m);
        AllocStep(m, pd, lo, p, hi);
        var page := Kalloc();
        if page.None? {
          var _ := Deallocuvm(pd, newsz, oldsz);
          return 0;
        }
        mem := mem[page.value := Filled(0)];
        var ok := MapOne(pd, p, Word(page.value, PTE_W + PTE_U + PTE_P));
        if !ok {
          var _ := Deallocuvm(pd, newsz, oldsz);
          OwnedShape(State());
          Kfree(page.value);
          return 0;
        }
        p := p + 1;
      }
      PageAbove(p, newsz);
      AllocDone(State(), pd, lo, hi);
      return newsz;
    }

    /** copyuvm; the result is None when it panics, at a page that is not there. */
    method Copyuvm(pd: nat, sz: nat) returns (r: Option<Option<nat>>)
      requires Owned(State()) && Bounded(State(), pd, sz)
      modifies this
      ensures match Sizes.Copyuvm(old(State()), pd, sz)
              case Panic => r.None?
              case Copying(m, d) => r == Some(d) && State() == m && Owned(m)
    {
      hide Owned, Pte, Pde, Frame, Flags, MapPage, Spaces.Setupkvm, CopyPages, CopyPage, Word, Frames.Kfree,
          Frames.Freevm,
        Pages, Fresh, Apart, KernelPte, FirstAbsent;
      ghost var m0 := State();
      SetupkvmBuilds(m0);
      PagesOrder(sz, sz);
      var b := Setupkvm();
      if b.None? { return Some(None); }
      var d := b.value;
      CopyReady(m0, State(), pd, d);
      ghost var m1, hi := State(), Pages(sz);
      ghost var a := FirstAbsent(m0, pd, 0, hi);
      var p := 0;
      while p * PGSIZE < sz
        invariant p <= a && Owned(State()) && IsDir(State(), pd) && IsDir(State(), d) && pd != d
        invariant forall v: nat :: v < VPAGES ==> Pte(State(), pd, v) == Pte(m0, pd, v)
        invariant AllPresent(State(), pd, p, a) && NonePresent(State(), d, p, USER)
        invariant CopyPages(m1, pd, d, 0, a) == CopyPages(State(), pd, d, p, a)
        decreases sz - p * PGSIZE
      {
        PageBelow(p, sz);
        OwnedShape(State());
        var table := Walkpgdir(pd, p, false);
        UserEntry(State(), pd, p);
        if table.None? || !Present(mem[table.value][p % ENTRIES]) {
          CopyDone(State(), pd, d, p);
          return None;
        }
        CopyStep(State(), pd, d, p, a);
        var ok := CopyOne(pd, d, p);
        if !ok { return Some(None); }
        p := p + 1;
      }
      PageAbove(p, sz);
      CopyDone(State(), pd, d, hi);
      return Some(Some(d));
    }

    /** The body of copyuvm's loop, with its rollback. */
    method CopyOne(pd: nat, d: nat, v: nat) returns (ok: bool)
      requires Owned(State()) && IsDir(State(), pd) && IsDir(State(), d) && v < USER
      requires Present(Pte(State(), pd, v)) && !Present(Pte(State(), d, v))
      modifies this
      ensures Mapped(State(), ok) == CopyPage(old(State()), pd, d, v)
    {
      hide Owned, Pte, Pde, Frame, Flags, MapPage, Word, Frames.Freevm;
      ghost var m := State();
      OwnedShape(m);
      UserFrame(m, pd, v);
      UserEntry(m, pd, v);
      var t := Walkpgdir(pd, v, false);
      var e := mem[t.value][v % ENTRIES];
      var bytes := mem[Frame(e)];
      var page := Kalloc();
      if page.None? {
        Freevm(d);
        return false;
      }
      PageMapped(m, d, v, bytes, Flags(e));
      GiveBack(m, bytes, d);
      mem := mem[page.value := bytes];
      ok := MapOne(d, v, Word(page.value, Flags(e)));
      if !ok {
        Kfree(page.value);
        Freevm(d);
      }
    }

    /** growproc, for a process with page directory pd and size sz. */
    method Growproc(pd: nat, sz: nat, n: int) returns (size: nat, ok: bool)
      requires Owned(State()) && Bounded(State(), pd, sz) && -0x8000_0000 <= n < 0x8000_0000
      modifies this
      ensures (State(), size, ok) == Sizes.Growproc(old(State()), pd, sz, n)
    {
      hide Owned, Sizes.Allocuvm, Sizes.Deallocuvm, NonePresent;
      size := sz;
      if n > 0 {
        size := Allocuvm(pd, sz, AddSize(sz, n));
        if size == 0 { return sz, false; }
      } else if n < 0 {
        size := Deallocuvm(pd, sz, AddSize(sz, n));
        if size == 0 { return sz, false; }
      }
      return size, true;
    }
  }

  /** The entry of a page, as the walk finds it. */
  lemma UserEntry(m: Memory, pd: nat, v: nat)
    requires Owned(m) && IsDir(m, pd) && v < USER
    ensures !Present(Pde(m, pd, v / ENTRIES)) ==> Pte(m, pd, v) == 0
    ensures Present(Pde(m, pd, v / ENTRIES)) ==>
      TableOf(m, pd, v) < |m.mem| && Pte(m, pd, v) == m.mem[TableOf(m, pd, v)][v % ENTRIES]
  {
    assert PdeOk(m, pd, v / ENTRIES);
  }

  /** One round of copyuvm's loop. */
  lemma CopyStep(m: Memory, pd: nat, d: nat, lo: nat, hi: nat)
    requires Owned(m) && IsDir(m, pd) && IsDir(m, d) && pd != d && lo < hi <= USER
    requires AllPresent(m, pd, lo, hi) && NonePresent(m, d, lo, USER)
    ensures Present(Pte(m, pd, lo)) && !Present(Pte(m, d, lo))
    ensures var r := CopyPage(m, pd, d, lo);
      if r.ok then
        && Owned(r.m) && IsDir(r.m, pd) && IsDir(r.m, d) && NonePresent(r.m, d, lo + 1, USER)
        && (forall v: nat :: v < VPAGES ==> Pte(r.m, pd, v) == Pte(m, pd, v))
        && CopyPages(m, pd, d, lo, hi) == CopyPages(r.m, pd, d, lo + 1, hi)
      else CopyPages(m, pd, d, lo, hi) == r
  {
    hide Owned, Pte, Pde, Frame, Flags, CopyPage, Grows;
    CopyPageEffect(m, pd, d, lo);
  }

  lemma CopyDone(m: Memory, pd: nat, d: nat, hi: nat)
    requires Owned(m) && IsDir(m, pd) && IsDir(m, d) && pd != d && hi <= USER && AllPresent(m, pd, hi, hi)
    requires NonePresent(m, d, hi, hi)
    ensures CopyPages(m, pd, d, hi, hi) == Mapped(m, true)
  {
    hide Owned;
  }

  lemma UserPages()
    ensures Pages(KERNBASE) == USER && Pages(0) == 0
  {
  }

  lemma FreeTablesStep(m1: Memory, m: Memory, pd: nat, i: nat)
    requires Owned(m1) && IsDir(m1, pd) && Owned(m) && Dissolved(m1, m, pd, i) && i < ENTRIES
    ensures pd < |m.mem|
    ensures FreeTables(m, pd, i) == FreeTables(if Present(Pde(m, pd, i))
        && Frame(Pde(m, pd, i)) < TOP then Frames.Kfree(m, Frame(Pde(m, pd, i))) else m, pd, i + 1)
    ensures if Present(Pde(m, pd, i)) then m.first <= Frame(Pde(m, pd, i)) < TOP
        && Owned(Frames.Kfree(m, Frame(Pde(m, pd, i))))
            && Dissolved(m1, Frames.Kfree(m, Frame(Pde(m, pd, i))), pd, i + 1)
            else Dissolved(m1, m, pd, i + 1)
  {
    hide ListOk, Pte, PteOk, Frame;
    assert PdeOk(m1, pd, i) && Pde(m, pd, i) == Pde(m1, pd, i);
    var f := Frame(Pde(m, pd, i));
    forall g: nat | g < TOP && TableIn(m1.use[g], pd) && m1.use[g].d == i ensures Present(Pde(m, pd, i)) && g == f {
      assert LabelOk(m1, g);
    }
    if Present(Pde(m, pd, i)) {
      assert LabelOk(m1, f);
      KfreeOwned(m, f);
    }
  }

  lemma TablesDone(m: Memory, pd: nat)
    ensures FreeTables(m, pd, ENTRIES) == m
  {
  }

  /** One range of kmap. */
  lemma KernelStep(m: Memory, pd: nat, k: nat)
    requires Owned(m) && IsDir(m, pd) && k < 4 && ClearFrom(m, pd, Kmap(m.data, k).0)
    ensures var (v, n, w) := Kmap(m.data, k);
      && USER <= v && v + n <= VPAGES && Present(w) && (forall u: nat :: v <= u < v + n ==> !Present(Pte(m, pd, u)))
      && var r := MapPages(m, pd, v, n, w);
         && r.m.data == m.data
         && if r.ok then (k < 3 ==>
             ClearFrom(r.m, pd, Kmap(m.data, k + 1).0)) && MapKernel(m, pd, k) == MapKernel(r.m, pd, k + 1)
            else MapKernel(m, pd, k) == r
  {
    hide ListOk, LabelOk, PdeOk, PteOk, Pte, Pde, Frame, MapPages, Kmap;
    var (v, n, w) := Kmap(m.data, k);
    KmapIsKernel(m.data, k, v);
    MapPagesEffect(m, pd, v, n, w);
  }

  lemma KernelDone(m: Memory, pd: nat)
    requires Owned(m) && IsDir(m, pd)
    ensures MapKernel(m, pd, 4) == Mapped(m, true)
  {
    hide Owned;
  }

  /** One round of allocuvm's loop. */
  lemma AllocStep(m: Memory, pd: nat, start: nat, lo: nat, hi: nat)
    requires Owned(m) && IsDir(m, pd) && start <= lo < hi <= USER && NonePresent(m, pd, lo, hi)
    ensures m.free == [] ==> AllocPages(m, pd, start, lo, hi) == Mapped(UnmapPages(m, pd, start, hi), false)
    ensures m.free != [] ==>
      && m.free[0] < |m.mem| == TOP == |m.use|
      && CanMap(TakePage(m, Filled(0)), pd, lo, Word(m.free[0], PTE_W + PTE_U + PTE_P))
      && var r := MapPage(TakePage(m, Filled(0)), pd, lo, Word(m.free[0], PTE_W + PTE_U + PTE_P));
         if r.ok then NonePresent(r.m, pd, lo + 1, hi)
             && AllocPages(m, pd, start, lo, hi) == AllocPages(r.m, pd, start, lo + 1, hi)
         else var m2 := UnmapPages(r.m, pd, start, hi);
              && m.first <= m.free[0] < |m2.mem| == |m2.use| == TOP
              && AllocPages(m, pd, start, lo, hi) == Mapped(Frames.Kfree(m2, m.free[0]), false)
  {
    hide Owned, Pte, Pde, Frame, Flags, MapPage, TakePage, UnmapPages, Word, Frames.Kfree, Grows;
    OwnedShape(m);
    if m.free != [] {
      PageMapped(m, pd, lo, Filled(0), PTE_W + PTE_U + PTE_P);
      RollbackOwned(m, pd, start, hi);
    }
  }

  lemma AllocDone(m: Memory, pd: nat, start: nat, hi: nat)
    requires Owned(m) && IsDir(m, pd) && start <= hi <= USER && NonePresent(m, pd, hi, hi)
    ensures AllocPages(m, pd, start, hi, hi) == Mapped(m, true)
  {
    hide Owned;
  }

  lemma PageBelow(p: nat, sz: nat)
    requires p * PGSIZE < sz <= KERNBASE
    ensures p < Pages(sz) <= USER
  {
  }

  lemma PageAbove(p: nat, sz: nat)
    requires p * PGSIZE >= sz
    ensures p >= Pages(sz)
  {
  }

  lemma UnmapDone(m: Memory, pd: nat, p: nat, hi: nat)
    requires p >= hi
    ensures UnmapPages(m, pd, p, hi) == m
  {
  }

  /** No table for page p: the walk may go on at the first page of the next directory entry. */
  lemma SkipToTable(m: Memory, pd: nat, p: nat, hi: nat)
    requires p < hi && !Present(Pde(m, pd, p / ENTRIES))
    ensures var next := (p / ENTRIES + 1) * ENTRIES;
            next > p && UnmapPages(m, pd, p, hi) == UnmapPages(m, pd, next, hi)
  {
    hide Pde, UnmapPage, UnmapPages, Present;
    var next := (p / ENTRIES + 1) * ENTRIES;
    var stop := Min(next, hi);
    forall v | p <= v < stop ensures !Present(Pde(m, pd, v / ENTRIES)) { SameTable(p, v); }
    SkipTable(m, pd, p, stop);
    UnmapSplit(m, pd, p, stop, hi);
    if next > hi { UnmapDone(m, pd, next, hi); UnmapDone(m, pd, stop, hi); }
  }

  lemma SameTable(p: nat, v: nat)
    requires p <= v < (p / ENTRIES + 1) * ENTRIES
    ensures v / ENTRIES == p / ENTRIES
  {
  }

  /** One step of the walk, where there is a table. */
  lemma UnmapHere(m: Memory, pd: nat, p: nat, hi: nat)
    requires Owned(m) && IsDir(m, pd) && p < hi <= USER && Present(Pde(m, pd, p / ENTRIES))
    ensures UnmapPages(m, pd, p, hi) == UnmapPages(UnmapPage(m, pd, p), pd, p + 1, hi)
    ensures Owned(UnmapPage(m, pd, p)) && IsDir(UnmapPage(m, pd, p), pd) && TableOf(m, pd, p) < TOP
    ensures Pte(m, pd, p) == m.mem[TableOf(m, pd, p)][p % ENTRIES]
    ensures !Present(Pte(m, pd, p)) ==> UnmapPage(m, pd, p) == m
    ensures Present(Pte(m, pd, p)) ==> m.first <= Frame(Pte(m, pd, p)) < TOP
    ensures Present(Pte(m, pd, p)) ==>
      var m1 := Frames.Kfree(m, Frame(Pte(m, pd, p)));
      UnmapPage(m, pd, p) == m1.(mem := m1.mem[TableOf(m, pd, p) := m1.mem[TableOf(m, pd, p)][p % ENTRIES := 0]])
  {
    hide ListOk, LabelOk, PdeOk, PteOk, Frame;
    TableIs(m, pd, p);
    UnmapPageOwned(m, pd, p);
    UnmapOne(m, pd, p);
    if Present(Pte(m, pd, p)) { UnmapOrder(m, pd, p); }
  }
}

/** Address spaces by their size in bytes (vm.c, proc.c): copyuvm, allocuvm, deallocuvm and growproc.

    A space is `Bounded` by a size when nothing is mapped between that size and KERNBASE; this holds of every
    process.  It is `Sized` when also every page below is there, which growproc does not always keep. */
module Sizes {
  import opened Prelude
  import opened Frames
  import opened Spaces

  const KERNBASE: nat := USER * PGSIZE

  /** Pages that a size in bytes reaches into: PGROUNDUP(sz) / PGSIZE. */
  function Pages(sz: nat): nat { (sz + PGSIZE - 1) / PGSIZE }

  lemma PagesOrder(a: nat, b: nat)
    requires a <= b <= KERNBASE
    ensures Pages(a) <= Pages(b) <= USER && (Pages(b) == 0 <==> b == 0)
  {
  }

  /** No user page from the size on is mapped. */
  ghost predicate Bounded(m: Memory, pd: nat, sz: nat) {
    IsDir(m, pd) && sz <= KERNBASE && NonePresent(m, pd, Pages(sz), USER)
  }

  /** The user part of an address space of the given size: its pages are there, and no others. */
  ghost predicate Sized(m: Memory, pd: nat, sz: nat) {
    Bounded(m, pd, sz) && AllPresent(m, pd, 0, Pages(sz))
  }

  // ----- copyuvm -----

  /** What copyuvm comes to: a child, no memory (None), or one of its panics, at a page that is not there. */
  datatype Copying = Copying(m: Memory, pd: Option<nat>) | Panic

  /** The first page from lo on that is not present, or hi. */
  function FirstAbsent(m: Memory, pd: nat, lo: nat, hi: nat): (a: nat)
    requires lo <= hi
    ensures lo <= a <= hi && (forall u: nat :: lo <= u < a ==> Present(Pte(m, pd, u)))
    ensures a < hi ==> !Present(Pte(m, pd, a))
    decreases hi - lo
  {
    if lo == hi || !Present(Pte(m, pd, lo)) then lo else FirstAbsent(m, pd, lo + 1, hi)
  }

  /** copyuvm: the kernel part, then page by page, up to the end or to a page that is not there. */
  ghost function Copyuvm(m: Memory, pd: nat, sz: nat): (r: Copying)
    requires Owned(m) && Bounded(m, pd, sz)
    ensures r.Copying? ==> Owned(r.m)
  {
    var b := Setupkvm(m);
    SetupkvmBuilds(m);
    if b.pd.None? then Copying(b.m, None)
    else
      var d := b.pd.value;
      PagesOrder(sz, sz);
      CopyReady(m, b.m, pd, d);
      var a := FirstAbsent(m, pd, 0, Pages(sz));
      var r := CopyPages(b.m, pd, d, 0, a);
      if !r.ok then Copying(r.m, None) else if a < Pages(sz) then Panic else Copying(r.m, Some(d))
  }

  /** The parent is untouched by setupkvm. */
  lemma CopyReady(m: Memory, m1: Memory, pd: nat, d: nat)
    requires Owned(m) && Owned(m1) && IsDir(m, pd) && Fresh(m, d) && IsDir(m1, d) && Apart(m, m1, d)
    requires forall v: nat :: v < VPAGES ==> Pte(m1, d, v) == KernelPte(m.data, v)
    ensures pd != d && IsDir(m1, pd) && NonePresent(m1, d, 0, USER)
    ensures forall v: nat :: v < VPAGES ==> Pte(m1, pd, v) == Pte(m, pd, v)
  {
    hide ListOk, PdeOk, PteOk, Pte, KernelPte;
    forall v: nat | v < VPAGES ensures Pte(m1, pd, v) == Pte(m, pd, v) {
      PteApart(m, m1, pd, v);
    }
    forall v: nat | v < USER ensures KernelPte(m.data, v) == 0 { NoKernelBelow(m.data, v); }
  }

  /** copyuvm gives the child equal bytes and flags in frames of its own, and maps the kernel for it as for every
      process; when memory runs out anywhere, every frame is given back. No other address space changes. It panics
      only if the parent lacks a page below its size. */
  lemma CopyuvmCopies(m: Memory, pd: nat, sz: nat)
    requires Owned(m) && Bounded(m, pd, sz)
    ensures match Copyuvm(m, pd, sz)
      case Panic => !Sized(m, pd, sz)
      case Copying(m', None) => Restored(m, m')
      case Copying(m', Some(d)) =>
        && Sized(m, pd, sz) && Fresh(m, d) && Apart(m, m', d) && Sized(m', d, sz)
        && (forall v: nat :: v < Pages(sz) ==> PageCopied(m, m', pd, d, v))
        && (forall v: nat :: USER <= v < VPAGES ==> Pte(m', d, v) == KernelPte(m.data, v))
  {
    hide Owned, Pte, Frame, Flags, Setupkvm, Fresh, Apart, CopyPages, Pages, KernelPte, Grows, PageCopied;
    var b := Setupkvm(m);
    SetupkvmBuilds(m);
    if b.pd.Some? {
      var d, n := b.pd.value, Pages(sz);
      PagesOrder(sz, sz);
      CopyReady(m, b.m, pd, d);
      var a := FirstAbsent(m, pd, 0, n);
      CopyPagesEffect(m, b.m, pd, d, 0, a);
      var r := CopyPages(b.m, pd, d, 0, a);
      if r.ok && a == n { CopiedAll(m, b.m, r.m, pd, d, sz); }
    }
  }

  lemma CopiedAll(m: Memory, m1: Memory, m2: Memory, pd: nat, d: nat, sz: nat)
    requires Owned(m) && Bounded(m, pd, sz) && AllPresent(m, pd, 0, Pages(sz)) && Pages(sz) <= USER
    requires Fresh(m, d) && pd != d && IsDir(m1, d) && Apart(m, m1, d)
    requires forall v: nat :: v < VPAGES ==> Pte(m1, d, v) == KernelPte(m.data, v)
    requires forall v: nat :: v < VPAGES ==> Pte(m1, pd, v) == Pte(m, pd, v)
    requires Grows(m1, m2, d, 0, Pages(sz)) && PagesCopied(m1, m2, pd, d, 0, Pages(sz))
    ensures Apart(m, m2, d) && Sized(m2, d, sz)
    ensures forall v: nat :: v < Pages(sz) ==> PageCopied(m, m2, pd, d, v)
    ensures forall v: nat :: USER <= v < VPAGES ==> Pte(m2, d, v) == KernelPte(m.data, v)
  {
    hide Owned, Pte, Frame, Flags, Fresh, Apart, Pages, KernelPte, Grows;
    var n := Pages(sz);
    GrowsApart(m1, m2, d, 0, n);
    ApartJoin(m, m1, m2, d);
    GrowsDir(m1, m2, d, 0, n);
    forall v: nat | v < n ensures PageCopied(m, m2, pd, d, v) && Present(Pte(m2, d, v)) {
      assert PageCopied(m1, m2, pd, d, v);
      SameFrame(m, m1, pd, d, v);
    }
    forall v: nat | n <= v < USER ensures Pte(m2, d, v) == 0 { NoKernelBelow(m.data, v); }
  }

  lemma GrowsDir(m: Memory, m': Memory, d: nat, lo: nat, hi: nat)
    requires IsDir(m, d) && Grows(m, m', d, lo, hi)
    ensures IsDir(m', d)
  {
  }

  lemma SameFrame(m: Memory, m1: Memory, pd: nat, d: nat, v: nat)
    requires Owned(m) && Fresh(m, d) && Apart(m, m1, d) && IsDir(m, pd) && pd != d && v < USER && Present(Pte(m, pd, v))
    ensures Frame(Pte(m, pd, v)) < TOP && |m.mem| == |m1.mem| == TOP
    ensures m1.mem[Frame(Pte(m, pd, v))] == m.mem[Frame(Pte(m, pd, v))]
  {
    hide ListOk, LabelOk, PdeOk, Pte, PteOk;
    UserFrame(m, pd, v);
  }

  // ----- allocuvm, deallocuvm and growproc -----

  datatype Resized = Resized(m: Memory, sz: nat)

  ghost function Allocuvm(m: Memory, pd: nat, oldsz: nat, newsz: nat): (r: Resized)
    requires Owned(m) && Bounded(m, pd, oldsz)
    ensures Owned(r.m)
  {
    if newsz >= KERNBASE then Resized(m, 0)
    else if newsz < oldsz then Resized(m, oldsz)
    else
      PagesOrder(oldsz, newsz);
      var r := AllocPages(m, pd, Pages(oldsz), Pages(oldsz), Pages(newsz));
      Resized(r.m, if r.ok then newsz else 0)
  }

  function Deallocuvm(m: Memory, pd: nat, oldsz: nat, newsz: nat): Resized {
    if newsz >= oldsz then Resized(m, oldsz) else Resized(UnmapPages(m, pd, Pages(newsz), Pages(oldsz)), newsz)
  }

  /** Growing: either the space has the new size, or it has the old one and allocuvm returned 0. */
  lemma AllocuvmSized(m: Memory, pd: nat, oldsz: nat, newsz: nat)
    requires Owned(m) && Bounded(m, pd, oldsz)
    ensures newsz < oldsz ==> Allocuvm(m, pd, oldsz, newsz) == Resized(m, oldsz)
    ensures var r := Allocuvm(m, pd, oldsz, newsz);
      oldsz <= newsz ==>
      && Apart(m, r.m, pd) && (Sized(m, pd, oldsz) ==> Sized(r.m, pd, if r.sz == newsz then newsz else oldsz))
      && if r.sz == newsz then Bounded(r.m, pd, newsz) && PagesAdded(m, r.m, pd, Pages(oldsz), Pages(newsz))
         else r.sz == 0 && Bounded(r.m, pd, oldsz) && Adds(m, r.m, pd, TOP) && EntriesSame(m, r.m)
  {
    hide Owned, Pte, Frame, Flags, AllocPages, Pages, Grows, ZeroPage;
    OwnedShape(m);
    AddsNothing(m, pd);
    AddsApartSame(m, m, pd);
    if oldsz <= newsz < KERNBASE {
      var lo, hi := Pages(oldsz), Pages(newsz);
      PagesOrder(oldsz, newsz);
      GrowsNothing(m, pd, lo);
      AllocPagesEffect(m, m, pd, lo, lo, hi);
      var r := AllocPages(m, pd, lo, lo, hi);
      if r.ok {
        GrowsApart(m, r.m, pd, lo, hi);
        forall u: nat | u < hi ensures Present(Pte(r.m, pd, u)) || (u < lo && Pte(r.m, pd, u) == Pte(m, pd, u)) {
          if u >= lo { ZeroPresent(r.m, pd, u); }
        }
      } else {
        AddsApartSame(m, r.m, pd);
      }
    }
  }

  lemma ZeroPresent(m: Memory, pd: nat, u: nat)
    requires ZeroPage(m, pd, u)
    ensures Present(Pte(m, pd, u))
  {
  }

  lemma AddsApartSame(m: Memory, m': Memory, pd: nat)
    requires IsDir(m, pd) && Adds(m, m', pd, TOP)
    ensures Apart(m, m', pd)
  {
  }

  /** Shrinking. */
  lemma DeallocuvmSized(m: Memory, pd: nat, oldsz: nat, newsz: nat)
    requires Owned(m) && Bounded(m, pd, oldsz)
    ensures var r := Deallocuvm(m, pd, oldsz, newsz);
      && Owned(r.m) && r.sz == Min(oldsz, newsz) && Bounded(r.m, pd, r.sz) && Apart(m, r.m, pd)
      && Unmapped(m, r.m, pd, Pages(r.sz), Pages(oldsz)) && (Sized(m, pd, oldsz) ==> Sized(r.m, pd, r.sz))
  {
    hide ListOk, LabelOk, PdeOk, PteOk, Pte, Frame, Pages, UnmapPages;
    if newsz < oldsz {
      PagesOrder(newsz, oldsz);
      UnmapPagesOwned(m, pd, Pages(newsz), Pages(oldsz));
    }
  }

  /** A size and a 32-bit change to it, added as unsigned numbers. */
  function AddSize(sz: nat, n: int): nat
    requires sz <= KERNBASE && -0x8000_0000 <= n < 0x8000_0000
  {
    if sz + n >= 0 then sz + n else sz + n + 0x1_0000_0000
  }

  /** growproc by n bytes (a 32-bit integer): the new memory, the new size, and whether it returned 0. */
  ghost function Growproc(m: Memory, pd: nat, sz: nat, n: int): (Memory, nat, bool)
    requires Owned(m) && Bounded(m, pd, sz) && -0x8000_0000 <= n < 0x8000_0000
  {
    if n > 0 then
      var r := Allocuvm(m, pd, sz, AddSize(sz, n));
      if r.sz == 0 then (r.m, sz, false) else (r.m, r.sz, true)
    else if n < 0 then
      var r := Deallocuvm(m, pd, sz, AddSize(sz, n));
      if r.sz == 0 then (r.m, sz, false) else (r.m, r.sz, true)
    else (m, sz, true)
  }

  /** growproc keeps ownership, touches no other space and leaves nothing mapped beyond the size it records. */
  lemma GrowprocBounded(m: Memory, pd: nat, sz: nat, n: int)
    requires Owned(m) && Bounded(m, pd, sz) && -0x8000_0000 <= n < 0x8000_0000
    ensures var (m', sz', ok) := Growproc(m, pd, sz, n);
      && Owned(m') && Apart(m, m', pd) && Bounded(m', pd, sz')
      && (ok && sz + n >= 0 ==> sz' == sz + n) && (!ok ==> sz' == sz)
      && (Sized(m, pd, sz) && (sz == 0 || sz + n != 0) ==> Sized(m', pd, sz'))
  {
    hide Owned, Pte, Frame, Allocuvm, Deallocuvm, Pages, PagesAdded, Adds, Apart;
    if n > 0 {
      AllocuvmSized(m, pd, sz, sz + n);
    } else if n < 0 {
      DeallocuvmSized(m, pd, sz, AddSize(sz, n));
      if sz + n == 0 {
        PagesOrder(0, 0);
        PagesOrder(sz, sz);
      }
    } else {
      OwnedShape(m);
      AddsNothing(m, pd);
      AddsApartSame(m, m, pd);
    }
  }

  /** From a process whose pages match its size, growproc leaves them matching exactly when it is not asked to give up
      all memory: then deallocuvm's new size, 0, is taken for a failure, and the old size stays with no page left. */
  lemma GrowprocSizedIff(m: Memory, pd: nat, sz: nat, n: int)
    requires Owned(m) && Sized(m, pd, sz) && -0x8000_0000 <= n < 0x8000_0000
    ensures var (m', sz', ok) := Growproc(m, pd, sz, n);
      && (Sized(m', pd, sz') <==> sz == 0 || sz + n != 0)
      && (sz > 0 && sz + n == 0 ==> sz' == sz && !ok && NonePresent(m', pd, 0, USER))
  {
    hide Owned, Pte, Frame, Allocuvm, Deallocuvm, Pages, Unmapped, PagesAdded, Adds, Apart;
    GrowprocBounded(m, pd, sz, n);
    if sz > 0 && sz + n == 0 {
      DeallocuvmSized(m, pd, sz, 0);
      PagesOrder(0, sz);
      PagesOrder(0, 0);
      assert Pte(Deallocuvm(m, pd, sz, 0).m, pd, 0) == 0;
    }
  }
}

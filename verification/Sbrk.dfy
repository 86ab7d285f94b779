/** The system call sbrk (sysproc.c) as a process sees it: what growproc does to its size. */
module Sbrk {
  import opened Prelude
  import opened Frames
  import opened Sizes

  const WORD: nat := 0x1_0000_0000

  /** Whether sbrk succeeded, the size of the process afterwards, and whether it still has all of its pages. */
  datatype Break = Break(ok: bool, size: nat, whole: bool)

  /** sbrk(n) for a process of size sz; `memory` tells whether allocuvm finds frames enough. */
  function Sbrk(sz: nat, n: int, memory: bool): Break
    requires sz <= KERNBASE && -0x8000_0000 <= n < 0x8000_0000
  {
    if n > 0 then
      if memory && sz + n < KERNBASE then Break(true, sz + n, true) else Break(false, sz, true)
    else if n == 0 then Break(true, sz, true)
    else
      var size := Min(sz, AddSize(sz, n));
      if size == 0 then Break(false, sz, sz == 0) else Break(true, size, true)
  }

  /** It is what growproc does to any process whose pages match its size. */
  lemma SbrkIsGrowproc(m: Memory, pd: nat, sz: nat, n: int)
    requires Owned(m) && Sized(m, pd, sz) && -0x8000_0000 <= n < 0x8000_0000
    ensures var (m', sz', ok) := Growproc(m, pd, sz, n);
      var memory := n > 0 && Allocuvm(m, pd, sz, sz + n).sz != 0;
      Sbrk(sz, n, memory) == Break(ok, sz', Sized(m', pd, sz'))
  {
    hide Owned, Allocuvm, Sized, Deallocuvm;
    SizedIsBounded(m, pd, sz);
    GrowprocBounded(m, pd, sz, n);
    GrowprocSizedIff(m, pd, sz, n);
    if n > 0 {
      AllocuvmSized(m, pd, sz, sz + n);
      AllocuvmBound(m, pd, sz, sz + n);
    } else if n < 0 {
      DeallocuvmSized(m, pd, sz, AddSize(sz, n));
    }
  }

  lemma AllocuvmBound(m: Memory, pd: nat, oldsz: nat, newsz: nat)
    requires Owned(m) && Bounded(m, pd, oldsz)
    ensures newsz >= KERNBASE ==> Allocuvm(m, pd, oldsz, newsz).sz == 0
  {
    hide Owned, Bounded;
  }

  lemma SizedIsBounded(m: Memory, pd: nat, sz: nat)
    requires Sized(m, pd, sz)
    ensures Bounded(m, pd, sz) && sz <= KERNBASE
  {
  }

  /** The page of an address belongs to a process of the given size. */
  predicate Covers(size: nat, addr: nat) {
    addr / PGSIZE < Pages(size)
  }

  /** After an sbrk that succeeds, the page at the old end of the process is there exactly when the new size covers
      it. */
  lemma EndPage(m: Memory, pd: nat, sz: nat, n: int)
    requires Owned(m) && Sized(m, pd, sz) && sz < KERNBASE && -0x8000_0000 <= n < 0x8000_0000
    ensures var (m', sz', ok) := Growproc(m, pd, sz, n);
      ok ==> (Present(Pte(m', pd, sz / PGSIZE)) <==> Covers(sz', sz))
  {
    hide Owned, Growproc, Pte;
    SizedIsBounded(m, pd, sz);
    GrowprocBounded(m, pd, sz, n);
    GrowprocSizedIff(m, pd, sz, n);
    ZeroPte();
  }

  /** A process whose size is a multiple of the page size has no page at its end, nor after it has shrunk; one of any
      other size has. */
  lemma EndCovered(sz: nat, size: nat)
    requires size <= sz
    ensures sz % PGSIZE == 0 ==> !Covers(size, sz)
    ensures Covers(sz, sz) <==> sz % PGSIZE != 0
  {
  }

  lemma ZeroPte()
    ensures !Present(0)
  {
  }

  /** The argument of sbrk for n bytes: the product wraps at 2^32 and is then taken for a signed number. */
  function Argument(bytes: nat): (n: int)
    ensures -0x8000_0000 <= n < 0x8000_0000
  {
    var w := bytes % WORD;
    if w < 0x8000_0000 then w else w - WORD
  }
}

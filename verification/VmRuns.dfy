/** Runs of the memory operations: address spaces made, copied, resized and freed in any order, with pages taken
    and returned by the rest of the kernel in between. */
module VmRuns {
  import opened Prelude
  import opened Frames
  import opened Spaces
  import opened Sizes
  import opened Needs

  /** The memory, the size recorded for every address space, and the spaces whose process has at some
      time asked growproc to take away all of its memory. */
  datatype State = State(m: Memory, size: map<nat, nat>, gone: set<nat>)

  /** No page beyond the size; below it all pages, or, for a process that has given up all its memory, not
      even page 0. */
  ghost predicate SpaceOk(m: Memory, pd: nat, sz: nat, gone: bool) {
    Bounded(m, pd, sz) && if gone then sz > 0 && !Present(Pte(m, pd, 0)) else AllPresent(m, pd, 0, Pages(sz))
  }

  ghost predicate Inv(s: State) {
    && Owned(s.m) && (forall pd: nat :: pd in s.size <==> IsDir(s.m, pd)) && s.gone <= s.size.Keys
    && (forall pd :: pd in s.size ==> SpaceOk(s.m, pd, s.size[pd], pd in s.gone))
  }

  ghost predicate DoSetup(s: State, s': State) {
    && Owned(s.m)
    && var r := Setupkvm(s.m);
       s' == State(r.m, if r.pd.Some? then s.size[r.pd.value := 0] else s.size, s.gone)
  }

  /** copyuvm for a process; when it panics the machine stops, so there is no step. */
  ghost predicate DoCopy(s: State, s': State, pd: nat) {
    && Owned(s.m) && pd in s.size && Bounded(s.m, pd, s.size[pd])
    && match Copyuvm(s.m, pd, s.size[pd])
       case Panic => false
       case Copying(m', d) => s' == State(m', if d.Some? then s.size[d.value := s.size[pd]] else s.size, s.gone)
  }

  /** growproc(n) takes away all of the memory of a process. */
  predicate GivesUp(sz: nat, n: int) {
    sz > 0 && sz + n == 0
  }

  ghost predicate DoGrow(s: State, s': State, pd: nat, n: int) {
    && Owned(s.m) && pd in s.size && Bounded(s.m, pd, s.size[pd]) && -0x8000_0000 <= n < 0x8000_0000
    && var (m', sz', _) := Growproc(s.m, pd, s.size[pd], n);
       s' == State(m', s.size[pd := sz'], if GivesUp(s.size[pd], n) then s.gone + {pd} else s.gone)
  }

  ghost predicate DoFree(s: State, s': State, pd: nat) {
    && Owned(s.m) && IsDir(s.m, pd) && s' == State(Freevm(s.m, pd), s.size - {pd}, s.gone - {pd})
  }

  ghost predicate DoTake(s: State, s': State) {
    && Owned(s.m) && s.m.free != [] && s' == s.(m := Kalloc(s.m))
  }

  ghost predicate DoGive(s: State, s': State, f: nat) {
    && Owned(s.m) && s.m.first <= f < TOP && s.m.use[f] == Kernel && s' == s.(m := Kfree(s.m, f))
  }

  ghost predicate Step(s: State, s': State) {
    || DoSetup(s, s') || DoTake(s, s')
    || (exists pd :: DoCopy(s, s', pd))
    || (exists pd, n :: DoGrow(s, s', pd, n))
    || (exists pd :: DoFree(s, s', pd))
    || (exists f :: DoGive(s, s', f))
  }

  /** A space whose entries are the same is in order as before. */
  lemma SpaceKept(m: Memory, m': Memory, pd: nat, sz: nat, gone: bool)
    requires SpaceOk(m, pd, sz, gone) && IsDir(m', pd)
    requires forall v: nat :: v < VPAGES ==> Pte(m', pd, v) == Pte(m, pd, v)
    ensures SpaceOk(m', pd, sz, gone)
  {
    hide Pte, Pages;
    PagesOrder(sz, sz);
  }

  /** Other address spaces keep their directory and all their entries. */
  lemma SpaceApart(m: Memory, m': Memory, pd: nat, p: nat)
    requires Owned(m) && Owned(m') && Apart(m, m', pd) && p != pd && (IsDir(m, pd) || Fresh(m, pd))
    ensures IsDir(m', p) <==> IsDir(m, p)
    ensures IsDir(m, p) ==> forall v: nat :: v < VPAGES ==> Pte(m', p, v) == Pte(m, p, v)
  {
    hide ListOk, LabelOk, PdeOk, PteOk, Pte;
    if p < TOP { assert m.use[p] == Dir ==> Outside(m, p, pd); }
    if IsDir(m, p) {
      forall v: nat | v < VPAGES ensures Pte(m', p, v) == Pte(m, p, v) { PteApart(m, m', p, v); }
    }
  }

  lemma SpaceRestored(m: Memory, m': Memory, p: nat)
    requires Owned(m) && Owned(m') && Restored(m, m')
    ensures IsDir(m', p) <==> IsDir(m, p)
    ensures IsDir(m, p) ==> forall v: nat :: v < VPAGES ==> Pte(m', p, v) == Pte(m, p, v)
  {
    hide ListOk, LabelOk, PdeOk, PteOk, Pte;
    if IsDir(m, p) {
      forall v: nat | v < VPAGES ensures Pte(m', p, v) == Pte(m, p, v) { PteApart(m, m', p, v); }
    }
  }

  /** A step that leaves everything outside pd alone. */
  lemma InvApart(s: State, s': State, pd: nat)
    requires Inv(s) && Owned(s'.m) && Apart(s.m, s'.m, pd) && (IsDir(s.m, pd) || Fresh(s.m, pd))
    requires forall p :: p != pd ==> (p in s'.size <==> p in s.size) && (p in s'.gone <==> p in s.gone)
    requires forall p :: p != pd && p in s.size && p in s'.size ==> s'.size[p] == s.size[p]
    requires if pd in s'.size then SpaceOk(s'.m, pd, s'.size[pd], pd in s'.gone) else !IsDir(s'.m, pd) && pd !in s'.gone
    ensures Inv(s')
  {
    hide Owned, Apart, SpaceOk, Fresh;
    assert pd in s'.size ==> IsDir(s'.m, pd) by { if pd in s'.size { SpaceDir(s'.m, pd, s'.size[pd], pd in s'.gone); } }
    forall p: nat | p != pd
      ensures p in s'.size <==> IsDir(s'.m, p)
      ensures p in s'.size ==> SpaceOk(s'.m, p, s'.size[p], p in s'.gone)
    {
      SpaceApart(s.m, s'.m, pd, p);
      if p in s.size { SpaceKept(s.m, s'.m, p, s.size[p], p in s.gone); }
    }
  }

  lemma SpaceDir(m: Memory, pd: nat, sz: nat, gone: bool)
    requires SpaceOk(m, pd, sz, gone)
    ensures IsDir(m, pd) && Bounded(m, pd, sz)
  {
  }

  lemma InvRestored(s: State, m': Memory)
    requires Inv(s) && Owned(m') && Restored(s.m, m')
    ensures Inv(s.(m := m'))
  {
    hide Owned, SpaceOk, Restored;
    forall p: nat
      ensures p in s.size <==> IsDir(m', p)
      ensures p in s.size ==> SpaceOk(m', p, s.size[p], p in s.gone)
    {
      SpaceRestored(s.m, m', p);
      if p in s.size { SpaceKept(s.m, m', p, s.size[p], p in s.gone); }
    }
  }

  /** A directory that is free now has not been recorded. */
  lemma NotRecorded(s: State, pd: nat)
    requires Inv(s) && Fresh(s.m, pd)
    ensures pd !in s.size && pd !in s.gone
  {
    hide Owned, SpaceOk;
  }

  lemma SetupInv(s: State, s': State)
    requires Inv(s) && DoSetup(s, s')
    ensures Inv(s')
  {
    hide Owned, Pte, Setupkvm, Apart, Restored, Fresh, KernelPte, SpaceOk;
    SetupkvmBuilds(s.m);
    var r := Setupkvm(s.m);
    if r.pd.Some? {
      NotRecorded(s, r.pd.value);
      UserEmpty(r.m, r.pd.value, s.m.data);
      InvApart(s, s', r.pd.value);
    } else {
      InvRestored(s, r.m);
    }
  }

  lemma UserEmpty(m: Memory, pd: nat, data: nat)
    requires IsDir(m, pd) && forall v: nat :: v < VPAGES ==> Pte(m, pd, v) == KernelPte(data, v)
    ensures SpaceOk(m, pd, 0, false)
  {
    hide Pte;
  }

  lemma CopyInv(s: State, s': State, pd: nat)
    requires Inv(s) && DoCopy(s, s', pd)
    ensures Inv(s')
  {
    hide Owned, Pte, Copyuvm, Apart, Restored, Fresh, KernelPte, Bounded, Sized, PageCopied, SpaceOk;
    CopyuvmCopies(s.m, pd, s.size[pd]);
    var r := Copyuvm(s.m, pd, s.size[pd]);
    if r.pd.Some? {
      NotRecorded(s, r.pd.value);
      SizedOk(s'.m, r.pd.value, s.size[pd]);
      InvApart(s, s', r.pd.value);
    } else {
      InvRestored(s, r.m);
    }
  }

  lemma SizedOk(m: Memory, pd: nat, sz: nat)
    requires Sized(m, pd, sz)
    ensures SpaceOk(m, pd, sz, false)
  {
  }

  /** growproc keeps a space in order; giving up all memory is what changes the kind of order. */
  lemma GrowSpace(m: Memory, pd: nat, sz: nat, gone: bool, n: int)
    requires Owned(m) && SpaceOk(m, pd, sz, gone) && -0x8000_0000 <= n < 0x8000_0000
    ensures var (m', sz', _) := Growproc(m, pd, sz, n); SpaceOk(m', pd, sz', gone || GivesUp(sz, n))
  {
    hide Owned, Pte, Frame, Allocuvm, Deallocuvm, Pages, Adds, Apart, ZeroPage;
    GrowprocBounded(m, pd, sz, n);
    if GivesUp(sz, n) {
      DeallocuvmSized(m, pd, sz, 0);
      PagesOrder(0, sz);
      PagesOrder(0, 0);
    } else if gone {
      PagesOrder(sz, sz);
      if n > 0 { AllocuvmSized(m, pd, sz, sz + n); } else if n < 0 { DeallocuvmSized(m, pd, sz, AddSize(sz, n)); }
    }
  }

  lemma GrowInv(s: State, s': State, pd: nat, n: int)
    requires Inv(s) && DoGrow(s, s', pd, n)
    ensures Inv(s')
  {
    hide Owned, Pte, Growproc, Apart, Bounded, Sized, SpaceOk;
    GrowprocBounded(s.m, pd, s.size[pd], n);
    GrowSpace(s.m, pd, s.size[pd], pd in s.gone, n);
    InvApart(s, s', pd);
  }

  lemma FreeInv(s: State, s': State, pd: nat)
    requires Inv(s) && DoFree(s, s', pd)
    ensures Inv(s')
  {
    hide ListOk, LabelOk, PdeOk, PteOk, Pte, Freevm, SpaceOk;
    FreevmOwned(s.m, pd);
    forall f: nat | f < TOP && (Outside(s.m, f, pd) || Outside(s'.m, f, pd))
      ensures s'.m.use[f] == s.m.use[f] && s'.m.mem[f] == s.m.mem[f]
    {
      assert Outside(s.m, f, pd);
    }
    assert Apart(s.m, s'.m, pd);
    InvApart(s, s', pd);
  }

  /** Taking a page or giving one back touches no address space. */
  lemma PagesInv(s: State, m': Memory, f: nat)
    requires Inv(s) && Owned(m') && f < TOP && !s.m.use[f].Dir? && !s.m.use[f].Table?
    requires |m'.mem| == |m'.use| == TOP && !m'.use[f].Dir?
    requires forall g: nat :: g < TOP && g != f ==> m'.use[g] == s.m.use[g] && m'.mem[g] == s.m.mem[g]
    ensures Inv(s.(m := m'))
  {
    hide ListOk, LabelOk, PdeOk, PteOk, Pte, SpaceOk;
    forall p | p in s.size ensures SpaceOk(m', p, s.size[p], p in s.gone) {
      forall v: nat | v < VPAGES ensures Pte(m', p, v) == Pte(s.m, p, v) { PteApart(s.m, m', p, v); }
      SpaceKept(s.m, m', p, s.size[p], p in s.gone);
    }
  }

  lemma StepInv(s: State, s': State)
    requires Inv(s) && Step(s, s')
    ensures Inv(s')
  {
    hide Owned, DoSetup, DoCopy, DoGrow, DoFree, SpaceOk;
    if DoSetup(s, s') {
      SetupInv(s, s');
    } else if DoTake(s, s') {
      KallocOwned(s.m);
      OwnedShape(s.m);
      PagesInv(s, s'.m, s.m.free[0]);
    } else if pd :| DoCopy(s, s', pd) {
      CopyInv(s, s', pd);
    } else if pd, n :| DoGrow(s, s', pd, n) {
      GrowInv(s, s', pd, n);
    } else if pd :| DoFree(s, s', pd) {
      FreeInv(s, s', pd);
    } else if f :| DoGive(s, s', f) {
      KfreeOwned(s.m, f);
      OwnedShape(s.m);
      PagesInv(s, s'.m, f);
    }
  }

  ghost predicate Run(tr: seq<State>) {
    && tr != [] && Owned(tr[0].m) && tr[0].size == map[] && tr[0].gone == {} && (forall f: nat :: !IsDir(tr[0].m, f))
    && forall i :: 0 <= i < |tr| - 1 ==> Step(tr[i], tr[i + 1])
  }

  lemma {:induction false} RunInv(tr: seq<State>, i: nat)
    requires Run(tr) && i < |tr|
    ensures Inv(tr[i])
  {
    hide Owned, Step;
    if i > 0 {
      RunInv(tr, i - 1);
      StepInv(tr[i - 1], tr[i]);
    }
  }

  /** In every reachable state a frame that a process maps as a user page is mapped at that one place only, in that
      process only; a page table, of the kernel's half too, is used by one entry of one directory; and these frames and
      the directories are all different and off the free list. */
  lemma FramesAreExclusive(tr: seq<State>, i: nat, p: nat, q: nat)
    requires Run(tr) && i < |tr| && p in tr[i].size && q in tr[i].size
    ensures PagesExclusive(tr[i].m, p, q) && TablesExclusive(tr[i].m, p, q) && DirExclusive(tr[i].m, p, q)
  {
    hide LabelOk, Pte, Pde, Frame, SpaceOk, Step;
    RunInv(tr, i);
    var m := tr[i].m;
    forall v: nat, u: nat | v < USER && u < USER ensures PageExclusive(m, p, v, q, u) {
      assert PteOk(m, p, v) && PteOk(m, q, u);
    }
    forall d: nat, e: nat | d < ENTRIES && e < ENTRIES ensures TableExclusive(m, p, d, q, e) {
      assert PdeOk(m, p, d) && PdeOk(m, q, e);
    }
    forall v: nat, e: nat | v < USER && e < ENTRIES ensures OtherFrames(m, p, v, q, e) {
      assert PteOk(m, p, v) && PdeOk(m, q, e);
    }
  }

  /** User page v of p and user page u of q. */
  ghost predicate PageExclusive(m: Memory, p: nat, v: nat, q: nat, u: nat) {
    Present(Pte(m, p, v)) ==>
      && Frame(Pte(m, p, v)) !in m.free
      && (Present(Pte(m, q, u)) && Frame(Pte(m, p, v)) == Frame(Pte(m, q, u)) ==> p == q && v == u)
  }

  /** Page table d of p and page table e of q. */
  ghost predicate TableExclusive(m: Memory, p: nat, d: nat, q: nat, e: nat) {
    Present(Pde(m, p, d)) ==>
      && Frame(Pde(m, p, d)) !in m.free
      && (Present(Pde(m, q, e)) && Frame(Pde(m, p, d)) == Frame(Pde(m, q, e)) ==> p == q && d == e)
  }

  /** The directory p, user page v of p, and page table e of q. */
  ghost predicate OtherFrames(m: Memory, p: nat, v: nat, q: nat, e: nat) {
    && p !in m.free
    && (Present(Pte(m, p, v)) ==> Frame(Pte(m, p, v)) != q)
    && (Present(Pde(m, q, e)) ==> Frame(Pde(m, q, e)) != p)
    && (Present(Pte(m, p, v)) && Present(Pde(m, q, e)) ==> Frame(Pte(m, p, v)) != Frame(Pde(m, q, e)))
  }

  ghost predicate PagesExclusive(m: Memory, p: nat, q: nat) {
    forall v: nat, u: nat :: v < USER && u < USER ==> PageExclusive(m, p, v, q, u)
  }

  ghost predicate TablesExclusive(m: Memory, p: nat, q: nat) {
    forall d: nat, e: nat :: d < ENTRIES && e < ENTRIES ==> TableExclusive(m, p, d, q, e)
  }

  ghost predicate DirExclusive(m: Memory, p: nat, q: nat) {
    forall v: nat, e: nat :: v < USER && e < ENTRIES ==> OtherFrames(m, p, v, q, e)
  }

  /** In every reachable state: the pages of a process match its size if and only if it has never given up all of its
      memory, and copyuvm panics for it if and only if it has, and there are frames enough to get as far as page 0. */
  lemma PagesMatchIff(tr: seq<State>, i: nat, pd: nat)
    requires Run(tr) && i < |tr| && pd in tr[i].size
    ensures var s := tr[i];
      && Owned(s.m) && Bounded(s.m, pd, s.size[pd])
      && (Sized(s.m, pd, s.size[pd]) <==> pd !in s.gone)
      && (Copyuvm(s.m, pd, s.size[pd]).Panic? <==> pd in s.gone && |s.m.free| >= 1 + KERNEL_TABLES)
  {
    hide Owned, Pte, Step, Copyuvm, Pages, TablesBelow;
    RunInv(tr, i);
    var s := tr[i];
    CopyuvmCopies(s.m, pd, s.size[pd]);
    CopyuvmNeeds(s.m, pd, s.size[pd]);
    PagesOrder(s.size[pd], s.size[pd]);
    NoTablesBelow();
  }

  lemma NoTablesBelow()
    ensures TablesBelow(0) == 0
  {
  }

  // ----- A run in which size and pages come apart -----

  /** Memory after kinit: every frame above the kernel is free. */
  ghost function FreshMemory(): (m: Memory)
    ensures |m.free| == TOP - 512
  {
    Memory(seq(TOP, _ => Filled(0)), seq(TOP - 512, i => 512 + i), seq(TOP, f => if f < 512 then Kernel
        else Free), 512, 300)
  }

  lemma FreshOwned()
    ensures Owned(FreshMemory()) && forall f: nat :: !IsDir(FreshMemory(), f)
  {
    var m := FreshMemory();
    forall f: nat | f < TOP ensures LabelOk(m, f) {
      if f >= 512 { assert m.free[f - 512] == f; }
    }
  }

  lemma Extend(tr: seq<State>, s: State) returns (tr': seq<State>)
    requires Run(tr) && Step(tr[|tr| - 1], s)
    ensures Run(tr') && tr'[|tr'| - 1] == s
  {
    hide Step, Owned;
    tr' := tr + [s];
    forall k | 0 <= k < |tr'| - 1 ensures Step(tr'[k], tr'[k + 1]) {
      if k < |tr| - 1 { assert Step(tr[k], tr[k + 1]); }
    }
  }

  /** A process of one byte: setupkvm and then growproc(1). */
  lemma OneByteRun() returns (tr: seq<State>, pd: nat)
    ensures Run(tr) && Inv(tr[|tr| - 1])
    ensures var s := tr[|tr| - 1]; pd in s.size && s.size[pd] == 1 && pd !in s.gone && |s.m.free| >= 1 + KERNEL_TABLES
  {
    hide Owned, FreshMemory, Setupkvm, Growproc, Pte, Pde, Step, SpaceOk, Missing, Pages;
    var s0 := State(FreshMemory(), map[], {});
    FreshOwned();
    tr := [s0];
    SetupkvmNeeds(s0.m);
    var r := Setupkvm(s0.m);
    pd := r.pd.value;
    var s1 := State(r.m, map[pd := 0], {});
    assert DoSetup(s0, s1);
    assert Step(s0, s1) by { SetupStep(s0, s1); }
    tr := Extend(tr, s1);
    RunInv(tr, |tr| - 1);
    assert pd in s1.size && s1.size[pd] == 0 && pd !in s1.gone;
    SpaceDir(s1.m, pd, 0, false);
    GrowOne(s1.m, pd);
    var (m2, _, _) := Growproc(s1.m, pd, 0, 1);
    var s2 := State(m2, s1.size[pd := 1], {});
    assert DoGrow(s1, s2, pd, 1);
    assert Step(s1, s2) by { GrowStep(s1, s2, pd, 1); }
    tr := Extend(tr, s2);
    RunInv(tr, |tr| - 1);
  }

  lemma SetupStep(s: State, s': State)
    requires DoSetup(s, s')
    ensures Step(s, s')
  {
    hide DoSetup;
  }

  lemma GrowStep(s: State, s': State, pd: nat, n: int)
    requires DoGrow(s, s', pd, n)
    ensures Step(s, s')
  {
    hide DoGrow, DoSetup, DoCopy, DoFree, DoTake, DoGive;
  }

  lemma GrowOne(m: Memory, pd: nat)
    requires Owned(m) && Bounded(m, pd, 0) && |m.free| >= 2 + 1 + KERNEL_TABLES
    requires forall d: nat :: d < USER_TABLES ==> !Present(Pde(m, pd, d))
    ensures var (m', sz', ok) := Growproc(m, pd, 0, 1); sz' == 1 && ok && |m'.free| >= 1 + KERNEL_TABLES
  {
    hide Owned, Pte, Pde, AllocPages, Missing;
    PagesOrder(0, 1);
    MissingUser(m, pd, 1);
    AllocPagesNeeds(m, pd, 0, 0, 1);
    AllocuvmNeeds(m, pd, 0, 1);
    assert Pages(0) == 0 && Pages(1) == 1 && TablesBelow(1) == 1;
  }

  /** Giving a page back makes the free list no shorter. */
  lemma GrowBack(m: Memory, pd: nat)
    requires Owned(m) && SpaceOk(m, pd, 1, false)
    ensures var (m', sz', ok) := Growproc(m, pd, 1, -1);
      sz' == 1 && !ok && |m'.free| >= |m.free| && NonePresent(m', pd, 0, USER)
  {
    hide Owned, Pte, Pde, Frame;
    GrowprocSizedIff(m, pd, 1, -1);
    assert Pages(0) == 0 && Pages(1) == 1;
    assert UnmapPages(m, pd, 0, 1) == UnmapPage(m, pd, 0);
  }

  /** The run goes on with growproc(-1): the process keeps its size of one byte and has no page, and fork panics. */
  lemma GaveUpRun() returns (tr: seq<State>, pd: nat)
    ensures Run(tr)
    ensures var s := tr[|tr| - 1];
      && pd in s.size && s.size[pd] == 1 && NonePresent(s.m, pd, 0, USER)
      && Owned(s.m) && Bounded(s.m, pd, 1) && Copyuvm(s.m, pd, 1).Panic?
  {
    hide Owned, Growproc, Pte, Step, SpaceOk, Copyuvm, Sized, Pages;
    tr, pd := OneByteRun();
    var s := tr[|tr| - 1];
    SpaceDir(s.m, pd, 1, false);
    GrowBack(s.m, pd);
    var (m', sz', _) := Growproc(s.m, pd, 1, -1);
    var s' := State(m', s.size[pd := sz'], s.gone + {pd});
    assert DoGrow(s, s', pd, -1);
    assert Step(s, s') by { GrowStep(s, s', pd, -1); }
    tr := Extend(tr, s');
    PagesMatchIff(tr, |tr| - 1, pd);
  }
}

/** The user-level allocator (umalloc.c). */
module Heap {
  // It is the allocator of section 8.7 of The C Programming Language by Kernighan and Ritchie.
  // Addresses count units of one header; BASE is the address of the static header `base`, which lies
  // below everything that sbrk returns.

  import opened Prelude
  import opened Sbrk
  import opened Sizes

  const BASE: nat := 0
  const HEADER: nat := 8        // sizeof(Header) in bytes
  const GROW: nat := 4096       // the least number of units morecore asks for
  const HUGE: nat := 0x1000_0000        // units whose size in bytes is no positive int
  const MAX_REQUEST: nat := 0x7FFF_FFF0  // the largest request in bytes that takes fewer units

  /** The successor of position k on a ring of n blocks. */
  function Succ(k: nat, n: nat): nat {
    if k + 1 == n then 0 else k + 1
  }

  /** Blocks in address order, fully coalesced: between any two there is at least one unit. */
  ghost predicate Ordered(ring: seq<nat>, size: map<nat, nat>) {
    && |ring| >= 1 && ring[0] == BASE
    && (forall k :: 0 <= k < |ring| ==> ring[k] in size)
    && size[BASE] == 0 && (forall k :: 1 <= k < |ring| ==> size[ring[k]] >= 1)
    && (forall j, k :: 0 <= j < k < |ring| ==> ring[j] + size[ring[j]] < ring[k])
  }

  /** The ptr fields visit the blocks in order and wrap once, from the last to base. */
  ghost predicate Linked(ring: seq<nat>, ptr: map<nat, nat>) {
    forall k :: 0 <= k < |ring| ==> Link(ring, ptr, k)
  }

  ghost predicate Link(ring: seq<nat>, ptr: map<nat, nat>, k: nat) {
    k < |ring| && ring[k] in ptr && ptr[ring[k]] == ring[Succ(k, |ring|)]
  }

  predicate InBlock(u: nat, a: nat, n: nat) {
    a <= u < a + n
  }

  ghost predicate IsFree(u: nat, ring: seq<nat>, size: map<nat, nat>)
    requires forall k :: 0 <= k < |ring| ==> ring[k] in size
  {
    exists k :: 0 <= k < |ring| && InBlock(u, ring[k], size[ring[k]])
  }

  ghost predicate IsLive(u: nat, live: map<nat, nat>) {
    exists a :: a in live && InBlock(u, a, live[a])
  }

  /** Live blocks keep their headers, and overlap neither each other nor a free block. */
  ghost predicate LiveOk(ring: seq<nat>, size: map<nat, nat>, live: map<nat, nat>)
    requires forall k :: 0 <= k < |ring| ==> ring[k] in size
  {
    && (forall a :: a in live ==> a in size && size[a] == live[a] && live[a] >= 1 && a > BASE)
    && (forall a, u: nat :: a in live && InBlock(u, a, live[a]) ==> !IsFree(u, ring, size))
    && (forall a, b :: a in live && b in live && a != b ==> a + live[a] <= b || b + live[b] <= a)
  }

  /** Where a block starting at bp belongs: after position m. */
  ghost predicate Place(ring: seq<nat>, bp: nat, m: nat) {
    m < |ring| && ring[m] < bp && (m + 1 < |ring| ==> bp < ring[m + 1])
  }

  lemma {:induction false} PlaceExists(ring: seq<nat>, size: map<nat, nat>, bp: nat, n: nat) returns (m: nat)
    requires Ordered(ring, size) && bp > BASE && 1 <= n <= |ring|
    requires n < |ring| ==> bp < ring[n]
    requires forall k :: 0 <= k < |ring| ==> ring[k] != bp
    ensures Place(ring, bp, m)
  {
    if ring[n - 1] < bp {
      m := n - 1;
    } else {
      m := PlaceExists(ring, size, bp, n - 1);
    }
  }

  /** free's tests hold at position k exactly when the block belongs there. */
  ghost predicate SearchFacts(ring: seq<nat>, ptr: map<nat, nat>, bp: nat, m: nat, k: nat)
    requires k < |ring| && ring[k] in ptr
  {
    var p, q := ring[k], ptr[ring[k]];
    && m < |ring| && q == ring[Succ(k, |ring|)]
    && ((bp > p && bp < q) || (p >= q && (bp > p || bp < q)) <==> k == m)
  }

  lemma SearchAt(ring: seq<nat>, size: map<nat, nat>, ptr: map<nat, nat>, bp: nat, m: nat, k: nat)
    requires Ordered(ring, size) && Linked(ring, ptr) && Place(ring, bp, m) && bp > BASE && k < |ring|
    ensures ring[k] in ptr && SearchFacts(ring, ptr, bp, m, k)
  {
    assert Link(ring, ptr, k);
    if k < m { assert k + 1 < m ==> ring[k + 1] < ring[m]; assert ring[k] < ring[m]; }
    if k > m { assert k > m + 1 ==> ring[m + 1] < ring[k]; }
    if k + 1 == |ring| && k > 0 { assert ring[0] < ring[k]; }
  }

  // ----- Inserting a block, with coalescing -----

  /** The block at bp is about to be inserted after position m: it overlaps no free block. */
  ghost predicate Inserting(ring: seq<nat>, size: map<nat, nat>, bp: nat, m: nat) {
    && Ordered(ring, size) && Place(ring, bp, m) && bp in size && size[bp] >= 1
    && ring[m] + size[ring[m]] <= bp && (m + 1 < |ring| ==> bp + size[bp] <= ring[m + 1])
  }

  ghost predicate FreeOrIn(u: nat, ring: seq<nat>, size: map<nat, nat>, bp: nat)
    requires (forall k :: 0 <= k < |ring| ==> ring[k] in size) && bp in size
  {
    IsFree(u, ring, size) || InBlock(u, bp, size[bp])
  }

  /** The block reaches the next free block, which it absorbs. */
  lemma MergeUpper(ring: seq<nat>, size: map<nat, nat>, bp: nat, m: nat)
    requires Inserting(ring, size, bp, m) && m + 1 < |ring| && bp + size[bp] == ring[m + 1]
    ensures var ring', size' := ring[..m + 1] + ring[m + 2..], size[bp := size[bp] + size[ring[m + 1]]];
            && Inserting(ring', size', bp, m) && (m + 1 < |ring'| ==> bp + size'[bp] < ring'[m + 1])
            && forall u: nat :: FreeOrIn(u, ring', size', bp) <==> FreeOrIn(u, ring, size, bp)
  {
    var ring', size' := ring[..m + 1] + ring[m + 2..], size[bp := size[bp] + size[ring[m + 1]]];
    OrderedWithout(ring, size, m + 1);
    OrderedOff(ring', size, bp, size'[bp], m);
    forall k | 0 <= k < |ring| ensures ring[k] != bp {}
    forall u: nat ensures FreeOrIn(u, ring', size', bp) <==> FreeOrIn(u, ring, size, bp) {
      UpperUnits(ring, size, bp, m, u);
    }
  }

  lemma OrderedWithout(ring: seq<nat>, size: map<nat, nat>, x: nat)
    requires Ordered(ring, size) && 1 <= x < |ring|
    ensures Ordered(ring[..x] + ring[x + 1..], size)
  {
    var ring' := ring[..x] + ring[x + 1..];
    forall j, k | 0 <= j < k < |ring'| ensures ring'[j] + size[ring'[j]] < ring'[k] {
      assert ring'[j] == ring[if j < x then j else j + 1] && ring'[k] == ring[if k < x then k else k + 1];
    }
  }

  /** The size of a block off the list does not matter to the list. */
  lemma OrderedOff(ring: seq<nat>, size: map<nat, nat>, bp: nat, n: nat, m: nat)
    requires Ordered(ring, size) && Place(ring, bp, m)
    ensures Ordered(ring, size[bp := n]) && forall k :: 0 <= k < |ring| ==> ring[k] != bp
  {
    forall k | 0 <= k < |ring| ensures ring[k] != bp {
      if k < m { assert ring[k] < ring[m]; }
      if k > m + 1 { assert ring[m + 1] < ring[k]; }
    }
  }

  lemma UpperUnits(ring: seq<nat>, size: map<nat, nat>, bp: nat, m: nat, u: nat)
    requires (forall k :: 0 <= k < |ring| ==> ring[k] in size && ring[k] != bp)
    requires bp in size && m + 1 < |ring| && bp + size[bp] == ring[m + 1]
    ensures var ring', size' := ring[..m + 1] + ring[m + 2..], size[bp := size[bp] + size[ring[m + 1]]];
            && (forall k :: 0 <= k < |ring'| ==> ring'[k] in size')
            && (FreeOrIn(u, ring', size', bp) <==> FreeOrIn(u, ring, size, bp))
  {
    var ring', size' := ring[..m + 1] + ring[m + 2..], size[bp := size[bp] + size[ring[m + 1]]];
    if k :| 0 <= k < |ring| && InBlock(u, ring[k], size[ring[k]]) {
      if k != m + 1 { assert ring'[if k <= m then k else k - 1] == ring[k]; }
    }
    if k :| 0 <= k < |ring'| && InBlock(u, ring'[k], size'[ring'[k]]) {
      assert ring'[k] == ring[if k <= m then k else k + 1];
    }
  }

  /** The previous free block reaches the block and absorbs it. */
  lemma MergeLower(ring: seq<nat>, size: map<nat, nat>, bp: nat, m: nat)
    requires Inserting(ring, size, bp, m) && ring[m] + size[ring[m]] == bp
    requires m + 1 < |ring| ==> bp + size[bp] < ring[m + 1]
    ensures var size' := size[ring[m] := size[ring[m]] + size[bp]];
            Ordered(ring, size') && forall u: nat :: IsFree(u, ring, size') <==> FreeOrIn(u, ring, size, bp)
  {
    var p := ring[m];
    var size' := size[p := size[p] + size[bp]];
    forall k | 0 <= k < |ring| ensures size'[ring[k]] == if k == m then size[p] + size[bp] else size[ring[k]] {}
    forall u: nat ensures IsFree(u, ring, size') <==> FreeOrIn(u, ring, size, bp) {
      if k :| 0 <= k < |ring| && InBlock(u, ring[k], size[ring[k]]) { assert InBlock(u, ring[k], size'[ring[k]]); }
      if InBlock(u, bp, size[bp]) { assert InBlock(u, ring[m], size'[ring[m]]); }
    }
  }

  /** The block touches neither neighbour and becomes a free block of its own. */
  lemma InsertAlone(ring: seq<nat>, size: map<nat, nat>, bp: nat, m: nat)
    requires Inserting(ring, size, bp, m) && ring[m] + size[ring[m]] < bp
    requires m + 1 < |ring| ==> bp + size[bp] < ring[m + 1]
    ensures var ring' := ring[..m + 1] + [bp] + ring[m + 1..];
            Ordered(ring', size) && forall u: nat :: IsFree(u, ring', size) <==> FreeOrIn(u, ring, size, bp)
  {
    hide Ordered;
    var ring' := ring[..m + 1] + [bp] + ring[m + 1..];
    OrderedWith(ring, size, bp, m);
    forall u: nat ensures IsFree(u, ring', size) <==> FreeOrIn(u, ring, size, bp) {
      AloneUnits(ring, size, bp, m, u);
    }
  }

  lemma OrderedWith(ring: seq<nat>, size: map<nat, nat>, bp: nat, m: nat)
    requires Ordered(ring, size) && m < |ring| && bp in size && size[bp] >= 1
    requires ring[m] + size[ring[m]] < bp && (m + 1 < |ring| ==> bp + size[bp] < ring[m + 1])
    ensures Ordered(ring[..m + 1] + [bp] + ring[m + 1..], size)
    ensures forall k :: 0 <= k < |ring| ==> ring[k] in size
  {
    var ring' := ring[..m + 1] + [bp] + ring[m + 1..];
    forall k | 0 <= k < |ring'| ensures ring'[k] == (if k <= m then ring[k] else if k == m + 1 then bp
        else ring[k - 1]) && ring'[k] in size {}
    forall j, k | 0 <= j < k < |ring'| ensures ring'[j] + size[ring'[j]] < ring'[k] {
      if j == m + 1 { assert k - 1 > m + 1 ==> ring[m + 1] < ring[k - 1]; }
      if k == m + 1 { assert j < m ==> ring[j] + size[ring[j]] < ring[m]; }
    }
  }

  lemma AloneUnits(ring: seq<nat>, size: map<nat, nat>, bp: nat, m: nat, u: nat)
    requires (forall k :: 0 <= k < |ring| ==> ring[k] in size) && bp in size && m < |ring|
    ensures var ring' := ring[..m + 1] + [bp] + ring[m + 1..];
            && (forall k :: 0 <= k < |ring'| ==> ring'[k] in size)
            && (IsFree(u, ring', size) <==> FreeOrIn(u, ring, size, bp))
  {
    var ring' := ring[..m + 1] + [bp] + ring[m + 1..];
    if k :| 0 <= k < |ring| && InBlock(u, ring[k], size[ring[k]]) {
      assert ring'[if k <= m then k else k + 1] == ring[k];
    }
    if InBlock(u, bp, size[bp]) { assert ring'[m + 1] == bp; }
    if k :| 0 <= k < |ring'| && InBlock(u, ring'[k], size[ring'[k]]) {
      if k != m + 1 { assert ring'[k] == ring[if k <= m then k else k - 1]; }
    }
  }

  /** A block without free units lies between two free blocks. */
  lemma BetweenBlocks(ring: seq<nat>, size: map<nat, nat>, bp: nat, m: nat)
    requires Ordered(ring, size) && Place(ring, bp, m) && bp in size && size[bp] >= 1
    requires forall u: nat :: InBlock(u, bp, size[bp]) ==> !IsFree(u, ring, size)
    ensures Inserting(ring, size, bp, m)
  {
    if ring[m] + size[ring[m]] > bp { assert InBlock(bp, ring[m], size[ring[m]]) && InBlock(bp, bp, size[bp]); }
    if m + 1 < |ring| && bp + size[bp] > ring[m + 1] {
      assert InBlock(ring[m + 1], ring[m + 1], size[ring[m + 1]]) && InBlock(ring[m + 1], bp, size[bp]);
    }
  }

  // ----- The links during an insertion -----

  ghost predicate Distinct(ring: seq<nat>) {
    forall j, k :: 0 <= j < k < |ring| ==> ring[j] != ring[k]
  }

  /** All links are right except the one out of position m; the new block already points past it. */
  ghost predicate LinkedBut(ring: seq<nat>, ptr: map<nat, nat>, bp: nat, m: nat) {
    && m < |ring| && Distinct(ring) && bp !in ring && bp in ptr && ptr[bp] == ring[Succ(m, |ring|)]
    && forall k :: 0 <= k < |ring| && k != m ==> Link(ring, ptr, k)
  }

  lemma LinkPlain(ring: seq<nat>, ptr: map<nat, nat>, bp: nat, m: nat)
    requires Linked(ring, ptr) && Distinct(ring) && m < |ring| && bp !in ring
    ensures Link(ring, ptr, m) && LinkedBut(ring, ptr[bp := ptr[ring[m]]], bp, m)
  {
    assert Link(ring, ptr, m);
    var ptr' := ptr[bp := ptr[ring[m]]];
    forall k | 0 <= k < |ring| ensures Link(ring, ptr', k) { assert Link(ring, ptr, k) && ring[k] != bp; }
  }

  lemma LinkUpper(ring: seq<nat>, ptr: map<nat, nat>, bp: nat, m: nat)
    requires Linked(ring, ptr) && Distinct(ring) && m + 1 < |ring| && bp !in ring
    ensures Link(ring, ptr, m) && Link(ring, ptr, m + 1)
    ensures LinkedBut(ring[..m + 1] + ring[m + 2..], ptr[bp := ptr[ring[m + 1]]], bp, m)
  {
    assert Link(ring, ptr, m) && Link(ring, ptr, m + 1);
    var ring', ptr' := ring[..m + 1] + ring[m + 2..], ptr[bp := ptr[ring[m + 1]]];
    forall k | 0 <= k < |ring'| ensures ring'[k] == ring[if k <= m then k else k + 1] {}
    forall k | 0 <= k < |ring'| && k != m ensures Link(ring', ptr', k) {
      assert Link(ring, ptr, if k <= m then k else k + 1);
    }
  }

  lemma LinkJoin(ring: seq<nat>, ptr: map<nat, nat>, bp: nat, m: nat)
    requires LinkedBut(ring, ptr, bp, m)
    ensures Linked(ring, ptr[ring[m] := ptr[bp]])
  {
    var ptr' := ptr[ring[m] := ptr[bp]];
    forall k | 0 <= k < |ring| ensures Link(ring, ptr', k) {
      if k != m { assert Link(ring, ptr, k); }
    }
  }

  lemma LinkInsert(ring: seq<nat>, ptr: map<nat, nat>, bp: nat, m: nat)
    requires LinkedBut(ring, ptr, bp, m)
    ensures Linked(ring[..m + 1] + [bp] + ring[m + 1..], ptr[ring[m] := bp])
  {
    var ring', ptr' := ring[..m + 1] + [bp] + ring[m + 1..], ptr[ring[m] := bp];
    forall k | 0 <= k < |ring'| ensures Link(ring', ptr', k) {
      if k < m { assert Link(ring, ptr, k); }
      if k > m + 1 { assert Link(ring, ptr, k - 1); }
    }
  }

  // ----- Taking units out of a free block -----

  /** A block of exactly the right size leaves the list. */
  lemma TakeExact(ring: seq<nat>, size: map<nat, nat>, ptr: map<nat, nat>, k: nat)
    requires Ordered(ring, size) && Linked(ring, ptr) && 1 <= k < |ring|
    ensures ring[k] in ptr && ring[k - 1] in ptr
    ensures var ring' := ring[..k] + ring[k + 1..];
            && Ordered(ring', size) && Linked(ring', ptr[ring[k - 1] := ptr[ring[k]]])
            && forall u: nat :: IsFree(u, ring', size) <==> IsFree(u, ring, size) && !InBlock(u, ring[k], size[ring[k]])
  {
    assert Link(ring, ptr, k - 1) && Link(ring, ptr, k);
    var ring', ptr' := ring[..k] + ring[k + 1..], ptr[ring[k - 1] := ptr[ring[k]]];
    OrderedWithout(ring, size, k);
    forall j | 0 <= j < |ring'| ensures ring'[j] == ring[if j < k then j else j + 1] {}
    forall j | 0 <= j < |ring'| ensures Link(ring', ptr', j) {
      assert Link(ring, ptr, if j < k then j else j + 1);
    }
    forall u: nat ensures IsFree(u, ring', size) <==> IsFree(u, ring, size) && !InBlock(u, ring[k], size[ring[k]]) {
      WithoutUnits(ring, size, k, u);
    }
  }

  lemma WithoutUnits(ring: seq<nat>, size: map<nat, nat>, k: nat, u: nat)
    requires Ordered(ring, size) && 1 <= k < |ring|
    ensures var ring' := ring[..k] + ring[k + 1..];
            && Ordered(ring', size)
            && (IsFree(u, ring', size) <==> IsFree(u, ring, size) && !InBlock(u, ring[k], size[ring[k]]))
  {
    var ring' := ring[..k] + ring[k + 1..];
    OrderedWithout(ring, size, k);
    if j :| 0 <= j < |ring| && InBlock(u, ring[j], size[ring[j]]) && j != k {
      assert ring'[if j < k then j else j - 1] == ring[j];
    }
    if j :| 0 <= j < |ring'| && InBlock(u, ring'[j], size[ring'[j]]) {
      var i := if j < k then j else j + 1;
      assert ring'[j] == ring[i];
      if i < k { assert ring[i] + size[ring[i]] < ring[k]; } else { assert ring[k] + size[ring[k]] < ring[i]; }
    }
  }

  /** A larger block gives up the units at its end. */
  lemma TakeTail(ring: seq<nat>, size: map<nat, nat>, k: nat, n: nat)
    requires Ordered(ring, size) && 1 <= k < |ring| && 1 <= n < size[ring[k]]
    ensures var a := ring[k] + size[ring[k]] - n;
            var size' := size[ring[k] := size[ring[k]] - n][a := n];
            && Ordered(ring, size') && a !in ring
            && forall u: nat :: IsFree(u, ring, size') <==> IsFree(u, ring, size) && !InBlock(u, a, n)
  {
    var a := ring[k] + size[ring[k]] - n;
    var size' := size[ring[k] := size[ring[k]] - n][a := n];
    forall j | 0 <= j < |ring|
      ensures ring[j] != a && size'[ring[j]] == if j == k then size[ring[k]] - n else size[ring[j]]
    {
      if j < k { assert ring[j] + size[ring[j]] < ring[k]; }
      if j > k { assert ring[k] + size[ring[k]] < ring[j]; }
    }
    forall u: nat ensures IsFree(u, ring, size') <==> IsFree(u, ring, size) && !InBlock(u, a, n) {
      TailUnits(ring, size, k, n, u);
    }
  }

  lemma TailUnits(ring: seq<nat>, size: map<nat, nat>, k: nat, n: nat, u: nat)
    requires Ordered(ring, size) && 1 <= k < |ring| && 1 <= n < size[ring[k]]
    requires ring[k] + size[ring[k]] - n !in ring
    ensures var a := ring[k] + size[ring[k]] - n;
            var size' := size[ring[k] := size[ring[k]] - n][a := n];
            IsFree(u, ring, size') <==> IsFree(u, ring, size) && !InBlock(u, a, n)
  {
    var a := ring[k] + size[ring[k]] - n;
    var size' := size[ring[k] := size[ring[k]] - n][a := n];
    if j :| 0 <= j < |ring| && InBlock(u, ring[j], size[ring[j]]) {
      if j < k { assert ring[j] + size[ring[j]] < ring[k]; }
      if j > k { assert ring[k] + size[ring[k]] < ring[j]; }
      if !InBlock(u, a, n) { assert InBlock(u, ring[j], size'[ring[j]]); }
    }
    if j :| 0 <= j < |ring| && InBlock(u, ring[j], size'[ring[j]]) {
      if j < k { assert ring[j] + size[ring[j]] < ring[k]; }
      if j > k { assert ring[k] + size[ring[k]] < ring[j]; }
      assert InBlock(u, ring[j], size[ring[j]]);
    }
  }

  lemma UpperFacts(ring: seq<nat>, size: map<nat, nat>, ptr: map<nat, nat>, bp: nat, m: nat)
    requires Inserting(ring, size, bp, m) && Linked(ring, ptr)
    ensures m < |ring| && bp in size && Distinct(ring) && bp !in ring && ring[m] in ptr
    ensures if bp + size[bp] == ptr[ring[m]] then m + 1 < |ring| && ptr[ring[m]] == ring[m + 1] && ring[m + 1] in size
        && ring[m + 1] in ptr
            else m + 1 < |ring| ==> bp + size[bp] < ring[m + 1]
  {
    assert Link(ring, ptr, m);
    if m + 1 < |ring| { assert Link(ring, ptr, m + 1); }
    OrderedOff(ring, size, bp, 0, m);
  }

  /** Free and live blocks do not overlap, and together they are exactly the units obtained from sbrk. */
  ghost predicate HeapOk(ring: seq<nat>, size: map<nat, nat>, live: map<nat, nat>, units: set<nat>)
    requires forall k :: 0 <= k < |ring| ==> ring[k] in size
  {
    LiveOk(ring, size, live) && forall u: nat :: u in units <==> IsFree(u, ring, size) || IsLive(u, live)
  }

  /** A live block that becomes free. */
  lemma FreedOk(ring: seq<nat>, size: map<nat, nat>, live: map<nat, nat>, units: set<nat>, bp: nat, ring': seq<nat>,
          size': map<nat, nat>)
    requires Ordered(ring, size) && Ordered(ring', size') && HeapOk(ring, size, live, units) && bp in live
    requires forall u: nat :: IsFree(u, ring', size') <==> FreeOrIn(u, ring, size, bp)
    requires forall a :: a in live && a != bp ==> a in size' && size'[a] == size[a]
    ensures HeapOk(ring', size', live - {bp}, units)
  {
    var live' := live - {bp};
    forall u: nat ensures IsLive(u, live) <==> IsLive(u, live') || InBlock(u, bp, live[bp]) {
      if a :| a in live && InBlock(u, a, live[a]) { assert a != bp ==> a in live'; }
      if a :| a in live' && InBlock(u, a, live'[a]) { assert a in live; }
    }
  }

  /** Free units that become a live block at a. */
  lemma TakenOk(ring: seq<nat>, size: map<nat, nat>, live: map<nat, nat>, units: set<nat>, a: nat, n: nat,
          ring': seq<nat>, size': map<nat, nat>)
    requires Ordered(ring, size) && Ordered(ring', size') && HeapOk(ring, size, live, units) && n >= 1 && a > BASE
    requires forall u: nat :: InBlock(u, a, n) ==> IsFree(u, ring, size)
    requires forall u: nat :: IsFree(u, ring', size') <==> IsFree(u, ring, size) && !InBlock(u, a, n)
    requires a in size' && size'[a] == n && forall b :: b in live ==> b in size' && size'[b] == size[b]
    ensures a !in live && HeapOk(ring', size', live[a := n], units)
  {
    var live' := live[a := n];
    assert InBlock(a, a, n);
    forall b | b in live ensures InBlock(b, b, live[b]) {}
    forall u: nat ensures IsLive(u, live') <==> IsLive(u, live) || InBlock(u, a, n) {
      if b :| b in live && InBlock(u, b, live[b]) { assert live'[b] == live[b]; }
      if InBlock(u, a, n) { assert InBlock(u, a, live'[a]); }
    }
    forall b | b in live ensures a + n <= b || b + live[b] <= a {
      assert InBlock(b, b, live[b]) && !IsFree(b, ring, size) && !InBlock(b, a, n);
      assert IsFree(a, ring, size) && !InBlock(a, b, live[b]);
    }
  }

  /** Units more from sbrk that become a live block. */
  lemma GrownOk(ring: seq<nat>, size: map<nat, nat>, live: map<nat, nat>, units: set<nat>, a: nat, n: nat,
          more: set<nat>)
    requires Ordered(ring, size) && HeapOk(ring, size, live, units) && n >= 1 && a > BASE
    requires forall u :: u in units ==> u < a
    requires forall u: nat :: u in more <==> InBlock(u, a, n)
    ensures a !in live && Ordered(ring, size[a := n]) && HeapOk(ring, size[a := n], live[a := n], units + more)
  {
    var size', live' := size[a := n], live[a := n];
    forall b | b in live ensures b + live[b] <= a && b != a {
      assert InBlock(b + live[b] - 1, b, live[b]) && IsLive(b + live[b] - 1, live);
    }
    forall k | 0 <= k < |ring| ensures ring[k] != a && ring[k] + size[ring[k]] <= a {
      if k > 0 {
        assert InBlock(ring[k] + size[ring[k]] - 1, ring[k], size[ring[k]])
            && IsFree(ring[k] + size[ring[k]] - 1, ring, size);
      }
    }
    forall u: nat ensures IsFree(u, ring, size') <==> IsFree(u, ring, size) {
      if k :| 0 <= k < |ring| && InBlock(u, ring[k], size[ring[k]]) { assert InBlock(u, ring[k], size'[ring[k]]); }
    }
    forall u: nat ensures IsLive(u, live') <==> IsLive(u, live) || InBlock(u, a, n) {
      if b :| b in live && InBlock(u, b, live[b]) { assert live'[b] == live[b]; }
      if InBlock(u, a, n) { assert InBlock(u, a, live'[a]); }
    }
  }

  /** A live block has a header, no free unit, and is not on the free list. */
  lemma LiveBlock(ring: seq<nat>, size: map<nat, nat>, live: map<nat, nat>, units: set<nat>, a: nat)
    requires Ordered(ring, size) && HeapOk(ring, size, live, units) && a in live
    ensures a > BASE && a in size && size[a] == live[a] >= 1 && a !in ring
    ensures forall u: nat :: InBlock(u, a, size[a]) ==> !IsFree(u, ring, size)
  {
    assert InBlock(a, a, live[a]);
    forall k | 0 <= k < |ring| ensures ring[k] != a {
      assert k > 0 ==> InBlock(ring[k], ring[k], size[ring[k]]) && IsFree(ring[k], ring, size);
    }
  }

  class Allocator {
    var ptr: map<nat, nat>     // s.ptr of the header at an address
    var size: map<nat, nat>    // s.size of the header at an address
    var freep: Option<nat>
    ghost var ring: seq<nat>   // the free list from base on
    ghost var live: map<nat, nat>
    ghost var units: set<nat>  // every unit obtained from sbrk

    ghost predicate Valid()
      reads this
    {
      if freep.None? then ring == [] && live == map[] && units == {}
      else
        && Ordered(ring, size) && Linked(ring, ptr) && freep.value in ring
        && HeapOk(ring, size, live, units)
    }

    constructor ()
      ensures Valid() && freep.None? && live == map[] && units == {}
    {
      ptr, size, freep := map[], map[], None;
      ring, live, units := [], map[], {};
    }

    /** free's search: the block after which bp belongs, reached from freep in one turn of the ring. */
    method Search(bp: nat) returns (p: nat, ghost m: nat)
      requires freep.Some? && Ordered(ring, size) && Linked(ring, ptr) && freep.value in ring
      requires bp > BASE && forall k :: 0 <= k < |ring| ==> ring[k] != bp
      ensures Place(ring, bp, m) && p == ring[m]
    {
      m := PlaceExists(ring, size, bp, |ring|);
      hide Ordered, Linked, Place;
      p := freep.value;
      ghost var k: nat :| k < |ring| && ring[k] == p;
      SearchAt(ring, size, ptr, bp, m, k);
      while !(bp > p && bp < ptr[p])
        invariant k < |ring| && p == ring[k] && p in ptr && SearchFacts(ring, ptr, bp, m, k)
        decreases if k <= m then m - k else m + |ring| - k
      {
        if p >= ptr[p] && (bp > p || bp < ptr[p]) {
          break;
        }
        k := Succ(k, |ring|);
        p := ptr[p];
        SearchAt(ring, size, ptr, bp, m, k);
      }
    }

    /** free's first test: absorb the next free block if the block reaches it. */
    method JoinUpper(bp: nat, p: nat, ghost m: nat)
      requires Inserting(ring, size, bp, m) && Linked(ring, ptr) && p == ring[m]
      modifies this`ptr, this`size, this`ring
      ensures Inserting(ring, size, bp, m) && LinkedBut(ring, ptr, bp, m) && p == ring[m]
      ensures m + 1 < |ring| ==> bp + size[bp] < ring[m + 1]
      ensures forall u: nat :: FreeOrIn(u, ring, size, bp) <==> FreeOrIn(u, old(ring), old(size), bp)
      ensures size == old(size)[bp := size[bp]] && size[bp] >= old(size)[bp]
    {
      hide Ordered, Linked, LinkedBut, FreeOrIn, Inserting, Place;
      UpperFacts(ring, size, ptr, bp, m);
      if bp + size[bp] == ptr[p] {
        MergeUpper(ring, size, bp, m);
        LinkUpper(ring, ptr, bp, m);
        size := size[bp := size[bp] + size[ptr[p]]];
        ptr := ptr[bp := ptr[ptr[p]]];
        ring := ring[..m + 1] + ring[m + 2..];
      } else {
        LinkPlain(ring, ptr, bp, m);
        ptr := ptr[bp := ptr[p]];
      }
    }

    /** free's second test: the previous free block absorbs the block if it reaches it. */
    method JoinLower(bp: nat, p: nat, ghost m: nat)
      requires Inserting(ring, size, bp, m) && LinkedBut(ring, ptr, bp, m) && p == ring[m]
      requires m + 1 < |ring| ==> bp + size[bp] < ring[m + 1]
      modifies this`ptr, this`size, this`ring
      ensures Ordered(ring, size) && Linked(ring, ptr) && m < |ring| && p == ring[m]
      ensures forall u: nat :: IsFree(u, ring, size) <==> FreeOrIn(u, old(ring), old(size), bp)
      ensures size == old(size)[p := size[p]]
      ensures if p + old(size)[p] == bp then size[p] == old(size)[p] + old(size)[bp]
              else p in ptr && ptr[p] == bp && size == old(size)
    {
      if p + size[p] == bp {
        MergeLower(ring, size, bp, m);
        LinkJoin(ring, ptr, bp, m);
        size := size[p := size[p] + size[bp]];
        ptr := ptr[p := ptr[bp]];
      } else {
        InsertAlone(ring, size, bp, m);
        LinkInsert(ring, ptr, bp, m);
        ptr := ptr[p := bp];
        ring := ring[..m + 1] + [bp] + ring[m + 1..];
      }
    }

    /** free: the block's units, and no others, become free. */
    method Free(ap: nat)
      requires Valid() && ap >= 1 && ap - 1 in live
      modifies this
      ensures Valid() && freep.Some? && live == old(live) - {ap - 1} && units == old(units)
      ensures Holds(ring, size, old(live)[ap - 1])
    {
      var bp := ap - 1;
      hide Ordered, Linked, HeapOk, LiveOk, IsFree, FreeOrIn, Inserting, LinkedBut;
      forall a | a in live ensures a in size && a !in ring { LiveBlock(ring, size, live, units, a); }
      LiveBlock(ring, size, live, units, bp);
      var p, m := Search(bp);
      BetweenBlocks(ring, size, bp, m);
      ghost var ring0, size0 := ring, size;
      JoinUpper(bp, p, m);
      JoinLower(bp, p, m);
      FreedOk(ring0, size0, live, units, bp, ring, size);
      freep := Some(p);
      live := live - {bp};
      JoinedHolds(ring, size, ptr, m, bp, old(live)[bp]);
    }

    /** morecore: ask sbrk for at least GROW units and free them.  `sz` is the size of the process, and `memory` tells
        whether there are frames enough.  When the size of the block in bytes is not a positive int, sbrk fails and
        takes all pages away (Gone), or succeeds without giving the block; then the header is written at the old end
        of the process, which faults if that page is not there (Fault) and otherwise goes on as if the process had
        the block (Lost). */
    method MoreCore(nu: nat, sz: nat, memory: bool) returns (r: Growth, b: Break)
      requires Valid() && freep.Some? && 1 <= nu <= 2 * HUGE && Backed(units, sz)
      modifies this
      ensures b == Sbrk.Sbrk(sz, Argument(Max(nu, GROW) * HEADER), memory)
      ensures r.Grown? || r.NoMemory? <==> Max(nu, GROW) < HUGE
      ensures r.Grown? || r.Lost? || r.Fault? <==> b.ok
      ensures r.Gone? <==> Max(nu, GROW) * HEADER + sz == WORD
      ensures r.Gone? ==> !b.ok && !b.whole && b.size == sz
      ensures r.Fault? || r.Lost? ==> b == Break(true, Left(sz, Max(nu, GROW)), true)
      ensures r.Fault? <==> Max(nu, GROW) >= HUGE && !r.Gone? && !Covers(Left(sz, Max(nu, GROW)), sz)
      ensures r.Grown? ==>
        && Valid() && freep.Some? && live == old(live) && units == old(units) + Units(sz / HEADER, Max(nu, GROW))
        && b.size == sz + Max(nu, GROW) * HEADER && Backed(units, b.size) && Holds(ring, size, nu)
      ensures !r.Grown? ==>
        && Valid() && freep == old(freep) && live == old(live) && units == old(units)
        && ring == old(ring) && size == old(size) && ptr == old(ptr)
      ensures r.NoMemory? ==> b.size == sz && (!memory || sz + Max(nu, GROW) * HEADER >= KERNBASE)
    {
      hide Ordered, HeapOk, Linked, Holds, IsFree, LiveOk;
      var n := if nu < GROW then GROW else nu;
      b := Sbrk.Sbrk(sz, Argument(n * HEADER), memory);
      SbrkGives(sz, n, memory);
      if !b.ok {
        return if b.whole then NoMemory else Gone, b;
      }
      if !Covers(b.size, sz) {
        return Fault, b;
      }
      if b.size < sz + n * HEADER {
        return Lost, b;
      }
      var hp := sz / HEADER;
      GrownOk(ring, size, live, units, hp, n, Units(hp, n));
      size := size[hp := n];
      live := live[hp := n];
      units := units + Units(hp, n);
      Free(hp + 1);
      assert live == old(live);
      HoldsLess(ring, size, n, nu);
      return Grown, b;
    }

    /** malloc takes n units from a block that has them: all of it, or its last n units. */
    method Take(prevp: nat, p: nat, n: nat, ghost k: nat) returns (a: nat)
      requires Valid() && freep.Some? && 1 <= k < |ring| && p == ring[k] && prevp == ring[k - 1]
      requires p in size && size[p] >= n >= 1
      modifies this
      ensures Valid() && freep.Some? && units == old(units) && a !in old(live) && live == old(live)[a := n]
    {
      hide Ordered, Linked, HeapOk, IsFree;
      ghost var ring0, size0 := ring, size;
      forall b | b in live ensures b in size && b !in ring && b != p + size[p] - n {
        TakeFacts(ring, size, live, units, k, n, b);
      }
      TakeBase(ring, size, k, n);
      if size[p] == n {
        TakeExact(ring, size, ptr, k);
        ptr := ptr[prevp := ptr[p]];
        ring := ring[..k] + ring[k + 1..];
        a := p;
      } else {
        TakeTail(ring, size, k, n);
        size := size[p := size[p] - n];
        a := p + size[p];
        size := size[a := n];
      }
      TakenOk(ring0, size0, live, units, a, n, ring, size);
      live := live[a := n];
      freep := Some(prevp);
      assert ring[k - 1] == prevp;
    }

    /** malloc: a block of its own, of exactly the units asked for.  The search goes once round the
        list; if nothing fits, morecore is called, at most once, and the second round succeeds.  For requests
        above MAX_REQUEST whose rounding does not overflow, sbrk's answer decides between the last three outcomes. */
    method Malloc(nbytes: nat, sz: nat, memory: bool) returns (r: Allocation, sz': nat)
      requires Valid() && nbytes < WORD && Backed(units, sz)
      modifies this
      ensures r.Block? || r.Null? <==> !(MAX_REQUEST < nbytes <= WORD - HEADER)
      ensures r.NullGone? <==> HEADER * NUnits(nbytes) + sz == WORD
      ensures r.Killed? <==>
        && MAX_REQUEST < nbytes <= WORD - HEADER && HEADER * NUnits(nbytes) + sz != WORD
        && !Covers(Left(sz, NUnits(nbytes)), sz)
      ensures r.Killed? || r.LostBlock? ==> sz' == Left(sz, NUnits(nbytes))
      ensures r.NullGone? ==> Valid() && live == old(live) && units == old(units) && sz' == sz
      ensures r.Block? || r.Null? ==> Valid() && Backed(units, sz')
      ensures r.Block? ==>
        && r.addr >= 1 && r.addr - 1 !in old(live) && live == old(live)[r.addr - 1 := NUnits(nbytes)]
        && ((live[r.addr - 1] - 1) * HEADER >= nbytes <==> nbytes <= MAX_REQUEST)
      ensures r.Block? || r.Null? ==>
        || (units == old(units) && sz' == sz)
        || (units == old(units) + Units(sz / HEADER, Max(NUnits(nbytes), GROW))
            && sz' == sz + Max(NUnits(nbytes), GROW) * HEADER)
      ensures r.Null? ==>
        && live == old(live) && units == old(units) && sz' == sz && !Holds(ring, size, NUnits(nbytes))
        && (!memory || sz + Max(NUnits(nbytes), GROW) * HEADER >= KERNBASE)
    {
      hide Ordered, Linked, HeapOk, Walk, Holds, Units, Backed, NUnits;
      var nunits := NUnits(nbytes);
      HugeIff(nbytes);
      RoomIff(nbytes);
      BackedSize(units, sz);
      sz' := sz;
      if freep.None? {
        InitBase();
      }
      ghost var kf: nat, t: nat, grown := 0, 0, false;
      kf :| kf < |ring| && ring[kf] == freep.value;
      WalkStart(ring, size, ptr, freep.value, kf, nunits);
      var prevp := freep.value;
      var p := ptr[prevp];
      while true
        invariant Valid() && freep.Some? && live == old(live) && Backed(units, sz')
        invariant Walk(ring, size, freep.value, kf, t, prevp, p, nunits)
        invariant if grown then
                    && Holds(ring, size, nunits) && units == old(units) + Units(sz / HEADER, Max(nunits, GROW))
                    && sz' == sz + Max(nunits, GROW) * HEADER
                  else units == old(units) && sz' == sz
        decreases !grown, |ring| - t
      {
        WalkFacts(ring, size, ptr, freep.value, kf, t, prevp, p, nunits);
        if size[p] >= nunits {
          NoHugeBlock(ring, size, live, units, sz', Pos(kf, t + 1, |ring|));
          var a := Take(prevp, p, nunits, Pos(kf, t + 1, |ring|));
          return Block(a + 1), sz';
        }
        if p == freep.value {
          AllSmall(ring, size, freep.value, kf, t, prevp, p, nunits);
          var g, b := MoreCore(nunits, sz', memory);
          if g.NoMemory? {
            return Null, sz';
          }
          if !g.Grown? {
            return if g.Gone? then NullGone else if g.Fault? then Killed else LostBlock, b.size;
          }
          grown := true;
          sz' := b.size;
          p := freep.value;
          kf :| kf < |ring| && ring[kf] == freep.value;
          t := 0;
          WalkStart(ring, size, ptr, p, kf, nunits);
          prevp, p := p, ptr[p];
        } else {
          prevp, p := p, ptr[p];
          t := t + 1;
        }
      }
    }

    /** The first call links base to itself. */
    method InitBase()
      requires Valid() && freep.None?
      modifies this`ptr, this`size, this`freep, this`ring
      ensures Valid() && freep == Some(BASE) && ring == [BASE]
    {
      ptr := ptr[BASE := BASE];
      freep := Some(BASE);
      size := size[BASE := 0];
      ring := [BASE];
    }
  }

  /** The number of units for nbytes bytes and a header, in 32-bit arithmetic. */
  function NUnits(nbytes: nat): (n: nat)
    ensures n >= 1
  {
    (nbytes + HEADER - 1) % WORD / HEADER + 1
  }

  /** The size field of the block leaves room for the bytes asked for exactly when rounding the request
      up to whole units does not overflow 32 bits; for the largest requests it has no room at all. */
  lemma RoomIff(nbytes: nat)
    requires nbytes < WORD
    ensures (NUnits(nbytes) - 1) * HEADER >= nbytes <==> nbytes <= WORD - HEADER
    ensures nbytes > WORD - HEADER ==> NUnits(nbytes) == 1
  {
    if nbytes <= WORD - HEADER {
      assert (nbytes + HEADER - 1) % WORD == nbytes + HEADER - 1;
    } else {
      assert (nbytes + HEADER - 1) % WORD == nbytes + HEADER - 1 - WORD;
    }
  }

  lemma HugeIff(nbytes: nat)
    requires nbytes < WORD
    ensures NUnits(nbytes) <= 2 * HUGE && (NUnits(nbytes) >= HUGE <==> MAX_REQUEST < nbytes <= WORD - HEADER)
  {
    if nbytes <= WORD - HEADER {
      assert (nbytes + HEADER - 1) % WORD == nbytes + HEADER - 1;
    } else {
      assert (nbytes + HEADER - 1) % WORD == nbytes + HEADER - 1 - WORD;
    }
  }

  datatype Growth = Grown | NoMemory | Gone | Fault | Lost

  /** What malloc comes to: a block; null for lack of memory; null, while sbrk has taken all pages away; the process is
      killed for writing a header beyond its memory; or malloc goes on with a block that the process does not have. */
  datatype Allocation = Block(addr: nat) | Null | NullGone | Killed | LostBlock

  /** The size after an sbrk that succeeds without giving the n units asked for: it has shrunk the process or left it
      alone. */
  function Left(sz: nat, n: nat): nat {
    if n * HEADER + sz > WORD then n * HEADER + sz - WORD else sz
  }

  /** Every unit lies within the memory of a process of size sz. */
  ghost predicate Backed(units: set<nat>, sz: nat) {
    0 < sz < KERNBASE && sz % HEADER == 0 && forall u :: u in units ==> (u + 1) * HEADER <= sz
  }

  lemma BackedSize(units: set<nat>, sz: nat)
    requires Backed(units, sz)
    ensures 0 < sz < KERNBASE
  {
  }

  /** What sbrk does when morecore asks for n units: it gives the process exactly that much more, or
      reports that there is no memory and changes nothing, if and only if n is below HUGE.  Otherwise it
      succeeds without giving anything, shrinks the process, or fails and takes everything away. */
  lemma SbrkGives(sz: nat, n: nat, memory: bool)
    requires 0 < sz < KERNBASE && 1 <= n <= 2 * HUGE
    ensures var b := Sbrk.Sbrk(sz, Argument(n * HEADER), memory);
      && (n < HUGE <==> (b.ok && b.size == sz + n * HEADER) || (!b.ok && b.size == sz && b.whole))
      && (n < HUGE ==> (b.ok <==> memory && sz + n * HEADER < KERNBASE) && b.whole)
      && (n >= HUGE ==> (b.ok <==> n * HEADER + sz != WORD))
      && (n >= HUGE ==> b == if b.ok then Break(true, Left(sz, n), true) else Break(false, sz, false))
  {
  }

  /** Requests at which sbrk reports success without giving memory: one at which it does nothing, one at which it gets
      the argument 0, and one at which it takes 24 bytes away. */
  lemma LostRequests(sz: nat, memory: bool)
    requires 24 < sz < 0x7FFF_FFF8
    ensures Sbrk.Sbrk(sz, Argument(NUnits(0x8000_0000) * HEADER), memory) == Break(true, sz, true)
    ensures Argument(NUnits(0xFFFF_FFF8) * HEADER) == 0
    ensures Sbrk.Sbrk(sz, Argument(NUnits(0xFFFF_FFE0) * HEADER), memory) == Break(true, sz - 24, true)
  {
    hide NUnits;
    LostUnits();
  }

  lemma LostUnits()
    ensures NUnits(0x8000_0000) == 0x1000_0001 && NUnits(0xFFFF_FFF8) == 0x2000_0000
    ensures NUnits(0xFFFF_FFE0) == 0x1FFF_FFFD
  {
  }

  /** The request at which a process of size sz is left without pages and malloc returns null; for a size of 0x3000 it
      is 0xFFFF_CFF8. */
  lemma GoneRequest(sz: nat, memory: bool)
    requires HEADER < sz < KERNBASE && sz % HEADER == 0
    ensures var n := NUnits(WORD - HEADER - sz);
      HEADER * n + sz == WORD && Sbrk.Sbrk(sz, Argument(n * HEADER), memory) == Break(false, sz, false)
    ensures WORD - HEADER - 0x3000 == 0xFFFF_CFF8
  {
    assert (WORD - HEADER - sz + HEADER - 1) % WORD == WORD - sz - 1;
    assert (WORD - sz) % HEADER == 0;
  }

  /** Within the memory of a process no free block is huge. */
  lemma NoHugeBlock(ring: seq<nat>, size: map<nat, nat>, live: map<nat, nat>, units: set<nat>, sz: nat, k: nat)
    requires Ordered(ring, size) && HeapOk(ring, size, live, units) && Backed(units, sz) && 1 <= k < |ring|
    ensures size[ring[k]] < HUGE
  {
    var u := ring[k] + size[ring[k]] - 1;
    assert InBlock(u, ring[k], size[ring[k]]);
    assert IsFree(u, ring, size);
  }

  /** Position t steps after k on a ring of n. */
  function Pos(k: nat, t: nat, n: nat): nat {
    if k + t < n then k + t else k + t - n
  }

  /** malloc has looked at the t blocks after freep, all too small, and stands at the next one. */
  ghost predicate Walk(ring: seq<nat>, size: map<nat, nat>, freep: nat, kf: nat, t: nat, prevp: nat, p: nat, n: nat) {
    && kf < |ring| && t < |ring| && ring[kf] == freep && n >= 1
    && prevp == ring[Pos(kf, t, |ring|)] && p == ring[Pos(kf, t + 1, |ring|)]
    && forall s: nat :: 1 <= s <= t ==> ring[Pos(kf, s, |ring|)] in size && size[ring[Pos(kf, s, |ring|)]] < n
  }

  lemma HoldsLess(ring: seq<nat>, size: map<nat, nat>, n: nat, m: nat)
    requires Holds(ring, size, n) && m <= n
    ensures Holds(ring, size, m)
  {
    var k :| 0 <= k < |ring| && ring[k] in size && size[ring[k]] >= n;
  }

  lemma WalkStart(ring: seq<nat>, size: map<nat, nat>, ptr: map<nat, nat>, freep: nat, kf: nat, n: nat)
    requires Linked(ring, ptr) && kf < |ring| && ring[kf] == freep && n >= 1
    ensures freep in ptr && Walk(ring, size, freep, kf, 0, freep, ptr[freep], n)
  {
    assert Link(ring, ptr, kf);
  }

  lemma WalkFacts(ring: seq<nat>, size: map<nat, nat>, ptr: map<nat, nat>, freep: nat, kf: nat, t: nat, prevp: nat,
          p: nat, n: nat)
    requires Ordered(ring, size) && Linked(ring, ptr) && Walk(ring, size, freep, kf, t, prevp, p, n)
    ensures p in size && p in ptr && (p == freep <==> t + 1 == |ring|)
    ensures var k := Pos(kf, t + 1, |ring|);
            if size[p] >= n then 1 <= k < |ring| && p == ring[k] && prevp == ring[k - 1]
            else p != freep ==> Walk(ring, size, freep, kf, t + 1, p, ptr[p], n)
  {
    var k := Pos(kf, t + 1, |ring|);
    assert Link(ring, ptr, k);
    if k < kf { assert ring[k] < ring[kf]; }
    if k > kf { assert ring[kf] < ring[k]; }
  }

  /** Back at freep, every block has been seen. */
  lemma AllSmall(ring: seq<nat>, size: map<nat, nat>, freep: nat, kf: nat, t: nat, prevp: nat, p: nat, n: nat)
    requires Ordered(ring, size) && Walk(ring, size, freep, kf, t, prevp, p, n) && t + 1 == |ring| && size[p] < n
    ensures !Holds(ring, size, n)
  {
    forall k | 0 <= k < |ring| ensures size[ring[k]] < n {
      var s := if k > kf then k - kf else k + |ring| - kf;
      assert Pos(kf, s, |ring|) == k;
      if s == |ring| { assert k == kf; }
    }
  }

  lemma TakeFacts(ring: seq<nat>, size: map<nat, nat>, live: map<nat, nat>, units: set<nat>, k: nat, n: nat, b: nat)
    requires Ordered(ring, size) && HeapOk(ring, size, live, units) && k < |ring| && 1 <= n <= size[ring[k]]
    requires b in live
    ensures b in size && b !in ring && b != ring[k] + size[ring[k]] - n
  {
    LiveBlock(ring, size, live, units, b);
    assert InBlock(b, b, size[b]);
    assert InBlock(ring[k] + size[ring[k]] - n, ring[k], size[ring[k]]);
  }

  lemma TakeBase(ring: seq<nat>, size: map<nat, nat>, k: nat, n: nat)
    requires Ordered(ring, size) && 1 <= k < |ring| && 1 <= n <= size[ring[k]]
    ensures ring[k] + size[ring[k]] - n > BASE
    ensures forall u: nat :: InBlock(u, ring[k] + size[ring[k]] - n, n) ==> IsFree(u, ring, size)
  {
    assert ring[0] + size[ring[0]] < ring[k];
    forall u: nat | InBlock(u, ring[k] + size[ring[k]] - n, n) ensures IsFree(u, ring, size) {
      assert InBlock(u, ring[k], size[ring[k]]);
    }
  }

  ghost function Units(a: nat, n: nat): (r: set<nat>)
    ensures forall u: nat :: u in r <==> InBlock(u, a, n)
  {
    set u | a <= u < a + n && InBlock(u, a, n)
  }

  lemma JoinedHolds(ring: seq<nat>, size: map<nat, nat>, ptr: map<nat, nat>, m: nat, bp: nat, n: nat)
    requires Ordered(ring, size) && Linked(ring, ptr) && m < |ring|
    requires size[ring[m]] >= n || (ring[m] in ptr && ptr[ring[m]] == bp && bp in size && size[bp] >= n)
    ensures Holds(ring, size, n)
  {
    assert Link(ring, ptr, m);
    assert size[ring[m]] >= n || size[ring[Succ(m, |ring|)]] >= n;
  }

  /** Some free block has at least n units. */
  ghost predicate Holds(ring: seq<nat>, size: map<nat, nat>, n: nat) {
    exists k :: 0 <= k < |ring| && ring[k] in size && size[ring[k]] >= n
  }
}

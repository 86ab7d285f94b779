/** The buffer cache (bio.c) over the in-memory disk (memide.c). */
module Bio {
  // A cache is specified by three views that clients reason with: `View`, the current contents of
  // every block as any reader would see them; `Dirty`, the blocks pinned by the log; and `Locked`,
  // the blocks whose buffer lock is held.  Ref, Acquire, Iderw, Modify, Pin, Unlock and Deref are one
  // critical section, or one access under a buffer lock, each; so an interleaving of processes is a
  // sequence of such calls and `Valid` is its invariant.  Bread, Bwrite, Overwrite and Brelse put
  // several of them together and let other processes run between any two.

  import opened Blocks
  import opened Prelude

  const NBUF: nat := 30
  const HEAD: nat := NBUF

  /** struct buf: `lock` is the pid holding the sleep lock, 0 when it is free.  The machine keeps only refcnt; `users`
      records whose references it counts. */
  datatype Buf =
    Buf(dev: nat, blockno: nat, valid: bool, dirty: bool, refcnt: nat, users: multiset<nat>, lock: nat, data: Block)

  // ----- The list of buffers, most recently released first -----

  /** Position k on the ring: the list head, then `order`, then the head again. */
  ghost function At(order: seq<nat>, k: nat): nat
    requires k <= |order| + 1
  {
    if k == 0 || k == |order| + 1 then HEAD else order[k - 1]
  }

  /** The link between positions k and k + 1, in both directions. */
  ghost predicate Link(order: seq<nat>, next: seq<nat>, prev: seq<nat>, k: nat) {
    && k <= |order| && At(order, k) < |next| && At(order, k + 1) < |prev|
    && next[At(order, k)] == At(order, k + 1)
    && prev[At(order, k + 1)] == At(order, k)
  }

  /** The prev/next fields form exactly the doubly linked ring head, order[0], order[1], ... */
  ghost predicate Linked(order: seq<nat>, next: seq<nat>, prev: seq<nat>) {
    && |next| == |prev| == NBUF + 1
    && (forall k :: 0 <= k < |order| ==> order[k] < NBUF)
    && (forall j, k :: 0 <= j < k < |order| ==> order[j] != order[k])
    && (forall k: nat :: k <= |order| ==> Link(order, next, prev, k))
  }

  lemma LinkedPushFront(order: seq<nat>, next: seq<nat>, prev: seq<nat>, b: nat)
    requires Linked(order, next, prev) && b < NBUF && b !in order
    ensures next[HEAD] <= NBUF
    ensures Linked([b] + order, next[b := next[HEAD]][HEAD := b], prev[b := HEAD][next[HEAD] := b])
  {
    assert Link(order, next, prev, 0);
    var order', next', prev' := [b] + order, next[b := next[HEAD]][HEAD := b], prev[b := HEAD][next[HEAD] := b];
    forall k: nat | k <= |order'| ensures Link(order', next', prev', k)
    {
      if k >= 1 { assert Link(order, next, prev, k - 1); }
    }
  }

  lemma LinkedUnlink(order: seq<nat>, next: seq<nat>, prev: seq<nat>, m: nat)
    requires Linked(order, next, prev) && m < |order|
    ensures var b := order[m];
            && next[b] <= NBUF && prev[b] <= NBUF
            && Linked(order[..m] + order[m + 1..], next[prev[b] := next[b]], prev[next[b] := prev[b]])
  {
    var b := order[m];
    assert Link(order, next, prev, m) && Link(order, next, prev, m + 1);
    var order', next', prev' := order[..m] + order[m + 1..], next[prev[b] := next[b]], prev[next[b] := prev[b]];
    forall k: nat | k <= |order'| ensures Link(order', next', prev', k)
    {
      assert Link(order, next, prev, k);
      if k >= m { assert Link(order, next, prev, k + 1); }
    }
  }

  /** Take buffer b, at position m, off the list. */
  method Unlink(next: array<nat>, prev: array<nat>, b: nat, ghost order: seq<nat>, ghost m: nat)
    requires next != prev && Linked(order, next[..], prev[..]) && m < |order| && order[m] == b
    modifies next, prev
    ensures Linked(order[..m] + order[m + 1..], next[..], prev[..])
  {
    LinkedUnlink(order, next[..], prev[..], m);
    ghost var next0: seq<nat>, prev0: seq<nat> := next[..], prev[..];
    prev[next[b]] := prev[b];
    next[prev[b]] := next[b];
    assert next[..] == next0[prev0[b] := next0[b]] && prev[..] == prev0[next0[b] := prev0[b]];
  }

  /** Put buffer b at the front of the list. */
  method PushFront(next: array<nat>, prev: array<nat>, b: nat, ghost order: seq<nat>)
    requires next != prev && Linked(order, next[..], prev[..]) && b < NBUF && b !in order
    modifies next, prev
    ensures Linked([b] + order, next[..], prev[..])
  {
    LinkedPushFront(order, next[..], prev[..], b);
    ghost var next0: seq<nat>, prev0: seq<nat> := next[..], prev[..];
    next[b] := next[HEAD];
    prev[b] := HEAD;
    prev[next[HEAD]] := b;
    next[HEAD] := b;
    assert next[..] == next0[b := next0[HEAD]][HEAD := b] && prev[..] == prev0[b := HEAD][next0[HEAD] := b];
  }

  ghost predicate Listed(order: seq<nat>, i: int) {
    i in order
  }

  /** `order` lists every buffer, by strictly decreasing time of last final release. */
  ghost predicate ByRelease(order: seq<nat>, stamp: seq<nat>, clock: nat) {
    && |stamp| == |order| == NBUF
    && (forall i :: 0 <= i < NBUF ==> Listed(order, i))
    && (forall i :: 0 <= i < NBUF ==> stamp[i] < clock)
    && (forall k :: 0 <= k < |order| ==> order[k] < NBUF)
    && (forall j, k :: 0 <= j < k < |order| ==> stamp[order[j]] > stamp[order[k]])
  }

  // ----- Coherence -----

  predicate Holds(x: Buf, b: nat) {
    x.dev == ROOTDEV && x.blockno == b
  }

  /** bget may recycle the buffer. */
  predicate Free(x: Buf) {
    x.refcnt == 0 && !x.dirty
  }

  ghost predicate BufOk(x: Buf, disk: seq<Block>) {
    && x.refcnt == |x.users|
    && (x.lock != 0 ==> x.lock in x.users)
    && (x.dirty ==> x.valid)
    && (x.dev == ROOTDEV ==> x.blockno < |disk|)
    && (x.dev != ROOTDEV ==> !x.valid && x.refcnt == 0)
    && (x.dev == ROOTDEV && x.valid && !x.dirty && x.lock == 0 ==> x.data == disk[x.blockno])
  }

  /** One buffer per block of the root device, and every unlocked clean valid buffer equals the disk. */
  ghost predicate Coherent(bs: seq<Buf>, disk: seq<Block>) {
    && |bs| == NBUF
    && (forall i :: 0 <= i < NBUF ==> BufOk(bs[i], disk))
    && (forall i, j :: 0 <= i < j < NBUF && bs[i].dev == ROOTDEV && bs[j].dev == ROOTDEV ==>
          bs[i].blockno != bs[j].blockno)
  }

  /** What a reader of block b gets: the cached copy if there is a valid one, otherwise the disk. */
  ghost function ViewAt(bs: seq<Buf>, disk: seq<Block>, b: nat): Block
    requires b < |disk|
  {
    if exists i :: 0 <= i < |bs| && Holds(bs[i], b) && bs[i].valid then
      var i :| 0 <= i < |bs| && Holds(bs[i], b) && bs[i].valid;
      bs[i].data
    else
      disk[b]
  }

  ghost function ViewOf(bs: seq<Buf>, disk: seq<Block>): (v: seq<Block>)
    ensures |v| == |disk|
  {
    seq(|disk|, b requires 0 <= b < |disk| => ViewAt(bs, disk, b))
  }

  ghost function DirtyOf(bs: seq<Buf>): set<nat> {
    set i | 0 <= i < |bs| && bs[i].dev == ROOTDEV && bs[i].dirty :: bs[i].blockno
  }

  ghost function LockedOf(bs: seq<Buf>): set<nat> {
    set i | 0 <= i < |bs| && bs[i].dev == ROOTDEV && bs[i].lock != 0 :: bs[i].blockno
  }

  lemma ViewAtIs(bs: seq<Buf>, disk: seq<Block>, b: nat, i: nat)
    requires Coherent(bs, disk) && i < NBUF && Holds(bs[i], b)
    ensures b < |disk|
    ensures ViewAt(bs, disk, b) == if bs[i].valid then bs[i].data else disk[b]
  {
  }

  /** A block that is neither pinned nor locked reads as what is on disk. */
  lemma CleanView(bs: seq<Buf>, disk: seq<Block>, b: nat)
    requires Coherent(bs, disk) && b < |disk| && b !in LockedOf(bs)
    ensures b !in DirtyOf(bs) ==> ViewOf(bs, disk)[b] == disk[b]
  {
    if i :| 0 <= i < NBUF && Holds(bs[i], b) {
      ViewAtIs(bs, disk, b, i);
      assert bs[i].dirty ==> b in DirtyOf(bs);
      assert bs[i].lock != 0 ==> b in LockedOf(bs);
    }
  }

  /** How replacing one buffer changes the three views. */
  lemma ViewUpdate(bs: seq<Buf>, disk: seq<Block>, i: nat, x: Buf, disk': seq<Block>)
    requires Coherent(bs, disk) && i < NBUF && Coherent(bs[i := x], disk')
    requires |disk'| == |disk| && x.dev == ROOTDEV && x.blockno < |disk|
    requires forall b :: 0 <= b < |disk| && b != x.blockno ==> disk'[b] == disk[b]
    requires bs[i].dev == ROOTDEV && bs[i].blockno != x.blockno ==> bs[i].lock == 0 && !bs[i].dirty
    ensures ViewOf(bs[i := x], disk') ==
            ViewOf(bs, disk)[x.blockno := if x.valid then x.data else disk'[x.blockno]]
  {
    var bs' := bs[i := x];
    forall b | 0 <= b < |disk| && b != x.blockno
      ensures ViewAt(bs', disk', b) == ViewAt(bs, disk, b)
    {
      if j :| 0 <= j < NBUF && Holds(bs[j], b) {
        ViewAtIs(bs, disk, b, j);
        if j != i { assert bs'[j] == bs[j]; ViewAtIs(bs', disk', b, j); }
      } else {
        forall j | 0 <= j < NBUF ensures !Holds(bs'[j], b) {}
      }
    }
    assert bs'[i] == x;
    ViewAtIs(bs', disk', x.blockno, i);
  }

  /** Neither a cache hit nor recycling a clean unreferenced buffer changes a view. */
  lemma RefViews(bs: seq<Buf>, disk: seq<Block>, i: nat, x: Buf)
    requires Coherent(bs, disk) && i < NBUF && Coherent(bs[i := x], disk) && x.dev == ROOTDEV
    requires if Holds(bs[i], x.blockno) then x == bs[i].(refcnt := x.refcnt, users := x.users) else
             && bs[i].refcnt == 0 && !bs[i].dirty && !x.valid && !x.dirty && x.lock == 0
             && forall j :: 0 <= j < NBUF ==> !Holds(bs[j], x.blockno)
    ensures ViewOf(bs[i := x], disk) == ViewOf(bs, disk)
    ensures DirtyOf(bs[i := x]) == DirtyOf(bs) && LockedOf(bs[i := x]) == LockedOf(bs)
  {
    assert bs[i := x][i] == x;
    ViewUpdate(bs, disk, i, x, disk);
    if Holds(bs[i], x.blockno) { ViewAtIs(bs, disk, x.blockno, i); }
    FlagUpdate(bs, i, x);
  }

  /** One reference less, not of the process that holds the lock. */
  lemma LessUsed(bs: seq<Buf>, disk: seq<Block>, i: nat, p: nat)
    requires Coherent(bs, disk) && i < NBUF && p in bs[i].users && bs[i].lock != p
    ensures bs[i].refcnt > 0
    ensures var x := bs[i].(refcnt := bs[i].refcnt - 1, users := bs[i].users - multiset{p});
      && Coherent(bs[i := x], disk) && ViewOf(bs[i := x], disk) == ViewOf(bs, disk)
      && DirtyOf(bs[i := x]) == DirtyOf(bs) && LockedOf(bs[i := x]) == LockedOf(bs)
  {
    OneLess(bs[i].users, p);
    assert BufOk(bs[i], disk);
    var x := bs[i].(refcnt := bs[i].refcnt - 1, users := bs[i].users - multiset{p});
    assert BufOk(x, disk);
    assert Coherent(bs[i := x], disk);
    RefViews(bs, disk, i, x);
  }

  /** Replacing a buffer moves its own block in or out of the dirty and locked sets. */
  lemma FlagUpdate(bs: seq<Buf>, i: nat, x: Buf)
    requires i < |bs| && x.dev == ROOTDEV
    requires forall j :: 0 <= j < |bs| && j != i ==> !Holds(bs[j], x.blockno)
    requires bs[i].dev == ROOTDEV && bs[i].blockno != x.blockno ==> bs[i].lock == 0 && !bs[i].dirty
    ensures DirtyOf(bs[i := x]) == if x.dirty then DirtyOf(bs) + {x.blockno} else DirtyOf(bs) - {x.blockno}
    ensures LockedOf(bs[i := x]) == if x.lock != 0 then LockedOf(bs) + {x.blockno} else LockedOf(bs) - {x.blockno}
  {
    var bs' := bs[i := x];
    forall n
      ensures n in DirtyOf(bs') <==> if n == x.blockno then x.dirty else n in DirtyOf(bs)
      ensures n in LockedOf(bs') <==> if n == x.blockno then x.lock != 0 else n in LockedOf(bs)
    {
      assert bs'[i] == x && forall j :: 0 <= j < |bs| && j != i ==> bs'[j] == bs[j];
    }
  }

  class Cache {
    var disk: seq<Block>
    ghost var writes: seq<seq<Block>>   // the disk after each write, oldest first
    const buf: array<Buf>
    const next: array<nat>
    const prev: array<nat>
    ghost var order: seq<nat>
    ghost var stamp: seq<nat>           // time of each buffer's last final release
    ghost var clock: nat
    var others: seq<seq<Access>>        // what other processes will do at each point where they get to run

    /** The list is a ring of all the buffers in order of last final release. */
    ghost predicate ListOk()
      reads this, next, prev
    {
      next != prev && Linked(order, next[..], prev[..]) && ByRelease(order, stamp, clock)
    }

    ghost predicate Valid()
      reads this, buf, next, prev
    {
      && buf as object != next && buf as object != prev
      && ListOk()
      && buf.Length == NBUF && Coherent(buf[..], disk)
    }

    ghost function View(): seq<Block>
      reads this, buf
    {
      ViewOf(buf[..], disk)
    }

    ghost function Dirty(): set<nat>
      reads this, buf
    {
      DirtyOf(buf[..])
    }

    ghost function Locked(): set<nat>
      reads this, buf
    {
      LockedOf(buf[..])
    }

    /** binit, at boot: nothing is cached, so the view is the disk. */
    constructor (image: seq<Block>)
      ensures Valid() && fresh(buf) && fresh(next) && fresh(prev)
      ensures disk == image && writes == [] && View() == image && Dirty() == {} && Locked() == {}
    {
      disk := image;
      writes := [];
      var bufs := new Buf[NBUF](_ => Buf(0, 0, false, false, 0, multiset{}, 0, ZeroBlock()));
      var nxt, prv := new nat[NBUF + 1](_ => HEAD), new nat[NBUF + 1](_ => HEAD);
      ghost var ord: seq<nat>, st: seq<nat> := [], [];
      var b := 0;
      while b < NBUF
        invariant 0 <= b <= NBUF && |ord| == |st| == b
        invariant Linked(ord, nxt[..], prv[..])
        invariant forall i :: 0 <= i < b ==> st[i] == i
        invariant forall k :: 0 <= k < b ==> ord[k] == b - 1 - k
        invariant forall i :: 0 <= i < NBUF ==> bufs[i] == Buf(0, 0, false, false, 0, multiset{}, 0, ZeroBlock())
      {
        PushFront(nxt, prv, b, ord);
        ord := [b] + ord;
        st := st + [b];
        b := b + 1;
      }
      buf, next, prev := bufs, nxt, prv;
      order, stamp, clock := ord, st, NBUF;
      new;
      forall i | 0 <= i < NBUF ensures Listed(order, i) { assert order[NBUF - 1 - i] == i; }
      assert View() == image;
    }

    /** bget's forward scan: the buffer holding a block of the root device, or the head. */
    method Lookup(blockno: nat) returns (b: nat)
      requires Valid()
      ensures b <= NBUF
      ensures b < NBUF ==> Holds(buf[b], blockno)
      ensures b == HEAD <==> forall i :: 0 <= i < NBUF ==> !Holds(buf[i], blockno)
    {
      assert Link(order, next[..], prev[..], 0);
      b := next[HEAD];
      ghost var k: nat := 0;
      while b != HEAD
        invariant k <= NBUF && b == At(order, k + 1)
        invariant forall j :: 0 <= j < k ==> !Holds(buf[order[j]], blockno)
        decreases NBUF - k
      {
        if buf[b].dev == ROOTDEV && buf[b].blockno == blockno {
          return;
        }
        k := k + 1;
        assert Link(order, next[..], prev[..], k);
        b := next[b];
      }
      forall i | 0 <= i < NBUF ensures !Holds(buf[i], blockno) { assert Listed(order, i); }
    }

    /** bget's backward scan: the least recently released buffer that is unreferenced and
        not pinned by the log, or the head. */
    method Victim() returns (b: nat)
      requires Valid()
      ensures b <= NBUF
      ensures b < NBUF ==> Free(buf[b])
      ensures b < NBUF ==> forall i :: 0 <= i < NBUF && i != b && Free(buf[i]) ==> stamp[b] < stamp[i]
      ensures b == HEAD <==> forall i :: 0 <= i < NBUF ==> !Free(buf[i])
    {
      assert Link(order, next[..], prev[..], NBUF);
      b := prev[HEAD];
      ghost var k: nat := NBUF;
      while b != HEAD
        invariant k <= NBUF && b == At(order, k)
        invariant forall j :: k <= j < NBUF ==> !Free(buf[order[j]])
        decreases k
      {
        if buf[b].refcnt == 0 && !buf[b].dirty {
          forall i | 0 <= i < NBUF && i != b && Free(buf[i]) ensures stamp[b] < stamp[i] {
            assert Listed(order, i);
          }
          return;
        }
        k := k - 1;
        assert Link(order, next[..], prev[..], k);
        b := prev[b];
      }
      forall i | 0 <= i < NBUF ensures !Free(buf[i]) { assert Listed(order, i); }
    }

    /** The part of bget under bcache.lock: take a reference to the block's buffer, recycling
        a free buffer if the block is not cached.  None is the "no buffers" panic. */
    method Ref(me: nat, blockno: nat) returns (r: Option<nat>)
      requires Valid() && blockno < |disk|
      modifies buf
      ensures Valid()
      ensures View() == old(View()) && Dirty() == old(Dirty()) && Locked() == old(Locked())
      ensures r.Some? ==>
        var i, bs := r.value, old(buf[..]);
        && i < NBUF && buf[..] == bs[i := buf[i]]
        && Holds(buf[i], blockno) && buf[i].users == bs[i].users + multiset{me} && buf[i].lock == bs[i].lock
        && (Holds(bs[i], blockno) ==> buf[i] == bs[i].(refcnt := bs[i].refcnt + 1, users := buf[i].users))
        && (!Holds(bs[i], blockno) ==>
              && buf[i] == Buf(ROOTDEV, blockno, false, false, 1, multiset{me}, 0, bs[i].data) && Free(bs[i])
              && (forall j :: 0 <= j < NBUF ==> !Holds(bs[j], blockno))
              && (forall j :: 0 <= j < NBUF && j != i && Free(bs[j]) ==> stamp[i] < stamp[j]))
      ensures r.None? ==> buf[..] == old(buf[..])
      ensures r.None? <==>
        forall i :: 0 <= i < NBUF ==> !Holds(old(buf[..])[i], blockno) && !Free(old(buf[..])[i])
    {
      ghost var bs := buf[..];
      var b := Lookup(blockno);
      if b != HEAD {
        buf[b] := buf[b].(refcnt := buf[b].refcnt + 1, users := buf[b].users + multiset{me});
      } else {
        b := Victim();
        if b == HEAD {
          return None;
        }
        buf[b] := buf[b].(dev := ROOTDEV, blockno := blockno, valid := false, dirty := false, refcnt := 1,
                          users := multiset{me});
      }
      assert buf[..] == bs[b := buf[b]];
      RefViews(bs, disk, b, buf[b]);
      return Some(b);
    }

    /** acquiresleep on a referenced buffer, at the point where the lock is free. */
    method Acquire(me: nat, i: nat)
      requires Valid() && me != 0 && i < NBUF && me in buf[i].users && buf[i].lock == 0
      modifies buf
      ensures Valid() && buf[..] == old(buf[..])[i := old(buf[i]).(lock := me)]
      ensures View() == old(View()) && Dirty() == old(Dirty()) && Locked() == old(Locked()) + {buf[i].blockno}
    {
      ghost var bs := buf[..];
      buf[i] := buf[i].(lock := me);
      assert buf[..] == bs[i := buf[i]];
      ViewUpdate(bs, disk, i, buf[i], disk);
      ViewAtIs(bs, disk, buf[i].blockno, i);
      FlagUpdate(bs, i, buf[i]);
    }

    /** iderw of memide.c: write a dirty buffer to disk, or read an invalid one from it.
        The preconditions are its four panics. */
    method Iderw(me: nat, i: nat)
      requires Valid() && me != 0 && i < NBUF && buf[i].lock == me
      requires (!buf[i].valid || buf[i].dirty) && buf[i].dev == ROOTDEV && buf[i].blockno < |disk|
      modifies this`disk, this`writes, buf
      ensures Valid() && Locked() == old(Locked()) && Dirty() == old(Dirty()) - {buf[i].blockno}
      ensures View() == old(View())
      ensures var x := old(buf[i]);
              && disk == (if x.dirty then old(disk)[x.blockno := x.data] else old(disk))
              && writes == (if x.dirty then old(writes) + [disk] else old(writes))
              && buf[..] == old(buf[..])[i := x.(valid := true, dirty := false, data := disk[x.blockno])]
    {
      ghost var bs, disk0 := buf[..], disk;
      var x := buf[i];
      if x.dirty {
        disk := disk[x.blockno := x.data];
        writes := writes + [disk];
        buf[i] := x.(dirty := false, valid := true);
      } else {
        buf[i] := x.(data := disk[x.blockno], valid := true);
      }
      assert buf[..] == bs[i := buf[i]];
      ViewUpdate(bs, disk0, i, buf[i], disk);
      ViewAtIs(bs, disk0, x.blockno, i);
      FlagUpdate(bs, i, buf[i]);
    }

    /** The holder of the lock changes the buffer's bytes. */
    method Modify(me: nat, i: nat, data: Block)
      requires Valid() && me != 0 && i < NBUF && buf[i].lock == me && buf[i].valid
      modifies buf
      ensures Valid() && buf[..] == old(buf[..])[i := old(buf[i]).(data := data)]
      ensures View() == old(View())[buf[i].blockno := data]
      ensures Dirty() == old(Dirty()) && Locked() == old(Locked())
    {
      ghost var bs := buf[..];
      buf[i] := buf[i].(data := data);
      assert buf[..] == bs[i := buf[i]];
      ViewUpdate(bs, disk, i, buf[i], disk);
      FlagUpdate(bs, i, buf[i]);
    }

    /** log_write's effect on the buffer: B_DIRTY pins it against recycling. */
    method Pin(me: nat, i: nat)
      requires Valid() && me != 0 && i < NBUF && buf[i].lock == me && buf[i].valid
      modifies buf
      ensures Valid() && buf[..] == old(buf[..])[i := old(buf[i]).(dirty := true)]
      ensures View() == old(View()) && Dirty() == old(Dirty()) + {buf[i].blockno} && Locked() == old(Locked())
    {
      ghost var bs := buf[..];
      buf[i] := buf[i].(dirty := true);
      assert buf[..] == bs[i := buf[i]];
      ViewUpdate(bs, disk, i, buf[i], disk);
      ViewAtIs(bs, disk, buf[i].blockno, i);
      FlagUpdate(bs, i, buf[i]);
    }

    /** releasesleep: a buffer whose bytes were changed must have been logged or written first. */
    method Unlock(me: nat, i: nat)
      requires Valid() && me != 0 && i < NBUF && buf[i].lock == me
      requires buf[i].valid && !buf[i].dirty ==> buf[i].data == disk[buf[i].blockno]
      modifies buf
      ensures Valid() && buf[..] == old(buf[..])[i := old(buf[i]).(lock := 0)]
      ensures View() == old(View()) && Dirty() == old(Dirty()) && Locked() == old(Locked()) - {buf[i].blockno}
    {
      ghost var bs := buf[..];
      buf[i] := buf[i].(lock := 0);
      assert buf[..] == bs[i := buf[i]];
      ViewUpdate(bs, disk, i, buf[i], disk);
      ViewAtIs(bs, disk, buf[i].blockno, i);
      FlagUpdate(bs, i, buf[i]);
    }

    /** The part of brelse under bcache.lock: drop a reference of one's own; the last one moves the buffer
        to the front. */
    method Deref(me: nat, i: nat)
      requires Valid() && i < NBUF && me in buf[i].users && buf[i].lock != me
      modifies this`order, this`stamp, this`clock, buf, next, prev
      ensures Valid()
      ensures var x := old(buf[i]);
              buf[..] == old(buf[..])[i := x.(refcnt := x.refcnt - 1, users := x.users - multiset{me})]
      ensures View() == old(View()) && Dirty() == old(Dirty()) && Locked() == old(Locked())
      ensures buf[i].refcnt > 0 ==> order == old(order) && stamp == old(stamp)
      ensures buf[i].refcnt == 0 ==> order[0] == i && stamp == old(stamp)[i := old(clock)]
    {
      hide Linked, ByRelease, Coherent, ViewOf, DirtyOf, LockedOf;
      ghost var bs := buf[..];
      LessUsed(bs, disk, i, me);
      buf[i] := buf[i].(refcnt := buf[i].refcnt - 1, users := buf[i].users - multiset{me});
      assert buf[..] == bs[i := buf[i]];
      if buf[i].refcnt == 0 {
        MoveToFront(i);
      }
    }

    /** brelse's relinking of prev and next. */
    method MoveToFront(i: nat)
      requires ListOk() && i < NBUF
      modifies this`order, this`stamp, this`clock, next, prev
      ensures ListOk() && order[0] == i && stamp == old(stamp)[i := old(clock)]
    {
      assert Listed(order, i);
      ghost var m: nat :| m < |order| && order[m] == i;
      FrontByRelease(order, stamp, clock, m);
      Unlink(next, prev, i, order, m);
      PushFront(next, prev, i, order[..m] + order[m + 1..]);
      assert [i] + (order[..m] + order[m + 1..]) == ToFront(order, m);
      order, stamp, clock := ToFront(order, m), stamp[i := clock], clock + 1;
    }

    // ----- Other processes -----

    /** One access of another process, if it is possible at this moment. */
    method Other(me: nat, a: Access)
      requires Valid() && me != 0
      modifies this`disk, this`writes, this`order, this`stamp, this`clock, buf, next, prev
      ensures Valid() && disk == old(disk) && writes == old(writes) && View() == old(View()) && Dirty() == old(Dirty())
      ensures KeptFor(me, old(buf[..]), buf[..])
    {
      hide Linked, ByRelease, ViewOf, DirtyOf, LockedOf, Coherent;
      if a.p == 0 || a.p == me || (!a.Refer? && a.i >= NBUF) { return; }
      ghost var bs := buf[..];
      match a
      case Refer(p, b) =>
        if b < |disk| {
          var r := Ref(p, b);
          if r.Some? { ReferKept(me, bs, disk, r.value, buf[r.value]); }
        }
      case Lock(p, i) =>
        if p in buf[i].users && buf[i].lock == 0 { Acquire(p, i); }
      case Fill(p, i) =>
        if buf[i].lock == p && !buf[i].valid {
          LockedBlock(bs, disk, i);
          DirtyAt(bs, disk, i);
          Iderw(p, i);
        }
      case Release(p, i) =>
        if buf[i].lock == p {
          LockedBlock(bs, disk, i);
          if buf[i].valid && !buf[i].dirty && buf[i].data != disk[buf[i].blockno] { return; }
          Unlock(p, i);
        }
      case Drop(p, i) =>
        if p in buf[i].users && buf[i].lock != p { Deref(p, i); }
    }

    /** Other processes run for a while: any number of accesses. */
    method Others(me: nat)
      requires Valid() && me != 0
      modifies this, buf, next, prev
      ensures Valid() && disk == old(disk) && writes == old(writes) && View() == old(View()) && Dirty() == old(Dirty())
      ensures KeptFor(me, old(buf[..]), buf[..])
      ensures others == if old(others) == [] then [] else old(others)[1..]
    {
      hide Linked, ByRelease, ViewOf, DirtyOf, LockedOf, Coherent;
      if others == [] { return; }
      var acts := others[0];
      others := others[1..];
      var k := 0;
      while k < |acts|
        invariant 0 <= k <= |acts| && Valid() && disk == old(disk) && writes == old(writes)
        invariant View() == old(View()) && Dirty() == old(Dirty()) && KeptFor(me, old(buf[..]), buf[..])
        invariant others == old(others)[1..]
      {
        ghost var bs := buf[..];
        Other(me, acts[k]);
        KeptTwice(me, old(buf[..]), bs, buf[..]);
        k := k + 1;
      }
    }

    /** acquiresleep on a buffer that the process refers to: others run until the lock is free.  False if they never
        free it. */
    method AcquireSleep(me: nat, i: nat) returns (ok: bool)
      requires Valid() && me != 0 && i < NBUF && me in buf[i].users
      modifies this, buf, next, prev
      ensures Valid() && disk == old(disk) && writes == old(writes) && View() == old(View()) && Dirty() == old(Dirty())
      ensures ok ==>
        && KeptBut(me, i, old(buf[..]), buf[..]) && SameBlock(me, old(buf[i]), buf[i])
        && old(buf[i]).lock != me && buf[i].lock == me && buf[i].users[me] == old(buf[i]).users[me]
        && Settled(buf[i], disk)
      ensures !ok ==> others == [] && KeptFor(me, old(buf[..]), buf[..])
    {
      hide Linked, ByRelease, ViewOf, DirtyOf, LockedOf;
      while buf[i].lock != 0
        invariant Valid() && disk == old(disk) && writes == old(writes) && View() == old(View())
        invariant Dirty() == old(Dirty()) && KeptFor(me, old(buf[..]), buf[..])
        decreases |others|
      {
        if others == [] { return false; }
        ghost var bs := buf[..];
        Others(me);
        KeptTwice(me, old(buf[..]), bs, buf[..]);
      }
      assert SameFor(me, old(buf[..])[i], buf[..][i]);
      Acquire(me, i);
      return true;
    }

    /** bget: the locked buffer of a block.  Others run between the critical sections; the reference keeps the buffer
        from being recycled.  None is the panic for lack of buffers, or a wait for the lock that does not end. */
    method Bget(me: nat, blockno: nat) returns (r: Option<nat>)
      requires Valid() && me != 0 && blockno < |disk|
      modifies this, buf, next, prev
      ensures Valid() && disk == old(disk) && writes == old(writes) && View() == old(View()) && Dirty() == old(Dirty())
      ensures r.Some? ==>
        var i := r.value;
        && i < NBUF && KeptBut(me, i, old(buf[..]), buf[..])
        && old(buf[..])[i].lock != me && buf[i].lock == me && buf[i].users[me] == old(buf[..])[i].users[me] + 1
        && Holds(buf[i], blockno) && Settled(buf[i], disk)
    {
      hide Linked, ByRelease, ViewOf, DirtyOf, LockedOf, Coherent;
      Others(me);
      ghost var bs0 := buf[..];
      var i :- Ref(me, blockno);
      ghost var bs1 := buf[..];
      Others(me);
      assert SameFor(me, old(buf[..])[i], bs0[i]) && SameFor(me, bs1[i], buf[..][i]);
      var ok := AcquireSleep(me, i);
      return if ok then Some(i) else None;
    }

    /** bread: the buffer is also valid, and holds the block's current contents. */
    method Bread(me: nat, blockno: nat) returns (r: Option<nat>)
      requires Valid() && me != 0 && blockno < |disk|
      modifies this, buf, next, prev
      ensures Valid() && disk == old(disk) && writes == old(writes) && View() == old(View()) && Dirty() == old(Dirty())
      ensures r.Some? ==>
        var i := r.value;
        && i < NBUF && KeptBut(me, i, old(buf[..]), buf[..])
        && old(buf[..])[i].lock != me && buf[i].lock == me && buf[i].users[me] == old(buf[..])[i].users[me] + 1
        && Holds(buf[i], blockno) && buf[i].valid && buf[i].data == View()[blockno]
        && (buf[i].dirty <==> blockno in Dirty()) && Settled(buf[i], disk)
    {
      hide Linked, ByRelease, ViewOf, DirtyOf, LockedOf;
      var i :- Bget(me, blockno);
      ghost var bs := buf[..];
      Others(me);
      assert SameFor(me, bs[i], buf[..][i]);
      if !buf[i].valid {
        DirtyAt(buf[..], disk, i);
        Iderw(me, i);
      }
      ViewIs(buf[..], disk, i);
      DirtyAt(buf[..], disk, i);
      return Some(i);
    }

    /** bwrite: the buffer's contents reach the disk and the buffer becomes clean. */
    method Bwrite(me: nat, i: nat)
      requires Valid() && me != 0 && i < NBUF && buf[i].lock == me && buf[i].valid
      modifies this, buf, next, prev
      ensures Valid() && View() == old(View()) && KeptBut(me, i, old(buf[..]), buf[..])
      ensures var x := old(buf[i]);
              && disk == old(disk)[x.blockno := x.data] && writes == old(writes) + [disk]
              && SameFor(me, x.(dirty := false), buf[i])
              && Dirty() == old(Dirty()) - {x.blockno}
    {
      hide Linked, ByRelease, ViewOf, DirtyOf, LockedOf;
      Pin(me, i);
      ghost var bs := buf[..];
      Others(me);
      assert SameFor(me, bs[i], buf[..][i]);
      Iderw(me, i);
    }

    /** Overwrite a locked buffer's bytes and write them through to the disk. */
    method Overwrite(me: nat, i: nat, data: Block)
      requires Valid() && me != 0 && i < NBUF && buf[i].lock == me && buf[i].valid
      modifies this, buf, next, prev
      ensures Valid() && KeptBut(me, i, old(buf[..]), buf[..])
      ensures var x := old(buf[i]);
              && View() == old(View())[x.blockno := data]
              && disk == old(disk)[x.blockno := data] && writes == old(writes) + [disk]
              && SameFor(me, x.(dirty := false, data := data), buf[i])
              && Dirty() == old(Dirty()) - {x.blockno}
    {
      hide Linked, ByRelease, ViewOf, DirtyOf, LockedOf;
      Modify(me, i, data);
      ghost var bs := buf[..];
      Others(me);
      assert SameFor(me, bs[i], buf[..][i]);
      Bwrite(me, i);
    }

    /** brelse: unlock, then drop the reference, others running in between; a last reference moves the buffer to the
        front. */
    method Brelse(me: nat, i: nat)
      requires Valid() && me != 0 && i < NBUF && buf[i].lock == me && Settled(buf[i], disk)
      modifies this, buf, next, prev
      ensures Valid() && disk == old(disk) && writes == old(writes) && View() == old(View()) && Dirty() == old(Dirty())
      ensures KeptBut(me, i, old(buf[..]), buf[..])
      ensures buf[i].lock != me && buf[i].users[me] == old(buf[i]).users[me] - 1
      ensures buf[i].refcnt == 0 ==> order[0] == i
    {
      hide Linked, ByRelease, ViewOf, DirtyOf, LockedOf;
      ghost var bs0 := buf[..];
      Unlock(me, i);
      ghost var bs := buf[..];
      Others(me);
      assert SameFor(me, bs[i], buf[..][i]);
      Deref(me, i);
    }
  }

  ghost predicate NotHeld(me: nat, x: Buf) {
    x.lock != me && me !in x.users
  }

  /** The process has no buffer locked and refers to none. */
  ghost predicate NoneHeld(me: nat, bs: seq<Buf>) {
    forall i :: 0 <= i < |bs| ==> NotHeld(me, bs[i])
  }

  lemma ViewIs(bs: seq<Buf>, disk: seq<Block>, i: nat)
    requires Coherent(bs, disk) && i < NBUF && bs[i].dev == ROOTDEV && bs[i].valid
    ensures bs[i].blockno < |disk| && ViewOf(bs, disk)[bs[i].blockno] == bs[i].data
  {
    ViewAtIs(bs, disk, bs[i].blockno, i);
  }

  lemma LockedBlock(bs: seq<Buf>, disk: seq<Block>, i: nat)
    requires Coherent(bs, disk) && i < NBUF && bs[i].lock != 0
    ensures bs[i].dev == ROOTDEV && bs[i].blockno < |disk| && (!bs[i].valid ==> !bs[i].dirty)
  {
  }

  /** A reference taken by another process recycles no buffer that `me` refers to. */
  lemma ReferKept(me: nat, bs: seq<Buf>, disk: seq<Block>, i: nat, x: Buf)
    requires Coherent(bs, disk) && me != 0 && i < NBUF && x.users[me] == bs[i].users[me]
    requires x.lock == bs[i].lock && x.dev == ROOTDEV
    requires x == bs[i].(refcnt := x.refcnt, users := x.users) || bs[i].refcnt == 0
    ensures KeptFor(me, bs, bs[i := x])
  {
    assert BufOk(bs[i], disk);
    if bs[i].refcnt == 0 { assert bs[i].users == multiset{}; }
  }

  lemma DirtyAt(bs: seq<Buf>, disk: seq<Block>, i: nat)
    requires Coherent(bs, disk) && i < NBUF && bs[i].dev == ROOTDEV
    ensures bs[i].blockno in DirtyOf(bs) <==> bs[i].dirty
  {
  }

  lemma OneLess(users: multiset<nat>, p: nat)
    requires p in users
    ensures |users - multiset{p}| == |users| - 1
  {
    assert users == users - multiset{p} + multiset{p};
  }

  /** A clean buffer equals the disk. */
  ghost predicate Settled(x: Buf, disk: seq<Block>) {
    x.dev == ROOTDEV && x.blockno < |disk| && (x.valid && !x.dirty ==> x.data == disk[x.blockno])
  }

  /** What a process that reads may do to a buffer: refer to it, lock it, fill it from the disk, unlock
      it, and drop the reference. */
  datatype Access =
    | Refer(p: nat, blockno: nat) | Lock(p: nat, i: nat) | Fill(p: nat, i: nat) | Release(p: nat, i: nat)
    | Drop(p: nat, i: nat)

  /** What others leave alone of one buffer: the locks and references of `me`, which block it holds if `me` refers to
      it, and everything but the count of references if `me` has locked it. */
  ghost predicate SameBlock(me: nat, x: Buf, x': Buf) {
    me in x.users ==> x'.dev == x.dev && x'.blockno == x.blockno
  }

  ghost predicate SameFor(me: nat, x: Buf, x': Buf) {
    && (x'.lock == me <==> x.lock == me) && x'.users[me] == x.users[me] && SameBlock(me, x, x')
    && (x.lock == me ==> x' == x.(refcnt := x'.refcnt, users := x'.users))
  }

  ghost predicate KeptFor(me: nat, bs: seq<Buf>, bs': seq<Buf>) {
    |bs'| == |bs| && forall i :: 0 <= i < |bs| ==> SameFor(me, bs[i], bs'[i])
  }

  /** The same of all buffers but one. */
  ghost predicate KeptBut(me: nat, i: nat, bs: seq<Buf>, bs': seq<Buf>) {
    |bs'| == |bs| && forall j :: 0 <= j < |bs| && j != i ==> SameFor(me, bs[j], bs'[j])
  }

  lemma KeptTwice(me: nat, bs: seq<Buf>, bs1: seq<Buf>, bs2: seq<Buf>)
    requires KeptFor(me, bs, bs1) && KeptFor(me, bs1, bs2)
    ensures KeptFor(me, bs, bs2)
  {
  }

  ghost function ToFront(order: seq<nat>, m: nat): (r: seq<nat>)
    requires m < |order|
    ensures |r| == |order| && forall i :: i in order <==> i in r
  {
    var r := [order[m]] + order[..m] + order[m + 1..];
    assert order == order[..m] + [order[m]] + order[m + 1..];
    r
  }

  lemma FrontByRelease(order: seq<nat>, stamp: seq<nat>, clock: nat, m: nat)
    requires ByRelease(order, stamp, clock) && m < NBUF
    ensures ByRelease(ToFront(order, m), stamp[order[m] := clock], clock + 1)
  {
    var order', stamp' := ToFront(order, m), stamp[order[m] := clock];
    forall i | 0 <= i < NBUF ensures Listed(order', i) { assert Listed(order, i); }
    forall j, k | 0 <= j < k < NBUF ensures stamp'[order'[j]] > stamp'[order'[k]] {
      var k0 := if k <= m then k - 1 else k;
      assert order'[k] == order[k0] && order[k0] != order[m];
      if j > 0 { assert order'[j] == order[if j <= m then j - 1 else j]; }
    }
  }
}

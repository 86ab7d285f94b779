/** Logging (log.c) run through the buffer cache. */
module Logging {
  // Every disk image that a crash could leave is an element of `cache.writes`; the contracts say what
  // each of them recovers to.

  import opened Blocks
  import opened Prelude
  import opened Journal
  import opened Bio

  ghost function Elems(s: seq<nat>): set<nat> {
    set b | b in s
  }

  // Other processes may read blocks while a commit runs, those of the log and the logged ones included: `cache.others`
  // is what they do at each point where the commit can be interrupted, inside bread, bwrite and brelse too.  A commit
  // that finds a buffer locked waits for it; if they never free it the commit goes no further (None), and the contracts
  // speak of what it has done so far.

  /** One copied block of the cache and the disk; None is a wait or a panic for lack of buffers. */
  twostate predicate Copied(cache: Cache, me: nat, src: nat, dst: nat, ok: bool)
    requires src < |old(cache.disk)| && dst < |old(cache.disk)|
    reads cache, cache.buf, cache.next, cache.prev
  {
    var data := old(cache.View())[src];
    if ok then
      && cache.Valid()
      && (src !in old(cache.Dirty()) ==> data == old(cache.disk)[src])
      && cache.disk == old(cache.disk)[dst := data] && cache.writes == old(cache.writes) + [cache.disk]
      && cache.View() == old(cache.View())[dst := data]
      && cache.Dirty() == old(cache.Dirty()) - {dst} && NoneHeld(me, cache.buf[..])
    else
      cache.disk == old(cache.disk) && cache.writes == old(cache.writes)
  }

  /** The part that write_log and install_trans share: copy the bytes of one locked buffer to another, write that
      through, and release both. */
  method CopyHeld(cache: Cache, me: nat, from: nat, to: nat)
    requires cache.Valid() && me != 0 && from < NBUF && to < NBUF && from != to
    requires HeldOnce(me, cache.buf[from]) && HeldOnce(me, cache.buf[to]) && Settled(cache.buf[from], cache.disk)
    requires forall i :: 0 <= i < NBUF && i != from && i != to ==> NotHeld(me, cache.buf[i])
    modifies cache, cache.buf, cache.next, cache.prev
    ensures var data, dst := old(cache.buf[from]).data, old(cache.buf[to]).blockno;
      && cache.Valid() && cache.disk == old(cache.disk)[dst := data] && cache.writes == old(cache.writes) + [cache.disk]
      && cache.View() == old(cache.View())[dst := data] && cache.Dirty() == old(cache.Dirty()) - {dst}
      && NoneHeld(me, cache.buf[..])
  {
    hide Linked, ByRelease, Coherent, ViewOf, DirtyOf, LockedOf;
    DistinctBlocks(cache.buf[..], cache.disk, from, to);
    ghost var bs0 := cache.buf[..];
    cache.Others(me);
    ghost var bs1 := cache.buf[..];
    assert SameFor(me, bs0[from], bs1[from]) && SameFor(me, bs0[to], bs1[to]);
    cache.Overwrite(me, to, cache.buf[from].data);
    ghost var bs2 := cache.buf[..];
    assert SameFor(me, bs1[from], bs2[from]);
    cache.Others(me);
    ghost var bs3 := cache.buf[..];
    assert SameFor(me, bs2[from], bs3[from]) && SameFor(me, bs2[to], bs3[to]);
    cache.Brelse(me, from);
    ghost var bs4 := cache.buf[..];
    assert SameFor(me, bs3[to], bs4[to]);
    cache.Others(me);
    ghost var bs5 := cache.buf[..];
    assert SameFor(me, bs4[to], bs5[to]) && SameFor(me, bs4[from], bs5[from]);
    cache.Brelse(me, to);
    forall i | 0 <= i < NBUF ensures NotHeld(me, cache.buf[..][i]) {
      if i != from && i != to {
        assert SameFor(me, bs0[i], bs1[i]) && SameFor(me, bs1[i], bs2[i]) && SameFor(me, bs2[i], bs3[i]);
        assert SameFor(me, bs3[i], bs4[i]) && SameFor(me, bs4[i], bs5[i]) && SameFor(me, bs5[i], cache.buf[..][i]);
      }
    }
  }

  /** The process has locked the buffer and refers to it by that one reference. */
  ghost predicate HeldOnce(me: nat, x: Buf) {
    x.lock == me && x.valid && x.users[me] == 1
  }

  lemma DistinctBlocks(bs: seq<Buf>, disk: Disk, i: nat, j: nat)
    requires Coherent(bs, disk) && i < NBUF && j < NBUF && i != j && bs[i].lock != 0 && bs[j].lock != 0
    ensures bs[i].blockno != bs[j].blockno && bs[i].blockno < |disk| && bs[j].blockno < |disk|
    ensures bs[i].dev == bs[j].dev == ROOTDEV
  {
  }

  /** The body of write_log's loop: the log block gets the cached contents of the home block. */
  method ToLog(cache: Cache, me: nat, src: nat, dst: nat) returns (r: Option<()>)
    requires cache.Valid() && me != 0 && src < |cache.disk| && dst < |cache.disk| && src != dst
    requires NoneHeld(me, cache.buf[..])
    modifies cache, cache.buf, cache.next, cache.prev
    ensures Copied(cache, me, src, dst, r.Some?)
  {
    hide Linked, ByRelease, Coherent, ViewOf, DirtyOf, LockedOf;
    var to :- cache.Bread(me, dst);
    var from :- cache.Bread(me, src);
    CopyHeld(cache, me, from, to);
    return Some(());
  }

  /** The body of install_trans's loop: the home block gets the contents of the log block. */
  method FromLog(cache: Cache, me: nat, src: nat, dst: nat) returns (r: Option<()>)
    requires cache.Valid() && me != 0 && src < |cache.disk| && dst < |cache.disk| && src != dst
    requires NoneHeld(me, cache.buf[..])
    modifies cache, cache.buf, cache.next, cache.prev
    ensures Copied(cache, me, src, dst, r.Some?)
  {
    hide Linked, ByRelease, Coherent, ViewOf, DirtyOf, LockedOf;
    var lbuf :- cache.Bread(me, src);
    var dbuf :- cache.Bread(me, dst);
    CopyHeld(cache, me, lbuf, dbuf);
    return Some(());
  }

  class Log {
    const cache: Cache
    const start: nat
    var n: nat                  // log.lh.n
    const block: array<nat>     // log.lh.block

    ghost predicate Shape()
      reads this, block, cache, cache.buf, cache.next, cache.prev
    {
      && cache.Valid() && block.Length == LOGSIZE
      && block as object != cache.buf && block != cache.next && block != cache.prev
      && n <= LOGSIZE && HomeBlocks(start, |cache.disk|, block[..n])
    }

    /** Between commits: the pinned buffers are exactly the logged blocks, each logged once,
        and the on-disk log is empty. */
    ghost predicate Valid()
      reads this, block, cache, cache.buf, cache.next, cache.prev
    {
      && Shape()
      && (forall s, t :: 0 <= s < t < n ==> block[s] != block[t])
      && cache.Dirty() == Elems(block[..n])
      && Word(cache.disk[start], 0) == 0
    }

    /** The process has no buffer locked. */
    ghost predicate Unlocked(me: nat)
      reads cache, cache.buf
    {
      NoneHeld(me, cache.buf[..])
    }

    constructor (cache: Cache, start: nat)
      requires cache.Valid() && start + NLOG <= |cache.disk| <= 0x1_0000_0000
      ensures Shape() && this.cache == cache && this.start == start && n == 0
      ensures fresh(block)
    {
      this.cache, this.start, n := cache, start, 0;
      block := new nat[LOGSIZE](_ => 0);
    }

    /** log_write: the block joins the header unless it is already there, and its buffer is
        pinned with the caller's bytes.  The size preconditions are log_write's panic. */
    method LogWrite(me: nat, i: nat)
      requires Valid() && n < LOGSIZE && n < NLOG - 1
      requires me != 0 && i < NBUF && cache.buf[i].lock == me && cache.buf[i].valid
      requires !InLog(start, cache.buf[i].blockno)
      modifies this`n, block, cache.buf
      ensures Valid()
      ensures var b := cache.buf[i].blockno;
              block[..n] == if b in old(block[..n]) then old(block[..n]) else old(block[..n]) + [b]
      ensures cache.buf[..] == old(cache.buf[..])[i := old(cache.buf[i]).(dirty := true)]
      ensures cache.View() == old(cache.View()) && cache.Locked() == old(cache.Locked())
    {
      var b := cache.buf[i].blockno;
      ghost var bs := block[..n];
      var k := 0;
      while k < n && block[k] != b
        invariant 0 <= k <= n && b !in block[..k]
      {
        k := k + 1;
      }
      block[k] := b;
      if k == n {
        n := n + 1;
        assert block[..n] == bs + [b];
      } else {
        assert block[..n] == bs && b in bs;
      }
      cache.Pin(me, i);
      assert cache.Dirty() == Elems(block[..n]);
    }

    /** write_log: every image it leaves has the old home blocks and an empty log. */
    method WriteLog(me: nat) returns (r: Option<()>)
      requires Valid() && Unlocked(me) && me != 0
      modifies cache, cache.buf, cache.next, cache.prev
      ensures old(cache.writes) <= cache.writes && |cache.writes| <= |old(cache.writes)| + n
      ensures forall j :: |old(cache.writes)| <= j < |cache.writes| ==>
                SameHome(start, cache.writes[j], old(cache.disk)) && cache.writes[j][start] == old(cache.disk)[start]
      ensures r.Some? ==>
        && Valid() && |cache.writes| == |old(cache.writes)| + n
        && Unlocked(me) && SameHome(start, cache.View(), old(cache.View()))
        && SameHome(start, cache.disk, old(cache.disk))
        && forall t :: 0 <= t < n ==> cache.disk[start + t + 1] == old(cache.View())[block[t]]
    {
      hide Linked, ByRelease, Coherent, ViewOf, DirtyOf, LockedOf;
      ghost var d0, v0, w0 := cache.disk, cache.View(), cache.writes;
      var tail := 0;
      while tail < n
        invariant 0 <= tail <= n && Valid() && |cache.disk| == |d0|
        invariant Unlocked(me) && SameHome(start, cache.View(), v0)
        invariant SameHome(start, cache.disk, d0) && cache.disk[start] == d0[start]
        invariant forall t :: 0 <= t < tail ==> cache.disk[start + t + 1] == v0[block[t]]
        invariant w0 <= cache.writes && |cache.writes| == |w0| + tail
        invariant forall j :: |w0| <= j < |cache.writes| ==>
                    SameHome(start, cache.writes[j], d0) && cache.writes[j][start] == d0[start]
      {
        assert block[..n][tail] == block[tail];
        var _ :- ToLog(cache, me, block[tail], start + tail + 1);
        assert cache.Dirty() == Elems(block[..n]);
        tail := tail + 1;
      }
      return Some(());
    }

    /** write_head: one disk write, after which the on-disk header lists exactly block[..n]. */
    method WriteHead(me: nat) returns (r: Option<()>)
      requires Shape() && Unlocked(me) && me != 0 && start !in cache.Dirty()
      modifies cache, cache.buf, cache.next, cache.prev
      ensures r.None? ==> cache.disk == old(cache.disk) && cache.writes == old(cache.writes)
      ensures r.Some? ==>
        && Shape() && Unlocked(me) && cache.Dirty() == old(cache.Dirty())
        && SameHome(start, cache.View(), old(cache.View()))
        && cache.disk == old(cache.disk)[start := cache.disk[start]] && cache.writes == old(cache.writes) + [cache.disk]
        && Word(cache.disk[start], 0) == n && (forall t :: 0 <= t < n ==> Word(cache.disk[start], t + 1) == block[t])
        && (forall k: nat :: n < k < WORDS ==> Word(cache.disk[start], k) == Word(old(cache.disk)[start], k))
        && (n == 0 ==> cache.disk[start] == PutWord(old(cache.disk)[start], 0, 0))
    {
      hide Linked, ByRelease, Coherent, ViewOf, DirtyOf, LockedOf;
      var b :- cache.Bread(me, start);
      var hb := PutWord(cache.buf[b].data, 0, n);
      var i := 0;
      while i < n
        invariant 0 <= i <= n && Word(hb, 0) == n
        invariant i == 0 ==> hb == PutWord(cache.buf[b].data, 0, n)
        invariant forall t :: 0 <= t < i ==> Word(hb, t + 1) == block[t]
        invariant forall k: nat :: i < k < WORDS ==> Word(hb, k) == Word(cache.buf[b].data, k)
      {
        assert block[..n][i] == block[i];
        hb := PutWord(hb, i + 1, block[i]);
        i := i + 1;
      }
      cache.Others(me);
      cache.Overwrite(me, b, hb);
      cache.Others(me);
      cache.Brelse(me, b);
      return Some(());
    }

    /** install_trans: its t-th write leaves exactly the image Install(d, block[..t]). */
    method InstallTrans(me: nat) returns (r: Option<()>)
      requires Shape() && Unlocked(me) && me != 0 && cache.Dirty() <= Elems(block[..n])
      modifies cache, cache.buf, cache.next, cache.prev
      ensures old(cache.writes) <= cache.writes
      ensures InstallImages(start, old(cache.disk), block[..n], cache.writes[|old(cache.writes)|..])
      ensures r.Some? ==>
        && Shape() && |cache.writes| == |old(cache.writes)| + n
        && cache.disk == Install(start, old(cache.disk), block[..n])
        && Unlocked(me) && cache.Dirty() == {}
        && InstalledView(cache.View(), old(cache.View()), cache.disk, block[..n])
    {
      hide Linked, ByRelease, Coherent, ViewOf, DirtyOf, LockedOf, HomeBlocks, Install, InstallImages, InstalledView,
        Elems;
      ghost var d0, v0, w0, bs := cache.disk, cache.View(), cache.writes, block[..n];
      InstallStart(start, d0, bs, v0);
      assert w0[|w0|..] == [];
      var tail := 0;
      while tail < n
        invariant 0 <= tail <= n && Shape() && block[..n] == bs && HomeBlocks(start, |d0|, bs[..tail])
        invariant cache.disk == Install(start, d0, bs[..tail])
        invariant Unlocked(me) && cache.Dirty() <= Elems(bs[tail..])
        invariant InstalledView(cache.View(), v0, cache.disk, bs[..tail])
        invariant w0 <= cache.writes && |cache.writes| == |w0| + tail
        invariant InstallImages(start, d0, bs, cache.writes[|w0|..])
      {
        InstallReady(tail);
        InstallStep(start, d0, bs, tail);
        InstalledViewStep(cache.View(), v0, cache.disk, bs[..tail], bs[tail], d0[start + tail + 1]);
        ghost var w := cache.writes;
        var _ :- FromLog(cache, me, start + tail + 1, block[tail]);
        assert cache.writes[|w0|..] == w[|w0|..] + [cache.disk];
        InstallImagesStep(start, d0, bs, w[|w0|..], cache.disk);
        tail := tail + 1;
      }
      assert bs[..n] == bs && bs[n..] == [];
      return Some(());
    }

    /** The next log block is clean and distinct from its home. */
    lemma InstallReady(tail: nat)
      requires Shape() && tail < n && cache.Dirty() <= Elems(block[..n][tail..])
      ensures var log := start + tail + 1;
              && log < |cache.disk| && log !in cache.Dirty()
              && block[..n][tail] == block[tail] < |cache.disk| && block[tail] != log
              && cache.Dirty() - {block[tail]} <= Elems(block[..n][tail + 1..])
    {
      hide Linked, ByRelease;
      var bs := block[..n];
      assert bs[tail] == block[tail] && InLog(start, start + tail + 1);
      assert forall b :: b in bs[tail..] ==> b in bs;
      assert bs[tail..] == [bs[tail]] + bs[tail + 1..];
    }

    /** read_head: the in-memory header becomes the on-disk one. */
    method ReadHead(me: nat) returns (r: Option<()>)
      requires Shape() && me != 0 && HeaderOk(start, cache.disk)
      requires Unlocked(me) && start !in cache.Dirty()
      modifies this`n, block, cache, cache.buf, cache.next, cache.prev
      ensures cache.disk == old(cache.disk) && cache.writes == old(cache.writes)
      ensures r.Some? ==> Shape() && block[..n] == Logged(start, cache.disk)
      ensures r.Some? ==> cache.View() == old(cache.View()) && cache.Dirty() == old(cache.Dirty()) && Unlocked(me)
    {
      hide Linked, ByRelease, Coherent, ViewOf, DirtyOf, LockedOf;
      var b :- cache.Bread(me, start);
      ghost var bs := Logged(start, cache.disk);
      var lh := cache.buf[b].data;
      n := Word(lh, 0);
      var i := 0;
      while i < n
        invariant 0 <= i <= n && block[..i] == bs[..i]
        modifies block
      {
        block[i] := Word(lh, i + 1);
        i := i + 1;
      }
      assert block[..n] == bs;
      cache.Others(me);
      cache.Brelse(me, b);
      return Some(());
    }

    /** The common tail of commit and recover_from_log: install, then clear the header.
        A crash at any point of it is a crash of a recovery from the image it started from. */
    method InstallAndClear(me: nat) returns (r: Option<()>)
      requires Shape() && Unlocked(me) && me != 0 && cache.Dirty() <= Elems(block[..n])
      requires HeaderOk(start, cache.disk) && block[..n] == Logged(start, cache.disk)
      modifies this`n, cache, cache.buf, cache.next, cache.prev
      ensures old(cache.writes) <= cache.writes
      ensures RecoveryImages(start, old(cache.disk), cache.writes[|old(cache.writes)|..])
      ensures r.Some? ==>
        && Valid() && n == 0 && |cache.writes| == |old(cache.writes)| + old(n) + 1
        && cache.disk == Recover(start, old(cache.disk))
        && forall b: nat :: b < |cache.disk| && !InLog(start, b) ==>
             cache.View()[b] == if b in old(block[..n]) then cache.disk[b] else old(cache.View())[b]
    {
      hide Linked, ByRelease, Coherent, ViewOf, DirtyOf, LockedOf, Install;
      ghost var d0, w0, bs := cache.disk, cache.writes, block[..n];
      var installed := InstallTrans(me);
      ghost var w1 := cache.writes[|w0|..];
      InstallImagesRecover(start, d0, w1);
      var _ :- installed;
      n := 0;
      assert Shape() && block[..n] == [];
      InstallKeepsHeader(start, d0, bs);
      var _ :- WriteHead(me);
      assert cache.writes[|w0|..] == w1 + [cache.disk];
      return Some(());
    }

    /** recover_from_log at boot: every image it leaves is one from which recovery can be
        restarted, and when it completes the disk is Recover of the image it started from. */
    method RecoverFromLog(me: nat) returns (r: Option<()>)
      requires Shape() && me != 0 && HeaderOk(start, cache.disk)
      requires Unlocked(me) && cache.Dirty() == {}
      modifies this`n, block, cache, cache.buf, cache.next, cache.prev
      ensures old(cache.writes) <= cache.writes
      ensures RecoveryImages(start, old(cache.disk), cache.writes[|old(cache.writes)|..])
      ensures r.Some? ==> Valid() && n == 0 && cache.disk == Recover(start, old(cache.disk))
    {
      hide Linked, ByRelease, Coherent, ViewOf, DirtyOf, LockedOf, Install;
      assert cache.writes[|cache.writes|..] == [];
      var _ :- ReadHead(me);
      r := InstallAndClear(me);
    }

    /** commit: the image after each of its writes recovers to all of the old home blocks until
        the header write (write number n, from 0) and to all of the new ones from then on. */
    method Commit(me: nat) returns (r: Option<()>)
      requires Valid() && Unlocked(me) && me != 0
      modifies this`n, cache, cache.buf, cache.next, cache.prev
      ensures old(cache.writes) <= cache.writes
      ensures CommitImages(start, old(cache.disk), old(cache.View()), old(block[..n]),
          cache.writes[|old(cache.writes)|..])
      ensures r.Some? ==>
        && Valid() && n == 0 && cache.Dirty() == {}
        && SameHome(start, cache.View(), old(cache.View()))
        && SameHome(start, cache.disk, Committed(old(cache.disk), old(cache.View()), old(block[..n])))
        && |cache.writes| == |old(cache.writes)| + if old(n) == 0 then 0 else 2 * old(n) + 2
    {
      if n > 0 {
        r := CommitSome(me);
      } else {
        r := Some(());
      }
    }

    method CommitSome(me: nat) returns (r: Option<()>)
      requires Valid() && Unlocked(me) && me != 0 && n > 0
      modifies this`n, cache, cache.buf, cache.next, cache.prev
      ensures old(cache.writes) <= cache.writes
      ensures CommitImages(start, old(cache.disk), old(cache.View()), old(block[..n]),
          cache.writes[|old(cache.writes)|..])
      ensures r.Some? ==>
        && Valid() && n == 0 && cache.Dirty() == {}
        && SameHome(start, cache.View(), old(cache.View()))
        && SameHome(start, cache.disk, Committed(old(cache.disk), old(cache.View()), old(block[..n])))
        && |cache.writes| == |old(cache.writes)| + 2 * old(n) + 2
    {
      hide Linked, ByRelease, Coherent, ViewOf, DirtyOf, LockedOf, Install, Recover, CommitImages, RecoveryImages;
      ghost var d0, v0, w0, bs := cache.disk, cache.View(), cache.writes, block[..n];
      var logged := WriteLog(me);
      ghost var w1 := cache.writes[|w0|..];
      LogImages(start, d0, v0, bs, w1);
      var _ :- logged;
      var _ :- WriteHead(me);
      ghost var dh, wh := cache.disk, cache.writes;
      FullHeaderRecovers(start, dh, v0, bs, d0);
      r := InstallAndClear(me);
      assert cache.writes[|w0|..] == w1 + [dh] + cache.writes[|wh|..];
      CommittedImages(start, d0, v0, bs, w1, dh, cache.writes[|wh|..]);
    }
  }

  /** Images in write order: old before write number |bs|, new from it on. */
  ghost predicate CommitImages(start: nat, d: Disk, view: Disk, bs: seq<nat>, images: seq<Disk>)
    requires |view| == |d|
  {
    forall j :: 0 <= j < |images| ==>
      && HeaderOk(start, images[j])
      && SameHome(start, Recover(start, images[j]), if j < |bs| then d else Committed(d, view, bs))
  }

  lemma LogImages(start: nat, d: Disk, view: Disk, bs: seq<nat>, images: seq<Disk>)
    requires HomeBlocks(start, |d|, bs) && |view| == |d| && Word(d[start], 0) == 0 && |images| <= |bs|
    requires forall j :: 0 <= j < |images| ==> SameHome(start, images[j], d) && images[j][start] == d[start]
    ensures CommitImages(start, d, view, bs, images)
  {
    forall j | 0 <= j < |images|
      ensures HeaderOk(start, images[j]) && SameHome(start, Recover(start, images[j]), d)
    {
      EmptyHeaderRecovers(start, images[j]);
    }
  }

  /** Once the header is on disk, every later image is one of a recovery from it. */
  lemma CommittedImages(start: nat, d: Disk, view: Disk, bs: seq<nat>, before: seq<Disk>, dh: Disk, after: seq<Disk>)
    requires |view| == |d| && |before| == |bs| && CommitImages(start, d, view, bs, before)
    requires HeaderOk(start, dh) && SameHome(start, Recover(start, dh), Committed(d, view, bs))
    requires RecoveryImages(start, dh, after)
    ensures CommitImages(start, d, view, bs, before + [dh] + after)
  {
    hide Install, Recover, Committed;
    var images := before + [dh] + after;
    forall j | |bs| < j < |images|
      ensures HeaderOk(start, images[j]) && SameHome(start, Recover(start, images[j]), Committed(d, view, bs))
    {
      assert images[j] == after[j - |bs| - 1];
      RecoveryStateRecovers(start, dh, images[j]);
    }
  }

  /** Crash atomicity: a commit crashes when `done` of its writes have reached the disk, possibly none, and then any
      number of recoveries crash; a recovery that completes leaves all home blocks old or all of them new, and new
      exactly when the header write had reached the disk. */
  lemma CrashAtomic(start: nat, d: Disk, view: Disk, bs: seq<nat>, images: seq<Disk>, done: nat, chain: seq<Disk>)
    requires start + NLOG <= |d| <= 0x1_0000_0000 && Word(d[start], 0) == 0
    requires |view| == |d| && CommitImages(start, d, view, bs, images) && done <= |images|
    requires RecoveryChain(start, chain) && chain[0] == if done == 0 then d else images[done - 1]
    ensures HeaderOk(start, chain[|chain| - 1])
    ensures SameHome(start, Recover(start, chain[|chain| - 1]), if done <= |bs| then d else Committed(d, view, bs))
  {
    hide Recover;
    RecoveryChainRecovers(start, chain);
    if done == 0 { EmptyHeaderRecovers(start, d); }
  }

  /** Installed blocks are seen as they are on disk, the others as before. */
  ghost predicate InstalledView(view: Disk, view0: Disk, disk: Disk, bs: seq<nat>) {
    |view| == |view0| == |disk| &&
    forall b: nat {:trigger view[b]} :: b < |disk| ==> view[b] == if b in bs then disk[b] else view0[b]
  }

  lemma InstallStart(start: nat, d0: Disk, bs: seq<nat>, v0: Disk)
    requires HomeBlocks(start, |d0|, bs) && |v0| == |d0|
    ensures bs[..0] == [] && Elems([]) == {} && HomeBlocks(start, |d0|, []) && Install(start, d0, bs[..0]) == d0
    ensures InstalledView(v0, v0, d0, bs[..0]) && InstallImages(start, d0, bs, [])
  {
  }

  lemma InstalledViewStep(view: Disk, view0: Disk, disk: Disk, bs: seq<nat>, b: nat, data: Block)
    requires InstalledView(view, view0, disk, bs) && b < |disk|
    ensures InstalledView(view[b := data], view0, disk[b := data], bs + [b])
  {
  }

  /** Copying log block t + 1 to its home extends what is installed by one block. */
  lemma InstallStep(start: nat, d0: Disk, bs: seq<nat>, t: nat)
    requires HomeBlocks(start, |d0|, bs) && t < |bs|
    ensures HomeBlocks(start, |d0|, bs[..t + 1]) && bs[..t + 1] == bs[..t] + [bs[t]]
    ensures Install(start, d0, bs[..t])[start + t + 1] == d0[start + t + 1]
    ensures Install(start, d0, bs[..t + 1]) == Install(start, d0, bs[..t])[bs[t] := d0[start + t + 1]]
  {
    assert bs[..t + 1][..t] == bs[..t];
  }
}

/** The block and inode operations of fs.c and the chunked writes of file.c, updating the file system
    in place.  Blocks are seen as the log and cache present them; `logged` records every block
    handed to log_write. */
module FileSys {
  import opened Blocks
  import opened Prelude
  import opened FsSpec
  import R = Reservation

  const BPB: nat := BSIZE * 8   // bitmap bits per block
  const IPB: nat := 8           // inodes per block

  const CHUNK: nat := (R.MAXOPBLOCKS - 1 - 1 - 2) / 2 * BSIZE   // filewrite's max

  /** A disk block as log_write sees it. */
  datatype LogBlock = Bitmap(k: nat) | Data(b: nat) | Inodes(k: nat)

  datatype IoResult = Wrote(n: nat) | Rejected | Halted

  class FileSystem {
    var disk: seq<Block>
    var used: seq<bool>      // the free bitmap, one bit per block
    var inode: seq<Inode>    // the in-memory inodes
    var dinode: seq<Inode>   // the inodes on disk
    const nmeta: nat
    ghost var owner: seq<Owner>
    ghost var logged: set<LogBlock>

    ghost function State(): Fs
      reads this
    {
      Fs(disk, used, inode, owner, nmeta)
    }

    /** Balloc: the first block whose bit is clear, now marked and zeroed; None is "out of blocks". */
    method Balloc() returns (r: Option<nat>)
      requires |used| == |disk|
      modifies this`disk, this`used, this`logged
      ensures r.None? <==> forall b :: 0 <= b < |old(used)| ==> old(used)[b]
      ensures r.None? ==> disk == old(disk) && used == old(used) && logged == old(logged)
      ensures r.Some? ==>
        && r.value < |old(used)| && !old(used)[r.value] && (forall b :: 0 <= b < r.value ==> old(used)[b])
        && used == old(used)[r.value := true] && disk == old(disk)[r.value := ZeroBlock()]
        && logged == old(logged) + {Bitmap(r.value / BPB), Data(r.value)}
    {
      var b := 0;
      while b < |used|
        invariant disk == old(disk) && used == old(used) && logged == old(logged)
        invariant b % BPB == 0 && forall j :: 0 <= j < b && j < |used| ==> used[j]
      {
        var bi := 0;
        while bi < BPB && b + bi < |used|
          invariant 0 <= bi <= BPB && disk == old(disk) && used == old(used) && logged == old(logged)
          invariant forall j :: 0 <= j < b + bi && j < |used| ==> used[j]
        {
          if !used[b + bi] {
            used := used[b + bi := true];
            disk := disk[b + bi := ZeroBlock()];
            assert (b + bi) / BPB == b / BPB;
            logged := logged + {Bitmap(b / BPB)} + {Data(b + bi)};
            return Some(b + bi);
          }
          bi := bi + 1;
        }
        b := b + BPB;
      }
      return None;
    }

    /** Bfree: its precondition is the "freeing free block" panic. */
    method Bfree(b: nat)
      requires b < |used| && used[b]
      modifies this`used, this`logged
      ensures used == old(used)[b := false] && logged == old(logged) + {Bitmap(b / BPB)}
    {
      used := used[b := false];
      logged := logged + {Bitmap(b / BPB)};
    }

    /** iupdate: write the in-memory inode through to disk. */
    method Iupdate(i: nat)
      requires i < |inode| == |dinode|
      modifies this`dinode, this`logged
      ensures dinode == old(dinode)[i := inode[i]] && logged == old(logged) + {Inodes(i / IPB)}
    {
      dinode := dinode[i := inode[i]];
      logged := logged + {Inodes(i / IPB)};
    }

    /** bmap for a direct address, or for the indirect block itself. */
    method BmapAddr(i: nat, s: nat) returns (r: Option<nat>)
      requires Owned(State()) && i < |inode| && s <= NDIRECT
      modifies this`disk, this`used, this`inode, this`owner, this`logged
      ensures old(inode)[i].addrs[s] != 0 ==>
        r == Some(old(inode)[i].addrs[s]) && State() == old(State()) && logged == old(logged)
      ensures r.Some? ==>
        && Owned(State()) && Extends(old(State()), State()) && inode == old(inode)[i := inode[i]]
        && 0 < r.value < |disk| && inode[i].addrs[s] == r.value
        && logged <= old(logged) + {Bitmap(r.value / BPB), Data(r.value)}
        && old(logged) <= logged && BlocksCovered(old(State()), State(), logged)
    {
      var addr := inode[i].addrs[s];
      assert RefOk(State(), i, s) by { assert Ref(disk, inode[i], s) == addr; }
      if addr == 0 {
        ghost var fs := State();
        addr :- Balloc();
        inode := inode[i := inode[i].(addrs := inode[i].addrs[s := addr])];
        owner := owner[addr := Some((i, s))];
        assert State() == AllocAddr(fs, i, s, addr);
        AllocAddrOwned(fs, i, s, addr);
        AllocAddrExtends(fs, i, s, addr);
      } else {
        ExtendsSelf(State());
      }
      return Some(addr);
    }

    /** bmap for word k of the indirect block. */
    method BmapEntry(i: nat, k: nat) returns (r: Option<nat>)
      requires Owned(State()) && i < |inode| && k < NINDIRECT && 0 < inode[i].addrs[NDIRECT] < |disk|
      modifies this`disk, this`used, this`owner, this`logged
      ensures var a := Ref(old(disk), inode[i], NDIRECT + 1 + k);
              a != 0 ==> r == Some(a) && State() == old(State()) && logged == old(logged)
      ensures r.Some? ==>
        && Owned(State()) && Extends(old(State()), State())
        && 0 < r.value < |disk| && Ref(disk, inode[i], NDIRECT + 1 + k) == r.value
        && logged <= old(logged) + {Bitmap(r.value / BPB), Data(r.value), Data(inode[i].addrs[NDIRECT])}
        && old(logged) <= logged && BlocksCovered(old(State()), State(), logged)
    {
      var ind := inode[i].addrs[NDIRECT];
      var addr := Word(disk[ind], k);
      assert RefOk(State(), i, NDIRECT + 1 + k);
      if addr == 0 {
        ghost var fs := State();
        var b :- Balloc();
        addr := b;
        disk := disk[ind := PutWord(disk[ind], k, addr)];
        logged := logged + {Data(ind)};
        owner := owner[addr := Some((i, NDIRECT + 1 + k))];
        assert State() == AllocEntry(fs, i, k, addr);
        AllocEntryOwned(fs, i, k, addr);
        AllocEntryExtends(fs, i, k, addr);
        AllocEntryRefs(fs, i, k, addr, i, NDIRECT + 1 + k);
      } else {
        ExtendsSelf(State());
      }
      return Some(addr);
    }

    /** bmap: the block of file block bn, allocating it (and the indirect block) if there is none. */
    method Bmap(i: nat, bn: nat) returns (r: Option<nat>)
      requires Owned(State()) && i < |inode| && bn < MAXFILE
      modifies this`disk, this`used, this`inode, this`owner, this`logged
      ensures old(Mapped(State(), i, bn)) ==> r.Some? && State() == old(State()) && logged == old(logged)
      ensures r.Some? ==>
        && Owned(State()) && Extends(old(State()), State()) && inode == old(inode)[i := inode[i]]
        && Mapped(State(), i, bn) && r.value == Ref(disk, inode[i], Slot(bn))
        && logged <= old(logged) + MapBlocks(State(), i, r.value)
        && old(logged) <= logged && BlocksCovered(old(State()), State(), logged)
    {
      hide BlocksCovered;
      ghost var fs := State();
      if bn < NDIRECT {
        var a :- BmapAddr(i, bn);
        BitmapIn(|disk|, a);
        return Some(a);
      }
      assert RefOk(State(), i, NDIRECT);
      var ind :- BmapAddr(i, NDIRECT);
      ghost var fs1, logged1 := State(), logged;
      var a :- BmapEntry(i, bn - NDIRECT);
      ExtendsTrans(fs, fs1, State());
      CoveredTwice(fs, fs1, State(), logged1, logged);
      BitmapIn(|disk|, ind);
      BitmapIn(|disk|, a);
      return Some(a);
    }

    /** readi: exactly the bytes from off up to off + n or the end of the file, and nothing changes.
        An offset past the end and a 32-bit overflow of off + n are errors. */
    method Readi(i: nat, off: uint, n: uint) returns (r: Option<seq<byte>>)
      requires FsOk(State()) && i < |inode|
      modifies this`disk, this`used, this`inode, this`owner, this`logged
      ensures State() == old(State()) && logged == old(logged)
      ensures r.None? <==> off > inode[i].size || off + n >= 0x1_0000_0000
      ensures r.Some? ==> r.value == Content(State(), i)[off..Min(off + n, inode[i].size)]
    {
      if off > inode[i].size || off + n >= 0x1_0000_0000 {
        return None;
      }
      var dst := ReadLoop(i, off, if off + n > inode[i].size then inode[i].size - off else n);
      return Some(dst);
    }

    method ReadLoop(i: nat, off: nat, n: nat) returns (dst: seq<byte>)
      requires FsOk(State()) && i < |inode| && off + n <= inode[i].size
      modifies this`disk, this`used, this`inode, this`owner, this`logged
      ensures State() == old(State()) && logged == old(logged) && dst == Content(State(), i)[off..off + n]
    {
      hide Owned, Extends, NoHoles, Content, Mapped, MapBlocks, Ref, Word;
      ghost var fs := State();
      ghost var content := Content(fs, i);
      dst := [];
      var tot: nat, at: nat := 0, off;
      while tot < n
        invariant 0 <= tot <= n && at == off + tot && State() == fs && logged == old(logged)
        invariant dst == content[off..at]
      {
        var m: nat := Min(n - tot, BSIZE - at % BSIZE);
        SameBlock(fs, i, at, m);
        var b := Bmap(i, at / BSIZE);
        dst := dst + disk[b.value][at % BSIZE..at % BSIZE + m];
        tot, at := tot + m, at + m;
      }
    }

    /** One pass of writei's loop: map the block and patch its bytes.  fs1 is the state in between. */
    method WriteChunk(i: nat, at: nat, data: seq<byte>) returns (ok: bool, ghost fs1: Fs)
      requires Owned(State()) && i < |inode| && at / BSIZE < MAXFILE && at % BSIZE + |data| <= BSIZE
      modifies this`disk, this`used, this`inode, this`owner, this`logged
      ensures old(Mapped(State(), i, at / BSIZE)) ==> ok && fs1 == old(State())
      ensures ok ==>
        && Owned(fs1) && Extends(old(State()), fs1) && i < |inode| && inode == old(inode)[i := inode[i]]
        && Mapped(fs1, i, at / BSIZE)
        && var b := Ref(fs1.disk, fs1.inodes[i], Slot(at / BSIZE));
           && State() == WriteBlock(fs1, b, Patch(fs1.disk[b], at % BSIZE, data))
           && logged <= old(logged) + MapBlocks(State(), i, b)
           && old(logged) <= logged && BlocksCovered(old(State()), State(), logged)
    {
      hide Owned, Extends;
      fs1 := State();
      var b := Bmap(i, at / BSIZE);
      if b.None? {
        return false, fs1;
      }
      fs1 := State();
      assert |inode[i].addrs| == NDIRECT + 1 by { ShapedAddrs(fs1, i); }
      disk := disk[b.value := Patch(disk[b.value], at % BSIZE, data)];
      logged := logged + {Data(b.value)};
      return true, fs1;
    }

    /** writei: exactly the bytes [off, off + |src|) of this file are replaced, or appended; the other
        files keep their contents; the inode on disk follows the one in memory. */
    method Writei(i: nat, src: seq<byte>, off: uint) returns (r: IoResult)
      requires FsOk(State()) && i < |inode| && |src| < 0x1_0000_0000 && dinode == inode
      modifies this
      ensures r.Rejected? <==> off > old(inode)[i].size || off + |src| >= 0x1_0000_0000 || off + |src| > MAXFILE * BSIZE
      ensures r.Rejected? ==> State() == old(State()) && dinode == old(dinode) && logged == old(logged)
      ensures r.Wrote? ==>
        && r.n == |src| && FsOk(State()) && dinode == inode && |inode| == |old(inode)| && |disk| == |old(disk)|
        && Content(State(), i) == Spliced(old(Content(State(), i)), off, src)
        && (forall j :: 0 <= j < |inode| && j != i ==> Content(State(), j) == old(Content(State(), j)))
        && (forall j :: 0 <= j < |inode| ==> inode[j].typ == old(inode)[j].typ)
        && logged <= old(logged) + WriteBlocks(State(), i, off, |src|)
        && Covered(old(State()), State(), logged)
    {
      if off > inode[i].size || off + |src| >= 0x1_0000_0000 {
        return Rejected;
      }
      if off + |src| > MAXFILE * BSIZE {
        return Rejected;
      }
      var ok := WriteLoop(i, src, off);
      if !ok {
        return Halted;
      }
      hide Owned, Extends, Writing, WriteBlocks, FsOk, NoHoles, Content, Spliced;
      ghost var fs0, fs := old(State()), State();
      WritingTypes(fs0, fs, i, src, off, off + |src|);
      if |src| > 0 && off + |src| > inode[i].size {
        inode := inode[i := inode[i].(size := off + |src|)];
        Iupdate(i);
        WriteBlocksInode(fs, State(), i, off, |src|);
      }
      WritingEnd(fs0, fs, i, src, off, State());
      return Wrote(|src|);
    }

    /** writei's loop over the blocks it covers. */
    method WriteLoop(i: nat, src: seq<byte>, off: nat) returns (ok: bool)
      requires FsOk(State()) && i < |inode| && off <= inode[i].size && off + |src| <= MAXFILE * BSIZE
      modifies this`disk, this`used, this`inode, this`owner, this`logged
      ensures ok ==>
        && InLoop(old(State()), State(), i, src, off, |src|)
        && logged <= old(logged) + WriteBlocks(State(), i, off, |src|)
        && BlocksCovered(old(State()), State(), logged)
    {
      hide Owned, Extends, InLoop, WriteBlocks, MapBlocks, FsOk, Mapped, Ref, Patch, BlocksCovered;
      ghost var fs0 := State();
      LoopStart(fs0, i, src, off);
      CoveredSelf(fs0, logged);
      var tot: nat, at: nat := 0, off;
      while tot < |src|
        invariant 0 <= tot <= |src| && at == off + tot && i < |inode| && |inode[i].addrs| == NDIRECT + 1
        invariant InLoop(fs0, State(), i, src, off, tot)
        invariant logged <= old(logged) + WriteBlocks(State(), i, off, tot) && BlocksCovered(fs0, State(), logged)
      {
        ghost var fs, logged0 := State(), logged;
        var m: nat := Min(|src| - tot, BSIZE - at % BSIZE);
        LoopBlock(fs0, fs, i, src, off, tot);
        var done, fs1 := WriteChunk(i, at, src[tot..tot + m]);
        if !done {
          return false;
        }
        LoopStep(fs0, fs, fs1, i, src, off, tot, m);
        CoveredTwice(fs0, fs, State(), logged0, logged);
        tot, at := tot + m, at + m;
      }
      return true;
    }

    /** filewrite on an inode: one writei per chunk, each in a transaction of its own.  What was
        written is a prefix of addr, all of it unless a chunk is rejected.  `ops` are the blocks
        logged by each transaction, never more than the log reservation allows, and `states` the file
        system before the first of them and after each. */
    method FileWrite(i: nat, addr: seq<byte>, off: nat)
      returns (r: IoResult, off': nat, ghost ops: seq<set<LogBlock>>, ghost states: seq<Fs>)
      requires FsOk(State()) && i < |inode| && |addr| < 0x8000_0000 && off < 0x8000_0000 && dinode == inode
      modifies this
      ensures |old(disk)| < BPB ==> forall t :: 0 <= t < |ops| ==> |ops[t]| <= R.SAFE
      ensures Chunks(states, ops, i, off, addr) && states[0] == old(State())
      ensures !r.Halted? ==>
        && State() == states[|states| - 1] && dinode == inode
        && off <= off' <= off + |addr| && (r == Wrote(|addr|) <==> off' == off + |addr|) && (r.Wrote? ==> r.n == |addr|)
        && After(old(State()), State(), i, off, addr[..off' - off])
      ensures r.Rejected? ==>
        off' > inode[i].size || off' + Min(|addr| - (off' - off), CHUNK) > MAXFILE * BSIZE
    {
      hide Owned, NoHoles, Content, Spliced, WriteBlocks, Covered, After, Chunks;
      off', ops, states := off, [], [State()];
      ChunksNone(State(), i, off, addr);
      var k: nat := 0;
      while k < |addr|
        invariant 0 <= k <= |addr| && off' == off + k && FsOk(State()) && i < |inode| && dinode == inode
        invariant k == Min(|ops| * CHUNK, |addr|) && |disk| == |old(disk)| && |states| == |ops| + 1
        invariant Chunks(states, ops, i, off, addr) && states[0] == old(State()) && State() == states[|ops|]
        invariant After(old(State()), State(), i, off, addr[..k])
        invariant |old(disk)| < BPB ==> forall t :: 0 <= t < |ops| ==> |ops[t]| <= R.SAFE
      {
        var n1 := Min(|addr| - k, CHUNK);
        logged := {};
        ghost var fs := State();
        var w := Writei(i, addr[k..k + n1], off');
        if w.Halted? {
          return Halted, off', ops, states;
        }
        if w.Rejected? {
          return Rejected, off', ops, states;
        }
        assert addr[..k + n1] == addr[..k] + addr[k..k + n1];
        AfterMore(old(State()), fs, State(), i, off, addr[..k], addr[k..k + n1]);
        ChunksMore(states, ops, i, off, addr, State(), logged);
        ShapedAddrs(State(), i);
        if |disk| < BPB { ChunkFits(State(), i, off', n1, logged); }
        ops := ops + [logged];
        states := states + [State()];
        off' := off' + n1;
        k := k + n1;
      }
      return Wrote(|addr|), off', ops, states;
    }

    /** itrunc: the file becomes empty, exactly its own blocks are freed, and no other file changes. */
    method Itrunc(i: nat)
      requires FsOk(State()) && i < |inode| == |dinode|
      modifies this`used, this`inode, this`dinode, this`owner, this`logged
      ensures FsOk(State()) && inode == old(inode)[i := old(inode)[i].(size := 0, addrs := NO_ADDRS)]
      ensures dinode == old(dinode)[i := inode[i]]
      ensures |used| == |old(used)| == |old(owner)| && forall b :: 0 <= b < |used| ==>
                (used[b] <==> old(used)[b] && !(old(owner)[b].Some? && old(owner)[b].value.0 == i))
      ensures forall j :: 0 <= j < |inode| && j != i ==> Content(State(), j) == old(Content(State(), j))
    {
      hide Owned, NoHoles, UsedMinus, Content;
      ghost var fs := State();
      ShapedAddrs(fs, i);
      FreeDirect(i, fs);
      if inode[i].addrs[NDIRECT] != 0 {
        FreeIndirect(i, fs);
      } else {
        NoIndirect(fs, used, i, NDIRECT);
      }
      inode := inode[i := inode[i].(size := 0)];
      owner := Disowned(owner, i);
      assert inode[i].addrs == NO_ADDRS;
      assert State() == Truncated(fs, i, used);
      TruncatedOk(fs, i, used);
      UsedMinusAll(fs, used, i);
      Iupdate(i);
    }

    /** itrunc's first loop. */
    method FreeDirect(i: nat, ghost fs: Fs)
      requires Owned(fs) && State() == fs && i < |inode|
      modifies this`used, this`inode, this`logged
      ensures UsedMinus(fs, used, i, Below(NDIRECT)) && SameBut(inode, fs.inodes, i)
      ensures inode[i] == fs.inodes[i].(addrs := inode[i].addrs)
      ensures ZeroedTo(inode[i].addrs, fs.inodes[i].addrs, NDIRECT)
    {
      ShapedAddrs(fs, i);
      hide Owned, UsedMinus, Below;
      for k := 0 to NDIRECT
        invariant SameBut(inode, fs.inodes, i)
        invariant inode[i] == fs.inodes[i].(addrs := inode[i].addrs) && ZeroedTo(inode[i].addrs, fs.inodes[i].addrs, k)
        invariant UsedMinus(fs, used, i, Below(k))
      {
        FreeSlot(fs, used, i, Below(k), k);
        assert Below(k + 1) == Below(k) + {k};
        assert inode[i].addrs[k] == Ref(fs.disk, fs.inodes[i], k);
        if inode[i].addrs[k] != 0 {
          Bfree(inode[i].addrs[k]);
          inode := inode[i := inode[i].(addrs := inode[i].addrs[k := 0])];
        }
      }
    }

    /** itrunc's second part: free what the indirect block lists, then the indirect block. */
    method FreeIndirect(i: nat, ghost fs: Fs)
      requires Owned(fs) && disk == fs.disk && SameBut(inode, fs.inodes, i) && |inode[i].addrs| == NDIRECT + 1
      requires inode[i].addrs[NDIRECT] == fs.inodes[i].addrs[NDIRECT] != 0
      requires UsedMinus(fs, used, i, Below(NDIRECT))
      modifies this`used, this`inode, this`logged
      ensures UsedMinus(fs, used, i, Below(SLOTS))
      ensures SameBut(inode, fs.inodes, i) && inode[i] == old(inode)[i].(addrs := old(inode)[i].addrs[NDIRECT := 0])
    {
      var ind := inode[i].addrs[NDIRECT];
      IndirectOk(fs, i);
      ListedSlots();
      FreeListed(i, ind, fs);
      hide Owned, UsedMinus, Listed, Below;
      FreeSlot(fs, used, i, Listed(NINDIRECT), NDIRECT);
      Bfree(ind);
      inode := inode[i := inode[i].(addrs := inode[i].addrs[NDIRECT := 0])];
    }

    /** The loop over the words of the indirect block. */
    method FreeListed(i: nat, ind: nat, ghost fs: Fs)
      requires Owned(fs) && disk == fs.disk && i < |fs.inodes| && fs.inodes[i].addrs[NDIRECT] == ind && 0 < ind < |disk|
      requires UsedMinus(fs, used, i, Listed(0))
      modifies this`used, this`logged
      ensures UsedMinus(fs, used, i, Listed(NINDIRECT))
    {
      ShapedAddrs(fs, i);
      hide Owned, UsedMinus, Listed, Ref, Word;
      for j := 0 to NINDIRECT
        invariant UsedMinus(fs, used, i, Listed(j))
      {
        ListedStep(j);
        EntryRef(fs, i, j);
        FreeSlot(fs, used, i, Listed(j), NDIRECT + 1 + j);
        if Word(disk[ind], j) != 0 {
          Bfree(Word(disk[ind], j));
        }
      }
    }
  }

  /** The first k addresses have been cleared. */
  predicate ZeroedTo(a: seq<nat>, b: seq<nat>, k: nat) {
    |a| == |b| == NDIRECT + 1 && forall s :: 0 <= s <= NDIRECT ==> a[s] == if s < k then 0 else b[s]
  }

  predicate SameBut(a: seq<Inode>, b: seq<Inode>, i: nat) {
    |a| == |b| && i < |a| && a == b[i := a[i]]
  }

  /** The direct slots and the first j words of the indirect block. */
  ghost function Listed(j: nat): set<nat> {
    Below(NDIRECT + 1 + j) - {NDIRECT}
  }

  lemma EntryRef(fs: Fs, i: nat, j: nat)
    requires i < |fs.inodes| && |fs.inodes[i].addrs| == NDIRECT + 1 && 0 < fs.inodes[i].addrs[NDIRECT] < |fs.disk|
    requires j < NINDIRECT
    ensures Ref(fs.disk, fs.inodes[i], NDIRECT + 1 + j) == Word(fs.disk[fs.inodes[i].addrs[NDIRECT]], j)
  {
  }

  lemma ListedSlots()
    ensures Below(NDIRECT) == Listed(0) && Below(SLOTS) == Listed(NINDIRECT) + {NDIRECT}
    ensures NDIRECT !in Listed(NINDIRECT)
  {
  }

  lemma ListedStep(j: nat)
    ensures NDIRECT + 1 + j !in Listed(j) && Listed(j + 1) == Listed(j) + {NDIRECT + 1 + j}
  {
  }

  /** Without an indirect block the remaining slots refer to nothing. */
  lemma {:induction false} NoIndirect(fs: Fs, used: seq<bool>, i: nat, k: nat)
    requires Owned(fs) && i < |fs.inodes| && NDIRECT <= k <= SLOTS && fs.inodes[i].addrs[NDIRECT] == 0
    requires UsedMinus(fs, used, i, Below(k))
    ensures UsedMinus(fs, used, i, Below(SLOTS))
    decreases SLOTS - k
  {
    if k < SLOTS {
      FreeSlot(fs, used, i, Below(k), k);
      assert Below(k + 1) == Below(k) + {k};
      NoIndirect(fs, used, i, k + 1);
    }
  }

  /** Every block and every bit that differs is on a disk block handed to log_write. */
  ghost predicate BlocksCovered(fs: Fs, fs': Fs, logged: set<LogBlock>) {
    && |fs'.disk| == |fs.disk| && |fs'.used| == |fs.used|
    && (forall b :: 0 <= b < |fs.disk| && fs'.disk[b] != fs.disk[b] ==> Data(b) in logged)
    && (forall b :: 0 <= b < |fs.used| && fs'.used[b] != fs.used[b] ==> Bitmap(b / BPB) in logged)
  }

  /** And every inode. */
  ghost predicate Covered(fs: Fs, fs': Fs, logged: set<LogBlock>) {
    && BlocksCovered(fs, fs', logged) && |fs'.inodes| == |fs.inodes| && fs'.nmeta == fs.nmeta
    && (forall i :: 0 <= i < |fs.inodes| && fs'.inodes[i] != fs.inodes[i] ==> Inodes(i / IPB) in logged)
  }

  lemma CoveredSelf(fs: Fs, logged: set<LogBlock>)
    ensures BlocksCovered(fs, fs, logged)
  {
  }

  lemma CoveredTwice(fs: Fs, fs1: Fs, fs2: Fs, logged1: set<LogBlock>, logged2: set<LogBlock>)
    requires BlocksCovered(fs, fs1, logged1) && BlocksCovered(fs1, fs2, logged2) && logged1 <= logged2
    ensures BlocksCovered(fs, fs2, logged2)
  {
  }

  lemma WritingTypes(fs0: Fs, fs: Fs, i: nat, src: seq<byte>, off0: nat, off: nat)
    requires Writing(fs0, fs, i, src, off0, off)
    ensures |fs.inodes| == |fs0.inodes| && forall j :: 0 <= j < |fs.inodes| ==> fs.inodes[j].typ == fs0.inodes[j].typ
  {
  }

  /** What a write of data at off leaves: that file with the data in place, and all other files. */
  ghost predicate After(fs0: Fs, fs: Fs, i: nat, off: nat, data: seq<byte>) {
    && FsOk(fs0) && FsOk(fs) && i < |fs0.inodes| == |fs.inodes| && |fs.disk| == |fs0.disk| && fs.nmeta == fs0.nmeta
    && (if off <= fs0.inodes[i].size then Content(fs, i) == Spliced(Content(fs0, i), off, data)
        else data == [] && fs == fs0)
    && (forall j :: 0 <= j < |fs.inodes| && j != i ==> Content(fs, j) == Content(fs0, j))
    && (forall j :: 0 <= j < |fs.inodes| ==> fs.inodes[j].typ == fs0.inodes[j].typ)
  }

  lemma AfterNone(fs: Fs, i: nat, off: nat)
    requires FsOk(fs) && i < |fs.inodes|
    ensures After(fs, fs, i, off, [])
  {
    hide Owned, NoHoles;
    if off <= fs.inodes[i].size { SpliceMore(Content(fs, i), off, [], []); }
  }

  lemma AfterMore(fs0: Fs, fs: Fs, fs': Fs, i: nat, off: nat, a: seq<byte>, b: seq<byte>)
    requires After(fs0, fs, i, off, a) && off + |a| <= fs.inodes[i].size
    requires FsOk(fs') && |fs'.inodes| == |fs.inodes| && |fs'.disk| == |fs.disk| && fs'.nmeta == fs.nmeta
    requires Content(fs', i) == Spliced(Content(fs, i), off + |a|, b)
    requires forall j :: 0 <= j < |fs.inodes| && j != i ==> Content(fs', j) == Content(fs, j)
    requires forall j :: 0 <= j < |fs.inodes| ==> fs'.inodes[j].typ == fs.inodes[j].typ
    ensures After(fs0, fs', i, off, a + b)
  {
    hide Owned, NoHoles, Content;
    if off <= fs0.inodes[i].size { SpliceMore(Content(fs0, i), off, a, b); }
  }

  /** The transactions of a filewrite: after t of them the first t chunks of addr are in the file, and each has handed
      to log_write every block that it changed. */
  ghost predicate Chunks(states: seq<Fs>, ops: seq<set<LogBlock>>, i: nat, off: nat, addr: seq<byte>) {
    && |states| == |ops| + 1
    && (forall t :: 0 <= t < |states| ==> After(states[0], states[t], i, off, addr[..Min(t * CHUNK, |addr|)]))
    && (forall t :: 0 <= t < |ops| ==> t * CHUNK < |addr| && Covered(states[t], states[t + 1], ops[t]))
  }

  lemma ChunksNone(fs: Fs, i: nat, off: nat, addr: seq<byte>)
    requires FsOk(fs) && i < |fs.inodes|
    ensures Chunks([fs], [], i, off, addr) && addr[..0] == [] && After(fs, fs, i, off, [])
  {
    hide FsOk, After;
    AfterNone(fs, i, off);
    assert addr[..0] == [];
  }

  lemma ChunksMore(states: seq<Fs>, ops: seq<set<LogBlock>>, i: nat, off: nat, addr: seq<byte>, fs: Fs,
          logged: set<LogBlock>)
    requires Chunks(states, ops, i, off, addr) && |ops| * CHUNK < |addr| && Covered(states[|ops|], fs, logged)
    requires After(states[0], fs, i, off, addr[..Min((|ops| + 1) * CHUNK, |addr|)])
    ensures Chunks(states + [fs], ops + [logged], i, off, addr)
  {
    hide After, Covered;
  }

  /** writei after tot bytes: the inode changes only when the file is about to grow. */
  ghost predicate InLoop(fs0: Fs, fs: Fs, i: nat, src: seq<byte>, off: nat, tot: nat) {
    && Writing(fs0, fs, i, src, off, off + tot)
    && fs.inodes == fs0.inodes[i := fs.inodes[i]]
    && (off + tot <= fs0.inodes[i].size ==> fs.inodes == fs0.inodes)
  }

  lemma LoopStart(fs: Fs, i: nat, src: seq<byte>, off: nat)
    requires FsOk(fs) && i < |fs.inodes| && off <= fs.inodes[i].size
    ensures InLoop(fs, fs, i, src, off, 0) && |fs.inodes[i].addrs| == NDIRECT + 1
  {
    WritingStart(fs, i, src, off);
  }

  /** The next block to write is mapped unless it lies past the end of the file. */
  lemma LoopBlock(fs0: Fs, fs: Fs, i: nat, src: seq<byte>, off: nat, tot: nat)
    requires InLoop(fs0, fs, i, src, off, tot) && off + tot < MAXFILE * BSIZE
    ensures Owned(fs) && i < |fs.inodes| && |fs.inodes[i].addrs| == NDIRECT + 1 && (off + tot) / BSIZE < MAXFILE
  {
  }

  lemma LoopStep(fs0: Fs, fs: Fs, fs1: Fs, i: nat, src: seq<byte>, off: nat, tot: nat, m: nat)
    requires InLoop(fs0, fs, i, src, off, tot) && tot + m <= |src| && off + tot + m <= MAXFILE * BSIZE
    requires 1 <= m <= BSIZE - (off + tot) % BSIZE
    requires Owned(fs1) && Extends(fs, fs1) && SameBut(fs1.inodes, fs.inodes, i) && Mapped(fs1, i, (off + tot) / BSIZE)
    requires Mapped(fs, i, (off + tot) / BSIZE) ==> fs1 == fs
    ensures var b := Ref(fs1.disk, fs1.inodes[i], Slot((off + tot) / BSIZE));
            var fs2 := WriteBlock(fs1, b, Patch(fs1.disk[b], (off + tot) % BSIZE, src[tot..tot + m]));
            && InLoop(fs0, fs2, i, src, off, tot + m) && |fs2.inodes[i].addrs| == NDIRECT + 1
            && WriteBlocks(fs, i, off, tot) + MapBlocks(fs2, i, b) <= WriteBlocks(fs2, i, off, tot + m)
  {
    hide Writing, Owned, Extends, WriteBlocks, MapBlocks, MappedTo;
    var at := off + tot;
    WritingFacts(fs0, fs, i, src, off, at);
    ShapedAddrs(fs1, i);
    var b := Ref(fs1.disk, fs1.inodes[i], Slot(at / BSIZE));
    assert src[at - off..at - off + m] == src[tot..tot + m];
    assert fs1.inodes == fs0.inodes[i := fs1.inodes[i]];
    WritingStep(fs0, fs, fs1, i, src, off, at, m);
    WriteBlocksStep(fs, fs1, i, off, tot, m, Patch(fs1.disk[b], at % BSIZE, src[tot..tot + m]));
  }

  lemma WritingFacts(fs0: Fs, fs: Fs, i: nat, src: seq<byte>, off0: nat, off: nat)
    requires Writing(fs0, fs, i, src, off0, off)
    ensures Owned(fs) && i < |fs.inodes| == |fs0.inodes| && |fs.inodes[i].addrs| == NDIRECT + 1 && MappedTo(fs, i, off)
    ensures off < fs0.inodes[i].size ==> Mapped(fs, i, off / BSIZE)
  {
    if off < fs0.inodes[i].size { assert Written(fs, i, off); }
  }

  lemma WriteBlocksStep(fs: Fs, fs1: Fs, i: nat, off: nat, tot: nat, m: nat, x: Block)
    requires Owned(fs) && Owned(fs1) && Extends(fs, fs1) && i < |fs.inodes| && MappedTo(fs, i, off + tot)
    requires Mapped(fs1, i, (off + tot) / BSIZE) && m >= 1
    ensures var b := Ref(fs1.disk, fs1.inodes[i], Slot((off + tot) / BSIZE));
            var fs2 := WriteBlock(fs1, b, x);
            && |fs2.inodes[i].addrs| == NDIRECT + 1
            && WriteBlocks(fs, i, off, tot) + MapBlocks(fs2, i, b) <= WriteBlocks(fs2, i, off, tot + m)
  {
    var bn := (off + tot) / BSIZE;
    var fs2 := WriteBlock(fs1, Ref(fs1.disk, fs1.inodes[i], Slot(bn)), x);
    WriteBlockOwned(fs1, i, Slot(bn), x);
    assert RefKept(fs, fs1, i, NDIRECT);
    forall c | off / BSIZE <= c < MAXFILE && c * BSIZE < off + tot
      ensures Data(Ref(fs.disk, fs.inodes[i], Slot(c))) in WriteBlocks(fs2, i, off, tot + m)
    {
      assert Mapped(fs, i, c) && RefKept(fs, fs1, i, Slot(c));
    }
  }

  lemma WriteBlocksInode(fs: Fs, fs': Fs, i: nat, off: nat, n: nat)
    requires i < |fs.inodes| == |fs'.inodes| && |fs.inodes[i].addrs| == NDIRECT + 1 && fs'.disk == fs.disk
    requires fs'.inodes[i].addrs == fs.inodes[i].addrs
    ensures WriteBlocks(fs, i, off, n) + {Inodes(i / IPB)} <= WriteBlocks(fs', i, off, n)
  {
  }

  lemma IndirectOk(fs: Fs, i: nat)
    requires Owned(fs) && i < |fs.inodes| && fs.inodes[i].addrs[NDIRECT] != 0
    ensures fs.inodes[i].addrs[NDIRECT] < |fs.disk|
  {
    assert RefOk(fs, i, NDIRECT);
  }

  lemma ShapedAddrs(fs: Fs, i: nat)
    requires Owned(fs) && i < |fs.inodes|
    ensures |fs.inodes[i].addrs| == NDIRECT + 1
  {
  }

  lemma SameBlock(fs: Fs, i: nat, at: nat, m: nat)
    requires FsOk(fs) && i < |fs.inodes| && at + m <= fs.inodes[i].size && 1 <= m <= BSIZE - at % BSIZE
    ensures at / BSIZE < MAXFILE && Mapped(fs, i, at / BSIZE)
    ensures 0 < Ref(fs.disk, fs.inodes[i], Slot(at / BSIZE)) < |fs.disk|
    ensures Content(fs, i)[at..at + m] ==
            fs.disk[Ref(fs.disk, fs.inodes[i], Slot(at / BSIZE))][at % BSIZE..at % BSIZE + m]
  {
    InFile(fs, i, at);
    forall k | at <= k < at + m ensures k / BSIZE == at / BSIZE && k % BSIZE == at % BSIZE + (k - at) {}
  }

  /** What a write of n bytes at off may log: the blocks it covers, the indirect block, bitmap blocks
      and the inode's. */
  ghost function WriteBlocks(fs: Fs, i: nat, off: nat, n: nat): set<LogBlock>
    requires i < |fs.inodes| && |fs.inodes[i].addrs| == NDIRECT + 1
  {
    BitmapBlocks(|fs.disk|) + IndirectBlock(fs.inodes[i]) + {Inodes(i / IPB)} +
    set bn | off / BSIZE <= bn < MAXFILE && bn * BSIZE < off + n :: Data(Ref(fs.disk, fs.inodes[i], Slot(bn)))
  }

  lemma {:induction false} SubsetCard<T>(a: set<T>, b: set<T>)
    requires a <= b
    ensures |a| <= |b|
  {
    if a != {} {
      var x :| x in a;
      SubsetCard(a - {x}, b - {x});
    }
  }

  /** A chunk logs at most seven blocks: four of data, the indirect block, one bitmap block and one of inodes. */
  lemma ChunkFits(fs: Fs, i: nat, off: nat, n: nat, logged: set<LogBlock>)
    requires i < |fs.inodes| && |fs.inodes[i].addrs| == NDIRECT + 1 && |fs.disk| < BPB && n <= CHUNK
    requires logged <= WriteBlocks(fs, i, off, n)
    ensures |logged| <= 7
  {
    var d := DataAt(fs, i, off / BSIZE);
    var all := {Bitmap(0), Data(fs.inodes[i].addrs[NDIRECT]), Inodes(i / IPB), d(0), d(1), d(2), d(3)};
    forall x | x in logged ensures x in all { ChunkBlock(fs, i, off, n, x); }
    SubsetCard(logged, all);
    SevenCard(Bitmap(0), Data(fs.inodes[i].addrs[NDIRECT]), Inodes(i / IPB), d(0), d(1), d(2), d(3));
  }

  /** The data blocks of the file from block bn on. */
  ghost function DataAt(fs: Fs, i: nat, bn: nat): nat -> LogBlock
    requires i < |fs.inodes| && |fs.inodes[i].addrs| == NDIRECT + 1
  {
    (k: nat) => Data(if bn + k < MAXFILE then Ref(fs.disk, fs.inodes[i], Slot(bn + k)) else 0)
  }

  lemma ChunkBlock(fs: Fs, i: nat, off: nat, n: nat, x: LogBlock)
    requires i < |fs.inodes| && |fs.inodes[i].addrs| == NDIRECT + 1 && |fs.disk| < BPB && n <= CHUNK
    requires x in WriteBlocks(fs, i, off, n)
    ensures var d := DataAt(fs, i, off / BSIZE);
            || x == Bitmap(0) || x == Data(fs.inodes[i].addrs[NDIRECT]) || x == Inodes(i / IPB)
            || x == d(0) || x == d(1) || x == d(2) || x == d(3)
  {
    hide Ref;
    var bn := off / BSIZE;
    if x.Data? && x !in IndirectBlock(fs.inodes[i]) {
      var k :| bn <= k < MAXFILE && k * BSIZE < off + n && x == Data(Ref(fs.disk, fs.inodes[i], Slot(k)));
      assert k - bn <= 3;
      assert x == DataAt(fs, i, bn)(k - bn);
    }
  }

  lemma SevenCard<T>(a: T, b: T, c: T, d: T, e: T, f: T, g: T)
    ensures |{a, b, c, d, e, f, g}| <= 7
  {
    assert {a, b, c, d, e, f, g} == {a} + {b} + {c} + {d} + {e} + {f} + {g};
  }

  /** What mapping one block may log: bitmap blocks, the indirect block and the block itself. */
  ghost function MapBlocks(fs: Fs, i: nat, b: nat): set<LogBlock>
    requires i < |fs.inodes| && |fs.inodes[i].addrs| == NDIRECT + 1
  {
    BitmapBlocks(|fs.disk|) + IndirectBlock(fs.inodes[i]) + {Data(b)}
  }

  ghost function IndirectBlock(ip: Inode): set<LogBlock>
    requires |ip.addrs| == NDIRECT + 1
  {
    if ip.addrs[NDIRECT] == 0 then {} else {Data(ip.addrs[NDIRECT])}
  }

  ghost function BitmapBlocks(size: nat): set<LogBlock> {
    set k | 0 <= k <= size / BPB :: Bitmap(k)
  }

  lemma BitmapIn(size: nat, b: nat)
    requires b < size
    ensures Bitmap(b / BPB) in BitmapBlocks(size)
  {
    assert 0 <= b / BPB <= size / BPB;
  }

  lemma ExtendsSelf(fs: Fs)
    requires Shaped(fs)
    ensures Extends(fs, fs)
  {
  }
}

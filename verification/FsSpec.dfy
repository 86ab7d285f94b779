/** Inodes, the block map and the free bitmap (fs.c), as functions of their values: which block each
    slot of an inode refers to, who owns each block, and the bytes of a file. */
module FsSpec {
  import opened Blocks
  import opened Prelude

  const NDIRECT: nat := 12
  const NINDIRECT: nat := 128
  const MAXFILE: nat := NDIRECT + NINDIRECT
  const SLOTS: nat := NDIRECT + 1 + NINDIRECT

  /** The part of an inode that describes its contents: size in bytes and the NDIRECT + 1 addresses. */
  datatype Inode = Inode(typ: nat, size: nat, addrs: seq<nat>)

  type Owner = Option<(nat, nat)>   // inode number and slot

  /** Everything the block layer keeps: contents, bitmap and inodes, and who owns each block. */
  datatype Fs = Fs(disk: seq<Block>, used: seq<bool>, inodes: seq<Inode>, owner: seq<Owner>, nmeta: nat)

  /** The slot of file block bn: direct addresses first, then (after the indirect block's own slot)
      the words of the indirect block. */
  function Slot(bn: nat): nat {
    if bn < NDIRECT then bn else bn + 1
  }

  /** The block a slot refers to, 0 for none. */
  function Ref(disk: seq<Block>, ip: Inode, slot: nat): nat
    requires |ip.addrs| == NDIRECT + 1 && slot < SLOTS
  {
    if slot <= NDIRECT then ip.addrs[slot]
    else if 0 < ip.addrs[NDIRECT] < |disk| then Word(disk[ip.addrs[NDIRECT]], slot - NDIRECT - 1)
    else 0
  }

  ghost predicate RefOk(fs: Fs, i: nat, s: nat)
    requires |fs.owner| == |fs.disk| && i < |fs.inodes| && |fs.inodes[i].addrs| == NDIRECT + 1 && s < SLOTS
  {
    var b := Ref(fs.disk, fs.inodes[i], s);
    b != 0 ==> fs.nmeta <= b < |fs.disk| && fs.owner[b] == Some((i, s))
  }

  ghost predicate BlockOk(fs: Fs, b: nat)
    requires |fs.owner| == |fs.disk| == |fs.used| && b < |fs.disk|
    requires forall i :: 0 <= i < |fs.inodes| ==> |fs.inodes[i].addrs| == NDIRECT + 1
  {
    && (fs.used[b] <==> b < fs.nmeta || fs.owner[b].Some?)
    && (fs.owner[b].Some? ==>
          var (i, s) := fs.owner[b].value;
          b >= fs.nmeta && i < |fs.inodes| && s < SLOTS && Ref(fs.disk, fs.inodes[i], s) == b)
  }

  /** Block ownership: the blocks that inodes refer to, through any slot, are pairwise distinct and
      are exactly the blocks marked in the bitmap outside the metadata. */
  ghost predicate Owned(fs: Fs) {
    && Shaped(fs)
    && (forall i, s :: 0 <= i < |fs.inodes| && 0 <= s < SLOTS ==> RefOk(fs, i, s))
    && (forall b :: 0 <= b < |fs.disk| ==> BlockOk(fs, b))
  }

  ghost predicate Shaped(fs: Fs) {
    && |fs.used| == |fs.owner| == |fs.disk| && 1 <= fs.nmeta <= |fs.disk| <= 0x1_0000_0000
    && forall i :: 0 <= i < |fs.inodes| ==> |fs.inodes[i].addrs| == NDIRECT + 1
  }

  /** Distinct slots refer to distinct blocks, and every referred block is in use. */
  lemma RefsDistinct(fs: Fs, i: nat, s: nat, j: nat, t: nat)
    requires Owned(fs) && i < |fs.inodes| && j < |fs.inodes| && s < SLOTS && t < SLOTS
    requires Ref(fs.disk, fs.inodes[i], s) == Ref(fs.disk, fs.inodes[j], t) != 0
    ensures i == j && s == t
    ensures fs.nmeta <= Ref(fs.disk, fs.inodes[i], s) < |fs.used| && fs.used[Ref(fs.disk, fs.inodes[i], s)]
  {
    assert RefOk(fs, i, s) && RefOk(fs, j, t);
    assert BlockOk(fs, Ref(fs.disk, fs.inodes[i], s));
  }

  // ----- File contents -----

  /** Block bn of the file is mapped to an owned block. */
  ghost predicate Mapped(fs: Fs, i: nat, bn: nat)
    requires i < |fs.inodes| && |fs.inodes[i].addrs| == NDIRECT + 1
  {
    bn < MAXFILE && 0 < Ref(fs.disk, fs.inodes[i], Slot(bn)) < |fs.disk|
  }

  /** Every block below byte `size` is mapped. */
  ghost predicate MappedTo(fs: Fs, i: nat, size: nat)
    requires i < |fs.inodes| && |fs.inodes[i].addrs| == NDIRECT + 1
  {
    size <= MAXFILE * BSIZE && forall bn :: 0 <= bn && bn * BSIZE < size ==> Mapped(fs, i, bn)
  }

  ghost function ByteAt(fs: Fs, i: nat, k: nat): byte
    requires i < |fs.inodes| && |fs.inodes[i].addrs| == NDIRECT + 1 && Mapped(fs, i, k / BSIZE)
  {
    fs.disk[Ref(fs.disk, fs.inodes[i], Slot(k / BSIZE))][k % BSIZE]
  }

  ghost predicate NoHoles(fs: Fs) {
    && (forall i :: 0 <= i < |fs.inodes| ==> |fs.inodes[i].addrs| == NDIRECT + 1)
    && forall i :: 0 <= i < |fs.inodes| ==> MappedTo(fs, i, fs.inodes[i].size)
  }

  ghost predicate FsOk(fs: Fs) {
    Owned(fs) && NoHoles(fs)
  }

  /** A file's contents. */
  ghost function Content(fs: Fs, i: nat): (r: seq<byte>)
    requires NoHoles(fs) && i < |fs.inodes|
    ensures |r| == fs.inodes[i].size
  {
    seq(fs.inodes[i].size, k requires 0 <= k < fs.inodes[i].size => InFile(fs, i, k); ByteAt(fs, i, k))
  }

  lemma InFile(fs: Fs, i: nat, k: nat)
    requires NoHoles(fs) && i < |fs.inodes| && k < fs.inodes[i].size
    ensures Mapped(fs, i, k / BSIZE)
  {
    assert MappedTo(fs, i, fs.inodes[i].size);
    assert k / BSIZE * BSIZE <= k;
  }

  // ----- Updates -----

  /** Allocate block b, zeroed, for a direct address or for the indirect block itself. */
  ghost function AllocAddr(fs: Fs, i: nat, s: nat, b: nat): (r: Fs)
    requires Shaped(fs) && i < |fs.inodes| && s <= NDIRECT && b < |fs.disk|
  {
    fs.(disk := fs.disk[b := ZeroBlock()], used := fs.used[b := true], owner := fs.owner[b := Some((i, s))],
        inodes := fs.inodes[i := fs.inodes[i].(addrs := fs.inodes[i].addrs[s := b])])
  }

  lemma ZeroWords(k: nat)
    requires k < WORDS
    ensures Word(ZeroBlock(), k) == 0
  {
  }

  /** The other slots do not notice an allocation: the block was nobody's. */
  lemma AllocAddrRefs(fs: Fs, i: nat, s: nat, b: nat, j: nat, t: nat)
    requires Owned(fs) && i < |fs.inodes| && s <= NDIRECT && b < |fs.disk| && !fs.used[b] && fs.inodes[i].addrs[s] == 0
    requires j < |fs.inodes| && t < SLOTS
    ensures var fs' := AllocAddr(fs, i, s, b);
            Ref(fs'.disk, fs'.inodes[j], t) == if j == i && t == s then b else Ref(fs.disk, fs.inodes[j], t)
  {
    assert BlockOk(fs, b) && RefOk(fs, j, NDIRECT);
    if j == i && s == NDIRECT && t > NDIRECT { ZeroWords(t - NDIRECT - 1); }
  }

  lemma AllocAddrOwned(fs: Fs, i: nat, s: nat, b: nat)
    requires Owned(fs) && i < |fs.inodes| && s <= NDIRECT && b < |fs.disk| && !fs.used[b] && fs.inodes[i].addrs[s] == 0
    ensures Owned(AllocAddr(fs, i, s, b)) && b >= fs.nmeta
  {
    var fs' := AllocAddr(fs, i, s, b);
    assert BlockOk(fs, b);
    forall j, t | 0 <= j < |fs.inodes| && 0 <= t < SLOTS ensures RefOk(fs', j, t) {
      AllocAddrRefs(fs, i, s, b, j, t);
      assert RefOk(fs, j, t);
    }
    forall c | 0 <= c < |fs.disk| ensures BlockOk(fs', c) {
      assert BlockOk(fs, c);
      if c != b && fs.owner[c].Some? { AllocAddrRefs(fs, i, s, b, fs.owner[c].value.0, fs.owner[c].value.1); }
      if c == b { AllocAddrRefs(fs, i, s, b, i, s); }
    }
  }

  /** Allocate block b, zeroed, for word k of the inode's indirect block. */
  ghost function AllocEntry(fs: Fs, i: nat, k: nat, b: nat): (r: Fs)
    requires Shaped(fs) && i < |fs.inodes| && k < NINDIRECT && b < |fs.disk| && fs.inodes[i].addrs[NDIRECT] < |fs.disk|
  {
    var ind := fs.inodes[i].addrs[NDIRECT];
    var disk := fs.disk[b := ZeroBlock()];
    fs.(disk := disk[ind := PutWord(disk[ind], k, b)], used := fs.used[b := true],
        owner := fs.owner[b := Some((i, NDIRECT + 1 + k))])
  }

  /** The indirect block of i exists, and b is free to become its entry k. */
  ghost predicate CanAllocEntry(fs: Fs, i: nat, k: nat, b: nat) {
    && Owned(fs) && i < |fs.inodes| && k < NINDIRECT && b < |fs.disk| && !fs.used[b]
    && 0 < fs.inodes[i].addrs[NDIRECT] < |fs.disk| && Ref(fs.disk, fs.inodes[i], NDIRECT + 1 + k) == 0
  }

  lemma AllocEntryRefs(fs: Fs, i: nat, k: nat, b: nat, j: nat, t: nat)
    requires CanAllocEntry(fs, i, k, b) && j < |fs.inodes| && t < SLOTS
    ensures var fs' := AllocEntry(fs, i, k, b);
            Ref(fs'.disk, fs'.inodes[j], t) == if j == i && t == NDIRECT + 1 + k then b
                else Ref(fs.disk, fs.inodes[j], t)
  {
    assert BlockOk(fs, b) && RefOk(fs, j, NDIRECT) && RefOk(fs, i, NDIRECT);
  }

  lemma AllocEntryOwned(fs: Fs, i: nat, k: nat, b: nat)
    requires CanAllocEntry(fs, i, k, b)
    ensures Owned(AllocEntry(fs, i, k, b)) && b >= fs.nmeta
  {
    var fs' := AllocEntry(fs, i, k, b);
    assert BlockOk(fs, b);
    forall j, t | 0 <= j < |fs.inodes| && 0 <= t < SLOTS ensures RefOk(fs', j, t) {
      AllocEntryRefs(fs, i, k, b, j, t);
      assert RefOk(fs, j, t);
    }
    forall c | 0 <= c < |fs.disk| ensures BlockOk(fs', c) {
      assert BlockOk(fs, c);
      if c != b && fs.owner[c].Some? { AllocEntryRefs(fs, i, k, b, fs.owner[c].value.0, fs.owner[c].value.1); }
      if c == b { AllocEntryRefs(fs, i, k, b, i, NDIRECT + 1 + k); }
    }
  }

  /** New blocks may have been mapped, but what was mapped still is, with the same bytes. */
  ghost predicate Extends(fs: Fs, fs': Fs) {
    && Shaped(fs) && Shaped(fs') && |fs'.inodes| == |fs.inodes| && |fs'.disk| == |fs.disk| && fs'.nmeta == fs.nmeta
    && (forall j :: 0 <= j < |fs.inodes| ==>
          fs'.inodes[j].size == fs.inodes[j].size && fs'.inodes[j].typ == fs.inodes[j].typ)
    && (forall j, t :: 0 <= j < |fs.inodes| && 0 <= t < SLOTS ==> RefKept(fs, fs', j, t))
  }

  ghost predicate RefKept(fs: Fs, fs': Fs, j: nat, t: nat)
    requires j < |fs.inodes| == |fs'.inodes| && t < SLOTS && |fs.disk| == |fs'.disk|
    requires |fs.inodes[j].addrs| == |fs'.inodes[j].addrs| == NDIRECT + 1
  {
    var b := Ref(fs.disk, fs.inodes[j], t);
    b != 0 ==> Ref(fs'.disk, fs'.inodes[j], t) == b && (t != NDIRECT && b < |fs.disk| ==> fs'.disk[b] == fs.disk[b])
  }

  lemma AllocAddrExtends(fs: Fs, i: nat, s: nat, b: nat)
    requires Owned(fs) && i < |fs.inodes| && s <= NDIRECT && b < |fs.disk| && !fs.used[b] && fs.inodes[i].addrs[s] == 0
    ensures Extends(fs, AllocAddr(fs, i, s, b))
  {
    var fs' := AllocAddr(fs, i, s, b);
    assert BlockOk(fs, b);
    forall j, t | 0 <= j < |fs.inodes| && 0 <= t < SLOTS ensures RefKept(fs, fs', j, t) {
      AllocAddrRefs(fs, i, s, b, j, t);
      assert RefOk(fs, j, t);
    }
  }

  lemma AllocEntryExtends(fs: Fs, i: nat, k: nat, b: nat)
    requires CanAllocEntry(fs, i, k, b)
    ensures Extends(fs, AllocEntry(fs, i, k, b))
  {
    var fs' := AllocEntry(fs, i, k, b);
    assert BlockOk(fs, b) && RefOk(fs, i, NDIRECT);
    forall j, t | 0 <= j < |fs.inodes| && 0 <= t < SLOTS ensures RefKept(fs, fs', j, t) {
      AllocEntryRefs(fs, i, k, b, j, t);
      assert RefOk(fs, j, t);
    }
  }

  lemma ExtendsTrans(fs: Fs, fs1: Fs, fs2: Fs)
    requires Extends(fs, fs1) && Extends(fs1, fs2)
    ensures Extends(fs, fs2)
  {
    forall j, t | 0 <= j < |fs.inodes| && 0 <= t < SLOTS ensures RefKept(fs, fs2, j, t) {
      assert RefKept(fs, fs1, j, t) && RefKept(fs1, fs2, j, t);
    }
  }

  lemma ExtendsMapped(fs: Fs, fs': Fs, i: nat, size: nat)
    requires Extends(fs, fs') && i < |fs.inodes| && MappedTo(fs, i, size)
    ensures MappedTo(fs', i, size)
    ensures forall k: nat :: k < size ==>
      Mapped(fs, i, k / BSIZE) && Mapped(fs', i, k / BSIZE) && ByteAt(fs', i, k) == ByteAt(fs, i, k)
  {
    forall bn | 0 <= bn && bn * BSIZE < size ensures Mapped(fs', i, bn) {
      assert Mapped(fs, i, bn) && RefKept(fs, fs', i, Slot(bn));
    }
    forall k: nat | k < size
      ensures Mapped(fs, i, k / BSIZE) && Mapped(fs', i, k / BSIZE) && ByteAt(fs', i, k) == ByteAt(fs, i, k)
    {
      assert k / BSIZE * BSIZE <= k;
      assert Mapped(fs, i, k / BSIZE) && RefKept(fs, fs', i, Slot(k / BSIZE));
    }
  }

  lemma ExtendsContent(fs: Fs, fs': Fs)
    requires Extends(fs, fs') && NoHoles(fs)
    ensures NoHoles(fs') && forall i :: 0 <= i < |fs.inodes| ==> Content(fs', i) == Content(fs, i)
  {
    forall i | 0 <= i < |fs.inodes| ensures MappedTo(fs', i, fs'.inodes[i].size) {
      ExtendsMapped(fs, fs', i, fs.inodes[i].size);
    }
    forall i | 0 <= i < |fs.inodes| ensures Content(fs', i) == Content(fs, i) {
      ExtendsMapped(fs, fs', i, fs.inodes[i].size);
    }
  }

  // ----- Writing data -----

  ghost function WriteBlock(fs: Fs, b: nat, x: Block): (r: Fs)
    requires b < |fs.disk|
  {
    fs.(disk := fs.disk[b := x])
  }

  /** Writing a data block changes no reference. */
  lemma WriteBlockOwned(fs: Fs, i: nat, s: nat, x: Block)
    requires Owned(fs) && i < |fs.inodes| && s < SLOTS && s != NDIRECT && 0 < Ref(fs.disk, fs.inodes[i], s) < |fs.disk|
    ensures var fs' := WriteBlock(fs, Ref(fs.disk, fs.inodes[i], s), x);
            && Owned(fs')
            && forall j, t :: 0 <= j < |fs.inodes| && 0 <= t < SLOTS ==>
                 Ref(fs'.disk, fs'.inodes[j], t) == Ref(fs.disk, fs.inodes[j], t)
  {
    var b := Ref(fs.disk, fs.inodes[i], s);
    var fs' := WriteBlock(fs, b, x);
    assert RefOk(fs, i, s);
    forall j, t | 0 <= j < |fs.inodes| && 0 <= t < SLOTS
      ensures Ref(fs'.disk, fs'.inodes[j], t) == Ref(fs.disk, fs.inodes[j], t) && RefOk(fs', j, t)
    {
      assert RefOk(fs, j, NDIRECT) && RefOk(fs, j, t);
    }
    forall c | 0 <= c < |fs.disk| ensures BlockOk(fs', c) {
      assert BlockOk(fs, c);
      if fs.owner[c].Some? { assert RefOk(fs', fs.owner[c].value.0, fs.owner[c].value.1); }
    }
  }

  /** Writing file block bn of inode i changes exactly the bytes of that block of that file. */
  lemma WriteBlockBytes(fs: Fs, i: nat, bn: nat, x: Block, j: nat, k: nat)
    requires Owned(fs) && i < |fs.inodes| && Mapped(fs, i, bn) && j < |fs.inodes| && Mapped(fs, j, k / BSIZE)
    ensures var fs' := WriteBlock(fs, Ref(fs.disk, fs.inodes[i], Slot(bn)), x);
            && Mapped(fs', j, k / BSIZE)
            && ByteAt(fs', j, k) == if j == i && k / BSIZE == bn then x[k % BSIZE] else ByteAt(fs, j, k)
  {
    WriteBlockOwned(fs, i, Slot(bn), x);
    if Ref(fs.disk, fs.inodes[i], Slot(bn)) == Ref(fs.disk, fs.inodes[j], Slot(k / BSIZE)) {
      RefsDistinct(fs, i, Slot(bn), j, Slot(k / BSIZE));
    }
  }

  /** The bytes of `data` placed at offset `at` of a block. */
  function Patch(b: Block, at: nat, data: seq<byte>): (r: Block)
    requires at + |data| <= BSIZE
    ensures forall k :: 0 <= k < BSIZE ==> r[k] == if at <= k < at + |data| then data[k - at] else b[k]
  {
    b[..at] + data + b[at + |data|..]
  }

  /** Where writei stands after writing src[..off - off0] at off0 of file i. */
  ghost predicate Writing(fs0: Fs, fs: Fs, i: nat, src: seq<byte>, off0: nat, off: nat) {
    && Owned(fs) && NoHoles(fs0) && |fs.inodes| == |fs0.inodes| && i < |fs.inodes| && |fs.disk| == |fs0.disk|
    && off0 <= fs0.inodes[i].size && off0 <= off <= off0 + |src| && off <= MAXFILE * BSIZE
    && (forall j :: 0 <= j < |fs.inodes| ==>
          fs.inodes[j].size == fs0.inodes[j].size && fs.inodes[j].typ == fs0.inodes[j].typ)
    && MappedTo(fs, i, off)
    && (forall k: nat :: off0 <= k < off ==> Written(fs, i, k) && ByteAt(fs, i, k) == src[k - off0])
    && (forall j, k: nat :: 0 <= j < |fs.inodes| && k < fs0.inodes[j].size ==>
          Written(fs0, j, k) && Written(fs, j, k) && ((j == i && off0 <= k < off)
              || ByteAt(fs, j, k) == ByteAt(fs0, j, k)))
  }

  ghost predicate Written(fs: Fs, j: nat, k: nat)
    requires j < |fs.inodes| && |fs.inodes[j].addrs| == NDIRECT + 1
  {
    Mapped(fs, j, k / BSIZE)
  }

  lemma WritingStart(fs: Fs, i: nat, src: seq<byte>, off: nat)
    requires FsOk(fs) && i < |fs.inodes| && off <= fs.inodes[i].size
    ensures Writing(fs, fs, i, src, off, off)
  {
    assert forall j :: 0 <= j < |fs.inodes| ==> MappedTo(fs, j, fs.inodes[j].size);
    forall j, k: nat | 0 <= j < |fs.inodes| && k < fs.inodes[j].size ensures Written(fs, j, k) {
      InFile(fs, j, k);
    }
  }

  /** One pass of writei's loop: bmap may extend the file system, then one block is patched. */
  lemma WritingStep(fs0: Fs, fs: Fs, fs1: Fs, i: nat, src: seq<byte>, off0: nat, off: nat, m: nat)
    requires Writing(fs0, fs, i, src, off0, off) && Extends(fs, fs1) && Owned(fs1)
    requires Mapped(fs1, i, off / BSIZE)
    requires 1 <= m <= BSIZE - off % BSIZE && off + m <= off0 + |src| && off + m <= MAXFILE * BSIZE
    ensures var b := Ref(fs1.disk, fs1.inodes[i], Slot(off / BSIZE));
            var data := src[off - off0..off - off0 + m];
            Writing(fs0, WriteBlock(fs1, b, Patch(fs1.disk[b], off % BSIZE, data)), i, src, off0, off + m)
  {
    var bn := off / BSIZE;
    var b := Ref(fs1.disk, fs1.inodes[i], Slot(bn));
    var data := src[off - off0..off - off0 + m];
    var x := Patch(fs1.disk[b], off % BSIZE, data);
    var fs2 := WriteBlock(fs1, b, x);
    WriteBlockOwned(fs1, i, Slot(bn), x);
    ExtendsMapped(fs, fs1, i, off);
    forall k: nat | off0 <= k < off + m
      ensures Written(fs2, i, k) && ByteAt(fs2, i, k) == src[k - off0]
    {
      if k >= off { assert k / BSIZE == bn; } else { assert Written(fs, i, k) && Mapped(fs1, i, k / BSIZE); }
      WriteBlockBytes(fs1, i, bn, x, i, k);
    }
    forall j, k: nat | 0 <= j < |fs.inodes| && k < fs0.inodes[j].size
      ensures Written(fs0, j, k) && Written(fs2, j, k)
      ensures ((j == i && off0 <= k < off + m) || ByteAt(fs2, j, k) == ByteAt(fs0, j, k))
    {
      assert Written(fs0, j, k) && Written(fs, j, k);
      assert RefKept(fs, fs1, j, Slot(k / BSIZE));
      WriteBlockBytes(fs1, i, bn, x, j, k);
    }
    forall c | 0 <= c && c * BSIZE < off + m ensures Mapped(fs2, i, c) {
      if c < bn { assert c * BSIZE < off; assert Mapped(fs1, i, c); }
    }
  }

  /** What writei leaves: the file has exactly the written bytes replaced or appended, and every other
      file is as before. */
  lemma WritingEnd(fs0: Fs, fs: Fs, i: nat, src: seq<byte>, off0: nat, fs': Fs)
    requires Writing(fs0, fs, i, src, off0, off0 + |src|) && FsOk(fs0)
    requires fs' == if |src| > 0 && off0 + |src| > fs0.inodes[i].size
                    then fs.(inodes := fs.inodes[i := fs.inodes[i].(size := off0 + |src|)]) else fs
    ensures FsOk(fs') && |fs'.inodes| == |fs0.inodes| && |fs'.disk| == |fs0.disk|
    ensures Content(fs', i) == Spliced(Content(fs0, i), off0, src)
    ensures forall j :: 0 <= j < |fs0.inodes| && j != i ==> Content(fs', j) == Content(fs0, j)
  {
    SizeOwned(fs, i, off0 + |src|);
    WritingEndMapped(fs0, fs, i, src, off0, fs');
    hide Owned, NoHoles;
    forall j, k | 0 <= j < |fs0.inodes| && 0 <= k < fs'.inodes[j].size
      ensures Content(fs', j)[k] == if j == i then Spliced(Content(fs0, i), off0, src)[k] else Content(fs0, j)[k]
    {
      if k < fs0.inodes[j].size { assert Written(fs0, j, k) && Written(fs, j, k); }
    }
  }

  lemma WritingEndMapped(fs0: Fs, fs: Fs, i: nat, src: seq<byte>, off0: nat, fs': Fs)
    requires Writing(fs0, fs, i, src, off0, off0 + |src|) && NoHoles(fs0)
    requires fs' == if |src| > 0 && off0 + |src| > fs0.inodes[i].size
                    then fs.(inodes := fs.inodes[i := fs.inodes[i].(size := off0 + |src|)]) else fs
    ensures NoHoles(fs')
  {
    forall j | 0 <= j < |fs'.inodes| ensures MappedTo(fs', j, fs'.inodes[j].size) {
      assert MappedTo(fs0, j, fs0.inodes[j].size);
      forall bn | 0 <= bn && bn * BSIZE < fs'.inodes[j].size ensures Mapped(fs', j, bn) {
        if bn * BSIZE < fs0.inodes[j].size { assert Written(fs, j, bn * BSIZE); }
        else { assert Mapped(fs, i, bn); }
      }
    }
  }

  /** src written over s at off, growing it if needed. */
  function Spliced(s: seq<byte>, off: nat, src: seq<byte>): (r: seq<byte>)
    requires off <= |s|
  {
    s[..off] + src + if off + |src| < |s| then s[off + |src|..] else []
  }

  lemma SpliceMore(s: seq<byte>, off: nat, a: seq<byte>, b: seq<byte>)
    requires off <= |s|
    ensures Spliced(s, off, []) == s
    ensures |Spliced(s, off, a)| >= off + |a|
    ensures Spliced(Spliced(s, off, a), off + |a|, b) == Spliced(s, off, a + b)
  {
  }

  /** A file's size is not part of ownership. */
  lemma SizeOwned(fs: Fs, i: nat, size: nat)
    requires Owned(fs) && i < |fs.inodes|
    ensures Owned(fs.(inodes := fs.inodes[i := fs.inodes[i].(size := size)]))
  {
    var fs' := fs.(inodes := fs.inodes[i := fs.inodes[i].(size := size)]);
    forall j, t | 0 <= j < |fs.inodes| && 0 <= t < SLOTS
      ensures Ref(fs'.disk, fs'.inodes[j], t) == Ref(fs.disk, fs.inodes[j], t) && RefOk(fs', j, t)
    {
      assert RefOk(fs, j, t);
    }
    forall c | 0 <= c < |fs.disk| ensures BlockOk(fs', c) {
      assert BlockOk(fs, c);
      if fs.owner[c].Some? { assert RefOk(fs', fs.owner[c].value.0, fs.owner[c].value.1); }
    }
  }

  // ----- Truncation -----

  /** The bitmap after freeing the blocks of the given slots of inode i. */
  ghost predicate UsedMinus(fs: Fs, used: seq<bool>, i: nat, slots: set<nat>) {
    && |used| == |fs.used| == |fs.owner|
    && forall b :: 0 <= b < |used| ==>
         (used[b] <==> fs.used[b] && !(fs.owner[b].Some? && fs.owner[b].value.0 == i && fs.owner[b].value.1 in slots))
  }

  /** Freeing one more slot: its block is still marked, so "freeing free block" cannot happen. */
  lemma FreeSlot(fs: Fs, used: seq<bool>, i: nat, slots: set<nat>, s: nat)
    requires Owned(fs) && i < |fs.inodes| && s < SLOTS && s !in slots && UsedMinus(fs, used, i, slots)
    ensures var b := Ref(fs.disk, fs.inodes[i], s);
            if b == 0 then UsedMinus(fs, used, i, slots + {s})
            else b < |used| && used[b] && UsedMinus(fs, used[b := false], i, slots + {s})
  {
    assert RefOk(fs, i, s);
    forall c | 0 <= c < |used| && fs.owner[c] == Some((i, s)) ensures c == Ref(fs.disk, fs.inodes[i], s) && c != 0 {
      assert BlockOk(fs, c);
    }
    if Ref(fs.disk, fs.inodes[i], s) != 0 { assert BlockOk(fs, Ref(fs.disk, fs.inodes[i], s)); }
  }

  ghost function Below(k: nat): (r: set<nat>)
    ensures forall s: nat :: s in r <==> s < k
  {
    if k == 0 then {} else Below(k - 1) + {k - 1}
  }

  const NO_ADDRS: seq<nat> := [0, 0, 0, 0, 0, 0, 0, 0, 0, 0, 0, 0, 0]

  lemma UsedMinusAll(fs: Fs, used: seq<bool>, i: nat)
    requires Owned(fs) && UsedMinus(fs, used, i, Below(SLOTS))
    ensures |used| == |fs.used| == |fs.owner|
    ensures forall b :: 0 <= b < |used| ==>
      (used[b] <==> fs.used[b] && !(fs.owner[b].Some? && fs.owner[b].value.0 == i))
  {
    forall b | 0 <= b < |used| && fs.owner[b].Some? ensures fs.owner[b].value.1 in Below(SLOTS) {
      assert BlockOk(fs, b);
    }
  }

  ghost function Disowned(owner: seq<Owner>, i: nat): (r: seq<Owner>)
    ensures |r| == |owner|
  {
    seq(|owner|, b requires 0 <= b < |owner| => if owner[b].Some? && owner[b].value.0 == i then None else owner[b])
  }

  /** The file system after itrunc. */
  ghost function Truncated(fs: Fs, i: nat, used: seq<bool>): (r: Fs)
    requires i < |fs.inodes|
  {
    fs.(used := used, owner := Disowned(fs.owner, i), inodes := fs.inodes[i := fs.inodes[i].(size := 0,
        addrs := NO_ADDRS)])
  }

  lemma TruncatedOk(fs: Fs, i: nat, used: seq<bool>)
    requires FsOk(fs) && i < |fs.inodes| && UsedMinus(fs, used, i, Below(SLOTS))
    ensures var fs' := Truncated(fs, i, used);
            && FsOk(fs') && Content(fs', i) == []
            && forall j :: 0 <= j < |fs.inodes| && j != i ==> Content(fs', j) == Content(fs, j)
  {
    var fs' := Truncated(fs, i, used);
    forall j, t | 0 <= j < |fs.inodes| && 0 <= t < SLOTS ensures RefOk(fs', j, t) { assert RefOk(fs, j, t); }
    forall c | 0 <= c < |fs.disk| ensures BlockOk(fs', c) { assert BlockOk(fs, c); }
    forall j | 0 <= j < |fs.inodes| ensures MappedTo(fs', j, fs'.inodes[j].size) {
      assert MappedTo(fs, j, fs.inodes[j].size);
      if j != i {
        forall bn | 0 <= bn && bn * BSIZE < fs.inodes[j].size ensures Mapped(fs', j, bn) { assert Mapped(fs, j, bn); }
      }
    }
    forall j, k | 0 <= j < |fs.inodes| && j != i && 0 <= k < fs.inodes[j].size
      ensures Content(fs', j)[k] == Content(fs, j)[k]
    {
      InFile(fs, j, k);
    }
  }
}

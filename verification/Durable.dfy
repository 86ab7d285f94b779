/** What a file write leaves on disk when the machine crashes: filewrite's transactions over the log. */
module Durable {
  // The on-disk form of inodes and bitmap (fs.h, mkfs.c) ties a disk image to the file system it holds.  A transaction
  // of filewrite changes only blocks that it hands to log_write, so a crash leaves the state before it or after it.

  import opened Blocks
  import opened Prelude
  import opened Journal
  import opened FsSpec
  import opened FileSys
  import Logging

  /** Where mkfs puts the log, the inodes, the bitmap and the first data block. */
  datatype Layout = Layout(logstart: nat, inodestart: nat, bmapstart: nat, nmeta: nat)

  predicate LayoutOk(l: Layout, size: nat, ninodes: nat) {
    && l.logstart + NLOG <= l.inodestart && l.inodestart + ninodes / IPB + 1 <= l.bmapstart
    && l.bmapstart + size / BPB + 1 <= l.nmeta <= size <= 0x1_0000_0000
  }

  // ----- The on-disk form -----

  const DWORDS: nat := 16   // words of a struct dinode: two with type, major, minor and nlink, the size, 13 addresses

  /** Word k of the inode in slot s of its block. */
  function InodeWord(b: Block, s: nat, k: nat): nat
    requires s < IPB && k < DWORDS
  {
    Word(b, DWORDS * s + k)
  }

  function InodeIn(b: Block, s: nat): (ip: Inode)
    requires s < IPB
    ensures |ip.addrs| == NDIRECT + 1
  {
    Inode(InodeWord(b, s, 0) % 0x1_0000, InodeWord(b, s, 2),
          seq(NDIRECT + 1, (k: nat) requires k < NDIRECT + 1 => InodeWord(b, s, 3 + k)))
  }

  function ShiftedRight(x: nat, j: nat): nat {
    if j == 0 then x else ShiftedRight(x / 2, j - 1)
  }

  /** Bit k of a bitmap block, least significant bit of a byte first. */
  predicate BitIn(b: Block, k: nat)
    requires k < BPB
  {
    ShiftedRight(b[k / 8], k % 8) % 2 == 1
  }

  function InodeBlock(l: Layout, i: nat): nat {
    l.inodestart + i / IPB
  }

  function BitmapBlock(l: Layout, b: nat): nat {
    l.bmapstart + b / BPB
  }

  ghost predicate InodeOk(l: Layout, d: Disk, fs: Fs, i: nat) {
    i < |fs.inodes| && InodeBlock(l, i) < |d| && InodeIn(d[InodeBlock(l, i)], i % IPB) == fs.inodes[i]
  }

  ghost predicate BitOk(l: Layout, d: Disk, fs: Fs, b: nat) {
    b < |fs.used| && BitmapBlock(l, b) < |d| && (BitIn(d[BitmapBlock(l, b)], b % BPB) <==> fs.used[b])
  }

  /** The image holds the file system. */
  ghost predicate Represents(l: Layout, d: Disk, fs: Fs) {
    && |d| == |fs.disk| == |fs.used| && LayoutOk(l, |d|, |fs.inodes|) && l.nmeta == fs.nmeta
    && (forall b :: l.nmeta <= b < |d| ==> d[b] == fs.disk[b])
    && (forall b: nat :: b < |d| ==> BitOk(l, d, fs, b))
    && (forall i: nat :: i < |fs.inodes| ==> InodeOk(l, d, fs, i))
  }

  lemma Placed(l: Layout, size: nat, ninodes: nat, i: nat, b: nat)
    requires LayoutOk(l, size, ninodes)
    ensures i < ninodes ==> l.inodestart <= InodeBlock(l, i) < l.bmapstart && !InLog(l.logstart, InodeBlock(l, i))
    ensures b < size ==> l.bmapstart <= BitmapBlock(l, b) < l.nmeta && !InLog(l.logstart, BitmapBlock(l, b))
    ensures l.logstart + NLOG <= l.inodestart <= l.bmapstart <= l.nmeta <= size
  {
  }

  /** It does not depend on the log. */
  lemma HomeRepresents(l: Layout, d: Disk, e: Disk, fs: Fs)
    requires Represents(l, d, fs) && SameHome(l.logstart, d, e)
    ensures Represents(l, e, fs)
  {
    hide InodeIn, BitIn, InodeBlock, BitmapBlock, LayoutOk;
    Placed(l, |d|, |fs.inodes|, 0, 0);
    forall i: nat | i < |fs.inodes| ensures InodeOk(l, e, fs, i) {
      assert InodeOk(l, d, fs, i);
      Placed(l, |d|, |fs.inodes|, i, 0);
    }
    forall b: nat | b < |d| ensures BitOk(l, e, fs, b) {
      assert BitOk(l, d, fs, b);
      Placed(l, |d|, |fs.inodes|, 0, b);
    }
  }

  // ----- Reading a file off an image -----

  /** The inodes and blocks of an image, as far as the contents of files depend on them. */
  ghost function FilesOn(l: Layout, d: Disk, n: nat): (fs: Fs)
    requires LayoutOk(l, |d|, n)
    ensures |fs.inodes| == n && fs.disk == d
  {
    hide InodeIn;
    var inodes: seq<Inode> :=
      seq(n, (i: nat) requires i < n => Placed(l, |d|, n, i, 0); InodeIn(d[InodeBlock(l, i)], i % IPB));
    Fs(d, [], inodes, [], l.nmeta)
  }

  /** The files of an image are those of the file system it represents. */
  lemma FilesSame(l: Layout, d: Disk, fs: Fs, j: nat)
    requires Represents(l, d, fs) && FsOk(fs) && j < |fs.inodes|
    ensures var r := FilesOn(l, d, |fs.inodes|); NoHoles(r) && Content(r, j) == Content(fs, j)
  {
    var r := FilesOn(l, d, |fs.inodes|);
    forall i: nat | i < |fs.inodes| ensures r.inodes[i] == fs.inodes[i] { assert InodeOk(l, d, fs, i); }
    assert r.inodes == fs.inodes;
    forall i: nat | i < |fs.inodes| ensures MappedTo(r, i, fs.inodes[i].size) { MappedSame(l, d, fs, r, i); }
    forall k: nat | k < fs.inodes[j].size ensures Content(r, j)[k] == Content(fs, j)[k] {
      InFile(fs, j, k);
      SlotSame(l, d, fs, r, j, Slot(k / BSIZE));
    }
  }

  lemma SlotSame(l: Layout, d: Disk, fs: Fs, r: Fs, i: nat, s: nat)
    requires Represents(l, d, fs) && FsOk(fs) && i < |fs.inodes| && s < SLOTS && r.inodes == fs.inodes && r.disk == d
    ensures |fs.inodes[i].addrs| == NDIRECT + 1
    ensures Ref(r.disk, r.inodes[i], s) == Ref(fs.disk, fs.inodes[i], s)
    ensures var b := Ref(fs.disk, fs.inodes[i], s); 0 < b < |d| ==> d[b] == fs.disk[b]
  {
    assert RefOk(fs, i, s) && RefOk(fs, i, NDIRECT);
    assert Ref(fs.disk, fs.inodes[i], NDIRECT) == fs.inodes[i].addrs[NDIRECT];
  }

  lemma MappedSame(l: Layout, d: Disk, fs: Fs, r: Fs, i: nat)
    requires Represents(l, d, fs) && FsOk(fs) && i < |fs.inodes| && r.inodes == fs.inodes && r.disk == d
    ensures |fs.inodes[i].addrs| == NDIRECT + 1 && MappedTo(r, i, fs.inodes[i].size)
  {
    ShapedAddrs(fs, i);
    assert MappedTo(fs, i, fs.inodes[i].size);
    forall bn | 0 <= bn && bn * BSIZE < fs.inodes[i].size ensures Mapped(r, i, bn) {
      assert Mapped(fs, i, bn);
      SlotSame(l, d, fs, r, i, Slot(bn));
    }
  }

  // ----- Storing a file system -----

  ghost predicate Fits(ip: Inode) {
    && ip.typ < 0x1_0000 && ip.size < 0x1_0000_0000 && |ip.addrs| == NDIRECT + 1
    && forall k :: 0 <= k < |ip.addrs| ==> ip.addrs[k] < 0x1_0000_0000
  }

  function PutWords(b: Block, k: nat, ws: seq<nat>): (r: Block)
    requires k + |ws| <= WORDS && forall j :: 0 <= j < |ws| ==> ws[j] < 0x1_0000_0000
    ensures forall j: nat | j < WORDS :: Word(r, j) == if k <= j < k + |ws| then ws[j - k] else Word(b, j)
  {
    if ws == [] then b
    else
      var n := |ws| - 1;
      PutWord(PutWords(b, k, ws[..n]), k + n, ws[n])
  }

  /** iupdate's stores. */
  ghost function PutInode(b: Block, s: nat, ip: Inode): Block
    requires s < IPB && Fits(ip)
  {
    var w := InodeWord(b, s, 0);
    var r := PutWord(b, DWORDS * s, w - w % 0x1_0000 + ip.typ);
    PutWords(PutWord(r, DWORDS * s + 2, ip.size), DWORDS * s + 3, ip.addrs)
  }

  lemma PutInodeWord(b: Block, s: nat, ip: Inode, t: nat, k: nat)
    requires s < IPB && Fits(ip) && t < IPB && k < DWORDS
    ensures InodeWord(PutInode(b, s, ip), t, k) ==
            if t != s || k == 1 then InodeWord(b, t, k)
            else if k == 0 then InodeWord(b, s, 0) - InodeWord(b, s, 0) % 0x1_0000 + ip.typ
            else if k == 2 then ip.size else ip.addrs[k - 3]
  {
    hide Word, PutWord, PutWords;
  }

  lemma PutInodeOk(b: Block, s: nat, ip: Inode, t: nat)
    requires s < IPB && Fits(ip) && t < IPB
    ensures InodeIn(PutInode(b, s, ip), t) == if t == s then ip else InodeIn(b, t)
  {
    hide InodeWord, PutInode;
    forall k: nat | k < DWORDS { PutInodeWord(b, s, ip, t, k); }
  }

  /** The inodes from `first` on in the first n slots of a block. */
  ghost function StoreInodes(b: Block, first: nat, inodes: seq<Inode>, n: nat): Block
    requires n <= IPB && forall i :: 0 <= i < |inodes| ==> Fits(inodes[i])
  {
    if n == 0 then b
    else
      var r := StoreInodes(b, first, inodes, n - 1);
      if first + n - 1 < |inodes| then PutInode(r, n - 1, inodes[first + n - 1]) else r
  }

  lemma {:induction false} StoredInode(b: Block, first: nat, inodes: seq<Inode>, n: nat, s: nat)
    requires s < n <= IPB && first + s < |inodes| && forall i :: 0 <= i < |inodes| ==> Fits(inodes[i])
    ensures InodeIn(StoreInodes(b, first, inodes, n), s) == inodes[first + s]
  {
    hide InodeIn, PutInode, Fits;
    var r := StoreInodes(b, first, inodes, n - 1);
    if s < n - 1 { StoredInode(b, first, inodes, n - 1, s); }
    if first + n - 1 < |inodes| { PutInodeOk(r, n - 1, inodes[first + n - 1], s); }
  }

  /** The bitmap from `first` on. */
  function StoreBits(first: nat, used: seq<bool>): Block {
    seq(BSIZE, (k: nat) requires k < BSIZE => StoreByte(used, first + 8 * k))
  }

  function Bit(used: seq<bool>, b: nat): (r: nat)
    ensures r <= 1
  {
    if b < |used| && used[b] then 1 else 0
  }

  /** n bits from b on as a number. */
  function Number(used: seq<bool>, b: nat, n: nat): nat
    decreases n
  {
    if n == 0 then 0 else Bit(used, b) + 2 * Number(used, b + 1, n - 1)
  }

  lemma ByteRange(used: seq<bool>, b: nat)
    ensures Number(used, b, 8) < 256
  {
    assert Number(used, b + 7, 1) <= 1 && Number(used, b + 6, 2) <= 3 && Number(used, b + 5, 3) <= 7;
    assert Number(used, b + 4, 4) <= 15 && Number(used, b + 3, 5) <= 31;
    assert Number(used, b + 2, 6) <= 63 && Number(used, b + 1, 7) <= 127;
  }

  function StoreByte(used: seq<bool>, b: nat): byte {
    ByteRange(used, b);
    Number(used, b, 8)
  }

  lemma {:induction false} NumberBit(used: seq<bool>, b: nat, n: nat, j: nat)
    requires j < n
    ensures ShiftedRight(Number(used, b, n), j) % 2 == Bit(used, b + j)
    decreases n
  {
    if j > 0 {
      assert Number(used, b, n) / 2 == Number(used, b + 1, n - 1);
      NumberBit(used, b + 1, n - 1, j - 1);
    }
  }

  lemma StoredBit(first: nat, used: seq<bool>, k: nat)
    requires k < BPB && first + k < |used|
    ensures BitIn(StoreBits(first, used), k) <==> used[first + k]
  {
    NumberBit(used, first + 8 * (k / 8), 8, k % 8);
  }

  // ----- One transaction -----

  function BlockOf(l: Layout, x: LogBlock): nat {
    match x
    case Bitmap(k) => l.bmapstart + k
    case Inodes(k) => l.inodestart + k
    case Data(b) => b
  }

  ghost predicate Handed(l: Layout, logged: set<LogBlock>, b: nat) {
    exists x :: x in logged && BlockOf(l, x) == b
  }

  /** What the cache shows when a transaction ends: the new file system, and no change outside the blocks handed to
      log_write, which are those in the log header. */
  ghost predicate Shows(l: Layout, d: Disk, v: Disk, fs': Fs, logged: set<LogBlock>, bs: seq<nat>) {
    && Represents(l, v, fs') && |v| == |d|
    && (forall b: nat :: b < |d| && !Handed(l, logged, b) ==> v[b] == d[b])
    && (forall b: nat :: b < |d| && Handed(l, logged, b) ==> b in bs)
  }

  ghost predicate Storable(fs: Fs) {
    |fs.used| == |fs.disk| && forall i :: 0 <= i < |fs.inodes| ==> Fits(fs.inodes[i])
  }

  /** Block b with the part of the file system that belongs there. */
  ghost function StoreBlock(l: Layout, x: Block, b: nat, fs: Fs): Block
    requires Storable(fs) && b < |fs.disk|
  {
    if b >= l.nmeta then fs.disk[b]
    else if b >= l.bmapstart then StoreBits((b - l.bmapstart) * BPB, fs.used)
    else if b >= l.inodestart then StoreInodes(x, (b - l.inodestart) * IPB, fs.inodes, IPB)
    else x
  }

  ghost function Stored(l: Layout, d: Disk, fs: Fs, logged: set<LogBlock>): (v: Disk)
    requires Storable(fs) && |d| == |fs.disk|
    ensures |v| == |d|
  {
    seq(|d|, (b: nat) requires b < |d| => if Handed(l, logged, b) then StoreBlock(l, d[b], b, fs) else d[b])
  }

  /** It is enough to store the blocks that a transaction hands to log_write. */
  lemma StoredRepresents(l: Layout, d: Disk, fs: Fs, fs': Fs, logged: set<LogBlock>)
    requires Represents(l, d, fs) && Covered(fs, fs', logged) && Storable(fs')
    ensures Represents(l, Stored(l, d, fs', logged), fs')
  {
    hide Handed, StoreBlock, InodeIn, BitIn, LayoutOk, InodeBlock, BitmapBlock, Storable;
    var v := Stored(l, d, fs', logged);
    forall b: nat | l.nmeta <= b < |d| ensures v[b] == fs'.disk[b] { DataStored(l, d, fs, fs', logged, b); }
    forall b: nat | b < |d| ensures BitOk(l, v, fs', b) {
      assert BitOk(l, d, fs, b);
      StorableShape(fs');
      BitStored(l, d, fs, fs', logged, b);
    }
    forall i: nat | i < |fs'.inodes| ensures InodeOk(l, v, fs', i) { InodeStored(l, d, fs, fs', logged, i); }
  }

  lemma StorableShape(fs: Fs)
    requires Storable(fs)
    ensures |fs.used| == |fs.disk|
  {
  }

  lemma DataStored(l: Layout, d: Disk, fs: Fs, fs': Fs, logged: set<LogBlock>, b: nat)
    requires Represents(l, d, fs) && Covered(fs, fs', logged) && Storable(fs') && l.nmeta <= b < |d|
    ensures Stored(l, d, fs', logged)[b] == fs'.disk[b]
  {
    hide InodeIn, BitIn, LayoutOk, InodeBlock, BitmapBlock, Storable;
    if fs'.disk[b] != fs.disk[b] { assert Data(b) in logged && BlockOf(l, Data(b)) == b; }
  }

  lemma BitStored(l: Layout, d: Disk, fs: Fs, fs': Fs, logged: set<LogBlock>, b: nat)
    requires LayoutOk(l, |d|, |fs.inodes|) && BitOk(l, d, fs, b) && Storable(fs') && b < |d| == |fs'.disk|
    requires fs'.used[b] != fs.used[b] ==> Bitmap(b / BPB) in logged
    ensures BitOk(l, Stored(l, d, fs', logged), fs', b)
  {
    hide BitIn, StoreBits, StoreInodes, LayoutOk, Fits;
    var at := BitmapBlock(l, b);
    Placed(l, |d|, |fs.inodes|, 0, b);
    if fs'.used[b] != fs.used[b] {
      assert Bitmap(b / BPB) in logged && BlockOf(l, Bitmap(b / BPB)) == at;
    }
    StoredBit(b / BPB * BPB, fs'.used, b % BPB);
  }

  lemma InodeStored(l: Layout, d: Disk, fs: Fs, fs': Fs, logged: set<LogBlock>, i: nat)
    requires Represents(l, d, fs) && Covered(fs, fs', logged) && Storable(fs') && i < |fs'.inodes|
    ensures InodeOk(l, Stored(l, d, fs', logged), fs', i)
  {
    hide InodeIn, BitIn, BitmapBlock, StoreBits, StoreInodes, Fits;
    var at := InodeBlock(l, i);
    Placed(l, |d|, |fs.inodes|, i, 0);
    assert InodeOk(l, d, fs, i);
    if fs'.inodes[i] != fs.inodes[i] {
      assert Inodes(i / IPB) in logged && BlockOf(l, Inodes(i / IPB)) == at;
    }
    StoredInode(d[at], i / IPB * IPB, fs'.inodes, IPB, i % IPB);
  }

  lemma StillFits(l: Layout, d: Disk, fs: Fs, fs': Fs)
    requires Represents(l, d, fs) && FsOk(fs') && |fs'.inodes| == |fs.inodes|
    requires forall i :: 0 <= i < |fs.inodes| ==> fs'.inodes[i].typ == fs.inodes[i].typ
    ensures Storable(fs')
  {
    forall i: nat | i < |fs.inodes| ensures Fits(fs'.inodes[i]) {
      assert InodeOk(l, d, fs, i) && MappedTo(fs', i, fs'.inodes[i].size);
      forall k: nat | k < NDIRECT + 1 ensures fs'.inodes[i].addrs[k] < 0x1_0000_0000 {
        assert RefOk(fs', i, k) && Ref(fs'.disk, fs'.inodes[i], k) == fs'.inodes[i].addrs[k];
      }
    }
  }

  /** A cache that has stored just the blocks handed to log_write shows the new file system. */
  lemma StoredShows(l: Layout, d: Disk, fs: Fs, fs': Fs, logged: set<LogBlock>, bs: seq<nat>)
    requires Represents(l, d, fs) && Covered(fs, fs', logged) && FsOk(fs')
    requires forall i :: 0 <= i < |fs.inodes| ==> fs'.inodes[i].typ == fs.inodes[i].typ
    requires forall b: nat :: b < |d| && Handed(l, logged, b) ==> b in bs
    ensures Storable(fs') && Shows(l, d, Stored(l, d, fs', logged), fs', logged, bs)
  {
    hide Represents, FsOk, StoreBlock, Handed, Storable;
    StillFits(l, d, fs, fs');
    StoredRepresents(l, d, fs, fs', logged);
  }

  /** Home blocks as a commit leaves them hold the new file system. */
  lemma CommittedRepresents(l: Layout, d: Disk, v: Disk, fs': Fs, logged: set<LogBlock>, bs: seq<nat>, e: Disk)
    requires Shows(l, d, v, fs', logged, bs) && SameHome(l.logstart, e, Committed(d, v, bs))
    ensures Represents(l, e, fs')
  {
    hide Represents, Handed;
    forall b: nat | b < |d| && !InLog(l.logstart, b) ensures v[b] == e[b] {
      if Handed(l, logged, b) { assert b in bs; }
    }
    HomeRepresents(l, v, e, fs');
  }

  // ----- All transactions of a filewrite -----

  /** disks[t] is the disk after t transactions have committed; transaction t ends with the cache showing views[t] and
      logs[t] in the header.  What a commit leaves is what Logging.Log.Commit ensures. */
  ghost predicate Commits(l: Layout, states: seq<Fs>, ops: seq<set<LogBlock>>, disks: seq<Disk>, views: seq<Disk>,
          logs: seq<seq<nat>>)
  {
    && 1 <= |disks| == |views| == |logs| <= |ops| == |states| - 1
    && Represents(l, disks[0], states[0]) && Cleared(l, disks[0])
    && (forall t :: 0 <= t < |disks| ==> |views[t]| == |disks[t]|)
    && (forall t :: 0 <= t < |disks| ==> Shows(l, disks[t], views[t], states[t + 1], ops[t], logs[t]))
    && (forall t :: 0 <= t < |disks| - 1 ==> Leaves(l, disks[t], views[t], logs[t], disks[t + 1]))
  }

  ghost predicate Leaves(l: Layout, d: Disk, v: Disk, bs: seq<nat>, e: Disk) {
    |v| == |d| && SameHome(l.logstart, e, Committed(d, v, bs)) && Cleared(l, e)
  }

  /** The header of the log lists nothing. */
  ghost predicate Cleared(l: Layout, d: Disk) {
    l.logstart < |d| && Word(d[l.logstart], 0) == 0
  }

  lemma CommitsRepresent(l: Layout, states: seq<Fs>, ops: seq<set<LogBlock>>, disks: seq<Disk>, views: seq<Disk>,
          logs: seq<seq<nat>>, t: nat)
    requires Commits(l, states, ops, disks, views, logs) && t < |disks|
    ensures Represents(l, disks[t], states[t]) && Cleared(l, disks[t])
  {
    hide Shows, Represents;
    if t > 0 {
      CommittedRepresents(l, disks[t - 1], views[t - 1], states[t], ops[t - 1], logs[t - 1], disks[t]);
    }
  }

  /** Between two images, file i has got the data at off and the other files are the same. */
  ghost predicate FileWritten(l: Layout, d: Disk, e: Disk, n: nat, i: nat, off: nat, data: seq<byte>) {
    && LayoutOk(l, |d|, n) && LayoutOk(l, |e|, n) && i < n
    && var before, after := FilesOn(l, d, n), FilesOn(l, e, n);
       && NoHoles(before) && NoHoles(after) && off <= before.inodes[i].size
       && Content(after, i) == Spliced(Content(before, i), off, data)
       && forall j :: 0 <= j < n && j != i ==> Content(after, j) == Content(before, j)
  }

  lemma AfterOnDisk(l: Layout, d: Disk, fs: Fs, e: Disk, fs': Fs, i: nat, off: nat, data: seq<byte>)
    requires Represents(l, d, fs) && Represents(l, e, fs') && After(fs, fs', i, off, data) && off <= fs.inodes[i].size
    ensures FileWritten(l, d, e, |fs.inodes|, i, off, data)
  {
    hide Owned, NoHoles, Content, LayoutOk, FilesOn;
    forall j: nat | j < |fs.inodes|
      ensures var r := FilesOn(l, d, |fs.inodes|); NoHoles(r) && Content(r, j) == Content(fs, j)
      ensures var r := FilesOn(l, e, |fs.inodes|); NoHoles(r) && Content(r, j) == Content(fs', j)
    {
      FilesSame(l, d, fs, j);
      FilesSame(l, e, fs', j);
    }
  }

  /** A commit crashes when `done` of its writes have reached the disk, and any number of recoveries crash after it. */
  ghost predicate Crash(start: nat, d: Disk, v: Disk, bs: seq<nat>, images: seq<Disk>, done: nat, chain: seq<Disk>) {
    && |v| == |d| && Logging.CommitImages(start, d, v, bs, images) && done <= |images|
    && RecoveryChain(start, chain) && chain[0] == if done == 0 then d else images[done - 1]
  }

  /** The machine crashes while the transaction after t committed ones commits.  The recovery that completes leaves the
      file with exactly the first t chunks written, or t + 1 if the header write had reached the disk, and all other
      files as they were before the write. */
  lemma CrashedWrite(l: Layout, states: seq<Fs>, ops: seq<set<LogBlock>>, i: nat, off: nat, addr: seq<byte>,
          disks: seq<Disk>, views: seq<Disk>, logs: seq<seq<nat>>, images: seq<Disk>, done: nat, chain: seq<Disk>)
    requires Chunks(states, ops, i, off, addr) && Commits(l, states, ops, disks, views, logs)
    requires var t := |disks| - 1; Crash(l.logstart, disks[t], views[t], logs[t], images, done, chain)
    ensures HeaderOk(l.logstart, chain[|chain| - 1])
    ensures var t := |disks| - 1;
      var chunks := if done <= |logs[t]| then t else t + 1;
      FileWritten(l, disks[0], Recover(l.logstart, chain[|chain| - 1]), |states[0].inodes|, i, off,
                  addr[..Min(chunks * CHUNK, |addr|)])
  {
    hide Represents, After, Covered, Logging.CommitImages, RecoveryState, HeaderOk, Recover, LayoutOk, Handed;
    var t := |disks| - 1;
    var chunks := if done <= |logs[t]| then t else t + 1;
    CommitsRepresent(l, states, ops, disks, views, logs, t);
    var d, v := disks[t], views[t];
    RepresentsSize(l, d, states[t]);
    Logging.CrashAtomic(l.logstart, d, v, logs[t], images, done, chain);
    var e := Recover(l.logstart, chain[|chain| - 1]);
    if done <= |logs[t]| {
      HomeRepresents(l, d, e, states[t]);
    } else {
      CommittedRepresents(l, d, v, states[t + 1], ops[t], logs[t], e);
    }
    Appended(states, ops, i, off, addr);
    AfterOnDisk(l, disks[0], states[0], e, states[chunks], i, off, addr[..Min(chunks * CHUNK, |addr|)]);
  }

  lemma RepresentsSize(l: Layout, d: Disk, fs: Fs)
    requires Represents(l, d, fs)
    ensures |d| == |fs.disk| && l.logstart + NLOG <= |d| <= 0x1_0000_0000
  {
    Placed(l, |d|, |fs.inodes|, 0, 0);
  }

  /** A first chunk is written only within the file or at its end. */
  lemma Appended(states: seq<Fs>, ops: seq<set<LogBlock>>, i: nat, off: nat, addr: seq<byte>)
    requires Chunks(states, ops, i, off, addr) && ops != []
    ensures i < |states[0].inodes| && off <= states[0].inodes[i].size
  {
    hide Covered;
    assert After(states[0], states[1], i, off, addr[..Min(1 * CHUNK, |addr|)]);
  }
}

/** The redo log as a function of disk images alone (log.c). */
module Journal {
  // What recovery computes from an image, and why a crash at any point of a recovery does not change
  // its outcome.

  import opened Blocks

  const LOGSIZE: nat := 30
  const NLOG: nat := LOGSIZE   // log.size as mkfs sets it: header block plus 29 data blocks

  type Disk = seq<Block>

  predicate InLog(start: nat, b: nat) {
    start <= b < start + NLOG
  }

  /** The images agree on every block outside the log. */
  ghost predicate SameHome(start: nat, d: Disk, e: Disk) {
    |d| == |e| && forall b: nat :: b < |d| && !InLog(start, b) ==> d[b] == e[b]
  }

  ghost predicate HomeBlocks(start: nat, size: nat, bs: seq<nat>) {
    && start + NLOG <= size <= 0x1_0000_0000 && |bs| < NLOG
    && forall t :: 0 <= t < |bs| ==> bs[t] < size && !InLog(start, bs[t])
  }

  /** The on-disk header is one that write_head or mkfs leaves: it lists home blocks. */
  ghost predicate HeaderOk(start: nat, d: Disk) {
    && start + NLOG <= |d|
    && Word(d[start], 0) < NLOG
    && HomeBlocks(start, |d|, Logged(start, d))
  }

  /** The block numbers listed by the on-disk header (read_head). */
  ghost function Logged(start: nat, d: Disk): seq<nat>
    requires start < |d| && Word(d[start], 0) < NLOG
  {
    seq(Word(d[start], 0), t requires 0 <= t < Word(d[start], 0) => Word(d[start], t + 1))
  }

  /** install_trans: log block t + 1 is copied over home block bs[t], in order. */
  ghost function Install(start: nat, d: Disk, bs: seq<nat>): (r: Disk)
    requires HomeBlocks(start, |d|, bs)
    ensures |r| == |d| && forall b: nat {:trigger r[b]} :: b < |d| && (InLog(start, b) || b !in bs) ==> r[b] == d[b]
  {
    if bs == [] then d
    else
      var t := |bs| - 1;
      Install(start, d, bs[..t])[bs[t] := d[start + t + 1]]
  }

  /** recover_from_log: install what the header lists, then clear the header's count. */
  ghost function Recover(start: nat, d: Disk): (r: Disk)
    requires HeaderOk(start, d)
    ensures |r| == |d|
  {
    var r := Install(start, d, Logged(start, d));
    r[start := PutWord(r[start], 0, 0)]
  }

  /** Install only looks at the log blocks and at the home blocks it does not overwrite. */
  lemma {:induction false} InstallAgrees(start: nat, d: Disk, e: Disk, bs: seq<nat>, b: nat)
    requires |d| == |e| && HomeBlocks(start, |d|, bs) && b < |d|
    requires forall k: nat :: k < |d| && InLog(start, k) ==> d[k] == e[k]
    requires b in bs || d[b] == e[b]
    ensures Install(start, d, bs)[b] == Install(start, e, bs)[b]
  {
    if bs != [] && bs[|bs| - 1] != b {
      InstallAgrees(start, d, e, bs[..|bs| - 1], b);
    }
  }

  /** c is a disk image that recovery from d can leave when it crashes after some of its writes. */
  ghost predicate RecoveryState(start: nat, d: Disk, c: Disk) {
    && HeaderOk(start, d)
    && ((exists k: nat :: k <= |Logged(start, d)| && c == Install(start, d, Logged(start, d)[..k]))
        || c == Recover(start, d))
  }

  /** A crash at any point of recovery leaves an image that recovers to the same home blocks. */
  lemma RecoveryStateRecovers(start: nat, d: Disk, c: Disk)
    requires RecoveryState(start, d, c)
    ensures HeaderOk(start, c) && SameHome(start, Recover(start, c), Recover(start, d))
  {
    var bs := Logged(start, d);
    if c == Recover(start, d) {
      assert Word(c[start], 0) == 0 && Logged(start, c) == [];
    } else {
      var k: nat :| k <= |bs| && c == Install(start, d, bs[..k]);
      assert c[start] == d[start] && Logged(start, c) == bs;
      forall b: nat | b < |d| && !InLog(start, b)
        ensures Recover(start, c)[b] == Recover(start, d)[b]
      {
        InstallAgrees(start, c, d, bs, b);
      }
    }
  }

  /** Recovery is restarted from images[1], images[2], ...: each left by a crash of the one before. */
  ghost predicate RecoveryChain(start: nat, images: seq<Disk>) {
    && images != [] && HeaderOk(start, images[0])
    && forall i :: 0 <= i < |images| - 1 ==> RecoveryState(start, images[i], images[i + 1])
  }

  /** Any number of crashes during recovery: a recovery that completes gives what the first one would have. */
  lemma {:induction false} RecoveryChainRecovers(start: nat, images: seq<Disk>)
    requires RecoveryChain(start, images)
    ensures HeaderOk(start, images[|images| - 1])
    ensures SameHome(start, Recover(start, images[|images| - 1]), Recover(start, images[0]))
  {
    var last := |images| - 1;
    if last > 0 {
      RecoveryChainRecovers(start, images[..last]);
      assert RecoveryState(start, images[last - 1], images[last]);
      RecoveryStateRecovers(start, images[last - 1], images[last]);
    }
  }

  /** The home blocks after a commit: logged blocks take their cached contents. */
  ghost function Committed(d: Disk, view: Disk, bs: seq<nat>): (r: Disk)
    requires |view| == |d|
  {
    seq(|d|, b requires 0 <= b < |d| => if b in bs then view[b] else d[b])
  }

  /** The images left by installing bs over d: one after each copied block. */
  ghost predicate InstallImages(start: nat, d: Disk, bs: seq<nat>, images: seq<Disk>)
    requires HomeBlocks(start, |d|, bs)
  {
    |images| <= |bs| && forall t :: 0 <= t < |images| ==> images[t] == Install(start, d, bs[..t + 1])
  }

  lemma InstallImagesStep(start: nat, d: Disk, bs: seq<nat>, images: seq<Disk>, c: Disk)
    requires HomeBlocks(start, |d|, bs) && InstallImages(start, d, bs, images) && |images| < |bs|
    requires c == Install(start, d, bs[..|images| + 1])
    ensures InstallImages(start, d, bs, images + [c])
  {
    hide Install;
  }

  ghost predicate RecoveryImages(start: nat, d: Disk, images: seq<Disk>) {
    forall j :: 0 <= j < |images| ==> RecoveryState(start, d, images[j])
  }

  lemma InstallImagesRecover(start: nat, d: Disk, images: seq<Disk>)
    requires HeaderOk(start, d) && InstallImages(start, d, Logged(start, d), images)
    ensures RecoveryImages(start, d, images)
  {
    hide Install;
    forall j | 0 <= j < |images| ensures RecoveryState(start, d, images[j]) {
      assert images[j] == Install(start, d, Logged(start, d)[..j + 1]);
    }
  }

  lemma InstallKeepsHeader(start: nat, d: Disk, bs: seq<nat>)
    requires HomeBlocks(start, |d|, bs)
    ensures Install(start, d, bs)[start] == d[start]
  {
  }

  /** An empty header makes recovery a no-op on the home blocks. */
  lemma EmptyHeaderRecovers(start: nat, d: Disk)
    requires start + NLOG <= |d| <= 0x1_0000_0000 && Word(d[start], 0) == 0
    ensures HeaderOk(start, d) && SameHome(start, Recover(start, d), d)
  {
    assert Logged(start, d) == [];
  }

  /** A full header over log blocks that hold `view` recovers to the committed image. */
  lemma FullHeaderRecovers(start: nat, d: Disk, view: Disk, bs: seq<nat>, home: Disk)
    requires HomeBlocks(start, |d|, bs) && |view| == |home| == |d| && SameHome(start, d, home)
    requires Word(d[start], 0) == |bs| && forall t :: 0 <= t < |bs| ==> Word(d[start], t + 1) == bs[t]
    requires forall t :: 0 <= t < |bs| ==> d[start + t + 1] == view[bs[t]]
    ensures HeaderOk(start, d) && Logged(start, d) == bs
    ensures SameHome(start, Recover(start, d), Committed(home, view, bs))
  {
    assert Logged(start, d) == bs;
    InstallGives(start, d, view, bs);
  }

  lemma {:induction false} InstallGives(start: nat, d: Disk, view: Disk, bs: seq<nat>)
    requires HomeBlocks(start, |d|, bs) && |view| == |d|
    requires forall t :: 0 <= t < |bs| ==> d[start + t + 1] == view[bs[t]]
    ensures forall b: nat :: b < |d| && b in bs ==> Install(start, d, bs)[b] == view[b]
  {
    if bs != [] {
      InstallGives(start, d, view, bs[..|bs| - 1]);
      assert bs == bs[..|bs| - 1] + [bs[|bs| - 1]];
    }
  }
}

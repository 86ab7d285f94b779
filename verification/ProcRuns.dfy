/** Runs of the process table on any number of CPUs. */
module ProcRuns {
  // One step is one critical section of ptable.lock, or one unlocked update that another CPU could observe; they
  // come in any order.

  import opened Prelude
  import opened Procs

  /** Counters at the moment a process's quantum was last set, to account from there.  A
      dispatch in progress at that moment counts as beginning then. */
  datatype Base = Base(cpu: int, switches: int, preemptions: int)

  /** `forking` maps a process inside fork to the embryo it is building; `yielding` holds the
      processes whose quantum has expired but which have not yet taken ptable.lock in yield. */
  datatype Sys = Sys(
    ps: seq<Proc>, rr: nat, nextpid: nat, init: nat,
    forking: map<nat, nat>, yielding: set<nat>, reaped: seq<nat>, base: seq<Base>)

  datatype Action =
    | Fork(p: nat, slot: nat) | ForkFail(p: nat) | SetParent(p: nat) | ForkDone(p: nat)
    | Exit(p: nat) | Reap(p: nat, slot: nat) | WaitSleep(p: nat)
    | Dispatch(slot: nat) | Yield(p: nat) | Sleep(p: nat, ch: Chan) | Wakeup(ch: Chan)
    | Kill(pid: nat, slot: nat) | SetQuantum(slot: nat, quantum: nat) | Tick(p: nat) | ChargeAll

  /** p is running and not in the middle of a timer interrupt. */
  predicate Runs(s: Sys, p: nat) {
    p < |s.ps| && s.ps[p].state.Running? && p !in s.yielding
  }

  ghost predicate Sized(s: Sys) {
    |s.ps| == |s.base| == NPROC && s.rr < NPROC && s.init < NPROC && forall p :: p in s.forking ==> s.forking[p] < NPROC
  }

  /** allocproc, called by fork: the embryo belongs to p until fork ends. */
  ghost predicate DoFork(s: Sys, p: nat, i: nat, s': Sys) {
    && Runs(s, p) && p !in s.forking && First(s.ps, (x: Proc) => x.state.Unused?, i)
    && s' == s.(ps := s.ps[i := Allocated(s.ps[i], s.nextpid)], nextpid := s.nextpid + 1, forking := s.forking[p := i])
  }

  /** fork runs out of memory before the embryo has a parent. */
  ghost predicate DoForkFail(s: Sys, p: nat, s': Sys)
    requires Sized(s)
  {
    && Runs(s, p) && p in s.forking && s.ps[s.forking[p]].parent.None?
    && s' == s.(ps := s.ps[s.forking[p] := s.ps[s.forking[p]].(state := Unused, pid := 0)], forking := s.forking - {p})
  }

  ghost predicate DoSetParent(s: Sys, p: nat, s': Sys)
    requires Sized(s)
  {
    && Runs(s, p) && p in s.forking
    && s' == s.(ps := s.ps[s.forking[p] := s.ps[s.forking[p]].(parent := Some(p))])
  }

  ghost predicate DoForkDone(s: Sys, p: nat, s': Sys)
    requires Sized(s)
  {
    && Runs(s, p) && p in s.forking && s.ps[s.forking[p]].parent == Some(p)
    && s' == s.(ps := s.ps[s.forking[p] := Forked(s.ps[s.forking[p]])],
                forking := s.forking - {p}, base := s.base[s.forking[p] := Base(0, 0, 0)])
  }

  ghost predicate DoExit(s: Sys, p: nat, s': Sys) {
    Runs(s, p) && p !in s.forking && p != s.init && s' == s.(ps := Exited(s.ps, p, s.init))
  }

  /** wait's loop finds a zombie child. */
  ghost predicate DoReap(s: Sys, p: nat, i: nat, s': Sys) {
    && Runs(s, p) && p !in s.forking && First(s.ps, (x: Proc) => ZombieChild(x, p), i)
    && s' == s.(ps := s.ps[i := Reaped(s.ps[i])], reaped := s.reaped + [s.ps[i].pid])
  }

  /** wait's loop finds children but no zombie. */
  ghost predicate DoWaitSleep(s: Sys, p: nat, s': Sys) {
    && Runs(s, p) && p !in s.forking && !s.ps[p].killed
    && Nowhere(s.ps, (x: Proc) => ZombieChild(x, p)) && !Nowhere(s.ps, (x: Proc) => x.parent == Some(p))
    && s' == s.(ps := s.ps[p := Slept(s.ps[p], OnProc(p))])
  }

  ghost predicate DoDispatch(s: Sys, i: nat, s': Sys) {
    Picks(s.ps, s.rr, i) && s' == s.(ps := s.ps[i := Dispatched(s.ps[i])], rr := (i + 1) % NPROC)
  }

  ghost predicate DoYield(s: Sys, p: nat, s': Sys) {
    && p in s.yielding && p < |s.ps|
    && s' == s.(ps := s.ps[p := s.ps[p].(state := Runnable)], yielding := s.yielding - {p})
  }

  ghost predicate DoSleep(s: Sys, p: nat, ch: Chan, s': Sys) {
    && Runs(s, p) && p !in s.forking && (ch.OnTicks? || ch.OnObject?)
    && s' == s.(ps := s.ps[p := Slept(s.ps[p], ch)])
  }

  ghost predicate DoWakeup(s: Sys, ch: Chan, s': Sys) {
    (ch.OnTicks? || ch.OnObject?) && s' == s.(ps := Woken(s.ps, ch))
  }

  ghost predicate DoKill(s: Sys, pid: nat, i: nat, s': Sys) {
    && First(s.ps, (x: Proc) => x.pid == pid, i)
    && s' == s.(ps := s.ps[i := Killed(s.ps[i])])
  }

  ghost predicate DoSetQuantum(s: Sys, i: nat, q: nat, s': Sys) {
    && i < |s.ps| == |s.base| && 1 <= q <= 100 && !s.ps[i].state.Unused?
    && s' == s.(ps := s.ps[i := s.ps[i].(timeslice := q, used := 0)], base := s.base[i := BaseOf(s.ps[i])])
  }

  ghost predicate DoTick(s: Sys, p: nat, s': Sys) {
    && Runs(s, p)
    && s' == s.(ps := s.ps[p := Ticked(s.ps[p])], yielding := if Expires(s.ps[p]) then s.yielding + {p} else s.yielding)
  }

  ghost predicate DoCharge(s: Sys, s': Sys) {
    s' == s.(ps := Charged(s.ps))
  }

  ghost predicate Step(s: Sys, a: Action, s': Sys) {
    Sized(s) &&
    match a
    case Fork(p, i) => DoFork(s, p, i, s')
    case ForkFail(p) => DoForkFail(s, p, s')
    case SetParent(p) => DoSetParent(s, p, s')
    case ForkDone(p) => DoForkDone(s, p, s')
    case Exit(p) => DoExit(s, p, s')
    case Reap(p, i) => DoReap(s, p, i, s')
    case WaitSleep(p) => DoWaitSleep(s, p, s')
    case Dispatch(i) => DoDispatch(s, i, s')
    case Yield(p) => DoYield(s, p, s')
    case Sleep(p, ch) => DoSleep(s, p, ch, s')
    case Wakeup(ch) => DoWakeup(s, ch, s')
    case Kill(pid, i) => DoKill(s, pid, i, s')
    case SetQuantum(i, q) => DoSetQuantum(s, i, q, s')
    case Tick(p) => DoTick(s, p, s')
    case ChargeAll => DoCharge(s, s')
  }

  function BaseOf(p: Proc): Base {
    Base(p.stats.cpu, if p.state.Running? then p.stats.switches - 1 else p.stats.switches, p.stats.preemptions)
  }

  /** After userinit: the first process is runnable and every other slot is untouched. */
  ghost predicate Init(s: Sys) {
    && |s.ps| == |s.base| == NPROC && s.rr == 0 && s.init == 0 && s.nextpid == 2
    && s.forking == map[] && s.yielding == {} && s.reaped == []
    && s.ps[0] == Proc(Runnable, 1, None, NoChan, false, DEFAULT_QUANTUM, 0, NO_STATS)
    && (forall i :: 1 <= i < NPROC ==> s.ps[i] == Proc(Unused, 0, None, NoChan, false, 0, 0, NO_STATS))
    && (forall i :: 0 <= i < NPROC ==> s.base[i] == Base(0, 0, 0))
  }

  ghost predicate Next(s: Sys, s': Sys) {
    exists a :: Step(s, a, s')
  }

  ghost predicate Run(tr: seq<Sys>) {
    tr != [] && Init(tr[0]) && forall i :: 0 <= i < |tr| - 1 ==> Next(tr[i], tr[i + 1])
  }

  // ----- The process tree -----

  ghost predicate SlotOk(s: Sys, i: nat)
    requires |s.ps| == NPROC && i < NPROC
  {
    var p := s.ps[i];
    && (p.state.Unused? <==> p.pid == 0)
    && (p.state.Unused? ==> p.parent.None?) && p.parent != Some(i)
    && (p.state.Embryo? && p.parent.Some? ==> p.parent.value in s.forking && s.forking[p.parent.value] == i)
    && (i == s.init ==> Live(p) && p.parent.None?)
    && (i != s.init && (Live(p) || p.state.Zombie?) ==>
          p.parent.Some? && p.parent.value < NPROC && Live(s.ps[p.parent.value]))
    && (p.state.Sleeping? && p.chan.OnProc? ==> p.chan == OnProc(i) && HasChild(s.ps, i) && NoZombie(s.ps, i))
  }

  ghost predicate HasChild(ps: seq<Proc>, i: nat) {
    exists j :: 0 <= j < |ps| && ps[j].parent == Some(i)
  }

  ghost predicate NoZombie(ps: seq<Proc>, i: nat) {
    forall j :: 0 <= j < |ps| ==> !ZombieChild(ps[j], i)
  }

  ghost predicate ForkerOk(s: Sys, f: nat)
    requires |s.ps| == NPROC && f in s.forking
  {
    && f < NPROC && (s.ps[f].state.Running? || s.ps[f].state.Runnable?)
    && s.forking[f] < NPROC && s.ps[s.forking[f]].state.Embryo?
  }

  ghost predicate ForksOk(s: Sys) {
    && Sized(s)
    && (forall f :: f in s.forking ==> ForkerOk(s, f))
    && (forall f, g :: f in s.forking && g in s.forking && f != g ==> s.forking[f] != s.forking[g])
    && (forall y :: y in s.yielding ==> y < NPROC && s.ps[y].state.Running?)
  }

  /** Pids in use are different, and no reaped pid is in the table or was reaped before. */
  ghost predicate PidsOk(ps: seq<Proc>, nextpid: nat, reaped: seq<nat>) {
    && nextpid >= 1
    && (forall i :: 0 <= i < |ps| ==> ps[i].pid < nextpid && ps[i].pid !in reaped)
    && (forall i, j :: 0 <= i < j < |ps| && ps[i].pid == ps[j].pid ==> ps[i].pid == 0)
    && (forall k :: 0 <= k < |reaped| ==> 1 <= reaped[k] < nextpid)
    && (forall j, k :: 0 <= j < k < |reaped| ==> reaped[j] != reaped[k])
  }

  ghost predicate TreeInv(s: Sys) {
    && ForksOk(s) && PidsOk(s.ps, s.nextpid, s.reaped)
    && (forall i :: 0 <= i < NPROC ==> SlotOk(s, i))
  }

  /** A change to a slot that the tree does not see. */
  ghost predicate Quiet(p: Proc, p': Proc) {
    && p'.pid == p.pid && p'.parent == p.parent
    && (if Live(p) then Live(p') else p'.state == p.state)
    && (p'.state.Sleeping? && p'.chan.OnProc? ==> p.state.Sleeping? && p.chan == p'.chan)
  }

  lemma SamePids(ps: seq<Proc>, ps': seq<Proc>, nextpid: nat, reaped: seq<nat>)
    requires PidsOk(ps, nextpid, reaped) && |ps'| == |ps| && forall i :: 0 <= i < |ps| ==> ps'[i].pid == ps[i].pid
    ensures PidsOk(ps', nextpid, reaped)
  {
  }

  /** Having a child, and having no zombie child, survive changes that keep parents and make no zombie. */
  lemma FamilyKept(ps: seq<Proc>, ps': seq<Proc>, i: nat)
    requires |ps| == |ps'|
    requires forall j :: 0 <= j < |ps| && ps[j].parent == Some(i) ==> ps'[j].parent == Some(i)
    requires forall j :: 0 <= j < |ps| && ZombieChild(ps'[j], i) ==> ZombieChild(ps[j], i)
    ensures HasChild(ps, i) ==> HasChild(ps', i)
    ensures NoZombie(ps, i) ==> NoZombie(ps', i)
  {
  }

  lemma QuietTree(s: Sys, s': Sys)
    requires TreeInv(s) && ForksOk(s')
    requires s'.init == s.init && s'.nextpid == s.nextpid && s'.forking == s.forking && s'.reaped == s.reaped
    requires forall i :: 0 <= i < NPROC ==> Quiet(s.ps[i], s'.ps[i])
    ensures TreeInv(s')
  {
    hide ForkerOk;
    forall i | 0 <= i < NPROC ensures SlotOk(s', i) {
      assert SlotOk(s, i) && Quiet(s.ps[i], s'.ps[i]);
      FamilyKept(s.ps, s'.ps, i);
    }
    SamePids(s.ps, s'.ps, s.nextpid, s.reaped);
  }

  lemma QuietForks(s: Sys, s': Sys)
    requires ForksOk(s) && |s'.ps| == |s'.base| == NPROC && s'.rr < NPROC
    requires s'.init == s.init && s'.forking == s.forking
    requires forall i :: 0 <= i < NPROC ==> Quiet(s.ps[i], s'.ps[i])
    requires forall f :: f in s.forking && s'.ps[f].state.Sleeping? ==> s.ps[f].state.Sleeping?
    requires forall y :: y in s'.yielding ==> y < NPROC && s'.ps[y].state.Running?
    ensures ForksOk(s')
  {
    forall f | f in s'.forking ensures ForkerOk(s', f) {
      assert ForkerOk(s, f) && Quiet(s.ps[f], s'.ps[f]) && Quiet(s.ps[s.forking[f]], s'.ps[s.forking[f]]);
    }
  }

  predicate IsQuiet(a: Action) {
    a.Dispatch? || a.Yield? || a.Sleep? || a.Wakeup? || a.Kill? || a.SetQuantum? || a.Tick? || a.ChargeAll?
  }

  lemma QuietStep(s: Sys, a: Action, s': Sys)
    requires TreeInv(s) && Step(s, a, s') && IsQuiet(a)
    ensures TreeInv(s')
  {
    hide SlotOk, PidsOk;
    assert forall f :: f in s.forking ==> ForkerOk(s, f);
    QuietForks(s, s');
    QuietTree(s, s');
  }

  /** Changing slot e alone is not noticed by slot i, unless i sleeps in wait and loses or gains a child. */
  lemma OtherSlot(s: Sys, s': Sys, e: nat, i: nat)
    requires |s.ps| == |s'.ps| == NPROC && e < NPROC && i < NPROC && i != e && SlotOk(s, i)
    requires s'.ps == s.ps[e := s'.ps[e]] && s'.init == s.init && (Live(s.ps[e]) ==> Live(s'.ps[e]))
    requires forall f :: f in s.forking && s.forking[f] == i ==> f in s'.forking && s'.forking[f] == i
    requires s.ps[i].state.Sleeping? ==>
             && (s.ps[e].parent == Some(i) ==> s'.ps[e].parent == Some(i))
             && (ZombieChild(s'.ps[e], i) ==> ZombieChild(s.ps[e], i))
    ensures SlotOk(s', i)
  {
    if s.ps[i].state.Sleeping? { FamilyKept(s.ps, s'.ps, i); }
  }

  lemma ForkForks(s: Sys, p: nat, e: nat, s': Sys)
    requires ForksOk(s) && DoFork(s, p, e, s')
    ensures ForksOk(s') && |s.ps| == NPROC && forall f :: f in s.forking ==> s.forking[f] != e
  {
    forall f | f in s.forking ensures s.forking[f] != e && ForkerOk(s', f) { assert ForkerOk(s, f); }
  }

  lemma ForkStep(s: Sys, p: nat, e: nat, s': Sys)
    requires TreeInv(s) && DoFork(s, p, e, s')
    ensures TreeInv(s')
  {
    hide PidsOk, ForksOk, SlotOk;
    NextPid(s.ps, s.nextpid, s.reaped);
    ForkForks(s, p, e, s');
    ForkSlots(s, p, e, s');
    FreshPid(s.ps, e, s.nextpid, s.reaped, s'.ps);
  }

  lemma ForkSlots(s: Sys, p: nat, e: nat, s': Sys)
    requires |s.ps| == NPROC && s.nextpid >= 1 && (forall i :: 0 <= i < NPROC ==> SlotOk(s, i)) && DoFork(s, p, e, s')
    requires forall f :: f in s.forking ==> s.forking[f] != e
    ensures forall i :: 0 <= i < NPROC ==> SlotOk(s', i)
  {
    assert SlotOk(s, e) && SlotOk(s, p);
    forall i | 0 <= i < NPROC && i != e ensures SlotOk(s', i) {
      assert SlotOk(s, i);
      OtherSlot(s, s', e, i);
    }
  }

  lemma NextPid(ps: seq<Proc>, nextpid: nat, reaped: seq<nat>)
    requires PidsOk(ps, nextpid, reaped)
    ensures nextpid >= 1
  {
  }

  lemma FreshPid(ps: seq<Proc>, e: nat, nextpid: nat, reaped: seq<nat>, ps': seq<Proc>)
    requires PidsOk(ps, nextpid, reaped) && e < |ps| && |ps'| == |ps| && ps' == ps[e := ps'[e]]
    requires ps'[e].pid == nextpid
    ensures PidsOk(ps', nextpid + 1, reaped)
  {
  }

  lemma DroppedPid(ps: seq<Proc>, e: nat, nextpid: nat, reaped: seq<nat>, ps': seq<Proc>)
    requires PidsOk(ps, nextpid, reaped) && e < |ps| && |ps'| == |ps| && ps' == ps[e := ps'[e]] && ps'[e].pid == 0
    ensures PidsOk(ps', nextpid, reaped)
    ensures ps[e].pid >= 1 ==> PidsOk(ps', nextpid, reaped + [ps[e].pid])
  {
  }

  lemma ForkFailStep(s: Sys, p: nat, s': Sys)
    requires TreeInv(s) && DoForkFail(s, p, s')
    ensures TreeInv(s')
  {
    hide PidsOk;
    var e := s.forking[p];
    assert ForkerOk(s, p) && SlotOk(s, e);
    forall i | 0 <= i < NPROC && i != e ensures SlotOk(s', i) {
      assert SlotOk(s, i);
      OtherSlot(s, s', e, i);
    }
    forall f | f in s'.forking ensures ForkerOk(s', f) { assert ForkerOk(s, f); }
    DroppedPid(s.ps, e, s.nextpid, s.reaped, s'.ps);
  }

  /** fork gives the embryo its parent. */
  lemma SetParentStep(s: Sys, p: nat, s': Sys)
    requires TreeInv(s) && DoSetParent(s, p, s')
    ensures TreeInv(s')
  {
    hide PidsOk;
    var e := s.forking[p];
    assert ForkerOk(s, p) && SlotOk(s, e);
    forall i | 0 <= i < NPROC && i != e ensures SlotOk(s', i) {
      assert SlotOk(s, i);
      OtherSlot(s, s', e, i);
    }
    forall f | f in s'.forking ensures ForkerOk(s', f) { assert ForkerOk(s, f); }
    SamePids(s.ps, s'.ps, s.nextpid, s.reaped);
  }

  lemma ForkDoneStep(s: Sys, p: nat, s': Sys)
    requires TreeInv(s) && DoForkDone(s, p, s')
    ensures TreeInv(s')
  {
    hide PidsOk;
    var e := s.forking[p];
    assert ForkerOk(s, p) && SlotOk(s, e) && SlotOk(s, p);
    forall i | 0 <= i < NPROC && i != e ensures SlotOk(s', i) {
      assert SlotOk(s, i);
      OtherSlot(s, s', e, i);
    }
    forall f | f in s'.forking ensures ForkerOk(s', f) { assert ForkerOk(s, f); }
    SamePids(s.ps, s'.ps, s.nextpid, s.reaped);
  }

  lemma ReapStep(s: Sys, p: nat, e: nat, s': Sys)
    requires TreeInv(s) && DoReap(s, p, e, s')
    ensures TreeInv(s')
  {
    hide PidsOk;
    assert SlotOk(s, e) && SlotOk(s, p);
    forall i | 0 <= i < NPROC && i != e ensures SlotOk(s', i) {
      assert SlotOk(s, i);
      OtherSlot(s, s', e, i);
    }
    forall f | f in s'.forking ensures ForkerOk(s', f) { assert ForkerOk(s, f); }
    DroppedPid(s.ps, e, s.nextpid, s.reaped, s'.ps);
  }

  lemma WaitSleepStep(s: Sys, p: nat, s': Sys)
    requires TreeInv(s) && DoWaitSleep(s, p, s')
    ensures TreeInv(s')
  {
    hide PidsOk;
    assert HasChild(s.ps, p) && NoZombie(s.ps, p);
    FamilyKept(s.ps, s'.ps, p);
    forall i | 0 <= i < NPROC ensures SlotOk(s', i) {
      assert SlotOk(s, i);
      if i != p { OtherSlot(s, s', p, i); }
    }
    forall f | f in s'.forking ensures ForkerOk(s', f) { assert ForkerOk(s, f); }
    SamePids(s.ps, s'.ps, s.nextpid, s.reaped);
  }

  /** What exit does to one slot. */
  lemma ExitedAt(ps: seq<Proc>, cur: nat, init: nat, i: nat)
    requires cur < |ps| && i < |ps| && ps[cur].state.Running?
    ensures var p, p' := ps[i], Exited(ps, cur, init)[i];
      && |Exited(ps, cur, init)| == |ps|
      && p'.pid == p.pid && p'.parent == (if p.parent == Some(cur) then Some(init) else p.parent)
      && (if i == cur then p'.state.Zombie? else if Live(p) then Live(p') else p'.state == p.state)
      && p'.stats == p.stats && p'.timeslice == p.timeslice
      && (if p'.state == p.state || i == cur then p'.used == p.used
          else p.state.Sleeping? && p'.state.Runnable? && p'.used == 0)
      && (p'.state.Sleeping? ==>
            && p.state.Sleeping? && p'.chan == p.chan
            && (p.chan.OnProc? ==> ps[cur].parent != Some(p.chan.slot))
            && (p.chan == OnProc(init) ==> NoZombie(ps, cur)))
  {
    var woken := Woken(ps, ParentChan(ps[cur]));
    assert forall j :: 0 <= j < |ps| ==> ZombieChild(woken[j], cur) == ZombieChild(ps[j], cur);
  }

  lemma ExitStep(s: Sys, p: nat, s': Sys)
    requires TreeInv(s) && DoExit(s, p, s')
    ensures TreeInv(s')
  {
    hide Exited, PidsOk;
    forall i | 0 <= i < NPROC ensures s'.ps[i].pid == s.ps[i].pid { ExitedAt(s.ps, p, s.init, i); }
    SamePids(s.ps, s'.ps, s.nextpid, s.reaped);
    forall f | f in s'.forking ensures ForkerOk(s', f) {
      assert ForkerOk(s, f);
      ExitedAt(s.ps, p, s.init, f);
      ExitedAt(s.ps, p, s.init, s.forking[f]);
    }
    forall y | y in s'.yielding ensures s'.ps[y].state.Running? { ExitedAt(s.ps, p, s.init, y); }
    forall i | 0 <= i < NPROC ensures SlotOk(s', i) { ExitSlot(s, p, s', i); }
  }

  lemma ExitSlot(s: Sys, p: nat, s': Sys, i: nat)
    requires TreeInv(s) && DoExit(s, p, s') && |s'.ps| == NPROC && i < NPROC
    ensures SlotOk(s', i)
  {
    hide Exited, PidsOk;
    assert SlotOk(s, i) && SlotOk(s, p) && SlotOk(s, s.init);
    ExitedAt(s.ps, p, s.init, i);
    ExitedAt(s.ps, p, s.init, s.init);
    if s.ps[i].parent.Some? && s.ps[i].parent.value < NPROC { ExitedAt(s.ps, p, s.init, s.ps[i].parent.value); }
    if s'.ps[i].state.Sleeping? && s'.ps[i].chan.OnProc? {
      forall j | 0 <= j < NPROC
        ensures s.ps[j].parent == Some(i) ==> s'.ps[j].parent == Some(i)
        ensures !ZombieChild(s'.ps[j], i)
      {
        ExitedAt(s.ps, p, s.init, j);
      }
    }
  }

  lemma StepTree(s: Sys, a: Action, s': Sys)
    requires TreeInv(s) && Step(s, a, s')
    ensures TreeInv(s')
  {
    hide TreeInv;
    match a
    case Fork(p, i) => ForkStep(s, p, i, s');
    case ForkFail(p) => ForkFailStep(s, p, s');
    case SetParent(p) => SetParentStep(s, p, s');
    case ForkDone(p) => ForkDoneStep(s, p, s');
    case Exit(p) => ExitStep(s, p, s');
    case Reap(p, i) => ReapStep(s, p, i, s');
    case WaitSleep(p) => WaitSleepStep(s, p, s');
    case _ => QuietStep(s, a, s');
  }

  lemma InitTree(s: Sys)
    requires Init(s)
    ensures TreeInv(s)
  {
  }

  lemma {:induction false} RunTree(tr: seq<Sys>, i: nat)
    requires Run(tr) && i < |tr|
    ensures TreeInv(tr[i])
  {
    hide Step, TreeInv, Init;
    if i == 0 {
      InitTree(tr[0]);
    } else {
      RunTree(tr, i - 1);
      var a :| Step(tr[i - 1], a, tr[i]);
      StepTree(tr[i - 1], a, tr[i]);
    }
  }

  /** In every reachable state: live pids are distinct, every process but init that lives or is a
      zombie has a live parent, and a process asleep in wait has a child and no zombie child. */
  lemma ProcessTree(tr: seq<Sys>, k: nat, i: nat, j: nat)
    requires Run(tr) && k < |tr| && i < NPROC && j < NPROC
    ensures |tr[k].ps| == NPROC && tr[k].init < NPROC
    ensures var ps, p := tr[k].ps, tr[k].ps[i];
      && (i != j && !p.state.Unused? && !ps[j].state.Unused? ==> p.pid != ps[j].pid)
      && (i == tr[k].init ==> Live(p))
      && (i != tr[k].init && (Live(p) || p.state.Zombie?) ==>
            p.parent.Some? && p.parent.value < NPROC && p.parent.value != i && Live(ps[p.parent.value]))
      && (p.state.Sleeping? && p.chan.OnProc? ==> p.chan == OnProc(i) && HasChild(ps, i) && NoZombie(ps, i))
  {
    RunTree(tr, k);
    assert SlotOk(tr[k], i) && SlotOk(tr[k], j);
  }

  /** No exited process is reaped twice. */
  lemma ReapedOnce(tr: seq<Sys>, k: nat, m: nat, n: nat)
    requires Run(tr) && k < |tr| && m < n < |tr[k].reaped|
    ensures tr[k].reaped[m] != tr[k].reaped[n]
  {
    RunTree(tr, k);
  }

  // ----- Round robin -----

  ghost predicate Segment(tr: seq<Sys>, acts: seq<Action>) {
    |tr| == |acts| + 1 && forall k :: 0 <= k < |acts| ==> Step(tr[k], acts[k], tr[k + 1])
  }

  /** The slots dispatched, in order, on all CPUs together. */
  function Dispatches(acts: seq<Action>): seq<nat> {
    if acts == [] then []
    else Dispatches(acts[..|acts| - 1]) + if acts[|acts| - 1].Dispatch? then [acts[|acts| - 1].slot] else []
  }

  ghost predicate Increasing(rr: nat, d: seq<nat>, bound: nat) {
    && rr < NPROC
    && (forall a :: 0 <= a < |d| ==> d[a] < NPROC && Distance(rr, d[a]) < bound)
    && (forall a, b :: 0 <= a < b < |d| ==> Distance(rr, d[a]) < Distance(rr, d[b]))
    && |d| <= bound
  }

  /** While slot i stays runnable, rr_next moves towards it and every dispatch is one of a slot passed on the way. */
  lemma {:induction false} TowardsSlot(tr: seq<Sys>, acts: seq<Action>, i: nat) returns (moved: nat)
    requires Segment(tr, acts) && i < NPROC
    requires forall k :: 0 <= k < |tr| ==> |tr[k].ps| == NPROC && tr[k].rr < NPROC && tr[k].ps[i].state.Runnable?
    ensures moved <= Distance(tr[0].rr, i) && tr[|acts|].rr == (tr[0].rr + moved) % NPROC
    ensures Increasing(tr[0].rr, Dispatches(acts), moved)
  {
    hide Step, Picks, Sized;
    if acts == [] {
      moved := 0;
    } else {
      var n := |acts| - 1;
      var a, tr0, acts0 := acts[n], tr[..|acts|], acts[..n];
      assert Segment(tr0, acts0);
      moved := TowardsSlot(tr0, acts0, i);
      OnlyDispatchMoves(tr[n], a, tr[n + 1]);
      if a.Dispatch? {
        DispatchPasses(tr[0].rr, moved, tr[n], a.slot, i);
        IncreasingStep(tr[0].rr, Dispatches(acts0), moved, a.slot);
        moved := Distance(tr[0].rr, a.slot) + 1;
      }
    }
  }

  lemma IncreasingStep(rr: nat, d: seq<nat>, bound: nat, slot: nat)
    requires Increasing(rr, d, bound) && slot < NPROC && bound <= Distance(rr, slot)
    ensures Increasing(rr, d + [slot], Distance(rr, slot) + 1)
  {
  }

  lemma OnlyDispatchMoves(s: Sys, a: Action, s': Sys)
    requires Step(s, a, s')
    ensures if a.Dispatch? then Picks(s.ps, s.rr, a.slot) && s'.rr == (a.slot + 1) % NPROC
        && s'.ps[a.slot].state.Running?
            else s'.rr == s.rr
  {
  }

  lemma DispatchPasses(rr0: nat, moved: nat, s: Sys, d: nat, i: nat)
    requires rr0 < NPROC && i < NPROC && moved <= Distance(rr0, i) && s.rr == (rr0 + moved) % NPROC
    requires Picks(s.ps, s.rr, d) && s.ps[i].state.Runnable? && d != i
    ensures moved <= Distance(rr0, d) < Distance(rr0, i)
    ensures (d + 1) % NPROC == (rr0 + Distance(rr0, d) + 1) % NPROC
  {
    assert Distance(s.rr, d) <= Distance(s.rr, i);
  }

  /** Bounded waiting: as long as a slot stays runnable without being dispatched, fewer than NPROC
      dispatches happen, and no slot is dispatched twice. */
  lemma BoundedWaiting(tr: seq<Sys>, acts: seq<Action>, i: nat)
    requires Segment(tr, acts) && i < NPROC
    requires forall k :: 0 <= k < |tr| ==> |tr[k].ps| == NPROC && tr[k].rr < NPROC && tr[k].ps[i].state.Runnable?
    ensures |Dispatches(acts)| <= Distance(tr[0].rr, i) < NPROC
    ensures forall a, b :: 0 <= a < b < |Dispatches(acts)| ==> Dispatches(acts)[a] != Dispatches(acts)[b]
  {
    var moved := TowardsSlot(tr, acts, i);
  }

  // ----- Quantum accounting -----

  /** Accounting of a live process since its quantum q was set, in full quanta q per dispatch:
      ticks already used in the current dispatch, ticks preempted, ticks granted. */
  ghost predicate QuantumOk(p: Proc, b: Base, yielding: bool) {
    Live(p) ==>
      var q := p.timeslice;
      var cpu, dispatches, preempted := p.stats.cpu - b.cpu, p.stats.switches - b.switches,
          p.stats.preemptions - b.preemptions;
      && q >= 1
      && if yielding then p.used == 0 && preempted * q <= cpu <= dispatches * q
         else
           && p.used < q
           && preempted * q + p.used <= cpu
           && cpu <= dispatches * q - (if p.state.Running? then q - p.used else 0)
  }

  ghost predicate QuantumInv(s: Sys) {
    && |s.ps| == |s.base| == NPROC
    && forall i :: 0 <= i < NPROC ==> QuantumOk(s.ps[i], s.base[i], i in s.yielding)
  }

  lemma TickedQuantum(p: Proc, b: Base)
    requires p.state.Running? && QuantumOk(p, b, false)
    ensures QuantumOk(Ticked(p), b, Expires(p))
  {
    var preempted := p.stats.preemptions - b.preemptions;
    assert (preempted + 1) * p.timeslice == preempted * p.timeslice + p.timeslice;
  }

  lemma DispatchedQuantum(p: Proc, b: Base)
    requires p.state.Runnable? && QuantumOk(p, b, false)
    ensures QuantumOk(Dispatched(p), b, false)
  {
    var dispatches := p.stats.switches - b.switches;
    assert (dispatches + 1) * p.timeslice == dispatches * p.timeslice + p.timeslice;
  }

  /** Stopping, waking and being killed only give up ticks of the current quantum. */
  lemma RestedQuantum(p: Proc, p': Proc, b: Base, yielding: bool)
    requires QuantumOk(p, b, yielding)
    requires Live(p') ==>
      Live(p) && p'.stats.(sleep := 0, runnable := 0) == p.stats.(sleep := 0, runnable := 0)
          && p'.timeslice == p.timeslice
    requires Live(p') && p'.state == p.state ==> p'.used == p.used
    requires Live(p') && p'.state != p.state ==> !p'.state.Running? && (p'.used == 0 || (yielding && p'.used == p.used))
    ensures QuantumOk(p', b, yielding && p'.state == p.state)
  {
  }

  lemma StepQuantum(s: Sys, a: Action, s': Sys)
    requires TreeInv(s) && QuantumInv(s) && Step(s, a, s')
    ensures QuantumInv(s')
  {
    hide TreeInv;
    forall i | 0 <= i < NPROC ensures QuantumOk(s'.ps[i], s'.base[i], i in s'.yielding) { SlotQuantum(s, a, s', i); }
  }

  lemma SlotQuantum(s: Sys, a: Action, s': Sys, i: nat)
    requires TreeInv(s) && QuantumInv(s) && Step(s, a, s') && i < NPROC
    ensures |s'.ps| == |s'.base| == NPROC && QuantumOk(s'.ps[i], s'.base[i], i in s'.yielding)
  {
    hide QuantumOk, Exited, SlotOk, PidsOk;
    if a.ForkFail? || a.SetParent? || a.ForkDone? { assert ForkerOk(s, a.p); }
    assert QuantumOk(s.ps[i], s.base[i], i in s.yielding);
    match a
    case Tick(p) => if i == p { TickedQuantum(s.ps[i], s.base[i]); }
    case Dispatch(d) => if i == d { assert i !in s.yielding; DispatchedQuantum(s.ps[i], s.base[i]); }
    case SetQuantum(d, q) => if i == d { FreshQuantum(s.ps[i], q, i in s.yielding); }
    case ForkDone(p) => if i == s.forking[p] { BornQuantum(s.ps[i]); }
    case Exit(p) =>
      ExitedAt(s.ps, p, s.init, i);
      RestedQuantum(s.ps[i], s'.ps[i], s.base[i], i in s.yielding);
    case _ =>
      assert i in s.yielding ==> s.ps[i].state.Running?;
      RestedQuantum(s.ps[i], s'.ps[i], s.base[i], i in s.yielding);
      assert i in s'.yielding <==> i in s.yielding && s'.ps[i].state == s.ps[i].state;
  }

  lemma FreshQuantum(p: Proc, q: nat, yielding: bool)
    requires q >= 1 && (yielding ==> p.state.Running?)
    ensures QuantumOk(p.(timeslice := q, used := 0), BaseOf(p), yielding)
  {
  }

  lemma BornQuantum(p: Proc)
    ensures QuantumOk(Forked(p), Base(0, 0, 0), false)
  {
  }

  lemma {:induction false} RunQuantum(tr: seq<Sys>, k: nat)
    requires Run(tr) && k < |tr|
    ensures TreeInv(tr[k]) && QuantumInv(tr[k])
  {
    RunTree(tr, k);
    if k > 0 {
      RunQuantum(tr, k - 1);
      var a :| Step(tr[k - 1], a, tr[k]);
      StepQuantum(tr[k - 1], a, tr[k]);
    }
  }

  /** Quantum accounting in every reachable state.  Counting from the moment its quantum q was last
      set, a live process has been preempted for at most the ticks it used and has used at most q
      ticks per dispatch; so it was preempted at most once per dispatch. */
  lemma QuantumAccounting(tr: seq<Sys>, k: nat, i: nat)
    requires Run(tr) && k < |tr| && i < NPROC
    ensures |tr[k].ps| == |tr[k].base| == NPROC
    ensures Live(tr[k].ps[i]) ==>
      var p, b := tr[k].ps[i], tr[k].base[i];
      var q, cpu := p.timeslice, p.stats.cpu - b.cpu;
      var dispatches, preempted := p.stats.switches - b.switches, p.stats.preemptions - b.preemptions;
      && 0 <= p.used < q
      && preempted * q + p.used <= cpu <= dispatches * q
      && (p.state.Running? && i !in tr[k].yielding ==> cpu <= dispatches * q - (q - p.used))
      && preempted <= dispatches
  {
    RunQuantum(tr, k);
    var p, b := tr[k].ps[i], tr[k].base[i];
    assert QuantumOk(p, b, i in tr[k].yielding);
    if Live(p) {
      MulCancel(p.stats.preemptions - b.preemptions, p.stats.switches - b.switches, p.timeslice);
    }
  }

  lemma MulCancel(x: int, y: int, q: nat)
    requires q >= 1 && x * q <= y * q
    ensures x <= y
  {
  }
}

/** What the steps of a process's life mean for it and for everyone else. */
module Lifecycles {
  import opened Prelude
  import opened Procs
  import opened ProcRuns

  /** All slots but i are the same. */
  ghost predicate OnlySlot(s: Sys, s': Sys, i: nat) {
    |s'.ps| == |s.ps| && forall j :: 0 <= j < |s.ps| && j != i ==> s'.ps[j] == s.ps[j]
  }

  /** A child that fork has completed is runnable, has the forking process as its parent, starts with empty statistics
      and the default quantum, and has a pid that no other process has and no process ever reaped had. */
  lemma ForkMeans(tr: seq<Sys>, k: nat, p: nat, s': Sys)
    requires Run(tr) && k < |tr| && Step(tr[k], ForkDone(p), s')
    ensures p in tr[k].forking && tr[k].forking[p] < NPROC == |tr[k].ps|
    ensures var s, c := tr[k], tr[k].forking[p];
      && OnlySlot(s, s', c) && c != p && s.ps[c].state.Embryo? && p !in s'.forking
      && s'.ps[c].state.Runnable? && s'.ps[c].parent == Some(p) && s'.ps[c].stats == NO_STATS
      && s'.ps[c].timeslice == DEFAULT_QUANTUM && s'.ps[c].used == 0
      && s'.ps[c].pid == s.ps[c].pid >= 1 && s'.ps[c].pid !in s'.reaped
      && forall j :: 0 <= j < NPROC && j != c ==> s'.ps[j].pid != s'.ps[c].pid
  {
    RunTree(tr, k);
    var s := tr[k];
    assert ForkerOk(s, p) && SlotOk(s, s.forking[p]) && SlotOk(s, p);
  }

  /** An embryo keeps its maker, its pid and its state until fork is done with it; only kill may mark it. */
  lemma EmbryoWaits(s: Sys, a: Action, s': Sys, p: nat)
    requires TreeInv(s) && Step(s, a, s') && p in s.forking && !(a.ForkDone? && a.p == p) && !(a.ForkFail? && a.p == p)
    ensures p in s'.forking && s'.forking[p] == s.forking[p] < NPROC == |s.ps| == |s'.ps|
    ensures s'.ps[s.forking[p]].state.Embryo? && s'.ps[s.forking[p]].pid == s.ps[s.forking[p]].pid
  {
    hide Exited, PidsOk;
    var e := s.forking[p];
    assert ForkerOk(s, p) && SlotOk(s, e);
    if a.Exit? { ExitedAt(s.ps, a.p, s.init, e); }
  }

  /** exit leaves a zombie, passes its children to init, and leaves neither its parent nor an init that has got a zombie
      asleep in wait. */
  lemma ExitMeans(s: Sys, p: nat, s': Sys)
    requires TreeInv(s) && Step(s, Exit(p), s')
    ensures |s'.ps| == |s.ps| == NPROC && p < NPROC && s'.ps[p].state.Zombie? && s'.ps[p].parent == s.ps[p].parent
    ensures forall j :: 0 <= j < NPROC ==>
      && s'.ps[j].pid == s.ps[j].pid && s'.ps[j].killed == s.ps[j].killed
      && s'.ps[j].parent == if s.ps[j].parent == Some(p) then Some(s.init) else s.ps[j].parent
    ensures forall j :: 0 <= j < NPROC && j != p && s'.ps[j].state != s.ps[j].state ==>
      && s.ps[j].state.Sleeping? && s'.ps[j].state.Runnable?
      && (s.ps[p].parent == Some(j) || j == s.init) && s.ps[j].chan == OnProc(j)
    ensures s.ps[p].parent.Some? ==>
      var q := s.ps[p].parent.value;
      q < NPROC && !(s'.ps[q].state.Sleeping? && s'.ps[q].chan == OnProc(q))
    ensures (exists j :: 0 <= j < NPROC && ZombieChild(s.ps[j], p)) ==>
      !(s'.ps[s.init].state.Sleeping? && s'.ps[s.init].chan == OnProc(s.init))
  {
    hide PidsOk;
    assert SlotOk(s, p);
    forall j | 0 <= j < NPROC
      ensures s'.ps[j].killed == s.ps[j].killed && s'.ps[j].pid == s.ps[j].pid
      ensures s'.ps[j].parent == if s.ps[j].parent == Some(p) then Some(s.init) else s.ps[j].parent
      ensures j != p && s'.ps[j].state != s.ps[j].state ==>
        && s.ps[j].state.Sleeping? && s'.ps[j].state.Runnable?
        && (s.ps[p].parent == Some(j) || j == s.init) && s.ps[j].chan == OnProc(j)
    {
      ExitedAt(s.ps, p, s.init, j);
      assert SlotOk(s, j);
    }
    ExitedAt(s.ps, p, s.init, p);
    ExitedAt(s.ps, p, s.init, s.init);
    if s.ps[p].parent.Some? { ExitedAt(s.ps, p, s.init, s.ps[p].parent.value); }
  }

  /** An exited process stays a zombie, with its pid, until a wait by its parent returns that pid. */
  lemma ZombieWaits(s: Sys, a: Action, s': Sys, i: nat)
    requires TreeInv(s) && Step(s, a, s') && i < NPROC && s.ps[i].state.Zombie?
    ensures |s'.ps| == NPROC
    ensures
      || (s'.ps[i].state.Zombie? && s'.ps[i].pid == s.ps[i].pid && s.reaped <= s'.reaped)
      || (a.Reap? && s.ps[i].parent == Some(a.p) && s'.ps[i].state.Unused? && s'.reaped == s.reaped + [s.ps[i].pid])
  {
    hide Exited, PidsOk;
    assert SlotOk(s, i);
    if a.Exit? { ExitedAt(s.ps, a.p, s.init, i); }
    if a.ForkFail? || a.ForkDone? || a.SetParent? { assert ForkerOk(s, a.p); }
  }

  /** wakeup leaves nobody asleep on the channel, and touches nobody else. */
  lemma WakeupMeans(s: Sys, ch: Chan, s': Sys, i: nat)
    requires Step(s, Wakeup(ch), s') && i < NPROC
    ensures |s'.ps| == NPROC
    ensures if s.ps[i].state.Sleeping? && s.ps[i].chan == ch then s'.ps[i] == s.ps[i].(state := Runnable, used := 0)
            else s'.ps[i] == s.ps[i]
  {
  }

  /** A sleeper is woken by a wakeup of its channel or by being killed; one in wait also by an exit. */
  lemma SleepsUntilWoken(s: Sys, a: Action, s': Sys, i: nat)
    requires TreeInv(s) && Step(s, a, s') && i < NPROC && s.ps[i].state.Sleeping?
    ensures |s'.ps| == NPROC
    ensures if s'.ps[i].state.Sleeping? then s'.ps[i].chan == s.ps[i].chan
            else
              && s'.ps[i].state.Runnable?
              && (a == Wakeup(s.ps[i].chan) || a == Kill(s.ps[i].pid, i) || (a.Exit? && s.ps[i].chan == OnProc(i)))
  {
    hide Exited, PidsOk;
    assert SlotOk(s, i);
    if a.Exit? {
      ExitMeans(s, a.p, s');
      ExitedAt(s.ps, a.p, s.init, i);
    }
    if a.ForkFail? || a.ForkDone? || a.SetParent? { assert ForkerOk(s, a.p); }
  }

  /** A process that goes to sleep, or waits for a child, sleeps on the channel that will wake it; nobody else
      notices. */
  lemma SleepMeans(s: Sys, a: Action, s': Sys)
    requires Step(s, a, s') && (a.Sleep? || a.WaitSleep?)
    ensures a.p < NPROC == |s.ps| == |s'.ps| && OnlySlot(s, s', a.p)
    ensures s'.ps[a.p].state.Sleeping? && s'.ps[a.p].chan == if a.Sleep? then a.ch else OnProc(a.p)
    ensures s'.ps[a.p].pid == s.ps[a.p].pid && s'.ps[a.p].parent == s.ps[a.p].parent
    ensures s'.ps[a.p].stats == s.ps[a.p].stats && s'.ps[a.p].killed == s.ps[a.p].killed
  {
  }

  /** kill marks the process with the pid and leaves it awake; nobody else is touched.  No two processes have the pid,
      unless it is 0: that is the pid of every unused slot, of which the first is marked. */
  lemma KillMeans(s: Sys, pid: nat, i: nat, s': Sys)
    requires TreeInv(s) && Step(s, Kill(pid, i), s')
    ensures OnlySlot(s, s', i) && i < NPROC == |s.ps| && s.ps[i].pid == pid
    ensures s'.ps[i].killed && !s'.ps[i].state.Sleeping? && s'.ps[i].pid == pid
    ensures forall j :: 0 <= j < NPROC && s.ps[j].pid == pid && (pid >= 1 || j < i) ==> j == i
  {
  }

  /** And the mark stays until the process has been reaped. */
  lemma KilledStays(s: Sys, a: Action, s': Sys, i: nat)
    requires TreeInv(s) && Step(s, a, s') && i < NPROC && s.ps[i].killed && !s.ps[i].state.Unused?
    ensures |s'.ps| == NPROC
    ensures (s'.ps[i].killed && s'.ps[i].pid == s.ps[i].pid) || s'.ps[i].state.Unused?
  {
    hide PidsOk;
    assert SlotOk(s, i);
    if a.Exit? {
      ExitMeans(s, a.p, s');
    }
    if a.ForkFail? || a.ForkDone? || a.SetParent? { assert ForkerOk(s, a.p); }
  }

  /** The quantum of a live process is what set_quantum last asked for, or the default. */
  lemma QuantumIsSet(s: Sys, a: Action, s': Sys, i: nat)
    requires TreeInv(s) && Step(s, a, s') && i < NPROC && Live(s'.ps[i])
    ensures |s'.ps| == NPROC
    ensures s'.ps[i].timeslice ==
            if a.SetQuantum? && a.slot == i then a.quantum
            else if a.ForkDone? && a.p in s.forking && s.forking[a.p] == i then DEFAULT_QUANTUM
            else s.ps[i].timeslice
  {
    hide Exited, PidsOk;
    assert SlotOk(s, i);
    if a.Exit? { ExitedAt(s.ps, a.p, s.init, i); }
    if a.ForkFail? || a.ForkDone? || a.SetParent? { assert ForkerOk(s, a.p); }
  }

  // ----- Processes that are born marked -----

  /** A new process begins as its slot was marked; fork never clears the mark. */
  lemma BornAsMarked(s: Sys, a: Action, s': Sys)
    requires TreeInv(s) && Step(s, a, s') && (a.Fork? || a.ForkDone?)
    ensures |s.ps| == |s'.ps| == NPROC && forall i :: 0 <= i < NPROC ==> s'.ps[i].killed == s.ps[i].killed
  {
  }

  /** An unused slot is marked exactly when kill was called for pid 0 while the slot was the first unused one, or when a
      process was killed while fork was making it and fork then failed; and it stays so. */
  lemma UnusedMarkedIff(s: Sys, a: Action, s': Sys, i: nat)
    requires TreeInv(s) && Step(s, a, s') && i < NPROC
    ensures |s'.ps| == NPROC
    ensures s'.ps[i].state.Unused? ==>
      (s'.ps[i].killed <==>
       || (s.ps[i].state.Unused? && s.ps[i].killed)
       || a == Kill(0, i)
       || (a.ForkFail? && a.p in s.forking && s.forking[a.p] == i && s.ps[i].killed))
  {
    hide PidsOk;
    assert SlotOk(s, i);
    if a.Exit? { ExitMeans(s, a.p, s'); ExitedAt(s.ps, a.p, s.init, i); }
    if a.ForkFail? || a.ForkDone? || a.SetParent? { assert ForkerOk(s, a.p); }
  }

  lemma Extend(tr: seq<Sys>, a: Action, s: Sys) returns (tr': seq<Sys>)
    requires Run(tr) && Step(tr[|tr| - 1], a, s)
    ensures Run(tr') && tr' == tr + [s]
  {
    hide Step, Init;
    tr' := tr + [s];
    assert Next(tr[|tr| - 1], s);
  }

  /** init runs, and kill has been called for pid 0, which is the pid of the unused slot 1. */
  lemma KilledNobody() returns (tr: seq<Sys>)
    ensures Run(tr)
    ensures var s := tr[|tr| - 1];
      && Sized(s) && Runs(s, 0) && s.init == 0 && s.forking == map[] && s.nextpid == 2
      && s.ps[1] == Proc(Unused, 0, None, NoChan, true, 0, 0, NO_STATS)
  {
    var unused := Proc(Unused, 0, None, NoChan, false, 0, 0, NO_STATS);
    var first := Proc(Runnable, 1, None, NoChan, false, DEFAULT_QUANTUM, 0, NO_STATS);
    var s0 := Sys([first] + seq(NPROC - 1, _ => unused), 0, 2, 0, map[], {}, [], seq(NPROC, _ => Base(0, 0, 0)));
    assert Init(s0);
    tr := [s0];
    var s1 := s0.(ps := s0.ps[0 := Dispatched(s0.ps[0])], rr := 1);
    assert Step(s0, Dispatch(0), s1);
    tr := Extend(tr, Dispatch(0), s1);
    var s2 := s1.(ps := s1.ps[1 := Killed(s1.ps[1])]);
    assert Step(s1, Kill(0, 1), s2);
    tr := Extend(tr, Kill(0, 1), s2);
  }

  /** A run in which a process is born marked although nobody has called kill for its pid. */
  lemma BornMarkedRun() returns (tr: seq<Sys>)
    ensures Run(tr)
    ensures var s := tr[|tr| - 1];
      |s.ps| == NPROC && s.ps[1].state.Runnable? && s.ps[1].pid == 2 && s.ps[1].parent == Some(0) && s.ps[1].killed
  {
    hide Run;
    tr := KilledNobody();
    var s := tr[|tr| - 1];
    var s1 := s.(ps := s.ps[1 := Allocated(s.ps[1], 2)], nextpid := 3, forking := map[0 := 1]);
    assert First(s.ps, (x: Proc) => x.state.Unused?, 1);
    assert Step(s, Fork(0, 1), s1);
    tr := Extend(tr, Fork(0, 1), s1);
    var s2 := s1.(ps := s1.ps[1 := s1.ps[1].(parent := Some(0))]);
    assert Step(s1, SetParent(0), s2);
    tr := Extend(tr, SetParent(0), s2);
    var s3 := s2.(ps := s2.ps[1 := Forked(s2.ps[1])], forking := map[], base := s2.base[1 := Base(0, 0, 0)]);
    assert map[0 := 1] - {0} == map[];
    assert Step(s2, ForkDone(0), s3);
    tr := Extend(tr, ForkDone(0), s3);
  }
}

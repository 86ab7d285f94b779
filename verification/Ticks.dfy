/** Tick statistics on one CPU (trap.c, proc.c). */
module Ticks {
  // Every timer tick is charged to each live process exactly once, as time running, sleeping or runnable, according to
  // how it finds the process.

  import opened Prelude
  import opened Procs
  import opened ProcRuns

  /** `age[i]` counts the timer ticks handled since the process in slot i became runnable.  `exiting`
      holds the processes that a timer interrupt has sent into exit: they were killed in user mode, and
      the interrupt calls exit before it gets to its accounting.  `seen[i]` is what an onlooker has seen of
      the process since then. */
  datatype Cpu = Cpu(s: Sys, age: seq<nat>, exiting: set<nat>, seen: seq<Seen>)

  /** How many ticks found the process asleep, runnable or running, how often it was put on the CPU, and how
      often a tick took it off. */
  datatype Seen = Seen(asleep: nat, ready: nat, running: nat, dispatched: nat, preempted: nat)

  const UNSEEN := Seen(0, 0, 0, 0, 0)

  /** Between ticks an onlooker notices processes that begin to run. */
  function Onlooker(seen: Seen, p: Proc, p': Proc): Seen {
    if p.state.Runnable? && p'.state.Running? then seen.(dispatched := seen.dispatched + 1) else seen
  }

  /** At a tick, the state in which it finds the process once it has woken the sleepers on ticks; a process that is sent
      into exit is not counted.  One that ran and is runnable afterwards was taken off the CPU. */
  function TickOnlooker(seen: Seen, p: Proc, sent: bool, p': Proc): Seen {
    if p.state.Sleeping? && p.chan != OnTicks then seen.(asleep := seen.asleep + 1)
    else if p.state.Sleeping? || p.state.Runnable? then seen.(ready := seen.ready + 1)
    else if !p.state.Running? || sent then seen
    else if p'.state.Runnable? then seen.(running := seen.running + 1, preempted := seen.preempted + 1)
    else seen.(running := seen.running + 1)
  }

  ghost predicate Watched(c: Cpu, a: Action, c': Cpu) {
    && |c.seen| == |c'.seen| == |c.s.ps| == |c'.s.ps| == NPROC
    && forall i :: 0 <= i < NPROC ==>
         c'.seen[i] == if a.ForkDone? && a.p in c.s.forking && i == c.s.forking[a.p] then UNSEEN
                       else Onlooker(c.seen[i], c.s.ps[i], c'.s.ps[i])
  }

  ghost predicate TickWatched(c: Cpu, c': Cpu) {
    && |c.seen| == |c'.seen| == |c.s.ps| == |c'.s.ps| == NPROC
    && forall i :: 0 <= i < NPROC ==>
         c'.seen[i] == TickOnlooker(c.seen[i], c.s.ps[i], i in c'.exiting && i !in c.exiting, c'.s.ps[i])
  }

  predicate Idle(s: Sys) {
    forall i :: 0 <= i < |s.ps| ==> !s.ps[i].state.Running?
  }

  /** What a process inside exit may do: sleep on an object (closing files and dropping its directory take
      transactions) and finally become a zombie. */
  predicate Allowed(exiting: set<nat>, a: Action) {
    match a
    case Fork(p, _) => p !in exiting
    case ForkFail(p) => p !in exiting
    case SetParent(p) => p !in exiting
    case ForkDone(p) => p !in exiting
    case Reap(p, _) => p !in exiting
    case WaitSleep(p) => p !in exiting
    case Sleep(p, ch) => p in exiting ==> ch.OnObject?
    case _ => true
  }

  /** A step between ticks.  The only CPU dispatches a process when it runs none. */
  ghost predicate Between(c: Cpu, a: Action, c': Cpu) {
    && !a.Tick? && !a.ChargeAll? && !a.Yield? && (a.Dispatch? ==> Idle(c.s)) && Allowed(c.exiting, a)
    && Step(c.s, a, c'.s) && |c.age| == NPROC
    && c'.age == (if a.ForkDone? then c.age[c.s.forking[a.p] := 0] else c.age)
    && Watched(c, a, c')
    && c'.exiting == if a.Exit? then c.exiting - {a.p} else c.exiting
  }

  /** One timer interrupt: wake the sleepers on ticks, charge the waiting, then look at the running process.  Killed in
      user mode, it goes into exit without being charged; otherwise it is charged, and yields if its quantum ends. */
  ghost predicate TimerTick(c: Cpu, c': Cpu) {
    var s1 := c.s.(ps := Woken(c.s.ps, OnTicks));
    var s2 := c.s.(ps := Charged(s1.ps));
    && Step(c.s, Wakeup(OnTicks), s1) && Step(s1, ChargeAll, s2)
    && |c.age| == NPROC && c'.age == seq(NPROC, i requires 0 <= i < NPROC => c.age[i] + 1) && TickWatched(c, c')
    && ((Idle(c.s) && c'.s == s2 && c'.exiting == c.exiting)
        || (exists p: nat ::
              && Runs(c.s, p)
              && (SentToExit(c, s2, p, c') || (Continues(s2, p, c'.s) && c'.exiting == c.exiting))))
  }

  /** The running process is in user mode, so neither forking nor in exit already, and is not init,
      whose exit is a panic. */
  ghost predicate SentToExit(c: Cpu, s: Sys, p: nat, c': Cpu) {
    && Runs(s, p) && s.ps[p].killed && p !in s.forking && p != s.init && p !in c.exiting
    && c'.s == s && c'.exiting == c.exiting + {p}
  }

  ghost predicate Continues(s: Sys, p: nat, s': Sys) {
    Runs(s, p) &&
    if Expires(s.ps[p]) then exists t :: Step(s, Tick(p), t) && Step(t, Yield(p), s') else Step(s, Tick(p), s')
  }

  ghost predicate Init1(c: Cpu) {
    Init(c.s) && c.age == seq(NPROC, _ => 0) && c.exiting == {} && c.seen == seq(NPROC, _ => UNSEEN)
  }

  ghost predicate Run1(tr: seq<Cpu>) {
    tr != [] && Init1(tr[0]) &&
    forall k :: 0 <= k < |tr| - 1 ==> Next1(tr[k], tr[k + 1])
  }

  ghost predicate Next1(c: Cpu, c': Cpu) {
    TimerTick(c, c') || exists a :: Between(c, a, c')
  }

  function Charges(p: Proc): nat {
    p.stats.cpu + p.stats.sleep + p.stats.runnable
  }

  /** The tick that a process has not been charged: the one that sent it into exit. */
  function Missed(c: Cpu, i: nat): nat {
    if i in c.exiting then 1 else 0
  }

  ghost predicate Conserved(c: Cpu) {
    && |c.s.ps| == |c.age| == NPROC && c.s.yielding == {}
    && (forall i :: 0 <= i < NPROC && Live(c.s.ps[i]) ==> Charges(c.s.ps[i]) + Missed(c, i) == c.age[i])
    && (forall i :: i in c.exiting ==> i < NPROC && Live(c.s.ps[i]))
    && (forall i, j :: 0 <= i < j < NPROC ==> !(c.s.ps[i].state.Running? && c.s.ps[j].state.Running?))
  }

  /** The slot stays charged the same, and does not start to run. */
  ghost predicate SameCharge(p: Proc, p': Proc) {
    && (Live(p') <==> Live(p)) && (Live(p) ==> Charges(p') == Charges(p))
    && (p'.state.Running? ==> p.state.Running?)
  }

  lemma BetweenSlot(s: Sys, a: Action, s': Sys, i: nat)
    requires TreeInv(s) && Step(s, a, s') && !a.Tick? && !a.ChargeAll? && !a.Yield? && i < NPROC
    ensures |s'.ps| == NPROC
    ensures if a.ForkDone? && i == s.forking[a.p] then Charges(s'.ps[i]) == 0 && s'.ps[i].state.Runnable?
        && !Live(s.ps[i])
            else if a.Dispatch? && i == a.slot then Live(s.ps[i]) && Live(s'.ps[i])
                && Charges(s'.ps[i]) == Charges(s.ps[i])
            else if a.Exit? && i == a.p then !Live(s'.ps[i])
            else SameCharge(s.ps[i], s'.ps[i])
  {
    hide Exited, PidsOk;
    assert SlotOk(s, i);
    if a.Exit? { ExitedAt(s.ps, a.p, s.init, i); }
    if a.ForkFail? || a.ForkDone? { assert ForkerOk(s, a.p); }
  }

  lemma BetweenConserves(c: Cpu, a: Action, c': Cpu)
    requires TreeInv(c.s) && Conserved(c) && Between(c, a, c')
    ensures TreeInv(c'.s) && Conserved(c')
  {
    hide Watched, Charges, SlotOk, PidsOk, ForkerOk, Exited;
    StepTree(c.s, a, c'.s);
    BetweenYields(c.s, a, c'.s);
    forall i | 0 <= i < NPROC
      ensures Live(c'.s.ps[i]) ==> Charges(c'.s.ps[i]) + Missed(c', i) == c'.age[i]
      ensures i in c'.exiting ==> Live(c'.s.ps[i])
      ensures c'.s.ps[i].state.Running? ==> c.s.ps[i].state.Running? || (a.Dispatch? && i == a.slot)
    {
      BetweenSlot(c.s, a, c'.s, i);
    }
  }

  lemma BetweenYields(s: Sys, a: Action, s': Sys)
    requires Step(s, a, s') && !a.Tick? && !a.ChargeAll? && !a.Yield?
    ensures |s'.ps| == NPROC && s'.yielding == s.yielding
  {
    hide Exited;
  }

  lemma TickSlot(ps: seq<Proc>, i: nat)
    requires i < |ps|
    ensures |Charged(Woken(ps, OnTicks))| == |ps|
    ensures var p, p' := ps[i], Charged(Woken(ps, OnTicks))[i];
      && Live(p') == Live(p) && p'.state.Running? == p.state.Running?
      && Charges(p') == Charges(p) + (if Live(p) && !p.state.Running? then 1 else 0)
  {
  }

  lemma RunningSlot(s: Sys, p: nat, s': Sys, i: nat)
    requires i < NPROC && |s.ps| == NPROC && s.yielding == {} && Runs(s, p) && Continues(s, p, s')
    ensures |s'.ps| == NPROC && s'.yielding == {}
    ensures if i == p then Live(s'.ps[i]) && Charges(s'.ps[i]) == Charges(s.ps[i]) + 1
            else SameCharge(s.ps[i], s'.ps[i])
  {
  }

  lemma TickTree(c: Cpu, c': Cpu)
    requires TreeInv(c.s) && TimerTick(c, c')
    ensures TreeInv(c'.s)
  {
    hide TreeInv;
    var s1 := c.s.(ps := Woken(c.s.ps, OnTicks));
    var s2 := c.s.(ps := Charged(s1.ps));
    StepTree(c.s, Wakeup(OnTicks), s1);
    StepTree(s1, ChargeAll, s2);
    if c'.s != s2 {
      var p: nat :| Runs(c.s, p) && Continues(s2, p, c'.s);
      if Expires(s2.ps[p]) {
        var t :| Step(s2, Tick(p), t) && Step(t, Yield(p), c'.s);
        StepTree(s2, Tick(p), t);
        StepTree(t, Yield(p), c'.s);
      } else {
        StepTree(s2, Tick(p), c'.s);
      }
    }
  }

  lemma TickConserves(c: Cpu, c': Cpu)
    requires Conserved(c) && TimerTick(c, c')
    ensures Conserved(c')
  {
    hide Step, Continues, Charged, Woken, Charges, TickWatched;
    var s2 := c.s.(ps := Charged(Woken(c.s.ps, OnTicks)));
    TickSlot(c.s.ps, 0);
    forall i | 0 <= i < NPROC
      ensures Live(s2.ps[i]) == Live(c.s.ps[i]) && s2.ps[i].state.Running? == c.s.ps[i].state.Running?
      ensures Charges(s2.ps[i]) == Charges(c.s.ps[i]) + (if Live(c.s.ps[i]) && !c.s.ps[i].state.Running? then 1 else 0)
    {
      TickSlot(c.s.ps, i);
    }
    if !(Idle(c.s) && c'.s == s2 && c'.exiting == c.exiting) {
      var p: nat :| Runs(c.s, p) && (SentToExit(c, s2, p, c') || (Continues(s2, p, c'.s) && c'.exiting == c.exiting));
      if !SentToExit(c, s2, p, c') {
        RunningSlot(s2, p, c'.s, 0);
        forall i | 0 <= i < NPROC
          ensures if i == p then Live(c'.s.ps[i]) && Charges(c'.s.ps[i]) == Charges(s2.ps[i]) + 1
                  else SameCharge(s2.ps[i], c'.s.ps[i])
        {
          RunningSlot(s2, p, c'.s, i);
        }
      }
    }
  }

  lemma {:induction false} RunConserves(tr: seq<Cpu>, k: nat)
    requires Run1(tr) && k < |tr|
    ensures TreeInv(tr[k].s) && Conserved(tr[k])
  {
    hide TreeInv, Conserved, TimerTick, Between, Init;
    if k == 0 {
      RunTree([tr[0].s], 0);
      FreshConserved(tr[0]);
    } else {
      RunConserves(tr, k - 1);
      if TimerTick(tr[k - 1], tr[k]) {
        TickTree(tr[k - 1], tr[k]);
        TickConserves(tr[k - 1], tr[k]);
      } else {
        var a :| Between(tr[k - 1], a, tr[k]);
        BetweenConserves(tr[k - 1], a, tr[k]);
      }
    }
  }

  lemma FreshConserved(c: Cpu)
    requires Init1(c)
    ensures Conserved(c)
  {
  }

  /** Conservation of ticks, in every reachable state: running, sleeping and runnable time of a live
      process add up to the timer ticks handled since it became runnable if and only if no tick has sent
      it into exit; otherwise that one tick is missing. */
  lemma TicksAreConserved(tr: seq<Cpu>, k: nat, i: nat)
    requires Run1(tr) && k < |tr| && i < NPROC
    ensures |tr[k].s.ps| == |tr[k].age| == NPROC
    ensures Live(tr[k].s.ps[i]) ==>
      var stats := tr[k].s.ps[i].stats;
      && stats.cpu + stats.sleep + stats.runnable == tr[k].age[i] - Missed(tr[k], i)
      && (stats.cpu + stats.sleep + stats.runnable == tr[k].age[i] <==> i !in tr[k].exiting)
  {
    RunConserves(tr, k);
  }

  // ----- What the statistics count -----

  ghost predicate StatsOk(p: Proc, seen: Seen) {
    Live(p) ==>
      && p.stats.sleep == seen.asleep && p.stats.runnable == seen.ready && p.stats.cpu == seen.running
      && p.stats.switches == seen.dispatched && p.stats.preemptions == seen.preempted
  }

  ghost predicate SeenOk(c: Cpu) {
    && |c.s.ps| == |c.seen| == NPROC && c.s.yielding == {}
    && forall i :: 0 <= i < NPROC ==> StatsOk(c.s.ps[i], c.seen[i])
  }

  lemma BetweenStats(s: Sys, a: Action, s': Sys, i: nat, seen: Seen)
    requires TreeInv(s) && Step(s, a, s') && !a.Tick? && !a.ChargeAll? && !a.Yield? && i < NPROC
    requires StatsOk(s.ps[i], seen)
    ensures |s'.ps| == NPROC
    ensures StatsOk(s'.ps[i], if a.ForkDone? && a.p in s.forking && i == s.forking[a.p] then UNSEEN
                              else Onlooker(seen, s.ps[i], s'.ps[i]))
  {
    hide Exited, PidsOk;
    assert SlotOk(s, i);
    if a.Exit? { ExitedAt(s.ps, a.p, s.init, i); }
    if a.ForkFail? || a.ForkDone? { assert ForkerOk(s, a.p); }
  }

  /** A process that the tick does not find running is charged by the kind of its state. */
  lemma ChargedStats(p: Proc, seen: Seen, sent: bool, p': Proc)
    requires StatsOk(p, seen)
    ensures p.state.Running? ==> Charge(Wake(p, OnTicks)) == p
    ensures !p.state.Running? ==> StatsOk(Charge(Wake(p, OnTicks)), TickOnlooker(seen, p, sent, p'))
    ensures Charge(Wake(p, OnTicks)).state.Running? <==> p.state.Running?
  {
  }

  /** The process that runs on is charged for running; if its quantum ends it is taken off. */
  lemma ContinuesStats(s: Sys, p: nat, s': Sys, i: nat, seen: Seen)
    requires |s.ps| == NPROC && s.yielding == {} && Continues(s, p, s') && i < NPROC
    ensures |s'.ps| == NPROC && s'.yielding == {}
    ensures i != p ==> s'.ps[i] == s.ps[i]
    ensures i == p && StatsOk(s.ps[i], seen) ==> StatsOk(s'.ps[i], TickOnlooker(seen, s.ps[i], false, s'.ps[i]))
  {
  }

  lemma TickStats(c: Cpu, c': Cpu, i: nat)
    requires SeenOk(c) && Conserved(c) && TimerTick(c, c') && i < NPROC
    ensures |c'.s.ps| == |c'.seen| == NPROC && c'.s.yielding == {} && StatsOk(c'.s.ps[i], c'.seen[i])
  {
    hide Step, Continues, StatsOk, Charge, Wake, TickOnlooker;
    assert StatsOk(c.s.ps[i], c.seen[i]);
    var sent := i in c'.exiting && i !in c.exiting;
    var s2 := c.s.(ps := Charged(Woken(c.s.ps, OnTicks)));
    ChargedStats(c.s.ps[i], c.seen[i], sent, c'.s.ps[i]);
    assert s2.ps[i] == Charge(Wake(c.s.ps[i], OnTicks));
    if !(Idle(c.s) && c'.s == s2 && c'.exiting == c.exiting) {
      var p: nat :| Runs(c.s, p) && (SentToExit(c, s2, p, c') || (Continues(s2, p, c'.s) && c'.exiting == c.exiting));
      assert c.s.ps[i].state.Running? ==> i == p;
      if SentToExit(c, s2, p, c') {
        if i == p { SentStats(c.seen[i], c.s.ps[i], c'.s.ps[i]); }
      } else {
        ContinuesStats(s2, p, c'.s, i, c.seen[i]);
      }
    }
  }

  lemma SentStats(seen: Seen, p: Proc, p': Proc)
    requires p.state.Running?
    ensures TickOnlooker(seen, p, true, p') == seen
  {
  }

  lemma {:induction false} RunSeen(tr: seq<Cpu>, k: nat)
    requires Run1(tr) && k < |tr|
    ensures SeenOk(tr[k])
  {
    hide StatsOk, TimerTick, Step, Init, TreeInv;
    if k == 0 {
      FreshSeen(tr[0]);
    } else {
      RunSeen(tr, k - 1);
      RunConserves(tr, k - 1);
      RunConserves(tr, k);
      var c, c' := tr[k - 1], tr[k];
      if TimerTick(c, c') {
        TickStats(c, c', 0);
        forall i | 0 <= i < NPROC ensures StatsOk(c'.s.ps[i], c'.seen[i]) { TickStats(c, c', i); }
      } else {
        var a :| Between(c, a, c');
        forall i | 0 <= i < NPROC ensures StatsOk(c'.s.ps[i], c'.seen[i]) {
          BetweenStats(c.s, a, c'.s, i, c.seen[i]);
        }
      }
    }
  }

  lemma FreshSeen(c: Cpu)
    requires Init1(c)
    ensures SeenOk(c)
  {
  }

  /** In every reachable state the statistics of a live process are what an onlooker has counted: the ticks that
      found it asleep, runnable and running, the times it was put on the CPU, and the times a tick took it off. */
  lemma StatisticsAreTrue(tr: seq<Cpu>, k: nat, i: nat)
    requires Run1(tr) && k < |tr| && i < NPROC
    ensures |tr[k].s.ps| == |tr[k].seen| == NPROC
    ensures Live(tr[k].s.ps[i]) ==>
      var stats, seen := tr[k].s.ps[i].stats, tr[k].seen[i];
      && stats.sleep == seen.asleep && stats.runnable == seen.ready && stats.cpu == seen.running
      && stats.switches == seen.dispatched && stats.preemptions == seen.preempted
  {
    RunSeen(tr, k);
    assert StatsOk(tr[k].s.ps[i], tr[k].seen[i]);
  }

  // ----- A run in which a tick goes missing -----

  lemma Extend(tr: seq<Cpu>, c: Cpu) returns (tr': seq<Cpu>)
    requires Run1(tr) && Next1(tr[|tr| - 1], c)
    ensures Run1(tr') && tr' != [] && tr'[|tr'| - 1] == c
  {
    hide Next1, Init1;
    tr' := tr + [c];
    forall k | 0 <= k < |tr'| - 1 ensures Next1(tr'[k], tr'[k + 1]) {
      if k < |tr| - 1 { assert Next1(tr[k], tr[k + 1]); }
    }
  }

  /** A step between ticks that adds to a run and gives the given state. */
  lemma Then(tr: seq<Cpu>, a: Action, s: Sys) returns (tr': seq<Cpu>)
    requires Run1(tr) && Step(tr[|tr| - 1].s, a, s) && !a.Tick? && !a.ChargeAll? && !a.Yield? && !a.ForkDone?
    requires !a.Exit?
    requires a.Dispatch? ==> Idle(tr[|tr| - 1].s)
    requires Allowed(tr[|tr| - 1].exiting, a) && |tr[|tr| - 1].age| == NPROC
    requires |tr[|tr| - 1].seen| == |tr[|tr| - 1].s.ps| == |s.ps| == NPROC
    ensures Run1(tr') && tr' != [] && |tr'[|tr'| - 1].seen| == NPROC
    ensures tr'[|tr'| - 1] == tr[|tr| - 1].(s := s, seen := tr'[|tr'| - 1].seen)
  {
    hide Step, Init, TimerTick;
    var c := tr[|tr| - 1];
    var seen := seq(NPROC, i requires 0 <= i < NPROC => Onlooker(c.seen[i], c.s.ps[i], s.ps[i]));
    assert Between(c, a, c.(s := s, seen := seen));
    tr' := Extend(tr, c.(s := s, seen := seen));
  }

  /** Only init and slot 1 are in use, and init runs. */
  ghost predicate InitRuns(c: Cpu) {
    && |c.s.ps| == |c.age| == |c.seen| == NPROC && c.age[1] == 0 && c.exiting == {}
    && Sized(c.s) && c.s.rr == 1 && c.s.init == 0 && c.s.yielding == {}
    && c.s.ps[0].state.Running? && c.s.ps[0].pid == 1
    && forall i :: 2 <= i < NPROC ==> c.s.ps[i].state.Unused?
  }

  /** init runs and is forking. */
  lemma ForkingRun() returns (tr: seq<Cpu>)
    ensures Run1(tr) && tr != []
    ensures var c := tr[|tr| - 1];
      InitRuns(c) && c.s.forking == map[0 := 1]
          && c.s.ps[1] == Proc(Embryo, 2, None, NoChan, false, DEFAULT_QUANTUM, 0, NO_STATS)
  {
    hide Run1;
    var start := Start();
    var s0 := start.s;
    tr := [start];
    RunStarts(start);
    var s1 := s0.(ps := s0.ps[0 := Dispatched(s0.ps[0])], rr := 1);
    assert Step(s0, Dispatch(0), s1);
    tr := Then(tr, Dispatch(0), s1);
    var s2 := s1.(ps := s1.ps[1 := Allocated(s1.ps[1], 2)], nextpid := 3, forking := map[0 := 1]);
    assert Step(s1, Fork(0, 1), s2);
    tr := Then(tr, Fork(0, 1), s2);
  }

  /** init runs and has forked a child, in slot 1. */
  lemma ForkedRun() returns (tr: seq<Cpu>)
    ensures Run1(tr) && tr != []
    ensures var c := tr[|tr| - 1];
      InitRuns(c) && c.s.forking == map[]
          && c.s.ps[1] == Proc(Runnable, 2, Some(0), NoChan, false, DEFAULT_QUANTUM, 0, NO_STATS)
  {
    hide Run1;
    tr := ForkingRun();
    var s2, age := tr[|tr| - 1].s, tr[|tr| - 1].age;
    var s3 := s2.(ps := s2.ps[1 := s2.ps[1].(parent := Some(0))]);
    assert Step(s2, SetParent(0), s3);
    tr := Then(tr, SetParent(0), s3);
    var s4 := s3.(ps := s3.ps[1 := Forked(s3.ps[1])], forking := map[], base := s3.base[1 := Base(0, 0, 0)]);
    assert map[0 := 1] - {0} == map[];
    assert Step(s3, ForkDone(0), s4);
    var c3 := tr[|tr| - 1];
    var seen := seq(NPROC, i requires 0 <= i < NPROC =>
                      if i == 1 then UNSEEN else Onlooker(c3.seen[i], s3.ps[i], s4.ps[i]));
    var c4 := Cpu(s4, age[1 := 0], {}, seen);
    assert Between(c3, ForkDone(0), c4);
    tr := Extend(tr, c4);
  }

  lemma RunStarts(c: Cpu)
    requires Init1(c)
    ensures Run1([c])
  {
  }

  /** The child has been killed before it ran. */
  lemma KilledRun() returns (tr: seq<Cpu>)
    ensures Run1(tr) && tr != []
    ensures var c := tr[|tr| - 1];
      InitRuns(c) && c.s.forking == map[]
          && c.s.ps[1] == Proc(Runnable, 2, Some(0), NoChan, true, DEFAULT_QUANTUM, 0, NO_STATS)
  {
    hide Run1;
    tr := ForkedRun();
    var s := tr[|tr| - 1].s;
    var s' := s.(ps := s.ps[1 := Killed(s.ps[1])]);
    assert Step(s, Kill(2, 1), s');
    tr := Then(tr, Kill(2, 1), s');
  }

  /** init sleeps and the killed child has just been dispatched. */
  lemma KilledChildRuns() returns (tr: seq<Cpu>)
    ensures Run1(tr) && tr != []
    ensures var c := tr[|tr| - 1];
      && |c.s.ps| == |c.age| == |c.seen| == NPROC && c.age[1] == 0 && Charges(c.s.ps[1]) == 0 && c.exiting == {}
      && Sized(c.s)
      && Runs(c.s, 1) && c.s.ps[1].killed && 1 !in c.s.forking && c.s.init == 0
  {
    hide Run1;
    tr := KilledRun();
    var c := tr[|tr| - 1];
    var s := c.s.(ps := c.s.ps[0 := Slept(c.s.ps[0], OnObject(0))]);
    assert Step(c.s, Sleep(0, OnObject(0)), s);
    tr := Then(tr, Sleep(0, OnObject(0)), s);
    var s' := s.(ps := s.ps[1 := Dispatched(s.ps[1])], rr := 2);
    assert Idle(s);
    assert Step(s, Dispatch(1), s');
    tr := Then(tr, Dispatch(1), s');
  }

  /** The state after userinit. */
  ghost function Start(): (c: Cpu)
    ensures Init1(c)
  {
    var child := Proc(Unused, 0, None, NoChan, false, 0, 0, NO_STATS);
    var first := Proc(Runnable, 1, None, NoChan, false, DEFAULT_QUANTUM, 0, NO_STATS);
    Cpu(Sys([first] + seq(NPROC - 1, _ => child), 0, 2, 0, map[], {}, [], seq(NPROC, _ => Base(0, 0, 0))),
        seq(NPROC, _ => 0), {}, seq(NPROC, _ => UNSEEN))
  }

  /** Such a run exists: a tick sends a killed process into exit, where it goes to sleep, live and one tick short. */
  lemma TickGoesMissing() returns (tr: seq<Cpu>)
    ensures Run1(tr) && tr != []
    ensures var c := tr[|tr| - 1];
      |c.s.ps| == |c.age| == NPROC && c.s.ps[1].state.Sleeping? && Charges(c.s.ps[1]) == 0 && c.age[1] == 1
  {
    hide Init, Charges;
    tr := KilledChildRuns();
    var c := tr[|tr| - 1];
    var s1 := c.s.(ps := Woken(c.s.ps, OnTicks));
    var s2 := c.s.(ps := Charged(s1.ps));
    TickSlot(c.s.ps, 1);
    assert s2.ps[1] == c.s.ps[1];
    var seen := seq(NPROC, i requires 0 <= i < NPROC => TickOnlooker(c.seen[i], c.s.ps[i], i == 1, s2.ps[i]));
    var c1 := Cpu(s2, seq(NPROC, i requires 0 <= i < NPROC => c.age[i] + 1), {1}, seen);
    assert Step(c.s, Wakeup(OnTicks), s1) && Step(s1, ChargeAll, s2);
    assert SentToExit(c, s2, 1, c1);
    assert TimerTick(c, c1);
    tr := Extend(tr, c1);
    var s3 := s2.(ps := s2.ps[1 := Slept(s2.ps[1], OnObject(0))]);
    assert Step(s2, Sleep(1, OnObject(0)), s3);
    tr := Then(tr, Sleep(1, OnObject(0)), s3);
    assert Charges(s3.ps[1]) == Charges(s2.ps[1]) by { SleepCharges(s2.ps[1], OnObject(0)); }
  }

  lemma SleepCharges(p: Proc, ch: Chan)
    ensures Charges(Slept(p, ch)) == Charges(p)
  {
  }
}

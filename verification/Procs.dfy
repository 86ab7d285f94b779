/** The process table of proc.c.  Each operation is a method over the table whose contract
    equates the new table with a function of the old one; the functions are what the run
    properties in ProcRuns are about. */
module Procs {
  import opened Prelude

  const NPROC: nat := 64
  const DEFAULT_QUANTUM: nat := 10

  datatype ProcState = Unused | Embryo | Sleeping | Runnable | Running | Zombie

  /** Sleep channels: a process (wait), the tick counter, or any other kernel object. */
  datatype Chan = NoChan | OnProc(slot: nat) | OnTicks | OnObject(id: nat)

  datatype Stats = Stats(cpu: nat, sleep: nat, runnable: nat, switches: nat, preemptions: nat)

  const NO_STATS := Stats(0, 0, 0, 0, 0)

  datatype Proc = Proc(
    state: ProcState, pid: nat, parent: Option<nat>, chan: Chan, killed: bool,
    timeslice: nat, used: nat, stats: Stats)

  /** A process that exists and can still run. */
  predicate Live(p: Proc) {
    p.state.Sleeping? || p.state.Runnable? || p.state.Running?
  }

  function Each(ps: seq<Proc>, f: Proc -> Proc): (r: seq<Proc>)
    ensures |r| == |ps| && forall i :: 0 <= i < |ps| ==> r[i] == f(ps[i])
  {
    seq(|ps|, i requires 0 <= i < |ps| => f(ps[i]))
  }

  // ----- What each operation does to the table -----

  function Wake(p: Proc, ch: Chan): Proc {
    if p.state.Sleeping? && p.chan == ch then p.(state := Runnable, used := 0) else p
  }

  /** wakeup1 */
  function Woken(ps: seq<Proc>, ch: Chan): (r: seq<Proc>)
    ensures |r| == |ps|
  {
    Each(ps, p => Wake(p, ch))
  }

  function Charge(p: Proc): Proc {
    if p.state.Sleeping? then p.(stats := p.stats.(sleep := p.stats.sleep + 1))
    else if p.state.Runnable? then p.(stats := p.stats.(runnable := p.stats.runnable + 1))
    else p
  }

  /** update_sleep_stats */
  function Charged(ps: seq<Proc>): (r: seq<Proc>) {
    Each(ps, Charge)
  }

  /** The timer tick of the process running on this CPU; the quantum has expired when the count wraps to 0. */
  function Ticked(p: Proc): Proc {
    var stats := p.stats.(cpu := p.stats.cpu + 1);
    if p.used + 1 >= p.timeslice then p.(used := 0, stats := stats.(preemptions := stats.preemptions + 1))
    else p.(used := p.used + 1, stats := stats)
  }

  predicate Expires(p: Proc) {
    p.used + 1 >= p.timeslice
  }

  function Adopt(p: Proc, cur: nat, init: nat): Proc {
    if p.parent == Some(cur) then p.(parent := Some(init)) else p
  }

  predicate ZombieChild(p: Proc, cur: nat) {
    p.parent == Some(cur) && p.state.Zombie?
  }

  /** The middle of exit: children are passed to init, which is woken if one is a zombie. */
  function Abandoned(ps: seq<Proc>, cur: nat, init: nat): (r: seq<Proc>)
    ensures |r| == |ps|
  {
    var adopted := Each(ps, p => Adopt(p, cur, init));
    if exists i :: 0 <= i < |ps| && ZombieChild(ps[i], cur) then Woken(adopted, OnProc(init)) else adopted
  }

  function ParentChan(p: Proc): Chan {
    if p.parent.Some? then OnProc(p.parent.value) else NoChan
  }

  /** exit, from taking ptable.lock to entering the scheduler. */
  function Exited(ps: seq<Proc>, cur: nat, init: nat): (r: seq<Proc>)
    requires cur < |ps|
    ensures |r| == |ps|
  {
    var a := Abandoned(Woken(ps, ParentChan(ps[cur])), cur, init);
    a[cur := a[cur].(state := Zombie)]
  }

  /** The slot as wait leaves it after reaping. */
  function Reaped(p: Proc): Proc {
    Proc(Unused, 0, None, p.chan, false, DEFAULT_QUANTUM, 0, NO_STATS)
  }

  function Slept(p: Proc, ch: Chan): Proc {
    p.(state := Sleeping, chan := ch, used := 0)
  }

  function Dispatched(p: Proc): Proc {
    p.(state := Running, used := 0, stats := p.stats.(switches := p.stats.switches + 1))
  }

  /** kill's effect on the process with the given pid. */
  function Killed(p: Proc): Proc {
    if p.state.Sleeping? then p.(killed := true, state := Runnable, used := 0) else p.(killed := true)
  }

  function Allocated(p: Proc, pid: nat): Proc {
    p.(state := Embryo, pid := pid, timeslice := DEFAULT_QUANTUM, used := 0, stats := NO_STATS)
  }

  function Forked(p: Proc): Proc {
    p.(state := Runnable, timeslice := DEFAULT_QUANTUM, used := 0, stats := NO_STATS)
  }

  /** i is the first slot whose process satisfies f. */
  ghost predicate First(ps: seq<Proc>, f: Proc -> bool, i: nat) {
    i < |ps| && f(ps[i]) && forall j :: 0 <= j < i ==> !f(ps[j])
  }

  ghost predicate Nowhere(ps: seq<Proc>, f: Proc -> bool) {
    forall j :: 0 <= j < |ps| ==> !f(ps[j])
  }

  /** Slot i is the first runnable one in circular order from rr. */
  ghost predicate Picks(ps: seq<Proc>, rr: nat, i: nat) {
    && |ps| == NPROC && rr < NPROC && i < NPROC && ps[i].state.Runnable?
    && forall j :: 0 <= j < NPROC && Distance(rr, j) < Distance(rr, i) ==> !ps[j].state.Runnable?
  }

  /** How far slot i is ahead of rr on the circle. */
  function Distance(rr: nat, i: nat): (d: nat)
    requires rr < NPROC && i < NPROC
    ensures d < NPROC && (rr + d) % NPROC == i
  {
    if i >= rr then i - rr else i + NPROC - rr
  }

  datatype WaitResult = Pid(pid: nat) | Error | Sleeps

  class ProcTable {
    const proc: array<Proc>
    var rrNext: nat
    var nextpid: nat

    ghost predicate Valid()
      reads this, proc
    {
      proc.Length == NPROC && rrNext < NPROC
    }

    constructor ()
      ensures Valid() && fresh(proc) && rrNext == 0 && nextpid == 1
      ensures forall i :: 0 <= i < NPROC ==> proc[i] == Proc(Unused, 0, None, NoChan, false, 0, 0, NO_STATS)
    {
      proc := new Proc[NPROC](_ => Proc(Unused, 0, None, NoChan, false, 0, 0, NO_STATS));
      rrNext, nextpid := 0, 1;
    }

    /** The body of scheduler's loop up to swtch: the circular search, the advance of rr_next
        past the chosen slot, and the start of a fresh quantum. */
    method Schedule() returns (r: Option<nat>)
      requires Valid()
      modifies this`rrNext, proc
      ensures Valid()
      ensures r.None? ==> proc[..] == old(proc[..]) && rrNext == old(rrNext)
      ensures r.None? <==> Nowhere(old(proc[..]), (p: Proc) => p.state.Runnable?)
      ensures r.Some? ==>
        && Picks(old(proc[..]), old(rrNext), r.value) && rrNext == (r.value + 1) % NPROC
        && proc[..] == old(proc[..])[r.value := Dispatched(old(proc[..])[r.value])]
    {
      var i := 0;
      while i < NPROC
        invariant 0 <= i <= NPROC
        invariant forall j :: 0 <= j < NPROC && Distance(rrNext, j) < i ==> !proc[j].state.Runnable?
      {
        var index := (rrNext + i) % NPROC;
        if proc[index].state.Runnable? {
          assert Distance(rrNext, index) == i;
          rrNext := (index + 1) % NPROC;
          proc[index] := proc[index].(used := 0, state := Running,
                                      stats := proc[index].stats.(switches := proc[index].stats.switches + 1));
          return Some(index);
        }
        i := i + 1;
      }
      return None;
    }

    method Wakeup1(ch: Chan)
      requires Valid()
      modifies proc
      ensures proc[..] == Woken(old(proc[..]), ch)
    {
      for i := 0 to NPROC
        invariant forall j :: 0 <= j < NPROC ==> proc[j] == if j < i then Wake(old(proc[j]), ch) else old(proc[j])
      {
        if proc[i].state.Sleeping? && proc[i].chan == ch {
          proc[i] := proc[i].(state := Runnable, used := 0);
        }
      }
    }

    method UpdateSleepStats()
      requires Valid()
      modifies proc
      ensures proc[..] == Charged(old(proc[..]))
    {
      for i := 0 to NPROC
        invariant forall j :: 0 <= j < NPROC ==> proc[j] == if j < i then Charge(old(proc[j])) else old(proc[j])
      {
        if proc[i].state.Sleeping? {
          proc[i] := proc[i].(stats := proc[i].stats.(sleep := proc[i].stats.sleep + 1));
        } else if proc[i].state.Runnable? {
          proc[i] := proc[i].(stats := proc[i].stats.(runnable := proc[i].stats.runnable + 1));
        }
      }
    }

    /** trap's timer branch for the process running on this CPU, before yield. */
    method Tick(cur: nat) returns (expired: bool)
      requires Valid() && cur < NPROC && proc[cur].state.Running?
      modifies proc
      ensures proc[..] == old(proc[..])[cur := Ticked(old(proc[cur]))] && expired == Expires(old(proc[cur]))
    {
      var p := proc[cur];
      p := p.(stats := p.stats.(cpu := p.stats.cpu + 1));
      p := p.(used := p.used + 1);
      expired := p.used >= p.timeslice;
      if expired {
        p := p.(used := 0);
        p := p.(stats := p.stats.(preemptions := p.stats.preemptions + 1));
      }
      proc[cur] := p;
    }

    method Exit(cur: nat, init: nat)
      requires Valid() && cur < NPROC && init < NPROC && cur != init
      modifies proc
      ensures proc[..] == Exited(old(proc[..]), cur, init)
    {
      Wakeup1(ParentChan(proc[cur]));
      PassChildren(cur, init);
      proc[cur] := proc[cur].(state := Zombie);
    }

    /** The loop of exit over the table. */
    method PassChildren(cur: nat, init: nat)
      requires Valid() && cur < NPROC && init < NPROC && cur != init
      modifies proc
      ensures proc[..] == Abandoned(old(proc[..]), cur, init)
    {
      ghost var ps, woken := proc[..], false;
      for i := 0 to NPROC
        invariant woken <==> exists j :: 0 <= j < i && ZombieChild(ps[j], cur)
        invariant forall j :: 0 <= j < NPROC ==> proc[j] == Passed(ps[j], cur, init, j < i, woken)
      {
        if proc[i].parent == Some(cur) {
          proc[i] := proc[i].(parent := Some(init));
          if proc[i].state.Zombie? {
            Wakeup1(OnProc(init));
            woken := true;
          }
        }
      }
    }

    /** One pass of wait's loop: reap the first zombie child, or give up, or sleep. */
    method Wait(cur: nat) returns (r: WaitResult, ghost slot: nat)
      requires Valid() && cur < NPROC
      modifies proc
      ensures
        var ps := old(proc[..]);
        var child, zombie := (p: Proc) => p.parent == Some(cur), (p: Proc) => ZombieChild(p, cur);
        match r
        case Pid(pid) => First(ps, zombie, slot) && pid == ps[slot].pid && proc[..] == ps[slot := Reaped(ps[slot])]
        case Error => Nowhere(ps, zombie) && (Nowhere(ps, child) || ps[cur].killed) && proc[..] == ps
        case Sleeps =>
          && Nowhere(ps, zombie) && !Nowhere(ps, child) && !ps[cur].killed
          && proc[..] == ps[cur := Slept(ps[cur], OnProc(cur))]
    {
      var havekids := false;
      slot := 0;
      for i := 0 to NPROC
        invariant proc[..] == old(proc[..])
        invariant havekids <==> exists j :: 0 <= j < i && proc[j].parent == Some(cur)
        invariant forall j :: 0 <= j < i ==> !ZombieChild(proc[j], cur)
      {
        if proc[i].parent == Some(cur) {
          havekids := true;
          if proc[i].state.Zombie? {
            r := Pid(proc[i].pid);
            slot := i;
            proc[i] := proc[i].(pid := 0, parent := None, killed := false,
                                timeslice := DEFAULT_QUANTUM, used := 0, stats := NO_STATS, state := Unused);
            return;
          }
        }
      }
      if !havekids || proc[cur].killed {
        return Error, 0;
      }
      proc[cur] := proc[cur].(chan := OnProc(cur), state := Sleeping, used := 0);
      return Sleeps, 0;
    }

    method Kill(pid: nat) returns (ok: bool, ghost slot: nat)
      requires Valid()
      modifies proc
      ensures ok <==> !Nowhere(old(proc[..]), (p: Proc) => p.pid == pid)
      ensures ok ==> First(old(proc[..]), (p: Proc) => p.pid == pid, slot)
      ensures proc[..] == if ok then old(proc[..])[slot := Killed(old(proc[..])[slot])] else old(proc[..])
    {
      for i := 0 to NPROC
        invariant proc[..] == old(proc[..]) && forall j :: 0 <= j < i ==> proc[j].pid != pid
      {
        if proc[i].pid == pid {
          proc[i] := proc[i].(killed := true);
          if proc[i].state.Sleeping? {
            proc[i] := proc[i].(state := Runnable, used := 0);
          }
          return true, i;
        }
      }
      return false, 0;
    }

    method SetQuantum(pid: nat, quantum: int) returns (ok: bool, ghost slot: nat)
      requires Valid()
      modifies proc
      ensures var named := (p: Proc) => p.pid == pid && !p.state.Unused?;
        && (ok <==> 1 <= quantum <= 100 && !Nowhere(old(proc[..]), named))
        && (ok ==> First(old(proc[..]), named, slot))
        && proc[..] == if ok then old(proc[..])[slot := old(proc[..])[slot].(timeslice := quantum, used := 0)]
                       else old(proc[..])
    {
      if quantum < 1 || quantum > 100 {
        return false, 0;
      }
      for i := 0 to NPROC
        invariant proc[..] == old(proc[..])
        invariant forall j :: 0 <= j < i ==> !(proc[j].pid == pid && !proc[j].state.Unused?)
      {
        if proc[i].pid == pid && !proc[i].state.Unused? {
          proc[i] := proc[i].(timeslice := quantum, used := 0);
          return true, i;
        }
      }
      return false, 0;
    }

    /** allocproc's critical section: the first unused slot becomes an embryo with a fresh pid. */
    method AllocProc() returns (r: Option<nat>)
      requires Valid()
      modifies this`nextpid, proc
      ensures Valid()
      ensures r.None? ==>
        Nowhere(old(proc[..]), (p: Proc) => p.state.Unused?) && proc[..] == old(proc[..]) && nextpid == old(nextpid)
      ensures r.Some? ==>
        && First(old(proc[..]), (p: Proc) => p.state.Unused?, r.value) && nextpid == old(nextpid) + 1
        && proc[..] == old(proc[..])[r.value := Allocated(old(proc[..])[r.value], old(nextpid))]
    {
      for i := 0 to NPROC
        invariant proc[..] == old(proc[..]) && nextpid == old(nextpid)
        invariant forall j :: 0 <= j < i ==> !proc[j].state.Unused?
      {
        if proc[i].state.Unused? {
          proc[i] := proc[i].(state := Embryo, pid := nextpid);
          nextpid := nextpid + 1;
          proc[i] := proc[i].(timeslice := DEFAULT_QUANTUM, used := 0, stats := NO_STATS);
          return Some(i);
        }
      }
      return None;
    }
  }

  /** A slot during exit's loop: whether the loop has passed it and has woken init. */
  ghost function Passed(p: Proc, cur: nat, init: nat, visited: bool, woken: bool): Proc {
    var q := if visited then Adopt(p, cur, init) else p;
    if woken then Wake(q, OnProc(init)) else q
  }
}

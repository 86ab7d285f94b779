/** sleep and wakeup (proc.c), under semaphores and sleep locks. */
module Semaphores {
  // The machine has one step for each point where a spinlock is taken or released, for any number
  // of processes and any interleaving.  `lk` holds the spinlocks that protect the values: the one
  // semlock for all semaphores, or the lk of each sleep lock.  ptable.lock is handed to the scheduler
  // when a process goes to sleep and back to the process when it is dispatched.  With `mutex` set the
  // values are sleep locks: 1 is free, 0 is locked; a process may hold any number of them while it
  // takes another, and only the process that locked one releases it.

  import opened Prelude

  datatype Pc =
    | Idle
    | WaitAcquire(id: nat)    // sem_wait / acquiresleep: wants lk
    | WaitTest(id: nat)       // holds lk, at the while test
    | SleepEnter(id: nat)     // in sleep: holds lk, wants ptable.lock
    | SleepBoth(id: nat)      // in sleep: holds both locks
    | SleepCommit(id: nat)    // in sleep: lk released, holds ptable.lock, not yet SLEEPING
    | Asleep(id: nat)         // SLEEPING on the channel
    | Runnable(id: nat)       // woken, waiting to be dispatched
    | Woke(id: nat)           // back in sleep, holds ptable.lock again
    | WaitRelease(id: nat)    // value taken, holds lk
    | SignalAcquire(id: nat)  // sem_signal / releasesleep: wants lk
    | SignalAdd(id: nat)      // holds lk
    | WakeEnter(id: nat)      // in wakeup: holds lk, wants ptable.lock
    | WakeScan(id: nat)       // in wakeup: holds both
    | WakeExit(id: nat)       // table scanned, holds both
    | SignalRelease(id: nat)  // holds lk

  datatype Holder = Free | Sched | By(p: nat)

  datatype State = State(
    mutex: bool,
    procs: seq<Pc>,
    lk: seq<Option<nat>>,     // who holds each spinlock
    ptable: Holder,           // who holds ptable.lock
    value: seq<int>,
    owner: seq<Option<nat>>,  // the sleep lock's pid field
    held: seq<set<nat>>,      // the sleep locks each process has acquired and not released
    initial: seq<int>, signals: seq<nat>, waits: seq<nat>)   // counts of the past

  /** The spinlock of a value. */
  function LockOf(s: State, id: nat): nat {
    if s.mutex then id else 0
  }

  predicate Shape(s: State) {
    && |s.value| == |s.owner| == |s.initial| == |s.signals| == |s.waits| == |s.lk| && |s.held| == |s.procs|
    && forall p :: 0 <= p < |s.procs| ==> s.procs[p].Idle? || s.procs[p].id < |s.value|
  }

  predicate Init(s: State) {
    && Shape(s) && s.ptable == Free && s.value == s.initial
    && (forall p :: 0 <= p < |s.procs| ==> s.procs[p] == Idle && s.held[p] == {})
    && (forall i :: 0 <= i < |s.value| ==>
          s.lk[i] == None && s.owner[i] == None && s.signals[i] == s.waits[i] == 0 && (s.mutex ==> s.value[i] == 1))
  }

  function Goto(s: State, p: nat, pc: Pc): State
    requires p < |s.procs|
  {
    s.(procs := s.procs[p := pc])
  }

  /** wakeup1: every process asleep on the channel becomes runnable. */
  function Wakeup(procs: seq<Pc>, id: nat): (r: seq<Pc>)
    ensures |r| == |procs|
    ensures forall p :: 0 <= p < |r| ==> r[p] == if procs[p] == Asleep(id) then Runnable(id) else procs[p]
  {
    seq(|procs|, p requires 0 <= p < |procs| => if procs[p] == Asleep(id) then Runnable(id) else procs[p])
  }

  /** The process is not blocked: it can run to its next lock operation. */
  predicate CanAdvance(s: State, p: nat)
    requires Shape(s)
  {
    p < |s.procs| &&
    match s.procs[p]
    case WaitAcquire(id) => s.lk[LockOf(s, id)] == None
    case SignalAcquire(id) => s.lk[LockOf(s, id)] == None
    case SleepEnter(_) => s.ptable == Free
    case WakeEnter(_) => s.ptable == Free
    case Idle => false
    case Asleep(_) => false
    case Runnable(_) => false
    case _ => true
  }

  function SetLk(s: State, id: nat, who: Option<nat>): State
    requires id < |s.lk|
  {
    s.(lk := s.lk[LockOf(s, id) := who])
  }

  /** The value is taken; a sleep lock is then the process's own. */
  function Take(s: State, p: nat, id: nat): State
    requires Shape(s) && p < |s.procs| && id < |s.value|
  {
    s.(value := s.value[id := s.value[id] - 1], owner := s.owner[id := Some(p)],
        waits := s.waits[id := s.waits[id] + 1],
       held := if s.mutex then s.held[p := s.held[p] + {id}] else s.held)
  }

  /** The value is given back. */
  function Give(s: State, p: nat, id: nat): State
    requires Shape(s) && p < |s.procs| && id < |s.value|
  {
    s.(value := s.value[id := if s.mutex then 1 else s.value[id] + 1], owner := s.owner[id := None],
       signals := s.signals[id := s.signals[id] + 1], held := if s.mutex then s.held[p := s.held[p] - {id}] else s.held)
  }

  function Advance(s: State, p: nat): (r: State)
    requires Shape(s) && CanAdvance(s, p)
    ensures Shape(r) && |r.procs| == |s.procs| && |r.value| == |s.value| && r.mutex == s.mutex
  {
    match s.procs[p]
    case WaitAcquire(id) => SetLk(Goto(s, p, WaitTest(id)), id, Some(p))
    case WaitTest(id) => if s.value[id] <= 0 then Goto(s, p, SleepEnter(id))
        else Take(Goto(s, p, WaitRelease(id)), p, id)
    case SleepEnter(id) => Goto(s, p, SleepBoth(id)).(ptable := By(p))
    case SleepBoth(id) => SetLk(Goto(s, p, SleepCommit(id)), id, None)
    case SleepCommit(id) => Goto(s, p, Asleep(id)).(ptable := Sched)
    case Woke(id) => Goto(s, p, WaitAcquire(id)).(ptable := Free)
    case WaitRelease(id) => SetLk(Goto(s, p, Idle), id, None)
    case SignalAcquire(id) => SetLk(Goto(s, p, SignalAdd(id)), id, Some(p))
    case SignalAdd(id) => Give(Goto(s, p, WakeEnter(id)), p, id)
    case WakeEnter(id) => Goto(s, p, WakeScan(id)).(ptable := By(p))
    case WakeScan(id) => s.(procs := Wakeup(s.procs[p := WakeExit(id)], id))
    case WakeExit(id) => Goto(s, p, SignalRelease(id)).(ptable := Free)
    case SignalRelease(id) => SetLk(Goto(s, p, Idle), id, None)
  }

  datatype Action =
    | StartWait(p: nat, id: nat)
    | StartSignal(p: nat, id: nat)
    | Run(p: nat)          // a process advances
    | Dispatch(p: nat)     // a scheduler takes ptable.lock and switches to p
    | SchedRelease         // the scheduler, back from swtch, releases ptable.lock
    | Kill(p: nat)         // kill makes a sleeping process runnable

  predicate Step(s: State, a: Action, s': State) {
    Shape(s) &&
    match a
    case StartWait(p, id) => p < |s.procs| && id < |s.value| && s.procs[p].Idle? && s' == Goto(s, p, WaitAcquire(id))
    case StartSignal(p, id) =>
      && p < |s.procs| && id < |s.value|
      && s.procs[p].Idle? && (s.mutex ==> id in s.held[p]) && s' == Goto(s, p, SignalAcquire(id))
    case Run(p) => CanAdvance(s, p) && s' == Advance(s, p)
    case Dispatch(p) =>
      && p < |s.procs| && s.procs[p].Runnable? && s.ptable == Free
      && s' == Goto(s, p, Woke(s.procs[p].id)).(ptable := By(p))
    case SchedRelease => s.ptable == Sched && s' == s.(ptable := Free)
    case Kill(p) =>
      p < |s.procs| && s.procs[p].Asleep? && s.ptable == Free && s' == Goto(s, p, Runnable(s.procs[p].id))
  }

  ghost predicate Trace(tr: seq<State>) {
    tr != [] && Init(tr[0]) && forall i :: 0 <= i < |tr| - 1 ==> Next(tr[i], tr[i + 1])
  }

  ghost predicate Next(s: State, s': State) {
    exists a :: Step(s, a, s')
  }

  // ----- The invariant -----

  predicate HoldsLk(pc: Pc) {
    || pc.WaitTest? || pc.SleepEnter? || pc.SleepBoth? || pc.WaitRelease?
    || pc.SignalAdd? || pc.WakeEnter? || pc.WakeScan? || pc.WakeExit? || pc.SignalRelease?
  }

  predicate HoldsPtable(pc: Pc) {
    pc.SleepBoth? || pc.SleepCommit? || pc.Woke? || pc.WakeScan? || pc.WakeExit?
  }

  /** Asleep, or past the point of no return in sleep. */
  predicate Sleeper(pc: Pc) {
    pc.Asleep? || pc.SleepCommit?
  }

  /** Has added to the value and has not yet scanned the table for sleepers. */
  predicate WakePending(pc: Pc, id: nat) {
    pc == WakeEnter(id) || pc == WakeScan(id)
  }

  predicate ProcOk(s: State, p: nat)
    requires Shape(s) && p < |s.procs|
  {
    var pc := s.procs[p];
    && (HoldsLk(pc) ==> s.lk[LockOf(s, pc.id)] == Some(p))
    && (HoldsPtable(pc) <==> s.ptable == By(p))
    && (pc.SleepEnter? || pc.SleepBoth? ==> s.value[pc.id] <= 0)
    && (s.mutex && (pc.SignalAcquire? || pc.SignalAdd?) ==> pc.id in s.held[p])
    && (Sleeper(pc) && s.value[pc.id] > 0 ==> SignallerAt(s, pc.id))
  }

  /** A process holds the lock of the value, before its scan of the table. */
  predicate SignallerAt(s: State, id: nat)
    requires Shape(s) && id < |s.value|
  {
    var l := LockOf(s, id);
    s.lk[l].Some? && s.lk[l].value < |s.procs| && WakePending(s.procs[s.lk[l].value], id)
  }

  /** Lock l is held by a process that is inside a call on one of its values. */
  predicate LockOk(s: State, l: nat)
    requires Shape(s) && l < |s.lk|
  {
    s.lk[l].Some? ==>
      var p := s.lk[l].value;
      p < |s.procs| && HoldsLk(s.procs[p]) && LockOf(s, s.procs[p].id) == l
  }

  /** A sleep lock belongs to the process that has acquired it. */
  predicate HeldOk(s: State, p: nat, id: nat)
    requires Shape(s) && p < |s.procs| && id < |s.value|
  {
    s.mutex ==> (id in s.held[p] <==> s.owner[id] == Some(p))
  }

  ghost predicate ValueOk(s: State, id: nat)
    requires Shape(s) && id < |s.value|
  {
    && s.value[id] == s.initial[id] + s.signals[id] - s.waits[id]
    && s.value[id] >= (if s.initial[id] < 0 then s.initial[id] else 0)
    && (s.mutex ==> s.value[id] == if s.owner[id].Some? then 0 else 1)
    && (s.mutex && s.owner[id].Some? ==> s.owner[id].value < |s.procs|)
    && (forall p :: 0 <= p < |s.procs| ==> HeldOk(s, p, id))
  }

  ghost predicate Inv(s: State) {
    && Shape(s) && (s.ptable.By? ==> s.ptable.p < |s.procs|)
    && (forall p :: 0 <= p < |s.procs| ==> ProcOk(s, p))
    && (forall l :: 0 <= l < |s.lk| ==> LockOk(s, l))
    && (forall id :: 0 <= id < |s.value| ==> ValueOk(s, id))
  }

  /** What a step of p can do that others notice: its own lock, its own value and ptable.lock change,
      sleepers wake, and a value grows only before the scan for them. */
  ghost predicate Effect(s: State, p: nat, s': State)
    requires Shape(s) && p < |s.procs| && !s.procs[p].Idle?
  {
    var id := s.procs[p].id;
    var l := LockOf(s, id);
    && Shape(s') && |s'.procs| == |s.procs| && |s'.value| == |s.value| && s'.mutex == s.mutex
    && (forall q :: 0 <= q < |s.procs| && q != p ==>
          && s'.held[q] == s.held[q]
          && (s'.procs[q] == s.procs[q]
              || (s.procs[p] == WakeScan(id) && s.procs[q] == Asleep(id) && s'.procs[q] == Runnable(id))))
    && (forall k :: 0 <= k < |s.lk| && k != l ==> s'.lk[k] == s.lk[k])
    && (s'.lk[l] == s.lk[l] || (s.lk[l] == None && s'.lk[l] == Some(p)) || (HoldsLk(s.procs[p]) && s'.lk[l] == None))
    && (s'.ptable == s.ptable || (s.ptable == Free && s'.ptable == By(p))
        || (HoldsPtable(s.procs[p]) && !s'.ptable.By?))
    && (forall x :: 0 <= x < |s.value| && x != id ==> s'.value[x] == s.value[x])
    && (s'.value[id] <= s.value[id] || (s.procs[p] == SignalAdd(id) && s'.procs[p] == WakeEnter(id) && s'.lk == s.lk))
  }

  lemma AdvanceEffect(s: State, p: nat)
    requires Inv(s) && CanAdvance(s, p)
    ensures !s.procs[p].Idle? && Effect(s, p, Advance(s, p))
  {
    hide Wakeup, ValueOk, LockOk, Shape;
    Busy(s, p);
    assert ProcOk(s, p);
  }

  /** Another process keeps what is known of it.  If a value it sleeps on is positive, the signaller is
      still there, unless it has just woken the sleeper. */
  lemma OtherProc(s: State, p: nat, s': State, q: nat)
    requires Inv(s) && p < |s.procs| && !s.procs[p].Idle? && Effect(s, p, s') && q < |s.procs| && q != p
    requires SignallerLeaves(s, p, s')
    ensures ProcOk(s', q)
  {
    hide ValueOk;
    assert ProcOk(s, q) && ProcOk(s, p) && LockOk(s, LockOf(s, s.procs[p].id));
    if !s.procs[q].Idle? { assert LockOk(s, LockOf(s, s.procs[q].id)); }
  }

  /** p stays a signaller before its scan until the scan, which leaves nobody asleep; and who is about to sleep holds
      ptable.lock, so not during a scan. */
  ghost predicate SignallerLeaves(s: State, p: nat, s': State)
    requires Shape(s) && Shape(s') && |s'.procs| == |s.procs| && p < |s.procs| && !s.procs[p].Idle?
  {
    var id := s.procs[p].id;
    WakePending(s.procs[p], id) ==>
      && s'.lk == s.lk && s'.value == s.value
      && (WakePending(s'.procs[p], id)
          || (forall q :: 0 <= q < |s.procs| ==> s'.procs[q] != Asleep(id) && s'.procs[q] != SleepCommit(id)))
  }

  lemma AdvanceSignaller(s: State, p: nat)
    requires Inv(s) && CanAdvance(s, p)
    ensures !s.procs[p].Idle? && SignallerLeaves(s, p, Advance(s, p))
  {
    hide ValueOk, LockOk;
    var s' := Advance(s, p);
    assert ProcOk(s, p);
    forall q | 0 <= q < |s.procs| ensures s.procs[p].WakeScan? ==> !s.procs[q].SleepCommit? { assert ProcOk(s, q); }
  }

  lemma OwnProc(s: State, p: nat)
    requires Inv(s) && CanAdvance(s, p)
    ensures ProcOk(Advance(s, p), p)
  {
    hide Wakeup, ValueOk, LockOk, Shape;
    Busy(s, p);
    assert ProcOk(s, p);
  }

  lemma AdvanceProc(s: State, p: nat, q: nat)
    requires Inv(s) && CanAdvance(s, p) && q < |s.procs|
    ensures ProcOk(Advance(s, p), q)
  {
    hide Advance, ProcOk, Effect, SignallerLeaves, LockOk, ValueOk, CanAdvance;
    Busy(s, p);
    if q == p {
      OwnProc(s, p);
    } else {
      AdvanceEffect(s, p);
      AdvanceSignaller(s, p);
      OtherProc(s, p, Advance(s, p), q);
    }
  }

  /** The lock of p's value is free, or p has it, or nothing about it has changed. */
  lemma AdvanceLock(s: State, p: nat, l: nat)
    requires Inv(s) && CanAdvance(s, p) && l < |s.lk|
    ensures LockOk(Advance(s, p), l)
  {
    hide ValueOk, Advance, SignallerLeaves;
    AdvanceEffect(s, p);
    var s' := Advance(s, p);
    assert ProcOk(s, p) && LockOk(s, l);
    AdvanceHolds(s, p);
  }

  /** p holds its lock after the step exactly when it is recorded. */
  lemma AdvanceHolds(s: State, p: nat)
    requires Inv(s) && CanAdvance(s, p)
    ensures var s', id := Advance(s, p), s.procs[p].id;
      && LockOf(s, id) < |s'.lk| && (s'.lk[LockOf(s, id)] == Some(p) <==> HoldsLk(s'.procs[p]))
      && (!s'.procs[p].Idle? ==> s'.procs[p].id == id)
  {
    hide Wakeup, ValueOk, Shape;
    Busy(s, p);
    assert ProcOk(s, p) && LockOk(s, LockOf(s, s.procs[p].id));
  }

  lemma AdvanceValue(s: State, p: nat, id: nat)
    requires Inv(s) && CanAdvance(s, p) && id < |s.value|
    ensures ValueOk(Advance(s, p), id)
  {
    hide Advance, ProcOk, LockOk, ValueOk, CanAdvance;
    Busy(s, p);
    if s.procs[p].WaitTest? || s.procs[p].SignalAdd? { ValueMoves(s, p, id); } else { ValueStays(s, p, id); }
  }

  lemma ValueMoves(s: State, p: nat, id: nat)
    requires Inv(s) && CanAdvance(s, p) && id < |s.value| && (s.procs[p].WaitTest? || s.procs[p].SignalAdd?)
    ensures ValueOk(Advance(s, p), id)
  {
    hide LockOk;
    assert ProcOk(s, p) && ValueOk(s, id) && HeldOk(s, p, id);
    var s' := Advance(s, p);
    forall q | 0 <= q < |s'.procs| ensures HeldOk(s', q, id) { assert HeldOk(s, q, id); }
  }

  lemma ValueStays(s: State, p: nat, id: nat)
    requires Inv(s) && CanAdvance(s, p) && id < |s.value| && !s.procs[p].WaitTest? && !s.procs[p].SignalAdd?
    ensures ValueOk(Advance(s, p), id)
  {
    hide LockOk, ProcOk, Advance, ValueOk;
    SameValues(s, p);
    OtherValue(s, Advance(s, p), id);
  }

  lemma SameValues(s: State, p: nat)
    requires Shape(s) && CanAdvance(s, p) && !s.procs[p].WaitTest? && !s.procs[p].SignalAdd?
    ensures var s' := Advance(s, p);
      && s'.value == s.value && s'.owner == s.owner && s'.held == s.held
      && s'.initial == s.initial && s'.signals == s.signals && s'.waits == s.waits
  {
    hide Shape;
  }

  lemma Busy(s: State, p: nat)
    requires Shape(s) && CanAdvance(s, p)
    ensures p < |s.procs| && !s.procs[p].Idle? && s.procs[p].id < |s.value| && Sizes(s) && Sizes(Advance(s, p))
  {
  }

  /** The lengths that Shape fixes. */
  predicate Sizes(s: State) {
    |s.value| == |s.owner| == |s.initial| == |s.signals| == |s.waits| == |s.lk| && |s.held| == |s.procs|
  }

  lemma AdvanceInv(s: State, p: nat)
    requires Inv(s) && CanAdvance(s, p)
    ensures Inv(Advance(s, p))
  {
    hide ProcOk, LockOk, ValueOk, Advance, CanAdvance, Effect;
    var s' := Advance(s, p);
    forall q | 0 <= q < |s'.procs| ensures ProcOk(s', q) { AdvanceProc(s, p, q); }
    forall l | 0 <= l < |s'.lk| ensures LockOk(s', l) { AdvanceLock(s, p, l); }
    forall id | 0 <= id < |s'.value| ensures ValueOk(s', id) { AdvanceValue(s, p, id); }
    AdvanceTable(s, p);
  }

  lemma AdvanceTable(s: State, p: nat)
    requires Inv(s) && CanAdvance(s, p)
    ensures Advance(s, p).ptable.By? ==> Advance(s, p).ptable.p < |s.procs|
  {
    hide Advance, LockOk, ValueOk, ProcOk;
    AdvanceEffect(s, p);
  }

  /** The other steps change no lock but ptable.lock and no value. */
  lemma OtherStepInv(s: State, a: Action, s': State)
    requires Inv(s) && Step(s, a, s') && !a.Run?
    ensures Inv(s')
  {
    hide Advance, CanAdvance, ValueOk, ProcOk;
    forall q | 0 <= q < |s'.procs| ensures ProcOk(s', q) { OtherStepProc(s, a, s', q); }
    forall l | 0 <= l < |s'.lk| ensures LockOk(s', l) { assert LockOk(s, l); }
    forall id | 0 <= id < |s'.value| ensures ValueOk(s', id) { OtherValue(s, s', id); }
  }

  lemma OtherStepProc(s: State, a: Action, s': State, q: nat)
    requires Inv(s) && Step(s, a, s') && !a.Run? && q < |s'.procs|
    ensures Shape(s') && ProcOk(s', q)
  {
    hide Advance, CanAdvance, ValueOk, LockOk, ProcOk;
    assert ProcOk(s, q);
    if !a.SchedRelease? && a.p == q { OwnStepProc(s, a, s'); } else { BystanderProc(s, a, s', q); }
  }

  lemma OwnStepProc(s: State, a: Action, s': State)
    requires Step(s, a, s') && !a.Run? && !a.SchedRelease? && ProcOk(s, a.p)
    ensures a.p < |s'.procs| && Shape(s') && ProcOk(s', a.p)
  {
    hide Advance, CanAdvance;
  }

  lemma BystanderProc(s: State, a: Action, s': State, q: nat)
    requires Step(s, a, s') && !a.Run? && q < |s.procs| && (!a.SchedRelease? ==> a.p != q) && ProcOk(s, q)
    ensures q < |s'.procs| && Shape(s') && ProcOk(s', q)
  {
    hide Advance, CanAdvance;
  }

  lemma OtherValue(s: State, s': State, id: nat)
    requires Shape(s) && Shape(s') && id < |s.value| && ValueOk(s, id) && |s'.procs| == |s.procs| && s'.mutex == s.mutex
    requires s'.value == s.value && s'.owner == s.owner && s'.held == s.held
    requires s'.initial == s.initial && s'.signals == s.signals && s'.waits == s.waits
    ensures ValueOk(s', id)
  {
    forall q | 0 <= q < |s'.procs| ensures HeldOk(s', q, id) { assert HeldOk(s, q, id); }
  }

  lemma StepInv(s: State, a: Action, s': State)
    requires Inv(s) && Step(s, a, s')
    ensures Inv(s')
  {
    hide Inv, Advance;
    if a.Run? { AdvanceInv(s, a.p); } else { OtherStepInv(s, a, s'); }
  }

  lemma {:induction false} TraceInv(tr: seq<State>, i: nat)
    requires Trace(tr) && i < |tr|
    ensures Inv(tr[i])
  {
    if i > 0 {
      TraceInv(tr, i - 1);
      var a :| Step(tr[i - 1], a, tr[i]);
      StepInv(tr[i - 1], a, tr[i]);
    }
  }

  /** In every interleaving: while a value is positive and a process sleeps on it, or is committed
      to sleeping, a signaller holds the lock with its wakeup still to come. */
  lemma NoWakeupIsLost(tr: seq<State>, i: nat, p: nat, id: nat)
    requires Trace(tr) && i < |tr| && p < |tr[i].procs| && id < |tr[i].value|
    requires tr[i].value[id] > 0 && !tr[i].procs[p].Idle? && tr[i].procs[p].id == id
    ensures Shape(tr[i]) && !tr[i].procs[p].SleepEnter? && !tr[i].procs[p].SleepBoth?
    ensures Sleeper(tr[i].procs[p]) ==>
      exists q: nat :: q < |tr[i].procs| && tr[i].lk[LockOf(tr[i], id)] == Some(q) && WakePending(tr[i].procs[q], id)
  {
    TraceInv(tr, i);
    assert ProcOk(tr[i], p);
  }

  /** Conservation: a value is its initial value plus signals minus completed waits, and it never
      falls below zero unless it started there. */
  lemma ValuesAreConserved(tr: seq<State>, i: nat, id: nat)
    requires Trace(tr) && i < |tr| && id < |tr[i].value|
    ensures Shape(tr[i]) && tr[i].value[id] == tr[i].initial[id] + tr[i].signals[id] - tr[i].waits[id]
    ensures tr[i].value[id] >= 0 || tr[i].value[id] >= tr[i].initial[id]
  {
    TraceInv(tr, i);
    assert ValueOk(tr[i], id);
  }

  /** At most one process has a sleep lock, whatever others it has; and one that has it finds it locked. */
  lemma SleepLockExcludes(tr: seq<State>, i: nat, p: nat, q: nat, id: nat)
    requires Trace(tr) && i < |tr| && tr[i].mutex && p < |tr[i].procs| && q < |tr[i].procs| && id < |tr[i].value|
    ensures Shape(tr[i]) && (id in tr[i].held[p] && id in tr[i].held[q] ==> p == q)
    ensures id in tr[i].held[p] ==> tr[i].value[id] == 0
  {
    TraceInv(tr, i);
    assert ValueOk(tr[i], id) && HeldOk(tr[i], p, id) && HeldOk(tr[i], q, id);
  }

  // ----- Every call takes or gives exactly once -----

  ghost predicate Acts(tr: seq<State>, acts: seq<Action>) {
    Trace(tr) && |tr| == |acts| + 1 && forall i :: 0 <= i < |acts| ==> Step(tr[i], acts[i], tr[i + 1])
  }

  lemma {:induction false} TraceActs(tr: seq<State>) returns (acts: seq<Action>)
    requires Trace(tr)
    ensures Acts(tr, acts)
  {
    hide Step, Init;
    if |tr| == 1 {
      acts := [];
    } else {
      var n := |tr| - 1;
      assert Next(tr[n - 1], tr[n]);
      var a :| Step(tr[n - 1], a, tr[n]);
      acts := TraceActs(tr[..n]);
      acts := acts + [a];
    }
  }

  /** Inside sem_wait or acquiresleep, and the value is not yet taken. */
  predicate Waiting(pc: Pc, id: nat) {
    || pc == WaitAcquire(id) || pc == WaitTest(id) || pc == SleepEnter(id) || pc == SleepBoth(id)
    || pc == SleepCommit(id) || pc == Asleep(id) || pc == Runnable(id) || pc == Woke(id)
  }

  /** Inside sem_signal or releasesleep, and the value is not yet given back. */
  predicate Signalling(pc: Pc, id: nat) {
    pc == SignalAcquire(id) || pc == SignalAdd(id)
  }

  function WaitCalls(acts: seq<Action>, id: nat): nat {
    if acts == [] then 0
    else
      var n := |acts| - 1;
      WaitCalls(acts[..n], id) + if acts[n].StartWait? && acts[n].id == id then 1 else 0
  }

  function SignalCalls(acts: seq<Action>, id: nat): nat {
    if acts == [] then 0
    else
      var n := |acts| - 1;
      SignalCalls(acts[..n], id) + if acts[n].StartSignal? && acts[n].id == id then 1 else 0
  }

  function CountWaiting(procs: seq<Pc>, id: nat): nat {
    if procs == [] then 0 else (if Waiting(procs[0], id) then 1 else 0) + CountWaiting(procs[1..], id)
  }

  function CountSignalling(procs: seq<Pc>, id: nat): nat {
    if procs == [] then 0 else (if Signalling(procs[0], id) then 1 else 0) + CountSignalling(procs[1..], id)
  }

  /** Only p's part in a call on id changes. */
  ghost predicate OthersSame(procs: seq<Pc>, procs': seq<Pc>, p: nat, id: nat) {
    && |procs'| == |procs|
    && forall q :: 0 <= q < |procs| && q != p ==>
         Waiting(procs'[q], id) == Waiting(procs[q], id) && Signalling(procs'[q], id) == Signalling(procs[q], id)
  }

  lemma {:induction false} CountsMove(procs: seq<Pc>, procs': seq<Pc>, p: nat, id: nat)
    requires OthersSame(procs, procs', p, id)
    ensures p < |procs| ==>
      && CountWaiting(procs', id) == CountWaiting(procs, id)
         - (if Waiting(procs[p], id) then 1 else 0) + (if Waiting(procs'[p], id) then 1 else 0)
      && CountSignalling(procs', id) == CountSignalling(procs, id)
         - (if Signalling(procs[p], id) then 1 else 0) + (if Signalling(procs'[p], id) then 1 else 0)
    ensures p >= |procs| ==>
      CountWaiting(procs', id) == CountWaiting(procs, id) && CountSignalling(procs', id) == CountSignalling(procs, id)
  {
    hide Waiting, Signalling;
    if procs != [] {
      CountsMove(procs[1..], procs'[1..], if p == 0 then |procs| else p - 1, id);
    }
  }

  function Actor(s: State, a: Action): nat {
    match a
    case SchedRelease => |s.procs|
    case StartWait(p, _) => p
    case StartSignal(p, _) => p
    case Run(p) => p
    case Dispatch(p) => p
    case Kill(p) => p
  }

  /** A call on id leaves the count of those under way exactly when it adds to the count of those carried out. */
  ghost predicate Moves(s: State, s': State, p: nat, id: nat, waits: nat, signals: nat)
    requires p < |s.procs| == |s'.procs| && id < |s.waits| == |s'.waits| == |s.signals| == |s'.signals|
  {
    && s.waits[id] + waits + (if Waiting(s.procs[p], id) then 1 else 0)
       == s'.waits[id] + (if Waiting(s'.procs[p], id) then 1 else 0)
    && s.signals[id] + signals + (if Signalling(s.procs[p], id) then 1 else 0)
       == s'.signals[id] + (if Signalling(s'.procs[p], id) then 1 else 0)
  }

  lemma AdvanceMoves(s: State, p: nat, id: nat)
    requires Shape(s) && CanAdvance(s, p) && id < |s.value|
    ensures Sizes(s) && Sizes(Advance(s, p)) && p < |s.procs| == |Advance(s, p).procs|
    ensures |Advance(s, p).waits| == |s.waits| && Moves(s, Advance(s, p), p, id, 0, 0)
  {
    hide Wakeup, Shape;
    Busy(s, p);
  }

  lemma AdvanceOthers(s: State, p: nat, id: nat)
    requires Shape(s) && CanAdvance(s, p)
    ensures OthersSame(s.procs, Advance(s, p).procs, p, id)
  {
    hide Shape;
    Busy(s, p);
  }

  lemma OtherMoves(s: State, a: Action, s': State, id: nat)
    requires Step(s, a, s') && id < |s.value| && !a.Run? && !a.SchedRelease?
    ensures Sizes(s) && Sizes(s') && Actor(s, a) < |s.procs| == |s'.procs| && |s'.waits| == |s.waits|
    ensures OthersSame(s.procs, s'.procs, Actor(s, a), id)
    ensures Moves(s, s', Actor(s, a), id, if a.StartWait? && a.id == id then 1 else 0,
                  if a.StartSignal? && a.id == id then 1 else 0)
  {
    hide Advance, CanAdvance;
  }

  /** In every interleaving, the calls of sem_wait on a value so far are the values taken and the processes
      still waiting for theirs, so a call that has returned has taken exactly one; and likewise for sem_signal. */
  lemma {:induction false} CallsAreCounted(tr: seq<State>, acts: seq<Action>, id: nat)
    requires Acts(tr, acts) && id < |tr[|acts|].value|
    ensures Shape(tr[|acts|])
    ensures WaitCalls(acts, id) == tr[|acts|].waits[id] + CountWaiting(tr[|acts|].procs, id)
    ensures SignalCalls(acts, id) == tr[|acts|].signals[id] + CountSignalling(tr[|acts|].procs, id)
  {
    hide Step, Waiting, Signalling;
    TraceInv(tr, |acts|);
    if acts == [] {
      NoneCounted(tr[0].procs, id);
    } else {
      var n := |acts| - 1;
      var s, s' := tr[n], tr[n + 1];
      Prefix(tr, acts);
      StepShape(s, acts[n], s');
      CallsAreCounted(tr[..n + 1], acts[..n], id);
      StepMoves(s, acts[n], s', id);
      if !acts[n].SchedRelease? { CountsMove(s.procs, s'.procs, Actor(s, acts[n]), id); }
    }
  }

  lemma StepMoves(s: State, a: Action, s': State, id: nat)
    requires Step(s, a, s') && id < |s.value|
    ensures Sizes(s) && Sizes(s') && |s'.procs| == |s.procs| && |s'.waits| == |s.waits|
    ensures a.SchedRelease? ==> s'.procs == s.procs && s'.waits == s.waits && s'.signals == s.signals
    ensures !a.SchedRelease? ==>
      && Actor(s, a) < |s.procs| && OthersSame(s.procs, s'.procs, Actor(s, a), id)
      && Moves(s, s', Actor(s, a), id, if a.StartWait? && a.id == id then 1 else 0,
               if a.StartSignal? && a.id == id then 1 else 0)
  {
    hide Advance, CanAdvance, Moves;
    if a.Run? {
      AdvanceMoves(s, a.p, id);
      AdvanceOthers(s, a.p, id);
    } else if !a.SchedRelease? {
      OtherMoves(s, a, s', id);
    }
  }

  lemma StepShape(s: State, a: Action, s': State)
    requires Step(s, a, s')
    ensures Shape(s) && Shape(s') && |s'.value| == |s.value| && |s'.procs| == |s.procs| && s'.mutex == s.mutex
  {
  }

  lemma Prefix(tr: seq<State>, acts: seq<Action>)
    requires Acts(tr, acts) && acts != []
    ensures var n := |acts| - 1; Acts(tr[..n + 1], acts[..n]) && tr[..n + 1][n] == tr[n]
  {
    hide Step, Init;
  }

  lemma {:induction false} NoneCounted(procs: seq<Pc>, id: nat)
    requires forall p :: 0 <= p < |procs| ==> procs[p] == Idle
    ensures CountWaiting(procs, id) == 0 && CountSignalling(procs, id) == 0
  {
    if procs != [] { NoneCounted(procs[1..], id); }
  }

  // ----- Who has a sleep lock -----

  /** The last call that p made on id was acquiresleep. */
  predicate LastAcquired(acts: seq<Action>, p: nat, id: nat) {
    acts != [] &&
    var a := acts[|acts| - 1];
    a == StartWait(p, id) || (a != StartSignal(p, id) && LastAcquired(acts[..|acts| - 1], p, id))
  }

  /** A process that is not inside acquiresleep has the lock exactly when its last call for it was acquiresleep, or when
      it is in releasesleep and has not yet given it back.  So acquiresleep returns with the lock, and releasesleep
      without. */
  lemma {:induction false} AcquiredMeansHeld(tr: seq<State>, acts: seq<Action>, p: nat, id: nat)
    requires Acts(tr, acts) && tr[|acts|].mutex && p < |tr[|acts|].procs| && id < |tr[|acts|].value|
    ensures Shape(tr[|acts|])
    ensures var s := tr[|acts|];
      && (Waiting(s.procs[p], id) ==> LastAcquired(acts, p, id))
      && (Signalling(s.procs[p], id) ==> !LastAcquired(acts, p, id))
      && (!Waiting(s.procs[p], id) ==> (id in s.held[p] <==> LastAcquired(acts, p, id) || Signalling(s.procs[p], id)))
  {
    hide Step, Waiting, Signalling;
    TraceInv(tr, |acts|);
    if acts == [] {
      assert tr[0].procs[p] == Idle;
      IdleCalls(id);
    } else {
      var n := |acts| - 1;
      Prefix(tr, acts);
      StepShape(tr[n], acts[n], tr[n + 1]);
      AcquiredMeansHeld(tr[..n + 1], acts[..n], p, id);
      TraceInv(tr, n);
      StepHeld(tr[n], acts[n], tr[n + 1], p, id);
    }
  }

  lemma IdleCalls(id: nat)
    ensures !Waiting(Idle, id) && !Signalling(Idle, id)
  {
  }

  /** How a step of any process moves p's calls on id and what p has. */
  ghost predicate HeldMoves(s: State, s': State, p: nat, id: nat)
    requires p < |s.procs| == |s'.procs| && |s.held| == |s.procs| == |s'.held|
  {
    var pc, pc' := s.procs[p], s'.procs[p];
    && (Waiting(pc', id) ==> Waiting(pc, id)) && (Signalling(pc', id) ==> Signalling(pc, id))
    && if Waiting(pc, id) && !Waiting(pc', id) then id in s'.held[p] && !Signalling(pc, id)
       else if Signalling(pc, id) && !Signalling(pc', id) then id !in s'.held[p]
       else id in s'.held[p] <==> id in s.held[p]
  }

  lemma StepHeld(s: State, a: Action, s': State, p: nat, id: nat)
    requires Inv(s) && Step(s, a, s') && s.mutex && p < |s.procs| && id < |s.value|
    ensures |s'.procs| == |s'.held| == |s.procs| == |s.held|
    ensures if a == StartWait(p, id) then Waiting(s'.procs[p], id) && !Signalling(s'.procs[p], id)
            else if a == StartSignal(p, id) then
              Signalling(s'.procs[p], id) && !Waiting(s'.procs[p], id) && id in s'.held[p]
            else HeldMoves(s, s', p, id)
  {
    hide Inv, Advance, CanAdvance, Effect;
    if a.Run? {
      Busy(s, a.p);
      AdvanceOthers(s, a.p, id);
      if a.p == p { OwnHeld(s, p, id); } else { OtherHeld(s, a.p, p); }
    }
  }

  lemma OtherHeld(s: State, p: nat, q: nat)
    requires Inv(s) && CanAdvance(s, p) && q < |s.procs| && q != p
    ensures |Advance(s, p).held| == |s.held| && Advance(s, p).held[q] == s.held[q]
  {
    hide Advance, ProcOk, LockOk, ValueOk;
    AdvanceEffect(s, p);
  }

  lemma OwnHeld(s: State, p: nat, id: nat)
    requires Shape(s) && CanAdvance(s, p) && s.mutex && id < |s.value|
    ensures |Advance(s, p).procs| == |Advance(s, p).held| == |s.procs| == |s.held| && HeldMoves(s, Advance(s, p), p, id)
  {
    hide Wakeup, Shape;
    Busy(s, p);
  }

  /** Nothing is left to run except new calls. */
  ghost predicate Quiescent(s: State)
    requires Shape(s)
  {
    && (forall p: nat :: !CanAdvance(s, p))
    && s.ptable != Sched
    && (forall p :: 0 <= p < |s.procs| && s.ptable == Free ==> !s.procs[p].Runnable?)
  }

  /** The system never gets stuck: when no process can run, every one of them is between calls or sleeps
      on a value that is not positive; a sleep lock slept on is held by some process. */
  lemma QuiescentMeansWaiting(tr: seq<State>, i: nat, p: nat)
    requires Trace(tr) && i < |tr| && p < |tr[i].procs| && Shape(tr[i]) && Quiescent(tr[i])
    ensures tr[i].procs[p].Idle? || (tr[i].procs[p].Asleep? && tr[i].value[tr[i].procs[p].id] <= 0)
    ensures tr[i].mutex && tr[i].procs[p].Asleep? ==>
      exists q: nat :: q < |tr[i].procs| && tr[i].procs[p].id in tr[i].held[q]
  {
    TraceInv(tr, i);
    var s := tr[i];
    if s.ptable.By? { assert ProcOk(s, s.ptable.p) && CanAdvance(s, s.ptable.p); }
    assert ProcOk(s, p) && !CanAdvance(s, p);
    if !s.procs[p].Idle? {
      var id := s.procs[p].id;
      var l := LockOf(s, id);
      assert LockOk(s, l);
      if s.lk[l].Some? { assert ProcOk(s, s.lk[l].value) && CanAdvance(s, s.lk[l].value); }
      assert ValueOk(s, id);
      if s.mutex && s.owner[id].Some? { assert HeldOk(s, s.owner[id].value, id); }
    }
  }
}

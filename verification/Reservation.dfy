/** Log space reservation: begin_op, end_op and log_write of log.c. */
module Reservation {
  // The steps are the critical sections of log.lock, taken in any order by any number of processes.
  // `limit` is the number of distinct blocks one operation may log.  The kernel's documented limit is
  // MAXOPBLOCKS = 10; the theorem at the end says which limits are really safe.

  import opened Journal

  const MAXOPBLOCKS: nat := 10

  /** What a process is doing.  `wrote` is the set of blocks its operation has logged so far and
      `added` how many of them were new to the header; Checked is log_write between its
      unlocked size check and taking log.lock. */
  datatype Pc =
    | Idle
    | Asleep                                     // on &log, inside begin_op
    | Woken                                      // will try begin_op's loop again
    | InOp(wrote: set<nat>, added: nat)
    | Checked(wrote: set<nat>, added: nat)
    | Committing                                 // in commit(), header not yet cleared
    | Committed                                  // commit() done, committing still set

  datatype State = State(procs: seq<Pc>, lh: seq<nat>, outstanding: int, committing: bool, panicked: bool)

  predicate Outstanding(pc: Pc) {
    pc.InOp? || pc.Checked?
  }

  predicate Init(s: State) {
    && (forall p :: 0 <= p < |s.procs| ==> s.procs[p] == Idle)
    && s.lh == [] && s.outstanding == 0 && !s.committing && !s.panicked
  }

  function SetPc(s: State, p: nat, pc: Pc): State
    requires p < |s.procs|
  {
    s.(procs := s.procs[p := pc])
  }

  /** wakeup(&log) */
  function Wake(procs: seq<Pc>): (r: seq<Pc>)
    ensures |r| == |procs|
    ensures forall p :: 0 <= p < |procs| ==> r[p] == if procs[p].Asleep? then Woken else procs[p]
  {
    seq(|procs|, p requires 0 <= p < |procs| => if procs[p].Asleep? then Woken else procs[p])
  }

  predicate MustWait(s: State) {
    s.committing || |s.lh| + (s.outstanding + 1) * MAXOPBLOCKS > LOGSIZE
  }

  predicate BeginOp(s: State, s': State, p: nat)
    requires p < |s.procs|
  {
    && (s.procs[p].Idle? || s.procs[p].Woken?)
    && s' == if MustWait(s) then SetPc(s, p, Asleep)
             else SetPc(s, p, InOp({}, 0)).(outstanding := s.outstanding + 1)
  }

  predicate LogCheck(s: State, s': State, p: nat)
    requires p < |s.procs|
  {
    && s.procs[p].InOp?
    && s' == if |s.lh| >= LOGSIZE || |s.lh| >= NLOG - 1 || s.outstanding < 1 then s.(panicked := true)
             else SetPc(s, p, Checked(s.procs[p].wrote, s.procs[p].added))
  }

  /** log_write of block b under the lock: absorbed if the header already lists it. */
  ghost predicate LogAdd(limit: nat, s: State, s': State, p: nat, b: nat)
    requires p < |s.procs|
  {
    && s.procs[p].Checked? && |s.procs[p].wrote + {b}| <= limit
    && var wrote := s.procs[p].wrote + {b};
       s' == if b in s.lh then SetPc(s, p, InOp(wrote, s.procs[p].added))
             else SetPc(s, p, InOp(wrote, s.procs[p].added + 1)).(lh := s.lh + [b])
  }

  predicate EndOp(s: State, s': State, p: nat)
    requires p < |s.procs|
  {
    && s.procs[p].InOp?
    && var t := s.(outstanding := s.outstanding - 1);
       s' == if t.committing then t.(panicked := true)
             else if t.outstanding == 0 then SetPc(t, p, Committing).(committing := true)
             else SetPc(t, p, Idle).(procs := Wake(t.procs[p := Idle]))
  }

  predicate CommitClear(s: State, s': State, p: nat)
    requires p < |s.procs|
  {
    s.procs[p].Committing? && s' == SetPc(s, p, Committed).(lh := [])
  }

  predicate CommitDone(s: State, s': State, p: nat)
    requires p < |s.procs|
  {
    s.procs[p].Committed? && s' == s.(committing := false, procs := Wake(s.procs[p := Idle]))
  }

  /** kill makes a sleeper in begin_op runnable; it tries again like one that was woken. */
  predicate KillWake(s: State, s': State, p: nat)
    requires p < |s.procs|
  {
    s.procs[p].Asleep? && s' == SetPc(s, p, Woken)
  }

  ghost predicate Next(limit: nat, s: State, s': State) {
    !s.panicked && exists p: nat :: p < |s.procs| && Step(limit, s, s', p)
  }

  ghost predicate Step(limit: nat, s: State, s': State, p: nat)
    requires p < |s.procs|
  {
    || BeginOp(s, s', p) || LogCheck(s, s', p) || (exists b: nat :: LogAdd(limit, s, s', p, b))
    || EndOp(s, s', p) || CommitClear(s, s', p) || CommitDone(s, s', p) || KillWake(s, s', p)
  }

  ghost predicate Run(limit: nat, tr: seq<State>) {
    tr != [] && Init(tr[0]) && forall i :: 0 <= i < |tr| - 1 ==> Next(limit, tr[i], tr[i + 1])
  }

  // ----- The invariant -----

  ghost function Sum(procs: seq<Pc>, f: Pc -> int): int {
    if procs == [] then 0 else f(procs[0]) + Sum(procs[1..], f)
  }

  lemma {:induction false} SumUpdate(procs: seq<Pc>, f: Pc -> int, p: nat, pc: Pc)
    requires p < |procs|
    ensures Sum(procs[p := pc], f) == Sum(procs, f) - f(procs[p]) + f(pc)
  {
    if p > 0 {
      assert procs[p := pc][1..] == procs[1..][p - 1 := pc];
      SumUpdate(procs[1..], f, p - 1, pc);
    } else {
      assert procs[p := pc][1..] == procs[1..];
    }
  }

  lemma {:induction false} SumWake(procs: seq<Pc>, f: Pc -> int)
    requires f(Asleep) == f(Woken)
    ensures Sum(Wake(procs), f) == Sum(procs, f)
  {
    if procs != [] {
      assert Wake(procs)[1..] == Wake(procs[1..]);
      SumWake(procs[1..], f);
    }
  }

  lemma {:induction false} SumBounds(procs: seq<Pc>, p: nat)
    requires p < |procs| ==> Outstanding(procs[p])
    requires forall q :: 0 <= q < |procs| && Outstanding(procs[q]) ==> procs[q].added <= SAFE
    ensures 0 <= Sum(procs, Unused) <= SAFE * Sum(procs, Ops)
    ensures p < |procs| ==> Sum(procs, Unused) >= Unused(procs[p]) && Sum(procs, Ops) >= 1
  {
    if procs != [] {
      SumBounds(procs[1..], if p == 0 then |procs| else p - 1);
    }
  }

  const SAFE: nat := MAXOPBLOCKS - 1

  ghost function Ops(pc: Pc): int {
    if Outstanding(pc) then 1 else 0
  }

  ghost function Commits(pc: Pc): int {
    if pc.Committing? || pc.Committed? then 1 else 0
  }

  /** The log blocks an outstanding operation may still add. */
  ghost function Unused(pc: Pc): int {
    if Outstanding(pc) then SAFE - pc.added else 0
  }

  ghost predicate ProcOk(s: State, pc: Pc) {
    && (Outstanding(pc) ==> pc.added <= |pc.wrote| <= SAFE && forall b :: b in pc.wrote ==> b in s.lh)
    && (pc.Asleep? ==> MustWait(s))
    && (pc.Committed? ==> s.lh == [])
  }

  ghost predicate Inv(s: State) {
    && !s.panicked
    && s.outstanding == Sum(s.procs, Ops)
    && (if s.committing then 1 else 0) == Sum(s.procs, Commits)
    && (s.committing ==> s.outstanding == 0)
    && (!s.committing && s.outstanding == 0 ==> s.lh == [])
    && |s.lh| + Sum(s.procs, Unused) <= LOGSIZE - 2
    && (forall p :: 0 <= p < |s.procs| ==> ProcOk(s, s.procs[p]))
    && (forall i, j :: 0 <= i < j < |s.lh| ==> s.lh[i] != s.lh[j])
  }

  // ----- Every step keeps the invariant, so no run panics -----

  lemma {:induction false} AllIdle(procs: seq<Pc>, f: Pc -> int)
    requires f(Idle) == 0 && forall p :: 0 <= p < |procs| ==> procs[p] == Idle
    ensures Sum(procs, f) == 0
  {
    if procs != [] { AllIdle(procs[1..], f); }
  }

  lemma InvInit(s: State)
    requires Init(s)
    ensures Inv(s)
  {
    AllIdle(s.procs, Ops);
    AllIdle(s.procs, Commits);
    AllIdle(s.procs, Unused);
  }

  /** How one process's change moves the three sums, and what the old ones were. */
  lemma Sums(s: State, p: nat, pc: Pc)
    requires Inv(s) && p < |s.procs|
    ensures Sum(s.procs[p := pc], Ops) == s.outstanding - Ops(s.procs[p]) + Ops(pc)
    ensures Sum(s.procs[p := pc], Commits) == Sum(s.procs, Commits) - Commits(s.procs[p]) + Commits(pc)
    ensures Sum(s.procs[p := pc], Unused) == Sum(s.procs, Unused) - Unused(s.procs[p]) + Unused(pc)
    ensures 0 <= Sum(s.procs, Unused) <= SAFE * s.outstanding && 0 <= s.outstanding
    ensures Outstanding(s.procs[p]) ==> Sum(s.procs, Unused) >= Unused(s.procs[p]) && s.outstanding >= 1
  {
    SumUpdate(s.procs, Ops, p, pc);
    SumUpdate(s.procs, Commits, p, pc);
    SumUpdate(s.procs, Unused, p, pc);
    SumBounds(s.procs, if Outstanding(s.procs[p]) then p else |s.procs|);
  }

  lemma WakeSums(procs: seq<Pc>)
    ensures Sum(Wake(procs), Ops) == Sum(procs, Ops)
    ensures Sum(Wake(procs), Commits) == Sum(procs, Commits)
    ensures Sum(Wake(procs), Unused) == Sum(procs, Unused)
  {
    SumWake(procs, Ops);
    SumWake(procs, Commits);
    SumWake(procs, Unused);
  }

  lemma BeginOpInv(s: State, s': State, p: nat)
    requires Inv(s) && p < |s.procs| && BeginOp(s, s', p)
    ensures Inv(s')
  {
    Sums(s, p, s'.procs[p]);
  }

  lemma LogCheckInv(s: State, s': State, p: nat)
    requires Inv(s) && p < |s.procs| && LogCheck(s, s', p)
    ensures Inv(s')
  {
    Sums(s, p, s'.procs[p]);
  }

  lemma LogAddInv(limit: nat, s: State, s': State, p: nat, b: nat)
    requires Inv(s) && p < |s.procs| && limit <= SAFE && LogAdd(limit, s, s', p, b)
    ensures Inv(s')
  {
    Sums(s, p, s'.procs[p]);
    var wrote := s.procs[p].wrote;
    assert b in wrote ==> wrote + {b} == wrote;
    forall q | 0 <= q < |s.procs| ensures !s.procs[q].Committed? {
      SumAtLeast(s.procs, Commits, q);
    }
    forall q | 0 <= q < |s.procs| ensures ProcOk(s', s'.procs[q]) {
      assert ProcOk(s, s.procs[q]);
    }
  }

  lemma EndOpInv(s: State, s': State, p: nat)
    requires Inv(s) && p < |s.procs| && EndOp(s, s', p)
    ensures Inv(s')
  {
    Sums(s, p, if s.outstanding == 1 then Committing else Idle);
    WakeSums(s.procs[p := Idle]);
    SumBounds(s'.procs, |s'.procs|);
  }

  lemma CommitClearInv(s: State, s': State, p: nat)
    requires Inv(s) && p < |s.procs| && CommitClear(s, s', p)
    ensures Inv(s')
  {
    Sums(s, p, Committed);
    CommitAlone(s, p);
  }

  lemma CommitDoneInv(s: State, s': State, p: nat)
    requires Inv(s) && p < |s.procs| && CommitDone(s, s', p)
    ensures Inv(s')
  {
    Sums(s, p, Idle);
    WakeSums(s.procs[p := Idle]);
    CommitAlone(s, p);
  }

  lemma KillWakeInv(s: State, s': State, p: nat)
    requires Inv(s) && p < |s.procs| && KillWake(s, s', p)
    ensures Inv(s')
  {
    Sums(s, p, Woken);
  }

  /** While a process commits, `committing` is set and no operation is outstanding. */
  lemma CommitAlone(s: State, p: nat)
    requires Inv(s) && p < |s.procs| && Commits(s.procs[p]) == 1
    ensures s.committing && forall q :: 0 <= q < |s.procs| ==> !Outstanding(s.procs[q])
  {
    SumAtLeast(s.procs, Commits, p);
    forall q | 0 <= q < |s.procs| ensures !Outstanding(s.procs[q]) {
      SumAtLeast(s.procs, Ops, q);
    }
  }

  lemma {:induction false} SumAtLeast(procs: seq<Pc>, f: Pc -> int, p: nat)
    requires p < |procs| && forall pc :: f(pc) >= 0
    ensures Sum(procs, f) >= f(procs[p]) >= 0
  {
    SumNonNegative(procs[1..], f);
    if p > 0 { SumAtLeast(procs[1..], f, p - 1); }
  }

  lemma {:induction false} SumNonNegative(procs: seq<Pc>, f: Pc -> int)
    requires forall pc :: f(pc) >= 0
    ensures Sum(procs, f) >= 0
  {
    if procs != [] { SumNonNegative(procs[1..], f); }
  }

  lemma StepInv(limit: nat, s: State, s': State)
    requires Inv(s) && limit <= SAFE && Next(limit, s, s')
    ensures Inv(s')
  {
    var p: nat :| p < |s.procs| && Step(limit, s, s', p);
    if BeginOp(s, s', p) { BeginOpInv(s, s', p); }
    else if LogCheck(s, s', p) { LogCheckInv(s, s', p); }
    else if EndOp(s, s', p) { EndOpInv(s, s', p); }
    else if CommitClear(s, s', p) { CommitClearInv(s, s', p); }
    else if CommitDone(s, s', p) { CommitDoneInv(s, s', p); }
    else if KillWake(s, s', p) { KillWakeInv(s, s', p); }
    else {
      var b: nat :| LogAdd(limit, s, s', p, b);
      LogAddInv(limit, s, s', p, b);
    }
  }

  lemma {:induction false} RunInv(limit: nat, tr: seq<State>, i: nat)
    requires Run(limit, tr) && limit <= SAFE && i < |tr|
    ensures Inv(tr[i])
  {
    if i == 0 {
      InvInit(tr[0]);
    } else {
      RunInv(limit, tr, i - 1);
      StepInv(limit, tr[i - 1], tr[i]);
    }
  }

  // ----- What is logged is committed -----

  /** A process goes from committing to having committed: the header is written out and cleared. */
  ghost predicate Clears(s: State, s': State) {
    exists p: nat :: p < |s.procs| == |s'.procs| && s.procs[p].Committing? && s'.procs[p].Committed?
  }

  /** When the last operation ends, its transaction goes to a commit with the whole header. */
  lemma LastOpCommits(limit: nat, s: State, s': State)
    requires Next(limit, s, s') && !s'.panicked && s.outstanding > 0 && s'.outstanding == 0
    ensures s'.committing && s'.lh == s.lh
    ensures exists p: nat :: p < |s.procs| == |s'.procs| && Outstanding(s.procs[p]) && s'.procs[p].Committing?
  {
    var p: nat :| p < |s.procs| && Step(limit, s, s', p);
    assert s.procs[p].InOp? && s'.procs[p].Committing?;
  }

  /** The header only grows, unless a commit clears it. */
  lemma HeaderGrows(limit: nat, s: State, s': State)
    requires Next(limit, s, s')
    ensures s.lh <= s'.lh || Clears(s, s')
  {
    var p: nat :| p < |s.procs| && Step(limit, s, s', p);
    if CommitClear(s, s', p) { assert s.procs[p].Committing? && s'.procs[p].Committed?; }
  }

  /** While a commit runs nothing joins the header, so what it clears is what it began with. */
  lemma HeaderStays(limit: nat, s: State, s': State)
    requires Inv(s) && Next(limit, s, s') && s.committing && !Clears(s, s')
    ensures s'.lh == s.lh
  {
    var p: nat :| p < |s.procs| && Step(limit, s, s', p);
    if q: nat :| q < |s.procs| && Outstanding(s.procs[q]) { SumAtLeast(s.procs, Ops, q); }
  }

  /** The operation of p logs block b in this step. */
  predicate Logs(s: State, s': State, p: nat, b: nat) {
    && p < |s.procs| == |s'.procs| && Outstanding(s'.procs[p]) && b in s'.procs[p].wrote
    && !(Outstanding(s.procs[p]) && b in s.procs[p].wrote)
  }

  /** A block that an operation has logged is in the header until a commit that has it in the header clears it.  This
      holds in every run, whatever the limit. */
  lemma {:induction false} LoggedUntilCommitted(limit: nat, tr: seq<State>, i: nat, j: nat, p: nat, b: nat)
    requires Run(limit, tr) && i < j < |tr| && Logs(tr[i], tr[i + 1], p, b)
    ensures b in tr[j].lh || exists k: nat :: i < k < j && Clears(tr[k], tr[k + 1]) && b in tr[k].lh
  {
    hide Step, Clears;
    if j == i + 1 {
      LogsInHeader(limit, tr[i], tr[i + 1], p, b);
    } else {
      LoggedUntilCommitted(limit, tr, i, j - 1, p, b);
      HeaderGrows(limit, tr[j - 1], tr[j]);
      if b in tr[j - 1].lh && Clears(tr[j - 1], tr[j]) { assert i < j - 1 < j && tr[j - 1 + 1] == tr[j]; }
    }
  }

  lemma LogsInHeader(limit: nat, s: State, s': State, p: nat, b: nat)
    requires Next(limit, s, s') && Logs(s, s', p, b)
    ensures b in s'.lh
  {
    var q: nat :| q < |s.procs| && Step(limit, s, s', q);
  }

  /** Nothing logged is left behind: while the header lists a block, an operation or a commit is under way. */
  lemma NothingDropped(limit: nat, tr: seq<State>, i: nat)
    requires Run(limit, tr) && limit <= SAFE && i < |tr| && tr[i].lh != []
    ensures exists p: nat :: p < |tr[i].procs| && (Outstanding(tr[i].procs[p]) || tr[i].procs[p].Committing?)
  {
    RunInv(limit, tr, i);
    var s := tr[i];
    SumBounds(s.procs, |s.procs|);
    if s.outstanding > 0 {
      var p := SumWitness(s.procs, Ops);
    } else {
      var p := SumWitness(s.procs, Commits);
      assert ProcOk(s, s.procs[p]);
    }
  }

  // ----- Ten blocks per operation are too many: a run that panics -----

  /** Three operations are under way and have logged blocks 0, 1, ..., k - 1, ten each in turn. */
  ghost predicate Filled(s: State, k: nat) {
    && |s.procs| == 3 && s.outstanding == 3 && !s.committing && !s.panicked
    && |s.lh| == k && (forall i :: 0 <= i < k ==> s.lh[i] < k)
    && forall q :: 0 <= q < 3 ==>
         s.procs[q].InOp? && |s.procs[q].wrote| == (if k <= 10 * q then 0 else if k <= 10 * q + 10 then k - 10 * q
             else 10)
         && forall b :: b in s.procs[q].wrote ==> b < k
  }

  lemma Extend(limit: nat, tr: seq<State>, s': State) returns (tr': seq<State>)
    requires Run(limit, tr) && Next(limit, tr[|tr| - 1], s')
    ensures Run(limit, tr') && tr'[|tr'| - 1] == s'
  {
    tr' := tr + [s'];
  }

  lemma Begun(limit: nat) returns (tr: seq<State>)
    ensures Run(limit, tr) && Filled(tr[|tr| - 1], 0)
  {
    var s := State([Idle, Idle, Idle], [], 0, false, false);
    tr := [s];
    var p := 0;
    while p < 3
      invariant 0 <= p <= 3 && Run(limit, tr) && tr[|tr| - 1] == s
      invariant |s.procs| == 3 && s.lh == [] && s.outstanding == p && !s.committing && !s.panicked
      invariant forall q :: 0 <= q < 3 ==> s.procs[q] == if q < p then InOp({}, 0) else Idle
    {
      var s' := SetPc(s, p, InOp({}, 0)).(outstanding := s.outstanding + 1);
      assert BeginOp(s, s', p) && Step(limit, s, s', p);
      tr := Extend(limit, tr, s');
      s := s';
      p := p + 1;
    }
  }

  lemma FilledStep(limit: nat, tr: seq<State>, k: nat) returns (tr': seq<State>)
    requires Run(limit, tr) && Filled(tr[|tr| - 1], k) && k < 29 && limit >= MAXOPBLOCKS
    ensures Run(limit, tr') && Filled(tr'[|tr'| - 1], k + 1)
  {
    hide Filled, Step;
    var s1, s2 := FilledNext(limit, tr[|tr| - 1], k);
    tr' := Extend(limit, tr, s1);
    tr' := Extend(limit, tr', s2);
  }

  /** log_write of block k by the operation whose turn it is. */
  lemma FilledNext(limit: nat, s: State, k: nat) returns (s1: State, s2: State)
    requires Filled(s, k) && k < 29 && limit >= MAXOPBLOCKS
    ensures Next(limit, s, s1) && Next(limit, s1, s2) && Filled(s2, k + 1)
  {
    var p := k / 10;
    var pc := s.procs[p];
    s1 := SetPc(s, p, Checked(pc.wrote, pc.added));
    assert LogCheck(s, s1, p) && Step(limit, s, s1, p);
    s2 := SetPc(s1, p, InOp(pc.wrote + {k}, pc.added + 1)).(lh := s.lh + [k]);
    assert LogAdd(limit, s1, s2, p, k) && Step(limit, s1, s2, p);
  }

  lemma PanicRun(limit: nat) returns (tr: seq<State>)
    requires limit >= MAXOPBLOCKS
    ensures Run(limit, tr) && tr[|tr| - 1].panicked
  {
    tr := Begun(limit);
    var k := 0;
    while k < 29
      invariant 0 <= k <= 29 && Run(limit, tr) && Filled(tr[|tr| - 1], k)
    {
      tr := FilledStep(limit, tr, k);
      k := k + 1;
    }
    var s := tr[|tr| - 1];
    assert LogCheck(s, s.(panicked := true), 2) && Step(limit, s, s.(panicked := true), 2);
    tr := Extend(limit, tr, s.(panicked := true));
  }

  /** The log never panics, in any interleaving of any number of processes, exactly when no
      operation logs more than nine distinct blocks.  The documented ten are not safe: mkfs makes
      the log 30 blocks long, header included, so the size check already trips at 29. */
  lemma NoPanicIff(limit: nat)
    ensures (forall tr: seq<State> :: Run(limit, tr) ==> !tr[|tr| - 1].panicked) <==> limit < MAXOPBLOCKS
  {
    if limit < MAXOPBLOCKS {
      forall tr: seq<State> | Run(limit, tr) ensures !tr[|tr| - 1].panicked {
        RunInv(limit, tr, |tr| - 1);
      }
    } else {
      var tr := PanicRun(limit);
    }
  }

  /** No process waits in begin_op without a reason, and the reason will wake it: a commit is
      running, or operations are outstanding whose end releases space or commits. */
  lemma WaitersWillBeWoken(limit: nat, tr: seq<State>, i: nat, p: nat)
    requires Run(limit, tr) && limit <= SAFE && i < |tr| && p < |tr[i].procs| && tr[i].procs[p].Asleep?
    ensures MustWait(tr[i]) && (tr[i].committing || tr[i].outstanding > 0)
    ensures exists q: nat :: q < |tr[i].procs| && (Outstanding(tr[i].procs[q]) || Commits(tr[i].procs[q]) == 1)
  {
    RunInv(limit, tr, i);
    var s := tr[i];
    assert ProcOk(s, s.procs[p]);
    SumBounds(s.procs, |s.procs|);
    if s.committing {
      var q := SumWitness(s.procs, Commits);
    } else {
      var q := SumWitness(s.procs, Ops);
    }
  }

  lemma {:induction false} SumWitness(procs: seq<Pc>, f: Pc -> int) returns (p: nat)
    requires Sum(procs, f) > 0
    ensures p < |procs| && f(procs[p]) > 0
  {
    if f(procs[0]) > 0 {
      p := 0;
    } else {
      p := SumWitness(procs[1..], f);
      p := p + 1;
    }
  }
}

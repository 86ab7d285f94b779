/** Readers and writers of one pipe, in any interleaving of the critical sections of its lock. */
module PipeRuns {
  import opened Blocks
  import opened Pipes
  import opened Prelude

  /** What the last call of a process returned: the number of bytes of a write, the bytes of a read, or -1. */
  datatype Return = Nothing | Wrote(n: nat) | Got(data: seq<byte>) | Error

  datatype Pc =
    | Idle(ret: Return)
    | Writing(addr: seq<byte>, i: nat)      // about to take the lock, i bytes written
    | WriteAsleep(addr: seq<byte>, i: nat)  // on &p->nwrite
    | Reading(n: nat)                       // about to take the lock
    | ReadAsleep(n: nat)                    // on &p->nread

  datatype State = State(q: Queue, procs: seq<Pc>)

  datatype Action =
    | StartWrite(p: nat, addr: seq<byte>) | WriteStep(p: nat, killed: bool)
    | StartRead(p: nat, n: nat) | ReadStep(p: nat, killed: bool)
    | CloseRead | CloseWrite | Kill(p: nat)

  predicate Writer(pc: Pc) {
    pc.Writing? || pc.WriteAsleep?
  }

  predicate Reader(pc: Pc) {
    pc.Reading? || pc.ReadAsleep?
  }

  function WakeReader(pc: Pc): Pc {
    if pc.ReadAsleep? then Reading(pc.n) else pc
  }

  function WakeWriter(pc: Pc): Pc {
    if pc.WriteAsleep? then Writing(pc.addr, pc.i) else pc
  }

  function WakeAll(procs: seq<Pc>, wake: Pc -> Pc): (r: seq<Pc>)
    ensures |r| == |procs| && forall p :: 0 <= p < |r| ==> r[p] == wake(procs[p])
  {
    seq(|procs|, p requires 0 <= p < |procs| => wake(procs[p]))
  }

  predicate Init(s: State) {
    s.q == Queue([], [], true, true) && forall p :: 0 <= p < |s.procs| ==> s.procs[p] == Idle(Nothing)
  }

  /** pipewrite under the lock.  The readers are woken before sleeping and on success, but not on failure. */
  predicate DoWrite(s: State, p: nat, killed: bool, s': State) {
    && QueueOk(s.q) && p < |s.procs| && s.procs[p].Writing? && s.procs[p].i <= |s.procs[p].addr|
    && var Writing(addr, i) := s.procs[p];
       var q, j := Accept(s.q, addr[i..]), i + Room(s.q, |addr| - i);
       s' == match WriteOutcome(s.q, |addr| - i, killed)
             case Done => State(q, WakeAll(s.procs[p := Idle(Wrote(|addr|))], WakeReader))
             case Sleeps => State(q, WakeAll(s.procs, WakeReader)[p := WriteAsleep(addr, j)])
             case Failed => State(q, s.procs[p := Idle(Error)])
  }

  predicate DoRead(s: State, p: nat, killed: bool, s': State) {
    && QueueOk(s.q) && p < |s.procs| && s.procs[p].Reading?
    && s' == match ReadOutcome(s.q, killed)
             case Done =>
               var q := Deliver(s.q, s.procs[p].n);
               State(q, WakeAll(s.procs[p := Idle(Got(q.delivered[|s.q.delivered|..]))], WakeWriter))
             case Sleeps => s.(procs := s.procs[p := ReadAsleep(s.procs[p].n)])
             case Failed => s.(procs := s.procs[p := Idle(Error)])
  }

  /** An end is closed when no process can still be using it. */
  predicate Step(s: State, a: Action, s': State) {
    match a
    case StartWrite(p, addr) => p < |s.procs| && s.procs[p].Idle? && s.q.writeopen
        && s' == s.(procs := s.procs[p := Writing(addr, 0)])
    case WriteStep(p, killed) => DoWrite(s, p, killed, s')
    case StartRead(p, n) => p < |s.procs| && s.procs[p].Idle? && s.q.readopen
        && s' == s.(procs := s.procs[p := Reading(n)])
    case ReadStep(p, killed) => DoRead(s, p, killed, s')
    case CloseRead =>
      && (forall p :: 0 <= p < |s.procs| ==> !Reader(s.procs[p]))
      && s' == State(s.q.(readopen := false), WakeAll(s.procs, WakeWriter))
    case CloseWrite =>
      && (forall p :: 0 <= p < |s.procs| ==> !Writer(s.procs[p]))
      && s' == State(s.q.(writeopen := false), WakeAll(s.procs, WakeReader))
    case Kill(p) => p < |s.procs| && s' == s.(procs := s.procs[p := WakeReader(WakeWriter(s.procs[p]))])
  }

  ghost predicate Next(s: State, s': State) {
    exists a :: Step(s, a, s')
  }

  ghost predicate Run(tr: seq<State>) {
    tr != [] && Init(tr[0]) && forall i :: 0 <= i < |tr| - 1 ==> Next(tr[i], tr[i + 1])
  }

  // ----- The invariant -----

  predicate ProcOk(s: State, p: nat)
    requires QueueOk(s.q) && p < |s.procs|
  {
    var pc := s.procs[p];
    && (Writer(pc) ==> pc.i <= |pc.addr| && s.q.writeopen)
    && (Reader(pc) ==> s.q.readopen)
    && (pc.WriteAsleep? ==> InFlight(s.q) == PIPESIZE && s.q.readopen)
    && (pc.ReadAsleep? ==> s.q.writeopen)
  }

  /** Some reader and some writer are asleep at the same time. */
  predicate BothAsleep(s: State) {
    exists p, r :: 0 <= p < |s.procs| && 0 <= r < |s.procs| && s.procs[p].WriteAsleep? && s.procs[r].ReadAsleep?
  }

  predicate Inv(s: State) {
    QueueOk(s.q) && (forall p :: 0 <= p < |s.procs| ==> ProcOk(s, p)) && !BothAsleep(s)
  }

  /** A writer wakes every reader before it sleeps, and a reader sleeps only on an empty pipe. */
  lemma StepNotBoth(s: State, a: Action, s': State, p: nat, r: nat)
    requires Inv(s) && Step(s, a, s') && |s'.procs| == |s.procs| && p < |s.procs| && r < |s.procs|
    ensures !(s'.procs[p].WriteAsleep? && s'.procs[r].ReadAsleep?)
  {
    assert ProcOk(s, p) && ProcOk(s, r);
    assert !(s.procs[p].WriteAsleep? && s.procs[r].ReadAsleep?);
  }

  lemma StepProcOk(s: State, a: Action, s': State, p: nat)
    requires Inv(s) && Step(s, a, s') && p < |s.procs|
    ensures |s'.procs| == |s.procs| && QueueOk(s'.q) && ProcOk(s', p)
    ensures s.q.accepted <= s'.q.accepted && s.q.delivered <= s'.q.delivered
  {
    assert ProcOk(s, p);
  }

  lemma StepInv(s: State, a: Action, s': State)
    requires Inv(s) && Step(s, a, s')
    ensures Inv(s')
  {
    assert QueueOk(s'.q) && |s'.procs| == |s.procs|;
    forall p | 0 <= p < |s'.procs| ensures ProcOk(s', p) { StepProcOk(s, a, s', p); }
    forall p, r | 0 <= p < |s'.procs| && 0 <= r < |s'.procs|
      ensures !(s'.procs[p].WriteAsleep? && s'.procs[r].ReadAsleep?)
    {
      StepNotBoth(s, a, s', p, r);
    }
  }

  lemma {:induction false} RunInv(tr: seq<State>, i: nat)
    requires Run(tr) && i < |tr|
    ensures Inv(tr[i])
  {
    if i > 0 {
      RunInv(tr, i - 1);
      var a :| Step(tr[i - 1], a, tr[i]);
      StepInv(tr[i - 1], a, tr[i]);
    }
  }

  /** A bounded FIFO: what readers have got is a prefix of what writers have put in, at most PIPESIZE
      bytes are in between, and a reader and a writer are never both asleep. */
  lemma PipeIsFifo(tr: seq<State>, i: nat)
    requires Run(tr) && i < |tr|
    ensures tr[i].q.delivered <= tr[i].q.accepted && |tr[i].q.accepted| <= |tr[i].q.delivered| + PIPESIZE
    ensures !BothAsleep(tr[i])
  {
    RunInv(tr, i);
  }

  // ----- What was written is what arrives -----

  /** A record of a run: `from` tells who put each accepted byte, `got` what reads have returned so far; for
      each process, `asked` is the data of its last write, `put` what that call has put into the pipe, and
      `past` what its earlier calls have. */
  datatype Ledger =
    Ledger(s: State, from: seq<nat>, got: seq<byte>, asked: seq<seq<byte>>, put: seq<seq<byte>>, past: seq<seq<byte>>)

  function Opened(s: State): Ledger {
    var none: seq<seq<byte>> := seq(|s.procs|, _ => []);
    Ledger(s, [], [], none, none, none)
  }

  /** The bytes that joined. */
  function Joined(s: State, s': State): seq<byte> {
    if |s.q.accepted| <= |s'.q.accepted| then s'.q.accepted[|s.q.accepted|..] else []
  }

  function Times(n: nat, p: nat): (r: seq<nat>)
    ensures |r| == n && forall k :: 0 <= k < n ==> r[k] == p
  {
    seq(n, _ => p)
  }

  function Recorded(l: Ledger, a: Action, s': State): Ledger {
    match a
    case StartWrite(p, addr) =>
      if p < |l.asked| == |l.put| == |l.past| then
        l.(s := s', asked := l.asked[p := addr], put := l.put[p := []], past := l.past[p := l.past[p] + l.put[p]])
      else l.(s := s')
    case WriteStep(p, _) =>
      var data := Joined(l.s, s');
      if p < |l.put| then l.(s := s', from := l.from + Times(|data|, p), put := l.put[p := l.put[p] + data])
      else l.(s := s')
    case ReadStep(p, _) =>
      if p < |s'.procs| && s'.procs[p].Idle? && s'.procs[p].ret.Got? then
        l.(s := s', got := l.got + s'.procs[p].ret.data)
      else l.(s := s')
    case _ => l.(s := s')
  }

  ghost predicate Records(ls: seq<Ledger>) {
    && ls != [] && Init(ls[0].s) && ls[0] == Opened(ls[0].s)
    && forall i :: 0 <= i < |ls| - 1 ==> RecordNext(ls[i], ls[i + 1])
  }

  ghost predicate RecordNext(l: Ledger, l': Ledger) {
    exists a :: Step(l.s, a, l'.s) && l' == Recorded(l, a, l'.s)
  }

  /** Every run has a record. */
  lemma {:induction false} RunRecords(tr: seq<State>) returns (ls: seq<Ledger>)
    requires Run(tr)
    ensures Records(ls) && |ls| == |tr| && forall i :: 0 <= i < |tr| ==> ls[i].s == tr[i]
  {
    hide Step, Init;
    if |tr| == 1 {
      ls := [Opened(tr[0])];
    } else {
      var n := |tr| - 1;
      assert Next(tr[n - 1], tr[n]);
      var a :| Step(tr[n - 1], a, tr[n]);
      ls := RunRecords(tr[..n]);
      RecordedState(ls[n - 1], a, tr[n]);
      assert RecordNext(ls[n - 1], Recorded(ls[n - 1], a, tr[n]));
      ls := ls + [Recorded(ls[n - 1], a, tr[n])];
    }
  }

  lemma RecordedState(l: Ledger, a: Action, s': State)
    ensures Recorded(l, a, s').s == s'
  {
  }

  /** The bytes that p put, in order. */
  function PutBy(data: seq<byte>, from: seq<nat>, p: nat): seq<byte>
    requires |from| == |data|
  {
    if from == [] then []
    else
      var n := |from| - 1;
      PutBy(data[..n], from[..n], p) + if from[n] == p then [data[n]] else []
  }

  lemma {:induction false} PutMore(data: seq<byte>, from: seq<nat>, more: seq<byte>, q: nat, p: nat)
    requires |from| == |data|
    ensures PutBy(data + more, from + Times(|more|, q), p) == PutBy(data, from, p) + if p == q then more else []
    decreases |more|
  {
    if more == [] {
      assert data + more == data && from + Times(|more|, q) == from;
    } else {
      var n := |more| - 1;
      PutMore(data, from, more[..n], q, p);
      assert (data + more)[..|data| + n] == data + more[..n];
      assert (from + Times(|more|, q))[..|from| + n] == from + Times(n, q);
    }
  }

  /** What is known of one process's calls. */
  ghost predicate CallOk(l: Ledger, p: nat)
    requires |l.from| == |l.s.q.accepted| && p < |l.s.procs| == |l.asked| == |l.put| == |l.past|
  {
    var pc := l.s.procs[p];
    && (Writer(pc) ==> pc.addr == l.asked[p] && pc.i <= |pc.addr| && l.put[p] == pc.addr[..pc.i])
    && (pc.Idle? && pc.ret.Wrote? ==> pc.ret.n == |l.asked[p]| && l.put[p] == l.asked[p])
    && l.put[p] <= l.asked[p]
    && PutBy(l.s.q.accepted, l.from, p) == l.past[p] + l.put[p]
  }

  ghost predicate LedgerOk(l: Ledger) {
    && Inv(l.s) && |l.from| == |l.s.q.accepted| && |l.s.procs| == |l.asked| == |l.put| == |l.past|
    && l.got == l.s.q.delivered
    && forall p :: 0 <= p < |l.s.procs| ==> CallOk(l, p)
  }

  lemma StepJoins(s: State, a: Action, s': State)
    requires Inv(s) && Step(s, a, s')
    ensures |s'.procs| == |s.procs| && s'.q.accepted == s.q.accepted + Joined(s, s')
    ensures if a.WriteStep? then a.p < |s.procs| else Joined(s, s') == []
  {
  }

  /** A step of a write puts the next bytes, stays at the first one not put, and returns success only after the last. */
  lemma WriteMoves(s: State, p: nat, killed: bool, s': State)
    requires Inv(s) && Step(s, WriteStep(p, killed), s')
    ensures p < |s'.procs| == |s.procs| && s.procs[p].Writing?
    ensures var Writing(addr, i) := s.procs[p];
      var pc, j := s'.procs[p], i + |Joined(s, s')|;
      && i <= j <= |addr| && Joined(s, s') == addr[i..j]
      && (Writer(pc) ==> pc.addr == addr && pc.i == j)
      && (pc.Idle? && pc.ret.Wrote? ==> j == |addr| == pc.ret.n)
  {
    assert ProcOk(s, p);
  }

  /** Other steps leave a write where it is. */
  lemma WriteStays(s: State, a: Action, s': State, p: nat)
    requires Inv(s) && Step(s, a, s') && p < |s.procs|
    requires !(a.WriteStep? && a.p == p) && !(a.StartWrite? && a.p == p)
    ensures |s'.procs| == |s.procs|
    ensures var pc, pc' := s.procs[p], s'.procs[p];
      && (Writer(pc') ==> Writer(pc) && pc'.addr == pc.addr && pc'.i == pc.i)
      && (pc'.Idle? && pc'.ret.Wrote? ==> pc' == pc)
  {
  }

  lemma OwnWrite(l: Ledger, a: Action, s': State)
    requires LedgerOk(l) && Step(l.s, a, s') && a.WriteStep?
    ensures a.p < |s'.procs| && Sound(l, a, s') && CallOk(Recorded(l, a, s'), a.p)
  {
    hide Step, Inv, PutBy, Joined, Times;
    StepSizes(l, a, s');
    RecordedState(l, a, s');
    StepJoins(l.s, a, s');
    assert CallOk(l, a.p);
    var data := Joined(l.s, s');
    PutMore(l.s.q.accepted, l.from, data, a.p, a.p);
    WriteMoves(l.s, a.p, a.killed, s');
    var Writing(addr, i) := l.s.procs[a.p];
    assert addr[..i] + addr[i..i + |data|] == addr[..i + |data|];
    assert l.past[a.p] + l.put[a.p] + data == l.past[a.p] + (l.put[a.p] + data);
  }

  lemma OwnStart(l: Ledger, a: Action, s': State)
    requires LedgerOk(l) && Step(l.s, a, s') && a.StartWrite?
    ensures a.p < |s'.procs| && Sound(l, a, s') && CallOk(Recorded(l, a, s'), a.p)
  {
    hide Step, Inv, PutBy;
    StepSizes(l, a, s');
    StartFresh(l.s, a, s');
    assert CallOk(l, a.p);
    assert l.past[a.p] + l.put[a.p] + [] == l.past[a.p] + l.put[a.p];
  }

  lemma OtherCall(l: Ledger, a: Action, s': State, p: nat)
    requires LedgerOk(l) && Step(l.s, a, s') && p < |l.s.procs|
    requires !(a.WriteStep? && a.p == p) && !(a.StartWrite? && a.p == p)
    ensures p < |s'.procs| && Sound(l, a, s') && CallOk(Recorded(l, a, s'), p)
  {
    hide Step, Inv, PutBy, Joined, Times;
    StepSizes(l, a, s');
    RecordedState(l, a, s');
    StepJoins(l.s, a, s');
    assert CallOk(l, p);
    WriteStays(l.s, a, s', p);
    if a.WriteStep? {
      PutMore(l.s.q.accepted, l.from, Joined(l.s, s'), a.p, p);
    } else {
      assert s'.q.accepted == l.s.q.accepted;
    }
    assert PutBy(l.s.q.accepted, l.from, p) + [] == PutBy(l.s.q.accepted, l.from, p);
  }

  /** The record has the shape of the state. */
  ghost predicate Sound(l: Ledger, a: Action, s': State) {
    var l' := Recorded(l, a, s');
    && l'.s == s' && |l'.from| == |s'.q.accepted|
    && |l'.asked| == |l'.put| == |l'.past| == |s'.procs| == |l.s.procs|
  }

  lemma StartFresh(s: State, a: Action, s': State)
    requires Step(s, a, s') && a.StartWrite?
    ensures a.p < |s'.procs| && s'.procs[a.p] == Writing(a.addr, 0) && s'.q == s.q
  {
  }

  lemma StepGot(l: Ledger, a: Action, s': State)
    requires LedgerOk(l) && Step(l.s, a, s')
    ensures Recorded(l, a, s').got == s'.q.delivered
  {
  }

  lemma {:induction false} RecordsOk(ls: seq<Ledger>, i: nat)
    requires Records(ls) && i < |ls|
    ensures LedgerOk(ls[i])
  {
    hide Step, CallOk, Inv, Init;
    if i == 0 {
      FirstOk(ls[0].s);
    } else {
      RecordsOk(ls, i - 1);
      var l, l' := ls[i - 1], ls[i];
      assert RecordNext(l, l');
      var a :| Step(l.s, a, l'.s) && l' == Recorded(l, a, l'.s);
      StepInv(l.s, a, l'.s);
      StepGot(l, a, l'.s);
      StepSizes(l, a, l'.s);
      forall p | 0 <= p < |l'.s.procs| ensures CallOk(l', p) {
        if a.WriteStep? && a.p == p {
          OwnWrite(l, a, l'.s);
        } else if a.StartWrite? && a.p == p {
          OwnStart(l, a, l'.s);
        } else {
          OtherCall(l, a, l'.s, p);
        }
      }
    }
  }

  lemma StepSizes(l: Ledger, a: Action, s': State)
    requires LedgerOk(l) && Step(l.s, a, s')
    ensures Sound(l, a, s')
  {
    StepJoins(l.s, a, s');
  }

  lemma FirstOk(s: State)
    requires Init(s)
    ensures LedgerOk(Opened(s))
  {
  }

  /** In every run, what a process has put into the pipe is, in order, what its earlier calls put and what its
      current or last call has: of a write under way at i the first i bytes, of one that has returned success
      all of them, and of one that has failed a prefix. */
  lemma WritesArrive(ls: seq<Ledger>, i: nat, p: nat)
    requires Records(ls) && i < |ls| && p < |ls[i].s.procs|
    ensures LedgerOk(ls[i])
    ensures var l, pc := ls[i], ls[i].s.procs[p];
      && PutBy(l.s.q.accepted, l.from, p) == l.past[p] + l.put[p] && l.put[p] <= l.asked[p]
      && (Writer(pc) ==> pc.addr == l.asked[p] && pc.i <= |pc.addr| && l.put[p] == l.asked[p][..pc.i])
      && (pc.Idle? && pc.ret.Wrote? ==> pc.ret.n == |l.asked[p]| && l.put[p] == l.asked[p])
  {
    RecordsOk(ls, i);
    assert CallOk(ls[i], p);
  }

  /** With one writer the accepted bytes are its writes one after the other; and what reads have returned, one after the
      other, is what was accepted, up to what is still in the pipe. */
  lemma OneWriter(ls: seq<Ledger>, i: nat, p: nat)
    requires Records(ls) && i < |ls| && p < |ls[i].s.procs| && forall k :: 0 <= k < |ls[i].from| ==> ls[i].from[k] == p
    ensures LedgerOk(ls[i]) && ls[i].s.q.accepted == ls[i].past[p] + ls[i].put[p]
    ensures ls[i].got == ls[i].s.q.delivered <= ls[i].past[p] + ls[i].put[p]
  {
    WritesArrive(ls, i, p);
    PutByOne(ls[i].s.q.accepted, ls[i].from, p);
  }

  lemma {:induction false} PutByOne(data: seq<byte>, from: seq<nat>, p: nat)
    requires |from| == |data| && forall k :: 0 <= k < |from| ==> from[k] == p
    ensures PutBy(data, from, p) == data
    decreases |from|
  {
    if from != [] {
      var n := |from| - 1;
      PutByOne(data[..n], from[..n], p);
      assert data == data[..n] + [data[n]];
    }
  }

  /** A read returns the oldest bytes not yet read, as many as it asks for or as there are, and none only if it asks for
      none or the pipe is empty and closed for writing. */
  lemma ReadReturns(s: State, p: nat, killed: bool, s': State)
    requires Inv(s) && Step(s, ReadStep(p, killed), s') && s'.procs[p].Idle? && s'.procs[p].ret.Got?
    ensures s.procs[p].Reading? && s'.q.accepted == s.q.accepted
    ensures var data, n := s'.procs[p].ret.data, Min(s.procs[p].n, InFlight(s.q));
      && data == s.q.accepted[|s.q.delivered|..][..n] && s'.q.delivered == s.q.delivered + data
      && (data == [] ==> s.procs[p].n == 0 || (InFlight(s.q) == 0 && !s.q.writeopen))
  {
  }

  // ----- Readers asleep on a pipe that has data -----

  predicate ReaderAsleep(s: State) {
    exists p :: 0 <= p < |s.procs| && s.procs[p].ReadAsleep?
  }

  /** A reader sleeps although there is something to read. */
  predicate Stranded(s: State) {
    ReaderAsleep(s) && QueueOk(s.q) && InFlight(s.q) > 0
  }

  /** A writer is killed while it writes more than the pipe can take: it fails on the full pipe
      without waking the reader. */
  predicate KilledOnFull(s: State, a: Action) {
    && a.WriteStep? && a.killed && ReaderAsleep(s) && a.p < |s.procs| && s.procs[a.p].Writing?
    && s.procs[a.p].i <= |s.procs[a.p].addr| && |s.procs[a.p].addr| - s.procs[a.p].i > PIPESIZE
  }

  /** From a state where no reader is stranded, a step strands one exactly when a killed writer fails on
      the full pipe. */
  lemma StrandedIff(s: State, a: Action, s': State)
    requires Inv(s) && Step(s, a, s') && !Stranded(s)
    ensures Stranded(s') <==> KilledOnFull(s, a)
  {
    if a.WriteStep? && ReaderAsleep(s) {
      var r :| 0 <= r < |s.procs| && s.procs[r].ReadAsleep?;
      assert ProcOk(s, r) && ProcOk(s, a.p);
      if WriteOutcome(s.q, |s.procs[a.p].addr| - s.procs[a.p].i, a.killed).Failed? { assert s'.procs[r].ReadAsleep?; }
    }
  }

  /** A reader sleeps although there is something to read, and no process is in the middle of a write, so that nothing
      under way will wake it. */
  predicate Stuck(s: State) {
    Stranded(s) && forall p :: 0 <= p < |s.procs| ==> !Writer(s.procs[p])
  }

  /** A killed writer with more left than the pipe has room for, and no other writer, while a reader sleeps. */
  predicate LastKilled(s: State, a: Action)
    requires QueueOk(s.q)
  {
    && a.WriteStep? && a.killed && ReaderAsleep(s) && a.p < |s.procs| && s.procs[a.p].Writing?
    && |s.procs[a.p].addr| - s.procs[a.p].i > PIPESIZE - InFlight(s.q)
    && forall p :: 0 <= p < |s.procs| && p != a.p ==> !Writer(s.procs[p])
  }

  /** A step leaves a reader stuck exactly when the last writer under way fails so, whether or not an earlier one has
      already filled the pipe and stranded the reader. */
  lemma StuckIff(s: State, a: Action, s': State)
    requires Inv(s) && Step(s, a, s') && !Stuck(s)
    ensures Stuck(s') <==> LastKilled(s, a)
  {
    if a.WriteStep? {
      assert ProcOk(s, a.p);
      if ReaderAsleep(s) {
        var r :| 0 <= r < |s.procs| && s.procs[r].ReadAsleep?;
        assert ProcOk(s, r);
        if WriteOutcome(s.q, |s.procs[a.p].addr| - s.procs[a.p].i, a.killed).Failed? {
          assert s'.procs[r].ReadAsleep?;
          forall p | 0 <= p < |s.procs| && p != a.p ensures s'.procs[p] == s.procs[p] {}
        }
      }
    } else {
      StillWriters(s, a, s');
    }
  }

  /** No other step ends a write, and none puts bytes into the pipe. */
  lemma StillWriters(s: State, a: Action, s': State)
    requires Inv(s) && Step(s, a, s') && !a.WriteStep? && !Stuck(s)
    ensures !Stuck(s')
  {
    if Stuck(s') {
      var r :| 0 <= r < |s'.procs| && s'.procs[r].ReadAsleep?;
      assert ProcOk(s, r);
      forall p | 0 <= p < |s.procs| ensures !Writer(s.procs[p]) { assert !Writer(s'.procs[p]); }
    }
  }

  /** Such a run exists. */
  lemma StrandedRun() returns (tr: seq<State>)
    ensures Run(tr) && Stuck(tr[|tr| - 1])
  {
    var q := Queue([], [], true, true);
    var addr: seq<byte> := seq(PIPESIZE + 1, _ => 0);
    var s0 := State(q, [Idle(Nothing), Idle(Nothing)]);
    var s1 := State(q, [Reading(1), Idle(Nothing)]);
    var s2 := State(q, [ReadAsleep(1), Idle(Nothing)]);
    var s3 := State(q, [ReadAsleep(1), Writing(addr, 0)]);
    var s4 := State(Accept(q, addr), [ReadAsleep(1), Idle(Error)]);
    assert Step(s0, StartRead(0, 1), s1);
    assert Step(s1, ReadStep(0, false), s2);
    assert Step(s2, StartWrite(1, addr), s3);
    assert addr[0..] == addr;
    assert Step(s3, WriteStep(1, true), s4);
    assert s4.procs[0].ReadAsleep?;
    tr := [s0, s1, s2, s3, s4];
  }

  /** And one with two writers: the first, killed on the full pipe, strands the reader, and the second, killed with one
      byte left, leaves it stuck. */
  lemma TwoWritersRun() returns (tr: seq<State>)
    ensures Run(tr) && |tr| > 2 && Stranded(tr[|tr| - 2]) && !Stuck(tr[|tr| - 2]) && Stuck(tr[|tr| - 1])
  {
    hide Step, Stuck, Stranded, Init;
    var q := Queue([], [], true, true);
    var addr: seq<byte>, one: seq<byte> := seq(PIPESIZE + 1, _ => 0), [0];
    var s0, s1, s2, s3, s4 := TwoStarted(q, addr, one);
    var s5, s6 := TwoKilled(q, addr, one);
    tr := [s0, s1, s2, s3, s4, s5, s6];
  }

  lemma TwoStarted(q: Queue, addr: seq<byte>, one: seq<byte>)
    returns (s0: State, s1: State, s2: State, s3: State, s4: State)
    requires q == Queue([], [], true, true)
    ensures Init(s0) && Next(s0, s1) && Next(s1, s2) && Next(s2, s3) && Next(s3, s4)
    ensures s4 == State(q, [ReadAsleep(1), Writing(addr, 0), Writing(one, 0)])
  {
    s0 := State(q, [Idle(Nothing), Idle(Nothing), Idle(Nothing)]);
    s1 := State(q, [Reading(1), Idle(Nothing), Idle(Nothing)]);
    s2 := State(q, [ReadAsleep(1), Idle(Nothing), Idle(Nothing)]);
    s3 := State(q, [ReadAsleep(1), Writing(addr, 0), Idle(Nothing)]);
    s4 := State(q, [ReadAsleep(1), Writing(addr, 0), Writing(one, 0)]);
    assert Step(s0, StartRead(0, 1), s1);
    assert Step(s1, ReadStep(0, false), s2);
    assert Step(s2, StartWrite(1, addr), s3);
    assert Step(s3, StartWrite(2, one), s4);
  }

  lemma TwoKilled(q: Queue, addr: seq<byte>, one: seq<byte>) returns (s5: State, s6: State)
    requires q == Queue([], [], true, true) && |addr| == PIPESIZE + 1 && |one| == 1
    ensures Next(State(q, [ReadAsleep(1), Writing(addr, 0), Writing(one, 0)]), s5) && Next(s5, s6)
    ensures Stranded(s5) && !Stuck(s5) && Stuck(s6)
  {
    s5 := State(Accept(q, addr), [ReadAsleep(1), Idle(Error), Writing(one, 0)]);
    s6 := State(Accept(q, addr), [ReadAsleep(1), Idle(Error), Idle(Error)]);
    assert addr[0..] == addr && Accept(s5.q, one[0..]) == s5.q;
    assert Step(State(q, [ReadAsleep(1), Writing(addr, 0), Writing(one, 0)]), WriteStep(1, true), s5);
    assert Step(s5, WriteStep(2, true), s6);
    assert s5.procs[0].ReadAsleep? && s6.procs[0].ReadAsleep? && Writer(s5.procs[2]);
  }
}

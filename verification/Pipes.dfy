/** Pipes (pipe.c): the ring buffer with wrapping 32-bit counters against a byte queue, and the
    sleeping and waking of readers and writers over every interleaving. */
module Pipes {
  import opened Blocks
  import opened Prelude

  const PIPESIZE: nat := 512
  const WRAP: nat := 0x1_0000_0000

  /** What a pipe is: the bytes accepted from writers, those delivered to readers, and the open ends. */
  datatype Queue = Queue(accepted: seq<byte>, delivered: seq<byte>, readopen: bool, writeopen: bool)

  predicate QueueOk(q: Queue) {
    q.delivered <= q.accepted && |q.accepted| <= |q.delivered| + PIPESIZE
  }

  function InFlight(q: Queue): (n: nat)
    requires QueueOk(q)
  {
    |q.accepted| - |q.delivered|
  }

  datatype Outcome = Done | Sleeps | Failed

  /** How many of n bytes still to write fit. */
  function Room(q: Queue, n: nat): nat
    requires QueueOk(q)
  {
    Min(n, PIPESIZE - InFlight(q))
  }

  /** pipewrite from taking the lock until it returns or sleeps. */
  function Accept(q: Queue, data: seq<byte>): (r: Queue)
    requires QueueOk(q)
    ensures QueueOk(r)
  {
    q.(accepted := q.accepted + data[..Room(q, |data|)])
  }

  function WriteOutcome(q: Queue, n: nat, killed: bool): Outcome
    requires QueueOk(q)
  {
    if Room(q, n) == n then Done else if !q.readopen || killed then Failed else Sleeps
  }

  function ReadOutcome(q: Queue, killed: bool): Outcome
    requires QueueOk(q)
  {
    if InFlight(q) > 0 || !q.writeopen then Done else if killed then Failed else Sleeps
  }

  function Deliver(q: Queue, n: nat): (r: Queue)
    requires QueueOk(q)
    ensures QueueOk(r)
  {
    q.(delivered := q.accepted[..|q.delivered| + Min(n, InFlight(q))])
  }

  // ----- Counters modulo 2^32 over a buffer of 512 bytes -----

  /** The buffer index of byte number k. */
  function Index(k: nat): (i: nat)
    ensures i < PIPESIZE
  {
    k % PIPESIZE
  }

  /** The counter after k bytes.  512 divides 2^32, so wrapping the counter does not move the index. */
  function Counter(k: nat): (c: nat)
    ensures c < WRAP && Index(c) == Index(k)
  {
    k % WRAP
  }

  lemma CounterStep(k: nat)
    ensures (Counter(k) + 1) % WRAP == Counter(k + 1)
  {
  }

  /** The tests for an empty and a full pipe are right although the counters wrap. */
  lemma CounterTests(a: nat, d: nat)
    requires d <= a <= d + PIPESIZE
    ensures Counter(a) == Counter(d) <==> a == d
    ensures Counter(a) == (Counter(d) + PIPESIZE) % WRAP <==> a == d + PIPESIZE
  {
  }

  lemma IndexDiffers(k: nat, a: nat)
    requires k < a < k + PIPESIZE
    ensures Index(k) != Index(a)
  {
  }

  /** The buffer holds bytes number from up to `to`. */
  ghost predicate Buffered(data: seq<byte>, s: seq<byte>, from: nat, to: nat) {
    && |data| == PIPESIZE && to <= |s|
    && forall k :: from <= k < to ==> data[Index(k)] == s[k]
  }

  lemma BufferPut(data: seq<byte>, s: seq<byte>, from: nat, b: byte)
    requires from <= |s| < from + PIPESIZE && Buffered(data, s, from, |s|)
    ensures Buffered(data[Index(|s|) := b], s + [b], from, |s| + 1)
  {
    forall k | from <= k < |s| ensures Index(k) != Index(|s|) { IndexDiffers(k, |s|); }
  }

  class PipeBuffer {
    const data: array<byte>
    var nread: nat
    var nwrite: nat
    var readopen: bool
    var writeopen: bool
    ghost var accepted: seq<byte>
    ghost var delivered: seq<byte>

    ghost function Contents(): Queue
      reads this
    {
      Queue(accepted, delivered, readopen, writeopen)
    }

    /** The counters are the numbers of bytes modulo 2^32 and the buffer holds the bytes in flight. */
    ghost predicate Valid()
      reads this, data
    {
      && data.Length == PIPESIZE && QueueOk(Contents())
      && nread == Counter(|delivered|) && nwrite == Counter(|accepted|)
      && Buffered(data[..], accepted, |delivered|, |accepted|)
    }

    constructor ()
      ensures Valid() && fresh(data) && Contents() == Queue([], [], true, true)
    {
      data := new byte[PIPESIZE](_ => 0);
      nread, nwrite, readopen, writeopen := 0, 0, true, true;
      accepted, delivered := [], [];
    }

    method Put(b: byte)
      requires Valid() && |accepted| < |delivered| + PIPESIZE
      modifies this`nwrite, this`accepted, data
      ensures Valid() && accepted == old(accepted) + [b]
    {
      BufferPut(data[..], accepted, |delivered|, b);
      CounterStep(|accepted|);
      ghost var before := data[..];
      data[nwrite % PIPESIZE] := b;
      assert data[..] == before[Index(|accepted|) := b];
      nwrite := (nwrite + 1) % WRAP;
      accepted := accepted + [b];
    }

    method Get() returns (b: byte)
      requires Valid() && |delivered| < |accepted|
      modifies this`nread, this`delivered
      ensures Valid() && b == accepted[|old(delivered)|] && delivered == old(delivered) + [b]
    {
      CounterStep(|delivered|);
      b := data[nread % PIPESIZE];
      assert b == data[..][Index(|delivered|)];
      nread := (nread + 1) % WRAP;
      delivered := delivered + [b];
    }

    /** pipewrite's loop from byte i on, up to the point where it returns or sleeps. */
    method Write(addr: seq<byte>, i: nat, killed: bool) returns (j: nat, r: Outcome)
      requires Valid() && i <= |addr|
      modifies this`nwrite, this`accepted, data
      ensures Valid() && Contents() == old(Accept(Contents(), addr[i..]))
      ensures j == i + old(Room(Contents(), |addr| - i)) && r == old(WriteOutcome(Contents(), |addr| - i, killed))
    {
      hide Buffered, Counter;
      j := i;
      while j < |addr|
        invariant i <= j <= |addr| && Valid() && accepted == old(accepted) + addr[i..j]
        invariant readopen == old(readopen) && writeopen == old(writeopen) && delivered == old(delivered)
      {
        CounterTests(|accepted|, |delivered|);
        if nwrite == (nread + PIPESIZE) % WRAP {
          assert addr[i..][..j - i] == addr[i..j];
          if !readopen || killed {
            return j, Failed;
          }
          return j, Sleeps;
        }
        Put(addr[j]);
        j := j + 1;
      }
      return j, Done;
    }

    /** piperead from taking the lock: sleep or fail on an empty pipe, otherwise copy up to n bytes. */
    method Read(n: nat, killed: bool) returns (addr: seq<byte>, r: Outcome)
      requires Valid()
      modifies this`nread, this`delivered
      ensures Valid() && r == old(ReadOutcome(Contents(), killed))
      ensures r.Done? ==> Contents() == old(Deliver(Contents(), n)) && delivered == old(delivered) + addr
      ensures !r.Done? ==> Contents() == old(Contents()) && addr == []
    {
      hide Buffered, Counter;
      addr := [];
      CounterTests(|accepted|, |delivered|);
      if nread == nwrite && writeopen {
        return [], if killed then Failed else Sleeps;
      }
      var i := 0;
      while i < n
        invariant 0 <= i <= n && Valid() && |addr| == i
        invariant accepted == old(accepted) && delivered == old(delivered) + addr
        invariant readopen == old(readopen) && writeopen == old(writeopen)
      {
        CounterTests(|accepted|, |delivered|);
        if nread == nwrite {
          break;
        }
        var b := Get();
        addr := addr + [b];
        i := i + 1;
      }
      assert delivered == accepted[..|delivered|];
      return addr, Done;
    }

    /** pipeclose of one end. */
    method Close(writable: bool)
      requires Valid()
      modifies this`readopen, this`writeopen
      ensures Valid()
      ensures Contents() == if writable then old(Contents()).(writeopen := false)
          else old(Contents()).(readopen := false)
    {
      if writable {
        writeopen := false;
      } else {
        readopen := false;
      }
    }
  }
}

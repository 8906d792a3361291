/** pipe.c: a bounded FIFO of bytes between any number of readers and writers.

    p->lock is held from each acquire to the next sleep or return, so a call of
    pipewrite or piperead is a sequence of atomic sections, and an interleaving
    is any sequence of sections.  Queue is the pipe as a value, with what each
    section does to it; class Ring is the ring buffer with its wrapping 32-bit
    counters, proved to do exactly that. */
module Pipe {
  import opened CTypes

  const PIPESIZE: nat := 512

  // ---- the pipe as a value ----

  // stored is every byte ever put in, out every byte ever handed to a reader;
  // readers and writers are the processes asleep on &nread and &nwrite.
  datatype Queue = Queue(
    stored: seq<byte>,
    out: seq<byte>,
    readopen: bool,
    writeopen: bool,
    readers: set<nat>,
    writers: set<nat>)

  datatype Outcome = Done | Asleep | Failed

  function Held(q: Queue): int {
    |q.stored| - |q.out|
  }

  ghost predicate Ordered(q: Queue) {
    q.out <= q.stored && Held(q) <= PIPESIZE
  }

  // How many of the bytes i..n fit.
  function Room(q: Queue, i: nat, n: int): nat
    requires Ordered(q)
  {
    if n <= i then 0 else if n - i <= PIPESIZE - Held(q) then n - i else PIPESIZE - Held(q)
  }

  // How many bytes a request for n gets.
  function Available(q: Queue, n: int): nat
    requires Ordered(q)
  {
    if n <= 0 then 0 else if n <= Held(q) then n else Held(q)
  }

  // One section of pipewrite by pid, with addr[..i] already stored.
  ghost function WriteSection(q: Queue, pid: nat, addr: seq<byte>, i: nat, n: int, killed: bool): (Queue, nat, Outcome)
    requires Ordered(q) && i <= |addr| && n <= |addr|
  {
    var m := Room(q, i, n);
    var q1 := q.(stored := q.stored + addr[i..i + m]);
    if n <= i + m then (q1.(readers := {}), i + m, Done)
    else if !q.readopen || killed then (q1, i + m, Failed)
    else (q1.(readers := {}, writers := q.writers + {pid}), i + m, Asleep)
  }

  // One section of piperead by pid, asking for n bytes.
  ghost function ReadSection(q: Queue, pid: nat, n: int, killed: bool): (Queue, seq<byte>, Outcome)
    requires Ordered(q)
  {
    if Held(q) == 0 && q.writeopen then
      if killed then (q, [], Failed) else (q.(readers := q.readers + {pid}), [], Asleep)
    else
      var got := q.stored[|q.out|..|q.out| + Available(q, n)];
      (q.(out := q.out + got, writers := {}), got, Done)
  }

  ghost function CloseSection(q: Queue, writable: bool): Queue {
    if writable then q.(writeopen := false, readers := {}) else q.(readopen := false, writers := {})
  }

  // ---- runs ----

  datatype Step =
    | Write(pid: nat, addr: seq<byte>, i: nat, n: int, killed: bool)
    | Read(pid: nat, n: int, killed: bool)
    | Close(writable: bool)
    | Kill(pid: nat)   // kill makes a sleeper runnable

  ghost predicate Next(q: Queue, step: Step, q': Queue) {
    Ordered(q) && match step
    case Write(pid, addr, i, n, killed) =>
      i <= |addr| && n <= |addr| && q' == WriteSection(q, pid, addr, i, n, killed).0
    case Read(pid, n, killed) => q' == ReadSection(q, pid, n, killed).0
    case Close(writable) => q' == CloseSection(q, writable)
    case Kill(pid) => q' == q.(readers := q.readers - {pid}, writers := q.writers - {pid})
  }

  // pipealloc's pipe.
  const Fresh: Queue := Queue([], [], true, true, {}, {})

  ghost predicate IsRun(run: seq<Queue>, steps: seq<Step>) {
    && |run| == |steps| + 1 && run[0] == Fresh
    && forall i :: 0 <= i < |steps| ==> NextAt(run, steps, i)
  }

  ghost predicate NextAt(run: seq<Queue>, steps: seq<Step>, i: nat)
    requires i < |steps| && i + 1 < |run|
  {
    Next(run[i], steps[i], run[i + 1])
  }

  // A writer asleep has something to wait for.
  ghost predicate NoStrandedWriter(q: Queue) {
    q.writers != {} ==> Held(q) == PIPESIZE && q.readopen
  }

  ghost predicate NoStrandedReader(q: Queue) {
    q.readers != {} ==> Held(q) == 0 && q.writeopen
  }

  /** FIFO: in every run the bytes handed to readers are, in order, the first of
      the bytes stored, at most PIPESIZE are held, and no writer sleeps unless
      the pipe is full and can still be read. */
  lemma {:induction false} RunIsFifo(run: seq<Queue>, steps: seq<Step>, k: nat)
    requires IsRun(run, steps) && k < |run|
    ensures Ordered(run[k]) && NoStrandedWriter(run[k])
    decreases k
  {
    if k > 0 {
      RunIsFifo(run, steps, k - 1);
      assert NextAt(run, steps, k - 1);
    }
  }

  // ---- calls ----

  // The bytes that step k puts in.
  ghost function Added(run: seq<Queue>, k: nat): seq<byte>
    requires k + 1 < |run|
  {
    if |run[k].stored| <= |run[k + 1].stored| then run[k + 1].stored[|run[k].stored|..] else []
  }

  // What the section of pipewrite in step k returns: how far the call has come, and whether
  // it is over.
  ghost function Progress(run: seq<Queue>, steps: seq<Step>, k: nat): (nat, Outcome)
    requires IsRun(run, steps) && k < |steps| && steps[k].Write?
  {
    assert NextAt(run, steps, k);
    var w := WriteSection(run[k], steps[k].pid, steps[k].addr, steps[k].i, steps[k].n, steps[k].killed);
    (w.1, w.2)
  }

  // The steps ks are the sections of one call: the first starts at 0, and each later one
  // starts where the one before it went to sleep.
  ghost predicate IsCall(run: seq<Queue>, steps: seq<Step>, ks: seq<nat>, addr: seq<byte>, n: int) {
    && IsRun(run, steps) && ks != []
    && (forall j :: 0 <= j < |ks| ==> SectionOf(steps, ks[j], addr, n))
    && steps[ks[0]].i == 0
    && (forall j :: 0 <= j < |ks| - 1 ==> Resumes(run, steps, ks[j], ks[j + 1]))
  }

  predicate SectionOf(steps: seq<Step>, k: nat, addr: seq<byte>, n: int) {
    k < |steps| && steps[k].Write? && steps[k].addr == addr && steps[k].n == n
  }

  ghost predicate Resumes(run: seq<Queue>, steps: seq<Step>, k: nat, k': nat) {
    && IsRun(run, steps) && k < k' < |steps| && steps[k].Write? && steps[k'].Write?
    && Progress(run, steps, k) == (steps[k'].i, Asleep)
  }

  // What the first m sections put in, together.
  ghost function Together(run: seq<Queue>, steps: seq<Step>, ks: seq<nat>, m: nat): seq<byte>
    requires m <= |ks| && forall j :: 0 <= j < |ks| ==> ks[j] + 1 < |run|
  {
    if m == 0 then [] else Together(run, steps, ks, m - 1) + Added(run, ks[m - 1])
  }

  // One section goes on from where it starts.
  lemma SectionAdds(run: seq<Queue>, steps: seq<Step>, k: nat)
    requires IsRun(run, steps) && k < |steps| && steps[k].Write?
    ensures var (i, r) := Progress(run, steps, k);
      && steps[k].i <= i <= |steps[k].addr| && Added(run, k) == steps[k].addr[steps[k].i..i]
      && (if r == Done then i == (if steps[k].i < steps[k].n then steps[k].n else steps[k].i) else i < steps[k].n)
  {
    assert NextAt(run, steps, k);
  }

  /** The sections of a call of pipewrite put in, together and in order, exactly as much of
      addr as the call has come to, whatever other processes do in between; a call that is
      over has put in all n bytes. */
  lemma {:induction false} CallStoresItsBytes(run: seq<Queue>, steps: seq<Step>, ks: seq<nat>, addr: seq<byte>, n: int,
                                              m: nat)
    requires IsCall(run, steps, ks, addr, n) && 1 <= m <= |ks|
    ensures SectionOf(steps, ks[m - 1], addr, n)
    ensures var (i, r) := Progress(run, steps, ks[m - 1]);
      && i <= |addr| && Together(run, steps, ks, m) == addr[..i]
      && (r == Done ==> i == if n < 0 then 0 else n)
  {
    assert SectionOf(steps, ks[m - 1], addr, n);
    SectionAdds(run, steps, ks[m - 1]);
    if m > 1 {
      CallStoresItsBytes(run, steps, ks, addr, n, m - 1);
      assert Resumes(run, steps, ks[m - 2], ks[m - 1]);
    }
  }

  // What all steps before k put in, and what all reads before k returned.
  ghost function AllAdded(run: seq<Queue>, k: nat): seq<byte>
    requires k < |run|
  {
    if k == 0 then [] else AllAdded(run, k - 1) + Added(run, k - 1)
  }

  ghost function Got(run: seq<Queue>, steps: seq<Step>, k: nat): seq<byte>
    requires IsRun(run, steps) && k < |steps|
  {
    assert NextAt(run, steps, k);
    if steps[k].Read? then ReadSection(run[k], steps[k].pid, steps[k].n, steps[k].killed).1 else []
  }

  ghost function AllGot(run: seq<Queue>, steps: seq<Step>, k: nat): seq<byte>
    requires IsRun(run, steps) && k < |run|
  {
    if k == 0 then [] else AllGot(run, steps, k - 1) + Got(run, steps, k - 1)
  }

  lemma StepFlows(run: seq<Queue>, steps: seq<Step>, k: nat)
    requires IsRun(run, steps) && k < |steps|
    ensures run[k + 1].stored == run[k].stored + Added(run, k) && run[k + 1].out == run[k].out + Got(run, steps, k)
    ensures !steps[k].Write? ==> Added(run, k) == []
  {
    assert NextAt(run, steps, k);
  }

  lemma {:induction false} StoredIsAdded(run: seq<Queue>, steps: seq<Step>, k: nat)
    requires IsRun(run, steps) && k < |run|
    ensures run[k].stored == AllAdded(run, k)
    decreases k
  {
    if k > 0 {
      StoredIsAdded(run, steps, k - 1);
      StepFlows(run, steps, k - 1);
    }
  }

  lemma {:induction false} OutIsGot(run: seq<Queue>, steps: seq<Step>, k: nat)
    requires IsRun(run, steps) && k < |run|
    ensures run[k].out == AllGot(run, steps, k)
    decreases k
  {
    if k > 0 {
      OutIsGot(run, steps, k - 1);
      StepFlows(run, steps, k - 1);
    }
  }

  /** What readers got is, in order, the beginning of what writers put in, and nothing but a
      section of pipewrite puts anything in. */
  lemma ReadsArePrefixOfWrites(run: seq<Queue>, steps: seq<Step>, k: nat)
    requires IsRun(run, steps) && k < |run|
    ensures AllGot(run, steps, k) <= AllAdded(run, k)
    ensures k < |steps| && !steps[k].Write? ==> Added(run, k) == []
  {
    RunIsFifo(run, steps, k);
    StoredIsAdded(run, steps, k);
    OutIsGot(run, steps, k);
    if k < |steps| {
      StepFlows(run, steps, k);
    }
  }

  // ---- wakeups ----

  // A section of pipewrite gives up on a full pipe after filling it, while a
  // reader sleeps: the early return skips wakeup(&nread).
  ghost predicate ForgetsReader(q: Queue, step: Step) {
    step.Write? && q.readers != {} && step.n - step.i > PIPESIZE && (step.killed || !q.readopen)
  }

  /** Every section keeps "a reader sleeps only on an empty, open pipe", except
      exactly a pipewrite that fills the pipe and then gives up. */
  lemma ReaderStrandedIff(q: Queue, step: Step, q': Queue)
    requires Next(q, step, q') && NoStrandedReader(q)
    ensures NoStrandedReader(q') <==> !ForgetsReader(q, step)
  {
    if step.Write? && q.readers != {} {
      assert Held(q) == 0;
    }
  }

  /** So a reader is never left asleep in a run without such a section. */
  lemma {:induction false} RunNeverStrandsReader(run: seq<Queue>, steps: seq<Step>, k: nat)
    requires IsRun(run, steps) && k < |run|
    requires forall i :: 0 <= i < |steps| ==> !ForgetsReader(run[i], steps[i])
    ensures NoStrandedReader(run[k])
    decreases k
  {
    if k > 0 {
      RunNeverStrandsReader(run, steps, k - 1);
      assert NextAt(run, steps, k - 1);
      ReaderStrandedIff(run[k - 1], steps[k - 1], run[k]);
    }
  }

  /** And one such run exists: a reader goes to sleep, a killed writer fills the
      pipe and returns -1, and the reader still sleeps with 512 bytes to read. */
  lemma StrandedReaderRun() returns (run: seq<Queue>, steps: seq<Step>)
    ensures IsRun(run, steps) && Held(run[|steps|]) == PIPESIZE && run[|steps|].readers == {1}
    ensures run[|steps|].readopen && run[|steps|].writeopen
  {
    var bytes: seq<byte> := seq(PIPESIZE + 1, _ => 0);
    steps := [Read(1, 1, false), Write(2, bytes, 0, PIPESIZE + 1, true)];
    var q1 := ReadSection(Fresh, 1, 1, false).0;
    var q2 := WriteSection(q1, 2, bytes, 0, PIPESIZE + 1, true).0;
    run := [Fresh, q1, q2];
    assert |bytes[0..PIPESIZE]| == PIPESIZE;
  }

  /** piperead with n > 0 returns 0 only from a drained pipe that no one writes. */
  lemma EmptyReadMeansClosed(q: Queue, pid: nat, n: int, killed: bool)
    requires Ordered(q) && n > 0
    requires ReadSection(q, pid, n, killed).2 == Done && ReadSection(q, pid, n, killed).1 == []
    ensures Held(q) == 0 && !q.writeopen
  {
    assert |q.stored[|q.out|..|q.out| + Available(q, n)]| == 0;
  }

  // ---- the ring ----

  // PIPESIZE divides 2^32, so a counter indexes the ring correctly across its wrap.
  lemma RingIndex(x: nat)
    ensures x % UINT % PIPESIZE == x % PIPESIZE
  {
    var k := UINT / PIPESIZE;
    assert x == x / UINT * UINT + x % UINT;
    assert x == (x / UINT * k) * PIPESIZE + x % UINT;
    ModShift(x / UINT * k, x % UINT);
  }

  lemma {:induction false} ModShift(k: nat, r: nat)
    ensures (k * PIPESIZE + r) % PIPESIZE == r % PIPESIZE
  {
    if k > 0 {
      ModShift(k - 1, r);
      assert k * PIPESIZE + r == ((k - 1) * PIPESIZE + r) + PIPESIZE;
    }
  }

  // The wrapped counters still tell full from empty.
  lemma WrappedCompare(r: nat, w: nat)
    requires r <= w <= r + PIPESIZE
    ensures r % UINT == w % UINT <==> r == w
    ensures w % UINT == (r % UINT + PIPESIZE) % UINT <==> w == r + PIPESIZE
    ensures (w + 1) % UINT == (w % UINT + 1) % UINT
    ensures (r + 1) % UINT == (r % UINT + 1) % UINT
  {
    AddMod(r, w - r);
    AddMod(r, 1);
    AddMod(w, 1);
    AddMod(r % UINT, PIPESIZE);
  }

  lemma AddMod(x: nat, d: nat)
    requires d <= PIPESIZE
    ensures (x + d) % UINT == if x % UINT + d < UINT then x % UINT + d else x % UINT + d - UINT
    ensures x % UINT % UINT == x % UINT
  {
  }

  // Bytes held at the same time are in different slots.
  lemma DistinctSlots(a: nat, b: nat)
    requires a < b < a + PIPESIZE
    ensures a % PIPESIZE != b % PIPESIZE
  {
  }

  // The bytes not yet read are in the ring, each in its slot.
  ghost predicate Slots(d: seq<byte>, stored: seq<byte>, read: nat)
    requires |d| == PIPESIZE
  {
    forall k :: read <= k < |stored| ==> d[k % PIPESIZE] == stored[k]
  }

  class Ring {
    const data: array<byte>
    var nread: nat
    var nwrite: nat
    var readopen: bool
    var writeopen: bool
    var readers: set<nat>
    var writers: set<nat>
    ghost var stored: seq<byte>
    ghost var out: seq<byte>

    ghost function Abs(): Queue
      reads this
    {
      Queue(stored, out, readopen, writeopen, readers, writers)
    }

    ghost predicate Valid()
      reads this, data
    {
      && data.Length == PIPESIZE && Ordered(Abs())
      && nread == |out| % UINT && nwrite == |stored| % UINT
      && Slots(data[..], stored, |out|)
    }

    constructor ()
      ensures Valid() && Abs() == Fresh && fresh(data)
    {
      data := new byte[PIPESIZE](_ => 0);
      nread, nwrite := 0, 0;
      readopen, writeopen := true, true;
      readers, writers := {}, {};
      stored, out := [], [];
    }

    lemma Counters()
      requires Valid()
      ensures nread == nwrite <==> Held(Abs()) == 0
      ensures nwrite == (nread + PIPESIZE) % UINT <==> Held(Abs()) == PIPESIZE
    {
      WrappedCompare(|out|, |stored|);
    }

    // Store a byte at the write counter and advance it.
    method Put(b: byte)
      requires Valid() && Held(Abs()) < PIPESIZE
      modifies this`nwrite, this`stored, data
      ensures Valid() && Abs() == old(Abs()).(stored := old(stored) + [b])
    {
      WrappedCompare(|out|, |stored|);
      RingIndex(|stored|);
      forall k | |out| <= k < |stored| ensures k % PIPESIZE != |stored| % PIPESIZE { DistinctSlots(k, |stored|); }
      data[nwrite % PIPESIZE] := b;
      nwrite := (nwrite + 1) % UINT;
      stored := stored + [b];
    }

    // Fetch the byte at the read counter and advance it.
    method Get() returns (b: byte)
      requires Valid() && 0 < Held(Abs())
      modifies this`nread, this`out
      ensures Valid() && b == stored[|old(out)|] && Abs() == old(Abs()).(out := old(out) + [b])
    {
      WrappedCompare(|out|, |stored|);
      RingIndex(|out|);
      b := data[nread % PIPESIZE];
      nread := (nread + 1) % UINT;
      out := out + [b];
    }

    method Pipewrite(pid: nat, addr: seq<byte>, i0: nat, n: int, killed: bool) returns (i: nat, r: Outcome)
      requires Valid() && i0 <= |addr| && n <= |addr|
      modifies this, data
      ensures Valid()
      ensures (Abs(), i, r) == WriteSection(old(Abs()), pid, addr, i0, n, killed)
      ensures i0 <= i <= |addr| && stored == old(stored) + addr[i0..i] && out == old(out)
      ensures r == Done ==> i >= n && (i > i0 ==> i == n)
      ensures r != Done ==> i < n && |stored| == |out| + PIPESIZE && (r == Failed <==> !readopen || killed)
      ensures r == Asleep ==> pid in writers
      ensures r != Failed ==> readers == {}
    {
      i := i0;
      while i < n
        invariant Valid() && i0 <= i <= |addr| && (i0 < i ==> i <= n)
        invariant Abs() == old(Abs()).(stored := old(stored) + addr[i0..i])
      {
        Counters();
        if nwrite == (nread + PIPESIZE) % UINT {
          if !readopen || killed {
            return i, Failed;
          }
          readers := {};
          writers := writers + {pid};
          return i, Asleep;
        }
        Put(addr[i]);
        i := i + 1;
      }
      readers := {};
      return i, Done;
    }

    // piperead's copying loop.
    method CopyOut(n: int) returns (got: seq<byte>)
      requires Valid()
      modifies this`nread, this`out
      ensures Valid() && |got| == Available(old(Abs()), n)
      ensures got == stored[|old(out)|..|old(out)| + |got|]
      ensures Abs() == old(Abs()).(out := old(out) + got)
    {
      got := [];
      var i := 0;
      while i < n
        invariant Valid() && 0 <= i == |got| && (i == 0 || i <= n)
        invariant Abs() == old(Abs()).(out := old(out) + got)
        invariant |old(out)| + i <= |stored| && got == stored[|old(out)|..|old(out)| + i]
      {
        Counters();
        if nread == nwrite {
          break;
        }
        var b := Get();
        got := got + [b];
        i := i + 1;
      }
    }

    method Piperead(pid: nat, n: int, killed: bool) returns (got: seq<byte>, r: Outcome)
      requires Valid()
      modifies this
      ensures Valid()
      ensures (Abs(), got, r) == ReadSection(old(Abs()), pid, n, killed)
      ensures stored == old(stored) && out == old(out) + got
      ensures r == Done && |got| < n ==> out == stored
      ensures r != Done ==> got == [] && out == stored && writeopen && (r == Failed <==> killed)
      ensures r == Asleep ==> pid in readers
      ensures r == Done ==> writers == {} && (got == [] || |got| <= n)
    {
      Counters();
      if nread == nwrite && writeopen {
        if killed {
          return [], Failed;
        }
        readers := readers + {pid};
        return [], Asleep;
      }
      got := CopyOut(n);
      writers := {};
      return got, Done;
    }

    // The pipe is freed when its second end closes.
    method Pipeclose(writable: bool) returns (freed: bool)
      requires Valid()
      modifies this
      ensures Valid() && Abs() == CloseSection(old(Abs()), writable)
      ensures writeopen == (old(writeopen) && !writable) && readopen == (old(readopen) && writable)
      ensures freed <==> if writable then !old(readopen) else !old(writeopen)
    {
      if writable {
        writeopen := false;
        readers := {};
      } else {
        readopen := false;
        writers := {};
      }
      freed := !readopen && !writeopen;
    }
  }
}

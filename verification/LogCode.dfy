/** log.c itself: the in-memory log, and the loops that commit and recover it.

    The buffer cache appears as the flat store that Coherence proves it to be:
    `pinned` holds the cached blocks that are dirty, every other block reads
    as the disk has it.  `trace` records the disk after every single block
    write, so that a contract can speak of a crash between any two writes. */
module LogCode {
  import opened LogDisk

  class Log {
    const g: Geometry
    var disk: Disk
    var pinned: map<int, Block>
    var n: nat
    const block: array<int>
    var outstanding: int
    var committing: bool
    var waiting: set<nat>   // processes asleep on &log in begin_op
    ghost var trace: seq<Disk>

    ghost function Lh(): seq<int>
      requires n <= block.Length
      reads this`n, block
    {
      block[..n]
    }

    // The in-memory header: at most LOGSIZE entries, each a home block.
    ghost predicate HeaderOk()
      reads this`n, this`disk, block
    {
      && block.Length == LOGSIZE && n <= LOGSIZE
      && Entries(g, disk, Lh())
    }

    // The logged blocks are home blocks, none is logged twice, and exactly they are pinned
    // in the cache.
    ghost predicate Tidy()
      reads this`n, this`disk, this`pinned, block
    {
      && block.Length == LOGSIZE && n <= LOGSIZE
      && (forall i :: 0 <= i < n ==> Home(g, disk, block[i]))
      && (forall i, j :: 0 <= i < j < n ==> block[i] != block[j])
      && pinned.Keys == Named(Lh())
    }

    // Between commits: they also fit the log area, and the disk's log is empty.
    ghost predicate Valid()
      reads this`n, this`disk, this`pinned, block
    {
      Tidy() && HeaderOk() && WellFormed(g, disk) && Header(g, disk) == []
    }

    method Bread(b: int) returns (data: Block)
      requires 0 <= b < |disk|
      ensures data == View(pinned, disk, b)
    {
      if b in pinned { data := pinned[b]; } else { data := disk[b]; }
    }

    method Bwrite(b: int, data: Block)
      requires 0 <= b < |disk|
      modifies this`disk, this`pinned, this`trace
      ensures disk == old(disk)[b := data] && pinned == old(pinned) - {b}
      ensures trace == old(trace) + [disk]
    {
      disk := disk[b := data];
      pinned := pinned - {b};
      trace := trace + [disk];
    }

    // Copy modified blocks from the cache to the log.
    method WriteLog()
      requires HeaderOk() && forall i :: 0 <= i < n ==> block[i] in pinned
      requires forall b :: b in pinned ==> Home(g, disk, b)
      modifies this`disk, this`pinned, this`trace
      ensures disk == Copied(g, old(disk), DataOf(old(Lh()), old(pinned)), n)
      ensures pinned == old(pinned)
      ensures trace == old(trace) + CopiedStates(g, old(disk), DataOf(old(Lh()), old(pinned)), n)
    {
      ghost var data := DataOf(Lh(), pinned);
      for tail := 0 to n
        invariant pinned == old(pinned) && |disk| == |old(disk)|
        invariant disk == Copied(g, old(disk), data, tail)
        invariant trace == old(trace) + CopiedStates(g, old(disk), data, tail)
      {
        var from := Bread(block[tail]);
        Bwrite(g.start + tail + 1, from);
        assert g.start + tail + 1 !in pinned;
      }
    }

    // Write the in-memory header to disk.
    method WriteHead()
      requires block.Length == LOGSIZE && n <= LOGSIZE && g.start < |disk| && g.start !in pinned
      modifies this`disk, this`pinned, this`trace
      ensures disk == WithHeader(g, old(disk), Lh()) && pinned == old(pinned)
      ensures trace == old(trace) + [disk]
    {
      var hb: seq<int> := Bread(g.start);
      ghost var prev: Block := hb;
      hb := hb[0 := n];
      for i := 0 to n
        invariant |hb| == BWORDS && hb == [n] + block[..i] + prev[1 + i..]
      {
        hb := hb[1 + i := block[i]];
      }
      Bwrite(g.start, hb);
    }

    // Copy committed blocks from the log to their home location.
    method InstallTrans()
      requires HeaderOk()
      requires forall b :: b in pinned ==> Home(g, disk, b)
      modifies this`disk, this`pinned, this`trace
      ensures disk == Installed(g, old(disk), Lh(), n)
      ensures pinned == old(pinned) - Named(Lh())
      ensures trace == old(trace) + InstalledStates(g, old(disk), Lh(), n)
    {
      for tail := 0 to n
        invariant |disk| == |old(disk)| && disk == Installed(g, old(disk), Lh(), tail)
        invariant pinned == old(pinned) - Named(block[..tail])
        invariant trace == old(trace) + InstalledStates(g, old(disk), Lh(), tail)
      {
        var lbuf := Bread(g.start + tail + 1);
        InstalledAt(g, old(disk), Lh(), tail, g.start + tail + 1);
        OneUnpinned(old(pinned), Lh(), tail);
        assert Lh()[..tail] == block[..tail] && Lh()[..tail + 1] == block[..tail + 1];
        Bwrite(block[tail], lbuf);
      }
    }

    // The end of commit and of recovery: install, then clear the header.
    method InstallAndClear()
      requires HeaderOk() && forall b :: b in pinned ==> Home(g, disk, b)
      modifies this`disk, this`pinned, this`trace, this`n
      ensures n == 0 && pinned == old(pinned) - Named(old(Lh()))
      ensures disk == WithHeader(g, Installed(g, old(disk), old(Lh()), old(n)), [])
      ensures trace == old(trace) + InstalledStates(g, old(disk), old(Lh()), old(n)) + [disk]
    {
      InstallTrans();
      n := 0;
      WriteHead();
    }

    // Read the log header from disk into the in-memory header.
    method ReadHead()
      requires block.Length == LOGSIZE && WellFormed(g, disk) && g.start !in pinned
      modifies this`n, block
      ensures n == |Header(g, disk)| && Lh() == Header(g, disk)
    {
      var lh := Bread(g.start);
      n := lh[0];
      for i := 0 to n
        invariant n == lh[0] && block[..i] == lh[1..1 + i]
      {
        block[i] := lh[1 + i];
      }
    }

    /** Recovery with an empty cache: the disk goes through exactly the states
        of RecoveryState and ends with every home block at its durable value
        and the log empty. */
    method RecoverFromLog()
      requires block.Length == LOGSIZE && pinned == map[] && WellFormed(g, disk)
      modifies this`disk, this`pinned, this`trace, this`n, block
      ensures Valid() && n == 0 && disk == Recovered(g, old(disk))
      ensures forall b :: Home(g, disk, b) ==> View(pinned, disk, b) == Durable(g, old(disk), b)
      ensures trace == old(trace) + RecoveryStates(g, old(disk))
    {
      ReadHead();
      InstallAndClear();
      RecoveryStatesAre(g, old(disk));
      RecoveredIsDurable(g, old(disk));
    }

    /** Commit: the disk goes through exactly the 2n + 2 states of CommitState,
        and at the end every block reads as before the call, now from disk. */
    method Commit()
      requires Valid()
      modifies this`disk, this`pinned, this`trace, this`n
      ensures Valid() && n == 0 && pinned == map[]
      ensures |disk| == |old(disk)|
      ensures forall b :: Home(g, disk, b) ==> View(pinned, disk, b) == old(View(pinned, disk, b))
      ensures old(n) == 0 ==> disk == old(disk) && trace == old(trace)
      ensures old(n) > 0 ==>
                trace == old(trace) + CommitStates(g, old(disk), old(Lh()), DataOf(old(Lh()), old(pinned)))
    {
      if n > 0 {
        ghost var d, lh, pins := disk, Lh(), pinned;
        WriteTransaction();
        CommittedReadsBack(g, d, lh, DataOf(lh, pins), pins);
      }
    }

    // What commit does when there is something to commit.
    method WriteTransaction()
      requires Valid()
      modifies this`disk, this`pinned, this`trace, this`n
      ensures n == 0 && block.Length == LOGSIZE && pinned == map[]
      ensures disk == CommitState(g, old(disk), old(Lh()), DataOf(old(Lh()), old(pinned)), 2 * old(n) + 2)
      ensures trace == old(trace) + CommitStates(g, old(disk), old(Lh()), DataOf(old(Lh()), old(pinned)))
    {
      ghost var d, lh, data := disk, Lh(), DataOf(Lh(), pinned);
      WriteLog();
      WriteHead();
      InstallAndClear();
      ghost var committed := WithHeader(g, Copied(g, d, data, |lh|), lh);
      AppendFour(old(trace), CopiedStates(g, d, data, |lh|), [committed],
                 InstalledStates(g, committed, lh, |lh|), [disk]);
    }

    // A process sleeps in begin_op only if it would not be admitted.
    ghost predicate WaitsForReason()
      reads this`waiting, this`committing, this`n, this`outstanding
    {
      waiting != {} ==> committing || n + (outstanding + 1) * MAXOPBLOCKS > LOGSIZE
    }

    /** One pass of begin_op's loop under log.lock: the operation is admitted, or
        it goes to sleep and is to try again. */
    method BeginOp(pid: nat) returns (admitted: bool)
      modifies this`outstanding, this`waiting
      ensures admitted <==> !committing && n + (old(outstanding) + 1) * MAXOPBLOCKS <= LOGSIZE
      ensures outstanding == old(outstanding) + if admitted then 1 else 0
      ensures waiting == old(waiting) + if admitted then {} else {pid}
      ensures old(WaitsForReason()) ==> WaitsForReason()
    {
      if committing {
        waiting := waiting + {pid};
        return false;
      } else if n + (outstanding + 1) * MAXOPBLOCKS > LOGSIZE {
        waiting := waiting + {pid};
        return false;
      }
      outstanding := outstanding + 1;
      return true;
    }

    // log_write's tests, which it makes without the lock.
    method LogTest() returns (panicked: bool)
      ensures panicked <==> n >= LOGSIZE || n >= g.size - 1 || outstanding < 1
    {
      if n >= LOGSIZE || n >= g.size - 1 {
        return true;
      }
      if outstanding < 1 {
        return true;
      }
      return false;
    }

    // The slot of block b in the header, or the next free one.
    method Slot(b: int) returns (i: nat)
      requires n <= block.Length
      ensures i <= n && b !in block[..i] && (i < n ==> block[i] == b)
    {
      i := 0;
      while i < n && block[i] != b
        invariant 0 <= i <= n
        invariant b !in block[..i]
      {
        i := i + 1;
      }
    }

    /** The rest of log_write, under the lock, whatever happened since the tests: block b with
        contents data is logged once and pinned, or it is new and the header is full.  A
        log that was in order stays so if and only if it still fits the log area. */
    method LogAppend(b: int, data: Block) returns (full: bool)
      requires Tidy() && Home(g, disk, b)
      modifies this`n, this`pinned, block
      ensures Tidy() && (full <==> old(n) == LOGSIZE && b !in old(Lh()))
      ensures full ==> Lh() == old(Lh()) && pinned == old(pinned)
      ensures !full ==> Lh() == Absorb(old(Lh()), b) && pinned == old(pinned)[b := data]
      ensures old(Valid()) ==> (Valid() <==> n < g.size)
      ensures old(WaitsForReason()) ==> WaitsForReason()
    {
      var i := Slot(b);
      if i == LOGSIZE {
        return true;
      }
      block[i] := b;
      if i == n {
        n := n + 1;
        assert Lh() == old(Lh()) + [b];
      } else {
        assert Lh() == old(Lh());
      }
      pinned := pinned[b := data];
      return false;
    }

    /** log_write of a buffer holding block b with contents data, with no other append
        between its tests and its own: the block is logged once and pinned, or the kernel
        panics. */
    method LogWrite(b: int, data: Block) returns (panicked: bool)
      requires Valid() && Home(g, disk, b)
      modifies this`n, this`pinned, block
      ensures panicked <==> old(n) >= LOGSIZE || old(n) >= g.size - 1 || outstanding < 1
      ensures Valid()
      ensures panicked ==> n == old(n) && Lh() == old(Lh()) && pinned == old(pinned)
      ensures !panicked ==> Lh() == Absorb(old(Lh()), b) && pinned == old(pinned)[b := data]
      ensures old(WaitsForReason()) ==> WaitsForReason()
    {
      panicked := LogTest();
      if !panicked {
        var full := LogAppend(b, data);
      }
    }

    /** end_op: the last operation out commits the whole transaction, and every process
        asleep in begin_op is woken. */
    method EndOp() returns (panicked: bool)
      requires Valid()
      modifies this`outstanding, this`committing, this`waiting, this`disk, this`pinned, this`trace, this`n
      ensures panicked <==> old(committing)
      ensures outstanding == old(outstanding) - 1 && Valid() && committing == old(committing)
      ensures waiting == if panicked then old(waiting) else {}
      ensures panicked || outstanding != 0 ==>
                disk == old(disk) && pinned == old(pinned) && n == old(n) && trace == old(trace)
      ensures !panicked && outstanding == 0 ==>
                && n == 0 && pinned == map[] && |disk| == |old(disk)|
                && (forall b :: Home(g, disk, b) ==> disk[b] == old(View(pinned, disk, b)))
                && trace == old(trace) + if old(n) == 0 then []
                                         else CommitStates(g, old(disk), old(Lh()), DataOf(old(Lh()), old(pinned)))
    {
      outstanding := outstanding - 1;
      if committing {
        return true;
      }
      if outstanding == 0 {
        committing := true;
        Commit();
        committing := false;
        waiting := {};
      } else {
        waiting := {};
      }
      return false;
    }
  }

  // The cached contents of the logged blocks.
  function DataOf(lh: seq<int>, pins: map<int, Block>): seq<Block>
    requires forall i :: 0 <= i < |lh| ==> lh[i] in pins
  {
    seq(|lh|, i requires 0 <= i < |lh| => pins[lh[i]])
  }

  // The header after log_write(b): an already logged block is absorbed.
  function Absorb(lh: seq<int>, b: int): seq<int> {
    if b in lh then lh else lh + [b]
  }

  lemma AppendFour<T>(t: seq<T>, a: seq<T>, b: seq<T>, c: seq<T>, d: seq<T>)
    ensures t + a + b + c + d == t + (a + b + c + d)
  {
  }

  // After the last write of commit the disk holds what the cache showed.
  lemma CommittedReadsBack(g: Geometry, d: Disk, lh: seq<int>, data: seq<Block>, pins: map<int, Block>)
    requires WellFormed(g, d) && Header(g, d) == [] && Entries(g, d, lh) && |data| == |lh|
    requires pins.Keys == Named(lh)
    requires forall i :: 0 <= i < |lh| ==> data[i] == pins[lh[i]]
    ensures var c := CommitState(g, d, lh, data, 2 * |lh| + 2);
            && WellFormed(g, c) && Header(g, c) == []
            && forall b :: Home(g, d, b) ==> c[b] == if b in pins then pins[b] else d[b]
  {
    CommitIsAtomic(g, d, lh, data, 2 * |lh| + 2);
    var c := CommitState(g, d, lh, data, 2 * |lh| + 2);
    forall b | Home(g, d, b) ensures c[b] == if b in pins then pins[b] else d[b] {
      LatestIsPinned(g, d, lh, data, |lh|, b, pins);
      assert lh[..|lh|] == lh;
      assert Durable(g, c, b) == c[b];
    }
  }

  // The newest logged value of b is its pinned one.
  lemma {:induction false} LatestIsPinned(g: Geometry, d: Disk, lh: seq<int>, data: seq<Block>, k: nat, b: int,
                                          pins: map<int, Block>)
    requires |data| == |lh| && k <= |lh| && 0 <= b < |d|
    requires forall i :: 0 <= i < |lh| ==> lh[i] in pins && data[i] == pins[lh[i]]
    ensures Latest(g, d, lh, data, k, b) == if b in lh[..k] then pins[b] else d[b]
  {
    if k > 0 {
      assert lh[..k] == lh[..k - 1] + [lh[k - 1]];
      LatestIsPinned(g, d, lh, data, k - 1, b, pins);
    }
  }
}

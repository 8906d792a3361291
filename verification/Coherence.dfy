/** Cache coherence: any number of processes call bread, change buffers, and call
    log_write, bwrite and brelse in any interleaving; log_write and bwrite are
    also what commit and recovery are made of.

    A handle is one call of bread: it waits for the buffer's sleep-lock, holds
    it, gives it up, and drops its reference, in separate steps.  `latest` is the
    flat block map that the cache is to look like: the last value written to each
    block by log_write or bwrite.  `txn` is the set of blocks in the open
    transaction. */
module Coherence {
  import opened LogDisk
  import opened BufList
  import opened Bio

  // Locked(clean): clean while the buffer has not been changed since it was
  // last read, logged or written.
  datatype Stage = Waiting | Locked(clean: bool) | Unlocked | Gone

  datatype Handle = Handle(b: nat, dev: nat, blockno: nat, stage: Stage)

  datatype State = State(
    c: Cache,
    disk: Disk,
    latest: Disk,
    txn: set<nat>,
    handles: seq<Handle>,
    last: seq<int>,   // when each buffer's reference count last fell to zero
    time: int)

  datatype Step =
    | Get(dev: nat, blockno: nat)       // bget, up to acquiresleep
    | Lock(h: nat)                      // acquiresleep returns
    | Fill(h: nat)                      // bread reads the block if it must
    | Modify(h: nat, data: Block)
    | LogWrite(h: nat)
    | Bwrite(h: nat)
    | Unlock(h: nat)                    // brelse: releasesleep
    | Drop(h: nat)                      //   and the rest

  // Handle h holds its buffer's lock, and the buffer has been read.
  predicate Holds(s: State, h: nat) {
    && h < |s.handles| && s.handles[h].stage.Locked? && s.handles[h].b < |s.c.bufs|
    && s.c.bufs[s.handles[h].b].valid
  }

  function Buffer(s: State, h: nat): Buf
    requires h < |s.handles| && s.handles[h].b < |s.c.bufs|
  {
    s.c.bufs[s.handles[h].b]
  }

  function WithBuffer(s: State, h: nat, f: Buf, stage: Stage): State
    requires h < |s.handles| && s.handles[h].b < |s.c.bufs|
  {
    s.(c := s.c.(bufs := s.c.bufs[s.handles[h].b := f]), handles := s.handles[h := s.handles[h].(stage := stage)])
  }

  ghost predicate Next(s: State, step: Step, s': State) {
    match step
    case Get(dev, blockno) =>
      && Bio.WellFormed(s.c)
      && var (c, b) := Got(s.c, dev, blockno);
      && 0 <= b
      && s' == s.(c := c, handles := s.handles + [Handle(b, dev, blockno, Waiting)])
    case Lock(h) =>
      && h < |s.handles| && s.handles[h].stage == Waiting && s.handles[h].b < |s.c.bufs|
      && Buffer(s, h).holder == NOBODY
      && s' == WithBuffer(s, h, Buffer(s, h).(holder := h), Locked(true))
    case Fill(h) =>
      // iderw panics on another device or past the end of the disk
      && h < |s.handles| && s.handles[h].stage.Locked? && s.handles[h].b < |s.c.bufs|
      && !Buffer(s, h).valid && Buffer(s, h).dev == DISKDEV && Buffer(s, h).blockno < |s.disk|
      && s' == WithBuffer(s, h, Buffer(s, h).(valid := true, data := s.disk[Buffer(s, h).blockno]), Locked(true))
    case Modify(h, data) =>
      Holds(s, h) && s' == WithBuffer(s, h, Buffer(s, h).(data := data), Locked(false))
    case LogWrite(h) =>
      && Holds(s, h) && Buffer(s, h).blockno < |s.latest|
      && s' == WithBuffer(s, h, Buffer(s, h).(dirty := true), Locked(true)).(
                 latest := s.latest[Buffer(s, h).blockno := Buffer(s, h).data], txn := s.txn + {Buffer(s, h).blockno})
    case Bwrite(h) =>
      && Holds(s, h) && Buffer(s, h).blockno < |s.latest| && Buffer(s, h).blockno < |s.disk|
      && s' == WithBuffer(s, h, Buffer(s, h).(dirty := false), Locked(true)).(
                 disk := s.disk[Buffer(s, h).blockno := Buffer(s, h).data],
                 latest := s.latest[Buffer(s, h).blockno := Buffer(s, h).data],
                 txn := s.txn - {Buffer(s, h).blockno})
    case Unlock(h) =>
      // a caller logs or writes what it changed before it releases
      && Holds(s, h) && s.handles[h].stage.clean
      && s' == WithBuffer(s, h, Buffer(s, h).(holder := NOBODY), Unlocked)
    case Drop(h) =>
      && h < |s.handles| && s.handles[h].stage == Unlocked && s.handles[h].b < |s.c.bufs|
      && s.handles[h].b in s.c.order && Buffer(s, h).refcnt > 0 && |s.last| == |s.c.bufs|
      && var c := Dropped(s.c, s.handles[h].b);
      && var zero := c.bufs[s.handles[h].b].refcnt == 0;
      && s' == s.(c := c, handles := s.handles[h := s.handles[h].(stage := Gone)],
                  last := if zero then s.last[s.handles[h].b := s.time] else s.last,
                  time := if zero then s.time + 1 else s.time)
  }

  // After binit, with the disk as it is.
  ghost predicate Init(s: State) {
    && s.latest == s.disk && s.txn == {} && s.handles == [] && s.time == |s.c.bufs|
    && (forall b :: 0 <= b < |s.c.bufs| ==> s.c.bufs[b] == Buf(0, 0, false, false, 0, NOBODY, s.c.bufs[b].data))
    && s.c.order == seq(|s.c.bufs|, i => |s.c.bufs| - 1 - i)
    && s.last == seq(|s.c.bufs|, i => i)
  }

  // ---- the invariant ----

  // References to buffer b that are not yet dropped.
  function Refs(handles: seq<Handle>, b: nat): nat {
    if handles == [] then 0
    else
      var h := handles[|handles| - 1];
      Refs(handles[..|handles| - 1], b) + if h.b == b && h.stage != Gone then 1 else 0
  }

  // No one is in the middle of changing buffer b.
  predicate Settled(s: State, b: nat)
    requires b < |s.c.bufs|
  {
    var h := s.c.bufs[b].holder;
    h == NOBODY || (0 <= h < |s.handles| && s.handles[h].stage == Locked(true))
  }

  ghost predicate BufOk(s: State, b: nat)
    requires b < |s.c.bufs|
  {
    var f := s.c.bufs[b];
    && f.refcnt == Refs(s.handles, b)
    && (f.holder == NOBODY || (0 <= f.holder < |s.handles| && s.handles[f.holder].b == b &&
      s.handles[f.holder].stage.Locked?))
    && (f.valid ==> f.dev == DISKDEV && f.blockno < |s.disk| == |s.latest|)
    && (f.dirty ==> f.valid && f.blockno in s.txn)
    && (f.valid && Settled(s, b) ==> f.data == s.latest[f.blockno])
  }

  ghost predicate HandleOk(s: State, h: nat)
    requires h < |s.handles|
  {
    var x := s.handles[h];
    && (x.stage != Gone ==> x.b < |s.c.bufs| && Caches(s.c.bufs[x.b], x.dev, x.blockno))
    && (x.stage.Locked? ==> s.c.bufs[x.b].holder == h)
    && (x.stage == Locked(false) ==> s.c.bufs[x.b].valid)
  }

  // At most one buffer caches a block.
  ghost predicate UniqueOk(s: State, a: nat, b: nat)
    requires a < |s.c.bufs| && b < |s.c.bufs|
  {
    a != b && s.c.bufs[a].dev != 0 ==> !Caches(s.c.bufs[b], s.c.bufs[a].dev, s.c.bufs[a].blockno)
  }

  // Buffer b pins block n for the open transaction.
  predicate Pins(s: State, b: nat, n: nat) {
    b < |s.c.bufs| && Caches(s.c.bufs[b], DISKDEV, n) && s.c.bufs[b].dirty
  }

  ghost predicate BlockOk(s: State, n: nat)
    requires n < |s.disk| == |s.latest|
  {
    if n in s.txn then exists b: nat :: Pins(s, b, n) else s.disk[n] == s.latest[n]
  }

  // The list is in the order in which reference counts last fell to zero.
  ghost predicate OrderOk(s: State) {
    && Complete(s.c.order, |s.c.bufs|) && |s.last| == |s.c.bufs|
    && (forall i :: 0 <= i < |s.last| ==> s.last[i] < s.time)
    && (forall i, j :: 0 <= i < j < |s.c.order| ==> s.last[s.c.order[j]] < s.last[s.c.order[i]])
  }

  ghost predicate Inv(s: State) {
    && |s.latest| == |s.disk| && OrderOk(s)
    && (forall n :: n in s.txn ==> n < |s.disk|)
    && (forall b :: 0 <= b < |s.c.bufs| ==> BufOk(s, b))
    && (forall h :: 0 <= h < |s.handles| ==> HandleOk(s, h))
    && (forall a, b :: 0 <= a < |s.c.bufs| && 0 <= b < |s.c.bufs| ==> UniqueOk(s, a, b))
    && (forall n :: 0 <= n < |s.disk| ==> BlockOk(s, n))
  }

  lemma {:induction false} RefsUpdate(handles: seq<Handle>, h: nat, x: Handle, b: nat)
    requires h < |handles|
    ensures Refs(handles[h := x], b) ==
            Refs(handles, b) - (if handles[h].b == b && handles[h].stage != Gone then 1 else 0)
            + if x.b == b && x.stage != Gone then 1 else 0
  {
    var m := |handles| - 1;
    if h < m {
      assert handles[h := x][..m] == handles[..m][h := x];
      RefsUpdate(handles[..m], h, x, b);
    } else {
      assert handles[h := x][..m] == handles[..m];
    }
  }

  // A buffer without references has no live handle.
  lemma {:induction false} NoRefs(handles: seq<Handle>, b: nat, h: nat)
    requires h < |handles| && handles[h].b == b && handles[h].stage != Gone
    ensures Refs(handles, b) > 0
  {
    var m := |handles| - 1;
    if h < m { NoRefs(handles[..m], b, h); }
  }

  // ---- each step keeps it ----

  // The disk is current for a block whose buffer has not been read.
  lemma UnreadIsClean(s: State, b: nat)
    requires Inv(s) && b < |s.c.bufs| && !s.c.bufs[b].valid
    requires s.c.bufs[b].dev == DISKDEV && s.c.bufs[b].blockno < |s.disk|
    ensures s.disk[s.c.bufs[b].blockno] == s.latest[s.c.bufs[b].blockno]
  {
    var n := s.c.bufs[b].blockno;
    assert BlockOk(s, n) && BufOk(s, b);
    forall x: nat ensures !Pins(s, x, n) {
      assert x < |s.c.bufs| ==> UniqueOk(s, b, x);
    }
  }

  // The steps that touch only the buffer of handle h, seen from buffer b, handle
  // x and block n.
  ghost predicate Local(s: State, step: Step, s': State) {
    && Next(s, step, s') && !step.Get? && !step.Drop? && |s.latest| == |s.disk|
    && HandleOk(s, step.h) && BufOk(s, s.handles[step.h].b)
    && (step.Fill? ==> s.disk[Buffer(s, step.h).blockno] == s.latest[Buffer(s, step.h).blockno])
  }

  lemma LocalBuf(s: State, step: Step, s': State, b: nat)
    requires Local(s, step, s') && b < |s.c.bufs| && BufOk(s, b) && UniqueOk(s, s.handles[step.h].b, b)
    ensures |s'.c.bufs| == |s.c.bufs| && BufOk(s', b)
  {
    RefsUpdate(s.handles, step.h, s'.handles[step.h], b);
  }

  lemma LocalHandle(s: State, step: Step, s': State, x: nat)
    requires Local(s, step, s') && x < |s.handles| && HandleOk(s, x)
    ensures |s'.handles| == |s.handles| && HandleOk(s', x)
  {
  }

  lemma LocalBlock(s: State, step: Step, s': State, n: nat)
    requires Local(s, step, s') && n < |s.disk| && BlockOk(s, n)
    requires forall b :: 0 <= b < |s.c.bufs| ==> UniqueOk(s, s.handles[step.h].b, b)
    ensures |s'.disk| == |s'.latest| == |s.disk| && BlockOk(s', n)
  {
    var b0 := s.handles[step.h].b;
    if n in s.txn {
      var b: nat :| Pins(s, b, n);
      assert UniqueOk(s, b0, b);
      assert n in s'.txn ==> Pins(s', b, n);
    }
    if step.LogWrite? && n == s.c.bufs[b0].blockno { assert Pins(s', b0, n); }
  }

  lemma LocalKeeps(s: State, step: Step, s': State)
    requires Inv(s) && Next(s, step, s') && !step.Get? && !step.Drop?
    ensures Inv(s')
  {
    var b0 := s.handles[step.h].b;
    assert HandleOk(s, step.h) && BufOk(s, b0);
    if step.Fill? { UnreadIsClean(s, b0); }
    forall b | 0 <= b < |s'.c.bufs| ensures BufOk(s', b) {
      assert BufOk(s, b) && UniqueOk(s, b0, b);
      LocalBuf(s, step, s', b);
    }
    forall x | 0 <= x < |s'.handles| ensures HandleOk(s', x) { assert HandleOk(s, x); LocalHandle(s, step, s', x); }
    forall n | 0 <= n < |s'.disk| ensures BlockOk(s', n) { assert BlockOk(s, n); LocalBlock(s, step, s', n); }
    forall a, b | 0 <= a < |s'.c.bufs| && 0 <= b < |s'.c.bufs| ensures UniqueOk(s', a, b) { assert UniqueOk(s, a, b); }
  }

  lemma GetKeeps(s: State, dev: nat, blockno: nat, s': State)
    requires Inv(s) && Next(s, Get(dev, blockno), s')
    ensures Inv(s')
  {
    FindRange(s.c, dev, blockno, 0);
    VictimRange(s.c, |s.c.order|);
    var found := FindFrom(s.c, dev, blockno, 0) != NONE;
    var b0 := s'.handles[|s.handles|].b;
    assert s'.handles[..|s.handles|] == s.handles;
    assert BufOk(s, b0);
    forall b | 0 <= b < |s'.c.bufs| ensures BufOk(s', b) { assert BufOk(s, b); }
    forall h | 0 <= h < |s'.handles| ensures HandleOk(s', h) {
      if h < |s.handles| {
        assert HandleOk(s, h);
        if !found && s.handles[h].b == b0 && s.handles[h].stage != Gone { NoRefs(s.handles, b0, h); }
      }
    }
    forall a, b | 0 <= a < |s'.c.bufs| && 0 <= b < |s'.c.bufs| ensures UniqueOk(s', a, b) {
      assert UniqueOk(s, a, b);
      if !found { assert a in s.c.order && b in s.c.order; }
    }
    forall n | 0 <= n < |s'.disk| ensures BlockOk(s', n) {
      assert BlockOk(s, n);
      if n in s.txn {
        var b: nat :| Pins(s, b, n);
        assert Pins(s', b, n);
      }
    }
  }

  lemma DropKeeps(s: State, h: nat, s': State)
    requires Inv(s) && Next(s, Drop(h), s')
    ensures Inv(s')
  {
    var b0 := s.handles[h].b;
    assert HandleOk(s, h) && BufOk(s, b0);
    DropOrder(s, h, s');
    forall b | 0 <= b < |s'.c.bufs| ensures BufOk(s', b) {
      assert BufOk(s, b);
      RefsUpdate(s.handles, h, s'.handles[h], b);
    }
    forall x | 0 <= x < |s'.handles| ensures HandleOk(s', x) { assert HandleOk(s, x); }
    forall a, b | 0 <= a < |s'.c.bufs| && 0 <= b < |s'.c.bufs| ensures UniqueOk(s', a, b) { assert UniqueOk(s, a, b); }
    forall n | 0 <= n < |s'.disk| ensures BlockOk(s', n) {
      assert BlockOk(s, n);
      if n in s.txn {
        var b: nat :| Pins(s, b, n);
        assert Pins(s', b, n);
      }
    }
  }

  lemma DropOrder(s: State, h: nat, s': State)
    requires OrderOk(s) && Next(s, Drop(h), s')
    ensures OrderOk(s')
  {
    var b0, order := s.handles[h].b, s.c.order;
    if s'.c.bufs[b0].refcnt == 0 {
      FrontIsNewest(order, s.last, Position(order, b0), s.time);
    }
  }

  // Moving the buffer at k to the front, with the newest time, keeps the order of times.
  lemma FrontIsNewest(order: seq<nat>, last: seq<int>, k: nat, time: int)
    requires Complete(order, |last|) && k < |order| && forall i :: 0 <= i < |last| ==> last[i] < time
    requires forall i, j :: 0 <= i < j < |order| ==> last[order[j]] < last[order[i]]
    ensures var order', last' := ToFront(order, k), last[order[k] := time];
      && Complete(order', |last|) && forall i, j :: 0 <= i < j < |order'| ==> last'[order'[j]] < last'[order'[i]]
  {
    var order', last' := ToFront(order, k), last[order[k] := time];
    ToFrontComplete(order, |last|, k);
    forall i, j | 0 <= i < j < |order'| ensures last'[order'[j]] < last'[order'[i]] {
      ToFrontAt(order, k, i);
      ToFrontAt(order, k, j);
    }
  }

  lemma StepKeeps(s: State, step: Step, s': State)
    requires Inv(s) && Next(s, step, s')
    ensures Inv(s')
  {
    match step
    case Get(dev, blockno) => GetKeeps(s, dev, blockno, s');
    case Drop(h) => DropKeeps(s, h, s');
    case _ => LocalKeeps(s, step, s');
  }

  ghost predicate IsRun(run: seq<State>, steps: seq<Step>) {
    && |run| == |steps| + 1 && Init(run[0])
    && forall i :: 0 <= i < |steps| ==> NextAt(run, steps, i)
  }

  ghost predicate NextAt(run: seq<State>, steps: seq<Step>, i: nat)
    requires i < |steps| && i + 1 < |run|
  {
    Next(run[i], steps[i], run[i + 1])
  }

  lemma InitOk(s: State)
    requires Init(s)
    ensures Inv(s)
  {
    forall b | 0 <= b < |s.c.bufs| ensures b in s.c.order { assert s.c.order[|s.c.bufs| - 1 - b] == b; }
  }

  lemma {:induction false} RunKeeps(run: seq<State>, steps: seq<Step>, i: nat)
    requires IsRun(run, steps) && i < |run|
    ensures Inv(run[i])
    decreases i
  {
    if i == 0 {
      InitOk(run[0]);
    } else {
      RunKeeps(run, steps, i - 1);
      assert NextAt(run, steps, i - 1);
      StepKeeps(run[i - 1], steps[i - 1], run[i]);
    }
  }

  // ---- the theorems ----

  /** bread returns what was last written: in every run, the buffer that a call of
      bread(dev, blockno) has locked and not yet changed caches that block and
      holds its latest value. */
  lemma BreadReturnsLatest(run: seq<State>, steps: seq<Step>, i: nat, h: nat)
    requires IsRun(run, steps) && i < |run| && Holds(run[i], h) && run[i].handles[h].stage.clean
    ensures var s, x := run[i], run[i].handles[h];
            && Caches(Buffer(s, h), x.dev, x.blockno) && x.dev == DISKDEV && x.blockno < |s.latest|
            && Buffer(s, h).data == s.latest[x.blockno]
  {
    RunKeeps(run, steps, i);
    assert HandleOk(run[i], h) && BufOk(run[i], run[i].handles[h].b);
  }

  // Valid, locked by no one, and not dirty.
  predicate Idle(f: Buf) {
    f.valid && f.holder == NOBODY && !f.dirty
  }

  /** At most one buffer caches a block, every block of the open transaction stays
      cached, dirty and so unrecyclable, and any other valid buffer that no one
      has locked equals the disk. */
  lemma CacheIsCoherent(run: seq<State>, steps: seq<Step>, i: nat)
    requires IsRun(run, steps) && i < |run|
    ensures var s := run[i];
            && (forall a, b :: 0 <= a < b < |s.c.bufs| && s.c.bufs[a].dev != 0 ==>
                  !Caches(s.c.bufs[b], s.c.bufs[a].dev, s.c.bufs[a].blockno))
            && (forall n :: n in s.txn ==>
                  exists b: nat :: Pins(s, b, n) && s.c.bufs[b].valid && !Recyclable(s.c.bufs[b]))
            && (forall b :: 0 <= b < |s.c.bufs| && Idle(s.c.bufs[b]) ==>
                  s.c.bufs[b].blockno < |s.disk| && s.c.bufs[b].data == s.disk[s.c.bufs[b].blockno])
  {
    RunKeeps(run, steps, i);
    var s := run[i];
    forall a, b | 0 <= a < b < |s.c.bufs| && s.c.bufs[a].dev != 0
      ensures !Caches(s.c.bufs[b], s.c.bufs[a].dev, s.c.bufs[a].blockno)
    {
      assert UniqueOk(s, a, b);
    }
    forall n | n in s.txn ensures exists b: nat :: Pins(s, b, n) && s.c.bufs[b].valid && !Recyclable(s.c.bufs[b]) {
      assert BlockOk(s, n);
      var b: nat :| Pins(s, b, n);
      assert BufOk(s, b);
    }
    forall b | 0 <= b < |s.c.bufs| && Idle(s.c.bufs[b])
      ensures s.c.bufs[b].blockno < |s.disk| && s.c.bufs[b].data == s.disk[s.c.bufs[b].blockno]
    {
      UndirtyIsDisk(s, b);
    }
  }

  lemma UndirtyIsDisk(s: State, b: nat)
    requires Inv(s) && b < |s.c.bufs| && Idle(s.c.bufs[b])
    ensures s.c.bufs[b].blockno < |s.disk| && s.c.bufs[b].data == s.disk[s.c.bufs[b].blockno]
  {
    assert BufOk(s, b);
    var n := s.c.bufs[b].blockno;
    assert BlockOk(s, n);
    forall x: nat ensures !Pins(s, x, n) {
      assert x < |s.c.bufs| ==> UniqueOk(s, b, x);
    }
  }

  /** When bget must recycle, it takes the least recently released of the buffers
      that are idle and not dirty, and it panics only if there is none. */
  lemma RecyclesLeastRecent(run: seq<State>, steps: seq<Step>, i: nat, dev: nat, blockno: nat, b: nat)
    requires IsRun(run, steps) && i < |run| && b < |run[i].c.bufs|
    ensures Bio.WellFormed(run[i].c) && |run[i].last| == |run[i].c.bufs|
    ensures var s := run[i];
            var victim := Got(s.c, dev, blockno).1;
            (forall x :: 0 <= x < |s.c.bufs| ==> !Caches(s.c.bufs[x], dev, blockno)) && Recyclable(s.c.bufs[b]) ==>
              && 0 <= victim < |s.c.bufs| && Recyclable(s.c.bufs[victim])
              && (victim != b ==> s.last[victim] < s.last[b])
  {
    RunKeeps(run, steps, i);
    var s := run[i];
    FindRange(s.c, dev, blockno, 0);
    VictimRange(s.c, |s.c.order|);
    assert b in s.c.order;
    var k :| 0 <= k < |s.c.order| && s.c.order[k] == b;
    var v := VictimBefore(s.c, |s.c.order|);
    if v != NONE && k < v { assert s.last[s.c.order[v]] < s.last[s.c.order[k]]; }
  }

  // The cache as the flat store of the log: the disk, and the blocks pinned over it.
  ghost function Pinned(s: State): map<int, Block>
    requires forall n :: n in s.txn ==> n < |s.latest|
  {
    map n: nat | n in s.txn :: s.latest[n]
  }

  /** Refinement: through the cache every block reads as the flat store has it;
      log_write pins a value, bwrite writes it through and unpins it, and nothing
      else changes the store. */
  lemma StepRefinesStore(s: State, step: Step, s': State, n: nat)
    requires Inv(s) && Next(s, step, s') && n < |s.disk|
    ensures Inv(s') && |s'.disk| == |s.disk|
    ensures s.latest[n] == if n in Pinned(s) then Pinned(s)[n] else s.disk[n]
    ensures step.LogWrite? ==>
              s'.disk == s.disk && Pinned(s') == Pinned(s)[Buffer(s, step.h).blockno := Buffer(s, step.h).data]
    ensures step.Bwrite? ==>
              && s'.disk == s.disk[Buffer(s, step.h).blockno := Buffer(s, step.h).data]
              && Pinned(s') == Pinned(s) - {Buffer(s, step.h).blockno}
    ensures !step.LogWrite? && !step.Bwrite? ==> s'.disk == s.disk && Pinned(s') == Pinned(s)
  {
    StepKeeps(s, step, s');
    assert BlockOk(s, n);
  }
}

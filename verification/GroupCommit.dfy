/** Group commit as a step system: any number of file-system operations run
    begin_op / log_write / end_op in any interleaving, commit and recovery
    write one block at a time, and the machine may crash between any two steps.

    log_write is two steps: its tests read the log without the lock, and the append comes
    later, under the lock, without a test.

    The ghost fields `hist` and `durable` say what the disk is worth: `hist` is
    every logged write since the file system was made, less what crashes lost,
    and its first `durable` entries are the ones a crash cannot lose. */
module GroupCommit {
  import opened LogDisk
  import opened LogCode
  import opened LogStore

  // One operation between its begin_op and its end_op; used counts the blocks it has added
  // to the log, and it has passed while it is between log_write's tests and its append.
  datatype Op = Op(active: bool, used: nat, passed: bool)

  datatype Write = Write(op: nat, b: int, data: Block)

  // Commit and recovery remember what they started from and how many block writes they
  // have done.
  datatype Phase =
    | Running
    | Committing(base: Store, k: nat)
    | Recovering(disk: Disk, k: nat)

  datatype State = State(
    store: Store,
    lh: seq<int>,
    outstanding: int,
    committing: bool,
    phase: Phase,
    waiting: set<nat>,   // processes asleep in begin_op
    ops: seq<Op>,
    hist: seq<Write>,
    durable: nat)

  datatype Step =
    | BeginOp
    | Wait(pid: nat)     // begin_op goes to sleep
    | LogTest(op: nat)
    | LogAppend(op: nat, b: int, data: Block)
    | EndOp(op: nat)
    | CommitWrite
    | CommitDone
    | Crash
    | RecoverWrite
    | RecoverDone

  ghost predicate Init(g: Geometry, d0: Disk, s: State) {
    && WellFormed(g, d0) && Header(g, d0) == []
    && s == State(Store(d0, map[]), [], 0, false, Running, {}, [], [], 0)
  }

  // begin_op's test (log.c:130-139).
  predicate Admits(s: State) {
    !s.committing && |s.lh| + (s.outstanding + 1) * MAXOPBLOCKS <= LOGSIZE
  }

  // log_write's panics (log.c:218-221).
  predicate LogWritePanics(g: Geometry, s: State) {
    |s.lh| >= LOGSIZE || |s.lh| >= g.size - 1 || s.outstanding < 1
  }

  predicate Active(s: State, op: nat) {
    op < |s.ops| && s.ops[op].active
  }

  // An operation that stays within its promise: a block new to the log costs one
  // unit of its MAXOPBLOCKS.  log_write itself does not test this.
  predicate WithinBudget(s: State, op: nat, b: int) {
    Active(s, op) && (b in s.lh || s.ops[op].used < MAXOPBLOCKS)
  }

  ghost predicate Next(g: Geometry, s: State, step: Step, s': State) {
    match step
    case BeginOp =>
      && s.phase.Running? && Admits(s)
      && s' == s.(outstanding := s.outstanding + 1, ops := s.ops + [Op(true, 0, false)])
    case Wait(pid) =>
      && !s.phase.Recovering? && !Admits(s)
      && s' == s.(waiting := s.waiting + {pid})
    case LogTest(op) =>
      && Active(s, op) && !s.ops[op].passed && !LogWritePanics(g, s)
      && s' == s.(ops := s.ops[op := Op(true, s.ops[op].used, true)])
    case LogAppend(op, b, data) =>
      && Active(s, op) && s.ops[op].passed && Home(g, s.store.disk, b)
      && var used := s.ops[op].used + if b in s.lh then 0 else 1;
      && s' == s.(lh := Absorb(s.lh, b), store := Store(s.store.disk, s.store.pins[b := data]),
                  ops := s.ops[op := Op(true, used, false)], hist := s.hist + [Write(op, b, data)])
    case EndOp(op) =>
      && Active(s, op) && !s.ops[op].passed && !s.committing
      && var s1 := s.(outstanding := s.outstanding - 1, ops := s.ops[op := Op(false, s.ops[op].used, false)]);
      && s' == if s.outstanding == 1 then s1.(committing := true, phase := Committing(s.store, 0))
               else s1.(waiting := {})
    case CommitWrite =>
      && s.phase.Committing? && 0 < |s.lh| && s.phase.k < 2 * |s.lh| + 2 && Writable(g, s.lh, s.store.disk)
      && var k := s.phase.k + 1;
      && s' == s.(store := CommitNext(g, s.lh, s.store, s.phase.k),
                  phase := Committing(s.phase.base, k),
                  durable := if k == |s.lh| + 1 then |s.hist| else s.durable)
    case CommitDone =>
      && s.phase.Committing? && (s.lh == [] || s.phase.k == 2 * |s.lh| + 2)
      && s' == s.(lh := [], committing := false, phase := Running, waiting := {})
    case Crash =>
      && s.durable <= |s.hist|
      && s' == State(Store(s.store.disk, map[]), [], 0, false, Recovering(s.store.disk, 0), {},
                     seq(|s.ops|, _ => Op(false, 0, false)), s.hist[..s.durable], s.durable)
    case RecoverWrite =>
      && s.phase.Recovering? && WellFormed(g, s.phase.disk) && s.phase.k <= |Header(g, s.phase.disk)|
      && s' == s.(store := Store(RecoveryState(g, s.phase.disk, s.phase.k + 1), s.store.pins),
                  phase := Recovering(s.phase.disk, s.phase.k + 1))
    case RecoverDone =>
      && s.phase.Recovering? && WellFormed(g, s.phase.disk) && s.phase.k == |Header(g, s.phase.disk)| + 1
      && s' == s.(phase := Running)
  }

  ghost predicate IsRun(g: Geometry, d0: Disk, run: seq<State>, steps: seq<Step>) {
    && |run| == |steps| + 1 && Init(g, d0, run[0])
    && forall i :: 0 <= i < |steps| ==> NextAt(g, run, steps, i)
  }

  ghost predicate NextAt(g: Geometry, run: seq<State>, steps: seq<Step>, i: nat)
    requires i < |steps| && i + 1 < |run|
  {
    Next(g, run[i], steps[i], run[i + 1])
  }

  // ---- meaning ----

  // The value of block b after a list of writes.
  function Replay(d0: Disk, hist: seq<Write>, b: int): Block
    requires 0 <= b < |d0|
  {
    if hist == [] then d0[b]
    else
      var last := hist[|hist| - 1];
      if last.b == b then last.data else Replay(d0, hist[..|hist| - 1], b)
  }

  function Outstanding(ops: seq<Op>): nat {
    if ops == [] then 0
    else Outstanding(ops[..|ops| - 1]) + if ops[|ops| - 1].active then 1 else 0
  }

  // Log slots that the active operations may still claim.
  function Unspent(ops: seq<Op>): int {
    if ops == [] then 0
    else Unspent(ops[..|ops| - 1]) + if ops[|ops| - 1].active then MAXOPBLOCKS - ops[|ops| - 1].used else 0
  }

  // Every operation is wholly in the first k writes or wholly after them, and
  // those within are over.
  ghost predicate WholeOps(ops: seq<Op>, hist: seq<Write>, k: nat) {
    && k <= |hist|
    && (forall i :: 0 <= i < |hist| ==> hist[i].op < |ops|)
    && (forall i :: 0 <= i < k ==> !ops[hist[i].op].active)
    && (forall i, j :: 0 <= i < k <= j < |hist| ==> hist[i].op != hist[j].op)
  }

  ghost predicate DurableIs(g: Geometry, d0: Disk, d: Disk, hist: seq<Write>) {
    && |d| == |d0| && WellFormed(g, d)
    && forall b :: Home(g, d0, b) ==> Durable(g, d, b) == Replay(d0, hist, b)
  }

  // What a crash would leave is the replay of whole, finished operations.
  ghost predicate CrashSafe(g: Geometry, d0: Disk, s: State) {
    WholeOps(s.ops, s.hist, s.durable) && DurableIs(g, d0, s.store.disk, s.hist[..s.durable])
  }

  ghost predicate ViewIs(g: Geometry, d0: Disk, st: Store, hist: seq<Write>) {
    && |st.disk| == |d0|
    && forall b :: Home(g, d0, b) ==> View(st.pins, st.disk, b) == Replay(d0, hist, b)
  }

  // ---- what every run keeps ----

  ghost predicate Accounts(s: State) {
    && s.outstanding == Outstanding(s.ops)
    && (s.committing <==> s.phase.Committing?)
    && (!s.phase.Running? ==> s.outstanding == 0)
    && (s.phase.Running? && s.outstanding == 0 ==> s.lh == [])
    && (s.waiting != {} ==> !s.phase.Recovering? && !Admits(s))
  }

  ghost predicate Distinct(lh: seq<int>) {
    forall i, j :: 0 <= i < j < |lh| ==> lh[i] != lh[j]
  }

  // The in-memory books, whatever the disk holds.
  ghost predicate Books(s: State) {
    && WholeOps(s.ops, s.hist, s.durable) && Accounts(s) && Distinct(s.lh)
    && (s.phase.Committing? && s.phase.k > |s.lh| ==> s.durable == |s.hist|)
    && (s.phase.Recovering? ==> s.durable == |s.hist| && s.lh == [])
  }

  lemma {:induction false} UpdateOutstanding(ops: seq<Op>, i: nat, op: Op)
    requires i < |ops|
    ensures Outstanding(ops[i := op]) ==
      Outstanding(ops) - (if ops[i].active then 1 else 0) + if op.active then 1 else 0
  {
    var m := |ops| - 1;
    if i < m {
      assert ops[i := op][..m] == ops[..m][i := op];
      UpdateOutstanding(ops[..m], i, op);
    } else {
      assert ops[i := op][..m] == ops[..m];
    }
  }

  lemma {:induction false} UpdateUnspent(ops: seq<Op>, i: nat, op: Op)
    requires i < |ops|
    ensures Unspent(ops[i := op]) == Unspent(ops) - (if ops[i].active then MAXOPBLOCKS - ops[i].used else 0)
                                     + if op.active then MAXOPBLOCKS - op.used else 0
  {
    var m := |ops| - 1;
    if i < m {
      assert ops[i := op][..m] == ops[..m][i := op];
      UpdateUnspent(ops[..m], i, op);
    } else {
      assert ops[i := op][..m] == ops[..m];
    }
  }

  lemma {:induction false} NoneOutstanding(ops: seq<Op>)
    ensures Outstanding(ops) == 0 <==> forall i :: 0 <= i < |ops| ==> !ops[i].active
  {
    if ops != [] {
      var m := |ops| - 1;
      NoneOutstanding(ops[..m]);
      assert forall i :: 0 <= i < m ==> ops[..m][i] == ops[i];
    }
  }

  lemma {:induction false} UnspentBounds(ops: seq<Op>)
    requires forall i :: 0 <= i < |ops| ==> ops[i].used <= MAXOPBLOCKS
    ensures 0 <= Unspent(ops) <= MAXOPBLOCKS * Outstanding(ops)
  {
    if ops != [] {
      var m := |ops| - 1;
      UnspentBounds(ops[..m]);
    }
  }

  lemma {:induction false} NoneUnspent(ops: seq<Op>)
    requires forall i :: 0 <= i < |ops| ==> !ops[i].active
    ensures Unspent(ops) == 0
  {
    if ops != [] {
      assert forall i :: 0 <= i < |ops| - 1 ==> ops[..|ops| - 1][i] == ops[i];
      NoneUnspent(ops[..|ops| - 1]);
    }
  }

  lemma StepBooks(g: Geometry, s: State, step: Step, s': State)
    requires Books(s) && Next(g, s, step, s')
    ensures Books(s')
  {
    NoneOutstanding(s.ops);
    match step
    case BeginOp => assert s'.ops[..|s.ops|] == s.ops;
    case LogTest(op) => UpdateOutstanding(s.ops, op, s'.ops[op]);
    case LogAppend(op, b, data) => UpdateOutstanding(s.ops, op, s'.ops[op]);
    case EndOp(op) => UpdateOutstanding(s.ops, op, s'.ops[op]);
    case Crash => NoneOutstanding(s'.ops);
    case _ =>
  }

  lemma {:induction false} RunBooks(g: Geometry, d0: Disk, run: seq<State>, steps: seq<Step>, i: nat)
    requires IsRun(g, d0, run, steps) && i < |run|
    ensures Books(run[i])
    decreases i
  {
    if i > 0 {
      RunBooks(g, d0, run, steps, i - 1);
      assert NextAt(g, run, steps, i - 1);
      StepBooks(g, run[i - 1], steps[i - 1], run[i]);
    }
  }

  /** An operation that is still open never meets a commit, so end_op's panic
      "log.committing" cannot happen. */
  lemma EndOpNeverPanics(g: Geometry, d0: Disk, run: seq<State>, steps: seq<Step>, i: nat, op: nat)
    requires IsRun(g, d0, run, steps) && i < |run| && Active(run[i], op)
    ensures !run[i].committing && run[i].phase.Running? && run[i].outstanding >= 1
  {
    RunBooks(g, d0, run, steps, i);
    NoneOutstanding(run[i].ops);
  }

  /** A process asleep in begin_op has reason to be: it would not be admitted, and some
      operation or commit is under way whose end wakes it. */
  lemma WaiterHasWaker(g: Geometry, d0: Disk, run: seq<State>, steps: seq<Step>, i: nat)
    requires IsRun(g, d0, run, steps) && i < |run| && run[i].waiting != {}
    ensures !Admits(run[i]) && (run[i].committing || exists op: nat :: Active(run[i], op))
  {
    RunBooks(g, d0, run, steps, i);
    NoneOutstanding(run[i].ops);
    var s := run[i];
    if !s.committing {
      var op :| 0 <= op < |s.ops| && s.ops[op].active;
      assert Active(s, op);
    }
  }

  /** Absorption: in every run, whatever operations log, no block is logged twice. */
  lemma LoggedOnce(g: Geometry, d0: Disk, run: seq<State>, steps: seq<Step>, i: nat)
    requires IsRun(g, d0, run, steps) && i < |run|
    ensures forall j, k :: 0 <= j < k < |run[i].lh| ==> run[i].lh[j] != run[i].lh[k]
  {
    RunBooks(g, d0, run, steps, i);
  }

  // ---- log space ----

  // The log slots in use and those still promised fit the log.
  ghost predicate Reserved(s: State) {
    && |s.lh| + Unspent(s.ops) <= LOGSIZE
    && (forall i :: 0 <= i < |s.ops| ==> s.ops[i].used <= MAXOPBLOCKS)
  }

  // Every operation of the run stays within its promise.
  ghost predicate KeepsPromise(run: seq<State>, steps: seq<Step>) {
    |run| == |steps| + 1 && forall i :: 0 <= i < |steps| ==> PromiseAt(run, steps, i)
  }

  predicate PromiseAt(run: seq<State>, steps: seq<Step>, i: nat)
    requires i < |steps| && i < |run|
  {
    steps[i].LogAppend? ==> WithinBudget(run[i], steps[i].op, steps[i].b)
  }

  lemma StepReserves(g: Geometry, s: State, step: Step, s': State)
    requires Accounts(s) && Reserved(s) && Next(g, s, step, s')
    requires step.LogAppend? ==> WithinBudget(s, step.op, step.b)
    ensures Reserved(s')
  {
    UnspentBounds(s.ops);
    match step
    case BeginOp => assert s'.ops[..|s.ops|] == s.ops;
    case LogTest(op) => UpdateUnspent(s.ops, op, s'.ops[op]);
    case LogAppend(op, b, data) => UpdateUnspent(s.ops, op, s'.ops[op]);
    case EndOp(op) => UpdateUnspent(s.ops, op, s'.ops[op]);
    case Crash => NoneUnspent(s'.ops);
    case _ =>
  }

  /** Log space: if every operation stays within its promise, the slots in use and those
      still promised never exceed LOGSIZE. */
  lemma {:induction false} SpaceIsReserved(g: Geometry, d0: Disk, run: seq<State>, steps: seq<Step>, i: nat)
    requires IsRun(g, d0, run, steps) && KeepsPromise(run, steps) && i < |run|
    ensures Reserved(run[i])
    decreases i
  {
    if i > 0 {
      SpaceIsReserved(g, d0, run, steps, i - 1);
      RunBooks(g, d0, run, steps, i - 1);
      assert NextAt(g, run, steps, i - 1) && PromiseAt(run, steps, i - 1);
      StepReserves(g, run[i - 1], steps[i - 1], run[i]);
    }
  }

  lemma UnspentAtLeast(ops: seq<Op>, op: nat)
    requires op < |ops| && ops[op].active
    requires forall i :: 0 <= i < |ops| ==> ops[i].used <= MAXOPBLOCKS
    ensures Unspent(ops) >= MAXOPBLOCKS - ops[op].used && Outstanding(ops) >= 1
  {
    UpdateUnspent(ops, op, Op(false, 0, false));
    UnspentBounds(ops[op := Op(false, 0, false)]);
    NoneOutstanding(ops);
  }

  // An append of b has room: in the header, and in the log area.
  predicate HasRoom(g: Geometry, s: State, b: int) {
    b in s.lh || (|s.lh| < LOGSIZE && |s.lh| < g.size - 1)
  }

  predicate RoomAt(g: Geometry, run: seq<State>, steps: seq<Step>, i: nat)
    requires i < |steps| && i < |run|
  {
    steps[i].LogAppend? ==> HasRoom(g, run[i], steps[i].b)
  }

  // Every append of the run has room.
  ghost predicate Roomy(g: Geometry, run: seq<State>, steps: seq<Step>) {
    |run| == |steps| + 1 && forall i :: 0 <= i < |steps| ==> RoomAt(g, run, steps, i)
  }

  // With a data block for each of the LOGSIZE slots, promises make room.
  lemma PromiseHasRoom(g: Geometry, d0: Disk, run: seq<State>, steps: seq<Step>)
    requires IsRun(g, d0, run, steps) && KeepsPromise(run, steps) && g.size - 1 >= LOGSIZE
    ensures Roomy(g, run, steps)
  {
    forall i | 0 <= i < |steps| ensures RoomAt(g, run, steps, i) {
      SpaceIsReserved(g, d0, run, steps, i);
      assert PromiseAt(run, steps, i);
      if steps[i].LogAppend? { UnspentAtLeast(run[i].ops, steps[i].op); }
    }
  }

  // Every append comes straight after the same operation's tests.
  ghost predicate Unraced(steps: seq<Step>) {
    forall i :: 0 <= i < |steps| && steps[i].LogAppend? ==> i > 0 && steps[i - 1] == LogTest(steps[i].op)
  }

  // Without races log_write's own tests make room, whatever the operations promise.
  lemma UnracedHasRoom(g: Geometry, d0: Disk, run: seq<State>, steps: seq<Step>)
    requires IsRun(g, d0, run, steps) && Unraced(steps)
    ensures Roomy(g, run, steps)
  {
    forall i | 0 <= i < |steps| ensures RoomAt(g, run, steps, i) {
      if steps[i].LogAppend? { assert NextAt(g, run, steps, i - 1); }
    }
  }

  // In a log area without data blocks no operation passes the tests.
  lemma {:induction false} NonePasses(g: Geometry, d0: Disk, run: seq<State>, steps: seq<Step>, i: nat)
    requires IsRun(g, d0, run, steps) && i < |run| && g.size <= 1
    ensures forall op :: 0 <= op < |run[i].ops| ==> !run[i].ops[op].passed
    decreases i
  {
    if i > 0 {
      NonePasses(g, d0, run, steps, i - 1);
      assert NextAt(g, run, steps, i - 1);
    }
  }

  lemma NoLogHasRoom(g: Geometry, d0: Disk, run: seq<State>, steps: seq<Step>)
    requires IsRun(g, d0, run, steps) && g.size <= 1
    ensures Roomy(g, run, steps)
  {
    forall i | 0 <= i < |steps| ensures RoomAt(g, run, steps, i) {
      NonePasses(g, d0, run, steps, i);
      assert NextAt(g, run, steps, i);
    }
  }

  // ---- the invariant ----

  ghost predicate PhaseOk(g: Geometry, d0: Disk, s: State) {
    && |s.store.disk| == |d0|
    && match s.phase
       case Running => CommitStarts(g, s.lh, s.store) && ViewIs(g, d0, s.store, s.hist)
       case Committing(base, k) =>
         && |base.disk| == |d0| && CommitStarts(g, s.lh, base) && CommitAt(g, s.lh, base, s.store, k)
         && ViewIs(g, d0, base, s.hist) && (s.lh == [] ==> k == 0)
       case Recovering(d, k) =>
         && |d| == |d0| && WellFormed(g, d) && k <= |Header(g, d)| + 1
         && s.store == Store(RecoveryState(g, d, k), map[])
  }

  ghost predicate Inv(g: Geometry, d0: Disk, s: State) {
    Books(s) && DurableIs(g, d0, s.store.disk, s.hist[..s.durable]) && PhaseOk(g, d0, s)
  }

  lemma LogAppendKeeps(g: Geometry, d0: Disk, s: State, op: nat, b: int, data: Block, s': State)
    requires Inv(g, d0, s) && Next(g, s, LogAppend(op, b, data), s') && HasRoom(g, s, b)
    ensures Inv(g, d0, s')
  {
    StepBooks(g, s, LogAppend(op, b, data), s');
    NoneOutstanding(s.ops);
    assert s'.hist[..s.durable] == s.hist[..s.durable];
    Appended(g, d0, s.lh, s.store, s.hist, op, b, data);
  }

  lemma Appended(g: Geometry, d0: Disk, lh: seq<int>, st: Store, hist: seq<Write>, op: nat, b: int, data: Block)
    requires CommitStarts(g, lh, st) && ViewIs(g, d0, st, hist) && Home(g, st.disk, b)
    requires b in lh || (|lh| < LOGSIZE && |lh| < g.size - 1)
    ensures var st' := Store(st.disk, st.pins[b := data]);
      CommitStarts(g, Absorb(lh, b), st') && ViewIs(g, d0, st', hist + [Write(op, b, data)])
  {
    assert (hist + [Write(op, b, data)])[..|hist|] == hist;
  }

  lemma EndOpKeeps(g: Geometry, d0: Disk, s: State, op: nat, s': State)
    requires Inv(g, d0, s) && Next(g, s, EndOp(op), s')
    ensures Inv(g, d0, s')
  {
    StepBooks(g, s, EndOp(op), s');
    NoneOutstanding(s.ops);
    CommitBegins(g, s.lh, s.store);
  }

  // What commit is to make of block b: the newest logged value is the pinned one.
  lemma LatestIsView(g: Geometry, lh: seq<int>, base: Store, b: int)
    requires CommitStarts(g, lh, base) && 0 <= b < |base.disk|
    ensures Latest(g, base.disk, lh, DataOf(lh, base.pins), |lh|, b) == View(base.pins, base.disk, b)
  {
    LatestIsPinned(g, base.disk, lh, DataOf(lh, base.pins), |lh|, b, base.pins);
    assert lh[..|lh|] == lh;
  }

  lemma CommitShape(g: Geometry, lh: seq<int>, base: Store, st: Store, k: nat)
    requires CommitStarts(g, lh, base) && CommitAt(g, lh, base, st, k)
    ensures |st.disk| == |base.disk| && WellFormed(g, st.disk)
    ensures Header(g, st.disk) == if |lh| < k < 2 * |lh| + 2 then lh else []
  {
    CommitIsAtomic(g, base.disk, lh, DataOf(lh, base.pins), k);
  }

  // Commit switches each durable value from the old disk's to what the cache shows.
  lemma CommitDurable(g: Geometry, lh: seq<int>, base: Store, st: Store, k: nat, b: int)
    requires CommitStarts(g, lh, base) && CommitAt(g, lh, base, st, k) && Home(g, base.disk, b)
    ensures |st.disk| == |base.disk| && WellFormed(g, st.disk)
    ensures Durable(g, st.disk, b) == if k <= |lh| then base.disk[b] else View(base.pins, base.disk, b)
  {
    CommitIsAtomic(g, base.disk, lh, DataOf(lh, base.pins), k);
    LatestIsView(g, lh, base, b);
  }

  // A write of write_log leaves the durable values as they were,
  lemma BeforeHeader(g: Geometry, d0: Disk, lh: seq<int>, base: Store, st: Store, st': Store, k: nat, hist: seq<Write>)
    requires CommitStarts(g, lh, base) && CommitAt(g, lh, base, st, k) && CommitAt(g, lh, base, st', k + 1)
    requires |base.disk| == |d0| && k < |lh| && DurableIs(g, d0, st.disk, hist)
    ensures DurableIs(g, d0, st'.disk, hist)
  {
    CommitShape(g, lh, base, st', k + 1);
    forall b | Home(g, d0, b) ensures Durable(g, st'.disk, b) == Replay(d0, hist, b) {
      CommitDurable(g, lh, base, st, k, b);
      CommitDurable(g, lh, base, st', k + 1, b);
    }
  }

  // and from the header write on they are what the cache shows.
  lemma AfterHeader(g: Geometry, d0: Disk, lh: seq<int>, base: Store, st: Store, k: nat, hist: seq<Write>)
    requires CommitStarts(g, lh, base) && CommitAt(g, lh, base, st, k) && k > |lh| && ViewIs(g, d0, base, hist)
    ensures DurableIs(g, d0, st.disk, hist)
  {
    CommitShape(g, lh, base, st, k);
    forall b | Home(g, d0, b) ensures Durable(g, st.disk, b) == Replay(d0, hist, b) {
      CommitDurable(g, lh, base, st, k, b);
    }
  }

  lemma CommitWriteKeeps(g: Geometry, d0: Disk, s: State, s': State)
    requires Inv(g, d0, s) && Next(g, s, CommitWrite, s')
    ensures Inv(g, d0, s')
  {
    StepBooks(g, s, CommitWrite, s');
    CommitWriteDisk(g, d0, s, s');
  }

  lemma CommitWriteDisk(g: Geometry, d0: Disk, s: State, s': State)
    requires PhaseOk(g, d0, s) && Next(g, s, CommitWrite, s') && Books(s')
    requires s.durable <= |s.hist| && DurableIs(g, d0, s.store.disk, s.hist[..s.durable])
    ensures PhaseOk(g, d0, s') && DurableIs(g, d0, s'.store.disk, s'.hist[..s'.durable])
  {
    var base, k := s.phase.base, s.phase.k;
    CommitAdvances(g, s.lh, base, s.store, k);
    WriteDurable(g, d0, s.lh, base, s.store, s'.store, k, s.hist, s.durable, s'.durable);
  }

  lemma WriteDurable(g: Geometry, d0: Disk, lh: seq<int>, base: Store, st: Store, st': Store, k: nat,
                     hist: seq<Write>, durable: nat, durable': nat)
    requires CommitStarts(g, lh, base) && CommitAt(g, lh, base, st, k) && CommitAt(g, lh, base, st', k + 1)
    requires ViewIs(g, d0, base, hist) && durable <= |hist| && DurableIs(g, d0, st.disk, hist[..durable])
    requires durable' == if k < |lh| then durable else |hist|
    ensures DurableIs(g, d0, st'.disk, hist[..durable'])
  {
    if k < |lh| {
      BeforeHeader(g, d0, lh, base, st, st', k, hist[..durable]);
    } else {
      AfterHeader(g, d0, lh, base, st', k + 1, hist);
      assert hist[..durable'] == hist;
    }
  }

  lemma CommitDoneKeeps(g: Geometry, d0: Disk, s: State, s': State)
    requires Inv(g, d0, s) && Next(g, s, CommitDone, s')
    ensures Inv(g, d0, s')
  {
    StepBooks(g, s, CommitDone, s');
    CommitEnded(g, d0, s.lh, s.phase.base, s.store, s.phase.k, s.hist);
  }

  lemma CommitEnded(g: Geometry, d0: Disk, lh: seq<int>, base: Store, st: Store, k: nat, hist: seq<Write>)
    requires CommitStarts(g, lh, base) && CommitAt(g, lh, base, st, k) && ViewIs(g, d0, base, hist)
    requires if lh == [] then k == 0 else k == 2 * |lh| + 2
    ensures CommitStarts(g, [], st) && ViewIs(g, d0, st, hist)
  {
    CommitShape(g, lh, base, st, k);
    assert st.pins == map[];
    forall b | Home(g, d0, b) ensures View(st.pins, st.disk, b) == Replay(d0, hist, b) {
      CommitDurable(g, lh, base, st, k, b);
      assert Durable(g, st.disk, b) == st.disk[b];
    }
  }

  lemma CrashKeeps(g: Geometry, d0: Disk, s: State, s': State)
    requires Inv(g, d0, s) && Next(g, s, Crash, s')
    ensures Inv(g, d0, s')
  {
    StepBooks(g, s, Crash, s');
    assert s'.hist[..s'.durable] == s.hist[..s.durable];
    assert Installed(g, s.store.disk, Header(g, s.store.disk), 0) == s.store.disk;
  }

  lemma RecoverWriteKeeps(g: Geometry, d0: Disk, s: State, s': State)
    requires Inv(g, d0, s) && Next(g, s, RecoverWrite, s')
    ensures Inv(g, d0, s')
  {
    StepBooks(g, s, RecoverWrite, s');
    RecoveryKeepsDurable(g, s.phase.disk, s.phase.k);
    RecoveryKeepsDurable(g, s.phase.disk, s.phase.k + 1);
    assert DurableIs(g, d0, s'.store.disk, s'.hist[..s'.durable]);
  }

  lemma RecoverDoneKeeps(g: Geometry, d0: Disk, s: State, s': State)
    requires Inv(g, d0, s) && Next(g, s, RecoverDone, s')
    ensures Inv(g, d0, s')
  {
    StepBooks(g, s, RecoverDone, s');
    RecoveryKeepsDurable(g, s.phase.disk, s.phase.k);
    assert s.hist[..s.durable] == s.hist;
    forall b | Home(g, d0, b) ensures View(s.store.pins, s.store.disk, b) == Replay(d0, s.hist, b) {
      assert Durable(g, s.store.disk, b) == s.store.disk[b];
    }
  }

  lemma StepKeeps(g: Geometry, d0: Disk, s: State, step: Step, s': State)
    requires Inv(g, d0, s) && Next(g, s, step, s') && (step.LogAppend? ==> HasRoom(g, s, step.b))
    ensures Inv(g, d0, s')
  {
    match step
    case LogAppend(op, b, data) => LogAppendKeeps(g, d0, s, op, b, data, s');
    case EndOp(op) => EndOpKeeps(g, d0, s, op, s');
    case CommitWrite => CommitWriteKeeps(g, d0, s, s');
    case CommitDone => CommitDoneKeeps(g, d0, s, s');
    case Crash => CrashKeeps(g, d0, s, s');
    case RecoverWrite => RecoverWriteKeeps(g, d0, s, s');
    case RecoverDone => RecoverDoneKeeps(g, d0, s, s');
    case _ => StepBooks(g, s, step, s');
  }

  lemma {:induction false} RunKeeps(g: Geometry, d0: Disk, run: seq<State>, steps: seq<Step>, i: nat)
    requires IsRun(g, d0, run, steps) && Roomy(g, run, steps) && i < |run|
    ensures Inv(g, d0, run[i])
    decreases i
  {
    if i == 0 {
      assert WellFormed(g, d0);
    } else {
      RunKeeps(g, d0, run, steps, i - 1);
      assert NextAt(g, run, steps, i - 1) && RoomAt(g, run, steps, i - 1);
      StepKeeps(g, d0, run[i - 1], steps[i - 1], run[i]);
    }
  }

  // ---- the theorems ----

  /** Group commit: at every point of every run whose appends have room, what a crash would
      leave is the replay of whole, finished operations, and commit or recovery touches the
      disk only when no operation is outstanding. */
  lemma DurableStateIsWholeOps(g: Geometry, d0: Disk, run: seq<State>, steps: seq<Step>, i: nat)
    requires IsRun(g, d0, run, steps) && Roomy(g, run, steps) && i < |run|
    ensures CrashSafe(g, d0, run[i])
    ensures !run[i].phase.Running? ==> forall op :: 0 <= op < |run[i].ops| ==> !run[i].ops[op].active
  {
    RunKeeps(g, d0, run, steps, i);
    NoneOutstanding(run[i].ops);
  }

  /** Whenever such a run is not in commit or recovery, each block reads as the last value
      written to it by any operation that no crash has undone, and after a recovery the
      disk itself holds those values. */
  lemma ReadsSeeAllWrites(g: Geometry, d0: Disk, run: seq<State>, steps: seq<Step>, i: nat)
    requires IsRun(g, d0, run, steps) && Roomy(g, run, steps) && i < |run| && run[i].phase.Running?
    ensures ViewIs(g, d0, run[i].store, run[i].hist)
    ensures i > 0 && steps[i - 1].RecoverDone? ==>
              && run[i].durable == |run[i].hist|
              && forall b :: Home(g, d0, b) ==> run[i].store.disk[b] == Replay(d0, run[i].hist, b)
  {
    RunKeeps(g, d0, run, steps, i);
    if i > 0 && steps[i - 1].RecoverDone? {
      RunKeeps(g, d0, run, steps, i - 1);
      var s := run[i];
      assert NextAt(g, run, steps, i - 1);
      forall b | Home(g, d0, b) ensures s.store.disk[b] == Replay(d0, s.hist, b) {
        assert View(s.store.pins, s.store.disk, b) == s.store.disk[b];
      }
    }
  }

  // ---- runs that fill the log ----

  // A run may go on by one step.
  lemma Extended(g: Geometry, d0: Disk, run: seq<State>, steps: seq<Step>, step: Step, s: State)
    requires IsRun(g, d0, run, steps) && KeepsPromise(run, steps) && Next(g, run[|steps|], step, s)
    requires step.LogAppend? ==> WithinBudget(run[|steps|], step.op, step.b)
    ensures IsRun(g, d0, run + [s], steps + [step]) && KeepsPromise(run + [s], steps + [step])
  {
    var run', steps' := run + [s], steps + [step];
    forall i | 0 <= i < |steps'| ensures NextAt(g, run', steps', i) && PromiseAt(run', steps', i) {
      if i < |steps| { assert NextAt(g, run, steps, i) && PromiseAt(run, steps, i); }
    }
  }

  // Three operations are open and have taken turns to log m blocks with the same contents.
  ghost function Filling(d0: Disk, first: int, data: Block, m: nat): State {
    var lh := seq(m, i => first + i);
    State(Store(d0, map b | b in lh :: data), lh, 3, false, Running, {},
          [Op(true, (m + 2) / 3, false), Op(true, (m + 1) / 3, false), Op(true, m / 3, false)],
          seq(m, i requires 0 <= i => Write(i % 3, first + i, data)), 0)
  }

  // Operation op of s has passed the tests.
  function Passed(s: State, op: nat): State
    requires op < |s.ops|
  {
    s.(ops := s.ops[op := s.ops[op].(passed := true)])
  }

  lemma FillingStep(g: Geometry, d0: Disk, first: int, data: Block, m: nat)
    requires m < LOGSIZE && Home(g, d0, first + m)
    ensures var s := Passed(Filling(d0, first, data, m), m % 3);
      && Next(g, s, LogAppend(m % 3, first + m, data), Filling(d0, first, data, m + 1))
      && WithinBudget(s, m % 3, first + m)
  {
    var op, b := m % 3, first + m;
    var s, s' := Passed(Filling(d0, first, data, m), op), Filling(d0, first, data, m + 1);
    assert b !in s.lh;
    assert s'.lh == s.lh + [b];
    assert s'.hist == s.hist + [Write(op, b, data)];
    assert s'.store.pins == s.store.pins[b := data];
    assert s'.ops == s.ops[op := Op(true, s.ops[op].used + 1, false)];
  }

  // A run that fills the log up to m blocks, while log_write still allows it.
  lemma {:induction false} FillingReachable(g: Geometry, d0: Disk, first: int, data: Block, m: nat)
    returns (run: seq<State>, steps: seq<Step>)
    requires WellFormed(g, d0) && Header(g, d0) == [] && m <= LOGSIZE && m <= g.size - 1
    requires forall b :: first <= b < first + LOGSIZE ==> Home(g, d0, b)
    ensures IsRun(g, d0, run, steps) && KeepsPromise(run, steps) && run[|steps|] == Filling(d0, first, data, m)
  {
    if m == 0 {
      var s0 := State(Store(d0, map[]), [], 0, false, Running, {}, [], [], 0);
      var o := Op(true, 0, false);
      var s1, s2 := s0.(outstanding := 1, ops := [o]), s0.(outstanding := 2, ops := [o, o]);
      var s3 := s0.(outstanding := 3, ops := [o, o, o]);
      run, steps := [s0, s1, s2, s3], [BeginOp, BeginOp, BeginOp];
      assert s3 == Filling(d0, first, data, 0);
    } else {
      var op, s := (m - 1) % 3, Filling(d0, first, data, m - 1);
      run, steps := FillingReachable(g, d0, first, data, m - 1);
      Extended(g, d0, run, steps, LogTest(op), Passed(s, op));
      run, steps := run + [Passed(s, op)], steps + [LogTest(op)];
      FillingStep(g, d0, first, data, m - 1);
      var append := LogAppend(op, first + m - 1, data);
      Extended(g, d0, run, steps, append, Filling(d0, first, data, m));
      run, steps := run + [Filling(d0, first, data, m)], steps + [append];
    }
  }

  // A state in which some operation holds an unspent slot and yet log_write panics.
  ghost predicate StarvedWriter(g: Geometry, s: State) {
    exists op: nat :: Active(s, op) && s.ops[op].used < MAXOPBLOCKS && LogWritePanics(g, s)
  }

  /** log_write's "too big a transaction" against begin_op's reservation: in runs whose
      operations keep their promise, an operation with an unspent slot is never turned
      away exactly when the log area has a data block for each of the LOGSIZE slots.
      (mkfs.c:25 makes it one short.) */
  lemma WritersNeverStarveIff(g: Geometry, d0: Disk, first: int)
    requires WellFormed(g, d0) && Header(g, d0) == []
    requires forall b :: first <= b < first + LOGSIZE ==> Home(g, d0, b)
    ensures (forall run: seq<State>, steps: seq<Step>, i ::
               IsRun(g, d0, run, steps) && KeepsPromise(run, steps) && 0 <= i < |run| ==> !StarvedWriter(g, run[i]))
            <==> g.size - 1 >= LOGSIZE
  {
    if g.size - 1 >= LOGSIZE {
      forall run: seq<State>, steps: seq<Step>, i |
        IsRun(g, d0, run, steps) && KeepsPromise(run, steps) && 0 <= i < |run|
        ensures !StarvedWriter(g, run[i])
      {
        SpaceIsReserved(g, d0, run, steps, i);
        RunBooks(g, d0, run, steps, i);
        forall op: nat | Active(run[i], op) && run[i].ops[op].used < MAXOPBLOCKS ensures !LogWritePanics(g, run[i]) {
          UnspentAtLeast(run[i].ops, op);
        }
      }
    } else {
      var run, steps := FillingReachable(g, d0, first, d0[0], g.size - 1);
      var s := run[|steps|];
      assert Active(s, 2) && s.ops[2].used < MAXOPBLOCKS && LogWritePanics(g, s);
      assert StarvedWriter(g, s);
    }
  }

  // ---- two writers between test and append ----

  // Three operations are open, as many blocks are logged as the log area has with its
  // header, and none is durable.
  ghost predicate Overfull(g: Geometry, d0: Disk, first: int, data: Block, s: State) {
    && s.store.disk == d0 && s.phase.Running? && !s.committing && s.outstanding == 3 && s.waiting == {} && |s.ops| == 3
    && (forall op :: 0 <= op < 3 ==> s.ops[op].active && !s.ops[op].passed)
    && s.lh == seq(g.size, i => first + i) && s.durable == 0 && Pins(s.store, first, g.size, data)
  }

  // The n blocks from first on are pinned with these contents.
  ghost predicate Pins(st: Store, first: int, n: nat, data: Block) {
    forall b :: first <= b < first + n ==> b in st.pins && st.pins[b] == data
  }

  lemma FillingPins(d0: Disk, first: int, data: Block, m: nat)
    ensures Pins(Filling(d0, first, data, m).store, first, m, data)
  {
    var s := Filling(d0, first, data, m);
    forall b | first <= b < first + m ensures b in s.store.pins {
      assert s.lh[b - first] == b;
    }
  }

  // The state after op's append of a new block b.
  function Raced(s: State, op: nat, b: int, data: Block): State
    requires op < |s.ops|
  {
    s.(lh := s.lh + [b], store := Store(s.store.disk, s.store.pins[b := data]),
       ops := s.ops[op := Op(true, s.ops[op].used + 1, false)], hist := s.hist + [Write(op, b, data)])
  }

  // With one data block left, operations 1 and 2 both pass the tests,
  lemma BothPass(g: Geometry, d0: Disk, first: int, data: Block) returns (run: seq<State>, steps: seq<Step>)
    requires WellFormed(g, d0) && Header(g, d0) == [] && 2 <= g.size <= LOGSIZE
    requires forall b :: first <= b < first + LOGSIZE ==> Home(g, d0, b)
    ensures IsRun(g, d0, run, steps) && KeepsPromise(run, steps)
    ensures run[|steps|] == Passed(Passed(Filling(d0, first, data, g.size - 2), 1), 2)
  {
    run, steps := FillingReachable(g, d0, first, data, g.size - 2);
    var s0 := Filling(d0, first, data, g.size - 2);
    var s1, s2 := Passed(s0, 1), Passed(Passed(s0, 1), 2);
    Extended(g, d0, run, steps, LogTest(1), s1);
    run, steps := run + [s1], steps + [LogTest(1)];
    Extended(g, d0, run, steps, LogTest(2), s2);
    run, steps := run + [s2], steps + [LogTest(2)];
  }

  // and both append.
  lemma RaceReachable(g: Geometry, d0: Disk, first: int, data: Block) returns (run: seq<State>, steps: seq<Step>)
    requires WellFormed(g, d0) && Header(g, d0) == [] && 2 <= g.size <= LOGSIZE
    requires forall b :: first <= b < first + LOGSIZE ==> Home(g, d0, b)
    ensures IsRun(g, d0, run, steps) && KeepsPromise(run, steps) && Overfull(g, d0, first, data, run[|steps|])
  {
    run, steps := BothPass(g, d0, first, data);
    var b := first + g.size - 2;
    var s1 := Raced(run[|steps|], 1, b, data);
    var s2 := Raced(s1, 2, b + 1, data);
    FillingPins(d0, first, data, g.size - 2);
    assert b !in run[|steps|].lh && b + 1 !in s1.lh;
    Extended(g, d0, run, steps, LogAppend(1, b, data), s1);
    run, steps := run + [s1], steps + [LogAppend(1, b, data)];
    Extended(g, d0, run, steps, LogAppend(2, b + 1, data), s2);
    run, steps := run + [s2], steps + [LogAppend(2, b + 1, data)];
    assert s2.lh == seq(g.size, i => first + i);
  }

  // Commit has made k writes of write_log: the header is as it was, and home blocks that
  // are logged are still pinned.
  ghost predicate Overrunning(g: Geometry, d0: Disk, first: int, data: Block, s: State, k: nat) {
    && g.start + g.size < |d0| == |s.store.disk| && s.store.disk[g.start] == d0[g.start] && s.durable == 0
    && s.phase.Committing? && s.phase.k == k && s.lh == seq(g.size, i => first + i)
    && (k < g.size ==> Pins(s.store, first, g.size, data))
    && (k == g.size ==> s.store.disk[g.start + g.size] == data)
  }

  lemma CommitStarted(g: Geometry, d0: Disk, first: int, data: Block) returns (run: seq<State>, steps: seq<Step>)
    requires WellFormed(g, d0) && Header(g, d0) == [] && 2 <= g.size <= LOGSIZE && g.start + g.size < |d0|
    requires forall b :: first <= b < first + LOGSIZE ==> Home(g, d0, b)
    ensures IsRun(g, d0, run, steps) && KeepsPromise(run, steps) && Overrunning(g, d0, first, data, run[|steps|], 0)
  {
    run, steps := RaceReachable(g, d0, first, data);
    var s0 := run[|steps|];
    var s1 := s0.(outstanding := 2, ops := s0.ops[0 := Op(false, s0.ops[0].used, false)]);
    var s2 := s1.(outstanding := 1, ops := s1.ops[1 := Op(false, s1.ops[1].used, false)]);
    var s3 := s2.(outstanding := 0, ops := s2.ops[2 := Op(false, s2.ops[2].used, false)],
                  committing := true, phase := Committing(s2.store, 0));
    Extended(g, d0, run, steps, EndOp(0), s1);
    run, steps := run + [s1], steps + [EndOp(0)];
    Extended(g, d0, run, steps, EndOp(1), s2);
    run, steps := run + [s2], steps + [EndOp(1)];
    Extended(g, d0, run, steps, EndOp(2), s3);
    run, steps := run + [s3], steps + [EndOp(2)];
  }

  // The k-th write of write_log.
  lemma OverrunStep(g: Geometry, d0: Disk, first: int, data: Block, s: State, k: nat) returns (s': State)
    requires Overrunning(g, d0, first, data, s, k) && k < g.size <= LOGSIZE
    requires forall b :: first <= b < first + LOGSIZE ==> Home(g, d0, b)
    ensures Next(g, s, CommitWrite, s') && Overrunning(g, d0, first, data, s', k + 1)
  {
    forall i | 0 <= i < |s.lh| ensures 0 <= s.lh[i] < |d0| { assert Home(g, d0, first + i); }
    s' := s.(store := CommitNext(g, s.lh, s.store, k), phase := Committing(s.phase.base, k + 1));
    assert s.lh[k] == first + k;
    forall b | first <= b < first + g.size && k + 1 < g.size ensures b in s'.store.pins && s'.store.pins[b] == data {
      assert Home(g, d0, b);
    }
  }

  /** write_log writes past the log area: after its last write a home block, the first one
      behind the log, holds data of a transaction that is not committed. */
  lemma {:induction false} OverrunReachable(g: Geometry, d0: Disk, first: int, data: Block, k: nat)
    returns (run: seq<State>, steps: seq<Step>)
    requires WellFormed(g, d0) && Header(g, d0) == [] && 2 <= g.size <= LOGSIZE && g.start + g.size < |d0|
    requires (forall b :: first <= b < first + LOGSIZE ==> Home(g, d0, b)) && k <= g.size
    ensures IsRun(g, d0, run, steps) && KeepsPromise(run, steps) && Overrunning(g, d0, first, data, run[|steps|], k)
  {
    if k == 0 {
      run, steps := CommitStarted(g, d0, first, data);
    } else {
      run, steps := OverrunReachable(g, d0, first, data, k - 1);
      var s := OverrunStep(g, d0, first, data, run[|steps|], k - 1);
      Extended(g, d0, run, steps, CommitWrite, s);
      run, steps := run + [s], steps + [CommitWrite];
    }
  }

  lemma OverrunUnsafe(g: Geometry, d0: Disk, first: int, data: Block, s: State)
    requires WellFormed(g, d0) && Header(g, d0) == [] && Home(g, d0, g.start + g.size)
    requires Overrunning(g, d0, first, data, s, g.size) && data != d0[g.start + g.size]
    ensures !CrashSafe(g, d0, s)
  {
    var b := g.start + g.size;
    assert s.hist[..0] == [];
    assert Header(g, s.store.disk) == [] && Home(g, s.store.disk, b);
    assert Durable(g, s.store.disk, b) == data;
  }

  /** Crash safety of group commit: what a crash leaves is the effect of whole operations, in
      every state of every run whose operations keep their promise, if and only if the log
      area has a data block for each of the LOGSIZE slots, or none at all.  (mkfs.c:25 makes
      it one short.) */
  lemma CrashSafeIff(g: Geometry, d0: Disk, first: int)
    requires WellFormed(g, d0) && Header(g, d0) == [] && Home(g, d0, g.start + g.size)
    requires forall b :: first <= b < first + LOGSIZE ==> Home(g, d0, b)
    ensures (forall run: seq<State>, steps: seq<Step>, i ::
               IsRun(g, d0, run, steps) && KeepsPromise(run, steps) && 0 <= i < |run| ==> CrashSafe(g, d0, run[i]))
            <==> g.size - 1 >= LOGSIZE || g.size <= 1
  {
    if g.size - 1 >= LOGSIZE || g.size <= 1 {
      forall run: seq<State>, steps: seq<Step>, i |
        IsRun(g, d0, run, steps) && KeepsPromise(run, steps) && 0 <= i < |run|
        ensures CrashSafe(g, d0, run[i])
      {
        if g.size <= 1 { NoLogHasRoom(g, d0, run, steps); } else { PromiseHasRoom(g, d0, run, steps); }
        DurableStateIsWholeOps(g, d0, run, steps, i);
      }
    } else {
      var d := d0[g.start + g.size];
      var data: Block := d[0 := d[0] + 1];
      assert data[0] != d[0];
      var run, steps := OverrunReachable(g, d0, first, data, g.size);
      OverrunUnsafe(g, d0, first, data, run[|steps|]);
    }
  }
}

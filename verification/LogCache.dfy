/** The log through the real cache: a run of Coherence is a run of the flat store that
    LogCode works on, and commit made through the cache leaves on disk, after each of its
    writes, what LogDisk proves crash atomicity about. */
module LogCache {
  import opened LogDisk
  import opened Coherence
  import opened LogStore
  import LogCode
  import Bio

  // ---- the flat store ----

  ghost predicate TxnOnDisk(s: State) {
    forall n :: n in s.txn ==> n < |s.latest|
  }

  ghost function StoreOf(s: State): Store {
    Store(s.disk, if TxnOnDisk(s) then Pinned(s) else map[])
  }

  // What one step does to the store.
  function StoreStep(st: Store, s: State, step: Step): Store {
    match step
    case LogWrite(h) =>
      if Holds(s, h) then st.(pins := st.pins[Buffer(s, h).blockno := Buffer(s, h).data]) else st
    case Bwrite(h) => if Holds(s, h) then WriteThrough(st, Buffer(s, h).blockno, Buffer(s, h).data) else st
    case _ => st
  }

  // If handle h holds its buffer unchanged, the buffer is the block as the store has it.
  ghost predicate ReadsStore(s: State, h: nat) {
    Holds(s, h) && s.handles[h].stage.clean ==>
      && s.handles[h].blockno < |s.disk|
      && Buffer(s, h).data == View(StoreOf(s).pins, s.disk, s.handles[h].blockno)
  }

  lemma StoreStepped(s: State, step: Step, s': State)
    requires Inv(s) && Next(s, step, s')
    ensures StoreOf(s') == StoreStep(StoreOf(s), s, step)
  {
    StepKeeps(s, step, s');
    if 0 < |s.disk| {
      StepRefinesStore(s, step, s', 0);
    }
  }

  lemma HeldReads(s: State, h: nat)
    requires Inv(s)
    ensures ReadsStore(s, h)
    ensures Holds(s, h) ==> Buffer(s, h).blockno == s.handles[h].blockno
  {
    if Holds(s, h) {
      assert HandleOk(s, h) && BufOk(s, s.handles[h].b);
      if s.handles[h].stage.clean {
        assert BlockOk(s, s.handles[h].blockno);
      }
    }
  }

  /** The cache over any run is the flat store: log_write and bwrite act on it as in
      LogCode, nothing else changes it, and every buffer that is locked and unchanged
      reads as the store has the block. */
  lemma RunIsStore(run: seq<State>, steps: seq<Step>, i: nat, h: nat)
    requires IsRun(run, steps) && i < |run|
    ensures i < |steps| ==> StoreOf(run[i + 1]) == StoreStep(StoreOf(run[i]), run[i], steps[i])
    ensures ReadsStore(run[i], h)
  {
    RunKeeps(run, steps, i);
    HeldReads(run[i], h);
    if i < |steps| {
      assert NextAt(run, steps, i);
      StoreStepped(run[i], steps[i], run[i + 1]);
    }
  }

  // ---- commit through the cache ----

  // Handle h holds a copy of block n, whose buffer another handle still holds.
  ghost predicate Copies(s: State, h: nat, n: nat) {
    exists from: nat :: CopyOf(s, h, from, n)
  }

  ghost predicate CopyOf(s: State, h: nat, from: nat, n: nat) {
    && Holds(s, h) && Holds(s, from) && s.handles[from].stage.clean
    && s.handles[from].blockno == n && Buffer(s, h).data == Buffer(s, from).data
  }

  // Handle h holds the header block with lh written over what it held.
  ghost predicate Heads(s: State, h: nat, g: Geometry, lh: seq<int>) {
    && Holds(s, h) && |lh| <= LOGSIZE && g.start < |s.disk|
    && Buffer(s, h).data == HeaderBlock(View(StoreOf(s).pins, s.disk, g.start), lh)
  }

  // What handle h holds when commit makes write number k + 1: a log block, the header,
  // a home block, the cleared header.
  ghost predicate CommitHolds(g: Geometry, lh: seq<int>, k: nat, s: State, h: nat) {
    var n := |lh|;
    && Holds(s, h) && s.handles[h].blockno == CommitBlock(g, lh, k)
    && if k < n then lh[k] >= 0 && Copies(s, h, lh[k])
       else if k == n then Heads(s, h, g, lh)
       else if k <= 2 * n then Copies(s, h, g.start + (k - n))
       else Heads(s, h, g, [])
  }

  // How many of the steps from a to i write the disk.
  function Writes(steps: seq<Step>, a: nat, i: nat): nat
    requires a <= i <= |steps|
  {
    if i == a then 0 else Writes(steps, a, i - 1) + if steps[i - 1].Bwrite? then 1 else 0
  }

  // Step i, if it writes the disk, is commit's next write, and it logs nothing.
  ghost predicate CommitStep(g: Geometry, lh: seq<int>, s: State, step: Step, k: nat) {
    !step.LogWrite? && (step.Bwrite? ==> k < 2 * |lh| + 2 && CommitHolds(g, lh, k, s, step.h))
  }

  // From a to b the disk is written by commit alone, in order, and nothing is logged.
  ghost predicate Commits(g: Geometry, lh: seq<int>, run: seq<State>, steps: seq<Step>, a: nat, b: nat) {
    && IsRun(run, steps) && a <= b < |run|
    && forall i :: a <= i < b ==> CommitStepAt(g, lh, run, steps, a, i)
  }

  ghost predicate CommitStepAt(g: Geometry, lh: seq<int>, run: seq<State>, steps: seq<Step>, a: nat, i: nat)
    requires a <= i < |steps| && i < |run|
  {
    CommitStep(g, lh, run[i], steps[i], Writes(steps, a, i))
  }

  // A copy of block n holds n as the store has it.
  lemma CopyReads(s: State, h: nat, n: nat)
    requires Inv(s) && Copies(s, h, n)
    ensures n < |s.disk| && Buffer(s, h).data == View(StoreOf(s).pins, s.disk, n)
  {
    var from: nat :| CopyOf(s, h, from, n);
    HeldReads(s, from);
  }

  lemma CommitStored(g: Geometry, lh: seq<int>, s: State, step: Step, s': State, k: nat)
    requires Inv(s) && Next(s, step, s') && Entries(g, s.disk, lh) && CommitStep(g, lh, s, step, k)
    ensures StoreOf(s') == if step.Bwrite? then CommitNext(g, lh, StoreOf(s), k) else StoreOf(s)
  {
    StoreStepped(s, step, s');
    if step.Bwrite? {
      HeldReads(s, step.h);
      if k < |lh| {
        CopyReads(s, step.h, lh[k]);
      } else if |lh| < k <= 2 * |lh| {
        CopyReads(s, step.h, g.start + (k - |lh|));
      }
    }
  }

  lemma CommitStoredAt(g: Geometry, lh: seq<int>, run: seq<State>, steps: seq<Step>, a: nat, b: nat, i: nat)
    requires Commits(g, lh, run, steps, a, b) && a <= i < b && Entries(g, run[i].disk, lh)
    ensures steps[i].Bwrite? ==> Writes(steps, a, i) < 2 * |lh| + 2
    ensures StoreOf(run[i + 1]) ==
      if steps[i].Bwrite? then CommitNext(g, lh, StoreOf(run[i]), Writes(steps, a, i)) else StoreOf(run[i])
  {
    RunKeeps(run, steps, i);
    assert CommitStepAt(g, lh, run, steps, a, i) && NextAt(run, steps, i);
    CommitStored(g, lh, run[i], steps[i], run[i + 1], Writes(steps, a, i));
  }

  lemma CommitStepped(g: Geometry, lh: seq<int>, st0: Store, run: seq<State>, steps: seq<Step>, a: nat, b: nat, i: nat)
    requires Commits(g, lh, run, steps, a, b) && a <= i < b
    requires CommitStarts(g, lh, st0) && CommitAt(g, lh, st0, StoreOf(run[i]), Writes(steps, a, i))
    ensures CommitAt(g, lh, st0, StoreOf(run[i + 1]), Writes(steps, a, i + 1))
  {
    CommitStoredAt(g, lh, run, steps, a, b, i);
    if steps[i].Bwrite? {
      CommitAdvances(g, lh, st0, StoreOf(run[i]), Writes(steps, a, i));
    }
  }

  /** Commit through the cache, with any other steps of any processes in between: after
      each of its writes the disk is the numbered state of LogDisk, with the values that
      the cache held for the logged blocks when commit began. */
  lemma {:induction false} CommitThroughCache(g: Geometry, lh: seq<int>, run: seq<State>, steps: seq<Step>, a: nat,
                      b: nat)
    requires Commits(g, lh, run, steps, a, b) && CommitStarts(g, lh, StoreOf(run[a]))
    ensures CommitAt(g, lh, StoreOf(run[a]), StoreOf(run[b]), Writes(steps, a, b))
    decreases b
  {
    if a == b {
      CommitBegins(g, lh, StoreOf(run[a]));
    } else {
      var i := b - 1;
      CommitThroughCache(g, lh, run, steps, a, i);
      CommitStepped(g, lh, StoreOf(run[a]), run, steps, a, b, i);
    }
  }

  /** Crash atomicity of the whole stack: stop a run of the cache anywhere in a commit,
      crash any number of recoveries, let one finish.  Every home block has the value it had
      on disk, or every one has the value the cache showed when commit began. */
  lemma CrashThroughCache(g: Geometry, lh: seq<int>, run: seq<State>, steps: seq<Step>, a: nat, b: nat,
                      crashes: seq<nat>)
    requires Commits(g, lh, run, steps, a, b) && CommitStarts(g, lh, StoreOf(run[a]))
    ensures WellFormed(g, run[b].disk) && WellFormed(g, AfterAttempts(g, run[b].disk, crashes))
    ensures var final := Recovered(g, AfterAttempts(g, run[b].disk, crashes));
      && |final| == |run[a].disk| && Header(g, final) == []
      && forall n :: Home(g, run[a].disk, n) ==>
           final[n] ==
             if Writes(steps, a, b) <= |lh| then run[a].disk[n] else View(StoreOf(run[a]).pins, run[a].disk, n)
  {
    CommitThroughCache(g, lh, run, steps, a, b);
    var st, k := StoreOf(run[a]), Writes(steps, a, b);
    var data := LogCode.DataOf(lh, st.pins);
    CrashAtomicity(g, st.disk, lh, data, k, crashes);
    forall n | Home(g, st.disk, n) ensures Latest(g, st.disk, lh, data, |lh|, n) == View(st.pins, st.disk, n) {
      LogCode.LatestIsPinned(g, st.disk, lh, data, |lh|, n, st.pins);
      assert lh[..|lh|] == lh;
    }
  }

  // ---- buffers for commit ----

  lemma {:induction false} NoneHeld(handles: seq<Handle>, b: nat)
    requires forall h :: 0 <= h < |handles| ==> handles[h].stage == Gone
    ensures Refs(handles, b) == 0
  {
    if handles != [] {
      NoneHeld(handles[..|handles| - 1], b);
    }
  }

  // The dirty buffers of the blocks in ns.
  ghost function Dirty(s: State, ns: set<nat>): set<nat> {
    set b: nat | b < |s.c.bufs| && s.c.bufs[b].dirty && s.c.bufs[b].blockno in ns
  }

  // One dirty buffer for each block of the transaction.
  lemma {:induction false} OneDirtyEach(s: State, ns: set<nat>)
    requires Inv(s) && ns <= s.txn
    ensures |Dirty(s, ns)| == |ns|
  {
    if ns == {} {
      assert Dirty(s, ns) == {};
    } else {
      var n :| n in ns;
      OneDirtyEach(s, ns - {n});
      assert BlockOk(s, n);
      var b: nat :| Pins(s, b, n);
      forall x: nat | x in Dirty(s, ns) && s.c.bufs[x].blockno == n ensures x == b {
        assert BufOk(s, x) && BufOk(s, b) && UniqueOk(s, x, b);
      }
      assert Dirty(s, ns) == Dirty(s, ns - {n}) + {b};
    }
  }

  function Below(k: nat): (r: set<nat>)
    ensures |r| == k && forall b: nat :: b in r <==> b < k
  {
    if k == 0 then {} else Below(k - 1) + {k - 1}
  }

  // No more blocks are pinned than there are buffers, and as many only if all are dirty.
  lemma AllDirtyIff(s: State)
    requires Inv(s)
    ensures |s.txn| <= |s.c.bufs|
    ensures |s.txn| == |s.c.bufs| <==> forall b :: 0 <= b < |s.c.bufs| ==> s.c.bufs[b].dirty
  {
    var all, dirty := Below(|s.c.bufs|), Dirty(s, s.txn);
    OneDirtyEach(s, s.txn);
    Within(dirty, all);
    forall b: nat | b < |s.c.bufs| && s.c.bufs[b].dirty ensures b in dirty { assert BufOk(s, b); }
    if forall b :: 0 <= b < |s.c.bufs| ==> s.c.bufs[b].dirty {
      assert dirty == all;
    }
    if |s.txn| == |s.c.bufs| {
      forall b: nat | b < |s.c.bufs| ensures s.c.bufs[b].dirty { assert b in all; }
    }
  }

  lemma Within(a: set<nat>, b: set<nat>)
    requires a <= b
    ensures |a| <= |b| && (|a| == |b| ==> a == b)
  {
    assert b == a + (b - a);
  }

  /** commit's bread of a block that is not logged, with no other buffer in use, gets a buffer
      if and only if fewer blocks are logged than there are buffers; otherwise bget panics.
      (param.h:11-12 makes NBUF and LOGSIZE equal, so a full log leaves none.) */
  lemma CommitGetsBufferIff(s: State, n: nat)
    requires Inv(s) && n !in s.txn && forall h :: 0 <= h < |s.handles| ==> s.handles[h].stage == Gone
    ensures Bio.WellFormed(s.c)
    ensures Bio.Got(s.c, Bio.DISKDEV, n).1 != Bio.PANIC <==> |s.txn| < |s.c.bufs|
  {
    AllDirtyIff(s);
    Bio.FindRange(s.c, Bio.DISKDEV, n, 0);
    Bio.VictimRange(s.c, |s.c.order|);
    if b: nat :| b < |s.c.bufs| && !s.c.bufs[b].dirty {
      assert BufOk(s, b);
      NoneHeld(s.handles, b);
      assert b in s.c.order && Bio.Recyclable(s.c.bufs[b]);
    } else {
      forall b: nat | b < |s.c.bufs| ensures !Bio.Caches(s.c.bufs[b], Bio.DISKDEV, n) { assert BufOk(s, b); }
    }
  }
}

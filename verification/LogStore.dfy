/** The log as LogCode works on it, as a value: the disk and the cached blocks pinned over
    it, and the block writes of commit one at a time. */
module LogStore {
  import opened LogDisk
  import opened LogCode

  datatype Store = Store(disk: Disk, pins: map<int, Block>)

  // bwrite, as in LogCode
  function WriteThrough(st: Store, n: nat, data: Block): Store {
    Store(if n < |st.disk| then st.disk[n := data] else st.disk, st.pins - {n})
  }

  // The block that write number k + 1 of commit goes to.
  function CommitBlock(g: Geometry, lh: seq<int>, k: nat): int {
    var n := |lh|;
    if k < n then g.start + k + 1 else if n < k <= 2 * n then lh[k - n - 1] else g.start
  }

  // The writes of commit stay on the disk, inside the log area or not.
  predicate Writable(g: Geometry, lh: seq<int>, d: Disk) {
    && |lh| <= LOGSIZE && g.start + |lh| < |d|
    && forall i :: 0 <= i < |lh| ==> 0 <= lh[i] < |d|
  }

  // What write number k + 1 of commit puts there, read from the store.
  function CommitData(g: Geometry, lh: seq<int>, st: Store, k: nat): Block
    requires Writable(g, lh, st.disk) && k < 2 * |lh| + 2
  {
    var n := |lh|;
    if k < n then View(st.pins, st.disk, lh[k])
    else if k == n then HeaderBlock(View(st.pins, st.disk, g.start), lh)
    else if k <= 2 * n then View(st.pins, st.disk, g.start + (k - n))
    else HeaderBlock(View(st.pins, st.disk, g.start), [])
  }

  // The store after write number k + 1.
  function CommitNext(g: Geometry, lh: seq<int>, st: Store, k: nat): Store
    requires Writable(g, lh, st.disk) && k < 2 * |lh| + 2
  {
    WriteThrough(st, CommitBlock(g, lh, k), CommitData(g, lh, st, k))
  }

  // When commit starts: the log on disk is empty and exactly the logged blocks are pinned.
  ghost predicate CommitStarts(g: Geometry, lh: seq<int>, st: Store) {
    && WellFormed(g, st.disk) && Header(g, st.disk) == [] && Entries(g, st.disk, lh)
    && st.pins.Keys == Named(lh)
  }

  // The entries installed by the first k writes.
  function InstalledBy(lh: seq<int>, k: nat): seq<int> {
    var n := |lh|;
    if k <= n + 1 then [] else if k <= 2 * n + 1 then lh[..k - n - 1] else lh
  }

  // The store after commit's first k writes.
  ghost predicate CommitAt(g: Geometry, lh: seq<int>, st0: Store, st: Store, k: nat)
    requires CommitStarts(g, lh, st0)
  {
    && k <= 2 * |lh| + 2 && st.disk == CommitState(g, st0.disk, lh, DataOf(lh, st0.pins), k)
    && st.pins == st0.pins - Named(InstalledBy(lh, k))
  }

  lemma CommitBegins(g: Geometry, lh: seq<int>, st: Store)
    requires CommitStarts(g, lh, st)
    ensures CommitAt(g, lh, st, st, 0)
  {
    assert st.pins - Named(InstalledBy(lh, 0)) == st.pins;
  }

  lemma LogBlockWritten(g: Geometry, lh: seq<int>, st0: Store, st: Store, k: nat)
    requires CommitStarts(g, lh, st0) && CommitAt(g, lh, st0, st, k) && k < |lh|
    ensures CommitAt(g, lh, st0, WriteThrough(st, g.start + k + 1, View(st.pins, st.disk, lh[k])), k + 1)
  {
    assert lh[k] in st0.pins && g.start + k + 1 !in st0.pins;
  }

  lemma HeaderWritten(g: Geometry, lh: seq<int>, st0: Store, st: Store, k: nat)
    requires CommitStarts(g, lh, st0) && CommitAt(g, lh, st0, st, k) && k == |lh|
    ensures CommitAt(g, lh, st0, WriteThrough(st, g.start, HeaderBlock(View(st.pins, st.disk, g.start), lh)), k + 1)
  {
    assert g.start !in st0.pins;
  }

  lemma HomeBlockWritten(g: Geometry, lh: seq<int>, st0: Store, st: Store, k: nat)
    requires CommitStarts(g, lh, st0) && CommitAt(g, lh, st0, st, k) && |lh| < k <= 2 * |lh|
    ensures CommitAt(g, lh, st0, WriteThrough(st, lh[k - |lh| - 1], View(st.pins, st.disk, g.start + (k - |lh|))),
      k + 1)
  {
    var t := k - |lh| - 1;
    assert g.start + t + 1 !in st0.pins;
    var committed := WithHeader(g, Copied(g, st0.disk, DataOf(lh, st0.pins), |lh|), lh);
    InstalledAt(g, committed, lh, t, g.start + t + 1);
    OneUnpinned(st0.pins, lh, t);
  }

  lemma HeaderCleared(g: Geometry, lh: seq<int>, st0: Store, st: Store, k: nat)
    requires CommitStarts(g, lh, st0) && CommitAt(g, lh, st0, st, k) && k == 2 * |lh| + 1
    ensures CommitAt(g, lh, st0, WriteThrough(st, g.start, HeaderBlock(View(st.pins, st.disk, g.start), [])), k + 1)
  {
    assert g.start !in st0.pins && lh[..|lh|] == lh;
  }

  /** One write of commit on a store whose log is in order: the disk goes from one numbered
      commit state to the next. */
  lemma CommitAdvances(g: Geometry, lh: seq<int>, st0: Store, st: Store, k: nat)
    requires CommitStarts(g, lh, st0) && CommitAt(g, lh, st0, st, k) && k < 2 * |lh| + 2
    ensures Writable(g, lh, st.disk) && CommitAt(g, lh, st0, CommitNext(g, lh, st, k), k + 1)
  {
    if k < |lh| {
      LogBlockWritten(g, lh, st0, st, k);
    } else if k == |lh| {
      HeaderWritten(g, lh, st0, st, k);
    } else if k <= 2 * |lh| {
      HomeBlockWritten(g, lh, st0, st, k);
    } else {
      HeaderCleared(g, lh, st0, st, k);
    }
  }
}

/** The on-disk redo log of log.c: what a disk means, and what each single
    block write of commit and of recovery does to that meaning.

    A disk is a sequence of blocks and a block a sequence of 128 words, since
    the log header is read and written through an int pointer.  The log area
    is [start, start + size): the header block, then one block per entry. */
module LogDisk {
  const LOGSIZE: nat := 30
  const MAXOPBLOCKS: nat := 10
  const BWORDS: nat := 128

  type Block = b: seq<int> | |b| == BWORDS witness seq(BWORDS, _ => 0)
  type Disk = seq<Block>

  datatype Geometry = Geometry(start: nat, size: nat)

  // A block of the file system proper: on the disk and outside the log area.
  predicate Home(g: Geometry, d: Disk, b: int) {
    0 <= b < |d| && !(g.start <= b < g.start + g.size)
  }

  predicate Fits(g: Geometry, d: Disk, n: int) {
    0 <= n <= LOGSIZE && n < g.size && g.start + g.size <= |d|
  }

  predicate Entries(g: Geometry, d: Disk, lh: seq<int>) {
    Fits(g, d, |lh|) && forall i :: 0 <= i < |lh| ==> Home(g, d, lh[i])
  }

  // The header block holds a usable log: n entries, each naming a home block.
  predicate WellFormed(g: Geometry, d: Disk) {
    && g.start < |d|
    && Fits(g, d, d[g.start][0])
    && Entries(g, d, Header(g, d))
  }

  // The block numbers stored in the header.
  function Header(g: Geometry, d: Disk): seq<int>
    requires g.start < |d| && Fits(g, d, d[g.start][0])
  {
    d[g.start][1..1 + d[g.start][0]]
  }

  // Block b as bread returns it: cached blocks that are pinned hide the disk.
  function View(pins: map<int, Block>, d: Disk, b: int): Block
    requires 0 <= b < |d|
  {
    if b in pins then pins[b] else d[b]
  }

  // The blocks that a header names.
  function Named(lh: seq<int>): set<int> {
    set b | b in lh
  }

  lemma OneUnpinned(pins: map<int, Block>, lh: seq<int>, t: nat)
    requires t < |lh|
    ensures pins - Named(lh[..t]) - {lh[t]} == pins - Named(lh[..t + 1])
  {
    assert lh[..t + 1] == lh[..t] + [lh[t]];
  }

  // The value of block b once the first k log entries are copied home.
  function Overlay(g: Geometry, d: Disk, lh: seq<int>, k: nat, b: int): Block
    requires Entries(g, d, lh) && k <= |lh| && Home(g, d, b)
  {
    if k == 0 then d[b]
    else if lh[k - 1] == b then d[g.start + k]
    else Overlay(g, d, lh, k - 1, b)
  }

  // What recovery would make of home block b: the durable value of b.
  function Durable(g: Geometry, d: Disk, b: int): Block
    requires WellFormed(g, d) && Home(g, d, b)
  {
    Overlay(g, d, Header(g, d), |Header(g, d)|, b)
  }

  ghost predicate SameDurable(g: Geometry, d: Disk, d': Disk)
    requires WellFormed(g, d)
  {
    && |d'| == |d| && WellFormed(g, d')
    && forall b :: Home(g, d, b) ==> Durable(g, d', b) == Durable(g, d, b)
  }

  // ---- the single-block writes ----

  // The header block as write_head leaves it: words past the entries keep
  // whatever they held.
  function HeaderBlock(prev: Block, lh: seq<int>): Block
    requires |lh| <= LOGSIZE
  {
    [|lh|] + lh + prev[1 + |lh|..]
  }

  function WithHeader(g: Geometry, d: Disk, lh: seq<int>): Disk
    requires g.start < |d| && |lh| <= LOGSIZE
  {
    d[g.start := HeaderBlock(d[g.start], lh)]
  }

  // The disk after the first t writes of write_log.
  function Copied(g: Geometry, d: Disk, data: seq<Block>, t: nat): Disk
    requires t <= |data| && Fits(g, d, |data|)
    ensures |Copied(g, d, data, t)| == |d|
  {
    if t == 0 then d else Copied(g, d, data, t - 1)[g.start + t := data[t - 1]]
  }

  // The disk after the first t writes of install_trans.
  function Installed(g: Geometry, d: Disk, lh: seq<int>, t: nat): Disk
    requires Entries(g, d, lh) && t <= |lh|
    ensures |Installed(g, d, lh, t)| == |d|
  {
    if t == 0 then d else Installed(g, d, lh, t - 1)[lh[t - 1] := d[g.start + t]]
  }

  // The disk after the first k of the 2n + 2 writes of commit: n log blocks,
  // the header, n home blocks, the cleared header.
  function CommitState(g: Geometry, d: Disk, lh: seq<int>, data: seq<Block>, k: nat): Disk
    requires Entries(g, d, lh) && |data| == |lh| && k <= 2 * |lh| + 2
    ensures |CommitState(g, d, lh, data, k)| == |d|
  {
    var n := |lh|;
    if k <= n then Copied(g, d, data, k)
    else
      var committed := WithHeader(g, Copied(g, d, data, n), lh);
      if k <= 2 * n + 1 then Installed(g, committed, lh, k - n - 1)
      else WithHeader(g, Installed(g, committed, lh, n), [])
  }

  // The disk after the first k of the n + 1 writes of recover_from_log.
  function RecoveryState(g: Geometry, d: Disk, k: nat): Disk
    requires WellFormed(g, d) && k <= |Header(g, d)| + 1
    ensures |RecoveryState(g, d, k)| == |d|
  {
    var lh := Header(g, d);
    if k <= |lh| then Installed(g, d, lh, k)
    else WithHeader(g, Installed(g, d, lh, |lh|), [])
  }

  // The disks that each loop leaves behind, one per block write.
  function CopiedStates(g: Geometry, d: Disk, data: seq<Block>, t: nat): seq<Disk>
    requires t <= |data| && Fits(g, d, |data|)
  {
    seq(t, k requires 0 <= k < t => Copied(g, d, data, k + 1))
  }

  function InstalledStates(g: Geometry, d: Disk, lh: seq<int>, t: nat): seq<Disk>
    requires Entries(g, d, lh) && t <= |lh|
  {
    seq(t, k requires 0 <= k < t => Installed(g, d, lh, k + 1))
  }

  function CommitStates(g: Geometry, d: Disk, lh: seq<int>, data: seq<Block>): seq<Disk>
    requires Entries(g, d, lh) && |data| == |lh|
  {
    var committed := WithHeader(g, Copied(g, d, data, |lh|), lh);
    CopiedStates(g, d, data, |lh|) + [committed] + InstalledStates(g, committed, lh, |lh|) +
    [WithHeader(g, Installed(g, committed, lh, |lh|), [])]
  }

  function RecoveryStates(g: Geometry, d: Disk): seq<Disk>
    requires WellFormed(g, d)
  {
    seq(|Header(g, d)| + 1, k requires 0 <= k < |Header(g, d)| + 1 => RecoveryState(g, d, k + 1))
  }

  lemma RecoveryStatesAre(g: Geometry, d: Disk)
    requires WellFormed(g, d)
    ensures var lh := Header(g, d);
      InstalledStates(g, d, lh, |lh|) + [WithHeader(g, Installed(g, d, lh, |lh|), [])] == RecoveryStates(g, d)
  {
  }

  // The states that commit's loops go through are numbered by CommitState.
  lemma CommitStatesAt(g: Geometry, d: Disk, lh: seq<int>, data: seq<Block>, k: nat)
    requires Entries(g, d, lh) && |data| == |lh| && k < 2 * |lh| + 2
    ensures |CommitStates(g, d, lh, data)| == 2 * |lh| + 2
    ensures CommitStates(g, d, lh, data)[k] == CommitState(g, d, lh, data, k + 1)
  {
    var n := |lh|;
    var committed := WithHeader(g, Copied(g, d, data, n), lh);
    var installs := InstalledStates(g, committed, lh, n);
    var front := CopiedStates(g, d, data, n) + [committed];
    if k <= n {
      assert (front + installs)[k] == front[k];
    } else if k < 2 * n + 1 {
      assert (front + installs)[k] == installs[k - n - 1];
    }
  }

  // ---- what each write keeps ----

  lemma {:induction false} CopiedAt(g: Geometry, d: Disk, data: seq<Block>, t: nat, b: nat)
    requires t <= |data| && Fits(g, d, |data|) && b < |d|
    ensures Copied(g, d, data, t)[b] == if g.start < b <= g.start + t then data[b - g.start - 1] else d[b]
  {
    if t > 0 { CopiedAt(g, d, data, t - 1, b); }
  }

  lemma {:induction false} InstalledAt(g: Geometry, d: Disk, lh: seq<int>, t: nat, b: nat)
    requires Entries(g, d, lh) && t <= |lh| && b < |d|
    ensures Installed(g, d, lh, t)[b] == if Home(g, d, b) then Overlay(g, d, lh, t, b) else d[b]
  {
    if t > 0 { InstalledAt(g, d, lh, t - 1, b); }
  }

  lemma WithHeaderReadsBack(g: Geometry, d: Disk, lh: seq<int>)
    requires Entries(g, d, lh)
    ensures WellFormed(g, WithHeader(g, d, lh)) && Header(g, WithHeader(g, d, lh)) == lh
  {
    var d' := WithHeader(g, d, lh);
    assert d'[g.start][1..1 + |lh|] == lh;
  }

  // Installing the first t entries does not change what the first k make of b:
  // below t the home block is either shadowed by an entry or already current.
  lemma {:induction false} OverlayInstalled(g: Geometry, d: Disk, lh: seq<int>, t: nat, k: nat, b: int)
    requires Entries(g, d, lh) && t <= |lh| && k <= |lh| && Home(g, d, b)
    ensures var d' := Installed(g, d, lh, t);
            Overlay(g, d', lh, k, b) ==
            if k < t && b !in lh[..k] then Overlay(g, d, lh, t, b) else Overlay(g, d, lh, k, b)
  {
    InstalledAt(g, d, lh, t, b);
    if k == 0 {
    } else {
      InstalledAt(g, d, lh, t, g.start + k);
      OverlayInstalled(g, d, lh, t, k - 1, b);
      assert lh[..k] == lh[..k - 1] + [lh[k - 1]];
      if k == t && lh[k - 1] != b && b !in lh[..k - 1] {
        UnloggedOverlay(g, d, lh, k - 1, b);
      }
    }
  }

  lemma {:induction false} UnloggedOverlay(g: Geometry, d: Disk, lh: seq<int>, k: nat, b: int)
    requires Entries(g, d, lh) && k <= |lh| && Home(g, d, b) && b !in lh[..k]
    ensures Overlay(g, d, lh, k, b) == d[b]
  {
    if k > 0 {
      assert lh[..k] == lh[..k - 1] + [lh[k - 1]];
      UnloggedOverlay(g, d, lh, k - 1, b);
    }
  }

  // Any number of installed blocks leaves every durable value as it was.
  lemma InstallKeepsDurable(g: Geometry, d: Disk, t: nat)
    requires WellFormed(g, d) && t <= |Header(g, d)|
    ensures SameDurable(g, d, Installed(g, d, Header(g, d), t))
    ensures Header(g, Installed(g, d, Header(g, d), t)) == Header(g, d)
  {
    var lh := Header(g, d);
    InstalledAt(g, d, lh, t, g.start);
    forall b | Home(g, d, b)
      ensures Durable(g, Installed(g, d, lh, t), b) == Durable(g, d, b)
    {
      OverlayInstalled(g, d, lh, t, |lh|, b);
    }
  }

  // Clearing the header after a full install leaves every durable value as it was.
  lemma ClearKeepsDurable(g: Geometry, d: Disk)
    requires WellFormed(g, d)
    ensures var d' := WithHeader(g, Installed(g, d, Header(g, d), |Header(g, d)|), []);
            SameDurable(g, d, d') && Header(g, d') == []
  {
    var lh := Header(g, d);
    var full := Installed(g, d, lh, |lh|);
    WithHeaderReadsBack(g, full, []);
    var d' := WithHeader(g, full, []);
    forall b | Home(g, d, b) ensures Durable(g, d', b) == Durable(g, d, b) {
      InstalledAt(g, d, lh, |lh|, b);
    }
  }

  // Copying into the log area of a disk with an empty log changes nothing durable.
  lemma CopyKeepsDurable(g: Geometry, d: Disk, data: seq<Block>, t: nat)
    requires WellFormed(g, d) && Header(g, d) == [] && t <= |data| && Fits(g, d, |data|)
    ensures SameDurable(g, d, Copied(g, d, data, t)) && Header(g, Copied(g, d, data, t)) == []
  {
    CopiedAt(g, d, data, t, g.start);
    forall b | Home(g, d, b) ensures Copied(g, d, data, t)[b] == d[b] {
      CopiedAt(g, d, data, t, b);
    }
  }

  // The value that block b is to have once the transaction (lh, data) is applied:
  // later entries win.
  function Latest(g: Geometry, d: Disk, lh: seq<int>, data: seq<Block>, k: nat, b: int): Block
    requires |data| == |lh| && k <= |lh| && 0 <= b < |d|
  {
    if k == 0 then d[b]
    else if lh[k - 1] == b then data[k - 1]
    else Latest(g, d, lh, data, k - 1, b)
  }

  lemma {:induction false} OverlayIsLatest(g: Geometry, d: Disk, c: Disk, lh: seq<int>, data: seq<Block>, k: nat,
                      b: int)
    requires Entries(g, d, lh) && |data| == |lh| && |c| == |d| && k <= |lh| && Home(g, d, b)
    requires c[b] == d[b]
    requires forall i :: 0 <= i < k ==> c[g.start + 1 + i] == data[i]
    ensures Overlay(g, c, lh, k, b) == Latest(g, d, lh, data, k, b)
  {
    if k > 0 {
      assert c[g.start + 1 + (k - 1)] == data[k - 1];
      OverlayIsLatest(g, d, c, lh, data, k - 1, b);
    }
  }

  // Writing the header is the commit point: every durable value becomes the new one.
  lemma HeaderWriteCommits(g: Geometry, d: Disk, lh: seq<int>, data: seq<Block>)
    requires WellFormed(g, d) && Entries(g, d, lh) && |data| == |lh|
    ensures var c := WithHeader(g, Copied(g, d, data, |lh|), lh);
            && WellFormed(g, c) && Header(g, c) == lh
            && forall b :: Home(g, d, b) ==> Durable(g, c, b) == Latest(g, d, lh, data, |lh|, b)
  {
    var copied := Copied(g, d, data, |lh|);
    var c := WithHeader(g, copied, lh);
    WithHeaderReadsBack(g, copied, lh);
    forall b | Home(g, d, b) ensures Durable(g, c, b) == Latest(g, d, lh, data, |lh|, b) {
      CommittedOverlay(g, d, lh, data, b);
    }
  }

  lemma CommittedOverlay(g: Geometry, d: Disk, lh: seq<int>, data: seq<Block>, b: int)
    requires Entries(g, d, lh) && |data| == |lh| && Home(g, d, b)
    ensures var c := WithHeader(g, Copied(g, d, data, |lh|), lh);
      Overlay(g, c, lh, |lh|, b) == Latest(g, d, lh, data, |lh|, b)
  {
    var c := WithHeader(g, Copied(g, d, data, |lh|), lh);
    CopiedAt(g, d, data, |lh|, b);
    forall i | 0 <= i < |lh| ensures c[g.start + 1 + i] == data[i] {
      CommittedAt(g, d, lh, data, i);
    }
    OverlayIsLatest(g, d, c, lh, data, |lh|, b);
  }

  lemma CommittedAt(g: Geometry, d: Disk, lh: seq<int>, data: seq<Block>, i: nat)
    requires Entries(g, d, lh) && |data| == |lh| && i < |lh|
    ensures WithHeader(g, Copied(g, d, data, |lh|), lh)[g.start + 1 + i] == data[i]
  {
    CopiedAt(g, d, data, |lh|, g.start + 1 + i);
  }

  // ---- crash atomicity ----

  // Commit has one durable effect, at its write number n + 1.
  lemma CommitIsAtomic(g: Geometry, d: Disk, lh: seq<int>, data: seq<Block>, k: nat)
    requires WellFormed(g, d) && Header(g, d) == [] && Entries(g, d, lh) && |data| == |lh|
    requires k <= 2 * |lh| + 2
    ensures var c := CommitState(g, d, lh, data, k);
            && WellFormed(g, c)
            && Header(g, c) == (if |lh| < k < 2 * |lh| + 2 then lh else [])
            && forall b :: Home(g, d, b) ==>
                 Durable(g, c, b) == if k <= |lh| then d[b] else Latest(g, d, lh, data, |lh|, b)
  {
    var n := |lh|;
    if k <= n {
      CopyKeepsDurable(g, d, data, k);
      var c := CommitState(g, d, lh, data, k);
      forall b | Home(g, d, b) ensures Durable(g, c, b) == d[b] { assert Durable(g, d, b) == d[b]; }
    } else {
      HeaderWriteCommits(g, d, lh, data);
      var committed := WithHeader(g, Copied(g, d, data, n), lh);
      if k <= 2 * n + 1 { InstallKeepsDurable(g, committed, k - n - 1); } else { ClearKeepsDurable(g, committed); }
    }
  }

  // Recovery, stopped after any number of writes, changes nothing durable.
  lemma RecoveryKeepsDurable(g: Geometry, d: Disk, k: nat)
    requires WellFormed(g, d) && k <= |Header(g, d)| + 1
    ensures SameDurable(g, d, RecoveryState(g, d, k))
    ensures Header(g, RecoveryState(g, d, k)) == if k <= |Header(g, d)| then Header(g, d) else []
  {
    if k <= |Header(g, d)| { InstallKeepsDurable(g, d, k); } else { ClearKeepsDurable(g, d); }
  }

  // Recovery run to its end.
  function Recovered(g: Geometry, d: Disk): Disk
    requires WellFormed(g, d)
  {
    RecoveryState(g, d, |Header(g, d)| + 1)
  }

  // The disk after a chain of recovery attempts: attempt i is cut short after
  // crashes[i] writes (or ends, when it has fewer writes than that).
  function AfterAttempts(g: Geometry, d: Disk, crashes: seq<nat>): Disk
    requires WellFormed(g, d)
    decreases |crashes|
  {
    if crashes == [] then d
    else
      var done := if crashes[0] <= |Header(g, d)| + 1 then crashes[0] else |Header(g, d)| + 1;
      RecoveryKeepsDurable(g, d, done);
      AfterAttempts(g, RecoveryState(g, d, done), crashes[1..])
  }

  lemma {:induction false} AttemptsKeepDurable(g: Geometry, d: Disk, crashes: seq<nat>)
    requires WellFormed(g, d)
    ensures SameDurable(g, d, AfterAttempts(g, d, crashes))
    decreases |crashes|
  {
    if crashes != [] {
      var done := if crashes[0] <= |Header(g, d)| + 1 then crashes[0] else |Header(g, d)| + 1;
      RecoveryKeepsDurable(g, d, done);
      AttemptsKeepDurable(g, RecoveryState(g, d, done), crashes[1..]);
    }
  }

  lemma RecoveredIsDurable(g: Geometry, d: Disk)
    requires WellFormed(g, d)
    ensures WellFormed(g, Recovered(g, d)) && Header(g, Recovered(g, d)) == []
    ensures forall b :: Home(g, d, b) ==> Recovered(g, d)[b] == Durable(g, d, b)
  {
    RecoveryKeepsDurable(g, d, |Header(g, d)| + 1);
    forall b | Home(g, d, b) ensures Recovered(g, d)[b] == Durable(g, d, b) {
      assert Durable(g, Recovered(g, d), b) == Recovered(g, d)[b];
    }
  }

  /** Crash atomicity: crash commit after any k of its writes, crash any number
      of recoveries at any of theirs, then let one recovery finish.  The home
      blocks are all old if the header was not yet written and all new if it
      was, and the log is empty. */
  lemma CrashAtomicity(g: Geometry, d: Disk, lh: seq<int>, data: seq<Block>, k: nat, crashes: seq<nat>)
    requires WellFormed(g, d) && Header(g, d) == [] && Entries(g, d, lh) && |data| == |lh|
    requires k <= 2 * |lh| + 2
    ensures WellFormed(g, CommitState(g, d, lh, data, k))
    ensures WellFormed(g, AfterAttempts(g, CommitState(g, d, lh, data, k), crashes))
    ensures var final := Recovered(g, AfterAttempts(g, CommitState(g, d, lh, data, k), crashes));
            && |final| == |d| && WellFormed(g, final) && Header(g, final) == []
            && forall b :: Home(g, d, b) ==>
                 final[b] == if k <= |lh| then d[b] else Latest(g, d, lh, data, |lh|, b)
  {
    CommitIsAtomic(g, d, lh, data, k);
    var c := CommitState(g, d, lh, data, k);
    AttemptsKeepDurable(g, c, crashes);
    RecoveredIsDurable(g, AfterAttempts(g, c, crashes));
  }
}

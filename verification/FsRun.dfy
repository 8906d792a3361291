/** Runs of fs.c: any sequence of bmap, itrunc, readi and writei calls on any files,
    executed by the code of FsCode and FsFile, against one file as its stored bytes and as
    a plain byte sequence. */
module FsRun {
  import opened CTypes
  import opened FsData
  import opened Fs
  import opened FsCode
  import opened FsFile

  datatype Op =
    | Map(x: nat, bn: nat)
    | Trunc(x: nat)
    | Write(x: nat, off: nat, src: seq<byte>)
    | Read(x: nat, off: nat, count: nat)

  // The arguments are 32-bit and the file exists.
  predicate OpOk(n: nat, op: Op) {
    && op.x < n
    && (op.Write? ==> op.off < UINT && |op.src| < UINT)
    && (op.Read? ==> op.off < UINT && op.count < UINT)
  }

  // ---- a file as the bytes its blocks hold ----

  // raw has a byte for every position bmap reaches.
  datatype File = File(size: nat, raw: seq<byte>)

  predicate Whole(f: File) {
    |f.raw| == MAXBYTES && f.size <= MAXBYTES
  }

  ghost function FileOf(fs: Volume, x: nat): (f: File)
    requires x < |fs.inodes|
    ensures |f.raw| == MAXBYTES && f.size == fs.inodes[x].size
    ensures forall k :: 0 <= k < MAXBYTES ==> f.raw[k] == ByteAt(fs, x, k)
  {
    File(fs.inodes[x].size, seq(MAXBYTES, k requires 0 <= k < MAXBYTES => ByteAt(fs, x, k)))
  }

  // The writes that writei carries out.
  predicate WriteFits(off: nat, src: seq<byte>) {
    (off + |src|) % UINT <= MAXFILE * BSIZE && (|src| > 0 ==> off + |src| <= MAXBYTES)
  }

  function WriteFile(f: File, off: nat, src: seq<byte>): File
    requires Whole(f) && (|src| > 0 ==> off + |src| <= MAXBYTES)
  {
    if |src| == 0 then f
    else File(SizeOf(f.size, true, off, |src|), f.raw[..off] + src + f.raw[off + |src|..])
  }

  // itrunc frees the direct and indirect blocks; the rest of the bytes stay.
  function TruncFile(f: File): File
    requires Whole(f)
  {
    File(0, Zeros(SINGLE) + f.raw[SINGLE..])
  }

  // What one operation does to file x.
  function Apply(f: File, op: Op, x: nat): (r: File)
    requires Whole(f)
    ensures Whole(r)
  {
    match op
    case Write(y, off, src) => if y == x && WriteFits(off, src) then WriteFile(f, off, src) else f
    case Trunc(y) => if y == x then TruncFile(f) else f
    case _ => f
  }

  function Replay(f: File, ops: seq<Op>, x: nat): (r: File)
    requires Whole(f)
    ensures Whole(r)
  {
    if |ops| == 0 then f else Apply(Replay(f, ops[..|ops| - 1], x), ops[|ops| - 1], x)
  }

  // ---- one operation ----

  ghost predicate MappedStays(fs: Volume, fs': Volume, y: nat) {
    forall t :: StableAt(fs, fs', y, t)
  }

  // What an operation that completes does to all files: exactly its effect on stored bytes.
  ghost predicate Does(sb: Super, op: Op, fs: Volume, fs': Volume) {
    && Sized(sb, fs) && Sized(sb, fs') && |fs'.inodes| == |fs.inodes|
    && (forall y :: 0 <= y < |fs.inodes| ==> FileOf(fs', y) == Apply(FileOf(fs, y), op, y))
    && Keeps(op, fs, fs')
  }

  // Every block mapped in a file that op does not truncate stays where it is.
  ghost predicate Keeps(op: Op, fs: Volume, fs': Volume) {
    forall y :: 0 <= y < |fs.inodes| && op != Trunc(y) ==> MappedStays(fs, fs', y)
  }

  lemma StableKeeps(op: Op, fs: Volume, fs': Volume)
    requires Stable(fs, fs')
    ensures Keeps(op, fs, fs')
  {
    forall y: nat | y < |fs.inodes| ensures MappedStays(fs, fs', y) {
      assert forall t :: StableAt(fs, fs', y, t);
    }
  }

  lemma SameFileOf(sb: Super, fs: Volume, fs': Volume, y: nat)
    requires SameRaw(sb, fs, fs') && y < |fs.inodes|
    ensures FileOf(fs', y) == FileOf(fs, y)
  {
    forall k: nat | k < MAXBYTES ensures FileOf(fs', y).raw[k] == FileOf(fs, y).raw[k] {
      assert ByteSame(fs, fs', y, k);
    }
  }

  lemma SameRawDoes(sb: Super, op: Op, fs: Volume, fs': Volume)
    requires SameRaw(sb, fs, fs') && (op.Map? || op.Read? || (op.Write? && !WriteFits(op.off, op.src)))
    ensures Does(sb, op, fs, fs')
  {
    forall y: nat | y < |fs.inodes| ensures FileOf(fs', y) == Apply(FileOf(fs, y), op, y) {
      SameFileOf(sb, fs, fs', y);
    }
    StableKeeps(op, fs, fs');
  }

  lemma WriteDoes(sb: Super, fs: Volume, fs': Volume, x: nat, off: nat, src: seq<byte>)
    requires Sized(sb, fs) && RawWritten(sb, fs, fs', x, off, src) && WriteFits(off, src)
    ensures Does(sb, Write(x, off, src), fs, fs')
  {
    forall y: nat | y < |fs.inodes| ensures FileOf(fs', y) == Apply(FileOf(fs, y), Write(x, off, src), y) {
      WriteFileOf(sb, fs, fs', x, off, src, y);
    }
    StableKeeps(Write(x, off, src), fs, fs');
  }

  lemma WriteFileOf(sb: Super, fs: Volume, fs': Volume, x: nat, off: nat, src: seq<byte>, y: nat)
    requires Sized(sb, fs) && RawWritten(sb, fs, fs', x, off, src) && WriteFits(off, src) && y < |fs.inodes|
    ensures FileOf(fs', y) == Apply(FileOf(fs, y), Write(x, off, src), y)
  {
    var f := Apply(FileOf(fs, y), Write(x, off, src), y);
    forall k: nat | k < MAXBYTES ensures FileOf(fs', y).raw[k] == f.raw[k] {
      assert ByteOk(fs, fs', x, off, src, |src|, y, k);
    }
    assert FileOf(fs', y).raw == f.raw;
  }

  lemma TruncDoes(sb: Super, fs: Volume, fs': Volume, x: nat)
    requires Sized(sb, fs) && Truncated(sb, fs, fs', x)
    ensures Does(sb, Trunc(x), fs, fs')
  {
    forall y: nat | y < |fs.inodes| ensures FileOf(fs', y) == Apply(FileOf(fs, y), Trunc(x), y) {
      TruncFileOf(sb, fs, fs', x, y);
    }
    forall y: nat | y < |fs.inodes| && y != x ensures MappedStays(fs, fs', y) {
      forall t ensures StableAt(fs, fs', y, t) { assert TruncatedRef(fs, fs', x, y, t); }
    }
  }

  lemma TruncFileOf(sb: Super, fs: Volume, fs': Volume, x: nat, y: nat)
    requires Sized(sb, fs) && Truncated(sb, fs, fs', x) && y < |fs.inodes|
    ensures FileOf(fs', y) == Apply(FileOf(fs, y), Trunc(x), y)
  {
    var f := Apply(FileOf(fs, y), Trunc(x), y);
    forall k: nat | k < MAXBYTES ensures FileOf(fs', y).raw[k] == f.raw[k] {
      TruncatedByte(sb, fs, fs', x, y, k);
    }
    assert FileOf(fs', y).raw == f.raw;
  }

  // bmap is asked for a block that it cannot reach.
  predicate OutOfRange(op: Op) {
    match op
    case Map(_, bn) => bn >= MAXBLOCKS
    case Write(_, off, src) =>
      |src| > 0 && off + |src| > MAXBYTES && (off + |src|) % UINT <= MAXFILE * BSIZE
    case _ => false
  }

  // The call panicked: out of range, or in balloc, with no block left for a hole.
  ghost predicate Stopped(sb: Super, op: Op, fs: Volume) {
    || OutOfRange(op)
    || (op.Map? && DiskFull(sb, fs, op.x, op.bn * BSIZE, op.bn * BSIZE + 1))
    || (op.Write? && DiskFull(sb, fs, op.x, op.off, op.off + |op.src|))
    || (op.Read? && DiskFull(sb, fs, op.x, op.off, op.off + op.count))
  }

  // One call.  A panic leaves blocks owned and files no larger than bmap reaches.
  method Call(fs: FileSystem, op: Op) returns (r: Outcome)
    requires Sized(fs.sb, fs.Value()) && OpOk(|fs.inodes|, op)
    modifies fs
    ensures Sized(fs.sb, fs.Value()) && |fs.inodes| == |old(fs.inodes)|
    ensures Keeps(op, old(fs.Value()), fs.Value())
    ensures !r.Panic? ==> Does(fs.sb, op, old(fs.Value()), fs.Value())
    ensures !r.Panic? && op.Read? ==> r == ReadResult(Contents(old(fs.Value()), op.x), op.off, op.count)
    ensures OutOfRange(op) ==> r.Panic?
    ensures r.Panic? ==> Stopped(fs.sb, op, fs.Value())
  {
    match op
    case Map(x, bn) =>
      var ok, addr := fs.Bmap(x, bn);
      if bn < MAXBLOCKS { ExtendsKeepsRaw(fs.sb, old(fs.Value()), fs.Value(), x, DataSlot(bn)); }
      StableKeeps(op, old(fs.Value()), fs.Value());
      if !ok {
        assert bn < MAXBLOCKS ==> HoleAt(fs.Value(), x, bn * BSIZE);
        return Panic;
      }
      SameRawDoes(fs.sb, op, old(fs.Value()), fs.Value());
      r := Done([]);
    case Trunc(x) =>
      var ok := fs.Itrunc(x);
      TruncDoes(fs.sb, old(fs.Value()), fs.Value(), x);
      r := Done([]);
    case Write(x, off, src) =>
      r := Writei(fs, x, src, off);
      StableKeeps(op, old(fs.Value()), fs.Value());
      if r.Done? {
        WriteDoes(fs.sb, old(fs.Value()), fs.Value(), x, off, src);
      } else if r.Failed? {
        SameRawSelf(fs.sb, fs.Value());
        SameRawDoes(fs.sb, op, old(fs.Value()), fs.Value());
      }
    case Read(x, off, count) =>
      r := Readi(fs, x, off, count);
      SameRawDoes(fs.sb, op, old(fs.Value()), fs.Value());
  }

  // What readi returns, from the contents.
  function ReadResult(c: seq<byte>, off: nat, count: nat): Outcome {
    if off > |c| || (off + count) % UINT < off then Failed else Done(Slice(c, off, count))
  }

  lemma SameRawSelf(sb: Super, fs: Volume)
    requires Sized(sb, fs)
    ensures SameRaw(sb, fs, fs)
  {
  }

  // ---- any sequence of operations ----

  ghost predicate Untruncated(ops: seq<Op>, y: nat) {
    forall i :: 0 <= i < |ops| ==> ops[i] != Trunc(y)
  }

  // The state after ops, started in fs.
  ghost predicate After(sb: Super, ops: seq<Op>, fs: Volume, fs': Volume) {
    && Sized(sb, fs) && Sized(sb, fs') && |fs'.inodes| == |fs.inodes|
    && (forall y :: 0 <= y < |fs.inodes| ==> FileOf(fs', y) == Replay(FileOf(fs, y), ops, y))
    && KeepsAll(ops, fs, fs')
  }

  // Every block mapped in a file that no operation truncates stays where it is.
  ghost predicate KeepsAll(ops: seq<Op>, fs: Volume, fs': Volume) {
    forall y :: 0 <= y < |fs.inodes| && Untruncated(ops, y) ==> MappedStays(fs, fs', y)
  }

  lemma UntruncatedPrefix(ops: seq<Op>, more: seq<Op>, y: nat)
    requires Untruncated(ops + more, y)
    ensures Untruncated(ops, y)
  {
    var all := ops + more;
    assert forall i :: 0 <= i < |ops| ==> all[i] == ops[i];
  }

  lemma KeepsOneMore(ops: seq<Op>, op: Op, fs: Volume, fs1: Volume, fs2: Volume)
    requires |fs1.inodes| == |fs.inodes| && KeepsAll(ops, fs, fs1) && Keeps(op, fs1, fs2)
    ensures KeepsAll(ops + [op], fs, fs2)
  {
    forall y: nat | y < |fs.inodes| && Untruncated(ops + [op], y) ensures MappedStays(fs, fs2, y) {
      assert (ops + [op])[|ops|] == op;
      UntruncatedPrefix(ops, [op], y);
      forall t ensures StableAt(fs, fs2, y, t) { assert StableAt(fs, fs1, y, t) && StableAt(fs1, fs2, y, t); }
    }
  }

  lemma KeepsPrefix(ops: seq<Op>, n: nat, fs: Volume, fs': Volume)
    requires n <= |ops| && KeepsAll(ops[..n], fs, fs')
    ensures KeepsAll(ops, fs, fs')
  {
    assert ops == ops[..n] + ops[n..];
    forall y: nat | y < |fs.inodes| && Untruncated(ops, y) ensures MappedStays(fs, fs', y) {
      UntruncatedPrefix(ops[..n], ops[n..], y);
    }
  }

  lemma OneMore(sb: Super, ops: seq<Op>, op: Op, fs: Volume, fs1: Volume, fs2: Volume)
    requires After(sb, ops, fs, fs1) && Does(sb, op, fs1, fs2)
    ensures After(sb, ops + [op], fs, fs2)
  {
    var all := ops + [op];
    assert all[..|all| - 1] == ops;
    KeepsOneMore(ops, op, fs, fs1, fs2);
  }

  // The bytes of a file up to its size.
  function Plain(f: File): seq<byte>
    requires Whole(f)
  {
    f.raw[..f.size]
  }

  lemma PlainIsContents(sb: Super, fs: Volume, x: nat)
    requires Sized(sb, fs) && x < |fs.inodes|
    ensures Plain(FileOf(fs, x)) == Contents(fs, x)
  {
  }

  // bmap is injective: across files and over its whole index range.
  lemma MapIsInjective(sb: Super, fs: Volume, x: nat, bn: nat, y: nat, bm: nat)
    requires Owned(sb, fs) && x < |fs.inodes| && y < |fs.inodes| && bn < MAXBLOCKS && bm < MAXBLOCKS
    requires Ref(fs, x, DataSlot(bn)) == Ref(fs, y, DataSlot(bm)) != 0
    ensures x == y && bn == bm
  {
    assert DistinctOk(fs, x, DataSlot(bn), y, DataSlot(bm));
    DataSlotInjective(bn, bm);
  }

  // ---- a file as a plain byte sequence ----

  ghost predicate ZeroTail(f: File) {
    forall k :: f.size <= k < |f.raw| ==> f.raw[k] == 0
  }

  function ApplyBytes(c: seq<byte>, op: Op, x: nat): seq<byte> {
    match op
    case Write(y, off, src) => if y == x && WriteFits(off, src) then Overwritten(c, off, src) else c
    case Trunc(y) => if y == x then [] else c
    case _ => c
  }

  function ReplayBytes(c: seq<byte>, ops: seq<Op>, x: nat): seq<byte> {
    if |ops| == 0 then c else ApplyBytes(ReplayBytes(c, ops[..|ops| - 1], x), ops[|ops| - 1], x)
  }

  // Nothing but zeros past the range of the indirect block.
  predicate Clean(c: seq<byte>) {
    forall k :: SINGLE <= k < |c| ==> c[k] == 0
  }

  // Every truncation of x in the run finds the file clean.
  ghost predicate CleanTruncs(c: seq<byte>, ops: seq<Op>, x: nat) {
    forall i :: 0 <= i < |ops| && ops[i] == Trunc(x) ==> Clean(ReplayBytes(c, ops[..i], x))
  }

  lemma WriteIsPlain(f: File, off: nat, src: seq<byte>)
    requires Whole(f) && ZeroTail(f) && WriteFits(off, src)
    ensures ZeroTail(WriteFile(f, off, src)) && Plain(WriteFile(f, off, src)) == Overwritten(Plain(f), off, src)
  {
    if |src| > 0 {
      var g, c := WriteFile(f, off, src), Overwritten(Plain(f), off, src);
      forall k: nat | k < MAXBYTES ensures g.raw[k] == FsFile.At(c, k) { OverwrittenAt(Plain(f), off, src, k); }
      OverwrittenAt(Plain(f), off, src, 0);
      assert |c| == g.size;
    }
  }

  // Truncation leaves only zeros beyond the size if and only if the file was clean.
  lemma TruncIsPlainIff(f: File)
    requires Whole(f) && ZeroTail(f)
    ensures ZeroTail(TruncFile(f)) <==> Clean(Plain(f))
  {
    var g := TruncFile(f);
    assert forall k :: SINGLE <= k < MAXBYTES ==> g.raw[k] == f.raw[k];
    assert forall k :: 0 <= k < SINGLE ==> g.raw[k] == 0;
    assert forall k :: 0 <= k < f.size ==> Plain(f)[k] == f.raw[k];
  }

  /** Over any run in which every truncation of the file finds it clean, the stored bytes
      replay to what the plain byte sequence replays to. */
  lemma {:induction false} ReplayIsPlain(f: File, ops: seq<Op>, x: nat)
    requires Whole(f) && ZeroTail(f) && CleanTruncs(Plain(f), ops, x)
    ensures ZeroTail(Replay(f, ops, x)) && Plain(Replay(f, ops, x)) == ReplayBytes(Plain(f), ops, x)
  {
    if |ops| > 0 {
      var before, op := ops[..|ops| - 1], ops[|ops| - 1];
      assert forall i :: 0 <= i < |before| ==> before[i] == ops[i] && before[..i] == ops[..i];
      ReplayIsPlain(f, before, x);
      var g := Replay(f, before, x);
      match op
      case Write(y, off, src) => if y == x && WriteFits(off, src) { WriteIsPlain(g, off, src); }
      case Trunc(y) => if y == x { TruncIsPlainIff(g); }
      case _ =>
    }
  }

  lemma FilesOkIsZeroTail(sb: Super, fs: Volume, x: nat)
    requires FilesOk(sb, fs) && x < |fs.inodes|
    ensures ZeroTail(FileOf(fs, x))
  {
    forall k | fs.inodes[x].size <= k < MAXBYTES ensures FileOf(fs, x).raw[k] == 0 {
      assert ZeroAt(fs, x, k);
    }
  }

  /** The block and inode machinery refines one byte sequence per file: what Execute leaves
      is the replay of its calls on the contents. */
  lemma FilesRefineBytes(sb: Super, ops: seq<Op>, fs: Volume, fs': Volume, x: nat)
    requires FilesOk(sb, fs) && After(sb, ops, fs, fs') && x < |fs.inodes| && CleanTruncs(Contents(fs, x), ops, x)
    ensures Contents(fs', x) == ReplayBytes(Contents(fs, x), ops, x)
  {
    FilesOkIsZeroTail(sb, fs, x);
    PlainIsContents(sb, fs, x);
    PlainIsContents(sb, fs', x);
    ReplayIsPlain(FileOf(fs, x), ops, x);
  }

  // Every file whose truncations were clean holds the replay of its contents.
  ghost predicate RefinesBytes(sb: Super, ops: seq<Op>, fs: Volume, fs': Volume)
    requires Sized(sb, fs) && Sized(sb, fs') && |fs'.inodes| == |fs.inodes|
  {
    forall x :: 0 <= x < |fs.inodes| && CleanTruncs(Contents(fs, x), ops, x) ==>
      Contents(fs', x) == ReplayBytes(Contents(fs, x), ops, x)
  }

  lemma AllRefineBytes(sb: Super, ops: seq<Op>, fs: Volume, fs': Volume)
    requires After(sb, ops, fs, fs')
    ensures FilesOk(sb, fs) ==> RefinesBytes(sb, ops, fs, fs')
  {
    forall x: nat | x < |fs.inodes| && FilesOk(sb, fs) && CleanTruncs(Contents(fs, x), ops, x)
      ensures Contents(fs', x) == ReplayBytes(Contents(fs, x), ops, x)
    {
      FilesRefineBytes(sb, ops, fs, fs', x);
    }
  }

  // ---- execution ----

  // What the i-th call returned, if it is a read.
  ghost predicate ReadOk(was: Volume, ops: seq<Op>, i: nat, r: Outcome)
    requires i < |ops| && ops[i].Read?
  {
    && ops[i].x < |was.inodes| && was.inodes[ops[i].x].size <= MAXBYTES
    && var f := Replay(FileOf(was, ops[i].x), ops[..i], ops[i].x);
       r == ReadResult(Plain(f), ops[i].off, ops[i].count)
  }

  // The n-th call of a run that started in was.
  method Round(fs: FileSystem, ops: seq<Op>, n: nat, ghost was: Volume) returns (r: Outcome)
    requires n < |ops| && OpOk(|fs.inodes|, ops[n]) && After(fs.sb, ops[..n], was, fs.Value())
    modifies fs
    ensures Sized(fs.sb, fs.Value()) && |fs.inodes| == |old(fs.inodes)|
    ensures r.Panic? ==> KeepsAll(ops, was, fs.Value()) && Stopped(fs.sb, ops[n], fs.Value())
    ensures !r.Panic? ==> !OutOfRange(ops[n])
    ensures !r.Panic? ==> After(fs.sb, ops[..n + 1], was, fs.Value())
    ensures !r.Panic? && ops[n].Read? ==> ReadOk(was, ops, n, r)
  {
    ghost var now := fs.Value();
    r := Call(fs, ops[n]);
    assert ops[..n] + [ops[n]] == ops[..n + 1];
    if r.Panic? {
      KeepsOneMore(ops[..n], ops[n], was, now, fs.Value());
      KeepsPrefix(ops, n + 1, was, fs.Value());
    } else {
      OneMore(fs.sb, ops[..n], ops[n], was, now, fs.Value());
      PlainIsContents(fs.sb, now, ops[n].x);
    }
  }

  /** Any sequence of calls, on any files, stopped by the first panic, which is out of bmap's
      range or on a hole with every block marked.  After the calls that completed, every file
      is what replaying them on its stored bytes gives, each read returned the slice of what
      was there, and a file whose truncations were clean holds what replaying the calls on a
      plain byte sequence gives.  Panic or not, the blocks of all files are marked and
      pairwise distinct, and every block that was mapped in a file not truncated since is
      where it was. */
  method Execute(fs: FileSystem, ops: seq<Op>) returns (n: nat, outs: seq<Outcome>)
    requires Sized(fs.sb, fs.Value()) && forall i :: 0 <= i < |ops| ==> OpOk(|fs.inodes|, ops[i])
    modifies fs
    ensures Sized(fs.sb, fs.Value()) && n == |outs| <= |ops| && |fs.inodes| == |old(fs.inodes)|
    ensures n == |ops| ==> After(fs.sb, ops, old(fs.Value()), fs.Value())
    ensures n == |ops| && FilesOk(fs.sb, old(fs.Value())) ==> RefinesBytes(fs.sb, ops, old(fs.Value()), fs.Value())
    ensures forall i :: 0 <= i < n && ops[i].Read? ==> ReadOk(old(fs.Value()), ops, i, outs[i])
    ensures KeepsAll(ops, old(fs.Value()), fs.Value())
    ensures n < |ops| ==> Stopped(fs.sb, ops[n], fs.Value())
    ensures forall i :: 0 <= i < n ==> !OutOfRange(ops[i])
  {
    n, outs := 0, [];
    ghost var was := fs.Value();
    while n < |ops|
      invariant 0 <= n == |outs| <= |ops| && |fs.inodes| == |was.inodes| && After(fs.sb, ops[..n], was, fs.Value())
      invariant forall i :: 0 <= i < n && ops[i].Read? ==> ReadOk(was, ops, i, outs[i])
      invariant forall i :: 0 <= i < n ==> !OutOfRange(ops[i])
    {
      var r := Round(fs, ops, n, was);
      if r.Panic? {
        return;
      }
      n, outs := n + 1, outs + [r];
    }
    assert ops[..n] == ops;
    AllRefineBytes(fs.sb, ops, was, fs.Value());
  }

  // ---- truncation and contents ----

  // The first byte that bmap reaches through the doubly-indirect block.
  const SINGLE: nat := (NDIRECT + NINDIRECT) * BSIZE

  lemma TruncatedByte(sb: Super, fs: Volume, fs': Volume, x: nat, y: nat, k: nat)
    requires Truncated(sb, fs, fs', x) && y < |fs.inodes| && k < MAXBYTES
    ensures ByteAt(fs', y, k) == if y == x && k < SINGLE then 0 else ByteAt(fs, y, k)
  {
    var s := DataSlot(k / BSIZE);
    assert TruncatedRef(fs, fs', x, y, s) && TruncatedData(fs, fs', x, y, s);
    assert Singly(s) <==> k / BSIZE < NDIRECT + NINDIRECT;
  }

  /** Truncation leaves only zero bytes beyond the new size exactly when the file
      held only zeros past the range of its indirect block. */
  lemma TruncationKeepsFilesIff(sb: Super, fs: Volume, fs': Volume, x: nat)
    requires FilesOk(sb, fs) && Truncated(sb, fs, fs', x)
    ensures FilesOk(sb, fs') <==> forall k :: SINGLE <= k < |Contents(fs, x)| ==> Contents(fs, x)[k] == 0
  {
    forall y: nat, k: nat | y < |fs.inodes| && k < MAXBYTES
      ensures ByteAt(fs', y, k) == if y == x && k < SINGLE then 0 else ByteAt(fs, y, k)
    {
      TruncatedByte(sb, fs, fs', x, y, k);
    }
    if forall k :: SINGLE <= k < |Contents(fs, x)| ==> Contents(fs, x)[k] == 0 {
      forall y: nat, k: nat ensures ZeroAt(fs', y, k) {
        assert ZeroAt(fs, y, k);
        if y == x && SINGLE <= k < |Contents(fs, x)| {
          assert Contents(fs, x)[k] == ByteAt(fs, x, k);
        }
      }
    }
    if FilesOk(sb, fs') {
      forall k | SINGLE <= k < |Contents(fs, x)| ensures Contents(fs, x)[k] == 0 {
        assert ZeroAt(fs', x, k);
      }
    }
  }

  // ---- a file with a doubly-indirect block ----

  // Eight blocks; block 2 is the free map; the one file holds a single byte 1 at SINGLE,
  // in block 6, through the blocks 4 and 5.
  const SmallSuper: Super := Super(8, 2, 4)

  function SmallVolume(): Volume {
    Volume([Zeroes(), Zeroes(), Zeroes()[0 := 127], Zeroes(),
            WithWord(Zeroes(), 0, 5), WithWord(Zeroes(), 0, 6), Zeroes()[0 := 1], Zeroes()],
      [Inode(SINGLE + 1, [0, 0, 0, 0, 0, 0, 0, 0, 0, 0, 0, 0, 4])])
  }

  const L1: Slot := Child(Root(DBL), 0)
  const L2: Slot := Child(Child(Root(DBL), 0), 0)

  lemma {:induction false} SmallRefs(s: Slot)
    requires IsSlot(s)
    ensures Ref(SmallVolume(), 0, s) == if s == Root(DBL) then 4 else if s == L1 then 5 else if s == L2 then 6 else 0
  {
    if s.Child? {
      SmallRefs(s.parent);
      WordOfWithWord(Zeroes(), 0, 5, s.j);
      WordOfWithWord(Zeroes(), 0, 6, s.j);
      ZeroWord(s.j);
    }
  }

  lemma SmallMarks(c: nat)
    requires c < 8
    ensures Marked(SmallSuper, SmallVolume(), c) <==> c < 7
  {
    assert c % BPB == c && c / BPB == 0 && SmallVolume().blocks[2][0] == 127;
    assert BitSet(127, 0) && BitSet(127, 1) && BitSet(127, 2) && BitSet(127, 3);
    assert BitSet(127, 4) && BitSet(127, 5) && BitSet(127, 6) && !BitSet(127, 7);
  }

  lemma SmallVolumeIsOwned()
    ensures Owned(SmallSuper, SmallVolume())
  {
    forall c: nat | c < 8 ensures Marked(SmallSuper, SmallVolume(), c) <==> c < 7 { SmallMarks(c); }
    forall x: nat, s ensures OwnedOk(SmallSuper, SmallVolume(), x, s) {
      if IsSlot(s) { SmallRefs(s); }
    }
    forall x: nat, s, y: nat, t ensures DistinctOk(SmallVolume(), x, s, y, t) {
      if IsSlot(s) { SmallRefs(s); }
      if IsSlot(t) { SmallRefs(t); }
    }
  }

  lemma SmallByte(k: nat)
    requires k < MAXBYTES
    ensures ByteAt(SmallVolume(), 0, k) == if k == SINGLE then 1 else 0
  {
    var s := DataSlot(k / BSIZE);
    SmallRefs(s);
    if s == L2 { assert k / BSIZE == NDIRECT + NINDIRECT; }
  }

  lemma SmallVolumeIsOk()
    ensures FilesOk(SmallSuper, SmallVolume())
  {
    SmallVolumeIsOwned();
    forall x: nat, k: nat ensures ZeroAt(SmallVolume(), x, k) {
      if x == 0 && k < MAXBYTES { SmallByte(k); }
    }
  }

  /** Truncating this file leaves blocks 4, 5 and 6 marked though the file is empty, and its
      byte 1 beyond the end. */
  method TruncationLeaks() returns (fs: FileSystem)
    ensures fs.sb == SmallSuper && |fs.inodes| == 1 && fs.inodes[0].size == 0 && Owned(SmallSuper, fs.Value())
    ensures Marked(SmallSuper, fs.Value(), 4) && Marked(SmallSuper, fs.Value(), 5) && Marked(SmallSuper, fs.Value(), 6)
    ensures !FilesOk(SmallSuper, fs.Value()) && ByteAt(fs.Value(), 0, SINGLE) == 1
  {
    SmallVolumeIsOk();
    var v := SmallVolume();
    fs := new FileSystem(SmallSuper, v.blocks, v.inodes);
    assert fs.Value() == SmallVolume();
    var ok := fs.Itrunc(0);
    TruncationKeepsThree(fs.Value());
  }

  lemma TruncationKeepsThree(fs': Volume)
    requires Truncated(SmallSuper, SmallVolume(), fs', 0)
    ensures Marked(SmallSuper, fs', 4) && Marked(SmallSuper, fs', 5) && Marked(SmallSuper, fs', 6)
    ensures !FilesOk(SmallSuper, fs') && ByteAt(fs', 0, SINGLE) == 1
  {
    SmallRefs(Root(DBL));
    SmallRefs(L1);
    SmallRefs(L2);
    SmallMarks(4);
    SmallMarks(5);
    SmallMarks(6);
    StillOwned(SmallSuper, SmallVolume(), 0, IND + 1, NINDIRECT, 0, Root(DBL));
    StillOwned(SmallSuper, SmallVolume(), 0, IND + 1, NINDIRECT, 0, L1);
    StillOwned(SmallSuper, SmallVolume(), 0, IND + 1, NINDIRECT, 0, L2);
    SmallByte(SINGLE);
    TruncatedByte(SmallSuper, SmallVolume(), fs', 0, 0, SINGLE);
    assert !ZeroAt(fs', 0, SINGLE);
  }
}

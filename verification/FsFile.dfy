/** File contents: readi and writei of fs.c on regular files, proved against the bytes
    that the blocks of a file hold and against a file as a plain byte sequence. */
module FsFile {
  import opened CTypes
  import opened FsData
  import opened Fs
  import opened FsCode

  const MAXBYTES: nat := MAXBLOCKS * BSIZE                              // what bmap reaches
  const MAXFILE: nat := NDIRECT + NINDIRECT * (NINDIRECT * NINDIRECT)   // fs.h

  datatype Outcome = Done(data: seq<byte>) | Failed | Panic

  // ---- a file as bytes ----

  // Byte k of the blocks of file x, zero in a hole.
  function ByteAt(fs: Volume, x: nat, k: nat): byte
    requires k < MAXBYTES
  {
    DataBlock(fs, x, DataSlot(k / BSIZE))[k % BSIZE]
  }

  ghost predicate ZeroAt(fs: Volume, x: nat, k: nat) {
    x < |fs.inodes| && fs.inodes[x].size <= k < MAXBYTES ==> ByteAt(fs, x, k) == 0
  }

  // Blocks are owned and no file is larger than bmap reaches.
  ghost predicate Sized(sb: Super, fs: Volume) {
    Owned(sb, fs) && forall x :: 0 <= x < |fs.inodes| ==> fs.inodes[x].size <= MAXBYTES
  }

  /** And every byte stored beyond a file's size is zero. */
  ghost predicate FilesOk(sb: Super, fs: Volume) {
    Sized(sb, fs) && forall x, k :: ZeroAt(fs, x, k)
  }

  // A block once mapped stays where it is.
  ghost predicate StableAt(fs: Volume, fs': Volume, y: nat, t: Slot) {
    y < |fs.inodes| && IsSlot(t) && Ref(fs, y, t) != 0 ==> Ref(fs', y, t) == Ref(fs, y, t)
  }

  ghost predicate Stable(fs: Volume, fs': Volume) {
    forall y, t :: StableAt(fs, fs', y, t)
  }

  // The contents of file x.
  ghost function Contents(fs: Volume, x: nat): (c: seq<byte>)
    requires x < |fs.inodes| && fs.inodes[x].size <= MAXBYTES
  {
    seq(fs.inodes[x].size, k requires 0 <= k < fs.inodes[x].size => ByteAt(fs, x, k))
  }

  /** Byte k of a file, in terms of the inode and the blocks of numbers: it is in the block
      that block number k / 512 names, or in a hole. */
  lemma ByteIsIn(sb: Super, fs: Volume, x: nat, k: nat)
    requires Owned(sb, fs) && x < |fs.inodes| && k < MAXBYTES
    ensures |fs.inodes[x].addrs| == 13
    ensures var bn, addrs := k / 512, fs.inodes[x].addrs;
      var a :=
        if bn < 11 then addrs[bn]
        else if bn < 139 then (if addrs[11] == 0 then 0 else EntryIn(fs.blocks, addrs[11], bn - 11))
        else if addrs[12] == 0 || EntryIn(fs.blocks, addrs[12], (bn - 139) / 128) == 0 then 0
        else EntryIn(fs.blocks, EntryIn(fs.blocks, addrs[12], (bn - 139) / 128), (bn - 139) % 128);
      if a == 0 then ByteAt(fs, x, k) == 0 else a < |fs.blocks| && ByteAt(fs, x, k) == fs.blocks[a][k % 512]
  {
    var s := DataSlot(k / BSIZE);
    assert OwnedOk(sb, fs, x, s);
    if s.Child? {
      assert OwnedOk(sb, fs, x, s.parent);
      if s.parent.Child? { assert OwnedOk(sb, fs, x, s.parent.parent); }
    }
  }

  function Zeros(n: nat): seq<byte> {
    seq(n, _ => 0)
  }

  // c with src stored at off; a gap past the end is filled with zeros.
  function Overwritten(c: seq<byte>, off: nat, src: seq<byte>): seq<byte> {
    if |src| == 0 then c
    else if |c| <= off then c + Zeros(off - |c|) + src
    else c[..off] + src + (if off + |src| < |c| then c[off + |src|..] else [])
  }

  // ---- storing into a block ----

  function Put(fs: Volume, a: nat, nb: Block): Volume
    requires a < |fs.blocks|
  {
    Volume(fs.blocks[a := nb], fs.inodes)
  }

  lemma {:induction false} PutKeepsRefs(sb: Super, fs: Volume, x: nat, s: Slot, nb: Block, y: nat, t: Slot)
    requires Owned(sb, fs) && x < |fs.inodes| && IsData(s) && 0 < Ref(fs, x, s) < |fs.blocks|
    requires y < |fs.inodes| && IsSlot(t)
    ensures Ref(Put(fs, Ref(fs, x, s), nb), y, t) == Ref(fs, y, t)
    decreases t
  {
    if t.Child? {
      PutKeepsRefs(sb, fs, x, s, nb, y, t.parent);
      assert DistinctOk(fs, x, s, y, t.parent);
    }
  }

  lemma PutKeepsOwned(sb: Super, fs: Volume, x: nat, s: Slot, nb: Block)
    requires Owned(sb, fs) && x < |fs.inodes| && IsData(s) && 0 < Ref(fs, x, s) < |fs.blocks|
    ensures Owned(sb, Put(fs, Ref(fs, x, s), nb))
  {
    var fs' := Put(fs, Ref(fs, x, s), nb);
    assert OwnedOk(sb, fs, x, s);
    assert forall c :: 0 <= c < sb.size ==> Marked(sb, fs', c) == Marked(sb, fs, c);
    forall y: nat, t ensures OwnedOk(sb, fs', y, t) {
      if y < |fs.inodes| && IsSlot(t) {
        PutKeepsRefs(sb, fs, x, s, nb, y, t);
        assert OwnedOk(sb, fs, y, t);
      }
    }
    forall y: nat, t, z: nat, u ensures DistinctOk(fs', y, t, z, u) {
      if y < |fs.inodes| && z < |fs.inodes| && IsSlot(t) && IsSlot(u) {
        PutKeepsRefs(sb, fs, x, s, nb, y, t);
        PutKeepsRefs(sb, fs, x, s, nb, z, u);
        assert DistinctOk(fs, y, t, z, u);
      }
    }
  }

  lemma PutData(sb: Super, fs: Volume, x: nat, s: Slot, nb: Block, y: nat, t: Slot)
    requires Owned(sb, fs) && x < |fs.inodes| && IsData(s) && 0 < Ref(fs, x, s) < |fs.blocks|
    requires y < |fs.inodes| && IsData(t)
    ensures DataBlock(Put(fs, Ref(fs, x, s), nb), y, t) == if x == y && s == t then nb else DataBlock(fs, y, t)
  {
    PutKeepsRefs(sb, fs, x, s, nb, y, t);
    assert DistinctOk(fs, x, s, y, t);
  }

  // m bytes of src from tot on, stored in a block at position at.
  function Patched(b: Block, at: nat, src: seq<byte>, tot: nat, m: nat): Block
    requires at + m <= BSIZE && tot + m <= |src|
  {
    b[..at] + src[tot..tot + m] + b[at + m..]
  }

  // After tot bytes of src have been stored at off of file x, each byte of each file.
  ghost predicate ByteOk(fs: Volume, now: Volume, x: nat, off: nat, src: seq<byte>, tot: nat, y: nat, k: nat)
    requires tot <= |src|
  {
    y < |fs.inodes| && k < MAXBYTES ==>
      ByteAt(now, y, k) == if x == y && off <= k < off + tot then src[k - off] else ByteAt(fs, y, k)
  }

  ghost predicate Written(fs: Volume, now: Volume, x: nat, off: nat, src: seq<byte>, tot: nat)
    requires tot <= |src|
  {
    SameSizes(fs, now) && Stable(fs, now) && forall y, k :: ByteOk(fs, now, x, off, src, tot, y, k)
  }

  lemma StableTrans(fs: Volume, fs1: Volume, fs2: Volume)
    requires Stable(fs, fs1) && Stable(fs1, fs2) && |fs1.inodes| == |fs.inodes|
    ensures Stable(fs, fs2)
  {
    forall y: nat, t ensures StableAt(fs, fs2, y, t) {
      assert StableAt(fs, fs1, y, t) && StableAt(fs1, fs2, y, t);
    }
  }

  lemma ExtendsStable(sb: Super, fs: Volume, fs': Volume, x: nat, s: Slot)
    requires Extends(sb, fs, fs', x, s)
    ensures Stable(fs, fs')
  {
    forall y: nat, t ensures StableAt(fs, fs', y, t) {
      assert RefKept(fs, fs', x, s, y, t);
    }
  }

  lemma ExtendsWritten(sb: Super, fs: Volume, now: Volume, now': Volume, x: nat, s: Slot, off: nat, src: seq<byte>,
                      tot: nat)
    requires tot <= |src| && Written(fs, now, x, off, src, tot) && Extends(sb, now, now', x, s)
    ensures Written(fs, now', x, off, src, tot)
  {
    ExtendsStable(sb, now, now', x, s);
    StableTrans(fs, now, now');
    forall y: nat, k: nat ensures ByteOk(fs, now', x, off, src, tot, y, k) {
      assert ByteOk(fs, now, x, off, src, tot, y, k);
      if k < MAXBYTES {
        assert DataKept(now, now', y, DataSlot(k / BSIZE));
      }
    }
  }

  lemma PatchedAt(b: Block, at: nat, src: seq<byte>, tot: nat, m: nat, i: nat)
    requires at + m <= BSIZE && tot + m <= |src| && i < BSIZE
    ensures Patched(b, at, src, tot, m)[i] == if at <= i < at + m then src[tot + i - at] else b[i]
  {
  }

  // m bytes from p on, not past the end of p's block.
  lemma WithinBlock(p: nat, m: nat, k: nat)
    requires 0 < m && p % BSIZE + m <= BSIZE
    ensures k / BSIZE == p / BSIZE ==> k - p == k % BSIZE - p % BSIZE
    ensures k / BSIZE != p / BSIZE ==> !(p <= k < p + m)
  {
  }

  // Byte k of the patched block at p's place.
  lemma PatchedByte(b: Block, p: nat, src: seq<byte>, tot: nat, m: nat, k: nat)
    requires 0 < m && p % BSIZE + m <= BSIZE && tot + m <= |src| && tot <= p && k / BSIZE == p / BSIZE
    ensures Patched(b, p % BSIZE, src, tot, m)[k % BSIZE] == if p <= k < p + m then src[k - (p - tot)] else b[k % BSIZE]
  {
    WithinBlock(p, m, k);
    PatchedAt(b, p % BSIZE, src, tot, m, k % BSIZE);
  }

  // One round of writei's loop: block s of file x, at p == off + tot, is patched.
  ghost predicate Patch(sb: Super, now: Volume, now': Volume, x: nat, s: Slot, p: nat, src: seq<byte>, tot: nat,
                      m: nat) {
    && Owned(sb, now) && x < |now.inodes| && tot + m <= |src| && p + m <= MAXBYTES
    && 0 < m && p % BSIZE + m <= BSIZE
    && s == DataSlot(p / BSIZE) && 0 < Ref(now, x, s) < |now.blocks|
    && now' == Put(now, Ref(now, x, s), Patched(DataBlock(now, x, s), p % BSIZE, src, tot, m))
  }

  lemma PatchByte(sb: Super, now: Volume, now': Volume, x: nat, s: Slot, p: nat, src: seq<byte>, tot: nat, m: nat,
                  y: nat, k: nat)
    requires Patch(sb, now, now', x, s, p, src, tot, m) && tot <= p && y < |now.inodes| && k < MAXBYTES
    ensures ByteAt(now', y, k) == if x == y && p <= k < p + m then src[k - (p - tot)] else ByteAt(now, y, k)
  {
    PutData(sb, now, x, s, Patched(DataBlock(now, x, s), p % BSIZE, src, tot, m), y, DataSlot(k / BSIZE));
    if x == y && DataSlot(k / BSIZE) == s {
      DataSlotInjective(k / BSIZE, p / BSIZE);
      PatchedByte(DataBlock(now, x, s), p, src, tot, m, k);
    } else {
      WithinBlock(p, m, k);
    }
  }

  lemma PatchWritten(sb: Super, fs: Volume, now: Volume, now': Volume, x: nat, s: Slot, off: nat, src: seq<byte>,
                     tot: nat, m: nat)
    requires Patch(sb, now, now', x, s, off + tot, src, tot, m) && Written(fs, now, x, off, src, tot)
    ensures Owned(sb, now') && Written(fs, now', x, off, src, tot + m)
  {
    var tot' := tot + m;
    forall y: nat, t ensures StableAt(now, now', y, t) {
      if y < |now.inodes| && IsSlot(t) {
        PutKeepsRefs(sb, now, x, s, Patched(DataBlock(now, x, s), (off + tot) % BSIZE, src, tot, m), y, t);
      }
    }
    StableTrans(fs, now, now');
    PutKeepsOwned(sb, now, x, s, Patched(DataBlock(now, x, s), (off + tot) % BSIZE, src, tot, m));
    forall y: nat, k: nat ensures ByteOk(fs, now', x, off, src, tot', y, k) {
      assert ByteOk(fs, now, x, off, src, tot, y, k);
      if y < |fs.inodes| && k < MAXBYTES {
        PatchByte(sb, now, now', x, s, off + tot, src, tot, m, y, k);
      }
    }
  }

  // ---- the end of writei ----

  // File x after writei: its size, then its bytes.
  function Grown(now: Volume, x: nat, end: nat): Volume
    requires x < |now.inodes|
  {
    if end > now.inodes[x].size then Volume(now.blocks, now.inodes[x := WithSize(now.inodes[x], end)]) else now
  }

  lemma {:induction false} GrownRef(now: Volume, x: nat, end: nat, y: nat, t: Slot)
    requires x < |now.inodes|
    ensures Ref(Grown(now, x, end), y, t) == Ref(now, y, t)
    decreases t
  {
    if t.Child? { GrownRef(now, x, end, y, t.parent); }
  }

  lemma GrownKeeps(sb: Super, now: Volume, x: nat, end: nat)
    requires Owned(sb, now) && x < |now.inodes|
    ensures Owned(sb, Grown(now, x, end)) && Stable(now, Grown(now, x, end))
    ensures forall y: nat, k: nat :: k < MAXBYTES ==> ByteAt(Grown(now, x, end), y, k) == ByteAt(now, y, k)
  {
    var fs' := Grown(now, x, end);
    assert forall c :: 0 <= c < sb.size ==> Marked(sb, fs', c) == Marked(sb, now, c);
    forall y: nat, t ensures Ref(fs', y, t) == Ref(now, y, t) { GrownRef(now, x, end, y, t); }
    forall y: nat, t ensures OwnedOk(sb, fs', y, t) { assert OwnedOk(sb, now, y, t); }
    forall y: nat, t, z: nat, u ensures DistinctOk(fs', y, t, z, u) { assert DistinctOk(now, y, t, z, u); }
  }

  // c[k], with zeros past the end of c.
  function At(c: seq<byte>, k: nat): byte {
    if k < |c| then c[k] else 0
  }

  lemma OverwrittenAt(c: seq<byte>, off: nat, src: seq<byte>, k: nat)
    requires |src| > 0
    ensures |Overwritten(c, off, src)| == if off + |src| > |c| then off + |src| else |c|
    ensures At(Overwritten(c, off, src), k) == if off <= k < off + |src| then src[k - off] else At(c, k)
  {
  }

  // Byte k of file x is byte k of its contents, zero past the end.
  lemma ByteIsAt(sb: Super, fs: Volume, x: nat, k: nat)
    requires FilesOk(sb, fs) && x < |fs.inodes| && k < MAXBYTES
    ensures ByteAt(fs, x, k) == At(Contents(fs, x), k)
  {
    assert ZeroAt(fs, x, k);
  }

  // A completed write, in terms of stored bytes: of all bytes of all files exactly those at
  // off are new, and the file grows to hold them.
  ghost predicate RawWritten(sb: Super, fs: Volume, fs': Volume, x: nat, off: nat, src: seq<byte>) {
    && Sized(sb, fs') && x < |fs.inodes| == |fs'.inodes| && Stable(fs, fs') && (|src| > 0 ==> off + |src| <= MAXBYTES)
    && (forall y :: 0 <= y < |fs.inodes| ==> fs'.inodes[y].size == SizeOf(fs.inodes[y].size, y == x, off, |src|))
    && forall y, k :: ByteOk(fs, fs', x, off, src, |src|, y, k)
  }

  // The size of a file after n bytes were written at off of it, or of another file.
  function SizeOf(size: nat, same: bool, off: nat, n: nat): nat {
    if same && n > 0 && off + n > size then off + n else size
  }

  /** Effect of a completed write on all files as plain byte sequences. */
  ghost predicate WriteOk(sb: Super, fs: Volume, fs': Volume, x: nat, off: nat, src: seq<byte>)
    requires FilesOk(sb, fs)
  {
    && FilesOk(sb, fs') && x < |fs.inodes| == |fs'.inodes|
    && Contents(fs', x) == Overwritten(Contents(fs, x), off, src)
    && forall y :: 0 <= y < |fs.inodes| && y != x ==> Contents(fs', y) == Contents(fs, y)
  }

  // The last step of writei: the size.
  lemma RawDone(sb: Super, fs: Volume, now: Volume, x: nat, off: nat, src: seq<byte>)
    requires Sized(sb, fs) && Owned(sb, now) && x < |fs.inodes| && |src| > 0 && off + |src| <= MAXBYTES
    requires Written(fs, now, x, off, src, |src|)
    ensures RawWritten(sb, fs, Grown(now, x, off + |src|), x, off, src)
  {
    var fs' := Grown(now, x, off + |src|);
    GrownKeeps(sb, now, x, off + |src|);
    StableTrans(fs, now, fs');
    forall y: nat, k: nat ensures ByteOk(fs, fs', x, off, src, |src|, y, k) {
      assert ByteOk(fs, now, x, off, src, |src|, y, k);
    }
  }

  lemma WrittenByte(sb: Super, fs: Volume, fs': Volume, x: nat, off: nat, src: seq<byte>, y: nat, k: nat)
    requires FilesOk(sb, fs) && RawWritten(sb, fs, fs', x, off, src) && y < |fs.inodes| && k < MAXBYTES
    ensures ByteAt(fs', y, k) == At(if y == x then Overwritten(Contents(fs, x), off, src) else Contents(fs, y), k)
  {
    assert ByteOk(fs, fs', x, off, src, |src|, y, k);
    ByteIsAt(sb, fs, y, k);
    if |src| > 0 { OverwrittenAt(Contents(fs, x), off, src, k); }
  }

  lemma WrittenContents(sb: Super, fs: Volume, fs': Volume, x: nat, off: nat, src: seq<byte>, y: nat)
    requires FilesOk(sb, fs) && RawWritten(sb, fs, fs', x, off, src) && y < |fs.inodes|
    ensures Contents(fs', y) == if y == x then Overwritten(Contents(fs, x), off, src) else Contents(fs, y)
    ensures forall k: nat :: ZeroAt(fs', y, k)
  {
    var c := if y == x then Overwritten(Contents(fs, x), off, src) else Contents(fs, y);
    if |src| > 0 { OverwrittenAt(Contents(fs, x), off, src, 0); }
    forall k: nat | k < MAXBYTES ensures ByteAt(fs', y, k) == At(c, k) {
      WrittenByte(sb, fs, fs', x, off, src, y, k);
    }
    assert |Contents(fs', y)| == |c|;
  }

  /** Where nothing but zeros lies beyond the sizes, storing the bytes is overwriting the
      contents, with a gap filled with zeros. */
  lemma WriteDone(sb: Super, fs: Volume, fs': Volume, x: nat, off: nat, src: seq<byte>)
    requires FilesOk(sb, fs) && RawWritten(sb, fs, fs', x, off, src)
    ensures WriteOk(sb, fs, fs', x, off, src)
  {
    forall y: nat, k: nat ensures ZeroAt(fs', y, k) {
      if y < |fs.inodes| { WrittenContents(sb, fs, fs', x, off, src, y); }
    }
    forall y: nat | y < |fs.inodes|
      ensures Contents(fs', y) == if y == x then Overwritten(Contents(fs, x), off, src) else Contents(fs, y)
    {
      WrittenContents(sb, fs, fs', x, off, src, y);
    }
  }

  // No stored byte and no size changed; holes may have been filled.
  ghost predicate SameRaw(sb: Super, fs: Volume, fs': Volume) {
    && Sized(sb, fs) && Sized(sb, fs') && SameSizes(fs, fs') && Stable(fs, fs')
    && forall y, k :: ByteSame(fs, fs', y, k)
  }

  ghost predicate ByteSame(fs: Volume, fs': Volume, y: nat, k: nat) {
    y < |fs.inodes| && k < MAXBYTES ==> ByteAt(fs', y, k) == ByteAt(fs, y, k)
  }

  lemma ExtendsKeepsRaw(sb: Super, fs: Volume, fs': Volume, x: nat, s: Slot)
    requires Sized(sb, fs) && Extends(sb, fs, fs', x, s)
    ensures SameRaw(sb, fs, fs')
  {
    ExtendsStable(sb, fs, fs', x, s);
    forall y: nat, k: nat ensures ByteSame(fs, fs', y, k) {
      if k < MAXBYTES { assert DataKept(fs, fs', y, DataSlot(k / BSIZE)); }
    }
  }

  lemma SameRawTrans(sb: Super, fs: Volume, fs1: Volume, fs2: Volume)
    requires SameRaw(sb, fs, fs1) && SameRaw(sb, fs1, fs2)
    ensures SameRaw(sb, fs, fs2)
  {
    StableTrans(fs, fs1, fs2);
    forall y: nat, k: nat ensures ByteSame(fs, fs2, y, k) {
      assert ByteSame(fs, fs1, y, k) && ByteSame(fs1, fs2, y, k);
    }
  }

  lemma SameRawContents(sb: Super, fs: Volume, fs': Volume, y: nat)
    requires SameRaw(sb, fs, fs') && y < |fs.inodes|
    ensures Contents(fs', y) == Contents(fs, y)
  {
    forall k: nat | k < fs.inodes[y].size ensures ByteAt(fs', y, k) == ByteAt(fs, y, k) {
      assert ByteSame(fs, fs', y, k);
    }
  }

  ghost predicate SameFiles(sb: Super, fs: Volume, fs': Volume) {
    && FilesOk(sb, fs) && FilesOk(sb, fs') && |fs'.inodes| == |fs.inodes|
    && forall y :: 0 <= y < |fs.inodes| ==> Contents(fs', y) == Contents(fs, y)
  }

  // Filling holes changes no contents.
  lemma SameRawKeepsFiles(sb: Super, fs: Volume, fs': Volume)
    requires SameRaw(sb, fs, fs') && FilesOk(sb, fs)
    ensures SameFiles(sb, fs, fs')
  {
    forall y: nat, k: nat ensures ZeroAt(fs', y, k) {
      assert ZeroAt(fs, y, k) && ByteSame(fs, fs', y, k);
    }
    forall y: nat | y < |fs.inodes| ensures Contents(fs', y) == Contents(fs, y) {
      SameRawContents(sb, fs, fs', y);
    }
  }

  // Some byte of the file from lo to hi has no block.
  ghost predicate HoleIn(fs: Volume, x: nat, lo: nat, hi: nat)
    requires x < |fs.inodes|
  {
    exists k :: lo <= k < hi && HoleAt(fs, x, k)
  }

  ghost predicate HoleAt(fs: Volume, x: nat, k: nat)
    requires x < |fs.inodes|
  {
    k < MAXBYTES && Ref(fs, x, DataSlot(k / BSIZE)) == 0
  }

  // balloc panicked: no block is free, and one of these bytes needs one.
  ghost predicate DiskFull(sb: Super, fs: Volume, x: nat, lo: nat, hi: nat) {
    x < |fs.inodes| && Shape(sb, fs) && NoneFreeBefore(sb, fs, sb.size) && HoleIn(fs, x, lo, hi)
  }

  // ---- writei ----

  lemma NextBlock(off: nat, left: nat) returns (m: nat)
    requires 0 < left
    ensures m == if left < BSIZE - off % BSIZE then left else BSIZE - off % BSIZE
    ensures 0 < m <= left && off % BSIZE + m <= BSIZE
    ensures off / BSIZE < MAXBLOCKS ==> off + m <= MAXBYTES
    ensures off + left <= MAXBYTES ==> off / BSIZE < MAXBLOCKS
  {
    m := if left < BSIZE - off % BSIZE then left else BSIZE - off % BSIZE;
  }

  // One round of writei's loop.
  method WriteBlock(fs: FileSystem, x: nat, src: seq<byte>, start: nat, tot: nat, ghost was: Volume)
    returns (ok: bool, m: nat)
    requires Owned(fs.sb, fs.Value()) && x < |fs.inodes| && tot < |src| && Written(was, fs.Value(), x, start, src, tot)
    modifies fs
    ensures Owned(fs.sb, fs.Value())
    ensures !ok ==> start + |src| > MAXBYTES || DiskFull(fs.sb, fs.Value(), x, start, start + |src|)
    ensures !ok ==> Written(was, fs.Value(), x, start, src, tot)
    ensures ok ==>
      0 < m <= |src| - tot && start + tot + m <= MAXBYTES && Written(was, fs.Value(), x, start, src, tot + m)
  {
    var off := start + tot;
    ghost var now := fs.Value();
    ghost var m0 := NextBlock(off, |src| - tot);
    var a;
    ok, a := fs.Bmap(x, off / BSIZE);
    m := if |src| - tot < BSIZE - off % BSIZE then |src| - tot else BSIZE - off % BSIZE;
    assert !ok && off / BSIZE < MAXBLOCKS ==> HoleAt(fs.Value(), x, off);
    if off / BSIZE < MAXBLOCKS {
      ExtendsWritten(fs.sb, was, now, fs.Value(), x, DataSlot(off / BSIZE), start, src, tot);
    }
    if ok {
      assert OwnedOk(fs.sb, fs.Value(), x, DataSlot(off / BSIZE));
      ghost var now' := fs.Value();
      fs.blocks := fs.blocks[a := Patched(fs.blocks[a], off % BSIZE, src, tot, m)];
      PatchWritten(fs.sb, was, now', fs.Value(), x, DataSlot(off / BSIZE), start, src, tot, m);
    }
  }

  // writei's loop.
  method WriteBlocks(fs: FileSystem, x: nat, src: seq<byte>, start: nat) returns (ok: bool, off: nat)
    requires Owned(fs.sb, fs.Value()) && x < |fs.inodes| && 0 < |src|
    modifies fs
    ensures Owned(fs.sb, fs.Value()) && Stable(old(fs.Value()), fs.Value()) && SameSizes(old(fs.Value()), fs.Value())
    ensures !ok ==> start + |src| > MAXBYTES || DiskFull(fs.sb, fs.Value(), x, start, start + |src|)
    ensures ok ==> off == start + |src| <= MAXBYTES && Written(old(fs.Value()), fs.Value(), x, start, src, |src|)
  {
    var tot := 0;
    off := start;
    while tot < |src|
      invariant 0 <= tot <= |src| && off == start + tot && (tot > 0 ==> off <= MAXBYTES)
      invariant Owned(fs.sb, fs.Value()) && Written(old(fs.Value()), fs.Value(), x, start, src, tot)
    {
      var m;
      ok, m := WriteBlock(fs, x, src, start, tot, old(fs.Value()));
      if !ok {
        return;
      }
      tot, off := tot + m, off + m;
    }
    ok := true;
  }

  // writei
  method Writei(fs: FileSystem, x: nat, src: seq<byte>, start: nat) returns (r: Outcome)
    requires Sized(fs.sb, fs.Value()) && x < |fs.inodes| && start < UINT && |src| < UINT
    modifies fs
    ensures Sized(fs.sb, fs.Value()) && Stable(old(fs.Value()), fs.Value()) && |fs.inodes| == |old(fs.inodes)|
    ensures r.Failed? <==> (start + |src|) % UINT > MAXFILE * BSIZE
    ensures r.Failed? ==> fs.Value() == old(fs.Value())
    ensures r.Panic? ==>
      |src| > 0 && (start + |src| > MAXBYTES || DiskFull(fs.sb, fs.Value(), x, start, start + |src|))
    ensures r.Done? ==> RawWritten(fs.sb, old(fs.Value()), fs.Value(), x, start, src)
    ensures r.Done? && FilesOk(fs.sb, old(fs.Value())) ==> WriteOk(fs.sb, old(fs.Value()), fs.Value(), x, start, src)
  {
    if (start + |src|) % UINT > MAXFILE * BSIZE {
      return Failed;
    }
    if |src| > 0 {
      var ok, off := WriteBlocks(fs, x, src, start);
      if !ok {
        return Panic;
      }
      RawDone(fs.sb, old(fs.Value()), fs.Value(), x, start, src);
      if off > fs.inodes[x].size {
        fs.inodes := fs.inodes[x := WithSize(fs.inodes[x], off)];
      }
    }
    WriteEnds(fs.sb, old(fs.Value()), fs.Value(), x, start, src);
    return Done(src);
  }

  lemma WriteEnds(sb: Super, fs: Volume, fs': Volume, x: nat, off: nat, src: seq<byte>)
    requires Sized(sb, fs) && x < |fs.inodes|
    requires if |src| > 0 then RawWritten(sb, fs, fs', x, off, src) else fs' == fs
    ensures RawWritten(sb, fs, fs', x, off, src)
    ensures FilesOk(sb, fs) ==> WriteOk(sb, fs, fs', x, off, src)
  {
    if FilesOk(sb, fs) { WriteDone(sb, fs, fs', x, off, src); }
  }

  // ---- readi ----

  // Part of one block of a file is a slice of its contents.
  lemma BlockIsSlice(sb: Super, fs: Volume, x: nat, off: nat, m: nat)
    requires Sized(sb, fs) && x < |fs.inodes| && off + m <= fs.inodes[x].size && off % BSIZE + m <= BSIZE && 0 < m
    ensures DataBlock(fs, x, DataSlot(off / BSIZE))[off % BSIZE..off % BSIZE + m] == Contents(fs, x)[off..off + m]
  {
    var chunk, c := DataBlock(fs, x, DataSlot(off / BSIZE))[off % BSIZE..off % BSIZE + m], Contents(fs, x);
    forall i | 0 <= i < m ensures chunk[i] == c[off..off + m][i] {
      WithinBlock(off, m, off + i);
    }
  }

  // One round of readi's loop.
  method ReadBlock(fs: FileSystem, x: nat, off: nat, left: nat) returns (ok: bool, chunk: seq<byte>)
    requires Sized(fs.sb, fs.Value()) && x < |fs.inodes| && 0 < left && off + left <= fs.inodes[x].size
    modifies fs
    ensures SameRaw(fs.sb, old(fs.Value()), fs.Value())
    ensures !ok ==> DiskFull(fs.sb, fs.Value(), x, off, off + left)
    ensures ok ==> 0 < |chunk| <= left && chunk == Contents(old(fs.Value()), x)[off..off + |chunk|]
  {
    ghost var m0 := NextBlock(off, left);
    chunk := [];
    var a;
    ok, a := fs.Bmap(x, off / BSIZE);
    assert !ok ==> HoleAt(fs.Value(), x, off);
    ExtendsKeepsRaw(fs.sb, old(fs.Value()), fs.Value(), x, DataSlot(off / BSIZE));
    if ok {
      var m := if left < BSIZE - off % BSIZE then left else BSIZE - off % BSIZE;
      assert OwnedOk(fs.sb, fs.Value(), x, DataSlot(off / BSIZE));
      BlockIsSlice(fs.sb, fs.Value(), x, off, m);
      SameRawContents(fs.sb, old(fs.Value()), fs.Value(), x);
      chunk := fs.blocks[a][off % BSIZE..off % BSIZE + m];
    }
  }

  lemma SliceGrows(c: seq<byte>, start: nat, tot: nat, m: nat)
    requires start + tot + m <= |c|
    ensures c[start..start + tot] + c[start + tot..start + tot + m] == c[start..start + tot + m]
  {
  }

  // The same, in a read of n bytes at start that began in was with contents c.
  method ReadRound(fs: FileSystem, x: nat, start: nat, n: nat, dst: seq<byte>, ghost was: Volume, ghost c: seq<byte>)
    returns (ok: bool, dst': seq<byte>)
    requires SameRaw(fs.sb, was, fs.Value()) && x < |fs.inodes| && |dst| < n && start + n <= |c|
    requires Contents(fs.Value(), x) == c && dst == c[start..start + |dst|]
    modifies fs
    ensures SameRaw(fs.sb, was, fs.Value()) && x < |fs.inodes| && Contents(fs.Value(), x) == c
    ensures !ok ==> DiskFull(fs.sb, fs.Value(), x, start, start + n)
    ensures ok ==> |dst| < |dst'| <= n && dst' == c[start..start + |dst'|]
  {
    var chunk;
    ok, chunk := ReadBlock(fs, x, start + |dst|, n - |dst|);
    SameRawTrans(fs.sb, was, old(fs.Value()), fs.Value());
    SameRawContents(fs.sb, old(fs.Value()), fs.Value(), x);
    if ok {
      SliceGrows(c, start, |dst|, |chunk|);
    }
    dst' := dst + chunk;
  }

  // readi's loop.
  method ReadBlocks(fs: FileSystem, x: nat, start: nat, n: nat, ghost c: seq<byte>) returns (ok: bool, dst: seq<byte>)
    requires Sized(fs.sb, fs.Value()) && x < |fs.inodes| && c == Contents(fs.Value(), x) && start + n <= |c|
    modifies fs
    ensures SameRaw(fs.sb, old(fs.Value()), fs.Value())
    ensures !ok ==> DiskFull(fs.sb, fs.Value(), x, start, start + n)
    ensures ok ==> dst == c[start..start + n]
  {
    dst := [];
    while |dst| < n
      invariant |dst| <= n && dst == c[start..start + |dst|]
      invariant SameRaw(fs.sb, old(fs.Value()), fs.Value()) && Contents(fs.Value(), x) == c
      decreases n - |dst|
    {
      ok, dst := ReadRound(fs, x, start, n, dst, old(fs.Value()), c);
      if !ok {
        return;
      }
    }
    ok := true;
  }

  // readi
  method Readi(fs: FileSystem, x: nat, start: nat, count: nat) returns (r: Outcome)
    requires Sized(fs.sb, fs.Value()) && x < |fs.inodes| && start < UINT && count < UINT
    modifies fs
    ensures SameRaw(fs.sb, old(fs.Value()), fs.Value())
    ensures FilesOk(fs.sb, old(fs.Value())) ==> SameFiles(fs.sb, old(fs.Value()), fs.Value())
    ensures r.Failed? <==> start > old(fs.inodes[x].size) || (start + count) % UINT < start
    ensures r.Panic? ==> DiskFull(fs.sb, fs.Value(), x, start, start + count)
    ensures r.Done? ==> r.data == Slice(Contents(old(fs.Value()), x), start, count)
  {
    var size := fs.inodes[x].size;
    if start > size || (start + count) % UINT < start {
      return Failed;
    }
    var n := if start + count > size then size - start else count;
    var ok, dst := ReadBlocks(fs, x, start, n, Contents(fs.Value(), x));
    if FilesOk(fs.sb, old(fs.Value())) { SameRawKeepsFiles(fs.sb, old(fs.Value()), fs.Value()); }
    return if ok then Done(dst) else Panic;
  }

  // count bytes from start on, or as many as there are.
  function Slice(c: seq<byte>, start: nat, count: nat): seq<byte> {
    if start >= |c| then [] else if start + count > |c| then c[start..] else c[start..start + count]
  }
}

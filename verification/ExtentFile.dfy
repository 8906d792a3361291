/** Contents of extent files: readi and writei of fs.c over the list of blocks that bmap
    keeps for the file.  bmap puts a block that is asked for past the end of the list at the
    end of the list, so a write that starts past it lands before where it was asked to. */
module ExtentFile {
  import opened CTypes
  import opened FsData
  import opened Fs
  import opened Extent
  import FsFile

  // ---- a file as bytes ----

  // Byte k of a list of data blocks, zero past its end.
  function ByteAt(data: seq<Block>, k: nat): byte {
    if k / BSIZE < |data| then data[k / BSIZE][k % BSIZE] else 0
  }

  // Where a write asked for at off lands in a file of n blocks.
  function Lands(n: nat, off: nat): nat {
    if off / BSIZE <= n then off else n * BSIZE + off % BSIZE
  }

  // The bytes after m bytes of src are written at off.
  function ByteAfter(data: seq<Block>, off: nat, src: seq<byte>, m: nat, k: nat): byte
    requires m <= |src|
  {
    var at := Lands(|data|, off);
    if at <= k < at + m then src[k - at] else ByteAt(data, k)
  }

  ghost predicate Wrote(data: seq<Block>, off: nat, src: seq<byte>, m: nat, data': seq<Block>) {
    m <= |src| && forall k: nat :: ByteAt(data', k) == ByteAfter(data, off, src, m, k)
  }

  /** Every write of n bytes at off is read back from off if and only if off is at most one
      block past the last block of the file. */
  lemma ReadBackIff(data: seq<Block>, off: nat, n: nat)
    requires n > 0
    ensures (forall src: seq<byte>, j :: |src| == n && 0 <= j < n ==> ByteAfter(data, off, src, n, off + j) == src[j])
            <==> off / BSIZE <= |data|
  {
    if off / BSIZE > |data| {
      var src: seq<byte> := seq(n, i => if i == 0 then 1 else 0);
      LandsBefore(|data|, off);
      assert ByteAfter(data, off, src, n, off + 0) != src[0];
    }
  }

  lemma LandsBefore(n: nat, off: nat)
    requires off / BSIZE > n
    ensures Lands(n, off) < off && Lands(n, off) % BSIZE == off % BSIZE && Lands(n, off) / BSIZE == n
  {
    var r := off % BSIZE;
    assert (n * BSIZE + r) / BSIZE == n && (n * BSIZE + r) % BSIZE == r;
  }

  // n bytes from off on.
  function Bytes(data: seq<Block>, off: nat, n: nat): (bs: seq<byte>)
    ensures |bs| == n && forall k :: 0 <= k < n ==> bs[k] == ByteAt(data, off + k)
  {
    seq<byte>(n, k requires 0 <= k < n => ByteAt(data, off + k))
  }

  lemma BytesSplit(data: seq<Block>, off: nat, a: nat, m: nat)
    ensures Bytes(data, off, a) + Bytes(data, off + a, m) == Bytes(data, off, a + m)
  {
  }

  lemma BytesSlice(data: seq<Block>, size: nat, off: nat, count: nat)
    requires off <= size
    ensures FsFile.Slice(Bytes(data, 0, size), off, count) ==
      Bytes(data, off, if off + count > size then size - off else count)
  {
  }

  ghost predicate SameBytes(data: seq<Block>, data': seq<Block>) {
    forall k: nat :: ByteAt(data, k) == ByteAt(data', k)
  }

  ghost predicate ZeroTail(data: seq<Block>, size: nat) {
    forall k: nat :: k >= size ==> ByteAt(data, k) == 0
  }

  /** A write that starts at most one block past the end leaves the contents overwritten at
      off, a gap past the end filled with zeros. */
  lemma WriteIsOverwritten(data: seq<Block>, size: nat, off: nat, src: seq<byte>, data': seq<Block>)
    requires Wrote(data, off, src, |src|, data') && ZeroTail(data, size) && off / BSIZE <= |data|
    ensures var size' := FsFile.SizeOf(size, |src| > 0, off, |src|);
      && ZeroTail(data', size')
      && Bytes(data', 0, size') == FsFile.Overwritten(Bytes(data, 0, size), off, src)
  {
    var size' := FsFile.SizeOf(size, |src| > 0, off, |src|);
    var c, c' := Bytes(data, 0, size), FsFile.Overwritten(Bytes(data, 0, size), off, src);
    forall k: nat ensures ByteAt(data', k) == FsFile.At(c', k) {
      WrittenAt(data, size, off, src, data', k);
    }
    if |src| > 0 { FsFile.OverwrittenAt(c, off, src, 0); }
    FromAt(data', c');
  }

  lemma WrittenAt(data: seq<Block>, size: nat, off: nat, src: seq<byte>, data': seq<Block>, k: nat)
    requires Wrote(data, off, src, |src|, data') && ZeroTail(data, size) && off / BSIZE <= |data|
    ensures ByteAt(data', k) == FsFile.At(FsFile.Overwritten(Bytes(data, 0, size), off, src), k)
  {
    if |src| > 0 { FsFile.OverwrittenAt(Bytes(data, 0, size), off, src, k); }
    assert ByteAt(data', k) == ByteAfter(data, off, src, |src|, k);
  }

  lemma FromAt(data: seq<Block>, c: seq<byte>)
    requires forall k: nat :: ByteAt(data, k) == FsFile.At(c, k)
    ensures Bytes(data, 0, |c|) == c && ZeroTail(data, |c|)
  {
  }

  // ---- one block ----

  // Block i of the list with part of src, from tot on, stored at position p.
  function Patched(b: Block, p: nat, src: seq<byte>, tot: nat, m: nat): Block
    requires p + m <= BSIZE && tot + m <= |src|
  {
    b[..p] + src[tot..tot + m] + b[p + m..]
  }

  lemma PatchAt(data: seq<Block>, i: nat, p: nat, src: seq<byte>, tot: nat, m: nat, k: nat)
    requires i < |data| && p + m <= BSIZE && tot + m <= |src|
    ensures var at := i * BSIZE + p;
      ByteAt(data[i := Patched(data[i], p, src, tot, m)], k) ==
      if at <= k < at + m then src[tot + (k - at)] else ByteAt(data, k)
  {
    InBlock(i, k);
  }

  // Byte k is in block i exactly between its ends.
  lemma InBlock(i: nat, k: nat)
    ensures k / BSIZE == i <==> i * BSIZE <= k < i * BSIZE + BSIZE
    ensures k / BSIZE == i ==> k % BSIZE == k - i * BSIZE
  {
  }

  lemma GrownAt(data: seq<Block>, k: nat)
    ensures ByteAt(data + [Zeroes()], k) == ByteAt(data, k)
  {
  }

  // ---- the loops ----

  // The list after bmap(bn), and the place of the block it returns.
  function Grown(data: seq<Block>, bn: nat): seq<Block> {
    if bn < |data| then data else data + [Zeroes()]
  }

  function Place(n: nat, bn: nat): nat {
    if bn < n then bn else n
  }

  // After tot bytes of a write to a file that had n0 blocks and has n now: the next byte
  // goes where the one before it ended.
  predicate Aligned(n0: nat, off: nat, tot: nat, n: nat) {
    Lands(n, off + tot) == Lands(n0, off) + tot
  }

  // Bytes of the write that fit the block.
  function Chunk(off: nat, tot: nat, n: nat): nat
    requires tot <= n
  {
    if n - tot < BSIZE - (off + tot) % BSIZE then n - tot else BSIZE - (off + tot) % BSIZE
  }

  lemma StartAligned(n: nat, off: nat)
    ensures Aligned(n, off, 0, n)
  {
    if off / BSIZE > n { LandsBefore(n, off); }
  }

  lemma PlaceIs(n0: nat, off: nat, tot: nat, n: nat)
    requires Aligned(n0, off, tot, n)
    ensures Place(n, (off + tot) / BSIZE) * BSIZE + (off + tot) % BSIZE == Lands(n0, off) + tot
  {
  }

  lemma NextAligned(n0: nat, off: nat, tot: nat, n: nat, len: nat)
    requires Aligned(n0, off, tot, n) && tot < len
    ensures var m := Chunk(off, tot, len);
      var n' := if (off + tot) / BSIZE < n then n else n + 1;
      tot + m < len ==> Aligned(n0, off, tot + m, n')
  {
    var bn, p := (off + tot) / BSIZE, (off + tot) % BSIZE;
    var m := Chunk(off, tot, len);
    if tot + m < len {
      NextBlock(off + tot, bn, p);
    }
  }

  lemma NextBlock(x: nat, bn: nat, p: nat)
    requires bn == x / BSIZE && p == x % BSIZE
    ensures (x + (BSIZE - p)) / BSIZE == bn + 1 && (x + (BSIZE - p)) % BSIZE == 0
  {
    assert x + (BSIZE - p) == (bn + 1) * BSIZE;
  }

  // ---- how many blocks a call adds ----

  // The blocks that a file of n blocks gains when len bytes from off on are gone over.
  function Needs(n: nat, off: nat, len: nat): nat {
    var end := Lands(n, off) + len;
    if len == 0 || (end - 1) / BSIZE < n then 0 else (end - 1) / BSIZE + 1 - n
  }

  // A round adds the block it needs, if it needs one.
  lemma NeedsMore(n0: nat, off: nat, tot: nat, n: nat, len: nat)
    requires Aligned(n0, off, tot, n) && tot < len && n == n0 + Needs(n0, off, tot)
    ensures var m := Chunk(off, tot, len);
      n0 + Needs(n0, off, tot + m) == if (off + tot) / BSIZE < n then n else n + 1
  {
    var m, at := Chunk(off, tot, len), Lands(n0, off) + tot;
    var i, p := Place(n, (off + tot) / BSIZE), (off + tot) % BSIZE;
    PlaceIs(n0, off, tot, n);
    InBlock(i, at);
    InBlock(i, at + m - 1);
    if tot > 0 && at / BSIZE > 0 { InBlock(at / BSIZE, at); }
  }

  lemma NeedsGrow(n: nat, off: nat, a: nat, b: nat)
    requires a <= b
    ensures Needs(n, off, a) <= Needs(n, off, b)
  {
  }

  // tot of len bytes are gone over, and the file has gained k blocks.
  ghost predicate Reached(n0: nat, off: nat, tot: nat, len: nat, k: nat) {
    k == Needs(n0, off, tot) && (tot < len ==> Aligned(n0, off, tot, n0 + k))
  }

  lemma StartReached(n0: nat, off: nat, len: nat)
    ensures Reached(n0, off, 0, len, 0)
  {
    StartAligned(n0, off);
  }

  // The addresses with the first k blocks of supply appended, as far as there are entries.
  function AddrsAfter(size: nat, addrs: seq<nat>, supply: seq<nat>, k: nat): (r: seq<nat>)
    requires k <= |supply| && |addrs| == NADDRS
    ensures |r| == NADDRS
  {
    if k == 0 then addrs
    else
      var a := AddrsAfter(size, addrs, supply, k - 1);
      if Count(a) > NDIRECT then a else Appended(size, a, supply[k - 1])
  }

  /** There are k blocks, and when each of them is appended fewer than twelve entries are in
      use. */
  ghost predicate Room(size: nat, addrs: seq<nat>, supply: seq<nat>, k: nat)
    requires |addrs| == NADDRS
  {
    k <= |supply| && forall j :: 0 <= j < k ==> Count(AddrsAfter(size, addrs, supply, j)) <= NDIRECT
  }

  // The first k blocks of supply were appended to addrs0.
  ghost predicate Took(size: nat, addrs0: seq<nat>, supply: seq<nat>, k: nat, addrs: seq<nat>, rest: seq<nat>) {
    && |addrs0| == NADDRS && Room(size, addrs0, supply, k)
    && addrs == AddrsAfter(size, addrs0, supply, k) && rest == supply[k..]
  }

  // bmap(bn) with n blocks in the list and these blocks left.
  ghost predicate Served(size: nat, n: nat, addrs: seq<nat>, supply: seq<nat>, bn: nat, addrs': seq<nat>,
                    rest: seq<nat>) {
    && (bn < n ==> addrs' == addrs && rest == supply)
    && (bn >= n ==>
      && supply != [] && Count(addrs) <= NDIRECT && Count(addrs) < |addrs|
      && addrs' == Appended(size, addrs, supply[0]) && rest == supply[1..])
  }

  lemma TookMore(size: nat, addrs0: seq<nat>, supply: seq<nat>, k: nat, n: nat, addrs: seq<nat>, rest: seq<nat>,
                 bn: nat, addrs': seq<nat>, rest': seq<nat>)
    requires Took(size, addrs0, supply, k, addrs, rest) && Served(size, n, addrs, rest, bn, addrs', rest')
    ensures Took(size, addrs0, supply, if bn < n then k else k + 1, addrs', rest')
  {
  }

  // Without a block or an entry for the next one there is no room.
  lemma NoRoom(size: nat, addrs0: seq<nat>, supply: seq<nat>, k: nat, addrs: seq<nat>, rest: seq<nat>, more: nat)
    requires Took(size, addrs0, supply, k, addrs, rest) && k < more && (Count(addrs) > NDIRECT || rest == [])
    ensures !Room(size, addrs0, supply, more)
  {
  }

  // One round of writei's loop.
  lemma WroteMore(data0: seq<Block>, off: nat, src: seq<byte>, tot: nat, data: seq<Block>, data': seq<Block>)
    requires Wrote(data0, off, src, tot, data) && tot < |src| && Aligned(|data0|, off, tot, |data|)
    requires var bn, p, m := (off + tot) / BSIZE, (off + tot) % BSIZE, Chunk(off, tot, |src|);
      var i, g := Place(|data|, bn), Grown(data, bn);
      data' == g[i := Patched(g[i], p, src, tot, m)]
    ensures Wrote(data0, off, src, tot + Chunk(off, tot, |src|), data')
  {
    var bn, p, m := (off + tot) / BSIZE, (off + tot) % BSIZE, Chunk(off, tot, |src|);
    var i, g := Place(|data|, bn), Grown(data, bn);
    PlaceIs(|data0|, off, tot, |data|);
    forall k: nat ensures ByteAt(data', k) == ByteAfter(data0, off, src, tot + m, k) {
      PatchAt(g, i, p, src, tot, m, k);
      GrownAt(data, k);
      assert ByteAt(data, k) == ByteAfter(data0, off, src, tot, k);
    }
  }

  lemma SameBytesRead(data: seq<Block>, data': seq<Block>, off: nat, n: nat)
    requires SameBytes(data, data')
    ensures Bytes(data, off, n) == Bytes(data', off, n)
  {
    forall k: nat | k < n ensures Bytes(data, off, n)[k] == Bytes(data', off, n)[k] {
      assert ByteAt(data, off + k) == ByteAt(data', off + k);
    }
  }

  // What readi's round reads.
  lemma ReadMore(was: seq<Block>, data: seq<Block>, bn: nat, p: nat, m: nat, b: Block, off: nat, tot: nat)
    requires bn == (off + tot) / BSIZE && p == (off + tot) % BSIZE && p + m <= BSIZE && SameBytes(was, data)
    requires b == Grown(data, bn)[Place(|data|, bn)]
    ensures Bytes(was, off, tot) + b[p..p + m] == Bytes(was, off, tot + m)
  {
    var x := off + tot;
    forall j: nat | j < m ensures b[p..p + m][j] == Bytes(data, x, m)[j] {
      InBlock(bn, x + j);
      InBlock(bn, x);
    }
    SameBytesRead(was, data, x, m);
    BytesSplit(was, off, tot, m);
  }

  lemma GrownSame(data0: seq<Block>, data: seq<Block>, bn: nat)
    requires SameBytes(data0, data)
    ensures SameBytes(data0, Grown(data, bn))
  {
    forall k: nat ensures ByteAt(data0, k) == ByteAt(Grown(data, bn), k) { GrownAt(data, k); }
  }

  // ---- readi and writei ----

  ghost predicate NoDuplicates(bs: seq<nat>) {
    forall i, j :: 0 <= i < j < |bs| ==> bs[i] != bs[j]
  }

  // The data of the blocks of a list.
  function DataOf(disk: seq<Block>, bs: seq<nat>): seq<Block>
    requires forall i :: 0 <= i < |bs| ==> bs[i] < |disk|
  {
    seq(|bs|, i requires 0 <= i < |bs| => disk[bs[i]])
  }

  // The answers that balloc will give: blocks of the device that the file does not have.
  ghost predicate Usable(disk: seq<Block>, bs: seq<nat>, supply: seq<nat>) {
    && NoDuplicates(supply)
    && forall i :: 0 <= i < |supply| ==> 0 < supply[i] < ADDRS24 && supply[i] < |disk| && supply[i] !in bs
  }

  // The blocks of a file are on the disk, each once.
  ghost predicate OnDisk(disk: seq<Block>, bs: seq<nat>) {
    NoDuplicates(bs) && forall i :: 0 <= i < |bs| ==> bs[i] < |disk|
  }

  lemma BlockAdded(disk: seq<Block>, bs: seq<nat>, supply: seq<nat>)
    requires OnDisk(disk, bs) && Usable(disk, bs, supply) && supply != []
    ensures var disk', bs' := disk[supply[0] := Zeroes()], bs + [supply[0]];
      && OnDisk(disk', bs') && Usable(disk', bs', supply[1..])
      && DataOf(disk', bs') == DataOf(disk, bs) + [Zeroes()]
  {
    var disk', bs' := disk[supply[0] := Zeroes()], bs + [supply[0]];
    forall i | 0 <= i < |bs| ensures disk'[bs[i]] == disk[bs[i]] {
      assert bs[i] in bs;
    }
    assert DataOf(disk', bs') == DataOf(disk, bs) + [Zeroes()];
  }

  lemma BlockWritten(disk: seq<Block>, bs: seq<nat>, i: nat, block: Block)
    requires OnDisk(disk, bs) && i < |bs|
    ensures var disk' := disk[bs[i] := block];
      OnDisk(disk', bs) && DataOf(disk', bs) == DataOf(disk, bs)[i := block]
  {
  }

  // A round goes over the m bytes after tot, from position p of block bn on.
  ghost predicate Round(off: nat, tot: nat, len: nat, bn: nat, p: nat, m: nat) {
    && off + tot == bn * BSIZE + p && p < BSIZE && tot < len
    && m == if len - tot < BSIZE - p then len - tot else BSIZE - p
  }

  // The block of the next byte, its place there, and how much of the block is gone over.
  method Locate(off: nat, tot: nat, len: nat) returns (bn: nat, p: nat, m: nat)
    requires tot < len
    ensures Round(off, tot, len, bn, p, m)
  {
    bn, p := (off + tot) / BSIZE, (off + tot) % BSIZE;
    m := if len - tot < BSIZE - p then len - tot else BSIZE - p;
  }

  lemma RoundIs(off: nat, tot: nat, len: nat, bn: nat, p: nat, m: nat)
    requires Round(off, tot, len, bn, p, m)
    ensures bn == (off + tot) / BSIZE && p == (off + tot) % BSIZE && m == Chunk(off, tot, len) > 0
  {
    InBlock(bn, off + tot);
  }

  // A round that had k blocks added before, and has k' after.
  lemma Stood(size: nat, n0: nat, off: nat, tot: nat, tot': nat, len: nat, bn: nat, p: nat, m: nat,
              addrs0: seq<nat>, all: seq<nat>, k: nat, addrs: seq<nat>, rest: seq<nat>, addrs': seq<nat>,
              rest': seq<nat>, ok: bool) returns (k': nat)
    requires Reached(n0, off, tot, len, k) && Round(off, tot, len, bn, p, m) && tot' == tot + m
    requires Took(size, addrs0, all, k, addrs, rest)
    requires ok ==> Served(size, n0 + k, addrs, rest, bn, addrs', rest')
    requires !ok ==> bn >= n0 + k && (Count(addrs) > NDIRECT || rest == [])
    ensures Reached(n0, off, tot', len, k') && k' == if bn < n0 + k then k else k + 1
    ensures ok ==> Took(size, addrs0, all, k', addrs', rest')
    ensures !ok ==> !Room(size, addrs0, all, Needs(n0, off, len))
  {
    RoundIs(off, tot, len, bn, p, m);
    k' := if bn < n0 + k then k else k + 1;
    NeedsMore(n0, off, tot, n0 + k, len);
    NextAligned(n0, off, tot, n0 + k, len);
    if ok {
      TookMore(size, addrs0, all, k, n0 + k, addrs, rest, bn, addrs', rest');
    } else {
      NeedsGrow(n0, off, tot + m, len);
      NoRoom(size, addrs0, all, k, addrs, rest, Needs(n0, off, len));
    }
  }

  // What the round of a write leaves.
  lemma RoundWrote(was: seq<Block>, off: nat, src: seq<byte>, tot: nat, tot': nat, bn: nat, p: nat, m: nat, k: nat,
                   data: seq<Block>, data': seq<Block>)
    requires tot' == tot + m
    requires Reached(|was|, off, tot, |src|, k) && Round(off, tot, |src|, bn, p, m) && |data| == |was| + k
    requires Wrote(was, off, src, tot, data)
    requires data' == Grown(data, bn)[Place(|data|, bn) := Patched(Grown(data, bn)[Place(|data|, bn)], p, src, tot, m)]
    ensures Wrote(was, off, src, tot', data')
  {
    RoundIs(off, tot, |src|, bn, p, m);
    WroteMore(was, off, src, tot, data, data');
  }

  // What the round of a read leaves.
  lemma RoundRead(was: seq<Block>, off: nat, tot: nat, len: nat, bn: nat, p: nat, m: nat, data: seq<Block>, b: Block)
    requires Round(off, tot, len, bn, p, m) && SameBytes(was, data) && b == Grown(data, bn)[Place(|data|, bn)]
    ensures Bytes(was, off, tot) + b[p..p + m] == Bytes(was, off, tot + m) && SameBytes(was, Grown(data, bn))
  {
    RoundIs(off, tot, len, bn, p, m);
    ReadMore(was, data, bn, p, m, b, off, tot);
    GrownSame(was, data, bn);
  }

  // How many bytes readi goes over.
  function Clipped(size: nat, off: nat, count: nat): nat
    requires off <= size
  {
    if off + count > size then size - off else count
  }

  class File {
    const ip: ExtentInode
    var disk: seq<Block>

    constructor (inode: ExtentInode, d: seq<Block>)
      ensures ip == inode && disk == d
    {
      ip, disk := inode, d;
    }

    ghost function Blocks(): seq<nat>
      reads ip
    {
      Decode(ip.addrs)
    }

    ghost predicate Valid()
      reads this, ip
    {
      Sound(ip.size, ip.addrs) && OnDisk(disk, Blocks())
    }

    ghost function Data(): seq<Block>
      requires Valid()
      reads this, ip
    {
      DataOf(disk, Blocks())
    }

    // bmap, with balloc: the block of index bn, or one added at the end of the list.
    method Bmap(bn: nat, supply: seq<nat>) returns (ok: bool, b: nat, rest: seq<nat>)
      requires Valid() && Usable(disk, Blocks(), supply)
      modifies this, ip
      ensures ip.size == old(ip.size) && |disk| == |old(disk)|
      ensures ok ==> Valid() && Usable(disk, Blocks(), rest) && Data() == Grown(old(Data()), bn)
      ensures ok ==> Place(|old(Blocks())|, bn) < |Blocks()| && b == Blocks()[Place(|old(Blocks())|, bn)]
      ensures ok && bn >= |old(Blocks())| ==> Count(ip.addrs) > 0
      ensures ok <==> bn < |old(Blocks())| || (Count(old(ip.addrs)) <= NDIRECT && supply != [])
      ensures ok ==> Served(ip.size, |old(Blocks())|, old(ip.addrs), supply, bn, ip.addrs, rest)
      ensures !ok ==> ip.addrs == old(ip.addrs) && rest == supply
    {
      if supply == [] {
        var found, block, i := ip.Search(bn);
        return found, block, [];
      }
      var r := ip.Bmap(bn, supply[0]);
      match r
      case Panic => return false, 0, supply;
      case Found(block) => return true, block, supply;
      case Added(block) =>
        SoundAppends(old(ip.size), old(ip.addrs), block, ip.addrs);
        BlockAdded(disk, old(Blocks()), supply);
        disk := disk[block := Zeroes()];
        return true, block, supply[1..];
    }

    // bmap(bn), and part of src, from tot on, is stored in the block.
    method PutBlock(bn: nat, p: nat, src: seq<byte>, tot: nat, m: nat, supply: seq<nat>)
      returns (ok: bool, rest: seq<nat>)
      requires Valid() && Usable(disk, Blocks(), supply) && p + m <= BSIZE && tot + m <= |src|
      modifies this, ip
      ensures ip.size == old(ip.size) && |disk| == |old(disk)|
      ensures ok <==> bn < |old(Blocks())| || (Count(old(ip.addrs)) <= NDIRECT && supply != [])
      ensures ok ==> Served(ip.size, |old(Blocks())|, old(ip.addrs), supply, bn, ip.addrs, rest)
      ensures ok ==> Valid() && Usable(disk, Blocks(), rest) && Count(ip.addrs) > 0
      ensures ok ==> var i, g := Place(|old(Blocks())|, bn), Grown(old(Data()), bn);
        |g| == |Blocks()| > i && Data() == g[i := Patched(g[i], p, src, tot, m)]
    {
      ghost var i := Place(|Blocks()|, bn);
      var b;
      ok, b, rest := Bmap(bn, supply);
      if ok {
        BlockWritten(disk, Blocks(), i, Patched(disk[b], p, src, tot, m));
        disk := disk[b := Patched(disk[b], p, src, tot, m)];
      }
    }

    // One round of writei's loop.
    method WriteBlock(bn: nat, p: nat, src: seq<byte>, tot: nat, m: nat, supply: seq<nat>, ghost off: nat,
                      ghost was: seq<Block>, ghost k: nat, ghost addrs0: seq<nat>, ghost all: seq<nat>)
      returns (ok: bool, tot': nat, rest: seq<nat>, ghost k': nat)
      requires Valid() && Usable(disk, Blocks(), supply) && Round(off, tot, |src|, bn, p, m)
      requires Wrote(was, off, src, tot, Data()) && Reached(|was|, off, tot, |src|, k)
      requires |Blocks()| == |was| + k && Took(ip.size, addrs0, all, k, ip.addrs, supply)
      modifies this, ip
      ensures ip.size == old(ip.size) && |disk| == |old(disk)|
      ensures ok ==> Valid() && Usable(disk, Blocks(), rest) && Count(ip.addrs) > 0
      ensures tot < tot' == tot + m <= |src|
      ensures ok ==> Wrote(was, off, src, tot', Data()) && Reached(|was|, off, tot', |src|, k')
      ensures ok ==> |Blocks()| == |was| + k' && Took(ip.size, addrs0, all, k', ip.addrs, rest)
      ensures !ok ==> |addrs0| == NADDRS && !Room(ip.size, addrs0, all, Needs(|was|, off, |src|))
    {
      ghost var data := Data();
      tot' := tot + m;
      ok, rest := PutBlock(bn, p, src, tot, m, supply);
      k' := Stood(ip.size, |was|, off, tot, tot', |src|, bn, p, m, addrs0, all, k, old(ip.addrs), supply, ip.addrs,
        rest, ok);
      if ok {
        RoundWrote(was, off, src, tot, tot', bn, p, m, k, data, Data());
      }
    }

    // The loop of writei.
    method WriteBlocks(src: seq<byte>, off: nat, supply: seq<nat>) returns (ok: bool, rest: seq<nat>)
      requires Valid() && Usable(disk, Blocks(), supply)
      modifies this, ip
      ensures ip.size == old(ip.size)
      ensures ok <==> Room(ip.size, old(ip.addrs), supply, Needs(|old(Blocks())|, off, |src|))
      ensures ok ==> Valid() && Wrote(old(Data()), off, src, |src|, Data()) && (|src| > 0 ==> Count(ip.addrs) > 0)
      ensures ok ==> Took(ip.size, old(ip.addrs), supply, Needs(|old(Blocks())|, off, |src|), ip.addrs, rest)
    {
      ok, rest := true, supply;
      var tot := 0;
      ghost var was, k: nat := Data(), 0;
      assert |was| == |Blocks()|;
      StartReached(|was|, off, |src|);
      while tot < |src|
        invariant ok && 0 <= tot <= |src| && Valid() && Usable(disk, Blocks(), rest) && ip.size == old(ip.size)
        invariant Wrote(was, off, src, tot, Data()) && Reached(|was|, off, tot, |src|, k)
        invariant |Blocks()| == |was| + k && Took(ip.size, old(ip.addrs), supply, k, ip.addrs, rest)
        invariant tot > 0 ==> Count(ip.addrs) > 0
      {
        var bn, p, m := Locate(off, tot, |src|);
        ok, tot, rest, k := WriteBlock(bn, p, src, tot, m, rest, off, was, k, old(ip.addrs), supply);
        if !ok {
          return;
        }
      }
    }

    /** writei: the bytes of src go where bmap's list puts them, and the size is set as if
        they had gone to off. */
    method Writei(src: seq<byte>, off: nat, supply: seq<nat>) returns (r: FsFile.Outcome, rest: seq<nat>)
      requires Valid() && Usable(disk, Blocks(), supply) && off + |src| < UINT
      modifies this, ip
      ensures r.Failed? <==> off + |src| > FsFile.MAXFILE * BSIZE
      ensures r.Failed? ==> Valid() && Data() == old(Data()) && ip.size == old(ip.size)
      ensures r.Done? ==> Valid() && Wrote(old(Data()), off, src, |src|, Data())
      ensures r.Done? ==> ip.size == FsFile.SizeOf(old(ip.size), |src| > 0, off, |src|)
      ensures r.Panic? <==>
        !r.Failed? && !Room(old(ip.size), old(ip.addrs), supply, Needs(|old(Blocks())|, off, |src|))
      ensures r.Done? ==>
        Took(old(ip.size), old(ip.addrs), supply, Needs(|old(Blocks())|, off, |src|), ip.addrs, rest)
    {
      if off + |src| > FsFile.MAXFILE * BSIZE {
        return FsFile.Failed, supply;
      }
      var ok;
      ok, rest := WriteBlocks(src, off, supply);
      if !ok {
        return FsFile.Panic, rest;
      }
      if |src| > 0 {
        ip.Resize(off + |src|);
      }
      return FsFile.Done([]), rest;
    }

    // One round of readi's loop.
    method ReadBlock(bn: nat, p: nat, m: nat, supply: seq<nat>, tot: nat, ghost off: nat, ghost n: nat,
                     ghost was: seq<Block>, ghost k: nat, ghost addrs0: seq<nat>, ghost all: seq<nat>)
      returns (ok: bool, tot': nat, chunk: seq<byte>, rest: seq<nat>, ghost k': nat)
      requires Valid() && Usable(disk, Blocks(), supply) && Round(off, tot, n, bn, p, m)
      requires SameBytes(was, Data()) && Reached(|was|, off, tot, n, k)
      requires |Blocks()| == |was| + k && Took(ip.size, addrs0, all, k, ip.addrs, supply)
      modifies this, ip
      ensures ip.size == old(ip.size) && |disk| == |old(disk)|
      ensures ok ==> Valid() && Usable(disk, Blocks(), rest) && SameBytes(was, Data())
      ensures tot < tot' == tot + m <= n
      ensures ok ==> |chunk| == m && Bytes(was, off, tot) + chunk == Bytes(was, off, tot')
      ensures ok ==> Reached(|was|, off, tot', n, k')
      ensures ok ==> |Blocks()| == |was| + k' && Took(ip.size, addrs0, all, k', ip.addrs, rest)
      ensures !ok ==> |addrs0| == NADDRS && !Room(ip.size, addrs0, all, Needs(|was|, off, n))
    {
      var b;
      ghost var data := Data();
      ok, b, rest := Bmap(bn, supply);
      tot' := tot + m;
      k' := Stood(ip.size, |was|, off, tot, tot', n, bn, p, m, addrs0, all, k, old(ip.addrs), supply, ip.addrs, rest,
        ok);
      if ok {
        RoundRead(was, off, tot, n, bn, p, m, data, disk[b]);
        chunk := disk[b][p..p + m];
      } else {
        chunk := [];
      }
    }

    // The loop of readi, over n bytes.
    method ReadBlocks(off: nat, n: nat, supply: seq<nat>) returns (ok: bool, dst: seq<byte>, rest: seq<nat>)
      requires Valid() && Usable(disk, Blocks(), supply)
      modifies this, ip
      ensures ip.size == old(ip.size)
      ensures ok <==> Room(ip.size, old(ip.addrs), supply, Needs(|old(Blocks())|, off, n))
      ensures ok ==> Valid() && SameBytes(old(Data()), Data()) && dst == Bytes(old(Data()), off, n)
      ensures ok ==> Took(ip.size, old(ip.addrs), supply, Needs(|old(Blocks())|, off, n), ip.addrs, rest)
    {
      ok, dst, rest := true, [], supply;
      var tot := 0;
      ghost var was, k: nat := Data(), 0;
      assert |was| == |Blocks()|;
      StartReached(|was|, off, n);
      while tot < n
        invariant ok && 0 <= tot <= n && Valid() && Usable(disk, Blocks(), rest) && ip.size == old(ip.size)
        invariant SameBytes(was, Data()) && dst == Bytes(was, off, tot) && Reached(|was|, off, tot, n, k)
        invariant |Blocks()| == |was| + k && Took(ip.size, old(ip.addrs), supply, k, ip.addrs, rest)
      {
        var chunk;
        var bn, p, m := Locate(off, tot, n);
        ok, tot, chunk, rest, k := ReadBlock(bn, p, m, rest, tot, off, n, was, k, old(ip.addrs), supply);
        if !ok {
          return;
        }
        dst := dst + chunk;
      }
    }

    /** readi: the bytes of the file at off, and no byte changes, though blocks may be added. */
    method Readi(off: nat, count: nat, supply: seq<nat>) returns (r: FsFile.Outcome, rest: seq<nat>)
      requires Valid() && Usable(disk, Blocks(), supply) && off < UINT && count < UINT
      modifies this, ip
      ensures ip.size == old(ip.size)
      ensures r.Failed? <==> off > ip.size || (off + count) % UINT < off
      ensures !r.Panic? ==> Valid() && SameBytes(old(Data()), Data())
      ensures r.Done? ==> r.data == FsFile.Slice(Bytes(old(Data()), 0, ip.size), off, count)
      ensures !r.Failed? ==> off <= ip.size
      ensures r.Panic? <==> (!r.Failed? &&
        !Room(ip.size, old(ip.addrs), supply, Needs(|old(Blocks())|, off, Clipped(ip.size, off, count))))
      ensures r.Done? ==> Took(ip.size, old(ip.addrs), supply,
        Needs(|old(Blocks())|, off, Clipped(ip.size, off, count)), ip.addrs, rest)
    {
      if off > ip.size || (off + count) % UINT < off {
        return FsFile.Failed, supply;
      }
      var n := if off + count > ip.size then ip.size - off else count;
      BytesSlice(Data(), ip.size, off, count);
      var ok, dst;
      ok, dst, rest := ReadBlocks(off, n, supply);
      r := if ok then FsFile.Done(dst) else FsFile.Panic;
    }
  }
}

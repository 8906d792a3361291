/** The code of fs.c over blocks and in-memory inodes: block allocator, block map
    and truncation, proved against the volume of module Fs.  A panic is the
    result `ok == false`. */
module FsCode {
  import opened FsData
  import opened Fs

  // Where bmap keeps block bn of a file.
  function DataSlot(bn: nat): (s: Slot)
    requires bn < MAXBLOCKS
    ensures IsData(s)
  {
    if bn < NDIRECT then Root(bn)
    else if bn < NDIRECT + NINDIRECT then Child(Root(IND), bn - NDIRECT)
    else Child(Child(Root(DBL), (bn - NDIRECT - NINDIRECT) / NINDIRECT), (bn - NDIRECT - NINDIRECT) % NINDIRECT)
  }

  lemma DataSlotInjective(bn: nat, bm: nat)
    requires bn < MAXBLOCKS && bm < MAXBLOCKS && DataSlot(bn) == DataSlot(bm)
    ensures bn == bm
  {
  }

  lemma DataSlotOnto(s: Slot) returns (bn: nat)
    requires IsData(s)
    ensures bn < MAXBLOCKS && DataSlot(bn) == s
  {
    if s.Root? {
      bn := s.i;
    } else if s.parent.Root? {
      bn := NDIRECT + s.j;
    } else {
      bn := NDIRECT + NINDIRECT + s.parent.j * NINDIRECT + s.j;
      assert (bn - NDIRECT - NINDIRECT) / NINDIRECT == s.parent.j && (bn - NDIRECT - NINDIRECT) % NINDIRECT == s.j;
    }
  }

  // Word j of block a.
  function EntryIn(blocks: seq<Block>, a: nat, j: nat): nat {
    if a < |blocks| && j < NINDIRECT then Word(blocks[a], j) else 0
  }

  /** Where block bn of a file is, in terms of the inode and the blocks of numbers. */
  lemma PlaceOf(sb: Super, fs: Volume, x: nat, bn: nat)
    requires Owned(sb, fs) && x < |fs.inodes| && bn < MAXBLOCKS && Ref(fs, x, DataSlot(bn)) != 0
    ensures var a, addrs := Ref(fs, x, DataSlot(bn)), fs.inodes[x].addrs;
      && |addrs| == 13 && a < |fs.blocks|
      && (bn < 11 ==> a == addrs[bn])
      && (11 <= bn < 139 ==> a == EntryIn(fs.blocks, addrs[11], bn - 11))
      && (139 <= bn ==> a == EntryIn(fs.blocks, EntryIn(fs.blocks, addrs[12], (bn - 139) / 128), (bn - 139) % 128))
  {
    var s := DataSlot(bn);
    assert OwnedOk(sb, fs, x, s);
    if bn >= 139 {
      assert Ref(fs, x, s.parent) == Entry(fs, Ref(fs, x, Root(DBL)), (bn - 139) / 128);
    }
  }

  // Before block c, every block is marked.
  ghost predicate NoneFreeBefore(sb: Super, fs: Volume, c: nat)
    requires Shape(sb, fs)
  {
    forall d :: 0 <= d < c && d < sb.size ==> Marked(sb, fs, d)
  }

  class FileSystem {
    const sb: Super
    var blocks: seq<Block>
    var inodes: seq<Inode>

    constructor (s: Super, bs: seq<Block>, ips: seq<Inode>)
      requires Owned(s, Volume(bs, ips))
      ensures sb == s && blocks == bs && inodes == ips
    {
      sb, blocks, inodes := s, bs, ips;
    }

    ghost function Value(): Volume
      reads this
    {
      Volume(blocks, inodes)
    }

    // bzero
    method Bzero(b: nat)
      requires b < |blocks|
      modifies this`blocks
      ensures blocks == old(blocks)[b := Zeroes()]
    {
      blocks := blocks[b := Zeroes()];
    }

    // balloc: the first free block, marked and zeroed; panics when there is none.
    method Balloc() returns (ok: bool, nb: nat)
      requires Shape(sb, Value())
      modifies this`blocks
      ensures ok ==> nb < sb.size && !Marked(sb, old(Value()), nb) && NoneFreeBefore(sb, old(Value()), nb)
      ensures ok ==> Value() == Taken(sb, old(Value()), nb)
      ensures !ok ==> NoneFreeBefore(sb, old(Value()), sb.size) && Value() == old(Value())
    {
      var b := 0;
      while b < sb.size
        invariant b % BPB == 0 && Value() == old(Value())
        invariant NoneFreeBefore(sb, Value(), b)
        decreases sb.size + BPB - b
      {
        var bp := sb.bmapstart + b / BPB;
        var bi := 0;
        while bi < BPB && b + bi < sb.size
          invariant 0 <= bi <= BPB && Value() == old(Value()) && b % BPB == 0 && b < sb.size &&
            bp == sb.bmapstart + b / BPB
          invariant NoneFreeBefore(sb, Value(), b + bi)
        {
          assert bi < BPB ==> (b + bi) / BPB == b / BPB && (b + bi) % BPB == bi;
          if !BitSet(blocks[bp][bi / 8], bi % 8) {
            BytesStayBytes(blocks[bp][bi / 8], bi % 8);
            blocks := blocks[bp := blocks[bp][bi / 8 := SetBit(blocks[bp][bi / 8], bi % 8)]];
            Bzero(b + bi);
            return true, b + bi;
          }
          bi := bi + 1;
        }
        b := b + BPB;
      }
      return false, 0;
    }

    // bfree: unmark block b; panics when it is free already.
    method Bfree(b: nat) returns (ok: bool)
      requires Shape(sb, Value()) && b < sb.size
      modifies this`blocks
      ensures ok <==> Marked(sb, old(Value()), b)
      ensures Value() == if ok then WithMark(sb, old(Value()), b, false) else old(Value())
    {
      var bp := sb.bmapstart + b / BPB;
      var bi := b % BPB;
      if !BitSet(blocks[bp][bi / 8], bi % 8) {
        return false;
      }
      BytesStayBytes(blocks[bp][bi / 8], bi % 8);
      blocks := blocks[bp := blocks[bp][bi / 8 := ClearBit(blocks[bp][bi / 8], bi % 8)]];
      return true;
    }

    // Address i of the inode, given a new block first if it has none.
    method AddrOf(x: nat, i: nat, ghost r: Slot) returns (ok: bool, addr: nat)
      requires Owned(sb, Value()) && x < |inodes| && i < NADDRS && OnPath(Root(i), r)
      modifies this
      ensures Extends(sb, old(Value()), Value(), x, r)
      ensures ok ==> addr == Ref(Value(), x, Root(i)) != 0
      ensures !ok ==> NoneFreeBefore(sb, Value(), sb.size) && Ref(Value(), x, Root(i)) == 0
    {
      ok, addr := true, inodes[x].addrs[i];
      ExtendsSelf(sb, Value(), x, r);
      if addr == 0 {
        ghost var fs := Value();
        ok, addr := Balloc();
        if ok {
          FillExtends(sb, fs, x, Root(i), addr, r);
          inodes := inodes[x := WithAddr(inodes[x], i, addr)];
        }
      }
    }

    // Entry j of a block of block numbers, given a new block first if it has none.
    method EntryOf(x: nat, ghost p: Slot, block: nat, j: nat, ghost r: Slot) returns (ok: bool, addr: nat)
      requires Owned(sb, Value()) && x < |inodes| && IsSlot(p) && IsSlot(Child(p, j)) && j < NINDIRECT &&
        OnPath(Child(p, j), r)
      requires block == Ref(Value(), x, p) != 0
      modifies this
      ensures Extends(sb, old(Value()), Value(), x, r)
      ensures ok ==> addr == Ref(Value(), x, Child(p, j)) != 0
      ensures !ok ==> NoneFreeBefore(sb, Value(), sb.size) && Ref(Value(), x, Child(p, j)) == 0
    {
      assert OwnedOk(sb, Value(), x, p);
      ok, addr := true, Word(blocks[block], j);
      ExtendsSelf(sb, Value(), x, r);
      if addr == 0 {
        ghost var fs := Value();
        ok, addr := Balloc();
        if ok {
          FillExtends(sb, fs, x, Child(p, j), addr, r);
          TakenKeepsRefs(sb, fs, addr, x, p);
          blocks := blocks[block := WithWord(blocks[block], j, addr)];
        }
      }
    }

    // The levels of bmap.
    method Descend(x: nat, bn: nat) returns (ok: bool, addr: nat)
      requires Owned(sb, Value()) && x < |inodes|
      modifies this
      ensures bn >= MAXBLOCKS ==> !ok && Value() == old(Value())
      ensures bn < MAXBLOCKS ==> Extends(sb, old(Value()), Value(), x, DataSlot(bn))
      ensures bn < MAXBLOCKS && ok ==> addr == Ref(Value(), x, DataSlot(bn)) != 0
      ensures bn < MAXBLOCKS && !ok ==> NoneFreeBefore(sb, Value(), sb.size) && Ref(Value(), x, DataSlot(bn)) == 0
    {
      ghost var r := if bn < MAXBLOCKS then DataSlot(bn) else Root(0);
      ghost var fs := Value();
      if bn < NDIRECT {
        ok, addr := AddrOf(x, bn, r);
        return;
      }
      var n := bn - NDIRECT;
      if n < NINDIRECT {
        ok, addr := AddrOf(x, NDIRECT, r);
        if !ok { return; }
        ghost var fs1 := Value();
        ok, addr := EntryOf(x, Root(IND), addr, n, r);
        ExtendsTrans(sb, fs, fs1, Value(), x, r);
        return;
      }
      n := n - NINDIRECT;
      if n < NINDIRECT * NINDIRECT {
        ok, addr := AddrOf(x, NDIRECT + 1, r);
        if !ok { return; }
        ghost var fs1 := Value();
        ok, addr := EntryOf(x, Root(DBL), addr, n / NINDIRECT, r);
        ExtendsTrans(sb, fs, fs1, Value(), x, r);
        if !ok { return; }
        ghost var fs2 := Value();
        ok, addr := EntryOf(x, Child(Root(DBL), n / NINDIRECT), addr, n % NINDIRECT, r);
        ExtendsTrans(sb, fs, fs2, Value(), x, r);
        return;
      }
      return false, 0;
    }

    // bmap: the block of a file that holds its block bn, allocated if there is none.  The
    // first 11 are in the inode, the next 128 in the block of address 11, and the rest behind
    // the blocks that the block of address 12 names.
    method Bmap(x: nat, bn: nat) returns (ok: bool, addr: nat)
      requires Owned(sb, Value()) && x < |inodes|
      modifies this
      ensures bn >= MAXBLOCKS ==> !ok && Value() == old(Value())
      ensures bn < MAXBLOCKS ==> Extends(sb, old(Value()), Value(), x, DataSlot(bn))
      ensures bn < MAXBLOCKS && ok ==> addr == Ref(Value(), x, DataSlot(bn)) != 0
      ensures bn < MAXBLOCKS && !ok ==> NoneFreeBefore(sb, Value(), sb.size) && Ref(Value(), x, DataSlot(bn)) == 0
      ensures ok ==> bn < MAXBLOCKS && |inodes| == |old(inodes)| && |inodes[x].addrs| == 13
      ensures ok && bn < 11 ==> addr == inodes[x].addrs[bn]
      ensures ok && 11 <= bn < 139 ==> addr == EntryIn(blocks, inodes[x].addrs[11], bn - 11)
      ensures ok && 139 <= bn ==>
        addr == EntryIn(blocks, EntryIn(blocks, inodes[x].addrs[12], (bn - 139) / 128), (bn - 139) % 128)
    {
      ok, addr := Descend(x, bn);
      if ok {
        PlaceOf(sb, Value(), x, bn);
      }
    }

    // The loop of itrunc over the entries of the indirect block, which it leaves in place.
    method FreeEntries(x: nat, ghost fs: Volume) returns (ok: bool)
      requires Midway(sb, fs, Value(), x, IND, IND, 0) && inodes[x].addrs[NDIRECT] != 0
      modifies this`blocks
      ensures ok && Midway(sb, fs, Value(), x, IND, IND, NINDIRECT)
    {
      var block := inodes[x].addrs[NDIRECT];
      assert OwnedOk(sb, fs, x, Root(IND));
      var j := 0;
      ok := true;
      while j < NINDIRECT
        invariant 0 <= j <= NINDIRECT && ok && Midway(sb, fs, Value(), x, IND, IND, j)
      {
        ghost var s := Child(Root(IND), j);
        assert Word(blocks[block], j) == Ref(fs, x, s);
        if Word(blocks[block], j) != 0 {
          NextIsMarked(sb, fs, Value(), x, IND, IND, j, s);
          FreeNext(sb, fs, Value(), x, IND, IND, j, s, IND, j + 1);
          ok := Bfree(Word(blocks[block], j));
        } else {
          SkipEmpty(sb, fs, Value(), x, IND, IND, j, IND, j + 1);
        }
        j := j + 1;
      }
    }

    // Free and clear address i of the inode, if it has a block.
    method FreeAddr(x: nat, i: nat, ghost fs: Volume) returns (ok: bool)
      requires i < NDIRECT && Midway(sb, fs, Value(), x, i, i, 0)
      modifies this
      ensures ok && Midway(sb, fs, Value(), x, i + 1, i + 1, 0) && SameSizes(old(Value()), Value())
    {
      ok := true;
      assert inodes[x].addrs[i] == Ref(fs, x, Root(i));
      if inodes[x].addrs[i] != 0 {
        NextIsMarked(sb, fs, Value(), x, i, i, 0, Root(i));
        FreeNext(sb, fs, Value(), x, i, i, 0, Root(i), i + 1, 0);
        ok := Bfree(inodes[x].addrs[i]);
        ClearNext(sb, fs, Value(), x, i, i + 1, 0);
        inodes := inodes[x := WithAddr(inodes[x], i, 0)];
      } else {
        SkipEmpty(sb, fs, Value(), x, i, i, 0, i + 1, 0);
      }
    }

    // The loop of itrunc over the direct addresses.
    method FreeDirect(x: nat) returns (ok: bool)
      requires Owned(sb, Value()) && x < |inodes|
      modifies this
      ensures ok && Midway(sb, old(Value()), Value(), x, IND, IND, 0)
      ensures SameSizes(old(Value()), Value())
    {
      var i := 0;
      ok := true;
      while i < NDIRECT
        invariant 0 <= i <= NDIRECT && ok && Midway(sb, old(Value()), Value(), x, i, i, 0) &&
          SameSizes(old(Value()), Value())
      {
        ok := FreeAddr(x, i, old(Value()));
        i := i + 1;
      }
    }

    // itrunc: no bfree in it panics.
    method Itrunc(x: nat) returns (ok: bool)
      requires Owned(sb, Value()) && x < |inodes|
      modifies this
      ensures ok && Truncated(sb, old(Value()), Value(), x)
    {
      ghost var fs := Value();
      ok := FreeDirect(x);
      assert inodes[x].addrs[NDIRECT] == Ref(fs, x, Root(IND));
      if inodes[x].addrs[NDIRECT] != 0 {
        ok := FreeEntries(x, fs);
        NextIsMarked(sb, fs, Value(), x, IND, IND, NINDIRECT, Root(IND));
        FreeNext(sb, fs, Value(), x, IND, IND, NINDIRECT, Root(IND), IND + 1, NINDIRECT);
        ok := Bfree(inodes[x].addrs[NDIRECT]);
        ClearNext(sb, fs, Value(), x, IND, IND + 1, NINDIRECT);
        inodes := inodes[x := WithAddr(inodes[x], NDIRECT, 0)];
      } else {
        SkipEmpty(sb, fs, Value(), x, IND, IND, 0, IND + 1, NINDIRECT);
      }
      TruncationDone(sb, fs, Value(), x);
      inodes := inodes[x := WithSize(inodes[x], 0)];
    }
  }
}

/** Blocks and inodes of fs.c: the free map, and the tree of direct, indirect and
    doubly-indirect blocks of a file.

    A file system is its blocks, as the log and the cache show them, and its
    in-memory inodes with 13 addresses.  A slot is a place that can hold a block
    number: an address of the inode or an entry of an indirect block. */
module Fs {
  import opened CTypes
  import opened FsData

  const NDIRECT: nat := 11
  const IND: nat := NDIRECT        // addrs[NDIRECT]: the indirect block
  const DBL: nat := NDIRECT + 1    // addrs[NDIRECT + 1]: the doubly-indirect block
  const NADDRS: nat := NDIRECT + 2
  const MAXBLOCKS: nat := NDIRECT + NINDIRECT + NINDIRECT * NINDIRECT  // what bmap accepts

  // size blocks, the free map from bmapstart on, file blocks from meta on.
  datatype Super = Super(size: nat, bmapstart: nat, meta: nat)

  datatype Inode = Inode(size: nat, addrs: seq<nat>)

  datatype Volume = Volume(blocks: seq<Block>, inodes: seq<Inode>)

  ghost predicate Shape(sb: Super, fs: Volume) {
    && sb.bmapstart + sb.size / BPB < sb.meta <= sb.size <= |fs.blocks| && sb.size < 0x8000_0000
    && forall x :: 0 <= x < |fs.inodes| ==> |fs.inodes[x].addrs| == NADDRS
  }

  // Block c is marked in use in the free map.
  predicate Marked(sb: Super, fs: Volume, c: nat)
    requires c < sb.size && sb.bmapstart + c / BPB < |fs.blocks|
  {
    Bit(fs.blocks[sb.bmapstart + c / BPB], c % BPB)
  }

  // ---- slots ----

  datatype Slot = Root(i: nat) | Child(parent: Slot, j: nat)

  // Where file data may be: direct, through the indirect block, or through a
  // second-level block.
  predicate IsData(s: Slot) {
    match s
    case Root(i) => i < NDIRECT
    case Child(Root(i), j) => i == IND && j < NINDIRECT
    case Child(Child(Root(i), k), j) => i == DBL && k < NINDIRECT && j < NINDIRECT
    case _ => false
  }

  // The slots that hold the number of a block of block numbers.
  predicate IsInterior(s: Slot) {
    match s
    case Root(i) => i == IND || i == DBL
    case Child(Root(i), k) => i == DBL && k < NINDIRECT
    case _ => false
  }

  predicate IsSlot(s: Slot) {
    IsData(s) || IsInterior(s)
  }

  predicate OnPath(t: Slot, s: Slot) {
    t == s || (s.Child? && OnPath(t, s.parent))
  }

  function Entry(fs: Volume, a: nat, j: nat): nat {
    if 0 < a < |fs.blocks| && j < NINDIRECT then Word(fs.blocks[a], j) else 0
  }

  // The block number in slot s of inode x, 0 if there is none.
  function Ref(fs: Volume, x: nat, s: Slot): nat {
    match s
    case Root(i) => if x < |fs.inodes| && i < |fs.inodes[x].addrs| then fs.inodes[x].addrs[i] else 0
    case Child(p, j) => Entry(fs, Ref(fs, x, p), j)
  }

  // ---- ownership ----

  ghost predicate OwnedOk(sb: Super, fs: Volume, x: nat, s: Slot)
    requires Shape(sb, fs)
  {
    x < |fs.inodes| && IsSlot(s) && Ref(fs, x, s) != 0 ==>
      sb.meta <= Ref(fs, x, s) < sb.size && Marked(sb, fs, Ref(fs, x, s))
  }

  ghost predicate DistinctOk(fs: Volume, x: nat, s: Slot, y: nat, t: Slot) {
    x < |fs.inodes| && y < |fs.inodes| && IsSlot(s) && IsSlot(t) && Ref(fs, x, s) != 0 &&
      Ref(fs, x, s) == Ref(fs, y, t) ==>
      x == y && s == t
  }

  /** Block ownership: the blocks of all files, data and index blocks alike, are
      file blocks, marked in use and pairwise distinct. */
  ghost predicate Owned(sb: Super, fs: Volume) {
    && Shape(sb, fs)
    && (forall c :: 0 <= c < sb.meta ==> Marked(sb, fs, c))
    && (forall x, s :: OwnedOk(sb, fs, x, s))
    && (forall x, s, y, t :: DistinctOk(fs, x, s, y, t))
  }

  // The contents of data slot s, all zero where the file has a hole.
  function DataBlock(fs: Volume, x: nat, s: Slot): Block {
    if 0 < Ref(fs, x, s) < |fs.blocks| then fs.blocks[Ref(fs, x, s)] else Zeroes()
  }

  // ---- taking a block ----

  function WithMark(sb: Super, fs: Volume, c: nat, on: bool): Volume
    requires c < sb.size && sb.bmapstart + c / BPB < |fs.blocks|
  {
    Volume(fs.blocks[sb.bmapstart + c / BPB := WithBit(fs.blocks[sb.bmapstart + c / BPB], c % BPB, on)], fs.inodes)
  }

  // balloc: mark block b and zero it.
  function Taken(sb: Super, fs: Volume, b: nat): Volume
    requires b < sb.size <= |fs.blocks| && sb.bmapstart + b / BPB < |fs.blocks|
  {
    Volume(WithMark(sb, fs, b, true).blocks[b := Zeroes()], fs.inodes)
  }

  function WithAddr(ip: Inode, i: nat, b: nat): Inode
    requires i < |ip.addrs|
  {
    Inode(ip.size, ip.addrs[i := b])
  }

  function WithSize(ip: Inode, size: nat): Inode {
    Inode(size, ip.addrs)
  }

  // Store block number b in slot s of inode x.
  function Stored(fs: Volume, x: nat, s: Slot, b: nat): Volume
    requires x < |fs.inodes| && b < UINT
  {
    match s
    case Root(i) =>
      if i < |fs.inodes[x].addrs| then Volume(fs.blocks, fs.inodes[x := WithAddr(fs.inodes[x], i, b)]) else fs
    case Child(p, j) =>
      if 0 < Ref(fs, x, p) < |fs.blocks| && j < NINDIRECT then
        Volume(fs.blocks[Ref(fs, x, p) := WithWord(fs.blocks[Ref(fs, x, p)], j, b)], fs.inodes)
      else fs
  }

  // Changes in blocks that no slot of x refers to leave the slots of x alone.
  lemma {:induction false} RefFrame(fs: Volume, fs': Volume, x: nat, s: Slot)
    requires IsSlot(s) && fs'.inodes == fs.inodes && |fs'.blocks| == |fs.blocks|
    requires forall t :: IsSlot(t) && 0 < Ref(fs, x, t) < |fs.blocks| ==>
      fs'.blocks[Ref(fs, x, t)] == fs.blocks[Ref(fs, x, t)]
    ensures Ref(fs', x, s) == Ref(fs, x, s)
  {
    if s.Child? {
      assert IsSlot(s.parent);
      RefFrame(fs, fs', x, s.parent);
    }
  }

  lemma MarkedAfter(sb: Super, fs: Volume, b: nat, on: bool, c: nat)
    requires Shape(sb, fs) && b < sb.size && c < sb.size
    ensures Marked(sb, WithMark(sb, fs, b, on), c) == if b == c then on else Marked(sb, fs, c)
  {
    BitOfWithBit(fs.blocks[sb.bmapstart + b / BPB], b % BPB, on, c % BPB);
    assert b / BPB == c / BPB && b % BPB == c % BPB ==> b == c;
  }

  // Taking a free block disturbs no slot.
  lemma TakenKeepsRefs(sb: Super, fs: Volume, b: nat, x: nat, s: Slot)
    requires Owned(sb, fs) && b < sb.size && !Marked(sb, fs, b) && x < |fs.inodes| && IsSlot(s)
    ensures Ref(Taken(sb, fs, b), x, s) == Ref(fs, x, s)
    ensures Ref(fs, x, s) != b && Ref(fs, x, s) < |fs.blocks|
    ensures Ref(fs, x, s) != 0 ==> Taken(sb, fs, b).blocks[Ref(fs, x, s)] == fs.blocks[Ref(fs, x, s)]
  {
    forall t | IsSlot(t) && 0 < Ref(fs, x, t) < |fs.blocks|
      ensures Taken(sb, fs, b).blocks[Ref(fs, x, t)] == fs.blocks[Ref(fs, x, t)]
    {
      assert OwnedOk(sb, fs, x, t);
    }
    assert OwnedOk(sb, fs, x, s);
    RefFrame(fs, Taken(sb, fs, b), x, s);
  }

  lemma TakenKeepsOwned(sb: Super, fs: Volume, b: nat)
    requires Owned(sb, fs) && b < sb.size && !Marked(sb, fs, b)
    ensures Owned(sb, Taken(sb, fs, b)) && sb.meta <= b
    ensures forall c :: 0 <= c < sb.size ==> (Marked(sb, Taken(sb, fs, b), c) <==> c == b || Marked(sb, fs, c))
  {
    var fs' := Taken(sb, fs, b);
    assert sb.meta <= b;
    forall c | 0 <= c < sb.size ensures Marked(sb, fs', c) <==> c == b || Marked(sb, fs, c) {
      MarkedAfter(sb, fs, b, true, c);
    }
    forall x: nat, s ensures OwnedOk(sb, fs', x, s) {
      if x < |fs.inodes| && IsSlot(s) {
        TakenKeepsRefs(sb, fs, b, x, s);
        assert OwnedOk(sb, fs, x, s);
      }
    }
    forall x: nat, s, y: nat, t ensures DistinctOk(fs', x, s, y, t) {
      if x < |fs.inodes| && y < |fs.inodes| && IsSlot(s) && IsSlot(t) {
        TakenKeepsRefs(sb, fs, b, x, s);
        TakenKeepsRefs(sb, fs, b, y, t);
        assert DistinctOk(fs, x, s, y, t);
      }
    }
  }

  // ---- filling a slot ----

  // A slot that can be filled: it is empty and its parent is not.
  ghost predicate Fillable(fs: Volume, x: nat, s: Slot) {
    x < |fs.inodes| && IsSlot(s) && Ref(fs, x, s) == 0 && (s.Child? ==> Ref(fs, x, s.parent) != 0)
  }

  // What bmap does at an empty slot: allocate a block, store its number there.
  function Filled(sb: Super, fs: Volume, x: nat, s: Slot, b: nat): Volume
    requires b < sb.size <= |fs.blocks| && sb.bmapstart + b / BPB < |fs.blocks| && x < |fs.inodes| && b < UINT
  {
    Stored(Taken(sb, fs, b), x, s, b)
  }

  // The blocks that change are the free map, the new block and the parent.
  lemma FilledBlocks(sb: Super, fs: Volume, x: nat, s: Slot, b: nat, a: nat)
    requires Owned(sb, fs) && Fillable(fs, x, s) && b < sb.size && !Marked(sb, fs, b)
    requires sb.meta <= a < sb.size && a != b
    ensures s.Child? && a == Ref(fs, x, s.parent) ==>
      Filled(sb, fs, x, s, b).blocks[a] == WithWord(fs.blocks[a], s.j, b)
    ensures !(s.Child? && a == Ref(fs, x, s.parent)) ==> Filled(sb, fs, x, s, b).blocks[a] == fs.blocks[a]
  {
    if s.Child? {
      TakenKeepsRefs(sb, fs, b, x, s.parent);
    }
  }

  lemma FilledNew(sb: Super, fs: Volume, x: nat, s: Slot, b: nat)
    requires Owned(sb, fs) && Fillable(fs, x, s) && b < sb.size && !Marked(sb, fs, b)
    ensures Filled(sb, fs, x, s, b).blocks[b] == Zeroes()
  {
    if s.Child? {
      TakenKeepsRefs(sb, fs, b, x, s.parent);
    }
  }

  // Filling a slot changes that slot and no other slot of any file.
  lemma {:induction false} FilledRefs(sb: Super, fs: Volume, x: nat, s: Slot, b: nat, y: nat, t: Slot)
    requires Owned(sb, fs) && Fillable(fs, x, s) && b < sb.size && !Marked(sb, fs, b)
    requires y < |fs.inodes| && IsSlot(t)
    ensures Ref(Filled(sb, fs, x, s, b), y, t) == if x == y && s == t then b else Ref(fs, y, t)
    decreases t
  {
    if t.Child? {
      FilledRefs(sb, fs, x, s, b, y, t.parent);
      FilledEntry(sb, fs, x, s, b, y, t);
    }
  }

  lemma FilledEntry(sb: Super, fs: Volume, x: nat, s: Slot, b: nat, y: nat, t: Slot)
    requires Owned(sb, fs) && Fillable(fs, x, s) && b < sb.size && !Marked(sb, fs, b)
    requires y < |fs.inodes| && IsSlot(t) && t.Child?
    requires Ref(Filled(sb, fs, x, s, b), y, t.parent) == if x == y && s == t.parent then b else Ref(fs, y, t.parent)
    ensures Ref(Filled(sb, fs, x, s, b), y, t) == if x == y && s == t then b else Ref(fs, y, t)
  {
    var a := Ref(fs, y, t.parent);
    assert OwnedOk(sb, fs, y, t.parent);
    if x == y && s == t.parent {
      FilledNew(sb, fs, x, s, b);
      ZeroWord(t.j);
    } else if a != 0 {
      FilledBlocks(sb, fs, x, s, b, a);
      if s.Child? {
        assert DistinctOk(fs, x, s.parent, y, t.parent);
        WordOfWithWord(fs.blocks[a], s.j, b, t.j);
      }
    }
  }

  // ---- what bmap keeps ----

  ghost predicate RefKept(fs: Volume, fs': Volume, x: nat, s: Slot, y: nat, t: Slot) {
    y < |fs.inodes| && IsSlot(t) ==>
      Ref(fs', y, t) == Ref(fs, y, t) || (x == y && OnPath(t, s) && Ref(fs, y, t) == 0)
  }

  ghost predicate DataKept(fs: Volume, fs': Volume, y: nat, t: Slot) {
    y < |fs.inodes| && IsData(t) ==> DataBlock(fs', y, t) == DataBlock(fs, y, t)
  }

  ghost predicate NewlyOwned(fs: Volume, fs': Volume, x: nat, c: nat) {
    c != 0 && exists t :: IsSlot(t) && Ref(fs, x, t) == 0 && Ref(fs', x, t) == c
  }

  /** Only empty slots of inode x on the path to s were filled, the blocks newly
      marked are exactly those now in them, and the data of every file is as it was. */
  ghost predicate Extends(sb: Super, fs: Volume, fs': Volume, x: nat, s: Slot) {
    && Owned(sb, fs) && Owned(sb, fs') && |fs'.blocks| == |fs.blocks|
    && SameSizes(fs, fs')
    && (forall y, t :: RefKept(fs, fs', x, s, y, t))
    && (forall y, t :: DataKept(fs, fs', y, t))
    && (forall c :: 0 <= c < sb.size ==> (Marked(sb, fs', c) <==> Marked(sb, fs, c) || NewlyOwned(fs, fs', x, c)))
  }

  ghost predicate SameSizes(fs: Volume, fs': Volume) {
    |fs'.inodes| == |fs.inodes| && forall y :: 0 <= y < |fs.inodes| ==> fs'.inodes[y].size == fs.inodes[y].size
  }

  lemma ExtendsSelf(sb: Super, fs: Volume, x: nat, s: Slot)
    requires Owned(sb, fs)
    ensures Extends(sb, fs, fs, x, s)
  {
  }

  lemma ExtendsTrans(sb: Super, fs: Volume, fs1: Volume, fs2: Volume, x: nat, s: Slot)
    requires Extends(sb, fs, fs1, x, s) && Extends(sb, fs1, fs2, x, s) && x < |fs.inodes|
    ensures Extends(sb, fs, fs2, x, s)
  {
    forall y: nat, t ensures RefKept(fs, fs2, x, s, y, t) {
      assert RefKept(fs, fs1, x, s, y, t) && RefKept(fs1, fs2, x, s, y, t);
    }
    forall y: nat, t ensures DataKept(fs, fs2, y, t) {
      assert DataKept(fs, fs1, y, t) && DataKept(fs1, fs2, y, t);
    }
    forall c: nat ensures NewlyOwned(fs, fs2, x, c) <==> NewlyOwned(fs, fs1, x, c) || NewlyOwned(fs1, fs2, x, c) {
      NewlyOwnedTrans(fs, fs1, fs2, x, s, c);
    }
  }

  lemma NewlyOwnedTrans(fs: Volume, fs1: Volume, fs2: Volume, x: nat, s: Slot, c: nat)
    requires |fs1.inodes| == |fs.inodes| && x < |fs.inodes|
    requires forall y, t :: RefKept(fs, fs1, x, s, y, t)
    requires forall y, t :: RefKept(fs1, fs2, x, s, y, t)
    ensures NewlyOwned(fs, fs2, x, c) <==> NewlyOwned(fs, fs1, x, c) || NewlyOwned(fs1, fs2, x, c)
  {
    if NewlyOwned(fs, fs2, x, c) {
      var t :| IsSlot(t) && Ref(fs, x, t) == 0 && Ref(fs2, x, t) == c;
      assert RefKept(fs1, fs2, x, s, x, t);
      assert Ref(fs1, x, t) == 0 || Ref(fs1, x, t) == c;
    }
    if NewlyOwned(fs, fs1, x, c) {
      var t :| IsSlot(t) && Ref(fs, x, t) == 0 && Ref(fs1, x, t) == c;
      assert RefKept(fs1, fs2, x, s, x, t);
    }
    if NewlyOwned(fs1, fs2, x, c) {
      var t :| IsSlot(t) && Ref(fs1, x, t) == 0 && Ref(fs2, x, t) == c;
      assert RefKept(fs, fs1, x, s, x, t);
    }
  }

  lemma {:induction false} OnPathTrans(t: Slot, s: Slot, r: Slot)
    requires OnPath(t, s) && OnPath(s, r)
    ensures OnPath(t, r)
  {
    if s != r { OnPathTrans(t, s, r.parent); }
  }

  // The free map after filling.
  lemma FilledMarks(sb: Super, fs: Volume, x: nat, s: Slot, b: nat, c: nat)
    requires Owned(sb, fs) && Fillable(fs, x, s) && b < sb.size && !Marked(sb, fs, b) && c < sb.size
    ensures Marked(sb, Filled(sb, fs, x, s, b), c) <==> c == b || Marked(sb, fs, c)
  {
    TakenKeepsOwned(sb, fs, b);
    if s.Child? {
      TakenKeepsRefs(sb, fs, b, x, s.parent);
      assert OwnedOk(sb, fs, x, s.parent);
    }
  }

  lemma FilledKeepsOwned(sb: Super, fs: Volume, x: nat, s: Slot, b: nat)
    requires Owned(sb, fs) && Fillable(fs, x, s) && b < sb.size && !Marked(sb, fs, b)
    ensures Owned(sb, Filled(sb, fs, x, s, b)) && sb.meta <= b
  {
    var fs' := Filled(sb, fs, x, s, b);
    assert sb.meta <= b;
    forall c | 0 <= c < sb.size ensures Marked(sb, fs', c) <==> c == b || Marked(sb, fs, c) {
      FilledMarks(sb, fs, x, s, b, c);
    }
    forall y: nat, t ensures OwnedOk(sb, fs', y, t) {
      if y < |fs.inodes| && IsSlot(t) {
        FilledRefs(sb, fs, x, s, b, y, t);
        assert OwnedOk(sb, fs, y, t);
      }
    }
    forall y: nat, t, z: nat, u ensures DistinctOk(fs', y, t, z, u) {
      if y < |fs.inodes| && z < |fs.inodes| && IsSlot(t) && IsSlot(u) {
        FilledRefs(sb, fs, x, s, b, y, t);
        FilledRefs(sb, fs, x, s, b, z, u);
        assert DistinctOk(fs, y, t, z, u) && OwnedOk(sb, fs, y, t) && OwnedOk(sb, fs, z, u);
      }
    }
  }

  lemma FilledKeepsData(sb: Super, fs: Volume, x: nat, s: Slot, b: nat, y: nat, t: Slot)
    requires Owned(sb, fs) && Fillable(fs, x, s) && b < sb.size && !Marked(sb, fs, b)
    ensures DataKept(fs, Filled(sb, fs, x, s, b), y, t)
  {
    if y < |fs.inodes| && IsData(t) {
      FilledRefs(sb, fs, x, s, b, y, t);
      FilledNew(sb, fs, x, s, b);
      assert OwnedOk(sb, fs, y, t);
      if Ref(fs, y, t) != 0 {
        FilledBlocks(sb, fs, x, s, b, Ref(fs, y, t));
        if s.Child? {
          assert DistinctOk(fs, x, s.parent, y, t);
          assert !IsData(s.parent);
        }
      }
    }
  }

  lemma FillExtends(sb: Super, fs: Volume, x: nat, s: Slot, b: nat, r: Slot)
    requires Owned(sb, fs) && Fillable(fs, x, s) && b < sb.size && !Marked(sb, fs, b) && OnPath(s, r)
    ensures Extends(sb, fs, Filled(sb, fs, x, s, b), x, r)
    ensures Ref(Filled(sb, fs, x, s, b), x, s) == b
  {
    var fs' := Filled(sb, fs, x, s, b);
    FilledKeepsOwned(sb, fs, x, s, b);
    forall y: nat, t ensures RefKept(fs, fs', x, r, y, t) && DataKept(fs, fs', y, t) {
      FilledKeepsData(sb, fs, x, s, b, y, t);
      if y < |fs.inodes| && IsSlot(t) {
        FilledRefs(sb, fs, x, s, b, y, t);
      }
    }
    FilledRefs(sb, fs, x, s, b, x, s);
    forall c | 0 <= c < sb.size ensures Marked(sb, fs', c) <==> Marked(sb, fs, c) || NewlyOwned(fs, fs', x, c) {
      FilledMarks(sb, fs, x, s, b, c);
      if NewlyOwned(fs, fs', x, c) {
        var t :| IsSlot(t) && Ref(fs, x, t) == 0 && Ref(fs', x, t) == c;
        FilledRefs(sb, fs, x, s, b, x, t);
      }
    }
  }

  // ---- truncation ----

  // The slots itrunc empties: direct and indirect, not doubly indirect.
  predicate Singly(s: Slot) {
    IsSlot(s) && Done(s, IND + 1, NINDIRECT)
  }

  // Addresses below i and entries below j of the indirect block.
  predicate Done(s: Slot, i: nat, j: nat) {
    (s.Root? && s.i < i) || (s.Child? && s.parent == Root(IND) && s.j < j)
  }

  ghost predicate Freed(fs: Volume, x: nat, i: nat, j: nat, c: nat) {
    c != 0 && exists s :: IsSlot(s) && Done(s, i, j) && Ref(fs, x, s) == c
  }

  // itrunc of inode x, started in fs, has freed what is Done and cleared i addresses.
  ghost predicate Midway(sb: Super, fs: Volume, now: Volume, x: nat, cleared: nat, i: nat, j: nat) {
    && Owned(sb, fs) && Shape(sb, now) && x < |fs.inodes|
    && |now.blocks| == |fs.blocks| && (forall c :: sb.meta <= c < |fs.blocks| ==> now.blocks[c] == fs.blocks[c])
    && |now.inodes| == |fs.inodes| && (forall y :: 0 <= y < |fs.inodes| && y != x ==> now.inodes[y] == fs.inodes[y])
    && (forall k :: 0 <= k < NADDRS ==> now.inodes[x].addrs[k] == if k < cleared then 0 else fs.inodes[x].addrs[k])
    && (forall c :: 0 <= c < sb.size ==> (Marked(sb, now, c) <==> Marked(sb, fs, c) && !Freed(fs, x, i, j, c)))
  }

  // The block of a slot that is not done is not among those freed.
  lemma StillOwned(sb: Super, fs: Volume, x: nat, i: nat, j: nat, y: nat, s: Slot)
    requires Owned(sb, fs) && x < |fs.inodes| && y < |fs.inodes| && IsSlot(s) && !(x == y && Done(s, i, j)) &&
      Ref(fs, y, s) != 0
    ensures !Freed(fs, x, i, j, Ref(fs, y, s))
  {
    forall t | IsSlot(t) && Done(t, i, j) ensures Ref(fs, x, t) != Ref(fs, y, s) {
      assert DistinctOk(fs, y, s, x, t);
    }
  }

  // The next block to free is marked.
  lemma NextIsMarked(sb: Super, fs: Volume, now: Volume, x: nat, cleared: nat, i: nat, j: nat, s: Slot)
    requires Midway(sb, fs, now, x, cleared, i, j) && IsSlot(s) && !Done(s, i, j) && Ref(fs, x, s) != 0
    ensures sb.meta <= Ref(fs, x, s) < sb.size && Marked(sb, now, Ref(fs, x, s))
  {
    assert OwnedOk(sb, fs, x, s);
    StillOwned(sb, fs, x, i, j, x, s);
  }

  lemma FreeNext(sb: Super, fs: Volume, now: Volume, x: nat, cleared: nat, i: nat, j: nat, s: Slot, i': nat, j': nat)
    requires Midway(sb, fs, now, x, cleared, i, j) && IsSlot(s) && !Done(s, i, j) && Ref(fs, x, s) != 0
    requires forall t :: IsSlot(t) ==> (Done(t, i', j') <==> t == s || Done(t, i, j))
    ensures Ref(fs, x, s) < sb.size && Midway(sb, fs, WithMark(sb, now, Ref(fs, x, s), false), x, cleared, i', j')
  {
    NextIsMarked(sb, fs, now, x, cleared, i, j, s);
    var b := Ref(fs, x, s);
    var next := WithMark(sb, now, b, false);
    forall c | 0 <= c < sb.size ensures Marked(sb, next, c) <==> Marked(sb, fs, c) && !Freed(fs, x, i', j', c) {
      MarkedAfter(sb, now, b, false, c);
      if Freed(fs, x, i', j', c) {
        var t :| IsSlot(t) && Done(t, i', j') && Ref(fs, x, t) == c;
        assert t == s || Done(t, i, j);
      }
      if Freed(fs, x, i, j, c) {
        var t :| IsSlot(t) && Done(t, i, j) && Ref(fs, x, t) == c;
        assert Done(t, i', j');
      }
      assert Done(s, i', j');
    }
  }

  // Clearing one address of the inode.
  lemma ClearNext(sb: Super, fs: Volume, now: Volume, x: nat, cleared: nat, i: nat, j: nat)
    requires Midway(sb, fs, now, x, cleared, i, j) && cleared < NADDRS
    ensures var next := Volume(now.blocks, now.inodes[x := WithAddr(now.inodes[x], cleared, 0)]);
      Midway(sb, fs, next, x, cleared + 1, i, j) && SameSizes(now, next)
  {
    var next := Volume(now.blocks, now.inodes[x := WithAddr(now.inodes[x], cleared, 0)]);
    assert forall c :: 0 <= c < sb.size ==> Marked(sb, next, c) == Marked(sb, now, c);
  }

  // Empty slots need no freeing.
  lemma SkipEmpty(sb: Super, fs: Volume, now: Volume, x: nat, cleared: nat, i: nat, j: nat, i': nat, j': nat)
    requires Midway(sb, fs, now, x, cleared, i, j) && i <= i' && j <= j'
    requires forall t :: IsSlot(t) && Done(t, i', j') && !Done(t, i, j) ==> Ref(fs, x, t) == 0
    ensures Midway(sb, fs, now, x, cleared, i', j')
  {
    forall c: nat ensures Freed(fs, x, i', j', c) <==> Freed(fs, x, i, j, c) {
      if Freed(fs, x, i, j, c) {
        var t :| IsSlot(t) && Done(t, i, j) && Ref(fs, x, t) == c;
        assert Done(t, i', j');
      }
    }
  }

  ghost predicate TruncatedRef(fs: Volume, fs': Volume, x: nat, y: nat, t: Slot) {
    y < |fs.inodes| && IsSlot(t) ==> Ref(fs', y, t) == if x == y && Singly(t) then 0 else Ref(fs, y, t)
  }

  ghost predicate TruncatedData(fs: Volume, fs': Volume, x: nat, y: nat, t: Slot) {
    y < |fs.inodes| && IsData(t) && !(x == y && Singly(t)) ==> DataBlock(fs', y, t) == DataBlock(fs, y, t)
  }

  /** itrunc: the direct and indirect slots of x are empty, the blocks freed are
      exactly those that were in them, and all else is as it was. */
  ghost predicate Truncated(sb: Super, fs: Volume, fs': Volume, x: nat) {
    && Owned(sb, fs) && Owned(sb, fs') && x < |fs.inodes| == |fs'.inodes|
    && (forall y, t :: TruncatedRef(fs, fs', x, y, t))
    && (forall y, t :: TruncatedData(fs, fs', x, y, t))
    && (forall y :: 0 <= y < |fs.inodes| ==> fs'.inodes[y].size == if y == x then 0 else fs.inodes[y].size)
    && (forall c :: 0 <= c < sb.size ==> (Marked(sb, fs', c) <==>
      Marked(sb, fs, c) && !Freed(fs, x, IND + 1, NINDIRECT, c)))
  }

  lemma {:induction false} TruncatedRefs(sb: Super, fs: Volume, now: Volume, x: nat, y: nat, t: Slot)
    requires Midway(sb, fs, now, x, IND + 1, IND + 1, NINDIRECT)
    ensures TruncatedRef(fs, now, x, y, t)
    decreases t
  {
    if t.Child? && y < |fs.inodes| && IsSlot(t) {
      TruncatedRefs(sb, fs, now, x, y, t.parent);
      assert OwnedOk(sb, fs, y, t.parent);
    }
  }

  lemma TruncatedMarks(sb: Super, fs: Volume, now: Volume, x: nat, c: nat)
    requires Midway(sb, fs, now, x, IND + 1, IND + 1, NINDIRECT) && c < sb.meta
    ensures Marked(sb, now, c)
  {
    assert forall s :: IsSlot(s) && Ref(fs, x, s) == c ==> OwnedOk(sb, fs, x, s);
  }

  lemma MidwayDone(sb: Super, fs: Volume, now: Volume, x: nat)
    requires Midway(sb, fs, now, x, IND + 1, IND + 1, NINDIRECT)
    requires forall y :: 0 <= y < |fs.inodes| ==> now.inodes[y].size == if y == x then 0 else fs.inodes[y].size
    ensures Truncated(sb, fs, now, x)
  {
    forall y: nat, t
      ensures TruncatedRef(fs, now, x, y, t) && TruncatedData(fs, now, x, y, t) && OwnedOk(sb, now, y, t)
    {
      TruncatedRefs(sb, fs, now, x, y, t);
      assert OwnedOk(sb, fs, y, t);
      if y < |fs.inodes| && IsSlot(t) && !(x == y && Singly(t)) && Ref(fs, y, t) != 0 {
        StillOwned(sb, fs, x, IND + 1, NINDIRECT, y, t);
      }
    }
    forall y: nat, t, z: nat, u ensures DistinctOk(now, y, t, z, u) {
      assert TruncatedRef(fs, now, x, y, t) && TruncatedRef(fs, now, x, z, u) && DistinctOk(fs, y, t, z, u);
    }
    forall c | 0 <= c < sb.meta ensures Marked(sb, now, c) {
      TruncatedMarks(sb, fs, now, x, c);
    }
  }

  // Setting the size to zero.
  lemma TruncationDone(sb: Super, fs: Volume, now: Volume, x: nat)
    requires Midway(sb, fs, now, x, IND + 1, IND + 1, NINDIRECT) && SameSizes(fs, now)
    ensures Truncated(sb, fs, Volume(now.blocks, now.inodes[x := WithSize(now.inodes[x], 0)]), x)
  {
    var next := Volume(now.blocks, now.inodes[x := WithSize(now.inodes[x], 0)]);
    assert forall c :: 0 <= c < sb.size ==> Marked(sb, next, c) == Marked(sb, now, c);
    MidwayDone(sb, fs, next, x);
  }

  /** Truncation frees everything the file owned exactly when the file has no
      doubly-indirect block. */
  lemma TruncationFreesAllIff(sb: Super, fs: Volume, fs': Volume, x: nat)
    requires Truncated(sb, fs, fs', x)
    ensures (forall s :: IsSlot(s) && Ref(fs, x, s) != 0 ==> Ref(fs, x, s) < sb.size && !Marked(sb, fs', Ref(fs, x, s)))
      <==> fs.inodes[x].addrs[DBL] == 0
  {
    assert Ref(fs, x, Root(DBL)) == fs.inodes[x].addrs[DBL] && IsSlot(Root(DBL)) && !Singly(Root(DBL));
    if fs.inodes[x].addrs[DBL] == 0 {
      forall s | IsSlot(s) && Ref(fs, x, s) != 0
        ensures Ref(fs, x, s) < sb.size && !Marked(sb, fs', Ref(fs, x, s))
      {
        assert OwnedOk(sb, fs, x, s);
      }
    } else {
      assert OwnedOk(sb, fs, x, Root(DBL));
      StillOwned(sb, fs, x, IND + 1, NINDIRECT, x, Root(DBL));
    }
  }
}

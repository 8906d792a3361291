/** Disk blocks as fs.c reads them: as bytes, as little-endian 32-bit words (the
    entries of an indirect block) and as bits (the free map). */
module FsData {
  import opened CTypes

  const BSIZE: nat := 512
  const NINDIRECT: nat := 128   // BSIZE / sizeof(uint)
  const BPB: nat := 4096        // BSIZE * 8

  type Block = b: seq<byte> | |b| == BSIZE witness seq(BSIZE, _ => 0)

  function Zeroes(): Block { seq(BSIZE, _ => 0) }

  // ---- words ----

  function Word(b: Block, i: nat): (w: nat)
    requires i < NINDIRECT
    ensures w < UINT
  {
    (b[4 * i] as int) + 0x100 * (b[4 * i + 1] as int) + 0x1_0000 * (b[4 * i + 2] as int) +
    0x100_0000 * (b[4 * i + 3] as int)
  }

  function WithWord(b: Block, i: nat, w: nat): Block
    requires i < NINDIRECT && w < UINT
  {
    b[4 * i := w % 0x100][4 * i + 1 := w / 0x100 % 0x100]
     [4 * i + 2 := w / 0x1_0000 % 0x100][4 * i + 3 := w / 0x100_0000]
  }

  // a[i] = w stores w at i and leaves every other entry as it was.
  lemma WordOfWithWord(b: Block, i: nat, w: nat, j: nat)
    requires i < NINDIRECT && w < UINT && j < NINDIRECT
    ensures Word(WithWord(b, i, w), j) == if i == j then w else Word(b, j)
  {
    if i == j {
      Split(w);
    }
  }

  lemma Split(w: nat)
    ensures w % 0x100 + 0x100 * (w / 0x100 % 0x100) + 0x1_0000 * (w / 0x1_0000 % 0x100) +
            0x100_0000 * (w / 0x100_0000) == w
  {
    assert w == 0x100 * (w / 0x100) + w % 0x100;
    assert w / 0x100 == 0x100 * (w / 0x1_0000) + w / 0x100 % 0x100;
    assert w / 0x1_0000 == 0x100 * (w / 0x100_0000) + w / 0x1_0000 % 0x100;
  }

  lemma ZeroWord(i: nat)
    requires i < NINDIRECT
    ensures Word(Zeroes(), i) == 0
  {
  }

  // ---- bits ----

  // x & (1 << k) is not zero
  predicate BitSet(x: nat, k: nat) {
    if k == 0 then x % 2 == 1 else BitSet(x / 2, k - 1)
  }

  // x | (1 << k)
  function SetBit(x: nat, k: nat): nat {
    if k == 0 then (if x % 2 == 1 then x else x + 1) else 2 * SetBit(x / 2, k - 1) + x % 2
  }

  // x & ~(1 << k)
  function ClearBit(x: nat, k: nat): nat {
    if k == 0 then (if x % 2 == 1 then x - 1 else x) else 2 * ClearBit(x / 2, k - 1) + x % 2
  }

  lemma {:induction false} BitOfSetBit(x: nat, k: nat, j: nat)
    ensures BitSet(SetBit(x, k), j) <==> j == k || BitSet(x, j)
  {
    if k > 0 && j > 0 { BitOfSetBit(x / 2, k - 1, j - 1); }
  }

  lemma {:induction false} BitOfClearBit(x: nat, k: nat, j: nat)
    ensures BitSet(ClearBit(x, k), j) <==> j != k && BitSet(x, j)
  {
    if k > 0 && j > 0 { BitOfClearBit(x / 2, k - 1, j - 1); }
  }

  function Pow2(n: nat): nat {
    if n == 0 then 1 else 2 * Pow2(n - 1)
  }

  lemma {:induction false} BitsStayInRange(x: nat, k: nat, n: nat)
    requires x < Pow2(n) && k < n
    ensures SetBit(x, k) < Pow2(n) && ClearBit(x, k) < Pow2(n)
  {
    var half := Pow2(n - 1);
    assert Pow2(n) == 2 * half && x / 2 < half;
    if k > 0 {
      BitsStayInRange(x / 2, k - 1, n - 1);
      assert SetBit(x, k) == 2 * SetBit(x / 2, k - 1) + x % 2;
      assert ClearBit(x, k) == 2 * ClearBit(x / 2, k - 1) + x % 2;
    }
  }

  lemma BytesStayBytes(x: byte, k: nat)
    requires k < 8
    ensures SetBit(x, k) < 256 && ClearBit(x, k) < 256
  {
    assert Pow2(8) == 256 by { assert Pow2(4) == 16; assert Pow2(6) == 64; }
    BitsStayInRange(x, k, 8);
  }

  // Bit i of a block of the free map.
  predicate Bit(b: Block, i: nat)
    requires i < BPB
  {
    BitSet(b[i / 8], i % 8)
  }

  function WithBit(b: Block, i: nat, on: bool): Block
    requires i < BPB
  {
    BytesStayBytes(b[i / 8], i % 8);
    b[i / 8 := if on then SetBit(b[i / 8], i % 8) else ClearBit(b[i / 8], i % 8)]
  }

  lemma BitOfWithBit(b: Block, i: nat, on: bool, j: nat)
    requires i < BPB && j < BPB
    ensures Bit(WithBit(b, i, on), j) == if i == j then on else Bit(b, j)
  {
    BitOfSetBit(b[i / 8], i % 8, j % 8);
    BitOfClearBit(b[i / 8], i % 8, j % 8);
    assert i / 8 == j / 8 && i % 8 == j % 8 ==> i == j;
  }
}

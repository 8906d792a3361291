/** Extent files of fs.c: an inode whose 13 addresses are runs of blocks, each packed
    in a word as a 24-bit address and an 8-bit length, against a plain list of blocks. */
module Extent {
  import opened CTypes
  import opened FsData
  import opened Fs

  const ADDRS24: nat := 0x100_0000   // addresses that fit an entry

  // ---- packing ----

  // GEN_ADDRESS: address << 8 | length, in 32 bits
  function Pack(address: nat, length: nat): (e: nat)
    requires length < 256
  {
    (address * 256 + length) % UINT
  }

  // EXT_LENGTH
  function Length(e: nat): nat {
    e % 256
  }

  // EXT_ADDRESS
  function Address(e: nat): nat {
    e / 256
  }

  // The length always survives packing, the address exactly when it has 24 bits.
  lemma PackRoundTripIff(address: nat, length: nat)
    requires length < 256
    ensures Length(Pack(address, length)) == length && Address(Pack(address, length)) == address % ADDRS24
    ensures Address(Pack(address, length)) == address <==> address < ADDRS24
  {
    var low := address % ADDRS24 * 256 + length;
    LowPart(address * 256 + length, address / ADDRS24, low);
    assert low / 256 == address % ADDRS24 && low % 256 == length;
  }

  lemma LowPart(x: nat, high: nat, low: nat)
    requires x == UINT * high + low && low < UINT
    ensures x % UINT == low
  {
  }

  lemma UnpackRoundTrip(e: nat)
    requires e < UINT
    ensures Pack(Address(e), Length(e)) == e
  {
  }

  // ---- the list an inode stands for ----

  function Blocks(e: nat): (bs: seq<nat>)
    ensures |bs| == Length(e)
  {
    seq(Length(e), k => Address(e) + k)
  }

  function Flat(es: seq<nat>): seq<nat> {
    if |es| == 0 then [] else Flat(es[..|es| - 1]) + Blocks(es[|es| - 1])
  }

  // The number of entries in use.
  function Count(es: seq<nat>): (n: nat)
    ensures n <= |es|
    ensures forall i :: 0 <= i < n ==> es[i] != 0
    ensures n < |es| ==> es[n] == 0
  {
    if |es| == 0 || es[0] == 0 then 0 else
      var n := 1 + Count(es[1..]);
      assert forall i :: 0 < i < n ==> es[i] == es[1..][i - 1];
      n
  }

  /** The blocks of the file, in order. */
  function Decode(addrs: seq<nat>): seq<nat> {
    Flat(addrs[..Count(addrs)])
  }

  // Entries in use come first and are not empty runs.
  ghost predicate Packed(addrs: seq<nat>) {
    && |addrs| == NADDRS
    && (forall i :: 0 <= i < NADDRS ==> addrs[i] < UINT)
    && (forall i :: 0 <= i < Count(addrs) ==> Length(addrs[i]) > 0)
    && (forall i :: Count(addrs) <= i < NADDRS ==> addrs[i] == 0)
  }

  function NoEntries(): seq<nat> {
    seq(NADDRS, _ => 0)
  }

  // A file with no entry has no size, and the last entry is never used.
  ghost predicate Sound(size: nat, addrs: seq<nat>) {
    Packed(addrs) && (Count(addrs) == 0 ==> size == 0) && addrs[NADDRS - 1] == 0
  }

  lemma CountIs(es: seq<nat>, n: nat)
    requires n <= |es| && (forall i :: 0 <= i < n ==> es[i] != 0) && (n < |es| ==> es[n] == 0)
    ensures Count(es) == n
  {
  }

  lemma {:induction false} FlatPrefix(es: seq<nat>, i: nat)
    requires i <= |es|
    ensures |Flat(es[..i])| <= |Flat(es)| && Flat(es)[..|Flat(es[..i])|] == Flat(es[..i])
  {
    if i == |es| {
      assert es[..i] == es;
    } else {
      FlatPrefix(es[..|es| - 1], i);
      assert es[..|es| - 1][..i] == es[..i];
    }
  }

  // ---- bmap ----

  datatype Result = Found(block: nat) | Added(block: nat) | Panic

  // A new block nb continues entry e.
  predicate Continues(e: nat, nb: nat) {
    nb == Address(e) + Length(e) && Length(e) < 0xff
  }

  class ExtentInode {
    var size: nat          // stored just before addrs
    var addrs: seq<nat>

    // An inode that ialloc has just handed out.
    constructor ()
      ensures addrs == NoEntries() && size == 0 && Sound(size, addrs)
    {
      addrs, size := NoEntries(), 0;
      CountIs(NoEntries(), 0);
    }

    // The loop of bmap: the block if the runs reach bn, or else where the search ended.
    method Search(bn: nat) returns (found: bool, block: nat, i: nat)
      requires Packed(addrs)
      ensures found <==> bn < |Decode(addrs)|
      ensures found ==> block == Decode(addrs)[bn]
      ensures !found ==> i < NADDRS && i == if Count(addrs) <= NDIRECT then Count(addrs) else NDIRECT + 1
    {
      var currentLength := 0;
      i := 0;
      ghost var n := Count(addrs);
      while addrs[i] != 0
        invariant 0 <= i < NADDRS && i <= n == Count(addrs)
        invariant currentLength == |Flat(addrs[..i])| <= bn
        decreases NADDRS - i
      {
        var length := Length(addrs[i]);
        NextRun(addrs, i, bn);
        if currentLength <= bn < currentLength + length {
          return true, Address(addrs[i]) + bn - currentLength, i;
        }
        currentLength := currentLength + length;
        if i > NDIRECT {
          assert n == NADDRS && addrs[..n] == addrs[..i + 1];
          return false, 0, i;
        }
        i := i + 1;
      }
      return false, 0, i;
    }

    // bmap on an extent file; nb is what balloc returns if it is called.
    method Bmap(bn: nat, nb: nat) returns (r: Result)
      requires Packed(addrs) && nb < UINT
      modifies this
      ensures bn < |Decode(old(addrs))| ==>
        r == Found(Decode(old(addrs))[bn]) && addrs == old(addrs) && size == old(size)
      ensures bn >= |Decode(old(addrs))| && Count(old(addrs)) > NDIRECT ==>
        r == Panic && addrs == old(addrs) && size == old(size)
      ensures bn >= |Decode(old(addrs))| && Count(old(addrs)) <= NDIRECT ==>
        r == Added(nb) && addrs == Appended(old(size), old(addrs), nb) && size == SizeAfter(old(size), old(addrs), nb)
    {
      var found, block, i := Search(bn);
      if found {
        return Found(block);
      }
      if i > NDIRECT {
        return Panic;
      }
      Append(i, nb);
      return Added(nb);
    }

    // The end of bmap: entry i is the first free one.  At i == 0 the code looks at the
    // word before addrs.
    method Append(i: nat, nb: nat)
      requires i == Count(addrs) < |addrs|
      modifies this
      ensures addrs == Appended(old(size), old(addrs), nb) && size == SizeAfter(old(size), old(addrs), nb)
    {
      var last := if i == 0 then size else addrs[i - 1];
      if nb == Address(last) + Length(last) && Length(last) < 0xff {
        if i == 0 { size := size + 1; } else { addrs := addrs[i - 1 := addrs[i - 1] + 1]; }
      } else {
        addrs := addrs[i := Pack(nb, 1)];
      }
    }

    // The end of writei.
    method Resize(n: nat)
      modifies this
      ensures addrs == old(addrs) && size == if n > old(size) then n else old(size)
    {
      if n > size {
        size := n;
      }
    }
  }

  // Entry i holds the blocks that come after those of the entries before it.
  lemma NextRun(addrs: seq<nat>, i: nat, bn: nat)
    requires i < Count(addrs)
    ensures |Flat(addrs[..i + 1])| == |Flat(addrs[..i])| + Length(addrs[i]) <= |Decode(addrs)|
    ensures |Flat(addrs[..i])| <= bn < |Flat(addrs[..i + 1])| ==>
      Decode(addrs)[bn] == Address(addrs[i]) + (bn - |Flat(addrs[..i])|)
  {
    var used := addrs[..Count(addrs)];
    FlatPrefix(used, i + 1);
    assert used[..i + 1] == addrs[..i + 1] && addrs[..i + 1][..i] == addrs[..i];
    LastRun(addrs[..i + 1], bn);
    if bn < |Flat(addrs[..i + 1])| {
      assert Decode(addrs)[bn] == Decode(addrs)[..|Flat(addrs[..i + 1])|][bn];
    }
  }

  lemma LastRun(es: seq<nat>, bn: nat)
    requires |es| > 0
    ensures var before := |Flat(es[..|es| - 1])|; var e := es[|es| - 1];
      |Flat(es)| == before + Length(e) && (before <= bn < |Flat(es)| ==> Flat(es)[bn] == Address(e) + (bn - before))
  {
  }

  // The addresses after a block is added: the word before the first free entry is
  // extended if the block continues it, or else a new entry is opened.
  function Appended(size: nat, addrs: seq<nat>, nb: nat): seq<nat>
    requires Count(addrs) < |addrs|
  {
    var n := Count(addrs);
    if n == 0 && Continues(size, nb) then addrs
    else if n > 0 && Continues(addrs[n - 1], nb) then addrs[n - 1 := addrs[n - 1] + 1]
    else addrs[n := Pack(nb, 1)]
  }

  function SizeAfter(size: nat, addrs: seq<nat>, nb: nat): nat {
    if Count(addrs) == 0 && Continues(size, nb) then size + 1 else size
  }

  // ---- the list view ----

  // Whether the list grows by exactly the new block, decided before the call.
  predicate Representable(size: nat, addrs: seq<nat>, nb: nat) {
    var n := Count(addrs);
    if n == 0 then nb < ADDRS24 && !Continues(size, nb)
    else nb < ADDRS24 || Continues(addrs[n - 1], nb)
  }

  // e + 1 is the entry for one more block.
  lemma NextLength(e: nat)
    requires e < UINT && Length(e) < 0xff
    ensures Length(e + 1) == Length(e) + 1 && Address(e + 1) == Address(e) && e + 1 < UINT
  {
  }

  // Extending the last run.
  lemma MergeAppends(addrs: seq<nat>, nb: nat, after: seq<nat>)
    requires Packed(addrs) && 0 < Count(addrs) && Continues(addrs[Count(addrs) - 1], nb)
    requires after == addrs[Count(addrs) - 1 := addrs[Count(addrs) - 1] + 1]
    ensures Packed(after) && Decode(after) == Decode(addrs) + [nb]
  {
    var n := Count(addrs);
    MergeKeepsPacked(addrs, after);
    assert after[..n][..n - 1] == addrs[..n][..n - 1];
    assert Flat(after[..n]) == Flat(addrs[..n][..n - 1]) + Blocks(after[n - 1]);
    LongerRun(addrs[n - 1], nb);
  }

  lemma LongerRun(e: nat, nb: nat)
    requires e < UINT && Continues(e, nb)
    ensures Blocks(e + 1) == Blocks(e) + [nb]
  {
    NextLength(e);
  }

  lemma MergeKeepsPacked(addrs: seq<nat>, after: seq<nat>)
    requires Packed(addrs) && 0 < Count(addrs) && Length(addrs[Count(addrs) - 1]) < 0xff
    requires after == addrs[Count(addrs) - 1 := addrs[Count(addrs) - 1] + 1]
    ensures Packed(after) && Count(after) == Count(addrs)
  {
    NextLength(addrs[Count(addrs) - 1]);
    CountIs(after, Count(addrs));
  }

  // Opening a run.
  lemma OpenAppends(addrs: seq<nat>, nb: nat, after: seq<nat>)
    requires Packed(addrs) && Count(addrs) <= NDIRECT && after == addrs[Count(addrs) := Pack(nb, 1)]
    ensures Packed(after) && Decode(after) == Decode(addrs) + [nb % ADDRS24]
  {
    var n := Count(addrs);
    var e := Pack(nb, 1);
    PackRoundTripIff(nb, 1);
    CountIs(after, n + 1);
    assert after[..n + 1][..n] == addrs[..n];
    assert Blocks(e) == [nb % ADDRS24];
  }

  lemma OpenIff(addrs: seq<nat>, nb: nat, after: seq<nat>)
    requires Packed(addrs) && Count(addrs) <= NDIRECT && after == addrs[Count(addrs) := Pack(nb, 1)]
    ensures Packed(after) && Decode(addrs) <= Decode(after)
    ensures Decode(after) == Decode(addrs) + [nb] <==> nb < ADDRS24
  {
    OpenAppends(addrs, nb, after);
    PackRoundTripIff(nb, 1);
    SameTail(Decode(addrs), nb % ADDRS24, nb);
  }

  /** The list grows by exactly the new block, every earlier translation preserved,
      if and only if the block is representable; entries stay well formed in any case. */
  lemma AppendIff(size: nat, addrs: seq<nat>, nb: nat, after: seq<nat>)
    requires Packed(addrs) && Count(addrs) <= NDIRECT && after == Appended(size, addrs, nb)
    ensures Packed(after) && Decode(addrs) <= Decode(after)
    ensures Decode(after) == Decode(addrs) + [nb] <==> Representable(size, addrs, nb)
  {
    var n := Count(addrs);
    if n > 0 && Continues(addrs[n - 1], nb) {
      MergeAppends(addrs, nb, after);
    } else if n == 0 && Continues(size, nb) {
      assert |Decode(addrs) + [nb]| != |Decode(addrs)|;
    } else {
      OpenIff(addrs, nb, after);
    }
  }

  lemma SameTail(s: seq<nat>, a: nat, b: nat)
    ensures s + [a] == s + [b] <==> a == b
  {
    assert (s + [a])[|s|] == a && (s + [b])[|s|] == b;
  }

  /** Asking again for block bn that was not there gives the block just added exactly
      when bn was the end of the list. */
  lemma SecondLookupIff(size: nat, addrs: seq<nat>, nb: nat, bn: nat)
    requires Packed(addrs) && Count(addrs) <= NDIRECT && bn >= |Decode(addrs)| && Representable(size, addrs, nb)
    ensures var again := Decode(Appended(size, addrs, nb));
      bn < |again| && again[bn] == nb <==> bn == |Decode(addrs)|
  {
    AppendIff(size, addrs, nb, Appended(size, addrs, nb));
  }

  // Block 1 of an empty file, asked for twice, is two different blocks.
  method AskedTwice() returns (first: Result, second: Result)
    ensures first == Added(100) && second == Added(200)
  {
    var ip := new ExtentInode();
    first := ip.Bmap(1, 100);
    AppendIff(0, NoEntries(), 100, ip.addrs);
    CountIs(ip.addrs, 1);
    second := ip.Bmap(1, 200);
  }

  /** From a sound inode, every block that balloc can give on a device of up to 2^24 blocks
      is appended to the list, and the inode stays sound: the size, the word before the
      entries, is never taken for one. */
  lemma SoundAppends(size: nat, addrs: seq<nat>, nb: nat, after: seq<nat>)
    requires Sound(size, addrs) && Count(addrs) <= NDIRECT && 0 < nb < ADDRS24 && after == Appended(size, addrs, nb)
    ensures Decode(after) == Decode(addrs) + [nb] && SizeAfter(size, addrs, nb) == size
    ensures Sound(size, after) && Count(after) > 0
  {
    AppendIff(size, addrs, nb, after);
    var n := Count(addrs);
    if n > 0 && Continues(addrs[n - 1], nb) {
      CountIs(after, n);
    } else {
      PackRoundTripIff(nb, 1);
      CountIs(after, n + 1);
    }
  }
}

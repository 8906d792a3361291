/** Truncating extent files, and runs of the calls on one: itrunc of fs.c takes the packed
    entries for block numbers. */
module ExtentRun {
  import opened FsData
  import opened Fs
  import opened Extent

  // ---- freeing blocks ----

  // The blocks of a device and where its free map starts.
  datatype Device = Device(blocks: seq<Block>, bmapstart: nat)

  // The bit that bfree finds for block b, in the free map or wherever the number leads.
  predicate Marked(dev: Device, b: nat) {
    dev.bmapstart + b / BPB < |dev.blocks| && Bit(dev.blocks[dev.bmapstart + b / BPB], b % BPB)
  }

  function Unmarked(dev: Device, b: nat): Device
    requires dev.bmapstart + b / BPB < |dev.blocks|
  {
    var p := dev.bmapstart + b / BPB;
    dev.(blocks := dev.blocks[p := WithBit(dev.blocks[p], b % BPB, false)])
  }

  // Unmarking a block changes its mark and no other.
  lemma MarkedAfter(dev: Device, b: nat, c: nat)
    requires dev.bmapstart + b / BPB < |dev.blocks|
    ensures Marked(Unmarked(dev, b), c) <==> Marked(dev, c) && c != b
  {
    if b / BPB == c / BPB {
      BitOfWithBit(dev.blocks[dev.bmapstart + b / BPB], b % BPB, false, c % BPB);
      assert b % BPB == c % BPB ==> b == c;
    }
  }

  // The device after blocks were freed, or a panic of bfree or of the disk.
  datatype Freed = Freed(dev: Device) | Stuck

  // bfree of w, unless it is zero.
  function FreeWord(r: Freed, w: nat): Freed {
    if w == 0 || r.Stuck? then r
    else if Marked(r.dev, w) then Freed(Unmarked(r.dev, w))
    else Stuck
  }

  function FreeAll(dev: Device, ws: seq<nat>): Freed {
    if ws == [] then Freed(dev) else FreeWord(FreeAll(dev, ws[..|ws| - 1]), ws[|ws| - 1])
  }

  // What was freed was marked, and nothing else changed its mark.
  lemma {:induction false} FreeAllMarks(dev: Device, ws: seq<nat>, c: nat)
    requires FreeAll(dev, ws).Freed?
    ensures Marked(FreeAll(dev, ws).dev, c) <==> Marked(dev, c) && (c == 0 || c !in ws)
    ensures c != 0 && c in ws ==> Marked(dev, c)
  {
    if ws != [] {
      var w, rest := ws[|ws| - 1], ws[..|ws| - 1];
      FreeAllMarks(dev, rest, c);
      if w != 0 { MarkedAfter(FreeAll(dev, rest).dev, w, c); }
      assert ws == rest + [w];
    }
  }

  // Once stuck, always stuck.
  lemma {:induction false} StaysStuck(dev: Device, ws: seq<nat>, i: nat)
    requires i <= |ws| && FreeAll(dev, ws[..i]).Stuck?
    ensures FreeAll(dev, ws).Stuck?
  {
    if i == |ws| {
      assert ws[..i] == ws;
    } else {
      assert ws[..|ws| - 1][..i] == ws[..i];
      StaysStuck(dev, ws[..|ws| - 1], i);
    }
  }

  lemma OneMore(dev: Device, ws: seq<nat>, i: nat)
    requires i < |ws|
    ensures FreeAll(dev, ws[..i + 1]) == FreeWord(FreeAll(dev, ws[..i]), ws[i])
  {
    assert ws[..i + 1][..i] == ws[..i];
  }

  // bfree
  method Bfree(dev: Device, b: nat) returns (r: Freed)
    ensures r == if Marked(dev, b) then Freed(Unmarked(dev, b)) else Stuck
  {
    var p := dev.bmapstart + b / BPB;
    if p >= |dev.blocks| {
      return Stuck;
    }
    if !Bit(dev.blocks[p], b % BPB) {
      return Stuck;
    }
    return Freed(Unmarked(dev, b));
  }

  // ---- itrunc ----

  function Words(b: Block): (ws: seq<nat>)
    ensures |ws| == NINDIRECT
  {
    seq(NINDIRECT, j requires 0 <= j < NINDIRECT => Word(b, j))
  }

  // What itrunc frees once the first entries are freed: entry NDIRECT is taken for the
  // number of an indirect block.
  function Indirect(dev: Device, w: nat): Freed {
    if w == 0 then Freed(dev)
    else if w >= |dev.blocks| then Stuck
    else FreeAll(dev, Words(dev.blocks[w]) + [w])
  }

  function Truncated(dev: Device, addrs: seq<nat>): Freed
    requires |addrs| == NADDRS
  {
    var r := FreeAll(dev, addrs[..NDIRECT]);
    if r.Stuck? then Stuck else Indirect(r.dev, addrs[NDIRECT])
  }

  // itrunc's loop over the first entries.
  method FreeEntries(ip: ExtentInode, dev: Device) returns (r: Freed)
    requires |ip.addrs| == NADDRS
    modifies ip
    ensures r == FreeAll(dev, old(ip.addrs)[..NDIRECT]) && |ip.addrs| == NADDRS && ip.size == old(ip.size)
    ensures r.Freed? ==> forall k :: 0 <= k < NADDRS ==> ip.addrs[k] == if k < NDIRECT then 0 else old(ip.addrs)[k]
  {
    r := Freed(dev);
    ghost var addrs := ip.addrs;
    var i := 0;
    while i < NDIRECT
      invariant 0 <= i <= NDIRECT && |ip.addrs| == NADDRS && ip.size == old(ip.size)
      invariant r.Freed? && r == FreeAll(dev, addrs[..i])
      invariant forall k :: 0 <= k < NADDRS ==> ip.addrs[k] == if k < i then 0 else addrs[k]
    {
      OneMore(dev, addrs, i);
      if ip.addrs[i] != 0 {
        r := Bfree(r.dev, ip.addrs[i]);
        if r.Stuck? {
          assert addrs[..NDIRECT][..i + 1] == addrs[..i + 1];
          StaysStuck(dev, addrs[..NDIRECT], i + 1);
          return;
        }
        ip.addrs := ip.addrs[i := 0];
      }
      i := i + 1;
    }
  }

  // itrunc's loop over an indirect block.
  method FreeIndirect(dev: Device, a: Block) returns (r: Freed)
    ensures r == FreeAll(dev, Words(a))
  {
    r := Freed(dev);
    ghost var ws := Words(a);
    var j := 0;
    while j < NINDIRECT
      invariant 0 <= j <= NINDIRECT && r.Freed? && r == FreeAll(dev, ws[..j])
    {
      OneMore(dev, ws, j);
      if Word(a, j) != 0 {
        r := Bfree(r.dev, Word(a, j));
        if r.Stuck? {
          StaysStuck(dev, ws, j + 1);
          return;
        }
      }
      j := j + 1;
    }
    assert ws[..j] == ws;
  }

  /** itrunc on an extent file: bfree of every packed entry and, through the last one it
      looks at, of whatever words that block holds; then the inode is empty. */
  method Itrunc(ip: ExtentInode, dev: Device) returns (r: Freed)
    requires Sound(ip.size, ip.addrs)
    modifies ip
    ensures r == Truncated(dev, old(ip.addrs))
    ensures r.Freed? ==> ip.addrs == NoEntries() && ip.size == 0 && Sound(ip.size, ip.addrs)
  {
    r := FreeEntries(ip, dev);
    if r.Stuck? {
      return;
    }
    if ip.addrs[NDIRECT] != 0 {
      var w := ip.addrs[NDIRECT];
      if w >= |r.dev.blocks| {
        return Stuck;
      }
      ghost var ws := Words(r.dev.blocks[w]);
      assert (ws + [w])[..|ws|] == ws;
      r := FreeIndirect(r.dev, r.dev.blocks[w]);
      if r.Stuck? {
        return;
      }
      r := Bfree(r.dev, w);
      if r.Stuck? {
        return;
      }
      ip.addrs := ip.addrs[NDIRECT := 0];
    }
    ip.size := 0;
    assert ip.addrs == NoEntries();
    CountIs(NoEntries(), 0);
  }

  // ---- what it frees ----

  // Every entry was marked, and is not afterwards.
  lemma EntryFreed(dev: Device, addrs: seq<nat>, i: nat)
    requires |addrs| == NADDRS && i <= NDIRECT && addrs[i] != 0 && Truncated(dev, addrs).Freed?
    ensures Marked(dev, addrs[i]) && !Marked(Truncated(dev, addrs).dev, addrs[i])
  {
    var w, first := addrs[i], addrs[..NDIRECT];
    var d := FreeAll(dev, first).dev;
    FreeAllMarks(dev, first, w);
    assert i < NDIRECT ==> first[i] == w;
    if addrs[NDIRECT] != 0 {
      FreeAllMarks(d, Words(d.blocks[addrs[NDIRECT]]) + [addrs[NDIRECT]], w);
    }
  }

  // The run that ends highest.
  lemma {:induction false} HighestRun(es: seq<nat>) returns (i: nat)
    requires es != []
    ensures i < |es| && forall c :: c in Flat(es) ==> c < Address(es[i]) + Length(es[i])
  {
    var m := |es| - 1;
    if m == 0 {
      i := 0;
      assert es[..0] == [];
    } else {
      i := HighestRun(es[..m]);
      if Address(es[i]) + Length(es[i]) < Address(es[m]) + Length(es[m]) {
        i := m;
      }
    }
  }

  /** itrunc unmarks exactly the blocks of the file if and only if the file has none. */
  lemma TruncationFreesFileIff(dev: Device, size: nat, addrs: seq<nat>)
    requires Sound(size, addrs) && Truncated(dev, addrs).Freed?
    ensures (forall c: nat :: Marked(Truncated(dev, addrs).dev, c) <==> Marked(dev, c) && c !in Decode(addrs))
            <==> Decode(addrs) == []
  {
    var used := addrs[..Count(addrs)];
    if used == [] {
      NothingToFree(dev, addrs[..NDIRECT]);
    } else {
      FlatPrefix(used, 1);
      assert used[..1][..0] == [];
      var i := HighestRun(used);
      EntryFreed(dev, addrs, i);
      assert addrs[i] !in Decode(addrs);
    }
  }

  lemma {:induction false} NothingToFree(dev: Device, ws: seq<nat>)
    requires forall i :: 0 <= i < |ws| ==> ws[i] == 0
    ensures FreeAll(dev, ws) == Freed(dev)
  {
    if ws != [] {
      NothingToFree(dev, ws[..|ws| - 1]);
    }
  }

  // A device of 250000 blocks whose free map starts at block 58, with block 700 marked.
  function Disk700(): Device {
    Device(seq(250000, _ => Zeroes())[58 := Zeroes()[87 := 16]], 58)
  }

  /** An extent file of block 700 only: the entry is 700 * 256 + 1 = 179201, which is a free
      block, and itrunc panics. */
  method UnlinkPanics() returns (r: Freed)
    ensures Marked(Disk700(), 700) && !Marked(Disk700(), 179201) && r.Stuck?
  {
    var ip := new ExtentInode();
    var first := ip.Bmap(0, 700);
    SoundAppends(0, NoEntries(), 700, ip.addrs);
    CountIs(NoEntries(), 0);
    assert ip.addrs[0] == 179201;
    Mark700();
    var dev := Disk700();
    ghost var addrs := ip.addrs;
    r := Itrunc(ip, dev);
    if r.Freed? { EntryFreed(dev, addrs, 0); }
  }

  lemma Mark700()
    ensures Marked(Disk700(), 700) && !Marked(Disk700(), 179201)
  {
    assert 700 / BPB == 0 && 700 % BPB == 700 && 700 / 8 == 87 && 700 % 8 == 4;
    assert 179201 / BPB == 43;
    assert BitSet(16, 4) && !BitSet(0, 179201 % BPB % 8);
  }

  // ---- runs ----

  // bmap with the block that balloc would give; the end of a write; itrunc on the device
  // as it then is.
  datatype Event = Map(bn: nat, nb: nat) | Grow(size: nat) | Trunc(dev: Device)

  // balloc gives blocks of a device, never block 0; writei sets the size straight after a
  // bmap call.
  ghost predicate WellFormed(events: seq<Event>) {
    forall i :: 0 <= i < |events| ==> EventOk(events, i)
  }

  predicate EventOk(events: seq<Event>, i: nat)
    requires i < |events|
  {
    match events[i]
    case Map(_, nb) => 0 < nb < ADDRS24
    case Grow(_) => i > 0 && events[i - 1].Map?
    case Trunc(_) => true
  }

  // The same events on a plain list.
  function Replay(blocks: seq<nat>, events: seq<Event>): seq<nat> {
    if |events| == 0 then blocks else
      var before := Replay(blocks, events[..|events| - 1]);
      match events[|events| - 1]
      case Map(bn, nb) => if bn < |before| then before else before + [nb]
      case Grow(_) => before
      case Trunc(_) => []
  }

  function Answer(blocks: seq<nat>, bn: nat, nb: nat): Result {
    if bn < |blocks| then Found(blocks[bn]) else Added(nb)
  }

  ghost predicate AnswerOk(blocks: seq<nat>, events: seq<Event>, i: nat, r: Result)
    requires i < |events|
  {
    events[i].Map? ==> r == Answer(Replay(blocks, events[..i]), events[i].bn, events[i].nb)
  }

  // One event on the inode.
  method Do(ip: ExtentInode, e: Event, ghost mapped: bool) returns (r: Result)
    requires Sound(ip.size, ip.addrs) && (mapped ==> Count(ip.addrs) > 0)
    requires (e.Map? ==> 0 < e.nb < ADDRS24) && (e.Grow? ==> mapped)
    modifies ip
    ensures r == Panic <==> Stops(old(ip.addrs), e)
    ensures r != Panic ==> Sound(ip.size, ip.addrs) && (e.Map? ==> Count(ip.addrs) > 0)
    ensures r != Panic ==> Decode(ip.addrs) == Replay(old(Decode(ip.addrs)), [e])
    ensures r != Panic && e.Map? ==> r == Answer(old(Decode(ip.addrs)), e.bn, e.nb)
  {
    assert [e][..0] == [];
    match e
    case Map(bn, nb) =>
      r := ip.Bmap(bn, nb);
      if r.Added? {
        SoundAppends(old(ip.size), old(ip.addrs), nb, ip.addrs);
      }
    case Grow(n) =>
      ip.Resize(n);
      r := Found(0);
    case Trunc(dev) =>
      var after := Itrunc(ip, dev);
      r := if after.Stuck? then Panic else Found(0);
  }

  // The code panics: bmap past the list with twelve entries in use, or itrunc in bfree.
  ghost predicate Stops(addrs: seq<nat>, e: Event)
    requires |addrs| == NADDRS
  {
    match e
    case Map(bn, _) => bn >= |Decode(addrs)| && Count(addrs) > NDIRECT
    case Grow(_) => false
    case Trunc(dev) => Truncated(dev, addrs).Stuck?
  }

  /** Any sequence of events on a sound inode, stopped by the first panic.  The entries
      stand for the plain list, every lookup is answered from it, the panic comes exactly
      with twelve entries in use or in a bfree of itrunc, and the size is never taken for an
      entry. */
  method Execute(ip: ExtentInode, events: seq<Event>) returns (n: nat, outs: seq<Result>, ghost last: seq<nat>)
    requires Sound(ip.size, ip.addrs) && WellFormed(events)
    modifies ip
    ensures n == |outs| <= |events| && |last| == NADDRS
    ensures Decode(last) == Replay(Decode(old(ip.addrs)), events[..n])
    ensures forall i :: 0 <= i < n ==> AnswerOk(Decode(old(ip.addrs)), events, i, outs[i])
    ensures n < |events| ==> Stops(last, events[n])
    ensures n == |events| ==> Sound(ip.size, ip.addrs) && last == ip.addrs
  {
    n, outs := 0, [];
    ghost var blocks := Decode(ip.addrs);
    while n < |events|
      invariant 0 <= n == |outs| <= |events| && Sound(ip.size, ip.addrs)
      invariant n > 0 && events[n - 1].Map? ==> Count(ip.addrs) > 0
      invariant Decode(ip.addrs) == Replay(blocks, events[..n])
      invariant forall i :: 0 <= i < n ==> AnswerOk(blocks, events, i, outs[i])
    {
      assert EventOk(events, n);
      last := ip.addrs;
      var r := Do(ip, events[n], n > 0 && events[n - 1].Map?);
      if r == Panic {
        return;
      }
      assert events[..n + 1][..n] == events[..n];
      assert AnswerOk(blocks, events, n, r);
      n, outs := n + 1, outs + [r];
    }
    last := ip.addrs;
  }
}

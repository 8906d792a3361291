/** The user heap of umalloc.c: the circular, address-ordered, coalescing free
    list of Kernighan and Ritchie, section 8.7.

    Addresses count header-sized units.  `ptr` and `size` are the two header
    fields of every unit, `base` is the static list head below the heap.  sbrk
    is a parameter: it answers a request for nu units with the first address of
    fresh memory, or with FAIL. */
module Heap {
  import opened CTypes

  const BASE: int := 0
  const NULL: int := -1
  const FAIL: int := -1
  const UNIT: nat := 8             // sizeof(Header)
  const MINUNITS: nat := 4096      // morecore's smallest request
  const INT: nat := 0x8000_0000

  // A run of units.
  datatype Run = Run(addr: int, size: int) {
    predicate Has(u: int) { addr <= u < addr + size }
  }

  // Run a ends before run b starts, with a gap between them.
  predicate Below(a: Run, b: Run) {
    a.addr + a.size < b.addr
  }

  // ---- free lists as values ----

  // The free blocks once around the circle, from the base: addresses ascend, no
  // block touches the next, and only the base is empty.
  ghost predicate Sorted(fl: seq<Run>) {
    && |fl| >= 1 && fl[0] == Run(BASE, 0)
    && (forall i :: 1 <= i < |fl| ==> fl[i].size >= 1)
    && (forall i, j {:trigger Below(fl[i], fl[j])} :: 0 <= i < j < |fl| ==> Below(fl[i], fl[j]))
  }

  // Unit u lies in free block i; in live block a.
  ghost predicate FreeAt(fl: seq<Run>, i: int, u: int) {
    0 <= i < |fl| && fl[i].Has(u)
  }

  ghost predicate LiveAt(live: map<int, int>, a: int, u: int) {
    a in live && a <= u < a + live[a]
  }

  ghost predicate InFree(fl: seq<Run>, u: int) {
    exists i :: FreeAt(fl, i, u)
  }

  ghost predicate InLive(live: map<int, int>, u: int) {
    exists a :: LiveAt(live, a, u)
  }

  // Live blocks overlap neither each other nor a free block.
  ghost predicate Apart(fl: seq<Run>, live: map<int, int>) {
    && (forall a :: a in live ==> a > BASE && live[a] >= 1)
    && (forall a, u :: LiveAt(live, a, u) ==> !InFree(fl, u))
    && (forall a, b, u :: LiveAt(live, a, u) && LiveAt(live, b, u) ==> a == b)
  }

  // Free and live blocks together are exactly the memory got from sbrk.
  ghost predicate Tiles(fl: seq<Run>, live: map<int, int>, arena: set<int>) {
    forall u :: u in arena <==> InFree(fl, u) || InLive(live, u)
  }

  ghost predicate Sound(fl: seq<Run>, live: map<int, int>, arena: set<int>) {
    Sorted(fl) && Apart(fl, live) && Tiles(fl, live, arena)
  }

  // Replace the blocks x..y by one.
  function Splice(fl: seq<Run>, x: nat, y: nat, m: Run): seq<Run>
    requires x <= y <= |fl|
  {
    fl[..x] + [m] + fl[y..]
  }

  // The same, index by index.
  ghost predicate Spliced(fl: seq<Run>, x: nat, y: nat, m: Run, fl': seq<Run>) {
    && x <= y <= |fl| && |fl'| == x + 1 + |fl| - y
    && (forall i :: 0 <= i < x ==> fl'[i] == fl[i])
    && fl'[x] == m
    && (forall i :: x < i < |fl'| ==> fl'[i] == fl[i - x - 1 + y])
  }

  lemma SpliceIs(fl: seq<Run>, x: nat, y: nat, m: Run)
    requires x <= y <= |fl|
    ensures Spliced(fl, x, y, m, Splice(fl, x, y, m))
  {
  }

  lemma SplicedSorted(fl: seq<Run>, x: nat, y: nat, m: Run, fl': seq<Run>)
    requires Sorted(fl) && Spliced(fl, x, y, m, fl') && 1 <= x && m.size >= 1
    requires fl[x - 1].addr + fl[x - 1].size < m.addr && (y < |fl| ==> m.addr + m.size < fl[y].addr)
    ensures Sorted(fl')
  {
    forall i, j | 0 <= i < j < |fl'| ensures Below(fl'[i], fl'[j]) {
      var i', j' := if i < x then i else i - x - 1 + y, if j < x then j else j - x - 1 + y;
      if i != x && j != x {
        assert Below(fl[i'], fl[j']);
      } else if j == x {
        assert i == x - 1 || Below(fl[i], fl[x - 1]);
      } else {
        assert j' == y || Below(fl[y], fl[j']);
      }
    }
  }

  lemma SplicedUnits(fl: seq<Run>, x: nat, y: nat, m: Run, bp: Run, fl': seq<Run>, u: int)
    requires Spliced(fl, x, y, m, fl')
    requires m.Has(u) ==> InFree(fl, u) || bp.Has(u)
    requires bp.Has(u) ==> m.Has(u)
    requires forall i :: x <= i < y && FreeAt(fl, i, u) ==> m.Has(u)
    ensures InFree(fl', u) <==> InFree(fl, u) || bp.Has(u)
  {
    if InFree(fl, u) {
      var i :| FreeAt(fl, i, u);
      assert FreeAt(fl', if i < x then i else if i < y then x else i - y + x + 1, u);
    }
    if bp.Has(u) { assert FreeAt(fl', x, u); }
    if InFree(fl', u) {
      var i :| FreeAt(fl', i, u);
      if i != x { assert FreeAt(fl, if i < x then i else i - x - 1 + y, u); }
    }
  }

  // The free block after which an address belongs.
  ghost predicate Place(fl: seq<Run>, a: int, k: nat) {
    k < |fl| && fl[k].addr < a && (k + 1 < |fl| ==> a < fl[k + 1].addr)
  }

  lemma {:induction false} PlaceExists(fl: seq<Run>, a: int) returns (k: nat)
    requires |fl| >= 1 && fl[0].addr < a && forall i :: 0 <= i < |fl| ==> fl[i].addr != a
    ensures Place(fl, a, k)
  {
    if fl[|fl| - 1].addr < a {
      k := |fl| - 1;
    } else {
      k := PlaceExists(fl[..|fl| - 1], a);
    }
  }

  // The list after freeing bp, whose place is k: bp is merged with the block
  // above it, the block below it, both or neither.
  function Freed(fl: seq<Run>, k: nat, bp: Run): seq<Run>
    requires k < |fl|
  {
    var up := k + 1 < |fl| && bp.addr + bp.size == fl[k + 1].addr;
    var down := fl[k].addr + fl[k].size == bp.addr;
    var lo := if down then fl[k].addr else bp.addr;
    var hi := if up then fl[k + 1].addr + fl[k + 1].size else bp.addr + bp.size;
    Splice(fl, if down then k else k + 1, if up then k + 2 else k + 1, Run(lo, hi - lo))
  }

  // The same, index by index.
  ghost predicate FreedTo(fl: seq<Run>, k: nat, bp: Run, fl': seq<Run>)
    requires k < |fl|
  {
    var up := k + 1 < |fl| && bp.addr + bp.size == fl[k + 1].addr;
    var down := fl[k].addr + fl[k].size == bp.addr;
    var lo := if down then fl[k].addr else bp.addr;
    var hi := if up then fl[k + 1].addr + fl[k + 1].size else bp.addr + bp.size;
    Spliced(fl, if down then k else k + 1, if up then k + 2 else k + 1, Run(lo, hi - lo), fl')
  }

  lemma FreedIs(fl: seq<Run>, k: nat, bp: Run)
    requires k < |fl|
    ensures FreedTo(fl, k, bp, Freed(fl, k, bp))
  {
    var up := k + 1 < |fl| && bp.addr + bp.size == fl[k + 1].addr;
    var down := fl[k].addr + fl[k].size == bp.addr;
    var lo := if down then fl[k].addr else bp.addr;
    var hi := if up then fl[k + 1].addr + fl[k + 1].size else bp.addr + bp.size;
    SpliceIs(fl, if down then k else k + 1, if up then k + 2 else k + 1, Run(lo, hi - lo));
  }

  // A live block lies between the free blocks around its place.
  lemma PlaceGap(fl: seq<Run>, live: map<int, int>, arena: set<int>, bp: int, k: nat)
    requires Sound(fl, live, arena) && bp in live && Place(fl, bp, k)
    ensures fl[k].addr + fl[k].size <= bp && (k + 1 < |fl| ==> bp + live[bp] <= fl[k + 1].addr)
  {
    if fl[k].addr + fl[k].size > bp { assert LiveAt(live, bp, bp) && FreeAt(fl, k, bp); }
    if k + 1 < |fl| && bp + live[bp] > fl[k + 1].addr {
      assert LiveAt(live, bp, fl[k + 1].addr) && FreeAt(fl, k + 1, fl[k + 1].addr);
    }
  }

  lemma FreeKeepsSound(fl: seq<Run>, live: map<int, int>, arena: set<int>, bp: int, k: nat)
    requires Sound(fl, live, arena) && bp in live && Place(fl, bp, k)
    ensures Sound(Freed(fl, k, Run(bp, live[bp])), live - {bp}, arena)
  {
    var b := Run(bp, live[bp]);
    var fl', live' := Freed(fl, k, b), live - {bp};
    PlaceGap(fl, live, arena, bp, k);
    FreedIs(fl, k, b);
    assert Sorted(fl') by { FreedSorted(fl, k, b, fl'); }
    forall u ensures InFree(fl', u) <==> InFree(fl, u) || b.Has(u) { FreedUnits(fl, k, b, fl', u); }
    RemoveLive(live, bp);
    forall a, u | LiveAt(live', a, u) ensures LiveAt(live, a, u) && !b.Has(u) {
      assert LiveAt(live, a, u);
      assert b.Has(u) ==> LiveAt(live, bp, u);
    }
  }

  lemma RemoveLive(live: map<int, int>, bp: int)
    requires bp in live
    ensures forall u :: InLive(live, u) <==> InLive(live - {bp}, u) || Run(bp, live[bp]).Has(u)
  {
    var live' := live - {bp};
    forall u ensures InLive(live, u) <==> InLive(live', u) || Run(bp, live[bp]).Has(u) {
      if InLive(live, u) {
        var a :| LiveAt(live, a, u);
        assert a == bp || LiveAt(live', a, u);
      }
      if InLive(live', u) {
        var a :| LiveAt(live', a, u);
        assert LiveAt(live, a, u);
      }
      if Run(bp, live[bp]).Has(u) { assert LiveAt(live, bp, u); }
    }
  }

  lemma FreedSorted(fl: seq<Run>, k: nat, b: Run, fl': seq<Run>)
    requires Sorted(fl) && Place(fl, b.addr, k) && b.size >= 1 && FreedTo(fl, k, b, fl')
    requires fl[k].addr + fl[k].size <= b.addr && (k + 1 < |fl| ==> b.addr + b.size <= fl[k + 1].addr)
    ensures Sorted(fl')
  {
    var up := k + 1 < |fl| && b.addr + b.size == fl[k + 1].addr;
    var down := fl[k].addr + fl[k].size == b.addr;
    var lo := if down then fl[k].addr else b.addr;
    var hi := if up then fl[k + 1].addr + fl[k + 1].size else b.addr + b.size;
    var x, y := if down then k else k + 1, if up then k + 2 else k + 1;
    assert fl[x - 1].addr + fl[x - 1].size < lo && lo < hi by {
      if down { assert k > 0; assert Below(fl[k - 1], fl[k]); }
    }
    assert y < |fl| ==> hi < fl[y].addr by {
      if up && y < |fl| { assert Below(fl[k + 1], fl[k + 2]); }
    }
    SplicedSorted(fl, x, y, Run(lo, hi - lo), fl');
  }

  lemma FreedUnits(fl: seq<Run>, k: nat, b: Run, fl': seq<Run>, u: int)
    requires Sorted(fl) && Place(fl, b.addr, k) && b.size >= 1 && FreedTo(fl, k, b, fl')
    requires fl[k].addr + fl[k].size <= b.addr && (k + 1 < |fl| ==> b.addr + b.size <= fl[k + 1].addr)
    ensures InFree(fl', u) <==> InFree(fl, u) || b.Has(u)
  {
    var up := k + 1 < |fl| && b.addr + b.size == fl[k + 1].addr;
    var down := fl[k].addr + fl[k].size == b.addr;
    var lo := if down then fl[k].addr else b.addr;
    var hi := if up then fl[k + 1].addr + fl[k + 1].size else b.addr + b.size;
    var x, y, m := if down then k else k + 1, if up then k + 2 else k + 1, Run(lo, hi - lo);
    if m.Has(u) && !b.Has(u) {
      assert FreeAt(fl, if u < b.addr then k else k + 1, u);
    }
    SplicedUnits(fl, x, y, m, b, fl', u);
  }

  // ---- allocating ----

  // The list after taking the last n units of block j.
  function Taken(fl: seq<Run>, j: nat, n: int): seq<Run>
    requires j < |fl|
  {
    if fl[j].size == n then fl[..j] + fl[j + 1..] else fl[j := Run(fl[j].addr, fl[j].size - n)]
  }

  lemma TakenUnits(fl: seq<Run>, j: nat, n: int, u: int)
    requires Sorted(fl) && 1 <= j < |fl| && 1 <= n <= fl[j].size
    ensures InFree(Taken(fl, j, n), u) <==> InFree(fl, u) && !Run(fl[j].addr + fl[j].size - n, n).Has(u)
  {
    var fl' := Taken(fl, j, n);
    if InFree(fl, u) && !Run(fl[j].addr + fl[j].size - n, n).Has(u) {
      var i :| FreeAt(fl, i, u);
      assert FreeAt(fl', if i > j && fl[j].size == n then i - 1 else i, u);
    }
    if InFree(fl', u) {
      var i :| FreeAt(fl', i, u);
      var i' := if i >= j && fl[j].size == n then i + 1 else i;
      assert FreeAt(fl, i', u);
      assert i' < j ==> Below(fl[i'], fl[j]);
      assert j < i' ==> Below(fl[j], fl[i']);
    }
  }

  lemma TakeKeepsSound(fl: seq<Run>, live: map<int, int>, arena: set<int>, j: nat, n: int)
    requires Sound(fl, live, arena) && 1 <= j < |fl| && 1 <= n <= fl[j].size
    ensures var r := fl[j].addr + fl[j].size - n;
            r !in live && Sound(Taken(fl, j, n), live[r := n], arena)
  {
    var r := fl[j].addr + fl[j].size - n;
    assert FreeAt(fl, j, r) && Below(fl[0], fl[j]);
    assert r in live ==> LiveAt(live, r, r);
    var live' := live[r := n];
    forall u ensures InFree(Taken(fl, j, n), u) <==> InFree(fl, u) && !Run(r, n).Has(u) { TakenUnits(fl, j, n, u); }
    forall u | Run(r, n).Has(u) ensures InFree(fl, u) { assert FreeAt(fl, j, u); }
    AddLive(live, r, n);
    forall a, u | LiveAt(live', a, u) ensures !InFree(Taken(fl, j, n), u) {
      if a != r { assert LiveAt(live, a, u); }
    }
    forall a, b, u | LiveAt(live', a, u) && LiveAt(live', b, u) ensures a == b {
      assert a == r || LiveAt(live, a, u);
      assert b == r || LiveAt(live, b, u);
    }
    TakenSorted(fl, j, n);
  }

  lemma TakenSorted(fl: seq<Run>, j: nat, n: int)
    requires Sorted(fl) && 1 <= j < |fl| && 1 <= n <= fl[j].size
    ensures Sorted(Taken(fl, j, n))
  {
    var fl' := Taken(fl, j, n);
    forall a, b | 0 <= a < b < |fl'| ensures Below(fl'[a], fl'[b]) {
      var gone := if fl[j].size == n then 1 else 0;
      var a', b' := if a < j then a else a + gone, if b < j then b else b + gone;
      assert Below(fl[a'], fl[b']);
    }
  }

  lemma AddLive(live: map<int, int>, r: int, n: int)
    requires r !in live
    ensures forall u :: InLive(live[r := n], u) <==> InLive(live, u) || Run(r, n).Has(u)
  {
    var live' := live[r := n];
    forall u ensures InLive(live', u) <==> InLive(live, u) || Run(r, n).Has(u) {
      if InLive(live, u) {
        var a :| LiveAt(live, a, u);
        assert LiveAt(live', a, u);
      }
      if InLive(live', u) {
        var a :| LiveAt(live', a, u);
        assert a == r || LiveAt(live, a, u);
      }
      if Run(r, n).Has(u) { assert LiveAt(live', r, u); }
    }
  }

  function Units(p: int, n: int): set<int> {
    set u | p <= u < p + n && Run(p, n).Has(u)
  }

  // Fresh memory from sbrk enters the heap as a live block.
  lemma GrowKeepsSound(fl: seq<Run>, live: map<int, int>, arena: set<int>, p: int, n: int)
    requires Sound(fl, live, arena) && p > BASE && n >= 1
    requires Units(p, n) !! arena
    ensures p !in live && Sound(fl, live[p := n], arena + Units(p, n))
  {
    assert p in Units(p, n);
    assert p in live ==> LiveAt(live, p, p);
    assert p !in live;
    AddLive(live, p, n);
    var live' := live[p := n];
    forall a, u | LiveAt(live', a, u) ensures !InFree(fl, u) {
      if a == p { assert u in Units(p, n); } else { assert LiveAt(live, a, u); }
    }
    forall a, b, u | LiveAt(live', a, u) && LiveAt(live', b, u) ensures a == b {
      if a == p || b == p { assert u in Units(p, n); }
      assert a == p || LiveAt(live, a, u);
      assert b == p || LiveAt(live, b, u);
    }
  }

  // ---- the list in memory ----

  function Succ(fl: seq<Run>, i: nat): int
    requires i < |fl|
  {
    if i + 1 < |fl| then fl[i + 1].addr else fl[0].addr
  }

  // The headers hold the list: following ptr visits the blocks of fl in order
  // and comes back to the first.
  ghost predicate Linked(fl: seq<Run>, ptr: map<int, int>, size: map<int, int>) {
    forall i :: 0 <= i < |fl| ==>
      && fl[i].addr in ptr && ptr[fl[i].addr] == Succ(fl, i)
      && fl[i].addr in size && size[fl[i].addr] == fl[i].size
  }

  ghost predicate LiveHeaders(live: map<int, int>, size: map<int, int>) {
    forall a :: a in live ==> a in size && size[a] == live[a]
  }

  ghost predicate BigEnough(fl: seq<Run>, n: int) {
    exists i :: 0 <= i < |fl| && fl[i].size >= n
  }

  // What free writes: the headers of bp and of the block below it.
  ghost predicate HeadersAfterFree(fl: seq<Run>, ptr: map<int, int>, size: map<int, int>, k: nat, b: Run,
                                   ptr': map<int, int>, size': map<int, int>)
    requires Linked(fl, ptr, size) && k < |fl|
  {
    var p := fl[k].addr;
    var nx := Succ(fl, k);
    var up := b.addr + b.size == nx;
    && (forall a :: a in ptr && a != b.addr && a != p ==> a in ptr' && ptr'[a] == ptr[a])
    && (forall a :: a in size && a != b.addr && a != p ==> a in size' && size'[a] == size[a])
    && nx in ptr && nx in size
    && var bsize := if up then b.size + size[nx] else b.size;
    var bnext := if up then ptr[nx] else nx;
    && b.addr in ptr' && p in ptr' && b.addr in size' && p in size'
    && if p + fl[k].size == b.addr
       then ptr'[p] == bnext && size'[p] == fl[k].size + bsize
       else ptr'[b.addr] == bnext && size'[b.addr] == bsize && ptr'[p] == b.addr && size'[p] == fl[k].size
  }

  lemma FreeDone(fl: seq<Run>, live: map<int, int>, arena: set<int>, ptr: map<int, int>, size: map<int, int>,
                 bp: int, k: nat, ptr': map<int, int>, size': map<int, int>) returns (fl': seq<Run>)
    requires Sound(fl, live, arena) && Linked(fl, ptr, size) && LiveHeaders(live, size)
    requires bp in live && Place(fl, bp, k)
    requires HeadersAfterFree(fl, ptr, size, k, Run(bp, live[bp]), ptr', size')
    ensures Sound(fl', live - {bp}, arena) && Linked(fl', ptr', size') && LiveHeaders(live - {bp}, size')
    ensures k < |fl'| && fl'[k].addr == fl[k].addr && BigEnough(fl', live[bp])
  {
    var b := Run(bp, live[bp]);
    PlaceGap(fl, live, arena, bp, k);
    forall a | a in live ensures a != fl[k].addr { LiveNotFree(fl, live, arena, a, k); }
    FreeKeepsSound(fl, live, arena, bp, k);
    FreedIs(fl, k, b);
    fl' := Freed(fl, k, b);
    LinkFreed(fl, ptr, size, k, b, fl', ptr', size');
  }

  lemma LinkFreed(fl: seq<Run>, ptr: map<int, int>, size: map<int, int>, k: nat, b: Run,
                  fl': seq<Run>, ptr': map<int, int>, size': map<int, int>)
    requires Sorted(fl) && Linked(fl, ptr, size) && Place(fl, b.addr, k) && b.size >= 1
    requires fl[k].addr + fl[k].size <= b.addr && (k + 1 < |fl| ==> b.addr + b.size <= fl[k + 1].addr)
    requires FreedTo(fl, k, b, fl')
    requires HeadersAfterFree(fl, ptr, size, k, b, ptr', size')
    ensures Linked(fl', ptr', size')
    ensures BigEnough(fl', b.size)
  {
    OtherHeaders(fl, k, b.addr);
    var up := k + 1 < |fl| && b.addr + b.size == fl[k + 1].addr;
    assert k > 0 ==> Below(fl[0], fl[k]);
    assert up <==> b.addr + b.size == Succ(fl, k);
    assert up ==> ptr[fl[k + 1].addr] == Succ(fl, k + 1);
    var y, hi := if up then k + 2 else k + 1, if up then fl[k + 1].addr + fl[k + 1].size else b.addr + b.size;
    if fl[k].addr + fl[k].size == b.addr {
      assert fl'[k].size >= b.size;
      LinkSpliced(fl, ptr, size, k, y, Run(fl[k].addr, hi - fl[k].addr), fl', ptr', size');
    } else {
      assert fl'[k + 1].size >= b.size;
      LinkSpliced(fl, ptr, size, k + 1, y, Run(b.addr, hi - b.addr), fl', ptr', size');
    }
  }

  // No other free block has the header address of bp or of the block below it.
  lemma OtherHeaders(fl: seq<Run>, k: nat, bp: int)
    requires Sorted(fl) && Place(fl, bp, k)
    ensures forall i :: 0 <= i < |fl| && i != k ==> fl[i].addr != bp && fl[i].addr != fl[k].addr
  {
    forall i | 0 <= i < |fl| && i != k ensures fl[i].addr != bp && fl[i].addr != fl[k].addr {
      if i < k {
        assert Below(fl[i], fl[k]);
      } else if i > k + 1 {
        assert Below(fl[k + 1], fl[i]);
      }
    }
  }

  lemma LinkSpliced(fl: seq<Run>, ptr: map<int, int>, size: map<int, int>, x: nat, y: nat, m: Run,
                    fl': seq<Run>, ptr': map<int, int>, size': map<int, int>)
    requires Linked(fl, ptr, size) && Spliced(fl, x, y, m, fl') && 0 < |fl|
    requires forall i :: 0 <= i < |fl| && (i < x - 1 || y <= i) ==>
               && fl[i].addr in ptr' && ptr'[fl[i].addr] == ptr[fl[i].addr]
               && fl[i].addr in size' && size'[fl[i].addr] == size[fl[i].addr]
    requires if x == 0 then m.addr == fl[0].addr else
             var a := fl[x - 1].addr;
             a in ptr' && ptr'[a] == m.addr && a in size' && size'[a] == fl[x - 1].size
    requires m.addr in ptr' && ptr'[m.addr] == (if y < |fl| then fl[y].addr else fl[0].addr)
    requires m.addr in size' && size'[m.addr] == m.size
    ensures Linked(fl', ptr', size')
  {
    forall i | 0 <= i < |fl'|
      ensures fl'[i].addr in ptr' && ptr'[fl'[i].addr] == Succ(fl', i)
      ensures fl'[i].addr in size' && size'[fl'[i].addr] == fl'[i].size
    {
      if x < i {
        SplicedSucc(fl, x, y, m, fl', i);
        var j := i - x - 1 + y;
        assert fl[j].addr in ptr && ptr[fl[j].addr] == Succ(fl, j);
      } else if i == x {
        assert i + 1 < |fl'| ==> fl'[i + 1] == fl[y];
      }
    }
  }

  // Behind the new block the list goes on as it did.
  lemma SplicedSucc(fl: seq<Run>, x: nat, y: nat, m: Run, fl': seq<Run>, i: nat)
    requires Spliced(fl, x, y, m, fl') && x < i < |fl'| && 0 < |fl| && (x == 0 ==> m.addr == fl[0].addr)
    ensures var j := i - x - 1 + y; y <= j < |fl| && fl'[i] == fl[j] && Succ(fl', i) == Succ(fl, j)
  {
    assert i + 1 < |fl'| ==> fl'[i + 1] == fl[i - x + y];
  }

  // Where the walk of free stands relative to the place it looks for.
  lemma WalkFacts(fl: seq<Run>, k: nat, place: nat, bp: int)
    requires Sorted(fl) && k < |fl| && Place(fl, bp, place)
    ensures k + 1 < |fl| ==> fl[k].addr < fl[k + 1].addr
    ensures fl[0].addr <= fl[k].addr
    ensures k < place ==> fl[k + 1].addr < bp
    ensures k > place ==> bp < fl[k].addr
  {
    assert k + 1 < |fl| ==> Below(fl[k], fl[k + 1]);
    assert k > 0 ==> Below(fl[0], fl[k]);
    if k + 1 < place { assert Below(fl[k + 1], fl[place]); }
    if k > place + 1 { assert Below(fl[place + 1], fl[k]); }
  }

  // A live header is not the header of a free block.
  lemma LiveNotFree(fl: seq<Run>, live: map<int, int>, arena: set<int>, a: int, k: nat)
    requires Sound(fl, live, arena) && a in live && k < |fl|
    ensures a != fl[k].addr
  {
    assert LiveAt(live, a, a);
    if k > 0 { assert FreeAt(fl, k, fl[k].addr); }
  }

  // Memory from sbrk, taken as a live block with its header.
  lemma Grown(fl: seq<Run>, live: map<int, int>, arena: set<int>, ptr: map<int, int>, size: map<int, int>, p: int,
              n: int)
    requires Sound(fl, live, arena) && Linked(fl, ptr, size) && LiveHeaders(live, size)
    requires p > BASE && n >= 1 && Units(p, n) !! arena
    ensures p !in live && Sound(fl, live[p := n], arena + Units(p, n))
    ensures Linked(fl, ptr, size[p := n]) && LiveHeaders(live[p := n], size[p := n])
  {
    GrowKeepsSound(fl, live, arena, p, n);
    forall i | 0 <= i < |fl| ensures fl[i].addr != p {
      LiveNotFree(fl, live[p := n], arena + Units(p, n), p, i);
    }
  }

  lemma SameHeader(fl: seq<Run>, i: nat, j: nat)
    requires Sorted(fl) && i < |fl| && j < |fl| && fl[i].addr == fl[j].addr
    ensures i == j
  {
    assert i < j ==> Below(fl[i], fl[j]);
    assert j < i ==> Below(fl[j], fl[i]);
  }

  // Distinct free blocks have distinct headers.
  lemma HeadersDiffer(fl: seq<Run>, j: nat)
    requires Sorted(fl) && j < |fl|
    ensures forall i :: 0 <= i < |fl| && i != j ==> Below(fl[i], fl[j]) || Below(fl[j], fl[i])
    ensures forall i :: 0 <= i < |fl| && i != j ==> fl[i].addr != fl[j].addr
  {
  }

  lemma RemovedIs(fl: seq<Run>, j: nat)
    requires 1 <= j < |fl|
    ensures Spliced(fl, j - 1, j + 1, fl[j - 1], fl[..j] + fl[j + 1..])
  {
  }

  lemma LinkRemoved(fl: seq<Run>, ptr: map<int, int>, size: map<int, int>, j: nat, fl': seq<Run>)
    requires Sorted(fl) && Linked(fl, ptr, size) && 1 <= j < |fl| && Spliced(fl, j - 1, j + 1, fl[j - 1], fl')
    ensures Linked(fl', ptr[fl[j - 1].addr := ptr[fl[j].addr]], size)
  {
    HeadersDiffer(fl, j - 1);
    var ptr' := ptr[fl[j - 1].addr := ptr[fl[j].addr]];
    assert forall i :: 0 <= i < |fl| && i != j - 1 ==> fl[i].addr in ptr' && ptr'[fl[i].addr] == ptr[fl[i].addr];
    assert ptr'[fl[j - 1].addr] == Succ(fl, j);
    LinkSpliced(fl, ptr, size, j - 1, j + 1, fl[j - 1], fl', ptr', size);
  }

  lemma LinkShrunk(fl: seq<Run>, ptr: map<int, int>, size: map<int, int>, j: nat, n: int)
    requires Sorted(fl) && Linked(fl, ptr, size) && 1 <= j < |fl| && 1 <= n < fl[j].size
    ensures Linked(fl[j := Run(fl[j].addr, fl[j].size - n)], ptr,
                   size[fl[j].addr := fl[j].size - n][fl[j].addr + fl[j].size - n := n])
  {
    HeadersDiffer(fl, j);
  }

  // The heap after malloc took the last n units of block j.
  lemma TakeDone(fl: seq<Run>, ptr: map<int, int>, size: map<int, int>, live: map<int, int>, arena: set<int>,
                 j: nat, n: int, ptr': map<int, int>, size': map<int, int>, r: int)
    returns (fl': seq<Run>, live': map<int, int>)
    requires Sound(fl, live, arena) && Linked(fl, ptr, size) && LiveHeaders(live, size)
    requires 1 <= j < |fl| && 1 <= n <= fl[j].size && r == fl[j].addr + fl[j].size - n
    requires if fl[j].size == n then ptr' == ptr[fl[j - 1].addr := ptr[fl[j].addr]] && size' == size
             else ptr' == ptr && size' == size[fl[j].addr := fl[j].size - n][r := n]
    ensures r !in live && live' == live[r := n] && r > BASE
    ensures Sound(fl', live', arena) && Linked(fl', ptr', size') && LiveHeaders(live', size')
    ensures j - 1 < |fl'| && fl'[j - 1].addr == fl[j - 1].addr
  {
    fl', live' := Taken(fl, j, n), live[r := n];
    TakeKeepsSound(fl, live, arena, j, n);
    assert r in live';
    forall a | a in live ensures a != r && a != fl[j].addr {
      assert FreeAt(fl, j, r) && FreeAt(fl, j, fl[j].addr) && LiveAt(live, a, a);
    }
    if fl[j].size == n {
      RemovedIs(fl, j);
      LinkRemoved(fl, ptr, size, j, fl');
    } else {
      LinkShrunk(fl, ptr, size, j, n);
    }
  }

  // ---- umalloc.c ----

  // The units malloc asks for; the addition is on 32-bit unsigned integers.
  function NUnits(nbytes: nat): nat {
    (nbytes + UNIT - 1) % UINT / UNIT + 1
  }

  // The units morecore asks sbrk for.
  function Request(nu: nat): nat {
    if nu < MINUNITS then MINUNITS else nu
  }

  // What is asked of sbrk: each answer is FAIL or the start of nu units above
  // the base that the heap does not hold yet.
  ghost predicate Fresh(sbrk: nat -> int, arena: set<int>) {
    forall nu: nat :: sbrk(nu) == FAIL || (sbrk(nu) > BASE && Units(sbrk(nu), nu) !! arena)
  }

  class Allocator {
    var freep: int
    var ptr: map<int, int>
    var size: map<int, int>
    ghost var fl: seq<Run>
    ghost var live: map<int, int>
    ghost var arena: set<int>

    /** Heap integrity: the list from freep is a circle through every free block
        once, in address order with one wrap and no two blocks adjacent; free and
        live blocks are disjoint and tile the memory got from sbrk. */
    ghost predicate Valid()
      reads this
    {
      if freep == NULL then fl == [] && live == map[] && arena == {}
      else
        && Sound(fl, live, arena) && Linked(fl, ptr, size) && LiveHeaders(live, size)
        && exists s :: 0 <= s < |fl| && fl[s].addr == freep
    }

    constructor ()
      ensures Valid() && live == map[] && arena == {}
    {
      freep, ptr, size := NULL, map[], map[];
      fl, live, arena := [], map[], {};
    }

    // The walk of free: find the free block after which bp belongs.
    method FindPlace(bp: int) returns (p: int, ghost k: nat)
      requires Valid() && bp in live
      ensures Place(fl, bp, k) && p == fl[k].addr
    {
      k :| 0 <= k < |fl| && fl[k].addr == freep;
      forall i | 0 <= i < |fl| ensures fl[i].addr != bp { LiveNotFree(fl, live, arena, bp, i); }
      ghost var place := PlaceExists(fl, bp);
      p := freep;
      while !(bp > p && bp < ptr[p])
        invariant k < |fl| && p == fl[k].addr && p in ptr && ptr[p] == Succ(fl, k)
        decreases if k <= place then place - k else place - k + |fl|
      {
        WalkFacts(fl, k, place, bp);
        if p >= ptr[p] && (bp > p || bp < ptr[p]) {
          break;
        }
        p := ptr[p];
        k := if k + 1 < |fl| then k + 1 else 0;
      }
      WalkFacts(fl, k, place, bp);
    }

    // The header writes of free, merging bp with its neighbours.
    method Coalesce(p: int, bp: int, ghost k: nat)
      requires Linked(fl, ptr, size) && k < |fl| && p == fl[k].addr
      requires bp in size && bp != p && bp != Succ(fl, k)
      modifies this`ptr, this`size
      ensures HeadersAfterFree(old(fl), old(ptr), old(size), k, Run(bp, old(size)[bp]), ptr, size)
    {
      assert Succ(fl, k) in ptr && Succ(fl, k) in size by { assert fl[if k + 1 < |fl| then k + 1 else 0].addr in ptr; }
      if bp + size[bp] == ptr[p] {
        size := size[bp := size[bp] + size[ptr[p]]];
        ptr := ptr[bp := ptr[ptr[p]]];
      } else {
        ptr := ptr[bp := ptr[p]];
      }
      if p + size[p] == bp {
        size := size[p := size[p] + size[bp]];
        ptr := ptr[p := ptr[bp]];
      } else {
        ptr := ptr[p := bp];
      }
    }

    // free of the block whose header is at bp.
    method Free(bp: int)
      requires Valid() && bp in live
      modifies this
      ensures Valid() && live == old(live) - {bp} && arena == old(arena)
      ensures freep != NULL && BigEnough(fl, old(live)[bp])
    {
      var p;
      ghost var k;
      p, k := FindPlace(bp);
      LiveNotFree(fl, live, arena, bp, k);
      LiveNotFree(fl, live, arena, bp, if k + 1 < |fl| then k + 1 else 0);
      assert k > 0 ==> Below(fl[0], fl[k]);
      Coalesce(p, bp, k);
      freep := p;
      fl := FreeDone(fl, live, arena, old(ptr), old(size), bp, k, ptr, size);
      live := live - {bp};
    }

    // Get more memory from sbrk and put it on the free list.
    method MoreCore(nunits: nat, sbrk: nat -> int) returns (p: int)
      requires Valid() && freep != NULL && Fresh(sbrk, arena)
      modifies this
      ensures Valid() && freep != NULL && live == old(live)
      ensures p == NULL ==> sbrk(Request(nunits)) == FAIL && arena == old(arena)
      ensures p != NULL ==>
                && p == freep && sbrk(Request(nunits)) != FAIL && BigEnough(fl, nunits)
                && arena == old(arena) + Units(sbrk(Request(nunits)), Request(nunits))
    {
      var nu := nunits;
      if nu < MINUNITS {
        nu := MINUNITS;
      }
      var hp := sbrk(nu);
      if hp == FAIL {
        return NULL;
      }
      AddCore(hp, nu);
      return freep;
    }

    // The end of morecore: the new memory gets a header and is freed.
    method AddCore(hp: int, nu: nat)
      requires Valid() && freep != NULL && hp > BASE && nu >= 1 && Units(hp, nu) !! arena
      modifies this
      ensures Valid() && freep != NULL && live == old(live) && arena == old(arena) + Units(hp, nu) && BigEnough(fl, nu)
    {
      Grown(fl, live, arena, ptr, size, hp, nu);
      size := size[hp := nu];
      live, arena := live[hp := nu], arena + Units(hp, nu);
      Free(hp);
      assert live == old(live);
    }

    // The header writes of malloc: unlink block p, or cut nunits off its end.
    method Cut(prevp: int, p: int, nunits: nat) returns (r: int)
      requires p in ptr && p in size && nunits <= size[p]
      modifies this`ptr, this`size
      ensures r == p + old(size)[p] - nunits
      ensures old(size)[p] == nunits ==> ptr == old(ptr)[prevp := old(ptr)[p]] && size == old(size)
      ensures old(size)[p] != nunits ==>
                ptr == old(ptr) && size == old(size)[p := old(size)[p] - nunits][r := nunits]
    {
      r := p;
      if size[p] == nunits {
        ptr := ptr[prevp := ptr[p]];
      } else {
        size := size[p := size[p] - nunits];
        r := r + size[p];
        size := size[r := nunits];
      }
    }

    // The end of malloc's search, at block j of the list.
    method Take(prevp: int, p: int, nunits: nat, ghost j: nat) returns (r: int)
      requires Valid() && freep != NULL && 1 <= nunits
      requires 1 <= j < |fl| && prevp == fl[j - 1].addr && p == fl[j].addr && nunits <= fl[j].size
      modifies this
      ensures Valid() && freep != NULL && arena == old(arena)
      ensures r !in old(live) && live == old(live)[r := nunits] && r > BASE
    {
      assert j - 1 > 0 ==> Below(fl[0], fl[j - 1]);
      r := Cut(prevp, p, nunits);
      freep := prevp;
      fl, live := TakeDone(fl, old(ptr), old(size), live, arena, j, nunits, ptr, size, r);
    }

    // One turn of malloc's search around the circle, starting after freep: the
    // first block that is large enough and the one before it, or NULL.
    method Search(nunits: nat, ghost s: nat) returns (prevp: int, p: int, ghost j: nat)
      requires Sorted(fl) && Linked(fl, ptr, size) && s < |fl| && fl[s].addr == freep && 1 <= nunits
      ensures p == NULL <==> !BigEnough(fl, nunits)
      ensures p != NULL ==> 1 <= j < |fl| && fl[j].addr == p && fl[j].size >= nunits && fl[j - 1].addr == prevp
    {
      ghost var i := s;
      prevp := freep;
      p := ptr[prevp];
      j := Next(fl, i);
      while true
        invariant 0 <= i < |fl| && fl[i].addr == prevp && j == Next(fl, i) && p == fl[j].addr
        invariant AllSmall(fl, s, j, nunits)
        decreases Ahead(s, j, |fl|)
      {
        if size[p] >= nunits {
          assert fl[j].size >= nunits && i == j - 1;
          assert Below(fl[0], fl[j]);
          return;
        }
        if p == freep {
          SameHeader(fl, j, s);
          PassedStep(fl, s, j, nunits);
          p := NULL;
          return;
        }
        PassedStep(fl, s, j, nunits);
        prevp, p := p, ptr[p];
        i, j := j, Next(fl, j);
      }
    }

    // malloc's loop: search, and get more memory if the search failed.
    method Allocate(nunits: nat, sbrk: nat -> int) returns (r: int)
      requires Valid() && freep != NULL && Fresh(sbrk, arena) && 1 <= nunits
      modifies this
      ensures Valid()
      ensures r == NULL ==>
                && !BigEnough(old(fl), nunits) && sbrk(Request(nunits)) == FAIL
                && live == old(live) && arena == old(arena)
      ensures r != NULL ==>
                && r - 1 !in old(live) && live == old(live)[r - 1 := nunits]
                && arena == if BigEnough(old(fl), nunits) then old(arena)
                            else old(arena) + Units(sbrk(Request(nunits)), Request(nunits))
    {
      ghost var grown := false;
      while true
        invariant Valid() && freep != NULL && live == old(live)
        invariant !grown ==> fl == old(fl) && arena == old(arena)
        invariant grown ==> BigEnough(fl, nunits) && !BigEnough(old(fl), nunits)
        invariant grown ==> arena == old(arena) + Units(sbrk(Request(nunits)), Request(nunits))
        decreases !grown
      {
        ghost var s :| 0 <= s < |fl| && fl[s].addr == freep;
        ghost var j;
        var prevp, p;
        prevp, p, j := Search(nunits, s);
        if p != NULL {
          p := Take(prevp, p, nunits, j);
          return p + 1;
        }
        p := MoreCore(nunits, sbrk);
        if p == NULL {
          return NULL;
        }
        grown := true;
      }
    }

    /** malloc.  The search ends: with a block of nunits units that was not in
        use, taken from the free list when some free block is large enough and
        from fresh memory otherwise; or with NULL when no free block is large
        enough and sbrk fails.  Not covered is a request that no free block can meet
        and whose size in bytes is not a positive int: it would ask sbrk for a negative
        amount. */
    method Malloc(nbytes: nat, sbrk: nat -> int) returns (r: int)
      requires Valid() && Fresh(sbrk, arena)
      requires nbytes < UINT && (NUnits(nbytes) * UNIT < INT || BigEnough(fl, NUnits(nbytes)))
      modifies this
      ensures Valid()
      ensures r == NULL ==>
                && !BigEnough(old(fl), NUnits(nbytes)) && sbrk(Request(NUnits(nbytes))) == FAIL
                && live == old(live) && arena == old(arena)
      ensures r != NULL ==>
                && r - 1 !in old(live) && live == old(live)[r - 1 := NUnits(nbytes)]
                && arena == if BigEnough(old(fl), NUnits(nbytes)) then old(arena)
                            else old(arena) + Units(sbrk(Request(NUnits(nbytes))), Request(NUnits(nbytes)))
    {
      var nunits := NUnits(nbytes);
      if freep == NULL {
        ptr := ptr[BASE := BASE];
        freep := BASE;
        size := size[BASE := 0];
        fl := [Run(BASE, 0)];
        assert fl[0].addr == freep;
      }
      assert BigEnough(fl, nunits) <==> BigEnough(old(fl), nunits);
      r := Allocate(nunits, sbrk);
    }
  }

  // Going once around the circle, by index.
  function Next(fl: seq<Run>, i: nat): nat
    requires i < |fl|
  {
    if i + 1 < |fl| then i + 1 else 0
  }

  // Index m lies behind a walk that started after index s and stands at index j.
  predicate Passed(s: nat, j: nat, m: int) {
    if j > s then s < m < j else m > s || m < j
  }

  // No block passed so far is large enough.
  ghost predicate AllSmall(fl: seq<Run>, s: nat, j: nat, n: nat) {
    forall m :: 0 <= m < |fl| && Passed(s, j, m) ==> fl[m].size < n
  }

  lemma PassedStep(fl: seq<Run>, s: nat, j: nat, n: nat)
    requires s < |fl| && j < |fl| && fl[j].size < n && AllSmall(fl, s, j, n)
    ensures j == s ==> !BigEnough(fl, n)
    ensures j != s ==> AllSmall(fl, s, Next(fl, j), n) && 0 <= Ahead(s, Next(fl, j), |fl|) < Ahead(s, j, |fl|)
  {
  }

  // Steps from index j to index s.
  function Ahead(s: nat, j: nat, n: nat): int {
    if j <= s then s - j else s - j + n
  }

  // The largest request gets one unit, its header, and no room at all.
  lemma LargestRequestHasNoRoom()
    ensures NUnits(0xFFFF_FFFF) == 1 && (NUnits(0xFFFF_FFFF) - 1) * UNIT < 0xFFFF_FFFF
  {
  }

  /** What malloc's arithmetic promises: the block it hands out has room for
      nbytes besides its header exactly when nbytes + 7 does not wrap around. */
  lemma RoomForRequestIff(nbytes: nat)
    requires nbytes < UINT
    ensures (NUnits(nbytes) - 1) * UNIT >= nbytes <==> nbytes <= UINT - UNIT
  {
    if nbytes <= UINT - UNIT {
      assert (nbytes + UNIT - 1) % UINT == nbytes + UNIT - 1;
    } else {
      assert (nbytes + UNIT - 1) % UINT == nbytes + UNIT - 1 - UINT;
    }
  }
}

/** The buffer cache of bio.c: bget's two searches and brelse's relinking, on the
    linked list of BufList and as functions on values. */
module Bio {
  import opened LogDisk
  import opened BufList

  const NOBODY: int := -1
  const NONE: int := -1     // no position in the list
  const PANIC: int := -1    // bget's panic in place of a buffer
  const DISKDEV: nat := 1   // the one device iderw accepts

  // holder is the call of bread that has the buffer locked.
  datatype Buf = Buf(dev: nat, blockno: nat, valid: bool, dirty: bool, refcnt: nat, holder: int, data: Block)

  // order lists the buffers from the most to the least recently released.
  datatype Cache = Cache(bufs: seq<Buf>, order: seq<nat>)

  ghost predicate WellFormed(c: Cache) {
    Complete(c.order, |c.bufs|)
  }

  predicate Caches(b: Buf, dev: nat, blockno: nat) {
    b.dev == dev && b.blockno == blockno
  }

  predicate Recyclable(b: Buf) {
    b.refcnt == 0 && !b.dirty
  }

  // The first position from i on whose buffer caches the block, or NONE.
  function FindFrom(c: Cache, dev: nat, blockno: nat, i: nat): int
    requires WellFormed(c) && i <= |c.order|
    decreases |c.order| - i
  {
    if i == |c.order| then NONE
    else if Caches(c.bufs[c.order[i]], dev, blockno) then i
    else FindFrom(c, dev, blockno, i + 1)
  }

  // The last position before k whose buffer can be recycled, or NONE.
  function VictimBefore(c: Cache, k: nat): int
    requires WellFormed(c) && k <= |c.order|
  {
    if k == 0 then NONE
    else if Recyclable(c.bufs[c.order[k - 1]]) then k - 1
    else VictimBefore(c, k - 1)
  }

  function Referenced(c: Cache, b: nat): Cache
    requires b < |c.bufs|
  {
    c.(bufs := c.bufs[b := c.bufs[b].(refcnt := c.bufs[b].refcnt + 1)])
  }

  function Recycled(c: Cache, b: nat, dev: nat, blockno: nat): Cache
    requires b < |c.bufs|
  {
    c.(bufs := c.bufs[b := c.bufs[b].(dev := dev, blockno := blockno, valid := false, dirty := false, refcnt := 1)])
  }

  // bget, up to acquiring the buffer's sleep-lock.
  function Got(c: Cache, dev: nat, blockno: nat): (Cache, int)
    requires WellFormed(c)
  {
    var i := FindFrom(c, dev, blockno, 0);
    FindRange(c, dev, blockno, 0);
    if i != NONE then (Referenced(c, c.order[i]), c.order[i])
    else
      var v := VictimBefore(c, |c.order|);
      VictimRange(c, |c.order|);
      if v == NONE then (c, PANIC) else (Recycled(c, c.order[v], dev, blockno), c.order[v])
  }

  function Position(order: seq<nat>, b: nat): (k: nat)
    requires b in order
    ensures k < |order| && order[k] == b
  {
    if order[0] == b then 0 else 1 + Position(order[1..], b)
  }

  // The part of brelse after releasesleep.
  function Dropped(c: Cache, b: nat): Cache
    requires b < |c.bufs| && b in c.order && c.bufs[b].refcnt > 0
  {
    var refcnt := c.bufs[b].refcnt - 1;
    Cache(c.bufs[b := c.bufs[b].(refcnt := refcnt)],
          if refcnt == 0 then ToFront(c.order, Position(c.order, b)) else c.order)
  }

  lemma {:induction false} FindRange(c: Cache, dev: nat, blockno: nat, i: nat)
    requires WellFormed(c) && i <= |c.order|
    ensures var f := FindFrom(c, dev, blockno, i);
            && (f == NONE || i <= f < |c.order|)
            && (f != NONE ==> Caches(c.bufs[c.order[f]], dev, blockno))
            && (forall j :: i <= j < (if f == NONE then |c.order| else f) ==> !Caches(c.bufs[c.order[j]], dev, blockno))
    decreases |c.order| - i
  {
    if i < |c.order| { FindRange(c, dev, blockno, i + 1); }
  }

  lemma {:induction false} VictimRange(c: Cache, k: nat)
    requires WellFormed(c) && k <= |c.order|
    ensures var v := VictimBefore(c, k);
            && (v == NONE || 0 <= v < k)
            && (v != NONE ==> Recyclable(c.bufs[c.order[v]]))
            && (forall j :: (if v == NONE then 0 else v + 1) <= j < k ==> !Recyclable(c.bufs[c.order[j]]))
  {
    if k > 0 { VictimRange(c, k - 1); }
  }

  // ---- bio.c ----

  class BufferCache {
    const n: nat
    const bufs: array<Buf>
    const next: array<nat>
    const prev: array<nat>
    ghost var order: seq<nat>

    // The links are a circle through the head and each of the n buffers once.
    ghost predicate Valid()
      reads this, bufs, next, prev
    {
      && bufs.Length == n && next.Length == n + 1 && prev.Length == n + 1 && next != prev
      && Complete(order, n) && Linked(next[..], prev[..], order, n)
    }

    ghost function Abs(): Cache
      reads this, bufs
    {
      Cache(bufs[..], order)
    }

    // binit
    constructor (n: nat, zero: Block)
      ensures Valid() && this.n == n && fresh(bufs) && fresh(next) && fresh(prev)
      ensures forall i :: 0 <= i < n ==> bufs[i] == Buf(0, 0, false, false, 0, NOBODY, zero)
      ensures order == seq(n, i => n - 1 - i)
    {
      this.n := n;
      bufs := new Buf[n](_ => Buf(0, 0, false, false, 0, NOBODY, zero));
      next := new nat[n + 1](_ => n);
      prev := new nat[n + 1](_ => n);
      order := [];
      new;
      for b := 0 to n
        modifies next, prev, this`order
        invariant forall i :: 0 <= i < n ==> bufs[i] == Buf(0, 0, false, false, 0, NOBODY, zero)
        invariant order == seq(b, i => b - 1 - i)
        invariant Linked(next[..], prev[..], order, n)
      {
        InsertFront(b);
      }
      forall b | 0 <= b < n ensures b in order { assert order[n - 1 - b] == b; }
    }

    // Link buffer b in behind the list head.
    method InsertFront(b: nat)
      requires next.Length == n + 1 && prev.Length == n + 1 && next != prev
      requires Linked(next[..], prev[..], order, n) && b < n && b !in order
      modifies next, prev, this`order
      ensures Linked(next[..], prev[..], order, n) && order == [b] + old(order)
    {
      assert next[..][Node(order, n, -1)] == Node(order, n, 0);
      next[b] := next[n];
      prev[b] := n;
      prev[next[n]] := b;
      next[n] := b;
      InsertKeeps(old(next[..]), old(prev[..]), order, n, b, next[..], prev[..]);
      order := [b] + order;
    }

    // bget's first loop, forward from the head.
    method Lookup(dev: nat, blockno: nat) returns (b: int)
      requires Valid()
      ensures var f := FindFrom(Abs(), dev, blockno, 0);
              if f == NONE then b == n else 0 <= f < n && b == order[f]
    {
      ghost var i := 0;
      assert next[..][Node(order, n, -1)] == Node(order, n, 0);
      b := next[n];
      while b != n
        invariant 0 <= i <= n && b == Node(order, n, i)
        invariant FindFrom(Abs(), dev, blockno, 0) == FindFrom(Abs(), dev, blockno, i)
        decreases n - i
      {
        if bufs[b].dev == dev && bufs[b].blockno == blockno {
          return;
        }
        assert next[..][Node(order, n, i)] == Node(order, n, i + 1);
        b := next[b];
        i := i + 1;
      }
    }

    // bget's second loop, backward from the head.
    method FindVictim() returns (b: int)
      requires Valid()
      ensures var v := VictimBefore(Abs(), n);
              if v == NONE then b == n else 0 <= v < n && b == order[v]
    {
      ghost var k := n;
      assert prev[..][Node(order, n, n)] == Node(order, n, n - 1);
      b := prev[n];
      while b != n
        invariant 0 <= k <= n && b == Node(order, n, k - 1)
        invariant VictimBefore(Abs(), n) == VictimBefore(Abs(), k)
        decreases k
      {
        if bufs[b].refcnt == 0 && !bufs[b].dirty {
          return;
        }
        assert prev[..][Node(order, n, k - 1)] == Node(order, n, k - 2);
        b := prev[b];
        k := k - 1;
      }
    }

    // bget, up to acquiring the buffer's sleep-lock.
    method Bget(dev: nat, blockno: nat) returns (b: int)
      requires Valid()
      modifies bufs
      ensures Valid() && order == old(order)
      ensures (Abs(), b) == Got(old(Abs()), dev, blockno)
    {
      b := Lookup(dev, blockno);
      if b != n {
        bufs[b] := bufs[b].(refcnt := bufs[b].refcnt + 1);
        return;
      }
      b := FindVictim();
      if b == n {
        return PANIC;
      }
      bufs[b] := bufs[b].(dev := dev, blockno := blockno, valid := false, dirty := false, refcnt := 1);
    }

    // brelse after releasesleep: drop a reference, and move the buffer to the
    // head of the list when it was the last.
    method Drop(b: nat)
      requires Valid() && b < n && bufs[b].refcnt > 0
      modifies bufs, next, prev, this`order
      ensures Valid() && Abs() == Dropped(old(Abs()), b)
    {
      bufs[b] := bufs[b].(refcnt := bufs[b].refcnt - 1);
      if bufs[b].refcnt == 0 {
        ghost var k := Position(order, b);
        ToFrontComplete(order, n, k);
        NotInWithout(order, n, k);
        Unlink(b, k);
        InsertFront(b);
      }
    }

    // Take buffer b out of the list.
    method Unlink(b: nat, ghost k: nat)
      requires next.Length == n + 1 && prev.Length == n + 1 && next != prev
      requires Linked(next[..], prev[..], order, n) && k < |order| && order[k] == b
      modifies next, prev, this`order
      ensures Linked(next[..], prev[..], order, n) && order == Without(old(order), k)
    {
      assert next[..][Node(order, n, k)] == Node(order, n, k + 1);
      assert prev[..][Node(order, n, k)] == Node(order, n, k - 1);
      prev[next[b]] := prev[b];
      next[prev[b]] := next[b];
      UnlinkKeeps(old(next[..]), old(prev[..]), order, n, k, next[..], prev[..]);
      order := Without(order, k);
    }
  }
}

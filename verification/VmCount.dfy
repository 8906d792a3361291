/** How many pages the page tables of an address space take.  walkpgdir takes one page
    for each directory entry that is missing, and nothing else of vm.c takes a page for
    a table. */
module VmCount {
  import opened VmState

  // How many of the entries a to b of a directory are missing.
  function Missing(dir: Page, a: nat, b: nat): (n: nat)
    requires b <= NPTENTRIES
    ensures a <= b ==> n <= b - a
  {
    if b <= a then 0 else Missing(dir, a, b - 1) + if Present(dir[b - 1]) then 0 else 1
  }

  lemma {:induction false} MissingIsCount(dir: Page, a: nat, b: nat)
    requires b <= NPTENTRIES
    ensures Missing(dir, a, b) == |set i: nat | a <= i < b && !Present(dir[i])|
    decreases b
  {
    var s := set i: nat | a <= i < b && !Present(dir[i]);
    if b <= a {
      assert s == {};
    } else {
      MissingIsCount(dir, a, b - 1);
      var rest := set i: nat | a <= i < b - 1 && !Present(dir[i]);
      assert s == if Present(dir[b - 1]) then rest else rest + {b - 1};
    }
  }

  lemma {:induction false} MissingSplit(dir: Page, a: nat, m: nat, b: nat)
    requires a <= m <= b <= NPTENTRIES
    ensures Missing(dir, a, b) == Missing(dir, a, m) + Missing(dir, m, b)
    decreases b
  {
    if m < b { MissingSplit(dir, a, m, b - 1); }
  }

  // All entries are missing, or none is.
  lemma {:induction false} MissingAll(dir: Page, a: nat, b: nat, all: bool)
    requires a <= b <= NPTENTRIES && forall i :: a <= i < b ==> (Present(dir[i]) <==> !all)
    ensures Missing(dir, a, b) == if all then b - a else 0
    decreases b
  {
    if a < b { MissingAll(dir, a, b - 1, all); }
  }

  lemma {:induction false} MissingSame(dir: Page, dir': Page, a: nat, b: nat)
    requires b <= NPTENTRIES && forall i :: a <= i < b ==> dir'[i] == dir[i]
    ensures Missing(dir', a, b) == Missing(dir, a, b)
    decreases b
  {
    if a < b { MissingSame(dir, dir', a, b - 1); }
  }

  // The directory entries of pages lo to p end here.
  function SlotEnd(lo: nat, p: nat): (r: nat)
    requires lo <= p
    ensures p <= VPAGES ==> r <= NPTENTRIES
  {
    if p == lo then lo / NPTENTRIES else (p - 1) / NPTENTRIES + 1
  }

  /** The page tables that pages lo to p need and dir does not have. */
  function TablesFor(dir: Page, lo: nat, p: nat): nat
    requires lo <= p <= VPAGES
  {
    Missing(dir, lo / NPTENTRIES, SlotEnd(lo, p))
  }

  // Directory entries of pages lo to p are present, and the others are as they were.
  ghost predicate Filled(dir0: Page, dir: Page, lo: nat, p: nat)
    requires lo <= p
  {
    forall i :: 0 <= i < NPTENTRIES ==>
      if lo / NPTENTRIES <= i < SlotEnd(lo, p) then Present(dir[i]) else dir[i] == dir0[i]
  }

  // Walks to the pages lo to p went from directory dir0 and n0 free pages to dir and n.
  ghost predicate Walked(n0: nat, dir0: Page, n: nat, dir: Page, lo: nat, p: nat) {
    lo <= p <= VPAGES && Filled(dir0, dir, lo, p) && n0 == n + TablesFor(dir0, lo, p)
  }

  lemma WalkedOne(n0: nat, dir0: Page, n: nat, dir: Page, p: nat)
    requires p < VPAGES && Present(dir[p / NPTENTRIES])
    requires forall i :: 0 <= i < NPTENTRIES && i != p / NPTENTRIES ==> dir[i] == dir0[i]
    requires n0 == n + if Present(dir0[p / NPTENTRIES]) then 0 else 1
    ensures Walked(n0, dir0, n, dir, p, p + 1)
  {
    var i := p / NPTENTRIES;
    assert Missing(dir0, i, i) == 0;
  }

  // What one page takes.
  lemma OneTable(dir: Page, p: nat)
    requires p < VPAGES
    ensures TablesFor(dir, p, p + 1) == if Present(dir[p / NPTENTRIES]) then 0 else 1
  {
    assert Missing(dir, p / NPTENTRIES, p / NPTENTRIES) == 0;
  }

  // One more page needs a table if the directory, with the tables made so far, lacks it.
  lemma TablesNext(dir0: Page, dir1: Page, lo: nat, p: nat)
    requires lo <= p < VPAGES && Filled(dir0, dir1, lo, p)
    ensures TablesFor(dir0, lo, p + 1) == TablesFor(dir0, lo, p) + TablesFor(dir1, p, p + 1)
  {
    OneTable(dir1, p);
    if lo == p {
      OneTable(dir0, p);
    } else {
      assert SlotEnd(lo, p) == p / NPTENTRIES || SlotEnd(lo, p) == p / NPTENTRIES + 1;
    }
  }

  lemma WalkedNext(n0: nat, dir0: Page, n1: nat, dir1: Page, n2: nat, dir2: Page, lo: nat, p: nat)
    requires Walked(n0, dir0, n1, dir1, lo, p) && p < VPAGES && Walked(n1, dir1, n2, dir2, p, p + 1)
    ensures Walked(n0, dir0, n2, dir2, lo, p + 1)
  {
    TablesNext(dir0, dir1, lo, p);
  }

  // Without a table for page to, the pages up to last need more tables than those before.
  lemma StuckShort(n0: nat, dir0: Page, n: nat, dir: Page, lo: nat, to: nat, last: nat)
    requires Walked(n0, dir0, n, dir, lo, to) && to <= last < VPAGES && !Present(dir[to / NPTENTRIES])
    ensures n0 - n < TablesFor(dir0, lo, last + 1)
  {
    var a, s, b := lo / NPTENTRIES, to / NPTENTRIES, SlotEnd(lo, last + 1);
    assert lo < to ==> SlotEnd(lo, to) <= s;
    assert dir0[s] == dir[s];
    MissingSplit(dir0, a, s, s + 1);
    MissingSplit(dir0, a, s + 1, b);
    if lo < to {
      MissingSplit(dir0, a, SlotEnd(lo, to), s);
    }
  }

  /** Pages lo to q, with their tables, take no more than pages lo to p. */
  lemma TablesGrow(dir: Page, lo: nat, q: nat, p: nat)
    requires lo <= q <= p <= VPAGES
    ensures TablesFor(dir, lo, q) <= TablesFor(dir, lo, p)
  {
    if lo < q {
      MissingSplit(dir, lo / NPTENTRIES, SlotEnd(lo, q), SlotEnd(lo, p));
    }
  }

  // ---- user pages with their tables ----

  /** What pages lo to p take: themselves, and the tables that dir does not have. */
  function AllocNeeds(dir: Page, lo: nat, p: nat): nat
    requires lo <= p <= VPAGES
  {
    p - lo + TablesFor(dir, lo, p)
  }

  // How far n free pages are from what pages p to h take.
  function Surplus(n: nat, dir: Page, p: nat, h: nat): int
    requires p <= h <= VPAGES
  {
    n - AllocNeeds(dir, p, h)
  }

  // With pages lo to p mapped, the free pages go as far as they did before.
  ghost predicate Taken(n0: nat, dir0: Page, n: nat, dir: Page, lo: nat, p: nat) {
    lo <= p && forall h :: p <= h <= VPAGES ==> Surplus(n, dir, p, h) == Surplus(n0, dir0, lo, h)
  }

  lemma TakenNone(n: nat, dir: Page, p: nat)
    ensures Taken(n, dir, n, dir, p, p)
  {
  }

  // Tables made for page p are not needed again.
  lemma TablesSplit(dir: Page, dir': Page, p: nat, h: nat)
    requires p < h <= VPAGES && Filled(dir, dir', p, p + 1)
    ensures TablesFor(dir, p, h) == TablesFor(dir, p, p + 1) + TablesFor(dir', p + 1, h)
  {
    var s, t, e := p / NPTENTRIES, (p + 1) / NPTENTRIES, SlotEnd(p, h);
    assert SlotEnd(p, p + 1) == s + 1;
    MissingSplit(dir, s, s + 1, e);
    if h > p + 1 {
      assert SlotEnd(p + 1, h) == e;
      MissingSame(dir, dir', s + 1, e);
      if t == s {
        MissingSplit(dir', s, s + 1, e);
        MissingAll(dir', s, s + 1, false);
      }
    }
  }

  lemma TakenNext(n0: nat, dir0: Page, n1: nat, dir1: Page, n2: nat, dir2: Page, lo: nat, p: nat)
    requires Taken(n0, dir0, n1, dir1, lo, p) && p < VPAGES && n1 > 0 && Walked(n1 - 1, dir1, n2, dir2, p, p + 1)
    ensures Taken(n0, dir0, n2, dir2, lo, p + 1)
  {
    forall h | p + 1 <= h <= VPAGES ensures Surplus(n2, dir2, p + 1, h) == Surplus(n0, dir0, lo, h) {
      assert Surplus(n1, dir1, p, h) == Surplus(n0, dir0, lo, h);
      TablesSplit(dir1, dir2, p, h);
    }
  }

  // Whether the pages left are enough for page p and its table.
  lemma EnoughForNext(n0: nat, dir0: Page, n1: nat, dir1: Page, lo: nat, p: nat)
    requires Taken(n0, dir0, n1, dir1, lo, p) && p < VPAGES
    ensures n1 < AllocNeeds(dir1, p, p + 1) <==> n0 < AllocNeeds(dir0, lo, p + 1)
  {
    assert Surplus(n1, dir1, p, p + 1) == Surplus(n0, dir0, lo, p + 1);
  }

  // ---- the kernel part of a new address space ----

  // A directory, 56 tables from KERNBASE on and 8 for the devices.
  const KVMPAGES: nat := 65

  // Past the directory entries of the first k rows of kmap, but for the devices.
  function KernelSlots(data: nat, k: nat): (r: nat)
    requires EXTPAGE < data < NPAGES && k <= 4
    ensures KDIR <= r <= KDIR + 56
  {
    if k == 0 then KDIR
    else if k == 1 then KDIR + 1
    else if k == 2 then KDIR + (data - 1) / NPTENTRIES + 1
    else KDIR + 56
  }

  // The directory has tables for the first k rows of kmap and no others.
  ghost predicate KernelDir(dir: Page, data: nat, k: nat)
    requires EXTPAGE < data < NPAGES && k <= 4
  {
    forall i :: 0 <= i < NPTENTRIES ==>
      (Present(dir[i]) <==> KDIR <= i < KernelSlots(data, k) || (k == 4 && 1016 <= i))
  }

  lemma NewKernelDir(data: nat)
    requires EXTPAGE < data < NPAGES
    ensures KernelDir(ZeroPage(), data, 0)
  {
  }

  // How many tables these are.
  function KernelTables(data: nat, k: nat): (n: nat)
    requires EXTPAGE < data < NPAGES && k <= 4
    ensures k == 4 ==> n == 64
    ensures n <= 64
  {
    KernelSlots(data, k) - KDIR + if k == 4 then 8 else 0
  }

  // What row k of kmap takes.
  lemma RowTables(dir: Page, data: nat, k: nat)
    requires EXTPAGE < data < NPAGES && k < 4 && KernelDir(dir, data, k)
    ensures var row := Kmap(data, k);
      TablesFor(dir, row.virt, row.virt + row.n) == KernelTables(data, k + 1) - KernelTables(data, k)
  {
    var row := Kmap(data, k);
    var a, b := row.virt / NPTENTRIES, SlotEnd(row.virt, row.virt + row.n);
    if k == 3 {
      MissingAll(dir, a, b, true);
    } else {
      var m := KernelSlots(data, k);
      assert a <= m <= b == KernelSlots(data, k + 1);
      MissingSplit(dir, a, m, b);
      MissingAll(dir, a, m, false);
      MissingAll(dir, m, b, true);
    }
  }

  lemma RowDir(dir0: Page, dir: Page, data: nat, k: nat)
    requires EXTPAGE < data < NPAGES && k < 4 && KernelDir(dir0, data, k)
    requires Filled(dir0, dir, Kmap(data, k).virt, Kmap(data, k).virt + Kmap(data, k).n)
    ensures KernelDir(dir, data, k + 1)
  {
    var row := Kmap(data, k);
    var a, b := row.virt / NPTENTRIES, SlotEnd(row.virt, row.virt + row.n);
    assert k < 3 ==> KDIR <= a <= KernelSlots(data, k) <= b == KernelSlots(data, k + 1);
    assert k == 3 ==> a == 1016 && b == NPTENTRIES;
  }

  // Row k of kmap was mapped, or memory ran out.
  lemma RowCount(n0: nat, dir0: Page, n: nat, dir: Page, data: nat, k: nat, ok: bool)
    requires EXTPAGE < data < NPAGES && k < 4 && KernelDir(dir0, data, k)
    requires ok ==> Walked(n0, dir0, n, dir, Kmap(data, k).virt, Kmap(data, k).virt + Kmap(data, k).n)
    requires !ok ==> n0 < TablesFor(dir0, Kmap(data, k).virt, Kmap(data, k).virt + Kmap(data, k).n)
    ensures ok ==> KernelDir(dir, data, k + 1) && n0 + KernelTables(data, k) == n + KernelTables(data, k + 1)
    ensures !ok ==> n0 + KernelTables(data, k) < KernelTables(data, k + 1)
  {
    RowTables(dir0, data, k);
    if ok { RowDir(dir0, dir, data, k); }
  }
}

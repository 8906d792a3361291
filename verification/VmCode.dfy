/** The code of kalloc.c and vm.c: the free list of pages, and the page tables of
    address spaces, proved against module VmState. */
module VmCode {
  import opened VmState
  import opened VmCount

  const PGSIZE: nat := 4096
  const KERNBASE: nat := 0x8000_0000

  // ---- the free list ----

  // A page as kfree leaves it: memset to 1, then linked.
  function Junk(link: nat): Page {
    seq(NPTENTRIES, k => if k == 0 then link else 0x0101_0101)
  }

  function Next(free: seq<nat>, k: nat): nat {
    if k + 1 < |free| then free[k + 1] else 0
  }

  // The list from head on visits the pages free, each once, and ends.
  ghost predicate Chained(mem: seq<Page>, first: nat, head: nat, free: seq<nat>) {
    && 0 < first && head == (if |free| == 0 then 0 else free[0])
    && (forall k :: 0 <= k < |free| ==> first <= free[k] < |mem|)
    && (forall k :: 0 <= k < |free| ==> mem[free[k]][0] == Next(free, k))
    && (forall i, j :: 0 <= i < j < |free| ==> free[i] != free[j])
  }

  lemma PushChained(mem: seq<Page>, first: nat, head: nat, free: seq<nat>, f: nat)
    requires Chained(mem, first, head, free) && first <= f < |mem| && f !in free
    ensures Chained(mem[f := Junk(head)], first, f, [f] + free)
  {
    var mem', free' := mem[f := Junk(head)], [f] + free;
    forall k | 0 <= k < |free'| ensures mem'[free'[k]][0] == Next(free', k) {
      if k > 0 { assert free'[k] == free[k - 1] && Next(free', k) == Next(free, k - 1); }
    }
  }

  // What follows f after it is pushed on a list that it is already on, at k: the list up
  // to k again.
  lemma {:induction false} Retraced(mem: seq<Page>, first: nat, head: nat, free: seq<nat>, k: nat, free': seq<nat>,
                      i: nat)
    requires Chained(mem, first, head, free) && i <= k < |free|
    requires Chained(mem[free[k] := Junk(head)], first, free[k], free')
    ensures i + 1 < |free'| && free'[i + 1] == free[i]
  {
    var mem' := mem[free[k] := Junk(head)];
    if i == 0 {
      assert mem'[free'[0]][0] == Next(free', 0);
    } else {
      Retraced(mem, first, head, free, k, free', i - 1);
      assert mem'[free'[i]][0] == Next(free', i) && mem[free[i - 1]][0] == Next(free, i - 1);
    }
  }

  /** After kfree of a page the list is a finite chain without repetition if and only if
      the page was not on it. */
  lemma PushChainedIff(mem: seq<Page>, first: nat, head: nat, free: seq<nat>, f: nat)
    requires Chained(mem, first, head, free) && first <= f < |mem|
    ensures var mem' := mem[f := Junk(head)];
      (exists free' :: Chained(mem', first, f, free')) <==> f !in free
  {
    var mem' := mem[f := Junk(head)];
    if f !in free {
      PushChained(mem, first, head, free, f);
    } else {
      var k :| 0 <= k < |free| && free[k] == f;
      forall free' ensures !Chained(mem', first, f, free') {
        if Chained(mem', first, f, free') {
          Retraced(mem, first, head, free, k, free', k);
        }
      }
    }
  }

  lemma PopChained(mem: seq<Page>, first: nat, head: nat, free: seq<nat>)
    requires Chained(mem, first, head, free) && head != 0
    ensures |free| > 0 && Chained(mem, first, mem[head][0], free[1..]) && head !in free[1..]
  {
    var rest := free[1..];
    forall k | 0 <= k < |rest| ensures mem[rest[k]][0] == Next(rest, k) {
      assert rest[k] == free[k + 1] && Next(rest, k) == Next(free, k + 1);
    }
    assert mem[free[0]][0] == Next(free, 0);
  }

  // A change to a page that is not free.
  lemma KeepChained(mem: seq<Page>, mem': seq<Page>, first: nat, head: nat, free: seq<nat>)
    requires Chained(mem, first, head, free) && |mem'| == |mem| && forall f :: f in free && f < |mem| ==>
      mem'[f] == mem[f]
    ensures Chained(mem', first, head, free)
  {
  }

  // Exactly the listed pages are Free, and pages of the kernel image never are.
  ghost predicate Listed(first: nat, free: seq<nat>, own: seq<Owner>) {
    && (forall f :: 0 <= f < |own| ==> (own[f] == Free <==> f in free))
    && (forall f :: 0 <= f < |own| && f < first ==> own[f] == Other)
  }

  lemma PopListed(first: nat, free: seq<nat>, own: seq<Owner>)
    requires Listed(first, free, own) && |free| > 0 && first <= free[0] < |own| && free[0] !in free[1..]
    ensures own[free[0]] == Free && free == [free[0]] + free[1..]
    ensures Listed(first, free[1..], own[free[0] := Other])
  {
    assert free == [free[0]] + free[1..];
  }

  // ---- deallocuvm, one page at a time ----

  datatype Store = Store(mem: seq<Page>, freelist: nat)

  // Free page p of d if it is mapped.
  function Visit(s: Store, d: nat, p: nat): Store
    requires p < VPAGES
  {
    var e := Pte(s.mem, d, p);
    if Present(e) && Frame(e) < |s.mem| then
      Store(EntrySet(s.mem[Frame(e) := Junk(s.freelist)], Frame(s.mem[d][p / NPTENTRIES]), p % NPTENTRIES, 0), Frame(e))
    else s
  }

  // Visit every page number from lo to hi.
  function VisitAll(s: Store, d: nat, lo: nat, hi: nat): Store
    requires hi <= VPAGES
  {
    if hi <= lo then s else Visit(VisitAll(s, d, lo, hi - 1), d, hi - 1)
  }

  // Page numbers p to q share a page table.
  ghost predicate SameTable(p: nat, q: nat) {
    forall r :: p <= r < q ==> Pdx(r) == p / NPTENTRIES
  }

  // PDX of a page number
  function Pdx(p: nat): nat {
    p / NPTENTRIES
  }

  // Where there is no table, visiting does nothing.
  lemma {:induction false} SkipVisits(s: Store, s1: Store, d: nat, lo: nat, p: nat, q: nat)
    requires lo <= p <= q <= VPAGES && p < VPAGES && s1 == VisitAll(s, d, lo, p) && d < |s1.mem|
    requires SameTable(p, q) && !Present(s1.mem[d][p / NPTENTRIES])
    ensures VisitAll(s, d, lo, q) == s1
    decreases q
  {
    if p < q {
      SkipVisits(s, s1, d, lo, p, q - 1);
      assert Pdx(q - 1) == p / NPTENTRIES;
      VisitNothing(s1, d, q - 1);
    }
  }

  lemma VisitNothing(s: Store, d: nat, p: nat)
    requires p < VPAGES && d < |s.mem| && (!Present(s.mem[d][p / NPTENTRIES]) || !Present(Pte(s.mem, d, p)))
    ensures Visit(s, d, p) == s
  {
  }

  // Visiting p, or skipping from p to b, and no further than hi.
  lemma VisitNext(s: Store, s1: Store, s2: Store, d: nat, lo: nat, p: nat, b: nat, hi: nat)
    requires lo <= p < b && p < hi <= VPAGES && s1 == VisitAll(s, d, lo, p) && d < |s1.mem|
    requires b == p + 1 ==> s2 == Visit(s1, d, p)
    requires b != p + 1 ==> !Present(s1.mem[d][p / NPTENTRIES]) && s2 == s1 && SameTable(p, b)
    ensures s2 == VisitAll(s, d, lo, Min(b, hi))
  {
    if b != p + 1 {
      SkipVisits(s, s1, d, lo, p, Min(b, hi));
    }
  }

  // PGROUNDUP, as a page number
  function Up(x: nat): nat {
    (x + PGSIZE - 1) / PGSIZE
  }

  // A page address a and the end n of a range.
  lemma PageStep(a: nat, n: nat)
    requires a % PGSIZE == 0
    ensures (a + PGSIZE) % PGSIZE == 0 && (a + PGSIZE) / PGSIZE == a / PGSIZE + 1
    ensures a < n <==> a / PGSIZE < Up(n)
  {
  }

  // The same for address a of page p.
  lemma PageLeft(a: nat, p: nat, n: nat)
    requires a == p * PGSIZE
    ensures a / PGSIZE == p && (a < n <==> p < Up(n)) && (p <= KPAGE && n > KERNBASE ==> a < n)
    ensures n <= KERNBASE ==> Up(n) <= KPAGE
  {
    PageStep(a, n);
  }

  lemma UpGrows(x: nat, y: nat)
    requires x <= y
    ensures Up(x) <= Up(y)
  {
  }

  lemma UpLess(x: nat, y: nat)
    requires Up(x) < Up(y)
    ensures x < y
  {
  }

  lemma UpKernbase()
    ensures Up(KERNBASE) == KPAGE && Up(0) == 0
  {
  }

  function Min(a: nat, b: nat): nat {
    if a < b then a else b
  }

  lemma DropNoTable(mem: seq<Page>, own: seq<Owner>, d: nat, p: nat, b: nat, hi: nat)
    requires Sound(mem, own) && d < |mem| && own[d] == Dir && p < b && p < hi <= KPAGE
    requires SameTable(p, b) && !Present(mem[d][p / NPTENTRIES])
    ensures Dropped(mem, own, mem, own, d, p, Min(b, hi))
  {
    forall r | p <= r < Min(b, hi) ensures !Present(Pte(mem, d, r)) {
      assert Pdx(r) == p / NPTENTRIES;
    }
    DropNone(mem, own, d, p, Min(b, hi));
  }

  // Page p of d maps a frame below the first page after the kernel image.
  ghost predicate MapsBelow(mem: seq<Page>, d: nat, p: nat, first: nat)
    requires p < VPAGES
  {
    Present(Pte(mem, d, p)) && Frame(Pte(mem, d, p)) < first
  }

  // The first page of the kernel's that deallocuvm to newsz would come to.
  function KernelStop(newsz: nat): nat {
    if Up(newsz) < KPAGE then KPAGE else Up(newsz)
  }

  lemma DropEmpty(mem: seq<Page>, own: seq<Owner>, d: nat, lo: nat, hi: nat)
    requires |own| == |mem| && hi <= lo
    ensures Dropped(mem, own, mem, own, d, lo, hi)
  {
    forall f: nat ensures DroppedAt(mem, own, mem, own, d, lo, hi, f) {}
  }

  // One round of deallocuvm's loop at page p, which goes on at page b.
  ghost predicate DeallocTo(s: Store, o: seq<Owner>, s': Store, o': seq<Owner>, d: nat, p: nat, b: nat, hi: nat)
    requires p < VPAGES
  {
    && p < b && d < |s'.mem| && Dropped(s.mem, o, s'.mem, o', d, p, Min(b, hi))
    && (b == p + 1 ==> s' == Visit(s, d, p))
    && (b != p + 1 ==> !Present(s'.mem[d][p / NPTENTRIES]) && s' == s && SameTable(p, b))
  }

  lemma DeallocMapped(s: Store, o: seq<Owner>, s': Store, o': seq<Owner>, d: nat, p: nat, hi: nat)
    requires p < hi <= KPAGE && d < |s'.mem| && Dropped(s.mem, o, s'.mem, o', d, p, p + 1) && s' == Visit(s, d, p)
    ensures DeallocTo(s, o, s', o', d, p, p + 1, hi)
  {
  }

  lemma DeallocUnmapped(s: Store, o: seq<Owner>, d: nat, p: nat, hi: nat)
    requires Sound(s.mem, o) && d < |s.mem| && o[d] == Dir && p < hi <= KPAGE && !Present(Pte(s.mem, d, p))
    ensures DeallocTo(s, o, s, o, d, p, p + 1, hi)
  {
    forall r | p <= r < p + 1 ensures !Present(Pte(s.mem, d, r)) {
      assert r == p;
    }
    DropNone(s.mem, o, d, p, p + 1);
    VisitNothing(s, d, p);
  }

  lemma DeallocNoTable(s: Store, o: seq<Owner>, d: nat, p: nat, b: nat, hi: nat)
    requires Sound(s.mem, o) && d < |s.mem| && o[d] == Dir && p < b && p < hi <= KPAGE
    requires SameTable(p, b) && !Present(s.mem[d][p / NPTENTRIES])
    ensures DeallocTo(s, o, s, o, d, p, b, hi)
  {
    DropNoTable(s.mem, o, d, p, b, hi);
    VisitNothing(s, d, p);
  }

  // PGADDR(PDX(a) + 1, 0, 0), the first page of the next table.
  method NextTable(p: nat) returns (b: nat)
    requires p < KPAGE
    ensures p < b <= KPAGE && SameTable(p, b)
  {
    b := (p / NPTENTRIES + 1) * NPTENTRIES;
  }

  ghost predicate MappedAt(m0: seq<Page>, m: seq<Page>, d: nat, va: nat, f: nat, perm: nat, p: nat)
    requires perm < 4096
  {
    va <= p < VPAGES ==> Pte(m, d, p) == Entry(f + (p - va), perm) && !Present(Pte(m0, d, p))
  }

  // Pages va to a of d, which were free, have frames from f on; else only tables were added.
  ghost predicate MappedTo(m0: seq<Page>, o0: seq<Owner>, m: seq<Page>, o: seq<Owner>, d: nat, va: nat, a: nat,
                      f: nat, perm: nat)
    requires perm < 4096
  {
    && Grew(m0, o0, m, o, d) && PteKept(m0, o0, m, d, va, a)
    && forall p :: va <= p < a ==> MappedAt(m0, m, d, va, f, perm, p)
  }

  lemma MapNext(m0: seq<Page>, o0: seq<Owner>, m1: seq<Page>, o1: seq<Owner>, m2: seq<Page>, o2: seq<Owner>,
                d: nat, va: nat, a: nat, b: nat, f: nat, perm: nat)
    requires perm < 4096 && d < |m0| == |o0| && o0[d] == Dir && va <= a <= b <= a + 1 && a < VPAGES
    requires MappedTo(m0, o0, m1, o1, d, va, a, f, perm) && Grew(m1, o1, m2, o2, d) && PteKept(m1, o1, m2, d, a, b)
    requires b == a + 1 ==> MappedAt(m0, m2, d, va, f, perm, a)
    ensures MappedTo(m0, o0, m2, o2, d, va, b, f, perm) && o2[d] == Dir
  {
    GrewTrans(m0, o0, m1, o1, m2, o2, d);
    GrewKeeps(m0, o0, m1, o1, d, d);
    GrewKeeps(m1, o1, m2, o2, d, d);
    PteKeptTrans(m0, o0, m1, o1, m2, d, va, a, b);
    forall p | va <= p < b ensures MappedAt(m0, m2, d, va, f, perm, p) {
      if p < a { assert MappedAt(m0, m1, d, va, f, perm, p) && SamePte(m1, m2, d, p); }
    }
  }

  // How many of the pages va to a are below KERNBASE.
  function Users(va: nat, a: nat): nat
    requires va <= a
  {
    if va < KPAGE then Min(a, KPAGE) - va else 0
  }

  // The owners with the n pages from f on in hand.
  function InHands(own: seq<Owner>, f: nat, n: nat): (r: seq<Owner>)
    ensures |r| == |own|
    ensures forall g :: 0 <= g < |own| ==> r[g] == if f <= g < f + n then Other else own[g]
  {
    seq(|own|, g requires 0 <= g < |own| => if f <= g < f + n then Other else own[g])
  }

  // The n pages from f on are mapped in d from page va on.
  ghost predicate HandsGiven(own: seq<Owner>, d: nat, va: nat, f: nat, n: nat) {
    forall g :: f <= g < f + n ==> GivenAt(own, d, va, f, g)
  }

  // Page g is mapped in d, as many pages after va as it is after f.
  ghost predicate GivenAt(own: seq<Owner>, d: nat, va: nat, f: nat, g: nat)
    requires f <= g
  {
    g < |own| && own[g] == User(d, (va + (g - f)) / NPTENTRIES, (va + (g - f)) % NPTENTRIES)
  }

  // The pages from f to g are in hand.
  ghost predicate HandsHeld(own: seq<Owner>, first: nat, f: nat, g: nat) {
    forall h :: f <= h < g ==> Held(own, first, h)
  }

  ghost predicate Held(own: seq<Owner>, first: nat, h: nat) {
    first <= h < |own| && own[h] == Other
  }

  // One more page in hand is mapped, or none.
  lemma HandNext(m1: seq<Page>, o1: seq<Owner>, m2: seq<Page>, o2: seq<Owner>, d: nat, va: nat, f: nat, n: nat,
                 more: bool, first: nat, end: nat, a: int, b: int)
    requires |o1| == |m1| == |o2| == |m2| && HandsGiven(o1, d, va, f, n) && HandsHeld(o1, first, f + n, end)
    requires more ==> f + n < end && GivenAt(o2, d, va, f, f + n)
    requires Grew(m1, o1, m2, if more then o2[f + n := Other] else o2, d) && PteKept(m1, o1, m2, d, a, b)
    ensures var n' := if more then n + 1 else n;
      && Grew(m1, InHands(o1, f, n), m2, InHands(o2, f, n'), d) && PteKept(m1, InHands(o1, f, n), m2, d, a, b)
      && HandsGiven(o2, d, va, f, n') && HandsHeld(o2, first, f + n', end)
  {
    var o2' := if more then o2[f + n := Other] else o2;
    var n' := if more then n + 1 else n;
    forall g: nat ensures GrewAt(m1, InHands(o1, f, n), m2, InHands(o2, f, n'), d, g) {
      assert GrewAt(m1, o1, m2, o2', d, g);
      assert f <= g < f + n ==> GivenAt(o1, d, va, f, g);
    }
    forall g | f <= g < f + n' ensures GivenAt(o2, d, va, f, g) {
      assert GrewAt(m1, o1, m2, o2', d, g);
      assert g < f + n ==> GivenAt(o1, d, va, f, g);
    }
    forall h | f + n' <= h < end ensures Held(o2, first, h) {
      assert GrewAt(m1, o1, m2, o2', d, h) && Held(o1, first, h);
    }
  }

  // After one round of mappages' loop, at page a.
  lemma RoundDone(m0: seq<Page>, o0: seq<Owner>, m1: seq<Page>, o1: seq<Owner>, m2: seq<Page>, o2: seq<Owner>,
                  d: nat, va: nat, a: nat, f: nat, perm: nat, ok: bool, first: nat, end: nat)
    requires perm < 4096 && d < |m0| == |o0| && o0[d] == Dir && va <= a < VPAGES && |o1| == |m1| == |o2| == |m2|
    requires MappedTo(m0, o0, m1, InHands(o1, f, Users(va, a)), d, va, a, f, perm)
    requires HandsGiven(o1, d, va, f, Users(va, a)) && HandsHeld(o1, first, f + Users(va, a), end)
    requires ok && a < KPAGE ==> f + Users(va, a) < end && GivenAt(o2, d, va, f, f + Users(va, a))
    requires Grew(m1, o1, m2, if ok && a < KPAGE then o2[f + Users(va, a) := Other] else o2, d)
    requires PteKept(m1, o1, m2, d, a, if ok then a + 1 else a)
    requires ok ==> MappedAt(m0, m2, d, va, f, perm, a)
    ensures var to := if ok then a + 1 else a;
      && MappedTo(m0, o0, m2, InHands(o2, f, Users(va, to)), d, va, to, f, perm)
      && HandsGiven(o2, d, va, f, Users(va, to)) && HandsHeld(o2, first, f + Users(va, to), end) && o2[d] == Dir
  {
    var to, n := if ok then a + 1 else a, Users(va, a);
    var n' := if ok && a < KPAGE then n + 1 else n;
    assert Users(va, to) == n';
    HandNext(m1, o1, m2, o2, d, va, f, n, ok && a < KPAGE, first, end, a, to);
    MapNext(m0, o0, m1, InHands(o1, f, n), m2, InHands(o2, f, n'), d, va, a, to, f, perm);
  }

  // A new directory d, with the kernel's rows below k mapped.
  ghost predicate NewSpace(m0: seq<Page>, o0: seq<Owner>, m: seq<Page>, o: seq<Owner>, d: nat, data: nat, k: nat)
    requires EXTPAGE < data < NPAGES && k <= 4
  {
    && Grew(m0, o0, m, o, d) && PteKept(m0, o0, m, d, 0, VPAGES)
    && 0 < d < |o0| && o0[d] == Free && o[d] == Dir
    && KernelMapped(m, d, data, k) && forall p :: 0 <= p < KPAGE ==> Pte(m, d, p) == 0
  }

  lemma NewDirectory(m0: seq<Page>, o0: seq<Owner>, d: nat, data: nat)
    requires Sound(m0, o0) && 0 < d < |m0| && o0[d] == Free && EXTPAGE < data < NPAGES
    ensures Sound(m0[d := ZeroPage()], o0[d := Dir])
    ensures NewSpace(m0, o0, m0[d := ZeroPage()], o0[d := Dir], d, data, 0)
  {
    var m, o := m0[d := ZeroPage()], o0[d := Dir];
    SwapKeeps(m0, o0, d, m0[d], Other);
    assert m0[d := m0[d]] == m0 && o0[d := Other][d := Dir] == o;
    AddDirKeeps(m0, o0[d := Other], d);
    forall f: nat ensures GrewAt(m0, o0, m, o, d, f) {}
    forall e: nat, p: nat | e < |m0| && o0[e] == Dir && !(e == d && 0 <= p < VPAGES) ensures SamePte(m0, m, e, p) {
      assert o0[d := Other][e] == Dir;
    }
  }

  lemma RowNotMapped(mem: seq<Page>, d: nat, data: nat, k: nat, p: nat)
    requires EXTPAGE < data < NPAGES && k < 4 && KernelMapped(mem, d, data, k)
    requires Kmap(data, k).virt <= p < Kmap(data, k).virt + Kmap(data, k).n
    ensures p < VPAGES && !Present(Pte(mem, d, p))
  {
    RowIsFresh(data, k, p);
    assert Pte(mem, d, p) == KernelPte(data, k, p);
  }

  // Row k of kmap, mapped as far as page to.
  lemma RowMapped(m0: seq<Page>, o0: seq<Owner>, m1: seq<Page>, o1: seq<Owner>, m2: seq<Page>, o2: seq<Owner>, d: nat,
                  data: nat, k: nat, to: nat)
    requires EXTPAGE < data < NPAGES && k < 4 && NewSpace(m0, o0, m1, o1, d, data, k)
    requires var row := Kmap(data, k);
      to <= row.virt + row.n && MappedTo(m1, o1, m2, o2, d, row.virt, to, row.phys, row.perm)
    ensures Grew(m0, o0, m2, o2, d) && PteKept(m0, o0, m2, d, 0, VPAGES) && o2[d] == Dir
    ensures to == Kmap(data, k).virt + Kmap(data, k).n ==> NewSpace(m0, o0, m2, o2, d, data, k + 1)
  {
    var row := Kmap(data, k);
    GrewTrans(m0, o0, m1, o1, m2, o2, d);
    GrewKeeps(m1, o1, m2, o2, d, d);
    forall e: nat, p: nat | e < |m0| && o0[e] == Dir && !(e == d && 0 <= p < VPAGES) ensures SamePte(m0, m2, e, p) {
      assert GrewAt(m0, o0, m1, o1, d, e) && SamePte(m0, m1, e, p) && SamePte(m1, m2, e, p);
    }
    if to == row.virt + row.n {
      forall p: nat | p < VPAGES
        ensures Pte(m2, d, p) ==
          if row.virt <= p < to then Entry(row.phys + (p - row.virt), row.perm) else Pte(m1, d, p)
      {
        assert row.virt <= p < to ==> MappedAt(m1, m2, d, row.virt, row.phys, row.perm, p);
        assert !(row.virt <= p < to) ==> SamePte(m1, m2, d, p);
      }
    }
  }

  // Page q of space c maps a page that was free, with these contents and flags.
  ghost predicate PageAt(m0: seq<Page>, o0: seq<Owner>, m: seq<Page>, o: seq<Owner>, c: nat, q: nat, page: Page,
                      flags: nat)
    requires |o0| == |m0| == |o| == |m| && q < VPAGES
  {
    var e := Pte(m, c, q);
    && Present(e) && Flags(e) == flags && Frame(e) < |m|
    && o0[Frame(e)] == Free && o[Frame(e)] == User(c, q / NPTENTRIES, q % NPTENTRIES) && m[Frame(e)] == page
  }

  lemma PageStays(m0: seq<Page>, o0: seq<Owner>, m1: seq<Page>, o1: seq<Owner>, m2: seq<Page>, o2: seq<Owner>, c: nat,
                  q: nat, page: Page, flags: nat)
    requires |o0| == |m0| == |o1| == |m1| && q < VPAGES && PageAt(m0, o0, m1, o1, c, q, page, flags)
    requires Grew(m1, o1, m2, o2, c) && Pte(m2, c, q) == Pte(m1, c, q)
    ensures PageAt(m0, o0, m2, o2, c, q, page, flags)
  {
    assert GrewAt(m1, o1, m2, o2, c, Frame(Pte(m1, c, q)));
  }

  // A free page f, filled, was mapped at page p of space c.
  lemma PageGiven(m0: seq<Page>, o0: seq<Owner>, f: nat, page: Page, m2: seq<Page>, o2: seq<Owner>, c: nat, p: nat,
                  perm: nat)
    requires Sound(m0, o0) && f < |m0| && o0[f] == Free && perm < 4096 && p < VPAGES
    requires |o2| == |m0| && o2[f] == User(c, p / NPTENTRIES, p % NPTENTRIES)
    requires MappedTo(m0[f := page], o0[f := Other], m2, o2[f := Other], c, p, p + 1, f, perm)
    requires c < |m0| && o0[c] == Dir
    ensures Given(m0, o0, m2, o2, c, p, page, WithP(perm))
  {
    assert o2[f := Other][f := o2[f]] == o2;
    GrewByTaking(m0, o0, f, page, m2, o2[f := Other], o2[f], c);
    PteKeptTaking(m0, o0, f, page, m2, c, p);
    assert MappedAt(m0[f := page], m2, c, p, f, perm, p);
    TakenPte(m0, o0, f, page, c, p);
    assert GrewAt(m0[f := page], o0[f := Other], m2, o2[f := Other], c, f);
    PageAtEntry(m0, o0, f, page, m2, o2, c, p, perm);
  }

  lemma PteKeptTaking(m0: seq<Page>, o0: seq<Owner>, f: nat, page: Page, m2: seq<Page>, c: nat, p: nat)
    requires Sound(m0, o0) && f < |m0| && o0[f] == Free
    requires PteKept(m0[f := page], o0[f := Other], m2, c, p, p + 1)
    ensures PteKept(m0, o0, m2, c, p, p + 1)
  {
    SwapKeeps(m0, o0, f, page, Other);
    PteKeptTrans(m0, o0, m0[f := page], o0[f := Other], m2, c, p, p, p + 1);
  }

  lemma PageAtEntry(m0: seq<Page>, o0: seq<Owner>, f: nat, page: Page, m2: seq<Page>, o2: seq<Owner>, c: nat, p: nat,
                    perm: nat)
    requires |o0| == |m0| == |o2| == |m2| && f < |m0| && o0[f] == Free && perm < 4096 && p < VPAGES
    requires o2[f] == User(c, p / NPTENTRIES, p % NPTENTRIES) && m2[f] == page && Pte(m2, c, p) == Entry(f, perm)
    ensures PageAt(m0, o0, m2, o2, c, p, page, WithP(perm))
  {
  }

  // Filling a free page changes no entry.
  lemma TakenPte(m0: seq<Page>, o0: seq<Owner>, f: nat, page: Page, c: nat, p: nat)
    requires Sound(m0, o0) && f < |m0| && o0[f] == Free && c < |m0| && o0[c] == Dir && p < VPAGES
    ensures Pte(m0[f := page], c, p) == Pte(m0, c, p)
  {
    SwapKeeps(m0, o0, f, page, Other);
    assert SamePte(m0, m0[f := page], c, p);
  }

  // A page with these contents was taken from the free list and mapped at page p of c.
  ghost predicate Given(m0: seq<Page>, o0: seq<Owner>, m: seq<Page>, o: seq<Owner>, c: nat, p: nat, page: Page,
                      flags: nat)
    requires p < VPAGES
  {
    && Grew(m0, o0, m, o, c) && PteKept(m0, o0, m, c, p, p + 1)
    && PageAt(m0, o0, m, o, c, p, page, flags) && !Present(Pte(m0, c, p))
  }

  // A page was taken from the free list and is in hand; c may have gained a table.
  ghost predicate InHand(m0: seq<Page>, o0: seq<Owner>, m: seq<Page>, o: seq<Owner>, c: nat, f: nat) {
    && |o| == |o0| && f < |o| && o[f] == Other && o0[f] == Free
    && Grew(m0, o0, m, o[f := Free], c) && PteKept(m0, o0, m, 0, 0, 0)
  }

  // The same when mappages found no memory for a table: f is still in hand.
  lemma PageNotGiven(m0: seq<Page>, o0: seq<Owner>, f: nat, page: Page, m2: seq<Page>, o2: seq<Owner>, c: nat, p: nat,
                     perm: nat)
    requires Sound(m0, o0) && f < |m0| && o0[f] == Free && perm < 4096 && p < VPAGES && |o2| == |m0|
    requires MappedTo(m0[f := page], o0[f := Other], m2, o2, c, p, p, f, perm)
    ensures InHand(m0, o0, m2, o2, c, f)
  {
    var m1, o1, o3 := m0[f := page], o0[f := Other], o2[f := Free];
    SwapKeeps(m0, o0, f, page, Other);
    assert GrewAt(m1, o1, m2, o2, c, f);
    forall g: nat ensures GrewAt(m0, o0, m2, o3, c, g) {
      assert GrewAt(m1, o1, m2, o2, c, g);
    }
    forall e: nat, q: nat | e < |m0| && o0[e] == Dir ensures SamePte(m0, m2, e, q) {
      assert SamePte(m0, m1, e, q) && SamePte(m1, m2, e, q);
    }
  }

  lemma PageMapped(m0: seq<Page>, o0: seq<Owner>, f: nat, page: Page, m2: seq<Page>, o2: seq<Owner>, c: nat, p: nat,
                   perm: nat, ok: bool, to: nat)
    requires Sound(m0, o0) && f < |m0| && o0[f] == Free && perm < 4096 && p < VPAGES && |o2| == |m0| && c < |m0| &&
      o0[c] == Dir
    requires ok ==> o2[f] == User(c, p / NPTENTRIES, p % NPTENTRIES)
    requires MappedTo(m0[f := page], o0[f := Other], m2, if ok then o2[f := Other] else o2, c, p, to, f, perm) &&
      to == if ok then p + 1 else p
    ensures if ok then Given(m0, o0, m2, o2, c, p, page, WithP(perm)) else InHand(m0, o0, m2, o2, c, f)
  {
    if ok {
      PageGiven(m0, o0, f, page, m2, o2, c, p, perm);
    } else {
      PageNotGiven(m0, o0, f, page, m2, o2, c, p, perm);
    }
  }

  datatype Outcome = Ok | NoMem | Panic

  class Machine {
    const first: nat           // first page after the kernel image
    var mem: seq<Page>
    var freelist: nat
    ghost var free: seq<nat>
    ghost var own: seq<Owner>

    // Before kinit1 the free list is empty.
    constructor (end: nat, m: seq<Page>)
      requires 0 < end && |m| == NPAGES
      ensures Valid() && first == end && mem == m && freelist == 0
      ensures forall f :: 0 <= f < NPAGES ==> own[f] == Other
    {
      first, mem, freelist, free := end, m, 0, [];
      own := seq(NPAGES, _ => Other);
    }

    ghost predicate Valid()
      reads this
    {
      && |mem| == NPAGES && Chained(mem, first, freelist, free)
      && Sound(mem, own) && Listed(first, free, own)
    }

    ghost function Value(): Store
      reads this
    {
      Store(mem, freelist)
    }

    // kfree
    method Kfree(f: nat) returns (ok: bool)
      requires |mem| == NPAGES
      modifies this`mem, this`freelist, this`free
      ensures ok <==> first <= f < NPAGES
      ensures ok ==> mem == old(mem)[f := Junk(old(freelist))] && freelist == f && free == [f] + old(free)
      ensures !ok ==> Value() == old(Value()) && free == old(free)
      ensures old(Chained(mem, first, freelist, free)) && (ok ==> f !in old(free)) ==>
        Chained(mem, first, freelist, free)
    {
      if f < first || f >= NPAGES {
        return false;
      }
      if Chained(mem, first, freelist, free) && f !in free {
        PushChained(mem, first, freelist, free, f);
      }
      mem := mem[f := Junk(freelist)];
      freelist := f;
      free := [f] + free;
      return true;
    }

    // kalloc: the page at the head of the list, or 0.
    method Kalloc() returns (f: nat)
      requires Valid()
      modifies this`freelist, this`free, this`own
      ensures Valid()
      ensures f == 0 ==> old(free) == [] && free == old(free) && own == old(own) && freelist == old(freelist)
      ensures f != 0 ==> first <= f < NPAGES && old(own)[f] == Free && own == old(own)[f := Other]
      ensures f != 0 ==> old(free) == [f] + free
    {
      f := freelist;
      if f != 0 {
        PopChained(mem, first, freelist, free);
        PopListed(first, free, own);
        SwapKeeps(mem, own, f, mem[f], Other);
        assert mem[f := mem[f]] == mem;
        freelist := mem[f][0];
        own := own[f := Other];
        free := free[1..];
      }
    }

    // Give a page in hand back: kfree with the owner brought up to date.
    method Release(f: nat) returns (ok: bool)
      requires Valid() && f < NPAGES && own[f] == Other && first <= f
      modifies this
      ensures ok && Valid() && own == old(own)[f := Free] && free == [f] + old(free)
      ensures mem == old(mem)[f := Junk(old(freelist))] && PteKept(old(mem), old(own), mem, 0, 0, 0)
    {
      SwapKeeps(mem, own, f, Junk(freelist), Free);
      ok := Kfree(f);
      own := own[f := Free];
    }

    // freerange: the pages from start on, up to end, go to the free list.
    method Freerange(start: nat, end: nat)
      requires Valid() && first <= start && end <= NPAGES
      requires forall f :: start <= f < end ==> own[f] == Other
      modifies this
      ensures Valid()
      ensures forall f :: 0 <= f < NPAGES ==> own[f] == if start <= f < end then Free else old(own)[f]
      ensures start <= end ==> |free| == |old(free)| + (end - start)
    {
      var p := start;
      while p + 1 <= end
        invariant Valid() && start <= p && (start <= end ==> p <= end) && |free| == |old(free)| + (p - start)
        invariant forall f :: 0 <= f < NPAGES ==> own[f] == if start <= f < p && f < end then Free else old(own)[f]
      {
        var ok := Release(p);
        p := p + 1;
      }
    }

    // walkpgdir: the page table that holds the entry of page p, created if asked, or 0.
    method Walk(d: nat, p: nat, alloc: bool) returns (t: nat)
      requires Valid() && d < NPAGES && own[d] == Dir && p < VPAGES
      modifies this
      ensures Valid() && Grew(old(mem), old(own), mem, own, d) && PteKept(old(mem), old(own), mem, 0, 0, 0)
      ensures t != 0 ==> t < NPAGES && own[t] == Tab(d, p / NPTENTRIES) && Pte(mem, d, p) == mem[t][p % NPTENTRIES]
      ensures t != 0 ==> Present(mem[d][p / NPTENTRIES]) && Frame(mem[d][p / NPTENTRIES]) == t
      ensures t == 0 ==> !Present(mem[d][p / NPTENTRIES]) && (alloc ==> free == [])
      ensures t == 0 || !alloc || Present(old(mem)[d][p / NPTENTRIES]) ==>
        mem == old(mem) && freelist == old(freelist) && own == old(own) && free == old(free)
      ensures t != 0 ==> mem[d] == old(mem)[d][p / NPTENTRIES := mem[d][p / NPTENTRIES]]
      ensures t != 0 && !Present(old(mem)[d][p / NPTENTRIES]) ==>
        |old(free)| == |free| + 1 && Flags(mem[d][p / NPTENTRIES]) == 7 && mem[t] == ZeroPage()
    {
      var i := p / NPTENTRIES;
      assert DirOk(mem, own, d, i);
      if Present(mem[d][i]) {
        t := Frame(mem[d][i]);
      } else {
        if !alloc { return 0; }
        t := Kalloc();
        if t == 0 { return 0; }
        TableGrew(mem, old(own), d, i, t);
        AddTableKeeps(mem, own, d, i, t);
        KeepChained(mem, TableAdded(mem, d, i, t), first, freelist, free);
        assert old(own)[t := Other][t := Tab(d, i)] == old(own)[t := Tab(d, i)];
        ghost var m := TableAdded(mem, d, i, t);
        mem := mem[t := ZeroPage()];
        mem := mem[d := mem[d][i := Entry(t, PTE_W + PTE_U)]];
        assert mem == m;
        own := own[t := Tab(d, i)];
      }
    }

    // walkpgdir without allocation changes nothing.
    method FindTable(d: nat, p: nat) returns (t: nat)
      requires Valid() && d < NPAGES && own[d] == Dir && p < VPAGES
      modifies this
      ensures Valid() && Value() == old(Value()) && own == old(own) && free == old(free)
      ensures t != 0 ==> t < NPAGES && own[t] == Tab(d, p / NPTENTRIES) && Pte(mem, d, p) == mem[t][p % NPTENTRIES]
      ensures t == 0 ==> !Present(mem[d][p / NPTENTRIES]) && Pte(mem, d, p) == 0
    {
      t := Walk(d, p, false);
    }

    // Entry p, in table t of d, gets frame f.
    method SetEntry(d: nat, p: nat, t: nat, f: nat, perm: nat)
      requires Valid() && p < VPAGES && perm < 4096 && t < NPAGES && own[t] == Tab(d, p / NPTENTRIES)
      requires !Present(mem[t][p % NPTENTRIES]) && (p < KPAGE ==> first <= f < NPAGES && own[f] == Other)
      modifies this
      ensures Valid() && free == old(free) && mem == EntrySet(old(mem), t, p % NPTENTRIES, Entry(f, perm))
      ensures p < KPAGE ==> own == old(own)[f := User(d, p / NPTENTRIES, p % NPTENTRIES)] && own[f := Other] == old(own)
      ensures p >= KPAGE ==> own == old(own)
    {
      var e := Entry(f, perm);
      KeepChained(mem, EntrySet(mem, t, p % NPTENTRIES, e), first, freelist, free);
      if p < KPAGE {
        SetUserKeeps(mem, own, d, p / NPTENTRIES, p % NPTENTRIES, t, f, perm);
        own := own[f := User(d, p / NPTENTRIES, p % NPTENTRIES)];
      } else {
        SetKernelKeeps(mem, own, d, p / NPTENTRIES, p % NPTENTRIES, t, e);
      }
      mem := mem[t := mem[t][p % NPTENTRIES := e]];
    }

    // One round of mappages: page p of d gets frame f.  Below KERNBASE f is a page in hand.
    method MapOne(d: nat, p: nat, f: nat, perm: nat) returns (r: Outcome)
      requires Valid() && d < NPAGES && own[d] == Dir && p < VPAGES && perm < 4096
      requires p < KPAGE ==> first <= f < NPAGES && own[f] == Other
      modifies this
      ensures Valid()
      ensures r == Ok ==> Pte(mem, d, p) == Entry(f, perm) && !Present(Pte(old(mem), d, p))
      ensures r == Ok && p < KPAGE ==> own[f] == User(d, p / NPTENTRIES, p % NPTENTRIES)
      ensures Grew(old(mem), old(own), mem, if r == Ok && p < KPAGE then own[f := Other] else own, d)
      ensures PteKept(old(mem), old(own), mem, d, p, if r == Ok then p + 1 else p)
      ensures r == NoMem ==> free == old(free) == [] && mem == old(mem) && !Present(mem[d][p / NPTENTRIES])
      ensures r == Panic <==> Present(Pte(old(mem), d, p))
      ensures r == Panic ==> free == old(free) && mem == old(mem)
      ensures r == Ok ==> Walked(|old(free)|, old(mem)[d], |free|, mem[d], p, p + 1)
    {
      var t := Walk(d, p, true);
      assert SamePte(old(mem), mem, d, p);
      if t == 0 { return NoMem; }
      WalkedOne(|old(free)|, old(mem)[d], |free|, mem[d], p);
      if Present(mem[t][p % NPTENTRIES]) { return Panic; }
      GrewKeeps(old(mem), old(own), mem, own, d, f);
      WalkThenSet(old(mem), old(own), mem, own, d, p, t, Entry(f, perm));
      SetEntry(d, p, t, f, perm);
      r := Ok;
    }

    // The body of deallocuvm's loop at a mapped page; pages of the kernel are not freed.
    method DropPage(d: nat, p: nat, t: nat) returns (ok: bool)
      requires Valid() && p < VPAGES && t < NPAGES && own[t] == Tab(d, p / NPTENTRIES) &&
        Present(mem[t][p % NPTENTRIES])
      requires KPAGE <= p ==> Frame(mem[t][p % NPTENTRIES]) < first
      modifies this
      ensures Valid() && d < NPAGES && (ok <==> p < KPAGE)
      ensures ok ==> Dropped(old(mem), old(own), mem, own, d, p, p + 1) && Value() == Visit(old(Value()), d, p)
      ensures !ok ==> Value() == old(Value()) && own == old(own)
    {
      assert FrameOk(mem, own, t);
      var pa := Frame(mem[t][p % NPTENTRIES]);
      if p < KPAGE {
        DropOne(mem, own, d, p, t, Junk(freelist));
      }
      if pa == 0 { return false; }
      ok := Kfree(pa);
      if !ok { return; }
      KeepChained(mem, EntrySet(mem, t, p % NPTENTRIES, 0), first, freelist, free);
      mem := mem[t := mem[t][p % NPTENTRIES := 0]];
      own := own[pa := Free];
    }

    // The same, as a round of the loop.
    method DropMapped(d: nat, p: nat, t: nat, ghost hi: nat) returns (ok: bool)
      requires Valid() && p < VPAGES && t < NPAGES && own[t] == Tab(d, p / NPTENTRIES) &&
        Present(mem[t][p % NPTENTRIES])
      requires hi <= KPAGE && (p < hi || (KPAGE <= p && Frame(mem[t][p % NPTENTRIES]) < first))
      modifies this
      ensures Valid() && (ok <==> p < KPAGE)
      ensures ok ==> DeallocTo(old(Value()), old(own), Value(), own, d, p, p + 1, hi)
      ensures !ok ==> Value() == old(Value()) && own == old(own)
    {
      ok := DropPage(d, p, t);
      if p < KPAGE {
        DeallocMapped(old(Value()), old(own), Value(), own, d, p, hi);
      }
    }

    // deallocuvm's skip, where page p has no table.
    method SkipTable(d: nat, p: nat, ghost hi: nat) returns (b: nat)
      requires Valid() && d < NPAGES && own[d] == Dir && p < hi <= KPAGE && !Present(mem[d][p / NPTENTRIES])
      ensures DeallocTo(Value(), own, Value(), own, d, p, b, hi) && b <= KPAGE
    {
      b := NextTable(p);
      DeallocNoTable(Value(), own, d, p, b, hi);
    }

    // One round of deallocuvm's loop with its increment: look at page p, go on at page b.
    method DeallocStep(d: nat, p: nat, ghost hi: nat) returns (ok: bool, b: nat)
      requires Valid() && d < NPAGES && own[d] == Dir && p < VPAGES && hi <= KPAGE
      requires p < hi || (KPAGE <= p && MapsBelow(mem, d, p, first))
      modifies this
      ensures Valid() && (ok <==> p < KPAGE)
      ensures ok ==> DeallocTo(old(Value()), old(own), Value(), own, d, p, b, hi) && b <= KPAGE
      ensures !ok ==> Value() == old(Value()) && own == old(own)
    {
      ok, b := true, p + 1;
      var t := FindTable(d, p);
      if t == 0 {
        b := SkipTable(d, p, hi);
      } else if Present(mem[t][p % NPTENTRIES]) {
        ok := DropMapped(d, p, t, hi);
      } else {
        DeallocUnmapped(Value(), own, d, p, hi);
      }
    }

    // deallocuvm, in page numbers: a starts at PGROUNDUP(newsz) and goes up while a < oldsz.
    // At a page of the kernel image, as kmap has it from KERNBASE on, it panics.
    method Deallocuvm(d: nat, oldsz: nat, newsz: nat) returns (ok: bool, r: nat)
      requires Valid() && d < NPAGES && own[d] == Dir
      requires KernelStop(newsz) < Up(oldsz) ==>
        KernelStop(newsz) < VPAGES && MapsBelow(mem, d, KernelStop(newsz), first)
      modifies this
      ensures Valid() && (ok <==> Up(oldsz) <= KernelStop(newsz)) && (ok ==> r == Min(oldsz, newsz))
      ensures newsz < oldsz ==> Value() == VisitAll(old(Value()), d, Up(newsz), Min(Up(oldsz), KPAGE))
      ensures newsz < oldsz ==> Dropped(old(mem), old(own), mem, own, d, Up(newsz), Min(Up(oldsz), KPAGE))
      ensures newsz >= oldsz ==> Value() == old(Value()) && own == old(own)
    {
      ok := true;
      if newsz >= oldsz {
        UpGrows(oldsz, newsz);
        return true, oldsz;
      }
      var lo, hi := Up(newsz), Up(oldsz);
      ghost var top := Min(hi, KPAGE);
      UpGrows(newsz, oldsz);
      DropEmpty(mem, own, d, lo, Min(lo, top));
      var a := lo;
      while a < hi
        invariant Valid() && own[d] == Dir && lo <= a <= KernelStop(newsz)
        invariant Value() == VisitAll(old(Value()), d, lo, Min(a, top))
        invariant Dropped(old(mem), old(own), mem, own, d, lo, Min(a, top))
      {
        ghost var s1, o1 := Value(), own;
        assert SamePte(old(mem), mem, d, KernelStop(newsz));
        var b;
        ok, b := DeallocStep(d, a, top);
        if !ok {
          return false, 0;
        }
        DroppedTrans(old(mem), old(own), s1.mem, o1, mem, own, d, lo, a, Min(b, top));
        assert DroppedAt(s1.mem, o1, mem, own, d, a, Min(b, top), d);
        VisitNext(old(Value()), s1, Value(), d, lo, a, b, top);
        a := b;
      }
      return true, newsz;
    }

    // One round of freevm's loop over the directory.
    method FreeTable(d: nat, i: nat, ghost m: seq<Page>, ghost o: seq<Owner>)
      requires Valid() && d < NPAGES && |o| == |m| == NPAGES && Sound(m, o) && o[d] == Dir && i < NPTENTRIES
      requires forall f :: 0 <= f < first && f < NPAGES ==> o[f] == Other
      requires TablesFreed(m, o, mem, own, d, i) && mem[d] == m[d]
      modifies this
      ensures Valid() && PteKept(old(mem), old(own), mem, 0, 0, 0) && mem[d] == m[d]
      ensures TablesFreed(m, o, mem, own, d, i + 1)
    {
      assert DirOk(m, o, d, i);
      if Present(mem[d][i]) {
        var t := Frame(mem[d][i]);
        assert TableFreed(m, o, mem, own, d, i, t) && FrameOk(m, o, t);
        var ok := Release(t);
      }
      FreeTablesNext(m, o, old(mem), old(own), mem, own, d, i);
    }

    // The loop of freevm over the directory, once no user page is left: the tables go.
    method FreeTables(d: nat, ghost o: seq<Owner>)
      requires Valid() && d < NPAGES && |o| == NPAGES && own == Detached(o, d) && Sound(mem, o) &&
        Listed(first, free, o)
      requires o[d] == Dir && forall f :: 0 <= f < NPAGES && o[f].User? ==> o[f].d != d
      modifies this
      ensures Valid() && PteKept(old(mem), old(own), mem, 0, 0, 0)
      ensures TablesFreed(old(mem), o, mem, own, d, NPTENTRIES)
    {
      FreeTablesStart(mem, o, d);
      var i := 0;
      while i < NPTENTRIES
        invariant Valid() && 0 <= i <= NPTENTRIES && PteKept(old(mem), old(own), mem, 0, 0, 0) && mem[d] == old(mem)[d]
        invariant TablesFreed(old(mem), o, mem, own, d, i)
      {
        ghost var m1, o1 := mem, own;
        FreeTable(d, i, old(mem), o);
        TablesFreedDirs(old(mem), o, m1, o1, d, i);
        PteKeptMore(old(mem), old(own), m1, o1, mem);
        i := i + 1;
      }
    }

    // freevm
    method Freevm(d: nat) returns (ok: bool)
      requires Valid() && d < NPAGES && own[d] == Dir
      modifies this
      ensures ok && Valid() && Released(old(mem), old(own), mem, own, d)
    {
      var r;
      UpKernbase();
      ok, r := Deallocuvm(d, KERNBASE, 0);
      NoUserLeft(old(mem), old(own), mem, own, d);
      DetachKeeps(mem, own, d);
      ghost var m1, o1 := mem, own;
      own := Detached(own, d);
      FreeTables(d, o1);
      ghost var m2, o2 := mem, own;
      assert TableFreed(m1, o1, m2, o2, d, NPTENTRIES, d);
      ok := Release(d);
      FreevmDone(old(mem), old(own), m1, o1, m2, o2, mem, d);
    }

    // One round of mappages' loop, at page a.
    method MapRound(d: nat, ghost va: nat, a: nat, last: nat, ghost f: nat, pa: nat, perm: nat,
                    ghost m0: seq<Page>, ghost o0: seq<Owner>, ghost n0: nat) returns (r: Outcome)
      requires Valid() && d < NPAGES && own[d] == Dir && va <= a <= last < VPAGES && perm < 4096 && pa == f + (a - va)
      requires |m0| == |o0| == NPAGES && o0[d] == Dir && Walked(n0, m0[d], |free|, mem[d], va, a)
      requires MappedTo(m0, o0, mem, InHands(own, f, Users(va, a)), d, va, a, f, perm)
      requires HandsGiven(own, d, va, f, Users(va, a))
      requires HandsHeld(own, first, f + Users(va, a), f + Users(va, last + 1))
      modifies this
      ensures Valid() && own[d] == Dir && (r == Panic <==> Present(Pte(m0, d, a)))
      ensures var to := if r == Ok then a + 1 else a;
        && MappedTo(m0, o0, mem, InHands(own, f, Users(va, to)), d, va, to, f, perm)
        && HandsGiven(own, d, va, f, Users(va, to))
        && HandsHeld(own, first, f + Users(va, to), f + Users(va, last + 1))
      ensures Walked(n0, m0[d], |free|, mem[d], va, if r == Ok then a + 1 else a)
      ensures r == NoMem ==> free == [] && !Present(mem[d][a / NPTENTRIES])
    {
      ghost var m1, o1, n := mem, own, Users(va, a);
      assert SamePte(m0, mem, d, a);
      assert a < KPAGE ==> pa == f + n && Held(own, first, pa);
      r := MapOne(d, a, pa, perm);
      if r == Ok { WalkedNext(n0, m0[d], |old(free)|, m1[d], |free|, mem[d], va, a); }
      RoundDone(m0, o0, m1, o1, mem, own, d, va, a, f, perm, r == Ok, first, f + Users(va, last + 1));
    }

    // mappages: pages va to last of d get consecutive frames from f on, which below
    // KERNBASE are pages in hand.
    method Mappages(d: nat, va: nat, last: nat, f: nat, perm: nat) returns (r: Outcome, ghost to: nat)
      requires Valid() && d < NPAGES && own[d] == Dir && va <= last < VPAGES && perm < 4096
      requires HandsHeld(own, first, f, f + Users(va, last + 1))
      modifies this
      ensures Valid() && va <= to <= last + 1 && (r == Ok <==> to == last + 1)
      ensures MappedTo(old(mem), old(own), mem, InHands(own, f, Users(va, to)), d, va, to, f, perm)
      ensures HandsGiven(own, d, va, f, Users(va, to))
      ensures HandsHeld(own, first, f + Users(va, to), f + Users(va, last + 1))
      ensures Walked(|old(free)|, old(mem)[d], |free|, mem[d], va, to)
      ensures r == NoMem ==> free == [] && |old(free)| < TablesFor(old(mem)[d], va, last + 1)
      ensures r == Panic <==> to <= last && Present(Pte(old(mem), d, to))
    {
      var a, pa := va, f;
      assert InHands(own, f, 0) == own;
      while true
        invariant Valid() && own[d] == Dir && va <= a <= last && pa == f + (a - va)
        invariant MappedTo(old(mem), old(own), mem, InHands(own, f, Users(va, a)), d, va, a, f, perm)
        invariant HandsGiven(own, d, va, f, Users(va, a))
        invariant HandsHeld(own, first, f + Users(va, a), f + Users(va, last + 1))
        invariant Walked(|old(free)|, old(mem)[d], |free|, mem[d], va, a)
        decreases last - a
      {
        r := MapRound(d, va, a, last, f, pa, perm, old(mem), old(own), |old(free)|);
        to := if r == Ok then a + 1 else a;
        if r == NoMem { StuckShort(|old(free)|, old(mem)[d], |free|, mem[d], va, to, last); }
        if r != Ok || a == last {
          return;
        }
        a, pa := a + 1, pa + 1;
      }
    }

    // kalloc and memset of a new directory.
    method NewDir(data: nat) returns (d: nat)
      requires Valid() && EXTPAGE < data < NPAGES
      modifies this
      ensures Valid()
      ensures d != 0 ==> d < NPAGES && NewSpace(old(mem), old(own), mem, own, d, data, 0)
      ensures d == 0 ==> Value() == old(Value()) && own == old(own) && old(free) == []
      ensures d != 0 ==> |old(free)| == |free| + 1 && KernelDir(mem[d], data, 0)
    {
      d := Kalloc();
      if d != 0 {
        NewDirectory(mem, old(own), d, data);
        NewKernelDir(data);
        KeepChained(mem, mem[d := ZeroPage()], first, freelist, free);
        mem := mem[d := ZeroPage()];
        own := own[d := Dir];
        assert own == old(own)[d := Dir];
      }
    }

    // One row of kmap: mappages never meets a mapped page.
    method MapRow(d: nat, data: nat, k: nat, ghost m0: seq<Page>, ghost o0: seq<Owner>) returns (ok: bool)
      requires Valid() && EXTPAGE < data < NPAGES && d < NPAGES && k < 4 && NewSpace(m0, o0, mem, own, d, data, k)
      requires KernelDir(mem[d], data, k)
      modifies this
      ensures Valid() && Grew(m0, o0, mem, own, d) && PteKept(m0, o0, mem, d, 0, VPAGES) && own[d] == Dir
      ensures ok ==> NewSpace(m0, o0, mem, own, d, data, k + 1) && KernelDir(mem[d], data, k + 1)
      ensures ok ==> |old(free)| + KernelTables(data, k) == |free| + KernelTables(data, k + 1)
      ensures !ok ==> |old(free)| + KernelTables(data, k) < KernelTables(data, k + 1)
    {
      var row := Kmap(data, k);
      var r, to := Mappages(d, row.virt, row.virt + row.n - 1, row.phys, row.perm);
      assert InHands(own, row.phys, 0) == own;
      RowMapped(m0, o0, old(mem), old(own), mem, own, d, data, k, to);
      if to < row.virt + row.n { RowNotMapped(old(mem), d, data, k, to); }
      assert r != Panic;
      ok := r == Ok;
      RowCount(|old(free)|, old(mem)[d], |free|, mem[d], data, k, ok);
    }

    // setupkvm; data is the frame where the kernel's data starts.
    method Setupkvm(data: nat) returns (d: nat)
      requires Valid() && EXTPAGE < data < NPAGES
      modifies this
      ensures Valid()
      ensures d != 0 ==> d < NPAGES && NewSpace(old(mem), old(own), mem, own, d, data, 4)
      ensures d == 0 ==> Undone(old(mem), old(own), mem, own)
      ensures d != 0 <==> |old(free)| >= KVMPAGES
      ensures d != 0 ==> |old(free)| == |free| + KVMPAGES && KernelDir(mem[d], data, 4)
    {
      d := NewDir(data);
      if d == 0 {
        return;
      }
      var k := 0;
      while k < 4
        invariant 0 <= k <= 4 && Valid() && d < NPAGES && NewSpace(old(mem), old(own), mem, own, d, data, k)
        invariant KernelDir(mem[d], data, k) && |old(free)| == |free| + 1 + KernelTables(data, k)
      {
        var ok := MapRow(d, data, k, old(mem), old(own));
        if !ok {
          ghost var m2, o2 := mem, own;
          ok := Freevm(d);
          NewSpaceUndone(old(mem), old(own), m2, o2, mem, own, d);
          return 0;
        }
        k := k + 1;
      }
    }

    // kalloc and memset or memmove.
    method TakePage(page: Page) returns (f: nat)
      requires Valid()
      modifies this
      ensures Valid()
      ensures f == 0 ==> free == old(free) == [] && mem == old(mem) && own == old(own)
      ensures f != 0 ==> |old(free)| == |free| + 1
      ensures f != 0 ==> first <= f < NPAGES && old(own)[f] == Free && own == old(own)[f := Other]
      ensures f != 0 ==> mem == old(mem)[f := page]
    {
      f := Kalloc();
      if f != 0 {
        SwapKeeps(mem, own, f, page, Other);
        KeepChained(mem, mem[f := page], first, freelist, free);
        assert own[f := Other] == own;
        mem := mem[f := page];
      }
    }

    // mappages of a page that was just taken from m0.
    method MapTaken(c: nat, p: nat, f: nat, perm: nat, ghost page: Page, ghost m0: seq<Page>, ghost o0: seq<Owner>)
      returns (r: Outcome)
      requires Valid() && first <= f < NPAGES && c < NPAGES && p < VPAGES && perm < 4096
      requires p < KPAGE || Present(Pte(m0, c, p))
      requires |m0| == NPAGES && Sound(m0, o0) && o0[f] == Free && o0[c] == Dir && mem == m0[f := page] &&
        own == o0[f := Other]
      modifies this
      ensures Valid()
      ensures r == Ok ==> Given(m0, o0, mem, own, c, p, page, WithP(perm))
      ensures r == NoMem ==> old(free) == [] && free == [] && InHand(m0, o0, mem, own, c, f)
      ensures r == Panic <==> Present(Pte(m0, c, p))
      ensures r == Ok ==> Walked(|old(free)|, m0[c], |free|, mem[c], p, p + 1)
      ensures r == NoMem ==> |old(free)| < TablesFor(m0[c], p, p + 1)
    {
      OneTable(m0[c], p);
      TakenPte(m0, o0, f, page, c, p);
      ghost var to;
      assert HandsHeld(own, first, f, f + Users(p, p + 1));
      r, to := Mappages(c, p, p, f, perm);
      assert InHands(own, f, 0) == own && InHands(own, f, 1) == own[f := Other];
      if r == Ok {
        assert MappedAt(old(mem), mem, c, p, f, perm, p) && GivenAt(own, c, p, f, f);
      }
      PageMapped(m0, o0, f, page, mem, own, c, p, perm, r == Ok, to);
    }

    // A new page with these contents is mapped at page p of c.  A page that could not
    // be mapped is still in hand.
    method GivePage(c: nat, p: nat, page: Page, perm: nat) returns (r: Outcome, hand: nat)
      requires Valid() && c < NPAGES && own[c] == Dir && p < VPAGES && perm < 4096
      requires p < KPAGE || Present(Pte(mem, c, p))
      modifies this
      ensures Valid() && (r == NoMem ==> free == [] && |old(free)| <= 1)
      ensures r == Panic <==> Present(Pte(old(mem), c, p)) && old(free) != []
      ensures r == Ok ==> Given(old(mem), old(own), mem, own, c, p, page, WithP(perm))
      ensures r == NoMem && hand == 0 ==> mem == old(mem) && own == old(own)
      ensures r == NoMem && hand != 0 ==> first <= hand < NPAGES && InHand(old(mem), old(own), mem, own, c, hand)
      ensures r == Ok ==> |old(free)| > 0 && Walked(|old(free)| - 1, old(mem)[c], |free|, mem[c], p, p + 1)
      ensures r == NoMem ==> |old(free)| < AllocNeeds(old(mem)[c], p, p + 1)
    {
      hand := TakePage(page);
      if hand == 0 {
        return NoMem, 0;
      }
      r := MapTaken(c, p, hand, perm, page, old(mem), old(own));
    }
  }
}

/** Physical pages and page tables of vm.c and kalloc.c as values.

    Memory is a sequence of pages of 1024 words, and a pointer to a page is its frame
    number.  Every page carries one owner: the free list, an address space (as its
    directory, a page table or a mapped user page) or anything else.  Sound says that
    the owners and the page tables in memory tell the same story. */
module VmState {
  const NPTENTRIES: nat := 1024
  const NPAGES: nat := 0xE000       // PHYSTOP / PGSIZE
  const KDIR: nat := 512            // PDX(KERNBASE)
  const KPAGE: nat := 0x8_0000      // KERNBASE / PGSIZE
  const VPAGES: nat := 0x10_0000    // page numbers
  const PTE_W: nat := 2
  const PTE_U: nat := 4

  type Page = p: seq<nat> | |p| == NPTENTRIES witness seq(NPTENTRIES, _ => 0)

  function ZeroPage(): Page {
    seq(NPTENTRIES, _ => 0)
  }

  // ---- entries ----

  // *pte & PTE_P
  predicate Present(e: nat) {
    e % 2 == 1
  }

  // PTE_ADDR, as a frame number
  function Frame(e: nat): nat {
    e / 4096
  }

  // PTE_FLAGS
  function Flags(e: nat): nat {
    e % 4096
  }

  // perm | PTE_P
  function WithP(perm: nat): nat {
    if perm % 2 == 1 then perm else perm + 1
  }

  // pa | perm | PTE_P
  function Entry(f: nat, perm: nat): (e: nat)
    requires perm < 4096
    ensures Present(e) && Frame(e) == f && Flags(e) == WithP(perm)
  {
    f * 4096 + WithP(perm)
  }

  // ---- owners ----

  datatype Owner = Free | Other | Dir | Tab(d: nat, i: nat) | User(d: nat, i: nat, j: nat)

  // What an owner claims of memory is so.
  ghost predicate FrameOk(mem: seq<Page>, own: seq<Owner>, f: nat)
    requires |own| == |mem|
  {
    f < |mem| ==>
      match own[f]
      case Tab(d, i) => d < |mem| && i < NPTENTRIES && own[d] == Dir && Present(mem[d][i]) && Frame(mem[d][i]) == f
      case User(d, i, j) =>
        && d < |mem| && i < KDIR && j < NPTENTRIES && own[d] == Dir && Present(mem[d][i]) && Frame(mem[d][i]) < |mem|
        && Present(mem[Frame(mem[d][i])][j]) && Frame(mem[Frame(mem[d][i])][j]) == f
      case _ => true
  }

  // A present directory entry refers to a table of that directory.
  ghost predicate DirOk(mem: seq<Page>, own: seq<Owner>, d: nat, i: nat)
    requires |own| == |mem|
  {
    d < |mem| && own[d] == Dir && i < NPTENTRIES && Present(mem[d][i]) ==>
      Frame(mem[d][i]) < |mem| && own[Frame(mem[d][i])] == Tab(d, i)
  }

  // A present entry below KERNBASE refers to a user page mapped there.
  ghost predicate TabOk(mem: seq<Page>, own: seq<Owner>, t: nat, j: nat)
    requires |own| == |mem|
  {
    t < |mem| && own[t].Tab? && own[t].i < KDIR && j < NPTENTRIES && Present(mem[t][j]) ==>
      Frame(mem[t][j]) < |mem| && own[Frame(mem[t][j])] == User(own[t].d, own[t].i, j)
  }

  /** The page tables in memory and the owners of pages agree. */
  ghost predicate Sound(mem: seq<Page>, own: seq<Owner>) {
    && |own| == |mem|
    && (forall f :: FrameOk(mem, own, f))
    && (forall d, i :: DirOk(mem, own, d, i))
    && (forall t, j :: TabOk(mem, own, t, j))
  }

  // The entry of page number p in directory d, 0 where there is no table.
  function Pte(mem: seq<Page>, d: nat, p: nat): nat
    requires p < VPAGES
  {
    if d < |mem| && Present(mem[d][p / NPTENTRIES]) && Frame(mem[d][p / NPTENTRIES]) < |mem| then
      mem[Frame(mem[d][p / NPTENTRIES])][p % NPTENTRIES]
    else 0
  }

  /** Each page plays exactly one part in memory, the one its owner names: a page is a
      table when some directory has an entry for it, and a user page when some
      directory maps it below KERNBASE. */
  lemma OwnersArePlaces(mem: seq<Page>, own: seq<Owner>, f: nat)
    requires Sound(mem, own) && f < |mem|
    ensures own[f].Tab? <==> exists d: nat, i: nat :: IsTable(mem, own, d, i, f)
    ensures own[f].User? <==> exists d: nat, p: nat :: IsMapped(mem, own, d, p, f)
  {
    assert FrameOk(mem, own, f);
    if own[f].Tab? {
      assert IsTable(mem, own, own[f].d, own[f].i, f);
    } else if own[f].User? {
      MappedAtOwner(mem, own, own[f].d, own[f].i, own[f].j, f);
    }
    forall d: nat, i: nat | IsTable(mem, own, d, i, f) ensures own[f] == Tab(d, i) {
      assert DirOk(mem, own, d, i);
    }
    forall d: nat, p: nat | IsMapped(mem, own, d, p, f) ensures own[f] == User(d, p / NPTENTRIES, p % NPTENTRIES) {
      MappedIsOwned(mem, own, d, p);
    }
  }

  ghost predicate IsTable(mem: seq<Page>, own: seq<Owner>, d: nat, i: nat, f: nat)
    requires |own| == |mem|
  {
    d < |mem| && own[d] == Dir && i < NPTENTRIES && Present(mem[d][i]) && Frame(mem[d][i]) == f
  }

  ghost predicate IsMapped(mem: seq<Page>, own: seq<Owner>, d: nat, p: nat, f: nat)
    requires |own| == |mem|
  {
    d < |mem| && own[d] == Dir && p < KPAGE && Present(Pte(mem, d, p)) && Frame(Pte(mem, d, p)) == f
  }

  lemma MappedAtOwner(mem: seq<Page>, own: seq<Owner>, d: nat, i: nat, j: nat, f: nat)
    requires Sound(mem, own) && f < |mem| && own[f] == User(d, i, j)
    ensures i * NPTENTRIES + j < KPAGE && IsMapped(mem, own, d, i * NPTENTRIES + j, f)
  {
    var p := i * NPTENTRIES + j;
    assert FrameOk(mem, own, f);
    assert p / NPTENTRIES == i && p % NPTENTRIES == j;
  }

  // A mapped page is owned by the place that maps it.
  lemma MappedIsOwned(mem: seq<Page>, own: seq<Owner>, d: nat, p: nat)
    requires Sound(mem, own) && d < |mem| && own[d] == Dir && p < KPAGE && Present(Pte(mem, d, p))
    ensures Frame(Pte(mem, d, p)) < |mem| && own[Frame(Pte(mem, d, p))] == User(d, p / NPTENTRIES, p % NPTENTRIES)
  {
    assert DirOk(mem, own, d, p / NPTENTRIES) && TabOk(mem, own, Frame(mem[d][p / NPTENTRIES]), p % NPTENTRIES);
  }

  /** No page is mapped twice, in one address space or in two. */
  lemma MappedOnce(mem: seq<Page>, own: seq<Owner>, d: nat, p: nat, e: nat, q: nat)
    requires Sound(mem, own) && d < |mem| && own[d] == Dir && e < |mem| && own[e] == Dir && p < KPAGE && q < KPAGE
    requires Present(Pte(mem, d, p)) && Present(Pte(mem, e, q)) && Frame(Pte(mem, d, p)) == Frame(Pte(mem, e, q))
    ensures d == e && p == q
  {
    MappedIsOwned(mem, own, d, p);
    MappedIsOwned(mem, own, e, q);
    assert p == p / NPTENTRIES * NPTENTRIES + p % NPTENTRIES && q == q / NPTENTRIES * NPTENTRIES + q % NPTENTRIES;
  }

  // Directory d translates every page in mem' as it did in mem.
  ghost predicate SamePte(mem: seq<Page>, mem': seq<Page>, d: nat, p: nat) {
    p < VPAGES ==> Pte(mem', d, p) == Pte(mem, d, p)
  }

  // Every directory translates every page as before, except pages lo..hi in d.
  ghost predicate PteKept(mem: seq<Page>, own: seq<Owner>, mem': seq<Page>, d: nat, lo: int, hi: int)
    requires |own| == |mem|
  {
    forall e: nat, p: nat :: e < |mem| && own[e] == Dir && !(e == d && lo <= p < hi) ==> SamePte(mem, mem', e, p)
  }

  // ---- the elementary changes ----

  // Pages of no address space can change contents and hands freely.
  lemma SwapKeeps(mem: seq<Page>, own: seq<Owner>, f: nat, page: Page, o: Owner)
    requires Sound(mem, own) && f < |mem| && (own[f].Free? || own[f].Other?) && (o.Free? || o.Other?)
    ensures Sound(mem[f := page], own[f := o])
    ensures PteKept(mem, own, mem[f := page], 0, 0, 0)
  {
    var mem', own' := mem[f := page], own[f := o];
    forall g: nat ensures FrameOk(mem', own', g) {
      assert FrameOk(mem, own, g);
      if g < |mem| && own[g].User? { assert DirOk(mem, own, own[g].d, own[g].i); }
    }
    forall d: nat, i: nat ensures DirOk(mem', own', d, i) { assert DirOk(mem, own, d, i); }
    forall t: nat, j: nat ensures TabOk(mem', own', t, j) { assert TabOk(mem, own, t, j); }
    forall d: nat, p: nat | d < |mem| && own[d] == Dir ensures SamePte(mem, mem', d, p) {
      assert DirOk(mem, own, d, p / NPTENTRIES);
    }
  }

  // A zeroed page becomes a directory.
  lemma AddDirKeeps(mem: seq<Page>, own: seq<Owner>, d: nat)
    requires Sound(mem, own) && d < |mem| && own[d] == Other
    ensures Sound(mem[d := ZeroPage()], own[d := Dir])
    ensures PteKept(mem, own, mem[d := ZeroPage()], 0, 0, 0)
  {
    var mem', own' := mem[d := ZeroPage()], own[d := Dir];
    forall g: nat ensures FrameOk(mem', own', g) {
      assert FrameOk(mem, own, g);
      if g < |mem| && own[g].User? { assert DirOk(mem, own, own[g].d, own[g].i); }
    }
    forall e: nat, i: nat ensures DirOk(mem', own', e, i) { assert DirOk(mem, own, e, i); }
    forall t: nat, j: nat ensures TabOk(mem', own', t, j) { assert TabOk(mem, own, t, j); }
    forall e: nat, p: nat | e < |mem| && own[e] == Dir ensures SamePte(mem, mem', e, p) {
      assert DirOk(mem, own, e, p / NPTENTRIES);
    }
  }

  function TableAdded(mem: seq<Page>, d: nat, i: nat, t: nat): seq<Page>
    requires d < |mem| && i < NPTENTRIES && t < |mem|
  {
    mem[t := ZeroPage()][d := mem[d][i := Entry(t, PTE_W + PTE_U)]]
  }

  // A zeroed page becomes a table: no translation changes.
  lemma AddTableKeeps(mem: seq<Page>, own: seq<Owner>, d: nat, i: nat, t: nat)
    requires Sound(mem, own) && t < |mem| && own[t] == Other && d < |mem| && own[d] == Dir && i < NPTENTRIES &&
      !Present(mem[d][i])
    ensures Sound(TableAdded(mem, d, i, t), own[t := Tab(d, i)])
    ensures PteKept(mem, own, TableAdded(mem, d, i, t), 0, 0, 0)
  {
    var mem', own' := TableAdded(mem, d, i, t), own[t := Tab(d, i)];
    forall g: nat ensures FrameOk(mem', own', g) {
      assert FrameOk(mem, own, g);
      if g < |mem| && own[g].User? { assert DirOk(mem, own, own[g].d, own[g].i); }
    }
    forall e: nat, k: nat ensures DirOk(mem', own', e, k) { assert DirOk(mem, own, e, k); }
    forall u: nat, j: nat ensures TabOk(mem', own', u, j) { assert TabOk(mem, own, u, j); }
    forall e: nat, p: nat | e < |mem| && own[e] == Dir ensures SamePte(mem, mem', e, p) {
      assert DirOk(mem, own, e, p / NPTENTRIES);
    }
  }

  // Write entry j of table t.
  function EntrySet(mem: seq<Page>, t: nat, j: nat, e: nat): seq<Page>
    requires t < |mem| && j < NPTENTRIES
  {
    mem[t := mem[t][j := e]]
  }

  // Writing an entry of a table changes the translation of one page in one directory.
  lemma SetPte(mem: seq<Page>, own: seq<Owner>, d: nat, p: nat, t: nat, e: nat)
    requires Sound(mem, own) && t < |mem| && p < VPAGES && own[t] == Tab(d, p / NPTENTRIES)
    ensures PteKept(mem, own, EntrySet(mem, t, p % NPTENTRIES, e), d, p, p + 1)
    ensures Pte(EntrySet(mem, t, p % NPTENTRIES, e), d, p) == e
  {
    var mem' := EntrySet(mem, t, p % NPTENTRIES, e);
    assert FrameOk(mem, own, t);
    forall d': nat, q: nat | d' < |mem| && own[d'] == Dir && !(d' == d && p <= q < p + 1)
      ensures SamePte(mem, mem', d', q)
    {
      assert DirOk(mem, own, d', q / NPTENTRIES);
      assert q / NPTENTRIES == p / NPTENTRIES && q % NPTENTRIES == p % NPTENTRIES ==> p == q;
    }
  }

  lemma SetUserKeeps(mem: seq<Page>, own: seq<Owner>, d: nat, i: nat, j: nat, t: nat, f: nat, perm: nat)
    requires Sound(mem, own) && t < |mem| && own[t] == Tab(d, i) && i < KDIR && j < NPTENTRIES && !Present(mem[t][j])
    requires f < |mem| && own[f] == Other && perm < 4096
    ensures Sound(EntrySet(mem, t, j, Entry(f, perm)), own[f := User(d, i, j)])
  {
    var mem', own' := EntrySet(mem, t, j, Entry(f, perm)), own[f := User(d, i, j)];
    assert FrameOk(mem, own, t);
    forall g: nat ensures FrameOk(mem', own', g) {
      assert FrameOk(mem, own, g);
      if g < |mem| && own[g].User? { assert DirOk(mem, own, own[g].d, own[g].i); }
    }
    forall e: nat, k: nat ensures DirOk(mem', own', e, k) { assert DirOk(mem, own, e, k); }
    forall u: nat, k: nat ensures TabOk(mem', own', u, k) { assert TabOk(mem, own, u, k); }
  }

  // Entries for addresses of the kernel own nothing.
  lemma SetKernelKeeps(mem: seq<Page>, own: seq<Owner>, d: nat, i: nat, j: nat, t: nat, e: nat)
    requires Sound(mem, own) && t < |mem| && own[t] == Tab(d, i) && KDIR <= i && j < NPTENTRIES
    ensures Sound(EntrySet(mem, t, j, e), own)
  {
    var mem' := EntrySet(mem, t, j, e);
    forall g: nat ensures FrameOk(mem', own, g) {
      assert FrameOk(mem, own, g);
      if g < |mem| && own[g].User? { assert DirOk(mem, own, own[g].d, own[g].i); }
    }
    forall c: nat, k: nat ensures DirOk(mem', own, c, k) { assert DirOk(mem, own, c, k); }
    forall u: nat, k: nat ensures TabOk(mem', own, u, k) { assert TabOk(mem, own, u, k); }
  }

  // Clearing the entry of a user page gives the page up.
  lemma ClearUserKeeps(mem: seq<Page>, own: seq<Owner>, d: nat, i: nat, j: nat, t: nat, f: nat)
    requires Sound(mem, own) && t < |mem| && own[t] == Tab(d, i) && f < |mem| && own[f] == User(d, i, j)
    ensures j < NPTENTRIES && Sound(EntrySet(mem, t, j, 0), own[f := Other])
  {
    assert FrameOk(mem, own, f) && FrameOk(mem, own, t);
    var mem', own' := EntrySet(mem, t, j, 0), own[f := Other];
    forall g: nat ensures FrameOk(mem', own', g) {
      assert FrameOk(mem, own, g);
      if g < |mem| && own[g].User? {
        assert DirOk(mem, own, own[g].d, own[g].i);
      }
    }
    forall e: nat, k: nat ensures DirOk(mem', own', e, k) { assert DirOk(mem, own, e, k); }
    forall u: nat, k: nat ensures TabOk(mem', own', u, k) {
      assert TabOk(mem, own, u, k);
      assert FrameOk(mem, own, u);
    }
  }

  // ---- what operations on one address space keep ----

  predicate OwnedBy(own: seq<Owner>, d: nat, f: nat)
    requires f < |own|
  {
    match own[f]
    case Dir => f == d
    case Tab(e, i) => e == d
    case User(e, i, j) => e == d
    case _ => false
  }

  // Free pages stay free or go to address space d; all other pages keep owner and contents.
  ghost predicate GrewAt(mem: seq<Page>, own: seq<Owner>, mem': seq<Page>, own': seq<Owner>, d: nat, f: nat)
    requires |own| == |mem| == |own'| == |mem'|
  {
    f < |mem| ==>
      && (own[f] == Free ==> own'[f] == Free || OwnedBy(own', d, f))
      && (own[f] != Free ==> own'[f] == own[f])
      && (own[f].User? || own[f].Other? ==> mem'[f] == mem[f])
  }

  ghost predicate Grew(mem: seq<Page>, own: seq<Owner>, mem': seq<Page>, own': seq<Owner>, d: nat) {
    |own| == |mem| == |own'| == |mem'| && forall f :: GrewAt(mem, own, mem', own', d, f)
  }

  lemma GrewTrans(m0: seq<Page>, o0: seq<Owner>, m1: seq<Page>, o1: seq<Owner>, m2: seq<Page>, o2: seq<Owner>, d: nat)
    requires Grew(m0, o0, m1, o1, d) && Grew(m1, o1, m2, o2, d)
    ensures Grew(m0, o0, m2, o2, d)
  {
    forall f: nat ensures GrewAt(m0, o0, m2, o2, d, f) {
      assert GrewAt(m0, o0, m1, o1, d, f) && GrewAt(m1, o1, m2, o2, d, f);
    }
  }

  // A free page f taken in hand, filled, and given to d.
  lemma GrewByTaking(m0: seq<Page>, o0: seq<Owner>, f: nat, page: Page, m1: seq<Page>, o1: seq<Owner>, o: Owner, d: nat)
    requires |o0| == |m0| && f < |m0| && o0[f] == Free
    requires Grew(m0[f := page], o0[f := Other], m1, o1, d)
    requires OwnedBy(o1[f := o], d, f)
    ensures Grew(m0, o0, m1, o1[f := o], d)
  {
    var o2 := o1[f := o];
    forall g: nat ensures GrewAt(m0, o0, m1, o2, d, g) {
      assert GrewAt(m0[f := page], o0[f := Other], m1, o1, d, g);
    }
  }

  lemma TableGrew(mem: seq<Page>, own: seq<Owner>, d: nat, i: nat, t: nat)
    requires |own| == |mem| && t < |mem| && own[t] == Free && d < |mem| && own[d] == Dir && i < NPTENTRIES
    ensures Grew(mem, own, TableAdded(mem, d, i, t), own[t := Tab(d, i)], d)
  {
    var mem', own' := TableAdded(mem, d, i, t), own[t := Tab(d, i)];
    assert forall f: nat :: GrewAt(mem, own, mem', own', d, f);
  }

  lemma EntryGrew(mem: seq<Page>, own: seq<Owner>, d: nat, t: nat, j: nat, e: nat)
    requires |own| == |mem| && t < |mem| && own[t].Tab? && j < NPTENTRIES
    ensures Grew(mem, own, EntrySet(mem, t, j, e), own, d)
  {
    var mem' := EntrySet(mem, t, j, e);
    assert forall f: nat :: GrewAt(mem, own, mem', own, d, f);
  }

  ghost predicate DirsKept(own: seq<Owner>, own': seq<Owner>) {
    |own'| == |own| && forall e :: 0 <= e < |own| && own[e] == Dir ==> own'[e] == Dir
  }

  lemma GrewKeeps(mem: seq<Page>, own: seq<Owner>, mem': seq<Page>, own': seq<Owner>, d: nat, f: nat)
    requires Grew(mem, own, mem', own', d)
    ensures DirsKept(own, own')
    ensures f < |own| && own[f] != Free ==> own'[f] == own[f]
  {
    forall e: nat | e < |own| && own[e] == Dir ensures own'[e] == Dir {
      assert GrewAt(mem, own, mem', own', d, e);
    }
    assert GrewAt(mem, own, mem', own', d, f);
  }

  // After walking to table t of d, entry p is written.
  lemma WalkThenSet(m0: seq<Page>, o0: seq<Owner>, m1: seq<Page>, o1: seq<Owner>, d: nat, p: nat, t: nat, e: nat)
    requires Grew(m0, o0, m1, o1, d) && PteKept(m0, o0, m1, 0, 0, 0)
    requires Sound(m1, o1) && t < |m1| && p < VPAGES && o1[t] == Tab(d, p / NPTENTRIES)
    ensures Grew(m0, o0, EntrySet(m1, t, p % NPTENTRIES, e), o1, d)
    ensures PteKept(m0, o0, EntrySet(m1, t, p % NPTENTRIES, e), d, p, p + 1)
    ensures Pte(EntrySet(m1, t, p % NPTENTRIES, e), d, p) == e
  {
    var m2 := EntrySet(m1, t, p % NPTENTRIES, e);
    EntryGrew(m1, o1, d, t, p % NPTENTRIES, e);
    GrewTrans(m0, o0, m1, o1, m2, o1, d);
    SetPte(m1, o1, d, p, t, e);
    GrewKeeps(m0, o0, m1, o1, d, d);
    PteKeptTrans(m0, o0, m1, o1, m2, d, p, p, p + 1);
  }

  lemma PteKeptTrans(m0: seq<Page>, o0: seq<Owner>, m1: seq<Page>, o1: seq<Owner>, m2: seq<Page>, d: nat, lo: int,
                     mid: int, hi: int)
    requires |o0| == |m0| == |o1| == |m1| && lo <= mid <= hi
    requires DirsKept(o0, o1)
    requires PteKept(m0, o0, m1, d, lo, mid) && PteKept(m1, o1, m2, d, mid, hi)
    ensures PteKept(m0, o0, m2, d, lo, hi)
  {
    forall e: nat, p: nat | e < |m0| && o0[e] == Dir && !(e == d && lo <= p < hi) ensures SamePte(m0, m2, e, p) {
      assert SamePte(m0, m1, e, p) && SamePte(m1, m2, e, p);
    }
  }

  // ---- giving up pages ----

  predicate InRange(o: Owner, d: nat, lo: nat, hi: nat) {
    o.User? && o.d == d && lo <= o.i * NPTENTRIES + o.j < hi
  }

  ghost predicate DroppedAt(mem: seq<Page>, own: seq<Owner>, mem': seq<Page>, own': seq<Owner>, d: nat, lo: nat,
                      hi: nat, f: nat)
    requires |own| == |mem| == |own'| == |mem'|
  {
    f < |mem| ==>
      && own'[f] == (if InRange(own[f], d, lo, hi) then Free else own[f])
      && (own[f].Other? || (own[f].User? && !InRange(own[f], d, lo, hi)) ==> mem'[f] == mem[f])
  }

  ghost predicate Cleared(mem: seq<Page>, mem': seq<Page>, d: nat, p: nat) {
    p < VPAGES ==> Pte(mem', d, p) == if Present(Pte(mem, d, p)) then 0 else Pte(mem, d, p)
  }

  /** Exactly the user pages of d at page numbers lo..hi went to the free list, and
      exactly their entries were cleared. */
  ghost predicate Dropped(mem: seq<Page>, own: seq<Owner>, mem': seq<Page>, own': seq<Owner>, d: nat, lo: nat,
                      hi: nat) {
    && |own| == |mem| == |own'| == |mem'|
    && (forall f :: DroppedAt(mem, own, mem', own', d, lo, hi, f))
    && PteKept(mem, own, mem', d, lo, hi)
    && (forall p :: lo <= p < hi ==> Cleared(mem, mem', d, p))
  }

  // Freeing the page that entry j of table t maps, and clearing the entry.
  lemma DropOne(mem: seq<Page>, own: seq<Owner>, d: nat, p: nat, t: nat, page: Page)
    requires Sound(mem, own) && p < KPAGE && t < |mem| && own[t] == Tab(d, p / NPTENTRIES) &&
      Present(mem[t][p % NPTENTRIES])
    ensures var f := Frame(mem[t][p % NPTENTRIES]);
      && f < |mem| && own[f] == User(d, p / NPTENTRIES, p % NPTENTRIES)
      && Sound(EntrySet(mem[f := page], t, p % NPTENTRIES, 0), own[f := Free])
      && Dropped(mem, own, EntrySet(mem[f := page], t, p % NPTENTRIES, 0), own[f := Free], d, p, p + 1)
  {
    var i, j := p / NPTENTRIES, p % NPTENTRIES;
    assert TabOk(mem, own, t, j) && FrameOk(mem, own, t);
    var f := Frame(mem[t][j]);
    var m1, o1 := EntrySet(mem, t, j, 0), own[f := Other];
    ClearUserKeeps(mem, own, d, i, j, t, f);
    SetPte(mem, own, d, p, t, 0);
    SwapKeeps(m1, o1, f, page, Free);
    var m2, o2 := m1[f := page], own[f := Free];
    assert m2 == EntrySet(mem[f := page], t, j, 0) && o1[f := Free] == o2;
    forall e: nat, q: nat | e < |mem| && own[e] == Dir && !(e == d && p <= q < p + 1) ensures SamePte(mem, m2, e, q) {
      assert SamePte(mem, m1, e, q) && SamePte(m1, m2, e, q);
    }
    assert SamePte(m1, m2, d, p);
    DropOwners(mem, own, m2, o2, d, p, p + 1, f, t);
  }

  lemma DropOwners(mem: seq<Page>, own: seq<Owner>, mem': seq<Page>, own': seq<Owner>, d: nat, p: nat, q: nat, f: nat,
                   t: nat)
    requires Sound(mem, own) && f < |mem| == |mem'| && own[f] == User(d, p / NPTENTRIES, p % NPTENTRIES)
    requires own' == own[f := Free] && q == p + 1
    requires t < |mem| && own[t].Tab? && forall g :: 0 <= g < |mem| && g != f && g != t ==> mem'[g] == mem[g]
    ensures forall g :: DroppedAt(mem, own, mem', own', d, p, q, g)
  {
    forall g: nat ensures DroppedAt(mem, own, mem', own', d, p, q, g) {
      if g < |mem| && InRange(own[g], d, p, q) {
        assert FrameOk(mem, own, g) && FrameOk(mem, own, f);
        assert own[g].i == p / NPTENTRIES && own[g].j == p % NPTENTRIES;
      }
    }
  }

  // Where nothing is mapped there is nothing to give up.
  lemma DropNone(mem: seq<Page>, own: seq<Owner>, d: nat, p: nat, q: nat)
    requires Sound(mem, own) && d < |mem| && own[d] == Dir && p <= q <= KPAGE
    requires forall r :: p <= r < q ==> !Present(Pte(mem, d, r))
    ensures Dropped(mem, own, mem, own, d, p, q)
  {
    forall f: nat ensures DroppedAt(mem, own, mem, own, d, p, q, f) {
      assert FrameOk(mem, own, f);
      if f < |mem| && own[f].User? {
        var r := own[f].i * NPTENTRIES + own[f].j;
        assert r / NPTENTRIES == own[f].i && r % NPTENTRIES == own[f].j;
        assert own[f].d == d ==> Present(Pte(mem, d, r));
      }
    }
  }

  lemma DroppedTrans(m0: seq<Page>, o0: seq<Owner>, m1: seq<Page>, o1: seq<Owner>, m2: seq<Page>, o2: seq<Owner>,
                     d: nat, lo: nat, mid: nat, hi: nat)
    requires Dropped(m0, o0, m1, o1, d, lo, mid) && Dropped(m1, o1, m2, o2, d, mid, hi) && lo <= mid <= hi
    requires d < |m0| && o0[d] == Dir
    ensures Dropped(m0, o0, m2, o2, d, lo, hi)
  {
    assert forall f: nat :: DroppedAt(m0, o0, m1, o1, d, lo, mid, f) && DroppedAt(m1, o1, m2, o2, d, mid, hi, f) ==>
      DroppedAt(m0, o0, m2, o2, d, lo, hi, f);
    forall e: nat | e < |o0| && o0[e] == Dir ensures o1[e] == Dir {
      assert DroppedAt(m0, o0, m1, o1, d, lo, mid, e);
    }
    PteKeptTrans(m0, o0, m1, o1, m2, d, lo, mid, hi);
    assert DroppedAt(m0, o0, m1, o1, d, lo, mid, d);
    forall p | lo <= p < hi ensures Cleared(m0, m2, d, p) {
      if p < mid {
        assert Cleared(m0, m1, d, p) && SamePte(m1, m2, d, p);
      } else {
        assert SamePte(m0, m1, d, p) && Cleared(m1, m2, d, p);
      }
    }
  }

  // ---- giving up an address space ----

  function Detached(own: seq<Owner>, d: nat): (r: seq<Owner>)
    ensures |r| == |own|
    ensures forall f :: 0 <= f < |own| ==> r[f] == if OwnedBy(own, d, f) then Other else own[f]
  {
    seq(|own|, f requires 0 <= f < |own| => if OwnedBy(own, d, f) then Other else own[f])
  }

  lemma DetachKeeps(mem: seq<Page>, own: seq<Owner>, d: nat)
    requires Sound(mem, own) && d < |mem| && own[d] == Dir
    ensures Sound(mem, Detached(own, d))
  {
    var own' := Detached(own, d);
    forall g: nat ensures FrameOk(mem, own', g) { assert FrameOk(mem, own, g); }
    forall e: nat, k: nat ensures DirOk(mem, own', e, k) { assert DirOk(mem, own, e, k); }
    forall u: nat, k: nat ensures TabOk(mem, own', u, k) {
      assert TabOk(mem, own, u, k);
      assert FrameOk(mem, own, u);
    }
  }

  // freevm's loop has freed the tables of d below index i; the rest of d is in hand.
  ghost predicate TableFreed(mem: seq<Page>, own: seq<Owner>, mem': seq<Page>, own': seq<Owner>, d: nat, i: nat, f: nat)
    requires |own| == |mem| == |own'| == |mem'|
  {
    f < |mem| ==>
      && own'[f] == (if own[f].Tab? && own[f].d == d && own[f].i < i then Free
                     else if OwnedBy(own, d, f) then Other
                     else own[f])
      && (!OwnedBy(own, d, f) ==> mem'[f] == mem[f])
  }

  ghost predicate TablesFreed(mem: seq<Page>, own: seq<Owner>, mem': seq<Page>, own': seq<Owner>, d: nat, i: nat) {
    |own| == |mem| == |own'| == |mem'| && forall f :: TableFreed(mem, own, mem', own', d, i, f)
  }

  lemma FreeTablesStart(mem: seq<Page>, own: seq<Owner>, d: nat)
    requires |own| == |mem|
    ensures TablesFreed(mem, own, mem, Detached(own, d), d, 0)
  {
    assert forall f: nat :: TableFreed(mem, own, mem, Detached(own, d), d, 0, f);
  }

  lemma FreeTablesNext(m0: seq<Page>, o0: seq<Owner>, m1: seq<Page>, o1: seq<Owner>, m2: seq<Page>, o2: seq<Owner>,
                      d: nat, i: nat)
    requires Sound(m0, o0) && d < |m0| && o0[d] == Dir && i < NPTENTRIES && TablesFreed(m0, o0, m1, o1, d, i)
    requires |o2| == |m2| == |m1|
    requires !Present(m0[d][i]) ==> m2 == m1 && o2 == o1
    requires Present(m0[d][i]) ==> Frame(m0[d][i]) < |m0| && o2 == o1[Frame(m0[d][i]) := Free]
    requires Present(m0[d][i]) ==> forall f :: 0 <= f < |m1| && f != Frame(m0[d][i]) ==> m2[f] == m1[f]
    ensures TablesFreed(m0, o0, m2, o2, d, i + 1)
  {
    var k := i + 1;
    assert DirOk(m0, o0, d, i);
    forall f: nat ensures TableFreed(m0, o0, m2, o2, d, k, f) {
      assert TableFreed(m0, o0, m1, o1, d, i, f) && FrameOk(m0, o0, f);
    }
  }

  lemma PteKeptMore(m0: seq<Page>, o0: seq<Owner>, m1: seq<Page>, o1: seq<Owner>, m2: seq<Page>)
    requires |o0| == |m0| == |o1| == |m1| && PteKept(m0, o0, m1, 0, 0, 0) && PteKept(m1, o1, m2, 0, 0, 0)
    requires DirsKept(o0, o1)
    ensures PteKept(m0, o0, m2, 0, 0, 0)
  {
    PteKeptTrans(m0, o0, m1, o1, m2, 0, 0, 0, 0);
  }

  lemma TablesFreedDirs(m0: seq<Page>, o0: seq<Owner>, m1: seq<Page>, o1: seq<Owner>, d: nat, i: nat)
    requires TablesFreed(m0, o0, m1, o1, d, i)
    ensures DirsKept(Detached(o0, d), o1)
  {
    forall e: nat | e < |o0| && Detached(o0, d)[e] == Dir ensures o1[e] == Dir {
      assert TableFreed(m0, o0, m1, o1, d, i, e);
    }
  }

  ghost predicate ReleasedAt(mem: seq<Page>, own: seq<Owner>, mem': seq<Page>, own': seq<Owner>, d: nat, f: nat)
    requires |own| == |mem| == |own'| == |mem'|
  {
    f < |mem| ==>
      && own'[f] == (if OwnedBy(own, d, f) then Free else own[f])
      && ((own[f].User? || own[f].Other?) && !OwnedBy(own, d, f) ==> mem'[f] == mem[f])
  }

  /** freevm: exactly the pages of address space d went to the free list; other pages
      and the translations of other address spaces are as they were. */
  ghost predicate Released(mem: seq<Page>, own: seq<Owner>, mem': seq<Page>, own': seq<Owner>, d: nat) {
    && |own| == |mem| == |own'| == |mem'|
    && (forall f :: ReleasedAt(mem, own, mem', own', d, f))
    && PteKept(mem, own, mem', d, 0, VPAGES)
  }

  // The user pages, then the tables, then the directory.
  lemma FreevmDone(m0: seq<Page>, o0: seq<Owner>, m1: seq<Page>, o1: seq<Owner>, m2: seq<Page>, o2: seq<Owner>,
                   m3: seq<Page>, d: nat)
    requires Sound(m0, o0) && d < |m0| && o0[d] == Dir
    requires Dropped(m0, o0, m1, o1, d, 0, KPAGE) && TablesFreed(m1, o1, m2, o2, d, NPTENTRIES)
    requires PteKept(m1, Detached(o1, d), m2, 0, 0, 0) && PteKept(m2, o2, m3, 0, 0, 0)
    requires |m3| == |m2| && forall f :: 0 <= f < |m2| && f != d ==> m3[f] == m2[f]
    ensures Released(m0, o0, m3, o2[d := Free], d)
  {
    var o3 := o2[d := Free];
    TablesFreedDirs(m1, o1, m2, o2, d, NPTENTRIES);
    forall f: nat ensures ReleasedAt(m0, o0, m3, o3, d, f) {
      assert FrameOk(m0, o0, f) && DroppedAt(m0, o0, m1, o1, d, 0, KPAGE, f) &&
        TableFreed(m1, o1, m2, o2, d, NPTENTRIES, f);
    }
    forall e: nat, p: nat | e < |m0| && o0[e] == Dir && !(e == d && 0 <= p < VPAGES) ensures SamePte(m0, m3, e, p) {
      if e != d {
        assert DroppedAt(m0, o0, m1, o1, d, 0, KPAGE, e) && TableFreed(m1, o1, m2, o2, d, NPTENTRIES, e);
        assert SamePte(m0, m1, e, p) && SamePte(m1, m2, e, p) && SamePte(m2, m3, e, p);
      }
    }
  }

  lemma NoUserLeft(m0: seq<Page>, o0: seq<Owner>, m1: seq<Page>, o1: seq<Owner>, d: nat)
    requires Sound(m0, o0) && d < |m0| && o0[d] == Dir && Dropped(m0, o0, m1, o1, d, 0, KPAGE)
    ensures o1[d] == Dir && forall f :: 0 <= f < |o1| && o1[f].User? ==> o1[f].d != d
  {
    forall f: nat | f < |o1| ensures o1[f].User? ==> o1[f].d != d {
      assert FrameOk(m0, o0, f) && DroppedAt(m0, o0, m1, o1, d, 0, KPAGE, f);
    }
    assert DroppedAt(m0, o0, m1, o1, d, 0, KPAGE, d);
  }

  // ---- the kernel part of every address space ----

  const EXTPAGE: nat := 0x100     // EXTMEM / PGSIZE
  const DEVPAGE: nat := 0xF_E000  // DEVSPACE / PGSIZE

  // A row of kmap: virtual page, first frame, number of pages, permission.
  datatype Row = Row(virt: nat, phys: nat, n: nat, perm: nat)

  // kmap, with the kernel's data starting at frame data
  function Kmap(data: nat, k: nat): Row
    requires EXTPAGE < data < NPAGES && k < 4
  {
    if k == 0 then Row(KPAGE, 0, EXTPAGE, PTE_W)
    else if k == 1 then Row(KPAGE + EXTPAGE, EXTPAGE, data - EXTPAGE, 0)
    else if k == 2 then Row(KPAGE + data, data, NPAGES - data, PTE_W)
    else Row(DEVPAGE, DEVPAGE, VPAGES - DEVPAGE, PTE_W)
  }

  // The entry of page p once the first k rows are mapped.
  function KernelPte(data: nat, k: nat, p: nat): nat
    requires EXTPAGE < data < NPAGES && k <= 4
  {
    if k == 0 then 0
    else
      var row := Kmap(data, k - 1);
      if row.virt <= p < row.virt + row.n then Entry(row.phys + (p - row.virt), row.perm) else KernelPte(data, k - 1, p)
  }

  // The kernel sees physical memory at KERNBASE, devices at DEVSPACE, and nothing else.
  lemma KernelView(data: nat, p: nat)
    requires EXTPAGE < data < NPAGES && KPAGE <= p < VPAGES
    ensures p < KPAGE + NPAGES ==> Present(KernelPte(data, 4, p)) && Frame(KernelPte(data, 4, p)) == p - KPAGE
    ensures KPAGE + NPAGES <= p < DEVPAGE ==> KernelPte(data, 4, p) == 0
    ensures DEVPAGE <= p ==> Present(KernelPte(data, 4, p)) && Frame(KernelPte(data, 4, p)) == p
  {
    assert KernelPte(data, 1, p) == if p < KPAGE + EXTPAGE then Entry(p - KPAGE, PTE_W) else 0;
    assert KernelPte(data, 2, p) == if KPAGE + EXTPAGE <= p < KPAGE + data then Entry(p - KPAGE, 0)
      else KernelPte(data, 1, p);
    assert KernelPte(data, 3, p) == if KPAGE + data <= p < KPAGE + NPAGES then Entry(p - KPAGE, PTE_W)
      else KernelPte(data, 2, p);
  }

  lemma RowIsFresh(data: nat, k: nat, p: nat)
    requires EXTPAGE < data < NPAGES && k < 4 && Kmap(data, k).virt <= p < Kmap(data, k).virt + Kmap(data, k).n
    ensures KernelPte(data, k, p) == 0
  {
    assert k >= 1 ==> KernelPte(data, 1, p) == 0;
    assert k >= 2 ==> KernelPte(data, 2, p) == 0;
  }

  // Directory d maps the kernel's rows below k and, above KERNBASE, nothing else.
  ghost predicate KernelMapped(mem: seq<Page>, d: nat, data: nat, k: nat)
    requires EXTPAGE < data < NPAGES && k <= 4
  {
    forall p :: KPAGE <= p < VPAGES ==> Pte(mem, d, p) == KernelPte(data, k, p)
  }

  /** From KERNBASE up no page is the user's (bit 4).  The kernel's text cannot be written
      (bit 2); all else that is mapped there can. */
  lemma KernelPerms(mem: seq<Page>, d: nat, data: nat, p: nat)
    requires EXTPAGE < data < NPAGES && KernelMapped(mem, d, data, 4) && KPAGE <= p < VPAGES && Present(Pte(mem, d, p))
    ensures Flags(Pte(mem, d, p)) / 4 % 2 == 0
    ensures Flags(Pte(mem, d, p)) / 2 % 2 == if KPAGE + EXTPAGE <= p < KPAGE + data then 0 else 1
    ensures Flags(Pte(mem, d, p)) < 8
  {
    assert KernelPte(data, 1, p) == if p < KPAGE + EXTPAGE then Entry(p - KPAGE, PTE_W) else 0;
    assert KernelPte(data, 2, p) == if KPAGE + EXTPAGE <= p < KPAGE + data then Entry(p - KPAGE, 0)
      else KernelPte(data, 1, p);
    assert KernelPte(data, 3, p) == if KPAGE + data <= p < KPAGE + NPAGES then Entry(p - KPAGE, PTE_W)
      else KernelPte(data, 2, p);
  }

  // ---- undoing an address space ----

  ghost predicate UndoneAt(mem: seq<Page>, own: seq<Owner>, mem': seq<Page>, f: nat)
    requires |own| == |mem| == |mem'|
  {
    f < |mem| && (own[f].User? || own[f].Other?) ==> mem'[f] == mem[f]
  }

  /** Every page has the owner it had, every user page and page in hand its contents,
      and every address space its translations. */
  ghost predicate Undone(mem: seq<Page>, own: seq<Owner>, mem': seq<Page>, own': seq<Owner>) {
    |own| == |mem| == |mem'| && own' == own && PteKept(mem, own, mem', 0, 0, 0) &&
      forall f :: UndoneAt(mem, own, mem', f)
  }

  lemma NewSpaceUndone(m0: seq<Page>, o0: seq<Owner>, m1: seq<Page>, o1: seq<Owner>, m2: seq<Page>, o2: seq<Owner>,
                      d: nat)
    requires Sound(m0, o0) && d < |m0| && o0[d] == Free
    requires Grew(m0, o0, m1, o1, d) && PteKept(m0, o0, m1, d, 0, VPAGES) && Released(m1, o1, m2, o2, d)
    ensures Undone(m0, o0, m2, o2)
  {
    forall f: nat ensures UndoneAt(m0, o0, m2, f) && (f < |o0| ==> o2[f] == o0[f]) {
      assert FrameOk(m0, o0, f) && GrewAt(m0, o0, m1, o1, d, f) && ReleasedAt(m1, o1, m2, o2, d, f);
    }
    forall e: nat, p: nat | e < |m0| && o0[e] == Dir ensures SamePte(m0, m2, e, p) {
      assert GrewAt(m0, o0, m1, o1, d, e);
      assert SamePte(m0, m1, e, p) && SamePte(m1, m2, e, p);
    }
  }
}

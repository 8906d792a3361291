/** Growing and copying an address space: allocuvm and copyuvm of vm.c. */
module VmSpace {
  import opened VmState
  import opened VmCount
  import opened VmCode

  // ---- allocuvm ----

  datatype Alloc = Size(n: nat) | Fail | Halt

  // Pages lo to p of d, which were not mapped, map new zeroed pages for the user.
  ghost predicate AllocatedTo(m0: seq<Page>, o0: seq<Owner>, m: seq<Page>, o: seq<Owner>, d: nat, lo: nat, p: nat) {
    && Grew(m0, o0, m, o, d) && PteKept(m0, o0, m, d, lo, p) && p <= VPAGES
    && forall q :: lo <= q < p ==> AllocatedAt(m0, o0, m, o, d, q)
  }

  ghost predicate AllocatedAt(m0: seq<Page>, o0: seq<Owner>, m: seq<Page>, o: seq<Owner>, d: nat, q: nat)
    requires |o0| == |m0| == |o| == |m| && q < VPAGES
  {
    !Present(Pte(m0, d, q)) && PageAt(m0, o0, m, o, d, q, ZeroPage(), WithP(PTE_W + PTE_U))
  }

  lemma AllocNext(m0: seq<Page>, o0: seq<Owner>, m1: seq<Page>, o1: seq<Owner>, m2: seq<Page>, o2: seq<Owner>, d: nat,
                  lo: nat, p: nat)
    requires AllocatedTo(m0, o0, m1, o1, d, lo, p) && d < |m0| && o0[d] == Dir && lo <= p < VPAGES
    requires Grew(m1, o1, m2, o2, d) && PteKept(m1, o1, m2, d, p, p + 1) && !Present(Pte(m1, d, p))
    requires PageAt(m1, o1, m2, o2, d, p, ZeroPage(), WithP(PTE_W + PTE_U))
    ensures AllocatedTo(m0, o0, m2, o2, d, lo, p + 1)
  {
    GrewTrans(m0, o0, m1, o1, m2, o2, d);
    GrewKeeps(m0, o0, m1, o1, d, d);
    PteKeptTrans(m0, o0, m1, o1, m2, d, lo, p, p + 1);
    forall q | lo <= q < p + 1 ensures AllocatedAt(m0, o0, m2, o2, d, q) {
      if q < p {
        assert AllocatedAt(m0, o0, m1, o1, d, q) && SamePte(m1, m2, d, q);
        PageStays(m0, o0, m1, o1, m2, o2, d, q, ZeroPage(), WithP(PTE_W + PTE_U));
      } else {
        assert SamePte(m0, m1, d, p) && GrewAt(m0, o0, m1, o1, d, Frame(Pte(m2, d, p)));
      }
    }
  }

  ghost predicate ShrunkAt(m0: seq<Page>, o0: seq<Owner>, m: seq<Page>, o: seq<Owner>, d: nat, lo: nat, hi: nat, f: nat)
    requires |o0| == |m0| == |o| == |m|
  {
    f < |m0| ==>
      && (o0[f] == Free ==> o[f] == Free || (o[f].Tab? && o[f].d == d))
      && (o0[f] != Free ==> o[f] == if InRange(o0[f], d, lo, hi) then Free else o0[f])
      && (o0[f].Other? || (o0[f].User? && !InRange(o0[f], d, lo, hi)) ==> m[f] == m0[f])
  }

  /** After a failed allocuvm nothing is mapped in d at lo..hi.  All that was mapped there
      before is freed, d may have gained tables, and all else is as it was. */
  ghost predicate AllocFailed(m0: seq<Page>, o0: seq<Owner>, m: seq<Page>, o: seq<Owner>, d: nat, lo: nat, hi: nat) {
    && |o0| == |m0| == |o| == |m| && PteKept(m0, o0, m, d, lo, hi) && hi <= VPAGES
    && (forall f :: ShrunkAt(m0, o0, m, o, d, lo, hi, f))
    && forall q :: lo <= q < hi ==> !Present(Pte(m, d, q))
  }

  // A page that went from the free list to a user mapping of d is mapped below p.
  lemma NewPageInRange(m0: seq<Page>, o0: seq<Owner>, m1: seq<Page>, o1: seq<Owner>, d: nat, lo: nat, p: nat, f: nat)
    requires Sound(m0, o0) && Sound(m1, o1) && d < |m0| && o0[d] == Dir
    requires Grew(m0, o0, m1, o1, d) && PteKept(m0, o0, m1, d, lo, p)
    requires f < |m0| && o0[f] == Free && o1[f] != Free
    ensures (o1[f].Tab? && o1[f].d == d) || InRange(o1[f], d, lo, p)
  {
    assert GrewAt(m0, o0, m1, o1, d, f) && FrameOk(m1, o1, f);
    if o1[f].User? {
      var q := o1[f].i * NPTENTRIES + o1[f].j;
      assert q / NPTENTRIES == o1[f].i && q % NPTENTRIES == o1[f].j;
      assert DirOk(m0, o0, d, o1[f].i) && TabOk(m0, o0, Frame(m0[d][o1[f].i]), o1[f].j);
      assert !(lo <= q < p) ==> SamePte(m0, m1, d, q);
    }
  }

  lemma AllocUndone(m0: seq<Page>, o0: seq<Owner>, m1: seq<Page>, o1: seq<Owner>, m2: seq<Page>, o2: seq<Owner>,
                    d: nat, lo: nat, p: nat, hi: nat)
    requires Sound(m0, o0) && Sound(m1, o1) && d < |m0| && o0[d] == Dir && lo <= p <= hi <= KPAGE
    requires Grew(m0, o0, m1, o1, d) && PteKept(m0, o0, m1, d, lo, p) && Dropped(m1, o1, m2, o2, d, lo, hi)
    ensures AllocFailed(m0, o0, m2, o2, d, lo, hi)
  {
    forall f: nat ensures ShrunkAt(m0, o0, m2, o2, d, lo, hi, f) {
      assert GrewAt(m0, o0, m1, o1, d, f) && DroppedAt(m1, o1, m2, o2, d, lo, hi, f);
      if f < |m0| && o0[f] == Free && o1[f] != Free {
        NewPageInRange(m0, o0, m1, o1, d, lo, p, f);
      }
    }
    forall e: nat, q: nat | e < |m0| && o0[e] == Dir && !(e == d && lo <= q < hi) ensures SamePte(m0, m2, e, q) {
      assert GrewAt(m0, o0, m1, o1, d, e) && SamePte(m0, m1, e, q) && SamePte(m1, m2, e, q);
    }
    forall q | lo <= q < hi ensures !Present(Pte(m2, d, q)) {
      assert Cleared(m1, m2, d, q);
    }
  }

  /** A failed allocuvm leaves the user mappings as they were if and only if none of the
      pages it was to add was mapped. */
  lemma AllocFailureIff(m0: seq<Page>, o0: seq<Owner>, m: seq<Page>, o: seq<Owner>, d: nat, lo: nat, hi: nat)
    requires AllocFailed(m0, o0, m, o, d, lo, hi) && d < |m0| && o0[d] == Dir && hi <= KPAGE
    ensures (forall q :: 0 <= q < KPAGE ==> SameMapping(Pte(m0, d, q), Pte(m, d, q))) <==>
      (forall q :: lo <= q < hi ==> !Present(Pte(m0, d, q)))
  {
    forall q | 0 <= q < KPAGE && !(lo <= q < hi) ensures SameMapping(Pte(m0, d, q), Pte(m, d, q)) {
      assert SamePte(m0, m, d, q);
    }
    if forall q :: 0 <= q < KPAGE ==> SameMapping(Pte(m0, d, q), Pte(m, d, q)) {
      forall q | lo <= q < hi ensures !Present(Pte(m0, d, q)) {
        assert SameMapping(Pte(m0, d, q), Pte(m, d, q));
      }
    }
  }

  // Both map nothing, or both map the same frame with the same flags.
  ghost predicate SameMapping(e: nat, e': nat) {
    Present(e) == Present(e') && (Present(e) ==> e == e')
  }

  // Dropping pages with one page in hand, then releasing that page.
  lemma DropThenRelease(m1: seq<Page>, o1: seq<Owner>, m2: seq<Page>, o2: seq<Owner>, m3: seq<Page>, d: nat, lo: nat,
                      hi: nat, f: nat)
    requires Dropped(m1, o1, m2, o2, d, lo, hi) && f < |m1| && o1[f] == Other && d < |m1| && o1[d] == Dir
    requires |m3| == |m2| && PteKept(m2, o2, m3, 0, 0, 0) && forall g :: 0 <= g < |m2| && g != f ==> m3[g] == m2[g]
    ensures Dropped(m1, o1[f := Free], m3, o2[f := Free], d, lo, hi)
  {
    var o1', o3 := o1[f := Free], o2[f := Free];
    forall g: nat ensures DroppedAt(m1, o1', m3, o3, d, lo, hi, g) {
      assert DroppedAt(m1, o1, m2, o2, d, lo, hi, g);
    }
    forall e: nat, q: nat | e < |m1| && o1'[e] == Dir && !(e == d && lo <= q < hi) ensures SamePte(m1, m3, e, q) {
      assert DroppedAt(m1, o1, m2, o2, d, lo, hi, e) && SamePte(m1, m2, e, q) && SamePte(m2, m3, e, q);
    }
    forall q | lo <= q < hi ensures Cleared(m1, m3, d, q) {
      assert DroppedAt(m1, o1, m2, o2, d, lo, hi, d) && Cleared(m1, m2, d, q) && SamePte(m2, m3, d, q);
    }
  }

  // The failure exits of allocuvm: deallocuvm, then kfree of a page in hand.
  method AllocUndo(mc: Machine, d: nat, oldsz: nat, newsz: nat, hand: nat, ghost m0: seq<Page>, ghost o0: seq<Owner>,
                   ghost p: nat)
    requires mc.Valid() && d < NPAGES && oldsz < newsz < KERNBASE && Up(oldsz) <= p <= Up(newsz)
    requires hand != 0 ==> mc.first <= hand < NPAGES && mc.own[hand] == Other
    requires Sound(m0, o0) && d < |m0| && o0[d] == Dir && PteKept(m0, o0, mc.mem, d, Up(oldsz), p)
    requires Grew(m0, o0, mc.mem, if hand != 0 then mc.own[hand := Free] else mc.own, d)
    modifies mc
    ensures mc.Valid() && AllocFailed(m0, o0, mc.mem, mc.own, d, Up(oldsz), Up(newsz))
  {
    ghost var m1, o1 := mc.mem, mc.own;
    ghost var o1' := if hand != 0 then o1[hand := Free] else o1;
    GrewKeeps(m0, o0, m1, o1', d, d);
    assert o1[d] == Dir;
    var ok, r := mc.Deallocuvm(d, newsz, oldsz);
    if hand != 0 {
      SwapKeeps(m1, o1, hand, m1[hand], Free);
      assert m1[hand := m1[hand]] == m1;
      ghost var m2, o2 := mc.mem, mc.own;
      assert DroppedAt(m1, o1, m2, o2, d, Up(oldsz), Up(newsz), hand);
      ok := mc.Release(hand);
      DropThenRelease(m1, o1, m2, o2, mc.mem, d, Up(oldsz), Up(newsz), hand);
    }
    AllocUndone(m0, o0, m1, o1', mc.mem, mc.own, d, Up(oldsz), p, Up(newsz));
  }

  /** Page q is the first from lo on that is mapped, and the n free pages suffice to get
      that far. */
  ghost predicate HaltsAt(m: seq<Page>, d: nat, lo: nat, q: nat, n: nat) {
    && lo <= q < VPAGES && d < |m| && Present(Pte(m, d, q)) && (forall r :: lo <= r < q ==> !Present(Pte(m, d, r)))
    && AllocNeeds(m[d], lo, q + 1) <= n
  }

  // What allocuvm does to pages lo to hi with n0 free pages, given its answer.
  ghost predicate AllocResult(m0: seq<Page>, o0: seq<Owner>, n0: nat, m: seq<Page>, o: seq<Owner>, n: nat, d: nat,
                      lo: nat, hi: nat, r: Alloc) {
    && lo <= hi <= VPAGES && d < |m0|
    && (r.Size? ==> AllocatedTo(m0, o0, m, o, d, lo, hi) && n0 == n + AllocNeeds(m0[d], lo, hi))
    && (r.Fail? ==> AllocFailed(m0, o0, m, o, d, lo, hi) && n0 < AllocNeeds(m0[d], lo, hi))
    && (r.Halt? <==> exists q :: lo <= q < hi && HaltsAt(m0, d, lo, q, n0))
  }

  // allocuvm found page p mapped, with a page in hand.
  lemma HaltsHere(m0: seq<Page>, o0: seq<Owner>, m1: seq<Page>, o1: seq<Owner>, d: nat, lo: nat, p: nat, n0: nat,
                  n1: nat)
    requires AllocatedTo(m0, o0, m1, o1, d, lo, p) && d < |m0| && o0[d] == Dir && lo <= p < VPAGES
    requires Taken(n0, m0[d], n1, m1[d], lo, p) && n1 > 0 && Present(Pte(m1, d, p))
    ensures HaltsAt(m0, d, lo, p, n0)
  {
    assert SamePte(m0, m1, d, p);
    OneTable(m1[d], p);
    EnoughForNext(n0, m0[d], n1, m1[d], lo, p);
    forall r | lo <= r < p ensures !Present(Pte(m0, d, r)) {
      assert AllocatedAt(m0, o0, m1, o1, d, r);
    }
  }

  // Memory ran out at page p, after pages that were not mapped.
  lemma RanOut(m0: seq<Page>, o0: seq<Owner>, n0: nat, m1: seq<Page>, o1: seq<Owner>, m: seq<Page>, o: seq<Owner>,
               n: nat, d: nat, lo: nat, p: nat, hi: nat)
    requires AllocatedTo(m0, o0, m1, o1, d, lo, p) && d < |m0| && lo <= p < hi <= VPAGES
    requires n0 < AllocNeeds(m0[d], lo, p + 1) && AllocFailed(m0, o0, m, o, d, lo, hi)
    ensures AllocResult(m0, o0, n0, m, o, n, d, lo, hi, Fail)
  {
    TablesGrow(m0[d], lo, p + 1, hi);
    forall q: nat ensures !HaltsAt(m0, d, lo, q, n0) {
      if lo <= q < p {
        assert AllocatedAt(m0, o0, m1, o1, d, q);
      } else if p <= q < VPAGES {
        TablesGrow(m0[d], lo, p + 1, q + 1);
      }
    }
  }

  lemma AllocDone(m0: seq<Page>, o0: seq<Owner>, n0: nat, m: seq<Page>, o: seq<Owner>, n: nat, d: nat, lo: nat, hi: nat,
                  newsz: nat)
    requires AllocatedTo(m0, o0, m, o, d, lo, hi) && d < |m0| && Taken(n0, m0[d], n, m[d], lo, hi)
    ensures AllocResult(m0, o0, n0, m, o, n, d, lo, hi, Size(newsz))
  {
    assert Surplus(n, m[d], hi, hi) == Surplus(n0, m0[d], lo, hi);
    forall q: nat | lo <= q < hi ensures !HaltsAt(m0, d, lo, q, n0) {
      assert AllocatedAt(m0, o0, m, o, d, q);
    }
  }

  // One round of allocuvm's loop, at page p.
  method AllocRound(mc: Machine, d: nat, oldsz: nat, newsz: nat, p: nat, ghost lo: nat, ghost m0: seq<Page>,
                    ghost o0: seq<Owner>, ghost n0: nat) returns (r: Outcome)
    requires mc.Valid() && d < NPAGES && oldsz <= newsz < KERNBASE && lo == Up(oldsz) <= p < Up(newsz)
    requires Sound(m0, o0) && d < |m0| && o0[d] == Dir && AllocatedTo(m0, o0, mc.mem, mc.own, d, lo, p)
    requires Taken(n0, m0[d], |mc.free|, mc.mem[d], lo, p)
    modifies mc
    ensures mc.Valid()
    ensures r == Ok ==> AllocatedTo(m0, o0, mc.mem, mc.own, d, lo, p + 1)
    ensures r == Ok ==> Taken(n0, m0[d], |mc.free|, mc.mem[d], lo, p + 1)
    ensures r == NoMem ==> AllocResult(m0, o0, n0, mc.mem, mc.own, |mc.free|, d, lo, Up(newsz), Fail)
    ensures r == Panic ==> AllocResult(m0, o0, n0, mc.mem, mc.own, |mc.free|, d, lo, Up(newsz), Halt)
  {
    ghost var m1, o1 := mc.mem, mc.own;
    UpGrows(newsz, KERNBASE);
    UpKernbase();
    UpLess(oldsz, newsz);
    GrewKeeps(m0, o0, m1, o1, d, d);
    assert SamePte(m0, m1, d, p);
    EnoughForNext(n0, m0[d], |mc.free|, m1[d], lo, p);
    var hand;
    r, hand := mc.GivePage(d, p, ZeroPage(), PTE_W + PTE_U);
    if r == Panic {
      HaltsHere(m0, o0, m1, o1, d, lo, p, n0, |old(mc.free)|);
    } else if r == NoMem {
      AllocStuck(m0, o0, m1, o1, mc.mem, if hand != 0 then mc.own[hand := Free] else mc.own, d, lo, p);
      AllocUndo(mc, d, oldsz, newsz, hand, m0, o0, p);
      RanOut(m0, o0, n0, m1, o1, mc.mem, mc.own, |mc.free|, d, lo, p, Up(newsz));
    } else {
      AllocNext(m0, o0, m1, o1, mc.mem, mc.own, d, lo, p);
      TakenNext(n0, m0[d], |old(mc.free)|, m1[d], |mc.free|, mc.mem[d], lo, p);
    }
  }

  // The loop of allocuvm, from page lo on.
  method AllocPages(mc: Machine, d: nat, oldsz: nat, newsz: nat, ghost lo: nat, ghost m0: seq<Page>,
                    ghost o0: seq<Owner>, ghost n0: nat) returns (r: Alloc)
    requires mc.Valid() && d < NPAGES && oldsz <= newsz < KERNBASE && lo == Up(oldsz) <= Up(newsz)
    requires Sound(m0, o0) && d < |m0| && o0[d] == Dir && AllocatedTo(m0, o0, mc.mem, mc.own, d, lo, lo)
    requires Taken(n0, m0[d], |mc.free|, mc.mem[d], lo, lo)
    modifies mc
    ensures mc.Valid() && (r.Size? ==> r.n == newsz)
    ensures AllocResult(m0, o0, n0, mc.mem, mc.own, |mc.free|, d, lo, Up(newsz), r)
  {
    var a := Up(oldsz) * PGSIZE;
    ghost var p := lo;
    while a < newsz
      invariant a == p * PGSIZE && lo <= p <= Up(newsz) && mc.Valid()
      invariant AllocatedTo(m0, o0, mc.mem, mc.own, d, lo, p)
      invariant Taken(n0, m0[d], |mc.free|, mc.mem[d], lo, p)
    {
      PageLeft(a, p, newsz);
      var res := AllocRound(mc, d, oldsz, newsz, a / PGSIZE, lo, m0, o0, n0);
      if res == Panic { return Halt; }
      if res == NoMem { return Fail; }
      a, p := a + PGSIZE, p + 1;
    }
    PageLeft(a, p, newsz);
    AllocDone(m0, o0, n0, mc.mem, mc.own, |mc.free|, d, lo, p, newsz);
    return Size(newsz);
  }

  // allocuvm
  method Allocuvm(mc: Machine, d: nat, oldsz: nat, newsz: nat) returns (r: Alloc)
    requires mc.Valid() && d < NPAGES && mc.own[d] == Dir
    modifies mc
    ensures newsz >= KERNBASE ==> r == Fail && mc.Value() == old(mc.Value()) && mc.own == old(mc.own)
    ensures newsz < KERNBASE && newsz < oldsz ==>
      r == Size(oldsz) && mc.Value() == old(mc.Value()) && mc.own == old(mc.own)
    ensures oldsz <= newsz < KERNBASE ==> Up(oldsz) <= Up(newsz) <= VPAGES && (r.Size? ==> r.n == newsz)
    ensures oldsz <= newsz < KERNBASE ==>
      AllocResult(old(mc.mem), old(mc.own), |old(mc.free)|, mc.mem, mc.own, |mc.free|, d, Up(oldsz), Up(newsz), r)
    ensures mc.Valid()
  {
    if newsz >= KERNBASE { return Fail; }
    if newsz < oldsz { return Size(oldsz); }
    UpGrows(oldsz, newsz);
    TakenNone(|mc.free|, mc.mem[d], Up(oldsz));
    r := AllocPages(mc, d, oldsz, newsz, Up(oldsz), mc.mem, mc.own, |mc.free|);
  }

  lemma AllocStuck(m0: seq<Page>, o0: seq<Owner>, m1: seq<Page>, o1: seq<Owner>, m2: seq<Page>, o2: seq<Owner>,
                   d: nat, lo: nat, p: nat)
    requires AllocatedTo(m0, o0, m1, o1, d, lo, p) && lo <= p && Grew(m1, o1, m2, o2, d) && PteKept(m1, o1, m2, 0, 0, 0)
    ensures Grew(m0, o0, m2, o2, d) && PteKept(m0, o0, m2, d, lo, p)
  {
    GrewTrans(m0, o0, m1, o1, m2, o2, d);
    forall e: nat, q: nat | e < |m0| && o0[e] == Dir && !(e == d && lo <= q < p) ensures SamePte(m0, m2, e, q) {
      assert GrewAt(m0, o0, m1, o1, d, e) && SamePte(m0, m1, e, q) && SamePte(m1, m2, e, q);
    }
  }

  // ---- copyuvm ----

  // Page q of the child c has contents and flags of page q of the parent d.
  ghost predicate CopyAt(m0: seq<Page>, o0: seq<Owner>, m: seq<Page>, o: seq<Owner>, d: nat, c: nat, q: nat)
    requires |o0| == |m0| == |o| == |m| && q < VPAGES
  {
    var e := Pte(m0, d, q);
    && Present(e) && Frame(e) < |m0| && o0[Frame(e)] == User(d, q / NPTENTRIES, q % NPTENTRIES)
    && PageAt(m0, o0, m, o, c, q, m0[Frame(e)], Flags(e))
  }

  /** The new address space c copies pages 0 to p of d, maps no other user page, and
      maps the kernel; all pages and translations there were before are as they were. */
  ghost predicate CopiedTo(m0: seq<Page>, o0: seq<Owner>, m: seq<Page>, o: seq<Owner>, d: nat, c: nat, data: nat,
                      p: nat)
    requires EXTPAGE < data < NPAGES
  {
    && Grew(m0, o0, m, o, c) && PteKept(m0, o0, m, c, 0, VPAGES) && p <= KPAGE
    && 0 < c < |o0| && o0[c] == Free && o[c] == Dir && KernelMapped(m, c, data, 4)
    && (forall q :: 0 <= q < p ==> CopyAt(m0, o0, m, o, d, c, q))
    && (forall q :: p <= q < KPAGE ==> Pte(m, c, q) == 0)
  }

  // No page of the child is a page of the parent: writes to one are not seen by the other.
  lemma NothingShared(m0: seq<Page>, o0: seq<Owner>, m: seq<Page>, o: seq<Owner>, d: nat, c: nat, data: nat, p: nat,
                      q: nat, r: nat)
    requires EXTPAGE < data < NPAGES && Sound(m0, o0) && d < |m0| && o0[d] == Dir &&
      CopiedTo(m0, o0, m, o, d, c, data, p)
    requires q < p && r < KPAGE && Present(Pte(m, d, r))
    ensures Frame(Pte(m, c, q)) != Frame(Pte(m, d, r))
  {
    assert CopyAt(m0, o0, m, o, d, c, q) && SamePte(m0, m, d, r);
    assert DirOk(m0, o0, d, r / NPTENTRIES) && TabOk(m0, o0, Frame(m0[d][r / NPTENTRIES]), r % NPTENTRIES);
  }

  lemma CopyNext(m0: seq<Page>, o0: seq<Owner>, m1: seq<Page>, o1: seq<Owner>, m2: seq<Page>, o2: seq<Owner>, d: nat,
                 c: nat, data: nat, p: nat)
    requires EXTPAGE < data < NPAGES && CopiedTo(m0, o0, m1, o1, d, c, data, p) && p < KPAGE
    requires Grew(m1, o1, m2, o2, c) && PteKept(m1, o1, m2, c, p, p + 1)
    requires Present(Pte(m0, d, p)) && Frame(Pte(m0, d, p)) < |m0| &&
      o0[Frame(Pte(m0, d, p))] == User(d, p / NPTENTRIES, p % NPTENTRIES)
    requires PageAt(m1, o1, m2, o2, c, p, m0[Frame(Pte(m0, d, p))], Flags(Pte(m0, d, p)))
    ensures CopiedTo(m0, o0, m2, o2, d, c, data, p + 1)
  {
    NewSpaceGrew(m0, o0, m1, o1, m2, o2, c, p, p + 1);
    forall q | 0 <= q < VPAGES && q != p ensures Pte(m2, c, q) == Pte(m1, c, q) {
      assert SamePte(m1, m2, c, q);
    }
    forall q | 0 <= q < p + 1 ensures CopyAt(m0, o0, m2, o2, d, c, q) {
      if q < p {
        assert CopyAt(m0, o0, m1, o1, d, c, q);
        PageStays(m0, o0, m1, o1, m2, o2, c, q, m0[Frame(Pte(m0, d, q))], Flags(Pte(m0, d, q)));
      } else {
        assert GrewAt(m0, o0, m1, o1, c, Frame(Pte(m2, c, p)));
      }
    }
  }

  lemma NewSpaceGrew(m0: seq<Page>, o0: seq<Owner>, m1: seq<Page>, o1: seq<Owner>, m2: seq<Page>, o2: seq<Owner>,
                     c: nat, lo: int, hi: int)
    requires Grew(m0, o0, m1, o1, c) && PteKept(m0, o0, m1, c, 0, VPAGES) && Grew(m1, o1, m2, o2, c) &&
      PteKept(m1, o1, m2, c, lo, hi)
    requires c < |o1| && o1[c] == Dir && 0 <= lo <= hi <= VPAGES
    ensures Grew(m0, o0, m2, o2, c) && PteKept(m0, o0, m2, c, 0, VPAGES) && o2[c] == Dir
  {
    GrewTrans(m0, o0, m1, o1, m2, o2, c);
    GrewKeeps(m1, o1, m2, o2, c, c);
    forall e: nat, q: nat | e < |m0| && o0[e] == Dir && !(e == c && 0 <= q < VPAGES) ensures SamePte(m0, m2, e, q) {
      assert GrewAt(m0, o0, m1, o1, c, e) && SamePte(m0, m1, e, q) && SamePte(m1, m2, e, q);
    }
  }

  // Giving back the page in hand.
  lemma HandReleased(m1: seq<Page>, o1: seq<Owner>, m2: seq<Page>, o2: seq<Owner>, m3: seq<Page>, c: nat, f: nat)
    requires f < |o1| && o1[f] == Free && |o2| == |o1| && Grew(m1, o1, m2, o2[f := Free], c) &&
      PteKept(m1, o1, m2, 0, 0, 0)
    requires PteKept(m2, o2, m3, 0, 0, 0) && |m3| == |m2| && forall g :: 0 <= g < |m2| && g != f ==> m3[g] == m2[g]
    ensures Grew(m1, o1, m3, o2[f := Free], c) && PteKept(m1, o1, m3, c, 0, 0)
  {
    var o3 := o2[f := Free];
    forall g: nat ensures GrewAt(m1, o1, m3, o3, c, g) {
      assert GrewAt(m1, o1, m2, o3, c, g);
    }
    forall e: nat, q: nat | e < |m1| && o1[e] == Dir ensures SamePte(m1, m3, e, q) {
      assert GrewAt(m1, o1, m2, o3, c, e) && SamePte(m1, m2, e, q) && SamePte(m2, m3, e, q);
    }
  }

  // What copyuvm reads at a mapped page of the parent.
  lemma ParentPage(m0: seq<Page>, o0: seq<Owner>, m: seq<Page>, o: seq<Owner>, d: nat, c: nat, data: nat, p: nat)
    requires EXTPAGE < data < NPAGES && Sound(m0, o0) && d < |m0| && o0[d] == Dir &&
      CopiedTo(m0, o0, m, o, d, c, data, p) && p < KPAGE
    ensures o[d] == Dir && Pte(m, d, p) == Pte(m0, d, p)
    ensures Present(Pte(m0, d, p)) ==>
      && Frame(Pte(m0, d, p)) < |m0| && o0[Frame(Pte(m0, d, p))] == User(d, p / NPTENTRIES, p % NPTENTRIES)
      && m[Frame(Pte(m0, d, p))] == m0[Frame(Pte(m0, d, p))] && WithP(Flags(Pte(m0, d, p))) == Flags(Pte(m0, d, p))
  {
    assert GrewAt(m0, o0, m, o, c, d) && SamePte(m0, m, d, p);
    assert DirOk(m0, o0, d, p / NPTENTRIES) && TabOk(m0, o0, Frame(m0[d][p / NPTENTRIES]), p % NPTENTRIES);
    assert GrewAt(m0, o0, m, o, c, Frame(Pte(m0, d, p)));
  }

  /** What a new address space with n user pages takes: the kernel part, the pages and a
      table for every 1024 of them. */
  function CopyNeeds(n: nat): nat {
    KVMPAGES + n + (n + NPTENTRIES - 1) / NPTENTRIES
  }

  // The child has tables for its first p pages and, below KERNBASE, no others.
  ghost predicate CopyDir(dir: Page, p: nat) {
    forall i :: 0 <= i < KDIR ==> (Present(dir[i]) <==> i < (p + NPTENTRIES - 1) / NPTENTRIES)
  }

  lemma CopyTakes(dir: Page, p: nat)
    requires p < KPAGE && CopyDir(dir, p)
    ensures CopyNeeds(p) + AllocNeeds(dir, p, p + 1) == CopyNeeds(p + 1)
  {
    OneTable(dir, p);
  }

  lemma CopyDirNext(dir: Page, dir': Page, p: nat)
    requires p < KPAGE && CopyDir(dir, p) && Filled(dir, dir', p, p + 1)
    ensures CopyDir(dir', p + 1)
  {
    var s := p / NPTENTRIES;
    assert (p + NPTENTRIES) / NPTENTRIES == s + 1;
    forall i | 0 <= i < KDIR ensures Present(dir'[i]) <==> i < s + 1 {
      assert (p + NPTENTRIES - 1) / NPTENTRIES == s || (p + NPTENTRIES - 1) / NPTENTRIES == s + 1;
    }
  }

  lemma NeedsGrow(n: nat, k: nat)
    requires n <= k
    ensures CopyNeeds(n) <= CopyNeeds(k)
  {
  }

  /** Page q is the first of d that is missing, and the n free pages suffice to get that
      far. */
  ghost predicate StopsAt(m: seq<Page>, d: nat, q: nat, n: nat) {
    && q < KPAGE && !Present(Pte(m, d, q)) && (forall r :: 0 <= r < q ==> Present(Pte(m, d, r)))
    && CopyNeeds(q) <= n
  }

  // A copy of the page with this entry goes to page p of the child; on failure the page
  // in hand is given back.  A page that the child maps already is a panic, if not a failure.
  method CopyPage(mc: Machine, c: nat, p: nat, pte: nat) returns (r: Outcome)
    requires mc.Valid() && c < NPAGES && mc.own[c] == Dir && p < VPAGES && Present(pte) && Frame(pte) < NPAGES
    requires p < KPAGE <==> !Present(Pte(mc.mem, c, p))
    modifies mc
    ensures mc.Valid() && (r == Ok ==> p < KPAGE) && (r == Panic ==> p >= KPAGE)
    ensures r != Panic ==> Grew(old(mc.mem), old(mc.own), mc.mem, mc.own, c)
    ensures r != Panic ==> PteKept(old(mc.mem), old(mc.own), mc.mem, c, p, p + 1)
    ensures r == Ok ==> PageAt(old(mc.mem), old(mc.own), mc.mem, mc.own, c, p, old(mc.mem)[Frame(pte)],
      WithP(Flags(pte)))
    ensures r == Ok ==>
      |old(mc.free)| > 0 && Walked(|old(mc.free)| - 1, old(mc.mem)[c], |mc.free|, mc.mem[c], p, p + 1)
    ensures r == NoMem ==> |old(mc.free)| < AllocNeeds(old(mc.mem)[c], p, p + 1)
  {
    var hand;
    r, hand := mc.GivePage(c, p, mc.mem[Frame(pte)], Flags(pte));
    if r == NoMem {
      if hand != 0 {
        ghost var m2, o2 := mc.mem, mc.own;
        var ok := mc.Release(hand);
        HandReleased(old(mc.mem), old(mc.own), m2, o2, mc.mem, c, hand);
      } else {
        GrewSelf(mc.mem, mc.own, c);
      }
    }
  }

  lemma GrewSelf(mem: seq<Page>, own: seq<Owner>, c: nat)
    requires |own| == |mem|
    ensures Grew(mem, own, mem, own, c) && PteKept(mem, own, mem, c, 0, 0)
  {
  }

  // walkpgdir without allocation and a read of the entry; no table reads as not present.
  method FindPte(mc: Machine, d: nat, p: nat) returns (pte: nat)
    requires mc.Valid() && d < NPAGES && mc.own[d] == Dir && p < VPAGES
    modifies mc
    ensures mc.Valid() && mc.Value() == old(mc.Value()) && mc.own == old(mc.own) && mc.free == old(mc.free)
    ensures pte == Pte(mc.mem, d, p)
  {
    var t := mc.FindTable(d, p);
    pte := if t == 0 then 0 else mc.mem[t][p % NPTENTRIES];
  }

  // One round of copyuvm's loop, at page p, up to and including KERNBASE.
  method CopyRound(mc: Machine, d: nat, c: nat, p: nat, ghost data: nat, ghost m0: seq<Page>, ghost o0: seq<Owner>,
                   ghost n0: nat) returns (r: Outcome)
    requires mc.Valid() && d < NPAGES && c < NPAGES && p <= KPAGE && EXTPAGE < data < NPAGES
    requires Sound(m0, o0) && d < |m0| && o0[d] == Dir && CopiedTo(m0, o0, mc.mem, mc.own, d, c, data, p)
    requires p == KPAGE ==> Frame(Pte(m0, d, KPAGE)) < NPAGES
    requires CopyDir(mc.mem[c], p) && n0 == |mc.free| + CopyNeeds(p)
    modifies mc
    ensures mc.Valid()
    ensures r == Ok ==> p < KPAGE && CopiedTo(m0, o0, mc.mem, mc.own, d, c, data, p + 1)
    ensures r == Ok ==> CopyDir(mc.mem[c], p + 1) && n0 == |mc.free| + CopyNeeds(p + 1)
    ensures r == NoMem ==> n0 < CopyNeeds(p + 1) && (p < KPAGE ==> Present(Pte(m0, d, p)))
    ensures r == NoMem ==> Grew(m0, o0, mc.mem, mc.own, c) && PteKept(m0, o0, mc.mem, c, 0, VPAGES) && mc.own[c] == Dir
    ensures r == Panic ==> p == KPAGE || !Present(Pte(m0, d, p))
  {
    ghost var m1, o1 := mc.mem, mc.own;
    if p < KPAGE {
      ParentPage(m0, o0, m1, o1, d, c, data, p);
    } else {
      AtKernbase(m0, o0, m1, o1, d, c, data);
    }
    var pte := FindPte(mc, d, p);
    if !Present(pte) { return Panic; }
    r := CopyPage(mc, c, p, pte);
    if r != Panic {
      NewSpaceGrew(m0, o0, m1, o1, mc.mem, mc.own, c, p, p + 1);
    }
    if p < KPAGE {
      CopyTakes(m1[c], p);
    } else {
      OneTable(m1[c], p);
    }
    if r == Ok {
      CopyNext(m0, o0, m1, o1, mc.mem, mc.own, d, c, data, p);
      CopyDirNext(m1[c], mc.mem[c], p);
    }
  }

  // At KERNBASE the parent is as it was and the child has a page.
  lemma AtKernbase(m0: seq<Page>, o0: seq<Owner>, m: seq<Page>, o: seq<Owner>, d: nat, c: nat, data: nat)
    requires EXTPAGE < data < NPAGES && Sound(m0, o0) && d < |m0| && o0[d] == Dir
    requires CopiedTo(m0, o0, m, o, d, c, data, KPAGE) && Frame(Pte(m0, d, KPAGE)) < NPAGES
    ensures o[d] == Dir && Pte(m, d, KPAGE) == Pte(m0, d, KPAGE) && Present(Pte(m, c, KPAGE))
  {
    assert GrewAt(m0, o0, m, o, c, d) && SamePte(m0, m, d, KPAGE);
    KernelView(data, KPAGE);
  }

  // copyuvm's failure exit
  method CopyBad(mc: Machine, c: nat, ghost m0: seq<Page>, ghost o0: seq<Owner>)
    requires mc.Valid() && c < NPAGES && mc.own[c] == Dir && Sound(m0, o0) && c < |m0| && o0[c] == Free
    requires Grew(m0, o0, mc.mem, mc.own, c) && PteKept(m0, o0, mc.mem, c, 0, VPAGES)
    modifies mc
    ensures mc.Valid() && Undone(m0, o0, mc.mem, mc.own)
  {
    ghost var m1, o1 := mc.mem, mc.own;
    var ok := mc.Freevm(c);
    NewSpaceUndone(m0, o0, m1, o1, mc.mem, mc.own, c);
  }

  // The copied pages were present.
  lemma AllPresent(m0: seq<Page>, o0: seq<Owner>, m: seq<Page>, o: seq<Owner>, d: nat, c: nat, data: nat, p: nat,
                   n0: nat)
    requires EXTPAGE < data < NPAGES && CopiedTo(m0, o0, m, o, d, c, data, p)
    ensures forall q :: 0 <= q < p ==> Present(Pte(m0, d, q)) && !StopsAt(m0, d, q, n0)
  {
    forall q | 0 <= q < p ensures Present(Pte(m0, d, q)) {
      assert CopyAt(m0, o0, m, o, d, c, q);
    }
  }

  // At page p the copy stops, as the page is missing or memory has run out.
  lemma CopyStops(m0: seq<Page>, o0: seq<Owner>, m: seq<Page>, o: seq<Owner>, d: nat, c: nat, data: nat, p: nat, n: nat,
                  n0: nat, gone: bool)
    requires EXTPAGE < data < NPAGES && CopiedTo(m0, o0, m, o, d, c, data, p) && p < n && CopyNeeds(p) <= n0
    requires gone ==> p >= KPAGE || !Present(Pte(m0, d, p))
    requires !gone ==> n0 < CopyNeeds(p + 1) && (p < KPAGE ==> Present(Pte(m0, d, p)))
    ensures gone && p < KPAGE ==> StopsAt(m0, d, p, n0)
    ensures !gone ==> n0 < CopyNeeds(n) && forall q :: !StopsAt(m0, d, q, n0)
  {
    AllPresent(m0, o0, m, o, d, c, data, p, n0);
    if !gone {
      NeedsGrow(p + 1, n);
      forall q: nat ensures !StopsAt(m0, d, q, n0) {
        if q > p { NeedsGrow(p + 1, q); }
      }
    }
  }

  // The loop of copyuvm.  It never gets past KERNBASE: the child has frame 0 there already.
  method CopyPages(mc: Machine, d: nat, c: nat, sz: nat, ghost data: nat, ghost m0: seq<Page>, ghost o0: seq<Owner>,
                   ghost n0: nat) returns (r: Outcome)
    requires mc.Valid() && d < NPAGES && c < NPAGES && EXTPAGE < data < NPAGES
    requires Sound(m0, o0) && d < |m0| && o0[d] == Dir && CopiedTo(m0, o0, mc.mem, mc.own, d, c, data, 0)
    requires sz > KERNBASE ==> Frame(Pte(m0, d, KPAGE)) < NPAGES
    requires CopyDir(mc.mem[c], 0) && n0 == |mc.free| + CopyNeeds(0)
    modifies mc
    ensures mc.Valid()
    ensures r == Ok ==> sz <= KERNBASE && CopiedTo(m0, o0, mc.mem, mc.own, d, c, data, Up(sz))
    ensures r == Ok ==> n0 == |mc.free| + CopyNeeds(Up(sz))
    ensures r == NoMem ==> n0 < CopyNeeds(Up(sz))
    ensures sz <= KERNBASE ==> (r == Panic <==> exists q :: 0 <= q < Up(sz) && StopsAt(m0, d, q, n0))
    ensures r == NoMem ==> Grew(m0, o0, mc.mem, mc.own, c) && PteKept(m0, o0, mc.mem, c, 0, VPAGES) && mc.own[c] == Dir
    ensures r == Panic ==> sz > KERNBASE || PageMissing(m0, d, Up(sz))
  {
    var i := 0;
    ghost var p := 0;
    while i < sz
      invariant i == p * PGSIZE && p <= Up(sz) && p <= KPAGE && mc.Valid()
      invariant CopiedTo(m0, o0, mc.mem, mc.own, d, c, data, p)
      invariant CopyDir(mc.mem[c], p) && n0 == |mc.free| + CopyNeeds(p)
      decreases KPAGE - p
    {
      PageLeft(i, p, sz);
      ghost var m1, o1 := mc.mem, mc.own;
      r := CopyRound(mc, d, c, i / PGSIZE, data, m0, o0, n0);
      if r != Ok {
        CopyStops(m0, o0, m1, o1, d, c, data, p, Up(sz), n0, r == Panic);
        return;
      }
      i, p := i + PGSIZE, p + 1;
    }
    PageLeft(i, p, sz);
    AllPresent(m0, o0, mc.mem, mc.own, d, c, data, p, n0);
    r := Ok;
  }

  ghost predicate PageMissing(mem: seq<Page>, d: nat, n: nat) {
    exists q :: 0 <= q < n && q < KPAGE && !Present(Pte(mem, d, q))
  }

  // copyuvm
  method Copyuvm(mc: Machine, d: nat, sz: nat, data: nat) returns (panic: bool, c: nat)
    requires mc.Valid() && d < NPAGES && mc.own[d] == Dir && EXTPAGE < data < NPAGES
    requires sz > KERNBASE ==> Frame(Pte(mc.mem, d, KPAGE)) < NPAGES
    modifies mc
    ensures mc.Valid()
    ensures panic ==> sz > KERNBASE || PageMissing(old(mc.mem), d, Up(sz))
    ensures !panic && c != 0 ==>
      sz <= KERNBASE && CopiedTo(old(mc.mem), old(mc.own), mc.mem, mc.own, d, c, data, Up(sz))
    ensures !panic && c == 0 ==> Undone(old(mc.mem), old(mc.own), mc.mem, mc.own)
    ensures !panic && c != 0 ==> |old(mc.free)| == |mc.free| + CopyNeeds(Up(sz))
    ensures !panic && c == 0 ==> |old(mc.free)| < CopyNeeds(Up(sz))
    ensures sz <= KERNBASE ==>
      (panic <==> exists q :: 0 <= q < Up(sz) && StopsAt(old(mc.mem), d, q, |old(mc.free)|))
    ensures sz <= KERNBASE && !PageMissing(old(mc.mem), d, Up(sz)) ==>
      !panic && (c != 0 <==> CopyNeeds(Up(sz)) <= |old(mc.free)|)
  {
    c := mc.Setupkvm(data);
    if c == 0 { return false, 0; }
    var r := CopyPages(mc, d, c, sz, data, old(mc.mem), old(mc.own), |old(mc.free)|);
    if r == Panic { return true, 0; }
    if r == NoMem {
      CopyBad(mc, c, old(mc.mem), old(mc.own));
      return false, 0;
    }
    return false, c;
  }

  // ---- a failed allocuvm that unmaps a page ----

  // Others take all pages that are left.
  method Exhaust(mc: Machine)
    requires mc.Valid()
    modifies mc
    ensures mc.Valid() && mc.mem == old(mc.mem) && mc.free == []
    ensures forall f :: 0 <= f < NPAGES && old(mc.own)[f] == Dir ==> mc.own[f] == Dir
  {
    var f := 1;
    while f != 0
      invariant mc.Valid() && mc.mem == old(mc.mem) && (f == 0 ==> mc.free == [])
      invariant forall g :: 0 <= g < NPAGES && old(mc.own)[g] == Dir ==> mc.own[g] == Dir
      decreases |mc.free|, f
    {
      f := mc.Kalloc();
    }
  }

  // A new space with page 1 mapped and page 0 not, and no memory left.
  method PartlyMapped(m: seq<Page>) returns (mc: Machine, d: nat)
    requires |m| == NPAGES
    ensures fresh(mc) && mc.Valid() && mc.free == [] && d < NPAGES && mc.own[d] == Dir && Present(Pte(mc.mem, d, 1))
  {
    mc := new Machine(1024, m);
    mc.Freerange(1024, 1027);
    d := mc.NewDir(1000);
    ghost var m1, o1 := mc.mem, mc.own;
    var given, hand := mc.GivePage(d, 1, ZeroPage(), PTE_W + PTE_U);
    GrewKeeps(m1, o1, mc.mem, mc.own, d, d);
    Exhaust(mc);
  }

  /** allocuvm from 0 to two pages then fails and takes page 1 away. */
  method FailureUnmaps(m: seq<Page>) returns (mc: Machine, d: nat, before: seq<Page>, r: Alloc)
    requires |m| == NPAGES
    ensures r == Fail && mc.Valid() && d < NPAGES && mc.own[d] == Dir
    ensures Present(Pte(before, d, 1)) && !Present(Pte(mc.mem, d, 1))
  {
    mc, d := PartlyMapped(m);
    before := mc.mem;
    ghost var o2 := mc.own;
    r := Allocuvm(mc, d, 0, 2 * PGSIZE);
    assert Up(0) == 0 && Up(2 * PGSIZE) == 2;
    assert r.Fail? ==> ShrunkAt(before, o2, mc.mem, mc.own, d, 0, 2, d);
  }
}

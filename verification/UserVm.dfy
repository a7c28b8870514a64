/**
 User memory: unmapping, growing, shrinking and copying address spaces.  A page that is freed, mapped or
 copied is accounted for: `keep` is the set of pages in use outside the free list and the tables.
 */
module UserVm {
  import opened Sv39
  import opened PageTable
  import opened Kalloc
  import opened Vm
  import opened TableCount

  /** The physical pages that the entries of virtual pages lo .. hi-1 point to. */
  ghost function Frames(leaf: map<nat, nat>, lo: nat, hi: nat): set<nat> {
    set v | v in leaf && lo <= v < hi :: Pte2Pa(leaf[v])
  }

  /** The virtual pages lo .. hi-1 are backed by distinct pages of `keep`. */
  ghost predicate Owns(leaf: map<nat, nat>, lo: nat, hi: nat, keep: set<nat>)
  {
    && (forall v :: v in leaf && lo <= v < hi ==> Pte2Pa(leaf[v]) in keep)
    && (forall v, w :: v in leaf && w in leaf && lo <= v < w < hi ==> Pte2Pa(leaf[v]) != Pte2Pa(leaf[w]))
  }

  /** walkaddr(): the page that a user address is mapped to, or 0. */
  method Walkaddr(ram: Memory, root: nat, va: nat, ghost s: Space, ghost keep: set<nat>) returns (pa: nat)
    requires Inv(ram, s, keep) && root == s.root
    modifies ram
    ensures Inv(ram, s, keep) && ram.mem == old(ram.mem) && ram.frees == old(ram.frees)
    ensures va < MAXVA && va / PGSIZE in s.leaf && Has(s.leaf[va / PGSIZE], PTE_U) ==> pa == Pte2Pa(s.leaf[va / PGSIZE])
    ensures !(va < MAXVA && va / PGSIZE in s.leaf && Has(s.leaf[va / PGSIZE], PTE_U)) ==> pa == 0
  {
    hide Rep;
    hide Has;
    hide IsLeaf;
    hide Pte2Pa;
    if va >= MAXVA {
      return 0;
    }
    ghost var s', v := s, va / PGSIZE;
    var w;
    w, s' := Walk(ram, root, va, false, s, keep);
    if !w.Found? {
      MissingLeaf(ram.mem, s, va, v);
      return 0;
    }
    LeafFlags(ram.mem, s, v);
    var pte := ram.mem[w.page][w.index];
    if !Has(pte, PTE_V) || !Has(pte, PTE_U) {
      return 0;
    }
    return Pte2Pa(pte);
  }

  // ---- giving a page back ----

  lemma FreedHolds(mem: Mem, mem': Mem, frees: seq<nat>, frees': seq<nat>, s: Space, keep: set<nat>, pa: nat)
    requires Holds(mem, frees, s, keep) && pa in keep
    requires mem'.Keys == mem.Keys && (forall p :: p in mem && p != pa ==> mem'[p] == mem[p]) &&
      Elems(frees') == Elems(frees) + {pa}
    ensures Holds(mem', frees', s, keep - {pa}) && Same(mem, mem', keep - {pa})
  {
    hide Rep;
    TablesExist(mem, s);
    RepFrame(mem, mem', s);
  }

  /** kfree() of a page in use.  It does not panic, and the page is then free. */
  method Release(ram: Memory, pa: nat, ghost s: Space, ghost keep: set<nat>)
    requires Inv(ram, s, keep) && pa in keep
    modifies ram
    ensures Inv(ram, s, keep - {pa}) && Same(old(ram.mem), ram.mem, keep - {pa})
    ensures Elems(ram.frees) == Elems(old(ram.frees)) + {pa} && |ram.frees| == |old(ram.frees)| + 1
  {
    hide Rep;
    var ok := ram.Kfree(pa);
    FreedHolds(old(ram.mem), ram.mem, old(ram.frees), ram.frees, s, keep, pa);
  }

  // ---- uvmunmap ----

  /** Exactly the pages lo .. hi-1 have gone, and all of them were there. */
  ghost predicate Removed(leaf: map<nat, nat>, leaf': map<nat, nat>, lo: nat, hi: nat)
  {
    && (forall t: nat :: t in leaf' <==> t in leaf && !(lo <= t < hi))
    && (forall t: nat :: lo <= t < hi ==> t in leaf)
    && (forall t: nat :: t in leaf' ==> leaf'[t] == leaf[t])
  }

  lemma RemovedNone(leaf: map<nat, nat>, lo: nat)
    ensures Removed(leaf, leaf, lo, lo) && Frames(leaf, lo, lo) == {}
  {
  }

  lemma RemovedOne(leaf: map<nat, nat>, leaf': map<nat, nat>, lo: nat, hi: nat)
    requires Removed(leaf, leaf', lo, hi) && lo <= hi
    ensures hi in leaf' <==> hi in leaf
    ensures hi in leaf ==> leaf'[hi] == leaf[hi] && Removed(leaf, leaf' - {hi}, lo, hi + 1)
  {
  }

  lemma FramesOne(leaf: map<nat, nat>, lo: nat, hi: nat, top: nat, keep: set<nat>)
    requires lo <= hi < top && hi in leaf && Owns(leaf, lo, top, keep)
    ensures Pte2Pa(leaf[hi]) in keep && Pte2Pa(leaf[hi]) !in Frames(leaf, lo, hi)
    ensures Frames(leaf, lo, hi + 1) == Frames(leaf, lo, hi) + {Pte2Pa(leaf[hi])}
  {
    hide Pte2Pa;
    var f := Pte2Pa(leaf[hi]);
    forall p | p in Frames(leaf, lo, hi + 1) ensures p in Frames(leaf, lo, hi) || p == f {
      var v :| v in leaf && lo <= v < hi + 1 && p == Pte2Pa(leaf[v]);
    }
  }

  /** One round of uvmunmap(): false is one of its panics. */
  method UnmapOne(ram: Memory, root: nat, a: nat, doFree: bool, ghost v: nat, ghost s: Space, ghost keep: set<nat>)
    returns (ok: bool, ghost s': Space)
    requires Inv(ram, s, keep) && root == s.root && v == a / PGSIZE
    requires doFree && v in s.leaf ==> Pte2Pa(s.leaf[v]) in keep
    modifies ram
    ensures ok <==> a < MAXVA && v in s.leaf
    ensures ok && !doFree ==> Inv(ram, s', keep) && Same(old(ram.mem), ram.mem, keep) && ram.frees == old(ram.frees)
    ensures ok && doFree ==> var k := keep - {Pte2Pa(s.leaf[v])}; Inv(ram, s', k) && Same(old(ram.mem), ram.mem, k)
    ensures ok && doFree ==> Elems(ram.frees) == Elems(old(ram.frees)) + {Pte2Pa(s.leaf[v])}
    ensures ok ==> s' == s.(leaf := s.leaf - {v}) && Tables(s') == Tables(s)
    ensures !ok ==> s' == s && Inv(ram, s, keep) && ram.mem == old(ram.mem) && ram.frees == old(ram.frees)
  {
    hide Rep;
    hide Pte2Pa;
    hide Has;
    hide IsLeaf;
    var w;
    w, s' := Walk(ram, root, a, false, s, keep);
    if !w.Found? {
      MissingLeaf(ram.mem, s, a, v);
      return false, s';
    }
    LeafFlags(ram.mem, s, v);
    var pte := ram.mem[w.page][w.index];
    if !Has(pte, PTE_V) || PteFlags(pte) == PTE_V {
      return false, s';
    }
    ghost var k := keep;
    if doFree {
      Release(ram, Pte2Pa(pte), s, keep);
      k := keep - {Pte2Pa(pte)};
    }
    s' := StorePte(ram, w.page, w.index, 0, v, s, k);
    return true, s';
  }

  lemma MissingLeaf(mem: Mem, s: Space, a: nat, v: nat)
    requires Rep(mem, s) && v == a / PGSIZE && (a >= MAXVA || !HasTable(s, 0, v))
    ensures a < MAXVA ==> v !in s.leaf
  {
    hide Entries0;
    hide Entries1;
    hide Entries2;
    hide Unshared;
  }

  /** A last-level entry that is valid is never a bare pointer: "not a leaf" cannot happen. */
  lemma LeafFlags(mem: Mem, s: Space, v: nat)
    requires Rep(mem, s) && HasTable(s, 0, v)
    ensures TableAt(s, 0, v) in mem && Index(0, v) < ENTRIES
    ensures var pte := mem[TableAt(s, 0, v)][Index(0, v)];
            && (v in s.leaf <==> Has(pte, PTE_V))
            && (v in s.leaf ==> pte == s.leaf[v] && PteFlags(pte) != PTE_V)
  {
    hide Rep;
    hide Index;
    LeafValid(mem, s, v);
    if v in s.leaf {
      LeafBits(s.leaf[v]);
    }
  }

  lemma LeafBits(pte: nat)
    requires LeafOrZero(pte)
    ensures PteFlags(pte) != PTE_V
  {
    LowBits(pte / 1024, pte % 1024);
  }

  /** What uvmunmap() has given back after unmapping lo .. hi-1. */
  ghost function GivenBack(doFree: bool, leaf: map<nat, nat>, lo: nat, hi: nat): set<nat> {
    if doFree then Frames(leaf, lo, hi) else {}
  }

  /**
   uvmunmap().  Exactly the pages from va up to `hi` are removed, each backing page is freed exactly once if
   asked, and every other page keeps its entry.  false is a panic: va is unaligned or page hi is not mapped.
   */
  method Uvmunmap(ram: Memory, root: nat, va: nat, npages: nat, doFree: bool, ghost s: Space, ghost keep: set<nat>)
    returns (ok: bool, ghost s': Space, ghost keep': set<nat>, ghost hi: nat)
    requires Inv(ram, s, keep) && root == s.root && va < WORD && npages < WORD
    requires doFree ==> Owns(s.leaf, va / PGSIZE, (va + npages * PGSIZE) % WORD / PGSIZE, keep)
    modifies ram
    ensures Inv(ram, s', keep') && Same(old(ram.mem), ram.mem, keep')
    ensures s'.root == s.root && s'.l1 == s.l1 && s'.l0 == s.l0 && va / PGSIZE <= hi &&
      Removed(s.leaf, s'.leaf, va / PGSIZE, hi)
    ensures keep' == keep - GivenBack(doFree, s.leaf, va / PGSIZE, hi)
    ensures Elems(ram.frees) == Elems(old(ram.frees)) + GivenBack(doFree, s.leaf, va / PGSIZE, hi)
    ensures ok ==> va % PGSIZE == 0 && (hi == va / PGSIZE || hi <= (va + npages * PGSIZE) % WORD / PGSIZE)
    ensures ok ==> hi >= (va + npages * PGSIZE) % WORD / PGSIZE
    ensures hi == va / PGSIZE || hi <= PAGES
    ensures !ok ==> va % PGSIZE != 0 || (hi < (va + npages * PGSIZE) % WORD / PGSIZE && (hi >= PAGES || hi !in s.leaf))
  {
    hide Inv;
    hide Removed;
    hide Owns;
    hide Frames;
    hi := va / PGSIZE;
    RemovedNone(s.leaf, hi);
    InvKeeps(ram, s, keep);
    if va % PGSIZE != 0 {
      return false, s, keep, hi;
    }
    var end := (va + npages * PGSIZE) % WORD;
    EndAligned(va, npages);
    ok, s', keep', hi := UnmapRange(ram, root, va, end, doFree, hi, end / PGSIZE, s, keep);
  }

  lemma EndAligned(va: nat, npages: nat)
    requires va % PGSIZE == 0
    ensures (va + npages * PGSIZE) % WORD % PGSIZE == 0
  {
    var x := va / PGSIZE + npages;
    assert va + npages * PGSIZE == x * PGSIZE;
    assert x * PGSIZE == x / (WORD / PGSIZE) * WORD + x % (WORD / PGSIZE) * PGSIZE;
  }

  /** The loop of uvmunmap(). */
  method UnmapRange(ram: Memory, root: nat, va: nat, end: nat, doFree: bool, ghost lo: nat, ghost top: nat,
    ghost s: Space, ghost keep: set<nat>)
    returns (ok: bool, ghost s': Space, ghost keep': set<nat>, ghost hi: nat)
    requires Inv(ram, s, keep) && root == s.root && va == lo * PGSIZE && end == top * PGSIZE
    requires doFree ==> Owns(s.leaf, lo, top, keep)
    modifies ram
    ensures Inv(ram, s', keep') && Same(old(ram.mem), ram.mem, keep')
    ensures s'.root == s.root && s'.l1 == s.l1 && s'.l0 == s.l0 && lo <= hi && Removed(s.leaf, s'.leaf, lo, hi)
    ensures keep' == keep - GivenBack(doFree, s.leaf, lo, hi)
    ensures Elems(ram.frees) == Elems(old(ram.frees)) + GivenBack(doFree, s.leaf, lo, hi)
    ensures ok ==> hi == lo || hi <= top
    ensures hi == lo || hi <= PAGES
    ensures ok ==> hi >= top
    ensures !ok ==> hi < top && (hi >= PAGES || hi !in s.leaf)
  {
    hide Inv;
    hide Removed;
    hide Owns;
    hide Frames;
    hide Pte2Pa;
    s', keep', hi := s, keep, lo;
    RemovedNone(s.leaf, lo);
    InvKeeps(ram, s, keep);
    var a := va;
    while a < end
      invariant lo <= hi && a == hi * PGSIZE && (hi == lo || hi <= top) && (hi == lo || hi <= PAGES)
      invariant Inv(ram, s', keep') && Same(old(ram.mem), ram.mem, keep')
      invariant s'.root == s.root && s'.l1 == s.l1 && s'.l0 == s.l0 && Removed(s.leaf, s'.leaf, lo, hi)
      invariant keep' == keep - GivenBack(doFree, s.leaf, lo, hi)
      invariant Elems(ram.frees) == Elems(old(ram.frees)) + GivenBack(doFree, s.leaf, lo, hi)
      decreases end - a
    {
      PageOf(hi);
      RemovedOne(s.leaf, s'.leaf, lo, hi);
      if doFree && hi in s.leaf {
        FramesOne(s.leaf, lo, hi, top, keep);
      }
      ok, s' := UnmapOne(ram, root, a, doFree, hi, s', keep');
      if !ok {
        return;
      }
      keep' := if doFree then keep' - {Pte2Pa(s.leaf[hi])} else keep';
      hi := hi + 1;
      a := a + PGSIZE;
    }
    ok := true;
  }

  // ---- adding pages ----

  /** The pages lo .. hi-1 are new, no other page changes, and distinct pages taken into keep' back them. */
  ghost predicate Extended(leaf: map<nat, nat>, leaf': map<nat, nat>, lo: nat, hi: nat, keep: set<nat>, keep': set<nat>)
  {
    && (forall t: nat :: t in leaf' <==> t in leaf || lo <= t < hi)
    && (forall t: nat :: t in leaf ==> !(lo <= t < hi) && leaf'[t] == leaf[t])
    && Owns(leaf', lo, hi, keep')
    && keep' == keep + Frames(leaf', lo, hi) && keep !! Frames(leaf', lo, hi)
  }

  datatype Want = Want(flags: nat, page: Page)

  /** Each page of lo .. hi-1 has the flags and the contents that are wanted. */
  ghost predicate Backed(mem: Mem, leaf: map<nat, nat>, lo: nat, hi: nat, want: seq<Want>)
  {
    forall t: nat :: lo <= t < hi ==>
      t in leaf && t - lo < |want| && PteFlags(leaf[t]) == want[t - lo].flags && Pte2Pa(leaf[t]) in mem &&
      mem[Pte2Pa(leaf[t])] == want[t - lo].page
  }

  lemma ExtendedNone(leaf: map<nat, nat>, lo: nat, keep: set<nat>)
    ensures Extended(leaf, leaf, lo, lo, keep, keep) && Frames(leaf, lo, lo) == {}
  {
  }

  lemma FramesMore(leaf: map<nat, nat>, lo: nat, hi: nat, pte: nat)
    requires lo <= hi && hi !in leaf
    ensures Frames(leaf[hi := pte], lo, hi + 1) == Frames(leaf, lo, hi) + {Pte2Pa(pte)}
  {
    hide Pte2Pa;
    var leaf' := leaf[hi := pte];
    forall p | p in Frames(leaf, lo, hi) ensures p in Frames(leaf', lo, hi + 1) {
      var v :| v in leaf && lo <= v < hi && p == Pte2Pa(leaf[v]);
      assert v in leaf' && p == Pte2Pa(leaf'[v]);
    }
    assert hi in leaf' && Pte2Pa(leaf'[hi]) == Pte2Pa(pte);
    forall p | p in Frames(leaf', lo, hi + 1) ensures p in Frames(leaf, lo, hi) + {Pte2Pa(pte)} {
      var v :| v in leaf' && lo <= v < hi + 1 && p == Pte2Pa(leaf'[v]);
      assert v != hi ==> v in leaf && p == Pte2Pa(leaf[v]);
    }
  }

  lemma OwnsMore(leaf: map<nat, nat>, lo: nat, hi: nat, keep: set<nat>, pte: nat)
    requires Owns(leaf, lo, hi, keep) && Pte2Pa(pte) !in keep && hi !in leaf
    ensures Owns(leaf[hi := pte], lo, hi + 1, keep + {Pte2Pa(pte)})
  {
    hide Pte2Pa;
  }

  lemma ExtendedOne(leaf: map<nat, nat>, leaf': map<nat, nat>, lo: nat, hi: nat, keep: set<nat>, keep': set<nat>,
    pte: nat)
    requires Extended(leaf, leaf', lo, hi, keep, keep') && lo <= hi && hi !in leaf' && Pte2Pa(pte) !in keep'
    ensures Extended(leaf, leaf'[hi := pte], lo, hi + 1, keep, keep' + {Pte2Pa(pte)})
    ensures Frames(leaf'[hi := pte], lo, hi + 1) == Frames(leaf', lo, hi) + {Pte2Pa(pte)}
  {
    hide Pte2Pa;
    hide Owns;
    hide Frames;
    FramesMore(leaf', lo, hi, pte);
    OwnsMore(leaf', lo, hi, keep', pte);
  }

  lemma BackedOne(mem: Mem, mem': Mem, leaf: map<nat, nat>, lo: nat, hi: nat, keep: set<nat>, want: seq<Want>, pte: nat)
    requires Backed(mem, leaf, lo, hi, want) && Owns(leaf, lo, hi, keep) && Same(mem, mem', keep) && hi !in leaf
    requires lo <= hi < lo + |want| && PteFlags(pte) == want[hi - lo].flags && Pte2Pa(pte) in mem' &&
      mem'[Pte2Pa(pte)] == want[hi - lo].page
    ensures Backed(mem', leaf[hi := pte], lo, hi + 1, want)
  {
    hide Pte2Pa;
    hide PteFlags;
  }

  /** Taking the new pages away again restores the map and the pages in use. */
  lemma Undone(leaf: map<nat, nat>, leaf': map<nat, nat>, leaf'': map<nat, nat>, lo: nat, hi: nat, keep: set<nat>,
    keep': set<nat>)
    requires Extended(leaf, leaf', lo, hi, keep, keep') && Removed(leaf', leaf'', lo, hi)
    ensures leaf'' == leaf && keep' - Frames(leaf', lo, hi) == keep
  {
    hide Owns;
    hide Frames;
  }

  lemma TakenHolds(mem: Mem, mem': Mem, frees: seq<nat>, frees': seq<nat>, s: Space, keep: set<nat>, pa: nat)
    requires Holds(mem, frees, s, keep) && pa in frees && pa in mem
    requires mem'.Keys == mem.Keys && (forall p :: p in mem && p != pa ==> mem'[p] == mem[p]) &&
      Elems(frees') == Elems(frees) - {pa}
    ensures Holds(mem', frees', s, keep + {pa}) && Same(mem, mem', keep) && pa !in keep
  {
    hide Rep;
    TablesExist(mem, s);
    RepFrame(mem, mem', s);
  }

  /** kalloc() and filling of a page that is then in use. */
  method Take(ram: Memory, page: Page, ghost s: Space, ghost keep: set<nat>) returns (pa: nat)
    requires Inv(ram, s, keep)
    modifies ram
    ensures pa == 0 <==> old(ram.frees) == []
    ensures pa == 0 ==>
      Inv(ram, s, keep) && Same(old(ram.mem), ram.mem, keep) && ram.mem == old(ram.mem) && ram.frees == old(ram.frees)
    ensures pa != 0 ==>
      Aligned(pa) && pa !in keep && Inv(ram, s, keep + {pa}) && Same(old(ram.mem), ram.mem, keep) && ram.mem[pa] == page
    ensures pa != 0 ==> pa in old(ram.frees) && Elems(ram.frees) == Elems(old(ram.frees)) - {pa}
    ensures pa != 0 ==> |ram.frees| == |old(ram.frees)| - 1
  {
    hide Rep;
    pa := ram.Kalloc();
    if pa != 0 {
      ram.Put(pa, page);
      TakenHolds(old(ram.mem), ram.mem, old(ram.frees), ram.frees, s, keep, pa);
    }
  }

  lemma TakenPool(frees: seq<nat>, frees1: seq<nat>, frees': seq<nat>, s: Space, s': Space, pa: nat)
    requires pa in frees && Elems(frees1) == Elems(frees) - {pa} && Pool(frees', s') == Pool(frees1, s)
    ensures Pool(frees', s') + {pa} == Pool(frees, s)
  {
  }

  /** Added with one page is a single store. */
  lemma AddedSingle(leaf: map<nat, nat>, leaf': map<nat, nat>, v: nat, hi: nat, pa: nat, perm: nat)
    requires Added(leaf, leaf', v, hi, pa, perm) && v <= hi <= v + 1 && pa < WORD
    ensures hi == v ==> leaf' == leaf
    ensures hi == v + 1 ==> v !in leaf && leaf' == leaf[v := MakePte(pa, perm)]
  {
    hide MakePte;
  }

  /** One page of a range fails to be added only before it is added. */
  lemma OnePage(a: nat, v: nat)
    requires a == v * PGSIZE && a < WORD
    ensures a / PGSIZE == v && (a + PGSIZE - 1) % WORD / PGSIZE == v && (a + PGSIZE - 1) / PGSIZE == v
  {
  }

  lemma FreshEntry(pa: nat, perm: nat)
    requires Aligned(pa) && perm < 1024
    ensures Pte2Pa(MakePte(pa, perm)) == pa && PteFlags(MakePte(pa, perm)) == Flags(perm)
  {
    PteRoundTrip(pa, perm);
  }

  /** The flags of an entry made with a permission. */
  function Flags(perm: nat): nat {
    if Has(perm, PTE_V) then perm else perm + PTE_V
  }

  /**
   A new page with the given contents and permission at virtual address a, as uvmalloc() and uvmcopy() do
   it: if the tables cannot be made, the page is given back.  That happens only if there are fewer free pages than the
   page and its missing tables.
   */
  method AddPage(ram: Memory, root: nat, a: nat, perm: nat, page: Page, ghost v: nat, ghost s: Space,
    ghost keep: set<nat>)
    returns (r: MapResult, ghost pte: nat, ghost s': Space)
    requires Inv(ram, s, keep) && root == s.root && a == v * PGSIZE && a < WORD && perm < 1024 && IsLeaf(perm)
    modifies ram
    ensures r.Mapped? ==>
      v < PAGES && v !in s.leaf && s'.leaf == s.leaf[v := pte] && PteFlags(pte) == Flags(perm) && Pte2Pa(pte) !in keep
    ensures r.Mapped? ==> Inv(ram, s', keep + {Pte2Pa(pte)}) && Same(old(ram.mem), ram.mem, keep) && s'.root == s.root
    ensures r.Mapped? ==> Pool(ram.frees, s') + {Pte2Pa(pte)} == Pool(old(ram.frees), s)
    ensures r.Mapped? ==> Pte2Pa(pte) in ram.mem && ram.mem[Pte2Pa(pte)] == page
    ensures r.NoMemory? ==>
      Inv(ram, s', keep) && Same(old(ram.mem), ram.mem, keep) && s'.root == s.root && s'.leaf == s.leaf
    ensures r.NoMemory? ==> Pool(ram.frees, s') == Pool(old(ram.frees), s)
    ensures r.MapPanic? ==> v in s.leaf || v >= PAGES
    ensures r.Mapped? ==> OneMore(old(ram.frees), s, ram.frees, s', v)
    ensures r.NoMemory? ==> |old(ram.frees)| < 1 + Lacks(s, v, v + 1)
  {
    hide Inv;
    hide Added;
    hide Toward;
    hide AllTables;
    hide Lacks;
    hide Count;
    hide MakePte;
    hide Pte2Pa;
    hide PteFlags;
    hide IsLeaf;
    hide Has;
    s', pte := s, 0;
    var pa := Take(ram, page, s, keep);
    if pa == 0 {
      return NoMemory, pte, s';
    }
    ghost var before, frees := ram.mem, ram.frees;
    OnePage(a, v);
    ghost var hi;
    r, s', hi := Mappages(ram, root, a, PGSIZE, pa, perm, s, keep + {pa});
    if r.MapPanic? {
      return;
    }
    assert r.NoMemory? ==> hi == v;
    AddedSingle(s.leaf, s'.leaf, v, hi, pa, perm);
    SameTrans(old(ram.mem), before, ram.mem, keep, keep + {pa});
    TakenPool(old(ram.frees), frees, ram.frees, s, s', pa);
    if r.NoMemory? {
      before := ram.mem;
      frees := ram.frees;
      Release(ram, pa, s', keep + {pa});
      assert keep + {pa} - {pa} == keep;
      SameTrans(old(ram.mem), before, ram.mem, keep, keep);
      return;
    }
    pte := MakePte(pa, perm);
    FreshEntry(pa, perm);
  }

  /** A page and its missing tables have left the free list. */
  ghost predicate OneMore(frees: seq<nat>, s: Space, frees': seq<nat>, s': Space, v: nat)
  {
    Stock(frees', s') + 1 == Stock(frees, s) && Toward(s, s', v, v + 1) && AllTables(s', v, v + 1)
  }

  /** The pages lo .. hi-1 and their missing tables have left the free list. */
  ghost predicate Spent(frees: seq<nat>, s: Space, frees': seq<nat>, s': Space, lo: nat, hi: nat)
  {
    && lo <= hi && Stock(frees', s') + (hi - lo) == Stock(frees, s) && Toward(s, s', lo, hi) && AllTables(s', lo, hi)
  }

  lemma SpentNone(frees: seq<nat>, s: Space, lo: nat)
    ensures Spent(frees, s, frees, s, lo, lo)
  {
    hide Toward;
    hide AllTables;
    hide Lacks;
    TowardNone(s, lo);
  }

  lemma SpentOne(frees: seq<nat>, s: Space, frees1: seq<nat>, s1: Space, frees2: seq<nat>, s2: Space, lo: nat, hi: nat)
    requires Spent(frees, s, frees1, s1, lo, hi) && OneMore(frees1, s1, frees2, s2, hi)
    ensures Spent(frees, s, frees2, s2, lo, hi + 1)
  {
    hide Toward;
    hide AllTables;
    TowardMore(s, s1, s2, lo, hi, hi + 1);
  }

  /** What a range takes from the free list: its pages and the tables that are missing. */
  ghost function Price(s: Space, lo: nat, hi: nat): nat
    requires lo <= hi
  {
    hi - lo + Lacks(s, lo, hi)
  }

  lemma SpentAll(frees: seq<nat>, s: Space, frees': seq<nat>, s': Space, lo: nat, hi: nat)
    requires Spent(frees, s, frees', s', lo, hi)
    ensures |frees'| + Price(s, lo, hi) == |frees|
  {
    hide Toward;
    hide AllTables;
    hide Lacks;
    TowardCount(s, s', lo, hi);
  }

  lemma SpentShort(frees: seq<nat>, s: Space, frees1: seq<nat>, s1: Space, lo: nat, hi: nat, end: nat)
    requires Spent(frees, s, frees1, s1, lo, hi) && |frees1| < 1 + Lacks(s1, hi, hi + 1) && hi < end
    ensures |frees| < Price(s, lo, end)
  {
    hide Toward;
    hide AllTables;
    hide Lacks;
    Shortage(s, s1, |frees|, |frees1|, lo, hi, end);
  }

  lemma SameTrans(a: Mem, b: Mem, c: Mem, keep: set<nat>, more: set<nat>)
    requires Same(a, b, keep) && Same(b, c, more) && keep <= more
    ensures Same(a, c, keep)
  {
  }

  // ---- uvmdealloc ----

  /** A page count passed through a C int to a 64-bit parameter. */
  function ThroughInt(n: nat): (r: nat)
    ensures r < WORD && (n < 0x8000_0000 ==> r == n)
  {
    var low := n % 0x1_0000_0000;
    if low < 0x8000_0000 then low else WORD - 0x1_0000_0000 + low
  }

  /** The first page number that uvmdealloc() leaves mapped. */
  function DeallocEnd(oldsz: nat, newsz: nat): (r: nat)
    requires PgRoundUp(newsz) < PgRoundUp(oldsz)
  {
    (PgRoundUp(newsz) + ThroughInt((PgRoundUp(oldsz) - PgRoundUp(newsz)) / PGSIZE) * PGSIZE) % WORD / PGSIZE
  }

  predicate Shrinks(oldsz: nat, newsz: nat) {
    newsz < oldsz && PgRoundUp(newsz) < PgRoundUp(oldsz)
  }

  lemma RoundedAligned(a: nat)
    ensures PgRoundUp(a) % PGSIZE == 0 && PgRoundUp(a) == PgRoundUp(a) / PGSIZE * PGSIZE && PgRoundUp(a) < WORD
  {
  }

  lemma DeallocRange(oldsz: nat, newsz: nat)
    requires PgRoundUp(newsz) < PgRoundUp(oldsz) < 0x8000_0000 * PGSIZE
    ensures DeallocEnd(oldsz, newsz) == PgRoundUp(oldsz) / PGSIZE
  {
    hide PgRoundUp;
    RoundedAligned(oldsz);
    RoundedAligned(newsz);
  }

  /** uvmdealloc(): false is a panic of uvmunmap(). */
  method Uvmdealloc(ram: Memory, root: nat, oldsz: nat, newsz: nat, ghost s: Space, ghost keep: set<nat>)
    returns (ok: bool, sz: nat, ghost s': Space, ghost keep': set<nat>, ghost hi: nat)
    requires Inv(ram, s, keep) && root == s.root
    requires Shrinks(oldsz, newsz) ==> Owns(s.leaf, PgRoundUp(newsz) / PGSIZE, DeallocEnd(oldsz, newsz), keep)
    modifies ram
    ensures Inv(ram, s', keep') && Same(old(ram.mem), ram.mem, keep')
    ensures s'.root == s.root && s'.l1 == s.l1 && s'.l0 == s.l0
    ensures sz == if newsz < oldsz then newsz else oldsz
    ensures PgRoundUp(newsz) / PGSIZE <= hi && Removed(s.leaf, s'.leaf, PgRoundUp(newsz) / PGSIZE, hi)
    ensures keep' == keep - Frames(s.leaf, PgRoundUp(newsz) / PGSIZE, hi)
    ensures Elems(ram.frees) == Elems(old(ram.frees)) + Frames(s.leaf, PgRoundUp(newsz) / PGSIZE, hi)
    ensures !Shrinks(oldsz, newsz) ==> ok && hi == PgRoundUp(newsz) / PGSIZE && ram.mem == old(ram.mem)
    ensures Shrinks(oldsz, newsz) && ok ==> hi == PgRoundUp(newsz) / PGSIZE || hi <= DeallocEnd(oldsz, newsz)
    ensures Shrinks(oldsz, newsz) && ok ==> hi >= DeallocEnd(oldsz, newsz)
    ensures !ok ==> Shrinks(oldsz, newsz) && hi < DeallocEnd(oldsz, newsz) && (hi >= PAGES || hi !in s.leaf)
  {
    hide Inv;
    hide Removed;
    hide Owns;
    hide Frames;
    hide PgRoundUp;
    hide ThroughInt;
    ok, sz, s', keep', hi := true, oldsz, s, keep, PgRoundUp(newsz) / PGSIZE;
    RemovedNone(s.leaf, hi);
    InvKeeps(ram, s, keep);
    if newsz >= oldsz {
      return;
    }
    sz := newsz;
    if PgRoundUp(newsz) < PgRoundUp(oldsz) {
      RoundedAligned(newsz);
      var npages := ThroughInt((PgRoundUp(oldsz) - PgRoundUp(newsz)) / PGSIZE);
      ok, s', keep', hi := Uvmunmap(ram, root, PgRoundUp(newsz), npages, true, s, keep);
    }
  }

  // ---- uvmalloc ----

  datatype Outcome = Returns(value: nat) | Panics

  /** How many pages n bytes take. */
  function PageCount(n: nat): nat {
    (n + PGSIZE - 1) / PGSIZE
  }

  /** The pages from lo on that a loop over a < newsz visits. */
  function Reached(lo: nat, newsz: nat): nat {
    if PageCount(newsz) < lo then lo else PageCount(newsz)
  }

  const RWXU := PTE_W + PTE_X + PTE_R + PTE_U

  function ZeroPages(n: nat): (r: seq<Want>)
  {
    seq(n, _ => Want(RWXU + PTE_V, Filled(0)))
  }

  lemma ReachedMore(hi: nat, newsz: nat)
    ensures hi * PGSIZE < newsz ==> hi + 1 <= PageCount(newsz)
    ensures hi * PGSIZE >= newsz ==> PageCount(newsz) <= hi
  {
  }

  lemma UserFlags()
    ensures RWXU < 1024 && IsLeaf(RWXU) && Flags(RWXU) == RWXU + PTE_V
  {
  }

  /** Undo of a partial uvmalloc(): uvmdealloc(pagetable, a, oldsz). */
  method Rollback(ram: Memory, root: nat, a: nat, start: nat, ghost lo: nat, ghost hi: nat, ghost s: Space,
    ghost s0: Space, ghost keep0: set<nat>, ghost keep: set<nat>)
    returns (ghost s': Space)
    requires Inv(ram, s, keep) && root == s.root && start == lo * PGSIZE && a == hi * PGSIZE && lo <= hi &&
      (hi <= PAGES || hi == lo) && start < WORD
    requires Extended(s0.leaf, s.leaf, lo, hi, keep0, keep)
    modifies ram
    ensures Inv(ram, s', keep0) && Same(old(ram.mem), ram.mem, keep0) && s'.root == s.root && s'.leaf == s0.leaf
    ensures Pool(ram.frees, s') == Pool(old(ram.frees), s) + Frames(s.leaf, lo, hi)
  {
    hide Inv;
    hide Removed;
    hide Owns;
    hide Frames;
    hide PgRoundUp;
    hide DeallocEnd;
    RoundExact(lo);
    RoundExact(hi);
    if lo < hi {
      DeallocRange(a, start);
    }
    ExtendedAll(s0.leaf, s.leaf, lo, hi, keep0, keep);
    ghost var keep', end;
    var ok, sz;
    ok, sz, s', keep', end := Uvmdealloc(ram, root, a, start, s, keep);
    Undone(s0.leaf, s.leaf, s'.leaf, lo, hi, keep0, keep);
  }

  lemma RoundExact(v: nat)
    requires v * PGSIZE < WORD
    ensures PgRoundUp(v * PGSIZE) == v * PGSIZE && v * PGSIZE / PGSIZE == v
  {
  }

  lemma ExtendedAll(leaf: map<nat, nat>, leaf': map<nat, nat>, lo: nat, hi: nat, keep: set<nat>, keep': set<nat>)
    requires Extended(leaf, leaf', lo, hi, keep, keep')
    ensures Owns(leaf', lo, hi, keep') && (forall t: nat :: lo <= t < hi ==> t in leaf')
  {
  }

  /** One round of uvmalloc(), with its rollback. */
  method AllocRound(ram: Memory, root: nat, a: nat, start: nat, ghost lo: nat, ghost hi: nat, ghost s: Space,
    ghost s1: Space, ghost keep: set<nat>, ghost keep1: set<nat>, ghost want: seq<Want>)
    returns (r: MapResult, ghost s': Space, ghost keep': set<nat>)
    requires Inv(ram, s1, keep1) && root == s1.root && start == lo * PGSIZE && a == hi * PGSIZE && lo <= hi &&
      (hi <= PAGES || hi == lo) && a < WORD
    requires Extended(s.leaf, s1.leaf, lo, hi, keep, keep1) && Backed(ram.mem, s1.leaf, lo, hi, want)
    requires hi - lo < |want| && want[hi - lo] == Want(RWXU + PTE_V, Filled(0))
    modifies ram
    ensures !r.MapPanic? ==> Inv(ram, s', keep') && Same(old(ram.mem), ram.mem, keep) && s'.root == s1.root
    ensures r.Mapped? ==>
      Extended(s.leaf, s'.leaf, lo, hi + 1, keep, keep') && Backed(ram.mem, s'.leaf, lo, hi + 1, want) && hi < PAGES
    ensures r.Mapped? ==>
      Pool(ram.frees, s') + Frames(s'.leaf, lo, hi + 1) == Pool(old(ram.frees), s1) + Frames(s1.leaf, lo, hi)
    ensures r.NoMemory? ==>
      s'.leaf == s.leaf && keep' == keep && Pool(ram.frees, s') == Pool(old(ram.frees), s1) + Frames(s1.leaf, lo, hi)
    ensures r.MapPanic? ==> hi in s.leaf || hi >= PAGES
    ensures r.Mapped? ==> OneMore(old(ram.frees), s1, ram.frees, s', hi)
    ensures r.NoMemory? ==> |old(ram.frees)| < 1 + Lacks(s1, hi, hi + 1)
  {
    hide OneMore;
    hide Lacks;
    hide Inv;
    hide Extended;
    hide Owns;
    hide Frames;
    hide Backed;
    hide Pool;
    hide Pte2Pa;
    hide PteFlags;
    hide IsLeaf;
    hide Flags;
    UserFlags();
    ExtendedKeeps(s.leaf, s1.leaf, lo, hi, keep, keep1);
    ghost var pte;
    keep' := keep1;
    r, pte, s' := AddPage(ram, root, a, RWXU, Filled(0), hi, s1, keep1);
    if r.NoMemory? {
      ghost var before := ram.mem;
      s' := Rollback(ram, root, a, start, lo, hi, s', s, keep, keep1);
      SameTrans(old(ram.mem), before, ram.mem, keep, keep);
      keep' := keep;
    } else if r.Mapped? {
      keep' := keep1 + {Pte2Pa(pte)};
      ExtendedOne(s.leaf, s1.leaf, lo, hi, keep, keep1, pte);
      BackedOne(old(ram.mem), ram.mem, s1.leaf, lo, hi, keep1, want, pte);
    }
  }

  lemma ExtendedKeeps(leaf: map<nat, nat>, leaf': map<nat, nat>, lo: nat, hi: nat, keep: set<nat>, keep': set<nat>)
    requires Extended(leaf, leaf', lo, hi, keep, keep')
    ensures Owns(leaf', lo, hi, keep') && keep <= keep' && (hi in leaf' <==> hi in leaf)
  {
  }

  /**
   uvmalloc().  On success the pages from PGROUNDUP(oldsz) up to newsz are new, zeroed, readable, writable
   and executable by the user, and backed by distinct pages from the pool.  On failure the map, the pages
   in use and the pool are as they were: only tables may have moved from the free list into the tree.  It fails exactly
   if there are fewer free pages than the new pages and the tables they lack.
   */
  method Uvmalloc(ram: Memory, root: nat, oldsz: nat, newsz: nat, ghost s: Space, ghost keep: set<nat>)
    returns (r: Outcome, ghost grown: bool, ghost s': Space, ghost keep': set<nat>, ghost hi: nat)
    requires Inv(ram, s, keep) && root == s.root && oldsz < WORD && newsz < WORD
    modifies ram
    ensures newsz < oldsz ==>
      r == Returns(oldsz) && s' == s && keep' == keep && ram.mem == old(ram.mem) && ram.frees == old(ram.frees)
    ensures r.Returns? ==> Inv(ram, s', keep') && Same(old(ram.mem), ram.mem, keep) && s'.root == s.root
    ensures newsz >= oldsz && r.Returns? && grown ==>
              var lo := PgRoundUp(oldsz) / PGSIZE;
              && r.value == newsz && hi == Reached(lo, newsz) && Extended(s.leaf, s'.leaf, lo, hi, keep, keep')
              && Backed(ram.mem, s'.leaf, lo, hi, ZeroPages(hi - lo))
              && Pool(ram.frees, s') + Frames(s'.leaf, lo, hi) == Pool(old(ram.frees), s)
    ensures newsz >= oldsz && r.Returns? && !grown ==>
              && r.value == 0 && hi < Reached(PgRoundUp(oldsz) / PGSIZE, newsz)
              && s'.leaf == s.leaf && keep' == keep && Pool(ram.frees, s') == Pool(old(ram.frees), s)
    ensures newsz >= oldsz && r.Returns? ==>
      var lo := PgRoundUp(oldsz) / PGSIZE; grown <==> |old(ram.frees)| >= Price(s, lo, Reached(lo, newsz))
    ensures r.Panics? ==>
      PgRoundUp(oldsz) / PGSIZE <= hi < Reached(PgRoundUp(oldsz) / PGSIZE, newsz) && (hi in s.leaf || hi >= PAGES)
  {
    hide Inv;
    hide Extended;
    hide Owns;
    hide Frames;
    hide PgRoundUp;
    hide Backed;
    hide Pool;
    hide PageCount;
    hide Spent;
    hide OneMore;
    hide Lacks;
    hide Price;
    grown, s', keep', hi := true, s, keep, PgRoundUp(oldsz) / PGSIZE;
    InvKeeps(ram, s, keep);
    if newsz < oldsz {
      return Returns(oldsz), grown, s', keep', hi;
    }
    ghost var lo := hi;
    RoundedAligned(oldsz);
    var start := PgRoundUp(oldsz);
    var a := start;
    ghost var end := Reached(lo, newsz);
    ghost var want := ZeroPages(end - lo);
    SpentNone(ram.frees, s, lo);
    ExtendedNone(s.leaf, lo, keep);
    BackedNone(ram.mem, s.leaf, lo, want);
    while a < newsz
      invariant a == hi * PGSIZE && lo <= hi <= Reached(lo, newsz) && (hi <= PAGES || hi == lo)
      invariant Inv(ram, s', keep') && Same(old(ram.mem), ram.mem, keep) && s'.root == s.root
      invariant Extended(s.leaf, s'.leaf, lo, hi, keep, keep') && Backed(ram.mem, s'.leaf, lo, hi, want)
      invariant Pool(ram.frees, s') + Frames(s'.leaf, lo, hi) == Pool(old(ram.frees), s)
      invariant Spent(old(ram.frees), s, ram.frees, s', lo, hi)
      decreases newsz - a
    {
      ReachedMore(hi, newsz);
      ghost var before, frees1, s1 := ram.mem, ram.frees, s';
      var m;
      m, s', keep' := AllocRound(ram, root, a, start, lo, hi, s, s', keep, keep', want);
      if m.MapPanic? {
        return Panics, grown, s', keep', hi;
      }
      SameTrans(old(ram.mem), before, ram.mem, keep, keep);
      if m.NoMemory? {
        SpentShort(old(ram.frees), s, frees1, s1, lo, hi, end);
        grown := false;
        return Returns(0), grown, s', keep', hi;
      }
      SpentOne(old(ram.frees), s, frees1, s1, ram.frees, s', lo, hi);
      hi := hi + 1;
      a := a + PGSIZE;
    }
    ReachedMore(hi, newsz);
    SpentAll(old(ram.frees), s, ram.frees, s', lo, hi);
    r := Returns(newsz);
  }

  lemma BackedNone(mem: Mem, leaf: map<nat, nat>, lo: nat, want: seq<Want>)
    ensures Backed(mem, leaf, lo, lo, want)
  {
  }

  // ---- uvmcopy ----

  /** The address space `so` lies in pages to keep: its tables, and what its first n pages map. */
  ghost predicate Inside(mem: Mem, so: Space, n: nat, keep: set<nat>)
  {
    Rep(mem, so) && Tables(so) <= keep && (forall v :: v in so.leaf && v < n ==> Pte2Pa(so.leaf[v]) in keep)
  }

  lemma InsideStays(mem: Mem, mem': Mem, so: Space, n: nat, keep: set<nat>)
    requires Inside(mem, so, n, keep) && Same(mem, mem', keep)
    ensures Inside(mem', so, n, keep)
  {
    hide Rep;
    RepFrame(mem, mem', so);
  }

  /** walk() of another address space that lies in pages to keep, and the checks on the entry. */
  method Lookup(ram: Memory, root: nat, a: nat, ghost v: nat, ghost so: Space, ghost n: nat, ghost s: Space,
    ghost keep: set<nat>)
    returns (ok: bool, pte: nat)
    requires Inv(ram, s, keep) && root == so.root && v == a / PGSIZE && Inside(ram.mem, so, n, keep)
    modifies ram
    ensures Inv(ram, s, keep) && ram.mem == old(ram.mem) && ram.frees == old(ram.frees)
    ensures ok <==> a < MAXVA && v in so.leaf
    ensures ok ==> pte == so.leaf[v]
  {
    hide Rep;
    hide Has;
    hide IsLeaf;
    hide Pte2Pa;
    hide Toward;
    hide Stock;
    ghost var s';
    var w;
    w, s' := Walk(ram, root, a, false, so, {});
    if !w.Found? {
      MissingLeaf(ram.mem, so, a, v);
      return false, 0;
    }
    LeafFlags(ram.mem, so, v);
    pte := ram.mem[w.page][w.index];
    ok := Has(pte, PTE_V);
  }

  /** What a copy of the first n pages looks like. */
  ghost function CopyOf(mem: Mem, leaf: map<nat, nat>, n: nat): (r: seq<Want>)
    ensures |r| == n
  {
    seq(n, t => if t in leaf && Pte2Pa(leaf[t]) in mem then Want(PteFlags(leaf[t]), mem[Pte2Pa(leaf[t])])
      else Want(0, Filled(0)))
  }

  lemma CopyFlags(mem: Mem, so: Space, v: nat)
    requires Rep(mem, so) && v in so.leaf
    ensures PteFlags(so.leaf[v]) < 1024 && IsLeaf(PteFlags(so.leaf[v])) &&
      Flags(PteFlags(so.leaf[v])) == PteFlags(so.leaf[v])
  {
    hide Entries0;
    hide Entries1;
    hide Entries2;
    hide Unshared;
    var pte := so.leaf[v];
    LowBits(pte / 1024, pte % 1024);
  }

  /** One page of uvmcopy(), without the rollback. */
  method CopyOne(ram: Memory, oldRoot: nat, root: nat, a: nat, ghost v: nat, ghost so: Space, ghost n: nat,
    ghost s: Space, ghost keep: set<nat>, ghost base: set<nat>)
    returns (r: MapResult, ghost pte: nat, ghost s': Space)
    requires Inv(ram, s, keep) && root == s.root && oldRoot == so.root && a == v * PGSIZE && a < WORD && v < n
    requires Inside(ram.mem, so, n, base) && base <= keep
    modifies ram
    ensures r.Mapped? ==>
      v < PAGES && v !in s.leaf && v in so.leaf && s'.leaf == s.leaf[v := pte] && PteFlags(pte) == PteFlags(so.leaf[v])
    ensures r.Mapped? ==>
      Pte2Pa(pte) !in keep && Inv(ram, s', keep + {Pte2Pa(pte)}) && Same(old(ram.mem), ram.mem, keep) &&
      s'.root == s.root
    ensures r.Mapped? ==> Pool(ram.frees, s') + {Pte2Pa(pte)} == Pool(old(ram.frees), s)
    ensures r.Mapped? ==>
      Pte2Pa(pte) in ram.mem && Pte2Pa(so.leaf[v]) in old(ram.mem) && ram.mem[Pte2Pa(pte)] ==
      old(ram.mem)[Pte2Pa(so.leaf[v])]
    ensures r.NoMemory? ==>
      Inv(ram, s', keep) && Same(old(ram.mem), ram.mem, keep) && s'.root == s.root && s'.leaf == s.leaf
    ensures r.NoMemory? ==> Pool(ram.frees, s') == Pool(old(ram.frees), s)
    ensures r.MapPanic? ==> v in s.leaf || v !in so.leaf || v >= PAGES
    ensures r.Mapped? ==> OneMore(old(ram.frees), s, ram.frees, s', v)
    ensures r.NoMemory? ==> |old(ram.frees)| < 1 + Lacks(s, v, v + 1)
  {
    hide OneMore;
    hide Lacks;
    hide Inv;
    hide Rep;
    hide Pool;
    hide Pte2Pa;
    hide PteFlags;
    hide IsLeaf;
    hide Flags;
    hide Aligned;
    s', pte := s, 0;
    PageOf(v);
    InvKeeps(ram, s, keep);
    var ok, entry := Lookup(ram, oldRoot, a, v, so, n, s, keep);
    if !ok {
      return MapPanic, pte, s';
    }
    CopyFlags(ram.mem, so, v);
    r, pte, s' := AddPage(ram, root, a, PteFlags(entry), ram.mem[Pte2Pa(entry)], v, s, keep);
  }

  /** The error exit of uvmcopy(): uvmunmap(new, 0, i / PGSIZE, 1). */
  method CopyUndo(ram: Memory, root: nat, a: nat, ghost hi: nat, ghost s: Space, ghost s0: Space,
    ghost keep0: set<nat>, ghost keep: set<nat>)
    returns (ghost s': Space)
    requires Inv(ram, s, keep) && root == s.root && a == hi * PGSIZE && hi <= PAGES
    requires Extended(s0.leaf, s.leaf, 0, hi, keep0, keep)
    modifies ram
    ensures Inv(ram, s', keep0) && Same(old(ram.mem), ram.mem, keep0) && s'.root == s.root && s'.leaf == s0.leaf
    ensures Pool(ram.frees, s') == Pool(old(ram.frees), s) + Frames(s.leaf, 0, hi)
  {
    hide Inv;
    hide Removed;
    hide Owns;
    hide Frames;
    hide Extended;
    PageOf(hi);
    ExtendedAll(s0.leaf, s.leaf, 0, hi, keep0, keep);
    ghost var keep', end;
    var ok;
    ok, s', keep', end := Uvmunmap(ram, root, 0, a / PGSIZE, true, s, keep);
    Undone(s0.leaf, s.leaf, s'.leaf, 0, hi, keep0, keep);
  }

  /**
   uvmcopy().  On success the new address space has gained exactly the first pages of the old one, each
   with the same flags and the same contents on a page of its own, and the old one is untouched.  On failure
   the new map, the pages in use and the pool are as they were.  It fails exactly if there are fewer free pages than the
   copies and the tables they lack.
   */
  method Uvmcopy(ram: Memory, oldRoot: nat, root: nat, sz: nat, ghost so: Space, ghost s: Space, ghost keep: set<nat>)
    returns (r: MapResult, ghost s': Space, ghost keep': set<nat>, ghost hi: nat)
    requires Inv(ram, s, keep) && root == s.root && oldRoot == so.root && sz < WORD
    requires Inside(ram.mem, so, PageCount(sz), keep)
    modifies ram
    ensures !r.MapPanic? ==>
      Inv(ram, s', keep') && Same(old(ram.mem), ram.mem, keep) && s'.root == s.root && Rep(ram.mem, so)
    ensures r.Mapped? ==>
      Extended(s.leaf, s'.leaf, 0, PageCount(sz), keep, keep') && forall v :: 0 <= v < PageCount(sz) ==> v in so.leaf
    ensures r.Mapped? ==> Backed(ram.mem, s'.leaf, 0, PageCount(sz), CopyOf(old(ram.mem), so.leaf, PageCount(sz)))
    ensures r.Mapped? ==> Pool(ram.frees, s') + Frames(s'.leaf, 0, PageCount(sz)) == Pool(old(ram.frees), s)
    ensures r.NoMemory? ==> s'.leaf == s.leaf && keep' == keep && Pool(ram.frees, s') == Pool(old(ram.frees), s)
    ensures r.MapPanic? ==> hi < PageCount(sz) && (hi in s.leaf || hi !in so.leaf || hi >= PAGES)
    ensures !r.MapPanic? ==> (r.Mapped? <==> |old(ram.frees)| >= Price(s, 0, PageCount(sz)))
  {
    hide Inv;
    hide Extended;
    hide Owns;
    hide Frames;
    hide Backed;
    hide Pool;
    hide Rep;
    hide Pte2Pa;
    hide PteFlags;
    hide PageCount;
    hide Spent;
    hide OneMore;
    hide Lacks;
    hide Price;
    s', keep', hi := s, keep, 0;
    ghost var n := PageCount(sz);
    SpentNone(ram.frees, s, 0);
    ghost var want := CopyOf(ram.mem, so.leaf, n);
    var i := 0;
    InvKeeps(ram, s, keep);
    ExtendedNone(s.leaf, 0, keep);
    BackedNone(ram.mem, s.leaf, 0, want);
    while i < sz
      invariant i == hi * PGSIZE && hi <= n && hi <= PAGES
      invariant Inv(ram, s', keep') && Same(old(ram.mem), ram.mem, keep) && s'.root == s.root
      invariant Extended(s.leaf, s'.leaf, 0, hi, keep, keep') && Backed(ram.mem, s'.leaf, 0, hi, want)
      invariant forall v :: 0 <= v < hi ==> v in so.leaf
      invariant Pool(ram.frees, s') + Frames(s'.leaf, 0, hi) == Pool(old(ram.frees), s)
      invariant Spent(old(ram.frees), s, ram.frees, s', 0, hi)
      decreases sz - i
    {
      ReachedMore(hi, sz);
      InsideStays(old(ram.mem), ram.mem, so, n, keep);
      ExtendedKeeps(s.leaf, s'.leaf, 0, hi, keep, keep');
      ghost var before, frees1, s1, keep1, pte := ram.mem, ram.frees, s', keep', 0;
      r, pte, s' := CopyOne(ram, oldRoot, root, i, hi, so, n, s1, keep1, keep);
      if r.MapPanic? {
        return;
      }
      SameTrans(old(ram.mem), before, ram.mem, keep, keep1);
      if r.NoMemory? {
        SpentShort(old(ram.frees), s, frees1, s1, 0, hi, n);
        before := ram.mem;
        s' := CopyUndo(ram, root, i, hi, s', s, keep, keep1);
        SameTrans(old(ram.mem), before, ram.mem, keep, keep);
        InsideStays(old(ram.mem), ram.mem, so, n, keep);
        keep' := keep;
        return;
      }
      SpentOne(old(ram.frees), s, frees1, s1, ram.frees, s', 0, hi);
      keep' := keep1 + {Pte2Pa(pte)};
      ExtendedOne(s.leaf, s1.leaf, 0, hi, keep, keep1, pte);
      BackedOne(before, ram.mem, s1.leaf, 0, hi, keep1, want, pte);
      hi := hi + 1;
      i := i + PGSIZE;
    }
    ReachedMore(hi, sz);
    SpentAll(old(ram.frees), s, ram.frees, s', 0, hi);
    InsideStays(old(ram.mem), ram.mem, so, n, keep);
    r := Mapped;
  }
}

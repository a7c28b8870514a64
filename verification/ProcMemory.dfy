/**
 The memory of a process: making its page table, growing and shrinking it, and freeing it again.
 */
module ProcMemory {
  import Prelude
  import opened Sv39
  import opened PageTable
  import opened Kalloc
  import opened Vm
  import opened TableCount
  import opened UserVm
  import opened Teardown

  const TRAMPOLINE_PAGE := 0x3FF_FFFF
  const TRAPFRAME_PAGE := 0x3FF_FFFE

  /** The pages in use when no page table is being looked at. */
  ghost predicate Idle(ram: Memory, keep: set<nat>)
    reads ram
  {
    ram.Valid() && keep !! Elems(ram.frees) && keep <= ram.mem.Keys
  }

  // ---- uvmcreate and uvmfree ----

  lemma EmptyRep(mem: Mem, pa: nat)
    requires pa in mem && Aligned(pa) && mem[pa] == Filled(0)
    ensures Rep(mem, Space(pa, map[], map[], map[])) && Tables(Space(pa, map[], map[], map[])) == {pa}
  {
  }

  /** uvmcreate(): an empty page table on a page from the free list, or 0. */
  method Uvmcreate(ram: Memory, ghost keep: set<nat>) returns (pa: nat, ghost s: Space)
    requires Idle(ram, keep)
    modifies ram
    ensures Same(old(ram.mem), ram.mem, keep)
    ensures pa == 0 ==> old(ram.frees) == [] && Idle(ram, keep) && ram.frees == old(ram.frees)
    ensures pa != 0 ==>
      s == Space(pa, map[], map[], map[]) && Inv(ram, s, keep) && Pool(ram.frees, s) == Elems(old(ram.frees)) &&
      |ram.frees| == |old(ram.frees)| - 1
  {
    hide Rep;
    pa := ram.Kalloc();
    s := Space(pa, map[], map[], map[]);
    if pa != 0 {
      ram.Put(pa, Filled(0));
      EmptyRep(ram.mem, pa);
    }
  }

  lemma AllStands(mem: Mem, frees: seq<nat>, s: Space, keep: set<nat>)
    requires Holds(mem, frees, s, keep)
    ensures HasNode(s, 2, 0) && NodePage(s, 2, 0) == s.root && Below(s, 2, 0) == Tables(s)
    ensures Standing(mem, frees, mem, Below(s, 2, 0))
  {
    hide Rep;
    TablesExist(mem, s);
  }

  /** freewalk() of a whole page table. */
  method FreeTables(ram: Memory, root: nat, ghost s: Space, ghost keep: set<nat>) returns (ok: bool)
    requires Inv(ram, s, keep) && root == s.root
    modifies ram
    ensures ok <==> s.leaf == map[]
    ensures ok ==> Idle(ram, keep) && Same(old(ram.mem), ram.mem, keep) && Elems(ram.frees) == Pool(old(ram.frees), s)
  {
    hide Rep;
    hide Clear;
    AllStands(ram.mem, ram.frees, s, keep);
    ClearWhole(ram.mem, s);
    ok := Freewalk(ram, root, 2, 0, s, ram.mem);
  }

  /** The pages mapped are exactly those below n. */
  ghost predicate Exactly(leaf: map<nat, nat>, n: nat)
  {
    forall t: nat :: t in leaf <==> t < n
  }

  lemma RemovedAll(leaf: map<nat, nat>, leaf': map<nat, nat>, hi: nat)
    requires Removed(leaf, leaf', 0, hi)
    ensures leaf' == map[] <==> Exactly(leaf, hi)
  {
    if leaf' != map[] {
      assert exists t: nat :: t in leaf';
    }
  }

  /**
   uvmfree(): it panics unless exactly the pages of [0, PGROUNDUP(sz)) are mapped; otherwise every one of
   them and every table page has become free.
   */
  method Uvmfree(ram: Memory, root: nat, sz: nat, ghost s: Space, ghost keep: set<nat>)
    returns (ok: bool, ghost keep': set<nat>)
    requires Inv(ram, s, keep) && root == s.root && sz + PGSIZE <= WORD && Owns(s.leaf, 0, PageCount(sz), keep)
    modifies ram
    ensures ok <==> Exactly(s.leaf, PageCount(sz)) && PageCount(sz) <= PAGES
    ensures ok ==>
      keep' == keep - Frames(s.leaf, 0, PageCount(sz)) && Idle(ram, keep') && Same(old(ram.mem), ram.mem, keep')
    ensures ok ==> Elems(ram.frees) == Pool(old(ram.frees), s) + Frames(s.leaf, 0, PageCount(sz))
  {
    hide Inv;
    hide Idle;
    hide Owns;
    hide Frames;
    hide Removed;
    hide Exactly;
    hide PgRoundUp;
    ghost var s', hi := s, 0;
    keep' := keep;
    RoundCount(sz);
    RemovedNone(s.leaf, 0);
    InvKeeps(ram, s, keep);
    if sz > 0 {
      ok, s', keep', hi := Uvmunmap(ram, root, 0, PgRoundUp(sz) / PGSIZE, true, s, keep);
      if !ok {
        NotExactly(s.leaf, hi, PageCount(sz));
        return;
      }
    }
    RemovedAll(s.leaf, s'.leaf, hi);
    RemovedBelow(s.leaf, s'.leaf, hi);
    ghost var before := ram.mem;
    ok := FreeTables(ram, root, s', keep');
    if ok {
      SameTrans(old(ram.mem), before, ram.mem, keep', keep');
    }
  }

  lemma NotExactly(leaf: map<nat, nat>, hi: nat, n: nat)
    requires hi < n && (hi >= PAGES || hi !in leaf)
    ensures !(Exactly(leaf, n) && n <= PAGES)
  {
  }

  lemma RemovedBelow(leaf: map<nat, nat>, leaf': map<nat, nat>, hi: nat)
    requires Removed(leaf, leaf', 0, hi)
    ensures forall t: nat :: t < hi ==> t in leaf
  {
  }

  lemma RoundCount(sz: nat)
    requires sz + PGSIZE <= WORD
    ensures PgRoundUp(sz) / PGSIZE == PageCount(sz) && PgRoundUp(sz) == PageCount(sz) * PGSIZE < WORD
  {
  }

  // ---- proc_pagetable and proc_freepagetable ----

  function SpecialLeaf(trampoline: nat, trapframe: nat): map<nat, nat> {
    map[TRAMPOLINE_PAGE := MakePte(trampoline, PTE_R + PTE_X), TRAPFRAME_PAGE := MakePte(trapframe, PTE_R + PTE_W)]
  }

  lemma SpecialPages()
    ensures TRAMPOLINE == TRAMPOLINE_PAGE * PGSIZE && TRAPFRAME == TRAPFRAME_PAGE * PGSIZE
    ensures PTE_R + PTE_X < 1024 && IsLeaf(PTE_R + PTE_X) && PTE_R + PTE_W < 1024 && IsLeaf(PTE_R + PTE_W)
  {
  }

  /** mappages() of one aligned page that is not mapped yet: it cannot panic. */
  method MapSpecial(ram: Memory, root: nat, page: nat, pa: nat, perm: nat, ghost s: Space, ghost keep: set<nat>)
    returns (ok: bool, ghost s': Space)
    requires Inv(ram, s, keep) && root == s.root && page < PAGES && page !in s.leaf && pa < WORD && perm < 1024 &&
      IsLeaf(perm)
    modifies ram
    ensures Inv(ram, s', keep) && Same(old(ram.mem), ram.mem, keep) && s'.root == s.root &&
      Pool(ram.frees, s') == Pool(old(ram.frees), s)
    ensures s'.leaf == if ok then s.leaf[page := MakePte(pa, perm)] else s.leaf
    ensures ok <==> |old(ram.frees)| >= Lacks(s, page, page + 1)
    ensures ok ==>
      Toward(s, s', page, page + 1) && AllTables(s', page, page + 1) &&
      Stock(ram.frees, s') == Stock(old(ram.frees), s)
  {
    hide Toward;
    hide AllTables;
    hide Lacks;
    hide Stock;
    hide Inv;
    hide Pool;
    hide Added;
    hide MakePte;
    hide IsLeaf;
    var va := page * PGSIZE;
    OnePage(va, page);
    ghost var hi;
    var r;
    r, s', hi := Mappages(ram, root, va, PGSIZE, pa, perm, s, keep);
    assert !r.Mapped? ==> hi == page;
    AddedSingle(s.leaf, s'.leaf, page, hi, pa, perm);
    ok := r.Mapped?;
  }

  /** uvmunmap(pagetable, va, 1, 0) of a page that is mapped: it cannot panic. */
  method UnmapSpecial(ram: Memory, root: nat, page: nat, ghost s: Space, ghost keep: set<nat>)
    returns (ok: bool, ghost s': Space)
    requires Inv(ram, s, keep) && root == s.root && page < PAGES && page in s.leaf
    modifies ram
    ensures ok && Inv(ram, s', keep) && Same(old(ram.mem), ram.mem, keep) && Elems(ram.frees) == Elems(old(ram.frees))
    ensures s' == s.(leaf := s.leaf - {page})
  {
    hide Inv;
    hide Frames;
    hide Removed;
    PageOf(page);
    PageOf(page + 1);
    ghost var hi, keep';
    ok, s', keep', hi := Uvmunmap(ram, root, page * PGSIZE, 1, false, s, keep);
    assert keep' == keep;
    RemovedSingle(s.leaf, s'.leaf, page, hi);
  }

  lemma RemovedSingle(leaf: map<nat, nat>, leaf': map<nat, nat>, v: nat, hi: nat)
    requires Removed(leaf, leaf', v, hi) && v <= hi <= v + 1
    ensures hi == v ==> leaf' == leaf
    ensures hi == v + 1 ==> leaf' == leaf - {v}
  {
  }

  /**
   proc_pagetable(): a page table with the trampoline and the trapframe and nothing else, or 0, and then
   the free list has every page back.  It fails exactly if there are fewer than three free pages: the root and one table
   of each other level.
   */
  method ProcPagetable(ram: Memory, trampoline: nat, trapframe: nat, ghost keep: set<nat>)
    returns (root: nat, ghost s: Space)
    requires Idle(ram, keep) && trampoline < WORD && trapframe < WORD
    modifies ram
    ensures Same(old(ram.mem), ram.mem, keep)
    ensures root == 0 ==> Idle(ram, keep) && Elems(ram.frees) == Elems(old(ram.frees))
    ensures root != 0 ==> Inv(ram, s, keep) && s.root == root && s.leaf == SpecialLeaf(trampoline, trapframe)
    ensures root != 0 ==> Pool(ram.frees, s) == Elems(old(ram.frees))
    ensures root != 0 <==> |old(ram.frees)| >= 3
  {
    hide Toward;
    hide AllTables;
    hide Lacks;
    hide Stock;
    hide Inv;
    hide Idle;
    hide MakePte;
    hide IsLeaf;
    SpecialPages();
    root, s := Uvmcreate(ram, keep);
    if root == 0 {
      return;
    }
    ghost var before := ram.mem;
    ghost var all := Pool(ram.frees, s);
    EmptyLacks(s, TRAMPOLINE_PAGE);
    var ok;
    ok, s := MapSpecial(ram, root, TRAMPOLINE / PGSIZE, trampoline, PTE_R + PTE_X, s, keep);
    SameTrans(old(ram.mem), before, ram.mem, keep, keep);
    before := ram.mem;
    if !ok {
      ok := FreeEmpty(ram, root, s, keep);
      SameTrans(old(ram.mem), before, ram.mem, keep, keep);
      return 0, s;
    }
    NeighbourLacks(s, TRAMPOLINE_PAGE, TRAPFRAME_PAGE);
    root, s := MapTrapframe(ram, root, trampoline, trapframe, s, keep);
    SameTrans(old(ram.mem), before, ram.mem, keep, keep);
  }

  /** The last part of proc_pagetable(). */
  method MapTrapframe(ram: Memory, table: nat, trampoline: nat, trapframe: nat, ghost s: Space, ghost keep: set<nat>)
    returns (root: nat, ghost s': Space)
    requires Inv(ram, s, keep) && table == s.root && trampoline < WORD && trapframe < WORD
    requires s.leaf == map[TRAMPOLINE_PAGE := MakePte(trampoline, PTE_R + PTE_X)]
    modifies ram
    ensures Same(old(ram.mem), ram.mem, keep)
    ensures root == 0 ==> Idle(ram, keep) && Elems(ram.frees) == Pool(old(ram.frees), s)
    ensures root != 0 ==> Inv(ram, s', keep) && s'.root == root && s'.leaf == SpecialLeaf(trampoline, trapframe)
    ensures root != 0 ==> Pool(ram.frees, s') == Pool(old(ram.frees), s)
    ensures root != 0 <==> |old(ram.frees)| >= Lacks(s, TRAPFRAME_PAGE, TRAPFRAME_PAGE + 1)
  {
    hide Toward;
    hide AllTables;
    hide Lacks;
    hide Stock;
    hide Inv;
    hide Idle;
    hide MakePte;
    hide IsLeaf;
    SpecialPages();
    RootPage(ram, s, keep);
    root := table;
    var ok;
    ok, s' := MapSpecial(ram, root, TRAPFRAME / PGSIZE, trapframe, PTE_R + PTE_W, s, keep);
    if !ok {
      ghost var before := ram.mem;
      ok, s' := UnmapSpecial(ram, root, TRAMPOLINE / PGSIZE, s', keep);
      SameTrans(old(ram.mem), before, ram.mem, keep, keep);
      before := ram.mem;
      ok := FreeEmpty(ram, root, s', keep);
      SameTrans(old(ram.mem), before, ram.mem, keep, keep);
      root := 0;
    }
  }

  lemma RootPage(ram: Memory, s: Space, keep: set<nat>)
    requires Inv(ram, s, keep)
    ensures s.root != 0
  {
  }

  lemma EmptyLacks(s: Space, v: nat)
    requires s.l1 == map[] && s.l0 == map[]
    ensures Lacks(s, v, v + 1) == 2
  {
    hide Middles;
    hide Lasts;
    RangeOne(v);
    assert {v / ENTRIES / ENTRIES} - s.l1.Keys == {v / ENTRIES / ENTRIES};
    assert {v / ENTRIES} - s.l0.Keys == {v / ENTRIES};
  }

  /** A page in the same last table needs no further table. */
  lemma NeighbourLacks(s: Space, v: nat, w: nat)
    requires AllTables(s, v, v + 1) && v / ENTRIES == w / ENTRIES
    ensures Lacks(s, w, w + 1) == 0
  {
    hide Middles;
    hide Lasts;
    RangeOne(v);
    RangeOne(w);
    assert Middles(w, w + 1) - s.l1.Keys == {} && Lasts(w, w + 1) - s.l0.Keys == {};
  }

  /** uvmfree(pagetable, 0) */
  method FreeEmpty(ram: Memory, root: nat, ghost s: Space, ghost keep: set<nat>) returns (ok: bool)
    requires Inv(ram, s, keep) && root == s.root && s.leaf == map[]
    modifies ram
    ensures ok && Idle(ram, keep) && Same(old(ram.mem), ram.mem, keep) && Elems(ram.frees) == Pool(old(ram.frees), s)
  {
    hide Inv;
    hide Idle;
    ghost var keep';
    assert PageCount(0) == 0;
    RemovedNone(s.leaf, 0);
    ok, keep' := Uvmfree(ram, root, 0, s, keep);
    assert keep' == keep;
  }

  /** A process's pages: [0, PGROUNDUP(sz)) on distinct pages of `keep`, the trapframe and the trampoline. */
  ghost predicate UserSpace(s: Space, sz: nat, keep: set<nat>)
  {
    && (forall t: nat :: t in s.leaf <==> t < PageCount(sz) || t == TRAPFRAME_PAGE || t == TRAMPOLINE_PAGE)
    && PageCount(sz) <= TRAPFRAME_PAGE
    && Owns(s.leaf, 0, PageCount(sz), keep)
  }

  lemma WithoutSpecial(s: Space, sz: nat, keep: set<nat>, s': Space)
    requires UserSpace(s, sz, keep) && s'.leaf == s.leaf - {TRAMPOLINE_PAGE} - {TRAPFRAME_PAGE}
    ensures Exactly(s'.leaf, PageCount(sz)) && Owns(s'.leaf, 0, PageCount(sz), keep)
    ensures Frames(s'.leaf, 0, PageCount(sz)) == Frames(s.leaf, 0, PageCount(sz))
  {
    hide PageCount;
    hide Pte2Pa;
    var n := PageCount(sz);
    forall p | p in Frames(s.leaf, 0, n) ensures p in Frames(s'.leaf, 0, n) {
      var v :| v in s.leaf && 0 <= v < n && p == Pte2Pa(s.leaf[v]);
      assert v in s'.leaf && s'.leaf[v] == s.leaf[v];
    }
  }

  /**
   proc_freepagetable(): it never panics on a process's page table, and afterwards the free list has
   gained exactly the user pages and the table pages.  The trapframe and the trampoline stay.
   */
  method ProcFreepagetable(ram: Memory, root: nat, sz: nat, ghost s: Space, ghost keep: set<nat>) returns (ok: bool)
    requires Inv(ram, s, keep) && root == s.root && UserSpace(s, sz, keep)
    modifies ram
    ensures ok && Elems(ram.frees) == Elems(old(ram.frees)) + Tables(s) + Frames(s.leaf, 0, PageCount(sz))
    ensures var keep' := keep - Frames(s.leaf, 0, PageCount(sz)); Idle(ram, keep') && Same(old(ram.mem), ram.mem, keep')
  {
    hide Inv;
    hide Idle;
    hide Frames;
    hide Owns;
    hide Exactly;
    hide PageCount;
    SpecialPages();
    SizeFits(sz);
    ghost var s1, s2, keep';
    ok, s1 := UnmapSpecial(ram, root, TRAMPOLINE / PGSIZE, s, keep);
    ghost var before := ram.mem;
    ok, s2 := UnmapSpecial(ram, root, TRAPFRAME / PGSIZE, s1, keep);
    SameTrans(old(ram.mem), before, ram.mem, keep, keep);
    before := ram.mem;
    WithoutSpecial(s, sz, keep, s2);
    ok, keep' := Uvmfree(ram, root, sz, s2, keep);
    SameTrans(before, before, ram.mem, keep', keep');
    SameTrans(old(ram.mem), before, ram.mem, keep', keep');
  }

  lemma SizeFits(sz: nat)
    requires PageCount(sz) <= TRAPFRAME_PAGE
    ensures sz <= TRAPFRAME && sz + PGSIZE <= WORD
  {
  }

  // ---- growproc ----


  lemma {:induction false} FramesCount(leaf: map<nat, nat>, n: nat, keep: set<nat>)
    requires Owns(leaf, 0, n, keep) && forall t: nat :: t < n ==> t in leaf
    ensures |Frames(leaf, 0, n)| == n && Frames(leaf, 0, n) <= keep
  {
    hide Pte2Pa;
    hide Frames;
    if n == 0 {
      RemovedNone(leaf, 0);
    } else {
      FramesCount(leaf, n - 1, keep);
      FramesOne(leaf, 0, n - 1, n, keep);
    }
  }

  /** At most m pages lie below m * PGSIZE. */
  lemma {:induction false} PagesBelow(pages: set<nat>, m: nat)
    requires forall p :: p in pages ==> p % PGSIZE == 0 && p < m * PGSIZE
    ensures |pages| <= m
  {
    if m == 0 {
      assert forall p :: p in pages ==> false;
      assert pages == {};
    } else {
      var last := (m - 1) * PGSIZE;
      PagesBelow(pages - {last}, m - 1);
      assert pages <= (pages - {last}) + {last};
      Prelude.SubsetSize(pages, (pages - {last}) + {last});
    }
  }

  /** Physical memory bounds the size of a process, so p->sz fits 32 bits. */
  lemma SizeBound(ram: Memory, s: Space, sz: nat, keep: set<nat>)
    requires Inv(ram, s, keep) && UserSpace(s, sz, keep)
    ensures sz <= PHYSTOP
  {
    hide Rep;
    hide Frames;
    hide Owns;
    var n := PageCount(sz);
    FramesCount(s.leaf, n, keep);
    PagesBelow(Frames(s.leaf, 0, n), PHYSTOP / PGSIZE);
  }

  /** uvmalloc() from the size of a process on never meets a mapped page. */
  lemma NoRemap(s: Space, sz: nat, keep: set<nat>, hi: nat)
    requires UserSpace(s, sz, keep) && PageCount(sz) <= hi < TRAPFRAME_PAGE
    ensures hi !in s.leaf && hi < PAGES
  {
  }

  lemma GrownSpace(s: Space, s': Space, sz: nat, sz': nat, keep: set<nat>, keep': set<nat>)
    requires UserSpace(s, sz, keep) && PageCount(sz) <= PageCount(sz') <= TRAPFRAME_PAGE
    requires Extended(s.leaf, s'.leaf, PageCount(sz), PageCount(sz'), keep, keep')
    ensures UserSpace(s', sz', keep')
  {
    hide PageCount;
    hide Pte2Pa;
    var m, n := PageCount(sz), PageCount(sz');
    assert forall v :: v in s'.leaf && m <= v < n ==> Pte2Pa(s'.leaf[v]) in Frames(s'.leaf, m, n);
  }

  lemma ShrunkSpace(s: Space, s': Space, sz: nat, sz': nat, keep: set<nat>)
    requires UserSpace(s, sz, keep) && PageCount(sz') <= PageCount(sz) &&
      Removed(s.leaf, s'.leaf, PageCount(sz'), PageCount(sz))
    ensures UserSpace(s', sz', keep - Frames(s.leaf, PageCount(sz'), PageCount(sz)))
  {
    hide PageCount;
    hide Pte2Pa;
    var m, n := PageCount(sz'), PageCount(sz);
    forall p | p in Frames(s.leaf, m, n) ensures forall v :: v in s'.leaf && 0 <= v < m ==> Pte2Pa(s'.leaf[v]) != p {
      var w :| w in s.leaf && m <= w < n && p == Pte2Pa(s.leaf[w]);
    }
  }

  /** The size after growproc(n) succeeds: the 32-bit sum, unless it wrapped around past the old size. */
  function NewSize(sz: nat, n: int): nat {
    var sum := (sz + n) % Prelude.UINT;
    if n == 0 || (n > 0 && sum < sz) || (n < 0 && sum >= sz) then sz else sum
  }

  lemma SumFacts(sz: nat, n: nat)
    requires sz <= PHYSTOP && 0 < n < 0x8000_0000
    ensures sz % Prelude.UINT == sz && sz < Prelude.UINT && (sz + n) % Prelude.UINT < Prelude.UINT
    ensures (sz + n) % Prelude.UINT >= sz ==> (sz + n) % Prelude.UINT > 0
    ensures (sz + n) % Prelude.UINT < sz ==> sz > 0
  {
  }

  lemma CountMono(a: nat, b: nat)
    requires a <= b
    ensures PageCount(a) <= PageCount(b)
    ensures b < Prelude.UINT ==> PageCount(b) < TRAPFRAME_PAGE
  {
  }

  lemma OwnsPart(leaf: map<nat, nat>, lo: nat, hi: nat, keep: set<nat>)
    requires Owns(leaf, 0, hi, keep)
    ensures Owns(leaf, lo, hi, keep)
  {
  }

  /** What both operations keep: the pages of the smaller size, and what those pages hold. */
  ghost predicate StillMapped(leaf: map<nat, nat>, leaf': map<nat, nat>, n: nat)
  {
    forall t: nat :: t < n ==> t in leaf && t in leaf' && leaf'[t] == leaf[t]
  }

  /** What growing from one size to another takes from the free list. */
  ghost function GrowPrice(s: Space, sz: nat, sz': nat): nat {
    if PageCount(sz) <= PageCount(sz') then Price(s, PageCount(sz), PageCount(sz')) else 0
  }

  lemma NoPrice(s: Space, lo: nat)
    ensures Price(s, lo, lo) == 0
  {
    hide Toward;
    hide AllTables;
    hide Lacks;
    TowardNone(s, lo);
  }

  class Proc {
    var pagetable: nat
    var sz: nat
    ghost var space: Space

    ghost predicate Valid(ram: Memory, keep: set<nat>)
      reads this, ram
    {
      Inv(ram, space, keep) && pagetable == space.root && UserSpace(space, sz, keep)
    }

    /** growproc() with n > 0. */
    method Grow(ram: Memory, n: nat, ghost keep: set<nat>) returns (r: int, ghost keep': set<nat>)
      requires Valid(ram, keep) && 0 < n < 0x8000_0000
      modifies this, ram
      ensures Valid(ram, keep') && pagetable == old(pagetable) && Same(old(ram.mem), ram.mem, keep) && keep <= keep'
      ensures r == 0 || r == -1
      ensures sz == (if r == 0 then NewSize(old(sz), n) else old(sz)) && old(sz) <= sz
      ensures StillMapped(old(space.leaf), space.leaf, PageCount(old(sz)))
      ensures Backed(ram.mem, space.leaf, PageCount(old(sz)), PageCount(sz),
        ZeroPages(PageCount(sz) - PageCount(old(sz))))
      ensures r == -1 ==> space.leaf == old(space.leaf) && keep' == keep
      ensures Pool(ram.frees, space) + keep' == Pool(old(ram.frees), old(space)) + keep
      ensures r == -1 <==> |old(ram.frees)| < GrowPrice(old(space), old(sz), NewSize(old(sz), n))
    {
      hide Price;
      hide Inv;
      hide Extended;
      hide Backed;
      hide Frames;
      hide UserSpace;
      hide PgRoundUp;
      hide PageCount;
      SizeBound(ram, space, sz, keep);
      RoundCount(sz);
      ghost var m := PageCount(sz);
      var sum := (sz % Prelude.UINT + n) % Prelude.UINT;
      SumFacts(sz, n);
      CountMono(sz, sz);
      CountMono(sum, sum);
      UserPages(space, sz, keep);
      var out;
      ghost var grown, s', hi;
      out, grown, s', keep', hi := Uvmalloc(ram, pagetable, sz % Prelude.UINT, sum, space, keep);
      if sum >= sz {
        CountMono(sz, sum);
        if out.Panics? {
          NoRemap(space, sz, keep, hi);
        }
        assert out.Returns?;
        if grown {
          GrownSpace(space, s', sz, sum, keep, keep');
          ExtendedSame(space.leaf, s'.leaf, m, hi, keep, keep');
        } else {
          SameSpace(space, s', sz, keep);
        }
      }
      BackedNone(ram.mem, s'.leaf, m, ZeroPages(0));
      NoPrice(space, m);
      space := s';
      if out.value % Prelude.UINT == 0 {
        return -1, keep';
      }
      sz := out.value % Prelude.UINT;
      return 0, keep';
    }

    /** growproc() with n < 0. */
    method Shrink(ram: Memory, n: int, ghost keep: set<nat>) returns (ghost keep': set<nat>)
      requires Valid(ram, keep) && -0x8000_0000 <= n < 0
      modifies this, ram
      ensures Valid(ram, keep') && pagetable == old(pagetable) && Same(old(ram.mem), ram.mem, keep') && keep' <= keep
      ensures sz == NewSize(old(sz), n) && sz <= old(sz)
      ensures StillMapped(old(space.leaf), space.leaf, PageCount(sz))
      ensures Pool(ram.frees, space) + keep' == Pool(old(ram.frees), old(space)) + keep
    {
      hide Inv;
      hide Removed;
      hide Frames;
      hide Owns;
      hide UserSpace;
      hide PgRoundUp;
      hide PageCount;
      hide DeallocEnd;
      SizeBound(ram, space, sz, keep);
      var old32 := sz % Prelude.UINT;
      var sum := (old32 + n) % Prelude.UINT;
      ghost var m := PageCount(sum);
      RoundCount(sz);
      RoundCount(sum);
      UserPages(space, sz, keep);
      if sum <= sz {
        CountMono(sum, sz);
      }
      OwnsPart(space.leaf, m, PageCount(sz), keep);
      if Shrinks(old32, sum) {
        DeallocRange(old32, sum);
      }
      var ok, size;
      ghost var s', hi;
      ok, size, s', keep', hi := Uvmdealloc(ram, pagetable, old32, sum, space, keep);
      UserAll(space, sz, keep);
      assert ok;
      if sum < sz {
        ShrunkSpace(space, s', sz, sum, keep);
        RemovedSame(space.leaf, s'.leaf, m, hi, keep);
      } else {
        RemovedNothing(space.leaf, s'.leaf, m);
        SameSpace(space, s', sz, keep);
        assert keep' == keep;
      }
      space := s';
      sz := size % Prelude.UINT;
    }

    /**
     growproc(): for every n it never panics, mapped user pages stay exactly [0, PGROUNDUP(sz)), the pages of
     the smaller size keep their entries, a failure changes neither the map nor the size, and no page is lost.  It fails
     exactly if n > 0 and there are fewer free pages than the new pages and the tables they lack.
     */
    method Growproc(ram: Memory, n: int, ghost keep: set<nat>) returns (r: int, ghost keep': set<nat>)
      requires Valid(ram, keep) && -0x8000_0000 <= n < 0x8000_0000
      modifies this, ram
      ensures Valid(ram, keep') && pagetable == old(pagetable) && Same(old(ram.mem), ram.mem, keep * keep')
      ensures r == 0 || r == -1
      ensures r == -1 <==> n > 0 && |old(ram.frees)| < GrowPrice(old(space), old(sz), NewSize(old(sz), n))
      ensures sz == if r == 0 then NewSize(old(sz), n) else old(sz)
      ensures StillMapped(old(space.leaf), space.leaf, PageCount(if sz < old(sz) then sz else old(sz)))
      ensures r == -1 ==> space.leaf == old(space.leaf) && keep' == keep
      ensures Pool(ram.frees, space) + keep' == Pool(old(ram.frees), old(space)) + keep
    {
      hide Inv;
      hide UserSpace;
      hide PageCount;
      hide Backed;
      r, keep' := 0, keep;
      if n > 0 {
        r, keep' := Grow(ram, n, keep);
        assert keep * keep' == keep;
      } else if n < 0 {
        keep' := Shrink(ram, n, keep);
        assert keep * keep' == keep';
      } else {
        InvKeeps(ram, space, keep);
        UserPages(space, sz, keep);
        assert keep * keep' == keep;
      }
    }
  }

  lemma UserAll(s: Space, sz: nat, keep: set<nat>)
    requires UserSpace(s, sz, keep)
    ensures forall t: nat :: t < PageCount(sz) ==> t in s.leaf && t < PAGES
  {
  }

  lemma RemovedNothing(leaf: map<nat, nat>, leaf': map<nat, nat>, lo: nat)
    requires Removed(leaf, leaf', lo, lo)
    ensures leaf' == leaf && Frames(leaf, lo, lo) == {}
  {
  }

  lemma RemovedSame(leaf: map<nat, nat>, leaf': map<nat, nat>, lo: nat, hi: nat, keep: set<nat>)
    requires Removed(leaf, leaf', lo, hi) && Owns(leaf, lo, hi, keep)
    ensures StillMapped(leaf, leaf, lo) ==> StillMapped(leaf, leaf', lo)
    ensures Frames(leaf, lo, hi) <= keep
  {
  }

  lemma UserPages(s: Space, sz: nat, keep: set<nat>)
    requires UserSpace(s, sz, keep)
    ensures StillMapped(s.leaf, s.leaf, PageCount(sz)) && Owns(s.leaf, 0, PageCount(sz), keep)
  {
  }

  lemma SameSpace(s: Space, s': Space, sz: nat, keep: set<nat>)
    requires UserSpace(s, sz, keep) && s'.leaf == s.leaf
    ensures UserSpace(s', sz, keep)
  {
  }

  lemma ExtendedSame(leaf: map<nat, nat>, leaf': map<nat, nat>, lo: nat, hi: nat, keep: set<nat>, keep': set<nat>)
    requires Extended(leaf, leaf', lo, hi, keep, keep') && StillMapped(leaf, leaf, lo)
    ensures StillMapped(leaf, leaf', lo) && keep' == keep + Frames(leaf', lo, hi)
  {
  }
}

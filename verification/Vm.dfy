/**
 The virtual memory code: walking, mapping, unmapping, growing, copying and freeing
 page tables over the page allocator.
 */
module Vm {
  import opened Sv39
  import opened PageTable
  import opened Kalloc
  import opened TableCount

  /** The pages that the allocator and the page table can draw on. */
  ghost function Pool(frees: seq<nat>, s: Space): set<nat> {
    Elems(frees) + Tables(s)
  }

  /** Free pages, table pages and the pages to keep are pairwise disjoint. */
  ghost predicate Apart(frees: seq<nat>, s: Space, keep: set<nat>)
  {
    Elems(frees) !! Tables(s) && keep !! Elems(frees) && keep !! Tables(s)
  }

  ghost predicate Holds(mem: Mem, frees: seq<nat>, s: Space, keep: set<nat>)
  {
    Rep(mem, s) && Apart(frees, s, keep) && keep <= mem.Keys
  }

  ghost predicate Inv(ram: Memory, s: Space, keep: set<nat>)
    reads ram
  {
    ram.Valid() && Holds(ram.mem, ram.frees, s, keep)
  }

  /** The pages to keep exist in both memories, with the same contents. */
  ghost predicate Same(mem: Mem, mem': Mem, keep: set<nat>)
  {
    keep <= mem.Keys && keep <= mem'.Keys && forall p :: p in keep ==> mem'[p] == mem[p]
  }

  /** s' is s with perhaps more (empty) tables. */
  ghost predicate Grown(s: Space, s': Space)
  {
    && s'.root == s.root && s'.leaf == s.leaf
    && (forall i :: i in s.l1 ==> i in s'.l1 && s'.l1[i] == s.l1[i])
    && (forall q :: q in s.l0 ==> q in s'.l0 && s'.l0[q] == s.l0[q])
  }

  // ---- walk ----

  datatype WalkResult = Found(page: nat, index: nat) | Missing | WalkPanic

  /** The table at a level on the way to virtual page v, if the tree has it. */
  predicate HasTable(s: Space, level: nat, v: nat) {
    if level >= 2 then true else if level == 1 then v / ENTRIES / ENTRIES in s.l1 else v / ENTRIES in s.l0
  }

  function TableAt(s: Space, level: nat, v: nat): nat
    requires HasTable(s, level, v)
  {
    if level >= 2 then s.root else if level == 1 then s.l1[v / ENTRIES / ENTRIES] else s.l0[v / ENTRIES]
  }

  /** The entry of a level's table that leads to virtual page v. */
  function Index(level: nat, v: nat): (i: nat)
  {
    if level >= 2 then v / ENTRIES / ENTRIES else if level == 1 then v / ENTRIES % ENTRIES else v % ENTRIES
  }

  lemma IndexIsPx(level: nat, va: nat)
    requires level <= 2 && va < MAXVA
    ensures Px(level, va) == Index(level, va / PGSIZE) && Index(level, va / PGSIZE) < ENTRIES && va / PGSIZE < PAGES
  {
    PxSpell(va);
  }

  lemma TopIndex(v: nat)
    requires v < PAGES
    ensures v / ENTRIES / ENTRIES < ENTRIES
  {
  }

  /** An interior entry is valid exactly when the tree has the next table, and then points to it. */
  lemma RootEntryAt(mem: Mem, s: Space, i: nat)
    requires Shape(mem, s) && Entries2(mem, s) && i < ENTRIES
    ensures Has(mem[s.root][i], PTE_V) <==> i in s.l1
    ensures i in s.l1 ==> Pte2Pa(mem[s.root][i]) == s.l1[i] && !IsLeaf(mem[s.root][i])
  {
    if i in s.l1 {
      PtrRoundTrip(s.l1[i]);
    }
  }

  lemma RootEntry(mem: Mem, s: Space, v: nat)
    requires Rep(mem, s) && v < PAGES
    ensures Index(2, v) < ENTRIES && s.root in mem
    ensures var pte := mem[s.root][Index(2, v)];
            && (Has(pte, PTE_V) <==> HasTable(s, 1, v))
            && (HasTable(s, 1, v) ==> Pte2Pa(pte) == TableAt(s, 1, v))
  {
    hide Ptr;
    hide Has;
    hide Pte2Pa;
    hide IsLeaf;
    hide Aligned;
    TopIndex(v);
    RootEntryAt(mem, s, v / ENTRIES / ENTRIES);
  }

  lemma MiddleEntryAt(mem: Mem, s: Space, q: nat)
    requires Shape(mem, s) && Entries1(mem, s) && q / ENTRIES in s.l1
    ensures Has(mem[s.l1[q / ENTRIES]][q % ENTRIES], PTE_V) <==> q in s.l0
    ensures q in s.l0 ==>
      Pte2Pa(mem[s.l1[q / ENTRIES]][q % ENTRIES]) == s.l0[q] && !IsLeaf(mem[s.l1[q / ENTRIES]][q % ENTRIES])
  {
    hide Ptr;
    hide IsLeaf;
    if q in s.l0 {
      PtrRoundTrip(s.l0[q]);
    }
  }

  lemma MiddleEntry(mem: Mem, s: Space, v: nat)
    requires Rep(mem, s) && v < PAGES && HasTable(s, 1, v)
    ensures TableAt(s, 1, v) in mem && Index(1, v) < ENTRIES
    ensures var pte := mem[TableAt(s, 1, v)][Index(1, v)];
            && (Has(pte, PTE_V) <==> HasTable(s, 0, v))
            && (HasTable(s, 0, v) ==> Pte2Pa(pte) == TableAt(s, 0, v))
  {
    hide Ptr;
    hide Has;
    hide Pte2Pa;
    hide IsLeaf;
    hide Aligned;
    MiddleEntryAt(mem, s, v / ENTRIES);
  }

  lemma EntryMeaning(mem: Mem, s: Space, level: nat, v: nat)
    requires Rep(mem, s) && 1 <= level <= 2 && v < PAGES && HasTable(s, level, v)
    ensures TableAt(s, level, v) in mem && Index(level, v) < ENTRIES
    ensures var pte := mem[TableAt(s, level, v)][Index(level, v)];
            && (Has(pte, PTE_V) <==> HasTable(s, level - 1, v))
            && (HasTable(s, level - 1, v) ==> Pte2Pa(pte) == TableAt(s, level - 1, v))
  {
    hide Ptr;
    hide Has;
    hide Pte2Pa;
    hide IsLeaf;
    hide Aligned;
    hide Rep;
    if level == 2 {
      RootEntry(mem, s, v);
    } else {
      MiddleEntry(mem, s, v);
    }
  }

  /** The tree after walk() has hung a new table at a level. */
  function Hung(s: Space, level: nat, v: nat, pa: nat): Space {
    if level == 2 then SpaceL1(s, v / ENTRIES / ENTRIES, pa) else SpaceL0(s, v / ENTRIES, pa)
  }

  lemma HangTable(mem: Mem, s: Space, level: nat, v: nat, pa: nat)
    requires Rep(mem, s) && 1 <= level <= 2 && v < PAGES
    requires HasTable(s, level, v) && !HasTable(s, level - 1, v)
    requires pa in mem && Aligned(pa) && pa !in Tables(s)
    ensures var t := TableAt(s, level, v);
            t in mem && Index(level, v) < ENTRIES &&
              Rep(mem[pa := Filled(0)][t := mem[t][Index(level, v) := Ptr(pa)]], Hung(s, level, v, pa))
    ensures Tables(Hung(s, level, v, pa)) == Tables(s) + {pa}
  {
    if level == 2 {
      TopIndex(v);
      AddL1(mem, s, v / ENTRIES / ENTRIES, pa);
    } else {
      assert v / ENTRIES % ENTRIES < ENTRIES;
      AddL0(mem, s, v / ENTRIES, pa);
    }
  }

  lemma HungGrows(s: Space, level: nat, v: nat, pa: nat)
    requires 1 <= level <= 2 && HasTable(s, level, v) && !HasTable(s, level - 1, v)
    ensures Grown(s, Hung(s, level, v, pa))
    ensures TableAt(s, level, v) in Tables(s)
    ensures HasTable(Hung(s, level, v, pa), level - 1, v)
    ensures TableAt(Hung(s, level, v, pa), level - 1, v) == pa
  {
  }

  lemma HungCount(s: Space, level: nat, v: nat, pa: nat)
    requires 1 <= level <= 2 && !HasTable(s, level - 1, v)
    ensures Toward(s, Hung(s, level, v, pa), v, v + 1) && Count(Hung(s, level, v, pa)) == Count(s) + 1
  {
    hide Middles;
    hide Lasts;
    hide Toward;
    hide Count;
    RangeOne(v);
    var i, q := v / ENTRIES / ENTRIES, v / ENTRIES;
    if level == 2 {
      KeyAdded(s.l1, i, pa);
      OneMiddle(s, SpaceL1(s, i, pa), v, v + 1, i);
    } else {
      KeyAdded(s.l0, q, pa);
      OneLast(s, SpaceL0(s, q, pa), v, v + 1, q);
    }
  }

  lemma OneMiddle(s: Space, s': Space, lo: nat, hi: nat, i: nat)
    requires Middles(lo, hi) == {i} && i !in s.l1 && s'.l1.Keys == s.l1.Keys + {i} && s'.l0 == s.l0
    ensures Toward(s, s', lo, hi) && Count(s') == Count(s) + 1
  {
    hide Middles;
    hide Lasts;
  }

  lemma OneLast(s: Space, s': Space, lo: nat, hi: nat, q: nat)
    requires Lasts(lo, hi) == {q} && q !in s.l0 && s'.l0.Keys == s.l0.Keys + {q} && s'.l1 == s.l1
    ensures Toward(s, s', lo, hi) && Count(s') == Count(s) + 1
  {
    hide Middles;
    hide Lasts;
  }

  lemma KeyAdded(m: map<nat, nat>, k: nat, pa: nat)
    requires k !in m
    ensures m[k := pa].Keys == m.Keys + {k} && |m[k := pa].Keys| == |m.Keys| + 1
  {
    assert m[k := pa].Keys == m.Keys + {k};
  }

  /** A page that moves from the free list to the tree stays in the pool. */
  lemma PoolShift(frees: seq<nat>, frees': seq<nat>, s: Space, s': Space, pa: nat, keep: set<nat>)
    requires Apart(frees, s, keep) && pa in frees && Elems(frees') == Elems(frees) - {pa} &&
      Tables(s') == Tables(s) + {pa}
    ensures Apart(frees', s', keep) && Pool(frees', s') == Pool(frees, s)
  {
  }

  /** kalloc() and memset() of a new table page, and the entry that points to it. */
  method HangNew(ram: Memory, table: nat, index: nat, ghost level: nat, ghost v: nat, ghost s: Space,
    ghost keep: set<nat>)
    returns (pa: nat, ghost s': Space)
    requires Inv(ram, s, keep) && 1 <= level <= 2 && v < PAGES
    requires HasTable(s, level, v) && !HasTable(s, level - 1, v) && table == TableAt(s, level, v) &&
      index == Index(level, v)
    modifies ram
    ensures Inv(ram, s', keep) && Same(old(ram.mem), ram.mem, keep) && Grown(s, s')
    ensures Pool(ram.frees, s') == Pool(old(ram.frees), s)
    ensures pa == 0 ==> s' == s && old(ram.frees) == [] && ram.mem == old(ram.mem) && ram.frees == old(ram.frees)
    ensures pa != 0 ==> HasTable(s', level - 1, v) && TableAt(s', level - 1, v) == pa
    ensures Toward(s, s', v, v + 1) && Stock(ram.frees, s') == Stock(old(ram.frees), s)
  {
    hide Rep;
    hide Toward;
    hide AllTables;
    hide Lacks;
    hide Count;
    TowardNone(s, v);
    s' := s;
    pa := ram.Kalloc();
    if pa == 0 {
      return;
    }
    assert pa in ram.mem;
    TablesExist(old(ram.mem), s);
    RepFrame(old(ram.mem), ram.mem, s);
    HangTable(ram.mem, s, level, v, pa);
    HungGrows(s, level, v, pa);
    HungCount(s, level, v, pa);
    s' := Hung(s, level, v, pa);
    PoolShift(old(ram.frees), ram.frees, s, s', pa, keep);
    ram.Put(pa, Filled(0));
    ram.Put(table, ram.mem[table][index := MakePte(pa, 0)]);
  }

  /**
   walk(): the place of the entry for va, or Missing if a table is absent and may not or cannot be made.
   Tables made on the way stay, whatever happens; the map that the tree stands for does not change.
   */
  method Walk(ram: Memory, root: nat, va: nat, alloc: bool, ghost s: Space, ghost keep: set<nat>)
    returns (r: WalkResult, ghost s': Space)
    requires Inv(ram, s, keep) && root == s.root
    modifies ram
    ensures Inv(ram, s', keep) && Same(old(ram.mem), ram.mem, keep) && Grown(s, s')
    ensures Pool(ram.frees, s') == Pool(old(ram.frees), s)
    ensures r.WalkPanic? <==> va >= MAXVA
    ensures !alloc || r.WalkPanic? ==> s' == s && ram.mem == old(ram.mem) && ram.frees == old(ram.frees)
    ensures va < MAXVA && !alloc ==> (r.Found? <==> HasTable(s, 0, va / PGSIZE))
    ensures r.Missing? && alloc ==> ram.frees == [] && !HasTable(s', 0, va / PGSIZE)
    ensures Toward(s, s', va / PGSIZE, va / PGSIZE + 1) && Stock(ram.frees, s') == Stock(old(ram.frees), s)
    ensures r.Found? ==>
      HasTable(s', 0, va / PGSIZE) && r.page == TableAt(s', 0, va / PGSIZE) && r.index == Index(0, va / PGSIZE)
  {
    hide Rep;
    hide Grown;
    hide Px;
    hide HasTable;
    hide TableAt;
    hide Index;
    hide Pool;
    hide Toward;
    hide AllTables;
    hide Lacks;
    hide Stock;
    s' := s;
    ghost var v := va / PGSIZE;
    TowardNone(s, v);
    WalkStart(s, v);
    if va >= MAXVA {
      return WalkPanic, s';
    }
    var table := root;
    var level := 2;
    while level > 0
      invariant 0 <= level <= 2 && Inv(ram, s', keep) && Same(old(ram.mem), ram.mem, keep) && Grown(s, s')
      invariant Pool(ram.frees, s') == Pool(old(ram.frees), s)
      invariant !alloc ==> s' == s && ram.mem == old(ram.mem) && ram.frees == old(ram.frees)
      invariant HasTable(s', level, v) && table == TableAt(s', level, v)
      invariant Toward(s, s', v, v + 1) && Stock(ram.frees, s') == Stock(old(ram.frees), s)
    {
      IndexIsPx(level, va);
      EntryMeaning(ram.mem, s', level, v);
      var pte := ram.mem[table][Px(level, va)];
      if Has(pte, PTE_V) {
        table := Pte2Pa(pte);
      } else {
        HigherMissing(ram.mem, s, s', level, v);
        if !alloc {
          return Missing, s';
        }
        ghost var before := s';
        table, s' := HangNew(ram, table, Px(level, va), level, v, s', keep);
        if table == 0 {
          return Missing, s';
        }
        GrownTrans(s, before, s');
        TowardAgain(s, before, s', v);
      }
      level := level - 1;
    }
    IndexIsPx(0, va);
    return Found(table, Px(0, va)), s';
  }

  /** Without an upper table there is no lower one. */
  lemma HigherMissing(mem: Mem, s: Space, s': Space, level: nat, v: nat)
    requires 1 <= level <= 2 && !HasTable(s', level - 1, v) && Grown(s, s') && Rep(mem, s')
    ensures !HasTable(s, 0, v) && !HasTable(s', 0, v)
  {
    hide Entries0;
    hide Entries1;
    hide Entries2;
    hide Unshared;
  }

  lemma WalkStart(s: Space, v: nat)
    ensures Grown(s, s) && HasTable(s, 2, v) && TableAt(s, 2, v) == s.root
  {
  }

  lemma TowardAgain(a: Space, b: Space, c: Space, v: nat)
    requires Toward(a, b, v, v + 1) && Toward(b, c, v, v + 1)
    ensures Toward(a, c, v, v + 1)
  {
    hide Middles;
    hide Lasts;
  }

  lemma SameKeys(a: Space, b: Space, c: Space, v: nat)
    requires Toward(a, b, v, v + 1) && c.l1 == b.l1 && c.l0 == b.l0
    ensures Toward(a, c, v, v + 1) && Count(c) == Count(b)
  {
    hide Middles;
    hide Lasts;
  }

  /** The last table of a page is there exactly if all of its tables are. */
  lemma LastMeansAll(mem: Mem, s: Space, v: nat)
    requires Rep(mem, s)
    ensures HasTable(s, 0, v) <==> AllTables(s, v, v + 1)
  {
    hide Entries0;
    hide Entries1;
    hide Entries2;
    hide Unshared;
    hide Middles;
    hide Lasts;
    RangeOne(v);
  }

  lemma GrownTrans(a: Space, b: Space, c: Space)
    requires Grown(a, b) && Grown(b, c)
    ensures Grown(a, c)
  {
  }

  // ---- entries ----

  /** The last-level entry is the map's value, or zero. */
  lemma LeafEntry(mem: Mem, s: Space, v: nat)
    requires Rep(mem, s) && HasTable(s, 0, v)
    ensures TableAt(s, 0, v) in mem && Index(0, v) < ENTRIES && TableAt(s, 0, v) in Tables(s)
    ensures mem[TableAt(s, 0, v)][Index(0, v)] == if v in s.leaf then s.leaf[v] else 0
  {
    hide Entries1;
    hide Entries2;
    hide Unshared;
    hide Ptr;
    hide Has;
    hide IsLeaf;
    hide Aligned;
    assert v in s.leaf || v !in s.leaf;
    assert s.l0[v / ENTRIES] in s.l0.Values;
  }

  lemma StoreHolds(mem: Mem, frees: seq<nat>, s: Space, v: nat, pte: nat, keep: set<nat>)
    requires Holds(mem, frees, s, keep) && HasTable(s, 0, v) && LeafOrZero(pte)
    ensures TableAt(s, 0, v) in mem && TableAt(s, 0, v) in Tables(s) && Index(0, v) < ENTRIES
    ensures var mem' := mem[TableAt(s, 0, v) := mem[TableAt(s, 0, v)][Index(0, v) := pte]];
            Holds(mem', frees, s.(leaf := Stored(s.leaf, v, pte)), keep) && Same(mem, mem', keep)
  {
    hide Rep;
    hide Ptr;
    hide Has;
    hide IsLeaf;
    hide Aligned;
    LeafEntry(mem, s, v);
    SetLeaf(mem, s, v, pte);
  }

  /** *pte = value */
  method StorePte(ram: Memory, page: nat, index: nat, pte: nat, ghost v: nat, ghost s: Space,
    ghost keep: set<nat>) returns (ghost s': Space)
    requires Inv(ram, s, keep) && HasTable(s, 0, v) && page == TableAt(s, 0, v) && index == Index(0, v)
    requires LeafOrZero(pte)
    modifies ram
    ensures s' == s.(leaf := Stored(s.leaf, v, pte))
    ensures Inv(ram, s', keep) && Same(old(ram.mem), ram.mem, keep) && ram.frees == old(ram.frees)
    ensures Tables(s') == Tables(s)
  {
    hide Rep;
    s' := s.(leaf := Stored(s.leaf, v, pte));
    StoreHolds(ram.mem, ram.frees, s, v, pte, keep);
    ram.Put(page, ram.mem[page][index := pte]);
  }

  /** The entry has its valid bit set exactly when the page is mapped. */
  lemma LeafValid(mem: Mem, s: Space, v: nat)
    requires Rep(mem, s) && HasTable(s, 0, v)
    ensures TableAt(s, 0, v) in mem && Index(0, v) < ENTRIES
    ensures Has(mem[TableAt(s, 0, v)][Index(0, v)], PTE_V) <==> v in s.leaf
    ensures v in s.leaf ==> mem[TableAt(s, 0, v)][Index(0, v)] == s.leaf[v] && LeafOrZero(s.leaf[v]) && s.leaf[v] != 0
  {
    hide Entries0;
    hide Entries1;
    hide Entries2;
    hide Unshared;
    hide Ptr;
    hide IsLeaf;
    hide Aligned;
    LeafEntry(mem, s, v);
  }

  // ---- mappages ----

  datatype MapResult = Mapped | NoMemory | MapPanic

  /** The entry that mappages() makes for the t-th page of a range. */
  function EntryAt(pa: nat, perm: nat, t: nat): nat {
    MakePte((pa + t * PGSIZE) % WORD, perm)
  }

  /** Exactly the pages lo .. hi-1 are added, each with its own entry, and no other page changes. */
  ghost predicate Added(leaf: map<nat, nat>, leaf': map<nat, nat>, lo: nat, hi: nat, pa: nat, perm: nat)
  {
    && (forall t: nat :: t in leaf' <==> t in leaf || lo <= t < hi)
    && (forall t: nat :: t in leaf ==> !(lo <= t < hi) && leaf'[t] == leaf[t])
    && (forall t: nat :: lo <= t < hi ==> leaf'[t] == EntryAt(pa, perm, t - lo))
  }

  lemma AddedNone(leaf: map<nat, nat>, lo: nat, pa: nat, perm: nat)
    ensures Added(leaf, leaf, lo, lo, pa, perm)
  {
  }

  lemma AddedOne(leaf: map<nat, nat>, leaf': map<nat, nat>, lo: nat, hi: nat, pa: nat, perm: nat)
    requires Added(leaf, leaf', lo, hi, pa, perm) && lo <= hi
    ensures hi in leaf' <==> hi in leaf
    ensures hi !in leaf ==> Added(leaf, leaf'[hi := EntryAt(pa, perm, hi - lo)], lo, hi + 1, pa, perm)
  {
  }

  /** One round of mappages(). */
  method MapOne(ram: Memory, root: nat, a: nat, pte: nat, ghost v: nat, ghost s: Space, ghost keep: set<nat>)
    returns (r: MapResult, ghost s': Space)
    requires Inv(ram, s, keep) && root == s.root && LeafOrZero(pte) && pte != 0 && v == a / PGSIZE
    modifies ram
    ensures Inv(ram, s', keep) && Same(old(ram.mem), ram.mem, keep) && s'.root == s.root
    ensures Pool(ram.frees, s') == Pool(old(ram.frees), s)
    ensures r.Mapped? ==> a < MAXVA && v !in s.leaf && s'.leaf == s.leaf[v := pte]
    ensures !r.Mapped? ==> s'.leaf == s.leaf
    ensures r.NoMemory? ==> a < MAXVA && ram.frees == []
    ensures r.MapPanic? ==> a >= MAXVA || v in s.leaf
    ensures Toward(s, s', v, v + 1) && Stock(ram.frees, s') == Stock(old(ram.frees), s)
    ensures r.Mapped? ==> AllTables(s', v, v + 1)
    ensures r.NoMemory? ==> !AllTables(s', v, v + 1)
  {
    hide Rep;
    hide Toward;
    hide AllTables;
    hide Count;
    var w;
    w, s' := Walk(ram, root, a, true, s, keep);
    LastMeansAll(ram.mem, s', v);
    match w {
      case WalkPanic => return MapPanic, s';
      case Missing => return NoMemory, s';
      case Found(page, index) =>
        LeafValid(ram.mem, s', v);
        if Has(ram.mem[page][index], PTE_V) {
          return MapPanic, s';
        }
        ghost var s1 := s';
        s' := StorePte(ram, page, index, pte, v, s', keep);
        LastMeansAll(ram.mem, s', v);
        SameKeys(s, s1, s', v);
        return Mapped, s';
    }
  }

  lemma NextEntry(pa: nat, perm: nat, k: nat, p: nat)
    requires p == (pa + k * PGSIZE) % WORD && perm < 1024 && IsLeaf(perm)
    ensures p < WORD && EntryAt(pa, perm, k) == MakePte(p, perm) && LeafOrZero(MakePte(p, perm)) &&
      MakePte(p, perm) != 0
    ensures (p + PGSIZE) % WORD == (pa + (k + 1) * PGSIZE) % WORD
  {
    PteRoundTrip(p, perm);
  }

  lemma PageOf(v: nat)
    ensures v * PGSIZE / PGSIZE == v
    ensures v * PGSIZE < MAXVA <==> v < PAGES
  {
  }

  lemma InvKeeps(ram: Memory, s: Space, keep: set<nat>)
    requires Inv(ram, s, keep)
    ensures Same(ram.mem, ram.mem, keep)
  {
  }

  /**
   mappages().  In every outcome the map has gained the entries of the pages from va up to `hi` and
   nothing else.  On success that is the whole range; on failure there were too few free pages for the tables; the
   panics are an empty range, a page already mapped, and an address beyond MAXVA.
   */
  method Mappages(ram: Memory, root: nat, va: nat, size: nat, pa: nat, perm: nat, ghost s: Space, ghost keep: set<nat>)
    returns (r: MapResult, ghost s': Space, ghost hi: nat)
    requires Inv(ram, s, keep) && root == s.root && va < WORD && size < WORD && pa < WORD && perm < 1024 && IsLeaf(perm)
    modifies ram
    ensures Inv(ram, s', keep) && Same(old(ram.mem), ram.mem, keep) && s'.root == s.root
    ensures Pool(ram.frees, s') == Pool(old(ram.frees), s)
    ensures va / PGSIZE <= hi && Added(s.leaf, s'.leaf, va / PGSIZE, hi, pa, perm)
    ensures hi <= PAGES || hi == va / PGSIZE
    ensures r.Mapped? ==> size > 0 && hi == (va + size - 1) % WORD / PGSIZE + 1
    ensures r.NoMemory? ==> ram.frees == [] && hi < PAGES
    ensures r.MapPanic? ==> size == 0 || hi >= PAGES || hi in s.leaf
    ensures !r.Mapped? && 0 < size && va + size <= WORD ==> hi <= (va + size - 1) / PGSIZE
    ensures r.Mapped? ==>
      Stock(ram.frees, s') == Stock(old(ram.frees), s) && Toward(s, s', va / PGSIZE, hi) &&
      AllTables(s', va / PGSIZE, hi)
    ensures r.Mapped? ==> |old(ram.frees)| >= Lacks(s, va / PGSIZE, hi)
    ensures r.NoMemory? ==>
      Stock(ram.frees, s') == Stock(old(ram.frees), s) && |old(ram.frees)| < Lacks(s, va / PGSIZE, hi + 1)
  {
    hide Inv;
    hide Pool;
    hide Added;
    hide Toward;
    hide AllTables;
    hide Lacks;
    ghost var v := va / PGSIZE;
    if size == 0 {
      AddedNone(s.leaf, v, pa, perm);
      InvKeeps(ram, s, keep);
      return MapPanic, s, v;
    }
    var a := PgRoundDown(va);
    var last := PgRoundDown((va + size - 1) % WORD);
    r, s', hi := MapFrom(ram, root, a, last, pa, perm, v, (va + size - 1) % WORD / PGSIZE, s, keep);
    if r.Mapped? {
      TowardCount(s, s', v, hi);
    } else if r.NoMemory? {
      TowardCount(s, s', v, hi + 1);
    }
  }

  /** The loop of mappages(). */
  method MapFrom(ram: Memory, root: nat, first: nat, last: nat, pa: nat, perm: nat, ghost v: nat, ghost w: nat,
    ghost s: Space, ghost keep: set<nat>)
    returns (r: MapResult, ghost s': Space, ghost hi: nat)
    requires Inv(ram, s, keep) && root == s.root && pa < WORD && perm < 1024 && IsLeaf(perm)
    requires first == v * PGSIZE && last == w * PGSIZE
    modifies ram
    ensures Inv(ram, s', keep) && Same(old(ram.mem), ram.mem, keep) && s'.root == s.root
    ensures Pool(ram.frees, s') == Pool(old(ram.frees), s)
    ensures v <= hi && Added(s.leaf, s'.leaf, v, hi, pa, perm)
    ensures hi <= PAGES || hi == v
    ensures r.Mapped? ==> hi == w + 1
    ensures r.NoMemory? ==> ram.frees == [] && hi < PAGES
    ensures r.MapPanic? ==> hi >= PAGES || hi in s.leaf
    ensures v <= w && !r.Mapped? ==> hi <= w
    ensures Stock(ram.frees, s') == Stock(old(ram.frees), s)
    ensures r.Mapped? ==> Toward(s, s', v, hi) && AllTables(s', v, hi)
    ensures r.NoMemory? ==> Toward(s, s', v, hi + 1) && !AllTables(s', v, hi + 1)
  {
    hide Inv;
    hide Pool;
    hide Added;
    hide MakePte;
    hide Toward;
    hide AllTables;
    hide Lacks;
    hide Stock;
    s', hi := s, v;
    TowardNone(s, v);
    var a, p := first, pa;
    AddedNone(s.leaf, v, pa, perm);
    InvKeeps(ram, s, keep);
    while true
      invariant v <= hi && (v <= w ==> hi <= w) && (hi <= PAGES || hi == v) && a == hi * PGSIZE &&
        p == (pa + (hi - v) * PGSIZE) % WORD
      invariant Inv(ram, s', keep) && Same(old(ram.mem), ram.mem, keep) && s'.root == s.root
      invariant Pool(ram.frees, s') == Pool(old(ram.frees), s)
      invariant Added(s.leaf, s'.leaf, v, hi, pa, perm)
      invariant Stock(ram.frees, s') == Stock(old(ram.frees), s) && Toward(s, s', v, hi) && AllTables(s', v, hi)
      decreases PAGES - hi
    {
      AddedOne(s.leaf, s'.leaf, v, hi, pa, perm);
      NextEntry(pa, perm, hi - v, p);
      PageOf(hi);
      ghost var s1 := s';
      r, s' := MapOne(ram, root, a, MakePte(p, perm), hi, s', keep);
      TowardMore(s, s1, s', v, hi, hi + 1);
      if !r.Mapped? {
        return;
      }
      hi := hi + 1;
      if a == last {
        return;
      }
      a := a + PGSIZE;
      p := (p + PGSIZE) % WORD;
    }
  }
}

/**
 A three-level page table in memory and the finite map that it stands for.
 */
module PageTable {
  import opened Sv39

  type Page = p: seq<nat> | |p| == ENTRIES witness seq(ENTRIES, _ => 0)

  /** The contents of physical pages, by page address. */
  type Mem = map<nat, Page>

  /** A page filled with one word by memset(). */
  function Filled(w: nat): (r: Page)
    ensures forall i :: 0 <= i < ENTRIES ==> r[i] == w
  {
    seq(ENTRIES, _ => w)
  }

  /**
   One address space.  `leaf` is the map from virtual page numbers to leaf entries that the tree stands
   for.  `l1` and `l0` name the table pages: l1[i] is the level-1 table under root entry i, and l0[q] the
   level-0 table for the virtual pages 512*q .. 512*q+511.
   */
  datatype Space = Space(root: nat, l1: map<nat, nat>, l0: map<nat, nat>, leaf: map<nat, nat>)

  function Tables(s: Space): set<nat> {
    {s.root} + s.l1.Values + s.l0.Values
  }

  /** An interior entry: the child's address and nothing but the valid bit. */
  function Ptr(pa: nat): nat {
    MakePte(pa, 0)
  }

  predicate Aligned(pa: nat) {
    pa % PGSIZE == 0 && 0 < pa < WORD
  }

  lemma PtrRoundTrip(pa: nat)
    requires Aligned(pa)
    ensures Has(Ptr(pa), PTE_V) && Pte2Pa(Ptr(pa)) == pa && !IsLeaf(Ptr(pa)) && PteFlags(Ptr(pa)) == PTE_V
  {
    PteRoundTrip(pa, 0);
  }

  // ---- the representation ----

  /** Every table page exists. */
  ghost predicate Shape(mem: Mem, s: Space)
  {
    && s.root in mem && Aligned(s.root)
    && (forall i :: i in s.l1 ==> i < ENTRIES && s.l1[i] in mem && Aligned(s.l1[i]))
    && (forall q :: q in s.l0 ==> q / ENTRIES in s.l1 && s.l0[q] in mem && Aligned(s.l0[q]))
    && (forall v :: v in s.leaf ==> v / ENTRIES in s.l0)
    && (forall v :: v in s.leaf ==> Has(s.leaf[v], PTE_V) && IsLeaf(s.leaf[v]))
  }

  /** No table page is used twice. */
  ghost predicate Unshared(s: Space)
  {
    && (forall i :: i in s.l1 ==> s.l1[i] != s.root)
    && (forall q :: q in s.l0 ==> s.l0[q] != s.root)
    && (forall i, j :: i in s.l1 && j in s.l1 && s.l1[i] == s.l1[j] ==> i == j)
    && (forall q, r :: q in s.l0 && r in s.l0 && s.l0[q] == s.l0[r] ==> q == r)
    && (forall i, q :: i in s.l1 && q in s.l0 ==> s.l1[i] != s.l0[q])
  }

  ghost predicate Entries2(mem: Mem, s: Space)
    requires Shape(mem, s)
  {
    forall i: nat :: i < ENTRIES ==> mem[s.root][i] == if i in s.l1 then Ptr(s.l1[i]) else 0
  }

  ghost predicate Entries1(mem: Mem, s: Space)
    requires Shape(mem, s)
  {
    forall q: nat {:trigger q in s.l0} :: q / ENTRIES in s.l1 ==>
      mem[s.l1[q / ENTRIES]][q % ENTRIES] == if q in s.l0 then Ptr(s.l0[q]) else 0
  }

  ghost predicate Entries0(mem: Mem, s: Space)
    requires Shape(mem, s)
  {
    forall v: nat {:trigger v in s.leaf} :: v / ENTRIES in s.l0 ==>
      mem[s.l0[v / ENTRIES]][v % ENTRIES] == if v in s.leaf then s.leaf[v] else 0
  }

  /** The pages of `mem` hold the tree that `s` describes. */
  ghost predicate Rep(mem: Mem, s: Space)
  {
    Shape(mem, s) && Unshared(s) && Entries2(mem, s) && Entries1(mem, s) && Entries0(mem, s)
  }

  /** Changes outside the table pages do not matter. */
  lemma RepFrame(mem: Mem, mem': Mem, s: Space)
    requires Rep(mem, s) && forall p :: p in Tables(s) ==> p in mem && p in mem' && mem'[p] == mem[p]
    ensures Rep(mem', s)
  {
    hide Ptr;
    hide Aligned;
    hide Has;
    hide IsLeaf;
    assert s.root in Tables(s);
    assert forall i :: i in s.l1 ==> s.l1[i] in s.l1.Values;
    assert forall q :: q in s.l0 ==> s.l0[q] in s.l0.Values;
  }

  lemma TablesExist(mem: Mem, s: Space)
    requires Rep(mem, s)
    ensures forall p :: p in Tables(s) ==> p in mem && Aligned(p)
  {
  }

  lemma Frame1(mem: Mem, mem': Mem, s: Space, s': Space)
    requires Shape(mem, s) && Shape(mem', s') && Entries1(mem, s) && s'.l1 == s.l1 && s'.l0 == s.l0
    requires forall i :: i in s.l1 ==> mem'[s.l1[i]] == mem[s.l1[i]]
    ensures Entries1(mem', s')
  {
    hide Ptr;
    hide Aligned;
    hide Has;
    hide IsLeaf;
    forall q: nat | q / ENTRIES in s'.l1
      ensures mem'[s'.l1[q / ENTRIES]][q % ENTRIES] == if q in s'.l0 then Ptr(s'.l0[q]) else 0
    {
      assert q in s.l0 || q !in s.l0;
    }
  }

  lemma Frame0(mem: Mem, mem': Mem, s: Space, s': Space)
    requires Shape(mem, s) && Shape(mem', s') && Entries0(mem, s) && s'.l0 == s.l0 && s'.leaf == s.leaf
    requires forall q :: q in s.l0 ==> mem'[s.l0[q]] == mem[s.l0[q]]
    ensures Entries0(mem', s')
  {
    hide Ptr;
    hide Aligned;
    hide Has;
    hide IsLeaf;
    forall v: nat | v / ENTRIES in s'.l0
      ensures mem'[s'.l0[v / ENTRIES]][v % ENTRIES] == if v in s'.leaf then s'.leaf[v] else 0
    {
      assert v in s.leaf || v !in s.leaf;
    }
  }

  lemma ValuesAfter(m: map<nat, nat>, k: nat, v: nat)
    requires k !in m
    ensures m[k := v].Values == m.Values + {v}
  {
    var m' := m[k := v];
    assert m'[k] == v;
    assert forall x :: x in m ==> m'[x] == m[x];
    forall y | y in m.Values ensures y in m'.Values {
      var x :| x in m && m[x] == y;
      assert m'[x] == y;
    }
  }

  lemma NotATable(s: Space, pa: nat)
    requires pa !in Tables(s)
    ensures pa != s.root
    ensures forall i :: i in s.l1 ==> s.l1[i] != pa
    ensures forall q :: q in s.l0 ==> s.l0[q] != pa
  {
    assert forall i :: i in s.l1 ==> s.l1[i] in s.l1.Values;
    assert forall q :: q in s.l0 ==> s.l0[q] in s.l0.Values;
  }

  // ---- a new level-1 table under root entry i ----

  function SpaceL1(s: Space, i: nat, pa: nat): Space {
    s.(l1 := s.l1[i := pa])
  }

  function MemL1(mem: Mem, s: Space, i: nat, pa: nat): Mem
    requires s.root in mem && i < ENTRIES
  {
    mem[pa := Filled(0)][s.root := mem[s.root][i := Ptr(pa)]]
  }

  lemma AddL1Entries(mem: Mem, s: Space, i: nat, pa: nat)
    requires Rep(mem, s) && i < ENTRIES && i !in s.l1 && pa in mem && Aligned(pa) && pa !in Tables(s)
    ensures Shape(MemL1(mem, s, i, pa), SpaceL1(s, i, pa))
    ensures Entries1(MemL1(mem, s, i, pa), SpaceL1(s, i, pa))
  {
    hide Entries2;
    hide Entries0;
    hide Ptr;
    hide Aligned;
    hide Has;
    hide IsLeaf;
    var mem', s' := MemL1(mem, s, i, pa), SpaceL1(s, i, pa);
    NotATable(s, pa);
    forall q: nat | q / ENTRIES in s'.l1
      ensures mem'[s'.l1[q / ENTRIES]][q % ENTRIES] == if q in s'.l0 then Ptr(s'.l0[q]) else 0
    {
      assert q in s.l0 || q !in s.l0;
    }
  }

  lemma AddL1(mem: Mem, s: Space, i: nat, pa: nat)
    requires Rep(mem, s) && i < ENTRIES && i !in s.l1 && pa in mem && Aligned(pa) && pa !in Tables(s)
    ensures Rep(MemL1(mem, s, i, pa), SpaceL1(s, i, pa)) && Tables(SpaceL1(s, i, pa)) == Tables(s) + {pa}
  {
    hide Entries1;
    hide Entries0;
    hide Ptr;
    hide Aligned;
    hide Has;
    hide IsLeaf;
    NotATable(s, pa);
    AddL1Entries(mem, s, i, pa);
    Frame0(mem, MemL1(mem, s, i, pa), s, SpaceL1(s, i, pa));
    ValuesAfter(s.l1, i, pa);
  }

  // ---- a new level-0 table for the virtual pages 512*q .. 512*q+511 ----

  function SpaceL0(s: Space, q: nat, pa: nat): Space {
    s.(l0 := s.l0[q := pa])
  }

  function MemL0(mem: Mem, s: Space, q: nat, pa: nat): Mem
    requires q / ENTRIES in s.l1 && s.l1[q / ENTRIES] in mem
  {
    mem[pa := Filled(0)][s.l1[q / ENTRIES] := mem[s.l1[q / ENTRIES]][q % ENTRIES := Ptr(pa)]]
  }

  lemma AddL0Entries1(mem: Mem, s: Space, q: nat, pa: nat)
    requires Rep(mem, s) && q / ENTRIES in s.l1 && q !in s.l0 && pa in mem && Aligned(pa) && pa !in Tables(s)
    ensures Shape(MemL0(mem, s, q, pa), SpaceL0(s, q, pa))
    ensures Entries1(MemL0(mem, s, q, pa), SpaceL0(s, q, pa))
  {
    hide Entries2;
    hide Entries0;
    hide Ptr;
    hide Aligned;
    hide Has;
    hide IsLeaf;
    var mem', s' := MemL0(mem, s, q, pa), SpaceL0(s, q, pa);
    NotATable(s, pa);
    forall r: nat | r / ENTRIES in s'.l1
      ensures mem'[s'.l1[r / ENTRIES]][r % ENTRIES] == if r in s'.l0 then Ptr(s'.l0[r]) else 0
    {
      assert r in s.l0 || r !in s.l0;
      SameIndex(q, r);
    }
  }

  lemma AddL0Entries0(mem: Mem, s: Space, q: nat, pa: nat)
    requires Rep(mem, s) && q / ENTRIES in s.l1 && q !in s.l0 && pa in mem && Aligned(pa) && pa !in Tables(s)
    requires Shape(MemL0(mem, s, q, pa), SpaceL0(s, q, pa))
    ensures Entries0(MemL0(mem, s, q, pa), SpaceL0(s, q, pa))
  {
    hide Entries2;
    hide Entries1;
    hide Ptr;
    hide Aligned;
    hide Has;
    hide IsLeaf;
    var mem', s' := MemL0(mem, s, q, pa), SpaceL0(s, q, pa);
    NotATable(s, pa);
    forall v: nat | v / ENTRIES in s'.l0
      ensures mem'[s'.l0[v / ENTRIES]][v % ENTRIES] == if v in s'.leaf then s'.leaf[v] else 0
    {
      assert v in s.leaf || v !in s.leaf;
    }
  }

  lemma AddL0Unshared(s: Space, q: nat, pa: nat)
    requires Unshared(s) && q !in s.l0 && pa !in Tables(s)
    ensures Unshared(SpaceL0(s, q, pa)) && Tables(SpaceL0(s, q, pa)) == Tables(s) + {pa}
  {
    NotATable(s, pa);
    ValuesAfter(s.l0, q, pa);
  }

  lemma AddL0(mem: Mem, s: Space, q: nat, pa: nat)
    requires Rep(mem, s) && q / ENTRIES in s.l1 && q !in s.l0 && pa in mem && Aligned(pa) && pa !in Tables(s)
    ensures Rep(MemL0(mem, s, q, pa), SpaceL0(s, q, pa)) && Tables(SpaceL0(s, q, pa)) == Tables(s) + {pa}
  {
    hide Ptr;
    hide Aligned;
    hide Has;
    hide IsLeaf;
    AddL0Entries1(mem, s, q, pa);
    AddL0Entries0(mem, s, q, pa);
    AddL0Unshared(s, q, pa);
    NotATable(s, pa);
  }

  // ---- storing a leaf entry, or clearing one ----

  predicate LeafOrZero(pte: nat) {
    pte == 0 || (Has(pte, PTE_V) && IsLeaf(pte))
  }

  /** The leaf map after storing an entry: a zero entry removes the page. */
  function Stored(leaf: map<nat, nat>, v: nat, pte: nat): map<nat, nat> {
    if pte == 0 then leaf - {v} else leaf[v := pte]
  }

  function MemLeaf(mem: Mem, s: Space, v: nat, pte: nat): Mem
    requires v / ENTRIES in s.l0 && s.l0[v / ENTRIES] in mem
  {
    mem[s.l0[v / ENTRIES] := mem[s.l0[v / ENTRIES]][v % ENTRIES := pte]]
  }

  lemma SameIndex(v: nat, w: nat)
    ensures v == w <==> v / ENTRIES == w / ENTRIES && v % ENTRIES == w % ENTRIES
  {
  }

  lemma SetLeafEntries(mem: Mem, s: Space, v: nat, pte: nat)
    requires Shape(mem, s) && Unshared(s) && Entries0(mem, s) && v / ENTRIES in s.l0
    requires Shape(MemLeaf(mem, s, v, pte), s.(leaf := Stored(s.leaf, v, pte)))
    ensures Entries0(MemLeaf(mem, s, v, pte), s.(leaf := Stored(s.leaf, v, pte)))
  {
    hide Ptr;
    hide Aligned;
    hide Has;
    hide IsLeaf;
    var mem', s' := MemLeaf(mem, s, v, pte), s.(leaf := Stored(s.leaf, v, pte));
    forall w: nat | w / ENTRIES in s'.l0
      ensures mem'[s'.l0[w / ENTRIES]][w % ENTRIES] == if w in s'.leaf then s'.leaf[w] else 0
    {
      assert w in s.leaf || w !in s.leaf;
      SameIndex(v, w);
    }
  }

  lemma SetLeaf(mem: Mem, s: Space, v: nat, pte: nat)
    requires Rep(mem, s) && v / ENTRIES in s.l0 && LeafOrZero(pte)
    ensures Rep(MemLeaf(mem, s, v, pte), s.(leaf := Stored(s.leaf, v, pte)))
  {
    hide Ptr;
    hide Aligned;
    hide Has;
    hide IsLeaf;
    hide Entries1;
    hide Entries0;
    var mem', s' := MemLeaf(mem, s, v, pte), s.(leaf := Stored(s.leaf, v, pte));
    Frame1(mem, mem', s, s');
    SetLeafEntries(mem, s, v, pte);
  }
}

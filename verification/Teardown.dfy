/**
 Freeing a page table: freewalk() visits the tree recursively and frees every table page exactly once.
 */
module Teardown {
  import opened Sv39
  import opened PageTable
  import opened Kalloc
  import opened Vm

  // A table is named by its level and its key: the root is (2, 0), and entry e of table (k, key) leads to
  // table (k - 1, 512 * key + e), or from level 0 to virtual page 512 * key + e.

  function Child(key: nat, e: nat): nat {
    key * ENTRIES + e
  }

  lemma ChildParts(key: nat, e: nat)
    requires e < ENTRIES
    ensures Child(key, e) / ENTRIES == key && Child(key, e) % ENTRIES == e
  {
  }

  predicate HasNode(s: Space, level: nat, key: nat) {
    if level >= 2 then key == 0 else if level == 1 then key in s.l1 else key in s.l0
  }

  function NodePage(s: Space, level: nat, key: nat): nat
    requires HasNode(s, level, key)
  {
    if level >= 2 then s.root else if level == 1 then s.l1[key] else s.l0[key]
  }

  /** The table pages of the subtree at a table. */
  ghost function Below(s: Space, level: nat, key: nat): set<nat>
    requires HasNode(s, level, key)
  {
    if level >= 2 then Tables(s) else if level == 1 then {s.l1[key]} + L0Pages(s, key, ENTRIES) else {s.l0[key]}
  }

  /** The level-0 tables under the first e entries of level-1 table i. */
  ghost function L0Pages(s: Space, i: nat, e: nat): set<nat> {
    set q | q in s.l0 && q / ENTRIES == i && q % ENTRIES < e :: s.l0[q]
  }

  /** The table pages of the subtrees under the first e entries of a table. */
  ghost function Done(s: Space, level: nat, key: nat, e: nat): set<nat> {
    if level >= 2 then (set i | i in s.l1 && i < e :: s.l1[i]) + (set q | q in s.l0 && q / ENTRIES < e :: s.l0[q])
    else if level == 1 then L0Pages(s, key, e)
    else {}
  }

  /** No virtual page is mapped through the first e entries of a table. */
  ghost predicate Clear(s: Space, level: nat, key: nat, e: nat)
  {
    forall v :: v in s.leaf ==> !Through(level, key, e, v)
  }

  predicate Through(level: nat, key: nat, e: nat, v: nat) {
    if level >= 2 then v / ENTRIES / ENTRIES < e
    else if level == 1 then v / ENTRIES / ENTRIES == key && v / ENTRIES % ENTRIES < e
    else v / ENTRIES == key && v % ENTRIES < e
  }

  lemma DoneNone(s: Space, level: nat, key: nat)
    ensures Done(s, level, key, 0) == {} && Clear(s, level, key, 0)
  {
  }

  /** With all entries done, the subtree is the table and what lies under its entries. */
  lemma DoneAll(mem: Mem, s: Space, level: nat, key: nat)
    requires Rep(mem, s) && HasNode(s, level, key)
    ensures Below(s, level, key) == {NodePage(s, level, key)} + Done(s, level, key, ENTRIES)
    ensures NodePage(s, level, key) !in Done(s, level, key, ENTRIES)
  {
    hide Entries0;
    hide Entries1;
    hide Entries2;
    hide Aligned;
    hide Has;
    hide IsLeaf;
    if level >= 2 {
      assert forall i :: i in s.l1 ==> i < ENTRIES;
      assert forall q :: q in s.l0 ==> q / ENTRIES in s.l1;
    }
  }

  lemma DoneMore2(s: Space, e: nat)
    ensures Done(s, 2, 0, e + 1) == Done(s, 2, 0, e) + (if e in s.l1 then {s.l1[e]} else {}) + (set q | q in s.l0 &&
      q / ENTRIES == e :: s.l0[q])
  {
  }

  lemma DoneMore1(s: Space, key: nat, e: nat)
    requires e < ENTRIES
    ensures L0Pages(s, key, e + 1) == L0Pages(s, key, e) + if Child(key, e) in s.l0 then {s.l0[Child(key, e)]} else {}
  {
    ChildParts(key, e);
    forall p | p in L0Pages(s, key, e + 1)
      ensures p in L0Pages(s, key, e) || (Child(key, e) in s.l0 && p == s.l0[Child(key, e)]) {
      var q :| q in s.l0 && q / ENTRIES == key && q % ENTRIES < e + 1 && p == s.l0[q];
      SameIndex(q, Child(key, e));
    }
  }

  /** Entry e adds the subtree under it, which is apart from the earlier ones and from the table. */
  lemma DoneOne(mem: Mem, s: Space, level: nat, key: nat, e: nat)
    requires Rep(mem, s) && 1 <= level <= 2 && HasNode(s, level, key) && e < ENTRIES
    ensures HasNode(s, level - 1, Child(key, e)) ==>
              && Done(s, level, key, e + 1) == Done(s, level, key, e) + Below(s, level - 1, Child(key, e))
              && Done(s, level, key, e) !! Below(s, level - 1, Child(key, e))
              && NodePage(s, level, key) !in Below(s, level - 1, Child(key, e))
    ensures !HasNode(s, level - 1, Child(key, e)) ==> Done(s, level, key, e + 1) == Done(s, level, key, e)
  {
    hide Entries0;
    hide Entries1;
    hide Entries2;
    hide Aligned;
    hide Has;
    hide IsLeaf;
    ChildParts(key, e);
    if level == 2 {
      DoneMore2(s, e);
      assert L0Pages(s, e, ENTRIES) == set q | q in s.l0 && q / ENTRIES == e :: s.l0[q];
    } else {
      DoneMore1(s, key, e);
    }
  }

  // ---- what the entries say ----

  lemma InnerEntry(mem: Mem, s: Space, level: nat, key: nat, e: nat)
    requires Rep(mem, s) && 1 <= level <= 2 && HasNode(s, level, key) && e < ENTRIES
    ensures NodePage(s, level, key) in mem
    ensures var pte := mem[NodePage(s, level, key)][e];
            && (Has(pte, PTE_V) <==> HasNode(s, level - 1, Child(key, e)))
            && (HasNode(s, level - 1, Child(key, e)) ==>
               !IsLeaf(pte) && Pte2Pa(pte) == NodePage(s, level - 1, Child(key, e)))
  {
    hide Entries0;
    hide Entries1;
    hide Entries2;
    hide Unshared;
    hide Aligned;
    hide Has;
    hide IsLeaf;
    hide Pte2Pa;
    ChildParts(key, e);
    if level == 2 {
      RootEntryAt(mem, s, e);
    } else {
      MiddleEntryAt(mem, s, Child(key, e));
    }
  }

  lemma LastEntry(mem: Mem, s: Space, key: nat, e: nat)
    requires Rep(mem, s) && HasNode(s, 0, key) && e < ENTRIES
    ensures NodePage(s, 0, key) in mem
    ensures Has(mem[NodePage(s, 0, key)][e], PTE_V) <==> Child(key, e) in s.leaf
    ensures Child(key, e) in s.leaf ==> IsLeaf(mem[NodePage(s, 0, key)][e])
  {
    hide Ptr;
    hide Entries1;
    hide Entries2;
    hide Unshared;
    ChildParts(key, e);
    assert Child(key, e) in s.leaf || Child(key, e) !in s.leaf;
  }

  lemma ClearLast(s: Space, key: nat, e: nat)
    requires e < ENTRIES
    ensures Clear(s, 0, key, e + 1) <==> Clear(s, 0, key, e) && Child(key, e) !in s.leaf
  {
    ChildParts(key, e);
    forall v | v in s.leaf && Through(0, key, e + 1, v) && !Through(0, key, e, v) ensures v == Child(key, e) {
      SameIndex(v, Child(key, e));
    }
    if Child(key, e) in s.leaf {
      assert Through(0, key, e + 1, Child(key, e));
    }
    assert forall v :: Through(0, key, e, v) ==> Through(0, key, e + 1, v);
  }

  /** A page goes through entry e of a table exactly if it goes through the table that the entry leads to. */
  lemma ThroughEntry(level: nat, key: nat, e: nat, v: nat)
    requires 1 <= level <= 2 && e < ENTRIES && (level == 2 ==> key == 0)
    ensures Through(level, key, e + 1, v) <==>
      Through(level, key, e, v) || Through(level - 1, Child(key, e), ENTRIES, v)
  {
    ChildParts(key, e);
    SameIndex(v / ENTRIES, Child(key, e));
  }

  /** A mapped page that goes through a table has that table in the tree. */
  lemma ThroughNode(mem: Mem, s: Space, level: nat, key: nat, v: nat)
    requires Rep(mem, s) && level <= 1 && v in s.leaf && Through(level, key, ENTRIES, v)
    ensures HasNode(s, level, key)
  {
    hide Entries0;
    hide Entries1;
    hide Entries2;
    hide Unshared;
    hide Aligned;
    hide Has;
    hide IsLeaf;
  }

  lemma ClearOne(mem: Mem, s: Space, level: nat, key: nat, e: nat)
    requires Rep(mem, s) && 1 <= level <= 2 && HasNode(s, level, key) && e < ENTRIES
    ensures Clear(s, level, key, e + 1) <==>
              Clear(s, level, key, e) && (HasNode(s, level - 1, Child(key, e)) ==>
                Clear(s, level - 1, Child(key, e), ENTRIES))
  {
    hide Rep;
    hide Through;
    forall v | v in s.leaf
      ensures Through(level, key, e + 1, v) <==>
        Through(level, key, e, v) || Through(level - 1, Child(key, e), ENTRIES, v)
      ensures Through(level - 1, Child(key, e), ENTRIES, v) ==> HasNode(s, level - 1, Child(key, e))
    {
      ThroughEntry(level, key, e, v);
      if Through(level - 1, Child(key, e), ENTRIES, v) {
        ThroughNode(mem, s, level - 1, Child(key, e), v);
      }
    }
  }

  /** The whole tree is clear exactly if nothing is mapped. */
  lemma ClearWhole(mem: Mem, s: Space)
    requires Rep(mem, s)
    ensures Clear(s, 2, 0, ENTRIES) <==> s.leaf == map[]
  {
    hide Entries0;
    hide Entries1;
    hide Entries2;
    hide Unshared;
    hide Aligned;
    hide Has;
    hide IsLeaf;
    forall v | v in s.leaf ensures Through(2, 0, ENTRIES, v) {
      assert v / ENTRIES in s.l0;
      assert v / ENTRIES / ENTRIES in s.l1;
    }
  }

  // ---- freewalk ----

  /** The subtree is in use and as it is in `was`. */
  ghost predicate Standing(mem: Mem, frees: seq<nat>, was: Mem, pages: set<nat>)
  {
    pages !! Elems(frees) && forall p :: p in pages ==> p in mem && p in was && mem[p] == was[p]
  }

  /** Pages outside the subtree are untouched. */
  ghost predicate Outside(mem: Mem, mem': Mem, pages: set<nat>)
  {
    forall p :: p in mem && p !in pages ==> p in mem' && mem'[p] == mem[p]
  }

  /** freewalk() has dealt with the first e entries of a table: what lay under them is free, the rest stands. */
  ghost predicate Partly(mem0: Mem, mem: Mem, free0: set<nat>, free: set<nat>, was: Mem, s: Space, level: nat,
    key: nat, e: nat)
    requires HasNode(s, level, key)
  {
    var page := NodePage(s, level, key);
    && free == free0 + Done(s, level, key, e)
    && page in mem && page !in free && page in was
    && (forall j :: e <= j < ENTRIES ==> mem[page][j] == was[page][j])
    && (forall p :: p in Below(s, level, key) && p != page && p !in Done(s, level, key, e) ==>
       p in mem && p !in free && p in was && mem[p] == was[p])
    && Outside(mem0, mem, {page} + Done(s, level, key, e))
  }

  lemma DoneMono(s: Space, level: nat, key: nat, e: nat)
    requires e <= ENTRIES
    ensures Done(s, level, key, e) <= Done(s, level, key, ENTRIES)
    ensures Clear(s, level, key, ENTRIES) ==> Clear(s, level, key, e)
  {
    assert forall v :: Through(level, key, e, v) ==> Through(level, key, ENTRIES, v);
  }

  lemma PartlyNone(mem: Mem, frees: seq<nat>, was: Mem, s: Space, level: nat, key: nat)
    requires Rep(was, s) && HasNode(s, level, key) && Standing(mem, frees, was, Below(s, level, key))
    ensures Partly(mem, mem, Elems(frees), Elems(frees), was, s, level, key, 0)
  {
    hide Rep;
    hide Below;
    hide Done;
    hide Clear;
    DoneNone(s, level, key);
    DoneAll(was, s, level, key);
  }

  /** The subtree under the next entry still stands. */
  lemma NextStands(mem0: Mem, mem: Mem, free0: set<nat>, frees: seq<nat>, was: Mem, s: Space, level: nat, key: nat,
    e: nat)
    requires Rep(was, s) && 1 <= level <= 2 && HasNode(s, level, key) && e < ENTRIES &&
      HasNode(s, level - 1, Child(key, e))
    requires Partly(mem0, mem, free0, Elems(frees), was, s, level, key, e)
    ensures Standing(mem, frees, was, Below(s, level - 1, Child(key, e))) &&
      Below(s, level - 1, Child(key, e)) <= Below(s, level, key)
  {
    hide Rep;
    hide Below;
    hide Done;
    hide Clear;
    hide HasNode;
    hide NodePage;
    hide Child;
    DoneAll(was, s, level, key);
    DoneOne(was, s, level, key, e);
    DoneMono(s, level, key, e + 1);
  }

  lemma PartlyOne(mem0: Mem, mem: Mem, mem': Mem, free0: set<nat>, free: set<nat>, was: Mem, s: Space, level: nat,
    key: nat, e: nat)
    requires Rep(was, s) && 1 <= level <= 2 && HasNode(s, level, key) && e < ENTRIES &&
      HasNode(s, level - 1, Child(key, e))
    requires Partly(mem0, mem, free0, free, was, s, level, key, e)
    requires Outside(mem, mem', Below(s, level - 1, Child(key, e)))
    ensures var page := NodePage(s, level, key);
            && page in mem' && page !in free + Below(s, level - 1, Child(key, e))
            && Partly(mem0, mem'[page := mem'[page][e := 0]], free0, free + Below(s, level - 1, Child(key, e)), was, s,
               level, key, e + 1)
  {
    hide Rep;
    hide Below;
    hide Done;
    hide Clear;
    hide HasNode;
    hide NodePage;
    hide Child;
    DoneOne(was, s, level, key, e);
  }

  lemma PartlySkip(mem0: Mem, mem: Mem, free0: set<nat>, free: set<nat>, was: Mem, s: Space, level: nat, key: nat,
    e: nat)
    requires Rep(was, s) && level <= 2 && HasNode(s, level, key) && e < ENTRIES &&
      (level > 0 ==> !HasNode(s, level - 1, Child(key, e)))
    requires Partly(mem0, mem, free0, free, was, s, level, key, e)
    ensures Partly(mem0, mem, free0, free, was, s, level, key, e + 1)
  {
    hide Rep;
    hide Below;
    hide Clear;
    hide HasNode;
    hide NodePage;
    hide Child;
    if level > 0 {
      DoneOne(was, s, level, key, e);
    }
  }

  /** A panic below leaves the pages outside this subtree alone. */
  lemma StillOutside(mem0: Mem, mem: Mem, mem': Mem, free0: set<nat>, free: set<nat>, was: Mem, s: Space, level: nat,
    key: nat, e: nat, pages: set<nat>)
    requires Rep(was, s) && HasNode(s, level, key) && e <= ENTRIES &&
      Partly(mem0, mem, free0, free, was, s, level, key, e)
    requires Outside(mem, mem', pages) && pages <= Below(s, level, key)
    ensures Outside(mem0, mem', Below(s, level, key))
  {
    hide Rep;
    hide Below;
    hide Done;
    hide Clear;
    hide NodePage;
    DoneAll(was, s, level, key);
    DoneMono(s, level, key, e);
  }

  /** One round of freewalk(). */
  method FreeEntry(ram: Memory, page: nat, i: nat, ghost level: nat, ghost key: nat, ghost s: Space, ghost was: Mem,
    ghost mem0: Mem, ghost free0: set<nat>)
    returns (ok: bool)
    requires ram.Valid() && Rep(was, s) && level <= 2 && HasNode(s, level, key) && page == NodePage(s, level, key) &&
      i < ENTRIES
    requires Clear(s, level, key, i) && Partly(mem0, ram.mem, free0, Elems(ram.frees), was, s, level, key, i)
    modifies ram
    ensures ram.Valid()
    ensures ok ==>
      Clear(s, level, key, i + 1) && Partly(mem0, ram.mem, free0, Elems(ram.frees), was, s, level, key, i + 1)
    ensures !ok ==> !Clear(s, level, key, ENTRIES) && Outside(mem0, ram.mem, Below(s, level, key))
    decreases level, 0
  {
    hide Memory.Valid;
    hide Rep;
    hide HasNode;
    hide NodePage;
    hide Done;
    hide Below;
    hide Clear;
    hide Has;
    hide IsLeaf;
    hide Pte2Pa;
    hide Child;
    var pte := ram.mem[page][i];
    DoneMono(s, level, key, i + 1);
    if level == 0 {
      LastEntry(was, s, key, i);
      ClearLast(s, key, i);
    } else {
      InnerEntry(was, s, level, key, i);
      ClearOne(was, s, level, key, i);
    }
    ok := true;
    if Has(pte, PTE_V) && !IsLeaf(pte) {
      ghost var before, free := ram.mem, Elems(ram.frees);
      NextStands(mem0, ram.mem, free0, ram.frees, was, s, level, key, i);
      ok := Freewalk(ram, Pte2Pa(pte), level - 1, Child(key, i), s, was);
      if !ok {
        StillOutside(mem0, before, ram.mem, free0, free, was, s, level, key, i, Below(s, level - 1, Child(key, i)));
        return;
      }
      PartlyOne(mem0, before, ram.mem, free0, free, was, s, level, key, i);
      ram.Put(page, ram.mem[page][i := 0]);
    } else if Has(pte, PTE_V) {
      StillOutside(mem0, ram.mem, ram.mem, free0, Elems(ram.frees), was, s, level, key, i, {});
      return false;
    } else {
      PartlySkip(mem0, ram.mem, free0, Elems(ram.frees), was, s, level, key, i);
    }
  }

  /**
   freewalk(): false is its panic, which happens exactly if some page is still mapped below.  Otherwise
   every table page of the subtree is freed, exactly once, and nothing else changes.
   */
  method Freewalk(ram: Memory, page: nat, ghost level: nat, ghost key: nat, ghost s: Space, ghost was: Mem)
    returns (ok: bool)
    requires ram.Valid() && Rep(was, s) && level <= 2 && HasNode(s, level, key) && page == NodePage(s, level, key)
    requires Standing(ram.mem, ram.frees, was, Below(s, level, key))
    modifies ram
    ensures ram.Valid() && (ok <==> Clear(s, level, key, ENTRIES))
    ensures Outside(old(ram.mem), ram.mem, Below(s, level, key))
    ensures ok ==> Elems(ram.frees) == Elems(old(ram.frees)) + Below(s, level, key)
    decreases level, 1
  {
    hide Rep;
    hide HasNode;
    hide NodePage;
    hide Done;
    hide Below;
    hide Clear;
    DoneNone(s, level, key);
    DoneAll(was, s, level, key);
    PartlyNone(ram.mem, ram.frees, was, s, level, key);
    ghost var mem0, free0 := ram.mem, Elems(ram.frees);
    var i := 0;
    while i < ENTRIES
      invariant 0 <= i <= ENTRIES && ram.Valid() && Clear(s, level, key, i)
      invariant Partly(mem0, ram.mem, free0, Elems(ram.frees), was, s, level, key, i)
    {
      ok := FreeEntry(ram, page, i, level, key, s, was, mem0, free0);
      if !ok {
        return;
      }
      i := i + 1;
    }
    ok := ram.Kfree(page);
  }
}

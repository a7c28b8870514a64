/**
 The physical page allocator: a stack of free pages linked through their first words.
 */
module Kalloc {
  import opened Sv39
  import opened PageTable

  const PHYSTOP := 0x8800_0000
  const JUNK_FREE := 0x0101_0101_0101_0101
  const JUNK_NEW := 0x0505_0505_0505_0505

  ghost function Elems(f: seq<nat>): (r: set<nat>)
    ensures forall p :: p in r <==> p in f
  {
    set p | p in f
  }

  function Nth(f: seq<nat>, i: nat): nat {
    if i < |f| then f[i] else 0
  }

  /** The list of `f` starts at `head` and runs through the first words of its pages. */
  ghost predicate Chained(mem: Mem, head: nat, f: seq<nat>)
  {
    && head == Nth(f, 0)
    && (forall i :: 0 <= i < |f| ==> f[i] in mem)
    && (forall i, j :: 0 <= i < |f| && j == i + 1 ==> mem[f[i]][0] == Nth(f, j))
    && (forall i, j :: 0 <= i < j < |f| ==> f[i] != f[j])
  }

  lemma ChainedPop(mem: Mem, head: nat, f: seq<nat>, page: Page)
    requires Chained(mem, head, f) && f != []
    ensures head == f[0] && head !in f[1..] && Elems(f) == Elems(f[1..]) + {head}
    ensures Chained(mem[head := page], mem[head][0], f[1..])
  {
    var g := f[1..];
    assert mem[f[0]][0] == Nth(f, 1);
    assert forall i :: 0 <= i < |g| ==> g[i] == f[i + 1];
    forall i, j | 0 <= i < |g| && j == i + 1 ensures mem[g[i]][0] == Nth(g, j) {
      assert g[i] == f[j] && Nth(g, j) == Nth(f, j + 1);
    }
    forall p | p in f ensures p in g || p == head {
      var i :| 0 <= i < |f| && f[i] == p;
      assert i > 0 ==> g[i - 1] == p;
    }
  }

  lemma ChainedPush(mem: Mem, head: nat, f: seq<nat>, pa: nat, page: Page)
    requires Chained(mem, head, f) && pa in mem && pa != 0 && pa !in f && page[0] == head
    ensures Chained(mem[pa := page], pa, [pa] + f) && Elems([pa] + f) == Elems(f) + {pa}
  {
    var g := [pa] + f;
    var mem' := mem[pa := page];
    forall i, j | 0 <= i < |g| && j == i + 1 ensures mem'[g[i]][0] == Nth(g, j) {
      assert Nth(g, j) == Nth(f, i);
      if i > 0 {
        assert g[i] == f[i - 1];
      }
    }
  }

  lemma ChainedFrame(mem: Mem, mem': Mem, head: nat, f: seq<nat>)
    requires Chained(mem, head, f) && mem.Keys <= mem'.Keys && forall p :: p in f ==> mem'[p] == mem[p]
    ensures Chained(mem', head, f)
  {
  }

  /** A page that lies wholly between two addresses. */
  predicate Within(p: nat, start: nat, stop: nat) {
    p % PGSIZE == 0 && start <= p && p + PGSIZE <= stop
  }

  lemma OnePageMore(start: nat, p: nat)
    requires p % PGSIZE == 0 && start <= p
    ensures !Within(p, start, p)
    ensures forall q: nat :: Within(q, start, p + PGSIZE) <==> Within(q, start, p) || q == p
  {
  }

  /** No page lies between an address and the next page boundary. */
  lemma FirstPage(start: nat)
    requires start + PGSIZE <= WORD
    ensures start <= PgRoundUp(start) && PgRoundUp(start) % PGSIZE == 0
    ensures forall q: nat :: !Within(q, start, PgRoundUp(start))
  {
    RoundUp(start);
  }

  lemma NextPage(start: nat, p: nat, stop: nat)
    requires p % PGSIZE == 0 && start <= p && p + PGSIZE <= stop
    ensures Within(p, start, stop)
  {
  }

  lemma SamePages(start: nat, p: nat, stop: nat)
    requires p % PGSIZE == 0 && PgRoundUp(start) <= p && stop < p + PGSIZE && start + PGSIZE <= WORD
    requires p == PgRoundUp(start) || p <= stop
    ensures forall q: nat :: Within(q, start, stop) <==> Within(q, start, p)
  {
    RoundUp(start);
  }

  /** The pages between two addresses have become free, and no others. */
  ghost predicate Gained(f: seq<nat>, f': seq<nat>, start: nat, stop: nat)
  {
    forall q: nat :: q in f' <==> q in f || Within(q, start, stop)
  }

  lemma GainedNone(f: seq<nat>, start: nat)
    requires start + PGSIZE <= WORD
    ensures Gained(f, f, start, PgRoundUp(start))
  {
    hide Within;
    FirstPage(start);
  }

  lemma GainedOne(f: seq<nat>, f': seq<nat>, start: nat, p: nat)
    requires Gained(f, f', start, p) && p % PGSIZE == 0 && start <= p
    ensures Gained(f, [p] + f', start, p + PGSIZE)
    ensures forall q: nat :: Within(q, start, p + PGSIZE) <==> Within(q, start, p) || q == p
  {
    hide Within;
    OnePageMore(start, p);
  }

  lemma NotYet(f: seq<nat>, f': seq<nat>, start: nat, p: nat, stop: nat)
    requires Gained(f, f', start, p) && Within(p, start, stop) && p !in f
    ensures p !in f'
  {
  }

  lemma GainedAll(f: seq<nat>, f': seq<nat>, start: nat, p: nat, stop: nat)
    requires Gained(f, f', start, p) && p % PGSIZE == 0 && PgRoundUp(start) <= p && stop < p + PGSIZE &&
      start + PGSIZE <= WORD
    requires p == PgRoundUp(start) || p <= stop
    ensures forall q: nat :: q in f' <==> q in f || Within(q, start, stop)
    ensures forall q: nat :: Within(q, start, stop) <==> Within(q, start, p)
  {
    hide Within;
    SamePages(start, p, stop);
  }

  class Memory {
    const end: nat  // first address after the kernel
    var freelist: nat
    var mem: Mem
    ghost var frees: seq<nat>

    predicate Managed(pa: nat) {
      pa % PGSIZE == 0 && end <= pa < PHYSTOP
    }

    ghost predicate Valid()
      reads this
    {
      && 0 < end
      && (forall p :: p in mem <==> Managed(p))
      && Chained(mem, freelist, frees)
    }

    /** Power-on memory, before kinit(). */
    constructor (kernelEnd: nat)
      requires 0 < kernelEnd
      ensures Valid() && end == kernelEnd && frees == []
    {
      end := kernelEnd;
      freelist := 0;
      mem := map p: nat | p < PHYSTOP && p % PGSIZE == 0 && kernelEnd <= p :: Filled(0);
      frees := [];
    }

    /** kfree(): false is the panic.  The page must not already be free. */
    method Kfree(pa: nat) returns (ok: bool)
      requires Valid() && pa !in frees
      modifies this
      ensures Valid() && (ok <==> Managed(pa))
      ensures ok ==>
        frees == [pa] + old(frees) && Elems(frees) == old(Elems(frees)) + {pa} && mem == old(mem)[pa := mem[pa]]
      ensures !ok ==> frees == old(frees) && mem == old(mem)
    {
      if !Managed(pa) {
        return false;
      }
      var page: Page := Filled(JUNK_FREE)[0 := freelist];
      ChainedPush(mem, freelist, frees, pa, page);
      mem := mem[pa := page];
      freelist := pa;
      frees := [pa] + frees;
      return true;
    }

    /** kalloc(): the first free page, filled with junk, or 0. */
    method Kalloc() returns (pa: nat)
      requires Valid()
      modifies this
      ensures Valid() && (pa == 0 <==> old(frees) == [])
      ensures pa == 0 ==> frees == old(frees) && mem == old(mem)
      ensures pa != 0 ==> Managed(pa) && frees == old(frees)[1..] && pa == old(frees)[0] && pa !in frees
      ensures pa != 0 ==> Elems(frees) == old(Elems(frees)) - {pa} && mem == old(mem)[pa := Filled(JUNK_NEW)]
    {
      pa := freelist;
      if pa != 0 {
        ChainedPop(mem, freelist, frees, Filled(JUNK_NEW));
        freelist := mem[pa][0];
        mem := mem[pa := Filled(JUNK_NEW)];
        frees := frees[1..];
      } else {
        assert frees != [] ==> Managed(frees[0]);
      }
    }

    /** A store to a page that is in use. */
    method Put(pa: nat, page: Page)
      requires Valid() && pa in mem && pa !in frees
      modifies this`mem
      ensures Valid() && mem == old(mem)[pa := page]
    {
      ChainedFrame(mem, mem[pa := page], freelist, frees);
      mem := mem[pa := page];
    }

    /**
     freerange(): afterwards the pages that lie wholly in the range are free too; it panics exactly if one of them is
     outside the memory that kalloc() manages.
     */
    method Freerange(start: nat, stop: nat) returns (ok: bool)
      requires Valid() && start + PGSIZE <= WORD
      requires forall p :: p in frees ==> !Within(p, start, stop)
      modifies this
      ensures Valid() && (ok <==> forall p: nat :: Within(p, start, stop) ==> Managed(p))
      ensures ok ==> forall p: nat :: p in frees <==> p in old(frees) || Within(p, start, stop)
    {
      hide Chained;
      hide Managed;
      hide Within;
      hide PgRoundUp;
      hide Gained;
      FirstPage(start);
      var p := PgRoundUp(start);
      ok := true;
      GainedNone(frees, start);
      while p + PGSIZE <= stop
        invariant p % PGSIZE == 0 && start <= PgRoundUp(start) <= p && Valid() && ok
        invariant p == PgRoundUp(start) || p <= stop
        invariant Gained(old(frees), frees, start, p) && (forall q: nat :: Within(q, start, p) ==> Managed(q))
        decreases stop - p
      {
        NextPage(start, p, stop);
        NotYet(old(frees), frees, start, p, stop);
        GainedOne(old(frees), frees, start, p);
        ok := Kfree(p);
        if !ok {
          return;
        }
        p := p + PGSIZE;
      }
      GainedAll(old(frees), frees, start, p, stop);
    }
  }
}

/**
 The Kernighan and Ritchie allocator.  Addresses and sizes are counted in headers of 16 bytes.
 */
module Umalloc {

  datatype Header = Header(ptr: nat, size: nat)

  /** A block on the free list. */
  datatype Block = Block(addr: nat, size: nat)

  /** What a unit of memory is used for. */
  datatype Use = Idle | Live(addr: nat)

  function End(b: Block): nat {
    b.addr + b.size
  }

  function Next(bs: seq<Block>, i: nat): nat
    requires i < |bs|
  {
    if i + 1 < |bs| then bs[i + 1].addr else bs[0].addr
  }

  /** The free list is circular through the headers, in the order of `bs`. */
  ghost predicate Ring(mem: map<nat, Header>, bs: seq<Block>)
  {
    && bs != []
    && (forall i :: 0 <= i < |bs| ==> bs[i].addr in mem && mem[bs[i].addr] == Header(Next(bs, i), bs[i].size))
  }

  /**
   The list starts with the empty block `base`; addresses rise, and between two blocks there is always a gap,
   so the list wraps around once and no two free blocks touch.
   */
  ghost predicate Ordered(bs: seq<Block>, base: nat)
  {
    && bs != [] && bs[0] == Block(base, 0)
    && (forall i :: 1 <= i < |bs| ==> bs[i].size > 0)
    && (forall i, j :: 0 <= i < j < |bs| ==> End(bs[i]) < bs[j].addr)
  }

  ghost predicate InFree(bs: seq<Block>, x: nat)
  {
    exists i :: 1 <= i < |bs| && bs[i].addr <= x < End(bs[i])
  }

  /** Every unit obtained from sbrk() is in exactly one free block or exactly one live block. */
  ghost predicate Accounted(bs: seq<Block>, live: map<nat, nat>, use: map<nat, Use>)
  {
    FreeUse(bs, use) && LiveUse(live, use)
  }

  ghost predicate FreeUse(bs: seq<Block>, use: map<nat, Use>)
  {
    forall x: nat :: x in use && use[x].Idle? <==> InFree(bs, x)
  }

  ghost predicate LiveUse(live: map<nat, nat>, use: map<nat, Use>)
  {
    && (forall a, x: nat :: a in live && a <= x < a + live[a] ==> x in use && use[x] == Live(a))
    && (forall x :: x in use && use[x].Live? ==>
       use[x].addr in live && use[x].addr <= x < use[x].addr + live[use[x].addr])
  }

  /** Live blocks lie above `base`, are not empty, and keep their size in their header. */
  ghost predicate Held(mem: map<nat, Header>, live: map<nat, nat>, base: nat)
  {
    forall a :: a in live ==> a > base && live[a] > 0 && a in mem && mem[a].size == live[a]
  }

  // ---- positions on the list ----

  /** A live block starts outside every free block and does not reach into one. */
  lemma LiveApart(bs: seq<Block>, live: map<nat, nat>, use: map<nat, Use>, a: nat, i: nat)
    requires Accounted(bs, live, use) && a in live && live[a] > 0 && 1 <= i < |bs| && bs[i].size > 0
    ensures a + live[a] <= bs[i].addr || End(bs[i]) <= a
  {
    if a < End(bs[i]) && bs[i].addr < a + live[a] {
      var x := if a < bs[i].addr then bs[i].addr else a;
      assert InFree(bs, x);
    }
  }

  /** bp belongs right after block i: the loop condition of free() at that block. */
  predicate Belongs(bs: seq<Block>, i: nat, bp: nat)
    requires i < |bs|
  {
    bs[i].addr < bp && (i + 1 < |bs| ==> bp < bs[i + 1].addr)
  }

  /** The test by which free() stops at block i is exactly that bp belongs there. */
  lemma StopTest(bs: seq<Block>, base: nat, i: nat, bp: nat)
    requires Ordered(bs, base) && i < |bs| && bp > base
    ensures var p, q := bs[i].addr, Next(bs, i);
            (bp > p && bp < q) || (p >= q && (bp > p || bp < q)) <==> Belongs(bs, i, bp)
  {
  }

  /** There is such a block. */
  lemma {:induction false} Place(bs: seq<Block>, base: nat, bp: nat) returns (i: nat)
    requires Ordered(bs, base) && bp > base && forall k :: 0 <= k < |bs| ==> bs[k].addr != bp
    ensures i < |bs| && Belongs(bs, i, bp)
  {
    i := 0;
    while i + 1 < |bs| && bs[i + 1].addr < bp
      invariant i < |bs| && bs[i].addr < bp
    {
      i := i + 1;
    }
  }

  // ---- putting a block on the list ----

  predicate TouchesNext(bs: seq<Block>, i: nat, b: Block)
    requires i < |bs|
  {
    i + 1 < |bs| && End(b) == bs[i + 1].addr
  }

  predicate TouchesPrev(bs: seq<Block>, i: nat, b: Block)
    requires i < |bs|
  {
    End(bs[i]) == b.addr
  }

  /** Block b fits between block i and the next one. */
  predicate Fits(bs: seq<Block>, i: nat, b: Block)
    requires i < |bs|
  {
    Belongs(bs, i, b.addr) && b.size > 0 && End(bs[i]) <= b.addr && (i + 1 < |bs| ==> End(b) <= bs[i + 1].addr)
  }

  /** b together with the free blocks that it touches. */
  function Merged(bs: seq<Block>, i: nat, b: Block): Block
    requires i < |bs|
  {
    var size := b.size + if TouchesNext(bs, i, b) then bs[i + 1].size else 0;
    if TouchesPrev(bs, i, b) then Block(bs[i].addr, bs[i].size + size) else Block(b.addr, size)
  }

  /** r is bs with the blocks lo .. skip-1 replaced by m. */
  ghost predicate Spliced(r: seq<Block>, bs: seq<Block>, lo: nat, m: Block, skip: nat)
  {
    && lo <= skip <= |bs| && |r| == lo + 1 + |bs| - skip && r[lo] == m
    && (forall k :: 0 <= k < lo ==> r[k] == bs[k])
    && (forall k, j :: lo < k < |r| && j == k - lo - 1 + skip ==> r[k] == bs[j])
  }

  function Splice(bs: seq<Block>, lo: nat, m: Block, skip: nat): (r: seq<Block>)
    requires lo <= skip <= |bs|
    ensures Spliced(r, bs, lo, m, skip)
  {
    bs[..lo] + [m] + bs[skip..]
  }

  function Low(bs: seq<Block>, i: nat, b: Block): nat
    requires i < |bs|
  {
    if TouchesPrev(bs, i, b) then i else i + 1
  }

  function Skip(bs: seq<Block>, i: nat, b: Block): nat
    requires i < |bs|
  {
    if TouchesNext(bs, i, b) then i + 2 else i + 1
  }

  function Inserted(bs: seq<Block>, i: nat, b: Block): seq<Block>
    requires i < |bs|
  {
    Splice(bs, Low(bs, i, b), Merged(bs, i, b), Skip(bs, i, b))
  }

  lemma SplicedOrdered(r: seq<Block>, bs: seq<Block>, base: nat, lo: nat, m: Block, skip: nat)
    requires Ordered(bs, base) && Spliced(r, bs, lo, m, skip) && 1 <= lo && m.size > 0
    requires (forall k :: 0 <= k < lo ==> End(bs[k]) < m.addr) && (forall k :: skip <= k < |bs| ==> End(m) < bs[k].addr)
    ensures Ordered(r, base)
  {
    hide End;
    forall i, j | 0 <= i < j < |r| ensures End(r[i]) < r[j].addr {
      var i', j' := if i < lo then i else i - lo - 1 + skip, if j < lo then j else j - lo - 1 + skip;
      assert i < lo ==> r[i] == bs[i'];
      assert i > lo ==> r[i] == bs[i'];
      assert j < lo ==> r[j] == bs[j'];
      assert j > lo ==> r[j] == bs[j'];
    }
    forall i | 1 <= i < |r| ensures r[i].size > 0 {
      var i' := if i < lo then i else i - lo - 1 + skip;
      assert i != lo ==> r[i] == bs[i'];
    }
  }

  /** A block that goes on the list leaves gaps to the blocks before and after the merged one. */
  lemma MergedGaps(bs: seq<Block>, base: nat, i: nat, b: Block)
    requires Ordered(bs, base) && i < |bs| && Fits(bs, i, b)
    ensures 1 <= Low(bs, i, b) <= Skip(bs, i, b) <= |bs| && Merged(bs, i, b).size > 0
    ensures forall k :: 0 <= k < Low(bs, i, b) ==> End(bs[k]) < Merged(bs, i, b).addr
    ensures forall k :: Skip(bs, i, b) <= k < |bs| ==> End(Merged(bs, i, b)) < bs[k].addr
  {
  }

  /** The list stays ordered, with gaps: blocks that touch have been coalesced. */
  lemma InsertedOrdered(bs: seq<Block>, base: nat, i: nat, b: Block)
    requires Ordered(bs, base) && i < |bs| && Fits(bs, i, b)
    ensures Ordered(Inserted(bs, i, b), base)
  {
    hide Splice;
    hide Spliced;
    MergedGaps(bs, base, i, b);
    SplicedOrdered(Inserted(bs, i, b), bs, base, Low(bs, i, b), Merged(bs, i, b), Skip(bs, i, b));
  }

  lemma SplicedFree(r: seq<Block>, bs: seq<Block>, lo: nat, m: Block, skip: nat, x: nat)
    requires Spliced(r, bs, lo, m, skip) && 1 <= lo
    ensures InFree(r, x) <==>
      m.addr <= x < End(m) || exists k :: 1 <= k < |bs| && (k < lo || k >= skip) && bs[k].addr <= x < End(bs[k])
  {
    if InFree(r, x) {
      var k :| 1 <= k < |r| && r[k].addr <= x < End(r[k]);
      if k != lo {
        var j := if k < lo then k else k - lo - 1 + skip;
        assert r[k] == bs[j];
      }
    }
    if k :| 1 <= k < |bs| && (k < lo || k >= skip) && bs[k].addr <= x < End(bs[k]) {
      var j := if k < lo then k else k - skip + lo + 1;
      assert r[j] == bs[k];
    }
    if m.addr <= x < End(m) {
      assert r[lo] == m;
    }
  }

  /** The list gains exactly the units of b. */
  lemma InsertedFree(bs: seq<Block>, base: nat, i: nat, b: Block, x: nat)
    requires Ordered(bs, base) && i < |bs| && Fits(bs, i, b)
    ensures InFree(Inserted(bs, i, b), x) <==> InFree(bs, x) || b.addr <= x < End(b)
  {
    hide Splice;
    hide Spliced;
    MergedGaps(bs, base, i, b);
    var lo, skip, m := Low(bs, i, b), Skip(bs, i, b), Merged(bs, i, b);
    SplicedFree(Inserted(bs, i, b), bs, lo, m, skip, x);
    MergedUnits(bs, base, i, b, x);
    if InFree(bs, x) {
      var k :| 1 <= k < |bs| && bs[k].addr <= x < End(bs[k]);
      assert k < lo || k >= skip || k == i || k == i + 1;
    }
  }

  lemma MergedUnits(bs: seq<Block>, base: nat, i: nat, b: Block, x: nat)
    requires Ordered(bs, base) && i < |bs| && Fits(bs, i, b)
    ensures var m := Merged(bs, i, b);
            m.addr <= x < End(m) <==>
              || b.addr <= x < End(b)
              || (TouchesPrev(bs, i, b) && bs[i].addr <= x < End(bs[i]))
              || (TouchesNext(bs, i, b) && bs[i + 1].addr <= x < End(bs[i + 1]))
    ensures TouchesPrev(bs, i, b) ==> i >= 1
  {
  }

  function After(bs: seq<Block>, k: nat): nat
    requires bs != []
  {
    if k < |bs| then bs[k].addr else bs[0].addr
  }

  /** The headers of a spliced list. */
  lemma SplicedRing(mem: map<nat, Header>, mem': map<nat, Header>, r: seq<Block>, bs: seq<Block>, lo: nat, m: Block,
    skip: nat)
    requires Ring(mem, bs) && Spliced(r, bs, lo, m, skip) && 1 <= lo
    requires m.addr in mem' && mem'[m.addr] == Header(After(bs, skip), m.size)
    requires bs[lo - 1].addr in mem' && mem'[bs[lo - 1].addr] == Header(m.addr, bs[lo - 1].size)
    requires forall k :: 0 <= k < |bs| && (k < lo - 1 || k >= skip) ==>
      bs[k].addr in mem' && mem'[bs[k].addr] == mem[bs[k].addr]
    ensures Ring(mem', r)
  {
    forall k | 0 <= k < |r| ensures r[k].addr in mem' && mem'[r[k].addr] == Header(Next(r, k), r[k].size) {
      if k < lo - 1 {
        assert r[k] == bs[k] && r[k + 1] == bs[k + 1];
      } else if k == lo - 1 {
        assert r[k] == bs[k];
      } else if k == lo {
        assert k + 1 < |r| ==> r[k + 1] == bs[skip];
      } else {
        var j := k - lo - 1 + skip;
        assert r[k] == bs[j] && (k + 1 < |r| ==> r[k + 1] == bs[j + 1]);
      }
    }
  }

  /** The assignments at the end of free(), for a block b that goes after the block at p. */
  function Linked(mem: map<nat, Header>, p: nat, b: Block): map<nat, Header>
    requires p in mem && mem[p].ptr in mem && p != b.addr
  {
    var q := mem[p].ptr;
    var hb := if End(b) == q then Header(mem[q].ptr, b.size + mem[q].size) else Header(q, b.size);
    var hp := if p + mem[p].size == b.addr then Header(hb.ptr, mem[p].size + hb.size) else mem[p].(ptr := b.addr);
    mem[b.addr := hb][p := hp]
  }

  lemma Addresses(bs: seq<Block>, base: nat, i: nat, j: nat)
    requires Ordered(bs, base) && i < |bs| && j < |bs| && i != j
    ensures bs[i].addr != bs[j].addr
  {
    if i < j {
      assert End(bs[i]) < bs[j].addr;
    } else {
      assert End(bs[j]) < bs[i].addr;
    }
  }

  lemma LinkedHeaders(mem: map<nat, Header>, bs: seq<Block>, base: nat, i: nat, b: Block)
    requires Ring(mem, bs) && Ordered(bs, base) && i < |bs| && Fits(bs, i, b)
    ensures var p := bs[i].addr;
      p in mem && mem[p] == Header(After(bs, i + 1), bs[i].size) && mem[p].ptr in mem && p != b.addr
    ensures var mem', lo, skip, m := Linked(mem, bs[i].addr, b), Low(bs, i, b), Skip(bs, i, b), Merged(bs, i, b);
            && 1 <= lo <= skip <= |bs|
            && m.addr in mem' && mem'[m.addr] == Header(After(bs, skip), m.size)
            && bs[lo - 1].addr in mem' && mem'[bs[lo - 1].addr] == Header(m.addr, bs[lo - 1].size)
  {
    MergedGaps(bs, base, i, b);
    var p := bs[i].addr;
    assert mem[p] == Header(Next(bs, i), bs[i].size);
    if i + 1 < |bs| {
      assert mem[bs[i + 1].addr] == Header(Next(bs, i + 1), bs[i + 1].size);
    }
    if TouchesPrev(bs, i, b) {
      assert mem[bs[i - 1].addr] == Header(Next(bs, i - 1), bs[i - 1].size);
      Addresses(bs, base, i - 1, i);
    }
  }

  /** The headers of the other blocks do not change. */
  lemma LinkedOthers(mem: map<nat, Header>, bs: seq<Block>, base: nat, i: nat, b: Block, k: nat)
    requires Ring(mem, bs) && Ordered(bs, base) && i < |bs| && Fits(bs, i, b) && k < |bs| && k != i
    requires mem[bs[i].addr].ptr in mem && bs[i].addr != b.addr && (k == i + 1 ==> !TouchesNext(bs, i, b))
    ensures var mem' := Linked(mem, bs[i].addr, b); bs[k].addr in mem' && mem'[bs[k].addr] == mem[bs[k].addr]
  {
    Addresses(bs, base, k, i);
    if k < i {
      assert End(bs[k]) < bs[i].addr;
    } else {
      assert k > i + 1 ==> End(bs[i + 1]) < bs[k].addr;
    }
  }

  lemma LinkedRing(mem: map<nat, Header>, bs: seq<Block>, base: nat, i: nat, b: Block)
    requires Ring(mem, bs) && Ordered(bs, base) && i < |bs| && Fits(bs, i, b)
    ensures var p := bs[i].addr;
      p in mem && mem[p] == Header(After(bs, i + 1), bs[i].size) && mem[p].ptr in mem && p != b.addr
    ensures Ring(Linked(mem, bs[i].addr, b), Inserted(bs, i, b))
  {
    hide Splice;
    hide Spliced;
    hide Merged;
    hide Ring;
    hide Ordered;
    hide Fits;
    hide Linked;
    hide End;
    MergedGaps(bs, base, i, b);
    LinkedHeaders(mem, bs, base, i, b);
    var mem', lo, skip := Linked(mem, bs[i].addr, b), Low(bs, i, b), Skip(bs, i, b);
    forall k | 0 <= k < |bs| && (k < lo - 1 || k >= skip)
      ensures bs[k].addr in mem && bs[k].addr in mem' && mem'[bs[k].addr] == mem[bs[k].addr] {
      LinkedOthers(mem, bs, base, i, b, k);
      RingHas(mem, bs, k);
    }
    SplicedRing(mem, mem', Inserted(bs, i, b), bs, lo, Merged(bs, i, b), skip);
  }

  lemma RingHas(mem: map<nat, Header>, bs: seq<Block>, k: nat)
    requires Ring(mem, bs) && k < |bs|
    ensures bs[k].addr in mem && mem[bs[k].addr] == Header(After(bs, k + 1), bs[k].size)
  {
  }

  // ---- accounting ----

  ghost function Units(b: Block): (r: set<nat>)
    ensures forall x: nat :: x in r <==> b.addr <= x < End(b)
    decreases b.size
  {
    if b.size == 0 then {} else Units(Block(b.addr, b.size - 1)) + {End(b) - 1}
  }

  ghost function WithUse(use: map<nat, Use>, b: Block, u: Use): map<nat, Use> {
    map x | x in use.Keys + Units(b) :: if x in Units(b) then u else use[x]
  }

  ghost function WithoutUse(use: map<nat, Use>, b: Block): map<nat, Use> {
    use - Units(b)
  }

  /** A block that is in no use fits where it belongs. */
  lemma UnusedFits(bs: seq<Block>, base: nat, live: map<nat, nat>, use: map<nat, Use>, i: nat, b: Block)
    requires Ordered(bs, base) && Accounted(bs, live, use) && i < |bs| && Belongs(bs, i, b.addr) && b.size > 0
    requires forall x :: x in Units(b) ==> x !in use
    ensures Fits(bs, i, b)
  {
    hide Units;
    assert b.addr in Units(b);
    assert i >= 1 && End(bs[i]) > b.addr ==> InFree(bs, b.addr);
    var next := if i + 1 < |bs| then bs[i + 1].addr else End(b);
    assert i + 1 < |bs| ==> InFree(bs, next);
    assert End(b) > next ==> next in Units(b);
  }

  lemma AccountedInsert(bs: seq<Block>, base: nat, live: map<nat, nat>, use: map<nat, Use>, i: nat, b: Block)
    requires Ordered(bs, base) && Accounted(bs, live, use) && i < |bs| && Fits(bs, i, b)
    requires forall x :: x in Units(b) ==> x !in use
    ensures Accounted(Inserted(bs, i, b), live, WithUse(use, b, Idle))
  {
    hide Inserted;
    hide Fits;
    hide Ordered;
    hide InFree;
    var use' := WithUse(use, b, Idle);
    forall x: nat ensures x in use' && use'[x].Idle? <==> InFree(Inserted(bs, i, b), x) {
      InsertedFree(bs, base, i, b, x);
    }
  }

  /** Taking a live block off the books leaves its units in no use. */
  lemma AccountedDrop(bs: seq<Block>, live: map<nat, nat>, use: map<nat, Use>, a: nat)
    requires Accounted(bs, live, use) && a in live
    ensures Accounted(bs, live - {a}, WithoutUse(use, Block(a, live[a])))
  {
    hide InFree;
    hide Units;
    var live' := live - {a};
    var use' := WithoutUse(use, Block(a, live[a]));
    assert forall x: nat :: x in use' <==> x in use && !(a <= x < a + live[a]);
    assert forall x: nat :: a <= x < a + live[a] ==> x in use && use[x] == Live(a);
    forall c, x: nat | c in live' && c <= x < c + live'[c] ensures x in use' && use'[x] == Live(c) {
      assert x in use && use[x] == Live(c);
    }
    forall x: nat ensures x in use' && use'[x].Idle? <==> InFree(bs, x) {
      assert x in use && use[x].Idle? <==> InFree(bs, x);
    }
  }

  // ---- taking a block off the list ----

  /** The tail of block j, n units long, leaves the list; the whole block, if it is no longer. */
  function Cut(bs: seq<Block>, j: nat, n: nat): seq<Block>
    requires j < |bs|
  {
    if bs[j].size <= n then bs[..j] + bs[j + 1..] else bs[j := Block(bs[j].addr, bs[j].size - n)]
  }

  lemma CutAt(bs: seq<Block>, j: nat, n: nat, k: nat)
    requires j < |bs| && k < |Cut(bs, j, n)|
    ensures bs[j].size <= n ==> Cut(bs, j, n)[k] == bs[if k < j then k else k + 1]
    ensures bs[j].size > n ==> Cut(bs, j, n)[k] == if k == j then Block(bs[j].addr, bs[j].size - n) else bs[k]
  {
  }

  lemma CutOrdered(bs: seq<Block>, base: nat, j: nat, n: nat)
    requires Ordered(bs, base) && 1 <= j < |bs| && 0 < n <= bs[j].size
    ensures Ordered(Cut(bs, j, n), base)
  {
    hide Cut;
    var r := Cut(bs, j, n);
    CutSize(bs, j, n);
    CutAt(bs, j, n, 0);
    forall p, q | 0 <= p < q < |r| ensures End(r[p]) < r[q].addr {
      CutAt(bs, j, n, p);
      CutAt(bs, j, n, q);
    }
    forall p | 1 <= p < |r| ensures r[p].size > 0 {
      CutAt(bs, j, n, p);
    }
  }

  lemma CutSize(bs: seq<Block>, j: nat, n: nat)
    requires j < |bs|
    ensures |Cut(bs, j, n)| == if bs[j].size <= n then |bs| - 1 else |bs|
  {
  }

  lemma CutFreeIn(bs: seq<Block>, base: nat, j: nat, n: nat, x: nat)
    requires Ordered(bs, base) && 1 <= j < |bs| && 0 < n <= bs[j].size && InFree(Cut(bs, j, n), x)
    ensures InFree(bs, x) && !(End(bs[j]) - n <= x < End(bs[j]))
  {
    hide Cut;
    var r := Cut(bs, j, n);
    CutSize(bs, j, n);
    var k :| 1 <= k < |r| && r[k].addr <= x < End(r[k]);
    CutAt(bs, j, n, k);
    var k' := if bs[j].size <= n && k >= j then k + 1 else k;
    assert bs[k'].addr <= x < End(bs[k']);
    assert k' < j ==> End(bs[k']) < bs[j].addr;
    assert k' > j ==> End(bs[j]) < bs[k'].addr;
  }

  lemma CutFreeOut(bs: seq<Block>, base: nat, j: nat, n: nat, x: nat)
    requires Ordered(bs, base) && 1 <= j < |bs| && 0 < n <= bs[j].size && InFree(bs, x) &&
      !(End(bs[j]) - n <= x < End(bs[j]))
    ensures InFree(Cut(bs, j, n), x)
  {
    hide Cut;
    var r := Cut(bs, j, n);
    CutSize(bs, j, n);
    var k :| 1 <= k < |bs| && bs[k].addr <= x < End(bs[k]);
    var k' := if bs[j].size <= n && k > j then k - 1 else k;
    CutAt(bs, j, n, k');
    assert r[k'].addr <= x < End(r[k']);
  }

  /** The list loses exactly the units that are cut off. */
  lemma CutFree(bs: seq<Block>, base: nat, j: nat, n: nat, x: nat)
    requires Ordered(bs, base) && 1 <= j < |bs| && 0 < n <= bs[j].size
    ensures InFree(Cut(bs, j, n), x) <==> InFree(bs, x) && !(End(bs[j]) - n <= x < End(bs[j]))
  {
    hide Cut;
    hide InFree;
    hide Ordered;
    if InFree(Cut(bs, j, n), x) {
      CutFreeIn(bs, base, j, n, x);
    } else if InFree(bs, x) && !(End(bs[j]) - n <= x < End(bs[j])) {
      CutFreeOut(bs, base, j, n, x);
    }
  }

  /** Units that are cut off were free before. */
  lemma CutUnits(bs: seq<Block>, live: map<nat, nat>, use: map<nat, Use>, j: nat, n: nat, x: nat)
    requires Accounted(bs, live, use) && 1 <= j < |bs| && 0 < n <= bs[j].size && End(bs[j]) - n <= x < End(bs[j])
    ensures x in use && use[x].Idle?
  {
    assert InFree(bs, x);
  }

  lemma UseAt(use: map<nat, Use>, b: Block, u: Use, x: nat)
    ensures x in WithUse(use, b, u) <==> x in use || b.addr <= x < End(b)
    ensures x in WithUse(use, b, u) ==> WithUse(use, b, u)[x] == if b.addr <= x < End(b) then u else use[x]
  {
    hide Units;
  }

  lemma LiveMoreUnit(live: map<nat, nat>, use: map<nat, Use>, a: nat, n: nat, c: nat, x: nat)
    requires LiveUse(live, use) && c in live && c <= x < c + live[c] && forall y: nat :: a <= y < a + n ==>
      y in use && use[y].Idle?
    ensures x in WithUse(use, Block(a, n), Live(a)) && WithUse(use, Block(a, n), Live(a))[x] == Live(c)
  {
    hide WithUse;
    UseAt(use, Block(a, n), Live(a), x);
  }

  /** The units a .. a+n-1 go from free to live. */
  lemma LiveMore(live: map<nat, nat>, use: map<nat, Use>, a: nat, n: nat)
    requires LiveUse(live, use) && (forall c :: c in live ==> live[c] > 0) && n > 0
    requires forall x: nat :: a <= x < a + n ==> x in use && use[x].Idle?
    ensures a !in live && LiveUse(live[a := n], WithUse(use, Block(a, n), Live(a)))
  {
    hide WithUse;
    var use', live' := WithUse(use, Block(a, n), Live(a)), live[a := n];
    NotLive(live, use, a);
    forall c, x: nat | c in live' && c <= x < c + live'[c] ensures x in use' && use'[x] == Live(c) {
      if c == a {
        UseAt(use, Block(a, n), Live(a), x);
      } else {
        LiveMoreUnit(live, use, a, n, c, x);
      }
    }
    forall x | x in use' && use'[x].Live?
      ensures use'[x].addr in live' && use'[x].addr <= x < use'[x].addr + live'[use'[x].addr] {
      UseAt(use, Block(a, n), Live(a), x);
    }
  }

  lemma NotLive(live: map<nat, nat>, use: map<nat, Use>, a: nat)
    requires LiveUse(live, use) && a in use && use[a].Idle? && forall c :: c in live ==> live[c] > 0
    ensures a !in live
  {
    forall c | c in live ensures c in use && use[c].Live? {
      assert c <= c < c + live[c];
    }
  }

  lemma FreeLess(bs: seq<Block>, base: nat, use: map<nat, Use>, j: nat, n: nat, a: nat)
    requires Ordered(bs, base) && FreeUse(bs, use) && 1 <= j < |bs| && 0 < n <= bs[j].size && a == End(bs[j]) - n
    ensures FreeUse(Cut(bs, j, n), WithUse(use, Block(a, n), Live(a)))
  {
    hide Cut;
    hide InFree;
    hide Units;
    hide Ordered;
    var use' := WithUse(use, Block(a, n), Live(a));
    forall x: nat ensures x in use' && use'[x].Idle? <==> InFree(Cut(bs, j, n), x) {
      CutFree(bs, base, j, n, x);
    }
  }

  lemma AccountedCut(bs: seq<Block>, base: nat, live: map<nat, nat>, use: map<nat, Use>, j: nat, n: nat)
    requires Ordered(bs, base) && Accounted(bs, live, use) && 1 <= j < |bs| && 0 < n <= bs[j].size
    requires forall c :: c in live ==> live[c] > 0
    ensures var a := End(bs[j]) - n;
      a !in live && Accounted(Cut(bs, j, n), live[a := n], WithUse(use, Block(a, n), Live(a)))
  {
    hide Cut;
    hide WithUse;
    hide FreeUse;
    hide LiveUse;
    var a := End(bs[j]) - n;
    forall x: nat | a <= x < a + n ensures x in use && use[x].Idle? {
      CutUnits(bs, live, use, j, n, x);
    }
    LiveMore(live, use, a, n);
    FreeLess(bs, base, use, j, n, a);
  }

  /** What malloc() writes to take n units from the end of the block at p, whose predecessor is prev. */
  function Taken(mem: map<nat, Header>, prev: nat, p: nat, n: nat): map<nat, Header>
    requires prev in mem && p in mem && n <= mem[p].size
  {
    if mem[p].size == n then mem[prev := mem[prev].(ptr := mem[p].ptr)]
    else
      var rest := mem[p].size - n;
      mem[p := mem[p].(size := rest)][p + rest := Header(if p + rest in mem then mem[p + rest].ptr else 0, n)]
  }

  lemma TakenWholeAt(mem: map<nat, Header>, bs: seq<Block>, base: nat, j: nat, k: nat)
    requires Ring(mem, bs) && Ordered(bs, base) && 1 <= j < |bs| && k < |bs| && k != j
    ensures bs[j - 1].addr in mem && bs[j].addr in mem && mem[bs[j].addr].size == bs[j].size
    ensures var mem' := Taken(mem, bs[j - 1].addr, bs[j].addr, bs[j].size);
            bs[k].addr in mem' && mem'[bs[k].addr] == Header(if k == j - 1 then After(bs, j + 1)
              else After(bs, k + 1), bs[k].size)
  {
    hide Ring;
    hide Ordered;
    RingHas(mem, bs, j);
    RingHas(mem, bs, j - 1);
    RingHas(mem, bs, k);
    if k != j - 1 {
      Addresses(bs, base, k, j - 1);
    }
  }

  lemma TakenWhole(mem: map<nat, Header>, bs: seq<Block>, base: nat, j: nat)
    requires Ring(mem, bs) && Ordered(bs, base) && 1 <= j < |bs|
    ensures bs[j - 1].addr in mem && bs[j].addr in mem && mem[bs[j].addr].size == bs[j].size
    ensures Ring(Taken(mem, bs[j - 1].addr, bs[j].addr, bs[j].size), Cut(bs, j, bs[j].size))
  {
    hide Cut;
    hide Ring;
    hide Ordered;
    hide Taken;
    RingHas(mem, bs, j);
    RingHas(mem, bs, j - 1);
    var n := bs[j].size;
    var mem', r := Taken(mem, bs[j - 1].addr, bs[j].addr, n), Cut(bs, j, n);
    CutSize(bs, j, n);
    forall k | 0 <= k < |r| ensures r[k].addr in mem' && mem'[r[k].addr] == Header(Next(r, k), r[k].size) {
      CutAt(bs, j, n, k);
      CutAt(bs, j, n, if k + 1 < |r| then k + 1 else 0);
      TakenWholeAt(mem, bs, base, j, if k < j then k else k + 1);
    }
    MakeRing(mem', r);
  }

  lemma MakeRing(mem: map<nat, Header>, bs: seq<Block>)
    requires bs != [] && forall i :: 0 <= i < |bs| ==>
      bs[i].addr in mem && mem[bs[i].addr] == Header(Next(bs, i), bs[i].size)
    ensures Ring(mem, bs)
  {
  }

  lemma TakenPartAt(mem: map<nat, Header>, bs: seq<Block>, base: nat, j: nat, n: nat, k: nat)
    requires Ring(mem, bs) && Ordered(bs, base) && 1 <= j < |bs| && 0 < n < bs[j].size && k < |bs|
    ensures bs[j - 1].addr in mem && bs[j].addr in mem && mem[bs[j].addr].size == bs[j].size
    ensures var mem' := Taken(mem, bs[j - 1].addr, bs[j].addr, n);
            bs[k].addr in mem' && mem'[bs[k].addr] == Header(After(bs, k + 1), if k == j then bs[j].size - n
              else bs[k].size)
  {
    hide Ring;
    RingHas(mem, bs, j);
    RingHas(mem, bs, j - 1);
    RingHas(mem, bs, k);
    assert k < j ==> End(bs[k]) < bs[j].addr;
    assert k > j ==> End(bs[j]) < bs[k].addr;
  }

  lemma TakenPart(mem: map<nat, Header>, bs: seq<Block>, base: nat, j: nat, n: nat)
    requires Ring(mem, bs) && Ordered(bs, base) && 1 <= j < |bs| && 0 < n < bs[j].size
    ensures bs[j - 1].addr in mem && bs[j].addr in mem && mem[bs[j].addr].size == bs[j].size
    ensures Ring(Taken(mem, bs[j - 1].addr, bs[j].addr, n), Cut(bs, j, n))
  {
    hide Cut;
    hide Ring;
    hide Ordered;
    hide Taken;
    RingHas(mem, bs, j);
    RingHas(mem, bs, j - 1);
    var mem', r := Taken(mem, bs[j - 1].addr, bs[j].addr, n), Cut(bs, j, n);
    CutSize(bs, j, n);
    forall k | 0 <= k < |r| ensures r[k].addr in mem' && mem'[r[k].addr] == Header(Next(r, k), r[k].size) {
      CutAt(bs, j, n, k);
      CutAt(bs, j, n, if k + 1 < |r| then k + 1 else 0);
      TakenPartAt(mem, bs, base, j, n, k);
    }
    MakeRing(mem', r);
  }

  // ---- the allocator's state ----

  ghost predicate Good(mem: map<nat, Header>, bs: seq<Block>, base: nat, live: map<nat, nat>, use: map<nat, Use>,
    brk: nat)
  {
    && Ring(mem, bs) && Ordered(bs, base) && Accounted(bs, live, use) && Held(mem, live, base)
    && base < brk && forall x :: x in use ==> base < x < brk
  }

  /** A live block's header is not on the free list. */
  lemma LiveOff(bs: seq<Block>, base: nat, live: map<nat, nat>, use: map<nat, Use>, mem: map<nat, Header>, a: nat,
    i: nat)
    requires Ordered(bs, base) && Accounted(bs, live, use) && Held(mem, live, base) && a in live && i < |bs|
    ensures bs[i].addr != a
  {
    if i > 0 {
      assert InFree(bs, bs[i].addr);
      assert a in use && use[a] == Live(a);
    }
  }

  /** Two live blocks never overlap. */
  lemma LivesApart(mem: map<nat, Header>, live: map<nat, nat>, use: map<nat, Use>, base: nat, a: nat, c: nat)
    requires LiveUse(live, use) && Held(mem, live, base) && a in live && c in live && a != c
    ensures a + live[a] <= c || c + live[c] <= a
  {
    var x := if a < c then c else a;
    assert (x in use && use[x] == Live(a)) ==> !(x in use && use[x] == Live(c));
  }

  lemma HeldFrame(mem: map<nat, Header>, mem': map<nat, Header>, live: map<nat, nat>, base: nat)
    requires Held(mem, live, base) && forall a :: a in live ==> a in mem' && mem'[a] == mem[a]
    ensures Held(mem', live, base)
  {
  }

  /** Putting a block that is in no use on the list after block i. */
  lemma GoodInsert(mem: map<nat, Header>, bs: seq<Block>, base: nat, live: map<nat, nat>, use: map<nat, Use>, brk: nat,
    i: nat, b: Block)
    requires Good(mem, bs, base, live, use, brk) && i < |bs| && Belongs(bs, i, b.addr) && b.size > 0 &&
      End(b) <= brk && b.addr !in live
    requires forall x :: x in Units(b) ==> x !in use
    ensures var p := bs[i].addr; p in mem && mem[p].ptr in mem && p != b.addr
    ensures Good(Linked(mem, bs[i].addr, b), Inserted(bs, i, b), base, live, WithUse(use, b, Idle), brk)
  {
    hide Ring;
    hide Inserted;
    hide WithUse;
    hide Accounted;
    UnusedFits(bs, base, live, use, i, b);
    LinkedRing(mem, bs, base, i, b);
    InsertedOrdered(bs, base, i, b);
    AccountedInsert(bs, base, live, use, i, b);
    forall a | a in live ensures a in Linked(mem, bs[i].addr, b) && Linked(mem, bs[i].addr, b)[a] == mem[a] {
      LiveOff(bs, base, live, use, mem, a, i);
    }
    HeldFrame(mem, Linked(mem, bs[i].addr, b), live, base);
    forall x | x in WithUse(use, b, Idle) ensures base < x < brk {
      UseAt(use, b, Idle, x);
    }
  }

  lemma TakenHeld(mem: map<nat, Header>, bs: seq<Block>, base: nat, live: map<nat, nat>, use: map<nat, Use>, j: nat,
    n: nat)
    requires Ring(mem, bs) && Ordered(bs, base) && Accounted(bs, live, use) && Held(mem, live, base) &&
      1 <= j < |bs| && 0 < n <= bs[j].size
    requires bs[j - 1].addr in mem && bs[j].addr in mem && mem[bs[j].addr].size == bs[j].size && End(bs[j]) - n !in live
    ensures Held(Taken(mem, bs[j - 1].addr, bs[j].addr, n), live[End(bs[j]) - n := n], base)
  {
    hide Ring;
    hide Accounted;
    var mem', a := Taken(mem, bs[j - 1].addr, bs[j].addr, n), End(bs[j]) - n;
    assert End(bs[0]) < bs[j].addr && End(bs[j - 1]) < bs[j].addr;
    forall c | c in live ensures c in mem' && mem'[c] == mem[c] {
      LiveOff(bs, base, live, use, mem, c, j);
      LiveOff(bs, base, live, use, mem, c, j - 1);
    }
    assert a in mem' && mem'[a].size == n;
  }

  lemma CutRange(bs: seq<Block>, live: map<nat, nat>, use: map<nat, Use>, base: nat, brk: nat, j: nat, n: nat)
    requires Accounted(bs, live, use) && 1 <= j < |bs| && 0 < n <= bs[j].size && forall x :: x in use ==> base < x < brk
    ensures var a := End(bs[j]) - n; forall x :: x in WithUse(use, Block(a, n), Live(a)) ==> base < x < brk
  {
    hide WithUse;
    hide Accounted;
    var a := End(bs[j]) - n;
    forall x | x in WithUse(use, Block(a, n), Live(a)) ensures base < x < brk {
      UseAt(use, Block(a, n), Live(a), x);
      if a <= x < a + n {
        CutUnits(bs, live, use, j, n, x);
      }
    }
  }

  /** Taking n units from the end of block j. */
  lemma GoodCut(mem: map<nat, Header>, bs: seq<Block>, base: nat, live: map<nat, nat>, use: map<nat, Use>, brk: nat,
    j: nat, n: nat)
    requires Good(mem, bs, base, live, use, brk) && 1 <= j < |bs| && 0 < n <= bs[j].size
    ensures bs[j - 1].addr in mem && bs[j].addr in mem && mem[bs[j].addr].size == bs[j].size
    ensures var a := End(bs[j]) - n;
            a !in live && Good(Taken(mem, bs[j - 1].addr, bs[j].addr, n), Cut(bs, j, n), base, live[a := n],
              WithUse(use, Block(a, n), Live(a)), brk)
  {
    hide Ring;
    hide Ordered;
    hide Cut;
    hide WithUse;
    hide Accounted;
    hide Taken;
    hide End;
    if n == bs[j].size {
      TakenWhole(mem, bs, base, j);
    } else {
      TakenPart(mem, bs, base, j, n);
    }
    CutOrdered(bs, base, j, n);
    AccountedCut(bs, base, live, use, j, n);
    TakenHeld(mem, bs, base, live, use, j, n);
    CutRange(bs, live, use, base, brk, j, n);
  }

  // ---- malloc and free ----

  /** The t-th block after block f on the circular list of n blocks. */
  function Around(f: nat, t: nat, n: nat): (r: nat)
    requires f < n && t <= n
    ensures r < n && (t == 0 ==> r == f)
  {
    if f + t < n then f + t else f + t - n
  }

  /** Steps from block i forward to block t. */
  function Distance(i: nat, t: nat, n: nat): nat
    requires i < n && t < n
  {
    if i <= t then t - i else t + n - i
  }

  lemma NextAddr(mem: map<nat, Header>, bs: seq<Block>, i: nat)
    requires Ring(mem, bs) && i < |bs|
    ensures bs[i].addr in mem && mem[bs[i].addr].size == bs[i].size && Around(i, 1, |bs|) < |bs| &&
      mem[bs[i].addr].ptr == bs[Around(i, 1, |bs|)].addr && mem[bs[i].addr].ptr in mem
  {
    RingHas(mem, bs, i);
    RingHas(mem, bs, Around(i, 1, |bs|));
  }

  /** (nbytes + sizeof(Header) - 1) / sizeof(Header) + 1 */
  function UnitsFor(nbytes: nat): (n: nat)
    ensures n > 0 && nbytes <= 16 * (n - 1) < nbytes + 16
  {
    (nbytes + 15) / 16 + 1
  }

  /** What morecore() asks for. */
  function CoreUnits(nunits: nat): nat {
    if nunits < 4096 then 4096 else nunits
  }

  ghost predicate Offers(bs: seq<Block>, nunits: nat) {
    exists j :: 0 <= j < |bs| && bs[j].size >= nunits
  }

  class Heap {
    const base: nat              // the address of the static header
    const limit: nat             // how far sbrk() will go
    var mem: map<nat, Header>
    var ready: bool              // freep != 0
    var freep: nat
    var brk: nat
    ghost var bs: seq<Block>
    ghost var live: map<nat, nat>
    ghost var use: map<nat, Use>
    ghost var at: nat            // where freep is on the list

    ghost predicate Valid()
      reads this
    {
      && base < brk && bs != []
      && (ready ==> Good(mem, bs, base, live, use, brk) && at < |bs| && freep == bs[at].addr)
      && (!ready ==> live == map[] && use == map[] && bs == [Block(base, 0)])
    }

    constructor (base: nat, top: nat, limit: nat)
      requires base < top
      ensures Valid() && live == map[] && use == map[]
    {
      this.base := base;
      this.limit := limit;
      mem := map[];
      ready, freep, brk := false, 0, top;
      bs, live, use, at := [Block(base, 0)], map[], map[], 0;
    }

    /** The search of free(): it stops at the block after which bp belongs. */
    method FindPlace(bp: nat) returns (p: nat, ghost i: nat)
      requires Good(mem, bs, base, live, use, brk) && at < |bs| && freep == bs[at].addr
      requires bp > base && forall k :: 0 <= k < |bs| ==> bs[k].addr != bp
      ensures i < |bs| && p == bs[i].addr && Belongs(bs, i, bp)
    {
      hide Good;
      hide Ring;
      hide Ordered;
      hide Belongs;
      ListFacts(mem, bs, base, live, use, brk);
      ghost var t := Place(bs, base, bp);
      p, i := freep, at;
      NextAddr(mem, bs, i);
      while !(bp > p && bp < mem[p].ptr)
        invariant i < |bs| && p == bs[i].addr && p in mem
        decreases Distance(i, t, |bs|)
      {
        StopTest(bs, base, i, bp);
        NextAddr(mem, bs, i);
        if p >= mem[p].ptr && (bp > p || bp < mem[p].ptr) {
          break;
        }
        p := mem[p].ptr;
        i := Around(i, 1, |bs|);
        NextAddr(mem, bs, i);
      }
      NextAddr(mem, bs, i);
      StopTest(bs, base, i, bp);
    }

    /** The end of free(): the block at bp goes after the one at p, merged with its neighbours. */
    method Link(p: nat, bp: nat)
      requires p in mem && bp in mem && mem[p].ptr in mem && p != bp
      modifies this`mem, this`freep
      ensures mem == Linked(old(mem), p, Block(bp, old(mem[bp].size))) && freep == p
    {
      if bp + mem[bp].size == mem[p].ptr {
        var q := mem[p].ptr;
        mem := mem[bp := Header(mem[q].ptr, mem[bp].size + mem[q].size)];
      } else {
        mem := mem[bp := mem[bp].(ptr := mem[p].ptr)];
      }
      if p + mem[p].size == bp {
        mem := mem[p := Header(mem[bp].ptr, mem[p].size + mem[bp].size)];
      } else {
        mem := mem[p := mem[p].(ptr := bp)];
      }
      freep := p;
    }

    /** free() of the block whose header is at bp, once the books show its units in no use. */
    method PutBack(bp: nat)
      requires ready && Valid() && bp > base && bp in mem && mem[bp].size > 0 && bp + mem[bp].size <= brk && bp !in live
      requires forall x :: x in Units(Block(bp, mem[bp].size)) ==> x !in use
      modifies this
      ensures Valid() && ready && brk == old(brk) && live == old(live)
      ensures use == WithUse(old(use), Block(bp, old(mem[bp].size)), Idle)
      ensures at < |bs| && exists j :: 1 <= j < |bs| && bs[j].size >= old(mem[bp].size)
    {
      hide Good;
      hide Units;
      hide WithUse;
      hide Inserted;
      hide Linked;
      ghost var b := Block(bp, mem[bp].size);
      NotListed(mem, bs, base, live, use, brk, b);
      var p;
      ghost var i;
      p, i := FindPlace(bp);
      GoodInsert(mem, bs, base, live, use, brk, i, b);
      InsertedIndex(mem, bs, base, live, use, brk, i, b);
      Link(p, bp);
      use := WithUse(use, b, Idle);
      bs := Inserted(bs, i, b);
      at := i;
    }

    /** free(): the block's units become free, nothing else changes hands, and no unit is lost. */
    method Free(ap: nat)
      requires ready && Valid() && ap >= 1 && ap - 1 in live
      modifies this
      ensures Valid() && ready && live == old(live) - {ap - 1} && use ==
        WithUse(old(use), Block(ap - 1, old(live)[ap - 1]), Idle)
      ensures use.Keys == old(use).Keys
    {
      hide Good;
      hide Units;
      hide WithUse;
      hide WithoutUse;
      var bp := ap - 1;
      ghost var b := Block(bp, live[bp]);
      GoodDrop(mem, bs, base, live, use, brk, bp);
      UseBack(use, b);
      live := live - {bp};
      use := WithoutUse(use, b);
      PutBack(bp);
    }

    /**
     morecore(): at least 4096 units from sbrk(), put on the list; `gap` is what others have taken meanwhile.  It fails
     exactly if sbrk() has no room for them.
     */
    method Morecore(nunits: nat, gap: nat) returns (ok: bool, ghost got: Block)
      requires ready && Valid()
      modifies this
      ensures Valid() && ready && live == old(live)
      ensures !ok ==> use == old(use) && bs == old(bs) && mem == old(mem) && freep == old(freep) && at == old(at)
      ensures ok <==> old(brk) + gap + CoreUnits(nunits) <= limit
      ensures ok ==> got == Block(old(brk) + gap, CoreUnits(nunits)) && use == WithUse(old(use), got, Idle)
      ensures ok ==> exists j :: 1 <= j < |bs| && bs[j].size >= nunits
      ensures ok ==> forall x :: x in old(use) ==> x < got.addr
    {
      hide Good;
      hide Units;
      hide WithUse;
      UseBelow(mem, bs, base, live, use, brk);
      var nu := CoreUnits(nunits);
      got := Block(brk + gap, nu);
      GoodBreak(mem, bs, base, live, use, brk, brk + gap);
      brk := brk + gap;
      if brk + nu > limit {
        return false, got;
      }
      var hp := brk;
      GoodFresh(mem, bs, base, live, use, brk, nu);
      brk := brk + nu;
      mem := mem[hp := Header(0, nu)];
      PutBack(hp);
      return true, got;
    }

    /** The end of malloc(): n units from the tail of the block at p. */
    method Take(prevp: nat, p: nat, nunits: nat, ghost j: nat) returns (r: nat)
      requires ready && Valid() && 1 <= j < |bs| && p == bs[j].addr && prevp == bs[j - 1].addr &&
        0 < nunits <= bs[j].size
      modifies this
      ensures Valid() && ready && r >= 1 && r - 1 !in old(live) && live == old(live)[r - 1 := nunits]
      ensures use == WithUse(old(use), Block(r - 1, nunits), Live(r - 1)) && use.Keys == old(use).Keys
      ensures forall x: nat :: r - 1 <= x < r - 1 + nunits ==> x in old(use) && old(use)[x].Idle?
    {
      hide Good;
      hide WithUse;
      hide Units;
      hide Cut;
      GoodCut(mem, bs, base, live, use, brk, j, nunits);
      CutIdle(mem, bs, base, live, use, brk, j, nunits);
      ghost var mem0, a := mem, End(bs[j]) - nunits;
      var q := p;
      if mem[p].size == nunits {
        mem := mem[prevp := mem[prevp].(ptr := mem[p].ptr)];
      } else {
        mem := mem[p := mem[p].(size := mem[p].size - nunits)];
        q := p + mem[p].size;
        mem := mem[q := Header(if q in mem then mem[q].ptr else 0, nunits)];
      }
      freep := prevp;
      at := j - 1;
      CutKeeps(bs, j, nunits);
      bs := Cut(bs, j, nunits);
      live := live[a := nunits];
      use := WithUse(use, Block(a, nunits), Live(a));
      return q + 1;
    }

    /** The first call of malloc() sets up the list with `base` alone. */
    method Setup()
      requires Valid()
      modifies this
      ensures Valid() && ready && live == old(live) && use == old(use) && brk == old(brk) && bs == old(bs)
    {
      if !ready {
        mem := mem[base := Header(base, 0)];
        freep, ready := base, true;
        bs, at := [Block(base, 0)], 0;
      }
    }

    /**
     malloc(): null and nothing changes hands, or a block that was free or comes fresh from sbrk(), is large
     enough, and now belongs to the caller alone.  The search ends: after morecore() it finds a block.  The result is
     null exactly if every free block is too small and sbrk() has no room.
     */
    method Malloc(nbytes: nat, gap: nat) returns (r: nat)
      requires Valid() && 16 * UnitsFor(nbytes) < 0x8000_0000
      modifies this
      ensures Valid() && ready
      ensures r == 0 <==> !Offers(old(bs), UnitsFor(nbytes)) && old(brk) + gap + CoreUnits(UnitsFor(nbytes)) > limit
      ensures r == 0 ==> live == old(live) && use == old(use)
      ensures r != 0 ==> r - 1 !in old(live) && live == old(live)[r - 1 := UnitsFor(nbytes)]
      ensures r != 0 ==> Obtained(old(use), use, old(brk), Block(r - 1, UnitsFor(nbytes)))
    {
      hide Good;
      hide WithUse;
      hide Units;
      hide Ring;
      hide Ordered;
      hide Passed;
      hide Grew;
      hide Obtained;
      hide CoreUnits;
      hide Offers;
      hide Around;
      var nunits := UnitsFor(nbytes);
      Setup();
      ghost var use0, brk0 := use, brk;
      ghost var t, grown := 0, false;
      ListFacts(mem, bs, base, live, use, brk);
      NextAddr(mem, bs, at);
      var prevp := freep;
      var p := mem[prevp].ptr;
      GrewNone(use, brk);
      PassedNone(bs, at, nunits);
      while true
        invariant ready && Valid() && live == old(live) && 0 < nunits && t < |bs| && Passed(bs, at, nunits, t)
        invariant prevp == bs[Around(at, t, |bs|)].addr && p == bs[Around(at, t + 1, |bs|)].addr && p in mem
        invariant Grew(use0, use, brk0) && (!grown ==> use == use0 && brk == brk0)
        invariant !grown ==> bs == old(bs)
        invariant grown ==> brk0 + gap + CoreUnits(nunits) <= limit
        invariant grown ==> exists j :: 1 <= j < |bs| && bs[j].size >= nunits
        decreases if grown then 0 else 1, |bs| - t
      {
        ListFacts(mem, bs, base, live, use, brk);
        ghost var j := Around(at, t + 1, |bs|);
        NextAddr(mem, bs, j);
        if mem[p].size >= nunits {
          AroundBack(at, t, |bs|);
          OffersOne(bs, j, nunits);
          ghost var use1 := use;
          r := Take(prevp, p, nunits, j);
          GrewTake(use0, use1, use, brk0, Block(r - 1, nunits));
          return;
        }
        PassedMore(bs, at, nunits, t);
        if p == freep {
          FullCircle(bs, base, at, t);
          NoneFits(bs, at, nunits);
          OffersNone(bs, nunits);
          ghost var use1 := use;
          var ok;
          ghost var got;
          ok, got := Morecore(nunits, gap);
          if !ok {
            return 0;
          }
          GrewMore(use0, use1, use, brk0, got);
          p := freep;
          PassedNone(bs, at, nunits);
          grown, t := true, 0;
        } else {
          FullCircle(bs, base, at, t);
          t := t + 1;
        }
        ListFacts(mem, bs, base, live, use, brk);
        NextAddr(mem, bs, Around(at, t, |bs|));
        AroundNext(at, t, |bs|);
        prevp := p;
        p := mem[p].ptr;
      }
    }
  }

  /** From one state to a later one memory has only come in from sbrk(), free. */
  ghost predicate Grew(use: map<nat, Use>, use': map<nat, Use>, brk: nat)
  {
    && (forall x :: x in use ==> x in use' && use'[x] == use[x])
    && (forall x :: x in use' && x !in use ==> x >= brk && use'[x].Idle?)
  }

  /** Block b was free or is fresh, is now live, and nothing else has changed hands. */
  ghost predicate Obtained(use: map<nat, Use>, use': map<nat, Use>, brk: nat, b: Block)
  {
    && (forall x: nat :: b.addr <= x < End(b) ==>
       x in use' && use'[x] == Live(b.addr) && (x in use ==> use[x].Idle?) && (x !in use ==> x >= brk))
    && (forall x :: x in use && !(b.addr <= x < End(b)) ==> x in use' && use'[x] == use[x])
    && (forall x :: x in use' && x !in use && !(b.addr <= x < End(b)) ==> x >= brk && use'[x].Idle?)
  }

  lemma UseBelow(mem: map<nat, Header>, bs: seq<Block>, base: nat, live: map<nat, nat>, use: map<nat, Use>, brk: nat)
    requires Good(mem, bs, base, live, use, brk)
    ensures forall x :: x in use ==> x < brk
  {
    hide Ring;
    hide Ordered;
    hide Accounted;
    hide Held;
  }

  lemma ListFacts(mem: map<nat, Header>, bs: seq<Block>, base: nat, live: map<nat, nat>, use: map<nat, Use>, brk: nat)
    requires Good(mem, bs, base, live, use, brk)
    ensures Ring(mem, bs) && Ordered(bs, base) && bs[0].size == 0
  {
    hide Accounted;
    hide Held;
  }

  /** A scan from block f on has passed t blocks that are all too small. */
  ghost predicate Passed(bs: seq<Block>, f: nat, nunits: nat, t: nat)
  {
    f < |bs| && t <= |bs| && forall u :: 1 <= u <= t ==> bs[Around(f, u, |bs|)].size < nunits
  }

  lemma PassedNone(bs: seq<Block>, f: nat, nunits: nat)
    requires f < |bs|
    ensures Passed(bs, f, nunits, 0)
  {
  }

  lemma PassedMore(bs: seq<Block>, f: nat, nunits: nat, t: nat)
    requires Passed(bs, f, nunits, t) && t < |bs| && bs[Around(f, t + 1, |bs|)].size < nunits
    ensures Passed(bs, f, nunits, t + 1)
  {
  }

  lemma AroundNext(f: nat, t: nat, n: nat)
    requires f < n && t < n
    ensures Around(f, t + 1, n) == Around(Around(f, t, n), 1, n)
  {
  }

  lemma AroundBack(f: nat, t: nat, n: nat)
    requires f < n && t < n
    ensures Around(f, t + 1, n) >= 1 ==> Around(f, t, n) == Around(f, t + 1, n) - 1
  {
  }

  /** The scan is back at its start exactly after as many steps as there are blocks. */
  lemma FullCircle(bs: seq<Block>, base: nat, f: nat, t: nat)
    requires Ordered(bs, base) && f < |bs| && t < |bs|
    ensures Around(f, t + 1, |bs|) < |bs| && (bs[Around(f, t + 1, |bs|)].addr == bs[f].addr <==> t + 1 == |bs|)
  {
    var j := Around(f, t + 1, |bs|);
    if j != f {
      Addresses(bs, base, j, f);
    }
  }

  lemma NoneFits(bs: seq<Block>, f: nat, nunits: nat)
    requires Passed(bs, f, nunits, |bs|)
    ensures forall j :: 0 <= j < |bs| ==> bs[j].size < nunits
  {
    forall j | 0 <= j < |bs| ensures bs[j].size < nunits {
      var u := if j > f then j - f else j + |bs| - f;
      assert Around(f, u, |bs|) == j;
    }
  }

  lemma OffersOne(bs: seq<Block>, j: nat, nunits: nat)
    requires j < |bs| && bs[j].size >= nunits
    ensures Offers(bs, nunits)
  {
  }

  lemma OffersNone(bs: seq<Block>, nunits: nat)
    requires forall j :: 0 <= j < |bs| ==> bs[j].size < nunits
    ensures !Offers(bs, nunits)
  {
  }

  lemma GrewTake(use: map<nat, Use>, use1: map<nat, Use>, use2: map<nat, Use>, brk: nat, b: Block)
    requires Grew(use, use1, brk) && use2 == WithUse(use1, b, Live(b.addr))
    requires forall x: nat :: b.addr <= x < End(b) ==> x in use1 && use1[x].Idle?
    ensures Obtained(use, use2, brk, b)
  {
    hide Units;
  }

  lemma GrewMore(use: map<nat, Use>, use1: map<nat, Use>, use2: map<nat, Use>, brk: nat, got: Block)
    requires Grew(use, use1, brk) && use2 == WithUse(use1, got, Idle) && got.addr >= brk && forall x :: x in use1 ==>
      x < got.addr
    ensures Grew(use, use2, brk)
  {
    hide Units;
  }

  lemma GrewNone(use: map<nat, Use>, brk: nat)
    ensures Grew(use, use, brk)
  {
  }

  lemma CutKeeps(bs: seq<Block>, j: nat, n: nat)
    requires 1 <= j < |bs|
    ensures j - 1 < |Cut(bs, j, n)| && Cut(bs, j, n)[j - 1] == bs[j - 1]
  {
  }

  lemma CutIdle(mem: map<nat, Header>, bs: seq<Block>, base: nat, live: map<nat, nat>, use: map<nat, Use>, brk: nat,
    j: nat, n: nat)
    requires Good(mem, bs, base, live, use, brk) && 1 <= j < |bs| && 0 < n <= bs[j].size
    ensures var a := End(bs[j]) - n; forall x: nat :: a <= x < a + n ==> x in use && use[x].Idle?
    ensures var a := End(bs[j]) - n; WithUse(use, Block(a, n), Live(a)).Keys == use.Keys
  {
    hide Ring;
    hide Units;
    var a := End(bs[j]) - n;
    forall x: nat | a <= x < a + n ensures x in use && use[x].Idle? {
      CutUnits(bs, live, use, j, n, x);
    }
  }

  lemma GoodDrop(mem: map<nat, Header>, bs: seq<Block>, base: nat, live: map<nat, nat>, use: map<nat, Use>, brk: nat,
    a: nat)
    requires Good(mem, bs, base, live, use, brk) && a in live
    ensures a > base && a in mem && mem[a].size == live[a] > 0 && a + live[a] <= brk
    ensures Good(mem, bs, base, live - {a}, WithoutUse(use, Block(a, live[a])), brk)
    ensures forall x :: x in Units(Block(a, live[a])) ==> x in use && x !in WithoutUse(use, Block(a, live[a]))
  {
    hide Units;
    hide Ring;
    hide Ordered;
    hide FreeUse;
    AccountedDrop(bs, live, use, a);
    assert forall x: nat :: a <= x < a + live[a] ==> x in use;
    assert a + live[a] - 1 in use;
  }

  /** Off the books and back on as free is a change of use. */
  lemma UseBack(use: map<nat, Use>, b: Block)
    requires forall x :: x in Units(b) ==> x in use
    ensures WithUse(WithoutUse(use, b), b, Idle) == WithUse(use, b, Idle) && WithUse(use, b, Idle).Keys == use.Keys
  {
    hide Units;
  }

  lemma GoodBreak(mem: map<nat, Header>, bs: seq<Block>, base: nat, live: map<nat, nat>, use: map<nat, Use>, brk: nat,
    brk': nat)
    requires Good(mem, bs, base, live, use, brk) && brk <= brk'
    ensures Good(mem, bs, base, live, use, brk')
  {
    hide Ring;
    hide Ordered;
    hide Accounted;
    hide Held;
  }

  lemma RingFrame(mem: map<nat, Header>, mem': map<nat, Header>, bs: seq<Block>)
    requires Ring(mem, bs) && forall k :: 0 <= k < |bs| ==> bs[k].addr in mem' && mem'[bs[k].addr] == mem[bs[k].addr]
    ensures Ring(mem', bs)
  {
  }

  lemma FreshOff(mem: map<nat, Header>, bs: seq<Block>, base: nat, live: map<nat, nat>, use: map<nat, Use>, brk: nat)
    requires Good(mem, bs, base, live, use, brk)
    ensures forall k :: 0 <= k < |bs| ==> bs[k].addr in mem && bs[k].addr != brk
    ensures forall a :: a in live ==> a != brk
  {
    forall k | 0 <= k < |bs| ensures bs[k].addr in mem && bs[k].addr != brk {
      assert k >= 1 ==> InFree(bs, bs[k].addr);
    }
    forall a | a in live ensures a != brk {
      assert a in use && use[a] == Live(a);
    }
  }

  /** Memory from sbrk() is in no use and holds no header. */
  lemma GoodFresh(mem: map<nat, Header>, bs: seq<Block>, base: nat, live: map<nat, nat>, use: map<nat, Use>, brk: nat,
    n: nat)
    requires Good(mem, bs, base, live, use, brk) && n > 0
    ensures Good(mem[brk := Header(0, n)], bs, base, live, use, brk + n) && brk > base && brk !in live
    ensures forall x :: x in Units(Block(brk, n)) ==> x !in use
  {
    hide Units;
    hide Ring;
    hide Ordered;
    hide Accounted;
    FreshOff(mem, bs, base, live, use, brk);
    RingFrame(mem, mem[brk := Header(0, n)], bs);
    HeldFrame(mem, mem[brk := Header(0, n)], live, base);
  }

  lemma NotListed(mem: map<nat, Header>, bs: seq<Block>, base: nat, live: map<nat, nat>, use: map<nat, Use>, brk: nat,
    b: Block)
    requires Good(mem, bs, base, live, use, brk) && b.addr > base && b.size > 0
    requires forall x :: x in Units(b) ==> x !in use
    ensures forall k :: 0 <= k < |bs| ==> bs[k].addr != b.addr
  {
    hide Units;
    hide Ring;
    assert b.addr in Units(b);
    forall k | 0 <= k < |bs| ensures bs[k].addr != b.addr {
      assert k >= 1 ==> InFree(bs, bs[k].addr);
    }
  }

  /** Block i keeps its place, and the list now has a block at least as large as b. */
  lemma InsertedIndex(mem: map<nat, Header>, bs: seq<Block>, base: nat, live: map<nat, nat>, use: map<nat, Use>,
    brk: nat, i: nat, b: Block)
    requires Good(mem, bs, base, live, use, brk) && i < |bs| && Belongs(bs, i, b.addr) && b.size > 0
    ensures i < |Inserted(bs, i, b)| && Inserted(bs, i, b)[i].addr == bs[i].addr
    ensures var r := Inserted(bs, i, b); exists j :: 1 <= j < |r| && r[j].size >= b.size
  {
    hide Splice;
    hide Ring;
    hide Accounted;
    var r, lo := Inserted(bs, i, b), Low(bs, i, b);
    assert Spliced(r, bs, lo, Merged(bs, i, b), Skip(bs, i, b));
    assert r[lo] == Merged(bs, i, b) && lo >= 1;
    assert lo == i + 1 ==> r[i] == bs[i];
  }
}

/**
 Which slot of which inode owns a data block: the twelve direct entries, the indirect pointer and the 256
 entries of the indirect block.
 */
module Ownership {
  import opened Prelude
  import opened FsFormat
  import opened Bitmap

  datatype Node = Node(size: nat, addrs: seq<nat>)

  type Inode = n: Node | |n.addrs| == NDIRECT + 1 && (forall k :: 0 <= k <= NDIRECT ==> n.addrs[k] < UINT)
    witness Node(0, seq(NDIRECT + 1, _ => 0))

  type Nodes = map<nat, Inode>

  /** A slot that can hold a block number: the k-th block of a file, or its indirect pointer. */
  datatype Slot = Data(inum: nat, k: nat) | Indirect(inum: nat)

  /** The block number of the k-th block of a file, or 0. */
  function Addr(d: Image, n: Inode, k: nat): (a: nat)
    requires k < MAXFILE
    ensures a < UINT
  {
    if k < NDIRECT then n.addrs[k]
    else if n.addrs[NDIRECT] != 0 && n.addrs[NDIRECT] in d then Word(d[n.addrs[NDIRECT]], k - NDIRECT)
    else 0
  }

  ghost predicate Points(owner: map<nat, Slot>, b: nat, slot: Slot) {
    b in owner && owner[b] == slot
  }

  /** Blocks below the data area and blocks with an owner are marked used; owners lie in the data area. */
  ghost predicate MarksOk(g: Super, d: Image, owner: map<nat, Slot>)
  {
    && (forall b: nat :: b < g.datastart ==> IsUsed(g, d, b))
    && (forall b :: b in owner ==> g.datastart <= b < g.size && IsUsed(g, d, b))
  }

  /** Every slot that holds a block number is the owner of that block. */
  ghost predicate SlotsOk(d: Image, nodes: Nodes, owner: map<nat, Slot>)
  {
    && (forall i, k :: i in nodes && 0 <= k < MAXFILE && Addr(d, nodes[i], k) != 0 ==>
       Points(owner, Addr(d, nodes[i], k), Data(i, k)))
    && (forall i :: i in nodes && nodes[i].addrs[NDIRECT] != 0 ==> Points(owner, nodes[i].addrs[NDIRECT], Indirect(i)))
  }

  ghost predicate Owned(g: Super, d: Image, nodes: Nodes, owner: map<nat, Slot>)
  {
    g.Valid() && Whole(g, d) && MarksOk(g, d, owner) && SlotsOk(d, nodes, owner)
  }

  /** No block is referenced by two slots, and every referenced block is a used data block. */
  lemma Exclusive(g: Super, d: Image, nodes: Nodes, owner: map<nat, Slot>, i: nat, k: nat, j: nat, l: nat)
    requires Owned(g, d, nodes, owner) && i in nodes && j in nodes && k < MAXFILE && l < MAXFILE &&
      Addr(d, nodes[i], k) != 0
    ensures g.datastart <= Addr(d, nodes[i], k) < g.size && IsUsed(g, d, Addr(d, nodes[i], k))
    ensures Addr(d, nodes[i], k) == Addr(d, nodes[j], l) ==> i == j && k == l
    ensures Addr(d, nodes[i], k) != nodes[j].addrs[NDIRECT]
    ensures nodes[i].addrs[NDIRECT] != 0 && nodes[i].addrs[NDIRECT] == nodes[j].addrs[NDIRECT] ==> i == j
  {
    hide IsUsed;
    hide Addr;
  }

  /** The same references in two images. */
  ghost predicate SameAddrs(d: Image, d': Image, nodes: Nodes)
  {
    forall i, k :: i in nodes && 0 <= k < MAXFILE ==> Addr(d', nodes[i], k) == Addr(d, nodes[i], k)
  }

  lemma AddrsFrame(d: Image, d': Image, nodes: Nodes)
    requires forall i :: i in nodes && nodes[i].addrs[NDIRECT] != 0 ==>
               var b := nodes[i].addrs[NDIRECT]; (b in d <==> b in d') && (b in d ==> d'[b] == d[b])
    ensures SameAddrs(d, d', nodes)
  {
    hide Word;
  }

  lemma SlotsFrame(d: Image, d': Image, nodes: Nodes, owner: map<nat, Slot>)
    requires SlotsOk(d, nodes, owner) && SameAddrs(d, d', nodes)
    ensures SlotsOk(d', nodes, owner)
  {
    hide Addr;
  }

  // ---- taking and giving back a block ----

  function Allocated(g: Super, d: Image, b: nat): Image
    requires MapBlock(g, b) in d && !IsUsed(g, d, b)
  {
    Marked(g, d, b)[b := Zeroes()]
  }

  lemma AllocatedMarks(g: Super, d: Image, owner: map<nat, Slot>, b: nat)
    requires g.Valid() && Whole(g, d) && MarksOk(g, d, owner) && b < g.size && !IsUsed(g, d, b)
    ensures MapBlock(g, b) in d && g.datastart <= b && b !in owner
    ensures Whole(g, Allocated(g, d, b)) && MarksOk(g, Allocated(g, d, b), owner)
    ensures forall x: nat :: x < g.size ==> (IsUsed(g, Allocated(g, d, b), x) <==> x == b || IsUsed(g, d, x))
  {
    hide IsUsed;
    hide Marked;
    MapBlockBelow(g, b);
    var d1, d' := Marked(g, d, b), Allocated(g, d, b);
    forall x: nat | x < g.size ensures IsUsed(g, d', x) <==> x == b || IsUsed(g, d, x) {
      MarkedIs(g, d, b, x);
      MapFrame(g, d1, b, Zeroes(), x);
    }
    MarkedKeys(g, d, b);
  }

  lemma MarkedKeys(g: Super, d: Image, b: nat)
    requires MapBlock(g, b) in d && !IsUsed(g, d, b)
    ensures Marked(g, d, b).Keys == d.Keys && forall x :: x in d && x != MapBlock(g, b) ==> Marked(g, d, b)[x] == d[x]
  {
  }

  /** balloc() gives a block that nobody owns, and disturbs no reference. */
  lemma AllocatedOwned(g: Super, d: Image, nodes: Nodes, owner: map<nat, Slot>, b: nat)
    requires Owned(g, d, nodes, owner) && b < g.size && !IsUsed(g, d, b)
    ensures MapBlock(g, b) in d && g.datastart <= b && b !in owner
    ensures Owned(g, Allocated(g, d, b), nodes, owner) && SameAddrs(d, Allocated(g, d, b), nodes)
    ensures forall x: nat :: x < g.size ==> (IsUsed(g, Allocated(g, d, b), x) <==> x == b || IsUsed(g, d, x))
  {
    hide IsUsed;
    hide Addr;
    hide Marked;
    AllocatedMarks(g, d, owner, b);
    MapBlockBelow(g, b);
    MarkedKeys(g, d, b);
    AddrsFrame(d, Allocated(g, d, b), nodes);
    SlotsFrame(d, Allocated(g, d, b), nodes, owner);
  }

  /** Allocation touches the bit map and the new block only. */
  lemma AllocatedContents(g: Super, d: Image, owner: map<nat, Slot>, b: nat)
    requires g.Valid() && Whole(g, d) && MarksOk(g, d, owner) && b < g.size && !IsUsed(g, d, b) && MapBlock(g, b) in d
    ensures forall x :: x in owner ==> x in d && x in Allocated(g, d, b) && Allocated(g, d, b)[x] == d[x]
    ensures b in Allocated(g, d, b) && Allocated(g, d, b)[b] == Zeroes()
  {
    hide IsUsed;
    hide Marked;
    MapBlockBelow(g, b);
    MarkedKeys(g, d, b);
  }

  lemma UnmarkedKeys(g: Super, d: Image, b: nat)
    requires IsUsed(g, d, b)
    ensures Unmarked(g, d, b).Keys == d.Keys && forall x :: x in d && x != MapBlock(g, b) ==>
      Unmarked(g, d, b)[x] == d[x]
  {
  }

  /** Giving back a block that no slot holds disturbs nothing. */
  lemma UnmarkedOwned(g: Super, d: Image, nodes: Nodes, owner: map<nat, Slot>, b: nat)
    requires Owned(g, d, nodes, owner) && g.datastart <= b < g.size && b !in owner && IsUsed(g, d, b)
    ensures Owned(g, Unmarked(g, d, b), nodes, owner) && SameAddrs(d, Unmarked(g, d, b), nodes)
  {
    hide IsUsed;
    hide Addr;
    hide Unmarked;
    MapBlockBelow(g, b);
    UnmarkedKeys(g, d, b);
    forall x: nat | x < g.size ensures IsUsed(g, Unmarked(g, d, b), x) <==> x != b && IsUsed(g, d, x) {
      UnmarkedIs(g, d, b, x);
    }
    AddrsFrame(d, Unmarked(g, d, b), nodes);
    SlotsFrame(d, Unmarked(g, d, b), nodes, owner);
  }

  // ---- writing a data block ----

  /** A block owned as file data can be overwritten without disturbing any reference. */
  lemma DataOwned(g: Super, d: Image, nodes: Nodes, owner: map<nat, Slot>, b: nat, data: Sector)
    requires Owned(g, d, nodes, owner) && b in owner && owner[b].Data?
    ensures Owned(g, d[b := data], nodes, owner) && SameAddrs(d, d[b := data], nodes)
  {
    hide IsUsed;
    hide Addr;
    var d' := d[b := data];
    forall x: nat | x < g.size ensures IsUsed(g, d', x) <==> IsUsed(g, d, x) {
      MapFrame(g, d, b, data, x);
    }
    AddrsFrame(d, d', nodes);
    SlotsFrame(d, d', nodes, owner);
  }

  // ---- filling and emptying a slot ----

  function WithAddr(n: Inode, k: nat, b: nat): (n': Inode)
    requires k <= NDIRECT && b < UINT
  {
    n.(addrs := n.addrs[k := b])
  }

  /** Only the k-th block of file i has a new number, b. */
  ghost predicate OnlyAddr(d: Image, nodes: Nodes, d': Image, nodes': Nodes, i: nat, k: nat, b: nat)
  {
    && nodes'.Keys == nodes.Keys
    && (forall j, l :: j in nodes && 0 <= l < MAXFILE ==>
       Addr(d', nodes'[j], l) == if j == i && l == k then b else Addr(d, nodes[j], l))
    && (forall j :: j in nodes ==>
       nodes'[j].addrs[NDIRECT] == nodes[j].addrs[NDIRECT] && nodes'[j].size == nodes[j].size)
  }

  /** A block in the data area that is marked and has no owner, as balloc() leaves it. */
  ghost predicate Spare(g: Super, d: Image, owner: map<nat, Slot>, b: nat)
  {
    g.datastart <= b < g.size && IsUsed(g, d, b) && b !in owner && b in d && d[b] == Zeroes()
  }

  lemma SlotsPut(d: Image, nodes: Nodes, d': Image, nodes': Nodes, owner: map<nat, Slot>, i: nat, k: nat, b: nat)
    requires SlotsOk(d, nodes, owner) && i in nodes && k < MAXFILE && OnlyAddr(d, nodes, d', nodes', i, k, b) &&
      b !in owner
    ensures SlotsOk(d', nodes', owner[b := Data(i, k)])
  {
    hide Addr;
  }

  lemma PutDirect(g: Super, d: Image, nodes: Nodes, owner: map<nat, Slot>, i: nat, k: nat, b: nat)
    requires Owned(g, d, nodes, owner) && i in nodes && k < NDIRECT && Spare(g, d, owner, b)
    ensures var nodes' := nodes[i := WithAddr(nodes[i], k, b)];
            Owned(g, d, nodes', owner[b := Data(i, k)]) && OnlyAddr(d, nodes, d, nodes', i, k, b)
  {
    hide IsUsed;
    hide Word;
    var nodes' := nodes[i := WithAddr(nodes[i], k, b)];
    assert OnlyAddr(d, nodes, d, nodes', i, k, b);
    SlotsPut(d, nodes, d, nodes', owner, i, k, b);
  }

  /** A fresh indirect block is all zeroes, so it brings no references. */
  lemma PutIndirect(g: Super, d: Image, nodes: Nodes, owner: map<nat, Slot>, i: nat, b: nat)
    requires Owned(g, d, nodes, owner) && i in nodes && nodes[i].addrs[NDIRECT] == 0 && Spare(g, d, owner, b)
    ensures var nodes' := nodes[i := WithAddr(nodes[i], NDIRECT, b)];
            && Owned(g, d, nodes', owner[b := Indirect(i)])
            && (forall j, l :: j in nodes && 0 <= l < MAXFILE ==> Addr(d, nodes'[j], l) == Addr(d, nodes[j], l))
  {
    hide IsUsed;
    hide Word;
    var nodes' := nodes[i := WithAddr(nodes[i], NDIRECT, b)];
    forall j, l | j in nodes && 0 <= l < MAXFILE ensures Addr(d, nodes'[j], l) == Addr(d, nodes[j], l) {
      if j == i && l >= NDIRECT {
        ZeroWord(l - NDIRECT);
      }
    }
  }

  lemma PutEntry(g: Super, d: Image, nodes: Nodes, owner: map<nat, Slot>, i: nat, j: nat, b: nat)
    requires Owned(g, d, nodes, owner) && i in nodes && j < NINDIRECT && nodes[i].addrs[NDIRECT] != 0 &&
      Spare(g, d, owner, b)
    ensures nodes[i].addrs[NDIRECT] in d
    ensures var ind := nodes[i].addrs[NDIRECT];
            var d' := d[ind := WithWord(d[ind], j, b)];
            Owned(g, d', nodes, owner[b := Data(i, NDIRECT + j)]) && OnlyAddr(d, nodes, d', nodes, i, NDIRECT + j, b)
  {
    hide IsUsed;
    hide Word;
    hide WithWord;
    var ind := nodes[i].addrs[NDIRECT];
    var d' := d[ind := WithWord(d[ind], j, b)];
    forall x: nat | x < g.size ensures IsUsed(g, d', x) <==> IsUsed(g, d, x) {
      MapFrame(g, d, ind, WithWord(d[ind], j, b), x);
    }
    forall m, l | m in nodes && 0 <= l < MAXFILE
      ensures Addr(d', nodes[m], l) == if m == i && l == NDIRECT + j then b else Addr(d, nodes[m], l)
    {
      if m == i && l >= NDIRECT {
        WordStored(d[ind], j, b, l - NDIRECT);
      }
    }
    SlotsPut(d, nodes, d', nodes, owner, i, NDIRECT + j, b);
  }

  /** Emptying a direct slot leaves its block without an owner. */
  lemma DropDirect(g: Super, d: Image, nodes: Nodes, owner: map<nat, Slot>, i: nat, k: nat)
    requires Owned(g, d, nodes, owner) && i in nodes && k < NDIRECT && nodes[i].addrs[k] != 0
    ensures var nodes' := nodes[i := WithAddr(nodes[i], k, 0)];
            Owned(g, d, nodes', owner - {nodes[i].addrs[k]}) && OnlyAddr(d, nodes, d, nodes', i, k, 0)
  {
    hide IsUsed;
    hide Word;
    var nodes' := nodes[i := WithAddr(nodes[i], k, 0)];
    assert Addr(d, nodes[i], k) == nodes[i].addrs[k];
    assert OnlyAddr(d, nodes, d, nodes', i, k, 0);
    SlotsDrop(d, nodes, nodes', owner, i, k);
  }

  lemma SlotsDrop(d: Image, nodes: Nodes, nodes': Nodes, owner: map<nat, Slot>, i: nat, k: nat)
    requires SlotsOk(d, nodes, owner) && i in nodes && k < MAXFILE && Addr(d, nodes[i], k) != 0 &&
      OnlyAddr(d, nodes, d, nodes', i, k, 0)
    ensures SlotsOk(d, nodes', owner - {Addr(d, nodes[i], k)})
  {
    hide Addr;
  }

  /** The block numbers among the first j entries of an indirect block, and among the first k direct ones. */
  ghost function Entries(b: Sector, j: nat): set<nat>
    requires j <= NINDIRECT
  {
    set m | 0 <= m < j && Word(b, m) != 0 :: Word(b, m)
  }

  ghost function Directs(n: Inode, k: nat): set<nat>
    requires k <= NDIRECT
  {
    set m | 0 <= m < k && n.addrs[m] != 0 :: n.addrs[m]
  }

  /** The slots of file i that hang on its indirect pointer. */
  predicate InTail(slot: Slot, i: nat) {
    slot.inum == i && (slot.Data? ==> slot.k >= NDIRECT)
  }

  /** Without its indirect pointer a file holds neither the indirect block nor the blocks listed there. */
  lemma DropIndirect(g: Super, d: Image, nodes: Nodes, owner: map<nat, Slot>, i: nat)
    requires Owned(g, d, nodes, owner) && i in nodes && nodes[i].addrs[NDIRECT] != 0
    ensures nodes[i].addrs[NDIRECT] in d
    ensures var ind := nodes[i].addrs[NDIRECT];
            Owned(g, d, nodes[i := WithAddr(nodes[i], NDIRECT, 0)], owner - (Entries(d[ind], NINDIRECT) + {ind}))
  {
    hide IsUsed;
    hide Word;
    var ind := nodes[i].addrs[NDIRECT];
    assert Points(owner, ind, Indirect(i));
    var nodes' := nodes[i := WithAddr(nodes[i], NDIRECT, 0)];
    var gone := Entries(d[ind], NINDIRECT) + {ind};
    forall x | x in gone ensures x in owner && InTail(owner[x], i) {
      if x != ind {
        var m :| 0 <= m < NINDIRECT && Word(d[ind], m) != 0 && x == Word(d[ind], m);
        assert Addr(d, nodes[i], NDIRECT + m) == x;
        assert Points(owner, x, Data(i, NDIRECT + m));
      }
    }
    forall j, l | j in nodes' && 0 <= l < MAXFILE && Addr(d, nodes'[j], l) != 0
      ensures Points(owner - gone, Addr(d, nodes'[j], l), Data(j, l))
    {
      assert Addr(d, nodes'[j], l) == Addr(d, nodes[j], l);
    }
  }

  /** Exactly the bits of the blocks `gone` have been cleared, and no data block has changed. */
  ghost predicate Freed(g: Super, d: Image, d': Image, gone: set<nat>)
  {
    && (forall x: nat :: x < g.size ==> (IsUsed(g, d', x) <==> IsUsed(g, d, x) && x !in gone))
    && (forall x :: x in d ==> x in d') && (forall x :: x in d && x >= g.datastart ==> d'[x] == d[x])
  }

  lemma FreedOne(g: Super, d: Image, d': Image, gone: set<nat>, b: nat)
    requires g.Valid() && b < g.size && Freed(g, d, d', gone) && IsUsed(g, d', b)
    ensures Freed(g, d, Unmarked(g, d', b), gone + {b})
  {
    hide IsUsed;
    hide Unmarked;
    UnmarkedKeys(g, d', b);
    MapBlockBelow(g, b);
    forall x: nat | x < g.size ensures IsUsed(g, Unmarked(g, d', b), x) <==> x != b && IsUsed(g, d', x) {
      UnmarkedIs(g, d', b, x);
    }
  }
}

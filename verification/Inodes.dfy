/**
 The inode layer: allocating and freeing blocks, mapping file blocks to disk blocks, truncating, reading
 and writing.  The disk is the logical disk that the buffer cache and the log present.
 */
module Inodes {
  import opened Prelude
  import opened FsFormat
  import opened Bitmap
  import opened Ownership
  import opened Dinodes

  /** Bit bi of the map block for b is the bit of block b + bi. */
  lemma BitOf(g: Super, d: Image, b: nat, bi: nat)
    requires b % BPB == 0 && bi < BPB && MapBlock(g, b) in d
    ensures MapBlock(g, b + bi) == MapBlock(g, b) && bi / 8 < BSIZE && (b + bi) % BPB == bi && (b + bi) % 8 == bi % 8
    ensures IsUsed(g, d, b + bi) <==> Bit(d[MapBlock(g, b)][bi / 8], bi % 8)
  {
    hide Bit;
    var q := b / BPB;
    assert b == BPB * q;
    Position(b + bi);
    Quotient(q, bi);
    Remainder(BPB / 8 * q + bi / 8, bi % 8);
  }

  lemma Quotient(q: nat, r: nat)
    requires r < BPB
    ensures (BPB * q + r) / BPB == q && (BPB * q + r) % BPB == r
  {
  }

  /** The effect of bmap(): file block k of inode i has a number, and a new block is zeroed and its own. */
  ghost predicate Mapping(d: Image, nodes: Nodes, owner: map<nat, Slot>, d': Image, nodes': Nodes,
    owner': map<nat, Slot>, i: nat, k: nat)
    requires i in nodes && k < MAXFILE
  {
    && nodes'.Keys == nodes.Keys
    && Addr(d', nodes'[i], k) != 0
    && (Addr(d, nodes[i], k) != 0 ==> d' == d && nodes' == nodes && owner' == owner)
    && (Addr(d, nodes[i], k) == 0 ==>
          var a := Addr(d', nodes'[i], k);
          a !in owner && a in d' && d'[a] == Zeroes())
    && (forall j, l :: j in nodes && 0 <= l < MAXFILE && !(j == i && l == k) ==>
       Addr(d', nodes'[j], l) == Addr(d, nodes[j], l))
    && (forall j :: j in nodes ==> nodes'[j].size == nodes[j].size)
    && KeepsData(d, owner, d', owner')
  }

  /** Every file block keeps its number, and every file its size. */
  ghost predicate Kept(d: Image, nodes: Nodes, d': Image, nodes': Nodes)
  {
    && nodes'.Keys == nodes.Keys
    && (forall j, l :: j in nodes && 0 <= l < MAXFILE ==> Addr(d', nodes'[j], l) == Addr(d, nodes[j], l))
    && (forall j :: j in nodes ==> nodes'[j].size == nodes[j].size)
  }

  /** Nothing is lost: owners stay, and data blocks keep their contents. */
  ghost predicate KeepsData(d: Image, owner: map<nat, Slot>, d': Image, owner': map<nat, Slot>)
  {
    && (forall x :: x in owner ==> x in owner' && owner'[x] == owner[x])
    && (forall x :: x in owner && owner[x].Data? ==> x in d && x in d' && d'[x] == d[x])
  }

  lemma KeepsTrans(d: Image, owner: map<nat, Slot>, d1: Image, owner1: map<nat, Slot>, d2: Image,
    owner2: map<nat, Slot>)
    requires KeepsData(d, owner, d1, owner1) && KeepsData(d1, owner1, d2, owner2)
    ensures KeepsData(d, owner, d2, owner2)
  {
  }

  lemma MappingFresh(d: Image, nodes: Nodes, owner: map<nat, Slot>, d': Image, nodes': Nodes, owner': map<nat, Slot>,
    i: nat, k: nat, a: nat)
    requires i in nodes && k < MAXFILE && Addr(d, nodes[i], k) == 0 && OnlyAddr(d, nodes, d', nodes', i, k, a)
    requires a != 0 && a !in owner && a in d' && d'[a] == Zeroes() && KeepsData(d, owner, d', owner')
    ensures Mapping(d, nodes, owner, d', nodes', owner', i, k) && Addr(d', nodes'[i], k) == a
  {
    hide Addr;
  }

  lemma KeepsSame(g: Super, d: Image, nodes: Nodes, owner: map<nat, Slot>)
    requires Owned(g, d, nodes, owner)
    ensures KeepsData(d, owner, d, owner) && Kept(d, nodes, d, nodes)
  {
    hide Addr;
    hide IsUsed;
  }

  lemma MappingSame(g: Super, d: Image, nodes: Nodes, owner: map<nat, Slot>, i: nat, k: nat)
    requires Owned(g, d, nodes, owner) && i in nodes && k < MAXFILE && Addr(d, nodes[i], k) != 0
    ensures Mapping(d, nodes, owner, d, nodes, owner, i, k)
  {
    hide Addr;
    hide IsUsed;
  }

  class FileSystem {
    const g: Super
    var disk: Image
    var nodes: Nodes    // the inodes, as the kernel sees them
    var written: Nodes  // the inodes, as their disk blocks hold them
    ghost var owner: map<nat, Slot>
    ghost var logged: set<nat>  // blocks passed to log_write()

    ghost predicate Valid()
      reads this
    {
      Owned(g, disk, nodes, owner)
    }

    constructor (sb: Super, image: Image, inodes: Nodes, ghost own: map<nat, Slot>)
      requires Owned(sb, image, inodes, own)
      ensures Valid() && g == sb && disk == image && nodes == inodes && written == inodes && owner == own &&
        logged == {}
    {
      g := sb;
      disk := image;
      nodes := inodes;
      written := inodes;
      owner := own;
      logged := {};
    }

    /** balloc(): the first free block, marked and zeroed; false is the panic that there is none. */
    method Balloc() returns (ok: bool, r: nat)
      requires Valid()
      modifies this`disk, this`logged
      ensures Valid()
      ensures ok ==>
        r < g.size && !IsUsed(g, old(disk), r) && MapBlock(g, r) in old(disk) && disk == Allocated(g, old(disk), r)
      ensures ok ==>
        Spare(g, disk, owner, r) && SameAddrs(old(disk), disk, nodes) && logged == old(logged) + {MapBlock(g, r), r}
      ensures ok ==> KeepsData(old(disk), owner, disk, owner)
      ensures ok ==> forall x: nat :: x < r ==> IsUsed(g, old(disk), x)
      ensures ok ==> forall x: nat :: x < g.size ==> (IsUsed(g, disk, x) <==> x == r || IsUsed(g, old(disk), x))
      ensures !ok ==> disk == old(disk) && logged == old(logged) && forall x: nat :: x < g.size ==> IsUsed(g, disk, x)
    {
      hide IsUsed;
      hide Bit;
      hide Marked;
      hide SlotsOk;
      hide MarksOk;
      var b := 0;
      while b < g.size
        invariant b % BPB == 0 && disk == old(disk) && logged == old(logged)
        invariant forall x: nat :: x < b && x < g.size ==> IsUsed(g, disk, x)
        decreases g.size + BPB - b
      {
        MapBlockBelow(g, b);
        var bp := disk[MapBlock(g, b)];
        var bi := 0;
        while bi < BPB && b + bi < g.size
          invariant 0 <= bi <= BPB && disk == old(disk) && logged == old(logged)
          invariant forall x: nat :: x < b + bi && x < g.size ==> IsUsed(g, disk, x)
          decreases BPB - bi
        {
          BitOf(g, disk, b, bi);
          if !Bit(bp[bi / 8], bi % 8) {
            r := b + bi;
            AllocatedOwned(g, disk, nodes, owner, r);
            AllocatedContents(g, disk, owner, r);
            MarkedSpelt(g, disk, r);
            disk := disk[MapBlock(g, b) := bp[bi / 8 := bp[bi / 8] + Mask(bi % 8)]];
            disk := disk[r := Zeroes()];
            logged := logged + {MapBlock(g, r), r};
            return true, r;
          }
          bi := bi + 1;
        }
        b := b + BPB;
      }
      return false, 0;
    }

    /** bfree(): false is "freeing free block".  `view` are the inodes without the reference that is going. */
    method Bfree(b: nat, ghost view: Nodes, ghost d0: Image, ghost gone: set<nat>) returns (ok: bool)
      requires Owned(g, disk, view, owner) && g.datastart <= b < g.size && b !in owner && Freed(g, d0, disk, gone)
      modifies this`disk, this`logged
      ensures Owned(g, disk, view, owner) && SameAddrs(old(disk), disk, view) && (ok <==> IsUsed(g, old(disk), b))
      ensures ok ==> Freed(g, d0, disk, gone + {b}) && logged == old(logged) + {MapBlock(g, b)}
      ensures !ok ==> disk == old(disk) && logged == old(logged)
    {
      hide Bit;
      hide SlotsOk;
      hide MarksOk;
      hide Freed;
      MapBlockBelow(g, b);
      var m := MapBlock(g, b);
      var bp := disk[m];
      var bi := b % BPB;
      BitOf(g, disk, b - bi, bi);
      if !Bit(bp[bi / 8], bi % 8) {
        return false;
      }
      UnmarkedOwned(g, disk, view, owner, b);
      UnmarkedSpelt(g, disk, b);
      FreedOne(g, d0, disk, gone, b);
      disk := disk[m := bp[bi / 8 := bp[bi / 8] - Mask(bi % 8)]];
      logged := logged + {m};
      return true;
    }

    /** bmap() of a direct block. */
    method MapDirect(i: nat, bn: nat) returns (r: Option<nat>, ghost maps: set<nat>)
      requires Valid() && i in nodes && bn < NDIRECT
      modifies this
      ensures r.Some? ==>
        Valid() && Mapping(old(disk), old(nodes), old(owner), disk, nodes, owner, i, bn) &&
        r.value == Addr(disk, nodes[i], bn)
      ensures r.Some? ==> written == old(written) && logged <= old(logged) + maps + {r.value} && old(logged) <= logged
      ensures |maps| <= if Addr(old(disk), old(nodes)[i], bn) == 0 then 1 else 0
      ensures Addr(old(disk), old(nodes)[i], bn) != 0 ==> r.Some? && logged == old(logged)
      ensures r.None? ==> NoFree(g, disk)
      ensures r.Some? ==> nodes[i].addrs[NDIRECT] == old(nodes)[i].addrs[NDIRECT]
    {
      hide IsUsed;
      hide Word;
      hide SlotsOk;
      hide MarksOk;
      hide Allocated;
      hide Marked;
      maps := {};
      var addr := nodes[i].addrs[bn];
      if addr == 0 {
        var ok, b := Balloc();
        if !ok {
          return None, maps;
        }
        addr := b;
        maps := {MapBlock(g, b)};
        PutDirect(g, disk, nodes, owner, i, bn, b);
        SameOnly(old(disk), disk, nodes, disk, nodes[i := WithAddr(nodes[i], bn, b)], i, bn, b);
        MappingFresh(old(disk), nodes, owner, disk, nodes[i := WithAddr(nodes[i], bn, b)], owner[b := Data(i, bn)], i,
          bn, b);
        owner := owner[b := Data(i, bn)];
        nodes := nodes[i := WithAddr(nodes[i], bn, b)];
      } else {
        MappingSame(g, disk, nodes, owner, i, bn);
      }
      return Some(addr), maps;
    }

    /** The indirect block of a file, allocated if there is none: every file block keeps its number. */
    method IndirectBlock(i: nat) returns (r: Option<nat>, ghost maps: set<nat>)
      requires Valid() && i in nodes
      modifies this
      ensures r.Some? ==>
        Valid() && Kept(old(disk), old(nodes), disk, nodes) && KeepsData(old(disk), old(owner), disk, owner)
      ensures r.Some? ==> r.value == nodes[i].addrs[NDIRECT] && r.value != 0 && r.value in disk
      ensures r.Some? ==> written == old(written) && logged <= old(logged) + maps + {r.value} && old(logged) <= logged
      ensures r.Some? && old(nodes)[i].addrs[NDIRECT] != 0 ==>
        disk == old(disk) && nodes == old(nodes) && owner == old(owner)
      ensures r.Some? && old(nodes)[i].addrs[NDIRECT] == 0 ==> forall x: nat :: x < g.size ==>
        (IsUsed(g, disk, x) <==> x == r.value || IsUsed(g, old(disk), x))
      ensures |maps| <= if old(nodes)[i].addrs[NDIRECT] == 0 then 1 else 0
      ensures old(nodes)[i].addrs[NDIRECT] != 0 ==> r.Some? && logged == old(logged)
      ensures r.None? ==> NoFree(g, disk)
    {
      hide IsUsed;
      hide Addr;
      hide Allocated;
      hide Marked;
      maps := {};
      var addr := nodes[i].addrs[NDIRECT];
      if addr == 0 {
        var ok, b := Balloc();
        if !ok {
          return None, maps;
        }
        addr := b;
        maps := {MapBlock(g, b)};
        PutIndirect(g, disk, nodes, owner, i, b);
        owner := owner[b := Indirect(i)];
        nodes := nodes[i := WithAddr(nodes[i], NDIRECT, b)];
      }
      return Some(addr), maps;
    }

    /** The entry of the indirect block, with a block allocated if there is none. */
    method MapEntry(i: nat, j: nat, ind: nat) returns (r: Option<nat>, ghost maps: set<nat>)
      requires Valid() && i in nodes && j < NINDIRECT && ind == nodes[i].addrs[NDIRECT] && ind != 0 && ind in disk
      modifies this
      ensures r.Some? ==> Valid() && Mapping(old(disk), old(nodes), old(owner), disk, nodes, owner, i, NDIRECT + j)
      ensures r.Some? ==> r.value == Addr(disk, nodes[i], NDIRECT + j) && nodes == old(nodes) && written == old(written)
      ensures r.Some? ==> logged <= old(logged) + maps + {r.value, ind} && old(logged) <= logged
      ensures |maps| <= if Addr(old(disk), old(nodes)[i], NDIRECT + j) == 0 then 1 else 0
      ensures Addr(old(disk), old(nodes)[i], NDIRECT + j) != 0 ==> r.Some? && logged == old(logged)
      ensures r.None? ==> NoFree(g, disk)
    {
      hide IsUsed;
      hide Word;
      hide WithWord;
      hide SlotsOk;
      hide MarksOk;
      hide Allocated;
      hide Marked;
      maps := {};
      var addr := Word(disk[ind], j);
      if addr == 0 {
        var ok, b := Balloc();
        if !ok {
          return None, maps;
        }
        addr := b;
        maps := {MapBlock(g, b)};
        PutEntry(g, disk, nodes, owner, i, j, b);
        ghost var d' := disk[ind := WithWord(disk[ind], j, b)];
        SameOnly(old(disk), disk, nodes, d', nodes, i, NDIRECT + j, b);
        IndirectOwned(g, disk, nodes, owner, i);
        EntryKeeps(old(disk), disk, owner, ind, WithWord(disk[ind], j, b), b, Data(i, NDIRECT + j));
        MappingFresh(old(disk), nodes, owner, d', nodes, owner[b := Data(i, NDIRECT + j)], i, NDIRECT + j, b);
        owner := owner[b := Data(i, NDIRECT + j)];
        disk := disk[ind := WithWord(disk[ind], j, b)];
        logged := logged + {ind};
      } else {
        MappingSame(g, disk, nodes, owner, i, NDIRECT + j);
      }
      return Some(addr), maps;
    }

    /**
     bmap(): the number of file block bn, allocating what is missing; None is a panic, for a block number out
     of range or a full disk.
     */
    method Bmap(i: nat, bn: nat) returns (r: Option<nat>, ghost maps: set<nat>)
      requires Valid() && i in nodes
      modifies this
      ensures r.Some? ==>
        bn < MAXFILE && Valid() && Mapping(old(disk), old(nodes), old(owner), disk, nodes, owner, i, bn)
      ensures r.Some? ==> r.value == Addr(disk, nodes[i], bn) && written == old(written)
      ensures r.Some? ==> logged <= old(logged) + maps + {r.value} + Via(nodes[i], bn) && old(logged) <= logged
      ensures r.Some? ==> |maps| <= Needs(old(disk), old(nodes)[i], bn)
      ensures bn < MAXFILE && Addr(old(disk), old(nodes)[i], bn) != 0 ==> r.Some? && logged == old(logged)
      ensures r.Some? && (bn < NDIRECT || old(nodes)[i].addrs[NDIRECT] != 0) ==>
        nodes[i].addrs[NDIRECT] == old(nodes)[i].addrs[NDIRECT]
      ensures r.Some? && bn >= NDIRECT ==> nodes[i].addrs[NDIRECT] != 0
      ensures r.None? ==> bn >= MAXFILE || NoFree(g, disk)
    {
      hide IsUsed;
      hide Word;
      hide SlotsOk;
      hide MarksOk;
      hide Mapping;
      hide KeepsData;
      maps := {};
      if bn < NDIRECT {
        r, maps := MapDirect(i, bn);
        return;
      }
      if bn - NDIRECT >= NINDIRECT {
        return None, maps;
      }
      ghost var more;
      var ind;
      ind, more := IndirectBlock(i);
      if ind.None? {
        return None, maps;
      }
      ghost var d1, nodes1, owner1 := disk, nodes, owner;
      r, maps := MapEntry(i, bn - NDIRECT, ind.value);
      if r.Some? {
        MappingAfter(old(disk), old(nodes), old(owner), d1, nodes1, owner1, disk, nodes, owner, i, bn);
        UnionSize(maps, more);
        maps := maps + more;
      }
    }

    /** One round of the first loop of itrunc(). */
    method TruncDirectRound(i: nat, k: nat, ghost n0: Inode, ghost d0: Image, ghost owner0: map<nat, Slot>)
      returns (ok: bool)
      requires Valid() && i in nodes && k < NDIRECT && nodes[i] == CleanTo(n0, k)
      requires owner == owner0 - Directs(n0, k) && Freed(g, d0, disk, Directs(n0, k))
      modifies this
      ensures ok && Valid() && nodes == old(nodes)[i := CleanTo(n0, k + 1)] && written == old(written)
      ensures owner == owner0 - Directs(n0, k + 1) && Freed(g, d0, disk, Directs(n0, k + 1))
    {
      hide IsUsed;
      hide Word;
      hide SlotsOk;
      hide MarksOk;
      hide Freed;
      hide Directs;
      ok := true;
      CleanOne(n0, k);
      var b := nodes[i].addrs[k];
      if b != 0 {
        OwnedBlock(g, disk, nodes, owner, i, k);
        DropDirect(g, disk, nodes, owner, i, k);
        owner := owner - {b};
        ok := Bfree(b, nodes[i := WithAddr(nodes[i], k, 0)], d0, Directs(n0, k));
        nodes := nodes[i := WithAddr(nodes[i], k, 0)];
        assert owner == owner0 - Directs(n0, k + 1);
      }
    }

    /** The first loop of itrunc(): it never meets "freeing free block". */
    method TruncDirect(i: nat) returns (ok: bool)
      requires Valid() && i in nodes
      modifies this
      ensures ok && Valid() && nodes == old(nodes)[i := CleanTo(old(nodes)[i], NDIRECT)] && written == old(written)
      ensures owner == old(owner) - Directs(old(nodes)[i], NDIRECT) &&
        Freed(g, old(disk), disk, Directs(old(nodes)[i], NDIRECT))
    {
      hide Directs;
      hide Freed;
      hide Owned;
      ghost var n0 := nodes[i];
      CleanNone(g, disk, n0);
      ok := true;
      var k := 0;
      while k < NDIRECT
        invariant 0 <= k <= NDIRECT && ok && Valid() && nodes == old(nodes)[i := CleanTo(n0, k)] &&
          written == old(written)
        invariant owner == old(owner) - Directs(n0, k) && Freed(g, old(disk), disk, Directs(n0, k))
      {
        ok := TruncDirectRound(i, k, n0, old(disk), old(owner));
        k := k + 1;
      }
    }

    /** The loop of itrunc() over the indirect block, with the indirect pointer out of view. */
    method TruncEntries(bp: Sector, ghost view: Nodes, ghost d0: Image, ghost gone: set<nat>) returns (ok: bool)
      requires Owned(g, disk, view, owner) && Freed(g, d0, disk, gone)
      requires Pending(g, disk, owner, bp, 0)
      modifies this`disk, this`logged
      ensures ok && Owned(g, disk, view, owner) && Freed(g, d0, disk, gone + Entries(bp, NINDIRECT))
    {
      hide Entries;
      hide Freed;
      hide Owned;
      hide Pending;
      hide Word;
      ok := true;
      EntriesNone(bp);
      assert gone + {} == gone;
      var j := 0;
      while j < NINDIRECT
        invariant 0 <= j <= NINDIRECT && ok && Owned(g, disk, view, owner) && Freed(g, d0, disk, gone + Entries(bp, j))
        invariant Pending(g, disk, owner, bp, j)
      {
        EntriesOne(bp, j);
        if Word(bp, j) != 0 {
          PendingNext(g, disk, owner, bp, j);
          ghost var before := disk;
          ok := Bfree(Word(bp, j), view, d0, gone + Entries(bp, j));
          PendingOne(g, d0, before, disk, owner, bp, j, gone + Entries(bp, j));
          assert gone + Entries(bp, j) + {Word(bp, j)} == gone + Entries(bp, j + 1);
        } else {
          PendingSkip(g, disk, owner, bp, j);
        }
        j := j + 1;
      }
    }

    /** The second half of itrunc(): the blocks listed in the indirect block, and that block itself. */
    method TruncIndirect(i: nat, ghost d0: Image, ghost gone: set<nat>) returns (ok: bool)
      requires Valid() && i in nodes && Freed(g, d0, disk, gone) && nodes[i].addrs[NDIRECT] != 0 &&
        nodes[i].addrs[NDIRECT] in d0
      modifies this
      ensures ok && Valid() && nodes == old(nodes)[i := WithAddr(old(nodes)[i], NDIRECT, 0)] && written == old(written)
      ensures var ind := old(nodes)[i].addrs[NDIRECT]; var more := Entries(d0[ind], NINDIRECT) + {ind};
              owner == old(owner) - more && Freed(g, d0, disk, gone + more)
    {
      hide Entries;
      hide Freed;
      hide Pending;
      hide Word;
      hide IsUsed;
      hide SlotsOk;
      hide MarksOk;
      var ind := nodes[i].addrs[NDIRECT];
      IndirectOwned(g, disk, nodes, owner, i);
      PendingStart(g, disk, nodes, owner, i, d0, gone);
      DropIndirect(g, disk, nodes, owner, i);
      var bp := disk[ind];
      ghost var view := nodes[i := WithAddr(nodes[i], NDIRECT, 0)];
      owner := owner - (Entries(bp, NINDIRECT) + {ind});
      ok := TruncEntries(bp, view, d0, gone);
      StillUsed(g, d0, disk, gone + Entries(bp, NINDIRECT), ind);
      ok := Bfree(ind, view, d0, gone + Entries(bp, NINDIRECT));
      assert gone + Entries(bp, NINDIRECT) + {ind} == gone + (Entries(bp, NINDIRECT) + {ind});
      nodes := nodes[i := WithAddr(nodes[i], NDIRECT, 0)];
    }

    /**
     itrunc(): "freeing free block" is never reached; exactly the blocks of the file are freed, no other
     file is touched, and the inode is written back empty.
     */
    method Itrunc(i: nat) returns (ok: bool)
      requires Valid() && i in nodes
      modifies this
      ensures ok && Valid() && nodes == old(nodes)[i := EmptyNode()] && written == old(written)[i := EmptyNode()]
      ensures owner == old(owner) - Blocks(old(disk), old(nodes)[i]) &&
        Freed(g, old(disk), disk, Blocks(old(disk), old(nodes)[i]))
      ensures SameAddrs(old(disk), disk, nodes)
    {
      hide Entries;
      hide Freed;
      hide Directs;
      hide Word;
      hide Owned;
      hide SameAddrs;
      if nodes[i].addrs[NDIRECT] != 0 {
        IndirectOwned(g, disk, nodes, owner, i);
      }
      ok := TruncDirect(i);
      ghost var all := Blocks(old(disk), old(nodes)[i]);
      if nodes[i].addrs[NDIRECT] != 0 {
        ok := TruncIndirect(i, old(disk), Directs(old(nodes)[i], NDIRECT));
      }
      assert owner == old(owner) - all;
      assert all == Directs(old(nodes)[i], NDIRECT) || old(nodes)[i].addrs[NDIRECT] != 0;
      assert nodes[i].addrs == EmptyNode().addrs;
      SizeOwned(g, disk, nodes, owner, i, 0);
      nodes := nodes[i := nodes[i].(size := 0)];
      AfterTrunc(g, old(disk), old(nodes), old(owner), disk, nodes, owner, all);
      Iupdate(i);
    }

    /** iupdate() */
    method Iupdate(i: nat)
      requires i in nodes
      modifies this`written, this`logged
      ensures written == old(written)[i := nodes[i]] && logged == old(logged) + {g.inodestart + i / IPB}
    {
      written := written[i := nodes[i]];
      logged := logged + {g.inodestart + i / IPB};
    }
  }

  function EmptyNode(): Inode {
    Node(0, seq(NDIRECT + 1, _ => 0))
  }

  /** All the blocks that a file holds. */
  ghost function Blocks(d: Image, n: Inode): set<nat> {
    var ind := n.addrs[NDIRECT];
    Directs(n, NDIRECT) + (if ind != 0 && ind in d then Entries(d[ind], NINDIRECT) + {ind} else {})
  }

  lemma SizeOwned(g: Super, d: Image, nodes: Nodes, owner: map<nat, Slot>, i: nat, size: nat)
    requires Owned(g, d, nodes, owner) && i in nodes
    ensures Owned(g, d, nodes[i := nodes[i].(size := size)], owner) &&
      SameFiles(d, nodes, nodes[i := nodes[i].(size := size)])
  {
    hide IsUsed;
    hide Word;
  }

  ghost predicate SameFiles(d: Image, nodes: Nodes, nodes': Nodes)
  {
    nodes'.Keys == nodes.Keys && forall j, l :: j in nodes && 0 <= l < MAXFILE ==>
      Addr(d, nodes'[j], l) == Addr(d, nodes[j], l)
  }

  lemma AfterTrunc(g: Super, d: Image, nodes0: Nodes, owner0: map<nat, Slot>, d': Image, nodes: Nodes,
    owner: map<nat, Slot>, gone: set<nat>)
    requires Owned(g, d, nodes0, owner0) && Owned(g, d', nodes, owner) && Freed(g, d, d', gone)
    ensures SameAddrs(d, d', nodes)
  {
    hide IsUsed;
    hide Word;
    hide Addr;
    AddrsFrame(d, d', nodes);
  }

  lemma StillUsed(g: Super, d0: Image, d: Image, gone: set<nat>, b: nat)
    requires Freed(g, d0, d, gone) && b < g.size && IsUsed(g, d0, b) && b !in gone
    ensures IsUsed(g, d, b)
  {
    hide IsUsed;
  }

  /** The indirect block and what it lists are marked and distinct, and so wait to be freed. */
  lemma PendingStart(g: Super, d: Image, nodes: Nodes, owner: map<nat, Slot>, i: nat, d0: Image, gone: set<nat>)
    requires Owned(g, d, nodes, owner) && i in nodes && nodes[i].addrs[NDIRECT] != 0
    requires Freed(g, d0, d, gone) && nodes[i].addrs[NDIRECT] in d0
    ensures var ind := nodes[i].addrs[NDIRECT];
            && ind in d && d[ind] == d0[ind] && g.datastart <= ind < g.size && IsUsed(g, d0, ind)
            && ind !in gone + Entries(d[ind], NINDIRECT)
            && Pending(g, d, owner - (Entries(d[ind], NINDIRECT) + {ind}), d[ind], 0)
  {
    hide IsUsed;
    hide Word;
    var ind := nodes[i].addrs[NDIRECT];
    assert Points(owner, ind, Indirect(i));
    forall m | 0 <= m < NINDIRECT && Word(d[ind], m) != 0 ensures Points(owner, Word(d[ind], m), Data(i, NDIRECT + m)) {
      assert Addr(d, nodes[i], NDIRECT + m) == Word(d[ind], m);
    }
  }

  /** The blocks listed from entry j on are still marked, distinct, and without an owner. */
  ghost predicate Pending(g: Super, d: Image, owner: map<nat, Slot>, bp: Sector, j: nat)
  {
    && (forall m :: j <= m < NINDIRECT && Word(bp, m) != 0 ==>
          g.datastart <= Word(bp, m) < g.size && IsUsed(g, d, Word(bp, m)) && Word(bp, m) !in owner)
    && (forall l, m :: 0 <= l < m < NINDIRECT && Word(bp, m) != 0 ==> Word(bp, l) != Word(bp, m))
  }

  lemma EntriesNone(bp: Sector)
    ensures Entries(bp, 0) == {}
  {
  }

  lemma EntriesOne(bp: Sector, j: nat)
    requires j < NINDIRECT
    ensures Word(bp, j) == 0 ==> Entries(bp, j + 1) == Entries(bp, j)
    ensures Word(bp, j) != 0 ==> Entries(bp, j + 1) == Entries(bp, j) + {Word(bp, j)}
  {
    hide Word;
  }

  lemma PendingNext(g: Super, d: Image, owner: map<nat, Slot>, bp: Sector, j: nat)
    requires Pending(g, d, owner, bp, j) && j < NINDIRECT && Word(bp, j) != 0
    ensures g.datastart <= Word(bp, j) < g.size && IsUsed(g, d, Word(bp, j)) && Word(bp, j) !in owner
  {
    hide Word;
    hide IsUsed;
  }

  lemma PendingSkip(g: Super, d: Image, owner: map<nat, Slot>, bp: Sector, j: nat)
    requires Pending(g, d, owner, bp, j)
    ensures Pending(g, d, owner, bp, j + 1)
  {
    hide Word;
    hide IsUsed;
  }

  lemma PendingOne(g: Super, d0: Image, d: Image, d': Image, owner: map<nat, Slot>, bp: Sector, j: nat, gone: set<nat>)
    requires Pending(g, d, owner, bp, j) && j < NINDIRECT && Word(bp, j) != 0
    requires Freed(g, d0, d, gone) && Freed(g, d0, d', gone + {Word(bp, j)})
    ensures Pending(g, d', owner, bp, j + 1)
  {
    hide Word;
    hide IsUsed;
  }

  /** An inode whose first k direct entries have been cleared. */
  function CleanTo(n: Inode, k: nat): (r: Inode)
    requires k <= NDIRECT
  {
    n.(addrs := seq(NDIRECT + 1, j requires 0 <= j <= NDIRECT => if j < k then 0 else n.addrs[j]))
  }

  lemma CleanNone(g: Super, d: Image, n: Inode)
    ensures CleanTo(n, 0) == n && Directs(n, 0) == {} && Freed(g, d, d, {})
  {
    hide IsUsed;
    assert CleanTo(n, 0).addrs == n.addrs;
  }

  lemma CleanOne(n: Inode, k: nat)
    requires k < NDIRECT
    ensures CleanTo(n, k).addrs[k] == n.addrs[k]
    ensures n.addrs[k] == 0 ==> CleanTo(n, k + 1) == CleanTo(n, k) && Directs(n, k + 1) == Directs(n, k)
    ensures CleanTo(n, k + 1) == WithAddr(CleanTo(n, k), k, 0)
    ensures n.addrs[k] != 0 ==> Directs(n, k + 1) == Directs(n, k) + {n.addrs[k]}
  {
    assert CleanTo(n, k + 1).addrs == WithAddr(CleanTo(n, k), k, 0).addrs;
    if n.addrs[k] == 0 {
      assert CleanTo(n, k + 1).addrs == CleanTo(n, k).addrs;
    }
  }

  lemma OwnedBlock(g: Super, d: Image, nodes: Nodes, owner: map<nat, Slot>, i: nat, k: nat)
    requires Owned(g, d, nodes, owner) && i in nodes && k < MAXFILE && Addr(d, nodes[i], k) != 0
    ensures var b := Addr(d, nodes[i], k);
      Points(owner, b, Data(i, k)) && g.datastart <= b < g.size && IsUsed(g, d, b) && b in d
    ensures k < NDIRECT ==> Addr(d, nodes[i], k) == nodes[i].addrs[k]
  {
    hide IsUsed;
  }

  /** bmap() of an indirect block: first the indirect block, then its entry. */
  lemma MappingAfter(d: Image, nodes: Nodes, owner: map<nat, Slot>, d1: Image, nodes1: Nodes, owner1: map<nat, Slot>,
    d2: Image, nodes2: Nodes, owner2: map<nat, Slot>, i: nat, k: nat)
    requires i in nodes && k < MAXFILE && Kept(d, nodes, d1, nodes1) && KeepsData(d, owner, d1, owner1)
    requires Mapping(d1, nodes1, owner1, d2, nodes2, owner2, i, k)
    requires Addr(d, nodes[i], k) != 0 ==> d1 == d && nodes1 == nodes && owner1 == owner
    ensures Mapping(d, nodes, owner, d2, nodes2, owner2, i, k)
  {
    hide Addr;
    KeepsTrans(d, owner, d1, owner1, d2, owner2);
  }

  /** How many blocks bmap() may have to allocate for a file block. */
  function Needs(d: Image, n: Inode, k: nat): nat
    requires k < MAXFILE
  {
    if Addr(d, n, k) != 0 then 0 else if k < NDIRECT || n.addrs[NDIRECT] != 0 then 1 else 2
  }

  /** The indirect block, if file block k is reached through it. */
  function Via(n: Inode, k: nat): set<nat> {
    if k < NDIRECT then {} else {n.addrs[NDIRECT]}
  }

  lemma UnionSize(a: set<nat>, b: set<nat>)
    ensures |a + b| <= |a| + |b|
  {
    assert a + b == a + (b - a);
    SubsetSize(b - a, b);
  }

  lemma SameOnly(d: Image, d1: Image, nodes: Nodes, d': Image, nodes': Nodes, i: nat, k: nat, b: nat)
    requires SameAddrs(d, d1, nodes) && OnlyAddr(d1, nodes, d', nodes', i, k, b)
    ensures OnlyAddr(d, nodes, d', nodes', i, k, b)
  {
    hide Addr;
  }

  lemma IndirectOwned(g: Super, d: Image, nodes: Nodes, owner: map<nat, Slot>, i: nat)
    requires Owned(g, d, nodes, owner) && i in nodes && nodes[i].addrs[NDIRECT] != 0
    ensures Points(owner, nodes[i].addrs[NDIRECT], Indirect(i)) && nodes[i].addrs[NDIRECT] in d
  {
    hide Addr;
    hide IsUsed;
  }

  /** Changing an indirect block changes no data block. */
  lemma EntryKeeps(d: Image, d1: Image, owner: map<nat, Slot>, ind: nat, data: Sector, b: nat, slot: Slot)
    requires KeepsData(d, owner, d1, owner) && ind in owner && owner[ind].Indirect? && b !in owner
    ensures KeepsData(d, owner, d1[ind := data], owner[b := slot])
  {
  }

  lemma UnmarkedSpelt(g: Super, d: Image, b: nat)
    requires IsUsed(g, d, b)
    ensures var m, x := MapBlock(g, b), d[MapBlock(g, b)][b % BPB / 8];
            x >= Mask(b % 8) && Unmarked(g, d, b) == d[m := d[m][b % BPB / 8 := x - Mask(b % 8)]]
  {
    BitCleared(d[MapBlock(g, b)][b % BPB / 8], b % 8, 0);
  }

  lemma MarkedSpelt(g: Super, d: Image, b: nat)
    requires MapBlock(g, b) in d && !IsUsed(g, d, b)
    ensures var m, x := MapBlock(g, b), d[MapBlock(g, b)][b % BPB / 8];
            x + Mask(b % 8) < 256 && Marked(g, d, b) == d[m := d[m][b % BPB / 8 := x + Mask(b % 8)]]
  {
    ByteMask();
    BitSet(d[MapBlock(g, b)][b % BPB / 8], b % 8, 0, 8);
  }
}

/**
 mkfs: the initial image.  Blocks are handed out in order and the free bit map is written once, at the end.
 */
module Mkfs {
  import opened Prelude
  import opened FsFormat
  import opened Bitmap
  import opened Ownership
  import opened Dinodes
  import opened Inodes
  import opened FileData

  const FSSIZE := 1000
  const NINODEBLOCKS := 200 / IPB + 1
  const INODESTART := 2 + LOGSIZE
  const BMAPSTART := INODESTART + NINODEBLOCKS
  const NMETA := BMAPSTART + 1  // boot, super, log, inode and bit map blocks
  const T_DIR := 1
  const T_FILE := 2

  /** Below this number an inode has its place in an inode block; the next sixteen fall into the bit map block. */
  const INODES := NINODEBLOCKS * IPB

  /** From this number on an inode falls into a data block. */
  const OVERRUN := INODES + IPB

  function Layout(): (g: Super)
    ensures g.Valid()
  {
    Super(FSSIZE, INODESTART, BMAPSTART, NMETA)
  }

  /** The image with the first n blocks marked in its bit map, as balloc(n) of mkfs leaves it. */
  ghost function MarkedTo(d: Image, n: nat): (r: Image)
    requires BMAPSTART in d && n <= BPB
    ensures BMAPSTART in r && r == d[BMAPSTART := r[BMAPSTART]]
    ensures forall x: nat :: x < BPB ==> (IsUsed(Layout(), r, x) <==> x < n)
  {
    if n == 0 then
      UnmarkedMap(d);
      d[BMAPSTART := Zeroes()]
    else
      var r := MarkedTo(d, n - 1);
      MarkStep(r, n - 1);
      Marked(Layout(), r, n - 1)
  }

  lemma {:induction false} ZeroBit(k: nat)
    ensures !Bit(0, k)
  {
    if k > 0 {
      ZeroBit(k - 1);
    }
  }

  lemma UnmarkedMap(d: Image)
    ensures var d' := d[BMAPSTART := Zeroes()]; forall x: nat :: x < BPB ==> !IsUsed(Layout(), d', x)
  {
    hide Bit;
    var d' := d[BMAPSTART := Zeroes()];
    forall x: nat | x < BPB ensures !IsUsed(Layout(), d', x) {
      ZeroBit(x % 8);
    }
  }

  lemma MarkStep(r: Image, n: nat)
    requires BMAPSTART in r && n < BPB && forall x: nat :: x < BPB ==> (IsUsed(Layout(), r, x) <==> x < n)
    ensures MapBlock(Layout(), n) == BMAPSTART && !IsUsed(Layout(), r, n)
    ensures forall x: nat :: x < BPB ==> (IsUsed(Layout(), Marked(Layout(), r, n), x) <==> x < n + 1)
    ensures Marked(Layout(), r, n) == r[BMAPSTART := Marked(Layout(), r, n)[BMAPSTART]]
  {
    hide IsUsed;
    forall x: nat | x < BPB ensures IsUsed(Layout(), Marked(Layout(), r, n), x) <==> x < n + 1 {
      MarkedIs(Layout(), r, n, x);
    }
  }

  /** balloc(): the bit map block with the first `used` bits set. */
  method BitmapBlock(used: nat, ghost d: Image) returns (buf: Sector)
    requires used <= BPB && BMAPSTART in d
    ensures MarkedTo(d, used) == d[BMAPSTART := buf]
  {
    hide IsUsed;
    hide Marked;
    buf := Zeroes();
    var i := 0;
    while i < used
      invariant 0 <= i <= used && MarkedTo(d, i) == d[BMAPSTART := buf]
    {
      MarkStep(MarkedTo(d, i), i);
      MarkedSpelt(Layout(), MarkedTo(d, i), i);
      assert i / 8 < BSIZE && i % BPB == i;
      buf := buf[i / 8 := buf[i / 8] + Mask(i % 8)];
      i := i + 1;
    }
  }

  // ---- building ----

  /** The image so far: blocks from `free` on are zero, and with the map marked it obeys the kernel's rules. */
  ghost predicate Built(d: Image, nodes: Nodes, owner: map<nat, Slot>, free: nat)
  {
    && NMETA <= free <= FSSIZE && (forall b: nat :: b in d <==> b < FSSIZE)
    && (forall b: nat :: free <= b < FSSIZE ==> d[b] == Zeroes())
    && Owned(Layout(), MarkedTo(d, free), nodes, owner)
  }

  /** Every file has exactly the blocks below its size. */
  ghost predicate Exact(d: Image, n: Inode)
  {
    n.size <= MAXBYTES && Filled(d, n, n.size)
  }

  /** The blocks below `top` are there, with the indirect block if one is needed, and no others. */
  ghost predicate Filled(d: Image, n: Inode, top: nat)
  {
    && (forall k :: 0 <= k < MAXFILE ==> (Addr(d, n, k) != 0 <==> k * BSIZE < top))
    && (n.addrs[NDIRECT] != 0 <==> top > NDIRECT * BSIZE)
  }

  // ---- how many blocks a file takes ----

  function BlocksFor(size: nat): nat {
    (size + BSIZE - 1) / BSIZE + if size > NDIRECT * BSIZE then 1 else 0
  }

  lemma BlocksMore(a: nat, b: nat)
    requires a <= b
    ensures BlocksFor(a) <= BlocksFor(b)
  {
  }

  /** The blocks that have to be handed out before file block k is there. */
  function Missing(d: Image, n: Inode, k: nat): nat
    requires k < MAXFILE
  {
    if Addr(d, n, k) != 0 then 0 else if k >= NDIRECT && n.addrs[NDIRECT] == 0 then 2 else 1
  }

  lemma MissingRound(d: Image, n: Inode, off: nat, m: nat)
    requires Filled(d, n, off) && off < MAXBYTES && 0 < m && off % BSIZE + m <= BSIZE
    ensures off / BSIZE < MAXFILE && BlocksFor(off + m) == BlocksFor(off) + Missing(d, n, off / BSIZE)
  {
    hide Addr;
    var k := off / BSIZE;
    assert Addr(d, n, k) != 0 <==> k * BSIZE < off;
    assert (off + BSIZE - 1) / BSIZE == if off % BSIZE == 0 then k else k + 1;
    assert (off + m + BSIZE - 1) / BSIZE == k + 1;
  }

  // ---- inodes in their blocks ----

  function IBlock(i: nat): nat {
    i / IPB + INODESTART
  }

  function TypeOf(i: nat): nat {
    if i == 1 then T_DIR else T_FILE
  }

  /** The inode blocks hold what mkfs has written to them; the inode `but` is being changed. */
  ghost predicate Shelved(d: Image, nodes: Nodes, but: nat)
  {
    forall j :: j in nodes && j != but ==>
      j < OVERRUN && IBlock(j) in d && InodeAt(d[IBlock(j)], j % IPB) == Dinode(TypeOf(j), 1, nodes[j])
  }

  lemma ShelvedFrame(d: Image, nodes: Nodes, d': Image, nodes': Nodes, i: nat)
    requires Shelved(d, nodes, i) && i in nodes && i in nodes' && nodes' == nodes[i := nodes'[i]] && SameMeta(d, d')
    ensures Shelved(d', nodes', i)
  {
    hide InodeAt;
    forall j | j in nodes' && j != i
      ensures j < OVERRUN && IBlock(j) in d' && InodeAt(d'[IBlock(j)], j % IPB) == Dinode(TypeOf(j), 1, nodes'[j]) {
      assert nodes'[j] == nodes[j] && IBlock(j) < NMETA;
    }
  }

  /** winode() puts an inode on its shelf and leaves the others where they are. */
  lemma ShelvedWrite(d: Image, nodes: Nodes, i: nat)
    requires Shelved(d, nodes, i) && i in nodes && i < OVERRUN && IBlock(i) in d && nodes[i].size < UINT
    ensures Shelved(d[IBlock(i) := WithInode(d[IBlock(i)], i % IPB, Dinode(TypeOf(i), 1, nodes[i]))], nodes, 0)
  {
    hide InodeAt;
    hide WithInode;
    var x := Dinode(TypeOf(i), 1, nodes[i]);
    var d' := d[IBlock(i) := WithInode(d[IBlock(i)], i % IPB, x)];
    forall j | j in nodes
      ensures j < OVERRUN && IBlock(j) in d' && InodeAt(d'[IBlock(j)], j % IPB) == Dinode(TypeOf(j), 1, nodes[j]) {
      if IBlock(j) == IBlock(i) {
        InodeStored(d[IBlock(i)], i % IPB, x, j % IPB);
        assert j != i ==> j % IPB != i % IPB;
      }
    }
  }

  /** Handing out the next block is what the kernel's balloc() would do. */
  lemma NextBlock(d: Image, nodes: Nodes, owner: map<nat, Slot>, free: nat)
    requires Built(d, nodes, owner, free) && free < FSSIZE
    ensures Built(d, nodes, owner, free + 1) && Spare(Layout(), MarkedTo(d, free + 1), owner, free)
    ensures SameAddrs(MarkedTo(d, free), MarkedTo(d, free + 1), nodes) &&
      KeepsData(MarkedTo(d, free), owner, MarkedTo(d, free + 1), owner)
  {
    hide IsUsed;
    hide Addr;
    hide SlotsOk;
    hide Marked;
    var v, v' := MarkedTo(d, free), MarkedTo(d, free + 1);
    AllocatedOwned(Layout(), v, nodes, owner, free);
    AllocatedContents(Layout(), v, owner, free);
    assert v'[free] == Zeroes();
    assert Allocated(Layout(), v, free) == v';
  }

  /** Changing a block outside the bit map, and marking it. */
  lemma MarkedChange(d: Image, n: nat, b: nat, data: Sector)
    requires BMAPSTART in d && n <= BPB && b != BMAPSTART
    ensures MarkedTo(d[b := data], n) == MarkedTo(d, n)[b := data]
  {
    MarkedMap(d, d[b := data], n);
  }

  lemma SameMark(d: Image, d': Image, b: nat)
    requires b < BPB && BMAPSTART in d && BMAPSTART in d' && d'[BMAPSTART] == d[BMAPSTART] && !IsUsed(Layout(), d, b)
    ensures MapBlock(Layout(), b) == BMAPSTART && !IsUsed(Layout(), d', b)
    ensures Marked(Layout(), d', b)[BMAPSTART] == Marked(Layout(), d, b)[BMAPSTART]
  {
    hide Bit;
  }

  /** The map block depends only on how many blocks are marked. */
  lemma {:induction false} MarkedMap(d: Image, d': Image, n: nat)
    requires BMAPSTART in d && BMAPSTART in d' && n <= BPB
    ensures MarkedTo(d', n)[BMAPSTART] == MarkedTo(d, n)[BMAPSTART]
  {
    hide IsUsed;
    hide Marked;
    if n > 0 {
      MarkedMap(d, d', n - 1);
      SameMark(MarkedTo(d, n - 1), MarkedTo(d', n - 1), n - 1);
    }
  }

  lemma EmptyImage(d: Image)
    requires (forall b: nat :: b in d <==> b < FSSIZE) && forall b: nat :: b < FSSIZE ==> d[b] == Zeroes()
    ensures Built(d, map[], map[], NMETA)
  {
    hide IsUsed;
    hide Zeroes;
  }

  lemma BuiltFacts(d: Image, nodes: Nodes, owner: map<nat, Slot>, free: nat)
    requires Built(d, nodes, owner, free)
    ensures NMETA <= free <= FSSIZE && (forall x: nat :: x in d <==> x < FSSIZE) &&
      (forall x: nat :: free <= x < FSSIZE ==> d[x] == Zeroes())
    ensures Owned(Layout(), MarkedTo(d, free), nodes, owner)
  {
    hide Owned;
  }

  /** A block with an owner has been handed out. */
  lemma OwnedBelow(d: Image, nodes: Nodes, owner: map<nat, Slot>, free: nat, b: nat)
    requires Built(d, nodes, owner, free) && b in owner
    ensures NMETA <= b < free && b in d && MarkedTo(d, free)[b] == d[b]
  {
    hide IsUsed;
    hide SlotsOk;
    hide Marked;
  }

  lemma BuiltChange(d: Image, nodes: Nodes, owner: map<nat, Slot>, free: nat, b: nat, data: Sector)
    requires NMETA <= b < free <= FSSIZE && (forall x: nat :: x in d <==> x < FSSIZE) &&
      (forall x: nat :: free <= x < FSSIZE ==> d[x] == Zeroes())
    requires Owned(Layout(), MarkedTo(d, free)[b := data], nodes, owner)
    ensures Built(d[b := data], nodes, owner, free) && MarkedTo(d[b := data], free) == MarkedTo(d, free)[b := data]
  {
    hide Owned;
    hide IsUsed;
    hide Marked;
    MarkedChange(d, free, b, data);
  }

  /** A block of inodes, or the bit map block, changes: no file notices. */
  lemma MetaFrame(d: Image, nodes: Nodes, owner: map<nat, Slot>, free: nat, b: nat, data: Sector)
    requires Built(d, nodes, owner, free) && INODESTART <= b < NMETA
    ensures BMAPSTART in d && BMAPSTART in d[b := data] && free <= BPB && Built(d[b := data], nodes, owner, free)
    ensures FilesStay(MarkedTo(d, free), nodes, MarkedTo(d[b := data], free))
  {
    hide IsUsed;
    hide Marked;
    hide Addr;
    hide Owned;
    hide FilesStay;
    hide Built;
    BuiltFacts(d, nodes, owner, free);
    var d' := d[b := data];
    var v, v' := MarkedTo(d, free), MarkedTo(d', free);
    MarkedMap(d, d', free);
    assert v' == if b == BMAPSTART then v else v[b := data];
    assert forall x: nat :: b in v && (x in v' <==> x in v) && (x in v && x != b ==> v'[x] == v[x]);
    LowFrame(Layout(), v, v', nodes, owner, b);
    BuiltMeta(d, d', nodes, owner, free, b);
  }

  lemma BuiltMeta(d: Image, d': Image, nodes: Nodes, owner: map<nat, Slot>, free: nat, b: nat)
    requires NMETA <= free <= FSSIZE && (forall x: nat :: x in d <==> x < FSSIZE) &&
      (forall x: nat :: free <= x < FSSIZE ==> d[x] == Zeroes())
    requires b < NMETA && d'.Keys == d.Keys && (forall x: nat :: x in d && x != b ==> d'[x] == d[x])
    requires Owned(Layout(), MarkedTo(d', free), nodes, owner)
    ensures Built(d', nodes, owner, free)
  {
    hide Owned;
    hide MarkedTo;
  }

  /** The same block numbers and the same bytes in every file. */
  ghost predicate FilesStay(d: Image, nodes: Nodes, d': Image)
  {
    SameAddrs(d, d', nodes) && forall j :: j in nodes ==> SameBytes(d, nodes[j], d', nodes[j])
  }

  lemma LowFrame(g: Super, d: Image, d': Image, nodes: Nodes, owner: map<nat, Slot>, b: nat)
    requires Owned(g, d, nodes, owner) && b < g.datastart && (forall x: nat ::
      (x in d' <==> x in d) && (x in d && x != b ==> d'[x] == d[x]))
    requires forall x: nat :: x < g.size ==> (IsUsed(g, d', x) <==> IsUsed(g, d, x))
    ensures Owned(g, d', nodes, owner) && FilesStay(d, nodes, d')
  {
    hide IsUsed;
    hide Word;
    assert SameAddrs(d, d', nodes) by {
      AddrsFrame(d, d', nodes);
    }
    SlotsFrame(d, d', nodes, owner);
    forall j | j in nodes ensures SameBytes(d, nodes[j], d', nodes[j]) {
      LowBytes(g, d, d', nodes, owner, b, j);
    }
  }

  lemma LowBytes(g: Super, d: Image, d': Image, nodes: Nodes, owner: map<nat, Slot>, b: nat, j: nat)
    requires Owned(g, d, nodes, owner) && b < g.datastart && (forall x: nat ::
      (x in d' <==> x in d) && (x in d && x != b ==> d'[x] == d[x]))
    requires SameAddrs(d, d', nodes) && j in nodes
    ensures SameBytes(d, nodes[j], d', nodes[j])
  {
    hide IsUsed;
    hide Addr;
    forall x | 0 <= x < MAXBYTES ensures ByteAt(d', nodes[j], x) == ByteAt(d, nodes[j], x) {
      var a := Addr(d, nodes[j], x / BSIZE);
      assert Addr(d', nodes[j], x / BSIZE) == a;
      if a != 0 {
        assert Points(owner, a, Data(j, x / BSIZE));
      }
    }
  }

  // ---- iappend() half-way ----

  /** What the loop of iappend() works on. */
  datatype Stage = Stage(view: Image, nodes: Nodes, disk: Image, free: nat)

  /** The bytes s are in place, in the blocks they need and no others, and nothing else has changed. */
  ghost predicate Midway(a: Stage, b: Stage, i: nat, off: nat, s: seq<nat>)
  {
    && i in a.nodes && i in b.nodes && b.nodes == a.nodes[i := b.nodes[i]] && SameSizes(a.nodes, b.nodes)
    && SameMeta(a.disk, b.disk)
    && Overwritten(a.view, a.nodes, b.view, b.nodes, i, off, s) && ExactBut(b.view, b.nodes, i, off + |s|)
    && b.free == a.free + BlocksFor(off + |s|) - BlocksFor(off)
  }

  lemma MidwayStart(a: Stage, i: nat, off: nat)
    requires i in a.nodes && AllExact(a.view, a.nodes) && off == a.nodes[i].size
    ensures Midway(a, a, i, off, []) && off <= MAXBYTES
  {
    hide Addr;
    hide AllExact;
    hide ExactBut;
    hide Overwritten;
    ExactStart(a.view, a.nodes, i);
    OverwrittenNone(a.view, a.nodes, i, off);
    assert a.nodes == a.nodes[i := a.nodes[i]];
  }

  /** A round without room dooms the whole call. */
  lemma MidwayRoom(a: Stage, b: Stage, i: nat, off: nat, s: seq<nat>, m: nat, top: nat)
    requires Midway(a, b, i, off, s) && 0 < m && (off + |s|) % BSIZE + m <= BSIZE && off + |s| + m <= top
    ensures i in b.nodes && (off + |s| >= MAXBYTES ==> top > MAXBYTES)
    ensures off + |s| < MAXBYTES ==>
      (off + |s|) / BSIZE < MAXFILE &&
      b.free + Missing(b.view, b.nodes[i], (off + |s|) / BSIZE) <= a.free + BlocksFor(top) - BlocksFor(off)
  {
    hide Overwritten;
    hide ExactBut;
    hide Missing;
    hide BlocksFor;
    hide SameMeta;
    RoundCost(b.view, b.nodes, i, off + |s|, m, top);
  }

  lemma MidwayMore(a: Stage, b: Stage, c: Stage, i: nat, off: nat, s: seq<nat>, t: seq<nat>)
    requires Midway(a, b, i, off, s) && off + |s| < MAXBYTES && 0 < |t| && (off + |s|) % BSIZE + |t| <= BSIZE
    requires i in c.nodes && c.nodes == b.nodes[i := c.nodes[i]] && SameSizes(b.nodes, c.nodes) &&
      SameMeta(b.disk, c.disk)
    requires c.free == b.free + Missing(b.view, b.nodes[i], (off + |s|) / BSIZE)
    requires c.nodes[i].addrs[NDIRECT] != 0 <==> b.nodes[i].addrs[NDIRECT] != 0 || (off + |s|) / BSIZE >= NDIRECT
    requires Overwritten(b.view, b.nodes, c.view, c.nodes, i, off + |s|, t) &&
      AlsoNumbered(b.view, b.nodes, c.view, c.nodes, i, (off + |s|) / BSIZE)
    ensures Midway(a, c, i, off, s + t)
  {
    hide Overwritten;
    hide ExactBut;
    hide Missing;
    hide BlocksFor;
    hide SameMeta;
    hide AlsoNumbered;
    RoundCost(b.view, b.nodes, i, off + |s|, |t|, off + |s| + |t|);
    ExactMore(b.view, b.nodes, c.view, c.nodes, i, off + |s|, |t|);
    OverwrittenMore(a.view, a.nodes, b.view, b.nodes, c.view, c.nodes, i, off, s, t);
    MetaStays(a.disk, b.disk, c.disk);
  }

  lemma MidwayEnd(a: Stage, b: Stage, i: nat, off: nat, s: seq<nat>)
    requires Midway(a, b, i, off, s)
    ensures i in b.nodes && b.nodes == a.nodes[i := b.nodes[i]] && SameSizes(a.nodes, b.nodes) &&
      SameMeta(a.disk, b.disk)
    ensures Overwritten(a.view, a.nodes, b.view, b.nodes, i, off, s) && ExactBut(b.view, b.nodes, i, off + |s|)
    ensures b.free == a.free + BlocksFor(off + |s|) - BlocksFor(off)
  {
    hide Overwritten;
    hide ExactBut;
    hide SameMeta;
    hide BlocksFor;
  }

  class Builder {
    var disk: Image
    var nodes: Nodes
    var freeinode: nat
    var freeblock: nat
    ghost var owner: map<nat, Slot>

    /** The image as it will be once its bit map is written. */
    ghost function View(): Image
      reads this
      requires BMAPSTART in disk && freeblock <= BPB
    {
      MarkedTo(disk, freeblock)
    }

    ghost predicate Valid()
      reads this
    {
      Built(disk, nodes, owner, freeblock)
    }

    /** Only inode i has changed in memory, and no block of inodes on the disk. */
    twostate predicate Meanwhile(i: nat)
      reads this
    {
      && freeinode == old(freeinode) && i in old(nodes) && i in nodes && nodes == old(nodes)[i := nodes[i]]
      && SameMeta(old(disk), disk)
    }

    constructor ()
      ensures Valid() && nodes == map[] && freeinode == 1 && freeblock == NMETA
    {
      disk := map[];
      nodes := map[];
      freeinode := 1;
      freeblock := NMETA;
      owner := map[];
      new;
      var i := 0;
      while i < FSSIZE
        invariant 0 <= i <= FSSIZE && nodes == map[] && freeinode == 1 && freeblock == NMETA && owner == map[]
        invariant forall b: nat :: b in disk <==> b < i
        invariant forall b: nat :: b < i ==> disk[b] == Zeroes()
      {
        disk := disk[i := Zeroes()];
        i := i + 1;
      }
      EmptyImage(disk);
    }

    /** iappend()'s lookup of a direct block; false is die(). */
    method DirectBlock(i: nat, fbn: nat) returns (ok: bool, x: nat)
      requires Valid() && i in nodes && fbn < NDIRECT
      modifies this
      ensures ok <==> old(freeblock + Missing(View(), nodes[i], fbn)) <= FSSIZE
      ensures ok ==> freeblock == old(freeblock + Missing(View(), nodes[i], fbn)) && Meanwhile(i)
      ensures ok ==> nodes[i].addrs[NDIRECT] == old(nodes)[i].addrs[NDIRECT]
      ensures ok ==>
        Valid() && Mapping(old(View()), old(nodes), old(owner), View(), nodes, owner, i, fbn) &&
        x == Addr(View(), nodes[i], fbn)
    {
      hide IsUsed;
      hide Word;
      hide Owned;
      hide Mapping;
      hide OnlyAddr;
      hide SameAddrs;
      hide Built;
      hide MarkedTo;
      BuiltFacts(disk, nodes, owner, freeblock);
      x := nodes[i].addrs[fbn];
      if x == 0 {
        if freeblock >= FSSIZE {
          return false, 0;
        }
        ghost var v := View();
        x := freeblock;
        NextBlock(disk, nodes, owner, freeblock);
        freeblock := freeblock + 1;
        BuiltFacts(disk, nodes, owner, freeblock);
        PutDirect(Layout(), View(), nodes, owner, i, fbn, x);
        SameOnly(v, View(), nodes, View(), nodes[i := WithAddr(nodes[i], fbn, x)], i, fbn, x);
        MappingFresh(v, nodes, owner, View(), nodes[i := WithAddr(nodes[i], fbn, x)], owner[x := Data(i, fbn)], i, fbn,
          x);
        BuiltNodes(disk, nodes, nodes[i := WithAddr(nodes[i], fbn, x)], owner, owner[x := Data(i, fbn)], freeblock);
        owner := owner[x := Data(i, fbn)];
        nodes := nodes[i := WithAddr(nodes[i], fbn, x)];
      } else {
        MappingSame(Layout(), View(), nodes, owner, i, fbn);
      }
      ok := true;
    }

    /** iappend()'s indirect block; false is die(). */
    method IndirectSector(i: nat) returns (ok: bool, ind: nat)
      requires Valid() && i in nodes
      modifies this
      ensures ok <==> old(freeblock + (if nodes[i].addrs[NDIRECT] == 0 then 1 else 0)) <= FSSIZE
      ensures ok ==> freeblock == old(freeblock + (if nodes[i].addrs[NDIRECT] == 0 then 1 else 0)) && Meanwhile(i)
      ensures ok ==>
        Valid() && Kept(old(View()), old(nodes), View(), nodes) && KeepsData(old(View()), old(owner), View(), owner)
      ensures ok ==> ind == nodes[i].addrs[NDIRECT] && ind != 0
      ensures ok && old(nodes)[i].addrs[NDIRECT] != 0 ==>
        View() == old(View()) && nodes == old(nodes) && owner == old(owner)
    {
      hide IsUsed;
      hide Addr;
      hide Owned;
      hide Built;
      hide MarkedTo;
      BuiltFacts(disk, nodes, owner, freeblock);
      ind := nodes[i].addrs[NDIRECT];
      if ind == 0 {
        if freeblock >= FSSIZE {
          return false, 0;
        }
        ind := freeblock;
        NextBlock(disk, nodes, owner, freeblock);
        freeblock := freeblock + 1;
        BuiltFacts(disk, nodes, owner, freeblock);
        PutIndirect(Layout(), View(), nodes, owner, i, ind);
        BuiltNodes(disk, nodes, nodes[i := WithAddr(nodes[i], NDIRECT, ind)], owner, owner[ind := Indirect(i)],
          freeblock);
        owner := owner[ind := Indirect(i)];
        nodes := nodes[i := WithAddr(nodes[i], NDIRECT, ind)];
      } else {
        KeepsSame(Layout(), View(), nodes, owner);
      }
      ok := true;
    }

    /** iappend()'s entry of the indirect block; false is die(). */
    method EntrySector(i: nat, j: nat, ind: nat) returns (ok: bool, x: nat)
      requires Valid() && i in nodes && j < NINDIRECT && ind == nodes[i].addrs[NDIRECT] && ind != 0
      modifies this
      ensures ok <==> old(freeblock + (if Addr(View(), nodes[i], NDIRECT + j) == 0 then 1 else 0)) <= FSSIZE
      ensures ok ==>
        freeblock == old(freeblock + (if Addr(View(), nodes[i], NDIRECT + j) == 0 then 1 else 0)) &&
        nodes == old(nodes) && Meanwhile(i)
      ensures ok ==>
        Valid() && Mapping(old(View()), old(nodes), old(owner), View(), nodes, owner, i, NDIRECT + j) &&
        x == Addr(View(), nodes[i], NDIRECT + j)
    {
      hide MarkedTo;
      hide IsUsed;
      hide Word;
      hide WithWord;
      hide Owned;
      hide Mapping;
      hide OnlyAddr;
      hide SameAddrs;
      hide Built;
      BuiltFacts(disk, nodes, owner, freeblock);
      IndirectOwned(Layout(), View(), nodes, owner, i);
      OwnedBelow(disk, nodes, owner, freeblock, ind);
      var indirect := disk[ind];
      x := Word(indirect, j);
      if x == 0 {
        if freeblock >= FSSIZE {
          return false, 0;
        }
        ghost var v := View();
        x := freeblock;
        NextBlock(disk, nodes, owner, freeblock);
        freeblock := freeblock + 1;
        BuiltFacts(disk, nodes, owner, freeblock);
        PutEntry(Layout(), View(), nodes, owner, i, j, x);
        ghost var v1 := View();
        ghost var v2 := v1[ind := WithWord(indirect, j, x)];
        SameOnly(v, v1, nodes, v2, nodes, i, NDIRECT + j, x);
        EntryKeeps(v, v1, owner, ind, WithWord(indirect, j, x), x, Data(i, NDIRECT + j));
        MappingFresh(v, nodes, owner, v2, nodes, owner[x := Data(i, NDIRECT + j)], i, NDIRECT + j, x);
        owner := owner[x := Data(i, NDIRECT + j)];
        BuiltChange(disk, nodes, owner, freeblock, ind, WithWord(indirect, j, x));
        disk := disk[ind := WithWord(indirect, j, x)];
      } else {
        MappingSame(Layout(), View(), nodes, owner, i, NDIRECT + j);
      }
      ok := true;
    }

    /** iappend()'s lookup of the block for a file position; false is die() or a failed assertion. */
    method SectorFor(i: nat, fbn: nat) returns (ok: bool, x: nat)
      requires Valid() && i in nodes
      modifies this
      ensures ok <==> fbn < MAXFILE && old(freeblock + Missing(View(), nodes[i], fbn)) <= FSSIZE
      ensures ok ==> freeblock == old(freeblock + Missing(View(), nodes[i], fbn)) && Meanwhile(i)
      ensures ok ==> (nodes[i].addrs[NDIRECT] != 0 <==> old(nodes)[i].addrs[NDIRECT] != 0 || fbn >= NDIRECT)
      ensures ok ==>
        Valid() && Mapping(old(View()), old(nodes), old(owner), View(), nodes, owner, i, fbn) &&
        x == Addr(View(), nodes[i], fbn)
    {
      hide MarkedTo;
      hide IsUsed;
      hide Word;
      hide Owned;
      hide Mapping;
      hide KeepsData;
      hide Built;
      BuiltFacts(disk, nodes, owner, freeblock);
      if fbn >= MAXFILE {
        return false, 0;
      }
      if fbn < NDIRECT {
        ok, x := DirectBlock(i, fbn);
        return;
      }
      ghost var v0, nodes0, owner0 := View(), nodes, owner;
      var ind;
      ok, ind := IndirectSector(i);
      if !ok {
        return false, 0;
      }
      BuiltFacts(disk, nodes, owner, freeblock);
      ghost var v1, nodes1, owner1 := View(), nodes, owner;
      ok, x := EntrySector(i, fbn - NDIRECT, ind);
      if ok {
        BuiltFacts(disk, nodes, owner, freeblock);
        MappingAfter(v0, nodes0, owner0, v1, nodes1, owner1, View(), nodes, owner, i, fbn);
      }
    }

    /** One round of iappend(). */
    method AppendRound(i: nat, off: nat, chunk: seq<nat>) returns (ok: bool)
      requires Valid() && i in nodes && 0 < |chunk| && off % BSIZE + |chunk| <= BSIZE && Bytes(chunk)
      modifies this
      ensures ok <==> off < MAXBYTES && old(freeblock + Missing(View(), nodes[i], off / BSIZE)) <= FSSIZE
      ensures ok ==> freeblock == old(freeblock + Missing(View(), nodes[i], off / BSIZE)) && Meanwhile(i)
      ensures ok ==> (nodes[i].addrs[NDIRECT] != 0 <==> old(nodes)[i].addrs[NDIRECT] != 0 || off / BSIZE >= NDIRECT)
      ensures ok ==> Valid() && off + |chunk| <= MAXBYTES && SameSizes(old(nodes), nodes)
      ensures ok ==> Overwritten(old(View()), old(nodes), View(), nodes, i, off, chunk)
      ensures ok ==> AlsoNumbered(old(View()), old(nodes), View(), nodes, i, off / BSIZE)
    {
      hide MarkedTo;
      hide IsUsed;
      hide Addr;
      hide Owned;
      hide ByteAt;
      hide Built;
      hide Bytes;
      BuiltFacts(disk, nodes, owner, freeblock);
      ghost var v0, nodes0, owner0 := View(), nodes, owner;
      var x;
      ok, x := SectorFor(i, off / BSIZE);
      if !ok {
        return;
      }
      BuiltFacts(disk, nodes, owner, freeblock);
      ghost var v1 := View();
      forall j | j in nodes0 ensures SameBytes(v0, nodes0[j], v1, nodes[j]) {
        MappingBytes(Layout(), v0, nodes0, owner0, v1, nodes, owner, i, off / BSIZE, j);
      }
      BlockThere(Layout(), v1, nodes, owner, i, off / BSIZE);
      OwnedBelow(disk, nodes, owner, freeblock, x);
      PatchedBytes(Layout(), v1, nodes, owner, i, off, chunk);
      var data := Patched(disk[x], off % BSIZE, chunk);
      DataOwned(Layout(), v1, nodes, owner, x, data);
      BuiltChange(disk, nodes, owner, freeblock, x, data);
      OverwrittenAfter(v0, nodes0, v1, nodes, v1[x := data], nodes, i, off, chunk);
      disk := disk[x := data];
    }

    /** winode() of an inode as it is in memory. */
    method Winode(i: nat)
      requires Valid() && i in nodes && i < OVERRUN && nodes[i].size < UINT && Shelved(disk, nodes, i)
      modifies this`disk
      ensures Valid() && Shelved(disk, nodes, 0) && BMAPSTART in disk && FilesStay(old(View()), nodes, View())
    {
      hide MarkedTo;
      hide Built;
      hide FilesStay;
      hide WithInode;
      hide Owned;
      hide Shelved;
      BuiltFacts(disk, nodes, owner, freeblock);
      var bn := IBlock(i);
      var buf := WithInode(disk[bn], i % IPB, Dinode(TypeOf(i), 1, nodes[i]));
      MetaFrame(disk, nodes, owner, freeblock, bn, buf);
      ShelvedWrite(disk, nodes, i);
      disk := disk[bn := buf];
    }

    /** The loop of iappend(), from offset `off`, which is the size of the file. */
    method AppendLoop(i: nat, off: nat, p: seq<nat>) returns (ok: bool)
      requires Valid() && i in nodes && AllExact(View(), nodes) && Bytes(p) && off == nodes[i].size
      modifies this
      ensures ok <==> off + |p| <= MAXBYTES && old(freeblock) + BlocksFor(off + |p|) - BlocksFor(off) <= FSSIZE
      ensures ok ==>
        Valid() && BMAPSTART in disk && freeblock <= BPB && freeblock ==
        old(freeblock) + BlocksFor(off + |p|) - BlocksFor(off)
      ensures ok ==>
        freeinode == old(freeinode) && SameSizes(old(nodes), nodes) && i in nodes &&
        nodes == old(nodes)[i := nodes[i]] && SameMeta(old(disk), disk)
      ensures ok ==>
        Overwritten(old(View()), old(nodes), View(), nodes, i, off, p) && ExactBut(View(), nodes, i, off + |p|)
    {
      hide MarkedTo;
      hide Addr;
      hide SameSizes;
      hide Chunk;
      hide ExactBut;
      hide Owned;
      hide Built;
      hide Bytes;
      hide AllExact;
      hide Missing;
      hide BlocksFor;
      hide Midway;
      hide Overwritten;
      hide AlsoNumbered;
      hide SameMeta;
      BuiltFacts(disk, nodes, owner, freeblock);
      ghost var start := Stage(View(), nodes, disk, freeblock);
      MidwayStart(start, i, off);
      assert p[..0] == [];
      var tot := 0;
      while tot < |p|
        invariant 0 <= tot <= |p| && off + tot <= MAXBYTES && Valid() && freeinode == old(freeinode)
        invariant BMAPSTART in disk && freeblock <= FSSIZE &&
          Midway(start, Stage(View(), nodes, disk, freeblock), i, off, p[..tot])
      {
        var m := Chunk(off + tot, |p| - tot);
        PartBytes(p, tot, tot + m);
        ghost var now := Stage(View(), nodes, disk, freeblock);
        MidwayRoom(start, now, i, off, p[..tot], m, off + |p|);
        ok := AppendRound(i, off + tot, p[tot..tot + m]);
        if !ok {
          return;
        }
        BuiltFacts(disk, nodes, owner, freeblock);
        MidwayMore(start, now, Stage(View(), nodes, disk, freeblock), i, off, p[..tot], p[tot..tot + m]);
        assert p[..tot] + p[tot..tot + m] == p[..tot + m];
        tot := tot + m;
      }
      assert p[..tot] == p;
      MidwayEnd(start, Stage(View(), nodes, disk, freeblock), i, off, p);
      ok := true;
    }

    /**
     iappend(): the file grows by exactly the bytes given, and no other file changes; it fails only for want of room.
     */
    method Iappend(i: nat, p: seq<nat>) returns (ok: bool)
      requires Valid() && i in nodes && 0 !in nodes && AllExact(View(), nodes) && Bytes(p) && Shelved(disk, nodes, 0)
      modifies this
      ensures ok <==> old(nodes[i].size + |p| <= MAXBYTES &&
        freeblock + BlocksFor(nodes[i].size + |p|) - BlocksFor(nodes[i].size) <= FSSIZE)
      ensures ok ==>
        Valid() && AllExact(View(), nodes) && freeinode == old(freeinode) && Shelved(disk, nodes, 0) &&
        nodes.Keys == old(nodes).Keys
      ensures ok ==> freeblock == old(freeblock + BlocksFor(nodes[i].size + |p|) - BlocksFor(nodes[i].size))
      ensures ok ==> Appended(old(View()), old(nodes), View(), nodes, i, p)
    {
      hide MarkedTo;
      hide Owned;
      hide Built;
      hide Bytes;
      hide Overwritten;
      hide AllExact;
      hide ExactBut;
      hide Appended;
      hide InodeAt;
      hide BlocksFor;
      BuiltFacts(disk, nodes, owner, freeblock);
      ghost var v0, nodes0, disk0 := View(), nodes, disk;
      var din := InodeAt(disk[IBlock(i)], i % IPB).node;
      ExactStart(v0, nodes, i);
      ok := AppendLoop(i, din.size, p);
      if ok {
        ShelvedLoose(disk0, nodes0, i);
        ShelvedFrame(disk0, nodes0, disk, nodes, i);
        EndAppend(i, din.size + |p|, v0, nodes0, p);
      }
    }

    /** The new size, and winode(). */
    method EndAppend(i: nat, off: nat, ghost v0: Image, ghost nodes0: Nodes, ghost p: seq<nat>)
      requires Valid() && i in nodes0 && SameSizes(nodes0, nodes) && off == nodes0[i].size + |p| <= MAXBYTES
      requires BMAPSTART in disk && freeblock <= BPB && Overwritten(v0, nodes0, View(), nodes, i, nodes0[i].size, p) &&
        ExactBut(View(), nodes, i, off)
      requires i in nodes && 0 !in nodes && i < OVERRUN && Shelved(disk, nodes, i)
      modifies this
      ensures Valid() && freeblock == old(freeblock) && freeinode == old(freeinode) && nodes.Keys == old(nodes).Keys &&
        AllExact(View(), nodes) && Shelved(disk, nodes, 0)
      ensures Appended(v0, nodes0, View(), nodes, i, p)
    {
      hide MarkedTo;
      hide Addr;
      hide Owned;
      hide ByteAt;
      hide Built;
      hide Overwritten;
      hide AllExact;
      hide ExactBut;
      hide Appended;
      hide InodeAt;
      hide FilesStay;
      BuiltFacts(disk, nodes, owner, freeblock);
      ghost var nodes' := nodes[i := nodes[i].(size := off)];
      SizeOwned(Layout(), View(), nodes, owner, i, off);
      SizeBytes(v0, nodes0, View(), nodes, i, nodes0[i].size, p, off);
      ExactEnd(View(), nodes, i, off);
      AppendedFile(v0, nodes0, View(), nodes', i, p);
      BuiltNodes(disk, nodes, nodes', owner, owner, freeblock);
      ShelvedFrame(disk, nodes, disk, nodes', i);
      nodes := nodes[i := nodes[i].(size := off)];
      ghost var v := View();
      Winode(i);
      BuiltFacts(disk, nodes, owner, freeblock);
      FilesExact(v, nodes, View());
      FilesAppended(v0, nodes0, v, nodes, View(), i, p);
    }

    /** ialloc(): a new, empty inode, in its place on disk. */
    method Ialloc() returns (inum: nat)
      requires Valid() && freeinode !in nodes && 0 < freeinode < OVERRUN && 0 !in nodes && AllExact(View(), nodes) &&
        ZeroTails(View(), nodes) && Shelved(disk, nodes, 0)
      modifies this
      ensures Valid() && inum == old(freeinode) && freeinode == inum + 1 && freeblock == old(freeblock)
      ensures nodes == old(nodes)[inum := EmptyNode()] && AllExact(View(), nodes) && ZeroTails(View(), nodes) &&
        Shelved(disk, nodes, 0)
      ensures BMAPSTART in old(disk) && old(freeblock) <= BPB && FilesStay(old(View()), nodes, View())
    {
      hide MarkedTo;
      hide Built;
      hide Owned;
      hide AllExact;
      hide ZeroTails;
      hide InodeAt;
      hide FilesStay;
      BuiltFacts(disk, nodes, owner, freeblock);
      inum := freeinode;
      freeinode := freeinode + 1;
      NewNode(Layout(), View(), nodes, owner, inum);
      BuiltNodes(disk, nodes, nodes[inum := EmptyNode()], owner, owner, freeblock);
      nodes := nodes[inum := EmptyNode()];
      ghost var v := View();
      Winode(inum);
      BuiltFacts(disk, nodes, owner, freeblock);
      FilesExact(v, nodes, View());
      FilesTails(v, nodes, View());
    }
  }

  ghost predicate SameMeta(d: Image, d': Image)
  {
    forall b: nat :: b < NMETA && b in d ==> b in d' && d'[b] == d[b]
  }

  lemma MetaStays(d: Image, d1: Image, d2: Image)
    requires SameMeta(d, d1) && SameMeta(d1, d2)
    ensures SameMeta(d, d2)
  {
  }

  lemma ShelvedLoose(d: Image, nodes: Nodes, i: nat)
    requires Shelved(d, nodes, 0) && 0 !in nodes
    ensures Shelved(d, nodes, i)
  {
    hide InodeAt;
  }

  lemma FilesExact(d: Image, nodes: Nodes, d': Image)
    requires FilesStay(d, nodes, d') && AllExact(d, nodes)
    ensures AllExact(d', nodes)
  {
    hide Addr;
    hide ByteAt;
    forall j | j in nodes ensures Exact(d', nodes[j]) {
      assert Exact(d, nodes[j]);
    }
  }

  lemma FilesTails(d: Image, nodes: Nodes, d': Image)
    requires FilesStay(d, nodes, d') && ZeroTails(d, nodes)
    ensures ZeroTails(d', nodes)
  {
    hide Addr;
    hide ByteAt;
    forall j, x | j in nodes && nodes[j].size <= x < MAXBYTES ensures ByteAt(d', nodes[j], x) == 0 {
      assert SameBytes(d, nodes[j], d', nodes[j]);
    }
  }

  lemma FilesContent(d: Image, nodes: Nodes, d': Image, j: nat)
    requires FilesStay(d, nodes, d') && j in nodes && nodes[j].size <= MAXBYTES
    ensures Content(d', nodes[j]) == Content(d, nodes[j]) && (NoHoles(d', nodes[j]) <==> NoHoles(d, nodes[j]))
  {
    hide Addr;
    hide ByteAt;
    assert SameBytes(d, nodes[j], d', nodes[j]);
  }

  lemma FilesAppended(d: Image, nodes: Nodes, d1: Image, nodes1: Nodes, d2: Image, i: nat, p: seq<nat>)
    requires Appended(d, nodes, d1, nodes1, i, p) && FilesStay(d1, nodes1, d2) && i in nodes
    ensures Appended(d, nodes, d2, nodes1, i, p)
  {
    hide Content;
    hide ZeroTails;
    hide FilesStay;
    if ZeroTails(d, nodes) {
      FilesTails(d1, nodes1, d2);
    }
    forall j | j in nodes1 && nodes1[j].size <= MAXBYTES ensures Content(d2, nodes1[j]) == Content(d1, nodes1[j]) {
      FilesContent(d1, nodes1, d2, j);
    }
  }

  /** What one round of iappend() costs, and that a round without room dooms the whole call. */
  lemma RoundCost(d: Image, nodes: Nodes, i: nat, off: nat, m: nat, top: nat)
    requires i in nodes && ExactBut(d, nodes, i, off) && 0 < m && off % BSIZE + m <= BSIZE && off + m <= top
    ensures off < MAXBYTES ==>
      off / BSIZE < MAXFILE &&
      BlocksFor(off + m) == BlocksFor(off) + Missing(d, nodes[i], off / BSIZE) <= BlocksFor(top)
    ensures off >= MAXBYTES ==> top > MAXBYTES
  {
    hide Addr;
    hide Missing;
    if off < MAXBYTES {
      MissingRound(d, nodes[i], off, m);
      BlocksMore(off + m, top);
    }
  }

  lemma NewNode(g: Super, d: Image, nodes: Nodes, owner: map<nat, Slot>, inum: nat)
    requires Owned(g, d, nodes, owner) && inum !in nodes && AllExact(d, nodes) && ZeroTails(d, nodes)
    ensures var nodes' := nodes[inum := EmptyNode()];
      Owned(g, d, nodes', owner) && AllExact(d, nodes') && ZeroTails(d, nodes')
  {
    hide IsUsed;
    hide Word;
    var nodes' := nodes[inum := EmptyNode()];
    assert forall k :: 0 <= k < MAXFILE ==> Addr(d, EmptyNode(), k) == 0;
    assert Exact(d, EmptyNode());
  }

  ghost predicate AllExact(d: Image, nodes: Nodes)
  {
    forall j :: j in nodes ==> Exact(d, nodes[j])
  }

  /** As AllExact, except that file i has exactly the blocks below `top`. */
  ghost predicate ExactBut(d: Image, nodes: Nodes, i: nat, top: nat)
  {
    && (forall j :: j in nodes && j != i ==> Exact(d, nodes[j]))
    && (i in nodes ==> Filled(d, nodes[i], top))
  }

  /** File i has grown by p and no other file has changed. */
  ghost predicate Appended(d: Image, nodes: Nodes, d': Image, nodes': Nodes, i: nat, p: seq<nat>)
  {
    && OthersSame(d, nodes, d', nodes', i)
    && (i in nodes ==>
       nodes[i].size <= MAXBYTES && nodes'[i].size <= MAXBYTES && Content(d', nodes'[i]) == Content(d, nodes[i]) + p)
    && (ZeroTails(d, nodes) ==> ZeroTails(d', nodes'))
  }

  /** Past its end a file reads as zeroes. */
  ghost predicate ZeroTails(d: Image, nodes: Nodes)
  {
    forall j, x :: j in nodes && nodes[j].size <= x < MAXBYTES ==> ByteAt(d, nodes[j], x) == 0
  }

  lemma TailsStay(d: Image, nodes: Nodes, d': Image, nodes': Nodes, i: nat, p: seq<nat>)
    requires i in nodes && Overwritten(d, nodes, d', nodes', i, nodes[i].size, p) &&
      nodes'[i].size == nodes[i].size + |p|
    requires (forall j :: j in nodes && j != i ==> nodes'[j].size == nodes[j].size) && ZeroTails(d, nodes)
    ensures ZeroTails(d', nodes')
  {
    hide ByteAt;
    forall j, x | j in nodes' && nodes'[j].size <= x < MAXBYTES ensures ByteAt(d', nodes'[j], x) == 0 {
      if j != i {
        assert SameBytes(d, nodes[j], d', nodes'[j]);
      }
    }
  }

  lemma ExactStart(d: Image, nodes: Nodes, i: nat)
    requires i in nodes && AllExact(d, nodes)
    ensures ExactBut(d, nodes, i, nodes[i].size) && nodes[i].size <= MAXBYTES
  {
    hide Addr;
    assert Exact(d, nodes[i]);
  }

  lemma ExactMore(d: Image, nodes: Nodes, d': Image, nodes': Nodes, i: nat, top: nat, m: nat)
    requires i in nodes && ExactBut(d, nodes, i, top) && AlsoNumbered(d, nodes, d', nodes', i, top / BSIZE) &&
      SameSizes(nodes, nodes')
    requires 0 < m && top % BSIZE + m <= BSIZE && i in nodes' && nodes' == nodes[i := nodes'[i]]
    requires nodes'[i].addrs[NDIRECT] != 0 <==> nodes[i].addrs[NDIRECT] != 0 || top / BSIZE >= NDIRECT
    ensures ExactBut(d', nodes', i, top + m)
  {
    hide Addr;
    forall k | 0 <= k < MAXFILE ensures Addr(d', nodes'[i], k) != 0 <==> k * BSIZE < top + m {
      assert k * BSIZE < top + m <==> k * BSIZE < top || k == top / BSIZE;
    }
    forall j | j in nodes' && j != i ensures Exact(d', nodes'[j]) {
      assert Exact(d, nodes[j]);
    }
  }

  lemma ExactEnd(d: Image, nodes: Nodes, i: nat, size: nat)
    requires i in nodes && ExactBut(d, nodes, i, size) && size <= MAXBYTES
    ensures AllExact(d, nodes[i := nodes[i].(size := size)])
  {
    hide Word;
    var n, n' := nodes[i], nodes[i].(size := size);
    assert forall k :: 0 <= k < MAXFILE ==> Addr(d, n', k) == Addr(d, n, k);
  }

  lemma AppendedFile(d: Image, nodes: Nodes, d': Image, nodes': Nodes, i: nat, p: seq<nat>)
    requires i in nodes && nodes[i].size <= MAXBYTES && Overwritten(d, nodes, d', nodes', i, nodes[i].size, p)
    requires nodes'[i].size == nodes[i].size + |p| <= MAXBYTES && (forall j :: j in nodes && j != i ==>
      nodes'[j].size == nodes[j].size)
    ensures Appended(d, nodes, d', nodes', i, p)
  {
    hide ByteAt;
    assert p + [] == p;
    WrittenFile(d, nodes, d', nodes', i, nodes[i].size, p, []);
    OthersUntouched(d, nodes, d', nodes', i, nodes[i].size, p);
    assert Splice(Content(d, nodes[i]), nodes[i].size, p) == Content(d, nodes[i]) + p;
    if ZeroTails(d, nodes) {
      TailsStay(d, nodes, d', nodes', i, p);
    }
  }

  lemma BuiltNodes(d: Image, nodes: Nodes, nodes': Nodes, owner: map<nat, Slot>, owner': map<nat, Slot>, free: nat)
    requires Built(d, nodes, owner, free) && Owned(Layout(), MarkedTo(d, free), nodes', owner')
    ensures Built(d, nodes', owner', free)
  {
    hide Owned;
  }

  /** File block k of inode i has a number, and otherwise the same file blocks have one. */
  ghost predicate AlsoNumbered(d: Image, nodes: Nodes, d': Image, nodes': Nodes, i: nat, k: nat)
  {
    && nodes'.Keys == nodes.Keys
    && (forall j, l :: j in nodes && 0 <= l < MAXFILE ==> (Addr(d', nodes'[j], l) != 0 <==>
       Addr(d, nodes[j], l) != 0 || (j == i && l == k)))
  }
}

/**
 readi() and writei() against the plain view of a file as a sequence of bytes.
 */
module FileData {
  import opened Prelude
  import opened FsFormat
  import opened Bitmap
  import opened Ownership
  import opened Dinodes
  import opened Inodes

  const MAXBYTES := MAXFILE * BSIZE

  /** Byte x of a file; a block that is not there reads as zeroes. */
  function ByteAt(d: Image, n: Inode, x: nat): nat
    requires x < MAXBYTES
  {
    var a := Addr(d, n, x / BSIZE);
    if a == 0 || a !in d then 0 else d[a][x % BSIZE]
  }

  /** The contents of a file. */
  function Content(d: Image, n: Inode): (r: seq<nat>)
    requires n.size <= MAXBYTES
    ensures |r| == n.size
  {
    seq(n.size, x requires 0 <= x < n.size => ByteAt(d, n, x))
  }

  /** Every block of a file that starts below an offset has a number. */
  ghost predicate Covered(d: Image, n: Inode, top: nat)
  {
    forall k :: 0 <= k < MAXFILE && k * BSIZE < top ==> Addr(d, n, k) != 0
  }

  ghost predicate NoHoles(d: Image, n: Inode)
  {
    n.size <= MAXBYTES && Covered(d, n, n.size)
  }

  ghost predicate AllWhole(d: Image, nodes: Nodes)
  {
    forall j :: j in nodes ==> NoHoles(d, nodes[j])
  }

  /** No file gets a hole. */
  ghost predicate KeepsWhole(d: Image, nodes: Nodes, d': Image, nodes': Nodes)
  {
    nodes'.Keys == nodes.Keys && forall j :: j in nodes && NoHoles(d, nodes[j]) ==> NoHoles(d', nodes'[j])
  }

  lemma WholeTrans(d: Image, nodes: Nodes, d1: Image, nodes1: Nodes, d2: Image, nodes2: Nodes)
    requires KeepsWhole(d, nodes, d1, nodes1) && KeepsWhole(d1, nodes1, d2, nodes2)
    ensures KeepsWhole(d, nodes, d2, nodes2)
  {
    hide NoHoles;
  }

  lemma WholeSame(d: Image, nodes: Nodes)
    ensures KeepsWhole(d, nodes, d, nodes)
  {
  }

  /** Overwriting a sequence from an offset on, extending it if need be. */
  function Splice(c: seq<nat>, off: nat, s: seq<nat>): (r: seq<nat>)
    requires off <= |c|
  {
    c[..off] + s + (if off + |s| < |c| then c[off + |s|..] else [])
  }

  ghost predicate SameBytes(d: Image, n: Inode, d': Image, n': Inode)
  {
    forall x :: 0 <= x < MAXBYTES ==> ByteAt(d', n', x) == ByteAt(d, n, x)
  }

  /** bmap() changes no byte of any file. */
  lemma MappingBytes(g: Super, d: Image, nodes: Nodes, owner: map<nat, Slot>, d': Image, nodes': Nodes,
    owner': map<nat, Slot>, i: nat, k: nat, j: nat)
    requires Owned(g, d, nodes, owner) && i in nodes && k < MAXFILE &&
      Mapping(d, nodes, owner, d', nodes', owner', i, k) && j in nodes
    ensures SameBytes(d, nodes[j], d', nodes'[j])
  {
    hide Addr;
    hide IsUsed;
    forall x | 0 <= x < MAXBYTES ensures ByteAt(d', nodes'[j], x) == ByteAt(d, nodes[j], x) {
      var l := x / BSIZE;
      var a := Addr(d, nodes[j], l);
      if a != 0 {
        assert Points(owner, a, Data(j, l));
      }
    }
  }

  /** Writing one data block changes exactly that block's bytes of that file. */
  lemma DataBytes(g: Super, d: Image, nodes: Nodes, owner: map<nat, Slot>, i: nat, k: nat, data: Sector, j: nat, x: nat)
    requires Owned(g, d, nodes, owner) && i in nodes && k < MAXFILE && Addr(d, nodes[i], k) != 0 && j in nodes &&
      x < MAXBYTES
    ensures var d' := d[Addr(d, nodes[i], k) := data];
            ByteAt(d', nodes[j], x) == if j == i && x / BSIZE == k then data[x % BSIZE] else ByteAt(d, nodes[j], x)
  {
    hide IsUsed;
    hide Addr;
    var b := Addr(d, nodes[i], k);
    var d' := d[b := data];
    assert Points(owner, b, Data(i, k));
    DataOwned(g, d, nodes, owner, b, data);
    var l := x / BSIZE;
    assert Addr(d', nodes[j], l) == Addr(d, nodes[j], l);
    if Addr(d, nodes[j], l) != 0 {
      assert Points(owner, Addr(d, nodes[j], l), Data(j, l));
    }
  }

  lemma MappingHoles(d: Image, nodes: Nodes, owner: map<nat, Slot>, d': Image, nodes': Nodes, owner': map<nat, Slot>,
    i: nat, k: nat)
    requires i in nodes && k < MAXFILE && Mapping(d, nodes, owner, d', nodes', owner', i, k)
    ensures KeepsWhole(d, nodes, d', nodes')
  {
    hide Addr;
  }

  lemma DataHoles(d: Image, d': Image, nodes: Nodes)
    requires SameAddrs(d, d', nodes)
    ensures KeepsWhole(d, nodes, d', nodes)
  {
    hide Addr;
  }

  function Min(a: nat, b: nat): nat {
    if a < b then a else b
  }

  /** How much of the block at off the next round of a transfer handles. */
  function Chunk(off: nat, left: nat): (m: nat)
    requires left > 0
    ensures 0 < m <= left && off % BSIZE + m <= BSIZE
  {
    Min(left, BSIZE - off % BSIZE)
  }

  lemma ChunkBlock(off: nat, m: nat, t: nat)
    requires t < m && off % BSIZE + m <= BSIZE
    ensures (off + t) / BSIZE == off / BSIZE && (off + t) % BSIZE == off % BSIZE + t
  {
  }

  /** What readi() can deliver of a file of a given size: nothing if the range starts past the end or wraps. */
  function Available(size: nat, off: nat, n: nat): nat {
    if off > size || (off + n) % UINT < off then 0 else if off + n > size then size - off else n
  }

  // ---- readi ----

  /** The transfer of `len` bytes at `off` touches file block k. */
  predicate Meets(off: nat, len: nat, k: nat) {
    len > 0 && k * BSIZE < off + len && off < (k + 1) * BSIZE
  }

  ghost predicate Numbered(d: Image, n: Inode, k: nat)
  {
    k < MAXFILE && Addr(d, n, k) != 0
  }

  /** Every block that a transfer touches has a number. */
  ghost predicate AllThere(d: Image, n: Inode, off: nat, len: nat)
  {
    forall k: nat :: Meets(off, len, k) ==> Numbered(d, n, k)
  }

  lemma MeetsMore(off: nat, tot: nat, m: nat, k: nat)
    requires 0 < m && (off + tot) % BSIZE + m <= BSIZE
    ensures Meets(off, tot + m, k) <==> Meets(off, tot, k) || k == (off + tot) / BSIZE
  {
    var q := (off + tot) / BSIZE;
    assert off + tot == q * BSIZE + (off + tot) % BSIZE;
    if k < q {
      assert (k + 1) * BSIZE <= q * BSIZE;
    }
  }

  lemma ThereMore(d: Image, n: Inode, off: nat, tot: nat, m: nat)
    requires 0 < m && (off + tot) % BSIZE + m <= BSIZE
    ensures AllThere(d, n, off, tot + m) <==> AllThere(d, n, off, tot) && Numbered(d, n, (off + tot) / BSIZE)
  {
    hide Meets;
    hide Numbered;
    forall k: nat ensures Meets(off, tot + m, k) <==> Meets(off, tot, k) || k == (off + tot) / BSIZE {
      MeetsMore(off, tot, m, k);
    }
  }

  /** A transfer copies once for each block, at its start. */
  predicate Starts(off: nat, t: nat) {
    t == 0 || (off + t) % BSIZE == 0
  }

  ghost predicate AllCopied(off: nat, tot: nat, copies: nat -> bool) {
    forall t: nat :: t < tot && Starts(off, t) ==> copies(t)
  }

  lemma CopiedMore(off: nat, tot: nat, m: nat, copies: nat -> bool)
    requires AllCopied(off, tot, copies) && copies(tot) && (off + tot) % BSIZE + m <= BSIZE
    ensures AllCopied(off, tot + m, copies)
  {
    forall t: nat ensures tot < t < tot + m ==> !Starts(off, t) {
      NoStart(off, tot, m, t);
    }
  }

  lemma NoStart(off: nat, tot: nat, m: nat, t: nat)
    requires (off + tot) % BSIZE + m <= BSIZE
    ensures tot < t < tot + m ==> !Starts(off, t)
  {
    if tot < t < tot + m {
      ChunkBlock(off + tot, m, t - tot);
    }
  }

  lemma NextStart(off: nat, left: nat)
    requires left > 0
    ensures Chunk(off, left) < left ==> (off + Chunk(off, left)) % BSIZE == 0
  {
  }

  /** Reading may give a block its number; no byte and no size changes. */
  ghost predicate Peeked(d: Image, nodes: Nodes, d': Image, nodes': Nodes)
  {
    && SameSizes(nodes, nodes') && KeepsWhole(d, nodes, d', nodes')
    && (forall j :: j in nodes ==> SameBytes(d, nodes[j], d', nodes'[j]))
    && (forall j, k: nat :: j in nodes && Numbered(d, nodes[j], k) ==> Numbered(d', nodes'[j], k))
  }

  lemma PeekedSame(d: Image, nodes: Nodes)
    ensures Peeked(d, nodes, d, nodes)
  {
    hide ByteAt;
    hide NoHoles;
    hide Numbered;
  }

  lemma PeekedTrans(d: Image, nodes: Nodes, d1: Image, nodes1: Nodes, d2: Image, nodes2: Nodes)
    requires Peeked(d, nodes, d1, nodes1) && Peeked(d1, nodes1, d2, nodes2)
    ensures Peeked(d, nodes, d2, nodes2)
  {
    hide ByteAt;
    hide NoHoles;
    hide Numbered;
  }

  lemma MappingPeeked(g: Super, d: Image, nodes: Nodes, owner: map<nat, Slot>, d': Image, nodes': Nodes,
    owner': map<nat, Slot>, i: nat, k: nat)
    requires Owned(g, d, nodes, owner) && i in nodes && k < MAXFILE &&
      Mapping(d, nodes, owner, d', nodes', owner', i, k)
    ensures Peeked(d, nodes, d', nodes') && forall x :: x in owner ==> x in owner'
  {
    hide Owned;
    hide Addr;
    hide ByteAt;
    MappingHoles(d, nodes, owner, d', nodes', owner', i, k);
    forall j | j in nodes ensures SameBytes(d, nodes[j], d', nodes'[j]) {
      MappingBytes(g, d, nodes, owner, d', nodes', owner', i, k, j);
    }
    forall j, l: nat | j in nodes && Numbered(d, nodes[j], l) ensures Numbered(d', nodes'[j], l) {
    }
  }

  /** What reading can change. */
  datatype Sight = Sight(disk: Image, nodes: Nodes, owner: map<nat, Slot>, logged: set<nat>)

  /** File block k of inode i has been looked up. */
  ghost predicate Looked(a: Sight, b: Sight, i: nat, k: nat)
  {
    && i in a.nodes && Peeked(a.disk, a.nodes, b.disk, b.nodes) && Numbered(b.disk, b.nodes[i], k)
    && (forall x :: x in a.owner ==> x in b.owner)
    && (if Numbered(a.disk, a.nodes[i], k) then b == a else exists x :: x in b.owner && x !in a.owner)
  }

  /** All blocks of a range have been looked up. */
  ghost predicate Reading(a: Sight, b: Sight, i: nat, off: nat, tot: nat)
  {
    && i in a.nodes && Peeked(a.disk, a.nodes, b.disk, b.nodes) && AllThere(b.disk, b.nodes[i], off, tot)
    && (forall x :: x in a.owner ==> x in b.owner)
    && (if AllThere(a.disk, a.nodes[i], off, tot) then b == a else exists x :: x in b.owner && x !in a.owner)
  }

  lemma ReadingNone(a: Sight, i: nat, off: nat)
    requires i in a.nodes
    ensures Reading(a, a, i, off, 0)
  {
    hide Peeked;
    hide Numbered;
    PeekedSame(a.disk, a.nodes);
  }

  lemma ReadingMore(a: Sight, b: Sight, c: Sight, i: nat, off: nat, tot: nat, m: nat)
    requires Reading(a, b, i, off, tot) && Looked(b, c, i, (off + tot) / BSIZE) && 0 < m &&
      (off + tot) % BSIZE + m <= BSIZE
    ensures Reading(a, c, i, off, tot + m)
  {
    hide AllThere;
    hide Numbered;
    hide SameBytes;
    hide KeepsWhole;
    PeekedTrans(a.disk, a.nodes, b.disk, b.nodes, c.disk, c.nodes);
    PeekedThere(b.disk, b.nodes, c.disk, c.nodes, i, off, tot);
    hide Peeked;
    ThereMore(a.disk, a.nodes[i], off, tot, m);
    ThereMore(c.disk, c.nodes[i], off, tot, m);
  }

  /** A range whose blocks are all there stays clear of the panic. */
  lemma ReadingThere(a: Sight, b: Sight, i: nat, off: nat, tot: nat, m: nat, len: nat)
    requires Reading(a, b, i, off, tot) && 0 < m && (off + tot) % BSIZE + m <= BSIZE && tot + m <= len
    ensures AllThere(a.disk, a.nodes[i], off, len) ==>
      b == a && Numbered(a.disk, a.nodes[i], (off + tot) / BSIZE) && AllThere(a.disk, a.nodes[i], off, tot + m)
  {
    hide AllThere;
    hide Numbered;
    hide Peeked;
    ThereLater(a.disk, a.nodes[i], off, tot + m, len);
    ThereMore(a.disk, a.nodes[i], off, tot, m);
  }

  lemma ReadingEnd(a: Sight, b: Sight, i: nat, off: nat, len: nat)
    requires Reading(a, b, i, off, len)
    ensures i in b.nodes && AllThere(b.disk, b.nodes[i], off, len) && Peeked(a.disk, a.nodes, b.disk, b.nodes)
    ensures AllThere(a.disk, a.nodes[i], off, len) ==> b == a
    ensures b.owner == a.owner <==> AllThere(a.disk, a.nodes[i], off, len)
  {
    hide AllThere;
    hide SameBytes;
    hide KeepsWhole;
    hide Numbered;
  }

  /** One round of readi(): true is the panic of bmap(). */
  method ReadRound(fs: FileSystem, i: nat, off: nat, m: nat) returns (panic: bool, chunk: seq<nat>)
    requires fs.Valid() && i in fs.nodes && 0 < m && off % BSIZE + m <= BSIZE
    modifies fs
    ensures panic ==> off / BSIZE >= MAXFILE || NoFree(fs.g, fs.disk)
    ensures Numbered(old(fs.disk), old(fs.nodes)[i], off / BSIZE) ==> !panic
    ensures !panic ==>
      fs.Valid() && fs.written == old(fs.written) && off + m <= MAXBYTES && i in fs.nodes &&
      Looked(old(Sight(fs.disk, fs.nodes, fs.owner, fs.logged)), Sight(fs.disk, fs.nodes, fs.owner, fs.logged), i,
      off / BSIZE)
    ensures !panic ==> |chunk| == m && forall t :: 0 <= t < m ==> chunk[t] == ByteAt(fs.disk, fs.nodes[i], off + t)
  {
    hide Addr;
    hide Owned;
    hide Peeked;
    chunk := [];
    ghost var d0, nodes0, owner0 := fs.disk, fs.nodes, fs.owner;
    var a;
    ghost var maps;
    a, maps := fs.Bmap(i, off / BSIZE);
    if a.None? {
      return true, chunk;
    }
    MappingPeeked(fs.g, d0, nodes0, owner0, fs.disk, fs.nodes, fs.owner, i, off / BSIZE);
    BlockThere(fs.g, fs.disk, fs.nodes, fs.owner, i, off / BSIZE);
    var bp := fs.disk[a.value];
    chunk := bp[off % BSIZE..off % BSIZE + m];
    forall t | 0 <= t < m ensures off + t < MAXBYTES && chunk[t] == ByteAt(fs.disk, fs.nodes[i], off + t) {
      ChunkBlock(off, m, t);
    }
    panic := false;
  }

  lemma BlockThere(g: Super, d: Image, nodes: Nodes, owner: map<nat, Slot>, i: nat, k: nat)
    requires Owned(g, d, nodes, owner) && i in nodes && k < MAXFILE && Addr(d, nodes[i], k) != 0
    ensures Addr(d, nodes[i], k) in d && Points(owner, Addr(d, nodes[i], k), Data(i, k))
  {
    hide Addr;
    hide IsUsed;
  }

  twostate predicate Untouched(fs: FileSystem)
    reads fs
  {
    fs.disk == old(fs.disk) && fs.nodes == old(fs.nodes) && fs.owner == old(fs.owner) &&
      fs.written == old(fs.written) && fs.logged == old(fs.logged)
  }

  /**
   readi(): exactly the bytes of the file in the range, clipped at its end, or -1 exactly if a copy to the user fails.
   No byte of any file changes.  A block of the range without a number, which reads as zeroes, gets one: something is
   allocated exactly if there is such a block, and only then can the call panic.
   */
  method Readi(fs: FileSystem, i: nat, off: nat, n: nat, copies: nat -> bool)
    returns (panic: bool, r: int, data: seq<nat>)
    requires fs.Valid() && i in fs.nodes && off < UINT && n < UINT
    modifies fs
    ensures !panic ==>
      fs.Valid() && fs.written == old(fs.written) && Peeked(old(fs.disk), old(fs.nodes), fs.disk, fs.nodes)
    ensures var n0 := old(fs.nodes)[i]; var len := Available(n0.size, off, n);
            && (panic ==> NoFree(fs.g, fs.disk) || off + len > MAXBYTES)
            && (AllThere(old(fs.disk), n0, off, len) ==> !panic && Untouched(fs))
            && (!panic ==> (r == -1 <==> !AllCopied(off, len, copies)))
            && (!panic && r != -1 ==> r == len == |data| && AllThere(fs.disk, fs.nodes[i], off, len))
            && (!panic && r != -1 ==> (fs.owner == old(fs.owner) <==> AllThere(old(fs.disk), n0, off, len)))
            && (!panic && r > 0 && n0.size <= MAXBYTES ==>
               off + r <= n0.size && data == Content(old(fs.disk), n0)[off..off + r])
    ensures !panic && r != -1 ==> |data| == r && forall t :: 0 <= t < r ==>
      off + t < MAXBYTES && data[t] == ByteAt(old(fs.disk), old(fs.nodes)[i], off + t)
  {
    hide Addr;
    hide Owned;
    hide ByteAt;
    hide Peeked;
    hide AllThere;
    hide AllCopied;
    hide Numbered;
    hide Content;
    hide Reading;
    hide Looked;
    hide Chunk;
    data := [];
    panic := false;
    ghost var a := Sight(fs.disk, fs.nodes, fs.owner, fs.logged);
    ReadingNone(a, i, off);
    ReadingEnd(a, a, i, off, 0);
    CopiedNone(off, copies);
    var size := fs.nodes[i].size;
    if off > size || (off + n) % UINT < off {
      return panic, 0, data;
    }
    var want := if off + n > size then size - off else n;
    var tot := 0;
    while tot < want
      invariant 0 <= tot <= want && fs.Valid() && fs.written == old(fs.written) && !panic && i in fs.nodes
      invariant (tot == 0 || off + tot <= MAXBYTES) && (0 < tot < want ==> (off + tot) % BSIZE == 0)
      invariant Reading(a, Sight(fs.disk, fs.nodes, fs.owner, fs.logged), i, off, tot) && AllCopied(off, tot, copies)
      invariant |data| == tot && forall t :: 0 <= t < tot ==> data[t] == ByteAt(a.disk, a.nodes[i], off + t)
    {
      var m := Chunk(off + tot, want - tot);
      ghost var b := Sight(fs.disk, fs.nodes, fs.owner, fs.logged);
      ReadingThere(a, b, i, off, tot, m, want);
      var stop, chunk := ReadRound(fs, i, off + tot, m);
      if stop {
        return true, 0, data;
      }
      ghost var c := Sight(fs.disk, fs.nodes, fs.owner, fs.logged);
      ReadingMore(a, b, c, i, off, tot, m);
      ReadingEnd(a, c, i, off, tot + m);
      PeekedFile(a.disk, a.nodes, c.disk, c.nodes, i, off + tot, chunk);
      if !copies(tot) {
        NotCopied(off, tot, want, copies);
        return panic, -1, data;
      }
      CopiedMore(off, tot, m, copies);
      NextStart(off + tot, want - tot);
      data := data + chunk;
      tot := tot + m;
    }
    ReadingEnd(a, Sight(fs.disk, fs.nodes, fs.owner, fs.logged), i, off, tot);
    if size <= MAXBYTES {
      ContentSlice(a.disk, a.nodes[i], off, data);
    }
    r := tot;
  }

  lemma ThereLater(d: Image, n: Inode, off: nat, a: nat, b: nat)
    requires a <= b
    ensures AllThere(d, n, off, b) ==> AllThere(d, n, off, a)
  {
    hide Numbered;
    assert forall k: nat :: Meets(off, a, k) ==> Meets(off, b, k);
  }

  lemma CopiedNone(off: nat, copies: nat -> bool)
    ensures AllCopied(off, 0, copies)
  {
  }

  lemma NotCopied(off: nat, t: nat, len: nat, copies: nat -> bool)
    requires t < len && Starts(off, t) && !copies(t)
    ensures !AllCopied(off, len, copies)
  {
  }

  lemma PeekedThere(d: Image, nodes: Nodes, d': Image, nodes': Nodes, i: nat, off: nat, len: nat)
    requires Peeked(d, nodes, d', nodes') && i in nodes && AllThere(d, nodes[i], off, len)
    ensures AllThere(d', nodes'[i], off, len)
  {
    hide Numbered;
    hide Meets;
    hide SameBytes;
    hide NoHoles;
  }

  lemma PeekedFile(d: Image, nodes: Nodes, d': Image, nodes': Nodes, i: nat, off: nat, chunk: seq<nat>)
    requires Peeked(d, nodes, d', nodes') && i in nodes && off + |chunk| <= MAXBYTES
    requires forall t :: 0 <= t < |chunk| ==> chunk[t] == ByteAt(d', nodes'[i], off + t)
    ensures forall t :: 0 <= t < |chunk| ==> chunk[t] == ByteAt(d, nodes[i], off + t)
  {
    hide ByteAt;
    hide NoHoles;
    hide Numbered;
    assert SameBytes(d, nodes[i], d', nodes'[i]);
  }

  lemma ContentSlice(d: Image, n: Inode, off: nat, data: seq<nat>)
    requires off + |data| <= n.size && (data != [] ==> n.size <= MAXBYTES) && forall t ::
      0 <= t < |data| && off + t < MAXBYTES ==> data[t] == ByteAt(d, n, off + t)
    ensures data != [] ==> data == Content(d, n)[off..off + |data|]
  {
    hide ByteAt;
  }

  // ---- writei ----

  datatype RoundResult = Wrote | CopyFailed | Full

  /** A sequence of bytes. */
  ghost predicate Bytes(s: seq<nat>)
  {
    forall t :: 0 <= t < |s| ==> s[t] < 256
  }

  /** A block with the bytes from o on replaced. */
  function Patched(b: Sector, o: nat, s: seq<nat>): (r: Sector)
    requires o + |s| <= BSIZE && Bytes(s)
  {
    b[..o] + s + b[o + |s|..]
  }

  /** File i has the bytes s from off on, and no other byte of any file has changed. */
  ghost predicate Overwritten(d: Image, nodes: Nodes, d': Image, nodes': Nodes, i: nat, off: nat, s: seq<nat>)
  {
    && nodes'.Keys == nodes.Keys
    && (forall j :: j in nodes && j != i ==> SameBytes(d, nodes[j], d', nodes'[j]))
    && (i in nodes ==> forall x :: 0 <= x < MAXBYTES ==>
       ByteAt(d', nodes'[i], x) == if off <= x < off + |s| then s[x - off] else ByteAt(d, nodes[i], x))
  }

  /** Blocks that had a number still have one. */
  ghost predicate StillNumbered(d: Image, n: Inode, d': Image, n': Inode)
  {
    forall k :: 0 <= k < MAXFILE && Addr(d, n, k) != 0 ==> Addr(d', n', k) != 0
  }

  lemma PatchedBytes(g: Super, d: Image, nodes: Nodes, owner: map<nat, Slot>, i: nat, off: nat, s: seq<nat>)
    requires Owned(g, d, nodes, owner) && i in nodes && off % BSIZE + |s| <= BSIZE && off < MAXBYTES && Bytes(s)
    requires Addr(d, nodes[i], off / BSIZE) != 0 && Addr(d, nodes[i], off / BSIZE) in d
    ensures var a := Addr(d, nodes[i], off / BSIZE);
            Overwritten(d, nodes, d[a := Patched(d[a], off % BSIZE, s)], nodes, i, off, s)
  {
    hide Owned;
    hide Addr;
    var k := off / BSIZE;
    var a := Addr(d, nodes[i], k);
    var data := Patched(d[a], off % BSIZE, s);
    var d' := d[a := data];
    forall j, x | j in nodes && 0 <= x < MAXBYTES
      ensures ByteAt(d', nodes[j], x) == if j == i && off <= x < off + |s| then s[x - off] else ByteAt(d, nodes[j], x)
    {
      DataBytes(g, d, nodes, owner, i, k, data, j, x);
      SameBlock(off, x, |s|);
    }
  }

  lemma SameBlock(off: nat, x: nat, m: nat)
    requires off % BSIZE + m <= BSIZE
    ensures off <= x < off + m ==> x / BSIZE == off / BSIZE && x % BSIZE == off % BSIZE + (x - off)
    ensures x / BSIZE == off / BSIZE && !(off <= x < off + m) ==>
      x % BSIZE < off % BSIZE || x % BSIZE >= off % BSIZE + m
  {
  }

  lemma OverwrittenAfter(d: Image, nodes: Nodes, d1: Image, nodes1: Nodes, d2: Image, nodes2: Nodes, i: nat, off: nat,
    s: seq<nat>)
    requires nodes1.Keys == nodes.Keys && (forall j :: j in nodes ==> SameBytes(d, nodes[j], d1, nodes1[j]))
    requires Overwritten(d1, nodes1, d2, nodes2, i, off, s)
    ensures Overwritten(d, nodes, d2, nodes2, i, off, s)
  {
    hide ByteAt;
  }

  ghost predicate SameSizes(nodes: Nodes, nodes': Nodes)
  {
    nodes'.Keys == nodes.Keys && forall j :: j in nodes ==> nodes'[j].size == nodes[j].size
  }

  /** What a write knows and changes. */
  datatype Snap = Snap(disk: Image, nodes: Nodes, logged: set<nat>)

  /** What a round of writei() has done. */
  ghost predicate Rounded(b: Snap, c: Snap, i: nat, off: nat, t: seq<nat>, a: nat, more: set<nat>)
  {
    && i in b.nodes && SameSizes(b.nodes, c.nodes) && KeepsWhole(b.disk, b.nodes, c.disk, c.nodes)
    && Overwritten(b.disk, b.nodes, c.disk, c.nodes, i, off, t)
    && StillNumbered(b.disk, b.nodes[i], c.disk, c.nodes[i]) && off / BSIZE < MAXFILE
    && Addr(c.disk, c.nodes[i], off / BSIZE) != 0
    && |more| <= Needs(b.disk, b.nodes[i], off / BSIZE)
    && c.logged <= b.logged + more + {a} + Via(c.nodes[i], off / BSIZE)
    && (off / BSIZE < NDIRECT || b.nodes[i].addrs[NDIRECT] != 0 ==>
       c.nodes[i].addrs[NDIRECT] == b.nodes[i].addrs[NDIRECT])
    && (off / BSIZE >= NDIRECT ==> c.nodes[i].addrs[NDIRECT] != 0)
  }

  /** One round of writei(), except that a failed copy may leave anything in the place of its bytes. */
  method WriteRound(fs: FileSystem, i: nat, off: nat, s: seq<nat>, copied: bool, torn: seq<nat>)
    returns (r: RoundResult, a: nat, ghost maps: set<nat>)
    requires fs.Valid() && i in fs.nodes
    requires 0 < |s| && off % BSIZE + |s| <= BSIZE && off + |s| <= MAXBYTES && Bytes(s) && Bytes(torn) && |torn| == |s|
    modifies fs
    ensures r.Full? ==> NoFree(fs.g, fs.disk)
    ensures !r.Full? ==>
      fs.Valid() && fs.written == old(fs.written) && (r.Wrote? <==> copied) && old(fs.logged) <= fs.logged
    ensures !r.Full? ==>
      Rounded(old(Snap(fs.disk, fs.nodes, fs.logged)), Snap(fs.disk, fs.nodes, fs.logged), i, off, if copied
      then s else torn, a, maps)
  {
    hide Addr;
    hide Owned;
    hide IsUsed;
    hide ByteAt;
    hide KeepsWhole;
    hide Needs;
    hide Bytes;
    a := 0;
    ghost var d0, nodes0, owner0 := fs.disk, fs.nodes, fs.owner;
    var b;
    b, maps := fs.Bmap(i, off / BSIZE);
    if b.None? {
      return Full, a, maps;
    }
    a := b.value;
    forall j | j in nodes0 ensures SameBytes(d0, nodes0[j], fs.disk, fs.nodes[j]) {
      MappingBytes(fs.g, d0, nodes0, owner0, fs.disk, fs.nodes, fs.owner, i, off / BSIZE, j);
    }
    MappingHoles(d0, nodes0, owner0, fs.disk, fs.nodes, fs.owner, i, off / BSIZE);
    BlockThere(fs.g, fs.disk, fs.nodes, fs.owner, i, off / BSIZE);
    var now := if copied then s else torn;
    PatchedBytes(fs.g, fs.disk, fs.nodes, fs.owner, i, off, now);
    var data := Patched(fs.disk[a], off % BSIZE, now);
    DataOwned(fs.g, fs.disk, fs.nodes, fs.owner, a, data);
    DataHoles(fs.disk, fs.disk[a := data], fs.nodes);
    WholeTrans(d0, nodes0, fs.disk, fs.nodes, fs.disk[a := data], fs.nodes);
    OverwrittenAfter(d0, nodes0, fs.disk, fs.nodes, fs.disk[a := data], fs.nodes, i, off, now);
    fs.disk := fs.disk[a := data];
    if !copied {
      return CopyFailed, a, maps;
    }
    fs.logged := fs.logged + {a};
    return Wrote, a, maps;
  }

  lemma OverwrittenMore(d: Image, nodes: Nodes, d1: Image, nodes1: Nodes, d2: Image, nodes2: Nodes, i: nat, off: nat,
    s: seq<nat>, t: seq<nat>)
    requires i in nodes && Overwritten(d, nodes, d1, nodes1, i, off, s) &&
      Overwritten(d1, nodes1, d2, nodes2, i, off + |s|, t)
    ensures Overwritten(d, nodes, d2, nodes2, i, off, s + t)
  {
    hide ByteAt;
  }

  lemma OverwrittenNone(d: Image, nodes: Nodes, i: nat, off: nat)
    ensures Overwritten(d, nodes, d, nodes, i, off, [])
  {
    hide ByteAt;
  }

  lemma CoveredMore(d: Image, n: Inode, d': Image, n': Inode, top: nat, m: nat)
    requires Covered(d, n, top) && StillNumbered(d, n, d', n') && top / BSIZE < MAXFILE &&
      Addr(d', n', top / BSIZE) != 0
    requires top % BSIZE + m <= BSIZE
    ensures Covered(d', n', top + m)
  {
    hide Addr;
    forall k | 0 <= k < MAXFILE && k * BSIZE < top + m ensures Addr(d', n', k) != 0 {
      if k * BSIZE >= top {
        assert k == top / BSIZE;
      }
    }
  }

  lemma CoveredStays(d: Image, n: Inode, d': Image, n': Inode, top: nat)
    requires Covered(d, n, top) && StillNumbered(d, n, d', n')
    ensures Covered(d', n', top)
  {
    hide Addr;
  }

  // ---- what a write logs ----

  /** How many blocks a range of bytes touches. */
  function Touched(off: nat, n: nat): nat {
    if n == 0 then 0 else (off + n - 1) / BSIZE - off / BSIZE + 1
  }

  /** The block at off, unless the transfer starts at its first byte, has a number. */
  ghost predicate FirstThere(d: Image, n: Inode, off: nat)
  {
    off % BSIZE != 0 && Numbered(d, n, off / BSIZE)
  }

  /** The most blocks that a write may log: data, bit map, indirect and inode blocks. */
  function Budget(off: nat, n: nat, first: bool): nat {
    var t := Touched(off, n);
    2 * t + 3 - (if first && t > 0 then 1 else 0)
  }

  /**
   Any chunk that filewrite() passes to writei() stays within MAXOPBLOCKS, if the block in which it starts is there; a
   hole costs one block more.
   */
  lemma BudgetFits(off: nat, n: nat, first: bool)
    requires n <= 3 * BSIZE
    ensures Budget(off, n, first) <= if off % BSIZE == 0 || first then 10 else 11
  {
    var q, r := off / BSIZE, off % BSIZE;
    if n > 0 {
      assert off + n - 1 == q * BSIZE + (r + n - 1);
      assert (off + n - 1) / BSIZE == q + (r + n - 1) / BSIZE;
    }
  }

  /** Rounds taken so far: whole blocks after the first. */
  predicate Progress(off: nat, tot: nat, n: nat, rounds: nat) {
    && tot <= n
    && (tot == 0 ==> rounds == 0)
    && (0 < tot < n ==> (off + tot) % BSIZE == 0)
    && (0 < tot ==> rounds == Touched(off, tot))
  }

  lemma ProgressNone(off: nat, n: nat)
    ensures Progress(off, 0, n, 0)
  {
  }

  lemma ProgressOne(off: nat, tot: nat, n: nat, rounds: nat)
    requires Progress(off, tot, n, rounds) && tot < n
    ensures Progress(off, tot + Chunk(off + tot, n - tot), n, rounds + 1)
    ensures rounds + 1 <= Touched(off, n)
  {
    var m := Chunk(off + tot, n - tot);
    assert (off + tot + m - 1) / BSIZE == (off + tot) / BSIZE by {
      ChunkBlock(off + tot, m, m - 1);
    }
    if tot > 0 {
      assert (off + tot - 1) / BSIZE + 1 == (off + tot) / BSIZE;
    }
    assert (off + tot) / BSIZE <= (off + n - 1) / BSIZE;
  }

  /** The account of a write: at most one data block and one allocation a round, and one indirect block. */
  ghost predicate Ledger(logged0: set<nat>, logged: set<nat>, data: set<nat>, maps: set<nat>, ind0: nat, ind: nat,
    rounds: nat, aligned: bool)
  {
    && logged <= logged0 + data + maps + (if ind == 0 then {} else {ind})
    && |data| <= rounds
    && |maps| <= rounds - (if aligned || rounds == 0 then 0 else 1) + (if ind0 == 0 && ind != 0 then 1 else 0)
    && (ind0 != 0 ==> ind == ind0)
  }

  lemma LedgerOne(logged0: set<nat>, logged: set<nat>, logged': set<nat>, data: set<nat>, maps: set<nat>, ind0: nat,
    ind: nat, ind': nat, rounds: nat, aligned: bool, a: nat, more: set<nat>, via: set<nat>)
    requires Ledger(logged0, logged, data, maps, ind0, ind, rounds, aligned) && logged' <= logged + more + {a} + via
    requires (ind != 0 ==> ind' == ind) && via <= (if ind' == 0 then {} else {ind'})
    requires |more| <= 1 + (if ind == 0 && ind' != 0 then 1 else 0) && (rounds == 0 && !aligned ==> more == {})
    ensures Ledger(logged0, logged', data + {a}, maps + more, ind0, ind', rounds + 1, aligned)
  {
    UnionSize(data, {a});
    UnionSize(maps, more);
  }

  lemma LedgerBound(logged0: set<nat>, logged: set<nat>, data: set<nat>, maps: set<nat>, ind0: nat, ind: nat,
    rounds: nat, off: nat, n: nat, first: bool, iblock: nat)
    requires Ledger(logged0, logged, data, maps, ind0, ind, rounds, !first) && rounds <= Touched(off, n)
    ensures |logged + {iblock} - logged0| <= Budget(off, n, first)
  {
    var rest := (if ind == 0 then {} else {ind}) + {iblock};
    assert |rest| <= 2;
    UnionSize(data, maps);
    UnionSize(data + maps, rest);
    SubsetSize(logged + {iblock} - logged0, data + maps + rest);
  }

  datatype WriteResult = Count(n: int) | DiskFull

  /** How many allocations one round can need. */
  lemma NeedsAtMost(d: Image, n: Inode, d': Image, n': Inode, k: nat)
    requires k < MAXFILE && (k >= NDIRECT ==> n'.addrs[NDIRECT] != 0)
    requires k < NDIRECT || n.addrs[NDIRECT] != 0 ==> n'.addrs[NDIRECT] == n.addrs[NDIRECT]
    ensures Needs(d, n, k) <= 1 + (if n.addrs[NDIRECT] == 0 && n'.addrs[NDIRECT] != 0 then 1 else 0)
    ensures Via(n', k) <= if n'.addrs[NDIRECT] == 0 then {} else {n'.addrs[NDIRECT]}
    ensures Addr(d, n, k) != 0 ==> Needs(d, n, k) == 0
  {
    hide Addr;
  }

  /** A write to a file without holes that starts inside a block starts in a block that is there. */
  lemma FirstBlock(d: Image, n: Inode, off: nat)
    requires NoHoles(d, n) && off <= n.size && off % BSIZE != 0
    ensures FirstThere(d, n, off)
  {
    hide Addr;
  }

  lemma EmptySet(s: set<nat>)
    ensures |s| == 0 ==> s == {}
  {
  }

  /** The state of writei() after writing s: `tot` good bytes, in so many rounds. */
  ghost predicate Writing(a: Snap, b: Snap, i: nat, off: nat, s: seq<nat>, tot: nat, rounds: nat, data: set<nat>,
    maps: set<nat>)
  {
    && i in a.nodes && SameSizes(a.nodes, b.nodes) && KeepsWhole(a.disk, a.nodes, b.disk, b.nodes)
    && StillNumbered(a.disk, a.nodes[i], b.disk, b.nodes[i])
    && Overwritten(a.disk, a.nodes, b.disk, b.nodes, i, off, s)
    && (NoHoles(a.disk, a.nodes[i]) ==> Covered(b.disk, b.nodes[i], off + tot))
    && Ledger(a.logged, b.logged, data, maps, a.nodes[i].addrs[NDIRECT], b.nodes[i].addrs[NDIRECT], rounds,
       !FirstThere(a.disk, a.nodes[i], off))
  }

  lemma WritingAccount(a: Snap, b: Snap, c: Snap, i: nat, off: nat, s: seq<nat>, t: seq<nat>, rounds: nat,
    data: set<nat>, maps: set<nat>, addr: nat, more: set<nat>)
    requires Writing(a, b, i, off, s, |s|, rounds, data, maps) && Rounded(b, c, i, off + |s|, t, addr, more)
    requires s == [] <==> rounds == 0
    ensures Ledger(a.logged, c.logged, data + {addr}, maps + more, a.nodes[i].addrs[NDIRECT],
      c.nodes[i].addrs[NDIRECT], rounds + 1, !FirstThere(a.disk, a.nodes[i], off))
  {
    hide Addr;
    hide Overwritten;
    hide Covered;
    hide NoHoles;
    hide Needs;
    hide Via;
    hide Ledger;
    NeedsAtMost(b.disk, b.nodes[i], c.disk, c.nodes[i], (off + |s|) / BSIZE);
    EmptySet(more);
    LedgerOne(a.logged, b.logged, c.logged, data, maps, a.nodes[i].addrs[NDIRECT], b.nodes[i].addrs[NDIRECT],
      c.nodes[i].addrs[NDIRECT], rounds, !FirstThere(a.disk, a.nodes[i], off), addr, more,
      Via(c.nodes[i], (off + |s|) / BSIZE));
  }

  lemma StillTrans(d: Image, n: Inode, d1: Image, n1: Inode, d2: Image, n2: Inode)
    requires StillNumbered(d, n, d1, n1) && StillNumbered(d1, n1, d2, n2)
    ensures StillNumbered(d, n, d2, n2)
  {
    hide Addr;
  }

  /** One round takes the state of a write on by the bytes of that round; spoilt bytes do not count. */
  lemma WritingOne(a: Snap, b: Snap, c: Snap, i: nat, off: nat, s: seq<nat>, t: seq<nat>, good: bool, rounds: nat,
    data: set<nat>, maps: set<nat>, addr: nat, more: set<nat>)
    requires Writing(a, b, i, off, s, |s|, rounds, data, maps) && Rounded(b, c, i, off + |s|, t, addr, more)
    requires (s == [] <==> rounds == 0) && (off + |s|) % BSIZE + |t| <= BSIZE
    ensures Writing(a, c, i, off, s + t, |s| + (if good then |t| else 0), rounds + 1, data + {addr}, maps + more)
  {
    hide Addr;
    hide Overwritten;
    hide StillNumbered;
    hide Covered;
    hide NoHoles;
    hide Needs;
    hide Via;
    hide Ledger;
    hide KeepsWhole;
    hide FirstThere;
    WritingAccount(a, b, c, i, off, s, t, rounds, data, maps, addr, more);
    if NoHoles(a.disk, a.nodes[i]) {
      CoveredMore(b.disk, b.nodes[i], c.disk, c.nodes[i], off + |s|, |t|);
      CoveredStays(b.disk, b.nodes[i], c.disk, c.nodes[i], off + |s|);
    }
    StillTrans(a.disk, a.nodes[i], b.disk, b.nodes[i], c.disk, c.nodes[i]);
    WholeTrans(a.disk, a.nodes, b.disk, b.nodes, c.disk, c.nodes);
    OverwrittenMore(a.disk, a.nodes, b.disk, b.nodes, c.disk, c.nodes, i, off, s, t);
  }

  /** The loop of writei().  `lost` is how many bytes a failed copy may have spoilt. */
  method WriteLoop(fs: FileSystem, i: nat, off: nat, src: seq<nat>, copies: nat -> bool, torn: seq<nat>)
    returns (full: bool, tot: nat, ghost lost: nat, ghost rounds: nat, ghost data: set<nat>, ghost maps: set<nat>)
    requires fs.Valid() && i in fs.nodes && off <= fs.nodes[i].size && off + |src| <= MAXBYTES
    requires Bytes(src) && Bytes(torn) && |torn| == BSIZE
    modifies fs
    ensures !full ==> fs.Valid() && fs.written == old(fs.written) && tot <= |src| && lost <= BSIZE
    ensures !full ==> Writing(old(Snap(fs.disk, fs.nodes, fs.logged)), Snap(fs.disk, fs.nodes, fs.logged), i, off,
      src[..tot] + torn[..lost], tot, rounds, data, maps)
    ensures !full && tot == |src| ==> lost == 0 && AllCopied(off, |src|, copies)
    ensures !full && tot < |src| ==>
      !copies(tot) && Starts(off, tot) && AllCopied(off, tot, copies) && lost == Chunk(off + tot, |src| - tot)
    ensures !full ==> rounds <= Touched(off, |src|)
    ensures full ==> NoFree(fs.g, fs.disk)
  {
    hide Owned;
    hide Bytes;
    hide Overwritten;
    hide StillNumbered;
    hide Writing;
    hide Touched;
    hide IsUsed;
    hide Addr;
    hide Needs;
    hide Via;
    hide AllCopied;
    hide Starts;
    hide Rounded;
    hide Progress;
    full, tot, lost, rounds, data, maps := false, 0, 0, 0, {}, {};
    ghost var start := Snap(fs.disk, fs.nodes, fs.logged);
    LoopStart(start, i, off);
    ProgressNone(off, |src|);
    CopiedNone(off, copies);
    assert src[..tot] == [] && src[..tot] + torn[..lost] == [];
    while tot < |src|
      invariant !full && tot <= |src| && lost == 0 && fs.Valid() && fs.written == old(fs.written)
      invariant Writing(start, Snap(fs.disk, fs.nodes, fs.logged), i, off, src[..tot], tot, rounds, data, maps)
      invariant Progress(off, tot, |src|, rounds) && rounds <= Touched(off, |src|) && (tot == 0 <==> rounds == 0)
      invariant AllCopied(off, tot, copies)
    {
      var m := Chunk(off + tot, |src| - tot);
      PartBytes(src, tot, tot + m);
      PartBytes(torn, 0, m);
      ProgressOne(off, tot, |src|, rounds);
      ghost var before := Snap(fs.disk, fs.nodes, fs.logged);
      WritingFacts(start, before, i, off, src[..tot], tot, rounds, data, maps);
      ProgressStarts(off, tot, |src|, rounds);
      var r, a;
      ghost var more;
      r, a, more := WriteRound(fs, i, off + tot, src[tot..tot + m], copies(tot), torn[..m]);
      if r.Full? {
        full := true;
        return;
      }
      WritingOne(start, before, Snap(fs.disk, fs.nodes, fs.logged), i, off, src[..tot], if copies(tot)
        then src[tot..tot + m] else torn[..m], copies(tot), rounds, data, maps, a, more);
      data, maps, rounds := data + {a}, maps + more, rounds + 1;
      if r.CopyFailed? {
        lost := m;
        return;
      }
      CopiedMore(off, tot, m, copies);
      assert src[..tot] + src[tot..tot + m] == src[..tot + m];
      tot := tot + m;
    }
    assert src[..tot] + torn[..lost] == src[..tot];
  }

  lemma WritingFacts(a: Snap, b: Snap, i: nat, off: nat, s: seq<nat>, tot: nat, rounds: nat, data: set<nat>,
    maps: set<nat>)
    requires Writing(a, b, i, off, s, tot, rounds, data, maps)
    ensures i in b.nodes
  {
  }

  lemma ProgressStarts(off: nat, tot: nat, n: nat, rounds: nat)
    requires Progress(off, tot, n, rounds) && tot < n
    ensures Starts(off, tot)
  {
  }

  lemma LoopStart(a: Snap, i: nat, off: nat)
    requires i in a.nodes && off <= a.nodes[i].size
    ensures Writing(a, a, i, off, [], 0, 0, {}, {})
  {
    hide Addr;
    OverwrittenNone(a.disk, a.nodes, i, off);
  }

  lemma PartBytes(s: seq<nat>, lo: nat, hi: nat)
    requires lo <= hi <= |s| && Bytes(s)
    ensures Bytes(s[lo..hi])
  {
  }

  /** writei() refuses a range that starts past the end, wraps around, or ends past the largest file. */
  predicate Refused(size: nat, off: nat, n: nat) {
    off > size || (off + n) % UINT < off || off + n > MAXBYTES
  }

  lemma SizeBytes(d: Image, nodes: Nodes, d': Image, nodes': Nodes, i: nat, off: nat, s: seq<nat>, size: nat)
    requires i in nodes && Overwritten(d, nodes, d', nodes', i, off, s)
    ensures Overwritten(d, nodes, d', nodes'[i := nodes'[i].(size := size)], i, off, s)
  {
    hide Word;
    var n, n' := nodes'[i], nodes'[i].(size := size);
    assert forall x :: 0 <= x < MAXBYTES ==> ByteAt(d', n', x) == ByteAt(d', n, x);
  }

  lemma SizeWhole(d: Image, nodes: Nodes, d': Image, nodes': Nodes, i: nat, size: nat)
    requires i in nodes && KeepsWhole(d, nodes, d', nodes') && size <= MAXBYTES
    requires NoHoles(d, nodes[i]) ==> Covered(d', nodes'[i], size)
    ensures KeepsWhole(d, nodes, d', nodes'[i := nodes'[i].(size := size)])
  {
    hide Word;
    var n, n' := nodes'[i], nodes'[i].(size := size);
    assert forall k :: 0 <= k < MAXFILE ==> Addr(d', n', k) == Addr(d', n, k);
  }

  /** The file as a sequence after a write; bytes that a failed copy spoilt are left open. */
  lemma Spliced(d: Image, n: Inode, d': Image, n': Inode, off: nat, s: seq<nat>, good: nat)
    requires n.size <= MAXBYTES && off <= n.size && off + |s| <= MAXBYTES && good <= |s|
    requires n'.size == (if off + good > n.size then off + good else n.size)
    requires forall x :: 0 <= x < MAXBYTES ==>
      ByteAt(d', n', x) == if off <= x < off + |s| then s[x - off] else ByteAt(d, n, x)
    ensures |Splice(Content(d, n), off, s[..good])| == n'.size
    ensures forall x :: 0 <= x < n'.size && !(off + good <= x < off + |s|) ==>
      Content(d', n')[x] == Splice(Content(d, n), off, s[..good])[x]
  {
    hide ByteAt;
  }

  /** Content of every other file is unchanged. */
  ghost predicate OthersSame(d: Image, nodes: Nodes, d': Image, nodes': Nodes, i: nat)
  {
    && nodes'.Keys == nodes.Keys
    && (forall j :: j in nodes && j != i ==>
       nodes'[j].size == nodes[j].size &&
       (nodes[j].size <= MAXBYTES ==> Content(d', nodes'[j]) == Content(d, nodes[j])))
  }

  lemma OthersUntouched(d: Image, nodes: Nodes, d': Image, nodes': Nodes, i: nat, off: nat, s: seq<nat>)
    requires Overwritten(d, nodes, d', nodes', i, off, s) &&
      (forall j :: j in nodes && j != i ==> nodes'[j].size == nodes[j].size)
    ensures OthersSame(d, nodes, d', nodes', i)
  {
    hide ByteAt;
    forall j | j in nodes && j != i && nodes[j].size <= MAXBYTES
      ensures Content(d', nodes'[j]) == Content(d, nodes[j]) {
      assert SameBytes(d, nodes[j], d', nodes'[j]);
    }
  }

  /** Whether the file now reads as the old contents with s spliced in, but for `lost` bytes after s. */
  ghost predicate ReadsAs(c: seq<nat>, c': seq<nat>, off: nat, s: seq<nat>, lost: nat)
    requires off <= |c|
  {
    var want := Splice(c, off, s);
    |c'| == |want| && forall x :: 0 <= x < |want| && !(off + |s| <= x < off + |s| + lost) ==> c'[x] == want[x]
  }

  lemma ReadsSame(c: seq<nat>, off: nat)
    requires off <= |c|
    ensures ReadsAs(c, c, off, [], 0)
  {
  }

  /** What a write that logged `r` good bytes has made of the file. */
  ghost predicate FileWritten(d: Image, nodes: Nodes, d': Image, nodes': Nodes, i: nat, off: nat, s: seq<nat>,
    lost: nat)
    requires i in nodes && i in nodes' && off <= nodes[i].size <= MAXBYTES
  {
    && nodes'[i].size == (if off + |s| > nodes[i].size then off + |s| else nodes[i].size) && nodes'[i].size <= MAXBYTES
    && ReadsAs(Content(d, nodes[i]), Content(d', nodes'[i]), off, s, lost)
  }

  lemma WrittenFile(d: Image, nodes: Nodes, d': Image, nodes': Nodes, i: nat, off: nat, s: seq<nat>, junk: seq<nat>)
    requires i in nodes && Overwritten(d, nodes, d', nodes', i, off, s + junk) && off <= nodes[i].size <= MAXBYTES &&
      off + |s| + |junk| <= MAXBYTES
    requires nodes'[i].size == (if off + |s| > nodes[i].size then off + |s| else nodes[i].size)
    ensures FileWritten(d, nodes, d', nodes', i, off, s, |junk|)
    ensures junk == [] ==> Content(d', nodes'[i]) == Splice(Content(d, nodes[i]), off, s)
  {
    hide ByteAt;
    assert (s + junk)[..|s|] == s;
    Spliced(d, nodes[i], d', nodes'[i], off, s + junk, |s|);
  }

  lemma WritingKeys(a: Snap, b: Snap, i: nat, off: nat, s: seq<nat>, tot: nat, rounds: nat, data: set<nat>,
    maps: set<nat>)
    requires Writing(a, b, i, off, s, tot, rounds, data, maps)
    ensures b.nodes.Keys == a.nodes.Keys && forall j :: j in a.nodes ==> b.nodes[j].size == a.nodes[j].size
  {
  }

  /** The end of writei(): the size, and the inode written back. */
  method FinishWrite(fs: FileSystem, i: nat, off: nat, n: nat, tot: nat, ghost a: Snap, ghost s: seq<nat>,
    ghost junk: seq<nat>, ghost rounds: nat, ghost data: set<nat>, ghost maps: set<nat>)
    requires fs.Valid() && Writing(a, Snap(fs.disk, fs.nodes, fs.logged), i, off, s + junk, tot, rounds, data, maps)
    requires tot == |s| && off <= a.nodes[i].size <= MAXBYTES && off + |s| + |junk| <= MAXBYTES &&
      rounds <= Touched(off, n)
    modifies fs
    ensures fs.Valid() && KeepsWhole(a.disk, a.nodes, fs.disk, fs.nodes) && fs.nodes.Keys == a.nodes.Keys &&
      fs.written == old(fs.written)[i := fs.nodes[i]]
    ensures FileWritten(a.disk, a.nodes, fs.disk, fs.nodes, i, off, s, |junk|)
    ensures OthersSame(a.disk, a.nodes, fs.disk, fs.nodes, i) &&
      |fs.logged - a.logged| <= Budget(off, n, FirstThere(a.disk, a.nodes[i], off))
    ensures junk == [] ==> Content(fs.disk, fs.nodes[i]) == Splice(Content(a.disk, a.nodes[i]), off, s)
  {
    hide Owned;
    hide Overwritten;
    hide Covered;
    hide Ledger;
    hide NoHoles;
    hide Content;
    hide Splice;
    hide FileWritten;
    hide OthersSame;
    hide Budget;
    hide Touched;
    hide FirstThere;
    hide StillNumbered;
    WritingKeys(a, Snap(fs.disk, fs.nodes, fs.logged), i, off, s + junk, tot, rounds, data, maps);
    hide KeepsWhole;
    LedgerBound(a.logged, fs.logged, data, maps, a.nodes[i].addrs[NDIRECT], fs.nodes[i].addrs[NDIRECT], rounds, off, n,
      FirstThere(a.disk, a.nodes[i], off), fs.g.inodestart + i / IPB);
    if off + tot > fs.nodes[i].size {
      SizeOwned(fs.g, fs.disk, fs.nodes, fs.owner, i, off + tot);
      SizeWhole(a.disk, a.nodes, fs.disk, fs.nodes, i, off + tot);
      SizeBytes(a.disk, a.nodes, fs.disk, fs.nodes, i, off, s + junk, off + tot);
      fs.nodes := fs.nodes[i := fs.nodes[i].(size := off + tot)];
    }
    WrittenFile(a.disk, a.nodes, fs.disk, fs.nodes, i, off, s, junk);
    OthersUntouched(a.disk, a.nodes, fs.disk, fs.nodes, i, off, s + junk);
    fs.Iupdate(i);
  }

  /**
   writei(): on success the file is the old one with the bytes spliced in at off, no other file changes,
   the inode is written back, and no file gets a hole.  If a copy from the user fails, the bytes before it count
   and up to a block's worth after them are open.  At most Budget blocks are logged.
   */
  method Writei(fs: FileSystem, i: nat, off: nat, src: seq<nat>, copies: nat -> bool, torn: seq<nat>)
    returns (r: WriteResult, ghost lost: nat)
    requires fs.Valid() && i in fs.nodes && fs.nodes[i].size <= MAXBYTES && off < UINT && |src| < UINT
    requires Bytes(src) && Bytes(torn) && |torn| == BSIZE
    modifies fs
    ensures var n0 := old(fs.nodes)[i];
            Refused(n0.size, off, |src|) ==>
              r == Count(-1) && fs.disk == old(fs.disk) && fs.nodes == old(fs.nodes) &&
                fs.written == old(fs.written) && fs.logged == old(fs.logged) && fs.owner == old(fs.owner) && lost == 0
    ensures r.Count? ==>
      fs.Valid() && KeepsWhole(old(fs.disk), old(fs.nodes), fs.disk, fs.nodes) && i in fs.nodes &&
      fs.nodes[i].size <= MAXBYTES
    ensures r == Count(|src|) ==> lost == 0 && AllCopied(off, |src|, copies)
    ensures r.Count? && !Refused(old(fs.nodes)[i].size, off, |src|) ==>
              && 0 <= r.n <= |src| && lost <= BSIZE - (off + r.n) % BSIZE
              && FileWritten(old(fs.disk), old(fs.nodes), fs.disk, fs.nodes, i, off, src[..r.n], lost)
              && OthersSame(old(fs.disk), old(fs.nodes), fs.disk, fs.nodes, i)
              && fs.written == old(fs.written)[i := fs.nodes[i]]
    ensures r.Count? && 0 <= r.n < |src| ==> !copies(r.n) && Starts(off, r.n) && AllCopied(off, r.n, copies)
    ensures r == Count(|src|) ==>
      Content(fs.disk, fs.nodes[i]) == Splice(Content(old(fs.disk), old(fs.nodes)[i]), off, src)
    ensures r.Count? ==>
      |fs.logged - old(fs.logged)| <= Budget(off, |src|, FirstThere(old(fs.disk), old(fs.nodes)[i], off))
    ensures r.DiskFull? ==> !Refused(old(fs.nodes)[i].size, off, |src|) && NoFree(fs.g, fs.disk)
  {
    hide Owned;
    hide Bytes;
    hide Writing;
    hide KeepsWhole;
    hide Content;
    hide Splice;
    hide ReadsAs;
    hide OthersSame;
    hide Budget;
    hide Touched;
    hide FirstThere;
    hide AllCopied;
    hide Starts;
    lost := 0;
    WholeSame(fs.disk, fs.nodes);
    ghost var d0, nodes0, logged0 := fs.disk, fs.nodes, fs.logged;
    if off > fs.nodes[i].size || (off + |src|) % UINT < off {
      return Count(-1), 0;
    }
    if off + |src| > MAXBYTES {
      return Count(-1), 0;
    }
    var full, tot;
    ghost var rounds, data, maps;
    full, tot, lost, rounds, data, maps := WriteLoop(fs, i, off, src, copies, torn);
    if full {
      return DiskFull, lost;
    }
    FinishWrite(fs, i, off, |src|, tot, Snap(d0, nodes0, logged0), src[..tot], torn[..lost], rounds, data, maps);
    assert tot == |src| ==> src[..tot] == src && torn[..lost] == [];
    return Count(tot), lost;
  }

  // ---- filewrite ----

  const WRITE_MAX := (MAXOPBLOCKS - 1 - 1 - 2) / 2 * BSIZE

  class OpenFile {
    const ip: nat
    var off: nat

    constructor (inum: nat)
      ensures ip == inum && off == 0
    {
      ip := inum;
      off := 0;
    }
  }

  lemma SpliceMore(c: seq<nat>, off: nat, s: seq<nat>, t: seq<nat>)
    requires off <= |c|
    ensures off + |s| <= |Splice(c, off, s)| && Splice(Splice(c, off, s), off + |s|, t) == Splice(c, off, s + t)
  {
  }

  lemma OthersTrans(d: Image, nodes: Nodes, d1: Image, nodes1: Nodes, d2: Image, nodes2: Nodes, i: nat)
    requires OthersSame(d, nodes, d1, nodes1, i) && OthersSame(d1, nodes1, d2, nodes2, i)
    ensures OthersSame(d, nodes, d2, nodes2, i)
  {
    hide Content;
  }

  lemma OthersNone(d: Image, nodes: Nodes, i: nat)
    ensures OthersSame(d, nodes, d, nodes, i)
  {
    hide Content;
  }

  /**
   Bytes s have been written to a file from off0 on, with `lost` spoilt bytes behind them: no other file has changed, no
   file has got a hole, and past the end of the file nothing has been done.
   */
  ghost predicate Partway(d: Image, nodes: Nodes, d': Image, nodes': Nodes, ip: nat, off0: nat, off: nat, s: seq<nat>,
    lost: nat)
  {
    && ip in nodes && ip in nodes' && nodes[ip].size <= MAXBYTES && nodes'[ip].size <= MAXBYTES && off == off0 + |s|
    && OthersSame(d, nodes, d', nodes', ip) && KeepsWhole(d, nodes, d', nodes')
    && (if off0 <= nodes[ip].size
        then off <= nodes'[ip].size && ReadsAs(Content(d, nodes[ip]), Content(d', nodes'[ip]), off0, s, lost)
        else s == [] && d' == d && nodes' == nodes)
  }

  lemma PartwayNone(d: Image, nodes: Nodes, ip: nat, off: nat)
    requires ip in nodes && nodes[ip].size <= MAXBYTES
    ensures Partway(d, nodes, d, nodes, ip, off, off, [], 0)
  {
    hide OthersSame;
    hide KeepsWhole;
    hide Content;
    hide ReadsAs;
    OthersNone(d, nodes, ip);
    WholeSame(d, nodes);
    if off <= nodes[ip].size {
      ReadsSame(Content(d, nodes[ip]), off);
    }
  }

  lemma PartwayMore(d: Image, nodes: Nodes, d1: Image, nodes1: Nodes, d2: Image, nodes2: Nodes, ip: nat, off0: nat,
    off1: nat, off2: nat, s: seq<nat>, t: seq<nat>, lost: nat)
    requires Partway(d, nodes, d1, nodes1, ip, off0, off1, s, 0) &&
      Partway(d1, nodes1, d2, nodes2, ip, off1, off2, t, lost)
    ensures Partway(d, nodes, d2, nodes2, ip, off0, off2, s + t, lost)
  {
    hide OthersSame;
    hide KeepsWhole;
    hide Content;
    hide ReadsAs;
    OthersTrans(d, nodes, d1, nodes1, d2, nodes2, ip);
    WholeTrans(d, nodes, d1, nodes1, d2, nodes2);
    if off0 <= nodes[ip].size {
      ReadsMore(Content(d, nodes[ip]), Content(d1, nodes1[ip]), Content(d2, nodes2[ip]), off0, s, t, lost);
    }
  }

  lemma PartwayWhole(d: Image, nodes: Nodes, d': Image, nodes': Nodes, ip: nat, off0: nat, off: nat, s: seq<nat>,
    lost: nat)
    requires Partway(d, nodes, d', nodes', ip, off0, off, s, lost)
    ensures ip in nodes' && nodes'[ip].size <= MAXBYTES && (NoHoles(d, nodes[ip]) ==> NoHoles(d', nodes'[ip]))
  {
    hide OthersSame;
    hide Content;
    hide ReadsAs;
    hide NoHoles;
  }

  /** One transaction of filewrite(): begin_op(), writei(), end_op(). */
  method WriteTransaction(fs: FileSystem, f: OpenFile, chunk: seq<nat>, copies: nat -> bool, torn: seq<nat>)
    returns (r: WriteResult, ghost lost: nat)
    requires fs.Valid() && f.ip in fs.nodes && fs.nodes[f.ip].size <= MAXBYTES && f.off < UINT &&
      0 < |chunk| <= WRITE_MAX
    requires Bytes(chunk) && Bytes(torn) && |torn| == BSIZE
    modifies fs, f
    ensures r.Count? ==> fs.Valid() && r.n <= |chunk|
    ensures r.Count? ==>
      Partway(old(fs.disk), old(fs.nodes), fs.disk, fs.nodes, f.ip, old(f.off), f.off,
      chunk[..if r.n > 0 then r.n else 0], lost)
    ensures r.Count? ==> |fs.logged| <= MAXOPBLOCKS + 1
    ensures r.Count? && (NoHoles(old(fs.disk), old(fs.nodes)[f.ip]) || old(f.off) % BSIZE == 0) ==>
      |fs.logged| <= MAXOPBLOCKS
    ensures r.Count? ==> f.off == old(f.off) + (if r.n > 0 then r.n else 0) && f.off < UINT
    ensures r == Count(-1) <==> Refused(old(fs.nodes)[f.ip].size, old(f.off), |chunk|)
    ensures r.Count? && r.n >= 0 ==> (r.n < |chunk| ==> !copies(r.n)) && AllCopied(old(f.off), r.n, copies)
    ensures r == Count(|chunk|) ==> lost == 0
    ensures r.DiskFull? ==> NoFree(fs.g, fs.disk)
    ensures r.Count? && r.n < 0 ==> r.n == -1 && fs.disk == old(fs.disk) && fs.nodes == old(fs.nodes) && lost == 0
    ensures r.Count? ==> lost <= BSIZE
  {
    hide Owned;
    hide Bytes;
    hide NoHoles;
    hide KeepsWhole;
    hide Budget;
    hide Content;
    hide Splice;
    hide ReadsAs;
    hide OthersSame;
    hide FirstThere;
    hide AllCopied;
    if f.off <= fs.nodes[f.ip].size {
      ReadsSame(Content(fs.disk, fs.nodes[f.ip]), f.off);
      if NoHoles(fs.disk, fs.nodes[f.ip]) && f.off % BSIZE != 0 {
        FirstBlock(fs.disk, fs.nodes[f.ip], f.off);
      }
    }
    OthersNone(fs.disk, fs.nodes, f.ip);
    BudgetFits(f.off, |chunk|, FirstThere(fs.disk, fs.nodes[f.ip], f.off));
    fs.logged := {};
    r, lost := Writei(fs, f.ip, f.off, chunk, copies, torn);
    if r.Count? {
      assert fs.logged - {} == fs.logged;
      if r.n > 0 {
        f.off := f.off + r.n;
      }
      assert chunk[..0] == [];
    }
  }

  /**
   The file branch of filewrite(): each transaction logs at most MAXOPBLOCKS distinct blocks, or one more if the file
   has a hole; the file reads as the old one with the first `done` bytes spliced in at the old offset, the offset has
   advanced by as many, and the result is the whole count, or -1 if writei() refused the next part or could not copy
   it.  The panic comes only when every block is in use.
   */
  method Filewrite(fs: FileSystem, f: OpenFile, src: seq<nat>, copies: (nat, nat) -> bool, torn: seq<nat>)
    returns (full: bool, ret: int, ghost done: nat, ghost lost: nat, ghost worst: nat)
    requires fs.Valid() && f.ip in fs.nodes && fs.nodes[f.ip].size <= MAXBYTES && f.off < UINT && |src| < 0x8000_0000
    requires Bytes(src) && Bytes(torn) && |torn| == BSIZE
    modifies fs, f
    ensures worst <= MAXOPBLOCKS + 1 && (full ==> NoFree(fs.g, fs.disk))
    ensures NoHoles(old(fs.disk), old(fs.nodes)[f.ip]) ==> worst <= MAXOPBLOCKS
    ensures !full ==> fs.Valid() && done <= |src| && ret == if done == |src| then |src| else -1
    ensures !full ==>
      Partway(old(fs.disk), old(fs.nodes), fs.disk, fs.nodes, f.ip, old(f.off), f.off, src[..done], lost)
    ensures !full && done < |src| ==> Stopped(fs.nodes[f.ip].size, f.off, |src| - done, done, copies)
    ensures old(f.off) > old(fs.nodes)[f.ip].size ==> !full
    ensures !full ==> lost <= BSIZE && (ret == |src| ==> lost == 0)
  {
    hide Owned;
    hide Bytes;
    hide NoHoles;
    hide AllCopied;
    hide Refused;
    hide Stopped;
    hide Partway;
    FirstPart();
    hide PartStart;
    full, ret, done, lost, worst := false, 0, 0, 0, 0;
    ghost var d0, nodes0 := fs.disk, fs.nodes;
    PartwayNone(d0, nodes0, f.ip, f.off);
    assert src[..0] == [];
    var i := 0;
    while i < |src|
      invariant 0 <= i <= |src| && done == i && !full && lost == 0 && (PartStart(i) || i == |src|)
      invariant worst <= MAXOPBLOCKS + 1 && (NoHoles(d0, nodes0[f.ip]) ==> worst <= MAXOPBLOCKS)
      invariant fs.Valid() && f.off == old(f.off) + i && f.off < UINT
      invariant Partway(d0, nodes0, fs.disk, fs.nodes, f.ip, old(f.off), f.off, src[..i], 0)
      invariant old(f.off) > nodes0[f.ip].size ==> i == 0 && fs.nodes == nodes0
    {
      var n1 := |src| - i;
      if n1 > WRITE_MAX {
        n1 := WRITE_MAX;
      }
      PartBytes(src, i, i + n1);
      ghost var d1, nodes1, off1 := fs.disk, fs.nodes, f.off;
      var r;
      var base: nat := i;
      PartwayWhole(d0, nodes0, d1, nodes1, f.ip, old(f.off), off1, src[..i], 0);
      PastEnd(fs.nodes[f.ip].size, f.off, n1);
      NextPart(i, n1);
      r, lost := WriteTransaction(fs, f, src[i..i + n1], (t: nat) => copies(base, t), torn);
      if r.DiskFull? {
        full := true;
        return;
      }
      ghost var got := if r.n > 0 then r.n else 0;
      worst := if |fs.logged| > worst then |fs.logged| else worst;
      PartwayMore(d0, nodes0, d1, nodes1, fs.disk, fs.nodes, f.ip, old(f.off), off1, f.off, src[..i],
        src[i..i + n1][..got], lost);
      PartwayWhole(d0, nodes0, fs.disk, fs.nodes, f.ip, old(f.off), f.off, src[..i] + src[i..i + n1][..got], lost);
      assert src[..i] + src[i..i + n1][..got] == src[..i + got];
      done := i + got;
      if r.n != n1 {
        StopsHere(fs.nodes[f.ip].size, f.off, |src| - done, done, base, copies);
        ret := if i == |src| then |src| else -1;
        return;
      }
      i := i + r.n;
    }
    ret := |src|;
  }

  /** Where filewrite() starts a transaction. */
  predicate PartStart(i: nat) {
    i % WRITE_MAX == 0
  }

  /** Why a write ends early: the next part is refused, or a copy of the part that began at `base` fails. */
  ghost predicate Stopped(size: nat, off: nat, left: nat, done: nat, copies: (nat, nat) -> bool) {
    Refused(size, off, Min(left, WRITE_MAX)) || exists base: nat ::
      base <= done && PartStart(base) && !copies(base, done - base)
  }

  lemma StopsHere(size: nat, off: nat, left: nat, done: nat, base: nat, copies: (nat, nat) -> bool)
    requires base <= done && PartStart(base)
    requires Refused(size, off, Min(left, WRITE_MAX)) || !copies(base, done - base)
    ensures Stopped(size, off, left, done, copies)
  {
  }

  lemma FirstPart()
    ensures PartStart(0)
  {
  }

  lemma NextPart(i: nat, n: nat)
    requires PartStart(i)
    ensures n == WRITE_MAX ==> PartStart(i + n)
  {
  }

  lemma PastEnd(size: nat, off: nat, n: nat)
    ensures off > size ==> Refused(size, off, n)
  {
  }

  lemma ReadsMore(c: seq<nat>, c1: seq<nat>, c2: seq<nat>, off: nat, s: seq<nat>, t: seq<nat>, lost: nat)
    requires off <= |c| && off + |s| <= |c1| && ReadsAs(c, c1, off, s, 0) && ReadsAs(c1, c2, off + |s|, t, lost)
    ensures ReadsAs(c, c2, off, s + t, lost)
  {
    assert c1 == Splice(c, off, s);
    SpliceMore(c, off, s, t);
  }
}

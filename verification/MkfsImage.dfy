/**
 mkfs: the whole image, from the list of input files.
 */
module MkfsImage {
  import opened FsFormat
  import opened Bitmap
  import opened Ownership
  import opened Dinodes
  import opened Inodes
  import opened FileData
  import opened Mkfs

  /** What every file holds. */
  function Texts(d: Image, nodes: Nodes): map<nat, seq<nat>> {
    map j | j in nodes :: if nodes[j].size <= MAXBYTES then Content(d, nodes[j]) else []
  }

  lemma AppendedTexts(d: Image, nodes: Nodes, d': Image, nodes': Nodes, i: nat, p: seq<nat>)
    requires i in nodes && Appended(d, nodes, d', nodes', i, p)
    ensures Texts(d', nodes') == Texts(d, nodes)[i := Texts(d, nodes)[i] + p]
  {
    hide Content;
    hide ZeroTails;
  }

  /** A directory entry: the inode number and the name, cut or padded to 14 bytes. */
  function Dirent(inum: nat, name: seq<nat>): (r: seq<nat>)
    ensures |r| == DIRENT_SIZE
  {
    [inum % 256, inum / 256 % 256] + seq(14, k requires 0 <= k < 14 => if k < |name| then name[k] % 256 else 0)
  }

  /** An argument of mkfs, as bytes, and what the file of that name holds. */
  datatype Input = Input(arg: seq<nat>, data: seq<nat>)

  /** The argument without a leading "user/". */
  function Shortname(arg: seq<nat>): seq<nat> {
    if |arg| >= 5 && arg[..5] == [117, 115, 101, 114, 47] then arg[5..] else arg
  }

  /** assert(index(shortname, '/') == 0) */
  predicate GoodName(f: Input) {
    47 !in Shortname(f.arg)
  }

  /** The name in the image: without a leading '_'. */
  function FileName(f: Input): seq<nat> {
    var s := Shortname(f.arg);
    if s != [] && s[0] == 95 then s[1..] else s
  }

  /** What the image of the first k input files holds. */
  function ImageTexts(files: seq<Input>, k: nat): (r: map<nat, seq<nat>>)
    requires k <= |files|
    ensures forall j: nat :: j in r <==> 1 <= j < k + 2
    ensures |r[1]| == DIRENT_SIZE * (k + 2)
  {
    if k == 0 then map[1 := Dirent(1, [46]) + Dirent(1, [46, 46])]
    else
      var r := ImageTexts(files, k - 1);
      r[1 := r[1] + Dirent(k + 1, FileName(files[k - 1]))][k + 1 := files[k - 1].data]
  }

  // ---- room ----

  /** The data blocks that the first k files and their entries take. */
  function Cost(files: seq<Input>, k: nat): nat
    requires k <= |files|
  {
    if k == 0 then BlocksFor(2 * DIRENT_SIZE)
    else
      var root, root' := DIRENT_SIZE * (k + 1), DIRENT_SIZE * (k + 2);
      Cost(files, k - 1) + BlocksFor(|files[k - 1].data|) + BlocksFor(root') - BlocksFor(root)
  }

  lemma {:induction false} CostMore(files: seq<Input>, j: nat, k: nat)
    requires j <= k <= |files|
    ensures Cost(files, j) <= Cost(files, k)
  {
    hide BlocksFor;
    if j < k {
      CostMore(files, j, k - 1);
      BlocksMore(DIRENT_SIZE * (k + 1), DIRENT_SIZE * (k + 2));
    }
  }

  /** The image has room: no file is too large, nor the root directory, and there are blocks enough. */
  ghost predicate Enough(files: seq<Input>)
  {
    && (forall t :: 0 <= t < |files| ==> GoodName(files[t]) && |files[t].data| <= MAXBYTES)
    && DIRENT_SIZE * (|files| + 2) <= MAXBYTES && NMETA + Cost(files, |files|) <= FSSIZE
  }

  // ---- building ----

  /** The builder holds these texts, and nothing else. */
  ghost predicate Holding(b: Builder, texts: map<nat, seq<nat>>)
    reads b
  {
    && b.Valid() && AllExact(b.View(), b.nodes) && ZeroTails(b.View(), b.nodes) && Texts(b.View(), b.nodes) == texts
    && 1 <= b.freeinode <= OVERRUN && (forall j: nat :: j in texts <==> 1 <= j < b.freeinode)
    && Shelved(b.disk, b.nodes, 0)
  }

  lemma HoldingKeys(b: Builder, texts: map<nat, seq<nat>>)
    requires Holding(b, texts)
    ensures 1 <= b.freeinode <= OVERRUN && NMETA <= b.freeblock <= FSSIZE && forall j: nat :: j in texts <==>
      1 <= j < b.freeinode
  {
    hide Shelved;
    hide MarkedTo;
    hide Owned;
  }

  lemma HoldingSize(b: Builder, texts: map<nat, seq<nat>>, i: nat)
    requires Holding(b, texts) && i in texts
    ensures i in b.nodes && |texts[i]| == b.nodes[i].size <= MAXBYTES && 0 !in b.nodes
  {
    hide Shelved;
    hide MarkedTo;
    hide Owned;
    hide Filled;
    hide ByteAt;
    hide ZeroTails;
    assert i in Texts(b.View(), b.nodes) && b.nodes.Keys == texts.Keys;
    assert Exact(b.View(), b.nodes[i]);
  }

  /** The room for `p` more bytes in a file of n bytes. */
  predicate Room(free: nat, n: nat, p: nat) {
    n + p <= MAXBYTES && free + BlocksFor(n + p) - BlocksFor(n) <= FSSIZE
  }

  method AppendTo(b: Builder, i: nat, p: seq<nat>, ghost texts: map<nat, seq<nat>>) returns (ok: bool)
    requires Holding(b, texts) && i in texts && Bytes(p)
    modifies b
    ensures ok <==> Room(old(b.freeblock), |texts[i]|, |p|)
    ensures ok ==>
      b.freeinode == old(b.freeinode) &&
      b.freeblock == old(b.freeblock) + BlocksFor(|texts[i]| + |p|) - BlocksFor(|texts[i]|)
    ensures ok ==> Holding(b, texts[i := texts[i] + p])
  {
    hide MarkedTo;
    hide Built;
    hide Bytes;
    hide AllExact;
    hide Appended;
    hide BlocksFor;
    hide Shelved;
    BuiltFacts(b.disk, b.nodes, b.owner, b.freeblock);
    HoldingSize(b, texts, i);
    ghost var v, nodes := b.View(), b.nodes;
    ok := b.Iappend(i, p);
    if ok {
      BuiltFacts(b.disk, b.nodes, b.owner, b.freeblock);
      AppendedTexts(v, nodes, b.View(), b.nodes, i, p);
      AppendedTails(v, nodes, b.View(), b.nodes, i, p);
    }
  }

  lemma AppendedTails(d: Image, nodes: Nodes, d': Image, nodes': Nodes, i: nat, p: seq<nat>)
    requires Appended(d, nodes, d', nodes', i, p) && ZeroTails(d, nodes)
    ensures ZeroTails(d', nodes')
  {
  }

  method NewFile(b: Builder, ghost texts: map<nat, seq<nat>>) returns (inum: nat)
    requires Holding(b, texts) && b.freeinode < OVERRUN
    modifies b
    ensures inum == old(b.freeinode) && b.freeinode == inum + 1 && b.freeblock == old(b.freeblock) &&
      Holding(b, texts[inum := []])
  {
    hide MarkedTo;
    hide Built;
    hide AllExact;
    hide ZeroTails;
    hide Shelved;
    hide FilesStay;
    BuiltFacts(b.disk, b.nodes, b.owner, b.freeblock);
    assert b.nodes.Keys == Texts(b.View(), b.nodes).Keys;
    ghost var v, nodes := b.View(), b.nodes;
    inum := b.Ialloc();
    BuiltFacts(b.disk, b.nodes, b.owner, b.freeblock);
    NewText(v, nodes, inum);
    StayTexts(v, b.nodes, b.View());
  }

  lemma StayTexts(d: Image, nodes: Nodes, d': Image)
    requires FilesStay(d, nodes, d')
    ensures Texts(d', nodes) == Texts(d, nodes)
  {
    hide Content;
    hide FilesStay;
    forall j | j in nodes && nodes[j].size <= MAXBYTES ensures Content(d', nodes[j]) == Content(d, nodes[j]) {
      FilesContent(d, nodes, d', j);
    }
  }

  lemma NewText(d: Image, nodes: Nodes, inum: nat)
    requires inum !in nodes
    ensures Texts(d, nodes[inum := EmptyNode()]) == Texts(d, nodes)[inum := []]
  {
    hide ByteAt;
  }

  /** The room that one more file takes, after which `free` blocks are in use. */
  function FreeAfter(free: nat, root: nat, size: nat): int {
    free + BlocksFor(root + DIRENT_SIZE) - BlocksFor(root) + BlocksFor(size)
  }

  /** The texts with one more file. */
  ghost function WithFile(texts: map<nat, seq<nat>>, inum: nat, f: Input): map<nat, seq<nat>>
    requires 1 in texts
  {
    texts[1 := texts[1] + Dirent(inum, FileName(f))][inum := f.data]
  }

  /** One input file: an inode, its entry in the root directory, and its data, a block at a time. */
  method AddFile(b: Builder, f: Input, ghost texts: map<nat, seq<nat>>) returns (ok: bool)
    requires Holding(b, texts) && 1 in texts && Bytes(f.data) && b.freeinode < OVERRUN
    modifies b
    ensures ok <==>
      |texts[1]| + DIRENT_SIZE <= MAXBYTES && |f.data| <= MAXBYTES &&
      FreeAfter(old(b.freeblock), |texts[1]|, |f.data|) <= FSSIZE
    ensures ok ==>
      b.freeinode == old(b.freeinode) + 1 && b.freeblock == FreeAfter(old(b.freeblock), |texts[1]|, |f.data|)
    ensures ok ==> Holding(b, WithFile(texts, old(b.freeinode), f))
  {
    hide MarkedTo;
    hide Holding;
    hide Dirent;
    hide BlocksFor;
    HoldingKeys(b, texts);
    BlocksNone();
    BlocksMore(0, |f.data|);
    var inum := NewFile(b, texts);
    DirentBytes(inum, FileName(f));
    ok := AppendTo(b, 1, Dirent(inum, FileName(f)), texts[inum := []]);
    if !ok {
      return;
    }
    ghost var base := texts[1 := texts[1] + Dirent(inum, FileName(f))];
    assert texts[inum := []][1 := texts[inum := []][1] + Dirent(inum, FileName(f))] == base[inum := []];
    ok := AddData(b, f.data, inum, base);
  }

  lemma BlocksNone()
    ensures BlocksFor(0) == 0
  {
  }

  /** while((cc = read(fd, buf, sizeof(buf))) > 0) iappend(inum, buf, cc) */
  method AddData(b: Builder, data: seq<nat>, inum: nat, ghost base: map<nat, seq<nat>>) returns (ok: bool)
    requires Holding(b, base[inum := []]) && Bytes(data)
    modifies b
    ensures ok <==> |data| <= MAXBYTES && old(b.freeblock) + BlocksFor(|data|) <= FSSIZE
    ensures ok ==>
      b.freeinode == old(b.freeinode) && b.freeblock == old(b.freeblock) + BlocksFor(|data|) &&
      Holding(b, base[inum := data])
  {
    hide MarkedTo;
    hide Holding;
    hide BlocksFor;
    BlocksNone();
    HoldingKeys(b, base[inum := []]);
    assert data[..0] == [];
    var done := 0;
    while done < |data|
      invariant 0 <= done <= |data| && done <= MAXBYTES && b.freeinode == old(b.freeinode) &&
        Holding(b, base[inum := data[..done]])
      invariant b.freeblock == old(b.freeblock) + BlocksFor(done) <= FSSIZE
    {
      var cc := Min(|data| - done, BSIZE);
      PartBytes(data, done, done + cc);
      BlocksMore(done + cc, |data|);
      ok := AppendTo(b, inum, data[done..done + cc], base[inum := data[..done]]);
      if !ok {
        return;
      }
      assert data[..done] + data[done..done + cc] == data[..done + cc];
      SetTwice(base, inum, data[..done], data[..done + cc]);
      HoldingKeys(b, base[inum := data[..done + cc]]);
      done := done + cc;
    }
    assert data[..done] == data;
    ok := true;
  }

  lemma SetTwice(m: map<nat, seq<nat>>, i: nat, x: seq<nat>, y: seq<nat>)
    ensures m[i := x][i := y] == m[i := y]
  {
  }

  lemma DirentBytes(inum: nat, name: seq<nat>)
    ensures Bytes(Dirent(inum, name))
  {
  }

  /** The size that mkfs gives the root directory at the end. */
  function FixedSize(off: nat): nat {
    (off / BSIZE + 1) * BSIZE
  }

  /**
   Rounding the size of the root directory up leaves a hole exactly if the size was a multiple of the
   block size: then the last block below the new size does not exist.
   */
  lemma FixedHole(d: Image, n: Inode)
    requires Exact(d, n)
    ensures NoHoles(d, n.(size := FixedSize(n.size))) <==> n.size % BSIZE != 0
  {
    hide Word;
    var n' := n.(size := FixedSize(n.size));
    assert forall k :: 0 <= k < MAXFILE ==> Addr(d, n', k) == Addr(d, n, k);
    var k := n.size / BSIZE;
    if n.size % BSIZE == 0 && k < MAXFILE {
      assert Addr(d, n', k) == 0;
    }
    if n.size % BSIZE != 0 {
      forall l | 0 <= l < MAXFILE && l * BSIZE < FixedSize(n.size) ensures Addr(d, n', l) != 0 {
        assert l * BSIZE < n.size;
      }
    }
  }

  /** The bytes that rounding up adds to a file are zeroes. */
  lemma FixedText(d: Image, nodes: Nodes, i: nat)
    requires i in nodes && ZeroTails(d, nodes) && FixedSize(nodes[i].size) <= MAXBYTES
    ensures var n := nodes[i]; var n' := n.(size := FixedSize(n.size));
            Content(d, n') == Content(d, n) + seq(FixedSize(n.size) - n.size, _ => 0)
  {
    hide Word;
    var n := nodes[i];
    var n' := n.(size := FixedSize(n.size));
    assert forall x :: 0 <= x < MAXBYTES ==> ByteAt(d, n', x) == ByteAt(d, n, x);
  }

  // ---- the bit map and the inodes ----

  /** The inode is in its place in the image. */
  ghost predicate Survives(d: Image, nodes: Nodes, j: nat)
    requires j in nodes
  {
    IBlock(j) in d && InodeAt(d[IBlock(j)], j % IPB) == Dinode(TypeOf(j), 1, nodes[j])
  }

  /**
   Wherever it is read, a bit map that marks the first blocks and no others does not look like the inode of a file.
   */
  lemma MapIsNoInode(d: Image, n: nat, k: nat)
    requires BMAPSTART in d && k < IPB && forall x: nat :: x < BPB ==> (IsUsed(Layout(), d, x) <==> x < n)
    ensures InodeAt(d[BMAPSTART], k).typ != T_FILE
  {
    var byte := d[BMAPSTART][64 * k];
    assert IsUsed(Layout(), d, 512 * k) <==> 512 * k < n;
    assert IsUsed(Layout(), d, 512 * k + 1) <==> 512 * k + 1 < n;
    assert 512 * k % BPB / 8 == 64 * k && (512 * k + 1) % BPB / 8 == 64 * k;
    assert Bit(byte, 0) <==> 512 * k < n;
    assert Bit(byte, 1) <==> 512 * k + 1 < n;
    FirstShort(d[BMAPSTART], k);
    assert Bit(2, 1) && !Bit(2, 0);
  }

  lemma FirstShort(b: Sector, k: nat)
    requires k < IPB
    ensures InodeAt(b, k).typ == b[64 * k] + 256 * b[64 * k + 1]
  {
    var at := 64 * k;
    assert b[at] < 256 && b[at + 1] < 256;
    assert Field(b, k, 0) == b[at] + 256 * b[at + 1] + 0x1_0000 * (b[at + 2] + 256 * b[at + 3]);
  }

  // ---- the end of main() ----

  ghost predicate FileThere(d: Image, n: Inode, data: seq<nat>)
  {
    NoHoles(d, n) && Content(d, n) == data
  }

  /** Every input file is there, without a hole. */
  ghost predicate FilesThere(d: Image, nodes: Nodes, files: seq<Input>)
  {
    && (forall j: nat :: j in nodes <==> 1 <= j < |files| + 2)
    && (forall j: nat :: 2 <= j < |files| + 2 ==> FileThere(d, nodes[j], files[j - 2].data))
  }

  /** The root directory: an entry for each file, and zeroes up to the rounded size, with or without a hole. */
  ghost predicate RootThere(d: Image, n: Inode, files: seq<Input>)
  {
    && n.size == FixedSize(DIRENT_SIZE * (|files| + 2))
    && (NoHoles(d, n) <==> DIRENT_SIZE * (|files| + 2) % BSIZE != 0)
    && (n.size <= MAXBYTES ==>
       Content(d, n) == ImageTexts(files, |files|)[1] + seq(n.size - DIRENT_SIZE * (|files| + 2), _ => 0))
  }

  ghost predicate Complete(d: Image, nodes: Nodes, owner: map<nat, Slot>, files: seq<Input>)
  {
    Owned(Layout(), d, nodes, owner) && FilesThere(d, nodes, files) && RootThere(d, nodes[1], files)
  }

  lemma HoldingFacts(b: Builder, texts: map<nat, seq<nat>>)
    requires Holding(b, texts)
    ensures BMAPSTART in b.disk && b.freeblock <= FSSIZE && Owned(Layout(), b.View(), b.nodes, b.owner)
    ensures b.nodes.Keys == texts.Keys && forall j: nat :: j in texts <==> 1 <= j < b.freeinode
    ensures ZeroTails(b.View(), b.nodes)
  {
    hide MarkedTo;
    hide Owned;
    hide ByteAt;
    assert texts.Keys == Texts(b.View(), b.nodes).Keys == b.nodes.Keys;
  }

  lemma HoldingText(b: Builder, texts: map<nat, seq<nat>>, j: nat)
    requires Holding(b, texts) && j in texts && BMAPSTART in b.disk && b.freeblock <= FSSIZE
    ensures j in b.nodes && Exact(b.View(), b.nodes[j]) && NoHoles(b.View(), b.nodes[j]) &&
      texts[j] == Content(b.View(), b.nodes[j])
  {
    hide MarkedTo;
    hide Built;
    hide Addr;
    hide ByteAt;
    assert j in Texts(b.View(), b.nodes);
    assert Exact(b.View(), b.nodes[j]);
  }

  lemma TextsStep(files: seq<Input>, k: nat)
    requires k < |files|
    ensures ImageTexts(files, k + 1) == WithFile(ImageTexts(files, k), k + 2, files[k])
  {
  }

  lemma {:induction false} TextOf(files: seq<Input>, k: nat, j: nat)
    requires k <= |files| && 2 <= j < k + 2
    ensures ImageTexts(files, k)[j] == files[j - 2].data
  {
    hide Dirent;
    if j < k + 1 {
      TextOf(files, k - 1, j);
    }
  }

  /** Rounding up the size of the root directory. */
  lemma RootFixed(d: Image, nodes: Nodes, files: seq<Input>)
    requires 1 in nodes && ZeroTails(d, nodes) && Exact(d, nodes[1]) &&
      ImageTexts(files, |files|)[1] == Content(d, nodes[1])
    ensures RootThere(d, nodes[1].(size := FixedSize(nodes[1].size)), files)
  {
    hide ByteAt;
    hide Addr;
    hide Filled;
    hide ZeroTails;
    hide ImageTexts;
    hide Content;
    var n := nodes[1];
    var n' := n.(size := FixedSize(n.size));
    FixedHole(d, n);
    if FixedSize(n.size) <= MAXBYTES {
      FixedText(d, nodes, 1);
    }
  }

  lemma FilesFixed(d: Image, nodes: Nodes, files: seq<Input>, size: nat)
    requires FilesThere(d, nodes, files)
    ensures FilesThere(d, nodes[1 := nodes[1].(size := size)], files)
  {
    hide FileThere;
  }

  lemma HoldingFile(b: Builder, files: seq<Input>, texts: map<nat, seq<nat>>, j: nat)
    requires Holding(b, texts) && texts == ImageTexts(files, |files|) && BMAPSTART in b.disk &&
      b.freeblock <= FSSIZE && 2 <= j < |files| + 2
    ensures j in b.nodes && FileThere(b.View(), b.nodes[j], files[j - 2].data)
  {
    hide MarkedTo;
    hide ImageTexts;
    hide Content;
    hide Holding;
    hide Covered;
    hide Exact;
    TextOf(files, |files|, j);
    HoldingText(b, texts, j);
  }

  lemma HoldingFiles(b: Builder, files: seq<Input>, texts: map<nat, seq<nat>>)
    requires Holding(b, texts) && texts == ImageTexts(files, |files|) && b.freeinode == |files| + 2 &&
      BMAPSTART in b.disk && b.freeblock <= FSSIZE
    ensures FilesThere(b.View(), b.nodes, files)
  {
    hide MarkedTo;
    hide Owned;
    hide ImageTexts;
    hide FileThere;
    hide Holding;
    hide ZeroTails;
    HoldingFacts(b, texts);
    var v, nodes := b.View(), b.nodes;
    assert forall j: nat :: j in nodes <==> 1 <= j < |files| + 2;
    forall j: nat | 2 <= j < |files| + 2 ensures FileThere(v, nodes[j], files[j - 2].data) {
      HoldingFile(b, files, texts, j);
    }
  }

  lemma HoldingFixed(b: Builder, files: seq<Input>)
    requires Holding(b, ImageTexts(files, |files|)) && b.freeinode == |files| + 2 && BMAPSTART in b.disk &&
      b.freeblock <= FSSIZE && 1 in b.nodes
    ensures Complete(b.View(), b.nodes[1 := b.nodes[1].(size := FixedSize(b.nodes[1].size))], b.owner, files)
    ensures b.nodes[1].size <= MAXBYTES
  {
    hide MarkedTo;
    hide Owned;
    hide ImageTexts;
    hide Content;
    hide Holding;
    hide Filled;
    hide ZeroTails;
    hide NoHoles;
    hide FilesThere;
    hide RootThere;
    hide FixedSize;
    var texts := ImageTexts(files, |files|);
    HoldingFacts(b, texts);
    HoldingText(b, texts, 1);
    HoldingFiles(b, files, texts);
    RootFixed(b.View(), b.nodes, files);
    FilesFixed(b.View(), b.nodes, files, FixedSize(b.nodes[1].size));
    SizeOwned(Layout(), b.View(), b.nodes, b.owner, 1, FixedSize(b.nodes[1].size));
  }

  /** A block of inodes changes: the image is still complete. */
  lemma CompleteStays(d: Image, nodes: Nodes, owner: map<nat, Slot>, files: seq<Input>, d': Image)
    requires Complete(d, nodes, owner, files) && FilesStay(d, nodes, d') && Owned(Layout(), d', nodes, owner)
    ensures Complete(d', nodes, owner, files)
  {
    hide Owned;
    hide Content;
    hide FilesStay;
    hide ImageTexts;
    hide Covered;
    forall j | j in nodes && nodes[j].size <= MAXBYTES
      ensures Content(d', nodes[j]) == Content(d, nodes[j]) && (NoHoles(d', nodes[j]) <==> NoHoles(d, nodes[j])) {
      FilesContent(d, nodes, d', j);
    }
  }

  /** The end of main(): the size of the root directory, and the bit map. */
  method FinishImage(b: Builder, ghost files: seq<Input>)
    requires Holding(b, ImageTexts(files, |files|)) && b.freeinode == |files| + 2
    modifies b
    ensures Complete(b.disk, b.nodes, b.owner, files)
    ensures forall j :: j in b.nodes ==> (Survives(b.disk, b.nodes, j) <==> j < INODES)
  {
    hide MarkedTo;
    hide Owned;
    hide Built;
    hide ImageTexts;
    hide Holding;
    hide Complete;
    hide FilesStay;
    hide InodeAt;
    hide Filled;
    hide IsUsed;
    HoldingReady(b, ImageTexts(files, |files|));
    HoldingFixed(b, files);
    var din := InodeAt(b.disk[IBlock(1)], 1 % IPB).node;
    SizeOwned(Layout(), b.View(), b.nodes, b.owner, 1, FixedSize(din.size));
    ghost var nodes' := b.nodes[1 := b.nodes[1].(size := FixedSize(din.size))];
    BuiltNodes(b.disk, b.nodes, nodes', b.owner, b.owner, b.freeblock);
    ShelvedLoose(b.disk, b.nodes, 1);
    ShelvedFrame(b.disk, b.nodes, b.disk, nodes', 1);
    b.nodes := b.nodes[1 := b.nodes[1].(size := FixedSize(din.size))];
    ghost var v := b.View();
    b.Winode(1);
    BuiltFacts(b.disk, b.nodes, b.owner, b.freeblock);
    CompleteStays(v, b.nodes, b.owner, files, b.View());
    var buf := BitmapBlock(b.freeblock, b.disk);
    FinishInodes(b.disk, b.nodes, b.freeblock, buf);
    b.disk := b.disk[BMAPSTART := buf];
  }

  lemma HoldingReady(b: Builder, texts: map<nat, seq<nat>>)
    requires Holding(b, texts) && 1 in texts
    ensures b.Valid() && BMAPSTART in b.disk && b.freeblock <= FSSIZE && Shelved(b.disk, b.nodes, 0) &&
      0 !in b.nodes && 1 in b.nodes
    ensures Owned(Layout(), b.View(), b.nodes, b.owner) && (forall x: nat :: x in b.disk <==> x < FSSIZE)
  {
    hide MarkedTo;
    hide Owned;
    hide Shelved;
    HoldingSize(b, texts, 1);
  }

  /** Writing the bit map takes away exactly the inodes that lie in its block. */
  lemma FinishInodes(d: Image, nodes: Nodes, n: nat, buf: Sector)
    requires Shelved(d, nodes, 0) && 0 !in nodes && BMAPSTART in d && n <= BPB && MarkedTo(d, n) == d[BMAPSTART := buf]
    ensures var d' := d[BMAPSTART := buf]; forall j :: j in nodes ==> (Survives(d', nodes, j) <==> j < INODES)
  {
    hide InodeAt;
    hide IsUsed;
    var d' := MarkedTo(d, n);
    forall j | j in nodes ensures Survives(d', nodes, j) <==> j < INODES {
      if j >= INODES {
        MapIsNoInode(d', n, j % IPB);
      }
    }
  }

  // ---- mkfs ----

  /** How mkfs ends; Overran is where it starts to write inodes into data blocks, and nothing more is modelled. */
  datatype Outcome = Died | Overran | Done

  /**
   The image that mkfs writes.  It obeys the kernel's block ownership rules, every input file is there with its
   contents and without a hole, and the root directory has no hole exactly if its entries do not fill a
   whole number of blocks; but an inode is in its place exactly if its number is below 208.
   */
  method MakeImage(files: seq<Input>) returns (out: Outcome, b: Builder)
    requires forall t :: 0 <= t < |files| ==> Bytes(files[t].data)
    ensures out.Done? <==> Enough(files) && |files| + 2 <= OVERRUN
    ensures out.Died? ==> !Enough(files)
    ensures out.Done? ==> Complete(b.disk, b.nodes, b.owner, files)
    ensures out.Done? ==> forall j :: j in b.nodes ==> (Survives(b.disk, b.nodes, j) <==> j < INODES)
  {
    hide Holding;
    hide Bytes;
    hide Dirent;
    hide ImageTexts;
    hide Complete;
    hide Survives;
    hide GoodName;
    hide BlocksFor;
    hide Cost;
    b := new Builder();
    StartHolding(b);
    var root := NewFile(b, map[]);
    AddDots(b, files);
    out := AddFiles(b, files);
    if out.Done? {
      HoldingKeys(b, ImageTexts(files, |files|));
      FinishImage(b, files);
    }
  }

  method AddFiles(b: Builder, files: seq<Input>) returns (out: Outcome)
    requires forall t :: 0 <= t < |files| ==> Bytes(files[t].data)
    requires b.freeinode == 2 && Holding(b, ImageTexts(files, 0)) && b.freeblock == NMETA + Cost(files, 0)
    modifies b
    ensures out.Done? <==> Enough(files) && |files| + 2 <= OVERRUN
    ensures out.Died? ==> !Enough(files)
    ensures out.Done? ==> Holding(b, ImageTexts(files, |files|)) && b.freeinode == |files| + 2
  {
    hide Holding;
    hide Bytes;
    hide ImageTexts;
    hide GoodName;
    hide BlocksFor;
    hide Cost;
    hide WithFile;
    hide FreeAfter;
    var i := 0;
    HoldingKeys(b, ImageTexts(files, 0));
    TextsFit(b, files, 0);
    while i < |files|
      invariant 0 <= i <= |files| && b.freeinode == i + 2 && Holding(b, ImageTexts(files, i)) &&
        b.freeblock == NMETA + Cost(files, i) <= FSSIZE
      invariant i + 2 <= OVERRUN && DIRENT_SIZE * (i + 2) <= MAXBYTES
      invariant forall t :: 0 <= t < i ==> GoodName(files[t]) && |files[t].data| <= MAXBYTES
    {
      if !GoodName(files[i]) {
        return Died;
      }
      if b.freeinode >= OVERRUN {
        return Overran;
      }
      TextsStep(files, i);
      CostStep(files, i);
      var ok := AddFile(b, files[i], ImageTexts(files, i));
      if !ok {
        return Died;
      }
      i := i + 1;
      HoldingKeys(b, ImageTexts(files, i));
      TextsFit(b, files, i);
    }
    out := Done;
  }

  lemma CostStep(files: seq<Input>, k: nat)
    requires k < |files|
    ensures |ImageTexts(files, k)[1]| == DIRENT_SIZE * (k + 2)
    ensures FreeAfter(NMETA + Cost(files, k), DIRENT_SIZE * (k + 2), |files[k].data|) == NMETA + Cost(files, k + 1)
    ensures NMETA + Cost(files, k + 1) > FSSIZE || DIRENT_SIZE * (k + 3) > MAXBYTES ==> !Enough(files)
  {
    hide BlocksFor;
    hide GoodName;
    CostMore(files, k + 1, |files|);
    assert DIRENT_SIZE * (k + 2) + DIRENT_SIZE == DIRENT_SIZE * (k + 1 + 2);
  }

  lemma TextsFit(b: Builder, files: seq<Input>, k: nat)
    requires k <= |files| && Holding(b, ImageTexts(files, k))
    ensures DIRENT_SIZE * (k + 2) <= MAXBYTES
  {
    hide Holding;
    hide ImageTexts;
    HoldingSize(b, ImageTexts(files, k), 1);
  }

  method AddDots(b: Builder, ghost files: seq<Input>)
    requires Holding(b, map[1 := []]) && b.freeinode == 2 && b.freeblock == NMETA
    modifies b
    ensures b.freeinode == 2 && Holding(b, ImageTexts(files, 0)) && b.freeblock == NMETA + Cost(files, 0)
  {
    hide Holding;
    hide Dirent;
    DirentBytes(1, [46]);
    DirentBytes(1, [46, 46]);
    var ok := AppendTo(b, 1, Dirent(1, [46]), map[1 := []]);
    assert ok;
    assert [] + Dirent(1, [46]) == Dirent(1, [46]);
    SetTwice(map[], 1, [], Dirent(1, [46]));
    ok := AppendTo(b, 1, Dirent(1, [46, 46]), map[1 := Dirent(1, [46])]);
    assert ok;
    SetTwice(map[], 1, Dirent(1, [46]), Dirent(1, [46]) + Dirent(1, [46, 46]));
  }

  lemma StartHolding(b: Builder)
    requires b.Valid() && b.nodes == map[] && b.freeinode == 1
    ensures Holding(b, map[])
  {
  }

  // ---- two inputs ----

  function Empties(n: nat): seq<Input> {
    seq(n, _ => Input([97], []))
  }

  lemma {:induction false} EmptiesCost(n: nat, k: nat)
    requires k <= n
    ensures Cost(Empties(n), k) == BlocksFor(DIRENT_SIZE * (k + 2))
  {
    hide BlocksFor;
    BlocksNone();
    if k > 0 {
      EmptiesCost(n, k - 1);
    }
  }

  /** 62 empty files fill the root directory's block, and it ends up with a hole. */
  method HoleImage() returns (b: Builder)
    ensures 1 in b.nodes && !NoHoles(b.disk, b.nodes[1]) && b.nodes[1].size == 2 * BSIZE
  {
    hide Owned;
    hide Content;
    hide Covered;
    hide ImageTexts;
    hide Cost;
    hide InodeAt;
    EmptiesCost(62, 62);
    var out;
    out, b := MakeImage(Empties(62));
    assert out.Done?;
  }

  /** 207 empty files, and the last one's inode is not in the image. */
  method LostInode() returns (b: Builder)
    ensures 208 in b.nodes && !Survives(b.disk, b.nodes, 208) && forall j :: j in b.nodes && j != 208 ==>
      Survives(b.disk, b.nodes, j)
  {
    hide Owned;
    hide Content;
    hide Covered;
    hide ImageTexts;
    hide Cost;
    hide InodeAt;
    EmptiesCost(207, 207);
    var out;
    out, b := MakeImage(Empties(207));
    assert out.Done?;
  }

  // ---- what the kernel finds ----

  /**
   The kernel's file system on the image: its ownership rules hold, and there is a hole exactly as mkfs leaves one.
   */
  method Mount(files: seq<Input>) returns (out: Outcome, fs: FileSystem?)
    requires forall t :: 0 <= t < |files| ==> Bytes(files[t].data)
    ensures out.Done? <==> Enough(files) && |files| + 2 <= OVERRUN
    ensures out.Done? ==> fs != null && fs.Valid() && (AllWhole(fs.disk, fs.nodes) <==>
      DIRENT_SIZE * (|files| + 2) % BSIZE != 0)
    ensures out.Done? ==> Complete(fs.disk, fs.nodes, fs.owner, files)
    ensures out.Done? ==> forall j :: j in fs.nodes ==> fs.nodes[j].size <= MAXBYTES
  {
    hide Enough;
    var b;
    out, b := MakeImage(files);
    if out.Done? {
      fs := new FileSystem(Layout(), b.disk, b.nodes, b.owner);
    } else {
      fs := null;
    }
  }
}

/**
 Directories as files: entries of sixteen bytes, read with readi() and written with writei().
 */
module DirFiles {
  import opened Names
  import opened Directories
  import opened FsFormat
  import opened Bitmap
  import opened Ownership
  import opened Inodes
  import opened FileData

  // ---- one entry ----

  /** A name in bytes. */
  predicate ByteName(s: string) {
    forall k :: 0 <= k < |s| ==> s[k] < 256 as char
  }

  function Chars(b: seq<nat>): (s: string)
    requires Bytes(b)
    ensures |s| == |b| && ByteName(s)
  {
    seq(|b|, k requires 0 <= k < |b| => b[k] as char)
  }

  function Codes(s: string): (b: seq<nat>)
    ensures |b| == |s|
  {
    seq(|s|, k requires 0 <= k < |s| => s[k] as nat)
  }

  /** struct dirent in memory, from its bytes. */
  function Decode(b: seq<nat>): (e: Entry)
    requires Bytes(b) && |b| == DIRENT_SIZE
    ensures |e.name| == DIRSIZ && e.inum < 0x1_0000 && ByteName(e.name)
  {
    assert forall k :: 0 <= k < 16 ==> b[k] < 256;
    Entry(b[0] + 256 * b[1], Chars(b[2..]))
  }

  function Encode(e: Entry): (b: seq<nat>)
    requires |e.name| == DIRSIZ
    ensures |b| == DIRENT_SIZE
  {
    [e.inum % 256, e.inum / 256 % 256] + Codes(e.name)
  }

  predicate Storable(e: Entry) {
    e.inum < 0x1_0000 && |e.name| == DIRSIZ && ByteName(e.name)
  }

  lemma EncodeBytes(e: Entry)
    requires Storable(e)
    ensures Bytes(Encode(e))
  {
    forall k | 0 <= k < DIRSIZ ensures Codes(e.name)[k] < 256 {
      assert e.name[k] < 256 as char;
    }
  }

  /** An entry comes back from its bytes. */
  lemma DecodeEncode(e: Entry)
    requires Storable(e)
    ensures Bytes(Encode(e)) && Decode(Encode(e)) == e
  {
    EncodeBytes(e);
    var b := Encode(e);
    assert b[2..] == Codes(e.name);
    assert Chars(Codes(e.name)) == e.name;
  }

  // ---- a whole directory ----

  function Piece(c: seq<nat>, k: nat): seq<nat>
    requires DIRENT_SIZE * (k + 1) <= |c|
  {
    c[DIRENT_SIZE * k..DIRENT_SIZE * k + DIRENT_SIZE]
  }

  lemma PieceBytes(c: seq<nat>, k: nat)
    requires Bytes(c) && DIRENT_SIZE * (k + 1) <= |c|
    ensures Bytes(Piece(c, k))
  {
  }

  function Dirents(c: seq<nat>): (d: seq<Entry>)
    requires Bytes(c)
    ensures |d| == |c| / DIRENT_SIZE
  {
    seq(|c| / DIRENT_SIZE, (k: nat) requires k < |c| / DIRENT_SIZE => PieceBytes(c, k); Decode(Piece(c, k)))
  }

  lemma DirentsAt(c: seq<nat>, k: nat)
    requires Bytes(c) && k < |c| / DIRENT_SIZE
    ensures Bytes(Piece(c, k)) && Dirents(c)[k] == Decode(Piece(c, k))
  {
    PieceBytes(c, k);
  }

  /** Writing one entry into the file changes that entry of the directory, or adds it at the end. */
  lemma EntrySpliced(c: seq<nat>, k: nat, e: Entry)
    requires Bytes(c) && |c| % DIRENT_SIZE == 0 && k <= |c| / DIRENT_SIZE && Storable(e)
    ensures var c' := Splice(c, DIRENT_SIZE * k, Encode(e));
            && Bytes(c') && |c'| % DIRENT_SIZE == 0
            && Dirents(c') == if k < |c| / DIRENT_SIZE then Dirents(c)[k := e] else Dirents(c) + [e]
  {
    hide Decode;
    hide Encode;
    hide Storable;
    DecodeEncode(e);
    var c' := Splice(c, DIRENT_SIZE * k, Encode(e));
    SpliceBytes(c, DIRENT_SIZE * k, Encode(e));
    var n := |c'| / DIRENT_SIZE;
    var want := if k < |c| / DIRENT_SIZE then Dirents(c)[k := e] else Dirents(c) + [e];
    assert |want| == n;
    forall j: nat | j < n ensures Dirents(c')[j] == want[j] {
      DirentsAt(c', j);
      if j == k {
        assert Piece(c', j) == Encode(e);
      } else {
        PieceStays(c, k, Encode(e), j);
        DirentsAt(c, j);
      }
    }
  }

  lemma SpliceBytes(c: seq<nat>, off: nat, s: seq<nat>)
    requires Bytes(c) && Bytes(s) && off <= |c|
    ensures Bytes(Splice(c, off, s))
  {
  }

  lemma PieceStays(c: seq<nat>, k: nat, s: seq<nat>, j: nat)
    requires |s| == DIRENT_SIZE && |c| % DIRENT_SIZE == 0 && k <= |c| / DIRENT_SIZE && j < |c| / DIRENT_SIZE && j != k
    ensures Piece(Splice(c, DIRENT_SIZE * k, s), j) == Piece(c, j)
  {
    var at := DIRENT_SIZE * j;
    var c' := Splice(c, DIRENT_SIZE * k, s);
    assert at + DIRENT_SIZE <= DIRENT_SIZE * k || DIRENT_SIZE * k + DIRENT_SIZE <= at;
    assert forall x :: at <= x < at + DIRENT_SIZE ==> c'[x] == c[x];
  }

  /** A file that is a directory: whole entries, with unique names. */
  ghost predicate DirFile(d: Image, n: Inode)
  {
    n.size <= MAXBYTES && n.size % DIRENT_SIZE == 0 && Bytes(Content(d, n)) && Unique(Dirents(Content(d, n)))
  }

  ghost function Listing(d: Image, n: Inode): seq<Entry>
    requires DirFile(d, n)
  {
    Dirents(Content(d, n))
  }

  /** Reading a directory does not change its entries. */
  lemma PeekedListing(d: Image, nodes: Nodes, d': Image, nodes': Nodes, i: nat)
    requires Peeked(d, nodes, d', nodes') && i in nodes && DirFile(d, nodes[i])
    ensures i in nodes' && nodes'[i].size == nodes[i].size && DirFile(d', nodes'[i])
    ensures Listing(d', nodes'[i]) == Listing(d, nodes[i]) && Content(d', nodes'[i]) == Content(d, nodes[i])
  {
    hide ByteAt;
    hide NoHoles;
    hide Numbered;
    hide Unique;
    hide Dirents;
    assert SameBytes(d, nodes[i], d', nodes'[i]);
    assert Content(d', nodes'[i]) == Content(d, nodes[i]);
  }

  lemma PeekedOthers(d: Image, nodes: Nodes, d': Image, nodes': Nodes, i: nat)
    requires Peeked(d, nodes, d', nodes')
    ensures OthersSame(d, nodes, d', nodes', i) && KeepsWhole(d, nodes, d', nodes')
  {
    hide ByteAt;
    hide NoHoles;
    hide Numbered;
    forall j | j in nodes && nodes[j].size <= MAXBYTES ensures Content(d', nodes'[j]) == Content(d, nodes[j]) {
      assert SameBytes(d, nodes[j], d', nodes'[j]);
    }
  }

  /** A file without holes has every block of an entry. */
  lemma EntryThere(d: Image, n: Inode, k: nat)
    requires n.size <= MAXBYTES && n.size % DIRENT_SIZE == 0 && DIRENT_SIZE * k < n.size
    ensures NoHoles(d, n) ==> AllThere(d, n, DIRENT_SIZE * k, DIRENT_SIZE)
  {
    hide Addr;
    assert DIRENT_SIZE * k + DIRENT_SIZE <= n.size;
  }

  /** readi() of one entry. */
  method ReadEntry(fs: FileSystem, dp: nat, k: nat) returns (panic: bool, e: Entry)
    requires fs.Valid() && dp in fs.nodes && DirFile(fs.disk, fs.nodes[dp]) && DIRENT_SIZE * k < fs.nodes[dp].size
    modifies fs
    ensures panic ==> NoFree(fs.g, fs.disk)
    ensures NoHoles(old(fs.disk), old(fs.nodes)[dp]) ==> !panic && Untouched(fs)
    ensures !panic ==>
      fs.Valid() && fs.written == old(fs.written) && Peeked(old(fs.disk), old(fs.nodes), fs.disk, fs.nodes)
    ensures !panic ==>
      k < |old(Listing(fs.disk, fs.nodes[dp]))| && e == old(Listing(fs.disk, fs.nodes[dp]))[k]
  {
    hide Owned;
    hide NoHoles;
    hide AllThere;
    hide AllCopied;
    hide Peeked;
    hide Content;
    hide Decode;
    hide Unique;
    hide Dirents;
    hide ByteAt;
    ghost var c := Content(fs.disk, fs.nodes[dp]);
    EntryThere(fs.disk, fs.nodes[dp], k);
    EveryCopied(DIRENT_SIZE * k, DIRENT_SIZE);
    DirentsAt(c, k);
    var r, data;
    panic, r, data := Readi(fs, dp, DIRENT_SIZE * k, DIRENT_SIZE, _ => true);
    if panic {
      e := BLANK;
      return;
    }
    assert data == Piece(c, k);
    e := Decode(data);
  }

  lemma EveryCopied(off: nat, n: nat)
    ensures AllCopied(off, n, _ => true)
  {
  }

  /**
   dirlookup(): the position of the only entry with this name, or the size.  It can panic only for a directory with a
   hole, on a full disk.
   */
  method Dirlookup(fs: FileSystem, dp: nat, name: string) returns (panic: bool, k: nat)
    requires fs.Valid() && dp in fs.nodes && DirFile(fs.disk, fs.nodes[dp]) && Bounded(name, DIRSIZ)
    modifies fs
    ensures panic ==> NoFree(fs.g, fs.disk)
    ensures NoHoles(old(fs.disk), old(fs.nodes)[dp]) ==> !panic && Untouched(fs)
    ensures !panic ==>
      fs.Valid() && fs.written == old(fs.written) && Peeked(old(fs.disk), old(fs.nodes), fs.disk, fs.nodes)
    ensures var d := old(Listing(fs.disk, fs.nodes[dp]));
            !panic ==> k <= |d| && (k == |d| <==> Absent(d, name)) && (k < |d| ==>
              Matches(d[k], name) && forall j :: 0 <= j < |d| && Matches(d[j], name) ==> j == k)
  {
    hide Owned;
    hide NoHoles;
    hide Peeked;
    hide Content;
    hide Visible;
    ghost var d0, nodes0 := fs.disk, fs.nodes;
    ghost var d := Listing(d0, nodes0[dp]);
    PeekedSame(d0, nodes0);
    panic, k := false, 0;
    while DIRENT_SIZE * k < fs.nodes[dp].size
      invariant fs.Valid() && !panic && k <= |d| && forall j :: 0 <= j < k ==> !Matches(d[j], name)
      invariant Walking(fs.disk, fs.nodes, d0, nodes0, dp) && fs.written == old(fs.written)
      invariant NoHoles(d0, nodes0[dp]) ==> Untouched(fs)
      decreases |d| - k
    {
      ghost var d1, nodes1 := fs.disk, fs.nodes;
      var e;
      panic, e := ReadEntry(fs, dp, k);
      if panic {
        return;
      }
      WalkingOn(fs.disk, fs.nodes, d1, nodes1, d0, nodes0, dp);
      if e.inum != 0 {
        var c := Strncmp(name, e.name, DIRSIZ);
        if c == 0 {
          return;
        }
      }
      k := k + 1;
    }
  }

  /** A directory being read has the entries it had before. */
  ghost predicate Walking(d: Image, nodes: Nodes, d0: Image, nodes0: Nodes, dp: nat)
  {
    && dp in nodes0 && dp in nodes && Peeked(d0, nodes0, d, nodes) && nodes[dp].size == nodes0[dp].size
    && DirFile(d0, nodes0[dp]) && DirFile(d, nodes[dp]) && Listing(d, nodes[dp]) == Listing(d0, nodes0[dp])
  }

  lemma WalkingOn(d: Image, nodes: Nodes, d1: Image, nodes1: Nodes, d0: Image, nodes0: Nodes, dp: nat)
    requires Walking(d1, nodes1, d0, nodes0, dp) && Peeked(d1, nodes1, d, nodes)
    ensures Walking(d, nodes, d0, nodes0, dp)
  {
    hide Peeked;
    hide DirFile;
    hide Listing;
    PeekedTrans(d0, nodes0, d1, nodes1, d, nodes);
    PeekedListing(d1, nodes1, d, nodes, dp);
  }

  datatype LinkResult = Exists | Linked(k: nat) | NoRoom

  lemma StoredBytes(name: string)
    requires ByteName(name)
    ensures ByteName(Stored(name, DIRSIZ))
  {
    VisibleBytes(name, DIRSIZ);
  }

  lemma {:induction false} VisibleBytes(s: string, n: nat)
    requires ByteName(s)
    ensures ByteName(Visible(s, n))
  {
    if n > 0 && s != [] {
      VisibleBytes(s[1..], n - 1);
    }
  }

  /** What writing the new entry makes of the directory. */
  lemma LinkWritten(d: Image, n: Inode, d': Image, n': Inode, k: nat, name: string, inum: nat)
    requires DirFile(d, n) && Absent(Listing(d, n), name) && ByteName(name) && inum < 0x1_0000
    requires k <= |Listing(d, n)| && (k < |Listing(d, n)| ==> !Live(Listing(d, n)[k])) && n'.size <= MAXBYTES
    requires Content(d', n') == Splice(Content(d, n), DIRENT_SIZE * k, Encode(Entry(inum, Stored(name, DIRSIZ))))
    ensures DirFile(d', n') && Gains(Listing(d, n), Listing(d', n'), k, name, inum)
  {
    hide Content;
    hide Encode;
    hide Unique;
    hide Stored;
    hide Absent;
    StoredBytes(name);
    var e := Entry(inum, Stored(name, DIRSIZ));
    EntrySpliced(Content(d, n), k, e);
    assert |Content(d', n')| == n'.size;
    GainsUnique(Listing(d, n), Dirents(Content(d', n')), k, name, inum);
  }

  /** Looking for a free entry: the first one that is not in use, or the size. */
  method FindFree(fs: FileSystem, dp: nat) returns (panic: bool, k: nat)
    requires fs.Valid() && dp in fs.nodes && DirFile(fs.disk, fs.nodes[dp])
    modifies fs
    ensures panic ==> NoFree(fs.g, fs.disk)
    ensures NoHoles(old(fs.disk), old(fs.nodes)[dp]) ==> !panic && Untouched(fs)
    ensures !panic ==>
      fs.Valid() && fs.written == old(fs.written) && Peeked(old(fs.disk), old(fs.nodes), fs.disk, fs.nodes)
    ensures var d := old(Listing(fs.disk, fs.nodes[dp]));
      !panic ==> k <= |d| && (k < |d| ==> !Live(d[k])) && forall j :: 0 <= j < k ==> Live(d[j])
  {
    hide Owned;
    hide NoHoles;
    hide Peeked;
    hide Content;
    hide Unique;
    ghost var d0, nodes0 := fs.disk, fs.nodes;
    ghost var d := Listing(d0, nodes0[dp]);
    PeekedSame(d0, nodes0);
    panic, k := false, 0;
    while DIRENT_SIZE * k < fs.nodes[dp].size
      invariant fs.Valid() && !panic && k <= |d| && forall j :: 0 <= j < k ==> Live(d[j])
      invariant Walking(fs.disk, fs.nodes, d0, nodes0, dp) && fs.written == old(fs.written)
      invariant NoHoles(d0, nodes0[dp]) ==> Untouched(fs)
      decreases |d| - k
    {
      ghost var d1, nodes1 := fs.disk, fs.nodes;
      var e;
      panic, e := ReadEntry(fs, dp, k);
      if panic {
        return;
      }
      WalkingOn(fs.disk, fs.nodes, d1, nodes1, d0, nodes0, dp);
      if e.inum == 0 {
        break;
      }
      k := k + 1;
    }
  }

  /**
   dirlink(): refuses a name that is there, and otherwise adds it in the first free place or at the end; NoRoom is a
   panic.
   */
  method Dirlink(fs: FileSystem, dp: nat, name: string, inum: nat) returns (r: LinkResult)
    requires fs.Valid() && dp in fs.nodes && DirFile(fs.disk, fs.nodes[dp]) && Bounded(name, DIRSIZ)
    requires ByteName(name) && inum < 0x1_0000
    modifies fs
    ensures NoHoles(old(fs.disk), old(fs.nodes)[dp]) || !r.NoRoom? ==>
      (r.Exists? <==> !Absent(old(Listing(fs.disk, fs.nodes[dp])), name))
    ensures r.Exists? && NoHoles(old(fs.disk), old(fs.nodes)[dp]) ==> Untouched(fs)
    ensures r.Exists? ==>
      fs.Valid() && fs.written == old(fs.written) && Peeked(old(fs.disk), old(fs.nodes), fs.disk, fs.nodes)
    ensures r.Linked? ==>
      fs.Valid() && KeepsWhole(old(fs.disk), old(fs.nodes), fs.disk, fs.nodes) &&
      OthersSame(old(fs.disk), old(fs.nodes), fs.disk, fs.nodes, dp)
    ensures r.Linked? ==>
      DirFile(fs.disk, fs.nodes[dp]) &&
      Gains(old(Listing(fs.disk, fs.nodes[dp])), Listing(fs.disk, fs.nodes[dp]), r.k, name, inum)
    ensures r.Linked? ==> forall j :: 0 <= j < r.k ==> Live(old(Listing(fs.disk, fs.nodes[dp]))[j])
    ensures r.NoRoom? ==> NoFree(fs.g, fs.disk) || old(fs.nodes)[dp].size + DIRENT_SIZE > MAXBYTES
  {
    hide Owned;
    hide NoHoles;
    hide KeepsWhole;
    hide Peeked;
    hide Content;
    hide Visible;
    hide Stored;
    hide Unique;
    hide OthersSame;
    hide Absent;
    hide Gains;
    hide FileWritten;
    hide FirstThere;
    hide AllCopied;
    ghost var d0, nodes0 := fs.disk, fs.nodes;
    var panic, k := Dirlookup(fs, dp, name);
    if panic {
      return NoRoom;
    }
    ghost var d1, nodes1 := fs.disk, fs.nodes;
    PeekedListing(d0, nodes0, d1, nodes1, dp);
    if DIRENT_SIZE * k < fs.nodes[dp].size {
      return Exists;
    }
    panic, k := FindFree(fs, dp);
    if panic {
      return NoRoom;
    }
    ghost var d2, nodes2 := fs.disk, fs.nodes;
    PeekedTrans(d0, nodes0, d1, nodes1, d2, nodes2);
    PeekedListing(d0, nodes0, d2, nodes2, dp);
    PeekedOthers(d0, nodes0, d2, nodes2, dp);
    var s := Strncpy(name, DIRSIZ);
    StoredBytes(name);
    EncodeBytes(Entry(inum, s));
    ZeroBytes();
    EveryCopied(DIRENT_SIZE * k, DIRENT_SIZE);
    var w;
    ghost var lost;
    w, lost := Writei(fs, dp, DIRENT_SIZE * k, Encode(Entry(inum, s)), _ => true, seq(BSIZE, _ => 0));
    if w != Count(DIRENT_SIZE) {
      return NoRoom;
    }
    OthersTrans(d0, nodes0, d2, nodes2, fs.disk, fs.nodes, dp);
    WholeTrans(d0, nodes0, d2, nodes2, fs.disk, fs.nodes);
    LinkWritten(d2, nodes2[dp], fs.disk, fs.nodes[dp], k, name, inum);
    return Linked(k);
  }

  lemma ZeroBytes()
    ensures Bytes(seq(BSIZE, _ => 0))
  {
  }

  /** isdirempty(): with the two dots in front, no named entry is left. */
  method Isdirempty(fs: FileSystem, dp: nat) returns (panic: bool, r: bool)
    requires fs.Valid() && dp in fs.nodes && DirFile(fs.disk, fs.nodes[dp]) &&
      DotsFirst(Listing(fs.disk, fs.nodes[dp]))
    modifies fs
    ensures panic ==> NoFree(fs.g, fs.disk)
    ensures NoHoles(old(fs.disk), old(fs.nodes)[dp]) ==> !panic && Untouched(fs)
    ensures !panic ==>
      fs.Valid() && fs.written == old(fs.written) && Peeked(old(fs.disk), old(fs.nodes), fs.disk, fs.nodes)
    ensures var d := old(Listing(fs.disk, fs.nodes[dp]));
      !panic ==> (r <==> Vacant(d)) && (r <==> forall k :: 0 <= k < |d| ==> !Named(d[k]))
  {
    hide Owned;
    hide NoHoles;
    hide Peeked;
    hide Content;
    hide Visible;
    ghost var d0, nodes0 := fs.disk, fs.nodes;
    ghost var d := Listing(d0, nodes0[dp]);
    PeekedSame(d0, nodes0);
    VacantMeans(d);
    panic, r := false, true;
    var k := 2;
    while DIRENT_SIZE * k < fs.nodes[dp].size
      invariant fs.Valid() && !panic && 2 <= k <= |d| && forall j :: 2 <= j < k ==> !Live(d[j])
      invariant Walking(fs.disk, fs.nodes, d0, nodes0, dp) && fs.written == old(fs.written)
      invariant NoHoles(d0, nodes0[dp]) ==> Untouched(fs)
      decreases |d| - k
    {
      ghost var d1, nodes1 := fs.disk, fs.nodes;
      var e;
      panic, e := ReadEntry(fs, dp, k);
      if panic {
        return;
      }
      WalkingOn(fs.disk, fs.nodes, d1, nodes1, d0, nodes0, dp);
      if e.inum != 0 {
        return false, false;
      }
      k := k + 1;
    }
  }
}

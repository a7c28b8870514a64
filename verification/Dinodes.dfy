/**
 Inodes on disk: 64 bytes each, sixteen to a block.
 */
module Dinodes {
  import opened Prelude
  import opened FsFormat
  import opened Ownership

  const IPB := 16
  const SHORT := 0x1_0000  // 2^16

  /** An inode of a file or directory; the device numbers are zero. */
  datatype Dinode = Dinode(typ: nat, nlink: nat, node: Inode)

  predicate Storable(n: Dinode) {
    n.typ < SHORT && n.nlink < SHORT && n.node.size < UINT
  }

  /** Four shorts, the size and thirteen block numbers, as words. */
  function InodeWords(n: Dinode): (ws: seq<nat>)
    requires Storable(n)
    ensures |ws| == 16 && forall k :: 0 <= k < 16 ==> ws[k] < UINT
  {
    [n.typ, SHORT * n.nlink, n.node.size] + n.node.addrs
  }

  function WithWords(b: Sector, at: nat, ws: seq<nat>): Sector
    requires at + |ws| <= NINDIRECT && forall k :: 0 <= k < |ws| ==> ws[k] < UINT
    decreases |ws|
  {
    if ws == [] then b else WithWords(WithWord(b, at, ws[0]), at + 1, ws[1..])
  }

  lemma {:induction false} WordsStored(b: Sector, at: nat, ws: seq<nat>, j: nat)
    requires at + |ws| <= NINDIRECT && (forall k :: 0 <= k < |ws| ==> ws[k] < UINT) && j < NINDIRECT
    ensures Word(WithWords(b, at, ws), j) == if at <= j < at + |ws| then ws[j - at] else Word(b, j)
    decreases |ws|
  {
    hide Word;
    hide WithWord;
    if ws != [] {
      WordStored(b, at, ws[0], j);
      WordsStored(WithWord(b, at, ws[0]), at + 1, ws[1..], j);
    }
  }

  /** *dip = *ip in slot k of an inode block. */
  function WithInode(b: Sector, k: nat, n: Dinode): Sector
    requires k < IPB && Storable(n)
  {
    WithWords(b, 16 * k, InodeWords(n))
  }

  /** Word j of the inode in slot k. */
  function Field(b: Sector, k: nat, j: nat): (w: nat)
    requires k < IPB && j < 16
    ensures w < UINT
  {
    Word(b, 16 * k + j)
  }

  function Addrs(b: Sector, k: nat): (r: seq<nat>)
    requires k < IPB
    ensures |r| == NDIRECT + 1 && forall j :: 0 <= j <= NDIRECT ==> r[j] == Field(b, k, 3 + j) < UINT
  {
    seq(NDIRECT + 1, (j: nat) requires j <= NDIRECT => Field(b, k, 3 + j))
  }

  /** *ip = *dip */
  function InodeAt(b: Sector, k: nat): (n: Dinode)
    requires k < IPB
    ensures Storable(n)
  {
    Dinode(Field(b, k, 0) % SHORT, Field(b, k, 1) / SHORT, Node(Field(b, k, 2), Addrs(b, k)))
  }

  lemma FieldStored(b: Sector, k: nat, n: Dinode, m: nat, j: nat)
    requires k < IPB && m < IPB && Storable(n) && j < 16
    ensures Field(WithInode(b, k, n), m, j) == if k == m then InodeWords(n)[j] else Field(b, m, j)
  {
    hide Word;
    hide WithWords;
    WordsStored(b, 16 * k, InodeWords(n), 16 * m + j);
  }

  /** An inode reads back as it was written, and the others in the block do not change. */
  lemma InodeStored(b: Sector, k: nat, n: Dinode, m: nat)
    requires k < IPB && m < IPB && Storable(n)
    ensures InodeAt(WithInode(b, k, n), m) == if k == m then n else InodeAt(b, m)
  {
    hide Field;
    hide WithInode;
    var b' := WithInode(b, k, n);
    FieldStored(b, k, n, m, 0);
    FieldStored(b, k, n, m, 1);
    FieldStored(b, k, n, m, 2);
    forall j: nat | j <= NDIRECT ensures Addrs(b', m)[j] == if k == m then n.node.addrs[j] else Addrs(b, m)[j] {
      FieldStored(b, k, n, m, 3 + j);
    }
    assert Addrs(b', m) == if k == m then n.node.addrs else Addrs(b, m);
  }
}

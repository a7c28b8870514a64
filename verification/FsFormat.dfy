/**
 The on-disk format below inodes: bytes of a block, little-endian words, and the free bit map.
 */
module FsFormat {
  import opened Prelude

  const BSIZE := 1024
  const NDIRECT := 12
  const NINDIRECT := 256
  const MAXFILE := 268
  const BPB := 8192
  const DIRENT_SIZE := 16

  /** The bytes of a block. */
  type Sector = b: seq<nat> | |b| == BSIZE && (forall i :: 0 <= i < BSIZE ==> b[i] < 256) witness seq(BSIZE, _ => 0)

  type Image = map<nat, Sector>

  function Zeroes(): (b: Sector)
    ensures forall i :: 0 <= i < BSIZE ==> b[i] == 0
  {
    seq(BSIZE, _ => 0)
  }

  // ---- words ----

  function Word(b: Sector, i: nat): (w: nat)
    requires i < NINDIRECT
    ensures w < UINT
  {
    b[4 * i] + 256 * b[4 * i + 1] + 0x1_0000 * b[4 * i + 2] + 0x100_0000 * b[4 * i + 3]
  }

  function WithWord(b: Sector, i: nat, w: nat): (r: Sector)
    requires i < NINDIRECT && w < UINT
  {
    b[4 * i := w % 256][4 * i + 1 := w / 256 % 256][4 * i + 2 := w / 0x1_0000 % 256][4 * i + 3 := w / 0x100_0000]
  }

  /** Four bytes hold a word exactly. */
  lemma WordBytes(w: nat)
    requires w < UINT
    ensures w == w % 256 + 256 * (w / 256 % 256) + 0x1_0000 * (w / 0x1_0000 % 256) + 0x100_0000 * (w / 0x100_0000)
  {
    var a := w / 256;
    assert a / 256 == w / 0x1_0000;
    assert a / 256 / 256 == w / 0x100_0000;
  }

  /** A stored word reads back, and the other words do not change. */
  lemma WordStored(b: Sector, i: nat, w: nat, j: nat)
    requires i < NINDIRECT && w < UINT && j < NINDIRECT
    ensures Word(WithWord(b, i, w), j) == if i == j then w else Word(b, j)
  {
    WordBytes(w);
  }

  lemma ZeroWord(i: nat)
    requires i < NINDIRECT
    ensures Word(Zeroes(), i) == 0
  {
  }

  // ---- bits ----

  /** 1 << k */
  function Mask(k: nat): (m: nat)
    ensures m >= 1
  {
    if k == 0 then 1 else 2 * Mask(k - 1)
  }

  /** (x >> k) & 1 */
  predicate Bit(x: nat, k: nat) {
    if k == 0 then x % 2 == 1 else Bit(x / 2, k - 1)
  }

  /** For a clear bit x | (1 << k) is a sum: the bit is then set and no other bit changes. */
  lemma {:induction false} BitSet(x: nat, k: nat, j: nat, n: nat)
    requires !Bit(x, k) && x < Mask(n) && k < n
    ensures x + Mask(k) < Mask(n)
    ensures Bit(x + Mask(k), j) <==> j == k || Bit(x, j)
  {
    if k > 0 {
      assert (x + Mask(k)) / 2 == x / 2 + Mask(k - 1);
      BitSet(x / 2, k - 1, if j > 0 then j - 1 else 0, n - 1);
    }
  }

  /** For a set bit x & ~(1 << k) is a difference: the bit is then clear and no other bit changes. */
  lemma {:induction false} BitCleared(x: nat, k: nat, j: nat)
    requires Bit(x, k)
    ensures x >= Mask(k)
    ensures Bit(x - Mask(k), j) <==> j != k && Bit(x, j)
  {
    if k > 0 {
      BitCleared(x / 2, k - 1, if j > 0 then j - 1 else 0);
      assert (x - Mask(k)) / 2 == x / 2 - Mask(k - 1);
    }
  }

  lemma ByteMask()
    ensures Mask(8) == 256
  {
    assert Mask(4) == 16;
  }

  /** The same two facts on the machine's own bits. */
  lemma BitChangeBits(x: bv8, k: bv8)
    requires k < 8
    ensures x & (1 << k) == 0 ==> x | (1 << k) == x + (1 << k)
    ensures x & (1 << k) != 0 ==> x & !(1 << k) == x - (1 << k)
  {
  }
}

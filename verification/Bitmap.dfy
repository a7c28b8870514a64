/**
 The free bit map on disk: one bit per block, eight bits to a byte, 8192 to a block.
 */
module Bitmap {
  import opened Prelude
  import opened FsFormat

  /** The part of the superblock that the file layer uses; `datastart` is where the data blocks begin. */
  datatype Super = Super(size: nat, inodestart: nat, bmapstart: nat, datastart: nat) {
    predicate Valid() {
      && inodestart < bmapstart && bmapstart + size / BPB < datastart <= size && size < UINT
    }
  }

  /** BBLOCK(b, sb) */
  function MapBlock(g: Super, b: nat): nat {
    g.bmapstart + b / BPB
  }

  ghost predicate Whole(g: Super, d: Image)
  {
    forall b: nat :: b < g.size ==> b in d
  }

  lemma MapBlockBelow(g: Super, b: nat)
    requires g.Valid() && b < g.size
    ensures g.bmapstart <= MapBlock(g, b) < g.datastart
  {
  }

  predicate IsUsed(g: Super, d: Image, b: nat) {
    MapBlock(g, b) in d && Bit(d[MapBlock(g, b)][b % BPB / 8], b % 8)
  }

  /** Every block is marked. */
  ghost predicate NoFree(g: Super, d: Image)
  {
    forall x: nat :: x < g.size ==> IsUsed(g, d, x)
  }

  function Marked(g: Super, d: Image, b: nat): (d': Image)
    requires MapBlock(g, b) in d && !IsUsed(g, d, b)
  {
    var m := MapBlock(g, b);
    var x := d[m][b % BPB / 8];
    ByteMask();
    BitSet(x, b % 8, 0, 8);
    d[m := d[m][b % BPB / 8 := x + Mask(b % 8)]]
  }

  function Unmarked(g: Super, d: Image, b: nat): (d': Image)
    requires IsUsed(g, d, b)
  {
    var m := MapBlock(g, b);
    var x := d[m][b % BPB / 8];
    BitCleared(x, b % 8, 0);
    d[m := d[m][b % BPB / 8 := x - Mask(b % 8)]]
  }

  lemma Position(b: nat)
    ensures b == BPB * (b / BPB) + 8 * (b % BPB / 8) + b % 8
  {
    var q, r := b / BPB, b % BPB;
    Remainder(BPB / 8 * q + r / 8, r % 8);
  }

  lemma Remainder(q: nat, r: nat)
    requires r < 8
    ensures (8 * q + r) % 8 == r
  {
  }

  lemma SamePosition(a: nat, b: nat)
    ensures a == b <==> a / BPB == b / BPB && a % BPB / 8 == b % BPB / 8 && a % 8 == b % 8
  {
    Position(a);
    Position(b);
  }

  /** Marking a block changes that block's bit and no other. */
  lemma MarkedIs(g: Super, d: Image, b: nat, x: nat)
    requires MapBlock(g, b) in d && !IsUsed(g, d, b)
    ensures IsUsed(g, Marked(g, d, b), x) <==> x == b || IsUsed(g, d, x)
  {
    SamePosition(b, x);
    ByteMask();
    BitSet(d[MapBlock(g, b)][b % BPB / 8], b % 8, x % 8, 8);
  }

  lemma UnmarkedIs(g: Super, d: Image, b: nat, x: nat)
    requires IsUsed(g, d, b)
    ensures IsUsed(g, Unmarked(g, d, b), x) <==> x != b && IsUsed(g, d, x)
  {
    SamePosition(b, x);
    BitCleared(d[MapBlock(g, b)][b % BPB / 8], b % 8, x % 8);
  }

  /** A change outside the bit map does not change any bit. */
  lemma MapFrame(g: Super, d: Image, b: nat, data: Sector, x: nat)
    requires g.Valid() && x < g.size && !(g.bmapstart <= b < g.datastart)
    ensures IsUsed(g, d[b := data], x) <==> IsUsed(g, d, x)
  {
    MapBlockBelow(g, x);
  }
}

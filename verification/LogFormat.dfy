/**
 The on-disk format of the write-ahead log and the meaning of recovery.

 A disk is a sequence of blocks.  The log occupies `size` blocks from `start`:
 a header block, whose first word is the number n of logged blocks and whose next
 n words are their home block numbers, followed by one slot for each of them.
 Every other block of the disk is a home block.
 */
module LogFormat {
  import opened Prelude

  const BSIZE_WORDS := 256  // BSIZE bytes seen as 4-byte unsigned words

  type Block = b: seq<nat> | |b| == BSIZE_WORDS witness seq(BSIZE_WORDS, _ => 0)

  type Disk = seq<Block>

  /** Where the log lives: log.start, log.size and the number of blocks of the disk. */
  datatype Geometry = Geometry(start: nat, size: nat, nblocks: nat) {
    predicate Valid() {
      1 <= size && start + size <= nblocks
    }

    /** Blocks outside the log region. */
    predicate Home(b: int) {
      0 <= b < nblocks && !(start <= b < start + size)
    }

    /** How many slots log_write() is prepared to use. */
    function Capacity(): nat
      requires Valid()
    {
      if LOGSIZE < size - 1 then LOGSIZE else size - 1
    }

    function Slot(tail: nat): nat {
      start + tail + 1
    }
  }

  /** A list of logged blocks that fits the log and names each home block once. */
  ghost predicate ValidHead(g: Geometry, lh: seq<nat>)
    requires g.Valid()
  {
    && |lh| <= g.Capacity()
    && (forall i :: 0 <= i < |lh| ==> g.Home(lh[i]))
    && (forall i, j :: 0 <= i < j < |lh| ==> lh[i] != lh[j])
  }

  /** The block list held by a header block. */
  function HeadOf(b: Block): seq<nat>
  {
    if b[0] <= LOGSIZE then b[1..1 + b[0]] else []
  }

  /** A header block after write_head() has stored `lh` in it: words past the list keep their old value. */
  function PutHead(b: Block, lh: seq<nat>): Block
    requires |lh| <= LOGSIZE
  {
    [|lh|] + lh + b[1 + |lh|..]
  }

  /** read_head() reads back exactly what write_head() stored, whatever the block held before. */
  lemma HeadRoundTrip(b: Block, lh: seq<nat>)
    requires |lh| <= LOGSIZE
    ensures HeadOf(PutHead(b, lh)) == lh
  {
    var h := PutHead(b, lh);
    assert h[0] == |lh|;
    assert h[1..1 + |lh|] == lh;
  }

  /**
   The disk `d` stands for the home contents `c`: the block list in its header is well formed, every
   listed block has its contents in the log, and every other home block is in place.
   This is the property that a crash must never break.
   */
  ghost predicate RecoversTo(g: Geometry, d: Disk, c: Disk)
    requires g.Valid()
  {
    && |d| == |c| == g.nblocks
    && d[g.start][0] <= LOGSIZE
    && var lh := HeadOf(d[g.start]);
    && ValidHead(g, lh)
    && (forall i :: 0 <= i < |lh| ==> d[g.Slot(i)] == c[lh[i]])
    && (forall b :: g.Home(b) && b !in lh ==> d[b] == c[b])
  }

  /** install_trans(): the first `tail` logged blocks copied from their slots to their homes. */
  function Installed(g: Geometry, d: Disk, lh: seq<nat>, tail: nat): (r: Disk)
    requires g.Valid() && |d| == g.nblocks && tail <= |lh| <= g.Capacity()
    requires forall i :: 0 <= i < |lh| ==> g.Home(lh[i])
    ensures |r| == |d|
    ensures forall b :: 0 <= b < |d| && !g.Home(b) ==> r[b] == d[b]
  {
    if tail == 0 then d
    else Installed(g, d, lh, tail - 1)[lh[tail - 1] := d[g.Slot(tail - 1)]]
  }

  /** recover_from_log() run to its end. */
  function Recover(g: Geometry, d: Disk): (r: Disk)
    requires g.Valid() && |d| == g.nblocks
    requires |HeadOf(d[g.start])| <= g.Capacity()
    requires forall i :: 0 <= i < |HeadOf(d[g.start])| ==> g.Home(HeadOf(d[g.start])[i])
    ensures |r| == |d|
  {
    var lh := HeadOf(d[g.start]);
    Installed(g, d, lh, |lh|)[g.start := PutHead(d[g.start], [])]
  }

  lemma {:induction false} InstalledContents(g: Geometry, d: Disk, lh: seq<nat>, tail: nat)
    requires g.Valid() && |d| == g.nblocks && ValidHead(g, lh) && tail <= |lh|
    ensures forall i :: 0 <= i < tail ==> Installed(g, d, lh, tail)[lh[i]] == d[g.Slot(i)]
    ensures forall b :: 0 <= b < |d| && b !in lh[..tail] ==> Installed(g, d, lh, tail)[b] == d[b]
  {
    if tail > 0 {
      InstalledContents(g, d, lh, tail - 1);
      assert lh[..tail] == lh[..tail - 1] + [lh[tail - 1]];
    }
  }

  /** Recovery turns a disk that stands for `c` into one whose home blocks are `c` and whose log is empty. */
  lemma RecoverCorrect(g: Geometry, d: Disk, c: Disk)
    requires g.Valid() && RecoversTo(g, d, c)
    ensures HeadOf(Recover(g, d)[g.start]) == []
    ensures forall b :: g.Home(b) ==> Recover(g, d)[b] == c[b]
    ensures RecoversTo(g, Recover(g, d), c)
  {
    var lh := HeadOf(d[g.start]);
    InstalledContents(g, d, lh, |lh|);
    HeadRoundTrip(d[g.start], []);
    assert lh[..|lh|] == lh;
    forall b | g.Home(b) ensures Recover(g, d)[b] == c[b] {
      if b in lh {
        var i :| 0 <= i < |lh| && lh[i] == b;
      }
    }
  }

  /** What a disk stands for is determined by the disk. */
  lemma RecoversToUnique(g: Geometry, d: Disk, c: Disk, c': Disk)
    requires g.Valid() && RecoversTo(g, d, c) && RecoversTo(g, d, c')
    ensures forall b :: g.Home(b) ==> c[b] == c'[b]
  {
    RecoverCorrect(g, d, c);
    RecoverCorrect(g, d, c');
  }

  /** A write to a slot of an empty log changes nothing that recovery sees. */
  lemma SlotWriteHarmless(g: Geometry, d: Disk, c: Disk, tail: nat, data: Block)
    requires g.Valid() && RecoversTo(g, d, c) && HeadOf(d[g.start]) == [] && tail < g.Capacity()
    ensures RecoversTo(g, d[g.Slot(tail) := data], c)
  {
  }

  /** Installing a listed block changes nothing that recovery sees: the log still holds its contents. */
  lemma InstallHarmless(g: Geometry, d: Disk, c: Disk, i: nat)
    requires g.Valid() && RecoversTo(g, d, c) && i < |HeadOf(d[g.start])|
    ensures RecoversTo(g, d[HeadOf(d[g.start])[i] := d[g.Slot(i)]], c)
  {
    var lh := HeadOf(d[g.start]);
    var d' := d[lh[i] := d[g.Slot(i)]];
    assert d'[g.start] == d[g.start];
    assert forall j :: 0 <= j < |lh| ==> !g.Home(g.Slot(j));
  }

  /** Emptying the log once every listed block is home changes nothing that recovery sees. */
  lemma ClearHarmless(g: Geometry, d: Disk, c: Disk)
    requires g.Valid() && |d| == |c| == g.nblocks
    requires forall b :: g.Home(b) ==> d[b] == c[b]
    ensures RecoversTo(g, d[g.start := PutHead(d[g.start], [])], c)
  {
    HeadRoundTrip(d[g.start], []);
  }

  /** The commit point: one header write moves the disk from standing for the old contents to the new. */
  lemma HeadWriteCommits(g: Geometry, d: Disk, c: Disk, lh: seq<nat>)
    requires g.Valid() && |d| == |c| == g.nblocks && ValidHead(g, lh)
    requires forall i :: 0 <= i < |lh| ==> d[g.Slot(i)] == c[lh[i]]
    requires forall b :: g.Home(b) && b !in lh ==> d[b] == c[b]
    ensures RecoversTo(g, d[g.start := PutHead(d[g.start], lh)], c)
  {
    HeadRoundTrip(d[g.start], lh);
  }
}

/**
 The code of the log: the loops of write_log(), install_trans() and the header, over
 the buffer cache, with every state that the disk passes through on record.
 */
module LogCode {
  import opened Prelude
  import opened LogFormat
  import opened LogAdmission
  import opened BufferCache

  type Bufs = map<nat, Buf>

  /** The blocks of `pins` are cached, loaded and referenced; every other cached block agrees with the disk. */
  ghost predicate Pinned(disk: Disk, bufs: Bufs, pins: set<nat>)
  {
    && (forall x :: x in bufs ==> x < |disk|)
    && (forall x :: x in pins ==> x in bufs && bufs[x].slot.valid && bufs[x].slot.refcnt > 0)
    && (forall x :: x in bufs && x !in pins && bufs[x].slot.valid ==> bufs[x].slot.data == disk[x])
  }

  ghost predicate Free(bufs: Bufs, x: nat)
  {
    x in bufs ==> bufs[x].slot.holder == None
  }

  ghost function View(disk: Disk, bufs: Bufs, x: nat): Block
    requires x < |disk|
  {
    if x in bufs && bufs[x].slot.valid then bufs[x].slot.data else disk[x]
  }

  /** bread() disturbs no pin, no lock and no contents. */
  lemma ReadKeeps(disk: Disk, bufs: Bufs, pins: set<nat>, gone: set<nat>, b: nat, got: Buf)
    requires Pinned(disk, bufs, pins) && b < |disk| && got.slot.valid && got.slot.data == View(disk, bufs, b)
    requires got.slot.refcnt > 0 && forall x :: x in gone ==> x in bufs && bufs[x].slot.refcnt == 0
    ensures var bufs' := (bufs - gone)[b := got];
            && Pinned(disk, bufs', pins)
            && (forall x: nat :: x < |disk| ==> View(disk, bufs', x) == View(disk, bufs, x))
            && (forall x :: x != b && Free(bufs, x) ==> Free(bufs', x))
  {
  }

  lemma MovedBufs(bufs: Bufs, src: nat, dst: nat, mid: Buf, from: Buf, to: Buf)
    requires src != dst
    ensures bufs[dst := mid][src := from][dst := to] == bufs[src := from][dst := to]
  {
  }

  /** The cache after a copy: dst shows what src shows, is on disk, and has lost its pin. */
  lemma MoveKeeps(disk: Disk, bufs: Bufs, pins: set<nat>, src: nat, dst: nat, from: Buf, to: Buf)
    requires Pinned(disk, bufs, pins) && src in bufs && dst in bufs && src != dst && bufs[src].slot.valid
    requires from.slot.valid && from.slot.holder == None && from.slot.data == bufs[src].slot.data
    requires src in pins ==> from.slot.refcnt > 0
    requires to.slot.valid && to.slot.holder == None && to.slot.data == bufs[src].slot.data
    ensures var bufs', disk' := bufs[src := from][dst := to], disk[dst := bufs[src].slot.data];
            && Pinned(disk', bufs', pins - {dst})
            && (forall x: nat :: x < |disk| ==> View(disk', bufs', x) == View(disk, bufs, if x == dst then src else x))
            && (forall x :: x == src || x == dst || Free(bufs, x) ==> Free(bufs', x))
  {
  }

  /** The home blocks, as the cache shows them, are v. */
  ghost predicate Shows(g: Geometry, disk: Disk, bufs: Bufs, v: Disk)
  {
    |v| == |disk| && forall x: nat :: g.Home(x) && x < |disk| ==> View(disk, bufs, x) == v[x]
  }

  /** The first `tail` slots hold the contents v of the logged blocks. */
  ghost predicate Logged(g: Geometry, disk: Disk, lh: seq<nat>, v: Disk, tail: nat)
    requires g.Valid() && ValidHead(g, lh) && |disk| == |v| == g.nblocks
  {
    forall i :: 0 <= i < tail && i < |lh| ==> disk[g.Slot(i)] == v[lh[i]]
  }

  /** The first `tail` logged blocks are home. */
  ghost predicate HomeUpTo(g: Geometry, disk: Disk, lh: seq<nat>, c: Disk, tail: nat)
    requires g.Valid() && ValidHead(g, lh) && |disk| == |c| == g.nblocks
  {
    forall i :: 0 <= i < tail && i < |lh| ==> disk[lh[i]] == c[lh[i]]
  }

  /** The pins are those of the logged blocks that install_trans() has not come to; recovery has none. */
  ghost predicate Rest(lh: seq<nat>, tail: nat, recovering: bool, pins: set<nat>)
  {
    && (forall x :: x in pins ==> !recovering && x in lh)
    && (forall i :: 0 <= i < |lh| ==> (lh[i] in pins <==> !recovering && tail <= i))
  }

  /** What a round of write_log() does to the disk. */
  lemma LogStep(g: Geometry, disk: Disk, c: Disk, lh: seq<nat>, v: Disk, tail: nat)
    requires g.Valid() && RecoversTo(g, disk, c) && HeadOf(disk[g.start]) == [] && ValidHead(g, lh) && tail < |lh|
    requires |v| == g.nblocks && Logged(g, disk, lh, v, tail)
    ensures g.Home(lh[tail]) && !g.Home(g.Slot(tail)) && g.Slot(tail) < g.nblocks && g.Slot(tail) != g.start
    ensures var disk' := disk[g.Slot(tail) := v[lh[tail]]];
            RecoversTo(g, disk', c) && Logged(g, disk', lh, v, tail + 1) && HeadOf(disk'[g.start]) == []
  {
    SlotWriteHarmless(g, disk, c, tail, v[lh[tail]]);
  }

  /** The blocks that the log will touch are nobody's at the moment. */
  ghost predicate LogFree(g: Geometry, bufs: Bufs, lh: seq<nat>)
  {
    && (forall i :: 0 <= i < |lh| ==> Free(bufs, lh[i]))
    && (forall x :: g.start <= x < g.start + g.size ==> Free(bufs, x))
  }

  /** The disk and the cache while install_trans() has done `tail` rounds. */
  ghost predicate InstallOk(g: Geometry, disk: Disk, bufs: Bufs, lh: seq<nat>, tail: nat, recovering: bool,
    pins: set<nat>, c: Disk)
    requires g.Valid()
  {
    && tail <= |lh| && LogFree(g, bufs, lh) && Pinned(disk, bufs, pins) && Rest(lh, tail, recovering, pins)
    && RecoversTo(g, disk, c) && HeadOf(disk[g.start]) == lh && HomeUpTo(g, disk, lh, c, tail)
  }

  /** What a round of install_trans() does to the disk. */
  lemma InstallStep(g: Geometry, disk: Disk, bufs: Bufs, lh: seq<nat>, tail: nat, recovering: bool, pins: set<nat>,
    c: Disk)
    requires g.Valid() && tail < |lh| && InstallOk(g, disk, bufs, lh, tail, recovering, pins, c)
    ensures g.Home(lh[tail]) && !g.Home(g.Slot(tail)) && g.Slot(tail) < g.nblocks && lh[tail] != g.start
    ensures (lh[tail] in pins <==> !recovering) && Free(bufs, lh[tail]) && Free(bufs, g.Slot(tail))
    ensures View(disk, bufs, g.Slot(tail)) == c[lh[tail]]
    ensures var disk' := disk[lh[tail] := c[lh[tail]]];
            RecoversTo(g, disk', c) && HomeUpTo(g, disk', lh, c, tail + 1) && disk'[g.start] == disk[g.start]
  {
    SlotShown(g, disk, bufs, lh, tail, pins, c);
    InstallHarmless(g, disk, c, tail);
  }

  /** A slot is never pinned, so the cache shows what is on disk. */
  lemma SlotShown(g: Geometry, disk: Disk, bufs: Bufs, lh: seq<nat>, tail: nat, pins: set<nat>, c: Disk)
    requires g.Valid() && tail < |lh| && Pinned(disk, bufs, pins) && (forall x :: x in pins ==> x in lh)
    requires RecoversTo(g, disk, c) && HeadOf(disk[g.start]) == lh
    ensures !g.Home(g.Slot(tail)) && g.Slot(tail) < g.nblocks && View(disk, bufs, g.Slot(tail)) == c[lh[tail]]
  {
    assert !g.Home(g.Slot(tail));
    assert g.Slot(tail) !in lh;
  }

  lemma InstallAdvance(g: Geometry, disk: Disk, bufs: Bufs, lh: seq<nat>, tail: nat, recovering: bool, pins: set<nat>,
    c: Disk, bufs': Bufs)
    requires g.Valid() && tail < |lh| && InstallOk(g, disk, bufs, lh, tail, recovering, pins, c)
    requires Pinned(disk[lh[tail] := c[lh[tail]]], bufs', pins - {lh[tail]})
    requires forall x :: Free(bufs, x) ==> Free(bufs', x)
    ensures InstallOk(g, disk[lh[tail] := c[lh[tail]]], bufs', lh, tail + 1, recovering, pins - {lh[tail]}, c)
  {
    InstallStep(g, disk, bufs, lh, tail, recovering, pins, c);
  }

  lemma RestDone(lh: seq<nat>, recovering: bool, pins: set<nat>)
    requires Rest(lh, |lh|, recovering, pins)
    ensures pins == {}
  {
    assert forall x :: x in pins ==> x in lh;
  }

  lemma AllInstalled(g: Geometry, disk: Disk, c: Disk, lh: seq<nat>)
    requires g.Valid() && RecoversTo(g, disk, c) && HeadOf(disk[g.start]) == lh
    requires HomeUpTo(g, disk, lh, c, |lh|)
    ensures forall x: nat :: g.Home(x) ==> disk[x] == c[x]
  {
    forall x: nat | g.Home(x) ensures disk[x] == c[x] {
      if x in lh {
        var i :| 0 <= i < |lh| && lh[i] == x;
      }
    }
  }

  /** Writing through a block that is not pinned. */
  lemma HeadKeeps(disk: Disk, bufs: Bufs, pins: set<nat>, b: nat, to: Buf)
    requires Pinned(disk, bufs, pins) && b in bufs && b !in pins && to.slot.valid && to.slot.holder == None
    ensures var bufs', disk' := bufs[b := to], disk[b := to.slot.data];
            && Pinned(disk', bufs', pins)
            && (forall x: nat :: x < |disk| && x != b ==> View(disk', bufs', x) == View(disk, bufs, x))
            && (forall x :: x == b || Free(bufs, x) ==> Free(bufs', x))
  {
  }

  /** Once every logged block is in its slot, the header write moves the disk from c to v. */
  lemma CommitStep(g: Geometry, disk: Disk, bufs: Bufs, lh: seq<nat>, pins: set<nat>, v: Disk)
    requires g.Valid() && |disk| == |v| == g.nblocks && ValidHead(g, lh) && Rest(lh, 0, false, pins)
    requires Pinned(disk, bufs, pins) && Shows(g, disk, bufs, v) && Logged(g, disk, lh, v, |lh|)
    ensures RecoversTo(g, disk[g.start := PutHead(disk[g.start], lh)], v)
    ensures HeadOf(PutHead(disk[g.start], lh)) == lh
  {
    assert forall x: nat :: g.Home(x) && x !in lh ==> View(disk, bufs, x) == disk[x];
    HeadWriteCommits(g, disk, v, lh);
    HeadRoundTrip(disk[g.start], lh);
  }

  lemma LetGo(disk: Disk, bufs: Bufs, pins: set<nat>, b: nat, to: Buf)
    requires Pinned(disk, bufs, pins) && b in bufs && b !in pins && to.slot.holder == None
    requires to.slot.valid == bufs[b].slot.valid && to.slot.data == bufs[b].slot.data
    ensures Pinned(disk, bufs[b := to], pins)
    ensures var bufs' := bufs[b := to]; Free(bufs', b) && forall x: nat :: Free(bufs, x) ==> Free(bufs', x)
  {
  }

  lemma HeadAppend(g: Geometry, lh: seq<nat>, b: nat)
    requires g.Valid() && ValidHead(g, lh) && |lh| < g.Capacity() && g.Home(b) && b !in lh
    ensures ValidHead(g, lh + [b])
  {
  }

  class Log {
    const g: Geometry
    const cache: BCache
    const block: array<nat>  // log.lh.block
    var n: nat               // log.lh.n
    var outstanding: nat
    var committing: bool
    ghost var wrote: map<OpId, set<nat>>

    /** The state of the log structure before initlog() recovers. */
    constructor (geometry: Geometry, c: BCache)
      requires geometry.Valid() && c.Valid() && |c.disk| == geometry.nblocks
      ensures Valid() && g == geometry && cache == c && fresh(block) && Adm() == EMPTY
    {
      g := geometry;
      cache := c;
      block := new nat[LOGSIZE](_ => 0);
      n, outstanding, committing := 0, 0, false;
      wrote := map[];
    }

    ghost function Lh(): seq<nat>
      requires n <= block.Length
      reads this, block
    {
      block[..n]
    }

    ghost function Adm(): Admission
      requires n <= block.Length
      reads this, block
    {
      Admission(Lh(), wrote, committing)
    }

    ghost predicate Valid()
      reads this, block, cache
    {
      && g.Valid() && cache.Valid() && |cache.disk| == g.nblocks
      && block.Length == LOGSIZE && n <= LOGSIZE && outstanding == |wrote|
      && ValidHead(g, Lh())
    }

    /** The two bread()s of a copy, in either order. */
    method ReadTwo(pid: nat, a: nat, b: nat, ghost pins: set<nat>) returns (i: Option<nat>, j: Option<nat>)
      requires cache.Valid() && a < |cache.disk| && b < |cache.disk| && a != b
      requires Free(cache.bufs, a) && Free(cache.bufs, b) && Pinned(cache.disk, cache.bufs, pins)
      modifies cache`buf, cache`bufs
      ensures cache.Valid()
      ensures Pinned(cache.disk, cache.bufs, pins)
      ensures forall x: nat :: x < |cache.disk| ==>
        View(cache.disk, cache.bufs, x) == old(View(cache.disk, cache.bufs, x))
      ensures forall x :: x != a && x != b && old(Free(cache.bufs, x)) ==> Free(cache.bufs, x)
      ensures i.Some? && j.Some? ==>
                && a in cache.bufs && cache.bufs[a].at == i.value && cache.bufs[a].slot.holder == Some(pid)
                && cache.bufs[a].slot.valid
                && b in cache.bufs && cache.bufs[b].at == j.value && cache.bufs[b].slot.holder == Some(pid)
                && cache.bufs[b].slot.valid
      ensures i.Some? && j.Some? ==>
                && (a in pins ==> cache.bufs[a].slot.refcnt > 1) && (b in pins ==> cache.bufs[b].slot.refcnt > 1)
    {
      ghost var gone;
      ghost var before := cache.bufs;
      j := None;
      i, gone := cache.Bread(pid, a);
      if i.Some? {
        ReadKeeps(cache.disk, before, pins, gone, a, cache.bufs[a]);
        before := cache.bufs;
        j, gone := cache.Bread(pid, b);
        if j.Some? {
          ReadKeeps(cache.disk, before, pins, gone, b, cache.bufs[b]);
        }
      }
    }

    /**
     One round of write_log() or install_trans(): copy block src to block dst through the cache, write
     dst, and unpin it if it was pinned.  False stands for a kernel panic.
     */
    method Copy(pid: nat, src: nat, dst: nat, dstFirst: bool, unpin: bool, ghost pins: set<nat>) returns (ok: bool)
      requires cache.Valid() && src < |cache.disk| && dst < |cache.disk| && src != dst && (unpin <==> dst in pins)
      requires Free(cache.bufs, src) && Free(cache.bufs, dst) && Pinned(cache.disk, cache.bufs, pins)
      modifies cache
      ensures cache.Valid()
      ensures !ok ==> cache.disk == old(cache.disk) && cache.trace == old(cache.trace)
      ensures ok ==> cache.disk == old(cache.disk)[dst := old(View(cache.disk, cache.bufs, src))]
      ensures ok ==> cache.trace == old(cache.trace) + [cache.disk]
      ensures ok ==> forall x: nat :: x < |cache.disk| ==>
                View(cache.disk, cache.bufs, x) == old(View(cache.disk, cache.bufs, if x == dst then src else x))
      ensures ok ==> Pinned(cache.disk, cache.bufs, pins - {dst})
      ensures ok ==> forall x :: old(Free(cache.bufs, x)) ==> Free(cache.bufs, x)
    {
      ok := false;
      var i, j := None, None;
      if dstFirst {
        j, i := ReadTwo(pid, dst, src, pins);
      } else {
        i, j := ReadTwo(pid, src, dst, pins);
      }
      if i.Some? && j.Some? {
        MoveAndRelease(pid, i.value, src, j.value, dst, unpin, pins);
        ok := true;
      }
    }

    method MoveAndRelease(pid: nat, i: nat, src: nat, j: nat, dst: nat, unpin: bool, ghost pins: set<nat>)
      requires cache.Valid() && src < |cache.disk| && dst < |cache.disk| && src != dst && (unpin <==> dst in pins)
      requires Pinned(cache.disk, cache.bufs, pins)
      requires src in cache.bufs && cache.bufs[src].at == i && cache.bufs[src].slot.holder == Some(pid) &&
        cache.bufs[src].slot.valid
      requires dst in cache.bufs && cache.bufs[dst].at == j && cache.bufs[dst].slot.holder == Some(pid) &&
        cache.bufs[dst].slot.valid
      requires (src in pins ==> cache.bufs[src].slot.refcnt > 1) && (dst in pins ==> cache.bufs[dst].slot.refcnt > 1)
      modifies cache
      ensures cache.Valid() && Pinned(cache.disk, cache.bufs, pins - {dst})
      ensures cache.disk == old(cache.disk)[dst := old(cache.bufs)[src].slot.data]
      ensures cache.trace == old(cache.trace) + [cache.disk]
      ensures forall x: nat :: x < |cache.disk| ==>
                View(cache.disk, cache.bufs, x) == old(View(cache.disk, cache.bufs, if x == dst then src else x))
      ensures forall x :: x == src || x == dst || old(Free(cache.bufs, x)) ==> Free(cache.bufs, x)
    {
      ghost var disk, bufs := cache.disk, cache.bufs;
      WriteOut(pid, i, src, j, dst, unpin);
      ghost var mid := cache.bufs[dst];
      ReleaseTwo(pid, i, src, j, dst);
      MovedBufs(bufs, src, dst, mid, cache.bufs[src], cache.bufs[dst]);
      MoveKeeps(disk, bufs, pins, src, dst, cache.bufs[src], cache.bufs[dst]);
    }

    method WriteOut(pid: nat, i: nat, ghost src: nat, j: nat, ghost dst: nat, unpin: bool)
      requires cache.Valid() && src in cache.bufs && cache.bufs[src].at == i
      requires dst in cache.bufs && cache.bufs[dst].at == j && cache.bufs[dst].slot.holder == Some(pid)
      requires unpin ==> cache.bufs[dst].slot.refcnt > 1
      modifies cache
      ensures cache.Valid()
      ensures var slot := old(cache.bufs)[dst].slot;
              cache.bufs == old(cache.bufs)[dst := Buf(j, slot.(data := old(cache.bufs)[src].slot.data,
                                                                refcnt := if unpin then slot.refcnt - 1
                                                                  else slot.refcnt))]
      ensures cache.disk == old(cache.disk)[dst := old(cache.bufs)[src].slot.data]
      ensures cache.trace == old(cache.trace) + [cache.disk]
    {
      ghost var bufs := cache.bufs;
      cache.Store(j, cache.buf[i].data, dst);
      ghost var stored := cache.bufs[dst];
      var done := cache.Bwrite(pid, j, dst);
      if unpin {
        cache.Bunpin(j, dst);
        Overwrite(bufs, dst, stored, cache.bufs[dst]);
      }
    }

    method ReleaseTwo(pid: nat, i: nat, ghost src: nat, j: nat, ghost dst: nat)
      requires cache.Valid() && src != dst
      requires src in cache.bufs && cache.bufs[src].at == i && cache.bufs[src].slot.holder == Some(pid)
      requires dst in cache.bufs && cache.bufs[dst].at == j && cache.bufs[dst].slot.holder == Some(pid)
      requires cache.bufs[src].slot.refcnt == 1 && cache.bufs[src].slot.valid ==>
        cache.bufs[src].slot.data == cache.disk[src]
      requires cache.bufs[dst].slot.refcnt == 1 && cache.bufs[dst].slot.valid ==>
        cache.bufs[dst].slot.data == cache.disk[dst]
      modifies cache`buf, cache`next, cache`prev, cache`order, cache`bufs
      ensures cache.Valid()
      ensures old(cache.bufs)[src].slot.refcnt > 0 && old(cache.bufs)[dst].slot.refcnt > 0
      ensures var from, to := old(cache.bufs)[src].slot, old(cache.bufs)[dst].slot;
              cache.bufs == old(cache.bufs)[src := Buf(i, from.(refcnt := from.refcnt - 1, holder := None))]
                                           [dst := Buf(j, to.(refcnt := to.refcnt - 1, holder := None))]
    {
      ReleaseOne(pid, i, src);
      ReleaseOne(pid, j, dst);
    }

    method ReleaseOne(pid: nat, i: nat, ghost b: nat)
      requires cache.Valid() && b in cache.bufs && cache.bufs[b].at == i && cache.bufs[b].slot.holder == Some(pid)
      requires cache.bufs[b].slot.refcnt == 1 && cache.bufs[b].slot.valid ==> cache.bufs[b].slot.data == cache.disk[b]
      modifies cache`buf, cache`next, cache`prev, cache`order, cache`bufs
      ensures cache.Valid() && old(cache.bufs)[b].slot.refcnt > 0
      ensures var slot := old(cache.bufs)[b].slot;
              cache.bufs == old(cache.bufs)[b := Buf(i, slot.(refcnt := slot.refcnt - 1, holder := None))]
    {
      var done := cache.Brelse(pid, i, b);
    }

    // ---- the loops ----

    /** Every state of the disk since record `from` stands for the home contents c. */
    ghost predicate AllRecoverTo(from: nat, c: Disk)
      requires g.Valid()
      reads cache
    {
      forall k :: from <= k < |cache.trace| ==> RecoversTo(g, cache.trace[k], c)
    }

    /** write_log() after `tail` rounds. */
    ghost predicate Logging(tail: nat, pins: set<nat>, c: Disk, v: Disk, from: nat)
      reads this, block, cache
    {
      && Valid() && tail <= n && LogFree(g, cache.bufs, Lh()) && Pinned(cache.disk, cache.bufs, pins)
      && (forall x :: x in pins ==> g.Home(x))
      && RecoversTo(g, cache.disk, c) && HeadOf(cache.disk[g.start]) == [] && Shows(g, cache.disk, cache.bufs, v)
      && Logged(g, cache.disk, Lh(), v, tail)
      && from <= |cache.trace| && AllRecoverTo(from, c)
    }

    method LogRound(pid: nat, tail: nat, ghost pins: set<nat>, ghost c: Disk, ghost v: Disk, ghost from: nat)
      returns (ok: bool)
      requires tail < n && Logging(tail, pins, c, v, from)
      modifies cache
      ensures Valid() && old(cache.trace) <= cache.trace && AllRecoverTo(from, c)
      ensures ok ==> Logging(tail + 1, pins, c, v, from)
    {
      LogStep(g, cache.disk, c, Lh(), v, tail);
      assert pins - {g.Slot(tail)} == pins;
      ok := Copy(pid, block[tail], g.Slot(tail), true, false, pins);
    }

    /** write_log(): copy every logged block from the cache to its slot. */
    method WriteLog(pid: nat, ghost pins: set<nat>, ghost c: Disk, ghost v: Disk, ghost from: nat) returns (ok: bool)
      requires Logging(0, pins, c, v, from)
      modifies cache
      ensures Valid() && old(cache.trace) <= cache.trace && AllRecoverTo(from, c)
      ensures ok ==> Logging(n, pins, c, v, from)
    {
      var tail := 0;
      while tail < n
        invariant 0 <= tail <= n && Logging(tail, pins, c, v, from) && old(cache.trace) <= cache.trace
      {
        ok := LogRound(pid, tail, pins, c, v, from);
        if !ok {
          return;
        }
        tail := tail + 1;
      }
      ok := true;
    }

    /** install_trans() after `tail` rounds. */
    ghost predicate Installing(tail: nat, recovering: bool, pins: set<nat>, c: Disk, from: nat)
      reads this, block, cache
    {
      && Valid() && tail <= n && InstallOk(g, cache.disk, cache.bufs, Lh(), tail, recovering, pins, c)
      && from <= |cache.trace| && AllRecoverTo(from, c)
    }

    method InstallRound(pid: nat, tail: nat, recovering: bool, ghost pins: set<nat>, ghost c: Disk,
      ghost from: nat) returns (ok: bool)
      requires tail < n && Installing(tail, recovering, pins, c, from)
      modifies cache
      ensures Valid() && old(cache.trace) <= cache.trace && AllRecoverTo(from, c)
      ensures ok ==> Installing(tail + 1, recovering, pins - {block[tail]}, c, from)
    {
      ghost var disk, bufs := cache.disk, cache.bufs;
      InstallStep(g, disk, bufs, Lh(), tail, recovering, pins, c);
      ok := Copy(pid, g.Slot(tail), block[tail], false, !recovering, pins);
      if ok {
        InstallAdvance(g, disk, bufs, Lh(), tail, recovering, pins, c, cache.bufs);
      }
    }

    /** install_trans(): copy every logged block from its slot to its home. */
    method InstallTrans(pid: nat, recovering: bool, ghost all: set<nat>, ghost c: Disk, ghost from: nat)
      returns (ok: bool)
      requires Installing(0, recovering, all, c, from)
      modifies cache
      ensures Valid() && old(cache.trace) <= cache.trace && AllRecoverTo(from, c)
      ensures ok ==> InstalledAll(c, from)
    {
      var tail := 0;
      ghost var pins := all;
      while tail < n
        invariant 0 <= tail <= n && old(cache.trace) <= cache.trace && Installing(tail, recovering, pins, c, from)
      {
        ok := InstallRound(pid, tail, recovering, pins, c, from);
        if !ok {
          return;
        }
        pins := pins - {block[tail]};
        tail := tail + 1;
      }
      ok := true;
      InstallDone(recovering, pins, c, from);
    }

    ghost predicate InstalledAll(c: Disk, from: nat)
      reads this, block, cache
    {
      && Valid() && Pinned(cache.disk, cache.bufs, {}) && Free(cache.bufs, g.start) && |c| == g.nblocks
      && (forall x: nat :: g.Home(x) ==> cache.disk[x] == c[x])
      && from <= |cache.trace| && AllRecoverTo(from, c)
    }

    lemma InstallDone(recovering: bool, pins: set<nat>, c: Disk, from: nat)
      requires Installing(n, recovering, pins, c, from)
      ensures InstalledAll(c, from)
    {
      RestDone(Lh(), recovering, pins);
      AllInstalled(g, cache.disk, c, Lh());
    }

    // ---- the header ----

    /** The block that write_head() stores: the count, the list, and the old words after it. */
    method FormatHead(hb: Block) returns (r: Block)
      requires n <= block.Length == LOGSIZE
      ensures r == PutHead(hb, Lh())
    {
      r := hb[0 := n];
      var i := 0;
      while i < n
        invariant 0 <= i <= n && |r| == BSIZE_WORDS && r[0] == n
        invariant forall j :: 0 <= j < i ==> r[1 + j] == block[j]
        invariant forall j :: i < j < BSIZE_WORDS ==> r[j] == hb[j]
      {
        r := r[1 + i := block[i]];
        i := i + 1;
      }
    }

    /** write_head(): one header write, from whatever the header block held before. */
    method WriteHead(pid: nat, ghost pins: set<nat>) returns (ok: bool)
      requires Valid() && Free(cache.bufs, g.start) && Pinned(cache.disk, cache.bufs, pins) && g.start !in pins
      modifies cache
      ensures Valid()
      ensures !ok ==> cache.disk == old(cache.disk) && cache.trace == old(cache.trace)
      ensures ok ==> cache.disk == old(cache.disk)[g.start := PutHead(old(cache.disk)[g.start], Lh())]
      ensures ok ==> cache.trace == old(cache.trace) + [cache.disk]
      ensures ok ==> Pinned(cache.disk, cache.bufs, pins)
      ensures ok ==> forall x :: old(Free(cache.bufs, x)) ==> Free(cache.bufs, x)
      ensures ok ==> forall x: nat :: x < |cache.disk| && x != g.start ==>
                View(cache.disk, cache.bufs, x) == old(View(cache.disk, cache.bufs, x))
    {
      ghost var disk, bufs := cache.disk, cache.bufs;
      ok := false;
      var i, gone := cache.Bread(pid, g.start);
      if i.Some? {
        ReadKeeps(disk, bufs, pins, gone, g.start, cache.bufs[g.start]);
        ghost var read := cache.bufs;
        var hb := FormatHead(cache.buf[i.value].data);
        PutAndRelease(pid, i.value, g.start, hb);
        HeadKeeps(disk, read, pins, g.start, cache.bufs[g.start]);
        ok := true;
      }
    }

    /** Store into a held buffer, write it, and release it. */
    method PutAndRelease(pid: nat, i: nat, ghost b: nat, data: Block)
      requires cache.Valid() && b in cache.bufs && cache.bufs[b].at == i
      requires cache.bufs[b].slot.holder == Some(pid) && cache.bufs[b].slot.valid && cache.bufs[b].slot.refcnt > 0
      modifies cache
      ensures cache.Valid() && cache.disk == old(cache.disk)[b := data] &&
        cache.trace == old(cache.trace) + [cache.disk]
      ensures var slot := old(cache.bufs)[b].slot;
              cache.bufs == old(cache.bufs)[b := Buf(i, slot.(data := data, refcnt := slot.refcnt - 1, holder := None))]
    {
      ghost var bufs := cache.bufs;
      cache.Store(i, data, b);
      ghost var stored := cache.bufs[b];
      var done := cache.Bwrite(pid, i, b);
      ReleaseOne(pid, i, b);
      Overwrite(bufs, b, stored, cache.bufs[b]);
    }

    /** read_head(): load the block list from the header block. */
    method ReadHead(pid: nat) returns (ok: bool)
      requires Valid() && Free(cache.bufs, g.start) && Pinned(cache.disk, cache.bufs, {})
      requires cache.disk[g.start][0] <= LOGSIZE && ValidHead(g, HeadOf(cache.disk[g.start]))
      modifies this`n, block, cache`buf, cache`next, cache`prev, cache`order, cache`bufs
      ensures Valid()
      ensures ok ==> Lh() == HeadOf(cache.disk[g.start]) && Pinned(cache.disk, cache.bufs, {})
      ensures ok ==> forall x :: old(Free(cache.bufs, x)) ==> Free(cache.bufs, x)
    {
      var hb := PeekBlock(pid, g.start);
      ok := hb.Some?;
      if ok {
        n := hb.value[0];
        LoadList(hb.value);
      }
    }

    /** Read a block that is not pinned, and release it. */
    method PeekBlock(pid: nat, b: nat) returns (data: Option<Block>)
      requires cache.Valid() && b < |cache.disk| && Free(cache.bufs, b) && Pinned(cache.disk, cache.bufs, {})
      modifies cache`buf, cache`next, cache`prev, cache`order, cache`bufs
      ensures cache.Valid() && (data.Some? ==> data.value == cache.disk[b] && Pinned(cache.disk, cache.bufs, {}))
      ensures data.Some? ==> forall x :: old(Free(cache.bufs, x)) ==> Free(cache.bufs, x)
    {
      ghost var bufs := cache.bufs;
      data := None;
      var i, gone := cache.Bread(pid, b);
      if i.Some? {
        ReadKeeps(cache.disk, bufs, {}, gone, b, cache.bufs[b]);
        data := Some(cache.buf[i.value].data);
        ghost var read := cache.bufs;
        ReleaseOne(pid, i.value, b);
        LetGo(cache.disk, read, {}, b, cache.bufs[b]);
      }
    }

    method LoadList(hb: Block)
      requires n == hb[0] <= LOGSIZE == block.Length
      modifies block
      ensures block[..n] == HeadOf(hb)
    {
      var i := 0;
      while i < n
        invariant 0 <= i <= n && forall j :: 0 <= j < i ==> block[j] == hb[1 + j]
      {
        block[i] := hb[1 + i];
        i := i + 1;
      }
    }

    // ---- commit and recovery ----

    /** write_head() as the commit point: from here on the disk stands for v. */
    method CommitHead(pid: nat, ghost pins: set<nat>, ghost c: Disk, ghost v: Disk, ghost from: nat) returns (ok: bool)
      requires Logging(n, pins, c, v, from) && Rest(Lh(), 0, false, pins)
      modifies cache
      ensures Valid() && old(cache.trace) <= cache.trace
      ensures !ok ==> cache.trace == old(cache.trace)
      ensures ok ==> Installing(0, false, pins, v, |old(cache.trace)|)
    {
      CommitStep(g, cache.disk, cache.bufs, Lh(), pins, v);
      assert g.start !in pins;
      ok := WriteHead(pid, pins);
    }

    /** lh.n = 0 and write_head(): empty the log. */
    method EraseHead(pid: nat, ghost c: Disk, ghost from: nat) returns (ok: bool)
      requires InstalledAll(c, from)
      modifies this`n, cache
      ensures Valid() && old(cache.trace) <= cache.trace && AllRecoverTo(from, c) && n == 0
      ensures ok ==> Clear(c)
    {
      n := 0;
      ClearHarmless(g, cache.disk, c);
      HeadRoundTrip(cache.disk[g.start], []);
      ok := WriteHead(pid, {});
    }

    /** The log is empty, on disk and in memory, and the home blocks are c. */
    ghost predicate Clear(c: Disk)
      reads this, block, cache
    {
      && Valid() && n == 0 && Pinned(cache.disk, cache.bufs, {})
      && RecoversTo(g, cache.disk, c) && HeadOf(cache.disk[g.start]) == []
      && (forall x: nat :: g.Home(x) ==> cache.disk[x] == c[x] && View(cache.disk, cache.bufs, x) == c[x])
    }

    /**
     commit().  The home contents on disk are c and the cache shows v.  Every state the disk passes
     through stands for c up to record `at` and for v from there on; if no panic cuts it short, the home
     blocks end up as v and the log empty.
     */
    method Commit(pid: nat, ghost pins: set<nat>, ghost c: Disk, ghost v: Disk) returns (ok: bool, ghost at: nat)
      requires Logging(0, pins, c, v, |cache.trace|) && Rest(Lh(), 0, false, pins)
      modifies this`n, cache
      ensures Valid() && old(cache.trace) <= cache.trace && |old(cache.trace)| <= at <= |cache.trace|
      ensures forall k :: |old(cache.trace)| <= k < at ==> RecoversTo(g, cache.trace[k], c)
      ensures forall k :: at <= k < |cache.trace| ==> RecoversTo(g, cache.trace[k], v)
      ensures ok ==> Clear(v)
    {
      ghost var from := |cache.trace|;
      ok, at := true, from;
      if n > 0 {
        ok := WriteLog(pid, pins, c, v, from);
        at := |cache.trace|;
        if ok {
          ok := CommitLogged(pid, pins, c, v, from);
        }
      } else {
        NothingToCommit(pins, c, v, from);
      }
    }

    /** commit() from the commit point on. */
    method CommitLogged(pid: nat, ghost pins: set<nat>, ghost c: Disk, ghost v: Disk, ghost from: nat)
      returns (ok: bool)
      requires Logging(n, pins, c, v, from) && Rest(Lh(), 0, false, pins)
      modifies this`n, cache
      ensures Valid() && old(cache.trace) <= cache.trace && AllRecoverTo(|old(cache.trace)|, v)
      ensures ok ==> Clear(v)
    {
      ghost var at := |cache.trace|;
      ok := CommitHead(pid, pins, c, v, from);
      if !ok { return; }
      ok := InstallTrans(pid, false, pins, v, at);
      if !ok { return; }
      ok := EraseHead(pid, v, at);
    }

    lemma NothingToCommit(pins: set<nat>, c: Disk, v: Disk, from: nat)
      requires n == 0 && Logging(0, pins, c, v, from) && Rest(Lh(), 0, false, pins)
      ensures Clear(v)
    {
      RestDone(Lh(), false, pins);
      assert forall x: nat :: g.Home(x) ==> View(cache.disk, cache.bufs, x) == cache.disk[x];
    }

    /** recover_from_log() after a crash: whatever happens on the way, the disk keeps standing for c. */
    method RecoverFromLog(pid: nat, ghost c: Disk) returns (ok: bool)
      requires Valid() && Pinned(cache.disk, cache.bufs, {}) && RecoversTo(g, cache.disk, c)
      requires forall x :: Free(cache.bufs, x)
      modifies this`n, block, cache
      ensures Valid() && old(cache.trace) <= cache.trace && AllRecoverTo(|old(cache.trace)|, c)
      ensures ok ==> Clear(c)
    {
      ghost var from := |cache.trace|;
      ok := ReadHead(pid);
      if !ok { return; }
      ok := InstallTrans(pid, true, {}, c, from);
      if !ok { return; }
      ok := EraseHead(pid, c, from);
    }

    // ---- operations ----

    /** One look of begin_op() at the log; false means that it sleeps and looks again. */
    method BeginOp(op: OpId) returns (admitted: bool)
      requires Valid() && op !in wrote
      modifies this`outstanding, this`wrote
      ensures Valid()
      ensures admitted ==> LogAdmission.BeginOp(old(Adm()), op) == Done(Adm())
      ensures !admitted ==> LogAdmission.BeginOp(old(Adm()), op) == Sleep && Adm() == old(Adm())
    {
      if committing {
        return false;
      } else if n + (outstanding + 1) * MAXOPBLOCKS > LOGSIZE {
        return false;
      } else {
        outstanding := outstanding + 1;
        assert wrote[op := {}].Keys == wrote.Keys + {op};
        wrote := wrote[op := {}];
        return true;
      }
    }

    /** end_op() up to the commit; the caller commits if told to.  It panics exactly if a commit is under way. */
    method EndOp(op: OpId) returns (panic: bool, doCommit: bool)
      requires Valid() && op in wrote
      modifies this`outstanding, this`committing, this`wrote
      ensures panic <==> LogAdmission.EndOp(old(Adm()), op).Panic?
      ensures !panic ==> Valid() && LogAdmission.EndOp(old(Adm()), op) == Done(Adm())
      ensures !panic ==> (doCommit <==> committing)
    {
      panic, doCommit := false, false;
      assert (wrote - {op}).Keys == wrote.Keys - {op};
      outstanding := outstanding - 1;
      if committing {
        return true, false;
      }
      wrote := wrote - {op};
      if outstanding == 0 {
        doCommit := true;
        committing := true;
      }
    }

    /**
     log_write() on the buffer i, which its caller holds: absorb the block if it is already logged, else
     log and pin it.  False is the panic, which comes first.
     */
    method LogWrite(op: OpId, i: nat, ghost b: nat) returns (ok: bool)
      requires Valid() && b in cache.bufs && cache.bufs[b].at == i && g.Home(b)
      modifies this`n, this`wrote, block, cache`buf, cache`bufs
      ensures Valid()
      ensures ok ==> LogAdmission.LogWrite(g, old(Adm()), op, b) == Done(Adm())
      ensures !ok ==>
        LogAdmission.LogWrite(g, old(Adm()), op, b) == Panic && Adm() == old(Adm()) && cache.bufs == old(cache.bufs)
      ensures ok && b in old(Lh()) ==> cache.bufs == old(cache.bufs)
      ensures ok && b !in old(Lh()) ==>
                cache.bufs == old(cache.bufs)[b := Buf(i,
                  old(cache.bufs)[b].slot.(refcnt := old(cache.bufs)[b].slot.refcnt + 1))]
    {
      if n >= LOGSIZE || n >= g.size - 1 {
        return false;
      }
      if outstanding < 1 {
        return false;
      }
      RecordBlock(i, b);
      Charge(op, b);
      return true;
    }

    ghost method Charge(op: OpId, b: nat)
      requires Valid()
      modifies this`wrote
      ensures Valid() && wrote == if op in old(wrote) then old(wrote)[op := old(wrote)[op] + {b}] else old(wrote)
    {
      if op in wrote {
        assert wrote[op := wrote[op] + {b}].Keys == wrote.Keys;
        wrote := wrote[op := wrote[op] + {b}];
      }
    }

    /** The list part of log_write(). */
    method RecordBlock(i: nat, ghost b: nat)
      requires Valid() && b in cache.bufs && cache.bufs[b].at == i && g.Home(b) && n < g.Capacity()
      modifies this`n, block, cache`buf, cache`bufs
      ensures Valid() && Lh() == if b in old(Lh()) then old(Lh()) else old(Lh()) + [b]
      ensures b in old(Lh()) ==> cache.bufs == old(cache.bufs)
      ensures b !in old(Lh()) ==>
                cache.bufs == old(cache.bufs)[b := Buf(i,
                  old(cache.bufs)[b].slot.(refcnt := old(cache.bufs)[b].slot.refcnt + 1))]
    {
      if b !in Lh() {
        HeadAppend(g, Lh(), b);
      }
      var j := Absorb(cache.buf[i].key.blockno);
      if j == n {
        cache.Bpin(i, b);
        n := n + 1;
      }
    }

    /** Find the block in the list, or put it after the end. */
    method Absorb(b: nat) returns (j: nat)
      requires n < block.Length
      modifies block
      ensures j <= n && (j < n <==> b in old(Lh()))
      ensures block[..n] == old(Lh()) && (j == n ==> block[..n + 1] == old(Lh()) + [b])
    {
      j := 0;
      while j < n
        invariant 0 <= j <= n && b !in block[..j]
      {
        if block[j] == b {
          break;
        }
        j := j + 1;
      }
      block[j] := b;
    }
  }
}

/**
 The buffer cache: a fixed set of buffers, each caching one disk block, on a doubly
 linked list from the most to the least recently released.
 */
module BufferCache {
  import opened Prelude
  import opened LogFormat

  const HEAD := NBUF  // the list head's place in the link tables

  datatype Key = Key(dev: nat, blockno: nat)

  // ---- the list ----

  function At(order: seq<nat>, i: int): nat {
    if 0 <= i < |order| then order[i] else HEAD
  }

  /** `next` and `prev` link HEAD and the buffers of `order` into a ring, in that order. */
  ghost predicate Linked(next: seq<nat>, prev: seq<nat>, order: seq<nat>)
  {
    && |next| == |prev| == NBUF + 1
    && (forall i :: 0 <= i < |order| ==> order[i] < NBUF)
    && (forall i, j :: 0 <= i < j < |order| ==> order[i] != order[j])
    && (forall i, j :: -1 <= i < |order| && j == i + 1 ==> next[At(order, i)] == At(order, j))
    && (forall i, j :: -1 <= i < |order| && j == i + 1 ==> prev[At(order, j)] == At(order, i))
  }

  function Without(order: seq<nat>, p: nat): seq<nat>
    requires p < |order|
  {
    order[..p] + order[p + 1..]
  }

  /** The list after brelse() has moved buffer i to its front. */
  function Refreshed(order: seq<nat>, i: nat): seq<nat> {
    [i] + Removed(order, i)
  }

  function Removed(order: seq<nat>, i: nat): seq<nat> {
    if order == [] then []
    else if order[0] == i then order[1..]
    else [order[0]] + Removed(order[1..], i)
  }

  lemma {:induction false} RemovedIs(order: seq<nat>, p: nat)
    requires p < |order| && forall q :: 0 <= q < p ==> order[q] != order[p]
    ensures Removed(order, order[p]) == Without(order, p)
  {
    if p > 0 {
      RemovedIs(order[1..], p - 1);
    }
  }

  /** Taking a buffer out of the ring. */
  lemma Unlinked(next: seq<nat>, prev: seq<nat>, order: seq<nat>, p: nat)
    requires Linked(next, prev, order) && p < |order|
    ensures next[order[p]] <= NBUF && prev[order[p]] <= NBUF
    ensures var b := order[p];
            Linked(next[prev[b] := next[b]], prev[next[b] := prev[b]], Without(order, p))
  {
    var b := order[p];
    assert At(order, p) == b;
    var pb, nb := At(order, p - 1), At(order, p + 1);
    assert prev[b] == pb && next[b] == nb;
    var order' := Without(order, p);
    var next', prev' := next[pb := nb], prev[nb := pb];
    forall i, j | -1 <= i < |order'| && j == i + 1 ensures next'[At(order', i)] == At(order', j) {
      if i < p - 1 {
        assert At(order', i) == At(order, i) && At(order', i + 1) == At(order, i + 1);
      } else if i == p - 1 {
        assert At(order', i) == pb && At(order', i + 1) == nb;
      } else {
        assert At(order', i) == At(order, i + 1) && At(order', i + 1) == At(order, i + 2);
      }
    }
    forall i, j | -1 <= i < |order'| && j == i + 1 ensures prev'[At(order', j)] == At(order', i) {
      if i < p - 1 {
        assert At(order', i) == At(order, i) && At(order', j) == At(order, j);
      } else if i == p - 1 {
        assert At(order', i) == pb && At(order', j) == nb;
      } else {
        assert At(order', i) == At(order, i + 1) && At(order', j) == At(order, i + 2);
      }
    }
  }

  /** Putting a buffer at the front of the ring. */
  lemma Pushed(next: seq<nat>, prev: seq<nat>, order: seq<nat>, b: nat)
    requires Linked(next, prev, order) && b < NBUF && b !in order
    ensures next[HEAD] <= NBUF
    ensures Linked(next[b := next[HEAD]][HEAD := b], prev[b := HEAD][next[HEAD] := b], [b] + order)
  {
    var order' := [b] + order;
    assert At(order, -1) == HEAD;
    var first := At(order, 0);
    assert next[HEAD] == first;
    var next', prev' := next[b := first][HEAD := b], prev[b := HEAD][first := b];
    forall i, j | -1 <= i < |order'| && j == i + 1 ensures next'[At(order', i)] == At(order', j) {
      if i >= 1 {
        assert At(order', i) == At(order, i - 1) && At(order', i + 1) == At(order, i);
      }
    }
    forall i, j | -1 <= i < |order'| && j == i + 1 ensures prev'[At(order', j)] == At(order', i) {
      if i >= 1 {
        assert At(order', i) == At(order, i - 1) && At(order', j) == At(order, i);
      }
    }
  }

  /** A ring through NBUF distinct buffers goes through every buffer. */
  lemma AllOnList(order: seq<nat>, b: nat)
    requires |order| == NBUF && b < NBUF
    requires forall i :: 0 <= i < |order| ==> order[i] < NBUF
    requires forall i, j :: 0 <= i < j < |order| ==> order[i] != order[j]
    ensures b in order
  {
    var on := Elements(order, NBUF);
    assert |on| == NBUF;
    var all := Below(NBUF);
    if b !in order {
      assert on <= all - {b};
      SubsetSize(on, all - {b});
      assert false;
    }
  }

  ghost function Elements(order: seq<nat>, n: nat): (r: set<nat>)
    requires n <= |order| && forall i, j :: 0 <= i < j < |order| ==> order[i] != order[j]
    ensures |r| == n && forall x :: x in r <==> x in order[..n]
  {
    if n == 0 then {}
    else
      assert order[..n] == order[..n - 1] + [order[n - 1]];
      Elements(order, n - 1) + {order[n - 1]}
  }

  // ---- the table of buffers ----

  datatype Slot = Slot(key: Key, data: Block, valid: bool, refcnt: nat, holder: Option<nat>)

  /** A cached block as the users of the cache see it: the buffer `at` and what is in it. */
  datatype Buf = Buf(at: nat, slot: Slot)

  /** `bufs` lists exactly the buffers that cache a block of the device, each under its block number. */
  ghost predicate Indexed(dev: nat, buf: seq<Slot>, bufs: map<nat, Buf>)
  {
    && |buf| == NBUF
    && (forall b :: b in bufs ==>
       bufs[b].at < NBUF && buf[bufs[b].at] == bufs[b].slot && bufs[b].slot.key == Key(dev, b))
    && (forall i :: 0 <= i < NBUF && buf[i].key.dev != 0 ==>
       buf[i].key.blockno in bufs && bufs[buf[i].key.blockno].at == i)
    && (forall i :: 0 <= i < NBUF && buf[i].holder.Some? ==> buf[i].refcnt > 0)
  }

  /** Changing a cached block's buffer, but not its key. */
  lemma ChangedIndexed(dev: nat, buf: seq<Slot>, bufs: map<nat, Buf>, b: nat, slot: Slot)
    requires Indexed(dev, buf, bufs) && dev != 0 && b in bufs && slot.key == Key(dev, b)
    requires slot.holder.Some? ==> slot.refcnt > 0
    ensures Indexed(dev, buf[bufs[b].at := slot], bufs[b := Buf(bufs[b].at, slot)])
  {
  }

  lemma Overwrite(bufs: map<nat, Buf>, b: nat, x: Buf, y: Buf)
    ensures bufs[b := x][b := y] == bufs[b := y] && bufs - {} == bufs
  {
  }

  /** Giving an unreferenced buffer to another block. */
  lemma RecycledIndexed(dev: nat, buf: seq<Slot>, bufs: map<nat, Buf>, i: nat, b: nat, slot: Slot)
    requires Indexed(dev, buf, bufs) && dev != 0 && i < NBUF && b !in bufs
    requires slot.key == Key(dev, b) && slot.holder.None?
    ensures Indexed(dev, buf[i := slot], (bufs - Owner(buf[i].key))[b := Buf(i, slot)])
    ensures forall x :: x in Owner(buf[i].key) ==> x in bufs && bufs[x].slot == buf[i]
  {
    var bufs' := (bufs - Owner(buf[i].key))[b := Buf(i, slot)];
    forall x | x in bufs' && x != b ensures bufs'[x].at != i {
      assert x in bufs && bufs[x].slot.key == Key(dev, x);
    }
  }

  /** The block, if any, that a key stands for; at boot every key is (0, 0) and stands for none. */
  function Owner(k: Key): set<nat> {
    if k.dev != 0 then {k.blockno} else {}
  }

  /** An unreferenced buffer holds nothing that the disk does not. */
  ghost predicate UnusedClean(disk: Disk, bufs: map<nat, Buf>)
  {
    forall b :: b in bufs ==> b < |disk| && (bufs[b].slot.refcnt == 0 && bufs[b].slot.valid ==>
      bufs[b].slot.data == disk[b])
  }

  // ---- the cache ----

  class BCache {
    const dev: nat  // the one disk device
    var buf: seq<Slot>
    var next: seq<nat>
    var prev: seq<nat>
    var disk: Disk
    ghost var order: seq<nat>         // the buffers on the list, most recent first
    ghost var bufs: map<nat, Buf>     // the cached blocks of the device
    ghost var trace: seq<Disk>        // every state the disk has been in

    ghost predicate Valid()
      reads this
    {
      && dev != 0
      && |order| == NBUF && Linked(next, prev, order)
      && Indexed(dev, buf, bufs)
      && UnusedClean(disk, bufs)
      && |trace| > 0 && trace[|trace| - 1] == disk
    }

    /** The contents of a block as the cache shows them. */
    ghost function Content(b: nat): Block
      requires b < |disk|
      reads this
    {
      if b in bufs && bufs[b].slot.valid then bufs[b].slot.data else disk[b]
    }

    /** binit() at boot, when every buffer has the key (0, 0). */
    constructor (device: nat, d: Disk)
      requires device != 0
      ensures Valid() && dev == device && disk == d && bufs == map[] && trace == [d]
    {
      dev := device;
      buf := seq(NBUF, _ => Slot(Key(0, 0), seq(BSIZE_WORDS, _ => 0), false, 0, None));
      next := seq(NBUF + 1, _ => HEAD);
      prev := seq(NBUF + 1, _ => HEAD);
      disk := d;
      order := [];
      bufs := map[];
      trace := [d];
      new;
      assert At(order, -1) == HEAD && At(order, 0) == HEAD;
      var i := 0;
      while i < NBUF
        invariant 0 <= i <= NBUF && |order| == i && Linked(next, prev, order)
        invariant forall p :: 0 <= p < i ==> order[p] < i
        invariant dev == device && disk == d && bufs == map[] && trace == [d] && Indexed(dev, buf, bufs)
      {
        PushFront(i);
        i := i + 1;
      }
    }

    /** bget()'s first scan, from the most recent buffer: the buffer of block b, or HEAD. */
    method FindCached(b: nat) returns (i: nat)
      requires Valid()
      ensures i == (if b in bufs then bufs[b].at else HEAD)
    {
      i := next[HEAD];
      ghost var p := 0;
      assert At(order, -1) == HEAD;
      while i != HEAD
        invariant 0 <= p <= NBUF && i == At(order, p)
        invariant forall q :: 0 <= q < p ==> buf[order[q]].key != Key(dev, b)
        decreases NBUF - p
      {
        if buf[i].key == Key(dev, b) {
          return;
        }
        i := next[i];
        p := p + 1;
      }
      if b in bufs {
        AllOnList(order, bufs[b].at);
        assert false;
      }
    }

    /** bget()'s second scan, from the least recent buffer: the first one that nobody references, or HEAD. */
    method FindUnused() returns (i: nat)
      requires Valid()
      ensures i == HEAD ==> forall j :: 0 <= j < NBUF ==> buf[j].refcnt > 0
      ensures i != HEAD ==> i < NBUF && buf[i].refcnt == 0
      ensures i != HEAD ==> exists p :: 0 <= p < NBUF && order[p] == i && forall q :: p < q < NBUF ==>
        buf[order[q]].refcnt > 0
    {
      assert At(order, NBUF) == HEAD;
      i := prev[HEAD];
      ghost var p := NBUF - 1;
      while i != HEAD
        invariant -1 <= p < NBUF && i == At(order, p)
        invariant forall q :: p < q < NBUF ==> buf[order[q]].refcnt > 0
        decreases p + 1
      {
        if buf[i].refcnt == 0 {
          return;
        }
        i := prev[i];
        p := p - 1;
      }
      forall j | 0 <= j < NBUF ensures buf[j].refcnt > 0 {
        AllOnList(order, j);
      }
    }

    /**
     bget(): the buffer already caching the block, or else the least recently released buffer that
     nobody references, whose old block `gone` leaves the cache.  None is the panic "bget: no buffers".
     */
    method Bget(b: nat) returns (r: Option<nat>, ghost gone: set<nat>)
      requires Valid() && b < |disk|
      modifies this`buf, this`bufs
      ensures Valid()
      ensures r.None? <==> b !in old(bufs) && forall i :: 0 <= i < NBUF ==> old(buf)[i].refcnt > 0
      ensures r.None? ==> bufs == old(bufs)
      ensures r.Some? ==> b in bufs && bufs[b].at == r.value && bufs[b].slot.refcnt > 0
      ensures r.Some? && b in old(bufs) ==>
                && gone == {} && bufs == old(bufs)[b := bufs[b]]
                && bufs[b].slot == old(bufs)[b].slot.(refcnt := old(bufs)[b].slot.refcnt + 1)
      ensures r.Some? && b !in old(bufs) ==>
                && bufs == (old(bufs) - gone)[b := bufs[b]] && bufs[b].slot.refcnt == 1 && !bufs[b].slot.valid
                && bufs[b].slot.holder == None
                && (forall x :: x in gone ==> x in old(bufs) && old(bufs)[x].slot.refcnt == 0)
                && (exists p :: 0 <= p < NBUF && order[p] == r.value && forall q :: p < q < NBUF ==>
                   old(buf)[order[q]].refcnt > 0)
    {
      gone := {};
      var i := FindCached(b);
      if i != HEAD {
        Change(i, buf[i].(refcnt := buf[i].refcnt + 1), b);
        return Some(i), gone;
      }
      i := FindUnused();
      if i == HEAD {
        return None, gone;
      }
      gone := Owner(buf[i].key);
      var slot := buf[i].(key := Key(dev, b), valid := false, refcnt := 1);
      RecycledIndexed(dev, buf, bufs, i, b, slot);
      bufs := (bufs - gone)[b := Buf(i, slot)];
      buf := buf[i := slot];
      return Some(i), gone;
    }

    /** Update the fields of a buffer in use. */
    method Change(i: nat, slot: Slot, ghost b: nat)
      requires Valid() && b in bufs && bufs[b].at == i && slot.key == Key(dev, b) &&
        (slot.holder.Some? ==> slot.refcnt > 0)
      requires slot.refcnt == 0 && slot.valid ==> slot.data == disk[b]
      modifies this`buf, this`bufs
      ensures Valid() && buf == old(buf)[i := slot] && bufs == old(bufs)[b := Buf(i, slot)]
    {
      ChangedIndexed(dev, buf, bufs, b, slot);
      buf := buf[i := slot];
      bufs := bufs[b := Buf(i, slot)];
    }

    /**
     bread(): a buffer, locked by `pid`, that shows the block's contents.  The caller does not find the
     buffer locked; waiting for it is a step of LogProtocol.
     */
    method Bread(pid: nat, b: nat) returns (r: Option<nat>, ghost gone: set<nat>)
      requires Valid() && b < |disk| && (b in bufs ==> bufs[b].slot.holder == None)
      modifies this`buf, this`bufs
      ensures Valid()
      ensures r.None? ==> bufs == old(bufs)
      ensures forall x :: x in gone ==> x in old(bufs) && old(bufs)[x].slot.refcnt == 0 && x != b
      ensures r.Some? ==>
                bufs == (old(bufs) - gone)[b := Buf(r.value, Slot(Key(dev, b), old(Content(b)), true,
                                                    1 + (if b in old(bufs) then old(bufs)[b].slot.refcnt else 0),
                                                      Some(pid)))]
    {
      r, gone := Bget(b);
      if r.Some? {
        ghost var hit := bufs[b];
        Fill(pid, r.value, b);
        Overwrite(if b in old(bufs) then old(bufs) else old(bufs) - gone, b, hit, bufs[b]);
      } else {
        gone := {};
      }
    }

    /** The rest of bread(): lock the buffer, and load it if bget() recycled it. */
    method Fill(pid: nat, i: nat, ghost b: nat)
      requires Valid() && b in bufs && bufs[b].at == i && bufs[b].slot.refcnt > 0 && bufs[b].slot.holder == None
      modifies this`buf, this`bufs
      ensures Valid()
      ensures bufs == old(bufs)[b := Buf(i, Slot(Key(dev, b), old(Content(b)), true, old(bufs)[b].slot.refcnt,
        Some(pid)))]
    {
      var slot := buf[i].(holder := Some(pid));
      if !slot.valid {
        slot := slot.(data := disk[slot.key.blockno], valid := true);
      }
      Change(i, slot, b);
    }

    /** bwrite(): one atomic block write; false is the panic of a caller that does not hold the buffer. */
    method Bwrite(pid: nat, i: nat, ghost b: nat) returns (ok: bool)
      requires Valid() && b in bufs && bufs[b].at == i
      modifies this`disk, this`trace
      ensures Valid()
      ensures ok <==> bufs[b].slot.holder == Some(pid)
      ensures ok ==> disk == old(disk)[b := bufs[b].slot.data] && trace == old(trace) + [disk]
      ensures !ok ==> disk == old(disk) && trace == old(trace)
    {
      ok := buf[i].holder == Some(pid);
      if ok {
        disk := disk[buf[i].key.blockno := buf[i].data];
        trace := trace + [disk];
      }
    }

    /**
     brelse(): the last reference moves the buffer to the front of the list.  A caller that changed the
     buffer has written it or had it pinned.
     */
    method Brelse(pid: nat, i: nat, ghost b: nat) returns (ok: bool)
      requires Valid() && b in bufs && bufs[b].at == i
      requires bufs[b].slot.refcnt == 1 && bufs[b].slot.valid ==> bufs[b].slot.data == disk[b]
      modifies this`buf, this`next, this`prev, this`order, this`bufs
      ensures Valid()
      ensures ok <==> old(bufs)[b].slot.holder == Some(pid)
      ensures ok ==>
                && old(bufs)[b].slot.refcnt > 0
                && bufs == old(bufs)[b := Buf(i, old(bufs)[b].slot.(refcnt := old(bufs)[b].slot.refcnt - 1,
                   holder := None))]
      ensures ok && old(bufs)[b].slot.refcnt == 1 ==> order == Refreshed(old(order), i)
      ensures !ok ==> bufs == old(bufs)
      ensures !ok || old(bufs)[b].slot.refcnt > 1 ==> order == old(order)
    {
      ok := buf[i].holder == Some(pid);
      if !ok {
        return;
      }
      Change(i, buf[i].(refcnt := buf[i].refcnt - 1, holder := None), b);
      if buf[i].refcnt == 0 {
        MoveToFront(i);
      }
    }

    method MoveToFront(i: nat)
      requires |order| == NBUF && Linked(next, prev, order) && i < NBUF
      modifies this`next, this`prev, this`order
      ensures |order| == NBUF && Linked(next, prev, order)
      ensures order == Refreshed(old(order), i)
    {
      AllOnList(order, i);
      ghost var p :| 0 <= p < NBUF && order[p] == i;
      RemovedIs(order, p);
      Unlinked(next, prev, order, p);
      var ni, pi := next[i], prev[i];
      prev := prev[ni := pi];
      next := next[pi := ni];
      order := Without(order, p);
      assert i !in order;
      PushFront(i);
    }

    /** The insertion that binit() and brelse() share. */
    method PushFront(i: nat)
      requires Linked(next, prev, order) && i < NBUF && i !in order
      modifies this`next, this`prev, this`order
      ensures Linked(next, prev, order) && order == [i] + old(order)
    {
      Pushed(next, prev, order, i);
      var first := next[HEAD];
      next := next[i := first];
      prev := prev[i := HEAD];
      prev := prev[first := i];
      next := next[HEAD := i];
      order := [i] + order;
    }

    method Bpin(i: nat, ghost b: nat)
      requires Valid() && b in bufs && bufs[b].at == i
      modifies this`buf, this`bufs
      ensures Valid() && bufs == old(bufs)[b := Buf(i, old(bufs)[b].slot.(refcnt := old(bufs)[b].slot.refcnt + 1))]
    {
      Change(i, buf[i].(refcnt := buf[i].refcnt + 1), b);
    }

    /** bunpin(), by a caller that still holds the buffer. */
    method Bunpin(i: nat, ghost b: nat)
      requires Valid() && b in bufs && bufs[b].at == i && bufs[b].slot.refcnt > 1
      modifies this`buf, this`bufs
      ensures Valid() && bufs == old(bufs)[b := Buf(i, old(bufs)[b].slot.(refcnt := old(bufs)[b].slot.refcnt - 1))]
    {
      Change(i, buf[i].(refcnt := buf[i].refcnt - 1), b);
    }

    /** A caller that holds a buffer stores into it. */
    method Store(i: nat, block: Block, ghost b: nat)
      requires Valid() && b in bufs && bufs[b].at == i && bufs[b].slot.refcnt > 0
      modifies this`buf, this`bufs
      ensures Valid() && bufs == old(bufs)[b := Buf(i, old(bufs)[b].slot.(data := block))]
    {
      Change(i, buf[i].(data := block), b);
    }
  }
}

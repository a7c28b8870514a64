/**
 The virtio disk driver's request ring: descriptors, the avail and used rings with their 16-bit indices, and
 a device that takes requests in order and finishes them in any order.
 */
module Virtio {
  import opened Prelude

  const NUM := 8
  const IDX := 0x1_0000  // indices are uint16

  /** What a descriptor points to. */
  datatype Target = Nothing | Command(i: nat) | Payload(b: nat) | StatusByte(i: nat)

  /** `more` is VRING_DESC_F_NEXT and `write` is VRING_DESC_F_WRITE. */
  datatype Desc = Desc(addr: Target, more: bool, write: bool, next: nat)

  /** disk.info[i] */
  datatype Info = Info(b: Option<nat>, status: nat)

  datatype Stage = Queued | Taken | Finished | Done

  /** A request in flight; its head descriptor names it. */
  datatype Req = Req(b: nat, write: bool, d1: nat, d2: nat, stage: Stage, serial: nat)

  type Reqs = map<nat, Req>

  predicate OneOf(h: nat, d1: nat, d2: nat, i: nat) {
    i == h || i == d1 || i == d2
  }

  predicate Has(owner: map<nat, nat>, h: nat, i: nat) {
    i in owner && owner[i] == h
  }

  /** The three descriptors of a request describe it and are chained in order. */
  predicate Chain(desc: seq<Desc>, h: nat, b: nat, write: bool, d1: nat, d2: nat)
    requires |desc| == NUM
  {
    && h < NUM && d1 < NUM && d2 < NUM && h != d1 && h != d2 && d1 != d2
    && desc[h] == Desc(Command(h), true, false, d1)
    && desc[d1] == Desc(Payload(b), true, !write, d2)
    && desc[d2] == Desc(StatusByte(h), false, true, 0)
  }

  predicate ChainOf(desc: seq<Desc>, h: nat, r: Req)
    requires |desc| == NUM
  {
    h < NUM && Chain(desc, h, r.b, r.write, r.d1, r.d2)
  }

  ghost predicate Marks(free: seq<bool>, owner: map<nat, nat>)
    requires |free| == NUM
  {
    (forall i: nat :: i < NUM ==> (i in owner <==> !free[i])) && (forall i :: i in owner ==> i < NUM)
  }

  ghost predicate Owners(owner: map<nat, nat>, reqs: Reqs)
  {
    && (forall i :: i in owner ==> owner[i] in reqs && OneOf(owner[i], reqs[owner[i]].d1, reqs[owner[i]].d2, i))
    && (forall h :: h in reqs ==> Has(owner, h, h) && Has(owner, h, reqs[h].d1) && Has(owner, h, reqs[h].d2))
  }

  /** Free descriptors and the chains of the requests in flight partition the descriptors. */
  ghost predicate Partition(free: seq<bool>, reqs: Reqs, owner: map<nat, nat>)
    requires |free| == NUM
  {
    Marks(free, owner) && Owners(owner, reqs) && |owner| == 3 * |reqs|
  }

  /** Fewer than three descriptors are free. */
  ghost predicate FewFree(free: seq<bool>)
    requires |free| == NUM
  {
    forall x, y, z :: 0 <= x < y < z < NUM ==> !(free[x] && free[y] && free[z])
  }

  /** At most two requests are in flight. */
  lemma AtMostTwo(free: seq<bool>, reqs: Reqs, owner: map<nat, nat>)
    requires |free| == NUM && Partition(free, reqs, owner)
    ensures |reqs| <= 2
  {
    assert owner.Keys <= Below(NUM);
    SubsetSize(owner.Keys, Below(NUM));
    assert |owner| == |owner.Keys|;
  }

  ghost function FreeSet(free: seq<bool>): set<nat>
    requires |free| == NUM
  {
    set i: nat | i < NUM && free[i]
  }

  lemma ThreeOf(s: set<nat>) returns (x: nat, y: nat, z: nat)
    requires |s| >= 3
    ensures x in s && y in s && z in s && x != y && x != z && y != z
  {
    x :| x in s;
    var t := s - {x};
    assert |t| >= 2;
    y :| y in t;
    var u := t - {y};
    assert |u| >= 1;
    z :| z in u;
  }

  lemma FewFreeCount(free: seq<bool>)
    requires |free| == NUM && FewFree(free)
    ensures |FreeSet(free)| <= 2
  {
    if |FreeSet(free)| >= 3 {
      var x, y, z := ThreeOf(FreeSet(free));
      assert false;
    }
  }

  lemma TwoParts(f: set<nat>, k: set<nat>, n: nat)
    requires f !! k && forall x: nat :: x in f || x in k <==> x < n
    ensures |f| + |k| == n
  {
    assert f + k == Below(n);
  }

  lemma OwnedCount(free: seq<bool>, reqs: Reqs, owner: map<nat, nat>)
    requires |free| == NUM && Partition(free, reqs, owner)
    ensures |FreeSet(free)| + 3 * |reqs| == NUM
  {
    hide Owners;
    TwoParts(FreeSet(free), owner.Keys, NUM);
    assert |owner| == |owner.Keys|;
  }

  /** Fewer than three descriptors are free exactly if two requests are in flight. */
  lemma FullIsTwo(free: seq<bool>, reqs: Reqs, owner: map<nat, nat>)
    requires |free| == NUM && Partition(free, reqs, owner)
    ensures FewFree(free) ==> |reqs| == 2
    ensures forall a, b, c ::
      0 <= a < NUM && 0 <= b < NUM && 0 <= c < NUM && a != b && a != c && b != c && free[a] && free[b] && free[c] ==>
      |reqs| < 2
  {
    hide Partition;
    OwnedCount(free, reqs, owner);
    if FewFree(free) {
      FewFreeCount(free);
    }
    forall a, b, c | 0 <= a < NUM && 0 <= b < NUM && 0 <= c < NUM && a != b && a != c && b != c && free[a] &&
      free[b] && free[c]
      ensures |reqs| < 2 {
      SubsetSize({a, b, c}, FreeSet(free));
    }
  }

  /** The descriptors and the bookkeeping of every request in flight. */
  ghost predicate Chains(desc: seq<Desc>, info: seq<Info>, reqs: Reqs)
    requires |desc| == NUM && |info| == NUM
  {
    forall h :: h in reqs ==> ChainOf(desc, h, reqs[h]) && info[h].b == Some(reqs[h].b)
  }

  /** b->disk is set exactly while a request for b is not done; no buffer has two requests. */
  ghost predicate Buffers(busy: map<nat, bool>, reqs: Reqs)
  {
    && (forall h :: h in reqs ==> reqs[h].b in busy && (busy[reqs[h].b] <==> !reqs[h].stage.Done?))
    && (forall h, k :: h in reqs && k in reqs && reqs[h].b == reqs[k].b ==> h == k)
  }

  /** The slots from `from` on of a ring hold the heads of a queue. */
  ghost predicate Holds(ring: seq<nat>, from: nat, queue: seq<nat>)
    requires |ring| == NUM
  {
    |queue| <= NUM && forall t :: 0 <= t < |queue| ==> ring[(from + t) % NUM] == queue[t]
  }

  /** A queue lists exactly the requests in one stage, each once. */
  ghost predicate Lists(queue: seq<nat>, reqs: Reqs, stage: Stage)
  {
    && (forall t :: 0 <= t < |queue| ==> queue[t] in reqs && reqs[queue[t]].stage == stage)
    && (forall t, u :: 0 <= t < u < |queue| ==> queue[t] != queue[u])
    && (forall h :: h in reqs && reqs[h].stage == stage ==> h in queue)
  }

  /** Serial numbers are never used twice and a request completes at most once. */
  ghost predicate Serials(reqs: Reqs, next: nat, completed: seq<nat>)
  {
    && (forall h :: h in reqs ==> reqs[h].serial < next)
    && (forall h, k :: h in reqs && k in reqs && reqs[h].serial == reqs[k].serial ==> h == k)
    && (forall t :: 0 <= t < |completed| ==> completed[t] < next)
    && (forall t, u :: 0 <= t < u < |completed| ==> completed[t] != completed[u])
    && (forall h :: h in reqs ==> (reqs[h].serial in completed <==> reqs[h].stage.Done?))
  }

  lemma QueueShort(queue: seq<nat>, reqs: Reqs, stage: Stage)
    requires Lists(queue, reqs, stage)
    ensures |queue| <= |reqs|
  {
    var s := set t | 0 <= t < |queue| :: queue[t];
    DistinctSize(queue, s);
    assert s <= reqs.Keys;
    SubsetSize(s, reqs.Keys);
  }

  lemma {:induction false} DistinctSize(q: seq<nat>, s: set<nat>)
    requires (forall t, u :: 0 <= t < u < |q| ==> q[t] != q[u]) && (forall x :: x in s <==> x in q)
    ensures |s| == |q|
  {
    if q == [] {
      assert s == {};
    } else {
      var last := |q| - 1;
      assert q == q[..last] + [q[last]];
      DistinctSize(q[..last], s - {q[last]});
      assert s == (s - {q[last]}) + {q[last]};
    }
  }

  // ---- a request moves on ----

  function Moved(reqs: Reqs, h: nat, stage: Stage): Reqs
    requires h in reqs
  {
    reqs[h := reqs[h].(stage := stage)]
  }

  lemma MovedSize(reqs: Reqs, h: nat, stage: Stage)
    requires h in reqs
    ensures |Moved(reqs, h, stage)| == |reqs|
  {
    assert Moved(reqs, h, stage).Keys == reqs.Keys;
    assert |Moved(reqs, h, stage)| == |Moved(reqs, h, stage).Keys| == |reqs.Keys| == |reqs|;
  }

  lemma MovedPartition(free: seq<bool>, reqs: Reqs, owner: map<nat, nat>, h: nat, stage: Stage)
    requires |free| == NUM && h in reqs && Partition(free, reqs, owner)
    ensures Partition(free, Moved(reqs, h, stage), owner)
  {
    hide OneOf;
    hide Marks;
    MovedSize(reqs, h, stage);
  }

  lemma MovedChains(desc: seq<Desc>, info: seq<Info>, info': seq<Info>, reqs: Reqs, h: nat, stage: Stage)
    requires |desc| == NUM && |info| == NUM && |info'| == NUM && h in reqs && Chains(desc, info, reqs)
    requires forall i :: 0 <= i < NUM ==> info'[i].b == info[i].b
    ensures Chains(desc, info', Moved(reqs, h, stage))
  {
    hide Chain;
  }

  /** A request leaves the front of a queue for another stage. */
  lemma ListsPop(queue: seq<nat>, reqs: Reqs, stage: Stage, stage': Stage)
    requires Lists(queue, reqs, stage) && queue != [] && stage' != stage
    ensures queue[0] in reqs && Lists(queue[1..], Moved(reqs, queue[0], stage'), stage)
  {
  }

  /** A request joins the end of a queue from another stage. */
  lemma ListsPush(queue: seq<nat>, reqs: Reqs, stage: Stage, h: nat)
    requires Lists(queue, reqs, stage) && h in reqs && reqs[h].stage != stage
    ensures Lists(queue + [h], Moved(reqs, h, stage), stage)
  {
    var q, reqs' := queue + [h], Moved(reqs, h, stage);
    assert h in q;
    forall k | k in reqs' && reqs'[k].stage == stage ensures k in q {
      assert k != h ==> k in queue;
    }
  }

  /** A move between two other stages does not concern a queue. */
  lemma ListsOther(queue: seq<nat>, reqs: Reqs, stage: Stage, h: nat, stage': Stage)
    requires Lists(queue, reqs, stage) && h in reqs && reqs[h].stage != stage && stage' != stage
    ensures Lists(queue, Moved(reqs, h, stage'), stage)
  {
    var reqs' := Moved(reqs, h, stage');
    assert forall k :: k in reqs' && reqs'[k].stage == stage ==> k in reqs && reqs[k].stage == stage;
  }

  // ---- rings ----

  lemma Wraps(n: nat)
    ensures n % IDX % NUM == n % NUM
  {
    var q, r := n / IDX, n % IDX;
    assert n == NUM * (IDX / NUM * q) + r;
    ModPlus(IDX / NUM * q, r);
  }

  lemma ModPlus(q: nat, r: nat)
    ensures (NUM * q + r) % NUM == r % NUM
  {
  }

  /** Two 16-bit indices that count at most eight apart agree exactly if the counts do. */
  lemma SameIndex(n: nat, m: nat)
    requires n <= m <= n + NUM
    ensures n % IDX == m % IDX <==> n == m
  {
  }

  lemma NextIndex(n: nat)
    ensures (n % IDX + 1) % IDX == (n + 1) % IDX
  {
  }

  lemma HoldsPop(ring: seq<nat>, from: nat, queue: seq<nat>)
    requires |ring| == NUM && Holds(ring, from, queue) && queue != []
    ensures ring[from % NUM] == queue[0] && Holds(ring, from + 1, queue[1..])
  {
    assert ring[(from + 0) % NUM] == queue[0];
    forall t | 0 <= t < |queue[1..]| ensures ring[(from + 1 + t) % NUM] == queue[1..][t] {
      assert ring[(from + (t + 1)) % NUM] == queue[t + 1];
    }
  }

  /** A new entry goes into a slot that no waiting entry uses. */
  lemma HoldsPush(ring: seq<nat>, from: nat, queue: seq<nat>, h: nat)
    requires |ring| == NUM && Holds(ring, from, queue) && |queue| < NUM
    ensures Holds(ring[(from + |queue|) % NUM := h], from, queue + [h])
  {
    var ring', q := ring[(from + |queue|) % NUM := h], queue + [h];
    forall t | 0 <= t < |q| ensures ring'[(from + t) % NUM] == q[t] {
      if t < |queue| {
        Slots(from + t, from + |queue|);
      }
    }
  }

  lemma Slots(a: nat, b: nat)
    requires a < b < a + NUM
    ensures a % NUM != b % NUM
  {
  }

  lemma MovedBuffers(busy: map<nat, bool>, reqs: Reqs, h: nat, stage: Stage)
    requires Buffers(busy, reqs) && h in reqs
    ensures reqs[h].b in busy && Buffers(busy[reqs[h].b := !stage.Done?], Moved(reqs, h, stage))
  {
  }

  lemma MovedSerials(reqs: Reqs, next: nat, completed: seq<nat>, h: nat, stage: Stage)
    requires Serials(reqs, next, completed) && h in reqs && !reqs[h].stage.Done?
    ensures !stage.Done? ==> Serials(Moved(reqs, h, stage), next, completed)
    ensures stage.Done? ==>
      reqs[h].serial !in completed && Serials(Moved(reqs, h, stage), next, completed + [reqs[h].serial])
  {
  }

  /** All that the requests in flight and the driver's data have to do with each other. */
  ghost predicate Core(free: seq<bool>, desc: seq<Desc>, info: seq<Info>, busy: map<nat, bool>, reqs: Reqs,
    owner: map<nat, nat>, queued: seq<nat>, finished: seq<nat>, next: nat, completed: seq<nat>)
  {
    && |free| == NUM && |desc| == NUM && |info| == NUM && Partition(free, reqs, owner) && Chains(desc, info, reqs)
    && Buffers(busy, reqs)
    && Lists(queued, reqs, Queued) && Lists(finished, reqs, Finished) && Serials(reqs, next, completed)
  }

  lemma CoreTake(free: seq<bool>, desc: seq<Desc>, info: seq<Info>, busy: map<nat, bool>, reqs: Reqs,
    owner: map<nat, nat>, queued: seq<nat>, finished: seq<nat>, next: nat, completed: seq<nat>)
    requires Core(free, desc, info, busy, reqs, owner, queued, finished, next, completed) && queued != []
    ensures queued[0] in reqs &&
      Core(free, desc, info, busy, Moved(reqs, queued[0], Taken), owner, queued[1..], finished, next, completed)
  {
    hide Partition;
    hide Chains;
    hide Buffers;
    hide Lists;
    hide Serials;
    hide Moved;
    var h := queued[0];
    FrontStage(queued, reqs, Queued);
    ListsPop(queued, reqs, Queued, Taken);
    ListsOther(finished, reqs, Finished, h, Taken);
    MovedPartition(free, reqs, owner, h, Taken);
    MovedChains(desc, info, info, reqs, h, Taken);
    MovedBuffers(busy, reqs, h, Taken);
    SameBusy(busy, reqs, h);
    MovedSerials(reqs, next, completed, h, Taken);
  }

  lemma CoreFinish(free: seq<bool>, desc: seq<Desc>, info: seq<Info>, busy: map<nat, bool>, reqs: Reqs,
    owner: map<nat, nat>, queued: seq<nat>, finished: seq<nat>, next: nat, completed: seq<nat>, h: nat, status: nat)
    requires Core(free, desc, info, busy, reqs, owner, queued, finished, next, completed) && h in reqs &&
      reqs[h].stage.Taken?
    ensures h < NUM && |info| == NUM
    ensures Core(free, desc, info[h := info[h].(status := status)], busy, Moved(reqs, h, Finished), owner, queued,
      finished + [h], next, completed)
  {
    hide Partition;
    hide Chains;
    hide ChainOf;
    hide Buffers;
    hide Lists;
    hide Serials;
    hide Moved;
    HeadBelow(desc, info, reqs, h);
    ListsOther(queued, reqs, Queued, h, Finished);
    ListsPush(finished, reqs, Finished, h);
    MovedPartition(free, reqs, owner, h, Finished);
    MovedChains(desc, info, info[h := info[h].(status := status)], reqs, h, Finished);
    MovedBuffers(busy, reqs, h, Finished);
    SameBusy(busy, reqs, h);
    MovedSerials(reqs, next, completed, h, Finished);
  }

  lemma CoreDone(free: seq<bool>, desc: seq<Desc>, info: seq<Info>, busy: map<nat, bool>, reqs: Reqs,
    owner: map<nat, nat>, queued: seq<nat>, finished: seq<nat>, next: nat, completed: seq<nat>)
    requires Core(free, desc, info, busy, reqs, owner, queued, finished, next, completed) && finished != []
    ensures var h := finished[0];
            && h in reqs && h < NUM && info[h].b == Some(reqs[h].b)
            && Core(free, desc, info, busy[reqs[h].b := false], Moved(reqs, h, Done), owner, queued, finished[1..],
               next, completed + [reqs[h].serial])
  {
    hide Partition;
    hide Chains;
    hide ChainOf;
    hide Buffers;
    hide Lists;
    hide Serials;
    hide Moved;
    var h := finished[0];
    FrontStage(finished, reqs, Finished);
    HeadBelow(desc, info, reqs, h);
    ListsPop(finished, reqs, Finished, Done);
    ListsOther(queued, reqs, Queued, h, Done);
    MovedPartition(free, reqs, owner, h, Done);
    MovedChains(desc, info, info, reqs, h, Done);
    MovedBuffers(busy, reqs, h, Done);
    MovedSerials(reqs, next, completed, h, Done);
  }

  lemma CoreShort(free: seq<bool>, desc: seq<Desc>, info: seq<Info>, busy: map<nat, bool>, reqs: Reqs,
    owner: map<nat, nat>, queued: seq<nat>, finished: seq<nat>, next: nat, completed: seq<nat>)
    requires Core(free, desc, info, busy, reqs, owner, queued, finished, next, completed)
    ensures |reqs| <= 2 && |queued| <= 2 && |finished| <= 2
  {
    hide Partition;
    hide Chains;
    hide Buffers;
    hide Lists;
    hide Serials;
    InFlight(free, reqs, owner, queued, finished);
  }

  lemma CoreNew(free: seq<bool>, free': seq<bool>, desc: seq<Desc>, desc': seq<Desc>, info: seq<Info>,
    info': seq<Info>, busy: map<nat, bool>, reqs: Reqs, owner: map<nat, nat>, queued: seq<nat>, finished: seq<nat>,
    next: nat, completed: seq<nat>, h: nat, r: Req)
    requires Core(free, desc, info, busy, reqs, owner, queued, finished, next, completed) && |free'| == NUM &&
      |desc'| == NUM && |info'| == NUM
    requires ChainOf(desc', h, r) && info'[h].b == Some(r.b) && free[h] && free[r.d1] && free[r.d2] &&
      r.serial == next && r.stage.Queued?
    requires forall i :: 0 <= i < NUM ==> free'[i] == (free[i] && i != h && i != r.d1 && i != r.d2)
    requires forall i :: 0 <= i < NUM && i != h && i != r.d1 && i != r.d2 ==> desc'[i] == desc[i]
    requires forall i :: 0 <= i < NUM && i != h ==> info'[i] == info[i]
    requires forall k :: k in reqs ==> reqs[k].b != r.b
    ensures h !in reqs &&
      Core(free', desc', info', busy[r.b := true], reqs[h := r], WithThree(owner, h, r.d1, r.d2), queued + [h],
      finished, next + 1, completed)
  {
    hide Partition;
    hide Chains;
    hide Buffers;
    hide Lists;
    hide Serials;
    hide WithThree;
    NewHead(free, reqs, owner, h);
    NewPartition(free, free', reqs, owner, h, r);
    NewBuffers(busy, reqs, h, r);
    NewLists(queued, finished, reqs, h, r);
    NewSerials(reqs, next, completed, h, r);
    NewChains(free, desc, desc', info, info', reqs, owner, h, r);
  }

  lemma CoreChain(free: seq<bool>, desc: seq<Desc>, info: seq<Info>, busy: map<nat, bool>, reqs: Reqs,
    owner: map<nat, nat>, queued: seq<nat>, finished: seq<nat>, next: nat, completed: seq<nat>, h: nat)
    requires Core(free, desc, info, busy, reqs, owner, queued, finished, next, completed) && h in reqs
    ensures |free| == NUM && |desc| == NUM && ChainOf(desc, h, reqs[h]) && reqs[h].d1 < NUM && reqs[h].d2 < NUM
    ensures !free[h] && !free[reqs[h].d1] && !free[reqs[h].d2]
  {
    hide Partition;
    hide Chains;
    HeadBelow(desc, info, reqs, h);
    OwnedDescs(free, reqs, owner, h);
  }

  lemma CoreOld(free: seq<bool>, free': seq<bool>, desc: seq<Desc>, desc': seq<Desc>, info: seq<Info>,
    info': seq<Info>, busy: map<nat, bool>, reqs: Reqs, owner: map<nat, nat>, queued: seq<nat>, finished: seq<nat>,
    next: nat, completed: seq<nat>, h: nat)
    requires Core(free, desc, info, busy, reqs, owner, queued, finished, next, completed) && |free'| == NUM &&
      |desc'| == NUM && |info'| == NUM
    requires h in reqs && reqs[h].stage.Done?
    requires forall i :: 0 <= i < NUM ==> free'[i] == (free[i] || i == h || i == reqs[h].d1 || i == reqs[h].d2)
    requires forall i :: 0 <= i < NUM && i != h && i != reqs[h].d1 && i != reqs[h].d2 ==> desc'[i] == desc[i]
    requires forall i :: 0 <= i < NUM && i != h ==> info'[i] == info[i]
    ensures Core(free', desc', info', busy, reqs - {h}, WithoutThree(owner, h, reqs[h].d1, reqs[h].d2), queued,
      finished, next, completed)
  {
    hide Partition;
    hide Chains;
    hide Buffers;
    hide Lists;
    hide Serials;
    hide WithoutThree;
    HeadBelow(desc, info, reqs, h);
    OldPartition(free, free', reqs, owner, h);
    OldChains(free, desc, desc', info, info', reqs, owner, h);
    OldRest(busy, reqs, queued, finished, next, completed, h);
  }

  class Disk {
    // shared with the device
    var desc: seq<Desc>
    var avail: seq<nat>
    var availIdx: nat
    var used: seq<nat>
    var usedIdxDevice: nat   // disk.used->idx
    var lastAvail: nat       // the device's own place in the avail ring
    // the driver's own
    var free: seq<bool>
    var usedIdx: nat         // disk.used_idx
    var info: seq<Info>
    var busy: map<nat, bool> // b->disk
    // requests in flight and what has become of the others
    ghost var reqs: Reqs
    ghost var owner: map<nat, nat>
    ghost var queued: seq<nat>
    ghost var finished: seq<nat>
    ghost var submits: nat
    ghost var takes: nat
    ghost var finishes: nat
    ghost var seen: nat
    ghost var completed: seq<nat>

    ghost predicate Sized()
      reads this
    {
      |desc| == NUM && |avail| == NUM && |used| == NUM && |free| == NUM && |info| == NUM
    }

    /** The rings: 16-bit indices of counts, and slots that hold the waiting entries. */
    ghost predicate Rings()
      reads this`avail, this`availIdx, this`lastAvail, this`submits, this`takes, this`queued
      reads this`used, this`usedIdx, this`usedIdxDevice, this`finishes, this`seen, this`finished
    {
      && |avail| == NUM && |used| == NUM
      && availIdx == submits % IDX && lastAvail == takes % IDX && submits == takes + |queued|
      && Holds(avail, takes, queued)
      && usedIdxDevice == finishes % IDX && usedIdx == seen % IDX && finishes == seen + |finished|
      && Holds(used, seen, finished)
    }

    ghost predicate Valid()
      reads this
    {
      Sized() && Rings() && Core(free, desc, info, busy, reqs, owner, queued, finished, submits, completed)
    }

    constructor ()
      ensures Valid() && reqs == map[]
    {
      desc, avail, used := seq(NUM, _ => Desc(Nothing, false, false, 0)), seq(NUM, _ => 0), seq(NUM, _ => 0);
      free, info := seq(NUM, _ => true), seq(NUM, _ => Info(None, 0));
      availIdx, usedIdxDevice, lastAvail, usedIdx, busy := 0, 0, 0, 0, map[];
      reqs, owner, queued, finished := map[], map[], [], [];
      submits, takes, finishes, seen, completed := 0, 0, 0, 0, [];
    }

    /** The device takes the next request off the avail ring, if there is one: each once, in order. */
    method DeviceTake() returns (h: Option<nat>)
      requires Valid()
      modifies this
      ensures Valid() && completed == old(completed) && submits == old(submits) && busy == old(busy)
      ensures h.None? <==> old(queued) == []
      ensures h.None? ==> reqs == old(reqs)
      ensures h.Some? ==> h.value == old(queued)[0] && h.value in old(reqs) && reqs == Moved(old(reqs), h.value, Taken)
    {
      hide Core;
      hide Holds;
      hide Moved;
      CoreShort(free, desc, info, busy, reqs, owner, queued, finished, submits, completed);
      SameIndex(takes, submits);
      if lastAvail == availIdx {
        return None;
      }
      Wraps(takes);
      HoldsPop(avail, takes, queued);
      var head := avail[lastAvail % NUM];
      CoreTake(free, desc, info, busy, reqs, owner, queued, finished, submits, completed);
      NextIndex(takes);
      lastAvail := (lastAvail + 1) % IDX;
      takes := takes + 1;
      reqs := Moved(reqs, head, Taken);
      queued := queued[1..];
      return Some(head);
    }

    /** The device finishes a request that it has taken, in any order: status byte, then the used ring. */
    method DeviceFinish(h: nat, status: nat)
      requires Valid() && h in reqs && reqs[h].stage.Taken?
      modifies this
      ensures Valid() && completed == old(completed) && submits == old(submits) && busy == old(busy)
      ensures reqs == Moved(old(reqs), h, Finished) && info == old(info)[h := old(info)[h].(status := status)]
    {
      hide Core;
      hide Disk.Rings;
      hide Moved;
      CoreShort(free, desc, info, busy, reqs, owner, queued, finished, submits, completed);
      CoreFinish(free, desc, info, busy, reqs, owner, queued, finished, submits, completed, h, status);
      info := info[h := info[h].(status := status)];
      PushUsed(h);
      reqs := Moved(reqs, h, Finished);
    }

    /**
     One turn of the loop of virtio_disk_intr(): the oldest entry of the used ring is completed, for its own
     buffer and for no other.  false is the panic, on a status that reports an error.
     */
    method IntrOne() returns (ok: bool)
      requires Valid() && usedIdx != usedIdxDevice
      modifies this
      ensures old(finished) != [] && old(finished)[0] in old(reqs)
      ensures var h := old(finished)[0];
              && h < NUM && (ok <==> old(info)[h].status == 0)
              && (ok ==>
                 reqs == Moved(old(reqs), h, Done) && busy == old(busy)[old(reqs)[h].b := false] &&
                 completed == old(completed) + [old(reqs)[h].serial])
      ensures ok ==> Valid() && finished == old(finished)[1..] && submits == old(submits)
      ensures !ok ==> reqs == old(reqs) && busy == old(busy)
    {
      hide Core;
      hide Disk.Rings;
      hide Moved;
      CoreShort(free, desc, info, busy, reqs, owner, queued, finished, submits, completed);
      UsedEntry();
      CoreDone(free, desc, info, busy, reqs, owner, queued, finished, submits, completed);
      var id := used[usedIdx % NUM];
      if info[id].status != 0 {
        return false;
      }
      busy := busy[info[id].b.value := false];
      NextUsed();
      completed := completed + [reqs[id].serial];
      reqs := Moved(reqs, id, Done);
      return true;
    }

    /** The loop condition of virtio_disk_intr(), and the entry it goes on to read. */
    lemma UsedEntry()
      requires Rings() && |finished| <= 2
      ensures usedIdx == usedIdxDevice <==> finished == []
      ensures finished != [] ==> used[usedIdx % NUM] == finished[0]
    {
      hide Holds;
      SameIndex(seen, finishes);
      Wraps(seen);
      if finished != [] {
        HoldsPop(used, seen, finished);
      }
    }

    /** disk.used_idx += 1 */
    method NextUsed()
      requires Rings() && finished != []
      modifies this`usedIdx, this`seen, this`finished
      ensures Rings() && finished == old(finished)[1..]
    {
      hide Holds;
      HoldsPop(used, seen, finished);
      NextIndex(seen);
      usedIdx := (usedIdx + 1) % IDX;
      seen := seen + 1;
      finished := finished[1..];
    }

    /** virtio_disk_intr(): unless it panics, every entry of the used ring has been completed. */
    method Intr() returns (ok: bool)
      requires Valid()
      modifies this
      ensures ok ==>
        Valid() && finished == [] && submits == old(submits) && |completed| == |old(completed)| + |old(finished)|
      ensures ok ==> old(completed) <= completed
    {
      hide Core;
      hide Disk.Rings;
      hide Moved;
      CoreShort(free, desc, info, busy, reqs, owner, queued, finished, submits, completed);
      UsedEntry();
      while usedIdx != usedIdxDevice
        invariant Valid() && submits == old(submits) && |completed| + |finished| ==
          |old(completed)| + |old(finished)| && old(completed) <= completed
        invariant usedIdx == usedIdxDevice <==> finished == []
        decreases |finished|
      {
        ok := IntrOne();
        if !ok {
          return;
        }
        CoreShort(free, desc, info, busy, reqs, owner, queued, finished, submits, completed);
        UsedEntry();
      }
      return true;
    }

    // ---- descriptors ----

    /** alloc_desc(): the first free descriptor, or -1. */
    method AllocDesc() returns (r: int)
      requires |free| == NUM
      modifies this`free
      ensures r == -1 ==> free == old(free) && forall i :: 0 <= i < NUM ==> !free[i]
      ensures r != -1 ==> 0 <= r < NUM && old(free)[r] && free == old(free)[r := false] && forall i :: 0 <= i < r ==>
        !old(free)[i]
    {
      var i := 0;
      while i < NUM
        invariant 0 <= i <= NUM && free == old(free) && forall k :: 0 <= k < i ==> !free[k]
      {
        if free[i] {
          free := free[i := false];
          return i;
        }
        i := i + 1;
      }
      return -1;
    }

    /** free_desc(): false is one of its panics. */
    method FreeDesc(i: nat) returns (ok: bool)
      requires |free| == NUM && |desc| == NUM
      modifies this`free, this`desc
      ensures ok <==> i < NUM && !old(free)[i]
      ensures ok ==> free == old(free)[i := true] && desc == old(desc)[i := Desc(Nothing, false, false, 0)]
      ensures !ok ==> free == old(free) && desc == old(desc)
    {
      if i >= NUM {
        return false;
      }
      if free[i] {
        return false;
      }
      desc := desc[i := Desc(Nothing, false, false, 0)];
      free := free[i := true];
      return true;
    }

    /** alloc3_desc(): three different free descriptors, or none at all if there are not that many. */
    method Alloc3Desc() returns (ok: bool, a: nat, b: nat, c: nat)
      requires |free| == NUM && |desc| == NUM
      modifies this`free, this`desc
      ensures ok ==>
        a < NUM && b < NUM && c < NUM && a != b && a != c && b != c && old(free)[a] && old(free)[b] && old(free)[c]
      ensures ok ==> |free| == NUM && desc == old(desc) && forall i :: 0 <= i < NUM ==>
        free[i] == (old(free)[i] && i != a && i != b && i != c)
      ensures !ok ==> free == old(free) && |desc| == NUM && forall i :: 0 <= i < NUM && !free[i] ==>
        desc[i] == old(desc)[i]
      ensures !ok ==> FewFree(free)
    {
      a, b, c := 0, 0, 0;
      var idx := [];
      var i := 0;
      while i < 3
        invariant 0 <= i <= 3 && |idx| == i && desc == old(desc) && |free| == NUM
        invariant forall k :: 0 <= k < i ==> 0 <= idx[k] < NUM && old(free)[idx[k]] && !free[idx[k]]
        invariant forall k, l :: 0 <= k < l < i ==> idx[k] != idx[l]
        invariant forall x :: 0 <= x < NUM && x !in idx ==> free[x] == old(free)[x]
      {
        var d := AllocDesc();
        if d < 0 {
          RollBack(idx, old(free), old(desc));
          return false, 0, 0, 0;
        }
        idx := idx + [d];
        i := i + 1;
      }
      a, b, c := idx[0], idx[1], idx[2];
      assert idx == [a, b, c];
      return true, a, b, c;
    }

    /** The error exit of alloc3_desc(). */
    method RollBack(idx: seq<int>, ghost free0: seq<bool>, ghost desc0: seq<Desc>)
      requires |free| == NUM && |desc| == NUM && |free0| == NUM && desc == desc0 && |idx| < 3 &&
        forall x :: 0 <= x < NUM ==> !free[x]
      requires forall k :: 0 <= k < |idx| ==> 0 <= idx[k] < NUM && free0[idx[k]]
      requires forall k, l :: 0 <= k < l < |idx| ==> idx[k] != idx[l]
      requires forall x :: 0 <= x < NUM && x !in idx ==> free0[x] == free[x]
      modifies this`free, this`desc
      ensures free == free0 && |desc| == NUM && forall i :: 0 <= i < NUM && !free[i] ==> desc[i] == desc0[i]
      ensures FewFree(free)
    {
      var j := 0;
      while j < |idx|
        invariant 0 <= j <= |idx| && |free| == NUM && |desc| == NUM
        invariant forall k :: 0 <= k < j ==> free[idx[k]]
        invariant forall k :: j <= k < |idx| ==> !free[idx[k]]
        invariant forall x :: 0 <= x < NUM && x !in idx ==> !free[x] && desc[x] == desc0[x]
      {
        var ok := FreeDesc(idx[j]);
        j := j + 1;
      }
      assert free == free0 by {
        forall x | 0 <= x < NUM ensures free[x] == free0[x] {
          if x in idx {
            var k :| 0 <= k < |idx| && idx[k] == x;
          }
        }
      }
      forall x, y, z | 0 <= x < y < z < NUM ensures !(free[x] && free[y] && free[z]) {
        assert free[x] ==> x in idx;
        assert free[y] ==> y in idx;
        assert free[z] ==> z in idx;
      }
    }

    /** free_chain() of a request's chain: exactly its three descriptors become free, and it does not panic. */
    method FreeChain(h: nat, ghost r: Req) returns (ok: bool)
      requires |free| == NUM && |desc| == NUM && ChainOf(desc, h, r) && !free[h] && !free[r.d1] && !free[r.d2]
      modifies this`free, this`desc
      ensures ok && free == old(free)[h := true][r.d1 := true][r.d2 := true] && |desc| == NUM
      ensures forall i :: 0 <= i < NUM && i != h && i != r.d1 && i != r.d2 ==> desc[i] == old(desc)[i]
    {
      var i := h;
      ghost var n := 0;
      while true
        invariant 0 <= n <= 2 && |free| == NUM && |desc| == NUM && i == (if n == 0 then h else if n == 1 then r.d1
          else r.d2)
        invariant free == (if n == 0 then old(free) else if n == 1 then old(free)[h := true]
          else old(free)[h := true][r.d1 := true])
        invariant forall k :: 0 <= k < NUM && (n == 0 || k != h) && (n <= 1 || k != r.d1) ==> desc[k] == old(desc)[k]
        decreases 2 - n
      {
        var flag, nxt := desc[i].more, desc[i].next;
        ok := FreeDesc(i);
        if flag {
          i := nxt;
          n := n + 1;
        } else {
          break;
        }
      }
    }

    // ---- requests ----

    /**
     virtio_disk_rw() up to the notification: false means that there are not three free descriptors, which is so exactly
     while two requests are in flight, and then the caller sleeps and tries again.
     */
    method Submit(b: nat, write: bool) returns (ok: bool, h: nat)
      requires Valid() && forall k :: k in reqs ==> reqs[k].b != b
      modifies this
      ensures Valid() && completed == old(completed) && finished == old(finished)
      ensures ok <==> |old(reqs)| < 2
      ensures !ok ==> reqs == old(reqs) && free == old(free) && busy == old(busy) && submits == old(submits)
      ensures ok ==> h !in old(reqs) && h in reqs && reqs == old(reqs)[h := reqs[h]] && submits == old(submits) + 1
      ensures ok ==>
        reqs[h].b == b && reqs[h].write == write && reqs[h].stage.Queued? && reqs[h].serial == old(submits) &&
        busy == old(busy)[b := true]
    {
      hide FewFree;
      hide WithThree;
      hide ChainOf;
      hide Core;
      hide Disk.Rings;
      h := 0;
      var d1, d2;
      ghost var free0, desc0 := free, desc;
      CoreShort(free, desc, info, busy, reqs, owner, queued, finished, submits, completed);
      ok, h, d1, d2 := Alloc3Desc();
      if !ok {
        CoreFull(free, desc0, desc, info, busy, reqs, owner, queued, finished, submits, completed);
        return false, 0;
      }
      CoreRoom(free0, desc, info, busy, reqs, owner, queued, finished, submits, completed, h, d1, d2);
      SubmitAt(h, d1, d2, b, write, free0);
    }

    /** virtio_disk_rw() with its three descriptors. */
    method SubmitAt(h: nat, d1: nat, d2: nat, b: nat, write: bool, ghost free0: seq<bool>)
      requires Sized() && Rings() && |free0| == NUM &&
        Core(free0, desc, info, busy, reqs, owner, queued, finished, submits, completed) && |queued| < NUM
      requires h < NUM && d1 < NUM && d2 < NUM && h != d1 && h != d2 && d1 != d2 && free0[h] && free0[d1] && free0[d2]
      requires forall i :: 0 <= i < NUM ==> free[i] == (free0[i] && i != h && i != d1 && i != d2)
      requires forall k :: k in reqs ==> reqs[k].b != b
      modifies this
      ensures Valid() && completed == old(completed) && finished == old(finished) && h !in old(reqs)
      ensures reqs == old(reqs)[h := Req(b, write, d1, d2, Queued, old(submits))] && submits == old(submits) + 1 &&
        busy == old(busy)[b := true]
    {
      hide Core;
      hide Disk.Rings;
      hide WithThree;
      hide ChainOf;
      ghost var desc0, info0, busy0 := desc, info, busy;
      ghost var r := Req(b, write, d1, d2, Queued, submits);
      Format(h, d1, d2, b, write, r);
      CoreNew(free0, free, desc0, desc, info0, info, busy0, reqs, owner, queued, finished, submits, completed, h, r);
      Enqueue(h);
      owner := WithThree(owner, h, d1, d2);
      reqs := reqs[h := r];
    }

    /** The formatting of the three descriptors, and b->disk. */
    method Format(h: nat, d1: nat, d2: nat, b: nat, write: bool, ghost r: Req)
      requires Sized() && h < NUM && d1 < NUM && d2 < NUM && h != d1 && h != d2 && d1 != d2
      requires r.b == b && r.write == write && r.d1 == d1 && r.d2 == d2
      modifies this`desc, this`info, this`busy
      ensures Sized() && ChainOf(desc, h, r) && info[h] == Info(Some(b), 0xff) && busy == old(busy)[b := true]
      ensures forall i :: 0 <= i < NUM && i != h && i != d1 && i != d2 ==> desc[i] == old(desc)[i]
      ensures forall i :: 0 <= i < NUM && i != h ==> info[i] == old(info)[i]
    {
      desc := desc[h := Desc(Command(h), true, false, d1)];
      desc := desc[d1 := Desc(Payload(b), true, !write, d2)];
      info := info[h := info[h].(status := 0xff)];
      desc := desc[d2 := Desc(StatusByte(h), false, true, 0)];
      busy := busy[b := true];
      info := info[h := info[h].(b := Some(b))];
    }

    /** The avail ring: the head goes into the next slot, then the index moves on. */
    method Enqueue(h: nat)
      requires Sized() && Rings() && |queued| < NUM
      modifies this`avail, this`availIdx, this`submits, this`queued
      ensures Sized() && Rings() && submits == old(submits) + 1 && queued == old(queued) + [h]
    {
      hide Holds;
      Wraps(submits);
      HoldsPush(avail, takes, queued, h);
      NextIndex(submits);
      avail := avail[availIdx % NUM := h];
      availIdx := (availIdx + 1) % IDX;
      submits := submits + 1;
      queued := queued + [h];
    }

    /** The used ring, on the device's side. */
    method PushUsed(h: nat)
      requires Sized() && Rings() && |finished| < NUM
      modifies this`used, this`usedIdxDevice, this`finishes, this`finished
      ensures Sized() && Rings() && finished == old(finished) + [h]
    {
      hide Holds;
      Wraps(finishes);
      HoldsPush(used, seen, finished, h);
      NextIndex(finishes);
      used := used[usedIdxDevice % NUM := h];
      usedIdxDevice := (usedIdxDevice + 1) % IDX;
      finishes := finishes + 1;
      finished := finished + [h];
    }

    /** The end of virtio_disk_rw(), once b->disk is clear: the chain is freed. */
    method Finish(h: nat) returns (ok: bool)
      requires Valid() && h in reqs && reqs[h].stage.Done?
      modifies this
      ensures ok && Valid() && reqs == old(reqs) - {h} && busy == old(busy) && completed == old(completed) &&
        submits == old(submits)
      ensures free == old(free)[h := true][old(reqs)[h].d1 := true][old(reqs)[h].d2 := true]
    {
      hide Core;
      hide Disk.Rings;
      ghost var r, free0, desc0, info0 := reqs[h], free, desc, info;
      CoreChain(free, desc, info, busy, reqs, owner, queued, finished, submits, completed, h);
      info := info[h := info[h].(b := None)];
      ok := FreeChain(h, r);
      FreedThree(free0, free, h, r.d1, r.d2);
      CoreOld(free0, free, desc0, desc, info0, info, busy, reqs, owner, queued, finished, submits, completed, h);
      owner := WithoutThree(owner, h, r.d1, r.d2);
      reqs := reqs - {h};
    }
  }

  /** The queues are short enough for the rings. */
  lemma InFlight(free: seq<bool>, reqs: Reqs, owner: map<nat, nat>, queued: seq<nat>, finished: seq<nat>)
    requires |free| == NUM && Partition(free, reqs, owner) && Lists(queued, reqs, Queued) &&
      Lists(finished, reqs, Finished)
    ensures |reqs| <= 2 && |queued| <= 2 && |finished| <= 2
  {
    AtMostTwo(free, reqs, owner);
    QueueShort(queued, reqs, Queued);
    QueueShort(finished, reqs, Finished);
  }

  lemma HeadBelow(desc: seq<Desc>, info: seq<Info>, reqs: Reqs, h: nat)
    requires |desc| == NUM && |info| == NUM && Chains(desc, info, reqs) && h in reqs
    ensures h < NUM && info[h].b == Some(reqs[h].b) && ChainOf(desc, h, reqs[h])
    ensures h != reqs[h].d1 && h != reqs[h].d2 && reqs[h].d1 != reqs[h].d2
  {
  }

  lemma SameBusy(busy: map<nat, bool>, reqs: Reqs, h: nat)
    requires Buffers(busy, reqs) && h in reqs && !reqs[h].stage.Done?
    ensures reqs[h].b in busy && busy[reqs[h].b := true] == busy
  {
  }

  lemma FrontStage(queue: seq<nat>, reqs: Reqs, stage: Stage)
    requires Lists(queue, reqs, stage) && queue != []
    ensures queue[0] in reqs && reqs[queue[0]].stage == stage
  {
  }

  lemma OwnedDescs(free: seq<bool>, reqs: Reqs, owner: map<nat, nat>, h: nat)
    requires |free| == NUM && Partition(free, reqs, owner) && h in reqs
    ensures var r := reqs[h];
            && h in owner && r.d1 in owner && r.d2 in owner && owner[h] == h && owner[r.d1] == h && owner[r.d2] == h
            && h < NUM && r.d1 < NUM && r.d2 < NUM && !free[h] && !free[r.d1] && !free[r.d2]
  {
    assert Has(owner, h, h) && Has(owner, h, reqs[h].d1) && Has(owner, h, reqs[h].d2);
  }

  lemma ChainsFrame(free: seq<bool>, desc: seq<Desc>, desc': seq<Desc>, info: seq<Info>, reqs: Reqs,
    owner: map<nat, nat>)
    requires |free| == NUM && |desc| == NUM && |desc'| == NUM && |info| == NUM && Partition(free, reqs, owner) &&
      Chains(desc, info, reqs)
    requires forall i :: 0 <= i < NUM && !free[i] ==> desc'[i] == desc[i]
    ensures Chains(desc', info, reqs)
  {
    hide Partition;
    forall h | h in reqs ensures ChainOf(desc', h, reqs[h]) && info[h].b == Some(reqs[h].b) {
      OwnedDescs(free, reqs, owner, h);
    }
  }

  /** With no request in flight there are free descriptors enough. */
  lemma FreedThree(free: seq<bool>, free': seq<bool>, a: nat, b: nat, c: nat)
    requires |free| == NUM && a < NUM && b < NUM && c < NUM && free' == free[a := true][b := true][c := true]
    ensures |free'| == NUM && forall i :: 0 <= i < NUM ==> free'[i] == (free[i] || i == a || i == b || i == c)
  {
  }

  lemma CoreRoom(free: seq<bool>, desc: seq<Desc>, info: seq<Info>, busy: map<nat, bool>, reqs: Reqs,
    owner: map<nat, nat>, queued: seq<nat>, finished: seq<nat>, next: nat, completed: seq<nat>, a: nat, b: nat, c: nat)
    requires Core(free, desc, info, busy, reqs, owner, queued, finished, next, completed)
    requires a < NUM && b < NUM && c < NUM && a != b && a != c && b != c && free[a] && free[b] && free[c]
    ensures |reqs| < 2
  {
    hide Partition;
    hide Chains;
    FullIsTwo(free, reqs, owner);
  }

  lemma CoreFull(free: seq<bool>, desc: seq<Desc>, desc': seq<Desc>, info: seq<Info>, busy: map<nat, bool>, reqs: Reqs,
    owner: map<nat, nat>, queued: seq<nat>, finished: seq<nat>, next: nat, completed: seq<nat>)
    requires Core(free, desc, info, busy, reqs, owner, queued, finished, next, completed) && |desc'| == NUM
    requires FewFree(free) && forall i :: 0 <= i < NUM && !free[i] ==> desc'[i] == desc[i]
    ensures |reqs| == 2 && Core(free, desc', info, busy, reqs, owner, queued, finished, next, completed)
  {
    hide Partition;
    hide Chains;
    ChainsFrame(free, desc, desc', info, reqs, owner);
    FullIsTwo(free, reqs, owner);
  }

  lemma NewHead(free: seq<bool>, reqs: Reqs, owner: map<nat, nat>, h: nat)
    requires |free| == NUM && Partition(free, reqs, owner) && h < NUM && free[h]
    ensures h !in reqs && h !in owner
  {
    assert forall k :: k in reqs ==> Has(owner, k, k);
  }

  // ---- a request comes ----

  lemma Grown<T>(m: map<nat, T>, k: nat, v: T)
    requires k !in m
    ensures |m[k := v]| == |m| + 1
  {
    var m' := m[k := v];
    assert m'.Keys == m.Keys + {k};
    assert |m'| == |m'.Keys| && |m| == |m.Keys|;
  }

  lemma Shrunk<T>(m: map<nat, T>, k: nat)
    requires k in m
    ensures |m - {k}| == |m| - 1
  {
    var m' := m - {k};
    assert m'.Keys == m.Keys - {k};
    assert |m'| == |m'.Keys| && |m| == |m.Keys|;
  }

  function WithThree(owner: map<nat, nat>, h: nat, d1: nat, d2: nat): map<nat, nat> {
    owner[h := h][d1 := h][d2 := h]
  }

  lemma NewOwners(owner: map<nat, nat>, reqs: Reqs, h: nat, r: Req)
    requires Owners(owner, reqs) && h !in reqs && h !in owner && r.d1 !in owner && r.d2 !in owner
    ensures Owners(WithThree(owner, h, r.d1, r.d2), reqs[h := r])
  {
    var reqs', owner' := reqs[h := r], WithThree(owner, h, r.d1, r.d2);
    forall k | k in reqs' ensures Has(owner', k, k) && Has(owner', k, reqs'[k].d1) && Has(owner', k, reqs'[k].d2) {
      if k != h {
        assert Has(owner, k, k) && Has(owner, k, reqs[k].d1) && Has(owner, k, reqs[k].d2);
      }
    }
    forall i | i in owner' ensures owner'[i] in reqs' && OneOf(owner'[i], reqs'[owner'[i]].d1, reqs'[owner'[i]].d2, i) {
      if i != h && i != r.d1 && i != r.d2 {
        assert owner[i] in reqs;
      }
    }
  }

  lemma NewPartition(free: seq<bool>, free': seq<bool>, reqs: Reqs, owner: map<nat, nat>, h: nat, r: Req)
    requires |free| == NUM && |free'| == NUM && Partition(free, reqs, owner) && h < NUM && r.d1 < NUM && r.d2 < NUM &&
      h != r.d1 && h != r.d2 && r.d1 != r.d2
    requires free[h] && free[r.d1] && free[r.d2] && h !in reqs
    requires forall i :: 0 <= i < NUM ==> free'[i] == (free[i] && i != h && i != r.d1 && i != r.d2)
    ensures Partition(free', reqs[h := r], WithThree(owner, h, r.d1, r.d2))
  {
    hide Owners;
    Grown(owner, h, h);
    Grown(owner[h := h], r.d1, h);
    Grown(owner[h := h][r.d1 := h], r.d2, h);
    Grown(reqs, h, r);
    NewOwners(owner, reqs, h, r);
  }

  lemma NewChains(free: seq<bool>, desc: seq<Desc>, desc': seq<Desc>, info: seq<Info>, info': seq<Info>, reqs: Reqs,
    owner: map<nat, nat>, h: nat, r: Req)
    requires |free| == NUM && |desc| == NUM && |desc'| == NUM && |info| == NUM && |info'| == NUM &&
      Partition(free, reqs, owner) && Chains(desc, info, reqs)
    requires ChainOf(desc', h, r) && info'[h].b == Some(r.b) && free[h] && free[r.d1] && free[r.d2]
    requires forall i :: 0 <= i < NUM && i != h && i != r.d1 && i != r.d2 ==> desc'[i] == desc[i]
    requires forall i :: 0 <= i < NUM && i != h ==> info'[i] == info[i]
    ensures Chains(desc', info', reqs[h := r])
  {
    hide Partition;
    forall k | k in reqs[h := r] ensures ChainOf(desc', k, reqs[h := r][k]) && info'[k].b == Some(reqs[h := r][k].b) {
      if k != h {
        OwnedDescs(free, reqs, owner, k);
        HeadBelow(desc, info, reqs, k);
      }
    }
  }

  lemma NewBuffers(busy: map<nat, bool>, reqs: Reqs, h: nat, r: Req)
    requires Buffers(busy, reqs) && h !in reqs && !r.stage.Done? && forall k :: k in reqs ==> reqs[k].b != r.b
    ensures Buffers(busy[r.b := true], reqs[h := r])
  {
  }

  lemma NewLists(queued: seq<nat>, finished: seq<nat>, reqs: Reqs, h: nat, r: Req)
    requires Lists(queued, reqs, Queued) && Lists(finished, reqs, Finished) && h !in reqs && r.stage.Queued?
    ensures Lists(queued + [h], reqs[h := r], Queued) && Lists(finished, reqs[h := r], Finished)
  {
    var q, reqs' := queued + [h], reqs[h := r];
    assert h in q;
    forall k | k in reqs' && reqs'[k].stage.Queued? ensures k in q {
      assert k != h ==> k in queued;
    }
    forall k | k in reqs' && reqs'[k].stage.Finished? ensures k in finished {
      assert k in reqs;
    }
  }

  lemma NewSerials(reqs: Reqs, next: nat, completed: seq<nat>, h: nat, r: Req)
    requires Serials(reqs, next, completed) && h !in reqs && r.serial == next && !r.stage.Done?
    ensures Serials(reqs[h := r], next + 1, completed)
  {
  }

  // ---- a request goes ----

  function WithoutThree(owner: map<nat, nat>, h: nat, d1: nat, d2: nat): map<nat, nat> {
    owner - {h} - {d1} - {d2}
  }

  lemma OldOwners(owner: map<nat, nat>, reqs: Reqs, h: nat)
    requires Owners(owner, reqs) && h in reqs
    ensures Owners(WithoutThree(owner, h, reqs[h].d1, reqs[h].d2), reqs - {h})
  {
    var r := reqs[h];
    var reqs', owner' := reqs - {h}, WithoutThree(owner, h, r.d1, r.d2);
    assert Has(owner, h, h) && Has(owner, h, r.d1) && Has(owner, h, r.d2);
    forall i | i in owner' ensures owner'[i] in reqs' && OneOf(owner'[i], reqs'[owner'[i]].d1, reqs'[owner'[i]].d2, i) {
      assert owner[i] in reqs && OneOf(owner[i], reqs[owner[i]].d1, reqs[owner[i]].d2, i);
    }
    forall k | k in reqs' ensures Has(owner', k, k) && Has(owner', k, reqs'[k].d1) && Has(owner', k, reqs'[k].d2) {
      assert Has(owner, k, k) && Has(owner, k, reqs[k].d1) && Has(owner, k, reqs[k].d2);
    }
  }

  lemma OldPartition(free: seq<bool>, free': seq<bool>, reqs: Reqs, owner: map<nat, nat>, h: nat)
    requires |free| == NUM && |free'| == NUM && Partition(free, reqs, owner) && h in reqs && h != reqs[h].d1 &&
      h != reqs[h].d2 && reqs[h].d1 != reqs[h].d2
    requires forall i :: 0 <= i < NUM ==> free'[i] == (free[i] || i == h || i == reqs[h].d1 || i == reqs[h].d2)
    ensures Partition(free', reqs - {h}, WithoutThree(owner, h, reqs[h].d1, reqs[h].d2))
  {
    hide Owners;
    var r := reqs[h];
    OwnedDescs(free, reqs, owner, h);
    Shrunk(owner, h);
    Shrunk(owner - {h}, r.d1);
    Shrunk(owner - {h} - {r.d1}, r.d2);
    Shrunk(reqs, h);
    OldOwners(owner, reqs, h);
  }

  lemma OldChains(free: seq<bool>, desc: seq<Desc>, desc': seq<Desc>, info: seq<Info>, info': seq<Info>, reqs: Reqs,
    owner: map<nat, nat>, h: nat)
    requires |free| == NUM && |desc| == NUM && |desc'| == NUM && |info| == NUM && |info'| == NUM &&
      Partition(free, reqs, owner) && Chains(desc, info, reqs) && h in reqs
    requires forall i :: 0 <= i < NUM && i != h && i != reqs[h].d1 && i != reqs[h].d2 ==> desc'[i] == desc[i]
    requires forall i :: 0 <= i < NUM && i != h ==> info'[i] == info[i]
    ensures Chains(desc', info', reqs - {h})
  {
    hide Partition;
    OwnedDescs(free, reqs, owner, h);
    forall k | k in reqs - {h} ensures ChainOf(desc', k, (reqs - {h})[k]) && info'[k].b == Some((reqs - {h})[k].b) {
      OwnedDescs(free, reqs, owner, k);
      HeadBelow(desc, info, reqs, k);
    }
  }

  lemma OldRest(busy: map<nat, bool>, reqs: Reqs, queued: seq<nat>, finished: seq<nat>, next: nat, completed: seq<nat>,
    h: nat)
    requires Buffers(busy, reqs) && Lists(queued, reqs, Queued) && Lists(finished, reqs, Finished) &&
      Serials(reqs, next, completed)
    requires h in reqs && reqs[h].stage.Done?
    ensures Buffers(busy, reqs - {h}) && Lists(queued, reqs - {h}, Queued) && Lists(finished, reqs - {h}, Finished) &&
      Serials(reqs - {h}, next, completed)
  {
  }
}

/**
 The write-ahead log over the buffer cache as an interleaving of small steps.

 Any number of threads get, lock, load and release buffers, and run file system
 operations; the last one out commits.  The machine may crash between any two steps,
 in particular between any two block writes, and again while it recovers.  A block
 write is atomic and a crash keeps nothing but the disk.
 */
module LogProtocol {
  import opened Prelude
  import opened LogFormat
  import opened LogAdmission

  type Tid = OpId

  /**
   A cached block.  `waiting` threads are past bget() and not yet past acquiresleep(); `leaving` threads have
   released the lock in brelse() and not yet given up their reference.
   */
  datatype Buf = Buf(data: Block, valid: bool, refcnt: nat, waiting: nat, leaving: nat, holder: Option<Tid>)

  /** The threads that use a buffer. */
  function Users(buf: Buf): nat {
    buf.waiting + buf.leaving + if buf.holder.Some? then 1 else 0
  }

  /** What the operations have done, in order.  Only specifications look at it. */
  datatype Event = Begun(op: OpId) | Wrote(op: OpId, b: nat, data: Block) | Ended(op: OpId)

  datatype Phase =
    | Booting
    | Replaying(lh: seq<nat>, tail: nat)  // install_trans(1); lh is what read_head() found
    | Running
    | Logging(tail: nat)                  // write_log()
    | Installing(tail: nat)               // install_trans(0)
    | Clearing(recovering: bool)          // lh.n = 0; write_head() to come
    | Finishing                           // commit() has returned

  /**
   `dirty` holds the blocks modified in the cache and not yet passed to log_write(), `pinned` those that
   log_write() has pinned with bpin() and install_trans() has not yet unpinned.  `owner` is the thread that recovers or
   commits.  The home blocks committed so far are those of `base` after the
   first `commitAt` events of `history`.
   */
  datatype State = State(disk: Disk, cache: map<nat, Buf>, adm: Admission, dirty: set<nat>, pinned: set<nat>,
                         phase: Phase, owner: Tid, base: Disk, history: seq<Event>, commitAt: nat)

  function Replay(base: Disk, h: seq<Event>): (r: Disk)
    ensures |r| == |base|
  {
    if h == [] then base
    else
      var d := Replay(base, h[..|h| - 1]);
      match h[|h| - 1]
      case Wrote(_, b, data) => if 0 <= b < |d| then d[b := data] else d
      case _ => d
  }

  function Committed(s: State): Disk
    requires s.commitAt <= |s.history|
  {
    Replay(s.base, s.history[..s.commitAt])
  }

  /** What bread() shows for a block. */
  function Content(s: State, b: nat): Block
    requires 0 <= b < |s.disk|
  {
    if b in s.cache && s.cache[b].valid then s.cache[b].data else s.disk[b]
  }

  predicate Recovering(p: Phase) {
    p.Booting? || p.Replaying? || p == Clearing(true)
  }

  predicate Holds(s: State, t: Tid, b: nat) {
    b in s.cache && s.cache[b].holder == Some(t) && s.cache[b].valid
  }

  predicate MayUseCache(s: State, t: Tid) {
    Recovering(s.phase) ==> t == s.owner
  }

  // ---- steps ----

  datatype Step =
    | Get(t: Tid, b: nat, victim: Option<nat>, junk: Block)
    | Lock(t: Tid, b: nat)
    | Load(t: Tid, b: nat)
    | Release(t: Tid, b: nat)
    | Leave(b: nat)
    | BeginOp(t: Tid)
    | Modify(t: Tid, b: nat, data: Block)
    | LogWrite(t: Tid, b: nat)
    | EndOp(t: Tid)
    | SkipCommit
    | LogBlock
    | WriteHead
    | InstallBlock
    | Erase
    | ClearHead
    | Finish
    | Crash(next: Tid)
    | ReadHead
    | ReplayBlock
    | ReplayDone

  /** bget(): a hit adds a reference; a miss recycles a buffer that nobody references. */
  ghost predicate DoGet(g: Geometry, s: State, t: Tid, b: nat, victim: Option<nat>, junk: Block, s': State)
  {
    && 0 <= b < g.nblocks && MayUseCache(s, t)
    && if b in s.cache then
         s' == s.(cache := s.cache[b := s.cache[b].(refcnt := s.cache[b].refcnt + 1,
           waiting := s.cache[b].waiting + 1)])
       else
         && (victim.None? ==> |s.cache| < NBUF)
         && (victim.Some? ==> victim.value in s.cache && s.cache[victim.value].refcnt == 0)
         && s' == s.(cache := (if victim.None? then s.cache
            else s.cache - {victim.value})[b := Buf(junk, false, 1, 1, 0, None)])
  }

  ghost predicate DoLock(s: State, t: Tid, b: nat, s': State)
  {
    && MayUseCache(s, t) && b in s.cache && s.cache[b].holder.None? && s.cache[b].waiting > 0
    && s' == s.(cache := s.cache[b := s.cache[b].(holder := Some(t), waiting := s.cache[b].waiting - 1)])
  }

  /** bread(): fill a buffer that bget() recycled. */
  ghost predicate DoLoad(g: Geometry, s: State, t: Tid, b: nat, s': State)
  {
    && b in s.cache && s.cache[b].holder == Some(t) && !s.cache[b].valid && 0 <= b < |s.disk|
    && s' == s.(cache := s.cache[b := s.cache[b].(data := s.disk[b], valid := true)])
  }

  /** releasesleep() in brelse(), by a caller that has passed its change to log_write(). */
  ghost predicate DoRelease(s: State, t: Tid, b: nat, s': State)
  {
    && b in s.cache && s.cache[b].holder == Some(t) && b !in s.dirty
    && s' == s.(cache := s.cache[b := s.cache[b].(holder := None, leaving := s.cache[b].leaving + 1)])
  }

  /** The rest of brelse(): refcnt-- under the lock of the cache. */
  ghost predicate DoLeave(s: State, b: nat, s': State)
  {
    && b in s.cache && s.cache[b].leaving > 0 && s.cache[b].refcnt > 0
    && s' == s.(cache := s.cache[b := s.cache[b].(leaving := s.cache[b].leaving - 1, refcnt := s.cache[b].refcnt - 1)])
  }

  ghost predicate DoBegin(s: State, t: Tid, s': State)
  {
    && s.phase.Running? && t !in s.adm.wrote
    && (forall i :: 0 <= i < |s.history| ==> s.history[i].op != t)
    && var r := LogAdmission.BeginOp(s.adm, t);
    && r.Done?
    && s' == s.(adm := r.value, history := s.history + [Begun(t)])
  }

  /** A caller changes b->data while it holds the buffer. */
  ghost predicate DoModify(g: Geometry, s: State, t: Tid, b: nat, data: Block, s': State)
  {
    && s.phase.Running? && t in s.adm.wrote && Holds(s, t, b) && g.Home(b)
    && s' == s.(cache := s.cache[b := s.cache[b].(data := data)], dirty := s.dirty + {b},
                history := s.history + [Wrote(t, b, data)])
  }

  ghost predicate DoLogWrite(g: Geometry, s: State, t: Tid, b: nat, s': State)
    requires g.Valid()
  {
    && s.phase.Running? && t in s.adm.wrote && Holds(s, t, b) && g.Home(b)
    && var r := LogAdmission.LogWrite(g, s.adm, t, b);
    && r.Done?
    && s' == s.(adm := r.value, dirty := s.dirty - {b}, pinned := s.pinned + {b},
                cache := if b in s.adm.lh then s.cache
                         else s.cache[b := s.cache[b].(refcnt := s.cache[b].refcnt + 1)])
  }

  ghost predicate DoEnd(s: State, t: Tid, s': State)
  {
    && s.phase.Running? && t in s.adm.wrote
    && (forall b :: b in s.dirty && b in s.cache ==> s.cache[b].holder != Some(t))
    && var r := LogAdmission.EndOp(s.adm, t);
    && r.Done?
    && s' == s.(adm := r.value, history := s.history + [Ended(t)],
                phase := if r.value.committing then Logging(0) else Running, owner := t)
  }

  ghost predicate DoSkipCommit(s: State, s': State)
  {
    && s.phase == Logging(0) && s.adm.lh == []
    && s' == s.(phase := Finishing, commitAt := |s.history|)
  }

  /** One round of write_log(): copy a logged block from the cache to its slot and write the slot. */
  ghost predicate DoLogBlock(g: Geometry, s: State, s': State)
  {
    && s.phase.Logging? && s.phase.tail < |s.adm.lh|
    && var to, from := g.Slot(s.phase.tail), s.adm.lh[s.phase.tail];
    && to < |s.disk| && Holds(s, s.owner, to) && Holds(s, s.owner, from)
    && var data := s.cache[from].data;
    && s' == s.(cache := s.cache[to := s.cache[to].(data := data)], disk := s.disk[to := data],
                phase := Logging(s.phase.tail + 1))
  }

  /** write_head() after write_log(): the commit point. */
  ghost predicate DoWriteHead(g: Geometry, s: State, s': State)
  {
    && s.phase.Logging? && s.phase.tail == |s.adm.lh| && 0 < |s.adm.lh| <= LOGSIZE
    && g.start < |s.disk| && Holds(s, s.owner, g.start)
    && var hb := PutHead(s.cache[g.start].data, s.adm.lh);
    && s' == s.(cache := s.cache[g.start := s.cache[g.start].(data := hb)], disk := s.disk[g.start := hb],
                phase := Installing(0), commitAt := |s.history|)
  }

  /** One round of install_trans(0): copy a slot to its home, write it, and unpin the buffer. */
  ghost predicate DoInstallBlock(g: Geometry, s: State, s': State)
  {
    && s.phase.Installing? && s.phase.tail < |s.adm.lh|
    && var from, to := g.Slot(s.phase.tail), s.adm.lh[s.phase.tail];
    && 0 <= to < |s.disk| && Holds(s, s.owner, to) && Holds(s, s.owner, from) && s.cache[to].refcnt > 0
    && var data := s.cache[from].data;
    && s' == s.(cache := s.cache[to := s.cache[to].(data := data, refcnt := s.cache[to].refcnt - 1)],
                disk := s.disk[to := data], pinned := s.pinned - {to}, phase := Installing(s.phase.tail + 1))
  }

  ghost predicate DoErase(s: State, s': State)
  {
    && s.phase.Installing? && s.phase.tail == |s.adm.lh|
    && s' == s.(adm := s.adm.(lh := []), phase := Clearing(false))
  }

  ghost predicate DoClearHead(g: Geometry, s: State, s': State)
  {
    && s.phase.Clearing? && g.start < |s.disk| && Holds(s, s.owner, g.start)
    && var hb := PutHead(s.cache[g.start].data, []);
    && s' == s.(cache := s.cache[g.start := s.cache[g.start].(data := hb)], disk := s.disk[g.start := hb],
                phase := if s.phase.recovering then Running else Finishing)
  }

  ghost predicate DoFinish(s: State, s': State)
  {
    && s.phase.Finishing?
    && s' == s.(adm := s.adm.(committing := false), phase := Running)
  }

  ghost predicate DoCrash(s: State, next: Tid, s': State)
  {
    && s.commitAt <= |s.history|
    && s' == State(s.disk, map[], EMPTY, {}, {}, Booting, next, s.base, s.history[..s.commitAt], s.commitAt)
  }

  ghost predicate DoReadHead(g: Geometry, s: State, s': State)
  {
    && s.phase.Booting? && Holds(s, s.owner, g.start)
    && s' == s.(phase := Replaying(HeadOf(s.cache[g.start].data), 0))
  }

  /** One round of install_trans(1). */
  ghost predicate DoReplayBlock(g: Geometry, s: State, s': State)
  {
    && s.phase.Replaying? && s.phase.tail < |s.phase.lh|
    && var from, to := g.Slot(s.phase.tail), s.phase.lh[s.phase.tail];
    && 0 <= to < |s.disk| && Holds(s, s.owner, to) && Holds(s, s.owner, from)
    && var data := s.cache[from].data;
    && s' == s.(cache := s.cache[to := s.cache[to].(data := data)], disk := s.disk[to := data],
                phase := Replaying(s.phase.lh, s.phase.tail + 1))
  }

  ghost predicate DoReplayDone(s: State, s': State)
  {
    && s.phase.Replaying? && s.phase.tail == |s.phase.lh|
    && s' == s.(phase := Clearing(true))
  }

  ghost predicate NextStep(g: Geometry, s: State, step: Step, s': State)
    requires g.Valid()
  {
    match step
    case Get(t, b, victim, junk) => DoGet(g, s, t, b, victim, junk, s')
    case Lock(t, b) => DoLock(s, t, b, s')
    case Load(t, b) => DoLoad(g, s, t, b, s')
    case Release(t, b) => DoRelease(s, t, b, s')
    case Leave(b) => DoLeave(s, b, s')
    case BeginOp(t) => DoBegin(s, t, s')
    case Modify(t, b, data) => DoModify(g, s, t, b, data, s')
    case LogWrite(t, b) => DoLogWrite(g, s, t, b, s')
    case EndOp(t) => DoEnd(s, t, s')
    case SkipCommit => DoSkipCommit(s, s')
    case LogBlock => DoLogBlock(g, s, s')
    case WriteHead => DoWriteHead(g, s, s')
    case InstallBlock => DoInstallBlock(g, s, s')
    case Erase => DoErase(s, s')
    case ClearHead => DoClearHead(g, s, s')
    case Finish => DoFinish(s, s')
    case Crash(next) => DoCrash(s, next, s')
    case ReadHead => DoReadHead(g, s, s')
    case ReplayBlock => DoReplayBlock(g, s, s')
    case ReplayDone => DoReplayDone(s, s')
  }

  ghost predicate Next(g: Geometry, s: State, s': State)
    requires g.Valid()
  {
    exists step :: NextStep(g, s, step, s')
  }

  /** Power-on, with any disk that stands for some home contents. */
  ghost predicate Init(g: Geometry, s: State)
    requires g.Valid()
  {
    && RecoversTo(g, s.disk, s.base)
    && s.cache == map[] && s.adm == EMPTY && s.dirty == {} && s.pinned == {} && s.phase == Booting
    && s.history == [] && s.commitAt == 0
  }

  ghost predicate IsRun(g: Geometry, run: seq<State>)
    requires g.Valid()
  {
    && |run| > 0 && Init(g, run[0])
    && forall i :: 0 <= i < |run| - 1 ==> Next(g, run[i], run[i + 1])
  }

  // ---- the invariant ----

  ghost predicate Shape(g: Geometry, s: State)
    requires g.Valid()
  {
    && |s.disk| == |s.base| == g.nblocks
    && (forall b :: b in s.cache ==> 0 <= b < g.nblocks)
    && ValidHead(g, s.adm.lh)
    && s.commitAt <= |s.history|
    && (forall i :: 0 <= i < |s.history| && s.history[i].Wrote? ==> g.Home(s.history[i].b))
  }

  /** A buffer's reference count is its users and its pin. */
  ghost predicate Counted(s: State)
  {
    forall b :: b in s.cache ==>
      s.cache[b].refcnt == Users(s.cache[b]) + (if b in s.pinned then 1 else 0)
  }

  ghost predicate PinsCached(s: State)
  {
    forall b :: b in s.pinned ==> b in s.cache && s.cache[b].valid
  }

  /** Which logged blocks are pinned, phase by phase. */
  ghost predicate PinsMatch(s: State)
  {
    match s.phase
    case Running => forall b :: b in s.pinned <==> b in s.adm.lh
    case Logging(_) => forall b :: b in s.pinned <==> b in s.adm.lh
    case Installing(tail) =>
      && (forall b :: b in s.pinned ==> b in s.adm.lh)
      && (forall i :: 0 <= i < |s.adm.lh| ==> (s.adm.lh[i] in s.pinned <==> i >= tail))
    case _ => s.pinned == {}
  }

  ghost predicate DirtyHeld(g: Geometry, s: State)
  {
    forall b :: b in s.dirty ==>
      g.Home(b) && b in s.cache && s.cache[b].valid && s.cache[b].holder.Some? && s.cache[b].holder.value in s.adm.wrote
  }

  /** A valid buffer that is neither pinned nor being modified agrees with the disk. */
  ghost predicate Coherent(g: Geometry, s: State)
    requires g.Valid() && Shape(g, s)
  {
    forall b :: b in s.cache && s.cache[b].valid && b !in s.pinned && b !in s.dirty ==> s.cache[b].data == s.disk[b]
  }

  ghost predicate Durable(g: Geometry, s: State)
    requires g.Valid() && Shape(g, s)
  {
    RecoversTo(g, s.disk, Committed(s))
  }

  /** Once recovery is over, every home block reads as the effect of the whole history. */
  ghost predicate Latest(g: Geometry, s: State)
    requires g.Valid() && Shape(g, s)
  {
    !Recovering(s.phase) ==> forall b :: g.Home(b) ==> Content(s, b) == Replay(s.base, s.history)[b]
  }

  /** Committed events belong to operations that are over, and none of their events come later. */
  ghost predicate Whole(s: State)
    requires s.commitAt <= |s.history|
  {
    && (forall i, j :: 0 <= i < s.commitAt <= j < |s.history| ==> s.history[i].op != s.history[j].op)
    && (forall i :: 0 <= i < s.commitAt ==> s.history[i].op !in s.adm.wrote)
    && (forall i :: 0 <= i < |s.history| ==> s.history[i].op in s.adm.wrote || Ended(s.history[i].op) in s.history)
    && (forall i :: 0 <= i < s.commitAt ==> Ended(s.history[i].op) in s.history[..s.commitAt])
  }

  ghost predicate Idle(s: State) {
    s.adm.wrote == map[] && s.dirty == {}
  }

  ghost predicate PhaseInv(g: Geometry, s: State)
    requires g.Valid() && Shape(g, s)
  {
    match s.phase
    case Booting => s.adm == EMPTY && s.dirty == {} && s.commitAt == |s.history|
    case Replaying(lh, tail) =>
      && s.adm == EMPTY && s.dirty == {} && s.commitAt == |s.history|
      && lh == HeadOf(s.disk[g.start]) && tail <= |lh| && ValidHead(g, lh)
      && (forall i :: 0 <= i < tail ==> s.disk[lh[i]] == Committed(s)[lh[i]])
    case Clearing(recovering) =>
      && s.adm.wrote == map[] && s.adm.lh == [] && s.dirty == {} && s.commitAt == |s.history|
      && s.adm.committing == !recovering
      && (forall b :: g.Home(b) ==> s.disk[b] == Committed(s)[b])
    case Running =>
      && !s.adm.committing && HeadOf(s.disk[g.start]) == []
      && (s.adm.wrote == map[] ==> s.commitAt == |s.history| && s.adm.lh == [])
    case Logging(tail) =>
      && s.adm.committing && Idle(s) && HeadOf(s.disk[g.start]) == [] && tail <= |s.adm.lh|
      && (forall i :: 0 <= i < tail ==> s.adm.lh[i] in s.cache && s.disk[g.Slot(i)] == s.cache[s.adm.lh[i]].data)
    case Installing(tail) =>
      && s.adm.committing && Idle(s) && s.commitAt == |s.history|
      && HeadOf(s.disk[g.start]) == s.adm.lh && tail <= |s.adm.lh|
    case Finishing =>
      && s.adm.committing && Idle(s) && s.adm.lh == [] && s.commitAt == |s.history|
      && HeadOf(s.disk[g.start]) == []
  }

  ghost predicate CacheInv(g: Geometry, s: State)
    requires g.Valid()
  {
    Shape(g, s) && Counted(s) && PinsMatch(s) && PinsCached(s) && DirtyHeld(g, s) && Coherent(g, s)
  }

  ghost predicate DataInv(g: Geometry, s: State)
    requires g.Valid()
  {
    Shape(g, s) && Durable(g, s) && Latest(g, s) && Whole(s) && PhaseInv(g, s)
  }

  ghost predicate Inv(g: Geometry, s: State)
    requires g.Valid()
  {
    CacheInv(g, s) && DataInv(g, s)
  }

  // ---- every step keeps the invariant ----

  lemma ReplayAppend(base: Disk, h: seq<Event>, e: Event)
    ensures Replay(base, h + [e]) == match e
                                     case Wrote(_, b, data) =>
                                       if 0 <= b < |base| then Replay(base, h)[b := data] else Replay(base, h)
                                     case _ => Replay(base, h)
  {
    assert (h + [e])[..|h|] == h;
  }

  /** A buffer that bget() may recycle is neither pinned nor held. */
  lemma UnreferencedIsFree(g: Geometry, s: State, v: nat)
    requires Counted(s) && DirtyHeld(g, s) && v in s.cache && s.cache[v].refcnt == 0
    ensures v !in s.pinned && v !in s.dirty && s.cache[v].holder.None?
  {
    var buf := s.cache[v];
    assert buf.refcnt == Users(buf) + (if v in s.pinned then 1 else 0);
  }

  /** Only the cache changes, and what it shows stays the same. */
  ghost predicate SameView(g: Geometry, s: State, s': State)
    requires g.Valid() && Shape(g, s)
  {
    && s' == s.(cache := s'.cache)
    && (forall b :: b in s'.cache ==> 0 <= b < g.nblocks)
    && (forall b :: 0 <= b < g.nblocks ==> Content(s', b) == Content(s, b))
    && (forall b :: b in s.pinned ==> b in s.cache && b in s'.cache && s'.cache[b].data == s.cache[b].data)
  }

  lemma SameViewKeepsData(g: Geometry, s: State, s': State)
    requires g.Valid() && DataInv(g, s) && PinsMatch(s) && PinsCached(s) && SameView(g, s, s')
    ensures DataInv(g, s')
  {
    assert Committed(s') == Committed(s);
  }

  lemma CacheOnly(g: Geometry, s: State, s': State)
    requires g.Valid() && Shape(g, s) && PinsMatch(s) && s' == s.(cache := s'.cache) && forall b :: b in s'.cache ==>
      0 <= b < g.nblocks
    ensures Shape(g, s') && PinsMatch(s')
  {
    hide ValidHead;
  }

  lemma TouchCounted(s: State, b: nat, buf: Buf, s': State)
    requires Counted(s) && b in s.cache && s' == s.(cache := s.cache[b := buf]) &&
      buf.refcnt == Users(buf) + (if b in s.pinned then 1 else 0)
    ensures Counted(s')
  {
    hide Users;
  }

  lemma TouchView(g: Geometry, s: State, b: nat, buf: Buf, s': State)
    requires g.Valid() && Shape(g, s) && PinsCached(s) && b in s.cache && s' == s.(cache := s.cache[b := buf]) &&
      Shape(g, s')
    requires buf.data == s.cache[b].data && buf.valid == s.cache[b].valid
    ensures SameView(g, s, s') && PinsCached(s') && (Coherent(g, s) ==> Coherent(g, s'))
  {
    hide ValidHead;
  }

  /** Changing how a buffer is referenced, with a count that still adds up, shows the same data. */
  lemma TouchKeeps(g: Geometry, s: State, b: nat, buf: Buf, s': State)
    requires g.Valid() && CacheInv(g, s) && b in s.cache && s' == s.(cache := s.cache[b := buf])
    requires buf.data == s.cache[b].data && buf.valid == s.cache[b].valid
    requires b in s.dirty ==> buf.holder == s.cache[b].holder
    requires buf.refcnt == Users(buf) + (if b in s.pinned then 1 else 0)
    ensures CacheInv(g, s') && SameView(g, s, s')
  {
    hide ValidHead;
    hide Replay;
    hide PinsMatch;
    hide Counted;
    hide Users;
    hide SameView;
    hide PinsCached;
    hide Coherent;
    CacheOnly(g, s, s');
    TouchCounted(s, b, buf, s');
    TouchView(g, s, b, buf, s');
  }

  lemma EvictKeeps(g: Geometry, s: State, v: nat, s': State)
    requires g.Valid() && CacheInv(g, s) && v in s.cache && s.cache[v].refcnt == 0 && s' == s.(cache := s.cache - {v})
    ensures CacheInv(g, s') && SameView(g, s, s')
  {
    hide ValidHead;
    hide Replay;
    hide PinsMatch;
    CacheOnly(g, s, s');
    UnreferencedIsFree(g, s, v);
    assert s.cache[v].valid ==> s.cache[v].data == s.disk[v];
  }

  lemma InsertKeeps(g: Geometry, s: State, b: nat, junk: Block, s': State)
    requires g.Valid() && CacheInv(g, s) && b !in s.cache && b < g.nblocks
    requires s' == s.(cache := s.cache[b := Buf(junk, false, 1, 1, 0, None)])
    ensures CacheInv(g, s') && SameView(g, s, s')
  {
    hide ValidHead;
    hide Replay;
    hide PinsMatch;
    CacheOnly(g, s, s');
    assert b !in s.pinned;
  }

  lemma GetKeeps(g: Geometry, s: State, t: Tid, b: nat, victim: Option<nat>, junk: Block, s': State)
    requires g.Valid() && CacheInv(g, s) && DoGet(g, s, t, b, victim, junk, s')
    ensures CacheInv(g, s') && SameView(g, s, s')
  {
    if b in s.cache {
      var buf := s.cache[b];
      assert buf.refcnt == Users(buf) + (if b in s.pinned then 1 else 0);
      TouchKeeps(g, s, b, buf.(refcnt := buf.refcnt + 1, waiting := buf.waiting + 1), s');
    } else if victim.None? {
      InsertKeeps(g, s, b, junk, s');
    } else {
      var mid := s.(cache := s.cache - {victim.value});
      EvictKeeps(g, s, victim.value, mid);
      InsertKeeps(g, mid, b, junk, s');
    }
  }

  lemma LockKeeps(g: Geometry, s: State, t: Tid, b: nat, s': State)
    requires g.Valid() && CacheInv(g, s) && DoLock(s, t, b, s')
    ensures CacheInv(g, s') && SameView(g, s, s')
  {
    TouchKeeps(g, s, b, s'.cache[b], s');
  }

  lemma LoadKeeps(g: Geometry, s: State, t: Tid, b: nat, s': State)
    requires g.Valid() && CacheInv(g, s) && DoLoad(g, s, t, b, s')
    ensures CacheInv(g, s') && SameView(g, s, s')
  {
    hide ValidHead;
    hide Replay;
    hide PinsMatch;
    CacheOnly(g, s, s');
  }

  lemma LeaveKeeps(g: Geometry, s: State, b: nat, s': State)
    requires g.Valid() && CacheInv(g, s) && DoLeave(s, b, s')
    ensures CacheInv(g, s') && SameView(g, s, s')
  {
    TouchKeeps(g, s, b, s'.cache[b], s');
  }

  lemma ReleaseKeeps(g: Geometry, s: State, t: Tid, b: nat, s': State)
    requires g.Valid() && CacheInv(g, s) && DoRelease(s, t, b, s')
    ensures CacheInv(g, s') && SameView(g, s, s')
  {
    TouchKeeps(g, s, b, s'.cache[b], s');
  }

  /** Appending an event of an operation that has nothing committed keeps operations whole. */
  lemma AppendKeepsWhole(s: State, e: Event, s': State)
    requires s.commitAt <= |s.history| && Whole(s)
    requires s'.history == s.history + [e] && s'.commitAt == s.commitAt
    requires forall i :: 0 <= i < s.commitAt ==> s.history[i].op != e.op
    requires e.Ended? || e.op in s'.adm.wrote
    requires forall op :: op in s.adm.wrote && op != e.op ==> op in s'.adm.wrote
    requires forall op :: op in s'.adm.wrote ==> op in s.adm.wrote || op == e.op
    ensures Whole(s')
  {
    assert s'.history[..s'.commitAt] == s.history[..s.commitAt];
    assert forall i :: 0 <= i < |s.history| ==> s'.history[i] == s.history[i];
    assert s'.history[|s.history|] == e;
    assert forall x :: x in s.history ==> x in s'.history;
  }

  lemma BeginKeepsCache(g: Geometry, s: State, t: Tid, s': State)
    requires g.Valid() && CacheInv(g, s) && DoBegin(s, t, s')
    ensures CacheInv(g, s')
  {
  }

  lemma BeginKeepsData(g: Geometry, s: State, t: Tid, s': State)
    requires g.Valid() && DataInv(g, s) && DoBegin(s, t, s')
    ensures DataInv(g, s')
  {
    ReplayAppend(s.base, s.history, Begun(t));
    AppendKeepsWhole(s, Begun(t), s');
    assert s'.history[..s'.commitAt] == s.history[..s.commitAt];
    assert forall b :: g.Home(b) ==> Content(s', b) == Content(s, b);
    assert t in s'.adm.wrote;
  }

  lemma ModifyKeepsLatest(g: Geometry, s: State, t: Tid, b: nat, data: Block, s': State)
    requires g.Valid() && Shape(g, s) && Latest(g, s) && DoModify(g, s, t, b, data, s')
    ensures Shape(g, s') && Latest(g, s')
  {
    ReplayAppend(s.base, s.history, Wrote(t, b, data));
    forall x | g.Home(x) ensures Content(s', x) == Replay(s'.base, s'.history)[x] {
      assert x != b ==> Content(s', x) == Content(s, x);
    }
  }

  lemma ModifyKeeps(g: Geometry, s: State, t: Tid, b: nat, data: Block, s': State)
    requires g.Valid() && Inv(g, s) && DoModify(g, s, t, b, data, s')
    ensures Inv(g, s')
  {
    ModifyKeepsLatest(g, s, t, b, data, s');
    AppendKeepsWhole(s, Wrote(t, b, data), s');
    assert s'.history[..s'.commitAt] == s.history[..s.commitAt];
  }

  lemma LogWriteKeepsCache(g: Geometry, s: State, t: Tid, b: nat, s': State)
    requires g.Valid() && Inv(g, s) && DoLogWrite(g, s, t, b, s')
    ensures CacheInv(g, s')
  {
    assert s'.adm.lh == if b in s.adm.lh then s.adm.lh else s.adm.lh + [b];
  }

  lemma LogWriteKeepsInv(g: Geometry, s: State, t: Tid, b: nat, s': State)
    requires g.Valid() && Inv(g, s) && DoLogWrite(g, s, t, b, s')
    ensures Inv(g, s')
  {
    LogWriteKeepsCache(g, s, t, b, s');
    assert Committed(s') == Committed(s);
    assert s'.adm.wrote.Keys == s.adm.wrote.Keys;
    assert forall x :: g.Home(x) ==> Content(s', x) == Content(s, x);
  }

  lemma EndKeepsCache(g: Geometry, s: State, t: Tid, s': State)
    requires g.Valid() && CacheInv(g, s) && DoEnd(s, t, s')
    ensures CacheInv(g, s')
  {
  }

  lemma EndKeepsInv(g: Geometry, s: State, t: Tid, s': State)
    requires g.Valid() && Inv(g, s) && DoEnd(s, t, s')
    ensures Inv(g, s')
  {
    EndKeepsCache(g, s, t, s');
    ReplayAppend(s.base, s.history, Ended(t));
    AppendKeepsWhole(s, Ended(t), s');
    assert s'.history[..s'.commitAt] == s.history[..s.commitAt];
    LastOut(s.adm.wrote, t);
    if s'.adm.committing {
      LastOutClean(g, s, t);
    }
    assert forall b :: g.Home(b) ==> Content(s', b) == Content(s, b);
  }

  lemma LastOut(wrote: map<OpId, set<nat>>, t: Tid)
    requires t in wrote
    ensures |wrote| == 1 <==> wrote - {t} == map[]
  {
    assert (wrote - {t}).Keys == wrote.Keys - {t};
    assert |wrote.Keys| == |wrote.Keys - {t}| + 1;
  }

  lemma LastOutClean(g: Geometry, s: State, t: Tid)
    requires DirtyHeld(g, s) && s.adm.wrote - {t} == map[]
    requires forall b :: b in s.dirty && b in s.cache ==> s.cache[b].holder != Some(t)
    ensures s.dirty == {}
  {
    assert forall op :: op in s.adm.wrote ==> op == t || op in s.adm.wrote - {t};
    assert forall b :: b in s.dirty ==> false;
  }

  lemma NoPins(s: State)
    requires PinsMatch(s)
    requires (s.phase.Logging? && s.adm.lh == []) || (s.phase.Installing? && s.phase.tail == |s.adm.lh|)
    ensures s.pinned == {}
  {
    assert forall b :: b in s.pinned ==> b in s.adm.lh;
  }

  lemma SkipCommitKeeps(g: Geometry, s: State, s': State)
    requires g.Valid() && Inv(g, s) && DoSkipCommit(s, s')
    ensures Inv(g, s')
  {
    assert s'.history[..s'.commitAt] == s.history;
    NoPins(s);
    assert forall b :: g.Home(b) ==> s.disk[b] == Content(s, b);
  }

  lemma LogBlockKeepsDurable(g: Geometry, s: State, s': State)
    requires g.Valid() && Inv(g, s) && DoLogBlock(g, s, s')
    ensures Shape(g, s') && Durable(g, s') && s'.disk[g.start] == s.disk[g.start]
  {
    assert Committed(s') == Committed(s);
    SlotWriteHarmless(g, s.disk, Committed(s), s.phase.tail, s.cache[s.adm.lh[s.phase.tail]].data);
  }

  lemma LogBlockKeepsPhase(g: Geometry, s: State, s': State)
    requires g.Valid() && Shape(g, s) && PhaseInv(g, s) && PinsMatch(s) && PinsCached(s) && DoLogBlock(g, s, s')
    requires Shape(g, s') && s'.disk[g.start] == s.disk[g.start]
    ensures PhaseInv(g, s')
  {
    assert g.Slot(s.phase.tail) !in s.adm.lh;
  }

  lemma WholeSame(s: State, s': State)
    requires s.commitAt <= |s.history| && Whole(s) && s'.history == s.history && s'.commitAt == s.commitAt &&
      s'.adm.wrote == s.adm.wrote
    ensures Whole(s')
  {
  }

  lemma LogBlockView(g: Geometry, s: State, s': State)
    requires g.Valid() && Inv(g, s) && DoLogBlock(g, s, s') && Shape(g, s')
    ensures forall b :: g.Home(b) ==> Content(s', b) == Content(s, b)
  {
    hide RecoversTo;
    hide Whole;
    hide Replay;
    hide Coherent;
    hide Counted;
  }

  lemma LogBlockKeepsData(g: Geometry, s: State, s': State)
    requires g.Valid() && Inv(g, s) && DoLogBlock(g, s, s')
    ensures DataInv(g, s')
  {
    hide ValidHead;
    hide RecoversTo;
    hide Whole;
    hide PhaseInv;
    hide Coherent;
    hide DirtyHeld;
    hide Counted;
    LogBlockKeepsDurable(g, s, s');
    LogBlockKeepsPhase(g, s, s');
    LogBlockView(g, s, s');
    WholeSame(s, s');
  }

  lemma LogBlockKeepsCache(g: Geometry, s: State, s': State)
    requires g.Valid() && CacheInv(g, s) && PhaseInv(g, s) && DoLogBlock(g, s, s')
    ensures CacheInv(g, s')
  {
    assert !g.Home(g.Slot(s.phase.tail));
  }

  lemma LogBlockKeeps(g: Geometry, s: State, s': State)
    requires g.Valid() && Inv(g, s) && DoLogBlock(g, s, s')
    ensures Inv(g, s')
  {
    LogBlockKeepsData(g, s, s');
    LogBlockKeepsCache(g, s, s');
  }

  /** The header write makes the disk stand for everything done so far. */
  lemma WriteHeadCommits(g: Geometry, s: State, s': State)
    requires g.Valid() && Shape(g, s) && Coherent(g, s) && PinsMatch(s) && PinsCached(s) && Latest(g, s) &&
      PhaseInv(g, s)
    requires DoWriteHead(g, s, s')
    ensures Shape(g, s') && Durable(g, s') && s'.history[..s'.commitAt] == s.history
    ensures HeadOf(s'.disk[g.start]) == s.adm.lh
  {
    var lh, all := s.adm.lh, Replay(s.base, s.history);
    assert s'.history[..s'.commitAt] == s.history;
    assert s.cache[g.start].data == s.disk[g.start];
    forall b | g.Home(b) && b !in lh ensures s.disk[b] == all[b] {
      assert Content(s, b) == s.disk[b];
    }
    forall i | 0 <= i < |lh| ensures s.disk[g.Slot(i)] == all[lh[i]] {
      assert Content(s, lh[i]) == s.cache[lh[i]].data;
    }
    HeadWriteCommits(g, s.disk, all, lh);
    HeadRoundTrip(s.disk[g.start], lh);
  }

  lemma WriteHeadKeeps(g: Geometry, s: State, s': State)
    requires g.Valid() && Inv(g, s) && DoWriteHead(g, s, s')
    ensures Inv(g, s')
  {
    WriteHeadCommits(g, s, s');
    assert forall b :: g.Home(b) ==> Content(s', b) == Content(s, b);
  }

  /** Installing a block writes what the cache and the log already agree on. */
  lemma InstallCopiesSame(g: Geometry, s: State, s': State)
    requires g.Valid() && Shape(g, s) && Coherent(g, s) && PinsMatch(s) && PinsCached(s) && Latest(g, s) &&
      PhaseInv(g, s) && Durable(g, s)
    requires DoInstallBlock(g, s, s')
    ensures var from, to := g.Slot(s.phase.tail), s.adm.lh[s.phase.tail];
            s.cache[from].data == s.disk[from] == Committed(s)[to] == s.cache[to].data
    ensures s.adm.lh[s.phase.tail] in s.pinned
  {
    var lh, tail := s.adm.lh, s.phase.tail;
    var from, to := g.Slot(tail), lh[tail];
    assert !g.Home(from);
    assert from !in s.dirty && from !in s.pinned;
    assert s.history[..s.commitAt] == s.history;
    assert Content(s, to) == Replay(s.base, s.history)[to];
  }

  lemma InstallKeepsCache(g: Geometry, s: State, s': State)
    requires g.Valid() && Inv(g, s) && DoInstallBlock(g, s, s')
    ensures CacheInv(g, s')
  {
    InstallCopiesSame(g, s, s');
    InstallKeepsCounts(g, s, s');
  }

  lemma InstallKeepsCounts(g: Geometry, s: State, s': State)
    requires g.Valid() && Shape(g, s) && PhaseInv(g, s) && Counted(s) && PinsMatch(s) && DoInstallBlock(g, s, s')
    ensures Counted(s') && PinsMatch(s')
  {
  }

  lemma InstallKeepsDurable(g: Geometry, s: State, s': State)
    requires g.Valid() && Inv(g, s) && DoInstallBlock(g, s, s')
    ensures Shape(g, s') && Durable(g, s') && s'.disk[g.start] == s.disk[g.start]
  {
    InstallCopiesSame(g, s, s');
    InstallHarmless(g, s.disk, Committed(s), s.phase.tail);
  }

  lemma InstallKeepsLatest(g: Geometry, s: State, s': State)
    requires g.Valid() && Inv(g, s) && DoInstallBlock(g, s, s') && Shape(g, s')
    ensures Latest(g, s')
  {
    InstallCopiesSame(g, s, s');
    assert forall b :: g.Home(b) ==> Content(s', b) == Content(s, b);
  }

  lemma InstallBlockKeeps(g: Geometry, s: State, s': State)
    requires g.Valid() && Inv(g, s) && DoInstallBlock(g, s, s')
    ensures Inv(g, s')
  {
    InstallKeepsDurable(g, s, s');
    InstallKeepsLatest(g, s, s');
    InstallKeepsCache(g, s, s');
  }

  lemma EraseKeeps(g: Geometry, s: State, s': State)
    requires g.Valid() && Inv(g, s) && DoErase(s, s')
    ensures Inv(g, s')
  {
    assert Committed(s') == Committed(s);
    assert s.history[..s.commitAt] == s.history;
    NoPins(s);
    assert forall b :: g.Home(b) ==> s.disk[b] == Content(s, b);
  }

  lemma ClearHeadKeepsCache(g: Geometry, s: State, s': State)
    requires g.Valid() && CacheInv(g, s) && PhaseInv(g, s) && DoClearHead(g, s, s')
    ensures CacheInv(g, s') && s.cache[g.start].data == s.disk[g.start]
  {
  }

  lemma ClearHeadKeeps(g: Geometry, s: State, s': State)
    requires g.Valid() && Inv(g, s) && DoClearHead(g, s, s')
    ensures Inv(g, s')
  {
    ClearHeadKeepsCache(g, s, s');
    assert Committed(s') == Committed(s);
    assert s.history[..s.commitAt] == s.history;
    ClearHarmless(g, s.disk, Committed(s));
    HeadRoundTrip(s.disk[g.start], []);
    assert forall b :: g.Home(b) ==> Content(s, b) == s.disk[b];
  }

  lemma FinishKeeps(g: Geometry, s: State, s': State)
    requires g.Valid() && Inv(g, s) && DoFinish(s, s')
    ensures Inv(g, s')
  {
    assert Committed(s') == Committed(s);
  }

  lemma CrashKeeps(g: Geometry, s: State, next: Tid, s': State)
    requires g.Valid() && Inv(g, s) && DoCrash(s, next, s')
    ensures Inv(g, s')
  {
    assert s'.history[..s'.commitAt] == s.history[..s.commitAt];
  }

  lemma ReadHeadKeeps(g: Geometry, s: State, s': State)
    requires g.Valid() && Inv(g, s) && DoReadHead(g, s, s')
    ensures Inv(g, s')
  {
    assert Committed(s') == Committed(s);
  }

  lemma ReplayCopies(g: Geometry, s: State, s': State)
    requires g.Valid() && Inv(g, s) && DoReplayBlock(g, s, s')
    ensures Shape(g, s') && Durable(g, s') && s'.disk[g.start] == s.disk[g.start]
    ensures s'.disk == s.disk[s.phase.lh[s.phase.tail] := Committed(s)[s.phase.lh[s.phase.tail]]]
  {
    assert Committed(s') == Committed(s);
    assert s.cache[g.Slot(s.phase.tail)].data == s.disk[g.Slot(s.phase.tail)];
    InstallHarmless(g, s.disk, Committed(s), s.phase.tail);
  }

  lemma ReplayKeepsPhase(g: Geometry, s: State, s': State)
    requires g.Valid() && Shape(g, s) && Shape(g, s') && PhaseInv(g, s) && DoReplayBlock(g, s, s')
    requires s'.disk[g.start] == s.disk[g.start]
    requires s'.disk == s.disk[s.phase.lh[s.phase.tail] := Committed(s)[s.phase.lh[s.phase.tail]]]
    ensures PhaseInv(g, s')
  {
    assert Committed(s') == Committed(s);
  }

  lemma ReplayBlockKeeps(g: Geometry, s: State, s': State)
    requires g.Valid() && Inv(g, s) && DoReplayBlock(g, s, s')
    ensures Inv(g, s')
  {
    ReplayCopies(g, s, s');
    ReplayKeepsCache(g, s, s');
    ReplayKeepsPhase(g, s, s');
  }

  lemma ReplayKeepsCache(g: Geometry, s: State, s': State)
    requires g.Valid() && CacheInv(g, s) && s.adm == EMPTY && s.dirty == {} && DoReplayBlock(g, s, s') && Shape(g, s')
    ensures CacheInv(g, s')
  {
  }

  lemma ReplayDoneKeeps(g: Geometry, s: State, s': State)
    requires g.Valid() && Inv(g, s) && DoReplayDone(s, s')
    ensures Inv(g, s')
  {
    var lh := s.phase.lh;
    assert Committed(s') == Committed(s);
    forall b | g.Home(b) ensures s.disk[b] == Committed(s)[b] {
      if b in lh {
        var i :| 0 <= i < |lh| && lh[i] == b;
      }
    }
  }

  lemma CacheStepKeeps(g: Geometry, s: State, step: Step, s': State)
    requires g.Valid() && Inv(g, s) && NextStep(g, s, step, s')
    requires step.Get? || step.Lock? || step.Load? || step.Release? || step.Leave?
    ensures Inv(g, s')
  {
    match step {
      case Get(t, b, victim, junk) => GetKeeps(g, s, t, b, victim, junk, s');
      case Lock(t, b) => LockKeeps(g, s, t, b, s');
      case Load(t, b) => LoadKeeps(g, s, t, b, s');
      case Release(t, b) => ReleaseKeeps(g, s, t, b, s');
      case Leave(b) => LeaveKeeps(g, s, b, s');
    }
    SameViewKeepsData(g, s, s');
  }

  lemma OpStepKeeps(g: Geometry, s: State, step: Step, s': State)
    requires g.Valid() && Inv(g, s) && NextStep(g, s, step, s')
    requires step.BeginOp? || step.Modify? || step.LogWrite? || step.EndOp?
    ensures Inv(g, s')
  {
    match step {
      case BeginOp(t) =>
        BeginKeepsCache(g, s, t, s');
        BeginKeepsData(g, s, t, s');
      case Modify(t, b, data) => ModifyKeeps(g, s, t, b, data, s');
      case LogWrite(t, b) => LogWriteKeepsInv(g, s, t, b, s');
      case EndOp(t) => EndKeepsInv(g, s, t, s');
    }
  }

  lemma CommitStepKeeps(g: Geometry, s: State, step: Step, s': State)
    requires g.Valid() && Inv(g, s) && NextStep(g, s, step, s')
    requires step.SkipCommit? || step.LogBlock? || step.WriteHead? || step.InstallBlock? || step.Erase?
    ensures Inv(g, s')
  {
    match step {
      case SkipCommit => SkipCommitKeeps(g, s, s');
      case LogBlock => LogBlockKeeps(g, s, s');
      case WriteHead => WriteHeadKeeps(g, s, s');
      case InstallBlock => InstallBlockKeeps(g, s, s');
      case Erase => EraseKeeps(g, s, s');
    }
  }

  lemma RecoverStepKeeps(g: Geometry, s: State, step: Step, s': State)
    requires g.Valid() && Inv(g, s) && NextStep(g, s, step, s')
    requires step.ClearHead? || step.Finish? || step.Crash? || step.ReadHead? || step.ReplayBlock? || step.ReplayDone?
    ensures Inv(g, s')
  {
    match step {
      case ClearHead => ClearHeadKeeps(g, s, s');
      case Finish => FinishKeeps(g, s, s');
      case Crash(next) => CrashKeeps(g, s, next, s');
      case ReadHead => ReadHeadKeeps(g, s, s');
      case ReplayBlock => ReplayBlockKeeps(g, s, s');
      case ReplayDone => ReplayDoneKeeps(g, s, s');
    }
  }

  lemma NextKeepsInv(g: Geometry, s: State, step: Step, s': State)
    requires g.Valid() && Inv(g, s) && NextStep(g, s, step, s')
    ensures Inv(g, s')
  {
    if step.Get? || step.Lock? || step.Load? || step.Release? || step.Leave? {
      CacheStepKeeps(g, s, step, s');
    } else if step.BeginOp? || step.Modify? || step.LogWrite? || step.EndOp? {
      OpStepKeeps(g, s, step, s');
    } else if step.SkipCommit? || step.LogBlock? || step.WriteHead? || step.InstallBlock? || step.Erase? {
      CommitStepKeeps(g, s, step, s');
    } else {
      RecoverStepKeeps(g, s, step, s');
    }
  }

  /** The invariant holds in every state of every run. */
  lemma {:induction false} RunKeepsInv(g: Geometry, run: seq<State>, i: nat)
    requires g.Valid() && IsRun(g, run) && i < |run|
    ensures Inv(g, run[i])
  {
    if i == 0 {
      InitInv(g, run[0]);
    } else {
      RunKeepsInv(g, run, i - 1);
      var step :| NextStep(g, run[i - 1], step, run[i]);
      NextKeepsInv(g, run[i - 1], step, run[i]);
    }
  }

  lemma InitInv(g: Geometry, s: State)
    requires g.Valid() && Init(g, s)
    ensures Inv(g, s)
  {
    assert s.history[..0] == [];
  }

  // ---- what the log is for ----

  /**
   Crash safety.  In every state of every run (and so at a crash between any two block writes, during
   a commit or during an earlier recovery) running recovery to its end leaves every home block as it
   was after the committed prefix of the history, and the log empty.  No operation is split: an
   operation with an event in that prefix has all its events there, up to and including its end.
   */
  lemma CrashSafe(g: Geometry, run: seq<State>, i: nat)
    requires g.Valid() && IsRun(g, run) && i < |run|
    ensures var s := run[i];
            && Shape(g, s) && RecoversTo(g, s.disk, Committed(s))
            && HeadOf(Recover(g, s.disk)[g.start]) == []
            && (forall b :: g.Home(b) ==> Recover(g, s.disk)[b] == Committed(s)[b])
            && (forall i, j :: 0 <= i < s.commitAt <= j < |s.history| ==> s.history[i].op != s.history[j].op)
            && (forall i :: 0 <= i < s.commitAt ==> Ended(s.history[i].op) in s.history[..s.commitAt])
  {
    RunKeepsInv(g, run, i);
    RecoverCorrect(g, run[i].disk, Committed(run[i]));
  }

  /** A step never takes back a commit, not even a crash. */
  lemma StepKeepsCommits(g: Geometry, s: State, step: Step, s': State)
    requires g.Valid() && Inv(g, s) && NextStep(g, s, step, s')
    ensures s'.base == s.base && s.commitAt <= s'.commitAt <= |s'.history|
    ensures s'.history[..s.commitAt] == s.history[..s.commitAt]
  {
  }

  lemma RunStepKeepsCommits(g: Geometry, run: seq<State>, i: nat)
    requires g.Valid() && IsRun(g, run) && i < |run| - 1
    ensures run[i + 1].base == run[i].base
    ensures run[i].commitAt <= |run[i].history| && run[i].commitAt <= run[i + 1].commitAt <= |run[i + 1].history|
    ensures run[i + 1].history[..run[i].commitAt] == run[i].history[..run[i].commitAt]
  {
    RunKeepsInv(g, run, i);
    var step :| NextStep(g, run[i], step, run[i + 1]);
    StepKeepsCommits(g, run[i], step, run[i + 1]);
  }

  /** Durability: what was committed in one state of a run is committed in every later state. */
  lemma {:induction false} CommitsAreForever(g: Geometry, run: seq<State>, i: nat, j: nat)
    requires g.Valid() && IsRun(g, run) && i < j < |run|
    ensures run[j].base == run[i].base && run[i].commitAt <= run[j].commitAt <= |run[j].history|
    ensures run[i].commitAt <= |run[i].history|
    ensures run[j].history[..run[i].commitAt] == run[i].history[..run[i].commitAt]
    decreases j - i
  {
    RunStepKeepsCommits(g, run, j - 1);
    if i < j - 1 {
      CommitsAreForever(g, run, i, j - 1);
      PrefixTrans(run[i].history, run[j - 1].history, run[j].history, run[i].commitAt, run[j - 1].commitAt);
    }
  }

  lemma PrefixTrans(a: seq<Event>, b: seq<Event>, c: seq<Event>, m: nat, n: nat)
    requires m <= n && m <= |a| && n <= |b| && n <= |c|
    requires b[..m] == a[..m] && c[..n] == b[..n]
    ensures c[..m] == a[..m]
  {
    assert c[..m] == c[..n][..m] && b[..m] == b[..n][..m];
  }

  /** Whenever the log is idle or past its commit point, everything done so far has been committed. */
  lemma QuietMeansCommitted(g: Geometry, run: seq<State>, i: nat)
    requires g.Valid() && IsRun(g, run) && i < |run|
    ensures var s := run[i];
            (s.phase.Running? && s.adm.wrote == map[]) || s.phase.Installing? || s.phase.Clearing? || s.phase.Finishing?
            ==> s.commitAt == |s.history|
  {
    RunKeepsInv(g, run, i);
  }

  /** A block of the log's list that has not been installed yet. */
  predicate Awaits(s: State, b: nat) {
    match s.phase
    case Running => b in s.adm.lh
    case Logging(_) => b in s.adm.lh
    case Installing(tail) => tail <= |s.adm.lh| && b in s.adm.lh[tail..]
    case _ => false
  }

  /**
   The cache and the log agree with a flat disk: a thread that holds a loaded buffer sees the latest
   contents of its block, and a logged block stays cached, loaded and referenced until it is installed.
   */
  lemma ReadsSeeLatest(g: Geometry, run: seq<State>, i: nat, t: Tid, b: nat)
    requires g.Valid() && IsRun(g, run) && i < |run|
    ensures var s := run[i];
            && Shape(g, s)
            && (!Recovering(s.phase) && Holds(s, t, b) && g.Home(b) ==> s.cache[b].data == Replay(s.base, s.history)[b])
            && (b in s.pinned <==> Awaits(s, b))
            && (Awaits(s, b) ==> b in s.cache && s.cache[b].valid && s.cache[b].refcnt > 0)
  {
    RunKeepsInv(g, run, i);
    var s := run[i];
    AwaitsPinned(g, s, b);
    if Holds(s, t, b) && g.Home(b) {
      assert Content(s, b) == s.cache[b].data;
    }
  }

  lemma AwaitsPinned(g: Geometry, s: State, b: nat)
    requires g.Valid() && Inv(g, s)
    ensures b in s.pinned <==> Awaits(s, b)
  {
    if s.phase.Installing? {
      var lh, tail := s.adm.lh, s.phase.tail;
      if b in lh[tail..] {
        var k :| tail <= k < |lh| && lh[k] == b;
        assert lh[k] in s.pinned;
      }
      if b in s.pinned {
        var k :| 0 <= k < |lh| && lh[k] == b;
        assert k >= tail;
      }
    }
  }

  /** Seen from the log's bookkeeping, every step of the protocol is a step of LogAdmission. */
  lemma StepProjects(g: Geometry, s: State, step: Step, s': State)
    requires g.Valid() && Inv(g, s) && NextStep(g, s, step, s')
    ensures LogAdmission.Next(g, s.adm, s'.adm)
  {
    var a: LogAdmission.Step := match step
      case BeginOp(t) => LogAdmission.Begin(t)
      case LogWrite(t, b) => LogAdmission.Write(t, b)
      case EndOp(t) => LogAdmission.End(t)
      case Erase => LogAdmission.Erase
      case Finish => LogAdmission.Finish
      case Crash(_) => LogAdmission.Crash
      case _ => LogAdmission.Idle;
    assert LogAdmission.NextStep(g, s.adm, a, s'.adm);
  }

  /** So every run of the protocol obeys the space reservations. */
  lemma RunProjects(g: Geometry, k: nat, run: seq<State>, i: nat)
    requires g.Valid() && k <= MAXOPBLOCKS && IsRun(g, run) && i < |run|
    requires forall j :: 0 <= j < |run| ==> OpsBounded(run[j].adm, k)
    ensures Reserved(g, run[i].adm, k)
  {
    var adms := seq(|run|, j requires 0 <= j < |run| => run[j].adm);
    forall j | 0 <= j < |adms| - 1 ensures LogAdmission.Next(g, adms[j], adms[j + 1]) {
      RunKeepsInv(g, run, j);
      var step :| NextStep(g, run[j], step, run[j + 1]);
      StepProjects(g, run[j], step, run[j + 1]);
    }
    assert adms[0] == EMPTY;
    ReservationHolds(g, k, adms, i);
  }
}

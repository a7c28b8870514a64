/**
 Pipes: every interleaving of any number of readers, writers and closers.  Each line that touches the pipe
 is one step; sleep() gives up the pipe's lock and goes to sleep in one step, and wakeup() is one step.
 */
module Pipe {
  import opened Prelude

  const PIPESIZE := 512

  /** Where a process is in pipewrite(), piperead() or pipeclose(). */
  datatype Pc =
    | Idle
    | WEnter(buf: seq<nat>)                // acquire(&pi->lock)
    | WLoop(buf: seq<nat>, i: nat)         // while(i < n)
    | WFull(buf: seq<nat>, i: nat)         // sleep(&pi->nwrite, &pi->lock), after waking readers
    | WAsleep(buf: seq<nat>, i: nat)
    | WAwake(buf: seq<nat>, i: nat)        // woken, to take the lock again
    | WDone                                // wakeup(&pi->nread)
    | REnter(n: nat)                       // acquire(&pi->lock)
    | RLoop(n: nat)                        // while(pi->nread == pi->nwrite && pi->writeopen)
    | RAsleep(n: nat)
    | RAwake(n: nat)
    | RCopy(n: nat, i: nat)                // for(i = 0; i < n; i++)
    | RDone                                // wakeup(&pi->nwrite)
    | CEnter(writable: bool)               // pipeclose: acquire(&pi->lock)
    | CClose(writable: bool)               // clear the flag
    | CWake(writable: bool)                // wakeup
    | Release                              // release(&pi->lock)

  datatype Fifo = Fifo(data: seq<nat>, nread: nat, nwrite: nat, readopen: bool, writeopen: bool)

  /** `written` and `consumed` are all bytes put in and taken out so far. */
  datatype State = State(fifo: Fifo, lock: Option<nat>, pcs: seq<Pc>, written: seq<nat>, consumed: seq<nat>)

  predicate Init(s: State) {
    && |s.fifo.data| == PIPESIZE && s.fifo.nread == 0 && s.fifo.nwrite == 0 && s.fifo.readopen && s.fifo.writeopen
    && s.lock.None? && s.written == [] && s.consumed == []
    && forall p :: 0 <= p < |s.pcs| ==> s.pcs[p].Idle?
  }

  function WakeReader(pc: Pc): Pc {
    if pc.RAsleep? then RAwake(pc.n) else pc
  }

  function WakeWriter(pc: Pc): Pc {
    if pc.WAsleep? then WAwake(pc.buf, pc.i) else pc
  }

  function At(s: State, p: nat, pc: Pc): State
    requires p < |s.pcs|
  {
    s.(pcs := s.pcs[p := pc])
  }

  /** wakeup(&pi->nread) by p, which goes on at pc. */
  function WakeReaders(s: State, p: nat, pc: Pc): State
    requires p < |s.pcs|
  {
    s.(pcs := seq(|s.pcs|, q requires 0 <= q < |s.pcs| => if q == p then pc else WakeReader(s.pcs[q])))
  }

  function WakeWriters(s: State, p: nat, pc: Pc): State
    requires p < |s.pcs|
  {
    s.(pcs := seq(|s.pcs|, q requires 0 <= q < |s.pcs| => if q == p then pc else WakeWriter(s.pcs[q])))
  }

  /** pi->nwrite == pi->nread + PIPESIZE, in 32-bit arithmetic. */
  predicate IsFull(f: Fifo) {
    f.nwrite == (f.nread + PIPESIZE) % UINT
  }

  /** pi->data[pi->nwrite++ % PIPESIZE] = ch */
  function Push(s: State, ch: nat): State
    requires |s.fifo.data| == PIPESIZE
  {
    s.(fifo := s.fifo.(data := s.fifo.data[s.fifo.nwrite % PIPESIZE := ch], nwrite := (s.fifo.nwrite + 1) % UINT),
      written := s.written + [ch])
  }

  /** ch = pi->data[pi->nread++ % PIPESIZE] */
  function Pop(s: State): State
    requires |s.fifo.data| == PIPESIZE
  {
    s.(fifo := s.fifo.(nread := (s.fifo.nread + 1) % UINT), consumed :=
      s.consumed + [s.fifo.data[s.fifo.nread % PIPESIZE]])
  }

  /** What may go wrong at a line: the process has been killed, or a copy from or to the user fails. */
  datatype Luck = Fine | Killed | BadCopy

  /** What a writer does next, or None if it has to wait. */
  function WriterNext(s: State, p: nat, luck: Luck): Option<State>
    requires p < |s.pcs| && |s.fifo.data| == PIPESIZE
  {
    match s.pcs[p]
    case WEnter(buf) => if s.lock.None? then Some(At(s, p, WLoop(buf, 0)).(lock := Some(p))) else None
    case WLoop(buf, i) =>
      if i >= |buf| then Some(At(s, p, WDone))
      else if !s.fifo.readopen || luck.Killed? then Some(At(s, p, Release))
      else if IsFull(s.fifo) then Some(WakeReaders(s, p, WFull(buf, i)))
      else if luck.BadCopy? then Some(At(s, p, WDone))
      else Some(At(Push(s, buf[i]), p, WLoop(buf, i + 1)))
    case WFull(buf, i) => Some(At(s, p, WAsleep(buf, i)).(lock := None))
    case WAwake(buf, i) => if s.lock.None? then Some(At(s, p, WLoop(buf, i)).(lock := Some(p))) else None
    case WDone => Some(WakeReaders(s, p, Release))
    case _ => None
  }

  function ReaderNext(s: State, p: nat, luck: Luck): Option<State>
    requires p < |s.pcs| && |s.fifo.data| == PIPESIZE
  {
    match s.pcs[p]
    case REnter(n) => if s.lock.None? then Some(At(s, p, RLoop(n)).(lock := Some(p))) else None
    case RLoop(n) =>
      if s.fifo.nread == s.fifo.nwrite && s.fifo.writeopen then
        (if luck.Killed? then Some(At(s, p, Release)) else Some(At(s, p, RAsleep(n)).(lock := None)))
      else Some(At(s, p, RCopy(n, 0)))
    case RAwake(n) => if s.lock.None? then Some(At(s, p, RLoop(n)).(lock := Some(p))) else None
    case RCopy(n, i) =>
      if i >= n || s.fifo.nread == s.fifo.nwrite then Some(At(s, p, RDone))
      else if luck.BadCopy? then Some(At(Pop(s), p, RDone))
      else Some(At(Pop(s), p, RCopy(n, i + 1)))
    case RDone => Some(WakeWriters(s, p, Release))
    case _ => None
  }

  function CloserNext(s: State, p: nat): Option<State>
    requires p < |s.pcs|
  {
    match s.pcs[p]
    case CEnter(w) => if s.lock.None? then Some(At(s, p, CClose(w)).(lock := Some(p))) else None
    case CClose(w) => Some(At(s, p, CWake(w)).(fifo := if w then s.fifo.(writeopen := false)
      else s.fifo.(readopen := false)))
    case CWake(w) => Some(if w then WakeReaders(s, p, Release) else WakeWriters(s, p, Release))
    case Release => Some(At(s, p, Idle).(lock := None))
    case _ => None
  }

  datatype Step =
    | Write(p: nat, buf: seq<nat>)   // a process calls pipewrite()
    | Read(p: nat, n: nat)           // piperead()
    | Close(p: nat, writable: bool)  // pipeclose()
    | Run(p: nat, luck: Luck)
    | Kick(p: nat)                   // kill() wakes a sleeper

  ghost predicate NextStep(s: State, step: Step, s': State)
  {
    && step.p < |s.pcs| && |s.fifo.data| == PIPESIZE
    && match step
       case Write(p, buf) => s.pcs[p].Idle? && s' == At(s, p, WEnter(buf))
       case Read(p, n) => s.pcs[p].Idle? && s' == At(s, p, REnter(n))
       case Close(p, w) => s.pcs[p].Idle? && s' == At(s, p, CEnter(w))
       case Run(p, luck) =>
         WriterNext(s, p, luck) == Some(s') || ReaderNext(s, p, luck) == Some(s') || CloserNext(s, p) == Some(s')
       case Kick(p) => s' == At(s, p, WakeReader(WakeWriter(s.pcs[p])))
  }

  ghost predicate Next(s: State, s': State)
  {
    exists step :: NextStep(s, step, s')
  }

  // ---- the invariant ----

  predicate HoldsLock(pc: Pc) {
    pc.WLoop? || pc.WFull? || pc.WDone? || pc.RLoop? || pc.RCopy? || pc.RDone? || pc.CClose? || pc.CWake? || pc.Release?
  }

  ghost predicate LockOk(s: State)
  {
    (s.lock.Some? ==> s.lock.value < |s.pcs|) && forall p :: 0 <= p < |s.pcs| ==>
      (s.lock == Some(p) <==> HoldsLock(s.pcs[p]))
  }

  /** The ring holds the bytes written and not yet consumed, and the counters count them modulo 2^32. */
  ghost predicate FifoOk(f: Fifo, written: seq<nat>, consumed: seq<nat>)
  {
    && |f.data| == PIPESIZE && |consumed| <= |written| <= |consumed| + PIPESIZE
    && f.nread == |consumed| % UINT && f.nwrite == |written| % UINT
    && consumed == written[..|consumed|]
    && (forall k :: |consumed| <= k < |written| ==> f.data[k % PIPESIZE] == written[k])
  }

  predicate Holder(s: State, pc: Pc) {
    s.lock.Some? && s.lock.value < |s.pcs| && s.pcs[s.lock.value] == pc
  }

  predicate HeldInWrite(s: State) {
    s.lock.Some? && s.lock.value < |s.pcs| && (s.pcs[s.lock.value].WLoop? || s.pcs[s.lock.value].WDone?)
  }

  predicate HeldInRead(s: State) {
    s.lock.Some? && s.lock.value < |s.pcs| && (s.pcs[s.lock.value].RCopy? || s.pcs[s.lock.value].RDone?)
  }

  /** What a sleeping process may still wait for, except that a reader may have been left with bytes. */
  predicate SleepOk(s: State, pc: Pc) {
    && (pc.RAsleep? && !s.fifo.writeopen ==> Holder(s, CWake(true)))
    && (pc.WAsleep? ==>
       (|s.written| < |s.consumed| + PIPESIZE ==> HeldInRead(s)) && (!s.fifo.readopen ==> Holder(s, CWake(false))))
    && (pc.WFull? ==> |s.written| == |s.consumed| + PIPESIZE && s.fifo.readopen)
  }

  ghost predicate Inv(s: State)
  {
    LockOk(s) && FifoOk(s.fifo, s.written, s.consumed) && forall p :: 0 <= p < |s.pcs| ==> SleepOk(s, s.pcs[p])
  }

  /** While a reader sleeps and there are bytes, the writer that put them there is still at work. */
  ghost predicate Attended(s: State)
  {
    |s.written| > |s.consumed| && (exists p :: 0 <= p < |s.pcs| && s.pcs[p].RAsleep?) ==> HeldInWrite(s)
  }

  // ---- counters ----

  lemma EmptyTest(a: nat, b: nat)
    requires a <= b <= a + PIPESIZE
    ensures a % UINT == b % UINT <==> a == b
    ensures b % UINT == (a % UINT + PIPESIZE) % UINT <==> b == a + PIPESIZE
  {
  }

  lemma CountUp(n: nat)
    ensures (n % UINT + 1) % UINT == (n + 1) % UINT && n % UINT % PIPESIZE == n % PIPESIZE
  {
    var q, r := n / UINT, n % UINT;
    assert n == PIPESIZE * (UINT / PIPESIZE * q) + r;
    Slot(UINT / PIPESIZE * q, r);
  }

  lemma Slot(q: nat, r: nat)
    ensures (PIPESIZE * q + r) % PIPESIZE == r % PIPESIZE
  {
  }

  lemma Slots(a: nat, b: nat)
    requires a < b < a + PIPESIZE
    ensures a % PIPESIZE != b % PIPESIZE
  {
  }

  lemma PushOk(f: Fifo, written: seq<nat>, consumed: seq<nat>, ch: nat)
    requires FifoOk(f, written, consumed) && !IsFull(f)
    ensures FifoOk(f.(data := f.data[f.nwrite % PIPESIZE := ch], nwrite := (f.nwrite + 1) % UINT), written + [ch],
      consumed)
  {
    EmptyTest(|consumed|, |written|);
    CountUp(|written|);
    var f' := f.(data := f.data[f.nwrite % PIPESIZE := ch], nwrite := (f.nwrite + 1) % UINT);
    var w := written + [ch];
    assert w[..|consumed|] == written[..|consumed|];
    forall k | |consumed| <= k < |w| ensures f'.data[k % PIPESIZE] == w[k] {
      if k < |written| {
        Slots(k, |written|);
      }
    }
  }

  lemma PopOk(f: Fifo, written: seq<nat>, consumed: seq<nat>)
    requires FifoOk(f, written, consumed) && f.nread != f.nwrite
    ensures FifoOk(f.(nread := (f.nread + 1) % UINT), written, consumed + [f.data[f.nread % PIPESIZE]])
  {
    EmptyTest(|consumed|, |written|);
    CountUp(|consumed|);
    assert f.data[|consumed| % PIPESIZE] == written[|consumed|];
    assert written[..|consumed| + 1] == written[..|consumed|] + [written[|consumed|]];
  }

  lemma InitInv(s: State)
    requires Init(s)
    ensures Inv(s)
  {
  }

  /** The lock, and where its holder is, after p has moved to another line. */
  lemma LockMoves(s: State, s': State, p: nat)
    requires LockOk(s) && p < |s.pcs| && |s'.pcs| == |s.pcs|
    requires forall q :: 0 <= q < |s.pcs| && q != p ==> (HoldsLock(s'.pcs[q]) <==> HoldsLock(s.pcs[q]))
    requires s'.lock == Some(p) <==> HoldsLock(s'.pcs[p])
    requires s'.lock == s.lock || (s.lock.None? && s'.lock == Some(p)) || (s.lock == Some(p) && s'.lock.None?)
    ensures LockOk(s')
  {
  }

  lemma FifoLengths(s: State)
    requires FifoOk(s.fifo, s.written, s.consumed)
    ensures |s.fifo.data| == PIPESIZE && |s.consumed| <= |s.written| <= |s.consumed| + PIPESIZE
    ensures s.fifo.nread == s.fifo.nwrite <==> |s.consumed| == |s.written|
    ensures IsFull(s.fifo) <==> |s.written| == |s.consumed| + PIPESIZE
  {
    EmptyTest(|s.consumed|, |s.written|);
  }

  lemma WriterLock(s: State, p: nat, luck: Luck, s': State)
    requires Inv(s) && p < |s.pcs| && |s.fifo.data| == PIPESIZE && WriterNext(s, p, luck) == Some(s')
    ensures LockOk(s')
  {
    hide FifoOk;
    hide SleepOk;
    LockMoves(s, s', p);
  }

  lemma WriterSleeps(s: State, p: nat, luck: Luck, s': State)
    requires Inv(s) && p < |s.pcs| && |s.fifo.data| == PIPESIZE && WriterNext(s, p, luck) == Some(s')
    ensures forall q :: 0 <= q < |s'.pcs| ==> SleepOk(s', s'.pcs[q])
  {
    hide FifoOk;
    hide IsFull;
    FifoLengths(s);
    assert SleepOk(s, s.pcs[p]);
    forall q | 0 <= q < |s'.pcs| && q != p ensures SleepOk(s', s'.pcs[q]) {
      assert SleepOk(s, s.pcs[q]);
    }
  }

  lemma WriterKeeps(s: State, p: nat, luck: Luck, s': State)
    requires Inv(s) && p < |s.pcs| && |s.fifo.data| == PIPESIZE && WriterNext(s, p, luck) == Some(s')
    ensures Inv(s')
  {
    hide FifoOk;
    hide SleepOk;
    hide LockOk;
    if !IsFull(s.fifo) && s.pcs[p].WLoop? && s.pcs[p].i < |s.pcs[p].buf| {
      PushOk(s.fifo, s.written, s.consumed, s.pcs[p].buf[s.pcs[p].i]);
    }
    WriterLock(s, p, luck, s');
    WriterSleeps(s, p, luck, s');
  }

  lemma ReaderLock(s: State, p: nat, luck: Luck, s': State)
    requires Inv(s) && p < |s.pcs| && |s.fifo.data| == PIPESIZE && ReaderNext(s, p, luck) == Some(s')
    ensures LockOk(s')
  {
    hide FifoOk;
    hide SleepOk;
    LockMoves(s, s', p);
  }

  lemma ReaderSleeps(s: State, p: nat, luck: Luck, s': State)
    requires Inv(s) && p < |s.pcs| && |s.fifo.data| == PIPESIZE && ReaderNext(s, p, luck) == Some(s')
    ensures forall q :: 0 <= q < |s'.pcs| ==> SleepOk(s', s'.pcs[q])
  {
    hide FifoOk;
    hide IsFull;
    FifoLengths(s);
    assert SleepOk(s, s.pcs[p]);
    forall q | 0 <= q < |s'.pcs| && q != p ensures SleepOk(s', s'.pcs[q]) {
      assert SleepOk(s, s.pcs[q]);
    }
  }

  lemma ReaderKeeps(s: State, p: nat, luck: Luck, s': State)
    requires Inv(s) && p < |s.pcs| && |s.fifo.data| == PIPESIZE && ReaderNext(s, p, luck) == Some(s')
    ensures Inv(s')
  {
    hide FifoOk;
    hide SleepOk;
    hide LockOk;
    if s.fifo.nread != s.fifo.nwrite {
      PopOk(s.fifo, s.written, s.consumed);
    }
    ReaderLock(s, p, luck, s');
    ReaderSleeps(s, p, luck, s');
  }

  lemma SameFifo(f: Fifo, f': Fifo, written: seq<nat>, consumed: seq<nat>)
    requires FifoOk(f, written, consumed) && f'.data == f.data && f'.nread == f.nread && f'.nwrite == f.nwrite
    ensures FifoOk(f', written, consumed)
  {
  }

  lemma CloserLock(s: State, p: nat, s': State)
    requires Inv(s) && p < |s.pcs| && CloserNext(s, p) == Some(s')
    ensures LockOk(s')
  {
    hide FifoOk;
    hide SleepOk;
    LockMoves(s, s', p);
  }

  lemma CloserSleeps(s: State, p: nat, s': State)
    requires Inv(s) && p < |s.pcs| && CloserNext(s, p) == Some(s')
    ensures forall q :: 0 <= q < |s'.pcs| ==> SleepOk(s', s'.pcs[q])
  {
    hide FifoOk;
    assert SleepOk(s, s.pcs[p]);
    forall q | 0 <= q < |s'.pcs| && q != p ensures SleepOk(s', s'.pcs[q]) {
      assert SleepOk(s, s.pcs[q]);
    }
  }

  lemma CloserKeeps(s: State, p: nat, s': State)
    requires Inv(s) && p < |s.pcs| && CloserNext(s, p) == Some(s')
    ensures Inv(s')
  {
    hide FifoOk;
    hide SleepOk;
    hide LockOk;
    SameFifo(s.fifo, s'.fifo, s.written, s.consumed);
    CloserLock(s, p, s');
    CloserSleeps(s, p, s');
  }

  lemma OtherKeeps(s: State, p: nat, pc: Pc)
    requires Inv(s) && p < |s.pcs| && !HoldsLock(s.pcs[p]) && !HoldsLock(pc) && !pc.RAsleep? && !pc.WAsleep?
    ensures Inv(At(s, p, pc))
  {
    hide FifoOk;
    var s' := At(s, p, pc);
    forall q | 0 <= q < |s'.pcs| && q != p ensures SleepOk(s', s'.pcs[q]) {
      assert SleepOk(s, s.pcs[q]);
    }
    LockMoves(s, s', p);
  }

  lemma StepKeepsInv(s: State, step: Step, s': State)
    requires Inv(s) && NextStep(s, step, s')
    ensures Inv(s')
  {
    hide WriterNext;
    hide ReaderNext;
    hide CloserNext;
    hide Inv;
    match step {
      case Write(p, buf) => OtherKeeps(s, p, WEnter(buf));
      case Read(p, n) => OtherKeeps(s, p, REnter(n));
      case Close(p, w) => OtherKeeps(s, p, CEnter(w));
      case Kick(p) => KickKeeps(s, p);
      case Run(p, luck) =>
        if WriterNext(s, p, luck) == Some(s') {
          WriterKeeps(s, p, luck, s');
        } else if ReaderNext(s, p, luck) == Some(s') {
          ReaderKeeps(s, p, luck, s');
        } else {
          CloserKeeps(s, p, s');
        }
    }
  }

  lemma KickKeeps(s: State, p: nat)
    requires Inv(s) && p < |s.pcs|
    ensures Inv(At(s, p, WakeReader(WakeWriter(s.pcs[p]))))
  {
    hide FifoOk;
    if s.pcs[p].RAsleep? || s.pcs[p].WAsleep? {
      OtherKeeps(s, p, WakeReader(WakeWriter(s.pcs[p])));
    } else {
      assert At(s, p, s.pcs[p]) == s;
    }
  }

  // ---- whole runs ----

  ghost predicate IsRun(run: seq<State>)
  {
    run != [] && Init(run[0]) && forall i, j :: 0 <= i < |run| && j == i + 1 && j < |run| ==> Next(run[i], run[j])
  }

  lemma {:induction false} RunKeepsInv(run: seq<State>, i: nat)
    requires IsRun(run) && i < |run|
    ensures Inv(run[i])
  {
    hide Inv;
    hide NextStep;
    if i == 0 {
      InitInv(run[0]);
    } else {
      RunKeepsInv(run, i - 1);
      assert Next(run[i - 1], run[i]);
      var step :| NextStep(run[i - 1], step, run[i]);
      StepKeepsInv(run[i - 1], step, run[i]);
    }
  }

  /** Bytes come out in the order in which they went in, and the counters never get more than a ring apart. */
  lemma BytesInOrder(run: seq<State>, i: nat)
    requires IsRun(run) && i < |run|
    ensures var s := run[i];
      s.consumed <= s.written && (s.fifo.nwrite - s.fifo.nread) % UINT == |s.written| - |s.consumed| <= PIPESIZE
  {
    RunKeepsInv(run, i);
    var s := run[i];
    Difference(|s.consumed|, |s.written|);
  }

  lemma Difference(a: nat, b: nat)
    requires a <= b <= a + PIPESIZE
    ensures (b % UINT - a % UINT) % UINT == b - a
  {
  }

  // ---- lost wakeups ----

  /**
   A writer leaves early, through one of the two exits that wake nobody, while a reader sleeps and the ring is not
   empty.
   */
  ghost predicate Abandons(s: State, s': State)
  {
    && s.fifo.nread != s.fifo.nwrite
    && (exists p :: 0 <= p < |s.pcs| && p < |s'.pcs| && s.pcs[p].WLoop? && s'.pcs[p].Release?)
    && (exists q :: 0 <= q < |s.pcs| && s.pcs[q].RAsleep?)
  }

  lemma HolderIs(s: State, p: nat)
    requires LockOk(s) && p < |s.pcs| && HoldsLock(s.pcs[p])
    ensures s.lock == Some(p)
  {
  }

  lemma WriterAttends(s: State, p: nat, luck: Luck, s': State)
    requires Inv(s) && p < |s.pcs| && |s.fifo.data| == PIPESIZE && WriterNext(s, p, luck) == Some(s') && Attended(s) &&
      !Abandons(s, s')
    ensures Attended(s')
  {
    hide FifoOk;
    hide SleepOk;
    FifoLengths(s);
    assert forall q :: 0 <= q < |s'.pcs| && s'.pcs[q].RAsleep? ==> s.pcs[q].RAsleep?;
  }

  lemma ReaderAttends(s: State, p: nat, luck: Luck, s': State)
    requires Inv(s) && p < |s.pcs| && |s.fifo.data| == PIPESIZE && ReaderNext(s, p, luck) == Some(s') && Attended(s)
    ensures Attended(s')
  {
    hide FifoOk;
    hide SleepOk;
    FifoLengths(s);
    assert forall q :: 0 <= q < |s'.pcs| && q != p && s'.pcs[q].RAsleep? ==> s.pcs[q].RAsleep?;
  }

  lemma CloserAttends(s: State, p: nat, s': State)
    requires Inv(s) && p < |s.pcs| && CloserNext(s, p) == Some(s') && Attended(s)
    ensures Attended(s')
  {
    hide FifoOk;
    hide SleepOk;
    assert forall q :: 0 <= q < |s'.pcs| && s'.pcs[q].RAsleep? ==> s.pcs[q].RAsleep?;
  }

  lemma OtherAttends(s: State, p: nat, pc: Pc)
    requires Inv(s) && p < |s.pcs| && !HoldsLock(s.pcs[p]) && !pc.RAsleep? && Attended(s)
    ensures Attended(At(s, p, pc))
  {
    hide FifoOk;
    hide SleepOk;
    var s' := At(s, p, pc);
    assert forall q :: 0 <= q < |s'.pcs| && s'.pcs[q].RAsleep? ==> s.pcs[q].RAsleep?;
  }

  /** Readers are attended after every step that does not abandon one. */
  lemma StepAttends(s: State, step: Step, s': State)
    requires Inv(s) && NextStep(s, step, s') && Attended(s) && !Abandons(s, s')
    ensures Attended(s')
  {
    hide WriterNext;
    hide ReaderNext;
    hide CloserNext;
    hide Inv;
    hide Attended;
    hide Abandons;
    match step {
      case Write(p, buf) => OtherAttends(s, p, WEnter(buf));
      case Read(p, n) => OtherAttends(s, p, REnter(n));
      case Close(p, w) => OtherAttends(s, p, CEnter(w));
      case Kick(p) =>
        if s.pcs[p].RAsleep? || s.pcs[p].WAsleep? {
          OtherAttends(s, p, WakeReader(WakeWriter(s.pcs[p])));
        } else {
          assert At(s, p, s.pcs[p]) == s;
        }
      case Run(p, luck) =>
        if WriterNext(s, p, luck) == Some(s') {
          WriterAttends(s, p, luck, s');
        } else if ReaderNext(s, p, luck) == Some(s') {
          ReaderAttends(s, p, luck, s');
        } else {
          CloserAttends(s, p, s');
        }
    }
  }

  lemma {:induction false} RunAttends(run: seq<State>, i: nat)
    requires IsRun(run) && i < |run| && forall j, k :: 0 <= j < i && k == j + 1 ==> !Abandons(run[j], run[k])
    ensures Attended(run[i])
  {
    hide Inv;
    hide NextStep;
    hide Abandons;
    if i > 0 {
      RunAttends(run, i - 1);
      RunKeepsInv(run, i - 1);
      assert Next(run[i - 1], run[i]);
      var step :| NextStep(run[i - 1], step, run[i]);
      StepAttends(run[i - 1], step, run[i]);
    }
  }

  /**
   When the lock is free, a writer sleeps only on a full pipe with an open reading end, and a reader only with an
   open writing end; and, as long as no writer has abandoned a reader, a reader only on an empty pipe.
   */
  lemma NoLostWakeup(run: seq<State>, i: nat, p: nat)
    requires IsRun(run) && i < |run| && p < |run[i].pcs| && run[i].lock.None?
    ensures var s := run[i];
            && (s.pcs[p].WAsleep? ==> |s.written| == |s.consumed| + PIPESIZE && s.fifo.readopen)
            && (s.pcs[p].RAsleep? ==> s.fifo.writeopen)
            && (s.pcs[p].RAsleep? && (forall j, k :: 0 <= j < i && k == j + 1 ==> !Abandons(run[j], run[k])) ==>
               |s.written| == |s.consumed|)
  {
    hide Abandons;
    RunKeepsInv(run, i);
    assert SleepOk(run[i], run[i].pcs[p]);
    if forall j, k :: 0 <= j < i && k == j + 1 ==> !Abandons(run[j], run[k]) {
      RunAttends(run, i);
    }
  }

  lemma Abandoned(s: State, step: Step, s': State) returns (p: nat, q: nat)
    requires Inv(s) && NextStep(s, step, s') && Abandons(s, s')
    ensures p < |s'.pcs| && q < |s'.pcs| && p != q && s' == At(s, p, Release) && s'.lock == Some(p) &&
      s'.pcs[q].RAsleep? && |s'.written| > |s'.consumed|
  {
    hide FifoOk;
    hide SleepOk;
    FifoLengths(s);
    p :| p < |s.pcs| && p < |s'.pcs| && s.pcs[p].WLoop? && s'.pcs[p].Release?;
    q :| q < |s.pcs| && s.pcs[q].RAsleep?;
    HolderIs(s, p);
  }

  /**
   The condition is exact: a writer that abandons a reader, whether it is killed or finds the reading end closed,
   has only to release the lock, and then a reader sleeps on a pipe that is not empty.
   */
  lemma LostWakeup(run: seq<State>, j: nat) returns (more: seq<State>, q: nat)
    requires IsRun(run) && j + 1 < |run| && Abandons(run[j], run[j + 1])
    ensures IsRun(more) && |more| == j + 3 && more[..j + 2] == run[..j + 2]
    ensures var s := more[j + 2]; s.lock.None? && q < |s.pcs| && s.pcs[q].RAsleep? && |s.written| > |s.consumed|
  {
    hide Inv;
    RunKeepsInv(run, j);
    RunKeepsInv(run, j + 1);
    var s := run[j + 1];
    assert Next(run[j], s);
    var step :| NextStep(run[j], step, s);
    var p;
    p, q := Abandoned(run[j], step, s);
    assert |s.fifo.data| == PIPESIZE by {
      DataLength(s);
    }
    var s' := At(s, p, Idle).(lock := None);
    assert NextStep(s, Run(p, Fine), s');
    more := run[..j + 2] + [s'];
    forall i, k | 0 <= i < |more| && k == i + 1 && k < |more| ensures Next(more[i], more[k]) {
      assert k < j + 2 ==> Next(run[i], run[k]);
    }
  }

  lemma DataLength(s: State)
    requires Inv(s)
    ensures |s.fifo.data| == PIPESIZE
  {
  }

  /** It happens: a reader goes to sleep, and a writer is killed after its first byte. */
  lemma KilledWriter() returns (run: seq<State>)
    ensures IsRun(run) && |run| > 1 && Abandons(run[|run| - 2], run[|run| - 1])
  {
    var s0 := State(Fifo(seq(PIPESIZE, _ => 0), 0, 0, true, true), None, [Idle, Idle], [], []);
    var s1 := At(s0, 0, REnter(1));
    assert NextStep(s0, Read(0, 1), s1);
    var s2 := At(s1, 0, RLoop(1)).(lock := Some(0));
    assert NextStep(s1, Run(0, Fine), s2);
    var s3 := At(s2, 0, RAsleep(1)).(lock := None);
    assert NextStep(s2, Run(0, Fine), s3);
    var s4 := At(s3, 1, WEnter([7, 8]));
    assert NextStep(s3, Write(1, [7, 8]), s4);
    var s5 := At(s4, 1, WLoop([7, 8], 0)).(lock := Some(1));
    assert NextStep(s4, Run(1, Fine), s5);
    var s6 := At(Push(s5, 7), 1, WLoop([7, 8], 1));
    assert NextStep(s5, Run(1, Fine), s6);
    var s7 := At(s6, 1, Release);
    assert NextStep(s6, Run(1, Killed), s7);
    run := [s0, s1, s2, s3, s4, s5, s6, s7];
    forall i, j | 0 <= i < |run| && j == i + 1 && j < |run| ensures Next(run[i], run[j]) {
    }
    assert s6.pcs[1].WLoop? && s7.pcs[1].Release? && s6.pcs[0].RAsleep?;
  }
}

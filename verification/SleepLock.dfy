/**
 Sleep locks over sleep() and wakeup(): every interleaving of any number of processes that acquire and
 release one sleep lock.  Each read or write of shared state and each spinlock operation is one step.
 */
module SleepLock {
  import opened Prelude

  /** Where a process is: the lines of acquiresleep(), sleep(), releasesleep() and wakeup(). */
  datatype Pc =
    | Outside
    | Entering                 // acquiresleep: acquire(&lk->lk)
    | Testing                  // while (lk->locked)
    | LockingSelf              // sleep: acquire(&p->lock)
    | LettingGo                // release(lk)
    | SettingChan              // p->chan = chan
    | SettingState             // p->state = SLEEPING
    | Switching                // sched()
    | Parked                   // off the CPU, in the scheduler's hands
    | ClearingChan             // p->chan = 0
    | UnlockingSelf            // release(&p->lock)
    | Reacquiring              // acquire(lk)
    | Taking                   // lk->locked = 1
    | Leaving                  // release(&lk->lk)
    | Inside                   // past acquiresleep()
    | Returning                // releasesleep: acquire(&lk->lk)
    | Clearing                 // lk->locked = 0
    | Scanning(k: nat)         // wakeup: for(p = proc; ...), acquire(&p->lock)
    | Checking(k: nat)         // if(p->state == SLEEPING && p->chan == chan), release(&p->lock)
    | Finishing                // release(&lk->lk)

  datatype Status = Running | Runnable | Sleeping

  datatype Chan = NoChan | ThisLock | Other

  /** `lock` is who holds p->lock. */
  datatype Proc = Proc(pc: Pc, status: Status, chan: Chan, lock: Option<nat>)

  /** `spin` is who holds lk->lk; `owner` stands for lk->locked and lk->pid. */
  datatype State = State(procs: seq<Proc>, spin: Option<nat>, owner: Option<nat>)

  predicate Init(s: State) {
    && s.spin.None? && s.owner.None?
    && forall p :: 0 <= p < |s.procs| ==>
       s.procs[p].pc.Outside? && s.procs[p].status != Sleeping && s.procs[p].chan.NoChan? && s.procs[p].lock.None?
  }

  function At(s: State, p: nat, pc: Pc): State
    requires p < |s.procs|
  {
    s.(procs := s.procs[p := s.procs[p].(pc := pc)])
  }

  function Put(s: State, p: nat, q: Proc): State
    requires p < |s.procs|
  {
    s.(procs := s.procs[p := q])
  }

  /** The next state of process p when it runs, or None if it has to spin. */
  function Advance(s: State, p: nat): Option<State>
    requires p < |s.procs|
  {
    var me := s.procs[p];
    match me.pc
    case Outside => Some(At(s, p, Entering))
    case Entering => if s.spin.None? then Some(At(s, p, Testing).(spin := Some(p))) else None
    case Testing => Some(At(s, p, if s.owner.Some? then LockingSelf else Taking))
    case LockingSelf => if me.lock.None? then Some(Put(s, p, me.(pc := LettingGo, lock := Some(p)))) else None
    case LettingGo => Some(At(s, p, SettingChan).(spin := None))
    case SettingChan => Some(Put(s, p, me.(pc := SettingState, chan := ThisLock)))
    case SettingState => Some(Put(s, p, me.(pc := Switching, status := Sleeping)))
    case Switching => None
    case Parked => None
    case ClearingChan => Some(Put(s, p, me.(pc := UnlockingSelf, chan := NoChan)))
    case UnlockingSelf => Some(Put(s, p, me.(pc := Reacquiring, lock := None)))
    case Reacquiring => if s.spin.None? then Some(At(s, p, Testing).(spin := Some(p))) else None
    case Taking => Some(At(s, p, Leaving).(owner := Some(p)))
    case Leaving => Some(At(s, p, Inside).(spin := None))
    case Inside => Some(At(s, p, Returning))
    case Returning => if s.spin.None? then Some(At(s, p, Clearing).(spin := Some(p))) else None
    case Clearing => Some(At(s, p, Scanning(0)).(owner := None))
    case Scanning(k) =>
      if k >= |s.procs| then Some(At(s, p, Finishing))
      else if k == p then Some(At(s, p, Scanning(k + 1)))
      else if s.procs[k].lock.None? then Some(Put(At(s, p, Checking(k)), k, s.procs[k].(lock := Some(p))))
      else None
    case Checking(k) =>
      if k >= |s.procs| || k == p then None
      else
        var q := s.procs[k];
        var q' := if q.status.Sleeping? && q.chan.ThisLock? then q.(status := Runnable, lock := None)
          else q.(lock := None);
        Some(Put(At(s, p, Scanning(k + 1)), k, q'))
    case Finishing => Some(At(s, p, Outside).(spin := None))
  }

  datatype Step =
    | Run(p: nat)          // the process executes its next line
    | Switch(p: nat)       // sched(): the scheduler gets the CPU and releases p->lock
    | Dispatch(p: nat)     // scheduler(): a runnable process gets the CPU
    | Yield(p: nat)        // the timer takes the CPU from a process that holds no spinlock
    | Kick(p: nat)         // kill(): a sleeping process is made runnable
    | Doze(p: nat)         // a process that holds no spinlock sleeps on some other channel

  /** Lines at which a process holds no spinlock. */
  predicate Preemptible(pc: Pc) {
    Outer(pc) || pc.Entering? || pc.Reacquiring? || pc.Returning?
  }

  predicate Outer(pc: Pc) {
    pc.Outside? || pc.Inside?
  }

  ghost predicate NextStep(s: State, step: Step, s': State)
  {
    && step.p < |s.procs|
    && var me := s.procs[step.p];
       match step
       case Run(p) => me.status.Running? && Advance(s, p) == Some(s')
       case Switch(p) => me.pc.Switching? && s' == Put(s, p, me.(pc := Parked, lock := None))
       case Dispatch(p) =>
         && me.status.Runnable? && me.lock.None?
         && s' == Put(s, p, if me.pc.Parked? then me.(pc := ClearingChan, status := Running, lock := Some(p))
            else me.(status := Running, chan := NoChan))
       case Yield(p) =>
         me.status.Running? && Preemptible(me.pc) && me.lock.None? && s' == Put(s, p, me.(status := Runnable))
       case Kick(p) => me.status.Sleeping? && me.lock.None? && s' == Put(s, p, me.(status := Runnable))
       case Doze(p) =>
         me.status.Running? && Outer(me.pc) && me.lock.None? && s' ==
         Put(s, p, me.(status := Sleeping, chan := Other))
  }

  ghost predicate Next(s: State, s': State)
  {
    exists step :: NextStep(s, step, s')
  }

  // ---- the invariant ----

  /** Lines at which a process holds lk->lk. */
  predicate HoldsSpin(pc: Pc) {
    pc.Testing? || pc.LockingSelf? || pc.LettingGo? || pc.Taking? || pc.Leaving? || pc.Clearing? || pc.Scanning? ||
      pc.Checking? || pc.Finishing?
  }

  /** Lines at which a process holds its own p->lock. */
  predicate HoldsSelf(pc: Pc) {
    pc.LettingGo? || pc.SettingChan? || pc.SettingState? || pc.Switching? || pc.ClearingChan? || pc.UnlockingSelf?
  }

  /** Lines from the assignment to lk->locked to its clearing. */
  predicate HasLock(pc: Pc) {
    pc.Leaving? || pc.Inside? || pc.Returning? || pc.Clearing?
  }

  /** Between release(lk) and SLEEPING, or asleep on this lock. */
  predicate Waiting(q: Proc) {
    q.pc.SettingChan? || q.pc.SettingState? || q.pc.Switching? || (q.pc.Parked? && q.status.Sleeping?)
  }

  /** A wakeup() that has yet to look at process q. */
  predicate WillSee(pc: Pc, q: nat) {
    (pc.Scanning? || pc.Checking?) && pc.k <= q
  }

  ghost predicate SpinOk(s: State)
  {
    && (s.spin.Some? ==> s.spin.value < |s.procs|)
    && (s.owner.Some? ==> s.owner.value < |s.procs|)
    && (forall p :: 0 <= p < |s.procs| ==> SpinAt(s, p))
  }

  ghost predicate LockAt(s: State, k: nat)
    requires k < |s.procs|
  {
    && (HoldsSelf(s.procs[k].pc) ==> s.procs[k].lock == Some(k))
    && (s.procs[k].pc.Checking? ==> Looks(s, k, s.procs[k].pc.k))
  }

  ghost predicate LocksOk(s: State)
  {
    forall k :: 0 <= k < |s.procs| ==> LockAt(s, k)
  }

  ghost predicate Looks(s: State, p: nat, k: nat)
  {
    k < |s.procs| && k != p && s.procs[k].lock == Some(p)
  }

  predicate StatusOk(q: Proc) {
    && (q.pc.Switching? ==> q.status.Sleeping? && q.chan.ThisLock?)
    && (q.pc.Parked? ==> !q.status.Running? && q.chan.ThisLock?)
    && (q.pc.SettingState? ==> q.chan.ThisLock?)
    && (!q.pc.Switching? && !q.pc.Parked? && !Outer(q.pc) ==>
       q.status.Running? || (Preemptible(q.pc) && q.status.Runnable?))
    && (q.chan.ThisLock? ==> q.pc.SettingState? || q.pc.Switching? || q.pc.Parked? || q.pc.ClearingChan?)
  }

  ghost predicate StatusesOk(s: State)
  {
    forall p :: 0 <= p < |s.procs| ==> StatusOk(s.procs[p])
  }

  ghost predicate OwnerOk(s: State)
  {
    forall p :: 0 <= p < |s.procs| ==> OwnerAt(s, p)
  }

  /** While the lock is free, a wakeup() that will see every waiting process is under way. */
  ghost predicate NoLostWakeup(s: State)
  {
    s.owner.None? ==>
      forall q :: 0 <= q < |s.procs| && Waiting(s.procs[q]) ==>
        s.spin.Some? && s.spin.value < |s.procs| && WillSee(s.procs[s.spin.value].pc, q)
  }

  ghost predicate Inv(s: State)
  {
    SpinOk(s) && LocksOk(s) && StatusesOk(s) && OwnerOk(s) && NoLostWakeup(s)
  }

  lemma InitInv(s: State)
    requires Init(s)
    ensures Inv(s)
  {
  }

  /** All processes but two are as they were. */
  ghost predicate OnlyTwo(s: State, s': State, p: nat, k: nat)
  {
    |s'.procs| == |s.procs| && forall q :: 0 <= q < |s.procs| && q != p && q != k ==> s'.procs[q] == s.procs[q]
  }

  function Seen(s: State, step: Step): nat
    requires step.p < |s.procs|
  {
    var pc := s.procs[step.p].pc;
    if step.Run? && (pc.Scanning? || pc.Checking?) then pc.k else step.p
  }

  lemma StepLocal(s: State, step: Step, s': State)
    requires NextStep(s, step, s')
    ensures step.p < |s.procs| && OnlyTwo(s, s', step.p, Seen(s, step))
  {
  }

  lemma KeepsSpin(s: State, step: Step, s': State)
    requires SpinOk(s) && OwnerOk(s) && LocksOk(s) && NextStep(s, step, s')
    ensures SpinOk(s')
  {
    hide NextStep;
    StepLocal(s, step, s');
    var p, k := step.p, Seen(s, step);
    assert SpinAt(s, p) && (k < |s.procs| ==> SpinAt(s, k));
    SpinMoves(s, step, s');
    forall q | 0 <= q < |s'.procs| ensures SpinAt(s', q) {
      if q != p && q != k {
        assert SpinAt(s, q);
      }
    }
  }

  predicate SpinAt(s: State, p: nat)
    requires p < |s.procs|
  {
    (s.spin == Some(p) <==> HoldsSpin(s.procs[p].pc)) && (s.owner == Some(p) <==> HasLock(s.procs[p].pc))
  }

  /** Both locks change hands only through the process that runs. */
  lemma SpinMoves(s: State, step: Step, s': State)
    requires NextStep(s, step, s') && SpinAt(s, step.p) && OwnerAt(s, step.p)
    ensures s'.spin == s.spin || (s.spin.None? && s'.spin == Some(step.p)) || (s.spin == Some(step.p) && s'.spin.None?)
    ensures s'.owner == s.owner || (s.owner.None? && s'.owner == Some(step.p)) ||
      (s.owner == Some(step.p) && s'.owner.None?)
    ensures step.p < |s'.procs| && SpinAt(s', step.p)
    ensures var k := Seen(s, step); k < |s.procs| && k != step.p ==> s'.procs[k].pc == s.procs[k].pc
  {
  }

  predicate OwnerAt(s: State, p: nat)
    requires p < |s.procs|
  {
    && (s.procs[p].pc.LockingSelf? || s.procs[p].pc.LettingGo? ==> s.owner.Some?)
    && (s.procs[p].pc.Taking? || s.procs[p].pc.Scanning? || s.procs[p].pc.Checking? || s.procs[p].pc.Finishing? ==>
       s.owner.None?)
  }

  lemma KeepsOwner(s: State, step: Step, s': State)
    requires SpinOk(s) && OwnerOk(s) && NextStep(s, step, s')
    ensures OwnerOk(s')
  {
    hide NextStep;
    StepLocal(s, step, s');
    var p, k := step.p, Seen(s, step);
    assert SpinAt(s, p) && OwnerAt(s, p);
    SpinMoves(s, step, s');
    OwnerMoves(s, step, s');
    forall q | 0 <= q < |s'.procs| ensures OwnerAt(s', q) {
      if q != p {
        assert SpinAt(s, q) && OwnerAt(s, q);
      }
    }
  }

  lemma OwnerMoves(s: State, step: Step, s': State)
    requires NextStep(s, step, s') && SpinAt(s, step.p) && OwnerAt(s, step.p)
    ensures step.p < |s'.procs| && OwnerAt(s', step.p)
    ensures s'.owner != s.owner ==> s.spin == Some(step.p)
  {
  }

  // ---- p->lock ----

  lemma LockMoves(s: State, step: Step, s': State)
    requires NextStep(s, step, s') && LockAt(s, step.p) && StatusOk(s.procs[step.p])
    ensures step.p < |s'.procs| && LockAt(s', step.p)
  {
  }

  /** A lock that another process holds stays held by it. */
  lemma LockStays(s: State, step: Step, s': State, m: nat, q: nat)
    requires NextStep(s, step, s') && LockAt(s, step.p) && q != step.p && m < |s.procs| && s.procs[m].lock == Some(q)
    ensures m < |s'.procs| && s'.procs[m].lock == Some(q)
  {
  }

  lemma SeenOnly(s: State, step: Step, s': State)
    requires NextStep(s, step, s')
    ensures var k := Seen(s, step); k < |s.procs| && k != step.p ==> k < |s'.procs| && s'.procs[k].pc == s.procs[k].pc
  {
  }

  lemma KeepsLocks(s: State, step: Step, s': State)
    requires LocksOk(s) && StatusesOk(s) && NextStep(s, step, s')
    ensures LocksOk(s')
  {
    hide NextStep;
    StepLocal(s, step, s');
    SeenOnly(s, step, s');
    var p, k := step.p, Seen(s, step);
    assert LockAt(s, p) && StatusOk(s.procs[p]);
    LockMoves(s, step, s');
    forall q | 0 <= q < |s'.procs| && q != p ensures LockAt(s', q) {
      assert LockAt(s, q) && s'.procs[q].pc == s.procs[q].pc;
      if HoldsSelf(s.procs[q].pc) {
        LockStays(s, step, s', q, q);
      }
      if s.procs[q].pc.Checking? {
        LockStays(s, step, s', s.procs[q].pc.k, q);
      }
    }
  }

  // ---- states ----

  lemma StatusMoves(s: State, step: Step, s': State)
    requires NextStep(s, step, s') && LockAt(s, step.p) && StatusOk(s.procs[step.p])
    ensures step.p < |s'.procs| && StatusOk(s'.procs[step.p])
  {
  }

  lemma StatusSeen(s: State, step: Step, s': State)
    requires NextStep(s, step, s') && LockAt(s, step.p) && Seen(s, step) < |s.procs| && LockAt(s, Seen(s, step)) &&
      StatusOk(s.procs[Seen(s, step)])
    ensures Seen(s, step) != step.p ==> Seen(s, step) < |s'.procs| && StatusOk(s'.procs[Seen(s, step)])
  {
  }

  lemma KeepsStatus(s: State, step: Step, s': State)
    requires StatusesOk(s) && LocksOk(s) && NextStep(s, step, s')
    ensures StatusesOk(s')
  {
    hide NextStep;
    hide StatusOk;
    StepLocal(s, step, s');
    var p, k := step.p, Seen(s, step);
    assert LockAt(s, p);
    StatusMoves(s, step, s');
    if k < |s.procs| {
      assert LockAt(s, k);
      StatusSeen(s, step, s');
    }
  }

  // ---- wakeups ----

  /** The process that runs starts to wait only while the lock is taken. */
  lemma WaitMoves(s: State, step: Step, s': State)
    requires NextStep(s, step, s') && SpinAt(s, step.p) && OwnerAt(s, step.p) && StatusOk(s.procs[step.p])
    ensures step.p < |s'.procs| && (Waiting(s'.procs[step.p]) && s'.owner.None? ==>
      Waiting(s.procs[step.p]) && s.owner.None?)
    ensures Waiting(s.procs[step.p]) ==> s.spin != Some(step.p) && s'.spin == s.spin && s'.owner == s.owner
  {
  }

  /** A process that wakeup() has looked at is not waiting any more. */
  lemma SeenWakes(s: State, step: Step, s': State)
    requires NextStep(s, step, s') && LockAt(s, step.p) && Seen(s, step) != step.p && Seen(s, step) < |s.procs|
    requires LockAt(s, Seen(s, step)) && StatusOk(s.procs[Seen(s, step)])
    ensures var k := Seen(s, step); k < |s'.procs| && (Waiting(s'.procs[k]) ==> Waiting(s.procs[k]))
    ensures s.procs[step.p].pc.Checking? ==> !Waiting(s'.procs[Seen(s, step)])
  {
  }

  /** wakeup() goes on to the next process only after it has looked at this one. */
  lemma ScanMoves(s: State, step: Step, s': State, q: nat)
    requires NextStep(s, step, s') && SpinAt(s, step.p) && OwnerAt(s, step.p) && q < |s.procs| && q != step.p
    ensures step.p < |s'.procs|
    ensures s.owner.Some? && s'.owner.None? ==> s'.spin == Some(step.p) && WillSee(s'.procs[step.p].pc, q)
    ensures WillSee(s.procs[step.p].pc, q) && !(s.procs[step.p].pc.Checking? && Seen(s, step) == q) ==>
      s'.spin == s.spin && WillSee(s'.procs[step.p].pc, q)
    ensures s.owner.None? && s.spin.Some? && s.spin != Some(step.p) ==> s'.spin == s.spin
  {
  }

  lemma KeepsWakeup(s: State, step: Step, s': State)
    requires Inv(s) && NextStep(s, step, s')
    ensures NoLostWakeup(s')
  {
    hide NextStep;
    hide StatusOk;
    hide WillSee;
    hide Waiting;
    StepLocal(s, step, s');
    var p, k := step.p, Seen(s, step);
    assert SpinAt(s, p) && OwnerAt(s, p) && LockAt(s, p) && StatusOk(s.procs[p]);
    WaitMoves(s, step, s');
    if s'.owner.None? {
      forall q | 0 <= q < |s'.procs| && Waiting(s'.procs[q])
        ensures s'.spin.Some? && s'.spin.value < |s'.procs| && WillSee(s'.procs[s'.spin.value].pc, q) {
        WakeupFor(s, step, s', q);
      }
    }
  }

  lemma WakeupFor(s: State, step: Step, s': State, q: nat)
    requires Inv(s) && NextStep(s, step, s') && s'.owner.None? && q < |s'.procs| && Waiting(s'.procs[q])
    ensures s'.spin.Some? && s'.spin.value < |s'.procs| && WillSee(s'.procs[s'.spin.value].pc, q)
  {
    hide NextStep;
    hide StatusOk;
    hide WillSee;
    hide Waiting;
    StepLocal(s, step, s');
    SeenOnly(s, step, s');
    var p, k := step.p, Seen(s, step);
    assert SpinAt(s, p) && OwnerAt(s, p) && LockAt(s, p) && StatusOk(s.procs[p]);
    WaitMoves(s, step, s');
    if q == p {
      assert WillSee(s.procs[s.spin.value].pc, q);
      assert SpinAt(s, s.spin.value);
    } else {
      ScanMoves(s, step, s', q);
      if q == k {
        assert LockAt(s, k) && StatusOk(s.procs[k]);
        SeenWakes(s, step, s');
      }
      assert Waiting(s.procs[q]);
    }
  }

  /** Every step of every process keeps the invariant. */
  lemma StepKeepsInv(s: State, step: Step, s': State)
    requires Inv(s) && NextStep(s, step, s')
    ensures Inv(s')
  {
    hide NextStep;
    KeepsSpin(s, step, s');
    KeepsOwner(s, step, s');
    KeepsLocks(s, step, s');
    KeepsStatus(s, step, s');
    KeepsWakeup(s, step, s');
  }

  // ---- whole runs ----

  ghost predicate IsRun(run: seq<State>)
  {
    run != [] && Init(run[0]) && forall i, j :: 0 <= i < |run| && j == i + 1 && j < |run| ==> Next(run[i], run[j])
  }

  lemma {:induction false} RunKeepsInv(run: seq<State>, i: nat)
    requires IsRun(run) && i < |run|
    ensures Inv(run[i])
  {
    hide Inv;
    hide NextStep;
    if i == 0 {
      InitInv(run[0]);
    } else {
      RunKeepsInv(run, i - 1);
      assert Next(run[i - 1], run[i]);
      var step :| NextStep(run[i - 1], step, run[i]);
      StepKeepsInv(run[i - 1], step, run[i]);
    }
  }

  /** In every state of every run at most one process is past acquiresleep(), and it is the recorded owner. */
  lemma MutualExclusion(run: seq<State>, i: nat, p: nat, q: nat)
    requires IsRun(run) && i < |run| && p < |run[i].procs| && q < |run[i].procs|
    requires run[i].procs[p].pc.Inside? && run[i].procs[q].pc.Inside?
    ensures p == q && run[i].owner == Some(p)
  {
    RunKeepsInv(run, i);
    assert SpinAt(run[i], p) && SpinAt(run[i], q);
  }

  /** When lk->lk is free and the lock is not taken, nobody sleeps on it or is about to. */
  lemma NobodySleepsOnFreeLock(run: seq<State>, i: nat, q: nat)
    requires IsRun(run) && i < |run| && q < |run[i].procs| && run[i].spin.None? && run[i].owner.None?
    ensures !Waiting(run[i].procs[q])
    ensures !(run[i].procs[q].status.Sleeping? && run[i].procs[q].chan.ThisLock?)
  {
    RunKeepsInv(run, i);
    assert StatusOk(run[i].procs[q]);
  }

  /** How many spinlocks a process holds: its noff. */
  function Depth(s: State, p: nat): nat
    requires p < |s.procs|
  {
    var pc := s.procs[p].pc;
    (if s.spin == Some(p) then 1 else 0) + (if HoldsSelf(pc) then 1 else 0) + (if pc.Checking? then 1 else 0)
  }

  /** sched() finds what it checks: the caller holds its own p->lock, no other spinlock, and is not RUNNING. */
  lemma SchedChecks(run: seq<State>, i: nat, p: nat)
    requires IsRun(run) && i < |run| && p < |run[i].procs| && run[i].procs[p].pc.Switching?
    ensures run[i].procs[p].lock == Some(p) && Depth(run[i], p) == 1 && !run[i].procs[p].status.Running?
  {
    RunKeepsInv(run, i);
    assert SpinAt(run[i], p) && LockAt(run[i], p) && StatusOk(run[i].procs[p]);
  }
}

/**
 fork(), exit(), wait() and reparent(): every interleaving of any number of processes.  Each line that
 touches shared state is one step; a critical section of another process's p->lock, which only tests and
 sets that process's fields, is one step too and needs that lock to be free.
 */
module ProcTree {
  import opened Prelude

  const INIT: nat := 0

  /** Where a process is. */
  datatype Pc =
    | Free                            // no process in this slot
    | Embryo(maker: nat)              // allocated by a fork() that has not finished
    | User                            // anything outside these system calls
    | Copying(np: nat)                // fork: holding np->lock
    | Adopting(np: nat)               // acquire(&wait_lock)
    | SettingParent(np: nat)          // np->parent = p
    | Adopted(np: nat)                // release(&wait_lock)
    | Starting(np: nat)               // np->state = RUNNABLE
    | Exiting                         // exit: acquire(&wait_lock)
    | Reparenting(i: nat)             // reparent: for each pp
    | WakingInit(i: nat)              // wakeup(initproc), after giving it process i
    | WakingParent                    // wakeup(p->parent)
    | LockingSelf                     // acquire(&p->lock)
    | Dying                           // p->state = ZOMBIE
    | LettingGo                       // release(&wait_lock)
    | Departing                       // sched(), never to return
    | Gone                            // off the CPU for good
    | Waiting                         // wait: acquire(&wait_lock)
    | Scanning(i: nat, kids: bool)    // for each np
    | Leaving                         // release(&wait_lock)
    | SleepLocking                    // sleep: acquire(&p->lock)
    | SleepUnlocking                  // release(&wait_lock)
    | SettingChan                     // p->chan = p
    | SettingState                    // p->state = SLEEPING
    | Switching                       // sched()
    | Parked                          // off the CPU
    | ClearingChan                    // p->chan = 0
    | WakeUnlocking                   // release(&p->lock)

  datatype Status = UNUSED | USED | SLEEPING | RUNNABLE | RUNNING | ZOMBIE

  /** `own` says that p->chan is p; `lock` is who holds p->lock. */
  datatype Proc = Proc(pc: Pc, status: Status, parent: Option<nat>, own: bool, lock: Option<nat>, pid: nat)

  /** A zombie collected by wait(): its pid, and the slots of the child and of its parent. */
  datatype Reap = Reap(pid: nat, child: nat, parent: nat)

  datatype State = State(procs: seq<Proc>, wait: Option<nat>, nextpid: nat, reaps: seq<Reap>)

  predicate Init(s: State) {
    && |s.procs| > INIT && s.wait.None? && s.reaps == []
    && s.procs[INIT] == Proc(User, RUNNABLE, None, false, None, 1) && s.nextpid == 2
    && forall p :: 0 <= p < |s.procs| && p != INIT ==> s.procs[p] == Proc(Free, UNUSED, None, false, None, 0)
  }

  /** wakeup() as far as process q is concerned. */
  function Woken(q: Proc): Proc {
    if q.status.SLEEPING? && q.own then q.(status := RUNNABLE) else q
  }

  /** freeproc() */
  function Freed(): Proc {
    Proc(Free, UNUSED, None, false, None, 0)
  }

  /** What a step of process p does: to p itself, to one other process k (or none, if k is p), and to the rest. */
  datatype Effect = Effect(me: Proc, k: nat, other: Proc, wait: Option<nat>, nextpid: nat, reaps: seq<Reap>)

  function Self(s: State, p: nat, me: Proc): Effect {
    Effect(me, p, me, s.wait, s.nextpid, s.reaps)
  }

  function Both(s: State, me: Proc, k: nat, other: Proc): Effect {
    Effect(me, k, other, s.wait, s.nextpid, s.reaps)
  }

  function Apply(s: State, p: nat, e: Effect): State
    requires p < |s.procs| && e.k < |s.procs|
  {
    State(s.procs[p := e.me][e.k := e.other], e.wait, e.nextpid, e.reaps)
  }

  /** What p does next, or None if it has to wait; `c` is what it chooses where it can choose. */
  function Advance(s: State, p: nat, c: nat): Option<Effect>
    requires p < |s.procs|
  {
    var pc := s.procs[p].pc;
    if pc.User? then
      if c == 0 then (if p == INIT then None else Some(Self(s, p, s.procs[p].(pc := Exiting))))
      else if c == 1 then Some(Self(s, p, s.procs[p].(pc := Waiting)))
      else Alloc(s, p, c - 2)
    else if InFork(pc) then Fork(s, p, c)
    else if InExit(pc) then Exit(s, p)
    else if pc.Waiting? || pc.Scanning? || pc.Leaving? then Wait(s, p, c)
    else Sleep(s, p)
  }

  predicate InFork(pc: Pc) {
    pc.Copying? || pc.Adopting? || pc.SettingParent? || pc.Adopted? || pc.Starting?
  }

  predicate InExit(pc: Pc) {
    pc.Exiting? || pc.Reparenting? || pc.WakingInit? || pc.WakingParent? || pc.LockingSelf? || pc.Dying? ||
      pc.LettingGo?
  }

  function Fork(s: State, p: nat, c: nat): Option<Effect>
    requires p < |s.procs| && InFork(s.procs[p].pc)
  {
    var me := s.procs[p];
    match me.pc
    case Copying(np) => if np >= |s.procs| || np == p then None else Copied(s, p, np, c)
    case Adopting(np) => if s.wait.None? then Some(Self(s, p, me.(pc := SettingParent(np))).(wait := Some(p))) else None
    case SettingParent(np) =>
      if np >= |s.procs| || np == p then None
      else Some(Both(s, me.(pc := Adopted(np)), np, s.procs[np].(parent := Some(p))))
    case Adopted(np) => Some(Self(s, p, me.(pc := Starting(np))).(wait := None))
    case Starting(np) => if np >= |s.procs| || np == p then None else Start(s, p, np)
  }

  function Exit(s: State, p: nat): Option<Effect>
    requires p < |s.procs| && InExit(s.procs[p].pc)
  {
    var me := s.procs[p];
    match me.pc
    case Exiting => if s.wait.None? then Some(Self(s, p, me.(pc := Reparenting(0))).(wait := Some(p))) else None
    case Reparenting(i) =>
      if i >= |s.procs| then Some(Self(s, p, me.(pc := WakingParent)))
      else if i != p && s.procs[i].parent == Some(p)
        then Some(Both(s, me.(pc := WakingInit(i)), i, s.procs[i].(parent := Some(INIT))))
      else Some(Self(s, p, me.(pc := Reparenting(i + 1))))
    case WakingInit(i) => if INIT < |s.procs| && INIT != p then Wake(s, p, INIT, Reparenting(i + 1)) else None
    case WakingParent =>
      if me.parent.Some? && me.parent.value < |s.procs| && me.parent.value != p
        then Wake(s, p, me.parent.value, LockingSelf) else None
    case LockingSelf => if me.lock.None? then Some(Self(s, p, me.(pc := Dying, lock := Some(p)))) else None
    case Dying => Some(Self(s, p, me.(pc := LettingGo, status := ZOMBIE)))
    case LettingGo => Some(Self(s, p, me.(pc := Departing)).(wait := None))
  }

  function Wait(s: State, p: nat, c: nat): Option<Effect>
    requires p < |s.procs|
  {
    var me := s.procs[p];
    match me.pc
    case Waiting => if s.wait.None? then Some(Self(s, p, me.(pc := Scanning(0, false))).(wait := Some(p))) else None
    case Scanning(i, kids) => Scan(s, p, i, kids, c)
    case Leaving => Some(Self(s, p, me.(pc := User)).(wait := None))
    case _ => None
  }

  /** sleep(p, &wait_lock), on either side of sched(). */
  function Sleep(s: State, p: nat): Option<Effect>
    requires p < |s.procs|
  {
    var me := s.procs[p];
    match me.pc
    case SleepLocking => if me.lock.None? then Some(Self(s, p, me.(pc := SleepUnlocking, lock := Some(p)))) else None
    case SleepUnlocking => Some(Self(s, p, me.(pc := SettingChan)).(wait := None))
    case SettingChan => Some(Self(s, p, me.(pc := SettingState, own := true)))
    case SettingState => Some(Self(s, p, me.(pc := Switching, status := SLEEPING)))
    case ClearingChan => Some(Self(s, p, me.(pc := WakeUnlocking, own := false)))
    case WakeUnlocking => Some(Self(s, p, me.(pc := Waiting, lock := None)))
    case _ => None
  }

  /** allocproc(): an unused slot becomes USED, with its lock held. */
  function Alloc(s: State, p: nat, np: nat): Option<Effect>
    requires p < |s.procs|
  {
    if np < |s.procs| && np != p && s.procs[np].status.UNUSED? && s.procs[np].lock.None? then
      Some(Both(s, s.procs[p].(pc := Copying(np)), np, s.procs[np].(pc := Embryo(p), status := USED, lock := Some(p),
        pid := s.nextpid)).(nextpid := s.nextpid + 1))
    else None
  }

  /** uvmcopy() fails and the slot is freed, or all is copied and np->lock is released. */
  function Copied(s: State, p: nat, np: nat, c: nat): Option<Effect>
    requires p < |s.procs| && np < |s.procs| && np != p
  {
    if c == 0 then Some(Both(s, s.procs[p].(pc := User), np, Freed()))
    else Some(Both(s, s.procs[p].(pc := Adopting(np)), np, s.procs[np].(lock := None)))
  }

  function Start(s: State, p: nat, np: nat): Option<Effect>
    requires p < |s.procs| && np < |s.procs| && np != p
  {
    if s.procs[np].lock.None?
      then Some(Both(s, s.procs[p].(pc := User), np, s.procs[np].(pc := User, status := RUNNABLE))) else None
  }

  function Wake(s: State, p: nat, q: nat, pc: Pc): Option<Effect>
    requires p < |s.procs| && q < |s.procs| && q != p
  {
    if s.procs[q].lock.None? then Some(Both(s, s.procs[p].(pc := pc), q, Woken(s.procs[q]))) else None
  }

  /** One turn of the scan of wait(), or what follows the scan. */
  function Scan(s: State, p: nat, i: nat, kids: bool, c: nat): Option<Effect>
    requires p < |s.procs|
  {
    var me := s.procs[p];
    if i >= |s.procs| then Some(Self(s, p, me.(pc := if !kids || c == 0 then Leaving else SleepLocking)))
    else if i == p || s.procs[i].parent != Some(p) then Some(Self(s, p, me.(pc := Scanning(i + 1, kids))))
    else if s.procs[i].lock.Some? then None
    else if !s.procs[i].status.ZOMBIE? then Some(Self(s, p, me.(pc := Scanning(i + 1, true))))
    else if c == 0 then Some(Self(s, p, me.(pc := Leaving)))
    else Some(Both(s, me.(pc := Leaving), i, Freed()).(reaps := s.reaps + [Reap(s.procs[i].pid, i, p)]))
  }

  datatype Step =
    | Run(p: nat, c: nat)
    | Switch(p: nat)       // the scheduler takes over and releases p->lock
    | Dispatch(p: nat)     // the scheduler runs a runnable process
    | Yield(p: nat)        // the timer takes the CPU from a process that holds no spinlock
    | Kick(p: nat)         // kill() of a sleeping process
    | Doze(p: nat)         // sleeping somewhere else

  predicate Preemptible(pc: Pc) {
    pc.User? || pc.Adopting? || pc.Starting? || pc.Exiting? || pc.Waiting?
  }

  function Outcome(s: State, step: Step): Option<Effect>
    requires step.p < |s.procs|
  {
    var p, me := step.p, s.procs[step.p];
    match step
    case Run(_, c) => if me.status.RUNNING? || me.pc.LettingGo? then Advance(s, p, c) else None
    case Switch(_) =>
      if me.pc.Switching? then Some(Self(s, p, me.(pc := Parked, lock := None)))
      else if me.pc.Departing? then Some(Self(s, p, me.(pc := Gone, lock := None)))
      else None
    case Dispatch(_) =>
      if !me.status.RUNNABLE? || me.lock.Some? then None
      else if me.pc.Parked? then Some(Self(s, p, me.(pc := ClearingChan, status := RUNNING, lock := Some(p))))
      else Some(Self(s, p, me.(status := RUNNING)))
    case Yield(_) =>
      if me.status.RUNNING? && Preemptible(me.pc) && me.lock.None? then Some(Self(s, p, me.(status := RUNNABLE)))
      else None
    case Kick(_) => if me.status.SLEEPING? && me.lock.None? then Some(Self(s, p, me.(status := RUNNABLE))) else None
    case Doze(_) =>
      if me.status.RUNNING? && me.pc.User? && me.lock.None? then Some(Self(s, p, me.(status := SLEEPING))) else None
  }

  ghost predicate NextStep(s: State, step: Step, s': State)
  {
    step.p < |s.procs| && Outcome(s, step).Some? && Outcome(s, step).value.k < |s.procs| &&
      s' == Apply(s, step.p, Outcome(s, step).value)
  }

  ghost predicate Next(s: State, s': State)
  {
    exists step :: NextStep(s, step, s')
  }

  // ---- the invariant ----

  predicate HoldsWait(pc: Pc) {
    || pc.SettingParent? || pc.Adopted? || pc.Reparenting? || pc.WakingInit? || pc.WakingParent? || pc.LockingSelf?
    || pc.Dying? || pc.LettingGo? || pc.Scanning? || pc.Leaving? || pc.SleepLocking? || pc.SleepUnlocking?
  }

  predicate HoldsSelf(pc: Pc) {
    || pc.Dying? || pc.LettingGo? || pc.Departing? || pc.SleepUnlocking? || pc.SettingChan? || pc.SettingState?
    || pc.Switching? || pc.ClearingChan? || pc.WakeUnlocking?
  }

  /** Making np, a child that has not started. */
  predicate Making(pc: Pc, np: nat) {
    (pc.Copying? || pc.Adopting? || pc.SettingParent? || pc.Adopted? || pc.Starting?) && pc.np == np
  }

  predicate Dead(pc: Pc) {
    pc.LettingGo? || pc.Departing? || pc.Gone?
  }

  /** In sleep() between release(&wait_lock) and SLEEPING, or asleep in wait(). */
  predicate Asleep(q: Proc) {
    q.pc.SettingChan? || q.pc.SettingState? || q.pc.Switching? || (q.pc.Parked? && q.status.SLEEPING?)
  }

  /** A process at this point cannot be the parent of k. */
  predicate Childless(pc: Pc, k: nat) {
    || pc.Free? || pc.Embryo? || pc.WakingParent? || pc.LockingSelf? || pc.Dying? || Dead(pc)
    || (pc.Reparenting? && k < pc.i) || (pc.WakingInit? && k <= pc.i)
  }

  /** A process at this point has looked at its child k under wait_lock and found it alive. */
  predicate HasSeen(pc: Pc, k: nat) {
    (pc.Scanning? && k < pc.i) || pc.SleepLocking? || pc.SleepUnlocking?
  }

  predicate WaitAt(s: State, p: nat)
    requires p < |s.procs|
  {
    s.wait == Some(p) <==> HoldsWait(s.procs[p].pc)
  }

  predicate LockAt(s: State, p: nat)
    requires p < |s.procs|
  {
    && (HoldsSelf(s.procs[p].pc) ==> s.procs[p].lock == Some(p))
    && (s.procs[p].pc.Copying? ==> var k := s.procs[p].pc.np; k < |s.procs| && k != p && s.procs[k].lock == Some(p))
  }

  /** The fields of one process agree with where it is. */
  predicate StatusOk(q: Proc) {
    && (q.pc.Free? <==> q.status.UNUSED?) && (q.pc.Embryo? <==> q.status.USED?) && (Dead(q.pc) <==> q.status.ZOMBIE?)
    && (q.pc.Free? ==> q.parent.None?)
    && (q.pc.Switching? ==> q.status.SLEEPING? && q.own)
    && (q.pc.Parked? ==> q.own && (q.status.SLEEPING? || q.status.RUNNABLE?))
    && (q.pc.SettingState? ==> q.own)
    && (q.own ==> q.pc.SettingState? || q.pc.Switching? || q.pc.Parked? || q.pc.ClearingChan?)
    && (!q.pc.Free? && !q.pc.Embryo? && !q.pc.User? && !q.pc.Switching? && !q.pc.Parked? && !Dead(q.pc) ==>
       q.status.RUNNING? || (Preemptible(q.pc) && q.status.RUNNABLE?))
  }

  /** Processes being made and their makers name each other. */
  predicate MakerAt(s: State, p: nat)
    requires p < |s.procs|
  {
    var pc := s.procs[p].pc;
    && (pc.Copying? || pc.Adopting? || pc.SettingParent? || pc.Adopted? || pc.Starting? ==>
          pc.np < |s.procs| && pc.np != p && s.procs[pc.np].pc == Embryo(p)
          && s.procs[pc.np].parent == if pc.Adopted? || pc.Starting? then Some(p) else None)
    && (pc.Embryo? ==> pc.maker < |s.procs| && pc.maker != p && Making(s.procs[pc.maker].pc, p))
  }

  /** A started process has a parent that can have children. */
  predicate ParentAt(s: State, k: nat)
    requires k < |s.procs|
  {
    var q := s.procs[k].parent;
    && (k != INIT && !s.procs[k].pc.Free? && !s.procs[k].pc.Embryo? ==> q.Some?)
    && (q.Some? ==> k != INIT && q.value < |s.procs| && q.value != k && !Childless(s.procs[q.value].pc, k))
  }

  /** A parent asleep in wait() has no zombie child, but for init while a wakeup for it is under way. */
  predicate SleepAt(s: State, k: nat)
    requires k < |s.procs|
  {
    var me := s.procs[k];
    me.parent.Some? && me.parent.value < |s.procs| ==>
      var q := s.procs[me.parent.value];
      && (me.status.ZOMBIE? ==> !HasSeen(q.pc, k))
      && (me.pc.LockingSelf? || me.pc.Dying? || me.pc.LettingGo? ==> !Asleep(q))
      && (me.status.ZOMBIE? && Asleep(q) ==>
            me.parent.value == INIT && s.wait.Some? && s.wait.value < |s.procs| &&
              s.procs[s.wait.value].pc == WakingInit(k))
  }

  predicate InitAt(s: State) {
    && INIT < |s.procs| && !InExit(s.procs[INIT].pc) && !Dead(s.procs[INIT].pc)
    && !s.procs[INIT].pc.Free? && !s.procs[INIT].pc.Embryo?
  }

  ghost predicate Inv(s: State)
  {
    && InitAt(s) && (s.wait.Some? ==> s.wait.value < |s.procs|)
    && (forall p :: 0 <= p < |s.procs| ==> WaitAt(s, p))
    && (forall p :: 0 <= p < |s.procs| ==> LockAt(s, p))
    && (forall p :: 0 <= p < |s.procs| ==> StatusOk(s.procs[p]))
    && (forall p :: 0 <= p < |s.procs| ==> MakerAt(s, p))
    && (forall p :: 0 <= p < |s.procs| ==> ParentAt(s, p))
    && (forall p :: 0 <= p < |s.procs| ==> SleepAt(s, p))
  }

  lemma InitInv(s: State)
    requires Init(s)
    ensures Inv(s)
  {
  }

  // ---- what one step can change ----

  /** The effect e of a step of p takes s to s'. */
  ghost predicate Effected(s: State, p: nat, e: Effect, s': State)
  {
    && p < |s.procs| && e.k < |s.procs| && |s'.procs| == |s.procs|
    && (e.k == p ==> e.other == e.me)
    && s'.procs[p] == e.me && s'.procs[e.k] == e.other
    && (forall q :: 0 <= q < |s.procs| && q != p && q != e.k ==> s'.procs[q] == s.procs[q])
    && s'.wait == e.wait && s'.nextpid == e.nextpid && s'.reaps == e.reaps
  }

  lemma StepEffect(s: State, step: Step, s': State)
    requires NextStep(s, step, s')
    ensures step.p < |s.procs| && Outcome(s, step).Some? && Effected(s, step.p, Outcome(s, step).value, s')
  {
  }

  /** What every effect does to the process that runs, and to wait_lock. */
  predicate OwnOk(s: State, p: nat, e: Effect)
    requires p < |s.procs|
  {
    && (e.wait == s.wait || (s.wait.None? && e.wait == Some(p)) || (s.wait == Some(p) && e.wait.None?))
    && (e.wait == Some(p) <==> HoldsWait(e.me.pc))
    && StatusOk(e.me) && e.me.parent == s.procs[p].parent && e.me.pid == s.procs[p].pid
    && !s.procs[p].pc.Free? && !s.procs[p].pc.Embryo?
    && (HoldsSelf(e.me.pc) ==> e.me.lock == Some(p))
    && (e.me.lock != s.procs[p].lock ==> s.procs[p].lock.None? || s.procs[p].lock == Some(p))
    && (e.me.pc.Copying? ==> s.procs[p].pc.User? && e.k == e.me.pc.np && e.k != p)
    && (e.me.pc.WakingInit? ==> e.k == e.me.pc.i && e.k != p)
    && (s.procs[p].pc.WakingInit? ==> e.k == INIT && e.k != p)
    && (s.procs[p].pc.WakingParent? ==> s.procs[p].parent == Some(e.k) && e.k != p)
    && (InFork(e.me.pc) && e.k == p ==>
       InFork(s.procs[p].pc) && s.procs[p].pc.np == e.me.pc.np && (Late(e.me.pc) <==> Late(s.procs[p].pc)))
    && (InFork(e.me.pc) && e.k != p ==> e.k == e.me.pc.np)
    && (InFork(s.procs[p].pc) ==>
       (InFork(e.me.pc) && e.me.pc.np == s.procs[p].pc.np) || (e.k == s.procs[p].pc.np &&
       (e.other.pc.User? || e.other.pc.Free?)))
  }

  /** A fork() that has set the parent of the new process. */
  predicate Late(pc: Pc) {
    pc.Adopted? || pc.Starting?
  }

  /** Who may exit, and when pids are handed out and collected. */
  predicate CountOk(s: State, p: nat, e: Effect)
    requires p < |s.procs| && e.k < |s.procs|
  {
    && (InExit(e.me.pc) ==> InExit(s.procs[p].pc) || p != INIT)
    && (Dead(e.me.pc) ==> InExit(s.procs[p].pc) || Dead(s.procs[p].pc))
    && ((e.nextpid == s.nextpid && e.reaps == s.reaps && (e.k != p ==>
       e.other.pid == s.procs[e.k].pid || e.other.pc.Free?))
        || (e.k != p && s.procs[e.k].status.UNUSED? && e.nextpid == s.nextpid + 1 && e.reaps == s.reaps &&
           e.other.pid == s.nextpid)
        || (e.k != p && e.nextpid == s.nextpid && e.other == Freed() && s.procs[e.k].status.ZOMBIE? &&
           s.procs[e.k].parent == Some(p)
            && s.procs[e.k].lock.None? && e.reaps == s.reaps + [Reap(s.procs[e.k].pid, e.k, p)]))
  }

  lemma CountFork(s: State, p: nat, c: nat)
    requires p < |s.procs| && InFork(s.procs[p].pc) && Fork(s, p, c).Some? && Fork(s, p, c).value.k < |s.procs|
    ensures CountOk(s, p, Fork(s, p, c).value)
  {
  }

  lemma CountExit(s: State, p: nat)
    requires p < |s.procs| && InExit(s.procs[p].pc) && Exit(s, p).Some? && Exit(s, p).value.k < |s.procs|
    ensures CountOk(s, p, Exit(s, p).value)
  {
  }

  lemma CountMoves(s: State, step: Step)
    requires step.p < |s.procs| && Outcome(s, step).Some? && Outcome(s, step).value.k < |s.procs| &&
      StatusOk(s.procs[step.p])
    ensures CountOk(s, step.p, Outcome(s, step).value)
  {
    hide Fork;
    hide Exit;
    hide StatusOk;
    var pc := s.procs[step.p].pc;
    if step.Run? && InFork(pc) {
      CountFork(s, step.p, step.c);
    } else if step.Run? && InExit(pc) {
      CountExit(s, step.p);
    }
  }

  predicate OwnReady(s: State, p: nat)
    requires p < |s.procs|
  {
    WaitAt(s, p) && LockAt(s, p) && StatusOk(s.procs[p])
  }

  lemma OwnFork(s: State, p: nat, c: nat)
    requires p < |s.procs| && OwnReady(s, p) && InFork(s.procs[p].pc) && Fork(s, p, c).Some? &&
      s.procs[p].status.RUNNING?
    ensures OwnOk(s, p, Fork(s, p, c).value)
  {
  }

  lemma OwnExit(s: State, p: nat)
    requires p < |s.procs| && OwnReady(s, p) && InExit(s.procs[p].pc) && Exit(s, p).Some? &&
      (s.procs[p].status.RUNNING? || s.procs[p].pc.LettingGo?)
    ensures OwnOk(s, p, Exit(s, p).value)
  {
  }

  lemma OwnWait(s: State, p: nat, c: nat)
    requires p < |s.procs| && OwnReady(s, p) && Wait(s, p, c).Some? && s.procs[p].status.RUNNING?
    ensures OwnOk(s, p, Wait(s, p, c).value)
  {
  }

  lemma OwnSleep(s: State, p: nat)
    requires p < |s.procs| && OwnReady(s, p) && Sleep(s, p).Some?
    ensures OwnOk(s, p, Sleep(s, p).value)
  {
  }

  lemma OwnMoves(s: State, step: Step)
    requires step.p < |s.procs| && Outcome(s, step).Some? && OwnReady(s, step.p)
    ensures OwnOk(s, step.p, Outcome(s, step).value)
  {
    hide Fork;
    hide Exit;
    hide Wait;
    hide Sleep;
    var pc := s.procs[step.p].pc;
    if step.Run? && !pc.User? {
      if InFork(pc) {
        OwnFork(s, step.p, step.c);
      } else if InExit(pc) {
        OwnExit(s, step.p);
      } else if pc.Waiting? || pc.Scanning? || pc.Leaving? {
        OwnWait(s, step.p, step.c);
      } else {
        OwnSleep(s, step.p);
      }
    }
  }

  // ---- the eight ways to change another process ----

  datatype Touch = Allocates | Aborts | Copies | Adopts | Starts | Reparents | Wakes | Reaps

  predicate Touches(s: State, p: nat, e: Effect, t: Touch)
    requires p < |s.procs| && e.k < |s.procs|
  {
    var pc, q := s.procs[p].pc, s.procs[e.k];
    match t
    case Allocates =>
      e.nextpid == s.nextpid + 1 && pc.User? && q.status.UNUSED? && q.lock.None? && e.me.pc == Copying(e.k) &&
      e.other == q.(pc := Embryo(p), status := USED, lock := Some(p), pid := s.nextpid)
    case Aborts => pc == Copying(e.k) && e.me.pc.User? && e.other == Freed()
    case Copies => pc == Copying(e.k) && e.me.pc == Adopting(e.k) && e.other == q.(lock := None)
    case Adopts => pc == SettingParent(e.k) && e.me.pc == Adopted(e.k) && e.other == q.(parent := Some(p))
    case Starts => pc == Starting(e.k) && q.lock.None? && e.me.pc.User? && e.other == q.(pc := User, status := RUNNABLE)
    case Reparents =>
      pc == Reparenting(e.k) && q.parent == Some(p) && e.me.pc == WakingInit(e.k) && e.other == q.(parent := Some(INIT))
    case Wakes =>
      && q.lock.None? && e.other == Woken(q)
      && ((pc.WakingInit? && e.k == INIT && e.me.pc == Reparenting(pc.i + 1)) ||
         (pc.WakingParent? && s.procs[p].parent == Some(e.k) && e.me.pc.LockingSelf?))
    case Reaps =>
      pc.Scanning? && pc.i == e.k && q.parent == Some(p) && q.status.ZOMBIE? && q.lock.None? && e.me.pc.Leaving? &&
      e.other == Freed()
  }

  lemma TouchFork(s: State, p: nat, c: nat) returns (t: Touch)
    requires p < |s.procs| && InFork(s.procs[p].pc) && Fork(s, p, c).Some? && Fork(s, p, c).value.k < |s.procs|
    ensures Fork(s, p, c).value.k != p ==> Touches(s, p, Fork(s, p, c).value, t)
  {
    var pc := s.procs[p].pc;
    t := if pc.Copying? then (if c == 0 then Aborts else Copies) else if pc.SettingParent? then Adopts else Starts;
  }

  lemma TouchExit(s: State, p: nat) returns (t: Touch)
    requires p < |s.procs| && InExit(s.procs[p].pc) && Exit(s, p).Some? && Exit(s, p).value.k < |s.procs|
    ensures Exit(s, p).value.k != p ==> Touches(s, p, Exit(s, p).value, t)
  {
    t := if s.procs[p].pc.Reparenting? then Reparents else Wakes;
  }

  lemma TouchKind(s: State, step: Step) returns (t: Touch)
    requires step.p < |s.procs| && Outcome(s, step).Some? && Outcome(s, step).value.k < |s.procs| &&
      Outcome(s, step).value.k != step.p
    ensures step.Run? && Touches(s, step.p, Outcome(s, step).value, t)
  {
    hide Fork;
    hide Exit;
    var pc := s.procs[step.p].pc;
    t := Reaps;
    if pc.User? {
      t := Allocates;
    } else if InFork(pc) {
      t := TouchFork(s, step.p, step.c);
    } else if InExit(pc) {
      t := TouchExit(s, step.p);
    }
  }

  // ---- how the line of a process moves ----

  /** A process at a later line than `old` when it may be at `now`, as far as parents and zombies go. */
  predicate LineOk(s: State, p: nat, old_: Proc, now: Proc, k: nat)
    requires k < |s.procs|
  {
    && (Childless(now.pc, k) && !Childless(old_.pc, k) ==> s.procs[k].parent != Some(p) || now.pc == WakingInit(k))
    && (HasSeen(now.pc, k) && !HasSeen(old_.pc, k) ==> s.procs[k].parent != Some(p) || !s.procs[k].status.ZOMBIE?)
    && (Asleep(now) ==> Asleep(old_) || old_.pc.SleepUnlocking?)
    && (now.status.ZOMBIE? ==> old_.status.ZOMBIE? || old_.pc.Dying?)
    && (now.pc.LockingSelf? || now.pc.Dying? || now.pc.LettingGo? ==>
       old_.pc.LockingSelf? || old_.pc.Dying? || old_.pc.LettingGo? || old_.pc.WakingParent?)
    && (now.pc.Free? || now.pc.Embryo? ==> now.pc == old_.pc)
    && (InFork(now.pc) ==> (InFork(old_.pc) && old_.pc.np == now.pc.np) || (old_.pc.User? && now.pc.Copying?))
  }

  lemma LineFork(s: State, p: nat, c: nat, k: nat)
    requires p < |s.procs| && InFork(s.procs[p].pc) && Fork(s, p, c).Some? && k < |s.procs| && StatusOk(s.procs[p])
    ensures LineOk(s, p, s.procs[p], Fork(s, p, c).value.me, k)
  {
  }

  lemma LineExit(s: State, p: nat, k: nat)
    requires p < |s.procs| && InExit(s.procs[p].pc) && Exit(s, p).Some? && k < |s.procs| && StatusOk(s.procs[p])
    requires s.procs[p].parent != Some(p)
    ensures LineOk(s, p, s.procs[p], Exit(s, p).value.me, k)
  {
  }

  lemma LineWait(s: State, p: nat, c: nat, k: nat)
    requires p < |s.procs| && Wait(s, p, c).Some? && k < |s.procs| && StatusOk(s.procs[p]) &&
      s.procs[p].parent != Some(p)
    ensures LineOk(s, p, s.procs[p], Wait(s, p, c).value.me, k)
  {
  }

  lemma LineSleep(s: State, p: nat, k: nat)
    requires p < |s.procs| && Sleep(s, p).Some? && k < |s.procs| && StatusOk(s.procs[p])
    ensures LineOk(s, p, s.procs[p], Sleep(s, p).value.me, k)
  {
  }

  lemma LineMoves(s: State, step: Step, k: nat)
    requires step.p < |s.procs| && Outcome(s, step).Some? && k < |s.procs| && StatusOk(s.procs[step.p]) &&
      s.procs[step.p].parent != Some(step.p)
    ensures LineOk(s, step.p, s.procs[step.p], Outcome(s, step).value.me, k)
  {
    hide Fork;
    hide Exit;
    hide Wait;
    hide Sleep;
    var pc := s.procs[step.p].pc;
    if step.Run? && !pc.User? {
      if InFork(pc) {
        LineFork(s, step.p, step.c, k);
      } else if InExit(pc) {
        LineExit(s, step.p, k);
      } else if pc.Waiting? || pc.Scanning? || pc.Leaving? {
        LineWait(s, step.p, step.c, k);
      } else {
        LineSleep(s, step.p, k);
      }
    }
  }

  /** Everything the invariant needs to know about a step. */
  ghost predicate Moved(s: State, p: nat, e: Effect, t: Touch, s': State)
  {
    && Effected(s, p, e, s') && OwnOk(s, p, e) && CountOk(s, p, e) && (e.k != p ==> Touches(s, p, e, t))
    && (forall k :: 0 <= k < |s.procs| ==> LineOk(s, p, s.procs[p], e.me, k))
  }

  lemma StepMoves(s: State, step: Step, s': State) returns (e: Effect, t: Touch)
    requires Inv(s) && NextStep(s, step, s')
    ensures step.p < |s.procs| && Outcome(s, step) == Some(e) && Moved(s, step.p, e, t, s')
  {
    hide NextStep;
    hide Outcome;
    hide OwnOk;
    hide CountOk;
    hide Touches;
    hide LineOk;
    hide StatusOk;
    hide SleepAt;
    StepEffect(s, step, s');
    e := Outcome(s, step).value;
    t := Wakes;
    var p := step.p;
    assert WaitAt(s, p) && LockAt(s, p) && StatusOk(s.procs[p]) && ParentAt(s, p);
    OwnMoves(s, step);
    CountMoves(s, step);
    if e.k != p {
      t := TouchKind(s, step);
    }
    forall k | 0 <= k < |s.procs| ensures LineOk(s, p, s.procs[p], e.me, k) {
      LineMoves(s, step, k);
    }
  }

  lemma KeepsStatus(s: State, p: nat, e: Effect, t: Touch, s': State)
    requires Inv(s) && Moved(s, p, e, t, s')
    ensures forall q :: 0 <= q < |s'.procs| ==> StatusOk(s'.procs[q])
  {
    hide CountOk;
    hide SleepAt;
    hide ParentAt;
    hide LineOk;
    if e.k != p {
      assert StatusOk(s.procs[e.k]) && MakerAt(s, p) && LockAt(s, e.k);
    }
    forall q | 0 <= q < |s'.procs| && q != p && q != e.k ensures StatusOk(s'.procs[q]) {
      assert StatusOk(s.procs[q]);
    }
  }

  /** A process that changes line by another's hand is free, embryonic, or gone for good, before and after. */
  lemma TouchedIdle(s: State, p: nat, e: Effect, t: Touch, s': State)
    requires Inv(s) && Moved(s, p, e, t, s') && e.k != p
    ensures e.other.pc == s.procs[e.k].pc || s.procs[e.k].pc.Free? || s.procs[e.k].pc == Embryo(p) ||
      s.procs[e.k].pc.Gone?
    ensures e.other.pc == s.procs[e.k].pc || e.other.pc.Free? || e.other.pc == Embryo(p) || e.other.pc.User?
  {
    hide CountOk;
    hide SleepAt;
    hide ParentAt;
    hide LineOk;
    hide OwnOk;
    assert StatusOk(s.procs[e.k]) && LockAt(s, e.k) && MakerAt(s, p);
  }

  lemma KeepsWait(s: State, p: nat, e: Effect, t: Touch, s': State)
    requires Inv(s) && Moved(s, p, e, t, s')
    ensures (s'.wait.Some? ==> s'.wait.value < |s'.procs|) && forall q :: 0 <= q < |s'.procs| ==> WaitAt(s', q)
  {
    hide CountOk;
    hide SleepAt;
    hide ParentAt;
    hide LineOk;
    hide Touches;
    hide StatusOk;
    if e.k != p {
      TouchedIdle(s, p, e, t, s');
    }
    assert WaitAt(s, p);
    forall q | 0 <= q < |s'.procs| ensures WaitAt(s', q) {
      assert WaitAt(s, q);
    }
  }

  lemma KeepsLock(s: State, p: nat, e: Effect, t: Touch, s': State)
    requires Inv(s) && Moved(s, p, e, t, s')
    ensures forall q :: 0 <= q < |s'.procs| ==> LockAt(s', q)
  {
    hide CountOk;
    hide SleepAt;
    hide ParentAt;
    hide LineOk;
    hide StatusOk;
    assert LockAt(s, p);
    LockCopying(s, p, e, t, s');
    if e.k != p {
      TouchedIdle(s, p, e, t, s');
    }
    forall q | 0 <= q < |s'.procs| && q != p ensures LockAt(s', q) {
      assert LockAt(s, q) && MakerAt(s, q) && MakerAt(s, p);
    }
  }

  lemma LockCopying(s: State, p: nat, e: Effect, t: Touch, s': State)
    requires Inv(s) && Moved(s, p, e, t, s')
    ensures LockAt(s', p)
  {
    hide CountOk;
    hide SleepAt;
    hide ParentAt;
    hide StatusOk;
    assert LockAt(s, p) && MakerAt(s, p) && LineOk(s, p, s.procs[p], e.me, 0);
  }

  lemma KeepsMaker(s: State, p: nat, e: Effect, t: Touch, s': State)
    requires Inv(s) && Moved(s, p, e, t, s')
    ensures forall q :: 0 <= q < |s'.procs| ==> MakerAt(s', q)
  {
    hide CountOk;
    hide SleepAt;
    hide ParentAt;
    hide LockAt;
    hide OwnOk;
    hide StatusOk;
    MakerSelf(s, p, e, t, s');
    forall q | 0 <= q < |s'.procs| && q != p ensures MakerAt(s', q) {
      MakerOther(s, p, e, t, s', q);
    }
  }

  lemma MakerSelf(s: State, p: nat, e: Effect, t: Touch, s': State)
    requires Inv(s) && Moved(s, p, e, t, s')
    ensures MakerAt(s', p)
  {
    hide CountOk;
    hide SleepAt;
    hide ParentAt;
    assert MakerAt(s, p) && LineOk(s, p, s.procs[p], e.me, 0) && StatusOk(s.procs[p]);
    if e.k != p {
      assert StatusOk(s.procs[e.k]);
    }
  }

  lemma MakerOther(s: State, p: nat, e: Effect, t: Touch, s': State, q: nat)
    requires Inv(s) && Moved(s, p, e, t, s') && q < |s.procs| && q != p
    ensures MakerAt(s', q)
  {
    hide CountOk;
    hide SleepAt;
    hide ParentAt;
    hide LockAt;
    hide LineOk;
    if InFork(s'.procs[q].pc) {
      MakerForks(s, p, e, t, s', q);
    } else if s'.procs[q].pc.Embryo? {
      MakerEmbryo(s, p, e, t, s', q);
    }
  }

  lemma MakerForks(s: State, p: nat, e: Effect, t: Touch, s': State, q: nat)
    requires Inv(s) && Moved(s, p, e, t, s') && q < |s.procs| && q != p && InFork(s'.procs[q].pc)
    ensures MakerAt(s', q)
  {
    hide CountOk;
    hide SleepAt;
    hide ParentAt;
    hide LockAt;
    hide LineOk;
    if e.k != p {
      TouchedIdle(s, p, e, t, s');
      assert MakerAt(s, e.k) && StatusOk(s.procs[e.k]);
    }
    assert MakerAt(s, p) && MakerAt(s, q);
  }

  lemma MakerEmbryo(s: State, p: nat, e: Effect, t: Touch, s': State, q: nat)
    requires Inv(s) && Moved(s, p, e, t, s') && q < |s.procs| && q != p && s'.procs[q].pc.Embryo?
    ensures MakerAt(s', q)
  {
    hide CountOk;
    hide SleepAt;
    hide ParentAt;
    hide LockAt;
    hide LineOk;
    if e.k != p {
      TouchedIdle(s, p, e, t, s');
    }
    assert MakerAt(s, p) && MakerAt(s, q);
  }

  // ---- parents ----

  lemma KeepsParent(s: State, p: nat, e: Effect, t: Touch, s': State)
    requires Inv(s) && Moved(s, p, e, t, s')
    ensures forall q :: 0 <= q < |s'.procs| ==> ParentAt(s', q)
  {
    hide CountOk;
    hide SleepAt;
    hide ParentAt;
    hide LockAt;
    hide StatusOk;
    hide OwnOk;
    forall q | 0 <= q < |s'.procs| ensures ParentAt(s', q) {
      ParentOne(s, p, e, t, s', q);
    }
  }

  lemma ParentOne(s: State, p: nat, e: Effect, t: Touch, s': State, q: nat)
    requires Inv(s) && Moved(s, p, e, t, s') && q < |s.procs|
    ensures ParentAt(s', q)
  {
    hide CountOk;
    hide SleepAt;
    hide LockAt;
    assert ParentAt(s, q) && StatusOk(s.procs[q]) && MakerAt(s, p) && LineOk(s, p, s.procs[p], e.me, q);
    assert StatusOk(s.procs[p]);
    if e.k != p {
      TouchedIdle(s, p, e, t, s');
      assert StatusOk(s.procs[e.k]);
    }
  }

  // ---- sleeping in wait() ----

  /** Being touched never puts a process to sleep in wait(), and wakeup() takes it out of that sleep. */
  lemma TouchedAwake(s: State, p: nat, e: Effect, t: Touch, s': State)
    requires Inv(s) && Moved(s, p, e, t, s') && e.k != p
    ensures Asleep(e.other) ==> Asleep(s.procs[e.k])
    ensures t.Wakes? ==> !Asleep(e.other)
    ensures e.other.status.ZOMBIE? ==> s.procs[e.k].status.ZOMBIE? && e.other.pc == s.procs[e.k].pc
  {
    hide CountOk;
    hide SleepAt;
    hide ParentAt;
    hide LineOk;
    hide OwnOk;
    assert StatusOk(s.procs[e.k]) && LockAt(s, e.k);
  }

  /** Only two kinds of touch change who a process's parent is. */
  lemma TouchedParent(s: State, p: nat, e: Effect, t: Touch, s': State)
    requires Inv(s) && Moved(s, p, e, t, s') && e.k != p
    ensures e.other.parent == s.procs[e.k].parent || e.other.parent.None? || e.other.status.USED? ||
      (t.Reparents? && e.other.parent == Some(INIT) && p != INIT && e.k != INIT && s.procs[p].pc.Reparenting? &&
      e.me.pc == WakingInit(e.k))
  {
    hide CountOk;
    hide SleepAt;
    hide LineOk;
    hide OwnOk;
    assert MakerAt(s, p) && StatusOk(s.procs[e.k]) && ParentAt(s, INIT);
  }

  lemma SleepZombie(s: State, p: nat, e: Effect, t: Touch, s': State, k: nat)
    requires Inv(s) && Moved(s, p, e, t, s') && k < |s.procs| && s'.procs[k].parent.Some? &&
      s'.procs[k].parent.value < |s.procs|
    requires s'.procs[k].status.ZOMBIE?
    ensures !HasSeen(s'.procs[s'.procs[k].parent.value].pc, k)
  {
    hide CountOk;
    hide Touches;
    hide LockAt;
    hide StatusOk;
    var r := s'.procs[k].parent.value;
    assert SleepAt(s, k) && WaitAt(s, p) && WaitAt(s, r) && LineOk(s, p, s.procs[p], e.me, k) && ParentAt(s, k) &&
      StatusOk(s.procs[k]);
    if e.k != p {
      TouchedIdle(s, p, e, t, s');
      TouchedAwake(s, p, e, t, s');
      TouchedParent(s, p, e, t, s');
    }
  }

  lemma SleepDying(s: State, p: nat, e: Effect, t: Touch, s': State, k: nat)
    requires Inv(s) && Moved(s, p, e, t, s') && k < |s.procs| && s'.procs[k].parent.Some? &&
      s'.procs[k].parent.value < |s.procs|
    requires s'.procs[k].pc.LockingSelf? || s'.procs[k].pc.Dying? || s'.procs[k].pc.LettingGo?
    ensures !Asleep(s'.procs[s'.procs[k].parent.value])
  {
    hide CountOk;
    hide LockAt;
    hide StatusOk;
    var r := s'.procs[k].parent.value;
    assert SleepAt(s, k) && WaitAt(s, p) && WaitAt(s, k) && LineOk(s, p, s.procs[p], e.me, k) && ParentAt(s, k) &&
      StatusOk(s.procs[k]);
    if e.k != p {
      TouchedIdle(s, p, e, t, s');
      TouchedAwake(s, p, e, t, s');
      TouchedParent(s, p, e, t, s');
    }
  }

  lemma SleepWake(s: State, p: nat, e: Effect, t: Touch, s': State, k: nat)
    requires Inv(s) && Moved(s, p, e, t, s') && k < |s.procs| && s'.procs[k].parent.Some? &&
      s'.procs[k].parent.value < |s.procs|
    requires s'.procs[k].status.ZOMBIE? && Asleep(s'.procs[s'.procs[k].parent.value])
    ensures s'.procs[k].parent.value == INIT && s'.wait.Some? && s'.wait.value < |s'.procs| &&
      s'.procs[s'.wait.value].pc == WakingInit(k)
  {
    hide CountOk;
    hide LockAt;
    hide StatusOk;
    var r := s'.procs[k].parent.value;
    assert SleepAt(s, k) && WaitAt(s, p) && WaitAt(s, k) && LineOk(s, p, s.procs[p], e.me, k) && ParentAt(s, k) &&
      StatusOk(s.procs[k]);
    if e.k != p {
      TouchedIdle(s, p, e, t, s');
      TouchedAwake(s, p, e, t, s');
      TouchedParent(s, p, e, t, s');
    }
  }

  lemma KeepsSleep(s: State, p: nat, e: Effect, t: Touch, s': State)
    requires Inv(s) && Moved(s, p, e, t, s')
    ensures forall q :: 0 <= q < |s'.procs| ==> SleepAt(s', q)
  {
    hide Inv;
    hide Moved;
    forall k | 0 <= k < |s'.procs| ensures SleepAt(s', k) {
      SleepOne(s, p, e, t, s', k);
    }
  }

  lemma SleepOne(s: State, p: nat, e: Effect, t: Touch, s': State, k: nat)
    requires Inv(s) && Moved(s, p, e, t, s') && k < |s'.procs|
    ensures SleepAt(s', k)
  {
    hide Inv;
    hide Touches;
    hide OwnOk;
    hide LineOk;
    hide CountOk;
    var me := s'.procs[k];
    if me.parent.Some? && me.parent.value < |s'.procs| {
      if me.status.ZOMBIE? {
        SleepZombie(s, p, e, t, s', k);
        if Asleep(s'.procs[me.parent.value]) {
          SleepWake(s, p, e, t, s', k);
        }
      }
      if me.pc.LockingSelf? || me.pc.Dying? || me.pc.LettingGo? {
        SleepDying(s, p, e, t, s', k);
      }
    }
  }

  lemma KeepsInit(s: State, p: nat, e: Effect, t: Touch, s': State)
    requires Inv(s) && Moved(s, p, e, t, s')
    ensures InitAt(s')
  {
    hide SleepAt;
    hide ParentAt;
    hide Touches;
    assert LineOk(s, p, s.procs[p], e.me, 0) && MakerAt(s, INIT);
    if e.k != p {
      TouchedIdle(s, p, e, t, s');
    }
  }

  // ---- pids ----

  /** Pids are never used twice: not by two processes, and not again after the process has been collected. */
  ghost predicate PidsOk(s: State)
  {
    && (forall p :: 0 <= p < |s.procs| && !s.procs[p].pc.Free? ==> s.procs[p].pid < s.nextpid)
    && (forall p, q :: 0 <= p < q < |s.procs| && !s.procs[p].pc.Free? && !s.procs[q].pc.Free? ==>
       s.procs[p].pid != s.procs[q].pid)
    && (forall i :: 0 <= i < |s.reaps| ==> s.reaps[i].pid < s.nextpid)
    && (forall i, p :: 0 <= i < |s.reaps| && 0 <= p < |s.procs| && !s.procs[p].pc.Free? ==>
       s.reaps[i].pid != s.procs[p].pid)
    && (forall i, j :: 0 <= i < j < |s.reaps| ==> s.reaps[i].pid != s.reaps[j].pid)
  }

  lemma KeepsPids(s: State, p: nat, e: Effect, t: Touch, s': State)
    requires Inv(s) && PidsOk(s) && Moved(s, p, e, t, s')
    ensures PidsOk(s')
  {
    hide SleepAt;
    hide ParentAt;
    hide LineOk;
    hide LockAt;
    hide HoldsWait;
    hide HoldsSelf;
    assert StatusOk(s.procs[p]) && MakerAt(s, p);
    if e.k != p {
      assert StatusOk(s.procs[e.k]);
    }
  }

  /** Every step keeps the invariant. */
  lemma StepKeepsInv(s: State, step: Step, s': State)
    requires Inv(s) && PidsOk(s) && NextStep(s, step, s')
    ensures Inv(s') && PidsOk(s')
  {
    hide NextStep;
    hide Moved;
    hide PidsOk;
    hide InitAt;
    var e, t := StepMoves(s, step, s');
    var p := step.p;
    KeepsInit(s, p, e, t, s');
    KeepsWait(s, p, e, t, s');
    KeepsLock(s, p, e, t, s');
    KeepsStatus(s, p, e, t, s');
    KeepsMaker(s, p, e, t, s');
    KeepsParent(s, p, e, t, s');
    KeepsSleep(s, p, e, t, s');
    KeepsPids(s, p, e, t, s');
  }

  // ---- whole runs ----

  ghost predicate IsRun(run: seq<State>)
  {
    run != [] && Init(run[0]) && forall i, j :: 0 <= i < |run| && j == i + 1 && j < |run| ==> Next(run[i], run[j])
  }

  lemma {:induction false} RunKeepsInv(run: seq<State>, i: nat)
    requires IsRun(run) && i < |run|
    ensures Inv(run[i]) && PidsOk(run[i])
  {
    hide Inv;
    hide NextStep;
    if i == 0 {
      InitInv(run[0]);
    } else {
      RunKeepsInv(run, i - 1);
      assert Next(run[i - 1], run[i]);
      var step :| NextStep(run[i - 1], step, run[i]);
      StepKeepsInv(run[i - 1], step, run[i]);
    }
  }

  predicate Started(q: Proc) {
    !q.status.UNUSED? && !q.status.USED?
  }

  /** Every started process but init has a parent that is neither UNUSED nor ZOMBIE. */
  lemma LivingParents(run: seq<State>, i: nat, k: nat)
    requires IsRun(run) && i < |run| && k < |run[i].procs| && k != INIT && Started(run[i].procs[k])
    ensures var r := run[i].procs[k].parent;
            r.Some? && r.value < |run[i].procs| && r.value != k && Started(run[i].procs[r.value]) &&
              !run[i].procs[r.value].status.ZOMBIE?
  {
    RunKeepsInv(run, i);
    var s := run[i];
    assert ParentAt(s, k) && StatusOk(s.procs[k]);
    assert StatusOk(s.procs[s.procs[k].parent.value]);
  }

  /** When wait_lock is free, nobody who sleeps in wait(), or is about to, has a zombie child. */
  lemma NoSleepOnZombie(run: seq<State>, i: nat, k: nat)
    requires IsRun(run) && i < |run| && k < |run[i].procs| && run[i].wait.None? && run[i].procs[k].status.ZOMBIE?
    ensures var r := run[i].procs[k].parent; r.Some? && r.value < |run[i].procs| && !Asleep(run[i].procs[r.value])
  {
    RunKeepsInv(run, i);
    var s := run[i];
    assert ParentAt(s, k) && SleepAt(s, k) && StatusOk(s.procs[k]);
  }

  /** No process is collected twice. */
  lemma ReapedOnce(run: seq<State>, i: nat, a: nat, b: nat)
    requires IsRun(run) && i < |run| && a < b < |run[i].reaps|
    ensures run[i].reaps[a].pid != run[i].reaps[b].pid
  {
    RunKeepsInv(run, i);
  }

  /** A process is collected by its current parent, as a zombie that has left the CPU for good. */
  lemma ReapedByParent(run: seq<State>, i: nat)
    requires IsRun(run) && i + 1 < |run| && run[i + 1].reaps != run[i].reaps
    ensures exists r: Reap ::
      run[i + 1].reaps == run[i].reaps + [r] && r.child < |run[i].procs| && r.pid == run[i].procs[r.child].pid
              && run[i].procs[r.child].parent == Some(r.parent) && run[i].procs[r.child].status.ZOMBIE?
              && run[i].procs[r.child].pc.Gone?
  {
    RunKeepsInv(run, i);
    var s, s' := run[i], run[i + 1];
    assert Next(s, s');
    var step :| NextStep(s, step, s');
    ReapStep(s, step, s');
  }

  lemma ReapStep(s: State, step: Step, s': State)
    requires Inv(s) && NextStep(s, step, s') && s'.reaps != s.reaps
    ensures exists r: Reap :: s'.reaps == s.reaps + [r] && r.child < |s.procs| && r.pid == s.procs[r.child].pid
              && s.procs[r.child].parent == Some(r.parent) && s.procs[r.child].status.ZOMBIE?
              && s.procs[r.child].pc.Gone?
  {
    hide NextStep;
    hide SleepAt;
    hide ParentAt;
    hide Touches;
    hide LineOk;
    hide OwnOk;
    var e, t := StepMoves(s, step, s');
    assert StatusOk(s.procs[e.k]) && LockAt(s, e.k);
    var r := Reap(s.procs[e.k].pid, e.k, step.p);
    assert s'.reaps == s.reaps + [r];
  }
}

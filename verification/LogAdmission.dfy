/**
 The in-memory side of the log: which blocks the current group has logged, which
 operations are inside begin_op()/end_op(), and how much log space they may still use.
 */
module LogAdmission {
  import opened Prelude
  import opened LogFormat

  type OpId = nat

  /**
   `lh` is log.lh.block[0..n].  `wrote` has one entry for each operation between begin_op() and
   end_op(), so that log.outstanding is |wrote|; its value is the set of distinct blocks that the
   operation has logged.
   */
  datatype Admission = Admission(lh: seq<nat>, wrote: map<OpId, set<nat>>, committing: bool)

  datatype Outcome<+T> = Done(value: T) | Sleep | Panic

  const EMPTY := Admission([], map[], false)

  /** begin_op(): sleep while a commit runs or while the worst case would not fit. */
  function BeginOp(a: Admission, op: OpId): Outcome<Admission>
  {
    if a.committing then Sleep
    else if |a.lh| + (|a.wrote| + 1) * MAXOPBLOCKS > LOGSIZE then Sleep
    else Done(a.(wrote := a.wrote[op := {}]))
  }

  /**
   log_write(): the two panics come before absorption is tried.  The test is on log.outstanding; that
   the caller itself is inside begin_op()/end_op() is left to the caller.
   */
  function LogWrite(g: Geometry, a: Admission, op: OpId, b: nat): Outcome<Admission>
    requires g.Valid()
  {
    if |a.lh| >= g.Capacity() then Panic
    else if |a.wrote| < 1 then Panic
    else Done(a.(lh := if b in a.lh then a.lh else a.lh + [b],
                 wrote := if op in a.wrote then a.wrote[op := a.wrote[op] + {b}] else a.wrote))
  }

  /** The first half of end_op(): the last operation out starts the commit. */
  function EndOp(a: Admission, op: OpId): Outcome<Admission>
    requires op in a.wrote
  {
    if a.committing then Panic
    else Done(a.(wrote := a.wrote - {op}, committing := |a.wrote| == 1))
  }

  datatype Step = Begin(op: OpId) | Write(op: OpId, b: nat) | End(op: OpId) | Erase | Finish | Idle | Crash

  /** One step of any thread.  Erase and Finish are the end of commit() and the second half of end_op(). */
  ghost predicate NextStep(g: Geometry, a: Admission, step: Step, a': Admission)
    requires g.Valid()
  {
    match step
    case Begin(op) => op !in a.wrote && BeginOp(a, op) == Done(a')
    case Write(op, b) => op in a.wrote && g.Home(b) && LogWrite(g, a, op, b) == Done(a')
    case End(op) => op in a.wrote && EndOp(a, op) == Done(a')
    case Erase => a.committing && a' == a.(lh := [])
    case Finish => a.committing && a.lh == [] && a' == a.(committing := false)
    case Idle => a' == a
    case Crash => a' == EMPTY
  }

  ghost predicate Next(g: Geometry, a: Admission, a': Admission)
    requires g.Valid()
  {
    exists step :: NextStep(g, a, step, a')
  }

  /** Every finite run from boot in which no operation logs more than k distinct blocks. */
  ghost predicate IsRun(g: Geometry, k: nat, run: seq<Admission>)
    requires g.Valid()
  {
    && |run| > 0 && run[0] == EMPTY
    && (forall i :: 0 <= i < |run| - 1 ==> Next(g, run[i], run[i + 1]))
    && (forall i :: 0 <= i < |run| ==> OpsBounded(run[i], k))
  }

  ghost predicate OpsBounded(a: Admission, k: nat) {
    forall op :: op in a.wrote ==> |a.wrote[op]| <= k
  }

  /** Space that the outstanding operations may still claim. */
  ghost function Unused(wrote: map<OpId, set<nat>>): int
  {
    if wrote == map[] then 0
    else
      var op :| op in wrote;
      MAXOPBLOCKS - |wrote[op]| + Unused(wrote - {op})
  }

  lemma {:induction false} UnusedSplit(wrote: map<OpId, set<nat>>, op: OpId)
    requires op in wrote
    ensures Unused(wrote) == MAXOPBLOCKS - |wrote[op]| + Unused(wrote - {op})
    decreases |wrote|
  {
    var first :| first in wrote && Unused(wrote) == MAXOPBLOCKS - |wrote[first]| + Unused(wrote - {first});
    if first != op {
      UnusedSplit(wrote - {first}, op);
      UnusedSplit(wrote - {op}, first);
      assert wrote - {first} - {op} == wrote - {op} - {first};
    }
  }

  lemma UnusedUpdate(wrote: map<OpId, set<nat>>, op: OpId, s: set<nat>)
    ensures Unused(wrote[op := s]) == MAXOPBLOCKS - |s| + Unused(wrote - {op})
  {
    UnusedSplit(wrote[op := s], op);
    assert wrote[op := s] - {op} == wrote - {op};
  }

  lemma {:induction false} UnusedAtLeast(wrote: map<OpId, set<nat>>, k: nat)
    requires k < MAXOPBLOCKS && forall op :: op in wrote ==> |wrote[op]| <= k
    ensures Unused(wrote) >= |wrote|
    decreases |wrote|
  {
    if wrote != map[] {
      var op :| op in wrote;
      UnusedSplit(wrote, op);
      UnusedAtLeast(wrote - {op}, k);
      assert (wrote - {op}).Keys == wrote.Keys - {op};
    }
  }

  /** The space invariant; with a lone operation below the bound there is one block of slack. */
  ghost predicate Reserved(g: Geometry, a: Admission, k: nat)
    requires g.Valid()
  {
    && ValidHead(g, a.lh)
    && (forall op, b :: op in a.wrote && b in a.wrote[op] ==> b in a.lh)
    && |a.lh| + Unused(a.wrote) <= LOGSIZE
    && (|a.wrote| == 0 && !a.committing ==> a.lh == [])
    && (a.committing ==> a.wrote == map[])
    && (k < MAXOPBLOCKS && |a.wrote| == 1 ==> |a.lh| + Unused(a.wrote) <= LOGSIZE - 1)
  }

  lemma BeginKeeps(g: Geometry, a: Admission, op: OpId, k: nat)
    requires g.Valid() && Reserved(g, a, k) && op !in a.wrote && BeginOp(a, op).Done? && k <= MAXOPBLOCKS
    requires OpsBounded(a, k)
    ensures Reserved(g, BeginOp(a, op).value, k)
  {
    var a' := BeginOp(a, op).value;
    UnusedUpdate(a.wrote, op, {});
    assert a.wrote - {op} == a.wrote;
    UnusedNonneg(a.wrote, op);
  }

  /** Each operation has at most MAXOPBLOCKS unused blocks, so begin_op()'s test covers them all. */
  lemma {:induction false} UnusedNonneg(wrote: map<OpId, set<nat>>, op: OpId)
    ensures Unused(wrote) <= |wrote| * MAXOPBLOCKS
    ensures |wrote[op := {}]| == if op in wrote then |wrote| else |wrote| + 1
    decreases |wrote|
  {
    assert wrote[op := {}].Keys == wrote.Keys + {op};
    if wrote != map[] {
      var x :| x in wrote;
      UnusedSplit(wrote, x);
      UnusedNonneg(wrote - {x}, x);
      assert (wrote - {x})[x := {}].Keys == wrote.Keys;
    }
  }

  lemma LogWriteKeeps(g: Geometry, a: Admission, op: OpId, b: nat, k: nat)
    requires g.Valid() && Reserved(g, a, k) && op in a.wrote && g.Home(b)
    requires LogWrite(g, a, op, b).Done? && !a.committing
    requires OpsBounded(LogWrite(g, a, op, b).value, k) && k <= MAXOPBLOCKS
    ensures Reserved(g, LogWrite(g, a, op, b).value, k)
  {
    var a' := LogWrite(g, a, op, b).value;
    UnusedSplit(a.wrote, op);
    UnusedUpdate(a.wrote, op, a.wrote[op] + {b});
    if b !in a.lh {
      assert |a.wrote[op] + {b}| == |a.wrote[op]| + 1;
      assert forall i :: 0 <= i < |a'.lh| ==> a'.lh[i] == if i < |a.lh| then a.lh[i] else b;
    }
    assert a'.wrote.Keys == a.wrote.Keys;
  }

  lemma EndKeeps(g: Geometry, a: Admission, op: OpId, k: nat)
    requires g.Valid() && Reserved(g, a, k) && op in a.wrote && EndOp(a, op).Done? && k <= MAXOPBLOCKS
    requires OpsBounded(a, k)
    ensures Reserved(g, EndOp(a, op).value, k)
  {
    var a' := EndOp(a, op).value;
    UnusedSplit(a.wrote, op);
    assert a'.wrote.Keys == a.wrote.Keys - {op};
    assert |a'.wrote.Keys| == |a.wrote.Keys| - 1;
    assert |a.wrote| == 1 ==> a'.wrote == map[];
  }

  lemma NextKeeps(g: Geometry, k: nat, a: Admission, a': Admission)
    requires g.Valid() && k <= MAXOPBLOCKS && Reserved(g, a, k) && Next(g, a, a')
    requires OpsBounded(a, k) && OpsBounded(a', k)
    ensures Reserved(g, a', k)
  {
    var step :| NextStep(g, a, step, a');
    match step {
      case Begin(op) => BeginKeeps(g, a, op, k);
      case Write(op, b) => LogWriteKeeps(g, a, op, b, k);
      case End(op) => EndKeeps(g, a, op, k);
      case Erase =>
      case Finish =>
      case Idle =>
      case Crash =>
    }
  }

  /**
   Log reservation: if every operation stays within MAXOPBLOCKS, then in every state of every run
   the logged blocks and the unused reservations together fit the log, the entries are distinct home
   blocks whose slots lie in the log region, and a commit runs only when nothing is outstanding.
   */
  lemma {:induction false} ReservationHolds(g: Geometry, k: nat, run: seq<Admission>, i: nat)
    requires g.Valid() && k <= MAXOPBLOCKS && IsRun(g, k, run) && i < |run|
    ensures Reserved(g, run[i], k)
  {
    if i > 0 {
      ReservationHolds(g, k, run, i - 1);
      NextKeeps(g, k, run[i - 1], run[i]);
    }
  }

  /** log_write() would panic with "too big a transaction" in this state, for every block. */
  ghost predicate GuardFires(g: Geometry, a: Admission)
    requires g.Valid()
  {
    a.wrote != map[] && |a.lh| >= g.Capacity()
  }

  lemma GuardSilent(g: Geometry, k: nat, run: seq<Admission>, i: nat)
    requires g.Valid() && g.size >= LOGSIZE && k < MAXOPBLOCKS && IsRun(g, k, run) && i < |run|
    ensures !GuardFires(g, run[i])
  {
    ReservationHolds(g, k, run, i);
    var a := run[i];
    UnusedAtLeast(a.wrote, k);
  }

  /** Three operations admitted at once; each in turn logs its full allowance of new blocks. */
  ghost predicate Busy(a: Admission, first: nat, n: nat)
  {
    && |a.lh| == n && (forall i :: 0 <= i < n ==> a.lh[i] < first + n)
    && !a.committing && a.wrote.Keys == {0, 1, 2}
    && |a.wrote[0]| <= Share(n, 0) && |a.wrote[1]| <= Share(n, 1) && |a.wrote[2]| <= Share(n, 2)
  }

  function Share(n: nat, op: OpId): nat
  {
    if n < op * MAXOPBLOCKS then 0
    else if n - op * MAXOPBLOCKS > MAXOPBLOCKS then MAXOPBLOCKS
    else n - op * MAXOPBLOCKS
  }

  ghost predicate HomeRange(g: Geometry, first: nat) {
    forall b :: first <= b < first + LOGSIZE ==> g.Home(b)
  }

  lemma BusyStep(g: Geometry, a: Admission, first: nat, n: nat) returns (a': Admission)
    requires g.Valid() && n < g.Capacity() && HomeRange(g, first) && Busy(a, first, n)
    ensures Next(g, a, a') && Busy(a', first, n + 1)
  {
    var op := if n < MAXOPBLOCKS then 0 else if n < 2 * MAXOPBLOCKS then 1 else 2;
    var b := first + n;
    assert op in a.wrote.Keys;
    a' := a.(lh := a.lh + [b], wrote := a.wrote[op := a.wrote[op] + {b}]);
    assert |a.wrote.Keys| >= 1;
    assert LogWrite(g, a, op, b) == Done(a');
    assert NextStep(g, a, Write(op, b), a');
    assert a'.wrote.Keys == a.wrote.Keys;
  }

  lemma BusyStarts(g: Geometry, first: nat) returns (run: seq<Admission>)
    requires g.Valid()
    ensures IsRun(g, MAXOPBLOCKS, run) && Busy(run[|run| - 1], first, 0)
  {
    var a1 := BeginOp(EMPTY, 0).value;
    assert a1.wrote.Keys == {0};
    var a2 := BeginOp(a1, 1).value;
    assert a2.wrote.Keys == {0, 1};
    var a3 := BeginOp(a2, 2).value;
    assert a3.wrote.Keys == {0, 1, 2};
    assert NextStep(g, EMPTY, Begin(0), a1);
    assert NextStep(g, a1, Begin(1), a2);
    assert NextStep(g, a2, Begin(2), a3);
    run := [EMPTY, a1, a2, a3];
  }

  lemma {:induction false} BusyRun(g: Geometry, first: nat, n: nat) returns (run: seq<Admission>)
    requires g.Valid() && n <= g.Capacity() && HomeRange(g, first)
    ensures IsRun(g, MAXOPBLOCKS, run) && Busy(run[|run| - 1], first, n)
  {
    if n == 0 {
      run := BusyStarts(g, first);
    } else {
      var r := BusyRun(g, first, n - 1);
      var a := BusyStep(g, r[|r| - 1], first, n - 1);
      assert OpsBounded(a, MAXOPBLOCKS) by {
        assert forall op :: op in a.wrote ==> op in {0, 1, 2};
      }
      run := r + [a];
    }
  }

  /**
   When the "too big a transaction" panic can happen.  With a log of at least LOGSIZE blocks (mkfs
   makes exactly LOGSIZE) it is out of reach precisely when every operation stays strictly below
   MAXOPBLOCKS: at MAXOPBLOCKS itself, which begin_op() admits, three operations fill the log and the
   next log_write() panics even if it would have been absorbed.
   */
  lemma GuardUnreachableIff(g: Geometry, k: nat, first: nat)
    requires g.Valid() && g.size >= LOGSIZE && k <= MAXOPBLOCKS && HomeRange(g, first)
    ensures (forall run, i :: IsRun(g, k, run) && 0 <= i < |run| ==> !GuardFires(g, run[i])) <==> k < MAXOPBLOCKS
  {
    if k < MAXOPBLOCKS {
      forall run, i | IsRun(g, k, run) && 0 <= i < |run| ensures !GuardFires(g, run[i]) {
        GuardSilent(g, k, run, i);
      }
    } else {
      var run := BusyRun(g, first, g.Capacity());
      assert 0 in run[|run| - 1].wrote.Keys;
      assert GuardFires(g, run[|run| - 1]);
    }
  }
}

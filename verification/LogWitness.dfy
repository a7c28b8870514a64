/**
 On every disk with room for one logged block, any one write of a home block can be committed.
 */
module LogWitness {
  import opened Prelude
  import opened LogFormat
  import opened LogAdmission
  import opened LogProtocol

  function Zeroes(): (b: Block)
    ensures forall i :: 0 <= i < BSIZE_WORDS ==> b[i] == 0
  {
    seq(BSIZE_WORDS, _ => 0)
  }

  ghost predicate Path(g: Geometry, run: seq<LogProtocol.State>, s: LogProtocol.State)
    requires g.Valid()
  {
    LogProtocol.IsRun(g, run) && run[|run| - 1] == s
  }

  lemma Extend(g: Geometry, run: seq<LogProtocol.State>, s: LogProtocol.State, step: LogProtocol.Step,
    s': LogProtocol.State)
    requires g.Valid() && Path(g, run, s) && LogProtocol.NextStep(g, s, step, s')
    ensures Path(g, run + [s'], s')
  {
    hide LogProtocol.NextStep;
    hide LogProtocol.Init;
    var more := run + [s'];
    forall i | 0 <= i < |more| - 1 ensures LogProtocol.Next(g, more[i], more[i + 1]) {
      if i < |run| - 1 {
        assert LogProtocol.Next(g, run[i], run[i + 1]);
      } else {
        assert LogProtocol.NextStep(g, s, step, s');
      }
    }
  }

  function Start(g: Geometry): LogProtocol.State {
    var d := seq(g.nblocks, _ => Zeroes());
    LogProtocol.State(d, map[], EMPTY, {}, {}, Booting, 0, d, [], 0)
  }

  lemma StartPath(g: Geometry)
    requires g.Valid()
    ensures Path(g, [Start(g)], Start(g))
  {
  }

  function WithBuf(s: LogProtocol.State, b: nat, buf: Buf): LogProtocol.State {
    s.(cache := s.cache[b := buf])
  }

  /** bread() of a block that is not cached. */
  lemma Fetch(g: Geometry, run: seq<LogProtocol.State>, s: LogProtocol.State, b: nat)
    returns (more: seq<LogProtocol.State>)
    requires g.Valid() && Path(g, run, s) && b < g.nblocks == |s.disk| && b !in s.cache && |s.cache| < NBUF &&
      MayUseCache(s, 0)
    ensures Path(g, more, WithBuf(s, b, Buf(s.disk[b], true, 1, 0, 0, Some(0))))
  {
    hide Path;
    var s1 := WithBuf(s, b, Buf(Zeroes(), false, 1, 1, 0, None));
    var s2 := WithBuf(s, b, Buf(Zeroes(), false, 1, 0, 0, Some(0)));
    var s3 := WithBuf(s, b, Buf(s.disk[b], true, 1, 0, 0, Some(0)));
    Extend(g, run, s, Get(0, b, None, Zeroes()), s1);
    assert s1.cache[b := s2.cache[b]] == s2.cache;
    Extend(g, run + [s1], s1, Lock(0, b), s2);
    assert s2.cache[b := s3.cache[b]] == s3.cache;
    Extend(g, run + [s1] + [s2], s2, Load(0, b), s3);
    more := run + [s1] + [s2] + [s3];
  }

  /** bread() of a block that is cached and in nobody's hands. */
  lemma Regain(g: Geometry, run: seq<LogProtocol.State>, s: LogProtocol.State, b: nat, buf: Buf)
    returns (more: seq<LogProtocol.State>)
    requires g.Valid() && Path(g, run, s) && b < g.nblocks && b in s.cache && s.cache[b] == buf && buf.valid &&
      buf.holder.None? && buf.waiting == 0 && MayUseCache(s, 0)
    ensures Path(g, more, WithBuf(s, b, buf.(refcnt := buf.refcnt + 1, holder := Some(0))))
  {
    hide Path;
    var s1 := WithBuf(s, b, buf.(refcnt := buf.refcnt + 1, waiting := 1));
    var s2 := WithBuf(s, b, buf.(refcnt := buf.refcnt + 1, holder := Some(0)));
    Extend(g, run, s, Get(0, b, None, Zeroes()), s1);
    assert s1.cache[b := s2.cache[b]] == s2.cache;
    Extend(g, run + [s1], s1, Lock(0, b), s2);
    more := run + [s1] + [s2];
  }

  lemma Drop(g: Geometry, run: seq<LogProtocol.State>, s: LogProtocol.State, b: nat, buf: Buf)
    returns (more: seq<LogProtocol.State>)
    requires g.Valid() && Path(g, run, s) && b in s.cache && s.cache[b] == buf && buf.holder == Some(0) &&
      buf.refcnt > 0 && buf.leaving == 0 && b !in s.dirty
    ensures Path(g, more, WithBuf(s, b, buf.(refcnt := buf.refcnt - 1, holder := None)))
  {
    hide Path;
    var s1 := WithBuf(s, b, buf.(leaving := 1, holder := None));
    var s2 := WithBuf(s, b, buf.(refcnt := buf.refcnt - 1, holder := None));
    Extend(g, run, s, Release(0, b), s1);
    assert s1.cache[b := s2.cache[b]] == s2.cache;
    Extend(g, run + [s1], s1, Leave(b), s2);
    more := run + [s1] + [s2];
  }

  /** The head block is cached, and recovery is over. */
  function Ready(g: Geometry): LogProtocol.State
    requires g.Valid()
  {
    var hb := PutHead(Zeroes(), []);
    Start(g).(disk := Start(g).disk[g.start := hb], cache := map[g.start := Buf(hb, true, 0, 0, 0, None)],
      phase := Running)
  }

  lemma Recovery(g: Geometry) returns (run: seq<LogProtocol.State>)
    requires g.Valid()
    ensures Path(g, run, Ready(g))
  {
    hide Path;
    StartPath(g);
    run := Fetch(g, [Start(g)], Start(g), g.start);
    var s0 := WithBuf(Start(g), g.start, Buf(Zeroes(), true, 1, 0, 0, Some(0)));
    var s1 := s0.(phase := Replaying([], 0));
    assert HeadOf(Zeroes()) == [];
    Extend(g, run, s0, ReadHead, s1);
    var s2 := s1.(phase := Clearing(true));
    Extend(g, run + [s1], s1, ReplayDone, s2);
    var hb := PutHead(Zeroes(), []);
    var s3 := WithBuf(Ready(g), g.start, Buf(hb, true, 1, 0, 0, Some(0)));
    assert s2.cache[g.start := Buf(hb, true, 1, 0, 0, Some(0))] == s3.cache;
    Extend(g, run + [s1] + [s2], s2, ClearHead, s3);
    run := Drop(g, run + [s1] + [s2] + [s3], s3, g.start, Buf(hb, true, 1, 0, 0, Some(0)));
    assert WithBuf(s3, g.start, Buf(hb, true, 0, 0, 0, None)).cache == Ready(g).cache;
  }

  /** One operation has written and logged `data` and ended, and the commit begins. */
  function Ended1(g: Geometry, b: nat, data: Block): LogProtocol.State
    requires g.Valid()
  {
    var s := Ready(g);
    s.(cache := s.cache[b := Buf(data, true, 1, 0, 0, None)], adm := Admission([b], map[], true), pinned := {b},
       phase := Logging(0), history := [Begun(0), Wrote(0, b, data), Ended(0)])
  }

  lemma Operation(g: Geometry, b: nat, data: Block) returns (run: seq<LogProtocol.State>)
    requires g.Valid() && g.size > 1 && g.Home(b)
    ensures Path(g, run, Ended1(g, b, data))
  {
    hide Path;
    run := Recovery(g);
    var s := Ready(g);
    var s1 := s.(adm := Admission([], map[0 := {}], false), history := [Begun(0)]);
    assert s.history + [Begun(0)] == s1.history;
    Extend(g, run, s, LogProtocol.BeginOp(0), s1);
    run := Fetch(g, run + [s1], s1, b);
    var held := Buf(s1.disk[b], true, 1, 0, 0, Some(0));
    var s2 := WithBuf(s1, b, held);
    var s3 := WithBuf(s1, b, held.(data := data)).(dirty := {b}, history := [Begun(0), Wrote(0, b, data)]);
    assert s2.cache[b := held.(data := data)] == s3.cache && s2.history + [Wrote(0, b, data)] == s3.history;
    Extend(g, run, s2, Modify(0, b, data), s3);
    run := Logged(g, run + [s3], s3, b, data);
    var s4 := WithBuf(s3, b, Buf(data, true, 2, 0, 0, Some(0))).(adm := Admission([b], map[0 := {b}], false),
      dirty := {}, pinned := {b});
    run := Drop(g, run, s4, b, Buf(data, true, 2, 0, 0, Some(0)));
    var s5 := WithBuf(s4, b, Buf(data, true, 1, 0, 0, None));
    EndStep(g, b, data, s5);
    Extend(g, run, s5, LogProtocol.EndOp(0), Ended1(g, b, data));
    run := run + [Ended1(g, b, data)];
  }

  lemma Logged(g: Geometry, run: seq<LogProtocol.State>, s: LogProtocol.State, b: nat, data: Block)
    returns (more: seq<LogProtocol.State>)
    requires g.Valid() && g.size > 1 && g.Home(b) && Path(g, run, s) && s.phase.Running? && b in s.cache &&
      s.cache[b] == Buf(data, true, 1, 0, 0, Some(0))
    requires s.adm == Admission([], map[0 := {}], false) && s.dirty == {b} && s.pinned == {}
    ensures Path(g, more,
      WithBuf(s, b, Buf(data, true, 2, 0, 0, Some(0))).(adm := Admission([b], map[0 := {b}], false), dirty := {},
      pinned := {b}))
  {
    hide Path;
    var s' := WithBuf(s, b, Buf(data, true, 2, 0, 0, Some(0))).(adm := Admission([b], map[0 := {b}], false),
      dirty := {}, pinned := {b});
    assert [] + [b] == [b] && map[0 := {}][0 := {} + {b}] == map[0 := {b}];
    assert |s.adm.wrote| == 1;
    Extend(g, run, s, LogProtocol.LogWrite(0, b), s');
    more := run + [s'];
  }

  lemma EndStep(g: Geometry, b: nat, data: Block, s: LogProtocol.State)
    requires g.Valid() && g.Home(b) && s.phase.Running? && s.adm == Admission([b], map[0 := {b}], false) &&
      s.dirty == {}
    requires s == Ended1(g, b, data).(phase := Running, adm := s.adm, history := [Begun(0), Wrote(0, b, data)],
      cache := s.cache, owner := s.owner)
    requires s.cache == Ready(g).cache[b := Buf(data, true, 1, 0, 0, None)]
    ensures LogProtocol.NextStep(g, s, LogProtocol.EndOp(0), Ended1(g, b, data))
  {
    assert s.history + [Ended(0)] == Ended1(g, b, data).history;
    assert s.adm.wrote - {0} == map[] && |s.adm.wrote| == 1;
  }

  /** The logged block is in its slot, and the head block in hand. */
  function Written(g: Geometry, b: nat, data: Block): LogProtocol.State
    requires g.Valid() && g.size > 1
  {
    var s, slot := Ended1(g, b, data), g.Slot(0);
    s.(cache := s.cache[slot := Buf(data, true, 1, 0, 0, Some(0))][b := Buf(data, true, 2, 0, 0, Some(0))],
       disk := s.disk[slot := data], phase := Logging(1))
  }

  lemma WriteSlot(g: Geometry, b: nat, data: Block) returns (run: seq<LogProtocol.State>)
    requires g.Valid() && g.size > 1 && g.Home(b)
    ensures Path(g, run, Written(g, b, data))
  {
    hide Path;
    run := Operation(g, b, data);
    var s, slot := Ended1(g, b, data), g.Slot(0);
    assert slot != b && slot != g.start && b != g.start;
    assert |s.cache| <= 2;
    run := Fetch(g, run, s, slot);
    var s1 := WithBuf(s, slot, Buf(s.disk[slot], true, 1, 0, 0, Some(0)));
    run := Regain(g, run, s1, b, Buf(data, true, 1, 0, 0, None));
    var s2 := WithBuf(s1, b, Buf(data, true, 2, 0, 0, Some(0)));
    assert s2.cache[slot := Buf(data, true, 1, 0, 0, Some(0))] == Written(g, b, data).cache;
    Extend(g, run, s2, LogBlock, Written(g, b, data));
    run := run + [Written(g, b, data)];
  }

  /** One operation with one write is committed, and its header is on disk. */
  ghost predicate OneCommitted(g: Geometry, b: nat, data: Block, s: LogProtocol.State)
    requires g.Valid()
  {
    && s.commitAt == |s.history| == 3 && |s.base| == |s.disk| == g.nblocks && b < g.nblocks
    && Committed(s) == s.base[b := data] && HeadOf(s.disk[g.start]) == [b]
  }

  lemma Commits(g: Geometry, b: nat, data: Block) returns (run: seq<LogProtocol.State>)
    requires g.Valid() && g.size > 1 && g.Home(b)
    ensures LogProtocol.IsRun(g, run) && OneCommitted(g, b, data, run[|run| - 1])
  {
    hide OneCommitted;
    hide LogProtocol.IsRun;
    run := WriteSlot(g, b, data);
    var s, hb := Written(g, b, data), PutHead(Zeroes(), []);
    run := Regain(g, run, s, g.start, Buf(hb, true, 0, 0, 0, None));
    var s1 := WithBuf(s, g.start, Buf(hb, true, 1, 0, 0, Some(0)));
    Committing(g, run, s1, b, data, hb);
    var hb' := PutHead(hb, [b]);
    run := run + [WithBuf(s1, g.start, Buf(hb', true, 1, 0, 0, Some(0))).(disk := s1.disk[g.start := hb'],
      phase := Installing(0), commitAt := 3)];
  }

  lemma Committing(g: Geometry, run: seq<LogProtocol.State>, s: LogProtocol.State, b: nat, data: Block, hb: Block)
    requires g.Valid() && Path(g, run, s) && s.phase == Logging(1) && s.adm.lh == [b] && s.owner == 0 &&
      |s.disk| == |s.base| == g.nblocks && g.Home(b)
    requires g.start in s.cache && s.cache[g.start] == Buf(hb, true, 1, 0, 0, Some(0)) &&
      s.history == [Begun(0), Wrote(0, b, data), Ended(0)]
    ensures var hb' := PutHead(hb, [b]);
            var s' := WithBuf(s, g.start, Buf(hb', true, 1, 0, 0, Some(0))).(disk := s.disk[g.start := hb'],
              phase := Installing(0), commitAt := 3);
            Path(g, run + [s'], s') && OneCommitted(g, b, data, s')
  {
    hide Path;
    var hb' := PutHead(hb, [b]);
    var s' := WithBuf(s, g.start, Buf(hb', true, 1, 0, 0, Some(0))).(disk := s.disk[g.start := hb'],
      phase := Installing(0), commitAt := 3);
    Extend(g, run, s, WriteHead, s');
    HeadRoundTrip(hb, [b]);
    ThreeEvents(s.base, b, data);
    assert s'.history[..3] == s.history;
  }

  lemma ThreeEvents(base: Disk, b: nat, data: Block)
    requires b < |base|
    ensures Replay(base, [Begun(0), Wrote(0, b, data), Ended(0)]) == base[b := data]
  {
    var h := [Begun(0), Wrote(0, b, data), Ended(0)];
    assert h[..2] == [Begun(0), Wrote(0, b, data)] && h[..2][..1] == [Begun(0)] && [Begun(0)][..0] == [];
    assert Replay(base, [Begun(0)]) == base;
    assert Replay(base, h[..2]) == base[b := data];
  }
}

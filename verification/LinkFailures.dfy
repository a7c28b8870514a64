/**
 Two runs in which link counts go wrong: a counter that overflows, and a
 removed directory whose ".." leads to an inode that is being made again.
 */
module LinkFailures {
  import opened Names
  import opened Directories
  import opened InodeTable
  import opened Links
  import opened LinkHomes
  import opened LinkRuns

  const FREE: Inode := Inode(0, 0, [])
  const EMPTY: Slot := Slot(0, 0, 0, false, 0, 0)

  // ---- A removed directory

  function S0(): State {
    State(
      [FREE, Inode(T_DIR, 1, [NewEntry(1, "."), NewEntry(1, "..")]), FREE, FREE],
      [EMPTY, EMPTY, EMPTY],
      map[])
  }

  function S1(): State {
    State(
      [FREE, Inode(T_DIR, 1, [NewEntry(1, "."), NewEntry(1, "..")]), FREE, FREE],
      [Slot(1, 1, 1, false, 0, 0), EMPTY, EMPTY],
      map[0 := Ref(0, Loose)])
  }

  function S2(): State {
    State(
      [FREE, Inode(T_DIR, 1, [NewEntry(1, "."), NewEntry(1, "..")]), FREE, FREE],
      [Slot(1, 1, 1, true, 1, 1), EMPTY, EMPTY],
      map[0 := Ref(0, Loose)])
  }

  function S3(): State {
    State(
      [FREE, Inode(T_DIR, 1, [NewEntry(1, "."), NewEntry(1, "..")]), Inode(T_DIR, 0, []), FREE],
      [Slot(1, 1, 1, true, 1, 1), Slot(1, 2, 1, false, 0, 0), EMPTY],
      map[0 := Ref(0, Maker("a", T_DIR, 1)), 1 := Ref(1, Young(0))])
  }

  function S4(): State {
    State(
      [FREE, Inode(T_DIR, 1, [NewEntry(1, "."), NewEntry(1, "..")]), Inode(T_DIR, 0, []), FREE],
      [Slot(1, 1, 1, true, 1, 1), Slot(1, 2, 1, true, 1, 0), EMPTY],
      map[0 := Ref(0, Maker("a", T_DIR, 1)), 1 := Ref(1, Young(0))])
  }

  function S5(): State {
    State(
      [FREE, Inode(T_DIR, 2, [NewEntry(1, "."), NewEntry(1, ".."), NewEntry(2, "a")]),
        Inode(T_DIR, 1, [NewEntry(2, "."), NewEntry(1, "..")]), FREE],
      [Slot(1, 1, 1, true, 1, 2), Slot(1, 2, 1, true, 1, 1), EMPTY],
      map[0 := Ref(0, Loose), 1 := Ref(1, Loose)])
  }

  function S6(): State {
    State(
      [FREE, Inode(T_DIR, 2, [NewEntry(1, "."), NewEntry(1, ".."), NewEntry(2, "a")]),
        Inode(T_DIR, 1, [NewEntry(2, "."), NewEntry(1, "..")]), Inode(T_DIR, 0, [])],
      [Slot(1, 1, 1, true, 1, 2), Slot(1, 2, 1, true, 1, 1), Slot(1, 3, 1, false, 0, 0)],
      map[0 := Ref(0, Loose), 1 := Ref(1, Maker("b", T_DIR, 2)), 2 := Ref(2, Young(1))])
  }

  function S7(): State {
    State(
      [FREE, Inode(T_DIR, 2, [NewEntry(1, "."), NewEntry(1, ".."), NewEntry(2, "a")]),
        Inode(T_DIR, 1, [NewEntry(2, "."), NewEntry(1, "..")]), Inode(T_DIR, 0, [])],
      [Slot(1, 1, 1, true, 1, 2), Slot(1, 2, 1, true, 1, 1), Slot(1, 3, 1, true, 1, 0)],
      map[0 := Ref(0, Loose), 1 := Ref(1, Maker("b", T_DIR, 2)), 2 := Ref(2, Young(1))])
  }

  function S8(): State {
    State(
      [FREE, Inode(T_DIR, 2, [NewEntry(1, "."), NewEntry(1, ".."), NewEntry(2, "a")]),
        Inode(T_DIR, 2, [NewEntry(2, "."), NewEntry(1, ".."), NewEntry(3, "b")]),
        Inode(T_DIR, 1, [NewEntry(3, "."), NewEntry(2, "..")])],
      [Slot(1, 1, 1, true, 1, 2), Slot(1, 2, 1, true, 1, 2), Slot(1, 3, 1, true, 1, 1)],
      map[0 := Ref(0, Loose), 1 := Ref(1, Loose), 2 := Ref(2, Loose)])
  }

  function S9(): State {
    State(
      [FREE, Inode(T_DIR, 2, [NewEntry(1, "."), NewEntry(1, ".."), NewEntry(2, "a")]),
        Inode(T_DIR, 2, [NewEntry(2, "."), NewEntry(1, ".."), NewEntry(3, "b")]),
        Inode(T_DIR, 1, [NewEntry(3, "."), NewEntry(2, "..")])],
      [Slot(1, 1, 1, true, 1, 2), Slot(1, 2, 1, true, 1, 2), Slot(1, 3, 2, true, 1, 1)],
      map[0 := Ref(0, Loose), 1 := Ref(1, Parent(2, 3)), 2 := Ref(2, Loose), 3 := Ref(2, Target(1))])
  }

  function S10(): State {
    State(
      [FREE, Inode(T_DIR, 2, [NewEntry(1, "."), NewEntry(1, ".."), NewEntry(2, "a")]),
        Inode(T_DIR, 1, [NewEntry(2, "."), NewEntry(1, ".."), BLANK]),
        Inode(T_DIR, 1, [NewEntry(3, "."), NewEntry(2, "..")])],
      [Slot(1, 1, 1, true, 1, 2), Slot(1, 2, 1, true, 1, 1), Slot(1, 3, 2, true, 1, 1)],
      map[0 := Ref(0, Loose), 1 := Ref(1, Loose), 2 := Ref(2, Loose), 3 := Ref(2, Dropping)])
  }

  function S11(): State {
    State(
      [FREE, Inode(T_DIR, 2, [NewEntry(1, "."), NewEntry(1, ".."), NewEntry(2, "a")]),
        Inode(T_DIR, 1, [NewEntry(2, "."), NewEntry(1, ".."), BLANK]),
        Inode(T_DIR, 0, [NewEntry(3, "."), NewEntry(2, "..")])],
      [Slot(1, 1, 1, true, 1, 2), Slot(1, 2, 1, true, 1, 1), Slot(1, 3, 2, true, 1, 0)],
      map[0 := Ref(0, Loose), 1 := Ref(1, Loose), 2 := Ref(2, Loose), 3 := Ref(2, Loose)])
  }

  function S12(): State {
    State(
      [FREE, Inode(T_DIR, 2, [NewEntry(1, "."), NewEntry(1, ".."), NewEntry(2, "a")]),
        Inode(T_DIR, 1, [NewEntry(2, "."), NewEntry(1, ".."), BLANK]),
        Inode(T_DIR, 0, [NewEntry(3, "."), NewEntry(2, "..")])],
      [Slot(1, 1, 1, true, 1, 2), Slot(1, 2, 1, true, 1, 1), Slot(1, 3, 1, true, 1, 0)],
      map[0 := Ref(0, Loose), 1 := Ref(1, Loose), 2 := Ref(2, Loose)])
  }

  function S13(): State {
    State(
      [FREE, Inode(T_DIR, 2, [NewEntry(1, "."), NewEntry(1, ".."), NewEntry(2, "a")]),
        Inode(T_DIR, 1, [NewEntry(2, "."), NewEntry(1, ".."), BLANK]),
        Inode(T_DIR, 0, [NewEntry(3, "."), NewEntry(2, "..")])],
      [Slot(1, 1, 1, true, 1, 2), Slot(1, 2, 2, true, 1, 1), Slot(1, 3, 1, true, 1, 0)],
      map[0 := Ref(0, Parent(2, 3)), 1 := Ref(1, Loose), 2 := Ref(2, Loose), 3 := Ref(1, Target(0))])
  }

  function S14(): State {
    State(
      [FREE, Inode(T_DIR, 1, [NewEntry(1, "."), NewEntry(1, ".."), BLANK]),
        Inode(T_DIR, 1, [NewEntry(2, "."), NewEntry(1, ".."), BLANK]),
        Inode(T_DIR, 0, [NewEntry(3, "."), NewEntry(2, "..")])],
      [Slot(1, 1, 1, true, 1, 1), Slot(1, 2, 2, true, 1, 1), Slot(1, 3, 1, true, 1, 0)],
      map[0 := Ref(0, Loose), 1 := Ref(1, Loose), 2 := Ref(2, Loose), 3 := Ref(1, Dropping)])
  }

  function S15(): State {
    State(
      [FREE, Inode(T_DIR, 1, [NewEntry(1, "."), NewEntry(1, ".."), BLANK]),
        Inode(T_DIR, 0, [NewEntry(2, "."), NewEntry(1, ".."), BLANK]),
        Inode(T_DIR, 0, [NewEntry(3, "."), NewEntry(2, "..")])],
      [Slot(1, 1, 1, true, 1, 1), Slot(1, 2, 2, true, 1, 0), Slot(1, 3, 1, true, 1, 0)],
      map[0 := Ref(0, Loose), 1 := Ref(1, Loose), 2 := Ref(2, Loose), 3 := Ref(1, Loose)])
  }

  function S16(): State {
    State(
      [FREE, Inode(T_DIR, 1, [NewEntry(1, "."), NewEntry(1, ".."), BLANK]),
        Inode(T_DIR, 0, [NewEntry(2, "."), NewEntry(1, ".."), BLANK]),
        Inode(T_DIR, 0, [NewEntry(3, "."), NewEntry(2, "..")])],
      [Slot(1, 1, 1, true, 1, 1), Slot(1, 2, 1, true, 1, 0), Slot(1, 3, 1, true, 1, 0)],
      map[0 := Ref(0, Loose), 1 := Ref(1, Loose), 2 := Ref(2, Loose)])
  }

  function S17(): State {
    State(
      [FREE, Inode(T_DIR, 1, [NewEntry(1, "."), NewEntry(1, ".."), BLANK]),
        Inode(T_DIR, 0, [NewEntry(2, "."), NewEntry(1, ".."), BLANK]),
        Inode(T_DIR, 0, [NewEntry(3, "."), NewEntry(2, "..")])],
      [Slot(1, 1, 1, true, 1, 1), Slot(1, 2, 1, true, 1, 0), Slot(1, 3, 1, true, 1, 0)],
      map[0 := Ref(0, Loose), 1 := Ref(1, Dying), 2 := Ref(2, Loose)])
  }

  function S18(): State {
    State(
      [FREE, Inode(T_DIR, 1, [NewEntry(1, "."), NewEntry(1, ".."), BLANK]), FREE,
        Inode(T_DIR, 0, [NewEntry(3, "."), NewEntry(2, "..")])],
      [Slot(1, 1, 1, true, 1, 1), Slot(1, 2, 1, true, 0, 0), Slot(1, 3, 1, true, 1, 0)],
      map[0 := Ref(0, Loose), 1 := Ref(1, Dead), 2 := Ref(2, Loose)])
  }

  function S19(): State {
    State(
      [FREE, Inode(T_DIR, 1, [NewEntry(1, "."), NewEntry(1, ".."), BLANK]), FREE,
        Inode(T_DIR, 0, [NewEntry(3, "."), NewEntry(2, "..")])],
      [Slot(1, 1, 1, true, 1, 1), Slot(1, 2, 1, false, 0, 0), Slot(1, 3, 1, true, 1, 0)],
      map[0 := Ref(0, Loose), 1 := Ref(1, Gone), 2 := Ref(2, Loose)])
  }

  function S20(): State {
    State(
      [FREE, Inode(T_DIR, 1, [NewEntry(1, "."), NewEntry(1, ".."), BLANK]), FREE,
        Inode(T_DIR, 0, [NewEntry(3, "."), NewEntry(2, "..")])],
      [Slot(1, 1, 1, true, 1, 1), Slot(1, 2, 0, false, 0, 0), Slot(1, 3, 1, true, 1, 0)],
      map[0 := Ref(0, Loose), 2 := Ref(2, Loose)])
  }

  function S21(): State {
    State(
      [FREE, Inode(T_DIR, 1, [NewEntry(1, "."), NewEntry(1, ".."), BLANK]), Inode(T_FILE, 0, []),
        Inode(T_DIR, 0, [NewEntry(3, "."), NewEntry(2, "..")])],
      [Slot(1, 1, 1, true, 1, 1), Slot(1, 2, 1, false, 0, 0), Slot(1, 3, 1, true, 1, 0)],
      map[0 := Ref(0, Maker("x", T_FILE, 1)), 1 := Ref(1, Young(0)), 2 := Ref(2, Loose)])
  }

  function S22(): State {
    State(
      [FREE, Inode(T_DIR, 1, [NewEntry(1, "."), NewEntry(1, ".."), BLANK]), Inode(T_FILE, 0, []),
        Inode(T_DIR, 0, [NewEntry(3, "."), NewEntry(2, "..")])],
      [Slot(1, 1, 1, true, 1, 1), Slot(1, 2, 2, false, 0, 0), Slot(1, 3, 1, true, 1, 0)],
      map[0 := Ref(0, Maker("x", T_FILE, 1)), 1 := Ref(1, Young(0)), 2 := Ref(2, Loose), 3 := Ref(1, Loose)])
  }

  function S23(): State {
    State(
      [FREE, Inode(T_DIR, 1, [NewEntry(1, "."), NewEntry(1, ".."), BLANK]), Inode(T_FILE, 0, []),
        Inode(T_DIR, 0, [NewEntry(3, "."), NewEntry(2, "..")])],
      [Slot(1, 1, 1, true, 1, 1), Slot(1, 2, 2, true, 2, 0), Slot(1, 3, 1, true, 1, 0)],
      map[0 := Ref(0, Maker("x", T_FILE, 1)), 1 := Ref(1, Young(0)), 2 := Ref(2, Loose), 3 := Ref(1, Loose)])
  }

  function S24(): State {
    State(
      [FREE, Inode(T_DIR, 1, [NewEntry(1, "."), NewEntry(1, ".."), BLANK]), Inode(T_FILE, 1, []),
        Inode(T_DIR, 0, [NewEntry(3, "."), NewEntry(2, "..")])],
      [Slot(1, 1, 1, true, 1, 1), Slot(1, 2, 2, true, 2, 1), Slot(1, 3, 1, true, 1, 0)],
      map[0 := Ref(0, Maker("x", T_FILE, 1)), 1 := Ref(1, Young(0)), 2 := Ref(2, Loose), 3 := Ref(1, Linking)])
  }

  function S25(): State {
    State(
      [FREE, Inode(T_DIR, 1, [NewEntry(1, "."), NewEntry(1, ".."), NewEntry(2, "x")]), Inode(T_FILE, 1, []),
        Inode(T_DIR, 0, [NewEntry(3, "."), NewEntry(2, "..")])],
      [Slot(1, 1, 1, true, 1, 1), Slot(1, 2, 2, true, 2, 1), Slot(1, 3, 1, true, 1, 0)],
      map[0 := Ref(0, Loose), 1 := Ref(1, Loose), 2 := Ref(2, Loose), 3 := Ref(1, Linking)])
  }

  function S26(): State {
    State(
      [FREE, Inode(T_DIR, 1, [NewEntry(1, "."), NewEntry(1, ".."), NewEntry(2, "x"), NewEntry(2, "z")]),
        Inode(T_FILE, 1, []), Inode(T_DIR, 0, [NewEntry(3, "."), NewEntry(2, "..")])],
      [Slot(1, 1, 1, true, 1, 1), Slot(1, 2, 2, true, 2, 1), Slot(1, 3, 1, true, 1, 0)],
      map[0 := Ref(0, Loose), 1 := Ref(1, Loose), 2 := Ref(2, Loose), 3 := Ref(1, Loose)])
  }

  function S27(): State {
    State(
      [FREE, Inode(T_DIR, 1, [NewEntry(1, "."), NewEntry(1, ".."), NewEntry(2, "x"), NewEntry(2, "z")]),
        Inode(T_FILE, 1, []), Inode(T_DIR, 0, [NewEntry(3, "."), NewEntry(2, "..")])],
      [Slot(1, 1, 1, true, 1, 1), Slot(1, 2, 3, true, 2, 1), Slot(1, 3, 1, true, 1, 0)],
      map[0 := Ref(0, Parent(3, 4)), 1 := Ref(1, Loose), 2 := Ref(2, Loose), 3 := Ref(1, Loose),
        4 := Ref(1, Target(0))])
  }

  function S28(): State {
    State(
      [FREE, Inode(T_DIR, 1, [NewEntry(1, "."), NewEntry(1, ".."), NewEntry(2, "x"), BLANK]), Inode(T_FILE, 1, []),
        Inode(T_DIR, 0, [NewEntry(3, "."), NewEntry(2, "..")])],
      [Slot(1, 1, 1, true, 1, 1), Slot(1, 2, 3, true, 2, 1), Slot(1, 3, 1, true, 1, 0)],
      map[0 := Ref(0, Loose), 1 := Ref(1, Loose), 2 := Ref(2, Loose), 3 := Ref(1, Loose), 4 := Ref(1, Dropping)])
  }

  function S29(): State {
    State(
      [FREE, Inode(T_DIR, 1, [NewEntry(1, "."), NewEntry(1, ".."), NewEntry(2, "x"), BLANK]), Inode(T_FILE, 0, []),
        Inode(T_DIR, 0, [NewEntry(3, "."), NewEntry(2, "..")])],
      [Slot(1, 1, 1, true, 1, 1), Slot(1, 2, 3, true, 2, 0), Slot(1, 3, 1, true, 1, 0)],
      map[0 := Ref(0, Loose), 1 := Ref(1, Loose), 2 := Ref(2, Loose), 3 := Ref(1, Loose), 4 := Ref(1, Loose)])
  }

  function S30(): State {
    State(
      [FREE, Inode(T_DIR, 1, [NewEntry(1, "."), NewEntry(1, ".."), NewEntry(2, "x"), BLANK]), Inode(T_FILE, 0, []),
        Inode(T_DIR, 0, [NewEntry(3, "."), NewEntry(2, "..")])],
      [Slot(1, 1, 1, true, 1, 1), Slot(1, 2, 2, true, 2, 0), Slot(1, 3, 1, true, 1, 0)],
      map[0 := Ref(0, Loose), 1 := Ref(1, Loose), 2 := Ref(2, Loose), 3 := Ref(1, Loose)])
  }

  function S31(): State {
    State(
      [FREE, Inode(T_DIR, 1, [NewEntry(1, "."), NewEntry(1, ".."), NewEntry(2, "x"), BLANK]), Inode(T_FILE, 0, []),
        Inode(T_DIR, 0, [NewEntry(3, "."), NewEntry(2, "..")])],
      [Slot(1, 1, 1, true, 1, 1), Slot(1, 2, 1, true, 2, 0), Slot(1, 3, 1, true, 1, 0)],
      map[0 := Ref(0, Loose), 2 := Ref(2, Loose), 3 := Ref(1, Loose)])
  }

  function S32(): State {
    State(
      [FREE, Inode(T_DIR, 1, [NewEntry(1, "."), NewEntry(1, ".."), NewEntry(2, "x"), BLANK]), Inode(T_FILE, 0, []),
        Inode(T_DIR, 0, [NewEntry(3, "."), NewEntry(2, "..")])],
      [Slot(1, 1, 1, true, 1, 1), Slot(1, 2, 1, true, 2, 0), Slot(1, 3, 1, true, 1, 0)],
      map[0 := Ref(0, Loose), 2 := Ref(2, Loose), 3 := Ref(1, Dying)])
  }

  function S33(): State {
    State(
      [FREE, Inode(T_DIR, 1, [NewEntry(1, "."), NewEntry(1, ".."), NewEntry(2, "x"), BLANK]), FREE,
        Inode(T_DIR, 0, [NewEntry(3, "."), NewEntry(2, "..")])],
      [Slot(1, 1, 1, true, 1, 1), Slot(1, 2, 1, true, 0, 0), Slot(1, 3, 1, true, 1, 0)],
      map[0 := Ref(0, Loose), 2 := Ref(2, Loose), 3 := Ref(1, Dead)])
  }

  predicate Plain(name: string) {
    name == "." || name == ".." || name == "a" || name == "b" || name == "x" || name == "z"
  }

  lemma PlainPrefix(name: string)
    requires Plain(name)
    ensures Visible(name, DIRSIZ) == name
  {
    assert |name| == 2 ==> name[1..] == ".";
    assert |name| == 1 ==> name[1..] == "";
    assert Visible(".", DIRSIZ - 1) == ".";
  }

  /** What the steps need to know about names. */
  lemma Known()
    ensures forall i: nat, name: string :: Plain(name) ==>
      NewEntry(i, name).inum == i && Key(NewEntry(i, name)) == name && NewEntry(i, name).name == Stored(name, DIRSIZ)
    ensures forall name: string :: Plain(name) ==> Visible(name, DIRSIZ) == name
    ensures !Live(BLANK)
  {
    hide Visible;
    hide Stored;
    forall name: string | Plain(name)
      ensures Visible(name, DIRSIZ) == name && Visible(Stored(name, DIRSIZ), DIRSIZ) == name {
      PlainPrefix(name);
      StoredSame(name, DIRSIZ);
    }
  }

  lemma DotsBoth(i: nat, j: nat)
    requires i > 0
    ensures DotsAdded([], [NewEntry(i, "."), NewEntry(j, "..")], i, j)
  {
    hide Visible;
    hide Stored;
    hide NewEntry;
    Known();
    var m := [NewEntry(i, ".")];
    assert Gains([], m, 0, ".", i);
    assert Gains(m, [NewEntry(i, "."), NewEntry(j, "..")], 1, "..", j);
  }

  lemma Step0()
    ensures Does(S0(), Root(0, 0), S1())
  {
    hide Visible;
    hide Stored;
    hide NewEntry;
    Known();
  }

  lemma Step1()
    ensures Does(S1(), Load(0), S2())
  {
    hide Visible;
    hide Stored;
    hide NewEntry;
    Known();
  }

  lemma Step2()
    ensures Does(S2(), CreateAlloc(0, "a", T_DIR, 1, 2, 1), S3())
  {
    hide Visible;
    hide Stored;
    hide NewEntry;
    Known();
  }

  lemma Step3()
    ensures Does(S3(), Load(1), S4())
  {
    hide Visible;
    hide Stored;
    hide NewEntry;
    Known();
  }

  lemma Entry4()
    ensures Absent(S4().disk[1].dir, "a") && Gains(S4().disk[1].dir, S5().disk[1].dir, 2, "a", 2)
  {
    hide Visible;
    hide Stored;
    hide NewEntry;
    Known();
  }

  lemma Step4()
    ensures Does(S4(), CreateDone(0, 2), S5())
  {
    hide Visible;
    hide Stored;
    hide NewEntry;
    hide Absent;
    hide Gains;
    hide DotsAdded;
    DotsBoth(2, 1);
    Entry4();
    var s, s' := S4(), S5();
    var mid := Write(Write(s, 1, s'.disk[2]), 0, s'.disk[1]);
    assert mid.table == s'.table && mid.disk == s'.disk && WithRole(WithRole(mid, 1, Loose), 0, Loose).refs == s'.refs;
  }

  lemma Step5()
    ensures Does(S5(), CreateAlloc(1, "b", T_DIR, 2, 3, 2), S6())
  {
    hide Visible;
    hide Stored;
    hide NewEntry;
    Known();
  }

  lemma Step6()
    ensures Does(S6(), Load(2), S7())
  {
    hide Visible;
    hide Stored;
    hide NewEntry;
    Known();
  }

  lemma Entry7()
    ensures Absent(S7().disk[2].dir, "b") && Gains(S7().disk[2].dir, S8().disk[2].dir, 2, "b", 3)
  {
    hide Visible;
    hide Stored;
    hide NewEntry;
    Known();
  }

  lemma Step7()
    ensures Does(S7(), CreateDone(1, 2), S8())
  {
    hide Visible;
    hide Stored;
    hide NewEntry;
    hide Absent;
    hide Gains;
    hide DotsAdded;
    DotsBoth(3, 2);
    Entry7();
    var s, s' := S7(), S8();
    var mid := Write(Write(s, 2, s'.disk[3]), 1, s'.disk[2]);
    assert mid.table == s'.table && mid.disk == s'.disk && WithRole(WithRole(mid, 2, Loose), 1, Loose).refs == s'.refs;
  }

  lemma Step8()
    ensures Does(S8(), UnlinkFind(1, 2, 3, 2), S9())
  {
    hide Visible;
    hide Stored;
    hide NewEntry;
    Known();
  }

  lemma Step9()
    ensures Does(S9(), UnlinkClear(1), S10())
  {
    hide Visible;
    hide Stored;
    hide NewEntry;
    Known();
    var s := S9();
    assert AtEntry(s, 1) && s.disk[2].dir[2 := BLANK] == S10().disk[2].dir;
    assert S10().disk == s.disk[2 := S10().disk[2]];
  }

  lemma Step10()
    ensures Does(S10(), UnlinkDrop(3), S11())
  {
    hide Visible;
    hide Stored;
    hide NewEntry;
    Known();
  }

  lemma Step11()
    ensures Does(S11(), Put(3), S12())
  {
    hide Visible;
    hide Stored;
    hide NewEntry;
    Known();
  }

  lemma Step12()
    ensures Does(S12(), UnlinkFind(0, 2, 3, 1), S13())
  {
    hide Visible;
    hide Stored;
    hide NewEntry;
    Known();
  }

  lemma Step13()
    ensures Does(S13(), UnlinkClear(0), S14())
  {
    hide Visible;
    hide Stored;
    hide NewEntry;
    Known();
    var s := S13();
    assert AtEntry(s, 0) && s.disk[1].dir[2 := BLANK] == S14().disk[1].dir;
    assert S14().disk == s.disk[1 := S14().disk[1]];
  }

  lemma Step14()
    ensures Does(S14(), UnlinkDrop(3), S15())
  {
    hide Visible;
    hide Stored;
    hide NewEntry;
    Known();
  }

  lemma Step15()
    ensures Does(S15(), Put(3), S16())
  {
    hide Visible;
    hide Stored;
    hide NewEntry;
    Known();
  }

  lemma Step16()
    ensures Does(S16(), Put(1), S17())
  {
    hide Visible;
    hide Stored;
    hide NewEntry;
    Known();
  }

  lemma Step17()
    ensures Does(S17(), Clear(1), S18())
  {
    hide Visible;
    hide Stored;
    hide NewEntry;
    Known();
  }

  lemma Step18()
    ensures Does(S18(), Invalidate(1), S19())
  {
    hide Visible;
    hide Stored;
    hide NewEntry;
    Known();
  }

  lemma Step19()
    ensures Does(S19(), Release(1), S20())
  {
    hide Visible;
    hide Stored;
    hide NewEntry;
    Known();
  }

  lemma Step20()
    ensures Does(S20(), CreateAlloc(0, "x", T_FILE, 1, 2, 1), S21())
  {
    hide Visible;
    hide Stored;
    hide NewEntry;
    Known();
  }

  lemma Step21()
    ensures Does(S21(), Walk(2, 1, 3, 1), S22())
  {
    hide Visible;
    hide Stored;
    hide NewEntry;
    Known();
  }

  lemma Step22()
    ensures Does(S22(), Load(3), S23())
  {
    hide Visible;
    hide Stored;
    hide NewEntry;
    Known();
  }

  lemma Step23()
    ensures Does(S23(), LinkBump(3), S24())
  {
    hide Visible;
    hide Stored;
    hide NewEntry;
    Known();
  }

  lemma Entry24()
    ensures Absent(S24().disk[1].dir, "x") && Gains(S24().disk[1].dir, S25().disk[1].dir, 2, "x", 2)
  {
    hide Visible;
    hide Stored;
    hide NewEntry;
    Known();
  }

  lemma Step24()
    ensures Does(S24(), CreateDone(0, 2), S25())
  {
    hide Visible;
    hide Stored;
    hide NewEntry;
    hide Absent;
    hide Gains;
    hide DotsAdded;
    Entry24();
    var s, s' := S24(), S25();
    var mid := Write(Write(s, 1, s'.disk[2]), 0, s'.disk[1]);
    assert mid.table == s'.table && mid.disk == s'.disk && WithRole(WithRole(mid, 1, Loose), 0, Loose).refs == s'.refs;
  }

  lemma Step25()
    ensures Does(S25(), LinkEntry(3, 0, "z", 3), S26())
  {
    hide Visible;
    hide Stored;
    hide NewEntry;
    Known();
  }

  lemma Step26()
    ensures Does(S26(), UnlinkFind(0, 3, 4, 1), S27())
  {
    hide Visible;
    hide Stored;
    hide NewEntry;
    Known();
  }

  lemma Step27()
    ensures Does(S27(), UnlinkClear(0), S28())
  {
    hide Visible;
    hide Stored;
    hide NewEntry;
    Known();
    var s := S27();
    assert AtEntry(s, 0) && s.disk[1].dir[3 := BLANK] == S28().disk[1].dir;
    assert S28().disk == s.disk[1 := S28().disk[1]];
  }

  lemma Step28()
    ensures Does(S28(), UnlinkDrop(4), S29())
  {
    hide Visible;
    hide Stored;
    hide NewEntry;
    Known();
  }

  lemma Step29()
    ensures Does(S29(), Put(4), S30())
  {
    hide Visible;
    hide Stored;
    hide NewEntry;
    Known();
  }

  lemma Step30()
    ensures Does(S30(), Put(1), S31())
  {
    hide Visible;
    hide Stored;
    hide NewEntry;
    Known();
  }

  lemma Step31()
    ensures Does(S31(), Put(3), S32())
  {
    hide Visible;
    hide Stored;
    hide NewEntry;
    Known();
  }

  lemma Step32()
    ensures Does(S32(), Clear(3), S33())
  {
    hide Visible;
    hide Stored;
    hide NewEntry;
    Known();
  }

  ghost predicate Path(ss: seq<State>, es: seq<Event>, names: seq<string>, s: State) {
    IsRun(ss, es, names, 0) && ss[|es|] == s
  }

  lemma Extend(ss: seq<State>, es: seq<Event>, names: seq<string>, s: State, e: Event, s': State)
    requires Path(ss, es, names, s) && Does(s, e, s')
    ensures Path(ss + [s'], es + [e], names, s')
  {
    hide Does;
    hide Boots;
    var tt, fs := ss + [s'], es + [e];
    forall i | 0 <= i < |fs| ensures Does(tt[i], fs[i], tt[i + 1]) {
      assert i < |es| ==> Does(ss[i], es[i], ss[i + 1]);
    }
  }

  lemma StaleStart()
    ensures Path([S0()], [], [], S0())
  {
    assert RootDir([], 0) == [NewEntry(1, "."), NewEntry(1, "..")];
  }

  lemma StaleBegins() returns (ss: seq<State>, es: seq<Event>)
    ensures Path(ss, es, [], S26()) && |ss| == 27 && |es| == 26 && ss[21] == S21() && es[21] == Walk(2, 1, 3, 1)
  {
    hide *;
    StaleStart();
    ss, es := [S0()], [];
    Step0();
    Extend(ss, es, [], S0(), Root(0, 0), S1());
    ss, es := ss + [S1()], es + [Root(0, 0)];
    Step1();
    Extend(ss, es, [], S1(), Load(0), S2());
    ss, es := ss + [S2()], es + [Load(0)];
    Step2();
    Extend(ss, es, [], S2(), CreateAlloc(0, "a", T_DIR, 1, 2, 1), S3());
    ss, es := ss + [S3()], es + [CreateAlloc(0, "a", T_DIR, 1, 2, 1)];
    Step3();
    Extend(ss, es, [], S3(), Load(1), S4());
    ss, es := ss + [S4()], es + [Load(1)];
    Step4();
    Extend(ss, es, [], S4(), CreateDone(0, 2), S5());
    ss, es := ss + [S5()], es + [CreateDone(0, 2)];
    Step5();
    Extend(ss, es, [], S5(), CreateAlloc(1, "b", T_DIR, 2, 3, 2), S6());
    ss, es := ss + [S6()], es + [CreateAlloc(1, "b", T_DIR, 2, 3, 2)];
    Step6();
    Extend(ss, es, [], S6(), Load(2), S7());
    ss, es := ss + [S7()], es + [Load(2)];
    Step7();
    Extend(ss, es, [], S7(), CreateDone(1, 2), S8());
    ss, es := ss + [S8()], es + [CreateDone(1, 2)];
    Step8();
    Extend(ss, es, [], S8(), UnlinkFind(1, 2, 3, 2), S9());
    ss, es := ss + [S9()], es + [UnlinkFind(1, 2, 3, 2)];
    Step9();
    Extend(ss, es, [], S9(), UnlinkClear(1), S10());
    ss, es := ss + [S10()], es + [UnlinkClear(1)];
    Step10();
    Extend(ss, es, [], S10(), UnlinkDrop(3), S11());
    ss, es := ss + [S11()], es + [UnlinkDrop(3)];
    Step11();
    Extend(ss, es, [], S11(), Put(3), S12());
    ss, es := ss + [S12()], es + [Put(3)];
    Step12();
    Extend(ss, es, [], S12(), UnlinkFind(0, 2, 3, 1), S13());
    ss, es := ss + [S13()], es + [UnlinkFind(0, 2, 3, 1)];
    Step13();
    Extend(ss, es, [], S13(), UnlinkClear(0), S14());
    ss, es := ss + [S14()], es + [UnlinkClear(0)];
    Step14();
    Extend(ss, es, [], S14(), UnlinkDrop(3), S15());
    ss, es := ss + [S15()], es + [UnlinkDrop(3)];
    Step15();
    Extend(ss, es, [], S15(), Put(3), S16());
    ss, es := ss + [S16()], es + [Put(3)];
    Step16();
    Extend(ss, es, [], S16(), Put(1), S17());
    ss, es := ss + [S17()], es + [Put(1)];
    Step17();
    Extend(ss, es, [], S17(), Clear(1), S18());
    ss, es := ss + [S18()], es + [Clear(1)];
    Step18();
    Extend(ss, es, [], S18(), Invalidate(1), S19());
    ss, es := ss + [S19()], es + [Invalidate(1)];
    Step19();
    Extend(ss, es, [], S19(), Release(1), S20());
    ss, es := ss + [S20()], es + [Release(1)];
    Step20();
    Extend(ss, es, [], S20(), CreateAlloc(0, "x", T_FILE, 1, 2, 1), S21());
    ss, es := ss + [S21()], es + [CreateAlloc(0, "x", T_FILE, 1, 2, 1)];
    Step21();
    Extend(ss, es, [], S21(), Walk(2, 1, 3, 1), S22());
    ss, es := ss + [S22()], es + [Walk(2, 1, 3, 1)];
    Step22();
    Extend(ss, es, [], S22(), Load(3), S23());
    ss, es := ss + [S23()], es + [Load(3)];
    Step23();
    Extend(ss, es, [], S23(), LinkBump(3), S24());
    ss, es := ss + [S24()], es + [LinkBump(3)];
    Step24();
    Extend(ss, es, [], S24(), CreateDone(0, 2), S25());
    ss, es := ss + [S25()], es + [CreateDone(0, 2)];
    Step25();
    Extend(ss, es, [], S25(), LinkEntry(3, 0, "z", 3), S26());
    ss, es := ss + [S26()], es + [LinkEntry(3, 0, "z", 3)];
  }

  lemma StaleEnds() returns (ss: seq<State>, es: seq<Event>)
    ensures Path(ss, es, [], S33()) && |es| > 0 && es[|es| - 1] == Clear(3) && ss[|es| - 1] == S32()
  {
    hide *;
    ss, es := StaleBegins();
    Step26();
    Extend(ss, es, [], S26(), UnlinkFind(0, 3, 4, 1), S27());
    ss, es := ss + [S27()], es + [UnlinkFind(0, 3, 4, 1)];
    Step27();
    Extend(ss, es, [], S27(), UnlinkClear(0), S28());
    ss, es := ss + [S28()], es + [UnlinkClear(0)];
    Step28();
    Extend(ss, es, [], S28(), UnlinkDrop(4), S29());
    ss, es := ss + [S29()], es + [UnlinkDrop(4)];
    Step29();
    Extend(ss, es, [], S29(), Put(4), S30());
    ss, es := ss + [S30()], es + [Put(4)];
    Step30();
    Extend(ss, es, [], S30(), Put(1), S31());
    ss, es := ss + [S31()], es + [Put(1)];
    Step31();
    Extend(ss, es, [], S31(), Put(3), S32());
    ss, es := ss + [S32()], es + [Put(3)];
    Step32();
    Extend(ss, es, [], S32(), Clear(3), S33());
    ss, es := ss + [S33()], es + [Clear(3)];
    PathLength(ss, es, S33());
  }

  lemma PathLength(ss: seq<State>, es: seq<Event>, s: State)
    requires Path(ss, es, [], s)
    ensures |ss| == |es| + 1
  {
    hide Does;
    hide Boots;
  }

  /** Inode 3 is a directory without a name. */
  lemma StaleStep()
    ensures LeavesRemoved(S21(), Walk(2, 1, 3, 1))
  {
    hide Visible;
    hide Stored;
    hide NewEntry;
    Known();
  }

  /** ".." of a removed directory is followed once, and two entries name an inode that has one link. */
  lemma StaleMiscounts() returns (ss: seq<State>, es: seq<Event>)
    ensures Path(ss, es, [], S26()) && S26().disk[2].nlink == 1 &&
      NamedEntries(S26(), 2) >= {ByName(1, 2), ByName(1, 3)}
    ensures |ss| == 27 && |es| == 26 && es[21] == Walk(2, 1, 3, 1) && LeavesRemoved(ss[21], es[21])
  {
    hide Path;
    hide Visible;
    hide Stored;
    hide NewEntry;
    Known();
    StaleStep();
    ss, es := StaleBegins();
  }

  /** And iput() frees an inode that an entry of the root directory names. */
  lemma StaleFrees() returns (ss: seq<State>, es: seq<Event>)
    ensures Path(ss, es, [], S33()) && |es| > 0 && es[|es| - 1] == Clear(3) && ss[|es| - 1] == S32()
    ensures Ino(S32(), 3) == 2 && S33().disk[2].typ == 0 && ByName(1, 2) in NamedEntries(S33(), 2)
  {
    hide Path;
    hide Visible;
    hide Stored;
    hide NewEntry;
    Known();
    ss, es := StaleEnds();
  }

  // ---- A counter that overflows

  /** Short names, all different. */
  function NameOf(j: nat): string
    requires j <= MAX_LINKS
  {
    [(48 + j / 200) as char, (48 + j % 200) as char]
  }

  lemma NameFacts(j: nat)
    requires j <= MAX_LINKS
    ensures Visible(NameOf(j), DIRSIZ) == NameOf(j) && !Dots(NameOf(j)) && |NameOf(j)| == 2 &&
      Visible(Stored(NameOf(j), DIRSIZ), DIRSIZ) == NameOf(j)
    ensures forall k: nat :: k <= MAX_LINKS && NameOf(k) == NameOf(j) ==> k == j
  {
    var s := NameOf(j);
    assert s[1..][1..] == "" && Visible(s[1..], 13) == s[1..];
    StoredSame(s, DIRSIZ);
    forall k: nat | k <= MAX_LINKS && NameOf(k) == s ensures k == j {
      assert NameOf(k)[0] == s[0] && NameOf(k)[1] == s[1];
    }
  }

  /** Half of the names go into each directory. */
  const HALF: nat := 16384

  /** A directory with n more names for inode 2. */
  function Filled(front: seq<Entry>, n: nat): seq<Entry>
    requires n <= HALF
  {
    front + seq(n, (j: nat) requires j < n => NewEntry(2, NameOf(j + 1)))
  }

  function RootFront(): seq<Entry> {
    [NewEntry(1, "."), NewEntry(1, ".."), NewEntry(2, NameOf(0)), NewEntry(3, "a")]
  }

  function SubFront(): seq<Entry> {
    [NewEntry(3, "."), NewEntry(1, "..")]
  }

  /** A file (inode 2), with one name from mkfs, m in the root directory and n in a subdirectory (inode 3). */
  function Linked(m: nat, n: nat, nlink: int, role: Role): State
    requires m <= HALF && n <= HALF
  {
    State(
      [FREE, Inode(T_DIR, 2, Filled(RootFront(), m)), Inode(T_FILE, nlink, []), Inode(T_DIR, 1, Filled(SubFront(), n))],
      [Slot(1, 1, 1, true, T_DIR, 2), Slot(1, 2, 1, true, T_FILE, nlink), Slot(1, 3, 1, true, T_DIR, 1)],
      map[0 := Ref(0, Loose), 1 := Ref(1, role), 2 := Ref(2, Loose)])
  }

  lemma FilledAbsent(front: seq<Entry>, n: nat)
    requires n < HALF && |front| <= 4 && forall k :: 0 <= k < |front| ==> !Matches(front[k], NameOf(n + 1))
    ensures Absent(Filled(front, n), NameOf(n + 1)) &&
      Gains(Filled(front, n), Filled(front, n + 1), |front| + n, NameOf(n + 1), 2)
  {
    hide Visible;
    hide Stored;
    hide NameOf;
    NameFacts(n + 1);
    var d := Filled(front, n);
    forall k: nat | k < |d| ensures !Matches(d[k], NameOf(n + 1)) {
      if k >= |front| {
        NameFacts(k - |front| + 1);
        assert d[k] == NewEntry(2, NameOf(k - |front| + 1));
      }
    }
  }

  lemma FrontsAbsent(n: nat)
    requires 0 < n <= HALF
    ensures forall k :: 0 <= k < |RootFront()| ==> !Matches(RootFront()[k], NameOf(n))
    ensures forall k :: 0 <= k < |SubFront()| ==> !Matches(SubFront()[k], NameOf(n))
  {
    hide Visible;
    hide Stored;
    hide NewEntry;
    hide NameOf;
    Known();
    NameFacts(n);
    NameFacts(0);
    assert Key(NewEntry(2, NameOf(0))) == NameOf(0) by {
      EntryKey(2, 0);
    }
  }

  lemma EntryKey(i: nat, j: nat)
    requires j <= MAX_LINKS
    ensures Key(NewEntry(i, NameOf(j))) == NameOf(j) && NewEntry(i, NameOf(j)).inum == i &&
      NewEntry(i, NameOf(j)).name == Stored(NameOf(j), DIRSIZ)
  {
    hide NameOf;
    NameFacts(j);
  }

  lemma BumpStep(m: nat, n: nat, c: nat)
    requires m <= HALF && n <= HALF && 1 <= c <= MAX_LINKS
    ensures Does(Linked(m, n, c, Loose), LinkBump(1), Linked(m, n, Short(c + 1), Linking))
  {
    hide Filled;
    hide Short;
    var s, s' := Linked(m, n, c, Loose), Linked(m, n, Short(c + 1), Linking);
    assert s'.refs == WithRole(WithLinks(s, 1, Short(c + 1)), 1, Linking).refs;
    assert s'.table == WithLinks(s, 1, Short(c + 1)).table;
  }

  /** A name for the root directory. */
  lemma RootStep(m: nat, n: nat, c: nat)
    requires m < HALF && n <= HALF
    ensures Does(Linked(m, n, c, Linking), LinkEntry(1, 0, NameOf(m + 1), m + 4), Linked(m + 1, n, c, Loose))
  {
    hide Filled;
    hide RootFront;
    hide SubFront;
    hide NameOf;
    hide Absent;
    hide Gains;
    FrontsAbsent(m + 1);
    assert |RootFront()| == 4 by { FrontSizes(); }
    FilledAbsent(RootFront(), m);
    var s, s' := Linked(m, n, c, Linking), Linked(m + 1, n, c, Loose);
    var mid := Write(s, 0, Inode(T_DIR, 2, Filled(RootFront(), m + 1)));
    assert mid.table == s'.table && mid.disk == s'.disk && WithRole(mid, 1, Loose).refs == s'.refs;
  }

  /** And one for the subdirectory. */
  lemma SubStep(m: nat, n: nat, c: nat)
    requires m <= HALF && n < HALF
    ensures Does(Linked(m, n, c, Linking), LinkEntry(1, 2, NameOf(n + 1), n + 2), Linked(m, n + 1, c, Loose))
  {
    hide Filled;
    hide RootFront;
    hide SubFront;
    hide NameOf;
    hide Absent;
    hide Gains;
    FrontsAbsent(n + 1);
    assert |SubFront()| == 2 by { FrontSizes(); }
    FilledAbsent(SubFront(), n);
    var s, s' := Linked(m, n, c, Linking), Linked(m, n + 1, c, Loose);
    var mid := Write(s, 2, Inode(T_DIR, 1, Filled(SubFront(), n + 1)));
    assert mid.table == s'.table && mid.disk == s'.disk && WithRole(mid, 1, Loose).refs == s'.refs;
  }

  lemma FrontSizes()
    ensures |RootFront()| == 4 && |SubFront()| == 2
  {
  }

  // ---- the way there

  /** The image of mkfs, then the root, the file and the new directory are opened. */
  function B(n: nat): State {
    State(
      [FREE, Inode(T_DIR, 1, [NewEntry(1, "."), NewEntry(1, ".."), NewEntry(2, NameOf(0))]), Inode(T_FILE, 1, []),
        if n < 5 then FREE else Inode(T_DIR, 0, [])],
      [if n == 0 then EMPTY else if n == 1 then Slot(1, 1, 1, false, 0, 0) else Slot(1, 1, 1, true, T_DIR, 1),
       if n < 3 then EMPTY else if n == 3 then Slot(1, 2, 1, false, 0, 0) else Slot(1, 2, 1, true, T_FILE, 1),
       if n < 5 then EMPTY else if n == 5 then Slot(1, 3, 1, false, 0, 0) else Slot(1, 3, 1, true, T_DIR, 0)],
      if n == 0 then map[] else if n < 3 then map[0 := Ref(0, Loose)]
      else if n < 5 then map[0 := Ref(0, Loose), 1 := Ref(1, Loose)]
      else map[0 := Ref(0, Maker("a", T_DIR, 2)), 1 := Ref(1, Loose), 2 := Ref(2, Young(0))])
  }

  lemma BootsFirst()
    ensures Path([B(0)], [], [NameOf(0)], B(0))
  {
    hide NameOf;
    hide Stored;
    assert RootDir([NameOf(0)], 0) == [NewEntry(1, "."), NewEntry(1, ".."), NewEntry(2, NameOf(0))];
    hide NewEntry;
  }

  lemma OpenRoot()
    ensures Does(B(0), Root(0, 0), B(1)) && Does(B(1), Load(0), B(2))
  {
    hide NameOf;
    hide NewEntry;
  }

  lemma OpenFile()
    ensures Does(B(2), Walk(0, 2, 1, 1), B(3)) && Does(B(3), Load(1), B(4))
  {
    hide NameOf;
    hide NewEntry;
    FileEntry();
  }

  lemma FileEntry()
    ensures NewEntry(2, NameOf(0)).inum == 2
  {
  }

  lemma MkdirAbsent()
    ensures Absent([NewEntry(1, "."), NewEntry(1, ".."), NewEntry(2, NameOf(0))], "a")
  {
    hide NameOf;
    hide Visible;
    hide Stored;
    hide NewEntry;
    Known();
    EntryKey(2, 0);
    NameFacts(0);
  }

  lemma MkdirSteps()
    ensures Does(B(4), CreateAlloc(0, "a", T_DIR, 2, 3, 2), B(5)) && Does(B(5), Load(2), B(6))
  {
    hide NameOf;
    hide NewEntry;
    hide Absent;
    MkdirAbsent();
  }

  lemma MkdirEntries()
    ensures Gains([NewEntry(1, "."), NewEntry(1, ".."), NewEntry(2, NameOf(0))], RootFront(), 3, "a", 3)
    ensures DotsAdded([], SubFront(), 3, 1)
    ensures Filled(RootFront(), 0) == RootFront() && Filled(SubFront(), 0) == SubFront()
  {
    hide NameOf;
    hide NewEntry;
    hide Stored;
    hide Visible;
    Known();
    DotsBoth(3, 1);
  }

  lemma MkdirDone()
    ensures Does(B(6), CreateDone(0, 3), Linked(0, 0, 1, Loose))
  {
    hide NameOf;
    hide NewEntry;
    hide Absent;
    hide DotsAdded;
    hide Gains;
    hide RootFront;
    hide SubFront;
    hide Filled;
    MkdirAbsent();
    MkdirEntries();
    var s, s' := B(6), Linked(0, 0, 1, Loose);
    var mid := Write(Write(s, 2, Inode(T_DIR, 1, SubFront())), 0, Inode(T_DIR, 2, RootFront()));
    assert mid.table == s'.table && mid.disk == s'.disk && WithRole(WithRole(mid, 2, Loose), 0, Loose).refs == s'.refs;
  }

  lemma OneLink() returns (ss: seq<State>, es: seq<Event>)
    ensures Path(ss, es, [NameOf(0)], Linked(0, 0, 1, Loose))
  {
    hide *;
    Limits();
    var names := [NameOf(0)];
    BootsFirst();
    OpenRoot();
    OpenFile();
    MkdirSteps();
    MkdirDone();
    ss, es := [B(0)], [];
    Extend(ss, es, names, B(0), Root(0, 0), B(1));
    ss, es := ss + [B(1)], es + [Root(0, 0)];
    Extend(ss, es, names, B(1), Load(0), B(2));
    ss, es := ss + [B(2)], es + [Load(0)];
    Extend(ss, es, names, B(2), Walk(0, 2, 1, 1), B(3));
    ss, es := ss + [B(3)], es + [Walk(0, 2, 1, 1)];
    Extend(ss, es, names, B(3), Load(1), B(4));
    ss, es := ss + [B(4)], es + [Load(1)];
    Extend(ss, es, names, B(4), CreateAlloc(0, "a", T_DIR, 2, 3, 2), B(5));
    ss, es := ss + [B(5)], es + [CreateAlloc(0, "a", T_DIR, 2, 3, 2)];
    Extend(ss, es, names, B(5), Load(2), B(6));
    ss, es := ss + [B(6)], es + [Load(2)];
    Extend(ss, es, names, B(6), CreateDone(0, 3), Linked(0, 0, 1, Loose));
    ss, es := ss + [Linked(0, 0, 1, Loose)], es + [CreateDone(0, 3)];
  }

  /** link() called n times for the subdirectory. */
  lemma {:induction false} SubLinks(n: nat) returns (ss: seq<State>, es: seq<Event>)
    requires n <= HALF
    ensures Path(ss, es, [NameOf(0)], Linked(0, n, n + 1, Loose))
  {
    hide *;
    Limits();
    if n == 0 {
      ss, es := OneLink();
    } else {
      ss, es := SubLinks(n - 1);
      ShortIs(n + 1);
      BumpStep(0, n - 1, n);
      Extend(ss, es, [NameOf(0)], Linked(0, n - 1, n, Loose), LinkBump(1), Linked(0, n - 1, n + 1, Linking));
      ss, es := ss + [Linked(0, n - 1, n + 1, Linking)], es + [LinkBump(1)];
      SubStep(0, n - 1, n + 1);
      Extend(ss, es, [NameOf(0)], Linked(0, n - 1, n + 1, Linking), LinkEntry(1, 2, NameOf(n), n + 1),
        Linked(0, n, n + 1, Loose));
      ss, es := ss + [Linked(0, n, n + 1, Loose)], es + [LinkEntry(1, 2, NameOf(n), n + 1)];
    }
  }

  /** Then m times for the root directory. */
  lemma {:induction false} ManyLinks(m: nat) returns (ss: seq<State>, es: seq<Event>)
    requires m <= HALF - 2
    ensures Path(ss, es, [NameOf(0)], Linked(m, HALF, m + HALF + 1, Loose))
  {
    hide *;
    Limits();
    if m == 0 {
      ss, es := SubLinks(HALF);
    } else {
      ss, es := ManyLinks(m - 1);
      var c := m + HALF;
      ShortIs(c + 1);
      BumpStep(m - 1, HALF, c);
      Extend(ss, es, [NameOf(0)], Linked(m - 1, HALF, c, Loose), LinkBump(1), Linked(m - 1, HALF, c + 1, Linking));
      ss, es := ss + [Linked(m - 1, HALF, c + 1, Linking)], es + [LinkBump(1)];
      RootStep(m - 1, HALF, c + 1);
      Extend(ss, es, [NameOf(0)], Linked(m - 1, HALF, c + 1, Linking), LinkEntry(1, 0, NameOf(m), m + 3),
        Linked(m, HALF, c + 1, Loose));
      ss, es := ss + [Linked(m, HALF, c + 1, Loose)], es + [LinkEntry(1, 0, NameOf(m), m + 3)];
    }
  }

  lemma Limits()
    ensures MAX_LINKS == 32767 && HALF == 16384
  {
  }

  lemma ShortIs(n: nat)
    ensures n <= MAX_LINKS ==> Short(n) == n
    ensures n == MAX_LINKS + 1 ==> Short(n) == -32768
  {
  }

  lemma FirstNamed(m: nat, n: nat, nlink: int)
    requires m <= HALF && n <= HALF
    ensures ByName(1, 2) in NamedEntries(Linked(m, n, nlink, Linking), 2)
  {
    hide Stored;
    hide NameOf;
    hide Visible;
    NameFacts(0);
    var d := Filled(RootFront(), m);
    assert d[2] == NewEntry(2, NameOf(0)) && Named(d[2]);
    hide Filled;
  }

  /** The 32768th link makes the count negative. */
  lemma CountOverflows() returns (ss: seq<State>, es: seq<Event>)
    ensures Path(ss, es, [NameOf(0)], Linked(HALF - 2, HALF, -32768, Linking))
    ensures var s := Linked(HALF - 2, HALF, -32768, Linking);
      s.disk[2].nlink == -32768 && ByName(1, 2) in NamedEntries(s, 2)
  {
    FirstNamed(HALF - 2, HALF, -32768);
    hide Path;
    hide Does;
    hide Filled;
    hide NameOf;
    ss, es := ManyLinks(HALF - 2);
    BumpStep(HALF - 2, HALF, MAX_LINKS);
    ShortIs(MAX_LINKS + 1);
    Extend(ss, es, [NameOf(0)], Linked(HALF - 2, HALF, MAX_LINKS, Loose), LinkBump(1),
      Linked(HALF - 2, HALF, -32768, Linking));
    ss, es := ss + [Linked(HALF - 2, HALF, -32768, Linking)], es + [LinkBump(1)];
  }
}

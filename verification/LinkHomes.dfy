/**
 Where the dots lead: "." to the directory itself, ".." to the directory that names it.
 */
module LinkHomes {
  import opened Directories
  import opened InodeTable
  import opened Links
  import opened LinkSteps
  import opened LinkCalls
  import opened LinkCounts
  import opened LinkEntries
  import opened LinkCreate

  /** Entry k of directory d names directory i. */
  ghost predicate NamesDir(s: State, d: nat, k: nat, i: nat) {
    d < |s.disk| && k < |s.disk[d].dir| && Named(s.disk[d].dir[k]) && s.disk[d].dir[k].inum == i < |s.disk| &&
      s.disk[i].typ == T_DIR
  }

  ghost predicate Homed(s: State) {
    && (forall i :: 0 <= i < |s.disk| && |s.disk[i].dir| > 0 ==> s.disk[i].dir[0].inum == i)
    && (forall d: nat, k: nat, i: nat :: NamesDir(s, d, k, i) && |s.disk[i].dir| > 1 ==> s.disk[i].dir[1].inum == d)
    && ROOTINO < |s.disk| && |s.disk[ROOTINO].dir| > 1 && s.disk[ROOTINO].dir[1].inum == ROOTINO
  }

  lemma HomedSame(s: State, s': State)
    requires Homed(s) && |s'.disk| == |s.disk|
    requires forall i :: 0 <= i < |s.disk| ==> s'.disk[i].typ == s.disk[i].typ && s'.disk[i].dir == s.disk[i].dir
    ensures Homed(s')
  {
    hide Named;
    forall d: nat, k: nat, i: nat | NamesDir(s', d, k, i) && |s'.disk[i].dir| > 1 ensures s'.disk[i].dir[1].inum == d {
      assert NamesDir(s, d, k, i);
    }
  }

  // ---- A directory changes behind its dots

  /** Directory j changes only in its entry k, which is not a dot. */
  lemma HomedEntry(s: State, s': State, j: nat, k: nat)
    requires Homed(s) && |s'.disk| == |s.disk| && j < |s.disk| && 2 <= k <= |s.disk[j].dir|
    requires |s'.disk[j].dir| >= |s.disk[j].dir| && k < |s'.disk[j].dir| <= (if k < |s.disk[j].dir|
      then |s.disk[j].dir| else k + 1)
    requires forall l :: 0 <= l < |s.disk[j].dir| && l != k ==> s'.disk[j].dir[l] == s.disk[j].dir[l]
    requires forall i :: 0 <= i < |s.disk| ==>
      s'.disk[i].typ == s.disk[i].typ && (i != j ==> s'.disk[i].dir == s.disk[i].dir)
    requires forall i: nat :: NamesDir(s', j, k, i) && |s'.disk[i].dir| > 1 ==> s'.disk[i].dir[1].inum == j
    ensures Homed(s')
  {
    hide Named;
    forall d: nat, l: nat, i: nat | NamesDir(s', d, l, i) && |s'.disk[i].dir| > 1 ensures s'.disk[i].dir[1].inum == d {
      if !(d == j && l == k) {
        assert NamesDir(s, d, l, i);
      }
    }
  }

  /** A name that is absent is not a dot, and does not go into the place of one. */
  lemma BehindDots(d: seq<Entry>, d': seq<Entry>, k: nat, name: string, inum: nat)
    requires DotsFirst(d) && Absent(d, name) && Gains(d, d', k, name, inum)
    ensures k >= 2 && !Dots(name)
  {
    assert !Matches(d[0], name) && !Matches(d[1], name);
  }

  lemma EntryHomed(s: State, t: nat, u: nat, name: string, k: nat, s': State)
    requires Inv(s) && Homed(s) && DoesLinkEntry(s, t, u, name, k, s')
    ensures Homed(s')
  {
    hide RolesOk;
    hide Coherent;
    hide Counted;
    hide Facts;
    hide OneEach;
    hide Holders;
    hide DiskOk;
    hide Absent;
    hide Homed;
    EntrySame(s, t, u, name, k, s');
    LinkingType(s, t);
    SettledFact(s, u);
    var i, j := Ino(s, t), Ino(s, u);
    BehindDots(s.disk[j].dir, s'.disk[j].dir, k, name, i);
    assert forall m: nat :: NamesDir(s', j, k, m) ==> m == i;
    HomedEntry(s, s', j, k);
  }

  lemma NamedBehindDots(d: seq<Entry>, k: nat)
    requires DotsFirst(d) && k < |d| && Named(d[k])
    ensures k >= 2
  {
  }

  lemma ClearedHomed(s: State, u: nat, s': State)
    requires Inv(s) && Homed(s) && DoesUnlinkClear(s, u, s')
    ensures Homed(s')
  {
    hide RolesOk;
    hide Coherent;
    hide Counted;
    hide Facts;
    hide OneEach;
    hide Holders;
    hide DiskOk;
    hide Homed;
    hide DoesUnlinkClear;
    hide Named;
    DoesAt(s, u, s');
    EntryMeans(s, u);
    ClearedIs(s, u, s');
    SettledFact(s, u);
    NamedBehindDots(InodeOf(s, u).dir, s.refs[u].role.k);
    BlankIsNot();
    HomedEntry(s, s', Ino(s, u), s.refs[u].role.k);
  }

  lemma BlankIsNot()
    ensures !Named(BLANK)
  {
  }

  // ---- Inodes come and go

  /** A free inode, or one without claims, is not named by anyone. */
  lemma UnclaimedHomed(s: State, s': State, i: nat)
    requires InRange(s) && Homed(s) && |s'.disk| == |s.disk| && i < |s.disk| && i != ROOTINO && s'.disk[i].dir == []
    requires forall c :: !Claims(s, c, i)
    requires forall j :: 0 <= j < |s.disk| && j != i ==>
      s'.disk[j].typ == s.disk[j].typ && s'.disk[j].dir == s.disk[j].dir
    ensures Homed(s')
  {
    hide Named;
    forall d: nat, k: nat, j: nat | NamesDir(s', d, k, j) && |s'.disk[j].dir| > 1 ensures s'.disk[j].dir[1].inum == d {
      assert NamesDir(s, d, k, j);
    }
  }

  lemma ClearHomed(s: State, t: nat, s': State)
    requires Inv(s) && Homed(s) && Does(s, Clear(t), s')
    ensures Homed(s')
  {
    hide RolesOk;
    hide Coherent;
    hide Facts;
    hide OneEach;
    hide Holders;
    hide DiskOk;
    hide Homed;
    hide Claims;
    DyingMeans(s, t);
    var i := Ino(s, t);
    assert Covers(s, i, 0);
    forall c ensures !Claims(s, c, i) {
      NoClaims(s, i, c);
    }
    RootClaimed(s);
    UnclaimedHomed(s, s', i);
  }

  lemma RootClaimed(s: State)
    requires InRange(s) && ROOTINO < |s.disk|
    ensures Claims(s, ByRoot, ROOTINO)
  {
  }

  lemma AllocHomed(s: State, u: nat, name: string, typ: nat, t: nat, i: nat, x: nat, s': State)
    requires Inv(s) && Homed(s) && DoesCreateAlloc(s, u, name, typ, t, i, x, s')
    ensures Homed(s')
  {
    hide RolesOk;
    hide Coherent;
    hide Counted;
    hide Facts;
    hide OneEach;
    hide Holders;
    hide DiskOk;
    hide Homed;
    hide Claims;
    hide Gets;
    hide Absent;
    FreeMeans(s, i);
    HomedRoot(s);
    RootClaimed(s);
    UnclaimedHomed(s, s', i);
  }

  lemma HomedRoot(s: State)
    requires Homed(s)
    ensures ROOTINO < |s.disk|
  {
  }

  /** The two dots of a new directory. */
  lemma DotsLead(d: seq<Entry>, i: nat, j: nat)
    requires DotsAdded([], d, i, j) && i > 0
    ensures |d| == 2 && d[0].inum == i && d[1].inum == j
  {
    hide Absent;
    var m, a, b :| Absent([], ".") && Gains([], m, a, ".", i) && Absent(m, "..") && Gains(m, d, b, "..", j);
  }

  /** A new inode i with its dots, and an entry for it behind the dots of directory j. */
  lemma MadeHomed(s: State, s': State, i: nat, j: nat, k: nat)
    requires InRange(s) && Homed(s) && |s'.disk| == |s.disk| && i < |s.disk| && j < |s.disk| && i != j &&
      i != ROOTINO && 2 <= k <= |s.disk[j].dir|
    requires forall c :: !Claims(s, c, i)
    requires |s'.disk[j].dir| == (if k < |s.disk[j].dir| then |s.disk[j].dir| else k + 1)
    requires forall l :: 0 <= l < |s.disk[j].dir| && l != k ==> s'.disk[j].dir[l] == s.disk[j].dir[l]
    requires s'.disk[j].dir[k].inum == i
    requires s'.disk[i].dir == [] || (|s'.disk[i].dir| == 2 && s'.disk[i].dir[0].inum == i &&
      s'.disk[i].dir[1].inum == j)
    requires forall l :: 0 <= l < |s'.disk[i].dir| ==> !Named(s'.disk[i].dir[l])
    requires forall m :: 0 <= m < |s.disk| ==>
      s'.disk[m].typ == s.disk[m].typ && (m != i && m != j ==> s'.disk[m].dir == s.disk[m].dir)
    ensures Homed(s')
  {
    hide Named;
    forall d: nat, l: nat, m: nat | NamesDir(s', d, l, m) && |s'.disk[m].dir| > 1 ensures s'.disk[m].dir[1].inum == d {
      if !(d == j && l == k) {
        assert NamesDir(s, d, l, m);
        assert m == i ==> Claims(s, ByName(d, l), i);
      }
    }
  }

  lemma DoneHomed(s: State, u: nat, k: nat, s': State)
    requires Inv(s) && Homed(s) && DoesCreateDone(s, u, k, s') && Fits(s, CreateDone(u, k))
    ensures Homed(s')
  {
    hide RolesOk;
    hide Coherent;
    hide Facts;
    hide OneEach;
    hide Holders;
    hide DiskOk;
    hide Homed;
    hide Claims;
    hide Absent;
    hide DotsAdded;
    hide DoesCreateDone;
    hide Named;
    MadeIs(s, u, k, s');
    InodeMeans(s, u);
    var t, name := s.refs[u].role.child, s.refs[u].role.name;
    var i, j := Ino(s, t), Ino(s, u);
    if s.disk[i].typ == T_DIR {
      DotsLead(s'.disk[i].dir, i, j);
      DotsAlone(s'.disk[i].dir, i, j, |s.disk|);
    }
    YoungUnclaimed(s, i);
    MakerDots(s, u);
    BehindDots(InodeOf(s, u).dir, s'.disk[j].dir, k, name, i);
    HomedRoot(s);
    RootClaimed(s);
    MadeHomed(s, s', i, j, k);
  }

  lemma YoungUnclaimed(s: State, i: nat)
    requires InRange(s) && Counted(s) && i < |s.disk| && s.disk[i].nlink == 0
    ensures forall c :: !Claims(s, c, i)
  {
    hide Claims;
    assert Covers(s, i, 0);
    forall c ensures !Claims(s, c, i) {
      NoClaims(s, i, c);
    }
  }

  lemma MakerDots(s: State, u: nat)
    requires InRange(s) && Facts(s) && DiskOk(s) && u in s.refs && s.refs[u].role.Maker?
    ensures InodeOf(s, u).typ == T_DIR ==> DotsFirst(InodeOf(s, u).dir)
  {
    hide Facts;
    hide DiskOk;
    SettledFact(s, u);
  }

  /** Every step keeps the dots where they belong. */
  lemma StepKeepsHomed(s: State, e: Event, s': State)
    requires Inv(s) && Homed(s) && Does(s, e, s') && Fits(s, e)
    ensures Homed(s')
  {
    hide Inv;
    hide Homed;
    match e
    case Clear(t) => ClearHomed(s, t, s');
    case LinkEntry(t, u, name, k) => EntryHomed(s, t, u, name, k, s');
    case UnlinkClear(u) => ClearedHomed(s, u, s');
    case CreateAlloc(u, name, typ, t, i, x) => AllocHomed(s, u, name, typ, t, i, x, s');
    case CreateDone(u, k) => DoneHomed(s, u, k, s');
    case _ => OtherHomed(s, e, s');
  }

  lemma OtherHomed(s: State, e: Event, s': State)
    requires Inv(s) && Homed(s) && Does(s, e, s')
    requires !e.Clear? && !e.LinkEntry? && !e.UnlinkClear? && !e.CreateAlloc? && !e.CreateDone?
    ensures Homed(s')
  {
    hide RolesOk;
    hide Coherent;
    hide Counted;
    hide Facts;
    hide OneEach;
    hide Holders;
    hide DiskOk;
    hide Homed;
    hide Gets;
    hide Short;
    if e.LinkBump? || e.LinkUndo? {
      CopyIs(s, e.t);
    } else if e.UnlinkDrop? {
      DroppingCopy(s, e.t);
    }
    HomedSame(s, s');
  }

  lemma DroppingCopy(s: State, t: nat)
    requires Inv(s) && t in s.refs && s.refs[t].role.Dropping?
    ensures EntryOf(s, t).typ == InodeOf(s, t).typ
  {
    hide RolesOk;
    hide Coherent;
    hide DiskOk;
    hide Counted;
    hide OneEach;
    assert Fact(s, t);
    CopyIs(s, t);
  }

  // ---- Where a lookup can go wrong

  /** A directory other than the root that no entry names any more. */
  ghost predicate RemovedDir(s: State, i: nat) {
    i != ROOTINO && forall d: nat, k: nat :: !NamesDir(s, d, k, i)
  }

  /** The step follows ".." out of a removed directory. */
  ghost predicate LeavesRemoved(s: State, e: Event) {
    e.Walk? && e.k == 1 && e.t in s.refs && s.refs[e.t].slot < |s.table| && RemovedDir(s, Ino(s, e.t))
  }

  /** The parent of a directory that has a name has a link on account of it. */
  lemma ParentWelcome(s: State, d: nat, k: nat, i: nat)
    requires Inv(s) && NamesDir(s, d, k, i) && d >= 1
    ensures Welcome(s, d)
  {
    hide RolesOk;
    hide Coherent;
    hide Facts;
    hide OneEach;
    hide Holders;
    hide Named;
    assert Claims(s, ByChild(k), d);
    Claimed(s, d, ByChild(k));
    LinkedWelcome(s, d);
  }

  /** A lookup leads to an unfinished inode only through ".." of a removed directory. */
  lemma OnlyRemovedLeads(s: State, e: Event, s': State)
    requires Inv(s) && Homed(s) && e.Walk? && Does(s, e, s') && !LeavesRemoved(s, e)
    ensures !Stale(s, e)
  {
    hide RolesOk;
    hide Coherent;
    hide Counted;
    hide OneEach;
    hide Holders;
    hide Gets;
    hide DotsFirst;
    hide Unique;
    hide NamesDir;
    CopyIs(s, e.t);
    SettledFact(s, e.t);
    var i := Ino(s, e.t);
    var d := s.disk[i].dir;
    if e.k == 0 {
      PinnedWelcome(s, e.t);
    } else if e.k == 1 {
      if i == ROOTINO {
        RootWelcome(s);
      } else {
        var p: nat, k: nat :| NamesDir(s, p, k, i);
        assert s.disk[i].dir[1].inum == p;
        ParentWelcome(s, p, k, i);
      }
    } else {
      LiveBehindDots(s, i, e.k);
      NamedWelcome(s, i, e.k);
    }
  }

  lemma LiveBehindDots(s: State, i: nat, k: nat)
    requires DiskOk(s) && i < |s.disk| && DotsFirst(s.disk[i].dir) && 2 <= k < |s.disk[i].dir| && Live(s.disk[i].dir[k])
    ensures Named(s.disk[i].dir[k])
  {
    var d := s.disk[i].dir;
    assert InodeOk(s.disk[i], |s.disk|);
    assert Key(d[0]) != Key(d[k]) && Key(d[1]) != Key(d[k]);
  }
}

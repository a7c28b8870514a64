/**
 Link counts over whole runs.
 */
module LinkRuns {
  import opened Prelude
  import opened Names
  import opened Directories
  import opened InodeTable
  import opened Links
  import opened LinkSteps
  import opened LinkCalls
  import opened LinkCounts
  import opened LinkEntries
  import opened LinkCreate
  import opened LinkHomes

  lemma RootKeeps(s: State, e: Event, s': State)
    requires Inv(s) && e.Root? && Does(s, e, s')
    ensures Inv(s')
  {
    hide Inv;
    RootWelcome(s);
    NewLoose(s, s', ROOTINO, e.x, e.u);
  }

  lemma BumpKeeps(s: State, e: Event, s': State)
    requires Inv(s) && e.LinkBump? && Does(s, e, s') && Fits(s, e)
    ensures Inv(s')
  {
    hide RolesOk;
    hide Coherent;
    hide Facts;
    hide DiskOk;
    hide Counted;
    hide OneEach;
    hide Holders;
    hide Short;
    CopyIs(s, e.t);
    NotNegative(s, Ino(s, e.t));
    ShortFits(InodeOf(s, e.t).nlink + 1);
    RecountedKeeps(s, e.t, InodeOf(s, e.t).nlink + 1, Linking, s');
  }

  /** A call that gives up its claim lowers the count it raised or found. */
  lemma LowerKeeps(s: State, t: nat, s': State)
    requires Inv(s) && t in s.refs && (s.refs[t].role.Linking? || s.refs[t].role.Dropping?) && Owns(s, t) &&
      EntryOf(s, t).valid
    requires s' == WithRole(WithLinks(s, t, Short(EntryOf(s, t).nlink - 1)), t, Loose)
    ensures InodeOf(s, t).nlink >= 1 && Inv(s')
  {
    hide RolesOk;
    hide Coherent;
    hide Facts;
    hide Counted;
    hide OneEach;
    hide Holders;
    hide Short;
    hide Unique;
    hide DotsFirst;
    CopyIs(s, t);
    OwnClaim(s, t, Ino(s, t));
    Claimed(s, Ino(s, t), ByCall(t));
    assert InodeOk(InodeOf(s, t), |s.disk|);
    ShortFits(InodeOf(s, t).nlink - 1);
    RecountedKeeps(s, t, InodeOf(s, t).nlink - 1, Loose, s');
  }

  lemma DroppingValid(s: State, t: nat)
    requires Inv(s) && t in s.refs && s.refs[t].role.Dropping?
    ensures EntryOf(s, t).valid
  {
    hide RolesOk;
    hide Coherent;
    hide DiskOk;
    hide Counted;
    hide OneEach;
    assert Fact(s, t);
  }

  lemma UndoKeeps(s: State, e: Event, s': State)
    requires Inv(s) && e.LinkUndo? && Does(s, e, s')
    ensures Inv(s')
  {
    hide Inv;
    LowerKeeps(s, e.t, s');
  }

  lemma DropLinkKeeps(s: State, e: Event, s': State)
    requires Inv(s) && e.UnlinkDrop? && Does(s, e, s')
    ensures Inv(s')
  {
    hide RolesOk;
    hide Coherent;
    hide Facts;
    hide DiskOk;
    hide Counted;
    hide OneEach;
    hide Holders;
    DroppingValid(s, e.t);
    LowerKeeps(s, e.t, s');
  }

  /** Every step keeps the invariant unless a counter overflows or a lookup leads to an unfinished inode. */
  lemma StepKeepsInv(s: State, e: Event, s': State)
    requires Inv(s) && Does(s, e, s') && Fits(s, e) && !Stale(s, e)
    ensures Inv(s')
  {
    hide Inv;
    hide Got;
    hide DoesPut;
    hide DoesLoad;
    hide DoesLinkEntry;
    hide DoesUnlinkFind;
    hide DoesUnlinkKeep;
    hide DoesUnlinkClear;
    hide DoesCreateAlloc;
    hide DoesCreateDone;
    hide Write;
    hide WithRole;
    hide WithLinks;
    hide Stale;
    hide Fits;
    match e
    case Root(_, _) => RootKeeps(s, e, s');
    case Dup(_, _) => DupKeeps(s, e, s');
    case Load(t) => LoadKeeps(s, t, s');
    case Walk(_, _, _, _) => WalkKeeps(s, e, s');
    case Put(t) => PutKeeps(s, t, s');
    case Clear(t) => ClearKeeps(s, t, s');
    case Invalidate(t) => InvalidateKeeps(s, t, s');
    case Release(t) => ReleaseKeeps(s, t);
    case LinkBump(_) => BumpKeeps(s, e, s');
    case LinkEntry(t, u, name, k) => EntryKeeps(s, t, u, name, k, s');
    case LinkUndo(_) => UndoKeeps(s, e, s');
    case UnlinkFind(u, k, t, x) => FindKeeps(s, u, k, t, x, s');
    case UnlinkKeep(u) => KeepKeeps(s, u, s');
    case UnlinkClear(u) => UnlinkClearKeeps(s, u, s');
    case UnlinkDrop(_) => DropLinkKeeps(s, e, s');
    case CreateAlloc(u, name, typ, t, i, x) => AllocKeeps(s, u, name, typ, t, i, x, s');
    case CreateDone(u, k) => DoneKeeps(s, u, k, s');
  }

  // ---- The image that mkfs leaves

  const T_FILE: nat := 2

  function NewEntry(inum: nat, name: string): Entry {
    Entry(inum, Stored(name, DIRSIZ))
  }

  /** The root directory: the dots, an entry for each file, and the blank rest of the last block. */
  function RootDir(names: seq<string>, pad: nat): seq<Entry> {
    [NewEntry(1, "."), NewEntry(1, "..")] + seq(|names|, j requires 0 <= j < |names| => NewEntry(j + 2,
      names[j])) + seq(pad, _ => BLANK)
  }

  /** After boot: one inode for each file, with one link, and nothing in the inode table. */
  ghost predicate Boots(s: State, names: seq<string>, pad: nat) {
    && |s.disk| >= |names| + 2 && s.refs == map[]
    && (forall x :: 0 <= x < |s.table| ==> s.table[x].ref == 0)
    && s.disk[ROOTINO] == Inode(T_DIR, 1, RootDir(names, pad))
    && (forall i :: 2 <= i < |names| + 2 ==> s.disk[i] == Inode(T_FILE, 1, []))
    && (forall i :: 0 <= i < |s.disk| && (i == 0 || i >= |names| + 2) ==> s.disk[i] == Inode(0, 0, []))
  }

  /** No two file names agree in their first 14 characters, and none is a dot name. */
  ghost predicate Distinct(names: seq<string>) {
    && (forall j :: 0 <= j < |names| ==> !Dots(names[j]))
    && (forall j, k :: 0 <= j < k < |names| ==> Visible(names[j], DIRSIZ) != Visible(names[k], DIRSIZ))
  }

  lemma RootEntries(names: seq<string>, pad: nat)
    ensures var d := RootDir(names, pad);
            && |d| == |names| + 2 + pad && DotsFirst(d) && (forall k :: 0 <= k < |d| ==> |d[k].name| == DIRSIZ)
            && (forall k :: 2 <= k < |names| + 2 ==> d[k].inum == k && Key(d[k]) == Visible(names[k - 2], DIRSIZ))
            && (forall k :: |names| + 2 <= k < |d| ==> d[k] == BLANK)
            && d[0].inum == 1 && d[1].inum == 1
  {
    hide Visible;
    hide Stored;
    DotNames();
    StoredSame(".", DIRSIZ);
    StoredSame("..", DIRSIZ);
    forall k | 0 <= k < |names| ensures Visible(Stored(names[k], DIRSIZ), DIRSIZ) == Visible(names[k], DIRSIZ) {
      StoredSame(names[k], DIRSIZ);
    }
  }

  lemma RootUnique(names: seq<string>, pad: nat)
    ensures Unique(RootDir(names, pad)) <==> Distinct(names)
  {
    hide Visible;
    hide RootDir;
    RootEntries(names, pad);
    var d := RootDir(names, pad);
    if Unique(d) {
      forall j | 0 <= j < |names| ensures !Dots(names[j]) {
        assert Key(d[0]) != Key(d[j + 2]) && Key(d[1]) != Key(d[j + 2]);
      }
      forall j, k | 0 <= j < k < |names| ensures Visible(names[j], DIRSIZ) != Visible(names[k], DIRSIZ) {
        assert Key(d[j + 2]) != Key(d[k + 2]);
      }
    }
    if Distinct(names) {
      forall j, k | 0 <= j < k < |d| && Live(d[j]) && Live(d[k]) ensures Key(d[j]) != Key(d[k]) {
        if j >= 2 {
          assert Visible(names[j - 2], DIRSIZ) != Visible(names[k - 2], DIRSIZ);
        } else if k >= 2 {
          assert !Dots(names[k - 2]);
        }
      }
    }
  }

  lemma BootClaims(s: State, names: seq<string>, pad: nat, i: nat, c: Claim)
    requires Boots(s, names, pad) && i < |s.disk| && Claims(s, c, i)
    ensures (i == ROOTINO && c == ByRoot) || (2 <= i < |names| + 2 && c == ByName(ROOTINO, i))
  {
    hide Named;
    hide RootDir;
    RootEntries(names, pad);
    var d := RootDir(names, pad);
    assert !Named(d[0]) && !Named(d[1]) && !Named(BLANK) by {
      NotNamed(d[0]);
      NotNamed(d[1]);
      NotNamed(BLANK);
    }
  }

  lemma NotNamed(e: Entry)
    requires Key(e) == "." || Key(e) == ".." || e.inum == 0
    ensures !Named(e)
  {
  }

  lemma BootCounted(s: State, names: seq<string>, pad: nat)
    requires Boots(s, names, pad)
    ensures Counted(s)
  {
    hide Claims;
    hide RootDir;
    forall i | 0 <= i < |s.disk| ensures Covers(s, i, s.disk[i].nlink) {
      var cs := if i == ROOTINO then {ByRoot} else if 2 <= i < |names| + 2 then {ByName(ROOTINO, i)} else {};
      forall c | Claims(s, c, i) ensures c in cs {
        BootClaims(s, names, pad, i, c);
      }
      assert Bounds(s, i, cs);
    }
  }

  lemma BootDisk(s: State, names: seq<string>, pad: nat)
    requires Boots(s, names, pad)
    ensures DiskOk(s) <==> Distinct(names)
  {
    hide RootDir;
    hide Distinct;
    hide Unique;
    RootUnique(names, pad);
    RootEntries(names, pad);
    assert Unique([]) by {
      EmptyUnique();
    }
    forall i | 0 <= i < |s.disk| && i != ROOTINO ensures InodeOk(s.disk[i], |s.disk|) {
    }
    assert InodeOk(s.disk[ROOTINO], |s.disk|) <==> Unique(RootDir(names, pad));
  }

  lemma EmptyUnique()
    ensures Unique([])
  {
  }

  /** The image satisfies the invariant exactly if its file names are distinct. */
  lemma BootInv(s: State, names: seq<string>, pad: nat)
    requires Boots(s, names, pad)
    ensures Inv(s) <==> Distinct(names)
  {
    hide DiskOk;
    hide RootDir;
    hide Distinct;
    hide Counted;
    BootDisk(s, names, pad);
    BootCounted(s, names, pad);
    assert forall x :: 0 <= x < |s.table| ==> Holders(s, x) == {};
  }

  /** The dots of the root lead to the root. */
  lemma BootHomed(s: State, names: seq<string>, pad: nat)
    requires Boots(s, names, pad)
    ensures Homed(s)
  {
    hide RootDir;
    hide Named;
    RootEntries(names, pad);
    forall d: nat, k: nat, i: nat | NamesDir(s, d, k, i) && |s.disk[i].dir| > 1 ensures s.disk[i].dir[1].inum == d {
    }
  }

  // ---- Runs

  /** No counter overflows, and ".." is not followed out of a removed directory. */
  ghost predicate Regular(s: State, e: Event) {
    InRange(s) ==> Fits(s, e) && !LeavesRemoved(s, e)
  }

  ghost predicate IsRun(ss: seq<State>, es: seq<Event>, names: seq<string>, pad: nat) {
    && |ss| == |es| + 1 && Boots(ss[0], names, pad)
    && forall i :: 0 <= i < |es| ==> Does(ss[i], es[i], ss[i + 1])
  }

  lemma RegularKeeps(s: State, e: Event, s': State)
    requires Inv(s) && Homed(s) && Does(s, e, s') && Fits(s, e) && !LeavesRemoved(s, e)
    ensures Inv(s') && Homed(s')
  {
    hide Does;
    hide Homed;
    hide LeavesRemoved;
    if e.Walk? {
      OnlyRemovedLeads(s, e, s');
    }
    StepKeepsInv(s, e, s');
    StepKeepsHomed(s, e, s');
  }

  lemma {:induction false} RunKeepsInv(ss: seq<State>, es: seq<Event>, names: seq<string>, pad: nat, n: nat)
    requires IsRun(ss, es, names, pad) && Distinct(names) && n <= |es| && forall i :: 0 <= i < n ==>
      Regular(ss[i], es[i])
    ensures Inv(ss[n]) && Homed(ss[n])
  {
    hide Does;
    hide Boots;
    hide Distinct;
    hide Homed;
    hide LeavesRemoved;
    if n == 0 {
      BootInv(ss[0], names, pad);
      BootHomed(ss[0], names, pad);
    } else {
      RunKeepsInv(ss, es, names, pad, n - 1);
      assert Regular(ss[n - 1], es[n - 1]);
      RegularKeeps(ss[n - 1], es[n - 1], ss[n]);
    }
  }

  // ---- What the invariant says

  /** The named entries, in any directory, for an inode. */
  ghost function NamedEntries(s: State, i: nat): set<Claim> {
    set d, k | 0 <= d < |s.disk| && 0 <= k < |s.disk[d].dir| && Named(s.disk[d].dir[k]) &&
      s.disk[d].dir[k].inum == i :: ByName(d, k)
  }

  lemma NameIsClaim(s: State, i: nat, c: Claim)
    requires InRange(s) && i < |s.disk| && c in NamedEntries(s, i)
    ensures Claims(s, c, i) && c != ByRoot
  {
    hide Named;
  }

  /** The link count is at least the number of named entries; the root has one link more. */
  lemma LinksCoverNames(s: State, i: nat)
    requires Inv(s) && i < |s.disk|
    ensures |NamedEntries(s, i)| + (if i == ROOTINO then 1 else 0) <= s.disk[i].nlink
  {
    hide NamedEntries;
    hide Claims;
    hide RolesOk;
    hide Coherent;
    hide DiskOk;
    hide Facts;
    hide OneEach;
    hide Holders;
    assert Covers(s, i, s.disk[i].nlink);
    var cs :| Bounds(s, i, cs) && |cs| <= s.disk[i].nlink;
    var names := NamedEntries(s, i);
    forall c | c in names ensures c in cs && c != ByRoot {
      NameIsClaim(s, i, c);
    }
    if i == ROOTINO {
      RootClaimed(s);
      SubsetSize(names + {ByRoot}, cs);
    } else {
      SubsetSize(names, cs);
    }
  }

  /** When iput() frees an inode, nothing names it, it is not the root, and nobody else refers to it. */
  lemma FreedIsUnnamed(s: State, t: nat)
    requires Inv(s) && t in s.refs && s.refs[t].role.Dying?
    ensures NamedEntries(s, Ino(s, t)) == {} && Ino(s, t) != ROOTINO && forall u ::
      u in s.refs && Ino(s, u) == Ino(s, t) ==> u == t
  {
    hide Named;
    hide RolesOk;
    hide Coherent;
    hide DiskOk;
    hide Facts;
    hide OneEach;
    hide NamedEntries;
    DyingMeans(s, t);
    LinksCoverNames(s, Ino(s, t));
    forall u | u in s.refs && Ino(s, u) == Ino(s, t) ensures u == t {
      DyingAlone(s, t, u);
    }
  }

  /** A directory that unlink() removes has no named entry. */
  lemma RemovedIsEmpty(s: State, u: nat, s': State)
    requires Inv(s) && DoesUnlinkClear(s, u, s') && InodeOf(s, s.refs[u].role.ip).typ == T_DIR
    ensures var d := InodeOf(s, s.refs[u].role.ip).dir; forall k :: 0 <= k < |d| ==> !Named(d[k])
  {
    hide RolesOk;
    hide Coherent;
    hide Counted;
    hide OneEach;
    hide Holders;
    hide Visible;
    EntryMeans(s, u);
    SettledFact(s, s.refs[u].role.ip);
  }

  /** Every state of a regular run. */
  lemma LinksSafe(ss: seq<State>, es: seq<Event>, names: seq<string>, pad: nat, n: nat)
    requires IsRun(ss, es, names, pad) && Distinct(names) && n <= |es| && forall i :: 0 <= i < n ==>
      Regular(ss[i], es[i])
    ensures InRange(ss[n]) && OneEach(ss[n].table)
    ensures forall i :: 0 <= i < |ss[n].disk| ==>
      Unique(ss[n].disk[i].dir) && |NamedEntries(ss[n], i)| <= ss[n].disk[i].nlink
    ensures n < |es| && es[n].Clear? ==> es[n].t in ss[n].refs && NamedEntries(ss[n], Ino(ss[n], es[n].t)) == {}
    ensures forall u :: AtEntry(ss[n], u) ==> EntryOf(ss[n], ss[n].refs[u].role.ip).nlink >= 1
    ensures n < |es| && es[n].Walk? && !LeavesRemoved(ss[n], es[n]) ==> !Stale(ss[n], es[n])
  {
    hide Does;
    hide Boots;
    hide Distinct;
    hide Coherent;
    hide Counted;
    hide Facts;
    hide RolesOk;
    hide NamedEntries;
    hide OneEach;
    hide Unique;
    hide Homed;
    hide LeavesRemoved;
    hide Stale;
    RunKeepsInv(ss, es, names, pad, n);
    var s := ss[n];
    forall i | 0 <= i < |s.disk| ensures Unique(s.disk[i].dir) && |NamedEntries(s, i)| <= s.disk[i].nlink {
      assert InodeOk(s.disk[i], |s.disk|);
      LinksCoverNames(s, i);
    }
    if n < |es| && es[n].Clear? {
      RunStep(ss, es, names, pad, n);
      FreedIsUnnamed(s, es[n].t);
    }
    forall u | AtEntry(s, u) ensures EntryOf(s, s.refs[u].role.ip).nlink >= 1 {
      EntryMeans(s, u);
    }
    if n < |es| && es[n].Walk? && !LeavesRemoved(s, es[n]) {
      assert Does(s, es[n], ss[n + 1]);
      OnlyRemovedLeads(s, es[n], ss[n + 1]);
    }
  }

  lemma RunStep(ss: seq<State>, es: seq<Event>, names: seq<string>, pad: nat, n: nat)
    requires IsRun(ss, es, names, pad) && n < |es| && es[n].Clear?
    ensures es[n].t in ss[n].refs && ss[n].refs[es[n].t].role.Dying?
  {
    assert Does(ss[n], es[n], ss[n + 1]);
  }

  // ---- The guards are exact

  /** No inode has fewer links than names. */
  ghost predicate AllCovered(s: State) {
    forall i: nat :: i < |s.disk| ==> |NamedEntries(s, i)| <= s.disk[i].nlink
  }

  lemma InvCovers(s: State)
    requires Inv(s)
    ensures AllCovered(s)
  {
    hide Inv;
    hide NamedEntries;
    forall i: nat | i < |s.disk| ensures |NamedEntries(s, i)| <= s.disk[i].nlink {
      LinksCoverNames(s, i);
    }
  }

  /** link() raises a count: no count falls below the number of names exactly if the counter has room. */
  lemma BumpExact(s: State, e: Event, s': State)
    requires Inv(s) && e.LinkBump? && Does(s, e, s')
    ensures AllCovered(s') <==> InodeOf(s, e.t).nlink < MAX_LINKS
  {
    hide RolesOk;
    hide Coherent;
    hide Facts;
    hide Counted;
    hide OneEach;
    hide Holders;
    hide Unique;
    hide DotsFirst;
    hide NamedEntries;
    if InodeOf(s, e.t).nlink < MAX_LINKS {
      BumpKeeps(s, e, s');
      InvCovers(s');
    } else {
      CopyIs(s, e.t);
      assert InodeOk(InodeOf(s, e.t), |s.disk|);
      assert s'.disk[Ino(s, e.t)].nlink == -32768;
      assert |NamedEntries(s', Ino(s, e.t))| >= 0;
    }
  }

  /** The same of mkdir(), which raises its parent's count. */
  lemma MkdirExact(s: State, e: Event, s': State)
    requires Inv(s) && e.CreateDone? && Does(s, e, s') && s.refs[e.u].role.typ == T_DIR
    ensures AllCovered(s') <==> InodeOf(s, e.u).nlink < MAX_LINKS
  {
    hide RolesOk;
    hide Coherent;
    hide Facts;
    hide Counted;
    hide OneEach;
    hide Holders;
    hide Unique;
    hide DotsFirst;
    hide Absent;
    hide Gains;
    hide DotsAdded;
    hide NamedEntries;
    if InodeOf(s, e.u).nlink < MAX_LINKS {
      DoneKeeps(s, e.u, e.k, s');
      InvCovers(s');
    } else {
      InodeMeans(s, e.u);
      assert InodeOk(InodeOf(s, e.u), |s.disk|);
      assert s'.disk[Ino(s, e.u)].nlink == -32768;
      assert |NamedEntries(s', Ino(s, e.u))| >= 0;
    }
  }

  /** Following an entry keeps the invariant exactly if the entry does not lead to an unfinished inode. */
  lemma WalkExact(s: State, e: Event, s': State)
    requires Inv(s) && e.Walk? && Does(s, e, s')
    ensures Inv(s') <==> !Stale(s, e)
  {
    hide Gets;
    hide Coherent;
    hide Counted;
    hide Holders;
    hide OneEach;
    hide Facts;
    hide RolesOk;
    if !Stale(s, e) {
      WalkKeeps(s, e, s');
    } else if Inv(s') {
      var i := InodeOf(s, e.t).dir[e.k].inum;
      assert OneMore(s, s', i, e.x, e.u);
      MoreEntries(s, s', i, e.x, e.u);
      assert Unfinished(s', i);
      PinnedWelcome(s', e.u);
    }
  }

  /** A named entry never leads to an unfinished inode. */
  lemma NamedNotStale(s: State, e: Event)
    requires Inv(s) && e.Walk? && e.t in s.refs && e.k < |InodeOf(s, e.t).dir| && Named(InodeOf(s, e.t).dir[e.k])
    ensures !Stale(s, e)
  {
    hide RolesOk;
    hide Coherent;
    hide Counted;
    hide DiskOk;
    hide Facts;
    hide OneEach;
    hide Named;
    NamedWelcome(s, Ino(s, e.t), e.k);
  }
}

/**
 The steps of create keep the invariant.
 */
module LinkCreate {
  import opened Names
  import opened Directories
  import opened InodeTable
  import opened Links
  import opened LinkSteps
  import opened LinkCounts
  import opened LinkEntries

  // ---- ialloc()

  /** A free inode has no claims, no entries and no users. */
  lemma FreeMeans(s: State, i: nat)
    requires Inv(s) && i < |s.disk| && s.disk[i].typ == 0
    ensures s.disk[i].nlink == 0 && s.disk[i].dir == []
    ensures forall c :: !Claims(s, c, i)
    ensures forall v :: v in s.refs && Ino(s, v) == i ==> s.refs[v].role.Dead? || s.refs[v].role.Gone?
  {
    hide RolesOk;
    hide Coherent;
    hide OneEach;
    hide Holders;
    hide Claims;
    assert InodeOk(s.disk[i], |s.disk|);
    assert Covers(s, i, 0);
    forall c ensures !Claims(s, c, i) {
      NoClaims(s, i, c);
    }
    forall v | v in s.refs && Ino(s, v) == i ensures s.refs[v].role.Dead? || s.refs[v].role.Gone? {
      assert Fact(s, v);
    }
  }

  lemma AllocRoles(s: State, u: nat, name: string, typ: nat, t: nat, i: nat, x: nat, s': State)
    requires Inv(s) && DoesCreateAlloc(s, u, name, typ, t, i, x, s')
    ensures RolesOk(s')
  {
    hide RolesOk;
    hide Coherent;
    hide Counted;
    hide Facts;
    hide OneEach;
    hide Holders;
    hide DiskOk;
    hide Gets;
    hide Absent;
    FreeMeans(s, i);
    CopyIs(s, u);
    forall v | v in s'.refs && v != t && s'.refs[v].slot == x
      ensures MayMeet(Young(u), s'.refs[v].role) && MayMeet(s'.refs[v].role, Young(u)) {
      SharedSlot(s, s', i, x, t, v);
    }
    PairMade(s, s', u, t, x);
  }

  lemma AllocClaims(s: State, s': State, t: nat, u: nat, i: nat, typ: nat, m: nat, c: Claim)
    requires InRange(s) && InRange(s') && i < |s.disk| && m < |s.disk| && s'.disk == s.disk[i := Inode(typ, 0, [])] &&
      s.disk[i].dir == []
    requires forall d :: !Claims(s, d, i)
    requires forall v :: v in s'.refs && (s'.refs[v].role.Linking? || s'.refs[v].role.Dropping?) ==>
      v in s.refs && s.refs[v].role == s'.refs[v].role && Ino(s, v) == Ino(s', v)
    requires Claims(s', c, m)
    ensures Claims(s, c, m)
  {
    hide Named;
    if c.ByChild? {
      assert !Claims(s, ByName(m, c.k), i);
    }
  }

  lemma AllocCounted(s: State, u: nat, name: string, typ: nat, t: nat, i: nat, x: nat, s': State)
    requires Inv(s) && DoesCreateAlloc(s, u, name, typ, t, i, x, s') && InRange(s')
    requires forall v :: v in s.refs ==> Ino(s', v) == Ino(s, v)
    ensures Counted(s')
  {
    hide RolesOk;
    hide Coherent;
    hide OneEach;
    hide Holders;
    hide Facts;
    hide DiskOk;
    hide Claims;
    hide Gets;
    hide Absent;
    FreeMeans(s, i);
    forall m | 0 <= m < |s.disk| ensures Covers(s', m, s'.disk[m].nlink) {
      assert Covers(s, m, s.disk[m].nlink);
      forall c | Claims(s', c, m) ensures Claims(s, c, m) {
        AllocClaims(s, s', t, u, i, typ, m, c);
      }
      Recount(s, s', m, s.disk[m].nlink, {}, {});
    }
  }

  lemma AllocFacts(s: State, u: nat, name: string, typ: nat, t: nat, i: nat, x: nat, s': State)
    requires Inv(s) && DoesCreateAlloc(s, u, name, typ, t, i, x, s') && InRange(s') && Ino(s', t) == i
    requires forall v :: v in s.refs ==> Ino(s', v) == Ino(s, v)
    ensures Facts(s')
  {
    hide RolesOk;
    hide Coherent;
    hide Counted;
    hide Fact;
    hide OneEach;
    hide Holders;
    hide DiskOk;
    hide Gets;
    hide Claims;
    hide Absent;
    FreeMeans(s, i);
    CopyIs(s, u);
    SettledFact(s, u);
    YoungFact(s', t);
    MoreValid(s, s', i, x, t, u);
    MakerFact(s', u);
    forall v | v in s'.refs && v != t && v != u ensures Fact(s', v) {
      AllocOther(s, s', u, t, i, x, v);
    }
  }

  lemma AllocOther(s: State, s': State, u: nat, t: nat, i: nat, x: nat, v: nat)
    requires Inv(s) && InRange(s') && OneMore(s, s', i, x, t) && v in s.refs && s'.refs[v] == s.refs[v] &&
      i < |s.disk| && s.disk[i].typ == 0
    requires s'.disk[i].nlink == 0 && s'.disk[i].dir == [] && forall j :: 0 <= j < |s.disk| && j != i ==>
      s'.disk[j] == s.disk[j]
    ensures Fact(s', v)
  {
    hide RolesOk;
    hide Coherent;
    hide Counted;
    hide Fact;
    hide OneEach;
    hide Holders;
    hide DiskOk;
    hide Gets;
    hide Claims;
    FreeMeans(s, i);
    MoreValid(s, s', i, x, t, v);
    PairMeans(s, v);
    if Ino(s, v) == i {
      DeadOrGone(s', v);
    } else {
      PairedAt(s, v);
      OthersFact(s, s', i, x, t, v);
    }
  }

  lemma PairedAt(s: State, v: nat)
    requires RolesOk(s) && v in s.refs
    ensures Paired(s, v)
  {
  }

  lemma DeadOrGone(s: State, v: nat)
    requires InRange(s) && v in s.refs && (s.refs[v].role.Dead? || s.refs[v].role.Gone?) && InodeOf(s, v).nlink == 0 &&
      InodeOf(s, v).dir == []
    ensures Fact(s, v)
  {
  }

  lemma YoungFact(s: State, t: nat)
    requires InRange(s) && t in s.refs && s.refs[t].role.Young? && InodeOf(s, t).nlink == 0 &&
      InodeOf(s, t).dir == [] && InodeOf(s, t).typ != 0
    ensures Fact(s, t)
  {
  }

  lemma MakerFact(s: State, u: nat)
    requires InRange(s) && u in s.refs && s.refs[u].role.Maker? && EntryOf(s, u).valid && InodeOf(s, u).typ == T_DIR &&
      InodeOf(s, u).dir != []
    requires Absent(InodeOf(s, u).dir, s.refs[u].role.name) && s.refs[u].role.child in s.refs &&
      InodeOf(s, s.refs[u].role.child).typ == s.refs[u].role.typ
    ensures Fact(s, u)
  {
  }

  lemma AllocKeeps(s: State, u: nat, name: string, typ: nat, t: nat, i: nat, x: nat, s': State)
    requires Inv(s) && DoesCreateAlloc(s, u, name, typ, t, i, x, s')
    ensures Inv(s')
  {
    hide RolesOk;
    hide Coherent;
    hide Counted;
    hide Facts;
    hide OneEach;
    hide Holders;
    hide InodeOk;
    hide Gets;
    hide Absent;
    FreeMeans(s, i);
    assert OneMore(s, s', i, x, t);
    TableMore(s, s', i, x, t);
    AllocRoles(s, u, name, typ, t, i, x, s');
    NewCoherent(s, s', i, x, t);
    AllocFacts(s, u, name, typ, t, i, x, s');
    AllocCounted(s, u, name, typ, t, i, x, s');
    NewInode(typ, |s.disk|);
  }

  lemma NewInode(typ: nat, n: nat)
    ensures InodeOk(Inode(typ, 0, []), n)
  {
  }

  // ---- create() finishes

  /** The new inode has one link and its dots, the directory an entry for it. */
  ghost predicate Made(s: State, u: nat, t: nat, k: nat, n: int, di: seq<Entry>, dj: seq<Entry>, s': State)
    requires InRange(s)
  {
    && u in s.refs && t in s.refs && s.refs[u].slot != s.refs[t].slot && Ino(s, u) != Ino(s, t)
    && s.refs[u].role.Maker? && s.refs[u].role.child == t
    && s'.disk == s.disk[Ino(s, t) := InodeOf(s, t).(nlink := 1, dir := di)][Ino(s, u) := InodeOf(s, u).(nlink := n,
       dir := dj)]
    && s'.table == s.table[s.refs[t].slot := EntryOf(s, t).(nlink := 1)][s.refs[u].slot := EntryOf(s, u).(nlink := n)]
    && s'.refs == s.refs[t := s.refs[t].(role := Loose)][u := s.refs[u].(role := Loose)]
  }

  /** What create() finds when it has locked its inode. */
  lemma InodeMeans(s: State, u: nat)
    requires Inv(s) && AtInode(s, u)
    ensures var t := s.refs[u].role.child;
            && s.refs[t].role == Young(u) && s.refs[u].slot != s.refs[t].slot && Ino(s, u) != Ino(s, t)
            && InodeOf(s, t).nlink == 0 && InodeOf(s, t).dir == [] && InodeOf(s, t).typ == s.refs[u].role.typ
            && InodeOf(s, t).typ != 0
            && EntryOf(s, t).typ == InodeOf(s, t).typ
            && InodeOf(s, u).typ == T_DIR && InodeOf(s, u).dir != [] && Absent(InodeOf(s, u).dir, s.refs[u].role.name)
            && EntryOf(s, u).typ == T_DIR && EntryOf(s, u).nlink == InodeOf(s, u).nlink && EntryOf(s, u).valid
  {
    hide RolesOk;
    hide Coherent;
    hide Counted;
    hide DiskOk;
    hide OneEach;
    hide Holders;
    hide Absent;
    var t := s.refs[u].role.child;
    PairMeans(s, u);
    assert Fact(s, u) && Fact(s, t);
    CopyIs(s, u);
    YoungCopy(s, t);
    assert Locks(s.refs[u].role);
    if Ino(s, t) == Ino(s, u) {
      OneSlot(s, t, u);
    }
  }

  lemma YoungCopy(s: State, t: nat)
    requires TableOk(s) && Coherent(s) && Lockable(s, t)
    ensures EntryOf(s, t).typ == InodeOf(s, t).typ && EntryOf(s, t).nlink == InodeOf(s, t).nlink
  {
    hide OneEach;
    RefPositive(s, t);
    assert Agrees(s, s.refs[t].slot);
  }

  /** The two dots, alone. */
  lemma DotsAlone(d: seq<Entry>, i: nat, j: nat, n: nat)
    requires DotsAdded([], d, i, j) && 0 < i < n && 0 < j < n
    ensures InodeOk(Inode(T_DIR, 1, d), n) && d != [] && forall k :: 0 <= k < |d| ==> !Named(d[k])
  {
    hide Visible;
    hide Stored;
    hide Zeros;
    var m, a, b :| Absent([], ".") && Gains([], m, a, ".", i) && Absent(m, "..") && Gains(m, d, b, "..", j);
    DotNames();
    GainsMatches(".", i);
    GainsMatches("..", j);
    assert |d| == 2 && d[0] == m[0];
  }

  lemma DotNames()
    ensures Visible(".", DIRSIZ) == "." && Visible("..", DIRSIZ) == ".."
  {
    assert ".."[1..] == ".";
    assert Visible(".", DIRSIZ - 1) == ".";
    assert Visible(".", DIRSIZ) == ".";
  }

  lemma MadeIs(s: State, u: nat, k: nat, s': State)
    requires Inv(s) && DoesCreateDone(s, u, k, s') && Fits(s, CreateDone(u, k))
    ensures AtInode(s, u)
    ensures var t := s.refs[u].role.child;
            var isDir := InodeOf(s, t).typ == T_DIR;
            && Made(s, u, t, k, if isDir then InodeOf(s, u).nlink + 1
               else InodeOf(s, u).nlink, s'.disk[Ino(s, t)].dir, s'.disk[Ino(s, u)].dir, s')
            && Gains(InodeOf(s, u).dir, s'.disk[Ino(s, u)].dir, k, s.refs[u].role.name, Ino(s, t))
            && (if isDir then DotsAdded([], s'.disk[Ino(s, t)].dir, Ino(s, t), Ino(s, u))
               else s'.disk[Ino(s, t)].dir == [])
  {
    hide RolesOk;
    hide Coherent;
    hide DiskOk;
    hide Facts;
    hide OneEach;
    hide Holders;
    hide Absent;
    hide Gains;
    hide DotsAdded;
    hide Short;
    hide Claims;
    InodeMeans(s, u);
    NotNegative(s, Ino(s, u));
    if s.refs[u].role.typ == T_DIR {
      ShortFits(InodeOf(s, u).nlink + 1);
    }
  }

  lemma NotNegative(s: State, i: nat)
    requires InRange(s) && Counted(s) && i < |s.disk|
    ensures s.disk[i].nlink >= 0
  {
    hide Claims;
    assert Covers(s, i, s.disk[i].nlink);
  }

  lemma MadeClaims(s: State, s': State, i: nat, j: nat, k: nat, name: string, m: nat, c: Claim)
    requires InRange(s) && InRange(s') && |s'.disk| == |s.disk| && i < |s.disk| && j < |s.disk| && m < |s.disk| &&
      i != j
    requires Gains(s.disk[j].dir, s'.disk[j].dir, k, name, i)
    requires forall n :: 0 <= n < |s'.disk[i].dir| ==> !Named(s'.disk[i].dir[n])
    requires forall n :: 0 <= n < |s.disk| ==>
      s'.disk[n].typ == s.disk[n].typ && (n != i && n != j ==> s'.disk[n].dir == s.disk[n].dir)
    requires Claims(s', c, m) && !c.ByCall?
    ensures Claims(s, c, m) || (c == ByName(j, k) && m == i) || (c == ByChild(k) && m == j && s.disk[i].typ == T_DIR)
  {
    hide Named;
    hide Stored;
  }

  lemma MadeCover(s: State, s': State, i: nat, j: nat, k: nat, name: string, m: nat)
    requires InRange(s) && InRange(s') && |s'.disk| == |s.disk| && i < |s.disk| && j < |s.disk| && m < |s.disk| &&
      i != j && Counted(s)
    requires Gains(s.disk[j].dir, s'.disk[j].dir, k, name, i)
    requires forall n :: 0 <= n < |s'.disk[i].dir| ==> !Named(s'.disk[i].dir[n])
    requires forall n :: 0 <= n < |s.disk| ==>
      s'.disk[n].typ == s.disk[n].typ && (n != i && n != j ==> s'.disk[n].dir == s.disk[n].dir)
    requires forall v :: v in s'.refs && (s'.refs[v].role.Linking? || s'.refs[v].role.Dropping?) ==>
      v in s.refs && s.refs[v].role == s'.refs[v].role && Ino(s, v) == Ino(s', v)
    requires s'.disk[m].nlink == s.disk[m].nlink + if m == i || (m == j && s.disk[i].typ == T_DIR) then 1 else 0
    ensures Covers(s', m, s'.disk[m].nlink)
  {
    hide Claims;
    hide Named;
    hide Gains;
    assert Covers(s, m, s.disk[m].nlink);
    var gain := if m == i then {ByName(j, k)} else if m == j && s.disk[i].typ == T_DIR then {ByChild(k)} else {};
    forall c | Claims(s', c, m) ensures c in gain || Claims(s, c, m) {
      if c.ByCall? {
        RestClaim(s, s', c, m);
      } else {
        MadeClaims(s, s', i, j, k, name, m, c);
      }
    }
    Recount(s, s', m, s.disk[m].nlink, gain, {});
  }

  /** The first claim on the new inode is its entry, and a new directory is a claim on its parent. */
  lemma MadeCounted(s: State, u: nat, k: nat, s': State)
    requires Inv(s) && DoesCreateDone(s, u, k, s') && Fits(s, CreateDone(u, k)) && InRange(s')
    ensures Counted(s')
  {
    hide RolesOk;
    hide Coherent;
    hide OneEach;
    hide Holders;
    hide Facts;
    hide DiskOk;
    hide Counted;
    hide Covers;
    hide Named;
    hide Gains;
    hide DotsAdded;
    hide DoesCreateDone;
    MadeIs(s, u, k, s');
    InodeMeans(s, u);
    var t, name := s.refs[u].role.child, s.refs[u].role.name;
    var i, j := Ino(s, t), Ino(s, u);
    if s.disk[i].typ == T_DIR {
      DotsAlone(s'.disk[i].dir, i, j, |s.disk|);
    }
    forall m | 0 <= m < |s.disk| ensures Covers(s', m, s'.disk[m].nlink) {
      MadeCover(s, s', i, j, k, name, m);
    }
    CountedAll(s');
  }

  lemma CountedAll(s: State)
    requires InRange(s) && forall m :: 0 <= m < |s.disk| ==> Covers(s, m, s.disk[m].nlink)
    ensures Counted(s)
  {
  }

  lemma RestClaim(s: State, s': State, c: Claim, m: nat)
    requires InRange(s) && InRange(s') && m < |s.disk| && m < |s'.disk| && c.ByCall? && Claims(s', c, m)
    requires forall v :: v in s'.refs && (s'.refs[v].role.Linking? || s'.refs[v].role.Dropping?) ==>
      v in s.refs && s.refs[v].role == s'.refs[v].role && Ino(s, v) == Ino(s', v)
    ensures Claims(s, c, m)
  {
  }

  lemma YoungCompany(s: State, t: nat, v: nat)
    requires RolesOk(s) && t in s.refs && s.refs[t].role.Young? && Unlocked(s, s.refs[t].slot) && v in s.refs &&
      v != t && s.refs[v].slot == s.refs[t].slot
    ensures s.refs[v].role.Gone?
  {
    hide Paired;
    assert MayMeet(s.refs[t].role, s.refs[v].role);
  }

  lemma MadeOther(s: State, u: nat, t: nat, s': State, v: nat)
    requires Inv(s) && InRange(s') && SameEntries(s, s') && SameTypes(s, s') && v in s.refs && v != u && v != t &&
      s'.refs[v] == s.refs[v]
    requires u in s.refs && Owns(s, u) && t in s.refs && s.refs[t].role.Young? && Unlocked(s, s.refs[t].slot)
    requires forall j :: 0 <= j < |s.disk| && j != Ino(s, u) && j != Ino(s, t) ==> s'.disk[j] == s.disk[j]
    ensures Fact(s', v)
  {
    hide OneEach;
    hide Holders;
    hide Coherent;
    hide Counted;
    hide Fact;
    hide RolesOk;
    hide DiskOk;
    if Ino(s, v) == Ino(s, u) {
      OneSlot(s, v, u);
      EasyAt(s, u, v);
    } else if Ino(s, v) == Ino(s, t) {
      OneSlot(s, v, t);
      YoungCompany(s, t, v);
    }
    ToleratedFact(s, s', v);
  }

  lemma MadeSame(s: State, u: nat, t: nat, k: nat, n: int, di: seq<Entry>, dj: seq<Entry>, s': State)
    requires InRange(s) && Made(s, u, t, k, n, di, dj, s') && (di == [] ==> InodeOf(s, t).dir == []) && dj != []
    ensures SameEntries(s, s') && SameTypes(s, s') && InRange(s')
  {
  }

  lemma MadeFacts(s: State, u: nat, k: nat, s': State)
    requires Inv(s) && DoesCreateDone(s, u, k, s') && Fits(s, CreateDone(u, k)) && InRange(s')
    ensures Facts(s')
  {
    hide RolesOk;
    hide Coherent;
    hide Counted;
    hide Fact;
    hide OneEach;
    hide Holders;
    hide DiskOk;
    hide DotsAdded;
    hide DoesCreateDone;
    hide Absent;
    hide Named;
    hide InodeOk;
    hide SameEntries;
    hide SameTypes;
    MadeIs(s, u, k, s');
    InodeMeans(s, u);
    var t := s.refs[u].role.child;
    var i, j := Ino(s, t), Ino(s, u);
    if s.disk[i].typ == T_DIR {
      DotsAlone(s'.disk[i].dir, i, j, |s.disk|);
    }
    assert s'.disk[j].dir != [];
    LooseFact(s', t);
    LooseFact(s', u);
    MadeSame(s, u, t, k, s'.disk[j].nlink, s'.disk[i].dir, s'.disk[j].dir, s');
    forall v | v in s'.refs ensures Fact(s', v) {
      if v != t && v != u {
        MadeOther(s, u, t, s', v);
      }
    }
  }

  lemma MadeDisk(s: State, u: nat, k: nat, s': State)
    requires Inv(s) && DoesCreateDone(s, u, k, s') && Fits(s, CreateDone(u, k))
    ensures DiskOk(s')
  {
    hide RolesOk;
    hide Coherent;
    hide Counted;
    hide Facts;
    hide OneEach;
    hide Holders;
    hide DotsAdded;
    hide DoesCreateDone;
    hide Absent;
    hide Named;
    hide InodeOk;
    hide Gains;
    MadeIs(s, u, k, s');
    InodeMeans(s, u);
    var t := s.refs[u].role.child;
    var i, j := Ino(s, t), Ino(s, u);
    if s.disk[i].typ == T_DIR {
      DotsAlone(s'.disk[i].dir, i, j, |s.disk|);
    } else {
      FileInode(s.disk[i].typ, |s.disk|);
    }
    assert InodeOk(s.disk[j], |s.disk|);
    AtMost(s.disk[j], |s.disk|);
    GainsKeeps(s.disk[j], s'.disk[j], |s.disk|, k, s.refs[u].role.name, i);
  }

  lemma FileInode(typ: nat, n: nat)
    requires typ != 0 && typ != T_DIR
    ensures InodeOk(Inode(typ, 1, []), n)
  {
  }

  /** One entry of the table and its inode written together. */
  lemma WriteTable(s: State, t: nat, d: Inode, s': State)
    requires TableOk(s) && Coherent(s) && t in s.refs && d.typ != 0 && d.typ == EntryOf(s, t).typ
    requires s'.disk == s.disk[Ino(s, t) := d] &&
      s'.table == s.table[s.refs[t].slot := EntryOf(s, t).(nlink := d.nlink)]
    requires s'.refs.Keys == s.refs.Keys
    requires forall v :: v in s.refs ==>
      s'.refs[v].slot == s.refs[v].slot && (s.refs[v].role.Dead? ==> s'.refs[v].role.Dead?)
    ensures TableOk(s') && Coherent(s')
  {
    hide Coherent;
    hide OneEach;
    hide Holders;
    assert SameEntries(s, s');
    TableSame(s, s');
    RefPositive(s, t);
    WrittenCoherent(s, s', s.refs[t].slot);
  }

  lemma MadeTable(s: State, u: nat, t: nat, k: nat, n: int, di: seq<Entry>, dj: seq<Entry>, s': State)
    requires TableOk(s) && Coherent(s) && Made(s, u, t, k, n, di, dj, s') && EntryOf(s, u).typ == InodeOf(s, u).typ &&
      EntryOf(s, t).typ == InodeOf(s, t).typ
    requires s.refs[t].role.Young? && InodeOf(s, u).typ != 0 && InodeOf(s, t).typ != 0
    ensures TableOk(s') && Coherent(s')
  {
    hide Coherent;
    hide OneEach;
    hide Holders;
    var d := InodeOf(s, t).(nlink := 1, dir := di);
    var mid := s.(disk := s.disk[Ino(s, t) := d], table := s.table[s.refs[t].slot := EntryOf(s, t).(nlink := 1)]);
    WriteTable(s, t, d, mid);
    WriteTable(mid, u, InodeOf(s, u).(nlink := n, dir := dj), s');
  }

  lemma DoneKeeps(s: State, u: nat, k: nat, s': State)
    requires Inv(s) && DoesCreateDone(s, u, k, s') && Fits(s, CreateDone(u, k))
    ensures Inv(s')
  {
    hide RolesOk;
    hide Coherent;
    hide Counted;
    hide Facts;
    hide OneEach;
    hide Holders;
    hide DiskOk;
    hide DotsAdded;
    hide DoesCreateDone;
    hide Absent;
    hide Gains;
    MadeIs(s, u, k, s');
    InodeMeans(s, u);
    var t := s.refs[u].role.child;
    var i, j := Ino(s, t), Ino(s, u);
    MadeTable(s, u, t, k, s'.disk[j].nlink, s'.disk[i].dir, s'.disk[j].dir, s');
    PairFreed(s, s', u, t, Loose);
    MadeFacts(s, u, k, s');
    MadeCounted(s, u, k, s');
    MadeDisk(s, u, k, s');
  }
}

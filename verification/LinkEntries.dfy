/**
 The steps of link and unlink that change a directory keep the invariant.
 */
module LinkEntries {
  import opened Names
  import opened Directories
  import opened InodeTable
  import opened Links
  import opened LinkSteps
  import opened LinkCalls
  import opened LinkCounts

  // ---- A directory gains an entry

  lemma GainsKeeps(d: Inode, d': Inode, n: nat, k: nat, name: string, inum: nat)
    requires InodeOk(d, n) && d.typ == T_DIR && d.dir != [] && Absent(d.dir, name) &&
      Gains(d.dir, d'.dir, k, name, inum) && inum < n
    requires d'.typ == d.typ && d'.nlink <= MAX_LINKS
    ensures InodeOk(d', n) && d'.dir != []
  {
    hide Unique;
    hide Absent;
    hide Stored;
    GainsUnique(d.dir, d'.dir, k, name, inum);
    forall j | 0 <= j < |d'.dir| ensures d'.dir[j].inum < n {
      assert j != k ==> d'.dir[j] == d.dir[j];
    }
  }

  lemma AtMost(d: Inode, n: nat)
    requires InodeOk(d, n)
    ensures d.nlink <= MAX_LINKS
  {
  }

  /** A new entry brings at most its own claims. */
  lemma GainClaims(s: State, s': State, j: nat, k: nat, name: string, i: nat, m: nat, c: Claim)
    requires InRange(s) && InRange(s') && |s'.disk| == |s.disk| && j < |s.disk| && m < |s.disk|
    requires Gains(s.disk[j].dir, s'.disk[j].dir, k, name, i)
    requires forall n :: 0 <= n < |s.disk| ==>
      s'.disk[n].typ == s.disk[n].typ && (n != j ==> s'.disk[n].dir == s.disk[n].dir)
    requires Claims(s', c, m) && !c.ByCall?
    ensures Claims(s, c, m) || (c == ByName(j, k) && m == i) || (c == ByChild(k) && m == j && i < |s.disk| &&
      s.disk[i].typ == T_DIR)
  {
    hide Named;
    hide Stored;
  }

  lemma EntrySame(s: State, t: nat, u: nat, name: string, k: nat, s': State)
    requires Inv(s) && DoesLinkEntry(s, t, u, name, k, s')
    ensures s'.disk == s.disk[Ino(s, u) := InodeOf(s, u).(dir := s'.disk[Ino(s, u)].dir)] && s'.table == s.table
    ensures s'.disk[Ino(s, u)].dir != [] && InodeOf(s, u).typ == T_DIR && Ino(s, t) != Ino(s, u)
    ensures SameEntries(s, s') && SameTypes(s, s') && InRange(s')
  {
    hide RolesOk;
    hide Coherent;
    hide Counted;
    hide OneEach;
    hide Holders;
    hide DiskOk;
    CopyIs(s, u);
    assert Fact(s, t);
  }

  lemma EntryFacts(s: State, t: nat, u: nat, name: string, k: nat, s': State)
    requires Inv(s) && DoesLinkEntry(s, t, u, name, k, s') && InRange(s')
    ensures Facts(s')
  {
    hide Coherent;
    hide Counted;
    hide OneEach;
    hide Holders;
    hide Fact;
    hide RolesOk;
    hide DiskOk;
    hide Gains;
    EntrySame(s, t, u, name, k, s');
    SettledFact(s, t);
    forall v | v in s'.refs ensures Fact(s', v) {
      if v == t {
        CountingFact(s', t);
      } else {
        if Ino(s, v) == Ino(s, u) && v != u {
          OneSlot(s, v, u);
          EasyAt(s, u, v);
        }
        ToleratedFact(s, s', v);
      }
    }
  }

  /** The claim of the call becomes the claim of the entry. */
  lemma EntryCounted(s: State, t: nat, u: nat, name: string, k: nat, s': State)
    requires Inv(s) && DoesLinkEntry(s, t, u, name, k, s') && InRange(s')
    ensures Counted(s')
  {
    hide Coherent;
    hide OneEach;
    hide Holders;
    hide Fact;
    hide RolesOk;
    hide DiskOk;
    hide Gains;
    hide Claims;
    EntrySame(s, t, u, name, k, s');
    LinkingType(s, t);
    var i, j := Ino(s, t), Ino(s, u);
    forall m | 0 <= m < |s.disk| ensures Covers(s', m, s'.disk[m].nlink) {
      assert Covers(s, m, s.disk[m].nlink);
      var gain := if m == i then {ByName(j, k)} else {};
      var loss := if m == i then {ByCall(t)} else {};
      OwnClaim(s, t, m);
      OwnClaim(s', t, m);
      forall c | Claims(s', c, m) ensures c in gain || (Claims(s, c, m) && c !in loss) {
        if c.ByCall? {
          CallClaim(s, s', t, c, m);
        } else {
          GainClaims(s, s', j, k, name, i, m, c);
        }
      }
      Recount(s, s', m, s.disk[m].nlink, gain, loss);
    }
  }

  lemma LinkingType(s: State, t: nat)
    requires InRange(s) && Facts(s) && t in s.refs && s.refs[t].role.Linking?
    ensures InodeOf(s, t).typ != T_DIR
  {
    assert Fact(s, t);
  }

  lemma CallClaim(s: State, s': State, t: nat, c: Claim, m: nat)
    requires InRange(s) && InRange(s') && m < |s.disk| && m < |s'.disk| && c.ByCall? && c.t != t && Claims(s', c, m)
    requires forall v :: v in s'.refs && v != t && (s'.refs[v].role.Linking? || s'.refs[v].role.Dropping?) ==>
      v in s.refs && s.refs[v].role == s'.refs[v].role && Ino(s, v) == Ino(s', v)
    ensures Claims(s, c, m)
  {
  }

  lemma EntryKeeps(s: State, t: nat, u: nat, name: string, k: nat, s': State)
    requires Inv(s) && DoesLinkEntry(s, t, u, name, k, s')
    ensures Inv(s')
  {
    hide RolesOk;
    hide Coherent;
    hide Counted;
    hide Facts;
    hide OneEach;
    hide Holders;
    hide InodeOk;
    hide Gains;
    hide Absent;
    EntrySame(s, t, u, name, k, s');
    TableSame(s, s');
    RoleEased(s, s', t, Loose);
    RefPositive(s, u);
    CopyIs(s, u);
    WrittenCoherent(s, s', s.refs[u].slot);
    EntryFacts(s, t, u, name, k, s');
    EntryCounted(s, t, u, name, k, s');
    SettledFact(s, u);
    assert InodeOk(InodeOf(s, u), |s.disk|);
    AtMost(InodeOf(s, u), |s.disk|);
    GainsKeeps(InodeOf(s, u), s'.disk[Ino(s, u)], |s.disk|, k, name, Ino(s, t));
  }

  // ---- unlink finds its entry

  /** A call takes a directory's lock and a second inode. */
  lemma PairMade(s: State, s': State, u: nat, t: nat, x: nat)
    requires RolesOk(s) && u in s.refs && t !in s.refs && s.refs[u].role.Loose? && Unlocked(s, s.refs[u].slot)
    requires t in s'.refs && u in s'.refs &&
      s'.refs == s.refs[u := s.refs[u].(role := s'.refs[u].role)][t := Ref(x, s'.refs[t].role)]
    requires (s'.refs[t].role == Target(u) && s'.refs[u].role.Parent? && s'.refs[u].role.ip == t) ||
      (s'.refs[t].role == Young(u) && s'.refs[u].role.Maker? && s'.refs[u].role.child == t)
    requires forall v :: v in s'.refs && v != t && s'.refs[v].slot == x ==>
      MayMeet(s'.refs[t].role, s'.refs[v].role) && MayMeet(s'.refs[v].role, s'.refs[t].role)
    ensures RolesOk(s')
  {
    PairMadePaired(s, s', u, t, x);
    PairMadeMeet(s, s', u, t, x);
  }

  lemma PairMadePaired(s: State, s': State, u: nat, t: nat, x: nat)
    requires RolesOk(s) && u in s.refs && t !in s.refs && s.refs[u].role.Loose?
    requires t in s'.refs && u in s'.refs &&
      s'.refs == s.refs[u := s.refs[u].(role := s'.refs[u].role)][t := Ref(x, s'.refs[t].role)]
    requires (s'.refs[t].role == Target(u) && s'.refs[u].role.Parent? && s'.refs[u].role.ip == t) ||
      (s'.refs[t].role == Young(u) && s'.refs[u].role.Maker? && s'.refs[u].role.child == t)
    ensures forall v :: v in s'.refs ==> Paired(s', v)
  {
    hide MayMeet;
    forall v | v in s'.refs ensures Paired(s', v) {
      assert v != t ==> Paired(s, v);
    }
  }

  lemma PairMadeMeet(s: State, s': State, u: nat, t: nat, x: nat)
    requires RolesOk(s) && u in s.refs && t !in s.refs && s.refs[u].role.Loose? && Unlocked(s, s.refs[u].slot)
    requires t in s'.refs && u in s'.refs &&
      s'.refs == s.refs[u := s.refs[u].(role := s'.refs[u].role)][t := Ref(x, s'.refs[t].role)]
    requires s'.refs[u].role.Parent? || s'.refs[u].role.Maker?
    requires forall v :: v in s'.refs && v != t && s'.refs[v].slot == x ==>
      MayMeet(s'.refs[t].role, s'.refs[v].role) && MayMeet(s'.refs[v].role, s'.refs[t].role)
    ensures forall v, w :: v in s'.refs && w in s'.refs && v != w && s'.refs[v].slot == s'.refs[w].slot ==>
      MayMeet(s'.refs[v].role, s'.refs[w].role)
  {
    hide Paired;
    hide MayMeet;
    forall w | w in s.refs && w != u && s.refs[w].slot == s.refs[u].slot
      ensures MayMeet(s'.refs[u].role, s.refs[w].role) && MayMeet(s.refs[w].role, s'.refs[u].role) {
      Locking(s'.refs[u].role, s.refs[w].role);
    }
  }

  /** A free lock can be taken in any company of a loose token. */
  lemma Locking(r: Role, q: Role)
    requires (r.Parent? || r.Maker?) && MayMeet(Loose, q) && !Locks(q)
    ensures MayMeet(r, q) && MayMeet(q, r)
  {
  }

  lemma FindRoles(s: State, u: nat, k: nat, t: nat, x: nat, s': State)
    requires Inv(s) && DoesUnlinkFind(s, u, k, t, x, s')
    ensures RolesOk(s')
  {
    hide RolesOk;
    hide Coherent;
    hide Counted;
    hide Facts;
    hide OneEach;
    hide Holders;
    hide DiskOk;
    hide Gets;
    hide Named;
    var i := InodeOf(s, u).dir[k].inum;
    NamedWelcome(s, Ino(s, u), k);
    forall v | v in s'.refs && v != t && s'.refs[v].slot == x
      ensures MayMeet(Target(u), s'.refs[v].role) && MayMeet(s'.refs[v].role, Target(u)) {
      SharedSlot(s, s', i, x, t, v);
      WelcomeAt(s, i, v);
    }
    PairMade(s, s', u, t, x);
  }

  lemma FindFacts(s: State, u: nat, k: nat, t: nat, x: nat, s': State)
    requires Inv(s) && DoesUnlinkFind(s, u, k, t, x, s') && InRange(s') && Ino(s', t) == InodeOf(s, u).dir[k].inum
    ensures Facts(s')
  {
    hide MayMeet;
    hide Coherent;
    hide Counted;
    hide Fact;
    hide OneEach;
    hide Holders;
    hide DiskOk;
    hide Gets;
    hide Named;
    var i := InodeOf(s, u).dir[k].inum;
    NamedWelcome(s, Ino(s, u), k);
    assert Welcome(s, i);
    CopyIs(s, u);
    forall v | v in s'.refs ensures Fact(s', v) {
      if v == t {
        TargetFact(s', t);
      } else {
        assert Fact(s, v) && Paired(s, v);
        MoreValid(s, s', i, x, t, v);
        if v == u {
          SettledFact(s, u);
          ParentFact(s', u, k, t);
        } else {
          OthersFact(s, s', i, x, t, v);
        }
      }
    }
  }

  /** A new token does not disturb the calls in progress. */
  lemma OthersFact(s: State, s': State, i: nat, x: nat, u: nat, v: nat)
    requires TableOk(s) && InRange(s') && OneMore(s, s', i, x, u) && v in s.refs && Fact(s, v) && Paired(s, v) &&
      s'.refs[v] == s.refs[v]
    requires InodeOf(s', v) == InodeOf(s, v) && (s.refs[v].role.Maker? ==>
      s'.disk[Ino(s, s.refs[v].role.child)] == s.disk[Ino(s, s.refs[v].role.child)])
    ensures Fact(s', v)
  {
    hide Fact;
    hide OneEach;
    hide Holders;
    hide Gets;
    MoreValid(s, s', i, x, u, v);
    if s.refs[v].role.Parent? {
      MoreValid(s, s', i, x, u, s.refs[v].role.ip);
    }
    if s.refs[v].role.Maker? {
      MoreValid(s, s', i, x, u, s.refs[v].role.child);
    }
    FactFrame(s, s', v);
  }

  lemma TargetFact(s: State, t: nat)
    requires InRange(s) && t in s.refs && s.refs[t].role.Target? && InodeOf(s, t).typ != 0 &&
      (InodeOf(s, t).typ == T_DIR ==> InodeOf(s, t).dir != [])
    ensures Fact(s, t)
  {
  }

  lemma ParentFact(s: State, u: nat, k: nat, t: nat)
    requires InRange(s) && u in s.refs && t in s.refs && s.refs[u].role == Parent(k, t) && EntryOf(s, u).valid &&
      InodeOf(s, u).typ == T_DIR
    requires k < |InodeOf(s, u).dir| && Named(InodeOf(s, u).dir[k]) && InodeOf(s, u).dir[k].inum == Ino(s, t)
    ensures Fact(s, u)
  {
  }

  lemma FindKeeps(s: State, u: nat, k: nat, t: nat, x: nat, s': State)
    requires Inv(s) && DoesUnlinkFind(s, u, k, t, x, s')
    ensures Inv(s')
  {
    hide RolesOk;
    hide Coherent;
    hide Counted;
    hide Facts;
    hide OneEach;
    hide Holders;
    hide DiskOk;
    hide Gets;
    hide Named;
    var i := InodeOf(s, u).dir[k].inum;
    NamedWelcome(s, Ino(s, u), k);
    assert OneMore(s, s', i, x, t);
    TableMore(s, s', i, x, t);
    FindRoles(s, u, k, t, x, s');
    NewCoherent(s, s', i, x, t);
    FindFacts(s, u, k, t, x, s');
    CountedSame(s, s');
    DiskSame(s, s');
  }

  // ---- unlink ends

  predicate PairOf(r: Role, t: nat) {
    (r.Parent? && r.ip == t) || (r.Maker? && r.child == t)
  }

  /** A call gives up the directory, and keeps or gives up the second inode. */
  lemma PairFreed(s: State, s': State, u: nat, t: nat, r: Role)
    requires RolesOk(s) && u in s.refs && t in s.refs && u != t && PairOf(s.refs[u].role, t) &&
      Unlocked(s, s.refs[t].slot)
    requires r.Loose? || (r.Dropping? && s.refs[t].role.Target?)
    requires s'.refs == s.refs[t := s.refs[t].(role := r)][u := s.refs[u].(role := Loose)]
    ensures RolesOk(s')
  {
    PairFreedPaired(s, s', u, t, r);
    PairFreedMeet(s, s', u, t, r);
  }

  lemma PairFreedPaired(s: State, s': State, u: nat, t: nat, r: Role)
    requires RolesOk(s) && u in s.refs && t in s.refs && u != t && PairOf(s.refs[u].role, t)
    requires r.Loose? || r.Dropping?
    requires s'.refs == s.refs[t := s.refs[t].(role := r)][u := s.refs[u].(role := Loose)]
    ensures forall v :: v in s'.refs ==> Paired(s', v)
  {
    hide MayMeet;
    assert Paired(s, u) && Paired(s, t);
    forall v | v in s'.refs ensures Paired(s', v) {
      assert Paired(s, v);
    }
  }

  lemma PairFreedMeet(s: State, s': State, u: nat, t: nat, r: Role)
    requires RolesOk(s) && u in s.refs && t in s.refs && u != t && PairOf(s.refs[u].role, t) &&
      Unlocked(s, s.refs[t].slot)
    requires r.Loose? || (r.Dropping? && s.refs[t].role.Target?)
    requires s'.refs == s.refs[t := s.refs[t].(role := r)][u := s.refs[u].(role := Loose)]
    ensures forall v, w :: v in s'.refs && w in s'.refs && v != w && s'.refs[v].slot == s'.refs[w].slot ==>
      MayMeet(s'.refs[v].role, s'.refs[w].role)
  {
    hide MayMeet;
    assert Paired(s, u) && s.refs[u].slot != s.refs[t].slot;
    forall w | w in s.refs && w != u && s.refs[w].slot == s.refs[u].slot
      ensures MayMeet(Loose, s.refs[w].role) && MayMeet(s.refs[w].role, Loose) {
      Unlocking(s.refs[u].role, s.refs[w].role);
    }
    forall w | w in s.refs && w != t && s.refs[w].slot == s.refs[t].slot
      ensures MayMeet(r, s.refs[w].role) && MayMeet(s.refs[w].role, r) {
      Ending(s.refs[t].role, r, s.refs[w].role);
    }
  }

  lemma Unlocking(r: Role, q: Role)
    requires (r.Parent? || r.Maker?) && MayMeet(r, q)
    ensures MayMeet(Loose, q) && MayMeet(q, Loose)
  {
  }

  lemma Ending(p: Role, r: Role, q: Role)
    requires (p.Target? && (r.Loose? || r.Dropping?)) || (p.Young? && r.Loose?)
    requires MayMeet(p, q) && !Locks(q)
    ensures MayMeet(r, q) && MayMeet(q, r)
  {
  }

  lemma PairMeans(s: State, u: nat)
    requires RolesOk(s) && u in s.refs
    ensures s.refs[u].role.Parent? ==> s.refs[u].role.ip in s.refs && s.refs[s.refs[u].role.ip].role == Target(u)
    ensures s.refs[u].role.Maker? ==> s.refs[u].role.child in s.refs && s.refs[s.refs[u].role.child].role == Young(u)
  {
    assert Paired(s, u);
  }

  lemma KeepFacts(s: State, u: nat, t: nat, s': State)
    requires InRange(s) && RolesOk(s) && Facts(s) && DiskOk(s) && u in s.refs && s.refs[u].role.Parent? &&
      s.refs[u].role.ip == t && t in s.refs
    requires s'.refs == s.refs[t := s.refs[t].(role := Loose)][u := s.refs[u].(role := Loose)] &&
      s'.table == s.table && s'.disk == s.disk
    ensures Facts(s')
  {
    hide RolesOk;
    hide Fact;
    hide DiskOk;
    PairMeans(s, u);
    SettledFact(s, u);
    SettledFact(s, t);
    forall v | v in s'.refs ensures Fact(s', v) {
      if v == t || v == u {
        LooseFact(s', v);
      } else {
        PairMeans(s, v);
        FactFrame(s, s', v);
      }
    }
  }

  lemma KeepKeeps(s: State, u: nat, s': State)
    requires Inv(s) && DoesUnlinkKeep(s, u, s')
    ensures Inv(s')
  {
    hide RolesOk;
    hide Coherent;
    hide Counted;
    hide Facts;
    hide OneEach;
    hide Holders;
    hide DiskOk;
    hide Vacant;
    assert SameRefs(s, s');
    TableSame(s, s');
    PairFreed(s, s', u, s.refs[u].role.ip, Loose);
    KeepCoherent(s, s');
    KeepFacts(s, u, s.refs[u].role.ip, s');
    CountedSame(s, s');
    DiskSame(s, s');
  }

  lemma KeepCoherent(s: State, s': State)
    requires Coherent(s) && s'.disk == s.disk && s'.table == s.table && s'.refs.Keys == s.refs.Keys
    requires forall t :: t in s.refs ==>
      s'.refs[t].slot == s.refs[t].slot && (s.refs[t].role.Dead? ==> s'.refs[t].role.Dead?)
    ensures Coherent(s')
  {
    forall y | 0 <= y < |s'.table| ensures Agrees(s', y) {
      assert Agrees(s, y);
      SteadyFrame(s, s', y);
      AgreesFrame(s, s', y);
    }
  }

  /** The entry is gone, the directory's count may be lower. */
  ghost predicate Cleared(s: State, u: nat, t: nat, k: nat, n: int, s': State) {
    && u in s.refs && t in s.refs && u != t && s.refs[u].slot < |s.table| && Ino(s, u) < |s.disk|
    && s.refs[t].slot < |s.table|
    && s.refs[u].role == Parent(k, t) && k < |InodeOf(s, u).dir|
    && s'.disk == s.disk[Ino(s, u) := InodeOf(s, u).(nlink := n, dir := InodeOf(s, u).dir[k := BLANK])]
    && s'.table == s.table[s.refs[u].slot := EntryOf(s, u).(nlink := n)]
    && s'.refs == s.refs[t := s.refs[t].(role := Dropping)][u := s.refs[u].(role := Loose)]
  }

  /** unlink never finds a count below one, and its own entry is the claim. */
  lemma EntryMeans(s: State, u: nat)
    requires Inv(s) && AtEntry(s, u)
    ensures var t, k := s.refs[u].role.ip, s.refs[u].role.k;
            && s.refs[t].role == Target(u) && Ino(s, u) != Ino(s, t)
            && Claims(s, ByName(Ino(s, u), k), Ino(s, t)) && InodeOf(s, t).nlink >= 1
            && EntryOf(s, t).nlink == InodeOf(s, t).nlink
            && EntryOf(s, t).typ == InodeOf(s, t).typ
            && InodeOf(s, u).typ == T_DIR && EntryOf(s, u).typ == T_DIR
            && EntryOf(s, u).nlink == InodeOf(s, u).nlink && EntryOf(s, u).valid
            && (InodeOf(s, t).typ == T_DIR ==> Claims(s, ByChild(k), Ino(s, u)) && InodeOf(s, u).nlink >= 1)
  {
    hide RolesOk;
    hide Coherent;
    hide Counted;
    hide DiskOk;
    hide OneEach;
    hide Holders;
    var t, k := s.refs[u].role.ip, s.refs[u].role.k;
    PairMeans(s, u);
    assert Fact(s, u) && Fact(s, t);
    CopyIs(s, t);
    CopyIs(s, u);
    Claimed(s, Ino(s, t), ByName(Ino(s, u), k));
    assert Locks(s.refs[u].role);
    if Ino(s, t) == Ino(s, u) {
      OneSlot(s, t, u);
    }
    if InodeOf(s, t).typ == T_DIR {
      Claimed(s, Ino(s, u), ByChild(k));
    }
  }

  lemma ClearedIs(s: State, u: nat, s': State)
    requires Inv(s) && DoesUnlinkClear(s, u, s')
    ensures var t := s.refs[u].role.ip; Cleared(s, u, t, s.refs[u].role.k, if InodeOf(s, t).typ == T_DIR
      then InodeOf(s, u).nlink - 1 else InodeOf(s, u).nlink, s')
  {
    hide RolesOk;
    hide Coherent;
    hide Counted;
    hide Facts;
    hide OneEach;
    hide Holders;
    hide Vacant;
    hide Short;
    hide Unique;
    hide DotsFirst;
    EntryMeans(s, u);
    assert InodeOk(InodeOf(s, u), |s.disk|);
    if InodeOf(s, s.refs[u].role.ip).typ == T_DIR {
      ShortFits(InodeOf(s, u).nlink - 1);
    }
  }

  lemma LoseClaims(s: State, s': State, j: nat, k: nat, m: nat, c: Claim)
    requires InRange(s) && InRange(s') && |s'.disk| == |s.disk| && j < |s.disk| && m < |s.disk| && k < |s.disk[j].dir|
    requires s'.disk[j].dir == s.disk[j].dir[k := BLANK]
    requires forall n :: 0 <= n < |s.disk| ==>
      s'.disk[n].typ == s.disk[n].typ && (n != j ==> s'.disk[n].dir == s.disk[n].dir)
    requires Claims(s', c, m) && !c.ByCall?
    ensures Claims(s, c, m) && c != ByName(j, k) && !(m == j && c == ByChild(k))
  {
    hide Dots;
  }

  /** The claim of the entry becomes the claim of the call; a subdirectory's claim on its parent goes. */
  lemma ClearedCounted(s: State, u: nat, t: nat, k: nat, n: int, s': State)
    requires Inv(s) && AtEntry(s, u) && Cleared(s, u, t, k, n, s') && InRange(s')
    requires n == if InodeOf(s, t).typ == T_DIR then InodeOf(s, u).nlink - 1 else InodeOf(s, u).nlink
    ensures Counted(s')
  {
    hide Coherent;
    hide OneEach;
    hide Holders;
    hide Facts;
    hide RolesOk;
    hide DiskOk;
    hide Claims;
    EntryMeans(s, u);
    var i, j := Ino(s, t), Ino(s, u);
    forall m | 0 <= m < |s.disk| ensures Covers(s', m, s'.disk[m].nlink) {
      assert Covers(s, m, s.disk[m].nlink);
      var gain := if m == i then {ByCall(t)} else {};
      var loss := if m == i then {ByName(j, k)} else if m == j && InodeOf(s, t).typ == T_DIR then {ByChild(k)} else {};
      OwnClaim(s', t, m);
      forall c | Claims(s', c, m) ensures c in gain || (Claims(s, c, m) && c !in loss) {
        if c.ByCall? {
          if c.t != t {
            CallClaim(s, s', t, c, m);
          }
        } else {
          LoseClaims(s, s', j, k, m, c);
        }
      }
      Recount(s, s', m, s.disk[m].nlink, gain, loss);
    }
  }

  lemma ClearedSame(s: State, u: nat, t: nat, k: nat, n: int, s': State)
    requires InRange(s) && Cleared(s, u, t, k, n, s')
    ensures SameEntries(s, s') && SameTypes(s, s') && InRange(s')
  {
  }

  lemma WrittenFact(s: State, s': State, u: nat, v: nat)
    requires TableOk(s) && InRange(s') && RolesOk(s) && Owns(s, u) && SameEntries(s, s') && SameTypes(s, s') &&
      v in s.refs && v != u && Fact(s, v)
    requires s'.refs[v] == s.refs[v] && forall j :: 0 <= j < |s.disk| && j != Ino(s, u) ==> s'.disk[j] == s.disk[j]
    ensures Fact(s', v)
  {
    hide OneEach;
    hide Holders;
    hide Fact;
    hide RolesOk;
    if Ino(s, v) == Ino(s, u) {
      OneSlot(s, v, u);
      EasyAt(s, u, v);
    }
    ToleratedFact(s, s', v);
  }

  lemma ClearedFacts(s: State, u: nat, t: nat, k: nat, n: int, s': State)
    requires Inv(s) && AtEntry(s, u) && Cleared(s, u, t, k, n, s') && InRange(s')
    ensures Facts(s')
  {
    hide Coherent;
    hide Counted;
    hide OneEach;
    hide Holders;
    hide Fact;
    hide RolesOk;
    hide DiskOk;
    hide Claims;
    hide SameEntries;
    hide SameTypes;
    EntryMeans(s, u);
    SettledFact(s, t);
    SettledFact(s, u);
    ClearedSame(s, u, t, k, n, s');
    DroppingFact(s', t);
    LooseFact(s', u);
    forall v | v in s'.refs ensures Fact(s', v) {
      if v != t && v != u {
        WrittenFact(s, s', u, v);
      }
    }
  }

  lemma DroppingFact(s: State, t: nat)
    requires InRange(s) && t in s.refs && s.refs[t].role.Dropping? && EntryOf(s, t).valid && InodeOf(s, t).typ != 0 &&
      (InodeOf(s, t).typ == T_DIR ==> InodeOf(s, t).dir != [])
    ensures Fact(s, t)
  {
  }

  lemma BlankKeeps(d: Inode, d': Inode, n: nat, k: nat)
    requires InodeOk(d, n) && d.typ == T_DIR && k < |d.dir| && Named(d.dir[k]) && n > 0
    requires d'.typ == d.typ && d'.dir == d.dir[k := BLANK] && d'.nlink <= MAX_LINKS
    ensures InodeOk(d', n)
  {
  }

  lemma ClearedDisk(s: State, u: nat, t: nat, k: nat, n: int, s': State)
    requires DiskOk(s) && Cleared(s, u, t, k, n, s') && InodeOf(s, u).typ == T_DIR && n <= InodeOf(s, u).nlink &&
      Named(InodeOf(s, u).dir[k])
    ensures DiskOk(s')
  {
    hide InodeOk;
    hide Named;
    assert InodeOk(InodeOf(s, u), |s.disk|);
    AtMost(InodeOf(s, u), |s.disk|);
    BlankKeeps(InodeOf(s, u), s'.disk[Ino(s, u)], |s.disk|, k);
  }

  lemma ClearedTable(s: State, u: nat, t: nat, k: nat, n: int, s': State)
    requires TableOk(s) && Coherent(s) && Cleared(s, u, t, k, n, s') && EntryOf(s, u).typ == T_DIR &&
      InodeOf(s, u).typ == T_DIR && s.refs[t].role.Target?
    ensures TableOk(s') && Coherent(s')
  {
    hide Coherent;
    hide OneEach;
    hide Holders;
    hide SameRefs;
    hide Named;
    hide InodeOk;
    ClearedSame(s, u, t, k, n, s');
    TableSame(s, s');
    RefPositive(s, u);
    WrittenCoherent(s, s', s.refs[u].slot);
  }

  lemma UnlinkClearKeeps(s: State, u: nat, s': State)
    requires Inv(s) && DoesUnlinkClear(s, u, s')
    ensures Inv(s')
  {
    hide RolesOk;
    hide Coherent;
    hide Counted;
    hide Facts;
    hide OneEach;
    hide Holders;
    hide DiskOk;
    hide DoesUnlinkClear;
    hide Named;
    DoesAt(s, u, s');
    EntryMeans(s, u);
    ClearedIs(s, u, s');
    var t, k := s.refs[u].role.ip, s.refs[u].role.k;
    var n := s'.disk[Ino(s, u)].nlink;
    ClearedTable(s, u, t, k, n, s');
    PairFreed(s, s', u, t, Dropping);
    ClearedFacts(s, u, t, k, n, s');
    ClearedCounted(s, u, t, k, n, s');
    ClearedDisk(s, u, t, k, n, s');
  }

  lemma DoesAt(s: State, u: nat, s': State)
    requires DoesUnlinkClear(s, u, s')
    ensures AtEntry(s, u)
  {
  }
}

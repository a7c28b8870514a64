/**
 The steps of link and unlink that only change a link count keep the invariant.
 */
module LinkCounts {
  import opened Directories
  import opened InodeTable
  import opened Links
  import opened LinkSteps
  import opened LinkCalls

  /** The token may change its inode: it is in use and no other call has the lock. */
  ghost predicate Owns(s: State, a: nat) {
    a in s.refs && Settled(s.refs[a].role) && (Locks(s.refs[a].role) || Unlocked(s, s.refs[a].slot))
  }

  lemma EasyAt(s: State, a: nat, t: nat)
    requires RolesOk(s) && Owns(s, a) && t in s.refs && t != a && s.refs[t].slot == s.refs[a].slot
    ensures Easy(s.refs[t].role)
  {
    hide Paired;
    assert MayMeet(s.refs[a].role, s.refs[t].role);
  }

  /** Entries stay with their inodes, and are valid as before. */
  ghost predicate SameEntries(s: State, s': State)
    requires InRange(s)
  {
    SameRefs(s, s') && forall x :: 0 <= x < |s.table| ==> s'.table[x].valid == s.table[x].valid
  }

  /** Types stay, and an inode changes only for tokens that do not mind. */
  ghost predicate Tolerates(s: State, s': State, t: nat)
    requires InRange(s) && SameEntries(s, s') && t in s.refs
  {
    s'.refs[t] == s.refs[t] && (InodeOf(s', t) == InodeOf(s, t) || Easy(s.refs[t].role))
  }

  /** No inode changes its type, and no directory loses all its entries. */
  ghost predicate SameTypes(s: State, s': State) {
    |s'.disk| == |s.disk| && forall i :: 0 <= i < |s.disk| ==>
      s'.disk[i].typ == s.disk[i].typ && (s'.disk[i].dir == [] ==> s.disk[i].dir == [])
  }

  lemma ToleratedFact(s: State, s': State, t: nat)
    requires InRange(s) && InRange(s') && RolesOk(s) && SameEntries(s, s') && SameTypes(s, s') && t in s.refs &&
      Tolerates(s, s', t) && Fact(s, t)
    ensures Fact(s', t)
  {
    hide Fact;
    hide MayMeet;
    assert Paired(s, t);
    FactFrame(s, s', t);
  }

  /** The written entry agrees with the inode written; the others do not notice. */
  lemma WrittenCoherent(s: State, s': State, x: nat)
    requires TableOk(s) && Coherent(s) && SameEntries(s, s') && x < |s.table| && s.table[x].ref > 0
    requires forall t :: t in s.refs && s.refs[t].role.Dead? ==> s'.refs[t].role.Dead?
    requires var i := s.table[x].inum;
      i < |s.disk| && s'.table[x].typ == s'.disk[i].typ && s'.table[x].nlink == s'.disk[i].nlink && s'.disk[i].typ != 0
    requires forall y :: 0 <= y < |s.table| && y != x ==> s'.table[y] == s.table[y]
    requires forall j :: 0 <= j < |s.disk| && j != s.table[x].inum ==> s'.disk[j] == s.disk[j]
    ensures Coherent(s')
  {
    hide Holders;
    forall y | 0 <= y < |s'.table| ensures Agrees(s', y) {
      assert Agrees(s, y);
      if y != x && s.table[y].ref > 0 {
        ApartSlots(s, x, y);
        SteadyFrame(s, s', y);
        AgreesFrame(s, s', y);
      }
    }
  }

  // ---- One count, one role

  ghost predicate Recounted(s: State, a: nat, n: int, r: Role, s': State) {
    && a in s.refs && s.refs[a].slot < |s.table| && Ino(s, a) < |s.disk|
    && s' == WithRole(WithLinks(s, a, n), a, r)
  }

  /** Up by one into a call, or down by one out of it. */
  ghost predicate Shift(s: State, a: nat, n: int, r: Role)
    requires a in s.refs && s.refs[a].slot < |s.table| && Ino(s, a) < |s.disk|
  {
    if s.refs[a].role.Loose? then r.Linking? && n == InodeOf(s, a).nlink + 1
    else Counting(s.refs[a].role) && r.Loose? && n == InodeOf(s, a).nlink - 1
  }

  predicate Counting(r: Role) {
    r.Loose? || r.Linking? || r.Dropping?
  }

  lemma RecountedSame(s: State, a: nat, n: int, r: Role, s': State)
    requires Inv(s) && Owns(s, a) && EntryOf(s, a).valid && Recounted(s, a, n, r, s')
    ensures SameEntries(s, s') && SameTypes(s, s') && s'.disk == s.disk[Ino(s, a) := InodeOf(s, a).(nlink := n)]
    ensures s'.table == s.table[s.refs[a].slot := EntryOf(s, a).(nlink := n)] && InodeOf(s, a).typ != 0
  {
    hide RolesOk;
    hide Coherent;
    hide DiskOk;
    hide Counted;
    hide Facts;
    hide OneEach;
    hide Holders;
    CopyIs(s, a);
  }

  lemma RecountedRoles(s: State, a: nat, n: int, r: Role, s': State)
    requires Inv(s) && Owns(s, a) && Recounted(s, a, n, r, s') && Counting(s.refs[a].role) && Counting(r) && !Locks(r)
    ensures RolesOk(s')
  {
    hide Coherent;
    hide DiskOk;
    hide Counted;
    hide Facts;
    hide OneEach;
    hide Holders;
    hide RolesOk;
    RoleEased(s, s', a, r);
  }

  lemma RecountedFacts(s: State, a: nat, n: int, r: Role, s': State)
    requires Inv(s) && Owns(s, a) && EntryOf(s, a).valid && Recounted(s, a, n, r, s') && Counting(s.refs[a].role) &&
      Counting(r) && !Locks(r)
    requires r.Linking? ==> InodeOf(s, a).typ != T_DIR
    requires InRange(s')
    ensures Facts(s')
  {
    hide Coherent;
    hide DiskOk;
    hide Counted;
    hide OneEach;
    hide Holders;
    hide Fact;
    hide RolesOk;
    RecountedSame(s, a, n, r, s');
    SettledFact(s, a);
    forall t | t in s'.refs ensures Fact(s', t) {
      if t == a {
        CountingFact(s', a);
      } else {
        if Ino(s, t) == Ino(s, a) {
          OneSlot(s, t, a);
          EasyAt(s, a, t);
        }
        ToleratedFact(s, s', t);
      }
    }
  }

  /** An inode in use is a file or a directory with its dots. */
  lemma SettledFact(s: State, t: nat)
    requires InRange(s) && Facts(s) && DiskOk(s) && t in s.refs && Settled(s.refs[t].role)
    ensures InodeOf(s, t).typ != 0 && (InodeOf(s, t).typ == T_DIR ==>
      InodeOf(s, t).dir != [] && DotsFirst(InodeOf(s, t).dir))
  {
    hide Unique;
    hide DotsFirst;
    assert Fact(s, t) && InodeOk(InodeOf(s, t), |s.disk|);
  }

  lemma CountingFact(s: State, t: nat)
    requires InRange(s) && t in s.refs && InodeOf(s, t).typ != 0 && (InodeOf(s, t).typ == T_DIR ==>
      s.refs[t].role.Loose? && InodeOf(s, t).dir != [])
    requires s.refs[t].role.Loose? || s.refs[t].role.Linking?
    ensures Fact(s, t)
  {
  }

  lemma RecountedClaims(s: State, a: nat, s': State, i: nat, c: Claim)
    requires InRange(s) && InRange(s') && a in s.refs && i < |s.disk| && SameTypes(s, s') && c != ByCall(a)
    requires forall j :: 0 <= j < |s.disk| ==> s'.disk[j].dir == s.disk[j].dir
    requires s'.refs.Keys == s.refs.Keys && forall t :: t in s.refs && t != a ==>
      s'.refs[t] == s.refs[t] && Ino(s', t) == Ino(s, t)
    requires Claims(s', c, i)
    ensures Claims(s, c, i)
  {
    hide Named;
  }

  lemma OwnClaim(s: State, a: nat, i: nat)
    requires InRange(s) && a in s.refs && i < |s.disk|
    ensures Claims(s, ByCall(a), i) <==> Ino(s, a) == i && (s.refs[a].role.Linking? || s.refs[a].role.Dropping?)
  {
  }

  /** A call takes a claim and raises the count, or gives one up and lowers it. */
  lemma RecountedCounted(s: State, a: nat, n: int, r: Role, s': State)
    requires Inv(s) && Owns(s, a) && EntryOf(s, a).valid && Recounted(s, a, n, r, s') && InRange(s')
    requires Shift(s, a, n, r)
    ensures Counted(s')
  {
    hide RolesOk;
    hide Coherent;
    hide DiskOk;
    hide Facts;
    hide OneEach;
    hide Holders;
    hide Claims;
    RecountedSame(s, a, n, r, s');
    forall i | 0 <= i < |s.disk| ensures Covers(s', i, s'.disk[i].nlink) {
      assert Covers(s, i, s.disk[i].nlink);
      OwnClaim(s, a, i);
      OwnClaim(s', a, i);
      var gain := if i == Ino(s, a) && r.Linking? then {ByCall(a)} else {};
      var loss := if i == Ino(s, a) && r.Loose? then {ByCall(a)} else {};
      forall c | Claims(s', c, i) ensures c in gain || (Claims(s, c, i) && c !in loss) {
        if c != ByCall(a) {
          RecountedClaims(s, a, s', i, c);
        }
      }
      Recount(s, s', i, s.disk[i].nlink, gain, loss);
    }
  }

  lemma RecountedDisk(s: State, a: nat, n: int, s': State)
    requires DiskOk(s) && a in s.refs && s.refs[a].slot < |s.table| && Ino(s, a) < |s.disk| &&
      InodeOf(s, a).typ != 0 && n <= MAX_LINKS
    requires s'.disk == s.disk[Ino(s, a) := InodeOf(s, a).(nlink := n)] &&
      (InodeOf(s, a).typ == T_DIR ==> InodeOf(s, a).dir != [])
    ensures DiskOk(s')
  {
    hide Unique;
    hide DotsFirst;
    assert InodeOk(InodeOf(s, a), |s.disk|);
  }

  lemma RecountedKeeps(s: State, a: nat, n: int, r: Role, s': State)
    requires Inv(s) && Owns(s, a) && EntryOf(s, a).valid && Recounted(s, a, n, r, s')
    requires Shift(s, a, n, r) && n <= MAX_LINKS
    requires r.Linking? ==> InodeOf(s, a).typ != T_DIR
    ensures Inv(s')
  {
    hide RolesOk;
    hide Coherent;
    hide Counted;
    hide DiskOk;
    hide Facts;
    hide OneEach;
    hide Holders;
    RecountedSame(s, a, n, r, s');
    SettledFact(s, a);
    RefPositive(s, a);
    TableSame(s, s');
    RecountedRoles(s, a, n, r, s');
    WrittenCoherent(s, s', s.refs[a].slot);
    RecountedFacts(s, a, n, r, s');
    RecountedCounted(s, a, n, r, s');
    RecountedDisk(s, a, n, s');
  }

  lemma ShortFits(n: int)
    requires -32768 <= n <= 32767
    ensures Short(n) == n
  {
  }
}

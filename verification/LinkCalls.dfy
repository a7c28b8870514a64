/**
 The steps of link, unlink and create, and the freeing of an inode, keep the invariant.
 */
module LinkCalls {
  import opened Directories
  import opened InodeTable
  import opened Links
  import opened LinkSteps

  // ---- iput() freeing an inode

  lemma DyingAlone(s: State, t: nat, u: nat)
    requires TableOk(s) && RolesOk(s) && t in s.refs && s.refs[t].role.Dying? && u in s.refs && Ino(s, u) == Ino(s, t)
    ensures u == t
  {
    OneSlot(s, t, u);
  }

  /** Freeing an inode takes claims away and adds none. */
  lemma ClearClaims(s: State, t: nat, s': State, i: nat, c: Claim)
    requires InRange(s) && InRange(s') && t in s.refs && i < |s.disk|
    requires s'.disk == s.disk[Ino(s, t) := Inode(0, InodeOf(s, t).nlink, [])]
    requires s'.refs.Keys == s.refs.Keys && forall u :: u in s.refs && u != t ==>
      s'.refs[u] == s.refs[u] && Ino(s', u) == Ino(s, u)
    requires s'.refs[t].role.Dead? && Claims(s', c, i)
    ensures Claims(s, c, i)
  {
    hide Named;
  }

  lemma ClearCounted(s: State, t: nat, s': State)
    requires InRange(s) && InRange(s') && Counted(s) && t in s.refs
    requires s'.disk == s.disk[Ino(s, t) := Inode(0, InodeOf(s, t).nlink, [])]
    requires s'.refs.Keys == s.refs.Keys && forall u :: u in s.refs && u != t ==>
      s'.refs[u] == s.refs[u] && Ino(s', u) == Ino(s, u)
    requires s'.refs[t].role.Dead?
    ensures Counted(s')
  {
    hide Claims;
    forall i | 0 <= i < |s.disk| ensures Covers(s', i, s'.disk[i].nlink) {
      assert Covers(s, i, s.disk[i].nlink);
      forall c | Claims(s', c, i) ensures Claims(s, c, i) {
        ClearClaims(s, t, s', i, c);
      }
      Recount(s, s', i, s.disk[i].nlink, {}, {});
    }
  }

  predicate Single(r: Role) {
    !r.Parent? && !r.Target? && !r.Maker? && !r.Young?
  }

  /** A token outside any pair takes another such role. */
  lemma RoleSwap(s: State, s': State, t: nat, r: Role)
    requires RolesOk(s) && t in s.refs && s'.refs == s.refs[t := s.refs[t].(role := r)] && Single(s.refs[t].role) &&
      Single(r)
    requires forall u :: u in s.refs && u != t && s.refs[u].slot == s.refs[t].slot ==>
      MayMeet(r, s.refs[u].role) && MayMeet(s.refs[u].role, r)
    ensures RolesOk(s')
  {
    hide MayMeet;
    forall v | v in s'.refs ensures Paired(s', v) {
      assert Paired(s, v);
    }
  }

  /** The new role meets everyone the old one did. */
  lemma RoleEased(s: State, s': State, t: nat, r: Role)
    requires RolesOk(s) && t in s.refs && s'.refs == s.refs[t := s.refs[t].(role := r)] && Single(s.refs[t].role) &&
      Single(r)
    requires forall q :: MayMeet(s.refs[t].role, q) ==> MayMeet(r, q) && MayMeet(q, r)
    ensures RolesOk(s')
  {
    hide MayMeet;
    hide Paired;
    RoleSwap(s, s', t, r);
  }

  lemma ClearRoles(s: State, t: nat, s': State)
    requires Inv(s) && t in s.refs && s.refs[t].role.Dying? && s'.refs == s.refs[t := s.refs[t].(role := Dead)]
    ensures RolesOk(s')
  {
    hide OneEach;
    hide Holders;
    hide Coherent;
    hide Counted;
    hide DiskOk;
    hide Facts;
    hide RolesOk;
    RoleEased(s, s', t, s'.refs[t].role);
  }

  lemma ClearCoherent(s: State, t: nat, s': State)
    requires Inv(s) && Does(s, Clear(t), s')
    ensures Coherent(s')
  {
    hide Holders;
    hide RolesOk;
    hide Counted;
    hide DiskOk;
    hide Facts;
    RefPositive(s, t);
    assert s'.refs[t].role.Dead?;
    forall y | 0 <= y < |s'.table| ensures Agrees(s', y) {
      assert Agrees(s, y);
      if y != s.refs[t].slot && s.table[y].ref > 0 {
        ApartSlots(s, y, s.refs[t].slot);
        SteadyFrame(s, s', y);
        AgreesFrame(s, s', y);
      }
    }
  }

  lemma ClearFacts(s: State, t: nat, s': State)
    requires Inv(s) && Does(s, Clear(t), s') && InRange(s')
    ensures Facts(s')
  {
    hide OneEach;
    hide Holders;
    hide Coherent;
    hide Counted;
    hide DiskOk;
    hide Fact;
    hide MayMeet;
    assert Fact(s, t);
    DyingMeans(s, t);
    forall v | v in s'.refs ensures Fact(s', v) {
      assert Paired(s, v) && Fact(s, v);
      if v == t {
        DeadFact(s', t);
      } else {
        if Ino(s, v) == Ino(s, t) {
          DyingAlone(s, t, v);
        }
        if s.refs[v].role.Maker? && Ino(s, s.refs[v].role.child) == Ino(s, t) {
          DyingAlone(s, t, s.refs[v].role.child);
        }
        FactFrame(s, s', v);
      }
    }
  }

  lemma DyingMeans(s: State, t: nat)
    requires Inv(s) && t in s.refs && s.refs[t].role.Dying?
    ensures InodeOf(s, t).nlink == 0 && EntryOf(s, t).nlink == 0
  {
    hide OneEach;
    hide Holders;
    hide Coherent;
    hide Counted;
    hide DiskOk;
    hide RolesOk;
    assert Fact(s, t);
    CopyIs(s, t);
  }

  lemma DeadFact(s: State, t: nat)
    requires InRange(s) && t in s.refs && s.refs[t].role.Dead? && InodeOf(s, t).nlink == 0 && InodeOf(s, t).dir == []
    ensures Fact(s, t)
  {
  }

  lemma ClearKeeps(s: State, t: nat, s': State)
    requires Inv(s) && Does(s, Clear(t), s')
    ensures Inv(s')
  {
    hide RolesOk;
    hide Coherent;
    hide Counted;
    hide Facts;
    hide OneEach;
    hide InodeOk;
    hide Holders;
    hide Fact;
    hide Claims;
    assert SameRefs(s, s');
    TableSame(s, s');
    DyingMeans(s, t);
    ClearRoles(s, t, s');
    ClearCoherent(s, t, s');
    ClearFacts(s, t, s');
    ClearCounted(s, t, s');
    FreeInode(|s.disk|);
  }

  lemma FreeInode(n: nat)
    ensures InodeOk(Inode(0, 0, []), n)
  {
  }

  lemma InvalidateRoles(s: State, t: nat, s': State)
    requires Inv(s) && t in s.refs && s.refs[t].role.Dead? && s'.refs == s.refs[t := s.refs[t].(role := Gone)]
    ensures RolesOk(s')
  {
    hide OneEach;
    hide Holders;
    hide Coherent;
    hide Counted;
    hide DiskOk;
    hide Facts;
    hide RolesOk;
    RoleEased(s, s', t, s'.refs[t].role);
  }

  lemma SteadyElse(s: State, s': State, t: nat, y: nat)
    requires t in s.refs && s.refs[t].slot != y && s'.refs.Keys == s.refs.Keys && forall u :: u in s.refs && u != t ==>
      s'.refs[u] == s.refs[u]
    ensures Steady(s', y) ==> Steady(s, y)
  {
  }

  lemma InvalidateCoherent(s: State, t: nat, s': State)
    requires Inv(s) && Does(s, Invalidate(t), s')
    ensures Coherent(s')
  {
    hide Holders;
    hide OneEach;
    hide RolesOk;
    hide Counted;
    hide DiskOk;
    hide Facts;
    forall y | 0 <= y < |s'.table| ensures Agrees(s', y) {
      assert Agrees(s, y);
      if y != s.refs[t].slot {
        SteadyElse(s, s', t, y);
        AgreesFrame(s, s', y);
      }
    }
  }

  /** Roles that do not need the inode read in. */
  lemma UnreadFact(s: State, s': State, t: nat)
    requires InRange(s) && InRange(s') && t in s.refs && t in s'.refs && Fact(s, t) && Ino(s', t) == Ino(s, t) &&
      InodeOf(s', t) == InodeOf(s, t)
    requires s'.refs[t].role.Gone? || (s.refs[t].role.Young? && s'.refs[t].role == s.refs[t].role)
    ensures Fact(s', t)
  {
  }

  lemma InvalidateFacts(s: State, t: nat, s': State)
    requires Inv(s) && Does(s, Invalidate(t), s') && InRange(s')
    ensures Facts(s')
  {
    hide OneEach;
    hide Holders;
    hide Coherent;
    hide Counted;
    hide DiskOk;
    hide Fact;
    forall v | v in s'.refs ensures Fact(s', v) {
      assert Paired(s, v) && Fact(s, v);
      if s.refs[v].slot == s.refs[t].slot {
        assert v != t ==> MayMeet(s.refs[t].role, s.refs[v].role);
        UnreadFact(s, s', v);
      } else {
        FactFrame(s, s', v);
      }
    }
  }

  lemma InvalidateKeeps(s: State, t: nat, s': State)
    requires Inv(s) && Does(s, Invalidate(t), s')
    ensures Inv(s')
  {
    hide RolesOk;
    hide Coherent;
    hide Counted;
    hide Facts;
    hide OneEach;
    hide DiskOk;
    hide Holders;
    assert SameRefs(s, s');
    TableSame(s, s');
    InvalidateRoles(s, t, s');
    InvalidateCoherent(s, t, s');
    InvalidateFacts(s, t, s');
    CountedSame(s, s');
    DiskSame(s, s');
  }
}

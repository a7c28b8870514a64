/**
 Every step of link, unlink, create and iput keeps the invariant.
 */
module LinkSteps {
  import opened Directories
  import opened InodeTable
  import opened Links

  lemma RefPositive(s: State, t: nat)
    requires TableOk(s) && t in s.refs
    ensures EntryOf(s, t).ref > 0
  {
    assert t in Holders(s, s.refs[t].slot);
  }

  /** Two tokens for one inode share the entry. */
  lemma OneSlot(s: State, t: nat, u: nat)
    requires TableOk(s) && t in s.refs && u in s.refs && Ino(s, t) == Ino(s, u)
    ensures s.refs[t].slot == s.refs[u].slot
  {
    RefPositive(s, t);
    RefPositive(s, u);
  }

  lemma OnlyHolder(s: State, t: nat, u: nat)
    requires TableOk(s) && t in s.refs && u in s.refs && t != u && s.refs[t].slot == s.refs[u].slot
    ensures EntryOf(s, t).ref >= 2
  {
    var h := Holders(s, s.refs[t].slot);
    assert {t, u} <= h;
    assert |h - {t, u}| == |h| - |{t, u}|;
  }

  // ---- The table

  /** Neither tokens nor counts change. */
  ghost predicate SameRefs(s: State, s': State) {
    && |s'.disk| == |s.disk| && |s'.table| == |s.table| && s'.refs.Keys == s.refs.Keys
    && (forall t :: t in s.refs ==> s'.refs[t].slot == s.refs[t].slot)
    && (forall x :: 0 <= x < |s.table| ==>
       s'.table[x].dev == s.table[x].dev && s'.table[x].inum == s.table[x].inum && s'.table[x].ref == s.table[x].ref)
  }

  lemma TableSame(s: State, s': State)
    requires TableOk(s) && SameRefs(s, s')
    ensures TableOk(s')
  {
    forall x | 0 <= x < |s.table| ensures Holders(s', x) == Holders(s, x) {
    }
    assert OneEach(s'.table) by {
      forall x, y | 0 <= x < y < |s'.table| && s'.table[x].ref > 0
        ensures !Holds(s'.table[y], s'.table[x].dev, s'.table[x].inum) {
        assert !Holds(s.table[y], s.table[x].dev, s.table[x].inum);
      }
    }
  }

  /** One more token, from iget(). */
  ghost predicate OneMore(s: State, s': State, i: nat, x: nat, u: nat) {
    && u !in s.refs && |s'.disk| == |s.disk| && s'.refs.Keys == s.refs.Keys + {u}
    && (forall t :: t in s.refs ==> s'.refs[t].slot == s.refs[t].slot)
    && s'.refs[u].slot == x && Gets(s.table, s'.table, ROOTDEV, i, x)
  }

  lemma NoHolders(s: State, x: nat)
    requires TableOk(s) && x < |s.table| && s.table[x].ref == 0
    ensures forall t :: t in s.refs ==> s.refs[t].slot != x
  {
    forall t | t in s.refs ensures s.refs[t].slot != x {
      RefPositive(s, t);
    }
  }

  lemma MoreEntries(s: State, s': State, i: nat, x: nat, u: nat)
    requires TableOk(s) && OneMore(s, s', i, x, u)
    ensures |s'.table| == |s.table| && x < |s.table|
    ensures s'.table[x].ref == s.table[x].ref + 1 && s'.table[x].inum == i && s'.table[x].dev == ROOTDEV
    ensures forall y :: 0 <= y < |s.table| && y != x ==> s'.table[y] == s.table[y]
    ensures forall t :: t in s.refs ==> Ino(s', t) == Ino(s, t)
  {
    hide OneEach;
    if !Holds(s.table[x], ROOTDEV, i) {
      NoHolders(s, x);
    }
  }

  lemma MoreHolders(s: State, s': State, i: nat, x: nat, u: nat, y: nat)
    requires OneMore(s, s', i, x, u)
    ensures |Holders(s', y)| == |Holders(s, y)| + if y == x then 1 else 0
  {
    hide Gets;
    assert Holders(s', y) == if y == x then Holders(s, y) + {u} else Holders(s, y);
  }

  lemma TableMore(s: State, s': State, i: nat, x: nat, u: nat)
    requires TableOk(s) && OneMore(s, s', i, x, u) && 1 <= i < |s.disk|
    ensures TableOk(s') && Ino(s', u) == i
    ensures forall t :: t in s.refs ==> Ino(s', t) == Ino(s, t)
  {
    hide OneEach;
    hide Gets;
    hide Holders;
    GetsOneEach(s.table, s'.table, ROOTDEV, i, x);
    MoreEntries(s, s', i, x, u);
    forall y | 0 <= y < |s.table| ensures s'.table[y].ref == |Holders(s', y)| {
      MoreHolders(s, s', i, x, u, y);
    }
  }

  lemma TableLess(s: State, t: nat)
    requires TableOk(s) && t in s.refs && EntryOf(s, t).ref > 0
    ensures TableOk(Dropped(s, t))
  {
    var s' := Dropped(s, t);
    forall y | 0 <= y < |s.table| ensures s'.table[y].ref == |Holders(s', y)| {
      assert Holders(s', y) == if y == s.refs[t].slot then Holders(s, y) - {t} else Holders(s, y);
    }
    assert OneEach(s'.table) by {
      forall x, y | 0 <= x < y < |s'.table| && s'.table[x].ref > 0
        ensures !Holds(s'.table[y], s'.table[x].dev, s'.table[x].inum) {
        assert !Holds(s.table[y], s.table[x].dev, s.table[x].inum);
      }
    }
  }

  // ---- What stays the same for everyone else

  /** The token, its inode and its copy are as they were. */
  ghost predicate SameFor(s: State, s': State, t: nat)
    requires InRange(s) && InRange(s')
  {
    t in s.refs && t in s'.refs && s'.refs[t] == s.refs[t] && Ino(s', t) == Ino(s, t) &&
      (EntryOf(s, t).valid ==> EntryOf(s', t).valid)
  }

  /** A role whose fact is only about the type of the inode. */
  predicate Easy(r: Role) {
    r.Loose? || r.Linking? || r.Target? || r.Dropping? || r.Gone?
  }

  lemma FactFrame(s: State, s': State, t: nat)
    requires InRange(s) && InRange(s') && SameFor(s, s', t) && Fact(s, t)
    requires InodeOf(s', t) == InodeOf(s, t) || (Easy(s.refs[t].role) && InodeOf(s', t).typ == InodeOf(s, t).typ &&
      (InodeOf(s', t).dir == [] ==> InodeOf(s, t).dir == []))
    requires s.refs[t].role.Parent? ==>
      s.refs[t].role.ip in s'.refs && Ino(s', s.refs[t].role.ip) == Ino(s, s.refs[t].role.ip)
    requires s.refs[t].role.Maker? ==>
      s.refs[t].role.child in s'.refs && InodeOf(s', s.refs[t].role.child).typ == InodeOf(s, s.refs[t].role.child).typ
    ensures Fact(s', t)
  {
  }

  /** Valid entries keep their inode's type and count, or had a free inode. */
  ghost predicate Undisturbed(s: State, s': State, x: nat)
    requires x < |s.table| && x < |s'.table|
  {
    var e, e' := s.table[x], s'.table[x];
    && e.ref > 0 && e.valid && e'.inum == e.inum && e'.typ == e.typ && e'.nlink == e.nlink
    && (Steady(s', x) ==> Steady(s, x))
    && (e.inum < |s.disk| ==>
          s.disk[e.inum].typ == 0 || (e.inum < |s'.disk| && s'.disk[e.inum].typ == s.disk[e.inum].typ &&
            s'.disk[e.inum].nlink == s.disk[e.inum].nlink))
  }

  lemma SteadyFrame(s: State, s': State, y: nat)
    requires forall t :: t in s.refs && s.refs[t].role.Dead? ==>
      t in s'.refs && s'.refs[t].slot == s.refs[t].slot && s'.refs[t].role.Dead?
    ensures Steady(s', y) ==> Steady(s, y)
  {
  }

  lemma AgreesFrame(s: State, s': State, x: nat)
    requires x < |s.table| && x < |s'.table| && Agrees(s, x)
    requires s'.table[x].ref > 0 && s'.table[x].valid ==> Undisturbed(s, s', x)
    ensures Agrees(s', x)
  {
    hide Steady;
  }

  // ---- Claims

  /** `gain` comes, `loss` goes, nothing else is new. */
  lemma Recount(s: State, s': State, i: nat, n: int, gain: set<Claim>, loss: set<Claim>)
    requires InRange(s) && InRange(s') && i < |s.disk| && i < |s'.disk| && Covers(s, i, n)
    requires forall c :: c in loss ==> Claims(s, c, i)
    requires forall c :: Claims(s', c, i) ==> c in gain || (Claims(s, c, i) && c !in loss)
    ensures Covers(s', i, n + |gain| - |loss|)
  {
    hide Claims;
    var cs :| Bounds(s, i, cs) && |cs| <= n;
    assert loss <= cs;
    var rest := cs - loss;
    assert |rest| == |cs| - |loss|;
    var cs' := rest + gain;
    assert |cs'| <= |rest| + |gain|;
    assert Bounds(s', i, cs');
  }

  lemma NoClaims(s: State, i: nat, c: Claim)
    requires InRange(s) && i < |s.disk| && Covers(s, i, 0)
    ensures !Claims(s, c, i)
  {
  }

  lemma Claimed(s: State, i: nat, c: Claim)
    requires InRange(s) && i < |s.disk| && Counted(s) && Claims(s, c, i)
    ensures s.disk[i].nlink >= 1
  {
    hide Claims;
    assert Covers(s, i, s.disk[i].nlink);
  }

  lemma CountedSame(s: State, s': State)
    requires InRange(s) && InRange(s') && Counted(s) && s'.disk == s.disk
    requires forall t :: t in s'.refs && (s'.refs[t].role.Linking? || s'.refs[t].role.Dropping?) ==>
      t in s.refs && s.refs[t].role == s'.refs[t].role && Ino(s, t) == Ino(s', t)
    ensures Counted(s')
  {
    hide Named;
    forall i | 0 <= i < |s.disk| ensures Covers(s', i, s.disk[i].nlink) {
      assert Covers(s, i, s.disk[i].nlink);
      Recount(s, s', i, s.disk[i].nlink, {}, {});
    }
  }

  // ---- A new loose token: iget() of the root, idup(), and following an entry

  ghost predicate Welcome(s: State, i: nat)
    requires InRange(s)
  {
    1 <= i < |s.disk| && !Unfinished(s, i)
  }

  /** An inode with a link is neither free nor being made or freed. */
  lemma LinkedWelcome(s: State, i: nat)
    requires Inv(s) && 1 <= i < |s.disk| && s.disk[i].nlink > 0
    ensures Welcome(s, i)
  {
    hide Claims;
    hide Counted;
    hide Coherent;
    hide RolesOk;
    hide OneEach;
    hide Holders;
    assert InodeOk(s.disk[i], |s.disk|);
    forall t | t in s.refs && Ino(s, t) == i ensures Settled(s.refs[t].role) || s.refs[t].role.Gone? {
      assert Fact(s, t);
    }
  }

  /** Nor is one that somebody is using. */
  lemma PinnedWelcome(s: State, v: nat)
    requires Inv(s) && v in s.refs && Settled(s.refs[v].role)
    ensures Welcome(s, Ino(s, v))
  {
    hide Claims;
    hide Counted;
    hide Coherent;
    hide DiskOk;
    hide Paired;
    assert Fact(s, v);
    forall t | t in s.refs && Ino(s, t) == Ino(s, v) ensures Settled(s.refs[t].role) || s.refs[t].role.Gone? {
      OneSlot(s, t, v);
      assert t != v ==> MayMeet(s.refs[t].role, s.refs[v].role);
    }
  }

  lemma WelcomeAt(s: State, i: nat, t: nat)
    requires InRange(s) && Welcome(s, i) && t in s.refs && Ino(s, t) == i
    ensures Settled(s.refs[t].role) || s.refs[t].role.Gone?
  {
  }

  /** Every token at the entry iget() answers with is for that inode. */
  lemma SharedSlot(s: State, s': State, i: nat, x: nat, u: nat, t: nat)
    requires TableOk(s) && OneMore(s, s', i, x, u) && t in s.refs && s.refs[t].slot == x
    ensures Ino(s, t) == i
  {
    RefPositive(s, t);
  }

  lemma NewRoles(s: State, s': State, i: nat, x: nat, u: nat)
    requires Inv(s) && Got(s, s', i, x, u) && Welcome(s, i)
    ensures RolesOk(s')
  {
    hide Gets;
    hide Counted;
    hide Coherent;
    hide DiskOk;
    hide Fact;
    hide OneEach;
    hide Holders;
    hide Welcome;
    assert OneMore(s, s', i, x, u);
    forall t | t in s.refs && s.refs[t].slot == x
      ensures MayMeet(Loose, s.refs[t].role) && MayMeet(s.refs[t].role, Loose) {
      SharedSlot(s, s', i, x, u, t);
      WelcomeAt(s, i, t);
    }
    forall t | t in s'.refs ensures Paired(s', t) {
      assert t != u ==> Paired(s, t);
    }
  }

  lemma NewCoherent(s: State, s': State, i: nat, x: nat, u: nat)
    requires TableOk(s) && Coherent(s) && OneMore(s, s', i, x, u)
    requires forall t :: t in s.refs && s.refs[t].role.Dead? ==> s'.refs[t].role.Dead?
    requires forall j :: 0 <= j < |s.disk| ==>
               s.disk[j].typ == 0 || (s'.disk[j].typ == s.disk[j].typ && s'.disk[j].nlink == s.disk[j].nlink)
    ensures Coherent(s')
  {
    hide OneEach;
    forall y | 0 <= y < |s'.table| ensures Agrees(s', y) {
      assert Agrees(s, y);
      SteadyFrame(s, s', y);
      AgreesFrame(s, s', y);
    }
  }

  lemma MoreValid(s: State, s': State, i: nat, x: nat, u: nat, t: nat)
    requires TableOk(s) && OneMore(s, s', i, x, u) && t in s.refs
    ensures s.refs[t].slot < |s'.table| && Ino(s', t) == Ino(s, t) && EntryOf(s', t).valid == EntryOf(s, t).valid
  {
    hide OneEach;
    RefPositive(s, t);
  }

  lemma NewFacts(s: State, s': State, i: nat, x: nat, u: nat)
    requires Inv(s) && InRange(s') && Got(s, s', i, x, u) && Welcome(s, i) && Ino(s', u) == i
    ensures Facts(s')
  {
    hide Gets;
    hide Fact;
    hide OneEach;
    hide Holders;
    hide Coherent;
    hide Counted;
    hide DiskOk;
    assert TableOk(s) && OneMore(s, s', i, x, u);
    forall t | t in s'.refs ensures Fact(s', t) {
      if t != u {
        assert Fact(s, t) && Paired(s, t);
        MoreValid(s, s', i, x, u, t);
        if s.refs[t].role.Parent? {
          MoreValid(s, s', i, x, u, s.refs[t].role.ip);
        }
        if s.refs[t].role.Maker? {
          MoreValid(s, s', i, x, u, s.refs[t].role.child);
        }
        FactFrame(s, s', t);
      } else {
        assert Welcome(s, i);
        LooseFact(s', u);
      }
    }
  }

  lemma LooseFact(s: State, t: nat)
    requires InRange(s) && t in s.refs && s.refs[t].role.Loose? && InodeOf(s, t).typ != 0 &&
      (InodeOf(s, t).typ == T_DIR ==> InodeOf(s, t).dir != [])
    ensures Fact(s, t)
  {
  }

  lemma NewLoose(s: State, s': State, i: nat, x: nat, u: nat)
    requires Inv(s) && Got(s, s', i, x, u) && Welcome(s, i)
    ensures Inv(s')
  {
    hide Gets;
    hide Facts;
    hide RolesOk;
    hide Coherent;
    hide Counted;
    hide DiskOk;
    assert OneMore(s, s', i, x, u);
    TableMore(s, s', i, x, u);
    NewRoles(s, s', i, x, u);
    NewCoherent(s, s', i, x, u);
    CountedSame(s, s');
    NewFacts(s, s', i, x, u);
    DiskSame(s, s');
  }

  lemma DiskSame(s: State, s': State)
    requires DiskOk(s) && s'.disk == s.disk
    ensures DiskOk(s')
  {
  }

  /** The root always has its own claim. */
  lemma RootWelcome(s: State)
    requires Inv(s)
    ensures Welcome(s, ROOTINO)
  {
    Claimed(s, ROOTINO, ByRoot);
    LinkedWelcome(s, ROOTINO);
  }

  /** An entry with a name leads to an inode with a link. */
  lemma NamedWelcome(s: State, d: nat, k: nat)
    requires Inv(s) && d < |s.disk| && k < |s.disk[d].dir| && Named(s.disk[d].dir[k])
    ensures s.disk[d].dir[k].inum < |s.disk| && Welcome(s, s.disk[d].dir[k].inum) &&
      s.disk[s.disk[d].dir[k].inum].nlink >= 1
  {
    assert InodeOk(s.disk[d], |s.disk|);
    Claimed(s, s.disk[d].dir[k].inum, ByName(d, k));
    LinkedWelcome(s, s.disk[d].dir[k].inum);
  }

  lemma WalkKeeps(s: State, e: Event, s': State)
    requires Inv(s) && e.Walk? && Does(s, e, s') && !Stale(s, e)
    ensures Inv(s')
  {
    hide Gets;
    hide OneEach;
    hide Holders;
    hide RolesOk;
    hide Coherent;
    hide Counted;
    hide Facts;
    assert InodeOk(InodeOf(s, e.t), |s.disk|);
    NewLoose(s, s', InodeOf(s, e.t).dir[e.k].inum, e.x, e.u);
  }

  lemma DupKeeps(s: State, e: Event, s': State)
    requires Inv(s) && e.Dup? && Does(s, e, s')
    ensures Inv(s')
  {
    hide Gets;
    hide OneEach;
    hide Holders;
    hide RolesOk;
    hide Coherent;
    hide Counted;
    hide DiskOk;
    PinnedWelcome(s, e.t);
    NewLoose(s, s', Ino(s, e.t), s.refs[e.t].slot, e.u);
  }

  // ---- iput()

  lemma DroppedRoles(s: State, t: nat)
    requires Inv(s) && t in s.refs && (s.refs[t].role.Loose? || s.refs[t].role.Gone?) && EntryOf(s, t).ref > 0
    ensures RolesOk(Dropped(s, t))
  {
    hide OneEach;
    hide Holders;
    hide Coherent;
    hide Counted;
    hide DiskOk;
    hide Facts;
    hide MayMeet;
    var s' := Dropped(s, t);
    forall v | v in s'.refs ensures Paired(s', v) {
      assert Paired(s, v);
    }
  }

  lemma DroppedCoherent(s: State, t: nat)
    requires Inv(s) && t in s.refs && !s.refs[t].role.Dead? && EntryOf(s, t).ref > 0
    ensures Coherent(Dropped(s, t))
  {
    hide OneEach;
    hide Holders;
    hide RolesOk;
    hide Counted;
    hide DiskOk;
    hide Facts;
    var s' := Dropped(s, t);
    forall y | 0 <= y < |s'.table| ensures Agrees(s', y) {
      assert Agrees(s, y);
      SteadyFrame(s, s', y);
      AgreesFrame(s, s', y);
    }
  }

  lemma DroppedFacts(s: State, t: nat)
    requires Inv(s) && t in s.refs && (s.refs[t].role.Loose? || s.refs[t].role.Gone?) && EntryOf(s, t).ref > 0
    requires InRange(Dropped(s, t))
    ensures Facts(Dropped(s, t))
  {
    hide OneEach;
    hide Holders;
    hide Coherent;
    hide Counted;
    hide DiskOk;
    hide Fact;
    hide MayMeet;
    var s' := Dropped(s, t);
    forall v | v in s'.refs ensures Fact(s', v) {
      assert Paired(s, v) && Fact(s, v);
      FactFrame(s, s', v);
    }
  }

  lemma DropKeeps(s: State, t: nat)
    requires Inv(s) && t in s.refs && (s.refs[t].role.Loose? || s.refs[t].role.Gone?) && EntryOf(s, t).ref > 0
    ensures Inv(Dropped(s, t))
  {
    hide RolesOk;
    hide Coherent;
    hide Counted;
    hide DiskOk;
    hide Facts;
    TableLess(s, t);
    DroppedRoles(s, t);
    DroppedCoherent(s, t);
    DroppedFacts(s, t);
    CountedSame(s, Dropped(s, t));
    DiskSame(s, Dropped(s, t));
  }

  /** A valid copy that nobody is freeing is the inode itself. */
  lemma CopyIs(s: State, t: nat)
    requires Inv(s) && t in s.refs && EntryOf(s, t).valid && (Settled(s.refs[t].role) || s.refs[t].role.Dying?)
    ensures EntryOf(s, t).typ == InodeOf(s, t).typ && EntryOf(s, t).nlink == InodeOf(s, t).nlink &&
      EntryOf(s, t).typ != 0
  {
    hide Counted;
    hide DiskOk;
    hide Facts;
    hide OneEach;
    RefPositive(s, t);
    assert Agrees(s, s.refs[t].slot);
  }

  /** The last reference is the only one, so the lock is free: acquiresleep() in iput() does not wait. */
  lemma LastAlone(s: State, t: nat)
    requires Inv(s) && t in s.refs && EntryOf(s, t).ref == 1
    ensures forall u :: u in s.refs && s.refs[u].slot == s.refs[t].slot ==> u == t
    ensures s.refs[t].role.Loose? ==> Unlocked(s, s.refs[t].slot)
  {
    hide Counted;
    hide DiskOk;
    hide Facts;
    hide Coherent;
    hide RolesOk;
    forall u | u in s.refs && s.refs[u].slot == s.refs[t].slot ensures u == t {
      if u != t {
        OnlyHolder(s, t, u);
      }
    }
  }

  lemma DyingRoles(s: State, t: nat)
    requires Inv(s) && t in s.refs && s.refs[t].role.Loose? && EntryOf(s, t).ref == 1
    ensures RolesOk(WithRole(s, t, Dying))
  {
    hide OneEach;
    hide Holders;
    hide Coherent;
    hide Counted;
    hide DiskOk;
    hide Facts;
    hide MayMeet;
    var s' := WithRole(s, t, Dying);
    LastAlone(s, t);
    forall v | v in s'.refs ensures Paired(s', v) {
      assert Paired(s, v);
    }
  }

  lemma DyingCoherent(s: State, t: nat)
    requires TableOk(s) && Coherent(s) && t in s.refs && s.refs[t].role.Loose?
    ensures Coherent(WithRole(s, t, Dying))
  {
    hide TableOk;
    var s' := WithRole(s, t, Dying);
    forall y | 0 <= y < |s'.table| ensures Agrees(s', y) {
      assert Agrees(s, y);
      SteadyFrame(s, s', y);
      AgreesFrame(s, s', y);
    }
  }

  lemma DyingFacts(s: State, t: nat)
    requires Inv(s) && t in s.refs && s.refs[t].role.Loose? && EntryOf(s, t).valid && EntryOf(s, t).nlink == 0
    ensures Facts(WithRole(s, t, Dying))
  {
    hide OneEach;
    hide Holders;
    hide Coherent;
    hide Counted;
    hide DiskOk;
    hide MayMeet;
    hide Fact;
    var s' := WithRole(s, t, Dying);
    CopyIs(s, t);
    forall v | v in s'.refs ensures Fact(s', v) {
      assert Paired(s, v) && Fact(s, v);
      if v == t {
        DyingFact(s', t);
      } else {
        FactFrame(s, s', v);
      }
    }
  }

  lemma DyingFact(s: State, t: nat)
    requires InRange(s) && t in s.refs && s.refs[t].role.Dying? && EntryOf(s, t).valid && InodeOf(s, t).nlink == 0 &&
      InodeOf(s, t).typ != 0
    ensures Fact(s, t)
  {
  }

  lemma PutKeeps(s: State, t: nat, s': State)
    requires Inv(s) && DoesPut(s, t, s')
    ensures Inv(s')
  {
    hide RolesOk;
    hide Coherent;
    hide Counted;
    hide DiskOk;
    hide Facts;
    hide OneEach;
    if s' == Dropped(s, t) {
      DropKeeps(s, t);
    } else {
      assert SameRefs(s, s');
      TableSame(s, s');
      DyingRoles(s, t);
      DyingCoherent(s, t);
      DyingFacts(s, t);
      CountedSame(s, s');
      DiskSame(s, s');
    }
  }

  lemma ReleaseKeeps(s: State, t: nat)
    requires Inv(s) && t in s.refs && s.refs[t].role.Gone?
    ensures EntryOf(s, t).ref > 0 && Inv(Dropped(s, t))
  {
    hide RolesOk;
    hide Coherent;
    hide Counted;
    hide DiskOk;
    hide Facts;
    RefPositive(s, t);
    DropKeeps(s, t);
  }

  /** Distinct entries in use are for distinct inodes. */
  lemma ApartSlots(s: State, x: nat, y: nat)
    requires TableOk(s) && x < |s.table| && y < |s.table| && x != y && s.table[x].ref > 0 && s.table[y].ref > 0
    ensures s.table[x].inum != s.table[y].inum
  {
  }

  // ---- ilock() reading an inode in

  lemma LoadKeeps(s: State, t: nat, s': State)
    requires Inv(s) && DoesLoad(s, t, s')
    ensures Inv(s')
  {
    hide RolesOk;
    hide Coherent;
    hide Counted;
    hide DiskOk;
    hide Facts;
    hide OneEach;
    assert SameRefs(s, s');
    TableSame(s, s');
    SameRoles(s, s');
    LoadCoherent(s, t, s');
    LoadFacts(s, t, s');
    CountedSame(s, s');
    DiskSame(s, s');
  }

  lemma SameRoles(s: State, s': State)
    requires RolesOk(s) && s'.refs == s.refs
    ensures RolesOk(s')
  {
    hide MayMeet;
    forall t | t in s'.refs ensures Paired(s', t) {
      assert Paired(s, t);
    }
  }

  lemma LoadCoherent(s: State, t: nat, s': State)
    requires Inv(s) && DoesLoad(s, t, s')
    ensures Coherent(s')
  {
    hide RolesOk;
    hide Counted;
    hide DiskOk;
    hide Facts;
    hide OneEach;
    hide Holders;
    forall y | 0 <= y < |s'.table| ensures Agrees(s', y) {
      assert Agrees(s, y);
      if y != s.refs[t].slot {
        SteadyFrame(s, s', y);
        AgreesFrame(s, s', y);
      }
    }
  }

  lemma LoadFacts(s: State, t: nat, s': State)
    requires Inv(s) && DoesLoad(s, t, s') && InRange(s')
    ensures Facts(s')
  {
    hide Coherent;
    hide Counted;
    hide DiskOk;
    hide OneEach;
    hide Holders;
    hide Fact;
    hide MayMeet;
    forall v | v in s'.refs ensures Fact(s', v) {
      assert Paired(s, v) && Fact(s, v);
      FactFrame(s, s', v);
    }
  }
}

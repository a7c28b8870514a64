/**
 Link counts: link, unlink, create and the reference counts of the inode
 table, as a machine whose steps are the parts of those calls that run under
 one set of locks.  A token is one counted reference to a table entry: an open
 file, a current directory, or a local variable of a system call.  A token in
 nobody's call is loose, and may be followed, duplicated or put at any time.
 */
module Links {
  import opened Directories
  import opened InodeTable

  const ROOTDEV := 1
  const ROOTINO := 1
  const T_DIR: nat := 1
  const MAX_LINKS := 32767

  /** A short after an addition. */
  function Short(n: int): int {
    (n + 32768) % 65536 - 32768
  }

  datatype Inode = Inode(typ: nat, nlink: int, dir: seq<Entry>)

  datatype Role =
    | Loose
    | Linking                                        // link: count raised, no entry yet
    | Parent(k: nat, ip: nat)                        // unlink: directory, locked, entry k found
    | Target(dp: nat)                                // unlink: the inode that entry names
    | Dropping                                       // unlink: entry cleared, inode locked, count to be lowered
    | Maker(name: string, typ: nat, child: nat)      // create: directory, locked, name not in it
    | Young(maker: nat)                              // create: inode just allocated
    | Dying                                          // iput: inode locked, about to be freed
    | Dead                                           // iput: freed on disk, still locked
    | Gone                                           // iput: unlocked, reference about to go

  datatype Ref = Ref(slot: nat, role: Role)

  datatype State = State(disk: seq<Inode>, table: seq<Slot>, refs: map<nat, Ref>)

  predicate Locks(r: Role) {
    r.Parent? || r.Dropping? || r.Maker? || r.Dying? || r.Dead?
  }

  predicate Settled(r: Role) {
    !r.Young? && !r.Dying? && !r.Dead? && !r.Gone?
  }

  ghost predicate Unlocked(s: State, x: nat) {
    forall t :: t in s.refs && s.refs[t].slot == x ==> !Locks(s.refs[t].role)
  }

  ghost predicate InRange(s: State) {
    forall t :: t in s.refs ==> s.refs[t].slot < |s.table| && 1 <= s.table[s.refs[t].slot].inum < |s.disk|
  }

  /** The number of the inode a token refers to. */
  function Ino(s: State, t: nat): nat
    requires t in s.refs && s.refs[t].slot < |s.table|
  {
    s.table[s.refs[t].slot].inum
  }

  /** The entry a token refers to. */
  function EntryOf(s: State, t: nat): Slot
    requires t in s.refs && s.refs[t].slot < |s.table|
  {
    s.table[s.refs[t].slot]
  }

  function InodeOf(s: State, t: nat): Inode
    requires t in s.refs && s.refs[t].slot < |s.table| && s.table[s.refs[t].slot].inum < |s.disk|
  {
    s.disk[s.table[s.refs[t].slot].inum]
  }

  // ---- What a link count must cover

  datatype Claim = ByRoot | ByName(d: nat, k: nat) | ByChild(k: nat) | ByCall(t: nat)

  ghost predicate Claims(s: State, c: Claim, i: nat)
    requires InRange(s) && i < |s.disk|
  {
    match c
    case ByRoot => i == ROOTINO
    case ByName(d, k) => d < |s.disk| && k < |s.disk[d].dir| && Named(s.disk[d].dir[k]) && s.disk[d].dir[k].inum == i
    case ByChild(k) =>
      k < |s.disk[i].dir| && Named(s.disk[i].dir[k]) && s.disk[i].dir[k].inum < |s.disk| &&
      s.disk[s.disk[i].dir[k].inum].typ == T_DIR
    case ByCall(t) => t in s.refs && Ino(s, t) == i && (s.refs[t].role.Linking? || s.refs[t].role.Dropping?)
  }

  ghost predicate Bounds(s: State, i: nat, cs: set<Claim>)
    requires InRange(s) && i < |s.disk|
  {
    forall c :: Claims(s, c, i) ==> c in cs
  }

  /** There are at most `n` claims on inode `i`. */
  ghost predicate Covers(s: State, i: nat, n: int)
    requires InRange(s) && i < |s.disk|
  {
    exists cs :: Bounds(s, i, cs) && |cs| <= n
  }

  // ---- The invariant

  ghost function Holders(s: State, x: nat): set<nat> {
    set t | t in s.refs && s.refs[t].slot == x
  }

  ghost predicate TableOk(s: State) {
    && InRange(s)
    && OneEach(s.table)
    && (forall x :: 0 <= x < |s.table| ==> s.table[x].ref == |Holders(s, x)|)
    && (forall x :: 0 <= x < |s.table| && s.table[x].ref > 0 ==> s.table[x].dev == ROOTDEV)
  }

  ghost predicate Paired(s: State, t: nat)
    requires t in s.refs
  {
    match s.refs[t].role
    case Parent(_, ip) => ip in s.refs && s.refs[ip].role == Target(t)
    case Target(dp) => dp in s.refs && s.refs[dp].role.Parent? && s.refs[dp].role.ip == t
    case Maker(_, _, ip) => ip in s.refs && s.refs[ip].role == Young(t)
    case Young(dp) => dp in s.refs && s.refs[dp].role.Maker? && s.refs[dp].role.child == t
    case _ => true
  }

  /** Which roles can meet at one table entry. */
  predicate MayMeet(r: Role, q: Role) {
    && !r.Dying? && !q.Dying? && !(Locks(r) && Locks(q))
    && (r.Gone? || q.Gone? || (Settled(r) && Settled(q)) || (r.Young? && q.Dead?) || (r.Dead? && q.Young?))
  }

  ghost predicate RolesOk(s: State) {
    && (forall t :: t in s.refs ==> Paired(s, t))
    && (forall t, u :: t in s.refs && u in s.refs && t != u && s.refs[t].slot == s.refs[u].slot ==>
       MayMeet(s.refs[t].role, s.refs[u].role))
  }

  /** Nobody is between freeing the inode and giving it back. */
  ghost predicate Steady(s: State, x: nat) {
    forall u :: u in s.refs && s.refs[u].slot == x ==> !s.refs[u].role.Dead?
  }

  /** The copy in memory is the one on disk, except while iput() frees it. */
  ghost predicate Agrees(s: State, x: nat)
    requires x < |s.table|
  {
    var e := s.table[x];
    e.ref > 0 && e.valid && Steady(s, x) ==>
      e.inum < |s.disk| && e.typ == s.disk[e.inum].typ && e.nlink == s.disk[e.inum].nlink && e.typ != 0
  }

  ghost predicate Coherent(s: State) {
    forall x :: 0 <= x < |s.table| ==> Agrees(s, x)
  }

  ghost predicate InodeOk(d: Inode, n: nat) {
    && d.nlink <= MAX_LINKS
    && (d.typ == 0 ==> d.nlink == 0)
    && (d.typ != T_DIR ==> d.dir == [])
    && Unique(d.dir)
    && (d.dir == [] || DotsFirst(d.dir))
    && (d.typ == T_DIR && d.dir == [] ==> d.nlink == 0)
    && forall k :: 0 <= k < |d.dir| ==> d.dir[k].inum < n
  }

  ghost predicate DiskOk(s: State) {
    && |s.disk| > ROOTINO
    && forall i :: 0 <= i < |s.disk| ==> InodeOk(s.disk[i], |s.disk|)
  }

  ghost predicate Counted(s: State)
    requires InRange(s)
  {
    forall i :: 0 <= i < |s.disk| ==> Covers(s, i, s.disk[i].nlink)
  }

  /** What a call in progress relies on. */
  ghost predicate Fact(s: State, t: nat)
    requires InRange(s) && t in s.refs
  {
    var d := InodeOf(s, t);
    && (!s.refs[t].role.Dead? && !s.refs[t].role.Gone? ==> d.typ != 0)
    && (Settled(s.refs[t].role) && d.typ == T_DIR ==> d.dir != [])
    && match s.refs[t].role
       case Linking => d.typ != T_DIR
       case Parent(k, ip) =>
         && s.table[s.refs[t].slot].valid && d.typ == T_DIR
         && k < |d.dir| && Named(d.dir[k]) && ip in s.refs && d.dir[k].inum == Ino(s, ip)
       case Dropping => s.table[s.refs[t].slot].valid
       case Maker(name, typ, ip) =>
         && s.table[s.refs[t].slot].valid && d.typ == T_DIR && Absent(d.dir, name)
         && ip in s.refs && InodeOf(s, ip).typ == typ
       case Young(_) => d.nlink == 0 && d.dir == []
       case Dying => s.table[s.refs[t].slot].valid && d.nlink == 0
       case Dead => d.nlink == 0 && d.dir == []
       case _ => true
  }

  ghost predicate Facts(s: State)
    requires InRange(s)
  {
    forall t :: t in s.refs ==> Fact(s, t)
  }

  ghost predicate Inv(s: State) {
    && TableOk(s)
    && RolesOk(s)
    && Coherent(s)
    && DiskOk(s)
    && Counted(s)
    && Facts(s)
  }

  // ---- The steps

  datatype Event =
    | Root(u: nat, x: nat)
    | Dup(t: nat, u: nat)
    | Load(t: nat)
    | Walk(t: nat, k: nat, u: nat, x: nat)
    | Put(t: nat)
    | Clear(t: nat)
    | Invalidate(t: nat)
    | Release(t: nat)
    | LinkBump(t: nat)
    | LinkEntry(t: nat, u: nat, name: string, k: nat)
    | LinkUndo(t: nat)
    | UnlinkFind(u: nat, k: nat, t: nat, x: nat)
    | UnlinkKeep(u: nat)
    | UnlinkClear(u: nat)
    | UnlinkDrop(t: nat)
    | CreateAlloc(u: nat, name: string, typ: nat, t: nat, i: nat, x: nat)
    | CreateDone(u: nat, k: nat)

  /** A loose token whose inode ilock() can lock and has read in. */
  ghost predicate Ready(s: State, t: nat) {
    t in s.refs && s.refs[t].slot < |s.table| && Ino(s, t) < |s.disk| && s.refs[t].role.Loose? &&
      Unlocked(s, s.refs[t].slot) && EntryOf(s, t).valid
  }

  ghost predicate ReadyDir(s: State, t: nat) {
    Ready(s, t) && EntryOf(s, t).typ == T_DIR
  }

  /** A token in a call whose inode ilock() can lock and has read in. */
  ghost predicate Lockable(s: State, t: nat) {
    t in s.refs && s.refs[t].slot < |s.table| && Ino(s, t) < |s.disk| && Unlocked(s, s.refs[t].slot) &&
      EntryOf(s, t).valid
  }

  /** The inode in memory changed, and iupdate(). */
  function Write(s: State, t: nat, d: Inode): State
    requires t in s.refs && s.refs[t].slot < |s.table| && Ino(s, t) < |s.disk|
  {
    s.(disk := s.disk[Ino(s, t) := d],
      table := s.table[s.refs[t].slot := EntryOf(s, t).(typ := d.typ, nlink := d.nlink)])
  }

  function WithLinks(s: State, t: nat, nlink: int): State
    requires t in s.refs && s.refs[t].slot < |s.table| && Ino(s, t) < |s.disk|
  {
    Write(s, t, Inode(EntryOf(s, t).typ, nlink, InodeOf(s, t).dir))
  }

  function WithRole(s: State, t: nat, r: Role): State
    requires t in s.refs
  {
    s.(refs := s.refs[t := s.refs[t].(role := r)])
  }

  /** ip->ref-- */
  function Dropped(s: State, t: nat): State
    requires t in s.refs && s.refs[t].slot < |s.table| && EntryOf(s, t).ref > 0
  {
    s.(table := s.table[s.refs[t].slot := EntryOf(s, t).(ref := EntryOf(s, t).ref - 1)], refs := s.refs - {t})
  }

  /** iget() gives a new token. */
  ghost predicate Got(s: State, s': State, i: nat, x: nat, u: nat) {
    u !in s.refs && Gets(s.table, s'.table, ROOTDEV, i, x) && s'.refs == s.refs[u := Ref(x, Loose)] && s'.disk == s.disk
  }

  ghost predicate DotsAdded(d: seq<Entry>, d': seq<Entry>, i: nat, j: nat) {
    exists m, a, b :: Absent(d, ".") && Gains(d, m, a, ".", i) && Absent(m, "..") && Gains(m, d', b, "..", j)
  }

  ghost predicate DoesPut(s: State, t: nat, s': State) {
    && t in s.refs && s.refs[t].slot < |s.table| && s.refs[t].role.Loose? && EntryOf(s, t).ref > 0
    && if EntryOf(s, t).ref == 1 && EntryOf(s, t).valid && EntryOf(s, t).nlink == 0
       then Unlocked(s, s.refs[t].slot) && s' == WithRole(s, t, Dying)
       else s' == Dropped(s, t)
  }

  ghost predicate DoesLoad(s: State, t: nat, s': State) {
    && t in s.refs && s.refs[t].slot < |s.table| && Ino(s, t) < |s.disk| && Unlocked(s, s.refs[t].slot)
    && !EntryOf(s, t).valid && InodeOf(s, t).typ != 0
    && s' == s.(table := s.table[s.refs[t].slot := EntryOf(s, t).(valid := true, typ := InodeOf(s, t).typ,
       nlink := InodeOf(s, t).nlink)])
  }

  ghost predicate DoesLinkEntry(s: State, t: nat, u: nat, name: string, k: nat, s': State) {
    && t in s.refs && s.refs[t].slot < |s.table| && s.refs[t].role.Linking? && ReadyDir(s, u) && |s'.disk| == |s.disk|
    && Absent(InodeOf(s, u).dir, name) && Gains(InodeOf(s, u).dir, s'.disk[Ino(s, u)].dir, k, name, Ino(s, t))
    && s' == WithRole(Write(s, u, Inode(EntryOf(s, u).typ, EntryOf(s, u).nlink, s'.disk[Ino(s, u)].dir)), t, Loose)
  }

  ghost predicate DoesUnlinkFind(s: State, u: nat, k: nat, t: nat, x: nat, s': State) {
    && ReadyDir(s, u) && t !in s.refs && k < |InodeOf(s, u).dir| && Named(InodeOf(s, u).dir[k])
    && s'.disk == s.disk && Gets(s.table, s'.table, ROOTDEV, InodeOf(s, u).dir[k].inum, x)
    && s'.refs == s.refs[u := s.refs[u].(role := Parent(k, t))][t := Ref(x, Target(u))]
  }

  /** unlink has found its entry and can lock the inode. */
  ghost predicate AtEntry(s: State, u: nat) {
    && u in s.refs && s.refs[u].slot < |s.table| && Ino(s, u) < |s.disk| && s.refs[u].role.Parent?
    && Lockable(s, s.refs[u].role.ip) && u != s.refs[u].role.ip
    && s.refs[u].role.k < |InodeOf(s, u).dir|
  }

  ghost predicate DoesUnlinkKeep(s: State, u: nat, s': State) {
    && AtEntry(s, u)
    && EntryOf(s, s.refs[u].role.ip).typ == T_DIR && !Vacant(InodeOf(s, s.refs[u].role.ip).dir)
    && s' == WithRole(WithRole(s, s.refs[u].role.ip, Loose), u, Loose)
  }

  ghost predicate DoesUnlinkClear(s: State, u: nat, s': State) {
    && AtEntry(s, u)
    && var t, k := s.refs[u].role.ip, s.refs[u].role.k;
    var e := EntryOf(s, t);
    && e.nlink >= 1 && (e.typ == T_DIR ==> Vacant(InodeOf(s, t).dir))
    && var d := Inode(EntryOf(s, u).typ, if e.typ == T_DIR then Short(EntryOf(s, u).nlink - 1)
       else EntryOf(s, u).nlink, InodeOf(s, u).dir[k := BLANK]);
    s' == WithRole(WithRole(Write(s, u, d), t, Dropping), u, Loose)
  }

  ghost predicate DoesCreateAlloc(s: State, u: nat, name: string, typ: nat, t: nat, i: nat, x: nat, s': State) {
    && ReadyDir(s, u) && Absent(InodeOf(s, u).dir, name) && t !in s.refs
    && 1 <= i < |s.disk| && s.disk[i].typ == 0 && typ != 0
    && s'.disk == s.disk[i := Inode(typ, 0, [])] && Gets(s.table, s'.table, ROOTDEV, i, x)
    && s'.refs == s.refs[u := s.refs[u].(role := Maker(name, typ, t))][t := Ref(x, Young(u))]
  }

  /** create has its inode and can lock it. */
  ghost predicate AtInode(s: State, u: nat) {
    && u in s.refs && s.refs[u].slot < |s.table| && Ino(s, u) < |s.disk| && s.refs[u].role.Maker?
    && Lockable(s, s.refs[u].role.child) && u != s.refs[u].role.child
  }

  ghost predicate DoesCreateDone(s: State, u: nat, k: nat, s': State) {
    && AtInode(s, u) && |s'.disk| == |s.disk|
    && var t := s.refs[u].role.child;
    var i, j := Ino(s, t), Ino(s, u);
    var isDir := s.refs[u].role.typ == T_DIR;
    && (if isDir then DotsAdded(InodeOf(s, t).dir, s'.disk[i].dir, i, j) else s'.disk[i].dir == InodeOf(s, t).dir)
    && Absent(InodeOf(s, u).dir, s.refs[u].role.name)
    && Gains(InodeOf(s, u).dir, s'.disk[j].dir, k, s.refs[u].role.name, i)
    && var young := Inode(EntryOf(s, t).typ, 1, s'.disk[i].dir);
    var maker := Inode(EntryOf(s, u).typ, if isDir then Short(EntryOf(s, u).nlink + 1)
      else EntryOf(s, u).nlink, s'.disk[j].dir);
    s' == WithRole(WithRole(Write(Write(s, t, young), u, maker), t, Loose), u, Loose)
  }

  ghost predicate Does(s: State, e: Event, s': State) {
    match e
    case Root(u, x) => Got(s, s', ROOTINO, x, u)
    case Dup(t, u) =>
      t in s.refs && s.refs[t].slot < |s.table| && s.refs[t].role.Loose? && Got(s, s', Ino(s, t), s.refs[t].slot, u)
    case Load(t) => DoesLoad(s, t, s')
    case Walk(t, k, u, x) =>
      ReadyDir(s, t) && k < |InodeOf(s, t).dir| && Live(InodeOf(s, t).dir[k]) &&
      Got(s, s', InodeOf(s, t).dir[k].inum, x, u)
    case Put(t) => DoesPut(s, t, s')
    case Clear(t) => t in s.refs && s.refs[t].slot < |s.table| && Ino(s, t) < |s.disk| && s.refs[t].role.Dying?
      && s' == WithRole(Write(s, t, Inode(0, EntryOf(s, t).nlink, [])), t, Dead)
    case Invalidate(t) => t in s.refs && s.refs[t].slot < |s.table| && s.refs[t].role.Dead?
      && s' == WithRole(s.(table := s.table[s.refs[t].slot := EntryOf(s, t).(valid := false)]), t, Gone)
    case Release(t) =>
      t in s.refs && s.refs[t].slot < |s.table| && s.refs[t].role.Gone? && EntryOf(s, t).ref > 0 && s' == Dropped(s, t)
    case LinkBump(t) =>
      Ready(s, t) && EntryOf(s, t).typ != T_DIR &&
      s' == WithRole(WithLinks(s, t, Short(EntryOf(s, t).nlink + 1)), t, Linking)
    case LinkEntry(t, u, name, k) => DoesLinkEntry(s, t, u, name, k, s')
    case LinkUndo(t) =>
      Lockable(s, t) && s.refs[t].role.Linking? &&
      s' == WithRole(WithLinks(s, t, Short(EntryOf(s, t).nlink - 1)), t, Loose)
    case UnlinkFind(u, k, t, x) => DoesUnlinkFind(s, u, k, t, x, s')
    case UnlinkKeep(u) => DoesUnlinkKeep(s, u, s')
    case UnlinkClear(u) => DoesUnlinkClear(s, u, s')
    case UnlinkDrop(t) => t in s.refs && s.refs[t].slot < |s.table| && Ino(s, t) < |s.disk| && s.refs[t].role.Dropping?
      && s' == WithRole(WithLinks(s, t, Short(EntryOf(s, t).nlink - 1)), t, Loose)
    case CreateAlloc(u, name, typ, t, i, x) => DoesCreateAlloc(s, u, name, typ, t, i, x, s')
    case CreateDone(u, k) => DoesCreateDone(s, u, k, s')
  }

  /** The inode is free, has not even its dots, or some call is making or freeing it. */
  ghost predicate Unfinished(s: State, i: nat)
    requires InRange(s) && i < |s.disk|
  {
    || s.disk[i].typ == 0
    || (s.disk[i].typ == T_DIR && s.disk[i].dir == [])
    || exists t :: t in s.refs && Ino(s, t) == i && !Settled(s.refs[t].role) && !s.refs[t].role.Gone?
  }

  /** A lookup that leads to an unfinished inode. */
  ghost predicate Stale(s: State, e: Event)
    requires InRange(s)
  {
    && e.Walk? && e.t in s.refs && e.k < |InodeOf(s, e.t).dir|
    && var i := InodeOf(s, e.t).dir[e.k].inum; i < |s.disk| && Unfinished(s, i)
  }

  /** The counter has room for the link. */
  ghost predicate Fits(s: State, e: Event)
    requires InRange(s)
  {
    && (e.LinkBump? && e.t in s.refs ==> InodeOf(s, e.t).nlink < MAX_LINKS)
    && (e.CreateDone? && e.u in s.refs && s.refs[e.u].role.Maker? && s.refs[e.u].role.typ == T_DIR ==>
       InodeOf(s, e.u).nlink < MAX_LINKS)
  }
}

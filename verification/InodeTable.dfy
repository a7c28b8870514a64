/**
 The table of in-memory inodes.
 */
module InodeTable {

  const NINODE := 50

  datatype Slot = Slot(dev: nat, inum: nat, ref: nat, valid: bool, typ: nat, nlink: int)

  predicate Holds(e: Slot, dev: nat, inum: nat) {
    e.ref > 0 && e.dev == dev && e.inum == inum
  }

  /** At most one entry in use for an inode. */
  ghost predicate OneEach(table: seq<Slot>) {
    forall x, y :: 0 <= x < y < |table| && table[x].ref > 0 ==> !Holds(table[y], table[x].dev, table[x].inum)
  }

  ghost predicate Cached(table: seq<Slot>, dev: nat, inum: nat) {
    exists x :: 0 <= x < |table| && Holds(table[x], dev, inum)
  }

  /** What iget() does to the table when it answers with entry `x`. */
  ghost predicate Gets(table: seq<Slot>, table': seq<Slot>, dev: nat, inum: nat, x: nat) {
    && x < |table|
    && (if Holds(table[x], dev, inum) then
          table' == table[x := table[x].(ref := table[x].ref + 1)]
        else
          && table[x].ref == 0 && !Cached(table, dev, inum)
          && table' == table[x := table[x].(dev := dev, inum := inum, ref := 1, valid := false)])
  }

  lemma GetsOneEach(table: seq<Slot>, table': seq<Slot>, dev: nat, inum: nat, x: nat)
    requires OneEach(table) && Gets(table, table', dev, inum, x)
    ensures OneEach(table') && Holds(table'[x], dev, inum)
  {
  }

  class ITable {
    var inode: seq<Slot>

    constructor ()
      ensures OneEach(inode) && |inode| == NINODE && forall x :: 0 <= x < NINODE ==> inode[x].ref == 0
    {
      inode := seq(NINODE, _ => Slot(0, 0, 0, false, 0, 0));
    }

    /** iget(): false is the panic. */
    method Iget(dev: nat, inum: nat) returns (ok: bool, x: nat)
      requires OneEach(inode)
      modifies this
      ensures OneEach(inode)
      ensures ok <==> old(Cached(inode, dev, inum)) || exists y :: 0 <= y < |old(inode)| && old(inode)[y].ref == 0
      ensures ok ==> Gets(old(inode), inode, dev, inum, x)
      ensures !ok ==> inode == old(inode)
    {
      var empty: nat := |inode|;
      x := 0;
      while x < |inode|
        invariant inode == old(inode) && x <= |inode| && empty <= |inode|
        invariant forall y :: 0 <= y < x ==> !Holds(inode[y], dev, inum)
        invariant empty < |inode| ==> empty < x && inode[empty].ref == 0
        invariant empty == |inode| ==> forall y :: 0 <= y < x ==> inode[y].ref > 0
      {
        if inode[x].ref > 0 && inode[x].dev == dev && inode[x].inum == inum {
          inode := inode[x := inode[x].(ref := inode[x].ref + 1)];
          return true, x;
        }
        if empty == |inode| && inode[x].ref == 0 {
          empty := x;
        }
        x := x + 1;
      }
      if empty == |inode| {
        return false, empty;
      }
      x := empty;
      inode := inode[x := inode[x].(dev := dev, inum := inum, ref := 1, valid := false)];
      return true, x;
    }

    /** idup(). */
    method Idup(x: nat)
      requires OneEach(inode) && x < |inode| && inode[x].ref > 0
      modifies this
      ensures OneEach(inode) && Gets(old(inode), inode, old(inode)[x].dev, old(inode)[x].inum, x)
    {
      inode := inode[x := inode[x].(ref := inode[x].ref + 1)];
    }
  }
}

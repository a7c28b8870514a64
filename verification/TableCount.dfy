/**
 How many table pages it takes to map a range of virtual pages.
 */
module TableCount {
  import opened Prelude
  import opened Sv39
  import opened PageTable

  /** The tables of the second level on the way to pages lo .. hi-1, by their entry in the root. */
  ghost function Middles(lo: nat, hi: nat): set<nat> {
    set v: nat | lo <= v < hi :: v / ENTRIES / ENTRIES
  }

  /** The tables of the last level. */
  ghost function Lasts(lo: nat, hi: nat): set<nat> {
    set v: nat | lo <= v < hi :: v / ENTRIES
  }

  /** The table pages below the root. */
  ghost function Count(s: Space): nat {
    |s.l1.Keys| + |s.l0.Keys|
  }

  /** How many of the tables for pages lo .. hi-1 are not there yet. */
  ghost function Lacks(s: Space, lo: nat, hi: nat): nat {
    |Middles(lo, hi) - s.l1.Keys| + |Lasts(lo, hi) - s.l0.Keys|
  }

  /** Free pages and table pages together. */
  ghost function Stock(frees: seq<nat>, s: Space): nat {
    |frees| + Count(s)
  }

  /** The tree has gained only tables for pages lo .. hi-1. */
  ghost predicate Toward(s: Space, s': Space, lo: nat, hi: nat) {
    && s.l1.Keys <= s'.l1.Keys <= s.l1.Keys + Middles(lo, hi)
    && s.l0.Keys <= s'.l0.Keys <= s.l0.Keys + Lasts(lo, hi)
  }

  ghost predicate AllTables(s: Space, lo: nat, hi: nat) {
    Middles(lo, hi) <= s.l1.Keys && Lasts(lo, hi) <= s.l0.Keys
  }

  lemma KeysCount(a: set<nat>, b: set<nat>, n: set<nat>)
    requires a <= b <= a + n
    ensures |b| <= |a| + |n - a| && (|b| == |a| + |n - a| <==> n <= b)
  {
    var all := a + (n - a);
    SubsetSize(b, all);
    assert all == b + (all - b);
    if n <= b {
      assert all == b;
    } else {
      var x :| x in n && x !in b;
      assert x in all - b;
    }
  }

  /** A tree on its way to a range has that many tables more at most, and exactly if it has arrived. */
  lemma TowardCount(s: Space, s': Space, lo: nat, hi: nat)
    requires Toward(s, s', lo, hi)
    ensures Count(s') <= Count(s) + Lacks(s, lo, hi)
    ensures Count(s') == Count(s) + Lacks(s, lo, hi) <==> AllTables(s', lo, hi)
  {
    hide Middles;
    hide Lasts;
    KeysCount(s.l1.Keys, s'.l1.Keys, Middles(lo, hi));
    KeysCount(s.l0.Keys, s'.l0.Keys, Lasts(lo, hi));
  }

  lemma RangeSplit(lo: nat, mid: nat, hi: nat)
    requires lo <= mid <= hi
    ensures Middles(lo, hi) == Middles(lo, mid) + Middles(mid, hi) && Lasts(lo, hi) == Lasts(lo, mid) + Lasts(mid, hi)
  {
    forall x | x in Middles(lo, hi) ensures x in Middles(lo, mid) + Middles(mid, hi) {
      var v: nat :| lo <= v < hi && x == v / ENTRIES / ENTRIES;
      assert v < mid || mid <= v;
    }
    forall x | x in Lasts(lo, hi) ensures x in Lasts(lo, mid) + Lasts(mid, hi) {
      var v: nat :| lo <= v < hi && x == v / ENTRIES;
      assert v < mid || mid <= v;
    }
  }

  lemma RangeNone(lo: nat)
    ensures Middles(lo, lo) == {} && Lasts(lo, lo) == {}
  {
  }

  lemma RangeOne(v: nat)
    ensures Middles(v, v + 1) == {v / ENTRIES / ENTRIES} && Lasts(v, v + 1) == {v / ENTRIES}
  {
    assert v / ENTRIES in Lasts(v, v + 1) && v / ENTRIES / ENTRIES in Middles(v, v + 1);
  }

  lemma TowardNone(s: Space, lo: nat)
    ensures Toward(s, s, lo, lo) && Toward(s, s, lo, lo + 1) && AllTables(s, lo, lo) && Lacks(s, lo, lo) == 0
  {
    RangeNone(lo);
  }

  lemma TowardMore(a: Space, b: Space, c: Space, lo: nat, mid: nat, hi: nat)
    requires lo <= mid <= hi && Toward(a, b, lo, mid) && Toward(b, c, mid, hi)
    ensures Toward(a, c, lo, hi)
    ensures AllTables(b, lo, mid) ==> AllTables(c, lo, mid)
    ensures AllTables(c, lo, hi) <==> AllTables(c, lo, mid) && AllTables(c, mid, hi)
  {
    hide Middles;
    hide Lasts;
    RangeSplit(lo, mid, hi);
  }

  /** The tables for a range are the tables for its first part and those that are then still missing. */
  lemma LacksSplit(s: Space, s1: Space, lo: nat, mid: nat, hi: nat)
    requires lo <= mid <= hi && Toward(s, s1, lo, mid) && AllTables(s1, lo, mid)
    ensures Lacks(s, lo, hi) == Lacks(s, lo, mid) + Lacks(s1, mid, hi)
  {
    hide Middles;
    hide Lasts;
    RangeSplit(lo, mid, hi);
    KeysSplit(s.l1.Keys, s1.l1.Keys, Middles(lo, mid), Middles(mid, hi));
    KeysSplit(s.l0.Keys, s1.l0.Keys, Lasts(lo, mid), Lasts(mid, hi));
    hide Toward;
    hide AllTables;
  }

  lemma KeysSplit(a: set<nat>, b: set<nat>, m: set<nat>, n: set<nat>)
    requires a <= b <= a + m && m <= b
    ensures |m + n - a| == |m - a| + |n - b|
  {
    assert m + n - a == (m - a) + (n - b) && (m - a) !! (n - b);
  }

  lemma LacksMono(s: Space, lo: nat, mid: nat, hi: nat)
    requires lo <= mid <= hi
    ensures Lacks(s, lo, mid) <= Lacks(s, lo, hi)
  {
    hide Middles;
    hide Lasts;
    RangeSplit(lo, mid, hi);
    SubsetSize(Middles(lo, mid) - s.l1.Keys, Middles(lo, hi) - s.l1.Keys);
    SubsetSize(Lasts(lo, mid) - s.l0.Keys, Lasts(lo, hi) - s.l0.Keys);
  }

  /** Page `hi` of a range that starts at lo cannot be had, with that many pages in use: so few were free. */
  lemma Shortage(s: Space, s1: Space, free0: nat, free: nat, lo: nat, hi: nat, end: nat)
    requires lo <= hi < end && Toward(s, s1, lo, hi) && AllTables(s1, lo, hi)
    requires free + Count(s1) + (hi - lo) == free0 + Count(s) && free < 1 + Lacks(s1, hi, hi + 1)
    ensures free0 < end - lo + Lacks(s, lo, end)
  {
    hide Lacks;
    hide Toward;
    hide AllTables;
    TowardCount(s, s1, lo, hi);
    LacksSplit(s, s1, lo, hi, hi + 1);
    LacksMono(s, lo, hi + 1, end);
  }
}

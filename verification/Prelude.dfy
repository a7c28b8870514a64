/** Parameters, types and counting facts shared by the models. */
module Prelude {

  const UINT := 0x1_0000_0000  // 2^32
  const MAXOPBLOCKS := 10
  const LOGSIZE := 3 * MAXOPBLOCKS
  const NBUF := 3 * MAXOPBLOCKS

  datatype Option<+T> = None | Some(value: T)

  /** The set of numbers below n. */
  ghost function Below(n: nat): (r: set<nat>)
    ensures |r| == n && forall x: nat :: x in r <==> x < n
  {
    if n == 0 then {} else Below(n - 1) + {n - 1}
  }

  lemma {:induction false} SubsetSize<T>(a: set<T>, b: set<T>)
    requires a <= b
    ensures |a| <= |b|
    decreases |a|
  {
    if a != {} {
      var x :| x in a;
      SubsetSize(a - {x}, b - {x});
    }
  }
}

/**
 Cardinalities of finite sets of naturals.
 */
module Counting {

  /** The `n` naturals from `a` on. */
  function Range(a: nat, n: nat): (s: set<nat>)
    ensures |s| == n
    ensures forall b: nat :: b in s <==> a <= b < a + n
  {
    if n == 0 then {} else Range(a, n - 1) + {a + n - 1}
  }

  lemma DisjointUnion(a: set<nat>, b: set<nat>)
    requires a !! b
    ensures |a + b| == |a| + |b|
  {
  }

  lemma {:induction false} SubsetSize(a: set<nat>, b: set<nat>)
    requires a <= b
    ensures |a| <= |b|
  {
    if a != {} {
      var x :| x in a;
      SubsetSize(a - {x}, b - {x});
    }
  }

  /** A set of naturals below `n` holds all of them exactly when it has `n` elements. */
  lemma AllBelow(a: set<nat>, n: nat)
    requires forall x :: x in a ==> x < n
    ensures |a| <= n
    ensures (forall x: nat :: x < n ==> x in a) <==> |a| == n
  {
    SubsetSize(a, Range(0, n));
    if x: nat :| x < n && x !in a {
      SubsetSize(a + {x}, Range(0, n));
    } else {
      assert a == Range(0, n);
    }
  }
}

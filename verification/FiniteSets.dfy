/** Sizes of finite sets of numbers.
*/
module FiniteSets {

  lemma {:induction false} SubsetNotLarger(a: set<nat>, b: set<nat>)
    requires a <= b
    ensures |a| <= |b|
    ensures |a| == |b| ==> a == b
    decreases |a|
  {
    if a == {} {
      assert |b| == 0 ==> b == {};
    } else {
      var x :| x in a;
      SubsetNotLarger(a - {x}, b - {x});
      assert a == a - {x} + {x} && b == b - {x} + {x};
    }
  }

  function Below(n: nat): (s: set<nat>)
    ensures |s| == n && forall i :: i in s <==> 0 <= i < n
  {
    if n == 0 then {} else Below(n - 1) + {n - 1}
  }

  /** The members of a set are all below its size exactly when there is no gap below any of them. */
  lemma BelowSize(s: set<nat>)
    ensures (forall x :: x in s ==> x < |s|) <==> (forall x, i: nat :: x in s && i < x ==> i in s)
  {
    if forall x :: x in s ==> x < |s| {
      SubsetNotLarger(s, Below(|s|));
    } else {
      var x :| x in s && x >= |s|;
      if forall i: nat :: i < x ==> i in s {
        SubsetNotLarger(Below(x + 1), s);
      }
    }
  }
}

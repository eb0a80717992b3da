/** Counting facts about finite sets, shared by the containers. */
module Finite {

  function Range(n: nat): (all: set<int>)
    ensures |all| == n && forall i :: i in all <==> 0 <= i < n
  {
    if n == 0 then {} else Range(n - 1) + {n - 1}
  }

  lemma SubsetSize<T>(a: set<T>, b: set<T>)
    requires a <= b
    ensures |a| <= |b|
    ensures |a| == |b| ==> a == b
  {
    assert b == a + (b - a);
  }

  /** An injection fits into its target. */
  lemma {:induction false} InjectionFits<A, B>(g: map<A, B>, target: set<B>)
    requires forall a :: a in g ==> g[a] in target
    requires forall a, b :: a in g && b in g && g[a] == g[b] ==> a == b
    ensures |g.Keys| <= |target|
    decreases |g.Keys|
  {
    if g.Keys != {} {
      var a :| a in g;
      var g' := g - {a};
      assert g'.Keys == g.Keys - {a};
      InjectionFits(g', target - {g[a]});
    }
  }
}

/** Counting. */
module Sets {

  lemma {:induction false} SubsetCard<T>(a: set<T>, b: set<T>)
    requires a <= b
    ensures |a| <= |b|
    decreases |b|
  {
    if a != {} {
      var x :| x in a;
      SubsetCard(a - {x}, b - {x});
    }
  }

  function Indices(n: nat): (s: set<nat>)
    ensures |s| == n && forall i: nat :: i in s <==> i < n
  {
    if n == 0 then {} else Indices(n - 1) + {n - 1}
  }

  lemma FullSet(s: set<nat>, n: nat)
    requires s <= Indices(n) && |s| == n
    ensures s == Indices(n)
  {
    if s != Indices(n) {
      var x :| x in Indices(n) && x !in s;
      SubsetCard(s, Indices(n) - {x});
    }
  }
}

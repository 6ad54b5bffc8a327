/** Lists without duplicates, finite sets, and the sizes of both. */
module Collections {

  predicate NoDuplicates<K(==)>(xs: seq<K>) {
    forall i, j :: 0 <= i < j < |xs| ==> xs[i] != xs[j]
  }

  function Members<K(==)>(xs: seq<K>): (s: set<K>) {
    set x | x in xs
  }

  lemma {:induction false} DistinctBounded<K>(xs: seq<K>, universe: set<K>)
    requires NoDuplicates(xs) && forall x :: x in xs ==> x in universe
    ensures |xs| <= |universe|
  {
    if xs != [] {
      var last := xs[|xs| - 1];
      var rest := xs[..|xs| - 1];
      forall x | x in rest
        ensures x in universe - {last}
      {
        assert x in xs;
      }
      DistinctBounded(rest, universe - {last});
    }
  }

  lemma {:induction false} MembersSize<K>(xs: seq<K>)
    requires NoDuplicates(xs)
    ensures |Members(xs)| == |xs|
  {
    if xs != [] {
      var last, rest := xs[|xs| - 1], xs[..|xs| - 1];
      MembersSize(rest);
      assert last !in Members(rest);
      assert Members(xs) == Members(rest) + {last};
    }
  }

  function Below(n: nat): (s: set<nat>)
    ensures forall i: nat :: i in s <==> i < n
    ensures |s| == n
  {
    if n == 0 then {} else Below(n - 1) + {n - 1}
  }

  lemma SubsetSize<T>(small: set<T>, large: set<T>)
    requires small <= large
    ensures |small| <= |large|
    ensures |small| == |large| - |large - small|
  {
    assert large == small + (large - small);
  }
}

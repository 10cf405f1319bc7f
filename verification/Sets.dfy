// Finite sets.
module Sets {
  lemma SubsetSize<T>(a: set<T>, b: set<T>)
    requires a <= b
    ensures |a| <= |b|
  {
    assert b == a + (b - a);
  }

  // The numbers below `size`.
  ghost function Below(size: nat): (r: set<nat>)
    ensures |r| == size
    ensures forall i: nat :: i in r <==> i < size
  {
    if size == 0 then {} else Below(size - 1) + {size - 1}
  }
}

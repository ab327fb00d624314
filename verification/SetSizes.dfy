/** The sizes of finite sets. */
module SetSizes {

  lemma SubsetSize<T>(a: set<T>, b: set<T>)
    requires a <= b
    ensures |a| <= |b|
  {
    assert b == a + (b - a);
  }

  lemma SameSize<T>(a: set<T>, b: set<T>)
    requires a <= b && |b| <= |a|
    ensures a == b
  {
    assert b == a + (b - a);
    assert |b - a| == 0;
  }

  lemma {:induction false} BelowSize(s: set<nat>, size: nat)
    requires forall i :: i in s ==> i < size
    ensures |s| <= size
  {
    if size == 0 {
      assert s == {};
    } else {
      BelowSize(s - {size - 1}, size - 1);
      SubsetSize(s, s - {size - 1} + {size - 1});
    }
  }
}

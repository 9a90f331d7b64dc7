/** Sizes of sets. */
module Counting {

  lemma SubsetSize<T>(a: set<T>, b: set<T>)
    requires a <= b
    ensures |a| <= |b|
  {
    assert b == a + (b - a);
  }

  lemma FullSubset<T>(a: set<T>, b: set<T>)
    requires a <= b && |a| == |b|
    ensures a == b
  {
    assert |b - a| == |b| - |a|;
  }

  /** A list that holds all of a set is at least as long as the set is large. */
  lemma {:induction false} ListHolds<T>(s: set<T>, list: seq<T>)
    requires forall x :: x in s ==> x in list
    ensures |s| <= |list|
  {
    if list != [] {
      assert list == [list[0]] + list[1..];
      ListHolds(s - {list[0]}, list[1..]);
    } else {
      assert s == {};
    }
  }
}

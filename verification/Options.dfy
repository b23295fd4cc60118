/** A value that may be missing (an SQL query without rows, a nil pointer, an absent key), and how sets compare. */
module Options {
  datatype Option<+T> = None | Some(value: T)

  lemma SubsetIsSmaller<T>(a: set<T>, b: set<T>)
    requires a <= b
    ensures |a| <= |b|
    ensures |a| == |b| ==> a == b
  {
    assert |b| == |a| + |b - a| by { assert a + (b - a) == b; }
  }
}

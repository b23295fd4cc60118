/** What sort.Slice promises: the same elements, none of them less than one placed before it. */
module SortSlice {

  /** The order a caller hands over: being not greater is transitive, and nothing is less both ways. */
  ghost predicate IsOrder<T(!new)>(less: (T, T) -> bool) {
    && (forall a, b :: less(a, b) ==> !less(b, a))
    && (forall a, b, c :: !less(b, a) && !less(c, b) ==> !less(c, a))
  }

  ghost predicate IsSorted<T(!new)>(s: seq<T>, less: (T, T) -> bool) {
    forall i, j | 0 <= i < j < |s| :: !less(s[j], s[i])
  }

  lemma NotLessIsTransitive<T(!new)>(less: (T, T) -> bool, a: T, b: T, c: T)
    requires IsOrder(less) && !less(b, a) && !less(c, b)
    ensures !less(c, a)
  {}

  lemma NotLessBothWays<T(!new)>(less: (T, T) -> bool, a: T, b: T)
    requires IsOrder(less) && less(a, b)
    ensures !less(b, a)
  {}

  function Spliced<T>(s: seq<T>, k: nat, x: T): (r: seq<T>)
    requires k <= |s|
    ensures |r| == |s| + 1
    ensures forall i | 0 <= i < |r| :: r[i] == if i < k then s[i] else if i == k then x else s[i - 1]
  {
    s[..k] + [x] + s[k..]
  }

  lemma SplicedIsSorted<T(!new)>(s: seq<T>, k: nat, x: T, less: (T, T) -> bool)
    requires IsOrder(less) && IsSorted(s, less) && k <= |s|
    requires k > 0 ==> !less(x, s[k - 1])
    requires forall i | k <= i < |s| :: less(x, s[i])
    ensures IsSorted(Spliced(s, k, x), less)
  {
    hide IsOrder;
    var r := Spliced(s, k, x);
    forall i, j | 0 <= i < j < |r|
      ensures !less(r[j], r[i])
    {
      if j == k {
        if i < k - 1 {
          NotLessIsTransitive(less, s[i], s[k - 1], x);
        }
      } else if i == k {
        NotLessBothWays(less, x, s[j - 1]);
      }
    }
  }

  /** Puts x before the elements at the end that it is less than. */
  method Insert<T(!new)>(s: seq<T>, x: T, less: (T, T) -> bool) returns (r: seq<T>)
    requires IsOrder(less) && IsSorted(s, less)
    ensures IsSorted(r, less) && multiset(r) == multiset(s) + multiset{x}
  {
    hide IsOrder, IsSorted;
    var k := |s|;
    while k > 0 && less(x, s[k - 1])
      invariant 0 <= k <= |s|
      invariant forall i | k <= i < |s| :: less(x, s[i])
    {
      k := k - 1;
    }
    SplicedIsSorted(s, k, x, less);
    r := Spliced(s, k, x);
    assert s == s[..k] + s[k..];
  }

  method Sort<T(!new)>(s: seq<T>, less: (T, T) -> bool) returns (r: seq<T>)
    requires IsOrder(less)
    ensures IsSorted(r, less) && multiset(r) == multiset(s)
  {
    hide IsOrder;
    r := [];
    for i := 0 to |s|
      invariant IsSorted(r, less) && multiset(r) == multiset(s[..i])
    {
      r := Insert(r, s[i], less);
      assert s[..i + 1] == s[..i] + [s[i]];
    }
    assert s[..|s|] == s;
  }
}

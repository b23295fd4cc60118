/** Finite sums of reals over a set, as the rank analysis needs them. */
module Sums {

  function Abs(x: real): real {
    if x < 0.0 then -x else x
  }

  ghost function Sum<T(!new)>(s: set<T>, f: T -> real): real
    decreases |s|
  {
    if s == {} then 0.0
    else
      var x :| x in s;
      f(x) + Sum(s - {x}, f)
  }

  /** The order in which a sum is taken does not matter: any element can go first. */
  lemma {:induction false} SumSplit<T(!new)>(s: set<T>, f: T -> real, x: T)
    requires x in s
    ensures Sum(s, f) == f(x) + Sum(s - {x}, f)
    decreases |s|
  {
    var y :| y in s && Sum(s, f) == f(y) + Sum(s - {y}, f);
    if y != x {
      SumSplit(s - {y}, f, x);
      SumSplit(s - {x}, f, y);
      assert s - {y} - {x} == s - {x} - {y};
    }
  }

  /** Two functions that differ at one element only have sums that differ by that much. */
  lemma SumUpdate<T(!new)>(s: set<T>, f: T -> real, g: T -> real, x: T)
    requires x in s
    requires forall y | y in s && y != x :: f(y) == g(y)
    ensures Sum(s, g) == Sum(s, f) + g(x) - f(x)
  {
    SumSplit(s, f, x);
    SumSplit(s, g, x);
    SumCongruence(s - {x}, f, g);
  }

  lemma {:induction false} SumMono<T(!new)>(s: set<T>, f: T -> real, g: T -> real)
    requires forall x | x in s :: f(x) <= g(x)
    ensures Sum(s, f) <= Sum(s, g)
    decreases |s|
  {
    if s != {} {
      var x :| x in s;
      SumSplit(s, f, x);
      SumSplit(s, g, x);
      SumMono(s - {x}, f, g);
    }
  }

  lemma SumCongruence<T(!new)>(s: set<T>, f: T -> real, g: T -> real)
    requires forall x | x in s :: f(x) == g(x)
    ensures Sum(s, f) == Sum(s, g)
  {
    SumMono(s, f, g);
    SumMono(s, g, f);
  }

  lemma {:induction false} SumAdd<T(!new)>(s: set<T>, f: T -> real, g: T -> real, h: T -> real)
    requires forall x | x in s :: h(x) == f(x) + g(x)
    ensures Sum(s, h) == Sum(s, f) + Sum(s, g)
    decreases |s|
  {
    if s != {} {
      var x :| x in s;
      SumSplit(s, f, x);
      SumSplit(s, g, x);
      SumSplit(s, h, x);
      SumAdd(s - {x}, f, g, h);
    }
  }

  lemma {:induction false} SumConst<T(!new)>(s: set<T>, f: T -> real, c: real)
    requires forall x | x in s :: f(x) == c
    ensures Sum(s, f) == |s| as real * c
    decreases |s|
  {
    if s != {} {
      var x :| x in s;
      SumSplit(s, f, x);
      SumConst(s - {x}, f, c);
      assert |s| as real == (|s| - 1) as real + 1.0;
    }
  }

  lemma {:induction false} SumNonNegative<T(!new)>(s: set<T>, f: T -> real)
    requires forall x | x in s :: 0.0 <= f(x)
    ensures 0.0 <= Sum(s, f)
    decreases |s|
  {
    if s != {} {
      var x :| x in s;
      SumSplit(s, f, x);
      SumNonNegative(s - {x}, f);
    }
  }

  /** A term of a sum of non-negative terms is at most the sum. */
  lemma TermAtMostSum<T(!new)>(s: set<T>, f: T -> real, x: T)
    requires x in s
    requires forall y | y in s :: 0.0 <= f(y)
    ensures f(x) <= Sum(s, f)
  {
    SumSplit(s, f, x);
    SumNonNegative(s - {x}, f);
  }
}

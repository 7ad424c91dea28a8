/** Generic sequence vocabulary used by several modules. */
module Seqs {

  /** `xs` is obtained from `ys` by deleting elements, order kept. */
  predicate IsSubsequence<T(==)>(xs: seq<T>, ys: seq<T>)
    decreases |ys|
  {
    if |xs| == 0 then true
    else if |ys| == 0 then false
    else if xs[0] == ys[0] then IsSubsequence(xs[1..], ys[1..])
    else IsSubsequence(xs, ys[1..])
  }

  predicate Distinct<T(==)>(xs: seq<T>) {
    forall i, j :: 0 <= i < j < |xs| ==> xs[i] != xs[j]
  }

  /** `xs.filter(x => x !== item)`. */
  function Without<T(==)>(xs: seq<T>, item: T): (r: seq<T>)
    ensures |r| <= |xs|
    decreases |xs|
  {
    if |xs| == 0 then []
    else if xs[0] == item then Without(xs[1..], item)
    else [xs[0]] + Without(xs[1..], item)
  }

  /** Removal keeps every other element, with its multiplicity and its order. */
  lemma WithoutFacts<T>(xs: seq<T>, item: T)
    ensures item !in Without(xs, item)
    ensures multiset(Without(xs, item)) == multiset(xs)[item := 0]
    ensures IsSubsequence(Without(xs, item), xs)
  {
    WithoutRemoves(xs, item);
    WithoutMultiset(xs, item);
    WithoutSubsequence(xs, item);
  }

  lemma {:induction false} WithoutRemoves<T>(xs: seq<T>, item: T)
    ensures item !in Without(xs, item)
    decreases |xs|
  {
    if |xs| > 0 {
      WithoutRemoves(xs[1..], item);
    }
  }

  lemma {:induction false} WithoutMultiset<T>(xs: seq<T>, item: T)
    ensures multiset(Without(xs, item)) == multiset(xs)[item := 0]
    decreases |xs|
  {
    if |xs| > 0 {
      WithoutMultiset(xs[1..], item);
      assert xs == [xs[0]] + xs[1..];
    }
  }

  lemma {:induction false} WithoutSubsequence<T>(xs: seq<T>, item: T)
    ensures IsSubsequence(Without(xs, item), xs)
    decreases |xs|
  {
    if |xs| > 0 {
      WithoutSubsequence(xs[1..], item);
      var r := Without(xs[1..], item);
      if xs[0] != item {
        assert ([xs[0]] + r)[1..] == r;
      } else {
        SubsequenceSkip(r, xs);
      }
    }
  }

  /** Dropping the head of the longer sequence keeps a subsequence one. */
  lemma {:induction false} SubsequenceSkip<T>(xs: seq<T>, ys: seq<T>)
    requires |ys| > 0 && IsSubsequence(xs, ys[1..])
    ensures IsSubsequence(xs, ys)
    decreases |ys|, 0
  {
    if |xs| > 0 && xs[0] == ys[0] {
      SubsequenceTail(xs, ys[1..]);
    }
  }

  lemma {:induction false} SubsequenceTail<T>(xs: seq<T>, ys: seq<T>)
    requires |xs| > 0 && IsSubsequence(xs, ys)
    ensures IsSubsequence(xs[1..], ys)
    decreases |ys|, 1
  {
    if xs[0] == ys[0] {
      if |xs| > 1 {
        SubsequenceSkip(xs[1..], ys);
      }
    } else {
      SubsequenceTail(xs, ys[1..]);
      if |xs| > 1 {
        SubsequenceSkip(xs[1..], ys);
      }
    }
  }

  lemma {:induction false} WithoutAbsent<T>(xs: seq<T>, item: T)
    requires item !in xs
    ensures Without(xs, item) == xs
    decreases |xs|
  {
    if |xs| > 0 {
      WithoutAbsent(xs[1..], item);
      assert [xs[0]] + xs[1..] == xs;
    }
  }

  /** Filtering out a value keeps a duplicate-free sequence duplicate-free. */
  lemma DistinctWithout<T>(xs: seq<T>, item: T)
    requires Distinct(xs)
    ensures Distinct(Without(xs, item))
  {
    WithoutFacts(xs, item);
    var r := Without(xs, item);
    forall x | x in multiset(r)
      ensures multiset(r)[x] == 1
    {
      DistinctCount(xs, x);
    }
    CountOneDistinct(r);
  }

  lemma {:induction false} DistinctCount<T>(xs: seq<T>, x: T)
    requires Distinct(xs)
    ensures multiset(xs)[x] <= 1
    decreases |xs|
  {
    if |xs| > 0 {
      assert xs == [xs[0]] + xs[1..];
      DistinctCount(xs[1..], x);
      if xs[0] == x {
        assert x !in xs[1..];
      }
    }
  }

  lemma {:induction false} CountOneDistinct<T>(xs: seq<T>)
    requires forall x :: x in multiset(xs) ==> multiset(xs)[x] == 1
    ensures Distinct(xs)
    decreases |xs|
  {
    if |xs| > 0 {
      assert xs == [xs[0]] + xs[1..];
      assert multiset(xs)[xs[0]] == 1;
      assert xs[0] !in multiset(xs[1..]);
      forall x | x in multiset(xs[1..])
        ensures multiset(xs[1..])[x] == 1
      {
        assert multiset(xs)[x] == multiset(xs[1..])[x] + (if x == xs[0] then 1 else 0);
      }
      CountOneDistinct(xs[1..]);
    }
  }
}

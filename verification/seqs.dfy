/** Sequence helpers shared by the planners. */
module Seqs {

  /** `[x for x in xs if x not in ys]`: the elements of `xs` that do not
      occur in `ys`, in their order in `xs`, repetitions kept. */
  function Without<T(==,!new)>(xs: seq<T>, ys: seq<T>): (r: seq<T>)
    ensures forall x :: x in r <==> x in xs && x !in ys
    ensures |r| <= |xs|
  {
    if |xs| == 0 then []
    else
      assert xs == [xs[0]] + xs[1..];
      (if xs[0] in ys then [] else [xs[0]]) + Without(xs[1..], ys)
  }

  /** `Without` keeps every occurrence of an element it keeps. */
  lemma {:induction false} WithoutCounts<T(!new)>(xs: seq<T>, ys: seq<T>, x: T)
    ensures multiset(Without(xs, ys))[x] == if x in ys then 0 else multiset(xs)[x]
  {
    if |xs| > 0 {
      assert xs == [xs[0]] + xs[1..];
      WithoutCounts(xs[1..], ys, x);
    }
  }

  /** `[x for x in xs if keep(x)]`, order and repetitions kept. */
  function Filter<T(!new)>(xs: seq<T>, keep: T -> bool): (r: seq<T>)
    ensures forall x :: x in r <==> x in xs && keep(x)
    ensures |r| <= |xs|
  {
    if |xs| == 0 then []
    else
      assert xs == [xs[0]] + xs[1..];
      (if keep(xs[0]) then [xs[0]] else []) + Filter(xs[1..], keep)
  }

  /** `Filter` keeps every occurrence of an element it keeps. */
  lemma {:induction false} FilterCounts<T(!new)>(xs: seq<T>, keep: T -> bool, x: T)
    ensures multiset(Filter(xs, keep))[x] == if keep(x) then multiset(xs)[x] else 0
  {
    if |xs| > 0 {
      assert xs == [xs[0]] + xs[1..];
      FilterCounts(xs[1..], keep, x);
    }
  }

  /** Filtering with two predicates that agree on the sequence gives the
      same result. */
  lemma {:induction false} FilterSameKeep<T(!new)>(xs: seq<T>, f: T -> bool, g: T -> bool)
    requires forall x :: x in xs ==> f(x) == g(x)
    ensures Filter(xs, f) == Filter(xs, g)
  {
    if |xs| > 0 {
      FilterSameKeep(xs[1..], f, g);
    }
  }

  /** Nothing is kept when nothing satisfies `keep`. */
  lemma {:induction false} FilterNone<T(!new)>(xs: seq<T>, keep: T -> bool)
    requires forall x :: x in xs ==> !keep(x)
    ensures Filter(xs, keep) == []
  {
    if |xs| > 0 {
      assert xs[0] in xs;
      FilterNone(xs[1..], keep);
    }
  }

  /** The elements of a sequence as a set. */
  function Elements<T(!new)>(xs: seq<T>): (s: set<T>)
    ensures forall x :: x in s <==> x in xs
  {
    set x | x in xs
  }

  /** A sequence with no element occurring twice. */
  predicate Distinct<T(==)>(xs: seq<T>)
  {
    forall i, j :: 0 <= i < j < |xs| ==> xs[i] != xs[j]
  }

  /** Nothing is left when every element of `xs` occurs in `ys`. */
  lemma EmptyWhenCovered<T(!new)>(xs: seq<T>, ys: seq<T>)
    requires forall x :: x in xs ==> x in ys
    ensures Without(xs, ys) == []
  {
  }
}

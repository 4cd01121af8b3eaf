/** Iterator pipelines (`filter`, `take`) over finite sequences. */
module Seqs {

  /** `r` can be obtained from `xs` by deleting elements, keeping the order of the rest. */
  predicate Subsequence<T(==)>(r: seq<T>, xs: seq<T>)
    decreases |xs|
  {
    if |r| == 0 then true
    else if |xs| == 0 then false
    else if r[0] == xs[0] then Subsequence(r[1..], xs[1..])
    else Subsequence(r, xs[1..])
  }

  /** The elements of `xs` that satisfy `p`, in their original order. */
  function Filter<T(==,!new)>(xs: seq<T>, p: T -> bool): (r: seq<T>)
    ensures Subsequence(r, xs)
    ensures forall x :: x in r <==> x in xs && p(x)
    ensures forall x :: x in xs && p(x) ==> multiset(r)[x] == multiset(xs)[x]
    ensures (forall x :: x in xs ==> p(x)) ==> r == xs
    decreases |xs|
  {
    if |xs| == 0 then []
    else
      var rest := Filter(xs[1..], p);
      assert xs == [xs[0]] + xs[1..];
      if p(xs[0]) then [xs[0]] + rest else rest
  }

  /** Filtering twice is filtering once by the conjunction. */
  lemma {:induction false} FilterFilter<T(!new)>(xs: seq<T>, p: T -> bool, q: T -> bool, pq: T -> bool)
    requires forall x :: pq(x) == (p(x) && q(x))
    ensures Filter(Filter(xs, p), q) == Filter(xs, pq)
    decreases |xs|
  {
    if |xs| > 0 {
      FilterFilter(xs[1..], p, q, pq);
      var inner := Filter(xs, p);
      if p(xs[0]) {
        assert inner[0] == xs[0] && inner[1..] == Filter(xs[1..], p);
      }
    }
  }

  /** A non-empty filter result starts with the first element of `xs` that
      satisfies `p`; `i` is its position. */
  lemma {:induction false} FilterHeadIsFirstMatch<T(!new)>(xs: seq<T>, p: T -> bool) returns (i: nat)
    requires Filter(xs, p) != []
    ensures i < |xs| && xs[i] == Filter(xs, p)[0] && p(xs[i])
    ensures forall j :: 0 <= j < i ==> !p(xs[j])
    decreases |xs|
  {
    var tail := xs[1..];
    if p(xs[0]) {
      i := 0;
    } else {
      assert Filter(xs, p) == Filter(tail, p);
      var k := FilterHeadIsFirstMatch(tail, p);
      i := k + 1;
      forall j | 0 <= j < i ensures !p(xs[j]) {
        if j > 0 { assert xs[j] == tail[j - 1]; }
      }
    }
  }

  /** The first `n` elements of `xs`, or all of them when there are fewer. */
  function Take<T>(xs: seq<T>, n: nat): (r: seq<T>)
    ensures |r| == if n < |xs| then n else |xs|
    ensures r == xs[..|r|]
  {
    if n < |xs| then xs[..n] else xs
  }

  /** A full page followed by the next page is the page of their combined size. */
  lemma TakeSplit<T>(xs: seq<T>, n: nat, m: nat)
    requires n <= |xs|
    ensures xs[..n] + Take(xs[n..], m) == Take(xs, n + m)
  {
    if n + m < |xs| {
      assert xs[..n] + xs[n..][..m] == xs[..n + m];
    } else {
      assert xs[..n] + xs[n..] == xs;
    }
  }
}

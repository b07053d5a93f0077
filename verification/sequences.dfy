/** Order-keeping filtering of sequences, shared by the cron pass and the
    admin integration. */
module Sequences {
  /** Keeps the elements `keep` accepts, in their order. */
  function Filter<T>(s: seq<T>, keep: T -> bool): (r: seq<T>)
    ensures |r| <= |s|
    ensures forall i :: 0 <= i < |r| ==> r[i] in s && keep(r[i])
    ensures forall i :: 0 <= i < |s| && keep(s[i]) ==> s[i] in r
    ensures (forall i :: 0 <= i < |s| ==> keep(s[i])) ==> r == s
    decreases |s|
  {
    if |s| == 0 then []
    else
      var rest := Filter(s[1..], keep);
      assert forall i :: 1 <= i < |s| ==> s[i] == s[1..][i - 1];
      if keep(s[0]) then
        var r := [s[0]] + rest;
        assert forall i :: 1 <= i < |r| ==> r[i] == rest[i - 1];
        r
      else rest
  }

  /** What is kept is exactly the elements `keep` accepts. */
  lemma FilterMembers<T>(s: seq<T>, keep: T -> bool)
    ensures forall x :: x in Filter(s, keep) <==> x in s && keep(x)
  {
    var r := Filter(s, keep);
    forall x | x in s && keep(x) ensures x in r {
      var i :| 0 <= i < |s| && s[i] == x;
    }
    forall x | x in r ensures x in s && keep(x) {
      var i :| 0 <= i < |r| && r[i] == x;
    }
  }

  /** Filtering distributes over concatenation: the order of what is kept
      is the order of the input. */
  lemma {:induction false} FilterAppend<T>(a: seq<T>, b: seq<T>, keep: T -> bool)
    ensures Filter(a + b, keep) == Filter(a, keep) + Filter(b, keep)
    decreases |a|
  {
    if |a| == 0 {
      assert a + b == b;
    } else {
      assert (a + b)[1..] == a[1..] + b;
      FilterAppend(a[1..], b, keep);
    }
  }

  function Both<T>(p: T -> bool, q: T -> bool): T -> bool {
    x => p(x) && q(x)
  }

  /** Two filters in a row are one filter by both predicates. */
  lemma {:induction false} FilterFilter<T>(s: seq<T>, p: T -> bool, q: T -> bool)
    ensures Filter(Filter(s, p), q) == Filter(s, Both(p, q))
    decreases |s|
  {
    if |s| > 0 {
      FilterFilter(s[1..], p, q);
      if p(s[0]) {
        assert Filter(s, p) == [s[0]] + Filter(s[1..], p);
        assert Filter(s, p)[1..] == Filter(s[1..], p);
      }
    }
  }

  /** Filters by predicates that agree everywhere agree. */
  lemma {:induction false} FilterSame<T>(s: seq<T>, p: T -> bool, q: T -> bool)
    requires forall x :: p(x) == q(x)
    ensures Filter(s, p) == Filter(s, q)
    decreases |s|
  {
    if |s| > 0 {
      FilterSame(s[1..], p, q);
    }
  }

  /** The concatenation of the images of the first `n` elements, in order. */
  function ConcatMap<A, B>(xs: seq<A>, f: A -> seq<B>, n: nat): seq<B>
    requires n <= |xs|
    decreases n
  {
    if n == 0 then [] else f(xs[0]) + ConcatMap(xs[1..], f, n - 1)
  }

  /** The first `n + 1` pieces are the first `n` followed by the next one. */
  lemma {:induction false} ConcatMapSnoc<A, B>(xs: seq<A>, f: A -> seq<B>, n: nat)
    requires n < |xs|
    ensures ConcatMap(xs, f, n + 1) == ConcatMap(xs, f, n) + f(xs[n])
    decreases n
  {
    if n > 0 {
      assert xs[1..][n - 1] == xs[n];
      ConcatMapSnoc(xs[1..], f, n - 1);
    }
  }

  /** Every element of the image of one of the first `n` elements is in
      their concatenation. */
  lemma {:induction false} ConcatMapInclude<A, B>(xs: seq<A>, f: A -> seq<B>, n: nat, i: nat)
    requires i < n <= |xs|
    ensures forall y :: y in f(xs[i]) ==> y in ConcatMap(xs, f, n)
    decreases n
  {
    if i > 0 {
      assert xs[1..][i - 1] == xs[i];
      ConcatMapInclude(xs[1..], f, n - 1, i - 1);
    }
  }
}

/** `array_filter` as used throughout the back end: keep the elements a
    predicate accepts, in their original order. */
module Selection {

  /** `a` can be obtained from `b` by deleting elements. */
  predicate Subseq<T(==)>(a: seq<T>, b: seq<T>)
    decreases |b|
  {
    |a| <= |b| && (|a| == 0 || (a[0] == b[0] && Subseq(a[1..], b[1..])) || Subseq(a, b[1..]))
  }

  function Where<T(==, !new)>(xs: seq<T>, keep: T -> bool): (r: seq<T>)
    ensures Subseq(r, xs)
    ensures forall x :: x in r <==> x in xs && keep(x)
    ensures forall x :: multiset(r)[x] == if keep(x) then multiset(xs)[x] else 0
  {
    if |xs| == 0 then []
    else
      var rest := Where(xs[1..], keep);
      assert xs == [xs[0]] + xs[1..];
      if keep(xs[0]) then [xs[0]] + rest else rest
  }

  /** The first element of a non-empty input decides the head of the result. */
  lemma WhereCons<T(!new)>(x: T, xs: seq<T>, keep: T -> bool)
    ensures Where([x] + xs, keep) == (if keep(x) then [x] else []) + Where(xs, keep)
  {
    assert ([x] + xs)[1..] == xs;
  }

  /** Filtering twice is filtering once by the conjunction. */
  lemma {:induction false} WhereWhere<T(!new)>(xs: seq<T>, p: T -> bool, q: T -> bool, pq: T -> bool)
    requires forall x :: pq(x) == (p(x) && q(x))
    ensures Where(Where(xs, p), q) == Where(xs, pq)
  {
    if |xs| > 0 {
      WhereWhere(xs[1..], p, q, pq);
      var w := Where(xs[1..], p);
      if p(xs[0]) {
        WhereCons(xs[0], w, q);
      }
    }
  }

  /** A predicate that accepts every element changes nothing. */
  lemma {:induction false} WhereAll<T(!new)>(xs: seq<T>, keep: T -> bool)
    requires forall x :: x in xs ==> keep(x)
    ensures Where(xs, keep) == xs
  {
    if |xs| > 0 {
      assert forall x :: x in xs[1..] ==> x in xs;
      WhereAll(xs[1..], keep);
      assert xs == [xs[0]] + xs[1..];
    }
  }

  /** Filtering keeps any relation that held between every earlier and later
      element: the survivors stay in their original relative order. */
  lemma {:induction false} WherePairwise<T(!new)>(xs: seq<T>, keep: T -> bool, rel: (T, T) -> bool)
    requires forall i, j :: 0 <= i < j < |xs| ==> rel(xs[i], xs[j])
    ensures forall i, j :: 0 <= i < j < |Where(xs, keep)| ==> rel(Where(xs, keep)[i], Where(xs, keep)[j])
  {
    if |xs| > 0 {
      var tail := xs[1..];
      assert forall i, j :: 0 <= i < j < |tail| ==> rel(tail[i], tail[j]) by {
        forall i, j | 0 <= i < j < |tail| ensures rel(tail[i], tail[j]) {
          assert tail[i] == xs[i + 1] && tail[j] == xs[j + 1];
        }
      }
      WherePairwise(tail, keep, rel);
      if keep(xs[0]) {
        HeadBeforeSurvivors(xs, keep, rel);
        ConsPairwise(xs[0], Where(tail, keep), rel);
      }
    }
  }

  lemma HeadBeforeSurvivors<T(!new)>(xs: seq<T>, keep: T -> bool, rel: (T, T) -> bool)
    requires |xs| > 0
    requires forall j :: 0 < j < |xs| ==> rel(xs[0], xs[j])
    ensures forall y :: y in Where(xs[1..], keep) ==> rel(xs[0], y)
  {
    forall y | y in Where(xs[1..], keep)
      ensures rel(xs[0], y)
    {
      var k :| 0 <= k < |xs[1..]| && xs[1..][k] == y;
      assert xs[k + 1] == y;
    }
  }

  lemma ConsPairwise<T>(x: T, rest: seq<T>, rel: (T, T) -> bool)
    requires forall y :: y in rest ==> rel(x, y)
    requires forall i, j :: 0 <= i < j < |rest| ==> rel(rest[i], rest[j])
    ensures forall i, j :: 0 <= i < j < |[x] + rest| ==> rel(([x] + rest)[i], ([x] + rest)[j])
  {
    var r := [x] + rest;
    forall i, j | 0 <= i < j < |r|
      ensures rel(r[i], r[j])
    {
      assert r[j] == rest[j - 1];
      if i > 0 {
        assert r[i] == rest[i - 1];
      }
    }
  }
}

/** A stable-by-construction insertion sort over a caller-supplied strict
    weak order, plus the facts about permutations the rankings need. PHP 8's
    `arsort` and `usort` are stable; the callers get that stability by
    decorating every item with its original position and breaking ties on it. */
module Sorting {

  /** `lt` is asymmetric and its complement is transitive: a strict weak order. */
  ghost predicate StrictWeakOrder<T(!new)>(lt: (T, T) -> bool) {
    && (forall a, b :: lt(a, b) ==> !lt(b, a))
    && (forall a, b, c :: !lt(a, b) && !lt(b, c) ==> !lt(a, c))
  }

  /** No later element is strictly before an earlier one. */
  predicate Sorted<T>(xs: seq<T>, lt: (T, T) -> bool) {
    forall i, j :: 0 <= i < j < |xs| ==> !lt(xs[j], xs[i])
  }

  predicate Distinct<T(==)>(xs: seq<T>) {
    forall i, j :: 0 <= i < j < |xs| ==> xs[i] != xs[j]
  }

  /** Inserts `x` in front of the first element it is not strictly after. */
  function Insert<T(!new)>(x: T, xs: seq<T>, lt: (T, T) -> bool): (r: seq<T>)
    requires StrictWeakOrder(lt)
    requires Sorted(xs, lt)
    ensures multiset(r) == multiset(xs) + multiset{x}
    ensures Sorted(r, lt)
  {
    if |xs| == 0 then [x]
    else if lt(xs[0], x) then
      var rest := Insert(x, xs[1..], lt);
      assert xs == [xs[0]] + xs[1..];
      HeadStaysFirst(x, xs, rest, lt);
      [xs[0]] + rest
    else
      NewHeadFirst(x, xs, lt);
      [x] + xs
  }

  lemma HeadStaysFirst<T(!new)>(x: T, xs: seq<T>, rest: seq<T>, lt: (T, T) -> bool)
    requires StrictWeakOrder(lt)
    requires Sorted(xs, lt) && |xs| > 0 && lt(xs[0], x)
    requires multiset(rest) == multiset(xs[1..]) + multiset{x}
    requires Sorted(rest, lt)
    ensures Sorted([xs[0]] + rest, lt)
  {
    forall k | 0 <= k < |rest|
      ensures !lt(rest[k], xs[0])
    {
      assert rest[k] in multiset(rest);
      if rest[k] != x {
        assert rest[k] in multiset(xs[1..]);
        var m :| 0 <= m < |xs[1..]| && xs[1..][m] == rest[k];
        assert xs[m + 1] == rest[k];
      }
    }
    var s := [xs[0]] + rest;
    forall i, j | 0 <= i < j < |s|
      ensures !lt(s[j], s[i])
    {
      assert s[j] == rest[j - 1];
      if i > 0 {
        assert s[i] == rest[i - 1];
      }
    }
  }

  lemma NewHeadFirst<T(!new)>(x: T, xs: seq<T>, lt: (T, T) -> bool)
    requires StrictWeakOrder(lt)
    requires Sorted(xs, lt) && |xs| > 0 && !lt(xs[0], x)
    ensures Sorted([x] + xs, lt)
  {
    var s := [x] + xs;
    forall i, j | 0 <= i < j < |s|
      ensures !lt(s[j], s[i])
    {
      assert s[j] == xs[j - 1];
      if i > 0 {
        assert s[i] == xs[i - 1];
      } else if j > 1 {
        assert !lt(xs[j - 1], xs[0]);
      }
    }
  }

  function Sort<T(!new)>(xs: seq<T>, lt: (T, T) -> bool): (r: seq<T>)
    requires StrictWeakOrder(lt)
    ensures multiset(r) == multiset(xs)
    ensures Sorted(r, lt)
  {
    if |xs| == 0 then []
    else
      assert xs == [xs[0]] + xs[1..];
      Insert(xs[0], Sort(xs[1..], lt), lt)
  }

  /** Removing the element at `i` removes one copy of it. */
  lemma RemoveAt<T>(b: seq<T>, i: int)
    requires 0 <= i < |b|
    ensures multiset(b[..i] + b[i + 1..]) == multiset(b) - multiset{b[i]}
  {
    assert b == b[..i] + [b[i]] + b[i + 1..];
  }

  /** Two equal elements at different indices make the element occur twice. */
  lemma RepeatedTwice<T>(xs: seq<T>, i: int, j: int)
    requires 0 <= i < j < |xs| && xs[i] == xs[j]
    ensures multiset(xs)[xs[i]] >= 2
  {
    assert xs == xs[..i] + [xs[i]] + xs[i+1..j] + [xs[j]] + xs[j+1..];
  }

  lemma {:induction false} DistinctOnce<T>(xs: seq<T>, x: T)
    requires Distinct(xs)
    ensures multiset(xs)[x] <= 1
  {
    if |xs| > 0 {
      assert xs == [xs[0]] + xs[1..];
      DistinctOnce(xs[1..], x);
      if x == xs[0] {
        assert x !in xs[1..];
      }
    }
  }

  /** Reordering a sequence of distinct elements keeps them distinct. */
  lemma PermutationKeepsDistinct<T>(a: seq<T>, b: seq<T>)
    requires multiset(a) == multiset(b)
    requires Distinct(a)
    ensures Distinct(b)
  {
    forall i, j | 0 <= i < j < |b|
      ensures b[i] != b[j]
    {
      if b[i] == b[j] {
        RepeatedTwice(b, i, j);
        DistinctOnce(a, b[i]);
      }
    }
  }

  /** The elements of a sequence, as a set. */
  function ElemSet<T>(xs: seq<T>): set<T> {
    set x | x in xs
  }

  /** A sequence without repeats has as many distinct elements as entries. */
  lemma {:induction false} DistinctSize<T>(xs: seq<T>)
    requires Distinct(xs)
    ensures |ElemSet(xs)| == |xs|
  {
    if |xs| > 0 {
      var rest := xs[1..];
      assert Distinct(rest) by {
        forall i, j | 0 <= i < j < |rest| ensures rest[i] != rest[j] {
          assert rest[i] == xs[i + 1] && rest[j] == xs[j + 1];
        }
      }
      DistinctSize(rest);
      assert xs == [xs[0]] + rest;
      assert ElemSet(xs) == ElemSet(rest) + {xs[0]};
      assert forall i :: 0 <= i < |rest| ==> rest[i] == xs[i + 1] != xs[0];
      assert xs[0] !in ElemSet(rest);
    }
  }

  lemma SubsetSize<T>(a: set<T>, b: set<T>)
    requires a <= b
    ensures |a| <= |b|
  {
    assert b == a + (b - a);
  }
}

/** Descending rankings with PHP 8's stable `arsort`: items are numbered by
    their position in the array being sorted, ordered by score descending,
    and equal scores keep their original relative order. */
module Ranking {
  import Sorting
  import opened Tallies

  /** An item to rank: its original position, the array key it carries and
      the value `arsort` compares. */
  datatype Scored = Scored(pos: nat, key: int, score: real)

  /** `a` is placed before `b`: a higher score, or an equal score and an
      earlier original position. */
  predicate Outranks(a: Scored, b: Scored) {
    a.score > b.score || (a.score == b.score && a.pos < b.pos)
  }

  lemma OutranksIsStrictWeak()
    ensures Sorting.StrictWeakOrder(Outranks)
  {
  }

  /** Every item's position is its index. */
  predicate Numbered(xs: seq<Scored>) {
    forall i :: 0 <= i < |xs| ==> xs[i].pos == i
  }

  /** The stable descending sort: a permutation in which every item strictly
      outranks every later one. */
  function Rank(xs: seq<Scored>): (r: seq<Scored>)
    requires Numbered(xs)
    ensures multiset(r) == multiset(xs)
    ensures forall i, j :: 0 <= i < j < |r| ==> Outranks(r[i], r[j])
  {
    OutranksIsStrictWeak();
    var r := Sorting.Sort(xs, Outranks);
    StrictlyRanked(xs, r);
    r
  }

  lemma StrictlyRanked(xs: seq<Scored>, r: seq<Scored>)
    requires Numbered(xs)
    requires multiset(r) == multiset(xs)
    requires Sorting.Sorted(r, Outranks)
    ensures forall i, j :: 0 <= i < j < |r| ==> Outranks(r[i], r[j])
  {
    assert Sorting.Distinct(xs) by {
      forall i, j | 0 <= i < j < |xs|
        ensures xs[i] != xs[j]
      {
        assert xs[i].pos != xs[j].pos;
      }
    }
    Sorting.PermutationKeepsDistinct(xs, r);
    forall i, j | 0 <= i < j < |r|
      ensures Outranks(r[i], r[j])
    {
      SamePositionSameItem(xs, r, r[i], r[j]);
    }
  }

  /** In a permutation of a numbered sequence, the position identifies the item. */
  lemma SamePositionSameItem(xs: seq<Scored>, r: seq<Scored>, x: Scored, y: Scored)
    requires Numbered(xs)
    requires multiset(r) == multiset(xs)
    requires x in r && y in r
    ensures x.pos == y.pos ==> x == y
  {
    assert x in multiset(xs) && y in multiset(xs);
    var a :| 0 <= a < |xs| && xs[a] == x;
    var b :| 0 <= b < |xs| && xs[b] == y;
  }

  /** Numbers a tally's buckets, scoring each by revenue or by order count. */
  function ScoreBuckets(bs: seq<Bucket>, byRevenue: bool): (xs: seq<Scored>)
    ensures |xs| == |bs| && Numbered(xs)
    ensures forall i :: 0 <= i < |xs| ==>
              xs[i].key == bs[i].key && xs[i].score == (if byRevenue then bs[i].revenue else bs[i].orders as real)
  {
    seq(|bs|, i requires 0 <= i < |bs| =>
      Scored(i, bs[i].key, if byRevenue then bs[i].revenue else bs[i].orders as real))
  }

  function Keys(xs: seq<Scored>): (ks: seq<int>)
    ensures |ks| == |xs|
    ensures forall i :: 0 <= i < |xs| ==> ks[i] == xs[i].key
  {
    seq(|xs|, i requires 0 <= i < |xs| => xs[i].key)
  }

  function Min(a: int, b: int): int {
    if a <= b then a else b
  }

  /** The first `n` of a ranking (`array_slice($a, 0, n)`). */
  function Top(r: seq<Scored>, n: nat): (t: seq<Scored>)
    ensures |t| == Min(n, |r|)
    ensures t == r[..|t|]
  {
    r[..Min(n, |r|)]
  }

  /** Whatever is left out of the first `n` of a strict ranking is outranked
      by everything that made it in. */
  lemma TopOutranksRest(r: seq<Scored>, n: nat, x: Scored)
    requires forall i, j :: 0 <= i < j < |r| ==> Outranks(r[i], r[j])
    requires x in r && x !in Top(r, n)
    ensures |Top(r, n)| == n
    ensures forall t :: t in Top(r, n) ==> Outranks(t, x)
  {
    var k :| 0 <= k < |r| && r[k] == x;
    assert k >= Min(n, |r|);
  }

  /** An item among the first `m` of a ranking has its key among their keys. */
  lemma KeptKey(ranked: seq<Scored>, m: nat, k: nat)
    requires m <= |ranked| && k < |ranked|
    ensures k < m ==> ranked[k].key in Keys(ranked[..m])
  {
    if k < m {
      assert Keys(ranked[..m])[k] == ranked[k].key;
    }
  }

  /** The length of the leading run of items with a positive score. */
  function LeadingPositive(r: seq<Scored>): (n: nat)
    ensures n <= |r|
  {
    if |r| == 0 || r[0].score <= 0.0 then 0 else 1 + LeadingPositive(r[1..])
  }

  /** The `foreach` of the weekly peak-hour loop: an item is taken when its
      count is positive and fewer than three have been taken so far. */
  function TakePositive(r: seq<Scored>, taken: nat): seq<Scored> {
    if |r| == 0 then []
    else if r[0].score > 0.0 && taken < 3 then [r[0]] + TakePositive(r[1..], taken + 1)
    else TakePositive(r[1..], taken)
  }

  /** On a ranking, that loop takes the leading positive items, at most three. */
  lemma {:induction false} TakePositiveIsPrefix(r: seq<Scored>, taken: nat)
    requires taken <= 3
    requires forall i, j :: 0 <= i < j < |r| ==> r[i].score >= r[j].score
    ensures TakePositive(r, taken) == r[..Min(3 - taken, LeadingPositive(r))]
  {
    if |r| > 0 {
      TakePositiveIsPrefix(r[1..], if r[0].score > 0.0 && taken < 3 then taken + 1 else taken);
      if r[0].score <= 0.0 && |r| > 1 {
        assert r[1..][0].score <= 0.0;
      }
    }
  }

  lemma {:induction false} LeadingArePositive(r: seq<Scored>, k: nat)
    requires k < LeadingPositive(r)
    ensures r[k].score > 0.0
  {
    if k > 0 {
      LeadingArePositive(r[1..], k - 1);
    }
  }

  /** An item with a positive score lies inside the leading positive run. */
  lemma {:induction false} PositiveIsLeading(r: seq<Scored>, k: nat)
    requires forall i, j :: 0 <= i < j < |r| ==> r[i].score >= r[j].score
    requires k < |r| && r[k].score > 0.0
    ensures k < LeadingPositive(r)
  {
    assert r[0].score >= r[k].score;
    if k > 0 {
      PositiveIsLeading(r[1..], k - 1);
    }
  }
}

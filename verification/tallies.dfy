/** Grouping orders by a key the way the PHP handlers do with associative
    arrays: `if (!isset($a[$k])) $a[$k] = 0-bucket; $a[$k]['orders']++;
    $a[$k]['revenue'] += amount`. PHP arrays remember insertion order, so a
    tally is a sequence of buckets, one per key, in order of first appearance. */
module Tallies {
  import opened Domain
  import Sorting

  /** The grouping keys the handlers use. */
  datatype Dim = ByDate | ByHour | ByWeek | ByWeekday | ByRestaurant

  function KeyOf(o: Order, d: Dim): int {
    match d
    case ByDate => o.time.day
    case ByHour => HourOf(o.time)
    case ByWeek => o.week
    case ByWeekday => WeekdayOf(o.time)
    case ByRestaurant => o.restaurantId
  }

  datatype Bucket = Bucket(key: int, orders: nat, revenue: real)

  // ---- reference definitions over the orders themselves ----

  /** How many orders have key `k`. */
  function Count(os: seq<Order>, d: Dim, k: int): nat {
    if |os| == 0 then 0
    else (if KeyOf(os[0], d) == k then 1 else 0) + Count(os[1..], d, k)
  }

  /** The summed amount of the orders with key `k`. */
  function Revenue(os: seq<Order>, d: Dim, k: int): real {
    if |os| == 0 then 0.0
    else (if KeyOf(os[0], d) == k then os[0].amount else 0.0) + Revenue(os[1..], d, k)
  }

  /** The summed amount of all orders. */
  function TotalAmount(os: seq<Order>): real {
    if |os| == 0 then 0.0 else os[0].amount + TotalAmount(os[1..])
  }

  /** Index of the first order with key `k`, or |os| when there is none. */
  function FirstIndex(os: seq<Order>, d: Dim, k: int): (n: nat)
    ensures n <= |os|
  {
    if |os| == 0 then 0
    else if KeyOf(os[0], d) == k then 0
    else 1 + FirstIndex(os[1..], d, k)
  }

  /** The orders with key `k`, in their original order. */
  function WithKey(os: seq<Order>, d: Dim, k: int): (r: seq<Order>)
    ensures forall o :: o in r <==> o in os && KeyOf(o, d) == k
    ensures |r| == Count(os, d, k)
  {
    if |os| == 0 then []
    else (if KeyOf(os[0], d) == k then [os[0]] else []) + WithKey(os[1..], d, k)
  }

  lemma {:induction false} CountAppend(os: seq<Order>, x: Order, d: Dim, k: int)
    ensures Count(os + [x], d, k) == Count(os, d, k) + (if KeyOf(x, d) == k then 1 else 0)
    ensures Revenue(os + [x], d, k) == Revenue(os, d, k) + (if KeyOf(x, d) == k then x.amount else 0.0)
    ensures TotalAmount(os + [x]) == TotalAmount(os) + x.amount
  {
    if |os| > 0 {
      assert (os + [x])[1..] == os[1..] + [x];
      CountAppend(os[1..], x, d, k);
    }
  }

  lemma CountAppendAll(os: seq<Order>, x: Order, d: Dim)
    ensures forall k :: Count(os + [x], d, k) == Count(os, d, k) + (if KeyOf(x, d) == k then 1 else 0)
  {
    forall k {
      CountAppend(os, x, d, k);
    }
  }

  lemma {:induction false} FirstIndexAppend(os: seq<Order>, x: Order, d: Dim, k: int)
    ensures FirstIndex(os, d, k) <= |os|
    ensures FirstIndex(os, d, k) < |os| ==> FirstIndex(os + [x], d, k) == FirstIndex(os, d, k)
    ensures FirstIndex(os, d, k) == |os| && KeyOf(x, d) == k ==> FirstIndex(os + [x], d, k) == |os|
  {
    if |os| > 0 {
      assert (os + [x])[1..] == os[1..] + [x];
      FirstIndexAppend(os[1..], x, d, k);
    }
  }

  /** An order is found before the end exactly when its key occurs. */
  lemma {:induction false} FirstIndexFound(os: seq<Order>, d: Dim, k: int)
    ensures FirstIndex(os, d, k) < |os| <==> Count(os, d, k) > 0
  {
    if |os| > 0 {
      FirstIndexFound(os[1..], d, k);
    }
  }

  /** Every order is counted in its own bucket. */
  lemma {:induction false} CountMember(os: seq<Order>, o: Order, d: Dim)
    requires o in os
    ensures Count(os, d, KeyOf(o, d)) > 0
  {
    if os[0] != o {
      CountMember(os[1..], o, d);
    }
  }

  lemma {:induction false} CountAbsent(os: seq<Order>, d: Dim, k: int)
    requires forall o :: o in os ==> KeyOf(o, d) != k
    ensures Count(os, d, k) == 0 && Revenue(os, d, k) == 0.0
  {
    if |os| > 0 {
      CountAbsent(os[1..], d, k);
    }
  }

  // ---- reading a tally ----

  predicate HasKey(bs: seq<Bucket>, k: int) {
    exists i :: 0 <= i < |bs| && bs[i].key == k
  }

  predicate DistinctKeys(bs: seq<Bucket>) {
    forall i, j :: 0 <= i < j < |bs| ==> bs[i].key != bs[j].key
  }

  function SumOrders(bs: seq<Bucket>): nat {
    if |bs| == 0 then 0 else bs[0].orders + SumOrders(bs[1..])
  }

  function SumRevenue(bs: seq<Bucket>): real {
    if |bs| == 0 then 0.0 else bs[0].revenue + SumRevenue(bs[1..])
  }

  lemma {:induction false} SumsAppend(a: seq<Bucket>, b: seq<Bucket>)
    ensures SumOrders(a + b) == SumOrders(a) + SumOrders(b)
    ensures SumRevenue(a + b) == SumRevenue(a) + SumRevenue(b)
  {
    if |a| == 0 {
      assert a + b == b;
    } else {
      assert (a + b)[1..] == a[1..] + b;
      SumsAppend(a[1..], b);
    }
  }

  /** Taking one bucket out of a sequence takes its figures out of the totals. */
  lemma SumsWithout(b: seq<Bucket>, i: int)
    requires 0 <= i < |b|
    ensures SumOrders(b) == b[i].orders + SumOrders(b[..i] + b[i + 1..])
    ensures SumRevenue(b) == b[i].revenue + SumRevenue(b[..i] + b[i + 1..])
  {
    var tail := [b[i]] + b[i + 1..];
    assert b == b[..i] + tail;
    assert tail[1..] == b[i + 1..];
    SumsAppend(b[..i], tail);
    SumsAppend(b[..i], b[i + 1..]);
  }

  /** Reordering buckets changes neither total. */
  lemma {:induction false} SumsPermutation(a: seq<Bucket>, b: seq<Bucket>)
    requires multiset(a) == multiset(b)
    ensures SumOrders(a) == SumOrders(b) && SumRevenue(a) == SumRevenue(b)
  {
    if |a| > 0 {
      assert a[0] in multiset(b);
      var i :| 0 <= i < |b| && b[i] == a[0];
      var rest := b[..i] + b[i + 1..];
      Sorting.RemoveAt(b, i);
      Sorting.RemoveAt(a, 0);
      assert a[..0] + a[1..] == a[1..];
      SumsPermutation(a[1..], rest);
      SumsWithout(b, i);
    } else {
      assert |multiset(b)| == 0;
    }
  }

  // ---- the accumulation itself ----

  /** Adds one order of key `k` and amount `a`: the bucket for `k` is bumped
      in place, or a fresh one is appended at the end. */
  function Bump(bs: seq<Bucket>, k: int, a: real): (r: seq<Bucket>)
    requires DistinctKeys(bs)
    ensures DistinctKeys(r)
    ensures |r| == if HasKey(bs, k) then |bs| else |bs| + 1
    ensures forall i :: 0 <= i < |bs| ==> r[i].key == bs[i].key
    ensures !HasKey(bs, k) ==> r[|bs|] == Bucket(k, 1, a)
    ensures forall i :: 0 <= i < |bs| && bs[i].key != k ==> r[i] == bs[i]
    ensures forall i :: 0 <= i < |bs| && bs[i].key == k ==>
              r[i].orders == bs[i].orders + 1 && r[i].revenue == bs[i].revenue + a
    ensures SumOrders(r) == SumOrders(bs) + 1
    ensures SumRevenue(r) == SumRevenue(bs) + a
  {
    if |bs| == 0 then [Bucket(k, 1, a)]
    else if bs[0].key == k then
      var r := [bs[0].(orders := bs[0].orders + 1, revenue := bs[0].revenue + a)] + bs[1..];
      assert HasKey(bs, k);
      assert r[1..] == bs[1..];
      r
    else
      var rest := Bump(bs[1..], k, a);
      BumpTail(bs, k, a, rest);
      [bs[0]] + rest
  }

  lemma BumpTail(bs: seq<Bucket>, k: int, a: real, rest: seq<Bucket>)
    requires |bs| > 0 && bs[0].key != k && DistinctKeys(bs)
    requires DistinctKeys(rest)
    requires |rest| == if HasKey(bs[1..], k) then |bs| - 1 else |bs|
    requires forall i :: 0 <= i < |bs| - 1 ==> rest[i].key == bs[i + 1].key
    requires !HasKey(bs[1..], k) ==> rest[|bs| - 1] == Bucket(k, 1, a)
    ensures HasKey(bs, k) <==> HasKey(bs[1..], k)
    ensures DistinctKeys([bs[0]] + rest)
  {
    if HasKey(bs, k) {
      var i :| 0 <= i < |bs| && bs[i].key == k;
      assert bs[1..][i - 1].key == k;
    }
    if HasKey(bs[1..], k) {
      var i :| 0 <= i < |bs[1..]| && bs[1..][i].key == k;
      assert bs[i + 1].key == k;
    }
    var r := [bs[0]] + rest;
    forall i, j | 0 <= i < j < |r|
      ensures r[i].key != r[j].key
    {
      if i == 0 && j - 1 < |bs| - 1 {
        assert r[j].key == bs[j].key;
      }
    }
  }

  /** Every bucket holds exactly the count and revenue of its key. */
  predicate Accurate(bs: seq<Bucket>, os: seq<Order>, d: Dim) {
    forall i :: 0 <= i < |bs| ==>
      bs[i].orders == Count(os, d, bs[i].key) && bs[i].revenue == Revenue(os, d, bs[i].key)
  }

  /** Every order has a bucket. */
  predicate Covers(bs: seq<Bucket>, os: seq<Order>, d: Dim) {
    forall o :: o in os ==> HasKey(bs, KeyOf(o, d))
  }

  /** Buckets appear in the order their keys first occur among the orders. */
  predicate FirstSeenOrder(bs: seq<Bucket>, os: seq<Order>, d: Dim) {
    forall i, j :: 0 <= i < j < |bs| ==> FirstIndex(os, d, bs[i].key) < FirstIndex(os, d, bs[j].key)
  }

  /** What a tally of `os` by `d` is: one bucket per key that occurs, in
      first-appearance order, each with its key's exact count and revenue. */
  predicate IsTally(bs: seq<Bucket>, os: seq<Order>, d: Dim) {
    && DistinctKeys(bs)
    && Accurate(bs, os, d)
    && Covers(bs, os, d)
    && (forall i :: 0 <= i < |bs| ==> bs[i].orders > 0)
    && FirstSeenOrder(bs, os, d)
    && SumOrders(bs) == |os|
    && SumRevenue(bs) == TotalAmount(os)
  }

  /** The PHP `foreach` over the orders, one bump per order. */
  function Tally(os: seq<Order>, d: Dim): (r: seq<Bucket>)
    ensures IsTally(r, os, d)
  {
    if |os| == 0 then []
    else
      var p := os[..|os| - 1];
      var x := os[|os| - 1];
      assert os == p + [x];
      var prev := Tally(p, d);
      TallyStep(p, x, d, prev);
      Bump(prev, KeyOf(x, d), x.amount)
  }

  lemma TallyStep(p: seq<Order>, x: Order, d: Dim, prev: seq<Bucket>)
    requires IsTally(prev, p, d)
    ensures IsTally(Bump(prev, KeyOf(x, d), x.amount), p + [x], d)
  {
    CountAppend(p, x, d, KeyOf(x, d));
    StepAccurate(p, x, d, prev);
    StepCovers(p, x, d, prev);
    StepFirstSeen(p, x, d, prev);
  }

  /** A key without a bucket has no orders yet. */
  lemma Unseen(p: seq<Order>, d: Dim, prev: seq<Bucket>, k: int)
    requires Covers(prev, p, d)
    requires !HasKey(prev, k)
    ensures Count(p, d, k) == 0 && Revenue(p, d, k) == 0.0
    ensures FirstIndex(p, d, k) == |p|
  {
    CountAbsent(p, d, k);
    FirstIndexFound(p, d, k);
  }

  lemma StepAccurate(p: seq<Order>, x: Order, d: Dim, prev: seq<Bucket>)
    requires DistinctKeys(prev) && Accurate(prev, p, d) && Covers(prev, p, d)
    ensures Accurate(Bump(prev, KeyOf(x, d), x.amount), p + [x], d)
  {
    var r := Bump(prev, KeyOf(x, d), x.amount);
    forall i | 0 <= i < |r|
      ensures r[i].orders == Count(p + [x], d, r[i].key) && r[i].revenue == Revenue(p + [x], d, r[i].key)
    {
      CountAppend(p, x, d, r[i].key);
      if i == |prev| {
        Unseen(p, d, prev, KeyOf(x, d));
      }
    }
  }

  lemma StepCovers(p: seq<Order>, x: Order, d: Dim, prev: seq<Bucket>)
    requires DistinctKeys(prev) && Covers(prev, p, d)
    ensures Covers(Bump(prev, KeyOf(x, d), x.amount), p + [x], d)
  {
    var r := Bump(prev, KeyOf(x, d), x.amount);
    forall o | o in p + [x]
      ensures HasKey(r, KeyOf(o, d))
    {
      var k := KeyOf(o, d);
      if HasKey(prev, k) {
        var i :| 0 <= i < |prev| && prev[i].key == k;
        assert r[i].key == k;
      } else {
        assert o == x;
        assert r[|prev|].key == k;
      }
    }
  }

  lemma StepFirstSeen(p: seq<Order>, x: Order, d: Dim, prev: seq<Bucket>)
    requires DistinctKeys(prev) && Accurate(prev, p, d) && Covers(prev, p, d)
    requires forall i :: 0 <= i < |prev| ==> prev[i].orders > 0
    requires FirstSeenOrder(prev, p, d)
    ensures FirstSeenOrder(Bump(prev, KeyOf(x, d), x.amount), p + [x], d)
  {
    var r := Bump(prev, KeyOf(x, d), x.amount);
    forall i, j | 0 <= i < j < |r|
      ensures FirstIndex(p + [x], d, r[i].key) < FirstIndex(p + [x], d, r[j].key)
    {
      FirstIndexFound(p, d, r[i].key);
      FirstIndexAppend(p, x, d, r[i].key);
      FirstIndexAppend(p, x, d, r[j].key);
      if j < |prev| {
        FirstIndexFound(p, d, r[j].key);
      } else {
        Unseen(p, d, prev, KeyOf(x, d));
      }
    }
  }

  lemma {:induction false} FirstIndexHit(os: seq<Order>, d: Dim, k: int)
    requires FirstIndex(os, d, k) < |os|
    ensures KeyOf(os[FirstIndex(os, d, k)], d) == k
  {
    if KeyOf(os[0], d) != k {
      FirstIndexHit(os[1..], d, k);
    }
  }

  /** A key with a positive count is carried by some order. */
  lemma OrderWithKey(os: seq<Order>, d: Dim, k: int) returns (o: Order)
    requires Count(os, d, k) > 0
    ensures o in os && KeyOf(o, d) == k
  {
    FirstIndexFound(os, d, k);
    FirstIndexHit(os, d, k);
    o := os[FirstIndex(os, d, k)];
  }

  /** A key has a bucket exactly when some order carries it. */
  lemma TallyKeys(os: seq<Order>, d: Dim, k: int)
    ensures HasKey(Tally(os, d), k) <==> exists o :: o in os && KeyOf(o, d) == k
  {
    var r := Tally(os, d);
    if HasKey(r, k) {
      var i :| 0 <= i < |r| && r[i].key == k;
      if forall o :: o in os ==> KeyOf(o, d) != k {
        CountAbsent(os, d, k);
      }
    }
  }
}

/** `handle_trends`: the orders within 30 days of `now`, counted three ways
    (by hour of day, by date, by ISO week), each grouping in order of first
    appearance. */
module Trends {
  import opened Domain
  import opened Selection
  import opened Tallies
  import Sorting

  function Abs(x: int): nat {
    if x < 0 then -x else x
  }

  /** `$now->diff($order_date)->days <= 30`: the whole days between the two
      instants, in either direction, ignoring daylight-saving shifts. */
  predicate WithinWindow(t: Moment, now: Moment) {
    Abs(Instant(t) - Instant(now)) / SecondsPerDay <= 30
  }

  /** The window reaches just short of 31 days to either side. */
  lemma WindowSpan(t: Moment, now: Moment)
    ensures WithinWindow(t, now) <==> -31 * SecondsPerDay < Instant(t) - Instant(now) < 31 * SecondsPerDay
  {
  }

  function Recent(os: seq<Order>, now: Moment): (r: seq<Order>)
    ensures Subseq(r, os)
    ensures forall o :: o in r <==> o in os && WithinWindow(o.time, now)
  {
    Where(os, (o: Order) => WithinWindow(o.time, now))
  }

  datatype TrendReport = TrendReport(hourly: seq<Bucket>, daily: seq<Bucket>, weekly: seq<Bucket>)

  /** The three groupings of the recent orders. Each is a tally of the same
      orders, so all three account for every recent order and its amount. */
  function HandleTrends(os: seq<Order>, now: Moment): (r: TrendReport)
    ensures IsTally(r.hourly, Recent(os, now), ByHour)
    ensures IsTally(r.daily, Recent(os, now), ByDate)
    ensures IsTally(r.weekly, Recent(os, now), ByWeek)
  {
    var recent := Recent(os, now);
    TrendReport(Tally(recent, ByHour), Tally(recent, ByDate), Tally(recent, ByWeek))
  }

  /** There are at most 24 hour groups and at most 53 week groups. */
  lemma TrendBounds(os: seq<Order>, now: Moment)
    ensures |HandleTrends(os, now).hourly| <= 24
    ensures |HandleTrends(os, now).weekly| <= 53
  {
    var r := HandleTrends(os, now);
    var recent := Recent(os, now);
    GroupCount(r.hourly, recent, ByHour, 0, 24);
    GroupCount(r.weekly, recent, ByWeek, 1, 54);
  }

  /** A tally whose keys all lie in `lo .. hi - 1` has at most `hi - lo` buckets. */
  lemma GroupCount(bs: seq<Bucket>, os: seq<Order>, d: Dim, lo: int, hi: int)
    requires lo <= hi
    requires DistinctKeys(bs) && Accurate(bs, os, d) && forall i :: 0 <= i < |bs| ==> bs[i].orders > 0
    requires forall o :: o in os ==> lo <= KeyOf(o, d) < hi
    ensures |bs| <= hi - lo
  {
    forall i | 0 <= i < |bs|
      ensures lo <= bs[i].key < hi
    {
      var o := OrderWithKey(os, d, bs[i].key);
    }
    var ks := KeyList(bs);
    var span := seq(hi - lo, i requires 0 <= i < hi - lo => lo + i);
    Sorting.DistinctSize(ks);
    Sorting.DistinctSize(span);
    assert Sorting.ElemSet(ks) <= Sorting.ElemSet(span) by {
      forall k | k in Sorting.ElemSet(ks) ensures k in Sorting.ElemSet(span) {
        assert span[k - lo] == k;
      }
    }
    Sorting.SubsetSize(Sorting.ElemSet(ks), Sorting.ElemSet(span));
  }

  function KeyList(bs: seq<Bucket>): (ks: seq<int>)
    requires DistinctKeys(bs)
    ensures |ks| == |bs| && Sorting.Distinct(ks)
    ensures forall i :: 0 <= i < |bs| ==> ks[i] == bs[i].key
  {
    seq(|bs|, i requires 0 <= i < |bs| => bs[i].key)
  }
}

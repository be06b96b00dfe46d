/** `handle_analytics`: the three validations, the filters, and the report
    built from the filtered orders: totals, one entry per date with its peak
    hour, the top restaurants (date window only) and the three busiest hours
    of each weekday. */
module Analytics {
  import opened Domain
  import opened Request
  import Sorting
  import opened Tallies
  import opened Text
  import opened Hours
  import opened Validation
  import opened Filters
  import opened Leaders

  datatype Summary = Summary(totalRevenue: real, totalOrders: nat, average: real)

  /** One element of `daily_trends`; `day` is the date key. */
  datatype Day = Day(day: int, orders: nat, revenue: real, peak: string)

  datatype Report = Report(summary: Summary, daily: seq<Day>, top: seq<Leader>, peaks: seq<seq<string>>)

  // ---- summary ----

  /** `total_revenue`, `total_orders` and `average_order_value`: the average
      times the count gives back the revenue, and an empty selection
      averages 0. */
  function Summarize(fs: seq<Order>): (s: Summary)
    ensures s.totalOrders == |fs| && s.totalRevenue == TotalAmount(fs)
    ensures s.totalOrders > 0 ==> s.average * (s.totalOrders as real) == s.totalRevenue
    ensures s.totalOrders == 0 ==> s.average == 0.0
  {
    var n := |fs|;
    var rev := TotalAmount(fs);
    Summary(rev, n, if n > 0 then rev / n as real else 0.0)
  }

  // ---- daily trends ----

  predicate KeyBefore(a: Bucket, b: Bucket) {
    a.key < b.key
  }

  lemma KeyBeforeIsStrictWeak()
    ensures Sorting.StrictWeakOrder(KeyBefore)
  {
  }

  /** `ksort` on the date keys: the same buckets with strictly increasing keys. */
  function ByDay(bs: seq<Bucket>): (r: seq<Bucket>)
    requires DistinctKeys(bs)
    ensures multiset(r) == multiset(bs)
    ensures forall i, j :: 0 <= i < j < |r| ==> r[i].key < r[j].key
  {
    KeyBeforeIsStrictWeak();
    var r := Sorting.Sort(bs, KeyBefore);
    forall i, j | 0 <= i < j < |r|
      ensures r[i].key < r[j].key
    {
      SameKeySameBucket(bs, r, r[i], r[j]);
      if r[i] == r[j] {
        Sorting.RepeatedTwice(r, i, j);
        Sorting.DistinctOnce(bs, r[i]);
      }
    }
    r
  }

  /** In a permutation of buckets with distinct keys, the key identifies the bucket. */
  lemma SameKeySameBucket(bs: seq<Bucket>, r: seq<Bucket>, x: Bucket, y: Bucket)
    requires DistinctKeys(bs)
    requires multiset(r) == multiset(bs)
    requires x in r && y in r
    ensures x.key == y.key ==> x == y
    ensures Sorting.Distinct(bs)
  {
    assert x in multiset(bs) && y in multiset(bs);
    var a :| 0 <= a < |bs| && bs[a] == x;
    var b :| 0 <= b < |bs| && bs[b] == y;
  }

  /** The 24-slot histogram of one date's orders. */
  function DayHistogram(fs: seq<Order>, day: int): (h: seq<nat>)
    ensures |h| == 24
    ensures forall x :: 0 <= x < 24 ==> h[x] == Count(WithKey(fs, ByDate, day), ByHour, x)
  {
    Histogram(WithKey(fs, ByDate, day))
  }

  /** `s` labels the lowest busiest hour of `h`. */
  ghost predicate LabelsPeak(h: seq<nat>, s: string) {
    exists p: Hour :: IsLowestPeak(h, p) && h[p] > 0 && s == HourLabel(p)
  }

  /** A date with orders always has a busiest hour: the "No orders" branch
      is never taken for a daily bucket. */
  lemma BusyDayHasPeak(os: seq<Order>)
    requires |os| > 0
    ensures PeakLabel(Histogram(os)) != NoOrders
  {
    CountMember(os, os[0], ByHour);
  }

  function Entry(fs: seq<Order>, b: Bucket): (d: Day)
    requires b.orders > 0 && b.orders == Count(fs, ByDate, b.key)
    ensures d.day == b.key && d.orders == b.orders && d.revenue == b.revenue
    ensures LabelsPeak(DayHistogram(fs, b.key), d.peak)
  {
    var h := DayHistogram(fs, b.key);
    BusyDayHasPeak(WithKey(fs, ByDate, b.key));
    Day(b.key, b.orders, b.revenue, PeakLabel(h))
  }

  /** The bucket a daily entry reports. */
  function Stats(ds: seq<Day>): (bs: seq<Bucket>)
    ensures |bs| == |ds|
    ensures forall i :: 0 <= i < |ds| ==> bs[i] == Bucket(ds[i].day, ds[i].orders, ds[i].revenue)
  {
    seq(|ds|, i requires 0 <= i < |ds| => Bucket(ds[i].day, ds[i].orders, ds[i].revenue))
  }

  /** `daily_trends`: one entry per date that has orders, in increasing date
      order, each with that date's exact count and revenue and the label of
      its lowest busiest hour; the counts add up to the number of orders and
      the revenues to their total. */
  function DailyTrends(fs: seq<Order>): (r: seq<Day>)
    ensures forall i, j :: 0 <= i < j < |r| ==> r[i].day < r[j].day
    ensures forall i :: 0 <= i < |r| ==>
              r[i].orders == Count(fs, ByDate, r[i].day) > 0 && r[i].revenue == Revenue(fs, ByDate, r[i].day)
    ensures forall o :: o in fs ==> exists i :: 0 <= i < |r| && r[i].day == o.time.day
    ensures forall i :: 0 <= i < |r| ==> LabelsPeak(DayHistogram(fs, r[i].day), r[i].peak)
    ensures SumOrders(Stats(r)) == |fs| && SumRevenue(Stats(r)) == TotalAmount(fs)
  {
    var t := Tally(fs, ByDate);
    var bs := ByDay(t);
    BucketsOfTally(fs, t, bs);
    var r := Entries(fs, bs);
    SumsPermutation(bs, t);
    DaysCover(fs, t, bs, r);
    r
  }

  /** One entry per bucket, in the buckets' order. */
  function Entries(fs: seq<Order>, bs: seq<Bucket>): (r: seq<Day>)
    requires forall i :: 0 <= i < |bs| ==> bs[i].orders > 0 && bs[i].orders == Count(fs, ByDate, bs[i].key)
    ensures Stats(r) == bs
    ensures forall i :: 0 <= i < |r| ==> LabelsPeak(DayHistogram(fs, r[i].day), r[i].peak)
  {
    var r := seq(|bs|, i requires 0 <= i < |bs| => Entry(fs, bs[i]));
    assert Stats(r) == bs;
    r
  }

  lemma BucketsOfTally(fs: seq<Order>, t: seq<Bucket>, bs: seq<Bucket>)
    requires Accurate(t, fs, ByDate) && forall i :: 0 <= i < |t| ==> t[i].orders > 0
    requires multiset(bs) == multiset(t)
    ensures forall i :: 0 <= i < |bs| ==>
              bs[i].orders > 0 && bs[i].orders == Count(fs, ByDate, bs[i].key) && bs[i].revenue == Revenue(fs, ByDate, bs[i].key)
  {
    forall i | 0 <= i < |bs|
      ensures bs[i].orders > 0 && bs[i].orders == Count(fs, ByDate, bs[i].key) && bs[i].revenue == Revenue(fs, ByDate, bs[i].key)
    {
      assert bs[i] in multiset(t);
      var k :| 0 <= k < |t| && t[k] == bs[i];
    }
  }

  lemma DaysCover(fs: seq<Order>, t: seq<Bucket>, bs: seq<Bucket>, r: seq<Day>)
    requires Covers(t, fs, ByDate)
    requires multiset(bs) == multiset(t)
    requires |r| == |bs| && forall i :: 0 <= i < |r| ==> r[i].day == bs[i].key
    ensures forall o :: o in fs ==> exists i :: 0 <= i < |r| && r[i].day == o.time.day
  {
    forall o | o in fs
      ensures exists i :: 0 <= i < |r| && r[i].day == o.time.day
    {
      assert HasKey(t, KeyOf(o, ByDate));
      var k :| 0 <= k < |t| && t[k].key == o.time.day;
      assert t[k] in multiset(bs);
      var i :| 0 <= i < |bs| && bs[i] == t[k];
      assert r[i].day == o.time.day;
    }
  }

  // ---- weekly peak hours ----

  /** The weekday × hour histogram row of weekday `d`. */
  function WeekdayHistogram(fs: seq<Order>, d: Weekday): (h: seq<nat>)
    ensures |h| == 24
    ensures forall x :: 0 <= x < 24 ==> h[x] == Count(WithKey(fs, ByWeekday, d), ByHour, x)
  {
    Histogram(WithKey(fs, ByWeekday, d))
  }

  /** `peak_hours`: seven entries, Sunday first; entry `d` labels the top
      three hours of weekday `d` over the orders it is given. */
  function WeeklyPeaks(fs: seq<Order>): (r: seq<seq<string>>)
    ensures |r| == 7
    ensures forall d :: 0 <= d < 7 ==>
              (forall i :: 0 <= i < |r[d]| ==> ParseHourLabel(r[d][i]).Some?) &&
              IsTopThree(WeekdayHistogram(fs, d), LabelHours(r[d]))
  {
    seq(7, d requires 0 <= d < 7 => TopHourLabels(WeekdayHistogram(fs, d)))
  }

  // ---- the handler ----

  /** The first validation error, in the order the handler checks. */
  function FirstError(q: Query, now: Moment): (e: Option<string>)
    ensures e.None? <==>
              && ValidateDateRange(q.startDate, q.endDate, now).None?
              && ValidateNumericRange(q.minAmount, q.maxAmount, "amount").None?
              && ValidateNumericRange(q.startHour, q.endHour, "hour").None?
    ensures ValidateDateRange(q.startDate, q.endDate, now).Some? ==>
              e == ValidateDateRange(q.startDate, q.endDate, now)
    ensures ValidateDateRange(q.startDate, q.endDate, now).None? &&
            ValidateNumericRange(q.minAmount, q.maxAmount, "amount").Some? ==>
              e == ValidateNumericRange(q.minAmount, q.maxAmount, "amount")
    ensures ValidateDateRange(q.startDate, q.endDate, now).None? &&
            ValidateNumericRange(q.minAmount, q.maxAmount, "amount").None? ==>
              e == ValidateNumericRange(q.startHour, q.endHour, "hour")
  {
    var de := ValidateDateRange(q.startDate, q.endDate, now);
    if de.Some? then de
    else
      var ae := ValidateNumericRange(q.minAmount, q.maxAmount, "amount");
      if ae.Some? then ae
      else ValidateNumericRange(q.startHour, q.endHour, "hour")
  }

  /** The analytics response: a validation error is a 400; an exception
      while building the date window is a 500; otherwise the report is built
      from the filtered orders, except the top restaurants, which only see
      the date window. */
  function HandleAnalytics(orders: seq<Order>, rs: seq<Restaurant>, q: Query, now: Moment): (out: Outcome<Report>)
    ensures out.BadRequest? <==> FirstError(q, now).Some?
    ensures out.BadRequest? ==> out.message == FirstError(q, now).value
    ensures out.ServerError? <==> FirstError(q, now).None? && ReadCriteria(q).None?
    ensures out.Ok? ==>
              var fs := ApplyFilters(orders, ReadCriteria(q).value);
              && out.value.summary.totalOrders == |fs|
              && SumOrders(Stats(out.value.daily)) == out.value.summary.totalOrders
              && SumRevenue(Stats(out.value.daily)) == out.value.summary.totalRevenue
              && |out.value.peaks| == 7
              && |out.value.top| <= 3
    ensures out.Ok? ==>
              var fs := ApplyFilters(orders, ReadCriteria(q).value);
              && out.value.summary == Summarize(fs)
              && out.value.daily == DailyTrends(fs)
              && out.value.peaks == WeeklyPeaks(fs)
              && out.value.top == TopRestaurants(orders, rs, ReadCriteria(q).value.dates)
  {
    match FirstError(q, now)
    case Some(e) => BadRequest(e)
    case None =>
      match ReadCriteria(q)
      case None => ServerError
      case Some(c) =>
        var fs := ApplyFilters(orders, c);
        Ok(Report(Summarize(fs), DailyTrends(fs), TopRestaurants(orders, rs, c.dates), WeeklyPeaks(fs)))
  }

  /** A 500 needs both dates present, at least one of them "" or "0" (so
      validation skipped them), and one of them unparsable. */
  lemma ServerErrorNeedsFalsyDate(orders: seq<Order>, rs: seq<Restaurant>, q: Query, now: Moment)
    requires HandleAnalytics(orders, rs, q, now).ServerError?
    ensures q.startDate.Some? && q.endDate.Some?
    ensures !Truthy(q.startDate.value) || !Truthy(q.endDate.value)
    ensures q.startDate.value.asDate.None? || q.endDate.value.asDate.None?
  {
    var de := ValidateDateRange(q.startDate, q.endDate, now);
    assert de.None?;
  }

  /** Once the hours pass validation, the hour filter selects exactly the
      orders whose hour lies in the validated range, and that range is a
      range of hours of the day. */
  lemma HourFilterAfterValidation(q: Query)
    requires ValidateNumericRange(q.startHour, q.endHour, "hour").None?
    requires ReadCriteria(q).Some?
    requires q.startHour.Some? && q.endHour.Some?
    requires Coherent(q.startHour.value) && Coherent(q.endHour.value)
    ensures ReadCriteria(q).value.hours == Some((q.startHour.value.asInt, q.endHour.value.asInt))
    ensures 0 <= q.startHour.value.asInt <= q.endHour.value.asInt <= 23
  {
    ValidatedHourRange(q.startHour.value, q.endHour.value);
  }
}

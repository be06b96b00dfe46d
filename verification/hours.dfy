/** Hour-of-day histograms and the two peak-hour views built on them: the
    single busiest hour of a day and the three busiest hours of a weekday. */
module Hours {
  import opened Domain
  import opened Text
  import opened Tallies
  import opened Ranking

  /** `array_fill(0, 24, 0)` followed by `[$hour]++` for every order. */
  function Histogram(os: seq<Order>): (h: seq<nat>)
    ensures |h| == 24
    ensures forall x :: 0 <= x < 24 ==> h[x] == Count(os, ByHour, x)
  {
    if |os| == 0 then seq(24, _ => 0)
    else
      var p := os[..|os| - 1];
      var x := os[|os| - 1];
      assert os == p + [x];
      CountAppendAll(p, x, ByHour);
      var prev := Histogram(p);
      prev[HourOf(x.time) := prev[HourOf(x.time)] + 1]
  }

  // ---- the busiest hour of one day ----

  /** `max($hourly)`. */
  function MaxOf(h: seq<nat>): (m: nat)
    requires |h| > 0
    ensures forall j :: 0 <= j < |h| ==> h[j] <= m
    ensures exists j :: 0 <= j < |h| && h[j] == m
  {
    if |h| == 1 then h[0]
    else
      var m := MaxOf(h[1..]);
      assert forall j :: 1 <= j < |h| ==> h[j] == h[1..][j - 1];
      if h[0] >= m then h[0] else m
  }

  /** `array_search($v, $hourly)`: the first index holding `v`, or |h|. */
  function SearchFirst(h: seq<nat>, v: nat): (i: nat)
    ensures i <= |h|
    ensures i < |h| ==> h[i] == v
    ensures forall j :: 0 <= j < i ==> h[j] != v
    ensures (exists j :: 0 <= j < |h| && h[j] == v) ==> i < |h|
  {
    if |h| == 0 then 0
    else if h[0] == v then 0
    else
      var i := SearchFirst(h[1..], v);
      assert forall j :: 1 <= j < |h| ==> h[j] == h[1..][j - 1];
      1 + i
  }

  /** `p` is the lowest hour holding the day's maximum count. */
  ghost predicate IsLowestPeak(h: seq<nat>, p: int) {
    && 0 <= p < |h|
    && (forall j :: 0 <= j < |h| ==> h[j] <= h[p])
    && (forall j :: 0 <= j < p ==> h[j] < h[p])
  }

  /** The day's `peak_hour`: the label of the lowest busiest hour, or
      "No orders" exactly when every hour is empty. */
  function PeakLabel(h: seq<nat>): (r: string)
    requires |h| == 24
    ensures r == NoOrders <==> forall j :: 0 <= j < 24 ==> h[j] == 0
    ensures r != NoOrders ==> exists p: Hour :: IsLowestPeak(h, p) && h[p] > 0 && r == HourLabel(p)
  {
    var m := MaxOf(h);
    if m > 0 then
      var p := SearchFirst(h, m);
      NoOrdersIsNotAnHour(p);
      assert IsLowestPeak(h, p);
      HourLabel(p)
    else
      NoOrders
  }

  // ---- the three busiest hours of a weekday ----

  /** The 24 slots as rankable items: position and key are the hour itself,
      so equal counts keep ascending hour order. */
  function ScoreHours(h: seq<nat>): (xs: seq<Scored>)
    requires |h| == 24
    ensures |xs| == 24 && Numbered(xs)
    ensures forall x :: 0 <= x < 24 ==> xs[x] == Scored(x, x, h[x] as real)
  {
    seq(24, x requires 0 <= x < 24 => Scored(x, x, h[x] as real))
  }

  /** Hour `a` comes before hour `b` in a weekday's ranking: more orders, or
      as many and earlier in the day. */
  predicate Beats(h: seq<nat>, a: int, b: int)
    requires |h| == 24 && 0 <= a < 24 && 0 <= b < 24
  {
    h[a] > h[b] || (h[a] == h[b] && a < b)
  }

  /** `r` is a top-three list for the histogram `h`: at most three hours,
      all busy, in ranking order, and no busy hour left out while a slot is
      free or while it beats one that was kept. */
  predicate IsTopThree(h: seq<nat>, r: seq<int>)
    requires |h| == 24
  {
    && |r| <= 3
    && (forall i :: 0 <= i < |r| ==> 0 <= r[i] < 24 && h[r[i]] > 0)
    && (forall i, j :: 0 <= i < j < |r| ==> Beats(h, r[i], r[j]))
    && (forall x :: 0 <= x < 24 && h[x] > 0 && x !in r ==>
          |r| == 3 && forall i :: 0 <= i < 3 ==> Beats(h, r[i], x))
  }

  /** `arsort($day_hours)` then the loop that keeps the first three hours with
      a positive count. */
  function TopHours(h: seq<nat>): (r: seq<int>)
    requires |h| == 24
    ensures IsTopThree(h, r)
  {
    var ranked := Rank(ScoreHours(h));
    TakePositiveIsPrefix(ranked, 0);
    var r := Keys(TakePositive(ranked, 0));
    TopHoursFacts(h, ranked, r);
    r
  }

  /** A ranked item stands for an hour: its position and key are that hour
      and its score is the hour's count. */
  predicate HourItem(h: seq<nat>, e: Scored)
    requires |h| == 24
  {
    0 <= e.key < 24 && e == Scored(e.key, e.key, h[e.key] as real)
  }

  lemma RankedAreHours(h: seq<nat>, ranked: seq<Scored>)
    requires |h| == 24
    requires multiset(ranked) == multiset(ScoreHours(h))
    ensures |ranked| == 24
    ensures forall k :: 0 <= k < |ranked| ==> HourItem(h, ranked[k])
  {
    var xs := ScoreHours(h);
    assert |multiset(ranked)| == |multiset(xs)|;
    forall k | 0 <= k < |ranked|
      ensures HourItem(h, ranked[k])
    {
      assert ranked[k] in multiset(xs);
      var x :| 0 <= x < |xs| && xs[x] == ranked[k];
    }
  }

  lemma TopHoursFacts(h: seq<nat>, ranked: seq<Scored>, r: seq<int>)
    requires |h| == 24
    requires multiset(ranked) == multiset(ScoreHours(h))
    requires forall i, j :: 0 <= i < j < |ranked| ==> Outranks(ranked[i], ranked[j])
    requires r == Keys(ranked[..Min(3, LeadingPositive(ranked))])
    ensures IsTopThree(h, r)
  {
    RankedAreHours(h, ranked);
    var m := Min(3, LeadingPositive(ranked));
    forall i | 0 <= i < m
      ensures 0 <= r[i] < 24 && h[r[i]] > 0
    {
      assert HourItem(h, ranked[i]);
      LeadingArePositive(ranked, i);
    }
    forall i, j | 0 <= i < j < m
      ensures Beats(h, r[i], r[j])
    {
      assert HourItem(h, ranked[i]) && HourItem(h, ranked[j]);
      assert Outranks(ranked[i], ranked[j]);
    }
    forall x | 0 <= x < 24 && h[x] > 0 && x !in r
      ensures |r| == 3 && forall i :: 0 <= i < 3 ==> Beats(h, r[i], x)
    {
      LeftOut(h, ranked, m, x);
    }
  }

  /** A busy hour missing from the kept prefix sits past a full prefix of
      three, each of which outranks it. */
  lemma LeftOut(h: seq<nat>, ranked: seq<Scored>, m: nat, x: int)
    requires |h| == 24
    requires multiset(ranked) == multiset(ScoreHours(h))
    requires forall i, j :: 0 <= i < j < |ranked| ==> Outranks(ranked[i], ranked[j])
    requires forall k :: 0 <= k < |ranked| ==> 0 <= ranked[k].key < 24 && HourItem(h, ranked[k])
    requires m == Min(3, LeadingPositive(ranked))
    requires 0 <= x < 24 && h[x] > 0 && x !in Keys(ranked[..m])
    ensures m == 3
    ensures forall i :: 0 <= i < 3 ==> h[ranked[i].key] > h[x] || (h[ranked[i].key] == h[x] && ranked[i].key < x)
  {
    var xs := ScoreHours(h);
    assert xs[x] in multiset(ranked);
    var k :| 0 <= k < |ranked| && ranked[k] == xs[x];
    KeptKey(ranked, m, k);
    PositiveIsLeading(ranked, k);
    forall i | 0 <= i < 3
      ensures h[ranked[i].key] > h[x] || (h[ranked[i].key] == h[x] && ranked[i].key < x)
    {
      assert HourItem(h, ranked[i]);
      assert Outranks(ranked[i], ranked[k]);
    }
  }

  /** The hour a label names, or -1 for a string that is not a label. */
  function LabelHour(s: string): int {
    match ParseHourLabel(s)
    case Some(h) => h
    case None => -1
  }

  function LabelHours(ls: seq<string>): (hs: seq<int>)
    ensures |hs| == |ls|
    ensures forall i :: 0 <= i < |ls| ==> hs[i] == LabelHour(ls[i])
  {
    seq(|ls|, i requires 0 <= i < |ls| => LabelHour(ls[i]))
  }

  /** The formatted weekly entry: the labels of the top three hours, each of
      which reads back as the hour it stands for. */
  function TopHourLabels(h: seq<nat>): (labels: seq<string>)
    requires |h| == 24
    ensures forall i :: 0 <= i < |labels| ==> ParseHourLabel(labels[i]).Some?
    ensures IsTopThree(h, LabelHours(labels))
  {
    var r := TopHours(h);
    var labels := seq(|r|, i requires 0 <= i < |r| => HourLabel(r[i]));
    forall i | 0 <= i < |r|
      ensures ParseHourLabel(labels[i]) == Some(r[i])
    {
      HourLabelRoundTrip(r[i]);
    }
    assert LabelHours(labels) == r;
    labels
  }
}

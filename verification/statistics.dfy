/** `handle_statistics`: for each weekday with orders, its three busiest
    hours; for each restaurant, its order count, revenue and average over
    all orders. `growth_metrics` is always empty and is not modelled. */
module Statistics {
  import opened Domain
  import opened Selection
  import opened Tallies
  import opened Ranking

  // ---- busiest hours per weekday ----

  /** Hour `a` is ranked before hour `b` among the orders `ws`: more orders,
      or as many and seen first. `arsort` keeps the insertion order of equal
      counts, and hours enter the array in the order they first occur. */
  predicate HourBeats(ws: seq<Order>, a: int, b: int) {
    Count(ws, ByHour, a) > Count(ws, ByHour, b) ||
    (Count(ws, ByHour, a) == Count(ws, ByHour, b) && FirstIndex(ws, ByHour, a) < FirstIndex(ws, ByHour, b))
  }

  /** `array_slice(array_keys(arsort($hours)), 0, 3)` for one weekday's
      orders: at most three hours, each with orders, in ranking order, and an
      hour with orders is left out only behind three that beat it. */
  function BusiestHours(ws: seq<Order>): (r: seq<int>)
    ensures |r| <= 3
    ensures forall i :: 0 <= i < |r| ==> Count(ws, ByHour, r[i]) > 0
    ensures forall i, j :: 0 <= i < j < |r| ==> r[i] != r[j] && HourBeats(ws, r[i], r[j])
    ensures forall o :: o in ws && HourOf(o.time) !in r ==>
              |r| == 3 && forall i :: 0 <= i < 3 ==> HourBeats(ws, r[i], HourOf(o.time))
  {
    var t := Tally(ws, ByHour);
    var ranked := Rank(ScoreBuckets(t, false));
    BusiestFacts(ws, t, ranked);
    Keys(Top(ranked, 3))
  }

  lemma BusiestFacts(ws: seq<Order>, t: seq<Bucket>, ranked: seq<Scored>)
    requires DistinctKeys(t) && FirstSeenOrder(t, ws, ByHour) && Covers(t, ws, ByHour) && Accurate(t, ws, ByHour)
    requires forall i :: 0 <= i < |t| ==> t[i].orders > 0
    requires multiset(ranked) == multiset(ScoreBuckets(t, false))
    requires forall i, j :: 0 <= i < j < |ranked| ==> Outranks(ranked[i], ranked[j])
    ensures var r := Keys(Top(ranked, 3));
            && |r| <= 3
            && (forall i :: 0 <= i < |r| ==> Count(ws, ByHour, r[i]) > 0)
            && (forall i, j :: 0 <= i < j < |r| ==> r[i] != r[j] && HourBeats(ws, r[i], r[j]))
            && (forall o :: o in ws && HourOf(o.time) !in r ==>
                  |r| == 3 && forall i :: 0 <= i < 3 ==> HourBeats(ws, r[i], HourOf(o.time)))
  {
    CountItems(ws, t, ranked);
    var top := Top(ranked, 3);
    var r := Keys(top);
    TopInOrder(ws, t, top);
    forall o | o in ws && HourOf(o.time) !in r
      ensures |r| == 3 && forall i :: 0 <= i < 3 ==> HourBeats(ws, r[i], HourOf(o.time))
    {
      CoveredHour(ws, t, o);
      Beaten(ws, t, ranked, HourOf(o.time));
    }
  }

  lemma CoveredHour(ws: seq<Order>, t: seq<Bucket>, o: Order)
    requires Covers(t, ws, ByHour) && o in ws
    ensures HasKey(t, HourOf(o.time))
  {
    assert KeyOf(o, ByHour) == HourOf(o.time);
  }

  /** A ranked item stands for one bucket of the hour tally. */
  predicate CountItem(ws: seq<Order>, t: seq<Bucket>, e: Scored) {
    && e.pos < |t| && e.key == t[e.pos].key
    && e.score == Count(ws, ByHour, e.key) as real
    && Count(ws, ByHour, e.key) > 0
  }

  lemma CountItems(ws: seq<Order>, t: seq<Bucket>, ranked: seq<Scored>)
    requires Accurate(t, ws, ByHour) && forall i :: 0 <= i < |t| ==> t[i].orders > 0
    requires multiset(ranked) == multiset(ScoreBuckets(t, false))
    ensures |ranked| == |t|
    ensures forall e :: e in ranked ==> CountItem(ws, t, e)
  {
    var xs := ScoreBuckets(t, false);
    assert |multiset(ranked)| == |multiset(xs)|;
    forall e | e in ranked
      ensures CountItem(ws, t, e)
    {
      assert e in multiset(xs);
      var b :| 0 <= b < |xs| && xs[b] == e;
      assert t[b].orders > 0;
    }
  }

  lemma ItemPair(ws: seq<Order>, t: seq<Bucket>, a: Scored, b: Scored)
    requires DistinctKeys(t) && FirstSeenOrder(t, ws, ByHour)
    requires CountItem(ws, t, a) && CountItem(ws, t, b)
    requires Outranks(a, b)
    ensures a.key != b.key && HourBeats(ws, a.key, b.key)
  {
    if a.pos > b.pos {
      assert t[b.pos].key != t[a.pos].key;
    } else if a.pos < b.pos {
      assert t[a.pos].key != t[b.pos].key;
    }
  }

  lemma TopInOrder(ws: seq<Order>, t: seq<Bucket>, top: seq<Scored>)
    requires DistinctKeys(t) && FirstSeenOrder(t, ws, ByHour)
    requires forall e :: e in top ==> CountItem(ws, t, e)
    requires forall i, j :: 0 <= i < j < |top| ==> Outranks(top[i], top[j])
    ensures forall i :: 0 <= i < |top| ==> Count(ws, ByHour, top[i].key) > 0
    ensures forall i, j :: 0 <= i < j < |top| ==> top[i].key != top[j].key && HourBeats(ws, top[i].key, top[j].key)
  {
    forall i | 0 <= i < |top|
      ensures Count(ws, ByHour, top[i].key) > 0
    {
      assert CountItem(ws, t, top[i]);
    }
    forall i, j | 0 <= i < j < |top|
      ensures top[i].key != top[j].key && HourBeats(ws, top[i].key, top[j].key)
    {
      ItemPair(ws, t, top[i], top[j]);
    }
  }

  /** An hour with orders outside the first three is beaten by all three. */
  lemma Beaten(ws: seq<Order>, t: seq<Bucket>, ranked: seq<Scored>, k: int)
    requires DistinctKeys(t) && FirstSeenOrder(t, ws, ByHour)
    requires |ranked| == |t| && multiset(ranked) == multiset(ScoreBuckets(t, false))
    requires forall i, j :: 0 <= i < j < |ranked| ==> Outranks(ranked[i], ranked[j])
    requires forall e :: e in ranked ==> CountItem(ws, t, e)
    requires HasKey(t, k) && k !in Keys(Top(ranked, 3))
    ensures |Keys(Top(ranked, 3))| == 3
    ensures forall i :: 0 <= i < 3 ==> HourBeats(ws, Keys(Top(ranked, 3))[i], k)
  {
    var xs := ScoreBuckets(t, false);
    var b :| 0 <= b < |t| && t[b].key == k;
    assert xs[b] in multiset(ranked);
    var p :| 0 <= p < |ranked| && ranked[p] == xs[b];
    KeptKey(ranked, Min(3, |ranked|), p);
    forall i | 0 <= i < 3
      ensures HourBeats(ws, Keys(Top(ranked, 3))[i], k)
    {
      ItemPair(ws, t, ranked[i], ranked[p]);
    }
  }

  datatype DayPeaks = DayPeaks(weekday: int, hours: seq<int>)

  /** `peak_hours`: one entry per weekday that has orders, in the order the
      weekdays first occur, each with that weekday's busiest hours. */
  function PeakHours(os: seq<Order>): (r: seq<DayPeaks>)
    ensures forall i :: 0 <= i < |r| ==> Count(os, ByWeekday, r[i].weekday) > 0
    ensures forall o :: o in os ==> exists i :: 0 <= i < |r| && r[i].weekday == WeekdayOf(o.time)
    ensures forall i, j :: 0 <= i < j < |r| ==>
              FirstIndex(os, ByWeekday, r[i].weekday) < FirstIndex(os, ByWeekday, r[j].weekday)
    ensures forall i :: 0 <= i < |r| ==> r[i].hours == BusiestHours(WithKey(os, ByWeekday, r[i].weekday))
  {
    var t := Tally(os, ByWeekday);
    var r := DayEntries(os, t);
    DayEntriesFacts(os, t, r);
    r
  }

  function DayEntries(os: seq<Order>, t: seq<Bucket>): (r: seq<DayPeaks>)
    ensures |r| == |t|
    ensures forall i :: 0 <= i < |t| ==> r[i].weekday == t[i].key
    ensures forall i :: 0 <= i < |t| ==> r[i].hours == BusiestHours(WithKey(os, ByWeekday, t[i].key))
  {
    seq(|t|, i requires 0 <= i < |t| => DayPeaks(t[i].key, BusiestHours(WithKey(os, ByWeekday, t[i].key))))
  }

  lemma DayEntriesFacts(os: seq<Order>, t: seq<Bucket>, r: seq<DayPeaks>)
    requires Accurate(t, os, ByWeekday) && Covers(t, os, ByWeekday) && FirstSeenOrder(t, os, ByWeekday)
    requires forall i :: 0 <= i < |t| ==> t[i].orders > 0
    requires |r| == |t| && forall i :: 0 <= i < |t| ==> r[i].weekday == t[i].key
    ensures forall i :: 0 <= i < |r| ==> Count(os, ByWeekday, r[i].weekday) > 0
    ensures forall o :: o in os ==> exists i :: 0 <= i < |r| && r[i].weekday == WeekdayOf(o.time)
    ensures forall i, j :: 0 <= i < j < |r| ==>
              FirstIndex(os, ByWeekday, r[i].weekday) < FirstIndex(os, ByWeekday, r[j].weekday)
  {
    forall o | o in os
      ensures exists i :: 0 <= i < |r| && r[i].weekday == WeekdayOf(o.time)
    {
      assert HasKey(t, KeyOf(o, ByWeekday));
      var i :| 0 <= i < |t| && t[i].key == KeyOf(o, ByWeekday);
      assert r[i].weekday == WeekdayOf(o.time);
    }
  }

  // ---- restaurant performance ----

  datatype Performance = Performance(id: int, name: string, totalRevenue: real, totalOrders: nat, average: real)

  /** One restaurant's figures: `array_filter` on its id, then `array_sum`
      of the amounts and `count`; the average is the revenue per order, or 0
      without orders. */
  function Perf(os: seq<Order>, x: Restaurant): (p: Performance)
    ensures p == Figures(x, Count(os, ByRestaurant, x.id), Revenue(os, ByRestaurant, x.id))
  {
    var mine := OrdersOf(os, x.id);
    SelectedSums(os, x.id);
    Figures(x, |mine|, TotalAmount(mine))
  }

  /** The entry for one restaurant; the average is the revenue per order. */
  function Figures(x: Restaurant, n: nat, rev: real): (p: Performance)
    ensures p.id == x.id && p.name == x.name && p.totalOrders == n && p.totalRevenue == rev
    ensures n > 0 ==> p.average * (n as real) == rev
    ensures n == 0 ==> p.average == 0.0
  {
    Performance(x.id, x.name, rev, n, if n > 0 then rev / n as real else 0.0)
  }

  /** `array_filter` on the restaurant id. */
  function OrdersOf(os: seq<Order>, id: int): seq<Order> {
    Where(os, (o: Order) => o.restaurantId == id)
  }

  /** Selecting one restaurant's orders and summing them agrees with the
      per-key count and revenue. */
  lemma {:induction false} SelectedSums(os: seq<Order>, id: int)
    ensures |OrdersOf(os, id)| == Count(os, ByRestaurant, id)
    ensures TotalAmount(OrdersOf(os, id)) == Revenue(os, ByRestaurant, id)
  {
    if |os| > 0 {
      SelectedSums(os[1..], id);
      var rest := OrdersOf(os[1..], id);
      if os[0].restaurantId == id {
        assert OrdersOf(os, id) == [os[0]] + rest;
        assert ([os[0]] + rest)[1..] == rest;
      } else {
        assert OrdersOf(os, id) == rest;
      }
    }
  }

  predicate DistinctIds(ps: seq<Performance>) {
    forall i, j :: 0 <= i < j < |ps| ==> ps[i].id != ps[j].id
  }

  predicate HasId(ps: seq<Performance>, id: int) {
    exists i :: 0 <= i < |ps| && ps[i].id == id
  }

  /** Where the entry with this id sits, or `|ps|` when there is none. */
  function IdIndex(ps: seq<Performance>, id: int): (k: nat)
    ensures k <= |ps|
    ensures k < |ps| ==> ps[k].id == id
    ensures k == |ps| <==> !HasId(ps, id)
  {
    if |ps| == 0 then 0
    else if ps[|ps| - 1].id == id then |ps| - 1
    else
      var init := ps[..|ps| - 1];
      var k := IdIndex(init, id);
      assert HasId(ps, id) ==> HasId(init, id) by {
        if HasId(ps, id) {
          var i :| 0 <= i < |ps| && ps[i].id == id;
          assert init[i].id == id;
        }
      }
      if k < |init| then k else |ps|
  }

  /** `$perf[$id] = ...`: overwrite in place when the id is already a key,
      append otherwise. */
  function Put(ps: seq<Performance>, p: Performance): (r: seq<Performance>)
    requires DistinctIds(ps)
    ensures DistinctIds(r)
    ensures |r| == if HasId(ps, p.id) then |ps| else |ps| + 1
    ensures forall i :: 0 <= i < |ps| ==> r[i] == if ps[i].id == p.id then p else ps[i]
    ensures !HasId(ps, p.id) ==> r[|ps|] == p
  {
    var k := IdIndex(ps, p.id);
    if k < |ps| then ps[k := p] else ps + [p]
  }

  /** The last restaurant in the list with this id. */
  function LastWith(rs: seq<Restaurant>, id: int): (r: Option<Restaurant>)
    ensures r.Some? ==> r.value in rs && r.value.id == id
    ensures r.None? <==> forall x :: x in rs ==> x.id != id
    ensures r.Some? ==> exists i :: 0 <= i < |rs| && rs[i] == r.value && forall j :: i < j < |rs| ==> rs[j].id != id
  {
    if |rs| == 0 then None
    else if rs[|rs| - 1].id == id then Some(rs[|rs| - 1])
    else
      var r := LastWith(rs[..|rs| - 1], id);
      assert rs == rs[..|rs| - 1] + [rs[|rs| - 1]];
      r
  }

  lemma LastWithSnoc(init: seq<Restaurant>, x: Restaurant, id: int)
    ensures LastWith(init + [x], id) == if x.id == id then Some(x) else LastWith(init, id)
  {
    assert (init + [x])[..|init|] == init;
  }

  /** Every entry holds the figures of the last restaurant listed with its id. */
  predicate FromLast(os: seq<Order>, rs: seq<Restaurant>, ps: seq<Performance>) {
    forall i :: 0 <= i < |ps| ==>
      LastWith(rs, ps[i].id).Some? && ps[i] == Perf(os, LastWith(rs, ps[i].id).value)
  }

  /** `restaurant_performance`: one entry per distinct restaurant id, in the
      order the ids first occur (`PerformancesFirstSeen`), each holding the
      figures `PerformancesFromLast` names. */
  function Performances(os: seq<Order>, rs: seq<Restaurant>): (ps: seq<Performance>)
    ensures |ps| <= |rs|
    ensures DistinctIds(ps)
    ensures forall x :: x in rs ==> HasId(ps, x.id)
    ensures forall i :: 0 <= i < |ps| ==> Listed(rs, ps[i].id)
  {
    if |rs| == 0 then []
    else
      var init := rs[..|rs| - 1];
      var x := rs[|rs| - 1];
      assert rs == init + [x];
      var prev := Performances(os, init);
      var r := Put(prev, Perf(os, x));
      PutCovers(init, x, prev, r);
      PutListed(init, x, prev, r);
      r
  }

  /** Each entry holds the figures of the last restaurant listed with its id:
      a later restaurant with the same id overwrites an earlier one's entry. */
  lemma {:induction false} PerformancesFromLast(os: seq<Order>, rs: seq<Restaurant>)
    ensures FromLast(os, rs, Performances(os, rs))
  {
    if |rs| > 0 {
      var init := rs[..|rs| - 1];
      var x := rs[|rs| - 1];
      assert rs == init + [x];
      PerformancesFromLast(os, init);
      PerformancesStep(os, rs);
      PutFromLast(os, init, x, Performances(os, init), Performances(os, rs));
    }
  }

  /** Some restaurant in the list has this id. */
  predicate Listed(rs: seq<Restaurant>, id: int) {
    exists x :: x in rs && x.id == id
  }

  /** Where the first restaurant with this id sits, or `|rs|` when none has it. */
  function FirstPos(rs: seq<Restaurant>, id: int): (k: nat)
    ensures k <= |rs|
    ensures k < |rs| ==> rs[k].id == id
    ensures forall j :: 0 <= j < k && j < |rs| ==> rs[j].id != id
  {
    if |rs| == 0 then 0
    else if rs[0].id == id then 0
    else
      var k := FirstPos(rs[1..], id);
      assert forall j :: 1 <= j < 1 + k && j < |rs| ==> rs[j] == rs[1..][j - 1];
      1 + k
  }

  /** A listed id is found inside the list. */
  lemma ListedFirstPos(rs: seq<Restaurant>, id: int)
    requires Listed(rs, id)
    ensures FirstPos(rs, id) < |rs|
  {
    var x :| x in rs && x.id == id;
    var i :| 0 <= i < |rs| && rs[i] == x;
  }

  /** Appending a restaurant leaves the first position of every id already
      listed unchanged, and puts a new id at the end. */
  lemma FirstPosSnoc(init: seq<Restaurant>, x: Restaurant, id: int)
    ensures Listed(init, id) ==> FirstPos(init + [x], id) == FirstPos(init, id)
    ensures !Listed(init, id) && x.id == id ==> FirstPos(init + [x], id) == |init|
  {
    var rs := init + [x];
    assert forall j :: 0 <= j < |init| ==> rs[j] == init[j] && init[j] in init;
    assert rs[|init|] == x;
    if Listed(init, id) {
      ListedFirstPos(init, id);
      assert rs[FirstPos(init, id)].id == id;
    }
  }

  /** The entries follow the order in which their ids first occur. */
  predicate FirstSeen(rs: seq<Restaurant>, ps: seq<Performance>) {
    forall i, j :: 0 <= i < j < |ps| ==> FirstPos(rs, ps[i].id) < FirstPos(rs, ps[j].id)
  }

  /** An entry comes before another exactly when its id is first listed
      earlier: a new id is appended, a repeated one overwritten in place. */
  lemma {:induction false} PerformancesFirstSeen(os: seq<Order>, rs: seq<Restaurant>)
    ensures FirstSeen(rs, Performances(os, rs))
  {
    if |rs| > 0 {
      var init := rs[..|rs| - 1];
      var x := rs[|rs| - 1];
      assert rs == init + [x];
      PerformancesFirstSeen(os, init);
      PerformancesStep(os, rs);
      PutFirstSeen(init, x, Performances(os, init), Perf(os, x));
    }
  }

  lemma PutFirstSeen(init: seq<Restaurant>, x: Restaurant, prev: seq<Performance>, p: Performance)
    requires DistinctIds(prev) && FirstSeen(init, prev) && p.id == x.id
    requires forall i :: 0 <= i < |prev| ==> Listed(init, prev[i].id)
    requires forall y :: y in init ==> HasId(prev, y.id)
    ensures FirstSeen(init + [x], Put(prev, p))
  {
    var r := Put(prev, p);
    forall i | 0 <= i < |prev|
      ensures r[i].id == prev[i].id
      ensures FirstPos(init + [x], r[i].id) == FirstPos(init, prev[i].id) < |init|
    {
      FirstPosSnoc(init, x, prev[i].id);
      ListedFirstPos(init, prev[i].id);
    }
    if |r| > |prev| {
      assert !Listed(init, x.id);
      FirstPosSnoc(init, x, x.id);
    }
  }

  lemma PutListed(init: seq<Restaurant>, x: Restaurant, prev: seq<Performance>, r: seq<Performance>)
    requires forall i :: 0 <= i < |prev| ==> Listed(init, prev[i].id)
    requires |prev| <= |r| <= |prev| + 1
    requires forall i :: 0 <= i < |prev| ==> r[i].id == prev[i].id || r[i].id == x.id
    requires |r| > |prev| ==> r[|prev|].id == x.id
    ensures forall i :: 0 <= i < |r| ==> Listed(init + [x], r[i].id)
  {
    forall i | 0 <= i < |r|
      ensures Listed(init + [x], r[i].id)
    {
      if i < |prev| && r[i].id == prev[i].id {
        var y :| y in init && y.id == prev[i].id;
        assert y in init + [x];
      } else {
        assert x in init + [x];
      }
    }
  }

  lemma PutCovers(init: seq<Restaurant>, x: Restaurant, prev: seq<Performance>, r: seq<Performance>)
    requires forall y :: y in init ==> HasId(prev, y.id)
    requires |r| >= |prev| && forall i :: 0 <= i < |prev| ==> r[i].id == prev[i].id
    requires !HasId(prev, x.id) ==> |r| > |prev| && r[|prev|].id == x.id
    ensures forall y :: y in init + [x] ==> HasId(r, y.id)
  {
    forall y | y in init + [x]
      ensures HasId(r, y.id)
    {
      if HasId(prev, y.id) {
        var i :| 0 <= i < |prev| && prev[i].id == y.id;
        assert r[i].id == y.id;
      } else {
        assert y == x;
        assert r[|prev|].id == y.id;
      }
    }
  }

  lemma PutFromLast(os: seq<Order>, init: seq<Restaurant>, x: Restaurant, prev: seq<Performance>, r: seq<Performance>)
    requires DistinctIds(prev) && FromLast(os, init, prev)
    requires r == Put(prev, Perf(os, x))
    ensures FromLast(os, init + [x], r)
  {
    forall i | 0 <= i < |r|
      ensures LastWith(init + [x], r[i].id).Some? && r[i] == Perf(os, LastWith(init + [x], r[i].id).value)
    {
      LastWithSnoc(init, x, r[i].id);
      if i < |prev| && prev[i].id != x.id {
        assert r[i] == prev[i];
      }
    }
  }

  /** With unique ids, there is exactly one entry per restaurant, in list order. */
  lemma UniqueIdsOneEach(os: seq<Order>, rs: seq<Restaurant>)
    requires forall i, j :: 0 <= i < j < |rs| ==> rs[i].id != rs[j].id
    ensures |Performances(os, rs)| == |rs|
    ensures forall i :: 0 <= i < |rs| ==> Performances(os, rs)[i] == Perf(os, rs[i])
  {
    var ps := Performances(os, rs);
    UniqueIdsInOrder(os, rs);
    PerformancesFromLast(os, rs);
    forall i | 0 <= i < |rs|
      ensures ps[i] == Perf(os, rs[i])
    {
      LastIsOnly(rs, i);
    }
  }

  /** With unique ids, the last restaurant with an id is the only one. */
  lemma {:induction false} LastIsOnly(rs: seq<Restaurant>, i: int)
    requires forall a, b :: 0 <= a < b < |rs| ==> rs[a].id != rs[b].id
    requires 0 <= i < |rs|
    ensures LastWith(rs, rs[i].id) == Some(rs[i])
  {
    var init := rs[..|rs| - 1];
    if i < |rs| - 1 {
      assert rs[i] == init[i];
      LastIsOnly(init, i);
    }
  }

  /** With unique ids, entry i carries restaurant i's id. */
  lemma {:induction false} UniqueIdsInOrder(os: seq<Order>, rs: seq<Restaurant>)
    requires forall i, j :: 0 <= i < j < |rs| ==> rs[i].id != rs[j].id
    ensures |Performances(os, rs)| == |rs|
    ensures forall i :: 0 <= i < |rs| ==> Performances(os, rs)[i].id == rs[i].id
  {
    if |rs| > 0 {
      var init := rs[..|rs| - 1];
      UniqueIdsInOrder(os, init);
      PerformancesStep(os, rs);
      FreshLast(rs, Performances(os, init), Perf(os, rs[|rs| - 1]));
    }
  }

  lemma PerformancesStep(os: seq<Order>, rs: seq<Restaurant>)
    requires |rs| > 0
    ensures Performances(os, rs) == Put(Performances(os, rs[..|rs| - 1]), Perf(os, rs[|rs| - 1]))
  {
  }

  /** Appending the entry of a restaurant whose id is new keeps the entries
      lined up with the restaurants. */
  lemma FreshLast(rs: seq<Restaurant>, prev: seq<Performance>, p: Performance)
    requires |rs| > 0 && forall i, j :: 0 <= i < j < |rs| ==> rs[i].id != rs[j].id
    requires DistinctIds(prev) && |prev| == |rs| - 1
    requires forall i :: 0 <= i < |prev| ==> prev[i].id == rs[i].id
    requires p.id == rs[|rs| - 1].id
    ensures |Put(prev, p)| == |rs|
    ensures forall i :: 0 <= i < |rs| ==> Put(prev, p)[i].id == rs[i].id
  {
    assert !HasId(prev, p.id) by {
      forall i | 0 <= i < |prev|
        ensures prev[i].id != p.id
      {
        assert prev[i].id == rs[i].id;
      }
    }
    PutFresh(prev, p);
  }

  /** Putting a new id appends its entry. */
  lemma PutFresh(ps: seq<Performance>, p: Performance)
    requires DistinctIds(ps) && !HasId(ps, p.id)
    ensures Put(ps, p) == ps + [p]
  {
  }

  datatype Stats = Stats(peakHours: seq<DayPeaks>, performance: seq<Performance>)

  /** The statistics response; `growth_metrics` is always empty. */
  function HandleStatistics(os: seq<Order>, rs: seq<Restaurant>): (s: Stats)
    ensures s.peakHours == PeakHours(os) && s.performance == Performances(os, rs)
    ensures |s.performance| <= |rs|
    ensures forall x :: x in rs ==> HasId(s.performance, x.id)
  {
    Stats(PeakHours(os), Performances(os, rs))
  }
}

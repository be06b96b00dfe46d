/** `calculate_top_restaurants`: revenue per restaurant over the orders in
    the date window alone, ranked with the stable descending sort; the first
    three ranked ids are looked up, and an id without a restaurant is dropped
    although it used up one of the three slots. */
module Leaders {
  import opened Domain
  import opened Selection
  import opened Tallies
  import opened Ranking
  import opened Filters
  import Sorting

  /** One entry of `top_restaurants`; the id is kept alongside the
      name and revenue the response shows. */
  datatype Leader = Leader(id: int, name: string, revenue: real)

  /** `array_values(array_filter($restaurants, id === $id))[0]`, if any. */
  function Lookup(rs: seq<Restaurant>, id: int): (r: Option<Restaurant>)
    ensures r.Some? ==> r.value in rs && r.value.id == id
    ensures r.None? <==> forall x :: x in rs ==> x.id != id
  {
    if |rs| == 0 then None
    else if rs[0].id == id then Some(rs[0])
    else Lookup(rs[1..], id)
  }

  /** The restaurant found is the first one listed with that id. */
  lemma {:induction false} LookupFirst(rs: seq<Restaurant>, id: int, i: int)
    requires 0 <= i < |rs| && rs[i].id == id
    requires forall j :: 0 <= j < i ==> rs[j].id != id
    ensures Lookup(rs, id) == Some(rs[i])
  {
    if i > 0 {
      LookupFirst(rs[1..], id, i - 1);
    }
  }

  predicate Known(rs: seq<Restaurant>, id: int) {
    Lookup(rs, id).Some?
  }

  /** The orders the ranking looks at: only the date predicate applies. */
  function Pool(os: seq<Order>, dates: Option<Window>): (r: seq<Order>)
    ensures forall o :: o in r <==> o in os && (dates.None? || InWindow(dates.value, o.time))
  {
    if dates.Some? then Where(os, (o: Order) => InWindow(dates.value, o.time)) else os
  }

  function Ids(ls: seq<Leader>): (ks: seq<int>)
    ensures |ks| == |ls|
    ensures forall i :: 0 <= i < |ls| ==> ks[i] == ls[i].id
  {
    seq(|ls|, i requires 0 <= i < |ls| => ls[i].id)
  }

  /** At most three leaders, each a known restaurant with orders in the
      window and its exact revenue there; distinct, by non-increasing revenue
      with ties in order of first appearance; and a known restaurant with
      orders in the window is only missing when more than three restaurants
      have orders and every leader earned at least as much. */
  function TopRestaurants(os: seq<Order>, rs: seq<Restaurant>, dates: Option<Window>): (r: seq<Leader>)
    ensures |r| <= 3
    ensures forall i :: 0 <= i < |r| ==>
              Known(rs, r[i].id) && r[i].name == Lookup(rs, r[i].id).value.name
    ensures forall i :: 0 <= i < |r| ==>
              Count(Pool(os, dates), ByRestaurant, r[i].id) > 0 &&
              r[i].revenue == Revenue(Pool(os, dates), ByRestaurant, r[i].id)
    ensures forall i, j :: 0 <= i < j < |r| ==>
              r[i].id != r[j].id && r[i].revenue >= r[j].revenue &&
              (r[i].revenue == r[j].revenue ==>
                 FirstIndex(Pool(os, dates), ByRestaurant, r[i].id) < FirstIndex(Pool(os, dates), ByRestaurant, r[j].id))
    ensures forall o :: o in Pool(os, dates) && Known(rs, o.restaurantId) && o.restaurantId !in Ids(r) ==>
              |Tally(Pool(os, dates), ByRestaurant)| > 3 &&
              forall i :: 0 <= i < |r| ==> r[i].revenue >= Revenue(Pool(os, dates), ByRestaurant, o.restaurantId)
    ensures forall k :: Count(Pool(os, dates), ByRestaurant, k) > 0 ==>
              (k in Ids(r) <==> Known(rs, k) && |Rivals(Pool(os, dates), k)| < 3)
  {
    var pool := Pool(os, dates);
    var t := Tally(pool, ByRestaurant);
    var ranked := Rank(ScoreBuckets(t, true));
    var kept := Where(Top(ranked, 3), (s: Scored) => Known(rs, s.key));
    KeptAreKnown(Top(ranked, 3), rs, kept);
    var r := Name(kept, rs);
    RankedFromBuckets(pool, t, ranked);
    LeadersFacts(pool, t, ranked, rs, kept, r);
    SlotsFacts(pool, t, ranked, rs, kept, r);
    r
  }

  /** `a` ranks above `b` among the restaurants of the pool: it earned more,
      or the same and was seen first. */
  predicate RanksAbove(pool: seq<Order>, a: int, b: int) {
    || Revenue(pool, ByRestaurant, a) > Revenue(pool, ByRestaurant, b)
    || (Revenue(pool, ByRestaurant, a) == Revenue(pool, ByRestaurant, b) &&
        FirstIndex(pool, ByRestaurant, a) < FirstIndex(pool, ByRestaurant, b))
  }

  /** The ids with orders in the pool that rank above `k`, whether or not a
      restaurant carries them: each takes one of the three slots. */
  function Rivals(pool: seq<Order>, k: int): set<int> {
    set o | o in pool && RanksAbove(pool, o.restaurantId, k) :: o.restaurantId
  }

  /** One leader per kept item, named after its restaurant. */
  function Name(kept: seq<Scored>, rs: seq<Restaurant>): (r: seq<Leader>)
    requires forall i :: 0 <= i < |kept| ==> Lookup(rs, kept[i].key).Some?
    ensures |r| == |kept|
    ensures forall i :: 0 <= i < |kept| ==>
              r[i] == Leader(kept[i].key, Lookup(rs, kept[i].key).value.name, kept[i].score)
  {
    seq(|kept|, i requires 0 <= i < |kept| => Leader(kept[i].key, Lookup(rs, kept[i].key).value.name, kept[i].score))
  }

  lemma KeptAreKnown(top: seq<Scored>, rs: seq<Restaurant>, kept: seq<Scored>)
    requires kept == Where(top, (s: Scored) => Known(rs, s.key))
    ensures forall i :: 0 <= i < |kept| ==> Lookup(rs, kept[i].key).Some?
  {
    forall i | 0 <= i < |kept|
      ensures Lookup(rs, kept[i].key).Some?
    {
      assert kept[i] in kept;
    }
  }

  /** A ranked item stands for one bucket of the tally: its position is the
      bucket's index and its score the bucket's revenue. */
  predicate FromBucket(pool: seq<Order>, t: seq<Bucket>, e: Scored) {
    && e.pos < |t| && e.key == t[e.pos].key
    && e.score == Revenue(pool, ByRestaurant, e.key)
    && Count(pool, ByRestaurant, e.key) > 0
  }

  lemma RankedFromBuckets(pool: seq<Order>, t: seq<Bucket>, ranked: seq<Scored>)
    requires Accurate(t, pool, ByRestaurant)
    requires forall i :: 0 <= i < |t| ==> t[i].orders > 0
    requires multiset(ranked) == multiset(ScoreBuckets(t, true))
    ensures |ranked| == |t|
    ensures forall e :: e in ranked ==> FromBucket(pool, t, e)
  {
    var xs := ScoreBuckets(t, true);
    assert |multiset(ranked)| == |multiset(xs)|;
    forall e | e in ranked
      ensures FromBucket(pool, t, e)
    {
      assert e in multiset(xs);
      var b :| 0 <= b < |xs| && xs[b] == e;
      assert t[b].orders > 0;
    }
  }

  lemma LeadersFacts(pool: seq<Order>, t: seq<Bucket>, ranked: seq<Scored>, rs: seq<Restaurant>,
                     kept: seq<Scored>, r: seq<Leader>)
    requires DistinctKeys(t) && FirstSeenOrder(t, pool, ByRestaurant) && Covers(t, pool, ByRestaurant)
    requires |ranked| == |t| && forall e :: e in ranked ==> FromBucket(pool, t, e)
    requires multiset(ranked) == multiset(ScoreBuckets(t, true))
    requires forall i, j :: 0 <= i < j < |ranked| ==> Outranks(ranked[i], ranked[j])
    requires kept == Where(Top(ranked, 3), (s: Scored) => Known(rs, s.key))
    requires |r| == |kept|
    requires forall i :: 0 <= i < |kept| ==> r[i].id == kept[i].key && r[i].revenue == kept[i].score
    ensures |r| <= 3
    ensures forall i :: 0 <= i < |r| ==>
              Count(pool, ByRestaurant, r[i].id) > 0 && r[i].revenue == Revenue(pool, ByRestaurant, r[i].id)
    ensures forall i, j :: 0 <= i < j < |r| ==>
              r[i].id != r[j].id && r[i].revenue >= r[j].revenue &&
              (r[i].revenue == r[j].revenue ==>
                 FirstIndex(pool, ByRestaurant, r[i].id) < FirstIndex(pool, ByRestaurant, r[j].id))
    ensures forall o :: o in pool && Known(rs, o.restaurantId) && o.restaurantId !in Ids(r) ==>
              |t| > 3 && forall i :: 0 <= i < |r| ==> r[i].revenue >= Revenue(pool, ByRestaurant, o.restaurantId)
  {
    KeptFromBuckets(pool, t, ranked, rs, kept);
    KeptInOrder(ranked, rs, kept);
    LeadersInOrder(pool, t, kept, r);
    forall o | o in pool && Known(rs, o.restaurantId) && o.restaurantId !in Ids(r)
      ensures |t| > 3 && forall i :: 0 <= i < |r| ==> r[i].revenue >= Revenue(pool, ByRestaurant, o.restaurantId)
    {
      CoveredKey(pool, t, o);
      Passed(pool, t, ranked, rs, kept, r, o.restaurantId);
    }
  }

  lemma KeptFromBuckets(pool: seq<Order>, t: seq<Bucket>, ranked: seq<Scored>, rs: seq<Restaurant>, kept: seq<Scored>)
    requires forall e :: e in ranked ==> FromBucket(pool, t, e)
    requires kept == Where(Top(ranked, 3), (s: Scored) => Known(rs, s.key))
    ensures forall i :: 0 <= i < |kept| ==> FromBucket(pool, t, kept[i])
  {
    forall i | 0 <= i < |kept|
      ensures FromBucket(pool, t, kept[i])
    {
      assert kept[i] in Top(ranked, 3);
    }
  }

  lemma LeadersInOrder(pool: seq<Order>, t: seq<Bucket>, kept: seq<Scored>, r: seq<Leader>)
    requires DistinctKeys(t) && FirstSeenOrder(t, pool, ByRestaurant)
    requires forall i :: 0 <= i < |kept| ==> FromBucket(pool, t, kept[i])
    requires forall i, j :: 0 <= i < j < |kept| ==> Outranks(kept[i], kept[j])
    requires |r| == |kept|
    requires forall i :: 0 <= i < |kept| ==> r[i].id == kept[i].key && r[i].revenue == kept[i].score
    ensures forall i :: 0 <= i < |r| ==>
              Count(pool, ByRestaurant, r[i].id) > 0 && r[i].revenue == Revenue(pool, ByRestaurant, r[i].id)
    ensures forall i, j :: 0 <= i < j < |r| ==>
              r[i].id != r[j].id && r[i].revenue >= r[j].revenue &&
              (r[i].revenue == r[j].revenue ==>
                 FirstIndex(pool, ByRestaurant, r[i].id) < FirstIndex(pool, ByRestaurant, r[j].id))
  {
    forall i, j | 0 <= i < j < |r|
      ensures r[i].id != r[j].id && r[i].revenue >= r[j].revenue &&
              (r[i].revenue == r[j].revenue ==>
                 FirstIndex(pool, ByRestaurant, r[i].id) < FirstIndex(pool, ByRestaurant, r[j].id))
    {
      LeaderPair(pool, t, kept[i], kept[j]);
    }
  }

  lemma CoveredKey(pool: seq<Order>, t: seq<Bucket>, o: Order)
    requires Covers(t, pool, ByRestaurant) && o in pool
    ensures HasKey(t, o.restaurantId)
  {
  }

  /** The kept items keep the ranking's order. */
  lemma KeptInOrder(ranked: seq<Scored>, rs: seq<Restaurant>, kept: seq<Scored>)
    requires forall i, j :: 0 <= i < j < |ranked| ==> Outranks(ranked[i], ranked[j])
    requires kept == Where(Top(ranked, 3), (s: Scored) => Known(rs, s.key))
    ensures |kept| <= 3
    ensures forall i, j :: 0 <= i < j < |kept| ==> Outranks(kept[i], kept[j])
  {
    var top := Top(ranked, 3);
    assert forall i, j :: 0 <= i < j < |top| ==> Outranks(top[i], top[j]);
    WherePairwise(top, (s: Scored) => Known(rs, s.key), Outranks);
  }

  /** Two ranked restaurant items in order: different restaurants, the
      first earning at least as much, and on equal revenue the first seen
      first. */
  lemma LeaderPair(pool: seq<Order>, t: seq<Bucket>, a: Scored, b: Scored)
    requires DistinctKeys(t) && FirstSeenOrder(t, pool, ByRestaurant)
    requires FromBucket(pool, t, a) && FromBucket(pool, t, b)
    requires Outranks(a, b)
    ensures a.key != b.key && a.score >= b.score
    ensures a.score == b.score ==>
              FirstIndex(pool, ByRestaurant, a.key) < FirstIndex(pool, ByRestaurant, b.key)
  {
    if a.pos > b.pos {
      assert t[b.pos].key != t[a.pos].key;
    } else if a.pos < b.pos {
      assert t[a.pos].key != t[b.pos].key;
    }
  }

  /** A known restaurant with orders that is not listed was ranked fourth or
      lower, behind every item of the first three. */
  lemma Passed(pool: seq<Order>, t: seq<Bucket>, ranked: seq<Scored>, rs: seq<Restaurant>,
               kept: seq<Scored>, r: seq<Leader>, k: int)
    requires |ranked| == |t|
    requires multiset(ranked) == multiset(ScoreBuckets(t, true))
    requires forall i, j :: 0 <= i < j < |ranked| ==> Outranks(ranked[i], ranked[j])
    requires forall e :: e in ranked ==> FromBucket(pool, t, e)
    requires kept == Where(Top(ranked, 3), (s: Scored) => Known(rs, s.key))
    requires |r| == |kept|
    requires forall i :: 0 <= i < |kept| ==> r[i].id == kept[i].key && r[i].revenue == kept[i].score
    requires HasKey(t, k) && Known(rs, k) && k !in Ids(r)
    ensures |t| > 3
    ensures forall i :: 0 <= i < |r| ==> r[i].revenue >= Revenue(pool, ByRestaurant, k)
  {
    var p := Locate(t, ranked, k);
    assert FromBucket(pool, t, ranked[p]);
    KeptIfTop(ranked, rs, kept, r, p);
    KeptOutrank(ranked, rs, kept, p);
  }

  /** Where a bucket's key sits in a ranking of the buckets. */
  lemma Locate(t: seq<Bucket>, ranked: seq<Scored>, k: int) returns (p: nat)
    requires multiset(ranked) == multiset(ScoreBuckets(t, true))
    requires HasKey(t, k)
    ensures p < |ranked| && ranked[p].key == k
  {
    var xs := ScoreBuckets(t, true);
    var b :| 0 <= b < |t| && t[b].key == k;
    assert xs[b] in multiset(ranked);
    p :| 0 <= p < |ranked| && ranked[p] == xs[b];
  }

  /** Everything kept from the first three scores at least as much as any
      item ranked from the fourth place on. */
  lemma KeptOutrank(ranked: seq<Scored>, rs: seq<Restaurant>, kept: seq<Scored>, p: nat)
    requires forall i, j :: 0 <= i < j < |ranked| ==> Outranks(ranked[i], ranked[j])
    requires kept == Where(Top(ranked, 3), (s: Scored) => Known(rs, s.key))
    requires 3 <= p < |ranked|
    ensures forall i :: 0 <= i < |kept| ==> kept[i].score >= ranked[p].score
  {
    var top := Top(ranked, 3);
    forall i | 0 <= i < |kept|
      ensures kept[i].score >= ranked[p].score
    {
      assert kept[i] in top;
      var q :| 0 <= q < |top| && top[q] == kept[i];
      assert Outranks(ranked[q], ranked[p]);
    }
  }


  lemma KeptIfTop(ranked: seq<Scored>, rs: seq<Restaurant>, kept: seq<Scored>, r: seq<Leader>, p: int)
    requires kept == Where(Top(ranked, 3), (s: Scored) => Known(rs, s.key))
    requires |r| == |kept|
    requires forall i :: 0 <= i < |kept| ==> r[i].id == kept[i].key
    requires 0 <= p < |ranked| && Known(rs, ranked[p].key)
    ensures p < |Top(ranked, 3)| ==> ranked[p].key in Ids(r)
  {
    if p < |Top(ranked, 3)| {
      assert ranked[p] in Top(ranked, 3);
      assert ranked[p] in kept;
      var i :| 0 <= i < |kept| && kept[i] == ranked[p];
      assert Ids(r)[i] == ranked[p].key;
    }
  }

  /** When every restaurant with orders in the window is known, no slot is
      lost: the list holds three entries, or one per such restaurant. */
  lemma AllKnownFillsSlots(os: seq<Order>, rs: seq<Restaurant>, dates: Option<Window>)
    requires forall o :: o in Pool(os, dates) ==> Known(rs, o.restaurantId)
    ensures |TopRestaurants(os, rs, dates)| == Min(3, |Tally(Pool(os, dates), ByRestaurant)|)
  {
    var pool := Pool(os, dates);
    var t := Tally(pool, ByRestaurant);
    var ranked := Rank(ScoreBuckets(t, true));
    RankedFromBuckets(pool, t, ranked);
    TopAllKnown(pool, t, ranked, rs);
  }

  /** When every ordering restaurant is known, the lookup drops nothing. */
  lemma TopAllKnown(pool: seq<Order>, t: seq<Bucket>, ranked: seq<Scored>, rs: seq<Restaurant>)
    requires forall o :: o in pool ==> Known(rs, o.restaurantId)
    requires forall e :: e in ranked ==> FromBucket(pool, t, e)
    ensures Where(Top(ranked, 3), (s: Scored) => Known(rs, s.key)) == Top(ranked, 3)
  {
    var top := Top(ranked, 3);
    forall e | e in top
      ensures Known(rs, e.key)
    {
      assert e in ranked;
      var o := OrderWithKey(pool, ByRestaurant, e.key);
    }
    WhereAll(top, (s: Scored) => Known(rs, s.key));
  }

  /** An id with orders is listed exactly when a restaurant carries it and
      fewer than three ids rank above it. */
  lemma SlotsFacts(pool: seq<Order>, t: seq<Bucket>, ranked: seq<Scored>, rs: seq<Restaurant>,
                   kept: seq<Scored>, r: seq<Leader>)
    requires DistinctKeys(t) && FirstSeenOrder(t, pool, ByRestaurant) && Covers(t, pool, ByRestaurant)
    requires |ranked| == |t| && forall e :: e in ranked ==> FromBucket(pool, t, e)
    requires multiset(ranked) == multiset(ScoreBuckets(t, true))
    requires forall i, j :: 0 <= i < j < |ranked| ==> Outranks(ranked[i], ranked[j])
    requires kept == Where(Top(ranked, 3), (s: Scored) => Known(rs, s.key))
    requires |r| == |kept|
    requires forall i :: 0 <= i < |kept| ==> r[i].id == kept[i].key
    ensures forall k :: Count(pool, ByRestaurant, k) > 0 ==>
              (k in Ids(r) <==> Known(rs, k) && |Rivals(pool, k)| < 3)
  {
    forall k | Count(pool, ByRestaurant, k) > 0
      ensures k in Ids(r) <==> Known(rs, k) && |Rivals(pool, k)| < 3
    {
      var o := OrderWithKey(pool, ByRestaurant, k);
      CoveredKey(pool, t, o);
      var p := Locate(t, ranked, k);
      RivalsOfRanked(pool, t, ranked, p);
      if Known(rs, k) {
        KeptIfTop(ranked, rs, kept, r, p);
      }
      if k in Ids(r) {
        ListedWasTop(pool, t, ranked, rs, kept, r, p);
      }
    }
  }

  /** A listed id sits among the first three of the ranking. */
  lemma ListedWasTop(pool: seq<Order>, t: seq<Bucket>, ranked: seq<Scored>, rs: seq<Restaurant>,
                     kept: seq<Scored>, r: seq<Leader>, p: nat)
    requires DistinctKeys(t) && FirstSeenOrder(t, pool, ByRestaurant)
    requires forall e :: e in ranked ==> FromBucket(pool, t, e)
    requires forall i, j :: 0 <= i < j < |ranked| ==> Outranks(ranked[i], ranked[j])
    requires kept == Where(Top(ranked, 3), (s: Scored) => Known(rs, s.key))
    requires |r| == |kept|
    requires forall i :: 0 <= i < |kept| ==> r[i].id == kept[i].key
    requires p < |ranked| && ranked[p].key in Ids(r)
    ensures p < 3 && Known(rs, ranked[p].key)
  {
    var i :| 0 <= i < |r| && Ids(r)[i] == ranked[p].key;
    assert kept[i] in kept;
    var top := Top(ranked, 3);
    var q :| 0 <= q < |top| && top[q] == kept[i];
    if q < p {
      LeaderPair(pool, t, ranked[q], ranked[p]);
    } else if p < q {
      LeaderPair(pool, t, ranked[p], ranked[q]);
    }
  }

  /** The ids ranking above the item at place `p` are exactly the keys of
      the items before it, so there are `p` of them. */
  lemma RivalsOfRanked(pool: seq<Order>, t: seq<Bucket>, ranked: seq<Scored>, p: nat)
    requires DistinctKeys(t) && FirstSeenOrder(t, pool, ByRestaurant) && Covers(t, pool, ByRestaurant)
    requires forall e :: e in ranked ==> FromBucket(pool, t, e)
    requires multiset(ranked) == multiset(ScoreBuckets(t, true))
    requires forall i, j :: 0 <= i < j < |ranked| ==> Outranks(ranked[i], ranked[j])
    requires p < |ranked|
    ensures |Rivals(pool, ranked[p].key)| == p
  {
    var k := ranked[p].key;
    var before := Keys(ranked[..p]);
    forall x | x in Rivals(pool, k)
      ensures x in Sorting.ElemSet(before)
    {
      var o :| o in pool && RanksAbove(pool, o.restaurantId, k) && o.restaurantId == x;
      CoveredKey(pool, t, o);
      var q := Locate(t, ranked, x);
      if p < q {
        LeaderPair(pool, t, ranked[p], ranked[q]);
      }
      assert q != p;
      assert before[q] == x;
    }
    forall x | x in Sorting.ElemSet(before)
      ensures x in Rivals(pool, k)
    {
      var q :| 0 <= q < p && before[q] == x;
      LeaderPair(pool, t, ranked[q], ranked[p]);
      var o := OrderWithKey(pool, ByRestaurant, x);
    }
    assert Sorting.Distinct(before) by {
      forall i, j | 0 <= i < j < |before|
        ensures before[i] != before[j]
      {
        LeaderPair(pool, t, ranked[i], ranked[j]);
      }
    }
    Sorting.DistinctSize(before);
    assert Rivals(pool, k) == Sorting.ElemSet(before);
  }
}

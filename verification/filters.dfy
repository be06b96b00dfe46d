/** `apply_filters`: up to four optional predicates over orders, applied one
    after another. A range predicate is active only when both of its bounds
    are present in the query. */
module Filters {
  import opened Domain
  import opened Request
  import opened Selection

  /** The analytics query parameters (`None` when absent from `$_GET`). */
  datatype Query = Query(
    restaurantId: Option<Param>,
    startDate: Option<Param>, endDate: Option<Param>,
    minAmount: Option<Param>, maxAmount: Option<Param>,
    startHour: Option<Param>, endHour: Option<Param>)

  /** An inclusive window of instants. */
  datatype Window = Window(start: Moment, end: Moment)

  /** The active predicates, with their bounds already read from the query. */
  datatype Criteria = Criteria(
    restaurant: Option<int>,
    dates: Option<Window>,
    amounts: Option<(real, real)>,
    hours: Option<(int, int)>)

  predicate InWindow(w: Window, t: Moment) {
    Instant(w.start) <= Instant(t) <= Instant(w.end)
  }

  /** The date window both `apply_filters` and the top-restaurant ranking
      build: the start as parsed, the end moved to 23:59:59 of its day.
      `None` inside `Some` means a `DateTime` constructor threw. */
  function ReadWindow(startDate: Option<Param>, endDate: Option<Param>): (w: Option<Option<Window>>)
    ensures w.None? <==> startDate.Some? && endDate.Some? && (startDate.value.asDate.None? || endDate.value.asDate.None?)
    ensures w == Some(None) <==> startDate.None? || endDate.None?
    ensures w.Some? && w.value.Some? ==>
              w.value.value == Window(startDate.value.asDate.value, LastSecondOf(endDate.value.asDate.value))
  {
    if startDate.Some? && endDate.Some? then
      match (startDate.value.asDate, endDate.value.asDate)
      case (Some(s), Some(e)) => Some(Some(Window(s, LastSecondOf(e))))
      case _ => None
    else Some(None)
  }

  /** The bounds each predicate is built from, or `None` when building the
      date window throws. The restaurant filter needs a set and non-empty
      value; the ranges need both bounds set. */
  function ReadCriteria(q: Query): (c: Option<Criteria>)
    ensures c.None? <==> ReadWindow(q.startDate, q.endDate).None?
    ensures c.Some? ==> (c.value.restaurant.Some? <==> q.restaurantId.Some? && Truthy(q.restaurantId.value))
    ensures c.Some? ==> (c.value.amounts.Some? <==> q.minAmount.Some? && q.maxAmount.Some?)
    ensures c.Some? ==> (c.value.hours.Some? <==> q.startHour.Some? && q.endHour.Some?)
    ensures c.Some? ==> (c.value.dates.Some? <==> q.startDate.Some? && q.endDate.Some?)
    ensures c.Some? ==> c.value.dates == ReadWindow(q.startDate, q.endDate).value
    ensures c.Some? && c.value.restaurant.Some? ==> c.value.restaurant.value == q.restaurantId.value.asInt
    ensures c.Some? && c.value.amounts.Some? ==>
              c.value.amounts.value == (q.minAmount.value.asFloat, q.maxAmount.value.asFloat)
    ensures c.Some? && c.value.hours.Some? ==>
              c.value.hours.value == (q.startHour.value.asInt, q.endHour.value.asInt)
  {
    match ReadWindow(q.startDate, q.endDate)
    case None => None
    case Some(w) =>
      Some(Criteria(
        if q.restaurantId.Some? && Truthy(q.restaurantId.value) then Some(q.restaurantId.value.asInt) else None,
        w,
        if q.minAmount.Some? && q.maxAmount.Some? then Some((q.minAmount.value.asFloat, q.maxAmount.value.asFloat)) else None,
        if q.startHour.Some? && q.endHour.Some? then Some((q.startHour.value.asInt, q.endHour.value.asInt)) else None))
  }

  // ---- the four predicates; an inactive one accepts every order ----

  predicate ByRestaurantOk(c: Criteria, o: Order) {
    c.restaurant.None? || o.restaurantId == c.restaurant.value
  }

  predicate ByDateOk(c: Criteria, o: Order) {
    c.dates.None? || InWindow(c.dates.value, o.time)
  }

  predicate ByAmountOk(c: Criteria, o: Order) {
    c.amounts.None? || c.amounts.value.0 <= o.amount <= c.amounts.value.1
  }

  predicate ByHourOk(c: Criteria, o: Order) {
    c.hours.None? || c.hours.value.0 <= HourOf(o.time) <= c.hours.value.1
  }

  /** An order is retained exactly when every active predicate holds. */
  predicate Passes(c: Criteria, o: Order) {
    ByRestaurantOk(c, o) && ByDateOk(c, o) && ByAmountOk(c, o) && ByHourOk(c, o)
  }

  // ---- the four stages of `apply_filters`, each skipped when inactive ----

  function RestaurantStage(os: seq<Order>, c: Criteria): seq<Order> {
    if c.restaurant.Some? then Where(os, (o: Order) => o.restaurantId == c.restaurant.value) else os
  }

  function DateStage(os: seq<Order>, c: Criteria): seq<Order> {
    if c.dates.Some? then Where(os, (o: Order) => InWindow(c.dates.value, o.time)) else os
  }

  function AmountStage(os: seq<Order>, c: Criteria): seq<Order> {
    if c.amounts.Some? then Where(os, (o: Order) => c.amounts.value.0 <= o.amount <= c.amounts.value.1) else os
  }

  function HourStage(os: seq<Order>, c: Criteria): seq<Order> {
    if c.hours.Some? then Where(os, (o: Order) => c.hours.value.0 <= HourOf(o.time) <= c.hours.value.1) else os
  }

  /** The body of `apply_filters`: the stages one after another, in the
      source's order. The result keeps the input order and holds exactly
      the orders that satisfy every active predicate. */
  function ApplyFilters(os: seq<Order>, c: Criteria): (r: seq<Order>)
    ensures Subseq(r, os)
    ensures forall o :: o in r <==> o in os && Passes(c, o)
    ensures r == Where(os, (o: Order) => Passes(c, o))
  {
    StagesSelect(os, c);
    HourStage(AmountStage(DateStage(RestaurantStage(os, c), c), c), c)
  }

  /** Filtering stage after stage is the same as filtering once by the
      conjunction. */
  lemma StagesSelect(os: seq<Order>, c: Criteria)
    ensures HourStage(AmountStage(DateStage(RestaurantStage(os, c), c), c), c) == Where(os, (o: Order) => Passes(c, o))
  {
    var p1 := (o: Order) => ByRestaurantOk(c, o);
    var p2 := (o: Order) => ByRestaurantOk(c, o) && ByDateOk(c, o);
    var p3 := (o: Order) => ByRestaurantOk(c, o) && ByDateOk(c, o) && ByAmountOk(c, o);
    var p4 := (o: Order) => Passes(c, o);
    var yes := (o: Order) => true;
    var a := RestaurantStage(os, c);
    assert a == Where(os, p1) by {
      WhereAll(os, yes);
      if c.restaurant.None? {
        WhereAll(os, p1);
      } else {
        WhereWhere(os, yes, (o: Order) => o.restaurantId == c.restaurant.value, p1);
      }
    }
    var b := DateStage(a, c);
    assert b == Where(os, p2) by {
      if c.dates.None? {
        WhereAll(a, yes);
        WhereWhere(os, p1, yes, p2);
      } else {
        WhereWhere(os, p1, (o: Order) => InWindow(c.dates.value, o.time), p2);
      }
    }
    var d := AmountStage(b, c);
    assert d == Where(os, p3) by {
      if c.amounts.None? {
        WhereAll(b, yes);
        WhereWhere(os, p2, yes, p3);
      } else {
        WhereWhere(os, p2, (o: Order) => c.amounts.value.0 <= o.amount <= c.amounts.value.1, p3);
      }
    }
    if c.hours.None? {
      WhereAll(d, yes);
      WhereWhere(os, p3, yes, p4);
    } else {
      WhereWhere(os, p3, (o: Order) => c.hours.value.0 <= HourOf(o.time) <= c.hours.value.1, p4);
    }
  }

  /** A range given only one bound filters nothing. */
  lemma OneBoundIsNoBound(os: seq<Order>, q: Query, c: Criteria)
    requires ReadCriteria(q) == Some(c)
    requires q.restaurantId.None?
    requires q.startDate.None? || q.endDate.None?
    requires q.minAmount.None? || q.maxAmount.None?
    requires q.startHour.None? || q.endHour.None?
    ensures ApplyFilters(os, c) == os
  {
    StagesSelect(os, c);
    WhereAll(os, (o: Order) => Passes(c, o));
  }

  /** Because the window ends at 23:59:59, an order passes the date
      predicate exactly when it is not before the start and its calendar
      day is not after the end date's day. */
  lemma WindowIsWholeDays(startDate: Param, endDate: Param, t: Moment)
    requires startDate.asDate.Some? && endDate.asDate.Some?
    ensures InWindow(ReadWindow(Some(startDate), Some(endDate)).value.value, t) <==>
              Instant(startDate.asDate.value) <= Instant(t) && t.day <= endDate.asDate.value.day
  {
    LastSecondBound(t, endDate.asDate.value);
  }
}

/** The records the analytics back end works on: orders and restaurants,
    with each order's timestamp already broken down into the fields the
    computations read (calendar day, second of day, ISO week). */
module Domain {

  datatype Option<T> = None | Some(value: T)

  const SecondsPerDay: int := 86400
  const SecondsPerHour: int := 3600

  type SecondOfDay = s: int | 0 <= s < 86400
  type Hour = h: int | 0 <= h < 24
  type Weekday = d: int | 0 <= d < 7
  type IsoWeek = w: int | 1 <= w <= 53 witness 1

  /** A wall-clock timestamp in the zone the data was stored in (no time zone
      conversion happens anywhere): `day` counts days from 1970-01-01. */
  datatype Moment = Moment(day: int, second: SecondOfDay)

  /** Seconds since 1970-01-01 00:00:00; the order in which PHP compares two
      DateTime values. */
  function Instant(m: Moment): int {
    m.day * SecondsPerDay + m.second
  }

  /** PHP's `format('G')` / `format('H')`: the hour of day. */
  function HourOf(m: Moment): Hour {
    m.second / SecondsPerHour
  }

  /** PHP's `format('w')`: 0 = Sunday .. 6 = Saturday; 1970-01-01 was a Thursday. */
  function WeekdayOf(m: Moment): Weekday {
    (m.day + 4) % 7
  }

  /** `setTime(23, 59, 59)`: the last second of the same calendar day. */
  function LastSecondOf(m: Moment): Moment {
    Moment(m.day, SecondsPerDay - 1)
  }

  /** An order as stored; `week` is the ISO-8601 week number of its date
      (PHP's `format('W')`). */
  datatype Order = Order(id: int, restaurantId: int, time: Moment, week: IsoWeek, amount: real)

  datatype Restaurant = Restaurant(id: int, name: string, cuisine: string, location: string)

  /** Comparing instants is comparing (day, second) lexicographically. */
  lemma InstantOrder(a: Moment, b: Moment)
    ensures Instant(a) <= Instant(b) <==> a.day < b.day || (a.day == b.day && a.second <= b.second)
  {
    if a.day < b.day {
      assert Instant(a) < (a.day + 1) * SecondsPerDay <= Instant(b);
    } else if a.day > b.day {
      assert Instant(b) < (b.day + 1) * SecondsPerDay <= Instant(a);
    }
  }

  /** Forcing the end of a range to 23:59:59 makes it inclusive of the whole
      calendar day: an instant is no later than it exactly when its day is no
      later than that day. */
  lemma LastSecondBound(t: Moment, e: Moment)
    ensures Instant(t) <= Instant(LastSecondOf(e)) <==> t.day <= e.day
  {
    InstantOrder(t, LastSecondOf(e));
  }
}

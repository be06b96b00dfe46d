/** The two range checks the analytics endpoint runs before filtering. Each
    returns the first problem it finds, as a fixed message, or `None`. */
module Validation {
  import opened Domain
  import opened Request

  function NotNumeric(field: string): string {
    field + " must be numeric"
  }

  function Inverted(field: string): string {
    "Minimum " + field + " cannot be greater than maximum"
  }

  const HourBounds: string := "Hour must be between 0 and 23"
  const InvalidDate: string := "Invalid date format"
  const StartAfterEnd: string := "Start date cannot be after end date"
  const InFuture: string := "Dates cannot be in the future"

  /** The bounds pass every numeric check: both numeric, in order, and for
      the hour field inside 0..23. */
  predicate NumericRangeOk(min: Param, max: Param, field: string) {
    && min.numeric && max.numeric
    && min.asFloat <= max.asFloat
    && (field == "hour" ==> 0.0 <= min.asFloat && max.asFloat <= 23.0)
  }

  /** `validate_numeric_range`: nothing is checked unless both bounds are
      present; then non-numeric input is reported first, an inverted range
      second and, for hours only, a bound outside 0..23 last. */
  function ValidateNumericRange(min: Option<Param>, max: Option<Param>, field: string): (e: Option<string>)
    ensures min.None? || max.None? ==> e.None?
    ensures min.Some? && max.Some? ==>
              (e.None? <==> NumericRangeOk(min.value, max.value, field))
    ensures min.Some? && max.Some? && !(min.value.numeric && max.value.numeric) ==>
              e == Some(NotNumeric(field))
    ensures min.Some? && max.Some? && min.value.numeric && max.value.numeric && min.value.asFloat > max.value.asFloat ==>
              e == Some(Inverted(field))
    ensures e == Some(HourBounds) <==>
              min.Some? && max.Some? && field == "hour" && min.value.numeric && max.value.numeric &&
              min.value.asFloat <= max.value.asFloat && (min.value.asFloat < 0.0 || max.value.asFloat > 23.0)
  {
    NumericMessagesDistinct(field);
    if min.Some? && max.Some? then
      if !min.value.numeric || !max.value.numeric then Some(NotNumeric(field))
      else if min.value.asFloat > max.value.asFloat then Some(Inverted(field))
      else if field == "hour" && (min.value.asFloat < 0.0 || max.value.asFloat > 23.0) then Some(HourBounds)
      else None
    else None
  }

  /** The three numeric messages are told apart, whatever the field name. */
  lemma NumericMessagesDistinct(field: string)
    ensures NotNumeric(field) != Inverted(field)
    ensures NotNumeric(field) != HourBounds
    ensures Inverted(field) != HourBounds
  {
    assert |NotNumeric(field)| == |field| + 16;
    assert |Inverted(field)| == |field| + 39;
    var n := NotNumeric(field);
    var v := Inverted(field);
    assert n[|n| - 1] == 'c';
    assert v[|v| - 1] == 'm';
    assert HourBounds[|HourBounds| - 1] == '3';
  }

  /** Once an hour range has passed validation, its `(int)` readings are
      ordered hours of the day, so the hour filter built from them keeps
      exactly the hours between them. */
  lemma ValidatedHourRange(min: Param, max: Param)
    requires Coherent(min) && Coherent(max)
    requires ValidateNumericRange(Some(min), Some(max), "hour").None?
    ensures 0 <= min.asInt <= max.asInt <= 23
  {
    TruncMonotone(min.asFloat, max.asFloat);
    TruncMonotone(0.0, min.asFloat);
    TruncMonotone(max.asFloat, 23.0);
  }

  /** `validate_date_range`: nothing is checked unless both dates are truthy
      strings; then an unparsable date is reported first, a start after the
      end second, and a date after `now` last. */
  function ValidateDateRange(start: Option<Param>, end: Option<Param>, now: Moment): (e: Option<string>)
    ensures !(start.Some? && end.Some? && Truthy(start.value) && Truthy(end.value)) ==> e.None?
    ensures start.Some? && end.Some? && Truthy(start.value) && Truthy(end.value) ==>
              (e.None? <==> DateRangeOk(start.value, end.value, now))
    ensures e == Some(InvalidDate) <==>
              start.Some? && end.Some? && Truthy(start.value) && Truthy(end.value) &&
              (start.value.asDate.None? || end.value.asDate.None?)
    ensures e == Some(StartAfterEnd) <==>
              start.Some? && end.Some? && Truthy(start.value) && Truthy(end.value) &&
              start.value.asDate.Some? && end.value.asDate.Some? &&
              Instant(start.value.asDate.value) > Instant(end.value.asDate.value)
    ensures e == Some(InFuture) <==>
              start.Some? && end.Some? && Truthy(start.value) && Truthy(end.value) &&
              start.value.asDate.Some? && end.value.asDate.Some? &&
              Instant(start.value.asDate.value) <= Instant(end.value.asDate.value) &&
              (Instant(start.value.asDate.value) > Instant(now) || Instant(end.value.asDate.value) > Instant(now))
  {
    if start.Some? && end.Some? && Truthy(start.value) && Truthy(end.value) then
      match (start.value.asDate, end.value.asDate)
      case (Some(s), Some(t)) =>
        if Instant(s) > Instant(t) then Some(StartAfterEnd)
        else if Instant(s) > Instant(now) || Instant(t) > Instant(now) then Some(InFuture)
        else None
      case _ => Some(InvalidDate)
    else None
  }

  /** Both dates parse, the start is not after the end, and neither is after `now`. */
  predicate DateRangeOk(start: Param, end: Param, now: Moment) {
    && start.asDate.Some? && end.asDate.Some?
    && Instant(start.asDate.value) <= Instant(end.asDate.value) <= Instant(now)
  }

  /** An inverted range is reported as inverted even when it also lies in
      the future: the order check comes first. */
  lemma InvertedBeatsFuture(start: Param, end: Param, now: Moment)
    requires Truthy(start) && Truthy(end)
    requires start.asDate.Some? && end.asDate.Some?
    requires Instant(start.asDate.value) > Instant(end.asDate.value)
    ensures ValidateDateRange(Some(start), Some(end), now) == Some(StartAfterEnd)
  {
  }
}

# Restaurant analytics API — a Dafny model

The back end (`api/index.php`) serves four JSON endpoints over two in-memory
collections, the restaurants and their orders:

- `restaurants`: the restaurant list. It supports a case-insensitive name
  search, exact cuisine and location filters, a sort on one field (ascending,
  or descending when `order` is `desc`) and page-based slicing with a `meta`
  block.
- `analytics`: validates the date, amount and hour ranges, then filters the
  orders by restaurant, date window, amount range and hour range. It reports:
  - a summary (total revenue, order count, average order value);
  - one entry per date with its order count, revenue and busiest hour;
  - the three busiest hours of every weekday;
  - the three restaurants with the most revenue, where only the date window
    applies.
- `trends`: the orders within 30 days of now, grouped by hour of day, by
  date and by ISO week.
- `statistics`: the three busiest hours of each weekday that has orders, and
  each restaurant's order count, revenue and average.

The model works on orders whose timestamps are already broken down. Each
order carries its day number, its second of the day and its ISO week.
`Domain.HourOf` and `Domain.WeekdayOf` derive the hour and the weekday.
Amounts are exact reals.

A query-string value is a `Request.Param`. It holds the raw text plus the
readings PHP gives it: `is_numeric`, the `(float)` and `(int)` casts, and the
moment `new DateTime(...)` yields, or none when the constructor throws. The
caller supplies these readings, and "now" is an explicit parameter.

Every grouping `foreach` is one function, `Tallies.Tally`. It produces buckets
in the order their keys first occur, and `Tallies.IsTally` says what such a
tally is. PHP 8's stable `arsort` and `usort` are modelled the same way: each
item is tagged with its original position and sorted with a generic insertion
sort (`Sorting.Sort`), which breaks ties on that position.

Modules:

- `Domain`: orders, restaurants and moments.
- `Text`: hour labels, `strtolower`, `strpos` and string `<=>`.
- `Sorting`, `Ranking`, `Selection`: the sort, descending rankings, and
  `array_filter`.
- `Tallies`: the grouping fold.
- `Request`, `Validation`, `Filters`: query values, the two validators and
  `apply_filters`.
- `Hours`: histograms, the daily peak, and the weekly top three.
- `Leaders`: `calculate_top_restaurants`.
- `Analytics`, `Trends`, `Statistics`, `Listing`: the four handlers.

Behaviour of the code worth knowing:

- Weekly peak hours in `analytics` count the filtered orders (lines
  165-187), not the whole order set.
- The top-restaurant list can hold ties of equal revenue. Ties keep the order
  in which the restaurants first appear; they are not strictly descending.
- Daily entries never carry "No orders": a date only gets an entry once it
  has an order (`Analytics.BusyDayHasPeak`).
- Ties between hours are broken differently in the two handlers:
  - in `analytics`, the lower hour wins, because the histogram's keys run
    0..23;
  - in `statistics`, the hour seen first among that weekday's orders wins.
- Date validation only runs when both dates are truthy. An empty string or
  `"0"` skips it, and `apply_filters` then calls `new DateTime` on them.
  `DateTime("")` is "now". A date that fails to parse at that point throws,
  which is a 500 (`Analytics.ServerErrorNeedsFalsyDate`).
- `calculate_top_restaurants` parses the two dates again. The model hands it
  the window already built, since both parses read the same text.

## Model

| member | source | states |
|---|---|---|
| Domain.LastSecondBound | api/index.php:252 | after `setTime(23, 59, 59)`, an instant is no later than the end exactly when its calendar day is no later than the end's day |
| Domain.InstantOrder | api/index.php:256 | comparing two DateTimes is comparing (day, second) lexicographically |
| Text.Pad2 | api/index.php:194 | `%02d` of a number below 100 is two decimal digit characters that read back as the number |
| Text.HourLabel | api/index.php:194 | the `%02d:00 - %02d:00` label is 13 characters, and its upper hour is the next hour modulo 24 |
| Text.HourLabelRoundTrip | api/index.php:194 | the `%02d:00 - %02d:00` label of every hour reads back as that hour |
| Text.HourLabelInjective | api/index.php:211 | two hours share a label only when they are the same hour |
| Text.LastHourWraps | api/index.php:194 | hour 23 is labelled "23:00 - 00:00": the upper bound wraps at midnight |
| Text.NoOrdersIsNotAnHour | api/index.php:196 | "No orders" is never an hour label |
| Text.ToLower | api/index.php:62-64 | `strtolower` keeps the length and lower-cases each ASCII letter in place |
| Text.ContainsAt | api/index.php:64 | `strpos(...) !== false` holds exactly when the needle occurs at some offset of the haystack |
| Text.LexLessStrictTotal | api/index.php:91 | byte-wise `<=>` on strings is irreflexive, transitive and total |
| Sorting.Sort | api/index.php:89 | the sort returns a permutation of its input that is ordered under any strict weak order |
| Sorting.PermutationKeepsDistinct | api/index.php:89 | reordering distinct items keeps them distinct |
| Ranking.Rank | api/index.php:205 | stable `arsort`: a permutation in which each item has a higher score than every later one, or an equal score and an earlier original position |
| Ranking.Top | api/index.php:396 | `array_slice($a, 0, n)` is the first min(n, length) entries of the ranking |
| Ranking.TopOutranksRest | api/index.php:396 | what `array_slice(..., 0, n)` leaves out of a ranking is outranked by all n items it keeps |
| Ranking.TakePositiveIsPrefix | api/index.php:209-213 | on a ranking, the loop that takes hours with a positive count while fewer than three are taken takes the leading positive run, at most three |
| Ranking.PositiveIsLeading | api/index.php:209-213 | in a descending ranking, every positive item lies inside the leading positive run |
| Selection.Where | api/index.php:63-65 | `array_filter` keeps the input order and keeps exactly the elements the callback accepts, with their multiplicities |
| Selection.WhereWhere | api/index.php:241-281 | two filters in a row are one filter by the conjunction |
| Selection.WhereAll | api/index.php:241-281 | a filter that accepts every element returns the input unchanged |
| Tallies.Tally | api/index.php:165-184 | the grouping fold gives one bucket per key that occurs, in first-appearance order, each holding its key's exact count and revenue; the buckets sum to the order count and total amount |
| Tallies.TallyKeys | api/index.php:171-178 | a key has a bucket exactly when some order has that key |
| Tallies.SumsPermutation | api/index.php:219 | reordering buckets keeps their order and revenue totals |
| Tallies.FirstIndexFound | api/index.php:171 | a key is first seen inside the orders exactly when it has orders |
| Request.Trunc | api/index.php:272-273 | `(int)` truncates toward zero |
| Validation.ValidateNumericRange | api/index.php:439-454 | no error unless both bounds are given; with both, there is no error exactly when both are numeric, min <= max, and for hours both lie in 0..23; a non-numeric bound gives "<field> must be numeric", an inverted range gives "Minimum <field> cannot be greater than maximum", and "Hour must be between 0 and 23" comes exactly from an ordered hour range outside 0..23 |
| Validation.NumericMessagesDistinct | api/index.php:441-451 | the three numeric-range messages differ, for any field name |
| Validation.ValidatedHourRange | api/index.php:439-454 | an hour range that passes validation casts to integers 0 <= start <= end <= 23 |
| Validation.ValidateDateRange | api/index.php:419-437 | no error unless both dates are truthy; then no error exactly when both parse, start <= end and neither is after now; "Invalid date format" exactly when a truthy date fails to parse; with both truthy dates parsed, "Start date cannot be after end date" exactly when start > end, and "Dates cannot be in the future" exactly when start <= end and either date is after now |
| Validation.InvertedBeatsFuture | api/index.php:427-432 | an inverted range reports the inversion even when a date is also in the future |
| Filters.ReadWindow | api/index.php:250-252 | no window unless both dates are given; with both, a parse failure throws, else the window runs from the start to 23:59:59 of the end date |
| Filters.ReadCriteria | api/index.php:241-273 | the restaurant predicate is active exactly when the id is set and non-empty, and compares with the id's `(int)` reading; each range predicate is active exactly when both of its bounds are set, the amounts bounded by the `(float)` readings and the hours by the `(int)` readings; the date window is the one `ReadWindow` builds; the whole read fails exactly when the window read throws |
| Filters.ApplyFilters | api/index.php:238-282 | the filtered orders are the `array_filter` of the input by the conjunction of the active predicates: input order and multiplicities kept, and exactly the orders that satisfy every active predicate |
| Filters.StagesSelect | api/index.php:238-282 | the four stages, applied in the source's order, equal a single filter by the conjunction |
| Filters.OneBoundIsNoBound | api/index.php:242-270 | a query that gives every range only one bound, and no restaurant id, filters nothing |
| Filters.WindowIsWholeDays | api/index.php:250-257 | an order passes the date predicate exactly when it is not before the start and its calendar day is not after the end date's day |
| Hours.Histogram | api/index.php:162-183 | the 24 slots of `hourly_orders` hold each hour's order count |
| Hours.MaxOf | api/index.php:191 | `max` is an upper bound of the histogram that some slot attains |
| Hours.SearchFirst | api/index.php:193 | `array_search` gives the first slot holding the value, or "not found" when none does |
| Hours.PeakLabel | api/index.php:189-199 | "No orders" exactly when all 24 slots are zero; otherwise the label of the lowest hour with the largest count |
| Hours.TopHours | api/index.php:201-216 | at most three distinct hours, each with orders, each beating the next (a larger count, or an equal count and a lower hour); an hour with orders is missing only when three hours that all beat it are listed |
| Hours.TopHourLabels | api/index.php:201-216 | the weekday's labels parse back to hours that form that top three |
| Leaders.Lookup | api/index.php:312-315 | the restaurant found carries the id; nothing is found exactly when no restaurant has the id |
| Leaders.LookupFirst | api/index.php:312-317 | the restaurant found is the first one listed with the id |
| Leaders.Pool | api/index.php:288-296 | the ranking sees exactly the orders in the date window, or all orders without one |
| Leaders.TopRestaurants | api/index.php:284-325 | at most three entries, each a known restaurant with orders in the window, its name and exact revenue there; distinct, non-increasing revenue, ties in first-appearance order; an id with orders in the window is listed exactly when a restaurant carries it and fewer than three ids with orders, known or not, rank above it (more revenue, or the same and seen first), so an id without a restaurant still uses up a slot; a known restaurant with orders is missing only when more than three restaurants have orders and every listed one earned at least as much |
| Leaders.AllKnownFillsSlots | api/index.php:308-322 | when every ordering restaurant is known, the list has min(3, number of restaurants with orders) entries |
| Analytics.Summarize | api/index.php:221-226 | totals are the order count and amount sum; the average times the count is the revenue, or 0 without orders |
| Analytics.ByDay | api/index.php:218-219 | `ksort` returns the same buckets with strictly increasing date keys |
| Analytics.BusyDayHasPeak | api/index.php:189-197 | a date with an order always has a busiest hour, so the "No orders" branch is never taken |
| Analytics.DailyTrends | api/index.php:159-219 | one entry per date with orders, in increasing date order, with that date's exact count and revenue and the label of its lowest busiest hour; the entries account for every order and its amount |
| Analytics.WeeklyPeaks | api/index.php:201-216 | seven entries, Sunday first; entry d labels the top three hours of weekday d among the filtered orders |
| Analytics.HandleAnalytics | api/index.php:120-234 | a 400 exactly when a validation step fails, with the first failing step's message (dates, then amounts, then hours); a 500 exactly when validation passes but a date does not parse for the filter; otherwise the summary, the daily entries and the weekly peaks are computed from the filtered orders, while the top restaurants see all orders with only the date window applied |
| Analytics.FirstError | api/index.php:122-152 | the checks run dates, then amounts, then hours: no error exactly when all three pass, otherwise the first failing check's message |
| Analytics.ServerErrorNeedsFalsyDate | api/index.php:120-157 | a 500 needs both dates present, one of them "" or "0", and one that does not parse |
| Analytics.HourFilterAfterValidation | api/index.php:143-152 | after hour validation succeeds, the hour filter uses integer bounds with 0 <= start <= end <= 23 |
| Trends.WithinWindow | api/index.php:330-332 | an order is recent when the whole days between it and now, in either direction, are at most 30 |
| Trends.WindowSpan | api/index.php:328-333 | an order is recent exactly when it lies less than 31 days before or after now |
| Trends.Recent | api/index.php:328-333 | the recent orders keep their order and are exactly the orders within 30 whole days of now |
| Trends.HandleTrends | api/index.php:327-372 | hourly, daily and weekly groupings are each a tally of the recent orders, so each accounts for every recent order and its amount |
| Trends.TrendBounds | api/index.php:338-365 | there are at most 24 hourly groups and at most 53 weekly groups |
| Statistics.BusiestHours | api/index.php:394-396 | at most three distinct hours with orders, ranked by count, with ties going to the hour seen first; an hour with orders is missing only behind three that beat it |
| Statistics.PeakHours | api/index.php:381-397 | one entry per weekday with orders, in first-appearance order, each holding the busiest hours of that weekday's orders |
| Statistics.SelectedSums | api/index.php:401-406 | filtering one restaurant's orders and summing them gives that restaurant's count and revenue |
| Statistics.Perf | api/index.php:400-414 | a restaurant's entry holds its exact count and revenue over all orders |
| Statistics.Figures | api/index.php:408-413 | the average times the count is the revenue, or 0 without orders |
| Statistics.Put | api/index.php:408 | assigning to `[$id]` overwrites the entry with that id in place, or appends one |
| Statistics.LastWith | api/index.php:400-414 | the restaurant found carries the id and no later restaurant in the list has it; none exactly when no restaurant has it |
| Statistics.Performances | api/index.php:400-415 | one entry per distinct restaurant id: entries have distinct ids, every entry's id belongs to some restaurant, and every restaurant's id has an entry; never more entries than restaurants |
| Statistics.PerformancesFirstSeen | api/index.php:400-415 | the entries come in the order in which their ids are first listed, since a new id is appended and a repeated one overwritten in place |
| Statistics.PerformancesFromLast | api/index.php:400-415 | each entry holds the figures of the last restaurant listed with its id, since a later restaurant with the same id overwrites the entry |
| Statistics.UniqueIdsOneEach | api/index.php:400-415 | with unique ids, entry i is restaurant i's figures |
| Statistics.HandleStatistics | api/index.php:374-417 | the peak hours are computed from all orders, unfiltered, and the performance entries are those of the restaurant list, one per id, never more than restaurants |
| Listing.Select | api/index.php:60-82 | the filtered list keeps the list order and holds exactly the restaurants matching every given filter |
| Listing.StagesSelect | api/index.php:60-82 | the three filters in a row are one filter by the conjunction |
| Listing.EmptySearchKeepsAll | api/index.php:61-64 | an empty search term matches every name |
| Listing.SearchIgnoresCase | api/index.php:62-64 | lower-casing the term first changes nothing |
| Listing.FieldLess | api/index.php:91-93 | `$a[$f] <=> $b[$f]` is negative: ids by value, the text fields byte-wise, and a missing field never |
| Listing.BeforeIsStrictWeak | api/index.php:89-95 | the comparator with the stable tie-break is a strict weak order in both directions |
| Listing.SortPlaced | api/index.php:85-96 | the sort rearranges the list, using each source index once; every entry comes before each later one, by the comparator or on a tie by source order |
| Listing.Descending | api/index.php:87 | the sort is descending exactly when `order` is given and lower-cases to "desc" |
| Listing.Arrange | api/index.php:85-96 | a permutation of the filtered list: unchanged without `sortBy`; with it, no entry is out of order on the field in the requested direction, and entries the comparator ties keep their filtered order |
| Listing.MissingFieldKeepsOrder | api/index.php:89-95 | sorting on a field the restaurants do not have keeps the filtered order |
| Listing.TotalPages | api/index.php:104 | `ceil(total / perPage)`: t - 1 < total / perPage <= t |
| Listing.Slice | api/index.php:107 | `array_slice` with non-negative arguments gives at most `length` entries, read from `offset` on |
| Listing.PageRange | api/index.php:105-107 | index i lies in the range of page p exactly when p = i / size + 1 |
| Listing.PageOfIndex | api/index.php:105-107 | every entry appears on page i / size + 1 at place i % size |
| Listing.PagesCoverList | api/index.php:103-107 | pages 1 to `total_pages`, laid end to end, give back the whole list |
| Listing.NonEmptyPages | api/index.php:103-107 | a page from 1 on is non-empty exactly when it is within the page count |
| Listing.HandleRestaurants | api/index.php:57-118 | a 500 exactly when the page size is 0, and never a 400; otherwise the meta block holds page, size, filtered count and page count, and the data is the requested page of the filtered, sorted list |
| Listing.PageNumber | api/index.php:99 | the page is the `(int)` reading of `page`, or 1 when absent |
| Listing.PageSize | api/index.php:100 | the page size is the `(int)` reading of `per_page`, or 10 when absent |
| Listing.ListedEntries | api/index.php:99-110 | with page and size of at least 1, the data is at most one page, read from offset (page-1)*size of the filtered, sorted list |

## Left out

- Routing, the response cache, CORS headers, file loading and the JSON
  encoding (lines 1-55, 457-474) are I/O. The handlers return their results
  as data.
- Parsing is not modelled: `new DateTime`, `format(...)`, `is_numeric` and
  the casts become readings supplied with each value. Time zones and
  daylight-saving shifts are also out, including in the 30-day `diff` of
  `trends`.
- Trends.WithinWindow: compares every order with one fixed `now`. The code
  builds a new `DateTime()` for each order inside the filter, so a run that
  crosses a second boundary may compare orders with slightly different
  moments; the model takes a single clock reading as a parameter.
- Rounding to two decimals (`round(..., 2)`) is a presentation step. Amounts
  are exact reals, and floating-point error is not modelled.
- Listing.FieldLess: compares strings byte-wise. PHP 8 compares two numeric
  strings by value, and that case is not modelled.
- Listing.HandleRestaurants: does not model PHP integer overflow in
  `($page - 1) * $per_page`. `total_pages` is the integer value of the float
  `ceil` returns.
- Statistics.BusiestHours: returns the hours as integers. PHP keeps the keys
  "00".."09" as strings and turns "10".."23" into integers, so the JSON mixes
  the two.
- Statistics.PeakHours and Statistics.Performances: the keyed PHP arrays
  become sequences in insertion order.
- `growth_metrics` is always empty, so it has no field.
- Leaders.TopRestaurants: each leader also carries the restaurant id, which
  the response does not show.
- Strict comparisons (`===`) on restaurant ids assume both sides are
  integers, as the data provides.
- The frontend is React UI and fetch logic, and is not part of this model.

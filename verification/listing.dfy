/** `handle_restaurants`: the restaurant list with an optional name search,
    exact cuisine and location filters, a sort on one field, and page-based
    slicing. */
module Listing {
  import opened Domain
  import opened Text
  import opened Request
  import opened Selection
  import Sorting

  /** The listing's query string; each field is `None` when `isset` fails. */
  datatype ListQuery = ListQuery(
    search: Option<string>, cuisine: Option<string>, location: Option<string>,
    sortBy: Option<string>, order: Option<string>,
    page: Option<Param>, perPage: Option<Param>)

  // ---- filtering ----

  /** The search term occurs in the name, both lower-cased. */
  predicate NameMatches(x: Restaurant, term: string) {
    Contains(ToLower(x.name), ToLower(term))
  }

  predicate SearchOk(q: ListQuery, x: Restaurant) {
    q.search.None? || NameMatches(x, q.search.value)
  }

  predicate CuisineOk(q: ListQuery, x: Restaurant) {
    q.cuisine.None? || x.cuisine == q.cuisine.value
  }

  predicate LocationOk(q: ListQuery, x: Restaurant) {
    q.location.None? || x.location == q.location.value
  }

  predicate Selected(q: ListQuery, x: Restaurant) {
    SearchOk(q, x) && CuisineOk(q, x) && LocationOk(q, x)
  }

  function SearchStage(rs: seq<Restaurant>, q: ListQuery): seq<Restaurant> {
    if q.search.Some? then Where(rs, (x: Restaurant) => NameMatches(x, q.search.value)) else rs
  }

  function CuisineStage(rs: seq<Restaurant>, q: ListQuery): seq<Restaurant> {
    if q.cuisine.Some? then Where(rs, (x: Restaurant) => x.cuisine == q.cuisine.value) else rs
  }

  function LocationStage(rs: seq<Restaurant>, q: ListQuery): seq<Restaurant> {
    if q.location.Some? then Where(rs, (x: Restaurant) => x.location == q.location.value) else rs
  }

  /** The three `array_filter` calls in the source's order: the result keeps
      the list order and holds exactly the restaurants every given filter
      accepts. */
  function Select(rs: seq<Restaurant>, q: ListQuery): (r: seq<Restaurant>)
    ensures Subseq(r, rs)
    ensures forall x :: x in r <==> x in rs && Selected(q, x)
  {
    StagesSelect(rs, q);
    LocationStage(CuisineStage(SearchStage(rs, q), q), q)
  }

  lemma StagesSelect(rs: seq<Restaurant>, q: ListQuery)
    ensures LocationStage(CuisineStage(SearchStage(rs, q), q), q) == Where(rs, (x: Restaurant) => Selected(q, x))
  {
    var p1 := (x: Restaurant) => SearchOk(q, x);
    var p2 := (x: Restaurant) => SearchOk(q, x) && CuisineOk(q, x);
    var p3 := (x: Restaurant) => Selected(q, x);
    var yes := (x: Restaurant) => true;
    var a := SearchStage(rs, q);
    assert a == Where(rs, p1) by {
      WhereAll(rs, yes);
      if q.search.None? {
        WhereAll(rs, p1);
      } else {
        WhereWhere(rs, yes, (x: Restaurant) => NameMatches(x, q.search.value), p1);
      }
    }
    var b := CuisineStage(a, q);
    assert b == Where(rs, p2) by {
      if q.cuisine.None? {
        WhereAll(a, yes);
        WhereWhere(rs, p1, yes, p2);
      } else {
        WhereWhere(rs, p1, (x: Restaurant) => x.cuisine == q.cuisine.value, p2);
      }
    }
    if q.location.None? {
      WhereAll(b, yes);
      WhereWhere(rs, p2, yes, p3);
    } else {
      WhereWhere(rs, p2, (x: Restaurant) => x.location == q.location.value, p3);
    }
  }

  /** An empty search term matches every name: PHP 8 finds "" at offset 0. */
  lemma EmptySearchKeepsAll(x: Restaurant)
    ensures NameMatches(x, "")
  {
    ContainsAt(ToLower(x.name), "");
    assert OccursAt(ToLower(x.name), "", 0);
  }

  /** The search ignores the case of ASCII letters on both sides. */
  lemma SearchIgnoresCase(x: Restaurant, term: string)
    ensures NameMatches(x, term) <==> NameMatches(x, ToLower(term))
  {
    assert ToLower(ToLower(term)) == ToLower(term);
  }

  // ---- sorting ----

  /** The field `$a[$sortBy]` reads; any other name reads `null` on both
      sides, and `null <=> null` is 0. */
  datatype Field = ById | ByName | ByCuisine | ByLocation | Missing

  function FieldNamed(name: string): Field {
    if name == "id" then ById
    else if name == "name" then ByName
    else if name == "cuisine" then ByCuisine
    else if name == "location" then ByLocation
    else Missing
  }

  /** `$a[$f] <=> $b[$f]` is negative: integers by value, strings byte-wise. */
  predicate FieldLess(f: Field, a: Restaurant, b: Restaurant) {
    match f
    case ById => a.id < b.id
    case ByName => LexLess(a.name, b.name)
    case ByCuisine => LexLess(a.cuisine, b.cuisine)
    case ByLocation => LexLess(a.location, b.location)
    case Missing => false
  }

  /** A restaurant with its index in the filtered list. */
  datatype Placed = Placed(pos: nat, item: Restaurant)

  /** The comparator's verdict, with the stable sort's tie-break made
      explicit: `a` goes first when the comparator says so, or when the
      comparator sees a tie and `a` came first. */
  predicate Before(f: Field, desc: bool, a: Placed, b: Placed) {
    var less := if desc then FieldLess(f, b.item, a.item) else FieldLess(f, a.item, b.item);
    var tie := !FieldLess(f, a.item, b.item) && !FieldLess(f, b.item, a.item);
    less || (tie && a.pos < b.pos)
  }

  lemma FieldLessStrictTotal(f: Field)
    ensures forall a :: !FieldLess(f, a, a)
    ensures forall a, b, c :: FieldLess(f, a, b) && FieldLess(f, b, c) ==> FieldLess(f, a, c)
    ensures forall a, b, c :: !FieldLess(f, a, b) && !FieldLess(f, b, a) && !FieldLess(f, b, c) && !FieldLess(f, c, b) ==>
              !FieldLess(f, a, c) && !FieldLess(f, c, a)
  {
    LexLessStrictTotal();
    forall a, b, c | !FieldLess(f, a, b) && !FieldLess(f, b, a) && !FieldLess(f, b, c) && !FieldLess(f, c, b)
      ensures !FieldLess(f, a, c) && !FieldLess(f, c, a)
    {
      match f
      case ById =>
      case ByName => assert a.name == b.name == c.name;
      case ByCuisine => assert a.cuisine == b.cuisine == c.cuisine;
      case ByLocation => assert a.location == b.location == c.location;
      case Missing =>
    }
  }

  lemma BeforeIsStrictWeak(f: Field, desc: bool)
    ensures Sorting.StrictWeakOrder((a: Placed, b: Placed) => Before(f, desc, a, b))
  {
    FieldLessStrictTotal(f);
    LexLessStrictTotal();
    var lt := (a: Placed, b: Placed) => Before(f, desc, a, b);
    forall a, b, c | !lt(a, b) && !lt(b, c)
      ensures !lt(a, c)
    {
      match f
      case ById =>
      case ByName =>
        if LexLess(a.item.name, c.item.name) || LexLess(c.item.name, a.item.name) {
          LexLessTotal(a.item.name, b.item.name);
          LexLessTotal(b.item.name, c.item.name);
        }
      case ByCuisine =>
        if LexLess(a.item.cuisine, c.item.cuisine) || LexLess(c.item.cuisine, a.item.cuisine) {
          LexLessTotal(a.item.cuisine, b.item.cuisine);
          LexLessTotal(b.item.cuisine, c.item.cuisine);
        }
      case ByLocation =>
        if LexLess(a.item.location, c.item.location) || LexLess(c.item.location, a.item.location) {
          LexLessTotal(a.item.location, b.item.location);
          LexLessTotal(b.item.location, c.item.location);
        }
      case Missing =>
    }
  }

  /** Each restaurant with its index. */
  function Number(rs: seq<Restaurant>): (ps: seq<Placed>)
    ensures |ps| == |rs|
    ensures forall i :: 0 <= i < |rs| ==> ps[i] == Placed(i, rs[i])
  {
    seq(|rs|, i requires 0 <= i < |rs| => Placed(i, rs[i]))
  }

  function Items(ps: seq<Placed>): (rs: seq<Restaurant>)
    ensures |rs| == |ps|
    ensures forall i :: 0 <= i < |ps| ==> rs[i] == ps[i].item
  {
    seq(|ps|, i requires 0 <= i < |ps| => ps[i].item)
  }

  /** `usort` with `$a[$f] <=> $b[$f]`, or with the operands swapped for a
      descending sort. The result rearranges the input (every entry names
      its source index, each index once) so that each entry goes before
      every later one: by the comparator, or on a tie by source order,
      since PHP 8's sort is stable. */
  function SortPlaced(rs: seq<Restaurant>, f: Field, desc: bool): (ps: seq<Placed>)
    ensures |ps| == |rs|
    ensures forall i :: 0 <= i < |ps| ==> ps[i].pos < |rs| && ps[i].item == rs[ps[i].pos]
    ensures forall i, j :: 0 <= i < j < |ps| ==> ps[i].pos != ps[j].pos
    ensures forall i, j :: 0 <= i < j < |ps| ==> Before(f, desc, ps[i], ps[j])
    ensures multiset(Items(ps)) == multiset(rs)
  {
    var xs := Number(rs);
    BeforeIsStrictWeak(f, desc);
    var ps := Sorting.Sort(xs, (a: Placed, b: Placed) => Before(f, desc, a, b));
    SortedPlaced(rs, xs, ps, f, desc);
    ItemsPermutation(ps, xs);
    assert Items(xs) == rs;
    ps
  }

  /** Rearranging placed entries rearranges their restaurants the same way. */
  lemma {:induction false} ItemsPermutation(a: seq<Placed>, b: seq<Placed>)
    requires multiset(a) == multiset(b)
    ensures multiset(Items(a)) == multiset(Items(b))
  {
    if |a| == 0 {
      assert |multiset(b)| == 0;
    } else {
      assert a[0] in multiset(b);
      var k :| 0 <= k < |b| && b[k] == a[0];
      var rest := b[..k] + b[k + 1..];
      Sorting.RemoveAt(b, k);
      assert a == [a[0]] + a[1..];
      assert multiset(a[1..]) == multiset(rest);
      ItemsPermutation(a[1..], rest);
      ItemsCons(a);
      ItemsWithout(b, k);
    }
  }

  lemma ItemsCons(a: seq<Placed>)
    requires |a| > 0
    ensures multiset(Items(a)) == multiset{a[0].item} + multiset(Items(a[1..]))
  {
    ItemsAppend([a[0]], a[1..]);
    assert a == [a[0]] + a[1..];
  }

  lemma ItemsWithout(b: seq<Placed>, k: int)
    requires 0 <= k < |b|
    ensures multiset(Items(b)) == multiset{b[k].item} + multiset(Items(b[..k] + b[k + 1..]))
  {
    var x, y := b[..k], b[k + 1..];
    var mid := [b[k]] + y;
    assert b == x + mid;
    ItemsAppend(x, mid);
    ItemsAppend([b[k]], y);
    assert Items([b[k]]) == [b[k].item];
    assert multiset(Items(mid)) == multiset{b[k].item} + multiset(Items(y));
    ItemsAppend(x, y);
  }

  lemma ItemsAppend(x: seq<Placed>, y: seq<Placed>)
    ensures Items(x + y) == Items(x) + Items(y)
  {
    assert forall i :: 0 <= i < |x + y| ==> Items(x + y)[i] == (Items(x) + Items(y))[i];
  }

  lemma SortedPlaced(rs: seq<Restaurant>, xs: seq<Placed>, ps: seq<Placed>, f: Field, desc: bool)
    requires xs == Number(rs)
    requires multiset(ps) == multiset(xs)
    requires Sorting.Sorted(ps, (a: Placed, b: Placed) => Before(f, desc, a, b))
    ensures |ps| == |rs|
    ensures forall i :: 0 <= i < |ps| ==> ps[i].pos < |rs| && ps[i].item == rs[ps[i].pos]
    ensures forall i, j :: 0 <= i < j < |ps| ==> ps[i].pos != ps[j].pos
    ensures forall i, j :: 0 <= i < j < |ps| ==> Before(f, desc, ps[i], ps[j])
  {
    assert |multiset(ps)| == |multiset(xs)|;
    forall i | 0 <= i < |ps|
      ensures ps[i].pos < |rs| && ps[i].item == rs[ps[i].pos]
    {
      assert ps[i] in multiset(xs);
      var k :| 0 <= k < |xs| && xs[k] == ps[i];
    }
    assert Sorting.Distinct(xs) by {
      forall i, j | 0 <= i < j < |xs|
        ensures xs[i] != xs[j]
      {
        assert xs[i].pos != xs[j].pos;
      }
    }
    Sorting.PermutationKeepsDistinct(xs, ps);
    forall i, j | 0 <= i < j < |ps|
      ensures ps[i].pos != ps[j].pos && Before(f, desc, ps[i], ps[j])
    {
      assert !Before(f, desc, ps[j], ps[i]);
      assert ps[i] != ps[j];
    }
  }

  /** `order` selects a descending sort only when it lower-cases to "desc". */
  predicate Descending(q: ListQuery) {
    q.order.Some? && ToLower(q.order.value) == "desc"
  }

  /** No entry is out of order on the field, in the requested direction. */
  predicate InOrder(rs: seq<Restaurant>, f: Field, desc: bool) {
    forall i, j :: 0 <= i < j < |rs| ==>
      if desc then !FieldLess(f, rs[i], rs[j]) else !FieldLess(f, rs[j], rs[i])
  }

  /** The list as the handler orders it: sorted when `sortBy` is given, as
      filtered otherwise. */
  function Arrange(rs: seq<Restaurant>, q: ListQuery): (r: seq<Restaurant>)
    ensures |r| == |rs| && multiset(r) == multiset(rs)
    ensures q.sortBy.None? ==> r == rs
    ensures q.sortBy.Some? ==> InOrder(r, FieldNamed(q.sortBy.value), Descending(q))
    ensures q.sortBy.Some? ==> r == Items(SortPlaced(rs, FieldNamed(q.sortBy.value), Descending(q)))
  {
    if q.sortBy.None? then rs
    else
      var f := FieldNamed(q.sortBy.value);
      var ps := SortPlaced(rs, f, Descending(q));
      var r := Items(ps);
      ItemsInOrder(ps, f, Descending(q));
      r
  }

  lemma ItemsInOrder(ps: seq<Placed>, f: Field, desc: bool)
    requires forall i, j :: 0 <= i < j < |ps| ==> Before(f, desc, ps[i], ps[j])
    ensures InOrder(Items(ps), f, desc)
  {
    FieldLessStrictTotal(f);
    var r := Items(ps);
    forall i, j | 0 <= i < j < |r|
      ensures if desc then !FieldLess(f, r[i], r[j]) else !FieldLess(f, r[j], r[i])
    {
      assert Before(f, desc, ps[i], ps[j]);
    }
  }

  /** Sorting on a field no restaurant has keeps the filtered order. */
  lemma MissingFieldKeepsOrder(rs: seq<Restaurant>, desc: bool)
    ensures Items(SortPlaced(rs, Missing, desc)) == rs
  {
    var ps := SortPlaced(rs, Missing, desc);
    forall i | 0 <= i < |ps|
      ensures ps[i].pos == i
    {
      PositionsIncreasing(ps, |rs|, i);
    }
  }

  /** Distinct indices below `n`, strictly increasing, fill `0 .. n-1` in order. */
  lemma {:induction false} PositionsIncreasing(ps: seq<Placed>, n: nat, i: nat)
    requires |ps| == n && i < n
    requires forall k :: 0 <= k < |ps| ==> ps[k].pos < n
    requires forall k, m :: 0 <= k < m < |ps| ==> ps[k].pos < ps[m].pos
    ensures ps[i].pos == i
  {
    if |ps| > 0 {
      var last := ps[..|ps| - 1];
      assert ps[|ps| - 1].pos == n - 1 by {
        if ps[|ps| - 1].pos < n - 1 {
          PosBound(ps, |ps| - 1);
        }
      }
      if i < n - 1 {
        PositionsIncreasing(last, n - 1, i);
      }
    }
  }

  lemma {:induction false} PosBound(ps: seq<Placed>, k: nat)
    requires k < |ps|
    requires forall a, b :: 0 <= a < b < |ps| ==> ps[a].pos < ps[b].pos
    ensures ps[k].pos >= k
  {
    if k > 0 {
      PosBound(ps, k - 1);
    }
  }

  // ---- pagination ----

  /** `ceil($total / $perPage)` for a non-zero page size. */
  function TotalPages(total: nat, perPage: int): (t: int)
    requires perPage != 0
    ensures ((t - 1) as real) < (total as real) / (perPage as real) <= t as real
  {
    if perPage > 0 then CeilPositive(total, perPage)
    else -(total / -perPage)
  }

  function CeilPositive(total: nat, perPage: int): (t: int)
    requires perPage > 0
    ensures (t - 1) * perPage < total <= t * perPage
  {
    var t := (total + perPage - 1) / perPage;
    assert t * perPage <= total + perPage - 1 < (t + 1) * perPage;
    t
  }

  function Clip(v: int, n: nat): (c: nat)
    requires v >= 0
    ensures c <= n
  {
    if v > n then n else v
  }

  /** `array_slice($xs, $offset, $length)`: a negative offset counts from
      the end, an offset past the end gives nothing, and a negative length
      stops that many elements before the end. */
  function Slice<T>(xs: seq<T>, offset: int, length: int): (r: seq<T>)
    ensures forall x :: x in r ==> x in xs
    ensures offset >= 0 && length >= 0 ==> r == xs[Clip(offset, |xs|)..Clip(offset + length, |xs|)]
    ensures offset >= 0 && length >= 0 ==>
              |r| <= length && forall k :: 0 <= k < |r| ==> offset + k < |xs| && r[k] == xs[offset + k]
    ensures length < 0 ==> r == [] || |r| <= |xs| + length
  {
    var n := |xs|;
    var start := if offset < 0 then (if n + offset < 0 then 0 else n + offset) else (if offset > n then n else offset);
    var stop := if length < 0 then n + length else (if start + length > n then n else start + length);
    if stop <= start then [] else xs[start..stop]
  }

  /** One page of a list: page `p` holds the entries from `(p-1)*size`, at
      most `size` of them. */
  function Page<T>(xs: seq<T>, page: int, perPage: int): seq<T> {
    Slice(xs, (page - 1) * perPage, perPage)
  }

  lemma MulMono(a: int, b: int, c: int)
    requires a <= b && c >= 0
    ensures a * c <= b * c
  {
  }

  lemma MulNonneg(a: int, c: int)
    ensures a >= 0 && c >= 0 ==> a * c >= 0
  {
  }

  lemma MulPred(a: int, c: int)
    ensures (a - 1) * c + c == a * c
  {
  }

  /** For ordinary arguments, index `i` lies in the range of page `p`
      exactly when `p` is `i / size + 1`. */
  lemma PageRange(perPage: int, i: int, page: int)
    requires perPage >= 1 && page >= 1 && 0 <= i
    ensures (page - 1) * perPage <= i < page * perPage <==> page == i / perPage + 1
  {
    var q := i / perPage;
    assert i == q * perPage + i % perPage;
    assert (page - 1) * perPage == page * perPage - perPage;
    assert (q + 1) * perPage == q * perPage + perPage;
    if page <= q {
      MulMono(page, q, perPage);
    } else if page >= q + 2 {
      MulMono(q + 1, page - 1, perPage);
    }
  }

  /** So every entry of the list is on exactly one page, at place `i % size`. */
  lemma PageOfIndex<T>(xs: seq<T>, perPage: int, i: int)
    requires perPage >= 1 && 0 <= i < |xs|
    ensures i % perPage < |Page(xs, i / perPage + 1, perPage)|
    ensures Page(xs, i / perPage + 1, perPage)[i % perPage] == xs[i]
  {
    var q := i / perPage;
    assert (q + 1 - 1) * perPage == q * perPage;
    assert i == q * perPage + i % perPage;
    MulMono(0, q, perPage);
  }

  /** Pages `1 .. count` laid end to end. */
  function Pages<T>(xs: seq<T>, perPage: int, count: nat): seq<T>
    requires perPage >= 1
  {
    if count == 0 then [] else Pages(xs, perPage, count - 1) + Page(xs, count, perPage)
  }

  lemma {:induction false} PagesPrefix<T>(xs: seq<T>, perPage: int, count: nat)
    requires perPage >= 1
    ensures count * perPage >= 0
    ensures Pages(xs, perPage, count) == xs[..Clip(count * perPage, |xs|)]
  {
    MulMono(0, count, perPage);
    if count > 0 {
      PagesPrefix(xs, perPage, count - 1);
      MulPred(count, perPage);
      NextPage(xs, (count - 1) * perPage, perPage, count * perPage);
    }
  }

  /** The slice after a prefix extends the prefix. */
  lemma NextPage<T>(xs: seq<T>, lo: int, size: int, hi: int)
    requires 0 <= lo && 1 <= size && hi == lo + size
    ensures xs[..Clip(lo, |xs|)] + Slice(xs, lo, size) == xs[..Clip(hi, |xs|)]
  {
    assert Slice(xs, lo, size) == xs[Clip(lo, |xs|)..Clip(hi, |xs|)];
  }

  /** Pages `1 .. TotalPages` laid end to end give back the whole list. */
  lemma PagesCoverList<T>(xs: seq<T>, perPage: int)
    requires perPage >= 1
    ensures Pages(xs, perPage, TotalPages(|xs|, perPage)) == xs
  {
    var t := CeilPositive(|xs|, perPage);
    PagesPrefix(xs, perPage, t);
  }

  /** A page from 1 on is non-empty exactly when it is within the page count. */
  lemma NonEmptyPages<T>(xs: seq<T>, perPage: int, page: int)
    requires perPage >= 1 && page >= 1
    ensures |Page(xs, page, perPage)| > 0 <==> page <= TotalPages(|xs|, perPage)
  {
    var t := CeilPositive(|xs|, perPage);
    MulMono(0, page - 1, perPage);
    if page <= t {
      MulMono(page - 1, t - 1, perPage);
    } else {
      MulMono(t, page - 1, perPage);
    }
  }

  // ---- the handler ----

  datatype Meta = Meta(currentPage: int, perPage: int, totalItems: nat, totalPages: int)
  datatype Listing = Listing(data: seq<Restaurant>, meta: Meta)

  /** `(int)` of the page parameters, defaulting to page 1 of 10. */
  function PageNumber(q: ListQuery): (n: int)
    ensures q.page.None? ==> n == 1
    ensures q.page.Some? ==> n == q.page.value.asInt
  {
    if q.page.Some? then q.page.value.asInt else 1
  }

  function PageSize(q: ListQuery): (n: int)
    ensures q.perPage.None? ==> n == 10
    ensures q.perPage.Some? ==> n == q.perPage.value.asInt
  {
    if q.perPage.Some? then q.perPage.value.asInt else 10
  }

  /** The listing: filter, then sort, then cut out the page. A page size of
      0 makes the page count a division by zero, which PHP 8 throws. */
  function HandleRestaurants(rs: seq<Restaurant>, q: ListQuery): (out: Outcome<Listing>)
    ensures out.ServerError? <==> PageSize(q) == 0
    ensures PageSize(q) != 0 ==> out.Ok?
    ensures out.Ok? ==>
              && out.value.meta == Meta(PageNumber(q), PageSize(q), |Select(rs, q)|,
                                        TotalPages(|Select(rs, q)|, PageSize(q)))
              && out.value.data == Page(Arrange(Select(rs, q), q), PageNumber(q), PageSize(q))
              && (forall x :: x in out.value.data ==> x in rs && Selected(q, x))
  {
    var selected := Select(rs, q);
    var arranged := Arrange(selected, q);
    var size := PageSize(q);
    if size == 0 then ServerError
    else
      ArrangedMembers(selected, q);
      Ok(Listing(Page(arranged, PageNumber(q), size), Meta(PageNumber(q), size, |selected|, TotalPages(|selected|, size))))
  }

  /** With a page number and size of at least 1, the data is at most one page
      of the filtered, sorted list, read from offset `(page-1)*size`. */
  lemma ListedEntries(rs: seq<Restaurant>, q: ListQuery)
    requires PageNumber(q) >= 1 && PageSize(q) >= 1
    ensures HandleRestaurants(rs, q).Ok?
    ensures var data := HandleRestaurants(rs, q).value.data;
            |data| <= PageSize(q) &&
            forall k :: 0 <= k < |data| ==>
              (PageNumber(q) - 1) * PageSize(q) + k < |Select(rs, q)| &&
              data[k] == Arrange(Select(rs, q), q)[(PageNumber(q) - 1) * PageSize(q) + k]
  {
    MulNonneg(PageNumber(q) - 1, PageSize(q));
  }

  /** Sorting keeps the same restaurants. */
  lemma ArrangedMembers(rs: seq<Restaurant>, q: ListQuery)
    ensures forall x :: x in Arrange(rs, q) ==> x in rs
  {
    if q.sortBy.Some? {
      var r := Arrange(rs, q);
      forall x | x in r
        ensures x in rs
      {
        var ps := SortPlaced(rs, FieldNamed(q.sortBy.value), Descending(q));
        var i :| 0 <= i < |r| && r[i] == x;
        assert ps[i].item == rs[ps[i].pos];
      }
    }
  }
}

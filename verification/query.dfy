/**
 * The read side of the catalog: `GET /` turns query-string values into a filter,
 * returns the matching records sorted by title and cut by skip/limit, with the
 * pagination figures; `GET /:id` looks one record up by its identifier.
 */
module BookQuery {
  import opened Wrappers
  import opened Text
  import opened JsNumbers
  import opened BookSchema

  // ---------------------------------------------------------------- query string

  /** The query-string values the handler reads; `None` when absent. */
  datatype Query = Query(
    page: Option<string>,
    limit: Option<string>,
    search: Option<string>,
    rating: Option<string>,
    minPrice: Option<string>,
    maxPrice: Option<string>,
    inStock: Option<string>)

  /** JavaScript truthiness of a query-string value: present and not empty. */
  predicate Truthy(v: Option<string>) {
    v.Some? && v.value != ""
  }

  /** `parseInt(v)`, where a missing value is `parseInt(undefined)`, that is `NaN`. */
  function ParseIntOpt(v: Option<string>): Parsed<int> {
    if v.Some? then ParseInt(v.value) else NaN
  }

  /** `parseInt(v) || d`: `NaN` and `0` are falsy and give the default. */
  function IntOr(v: Option<string>, d: int): int {
    match ParseIntOpt(v)
    case Num(n) => if n != 0 then n else d
    case NaN => d
  }

  const DefaultPage: int := 1
  const DefaultLimit: int := 20

  function PageOf(q: Query): int {
    IntOr(q.page, DefaultPage)
  }

  /** The page size, taken from the caller with no upper bound. */
  function LimitOf(q: Query): int {
    IntOr(q.limit, DefaultLimit)
  }

  /** The number of records before page `page` of size `limit`. */
  function Skip(page: int, limit: int): int {
    (page - 1) * limit
  }

  function SkipOf(q: Query): int {
    Skip(PageOf(q), LimitOf(q))
  }

  /** A missing, unparsable or zero `page` becomes 1 and any other value is its integer
      prefix, negative ones included; likewise `limit` with 20. Neither is ever 0. */
  lemma PageAndLimitDefaults(q: Query)
    ensures PageOf(q) != 0 && LimitOf(q) != 0
    ensures PageOf(q) == DefaultPage <==> ParseIntOpt(q.page) in {NaN, Num(0), Num(1)}
    ensures ParseIntOpt(q.page).Num? && ParseIntOpt(q.page).value != 0 ==> PageOf(q) == ParseIntOpt(q.page).value
    ensures LimitOf(q) == DefaultLimit <==> ParseIntOpt(q.limit) in {NaN, Num(0), Num(20)}
    ensures ParseIntOpt(q.limit).Num? && ParseIntOpt(q.limit).value != 0 ==> LimitOf(q) == ParseIntOpt(q.limit).value
  {
  }

  /** A page or limit written in decimal notation is taken as that number, unless it is 0. */
  lemma PageOfDecimal(q: Query, n: int)
    requires q.page == Some(IntToString(n))
    ensures PageOf(q) == if n == 0 then DefaultPage else n
  {
    ParseIntOfIntToString(n);
  }

  /** Leading white space before the number is skipped: "\U{3000}7" is page 7. */
  lemma PageOfSpacedDecimal(q: Query, c: char, n: int)
    requires IsJsSpace(c)
    requires q.page == Some([c] + IntToString(n))
    ensures PageOf(q) == if n == 0 then DefaultPage else n
  {
    ParseSkipsLeadingSpace(c, IntToString(n));
    ParseIntOfIntToString(n);
  }

  // ---------------------------------------------------------------- the filter object

  /** `filter.stock`: `{$gt: 0}` or `0`. */
  datatype StockFilter = InStockOnly | OutOfStockOnly

  /** `filter.price`, an object whose `$gte` and `$lte` members are each optional. */
  datatype PriceFilter = PriceFilter(gte: Option<Parsed<Decimal>>, lte: Option<Parsed<Decimal>>)

  /** The `filter` object; a member that was never assigned is `None`. */
  datatype Filter = Filter(
    title: Option<string>,
    rating: Option<Parsed<int>>,
    price: Option<PriceFilter>,
    stock: Option<StockFilter>)

  function ParseFloatOpt(v: Option<string>): Parsed<Decimal> {
    if v.Some? then ParseFloat(v.value) else NaN
  }

  /** The filter the handler builds from the query string. */
  function FilterOf(q: Query): Filter {
    Filter(
      if Truthy(q.search) then Some(q.search.value) else None,
      if Truthy(q.rating) then Some(ParseIntOpt(q.rating)) else None,
      if Truthy(q.minPrice) || Truthy(q.maxPrice) then
        Some(PriceFilter(
          if Truthy(q.minPrice) then Some(ParseFloatOpt(q.minPrice)) else None,
          if Truthy(q.maxPrice) then Some(ParseFloatOpt(q.maxPrice)) else None))
      else None,
      if Truthy(q.inStock) && q.inStock.value == "true" then Some(InStockOnly)
      else if Truthy(q.inStock) && q.inStock.value == "false" then Some(OutOfStockOnly)
      else None)
  }

  /** The handler's construction: start from `{}` and assign a member for each option that
      is set. */
  method BuildFilter(q: Query) returns (filter: Filter)
    ensures filter == FilterOf(q)
  {
    filter := Filter(None, None, None, None);
    if Truthy(q.search) {
      filter := filter.(title := Some(q.search.value));
    }
    if Truthy(q.rating) {
      filter := filter.(rating := Some(ParseInt(q.rating.value)));
    }
    if Truthy(q.minPrice) || Truthy(q.maxPrice) {
      var price := PriceFilter(None, None);
      if Truthy(q.minPrice) {
        price := price.(gte := Some(ParseFloat(q.minPrice.value)));
      }
      if Truthy(q.maxPrice) {
        price := price.(lte := Some(ParseFloat(q.maxPrice.value)));
      }
      filter := filter.(price := Some(price));
    }
    if Truthy(q.inStock) {
      if q.inStock.value == "true" {
        filter := filter.(stock := Some(InStockOnly));
      } else if q.inStock.value == "false" {
        filter := filter.(stock := Some(OutOfStockOnly));
      }
    }
  }

  // ---------------------------------------------------------------- casting and matching

  /** The filter once its numbers are cast: every bound is a number. */
  datatype Criteria = Criteria(
    search: Option<string>,
    minRating: Option<int>,
    minPrice: Option<Decimal>,
    maxPrice: Option<Decimal>,
    stock: Option<StockFilter>)

  function CastBound<T>(b: Option<Parsed<T>>): Result<Option<T>, ()> {
    match b
    case None => Ok(None)
    case Some(NaN) => Err(())
    case Some(Num(v)) => Ok(Some(v))
  }

  /** The cast of the filter against the schema: a bound that is `NaN` is refused (the
      query then fails); otherwise each bound becomes the number it holds. */
  function CastFilter(f: Filter): Option<Criteria> {
    var gte := if f.price.Some? then f.price.value.gte else None;
    var lte := if f.price.Some? then f.price.value.lte else None;
    match (CastBound(f.rating), CastBound(gte), CastBound(lte))
    case (Ok(r), Ok(lo), Ok(hi)) => Some(Criteria(f.title, r, lo, hi, f.stock))
    case _ => None
  }

  /** Whether a record satisfies every criterion. The title test is a case-insensitive
      substring test, the search text being taken literally. */
  predicate Matches(c: Criteria, b: Book) {
    && (c.search.Some? ==> ContainsIgnoringCase(b.title, c.search.value))
    && (c.minRating.Some? ==> b.rating >= c.minRating.value)
    && (c.minPrice.Some? ==> DecLe(c.minPrice.value, b.price))
    && (c.maxPrice.Some? ==> DecLe(b.price, c.maxPrice.value))
    && (c.stock == Some(InStockOnly) ==> b.stock > 0)
    && (c.stock == Some(OutOfStockOnly) ==> b.stock == 0)
  }

  /** The records that match, in store order. */
  function MatchesOf(c: Criteria, store: seq<Book>): (r: seq<Book>)
    ensures |r| <= |store|
    ensures forall b :: b in r <==> b in store && Matches(c, b)
    ensures multiset(r) <= multiset(store)
  {
    if store == [] then []
    else
      var rest := MatchesOf(c, store[..|store| - 1]);
      var last := store[|store| - 1];
      assert store == store[..|store| - 1] + [last];
      assert multiset(store) == multiset(store[..|store| - 1]) + multiset{last};
      if Matches(c, last) then rest + [last] else rest
  }

  /** A matching record appears among the matches as often as in the store, and any other
      record not at all, so the matches number exactly as `countDocuments` counts them. */
  lemma {:induction false} MatchesOfCounts(c: Criteria, store: seq<Book>)
    ensures forall b :: multiset(MatchesOf(c, store))[b] == if Matches(c, b) then multiset(store)[b] else 0
  {
    if store != [] {
      var init, last := store[..|store| - 1], store[|store| - 1];
      MatchesOfCounts(c, init);
      assert store == init + [last];
      assert multiset(store) == multiset(init) + multiset{last};
    }
  }

  // ---------------------------------------------------------------- order by title

  /** Ascending order of titles, character by character: a prefix comes first. */
  predicate TitleLe(a: string, b: string) {
    a == [] || (b != [] && (a[0] < b[0] || (a[0] == b[0] && TitleLe(a[1..], b[1..]))))
  }

  lemma {:induction false} TitleLeTotal(a: string, b: string)
    ensures TitleLe(a, b) || TitleLe(b, a)
  {
    if a != [] && b != [] && a[0] == b[0] {
      TitleLeTotal(a[1..], b[1..]);
    }
  }

  lemma {:induction false} TitleLeTrans(a: string, b: string, c: string)
    requires TitleLe(a, b) && TitleLe(b, c)
    ensures TitleLe(a, c)
  {
    if a != [] && b != [] && c != [] && a[0] == b[0] && b[0] == c[0] {
      TitleLeTrans(a[1..], b[1..], c[1..]);
    }
  }

  /** Two titles ordered both ways are the same title. */
  lemma {:induction false} TitleLeAntisymmetric(a: string, b: string)
    requires TitleLe(a, b) && TitleLe(b, a)
    ensures a == b
  {
    if a != [] && b != [] {
      TitleLeAntisymmetric(a[1..], b[1..]);
      assert a == [a[0]] + a[1..] && b == [b[0]] + b[1..];
    }
  }

  predicate SortedByTitle(s: seq<Book>) {
    forall i, j :: 0 <= i < j < |s| ==> TitleLe(s[i].title, s[j].title)
  }

  function InsertByTitle(b: Book, s: seq<Book>): seq<Book> {
    if s == [] || TitleLe(b.title, s[0].title) then [b] + s
    else [s[0]] + InsertByTitle(b, s[1..])
  }

  /** `.sort({title: 1})`, as an insertion sort (stable on equal titles). */
  function SortByTitle(s: seq<Book>): seq<Book> {
    if s == [] then [] else InsertByTitle(s[0], SortByTitle(s[1..]))
  }

  /** Inserting into a title-sorted list keeps it sorted and adds exactly the record. */
  lemma InsertByTitleCorrect(b: Book, s: seq<Book>)
    requires SortedByTitle(s)
    ensures SortedByTitle(InsertByTitle(b, s))
    ensures multiset(InsertByTitle(b, s)) == multiset(s) + multiset{b}
  {
    InsertByTitlePerm(b, s);
    InsertByTitleSorted(b, s);
  }

  /** An insertion adds the record to the list's records and changes nothing else. */
  lemma {:induction false} InsertByTitlePerm(b: Book, s: seq<Book>)
    ensures multiset(InsertByTitle(b, s)) == multiset(s) + multiset{b}
  {
    if s != [] && !TitleLe(b.title, s[0].title) {
      InsertByTitlePerm(b, s[1..]);
      assert s == [s[0]] + s[1..];
    }
  }

  /** An insertion into a title-sorted list goes before the first record it does not
      follow, so the list stays sorted. */
  lemma {:induction false} InsertByTitleSorted(b: Book, s: seq<Book>)
    requires SortedByTitle(s)
    ensures SortedByTitle(InsertByTitle(b, s))
  {
    if s == [] || TitleLe(b.title, s[0].title) {
      var r := [b] + s;
      forall i, j | 0 <= i < j < |r| ensures TitleLe(r[i].title, r[j].title) {
        if i == 0 && j > 1 {
          TitleLeTrans(b.title, s[0].title, s[j - 1].title);
        }
      }
    } else {
      TitleLeTotal(b.title, s[0].title);
      InsertByTitleSorted(b, s[1..]);
      var rest := InsertByTitle(b, s[1..]);
      forall x | x in rest ensures TitleLe(s[0].title, x.title) {
        InsertedFrom(b, s[1..], x);
        if x != b {
          var k :| 0 <= k < |s[1..]| && s[1..][k] == x;
          assert s[k + 1] == x;
        }
      }
      var r := [s[0]] + rest;
      forall i, j | 0 <= i < j < |r| ensures TitleLe(r[i].title, r[j].title) {
        if i == 0 {
          assert r[j] in rest;
        } else {
          assert r[i] == rest[i - 1] && r[j] == rest[j - 1];
        }
      }
    }
  }

  /** A record of an insertion is the inserted record or one of the list. */
  lemma InsertedFrom(b: Book, s: seq<Book>, x: Book)
    requires x in InsertByTitle(b, s)
    ensures x == b || x in s
  {
    InsertByTitlePerm(b, s);
    assert x in multiset(InsertByTitle(b, s));
  }

  /** The sort returns the same records, ordered by title. */
  lemma {:induction false} SortByTitleCorrect(s: seq<Book>)
    ensures SortedByTitle(SortByTitle(s))
    ensures multiset(SortByTitle(s)) == multiset(s)
  {
    if s != [] {
      SortByTitleCorrect(s[1..]);
      InsertByTitleCorrect(s[0], SortByTitle(s[1..]));
      assert s == [s[0]] + s[1..];
    }
  }

  // ---------------------------------------------------------------- the list handler

  function Abs(n: int): nat {
    if n < 0 then -n else n
  }

  function Min(a: int, b: int): int {
    if a <= b then a else b
  }

  /** `skip(k)` on a result list: nothing is left when `k` is past its end. */
  function Drop(s: seq<Book>, k: nat): (r: seq<Book>)
    ensures |r| == if k <= |s| then |s| - k else 0
    ensures forall i :: 0 <= i < |r| ==> r[i] == s[k + i]
  {
    if k <= |s| then s[k..] else []
  }

  /** `limit(n)` on a result list: at most `n` records; the driver takes a negative
      limit as its absolute value. */
  function Take(s: seq<Book>, n: int): (r: seq<Book>)
    ensures |r| == if (if n < 0 then -n else n) <= |s| then (if n < 0 then -n else n) else |s|
    ensures r == s[..|r|]
  {
    var m := if n < 0 then -n else n;
    if m <= |s| then s[..m] else s
  }

  datatype Pagination = Pagination(current: int, total: int, count: nat, totalCount: nat)

  datatype ListResponse =
    | Listed(items: seq<Book>, pagination: Pagination)   // 200 with `{books, pagination}`
    | ListFailed                                        // 500 "Failed to fetch books"

  /** The records of page `page` of size `limit` among those matching `c`, with the
      pagination figures; a negative skip makes the query fail. */
  function ListPage(c: Criteria, page: int, limit: int, store: seq<Book>): ListResponse
    requires limit != 0
  {
    PageOfList(SortByTitle(MatchesOf(c, store)), page, limit)
  }

  /** Page `page` of size `limit` of a sorted result list, whose length is the total
      count; a negative skip makes the query fail. */
  function PageOfList(sorted: seq<Book>, page: int, limit: int): ListResponse
    requires limit != 0
  {
    var skip := Skip(page, limit);
    if skip < 0 then ListFailed
    else
      var items := Take(Drop(sorted, skip), limit);
      Listed(items, Pagination(page, CeilDiv(|sorted|, limit), |items|, |sorted|))
  }

  /** `GET /`: the response for a query over the stored records. */
  function ListBooks(q: Query, store: seq<Book>): ListResponse {
    match CastFilter(FilterOf(q))
    case None => ListFailed
    case Some(c) => ListPage(c, PageOf(q), LimitOf(q), store)
  }

  /** The query fails exactly when one of the rating, minimum price or maximum price
      options is set but not a number, or when the page and limit give a negative skip;
      otherwise it lists the page that the page and limit options name. */
  lemma ListFailsIff(q: Query, store: seq<Book>)
    ensures ListBooks(q, store).ListFailed? <==>
      || (Truthy(q.rating) && ParseInt(q.rating.value).NaN?)
      || (Truthy(q.minPrice) && ParseFloat(q.minPrice.value).NaN?)
      || (Truthy(q.maxPrice) && ParseFloat(q.maxPrice.value).NaN?)
      || SkipOf(q) < 0
    ensures ListBooks(q, store).Listed? ==>
      ListBooks(q, store) == ListPage(CastFilter(FilterOf(q)).value, PageOf(q), LimitOf(q), store)
  {
  }

  /** A listed page holds the matching records sorted by title, from position `skip`:
      `|limit|` of them, or all that are left when fewer are; `count` is their number,
      `totalCount` the number of all matching records and `total` the rounded-up number
      of pages. */
  lemma ListPageShape(c: Criteria, page: int, limit: int, store: seq<Book>)
    requires limit != 0
    requires ListPage(c, page, limit, store).Listed?
    ensures var r := ListPage(c, page, limit, store);
      var sorted := SortByTitle(MatchesOf(c, store));
      var skip := Skip(page, limit);
      && skip >= 0
      && SortedByTitle(sorted) && multiset(sorted) == multiset(MatchesOf(c, store))
      && SortedByTitle(r.items)
      && |r.items| == (if skip >= |sorted| then 0 else Min(Abs(limit), |sorted| - skip))
      && (forall i :: 0 <= i < |r.items| ==> r.items[i] == sorted[skip + i])
      && r.pagination.count == |r.items|
      && r.pagination.totalCount == |sorted|
      && r.pagination.current == page
      && r.pagination.total == CeilDiv(|sorted|, limit)
  {
    var sorted := SortByTitle(MatchesOf(c, store));
    assert ListPage(c, page, limit, store) == PageOfList(sorted, page, limit);
    SortByTitleCorrect(MatchesOf(c, store));
    PageOfSortedShape(sorted, page, limit);
  }

  /** A listed page of a title-sorted list: title-sorted, `|limit|` records from
      position `skip` or all that are left, with its pagination figures. */
  lemma PageOfSortedShape(sorted: seq<Book>, page: int, limit: int)
    requires limit != 0 && SortedByTitle(sorted)
    requires PageOfList(sorted, page, limit).Listed?
    ensures var r := PageOfList(sorted, page, limit);
      var skip := Skip(page, limit);
      && skip >= 0
      && SortedByTitle(r.items)
      && |r.items| == (if skip >= |sorted| then 0 else Min(Abs(limit), |sorted| - skip))
      && (forall i :: 0 <= i < |r.items| ==> r.items[i] == sorted[skip + i])
      && r.pagination.count == |r.items|
      && r.pagination.totalCount == |sorted|
      && r.pagination.current == page
      && r.pagination.total == CeilDiv(|sorted|, limit)
  {
    WindowOfSorted(sorted, Skip(page, limit), limit);
  }

  /** A listed page holds only stored records that match, drawn from the sorted matches,
      which are exactly the stored records that match. */
  lemma ListPageMembers(c: Criteria, page: int, limit: int, store: seq<Book>)
    requires limit != 0
    requires ListPage(c, page, limit, store).Listed?
    ensures var sorted := SortByTitle(MatchesOf(c, store));
      && (forall b :: b in sorted <==> b in store && Matches(c, b))
      && (forall b :: b in ListPage(c, page, limit, store).items ==> b in store && Matches(c, b))
  {
    var sorted := SortByTitle(MatchesOf(c, store));
    SortByTitleCorrect(MatchesOf(c, store));
    SortedMatches(c, store);
    WindowOfSorted(sorted, Skip(page, limit), limit);
  }

  /** The sorted matches are exactly the stored records that match. */
  lemma SortedMatches(c: Criteria, store: seq<Book>)
    ensures forall b :: b in SortByTitle(MatchesOf(c, store)) <==> b in store && Matches(c, b)
  {
    var matches := MatchesOf(c, store);
    SortByTitleCorrect(matches);
    var sorted := SortByTitle(matches);
    forall b ensures b in sorted <==> b in matches {
      assert b in sorted <==> b in multiset(sorted);
      assert b in matches <==> b in multiset(matches);
    }
  }

  /** A window `Take(Drop(s, skip), limit)` of a list sorted by title is sorted by title, is
      exactly `|limit|` long unless fewer records are left (then it has them all), and
      holds the records of `s` from position `skip` on. */
  lemma WindowOfSorted(s: seq<Book>, skip: nat, limit: int)
    requires SortedByTitle(s)
    ensures var w := Take(Drop(s, skip), limit);
      && SortedByTitle(w)
      && |w| == (if skip >= |s| then 0 else Min(Abs(limit), |s| - skip))
      && (forall i :: 0 <= i < |w| ==> skip + i < |s| && w[i] == s[skip + i])
      && (forall b :: b in w ==> b in s)
  {
    var w := Take(Drop(s, skip), limit);
    forall b | b in w ensures b in s {
      var i :| 0 <= i < |w| && w[i] == b;
      assert b == s[skip + i];
    }
    forall i, j | 0 <= i < j < |w| ensures TitleLe(w[i].title, w[j].title) {
      assert w[i] == s[skip + i] && w[j] == s[skip + j];
    }
  }

  /** With a positive limit, a page past the last one lists no records: it is a normal
      response, not an error. */
  lemma PageBeyondTotalIsEmpty(c: Criteria, page: int, limit: int, store: seq<Book>)
    requires limit > 0
    requires page > CeilDiv(|MatchesOf(c, store)|, limit)
    ensures ListPage(c, page, limit, store).Listed?
    ensures ListPage(c, page, limit, store).items == []
    ensures ListPage(c, page, limit, store).pagination.count == 0
  {
    var matches := MatchesOf(c, store);
    PastLastPage(|matches|, page, limit);
    SortedLength(matches);
  }

  /** The first record of a page past the last one lies beyond all `n` records. */
  lemma PastLastPage(n: nat, page: int, limit: int)
    requires limit > 0 && page > CeilDiv(n, limit)
    ensures (page - 1) * limit >= n
  {
    MulMono(page - 1, CeilDiv(n, limit), limit);
  }

  /** Sorting keeps the number of records. */
  lemma SortedLength(s: seq<Book>)
    ensures |SortByTitle(s)| == |s|
  {
    SortByTitleCorrect(s);
    assert |SortByTitle(s)| == |multiset(SortByTitle(s))| == |multiset(s)|;
  }

  lemma MulMono(a: int, b: int, l: int)
    requires a >= b && l > 0
    ensures a * l >= b * l
  {
  }

  // ---------------------------------------------------------------- single filters

  /** No option set (each absent or empty): every record matches, and the list has every
      stored record. */
  lemma EmptyQueryMatchesAll(q: Query, store: seq<Book>)
    requires !Truthy(q.search) && !Truthy(q.rating) && !Truthy(q.minPrice)
    requires !Truthy(q.maxPrice) && !Truthy(q.inStock)
    ensures CastFilter(FilterOf(q)) == Some(Criteria(None, None, None, None, None))
    ensures forall b :: Matches(Criteria(None, None, None, None, None), b)
    ensures MatchesOf(Criteria(None, None, None, None, None), store) == store
  {
    MatchesAll(store);
  }

  lemma {:induction false} MatchesAll(store: seq<Book>)
    ensures MatchesOf(Criteria(None, None, None, None, None), store) == store
  {
    if store != [] {
      var init, last := store[..|store| - 1], store[|store| - 1];
      MatchesAll(init);
      assert Matches(Criteria(None, None, None, None, None), last);
      assert init + [last] == store;
    }
  }

  /** The search keeps exactly the records whose title contains the search text at some
      position, up to ASCII case. */
  lemma SearchKeepsIff(q: Query, b: Book)
    requires Truthy(q.search)
    requires CastFilter(FilterOf(q)).Some?
    ensures var c := CastFilter(FilterOf(q)).value;
      && c.search == Some(q.search.value)
      && (Matches(c, b) <==>
            Matches(c.(search := None), b) && exists i: nat :: MatchesIgnoringCaseAt(b.title, q.search.value, i))
  {
    ContainsIgnoringCaseIff(b.title, q.search.value);
  }

  /** The rating option keeps exactly the records whose rating is at least its integer
      value; a rating option that is not a number makes the query fail. */
  lemma RatingKeepsIff(q: Query, b: Book)
    requires Truthy(q.rating)
    ensures ParseInt(q.rating.value).NaN? <==> CastFilter(FilterOf(q)).None? && CastBound(FilterOf(q).rating).Err?
    ensures CastFilter(FilterOf(q)).Some? ==>
      var c := CastFilter(FilterOf(q)).value;
      c.minRating == Some(ParseInt(q.rating.value).value) &&
      (Matches(c, b) <==> Matches(c.(minRating := None), b) && b.rating >= ParseInt(q.rating.value).value)
  {
  }

  /** The price bounds are inclusive and independent: each one that is set constrains the
      price on its side only. */
  lemma PriceBoundsIff(q: Query, b: Book)
    requires CastFilter(FilterOf(q)).Some?
    ensures var c := CastFilter(FilterOf(q)).value;
      && (Truthy(q.minPrice) <==> c.minPrice.Some?)
      && (Truthy(q.maxPrice) <==> c.maxPrice.Some?)
      && (c.minPrice.Some? ==> Num(c.minPrice.value) == ParseFloat(q.minPrice.value))
      && (c.maxPrice.Some? ==> Num(c.maxPrice.value) == ParseFloat(q.maxPrice.value))
      && (Matches(c, b) <==>
            Matches(c.(minPrice := None, maxPrice := None), b)
            && (c.minPrice.Some? ==> DecLe(c.minPrice.value, b.price))
            && (c.maxPrice.Some? ==> DecLe(b.price, c.maxPrice.value)))
  {
  }

  /** `inStock` is three-way: "true" keeps exactly the records with stock, "false"
      exactly those without, and any other non-empty value constrains nothing. */
  lemma InStockThreeWay(q: Query, b: Book)
    requires CastFilter(FilterOf(q)).Some?
    ensures var c := CastFilter(FilterOf(q)).value;
      && (q.inStock == Some("true") ==> (Matches(c, b) <==> Matches(c.(stock := None), b) && b.stock > 0))
      && (q.inStock == Some("false") ==> (Matches(c, b) <==> Matches(c.(stock := None), b) && b.stock == 0))
      && (q.inStock != Some("true") && q.inStock != Some("false") ==> c.stock.None?)
  {
  }

  /** Price bounds written as whole numbers cast to those numbers, and nothing else is
      filtered on. */
  lemma WholePriceBounds(q: Query, lo: int, hi: int)
    requires q == Query(None, None, None, None, Some(IntToString(lo)), Some(IntToString(hi)), None)
    ensures CastFilter(FilterOf(q)) == Some(Criteria(None, None, Some(Decimal(lo, 0)), Some(Decimal(hi, 0)), None))
  {
    ParseFloatOfIntToString(lo);
    ParseFloatOfIntToString(hi);
    assert IntToString(lo) != [] && IntToString(hi) != [];
  }

  function PricedBook(title: string, units: int): Book {
    Book(title, Decimal(units, 0), 1, "In stock", 3, "d", "i", 0)
  }

  /** Over records priced 5, 10 and 15, the bounds 8 and 12 keep only the one priced 10. */
  lemma PriceRangeExample(a: string, b: string, c: string)
    ensures MatchesOf(Criteria(None, None, Some(Decimal(8, 0)), Some(Decimal(12, 0)), None),
                      [PricedBook(a, 5), PricedBook(b, 10), PricedBook(c, 15)]) == [PricedBook(b, 10)]
  {
    var cr := Criteria(None, None, Some(Decimal(8, 0)), Some(Decimal(12, 0)), None);
    var s := [PricedBook(a, 5), PricedBook(b, 10), PricedBook(c, 15)];
    DecLeWhole(8, 5);
    DecLeWhole(8, 10);
    DecLeWhole(10, 12);
    DecLeWhole(15, 12);
    assert !Matches(cr, s[0]) && Matches(cr, s[1]) && !Matches(cr, s[2]);
    assert s[..2][..1][..0] == [];
    assert MatchesOf(cr, s[..2][..1]) == [];
    assert MatchesOf(cr, s[..2]) == [s[1]];
  }

  // ---------------------------------------------------------------- lookup by id

  datatype FindResponse =
    | Found(book: Book)   // 200 with the record
    | NotFound            // 404 "Book not found"
    | FindFailed          // 500 "Failed to fetch book"

  predicate IsHexDigit(c: char) {
    '0' <= c <= '9' || 'a' <= c <= 'f' || 'A' <= c <= 'F'
  }

  /** An identifier that casts to an ObjectId: 24 hexadecimal digits. */
  predicate IsObjectIdHex(id: string) {
    |id| == 24 && forall i :: 0 <= i < |id| ==> IsHexDigit(id[i])
  }

  /** `GET /:id` over the records keyed by their identifier in lower-case hexadecimal. An
      identifier that does not cast fails the request; one that casts but names no record
      is not found. */
  function FindById(byId: map<string, Book>, id: string): (r: FindResponse)
    ensures r.FindFailed? <==> !IsObjectIdHex(id)
    ensures r.NotFound? <==> IsObjectIdHex(id) && Lower(id) !in byId
    ensures r.Found? ==> Lower(id) in byId && r.book == byId[Lower(id)]
  {
    if !IsObjectIdHex(id) then FindFailed
    else if Lower(id) in byId then Found(byId[Lower(id)])
    else NotFound
  }

  /** The identifier is read without regard to the case of its hexadecimal letters. */
  lemma FindByIdIgnoresCase(byId: map<string, Book>, id: string)
    ensures FindById(byId, id) == FindById(byId, Lower(id))
  {
    var l := Lower(id);
    assert Lower(l) == l by {
      forall i | 0 <= i < |l| ensures Lower(l)[i] == l[i] {
      }
    }
    if IsObjectIdHex(id) {
      forall i | 0 <= i < |l| ensures IsHexDigit(l[i]) {
        assert IsHexDigit(id[i]);
      }
    }
  }
}

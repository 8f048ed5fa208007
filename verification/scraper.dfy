/**
 * The book scraper: the rating lookup table, the field normalisation of one
 * product block, one listing page (with its catch-all fallback) and the crawl
 * that follows "next" links from the seed page.
 *
 * The markup is abstract: a page is the list of its product blocks, each
 * given by what the selectors return, plus the "next" link if the page has
 * one. Fetching is a map from URL to page (a URL missing from the map fails
 * to fetch), and URL resolution is an opaque function that may throw.
 */
module BookScraper {
  import opened Wrappers
  import opened Text
  import opened JsNumbers
  import opened BookSchema

  /** The page the crawl starts from. */
  const Seed: string := "https://books.toscrape.com/"

  /** The currency mark removed from the price text: U+00C2 then U+00A3. */
  const CurrencyMark: string := "\U{C2}\U{A3}"

  const InStockPhrase: string := "In stock"
  const InStockLabel: string := "In stock"
  const OutOfStockLabel: string := "Out of stock"

  /** The rating lookup table's own entries. */
  const RatingTable: map<string, int> := map["One" := 1, "Two" := 2, "Three" := 3, "Four" := 4, "Five" := 5]

  /** What the selectors give for one product block. */
  datatype Item = Item(
    titleAttr: Option<string>,   // `title` attribute of `h3 a`
    priceText: string,           // text of `.price_color` ("" if absent)
    availabilityText: string,    // text of `.instock` ("" if absent)
    ratingClass: Option<string>, // `class` attribute of `.star-rating`
    href: Option<string>,        // `href` attribute of `h3 a`
    imageSrc: Option<string>)    // `src` attribute of `img`

  /** The `.next a` element: absent, or present with its `href` attribute. */
  datatype NextLink = NoNextLink | NextLink(href: Option<string>)

  datatype Page = Page(items: seq<Item>, next: NextLink)

  /** The remote site: the pages that can be fetched, and `new URL(ref, base).href`
      (`None` where the constructor throws). */
  datatype Site = Site(pages: map<string, Page>, resolve: (string, string) -> Option<string>)

  /** Why extracting one product block throws. */
  datatype ExtractError =
    | NoStockCount    // "In stock" without any digit: `null[0]`
    | NoRatingClass   // no `class` attribute: `undefined.split`
    | BadUrl          // `new URL` throws

  /** What `scrapePage` returns. */
  datatype ScrapeResult = ScrapeResult(books: seq<BookDoc>, nextPageUrl: Option<string>)

  // ---------------------------------------------------------------- rating

  /** `convertRatingToNumber`, looking at the table's own entries only: "One".."Five"
      give 1..5 and every other token, a missing one included, gives 0. */
  function ConvertRatingToNumber(token: Option<string>): (r: int)
    ensures r != 0 <==> token.Some? && token.value in RatingTable
    ensures token.Some? && token.value in RatingTable ==> r == RatingTable[token.value]
  {
    if token.Some? && token.value in RatingTable then RatingTable[token.value] else 0
  }

  /** The five rating words in order. */
  lemma RatingWords()
    ensures ConvertRatingToNumber(Some("One")) == 1
    ensures ConvertRatingToNumber(Some("Two")) == 2
    ensures ConvertRatingToNumber(Some("Three")) == 3
    ensures ConvertRatingToNumber(Some("Four")) == 4
    ensures ConvertRatingToNumber(Some("Five")) == 5
    ensures ConvertRatingToNumber(None) == 0
  {
  }

  /** A JavaScript value that `ratingMap[token] || 0` can evaluate to. */
  datatype JsValue = JsNumber(n: int) | JsFunction(name: string) | JsPrototypeObject

  /** Names that a plain object literal inherits from `Object.prototype` as methods. */
  const ObjectPrototypeMethods: set<string> := {
    "constructor", "hasOwnProperty", "isPrototypeOf", "propertyIsEnumerable",
    "toLocaleString", "toString", "valueOf",
    "__defineGetter__", "__defineSetter__", "__lookupGetter__", "__lookupSetter__"
  }

  /** `ratingMap[ratingText] || 0` as the lookup is written: a plain object literal is
      indexed, so inherited members are found too and, being truthy, are returned. A
      missing token is the property key "undefined". */
  function RatingLookupAsWritten(token: Option<string>): JsValue {
    var key := if token.Some? then token.value else "undefined";
    if key in RatingTable then JsNumber(RatingTable[key])
    else if key in ObjectPrototypeMethods then JsFunction(key)
    else if key == "__proto__" then JsPrototypeObject
    else JsNumber(0)
  }

  /** The as-written lookup returns a function, not a rating, for the token "toString"
      (class "star-rating toString"), and the prototype object for "__proto__". */
  lemma RatingLookupAsWrittenNotANumber()
    ensures RatingLookupAsWritten(Some("toString")) == JsFunction("toString")
    ensures RatingLookupAsWritten(Some("__proto__")) == JsPrototypeObject
    ensures !RatingLookupAsWritten(Some("constructor")).JsNumber?
  {
  }

  /** On every token that is not an inherited member name, the as-written lookup and
      the corrected one agree. */
  lemma RatingLookupAgrees(token: Option<string>)
    requires token.Some? ==> token.value !in ObjectPrototypeMethods && token.value != "__proto__"
    ensures RatingLookupAsWritten(token) == JsNumber(ConvertRatingToNumber(token))
  {
  }

  /** Every value of the lookup meets the schema's rating bounds. */
  lemma RatingLookupMeetsSchema(token: Option<string>)
    ensures RatingInBounds(ConvertRatingToNumber(token))
  {
  }

  /** `ratingClass.split(' ')[1]`: the second space-separated word, or `None` (JavaScript
      `undefined`) when the attribute has no space. */
  function ClassToken(cls: string): (r: Option<string>)
    ensures r.None? <==> ' ' !in cls
  {
    var parts := Split(cls, ' ');
    JoinSplit(cls, ' ');
    if |parts| >= 2 then Some(parts[1]) else None
  }

  /** The rating token is the word after the first space, up to the next space. */
  lemma ClassTokenIsSecondWord(a: string, b: string, rest: string)
    requires ' ' !in a && ' ' !in b
    requires rest == [] || rest[0] == ' '
    ensures ClassToken(a + " " + b + rest) == Some(b)
  {
    var cls := a + " " + b + rest;
    assert cls == a + [' '] + (b + rest);
    SplitAfterFirstSeparator(a, b + rest, ' ');
    if rest == [] {
      assert b + rest == b;
      SplitNoSeparator(b, ' ');
    } else {
      assert b + rest == b + [' '] + rest[1..];
      SplitAfterFirstSeparator(b, rest[1..], ' ');
    }
  }

  // ---------------------------------------------------------------- one product block

  /** `String(v)` of an attribute value: a missing attribute becomes "undefined". */
  function AttrText(v: Option<string>): string {
    if v.Some? then v.value else "undefined"
  }

  /** `parseFloat(priceText.replace('Â£', ''))`, `None` for `NaN`. */
  function ExtractPrice(priceText: string): Option<Decimal> {
    match ParseFloat(ReplaceFirst(priceText, CurrencyMark, ""))
    case NaN => None
    case Num(d) => Some(d)
  }

  /** A price written as the mark followed by `w.f` reads as that decimal. */
  lemma ExtractPriceOfMarkedDecimal(w: string, f: string)
    requires AllDigits(w) && AllDigits(f) && (w != [] || f != [])
    ensures AllDigits(w + f)
    ensures ExtractPrice(CurrencyMark + (w + "." + f)) == Some(Decimal(DigitsValue(w + f), |f|))
  {
    ReplaceFirstLeading(CurrencyMark, w + "." + f);
    ParseFloatOfDecimalNotation(w, f);
  }

  /** "Â£51.77", the mark followed by the amount, reads as 51.77. */
  lemma ExtractPriceOfListedPrice()
    ensures ExtractPrice("\U{C2}\U{A3}51.77") == Some(Decimal(5177, 2))
  {
    ExtractPriceOfMarkedDecimal("51", "77");
    assert CurrencyMark + ("51" + "." + "77") == "\U{C2}\U{A3}51.77";
    assert "51" + "77" == "5177";
    DigitsValueExample();
  }

  lemma DigitsValueExample()
    ensures DigitsValue("5177") == 5177
  {
    assert "5177"[..3] == "517" && "517"[..2] == "51" && "51"[..1] == "5" && "5"[..0] == "";
  }

  /** "£51.77", with the pound sign alone, does not read as a number: only the
      two-character mark is removed. */
  lemma ExtractPriceOfBarePound()
    ensures ExtractPrice("\U{A3}51.77") == None
  {
    var s := "\U{A3}51.77";
    forall j: nat ensures !OccursAt(s, CurrencyMark, j) {
      if j + 2 <= |s| {
        assert s[j..j + 2][0] == s[j] != '\U{C2}';
      }
    }
    ReplaceFirstAbsent(s, CurrencyMark, "");
    assert TrimStart(s) == s;
    assert LeadingDigits(s) == [];
  }

  /** The availability label and stock count read from the `.instock` text. */
  function ParseAvailability(text: string): Result<(string, nat), ExtractError> {
    var t := Trim(text);
    if Includes(t, InStockPhrase) then
      match FirstDigitRun(t)
      case None => Err(NoStockCount)
      case Some(run) => Ok((InStockLabel, DigitsValue(run)))
    else Ok((OutOfStockLabel, 0))
  }

  /** The label is "In stock" exactly when the trimmed text contains "In stock", and then
      the count is the value of the text's first run of digits; with no digit at all the
      extraction throws. Otherwise the label is "Out of stock" and the count 0. */
  lemma AvailabilityRules(text: string)
    ensures var r := ParseAvailability(text); var t := Trim(text);
      && (r.Err? <==> Includes(t, InStockPhrase) && forall j :: 0 <= j < |t| ==> !IsDigit(t[j]))
      && (r.Ok? ==> (r.value.0 == InStockLabel <==> Includes(t, InStockPhrase)))
      && (r.Ok? ==> (r.value.0 == InStockLabel || r.value.0 == OutOfStockLabel))
      && (r.Ok? && r.value.0 == OutOfStockLabel ==> r.value.1 == 0)
      && (r.Ok? && r.value.0 == InStockLabel ==>
            exists i :: 0 <= i < |t| && IsDigit(t[i]) && (forall j :: 0 <= j < i ==> !IsDigit(t[j]))
                        && r.value.1 == DigitsValue(LeadingDigits(t[i..])))
  {
    var t := Trim(text);
    FirstDigitRunShape(t);
    if Includes(t, InStockPhrase) && FirstDigitRun(t).Some? {
      var i := FirstDigitIndex(t).value;
      assert 0 <= i < |t| && IsDigit(t[i]);
    }
  }

  /** The site's stock text "In stock (N available)" reads as "In stock" with count N, for
      every N, 0 included: the label and the count are read separately and not
      reconciled. */
  lemma AvailabilityOfStockText(n: nat)
    ensures ParseAvailability("In stock (" + NatToString(n) + " available)") == Ok((InStockLabel, n))
  {
    var ds := NatToString(n);
    var head, tail := "In stock (", " available)";
    var t := head + ds + tail;
    assert t == head + (ds + tail);
    assert t[0] == 'I' && t[|t| - 1] == ')';
    assert TrimStart(t) == t;
    assert TrimEnd(t) == t;
    assert t[0..|InStockPhrase|] == InStockPhrase;
    assert OccursAt(t, InStockPhrase, 0);
    IndexOfShape(t, InStockPhrase);
    assert forall j :: 0 <= j < |head| ==> !IsDigit(head[j]);
    FirstDigitIndexSkip(head, ds + tail);
    assert FirstDigitIndex(ds + tail) == Some(0) by { assert (ds + tail)[0] == ds[0]; }
    assert t[|head|..] == ds + tail;
    LeadingDigitsOfDigitsThen(ds, tail);
    DigitsValueOfNatToString(n);
  }

  /** `extractBookData`: the document built from one product block, or the error it throws.
      `now` is the time the document is stamped with. */
  function ExtractBookData(item: Item, baseUrl: string, resolve: (string, string) -> Option<string>, now: int)
    : Result<BookDoc, ExtractError>
  {
    var price := ExtractPrice(item.priceText);
    match ParseAvailability(item.availabilityText)
    case Err(e) => Err(e)
    case Ok((availability, stock)) =>
      if item.ratingClass.None? then Err(NoRatingClass)
      else
        var rating := ConvertRatingToNumber(ClassToken(item.ratingClass.value));
        match resolve(AttrText(item.href), baseUrl)
        case None => Err(BadUrl)
        case Some(detailUrl) =>
          match resolve(AttrText(item.imageSrc), baseUrl)
          case None => Err(BadUrl)
          case Some(imageUrl) =>
            Ok(BookDoc(item.titleAttr, price, Some(stock), Some(availability), Some(rating),
                       Some(detailUrl), Some(imageUrl), Some(now)))
  }

  /** The block throws exactly when its stock text says "In stock" without a digit, it has
      no rating class, or one of its two URLs does not resolve. Otherwise the document
      carries the title as read, the price as parsed, a non-negative stock that is 0 when
      out of stock, a rating in [0, 5] taken from the class's second word, the resolved
      URLs and the time stamp. */
  lemma ExtractBookDataRules(item: Item, baseUrl: string, resolve: (string, string) -> Option<string>, now: int)
    ensures var r := ExtractBookData(item, baseUrl, resolve, now);
      r.Err? <==>
      || ParseAvailability(item.availabilityText).Err?
      || item.ratingClass.None?
      || resolve(AttrText(item.href), baseUrl).None?
      || resolve(AttrText(item.imageSrc), baseUrl).None?
    ensures var r := ExtractBookData(item, baseUrl, resolve, now);
      r.Ok? ==>
      var d := r.value;
      && d.title == item.titleAttr
      && d.price == ExtractPrice(item.priceText)
      && d.stock.Some? && d.stock.value >= 0
      && d.availability.Some? && (d.availability.value == InStockLabel <==> Includes(Trim(item.availabilityText), InStockPhrase))
      && (d.availability.value == OutOfStockLabel ==> d.stock.value == 0)
      && (d.stock.value > 0 ==> d.availability.value == InStockLabel)
      && d.rating == Some(ConvertRatingToNumber(ClassToken(item.ratingClass.value)))
      && RatingInBounds(d.rating.value)
      && d.detailUrl == resolve(AttrText(item.href), baseUrl)
      && d.imageUrl == resolve(AttrText(item.imageSrc), baseUrl)
      && d.lastUpdated == Some(now)
  {
    AvailabilityRules(item.availabilityText);
    if item.ratingClass.Some? {
      RatingLookupMeetsSchema(ClassToken(item.ratingClass.value));
    }
  }

  /** An extracted document passes the schema exactly when its title is present and
      non-empty, its price is a number, and both resolved URLs are non-empty; the stock,
      availability and rating rules are always met. */
  lemma ExtractedValidIff(item: Item, baseUrl: string, resolve: (string, string) -> Option<string>, now: int)
    requires ExtractBookData(item, baseUrl, resolve, now).Ok?
    ensures var d := ExtractBookData(item, baseUrl, resolve, now).value;
      Valid(d) <==> RequiredString(d.title) && d.price.Some? && d.detailUrl.value != "" && d.imageUrl.value != ""
  {
    ExtractBookDataRules(item, baseUrl, resolve, now);
  }

  // ---------------------------------------------------------------- one page

  /** Applies `f` to each element in order; the first element on which `f` throws makes
      the whole run throw. */
  function TryEach<A, B, E>(xs: seq<A>, f: A -> Result<B, E>): Result<seq<B>, E> {
    if xs == [] then Ok([])
    else
      match TryEach(xs[..|xs| - 1], f)
      case Err(e) => Err(e)
      case Ok(ys) =>
        match f(xs[|xs| - 1])
        case Err(e) => Err(e)
        case Ok(y) => Ok(ys + [y])
  }

  /** One result per element, in order, unless some element throws. */
  lemma {:induction false} TryEachPerElement<A, B, E>(xs: seq<A>, f: A -> Result<B, E>)
    ensures TryEach(xs, f).Ok? <==> forall i :: 0 <= i < |xs| ==> f(xs[i]).Ok?
    ensures TryEach(xs, f).Ok? ==>
      |TryEach(xs, f).value| == |xs| &&
      forall i :: 0 <= i < |xs| ==> TryEach(xs, f).value[i] == f(xs[i]).value
  {
    if xs != [] {
      var init := xs[..|xs| - 1];
      TryEachPerElement(init, f);
      assert forall i :: 0 <= i < |init| ==> init[i] == xs[i];
    }
  }

  /** Once a prefix throws, the whole run throws the same error. */
  lemma {:induction false} TryEachErrSticks<A, B, E>(xs: seq<A>, k: nat, f: A -> Result<B, E>)
    requires k <= |xs|
    requires TryEach(xs[..k], f).Err?
    ensures TryEach(xs, f) == TryEach(xs[..k], f)
    decreases |xs| - k
  {
    if k < |xs| {
      assert xs[..k + 1][..k] == xs[..k];
      TryEachErrSticks(xs, k + 1, f);
    } else {
      assert xs[..k] == xs;
    }
  }

  /** The extraction of the blocks of the page at `baseUrl`. */
  function Extractor(baseUrl: string, resolve: (string, string) -> Option<string>, now: int): Item -> Result<BookDoc, ExtractError> {
    item => ExtractBookData(item, baseUrl, resolve, now)
  }

  /** The blocks of a page in document order; the first block that throws makes the
      whole list throw, as the exception leaves the `.each` callback. */
  function ExtractAll(items: seq<Item>, baseUrl: string, resolve: (string, string) -> Option<string>, now: int)
    : Result<seq<BookDoc>, ExtractError>
  {
    TryEach(items, Extractor(baseUrl, resolve, now))
  }

  /** A page yields one document per block, in document order, unless some block throws. */
  lemma ExtractAllPerItem(items: seq<Item>, baseUrl: string, resolve: (string, string) -> Option<string>, now: int)
    ensures ExtractAll(items, baseUrl, resolve, now).Ok? <==>
      forall i :: 0 <= i < |items| ==> ExtractBookData(items[i], baseUrl, resolve, now).Ok?
    ensures ExtractAll(items, baseUrl, resolve, now).Ok? ==>
      var books := ExtractAll(items, baseUrl, resolve, now).value;
      |books| == |items| &&
      forall i :: 0 <= i < |items| ==> books[i] == ExtractBookData(items[i], baseUrl, resolve, now).value
  {
    TryEachPerElement(items, Extractor(baseUrl, resolve, now));
  }

  /** `scrapePage(url)` as a value: the fallback `{books: [], nextPageUrl: null}` when the
      fetch fails, a block throws, or the "next" link does not resolve. */
  function ScrapePageSpec(site: Site, url: string, now: int): ScrapeResult {
    if url !in site.pages then ScrapeResult([], None)
    else
      var page := site.pages[url];
      PageOutcome(page.next, url, site.resolve, ExtractAll(page.items, url, site.resolve, now))
  }

  /** The result of a fetched page once its blocks have been extracted: the fallback when a
      block threw or the "next" link does not resolve; otherwise the books, and the next
      page's URL when there is a "next" link. */
  function PageOutcome(next: NextLink, url: string, resolve: (string, string) -> Option<string>,
                       extracted: Result<seq<BookDoc>, ExtractError>): ScrapeResult
  {
    match extracted
    case Err(_) => ScrapeResult([], None)
    case Ok(books) =>
      match next
      case NoNextLink => ScrapeResult(books, None)
      case NextLink(href) =>
        match resolve(AttrText(href), url)
        case None => ScrapeResult([], None)
        case Some(nextUrl) => ScrapeResult(books, Some(nextUrl))
  }

  /** One block that throws empties the page and gives no next page. */
  lemma BadItemDiscardsPage(site: Site, url: string, now: int, k: nat)
    requires url in site.pages && k < |site.pages[url].items|
    requires ExtractBookData(site.pages[url].items[k], url, site.resolve, now).Err?
    ensures ScrapePageSpec(site, url, now) == ScrapeResult([], None)
  {
    ExtractAllPerItem(site.pages[url].items, url, site.resolve, now);
  }

  /** A page that is fetched, whose blocks all extract and whose "next" link (if any)
      resolves yields its blocks' documents in order, and a next page exactly when it has
      a "next" link. */
  lemma GoodPageYieldsItsBooks(site: Site, url: string, now: int)
    requires url in site.pages
    requires forall i :: 0 <= i < |site.pages[url].items| ==>
      ExtractBookData(site.pages[url].items[i], url, site.resolve, now).Ok?
    requires site.pages[url].next.NextLink? ==> site.resolve(AttrText(site.pages[url].next.href), url).Some?
    ensures var r := ScrapePageSpec(site, url, now);
      && |r.books| == |site.pages[url].items|
      && (forall i :: 0 <= i < |r.books| ==> r.books[i] == ExtractBookData(site.pages[url].items[i], url, site.resolve, now).value)
      && (r.nextPageUrl.None? <==> site.pages[url].next.NoNextLink?)
  {
    ExtractAllPerItem(site.pages[url].items, url, site.resolve, now);
  }

  /** `.each` with a callback that pushes `f(x)` onto a list: the elements are visited in
      order, and the first throw leaves the loop with that error. */
  method PushEach<A, B, E>(xs: seq<A>, f: A -> Result<B, E>) returns (out: Result<seq<B>, E>)
    ensures out == TryEach(xs, f)
  {
    var pushed: seq<B> := [];
    var i := 0;
    while i < |xs|
      invariant 0 <= i <= |xs|
      invariant TryEach(xs[..i], f) == Ok(pushed)
    {
      assert xs[..i + 1][..i] == xs[..i];
      var r := f(xs[i]);
      if r.Err? {
        TryEachErrSticks(xs, i + 1, f);
        return Err(r.error);
      }
      pushed := pushed + [r.value];
      i := i + 1;
    }
    assert xs[..i] == xs;
    return Ok(pushed);
  }

  /** `scrapePage`: the blocks are extracted one by one and pushed onto `books`; any throw
      lands in the catch-all, which returns an empty page with no next page. */
  method ScrapePage(site: Site, url: string, now: int) returns (books: seq<BookDoc>, nextPageUrl: Option<string>)
    ensures ScrapeResult(books, nextPageUrl) == ScrapePageSpec(site, url, now)
  {
    if url !in site.pages {
      return [], None;
    }
    var page := site.pages[url];
    var extracted := PushEach(page.items, Extractor(url, site.resolve, now));
    books, nextPageUrl := FinishPage(page.next, url, site.resolve, extracted);
  }

  /** The rest of `scrapePage` after the `.each` loop: a throw from the loop, or from
      resolving the "next" link, lands in the catch-all. */
  method FinishPage(next: NextLink, url: string, resolve: (string, string) -> Option<string>,
                    extracted: Result<seq<BookDoc>, ExtractError>)
    returns (books: seq<BookDoc>, nextPageUrl: Option<string>)
    ensures ScrapeResult(books, nextPageUrl) == PageOutcome(next, url, resolve, extracted)
  {
    if extracted.Err? {
      return [], None;
    }
    books := extracted.value;
    if next.NoNextLink? {
      nextPageUrl := None;
    } else {
      nextPageUrl := resolve(AttrText(next.href), url);
      if nextPageUrl.None? {
        books := [];
      }
    }
  }

  // ---------------------------------------------------------------- the crawl

  /** The crawl's two states. */
  datatype CrawlState = Fetching(url: string) | Done

  /** `currentUrl = nextPageUrl` followed by the test `while (currentUrl)`: `null` and the
      empty string both end the crawl. */
  function Advance(nextPageUrl: Option<string>): CrawlState {
    if nextPageUrl.Some? && nextPageUrl.value != "" then Fetching(nextPageUrl.value) else Done
  }

  /** What a finished crawl produced: the books, the pages fetched in order, and the
      number of delays awaited. */
  datatype CrawlResult = CrawlResult(books: seq<BookDoc>, visited: seq<string>, delays: nat)

  /** `scrapePage` on the given site with the given clock reading, as a function of the URL. */
  function Scraper(site: Site, now: int): string -> ScrapeResult {
    url => ScrapePageSpec(site, url, now)
  }

  /** The crawl from `state`, when it finishes within `fuel` pages (`None` otherwise): each
      page's books are appended, then one delay is awaited, then the state advances.
      `scrape` gives what a visit to a URL yields. */
  function Crawl(scrape: string -> ScrapeResult, state: CrawlState, fuel: nat): Option<CrawlResult>
    decreases fuel
  {
    match state
    case Done => Some(CrawlResult([], [], 0))
    case Fetching(url) =>
      if fuel == 0 then None
      else
        var page := scrape(url);
        match Crawl(scrape, Advance(page.nextPageUrl), fuel - 1)
        case None => None
        case Some(rest) => Some(CrawlResult(page.books + rest.books, [url] + rest.visited, rest.delays + 1))
  }

  /** `scrape` is what `scrapePage` yields on `site` with the clock at `now`, URL by URL. */
  ghost predicate ScrapesSite(scrape: string -> ScrapeResult, site: Site, now: int) {
    forall u {:trigger ScrapePageSpec(site, u, now)} :: ScrapePageSpec(site, u, now) == scrape(u)
  }

  lemma ScraperScrapesSite(site: Site, now: int)
    ensures ScrapesSite(Scraper(site, now), site, now)
  {
  }

  /** `scrapeAllBooks`, for a site on which the crawl from the seed ends within `fuel`
      pages: the loop has no page cap of its own. `scrape` names `scrapePage` on the site,
      so that the specification can speak of the pages not yet fetched. */
  method ScrapeAllBooks(site: Site, now: int, ghost scrape: string -> ScrapeResult, ghost fuel: nat)
    returns (allBooks: seq<BookDoc>, delays: nat)
    requires ScrapesSite(scrape, site, now)
    requires Crawl(scrape, Fetching(Seed), fuel).Some?
    ensures allBooks == Crawl(scrape, Fetching(Seed), fuel).value.books
    ensures delays == Crawl(scrape, Fetching(Seed), fuel).value.delays
  {
    ghost var total := Crawl(scrape, Fetching(Seed), fuel).value;
    var state := Fetching(Seed);
    allBooks, delays := [], 0;
    ghost var visited: seq<string> := [];
    ghost var left := fuel;
    while state.Fetching?
      invariant Crawl(scrape, state, left).Some?
      invariant var rest := Crawl(scrape, state, left).value;
        total == CrawlResult(allBooks + rest.books, visited + rest.visited, delays + rest.delays)
      decreases left
    {
      var books, nextPageUrl := ScrapePage(site, state.url, now);
      CrawlStep(scrape, state.url, left, allBooks, visited, delays, books, nextPageUrl);
      allBooks := allBooks + books;
      visited := visited + [state.url];
      state := Advance(nextPageUrl);
      delays := delays + 1;
      left := left - 1;
    }
  }

  /** One turn of the crawl loop: after the page at `url`, what is left to crawl is the
      crawl from the state its "next" link leads to, with one page less of fuel. */
  lemma CrawlStep(scrape: string -> ScrapeResult, url: string, fuel: nat,
                  acc: seq<BookDoc>, visited: seq<string>, delays: nat,
                  books: seq<BookDoc>, nextPageUrl: Option<string>)
    requires Crawl(scrape, Fetching(url), fuel).Some?
    requires scrape(url) == ScrapeResult(books, nextPageUrl)
    ensures fuel >= 1 && Crawl(scrape, Advance(nextPageUrl), fuel - 1).Some?
    ensures var rest := Crawl(scrape, Fetching(url), fuel).value;
      var rest' := Crawl(scrape, Advance(nextPageUrl), fuel - 1).value;
      CrawlResult(acc + rest.books, visited + rest.visited, delays + rest.delays)
        == CrawlResult((acc + books) + rest'.books, (visited + [url]) + rest'.visited, (delays + 1) + rest'.delays)
  {
    var rest' := Crawl(scrape, Advance(nextPageUrl), fuel - 1).value;
    assert acc + (books + rest'.books) == (acc + books) + rest'.books;
    assert visited + ([url] + rest'.visited) == (visited + [url]) + rest'.visited;
  }

  /** Exactly one delay per page fetched, the last page included. */
  lemma {:induction false} CrawlOneDelayPerPage(scrape: string -> ScrapeResult, state: CrawlState, fuel: nat)
    requires Crawl(scrape, state, fuel).Some?
    ensures Crawl(scrape, state, fuel).value.delays == |Crawl(scrape, state, fuel).value.visited|
    decreases fuel
  {
    if state.Fetching? {
      CrawlOneDelayPerPage(scrape, Advance(scrape(state.url).nextPageUrl), fuel - 1);
    }
  }

  /** The books of the given pages, in order. */
  function BooksOf(scrape: string -> ScrapeResult, urls: seq<string>): seq<BookDoc> {
    if urls == [] then [] else scrape(urls[0]).books + BooksOf(scrape, urls[1..])
  }

  /** The crawl follows the "next" links from where it starts until a page gives none,
      and returns the concatenation of the visited pages' books in visit order. */
  lemma {:induction false} CrawlFollowsLinks(scrape: string -> ScrapeResult, url: string, fuel: nat)
    requires Crawl(scrape, Fetching(url), fuel).Some?
    ensures var r := Crawl(scrape, Fetching(url), fuel).value;
      && |r.visited| >= 1 && r.visited[0] == url
      && (forall i :: 0 <= i < |r.visited| - 1 ==>
            Advance(scrape(r.visited[i]).nextPageUrl) == Fetching(r.visited[i + 1]))
      && Advance(scrape(r.visited[|r.visited| - 1]).nextPageUrl) == Done
      && r.books == BooksOf(scrape, r.visited)
    decreases fuel
  {
    var r := Crawl(scrape, Fetching(url), fuel).value;
    var next := Advance(scrape(url).nextPageUrl);
    match next
    case Done =>
      assert r.visited == [url];
      assert BooksOf(scrape, r.visited) == scrape(url).books + BooksOf(scrape, []);
    case Fetching(u) =>
      CrawlFollowsLinks(scrape, u, fuel - 1);
      var rest := Crawl(scrape, next, fuel - 1).value;
      assert r.visited == [url] + rest.visited;
      assert r.visited[1..] == rest.visited;
      forall i | 0 <= i < |r.visited| - 1
        ensures Advance(scrape(r.visited[i]).nextPageUrl) == Fetching(r.visited[i + 1])
      {
        if i > 0 {
          assert r.visited[i] == rest.visited[i - 1] && r.visited[i + 1] == rest.visited[i];
        }
      }
  }

  /** Three pages chained by their "next" links are crawled in full: the books of all
      three in order, and three delays. */
  lemma ThreePageCrawl(scrape: string -> ScrapeResult, u1: string, u2: string, u3: string,
                       b1: seq<BookDoc>, b2: seq<BookDoc>, b3: seq<BookDoc>)
    requires u2 != "" && u3 != ""
    requires scrape(u1) == ScrapeResult(b1, Some(u2))
    requires scrape(u2) == ScrapeResult(b2, Some(u3))
    requires scrape(u3) == ScrapeResult(b3, None)
    ensures Crawl(scrape, Fetching(u1), 3) == Some(CrawlResult(b1 + b2 + b3, [u1, u2, u3], 3))
  {
    assert Crawl(scrape, Done, 0) == Some(CrawlResult([], [], 0));
    assert Crawl(scrape, Fetching(u3), 1) == Some(CrawlResult(b3, [u3], 1)) by {
      assert b3 + [] == b3 && [u3] + [] == [u3];
    }
    assert Crawl(scrape, Fetching(u2), 2) == Some(CrawlResult(b2 + b3, [u2, u3], 2)) by {
      assert [u2] + [u3] == [u2, u3];
    }
    assert b1 + (b2 + b3) == b1 + b2 + b3;
    assert [u1] + [u2, u3] == [u1, u2, u3];
  }

  /** A page that fails ends the crawl there: nothing from it, and its delay is still
      awaited. */
  lemma FailedPageEndsCrawl(scrape: string -> ScrapeResult, url: string, fuel: nat)
    requires fuel >= 1
    requires scrape(url) == ScrapeResult([], None)
    ensures Crawl(scrape, Fetching(url), fuel) == Some(CrawlResult([], [url], 1))
  {
    var page := scrape(url);
    assert Advance(page.nextPageUrl) == Done;
    assert Crawl(scrape, Done, fuel - 1) == Some(CrawlResult([], [], 0));
    assert page.books + [] == [] && [url] + [] == [url];
  }

  /** A page whose "next" link leads back to itself is crawled forever: no bound on the
      number of pages makes the crawl finish. */
  lemma {:induction false} SelfLinkNeverEnds(scrape: string -> ScrapeResult, url: string, fuel: nat)
    requires url != ""
    requires scrape(url).nextPageUrl == Some(url)
    ensures Crawl(scrape, Fetching(url), fuel).None?
  {
    if fuel > 0 {
      SelfLinkNeverEnds(scrape, url, fuel - 1);
    }
  }
}

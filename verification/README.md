# Book explorer: a verified model of the scraper, the ingestion loop and the query API

The book explorer crawls the listing pages of a book shop, turns each product block into a
book record, and upserts the records into a catalog keyed by title. A small HTTP API then
serves the catalog. `GET /` returns a filtered, title-sorted, paginated list, and `GET /:id`
looks up one record.

This project models the logic of those pieces in Dafny and proves what they promise.

| file | module | what it holds |
|---|---|---|
| `wrappers.dfy` | `Wrappers` | `Option`, `Parsed` (`NaN` or a number), `Result` |
| `text.dfy` | `Text` | the JavaScript string operations the code relies on: `trim`, `indexOf`/`includes`, `replace` of a first occurrence, `split`/`join` on one character, the first run of digits (`/\d+/`), ASCII case folding |
| `numbers.dfy` | `JsNumbers` | `parseInt` (radix 10), `parseFloat` on plain decimal notation, exact decimals, `Math.ceil` of a quotient |
| `schema.dfy` | `BookSchema` | the book schema: a document with optional fields, its validity predicate (required fields, rating in [0, 5]), the default of `lastUpdated`, the stored record |
| `scraper.dfy` | `BookScraper` | the rating table, `extractBookData`, `scrapePage` (a method with a loop, proved against a function) and `scrapeAllBooks` (a method with the crawl loop, proved against a fuelled crawl function) |
| `ingest.dfy` | `Ingest` | `main`: a `CatalogStore` class whose `books: map<string, Book>` field is updated in place by the upsert loop, with the exit status |
| `query.dfy` | `BookQuery` | the `GET /` handler: parsing of page and limit, the filter object (built by a method, by conditional assignment), the cast of its numbers, matching, the title sort, skip/limit, pagination; and `GET /:id` |

How the outside world is represented:
- A listing page is an abstract value: the list of its product blocks, each given by the
  strings its selectors return, and the "next" link if there is one.
- Fetching is a map from URL to page. A URL that is not in the map fails to fetch.
- `new URL(ref, base)` is an opaque function that returns `None` where the constructor throws.
- The clock is a parameter `now`. The politeness delay is counted, not waited.
- Prices are exact decimals (`units / 10^scale`), not binary floating point.

## Model

| member | source | states |
|---|---|---|
| BookSchema.Valid | scraper/models/Books.js:3-36 | the schema's validators: the seven required fields present, the strings among them non-empty, the rating within `min: 0` and `max: 5`; its properties are the lemmas below |
| BookSchema.WithDefaults | scraper/models/Books.js:37-40 | `lastUpdated` is set to the current time exactly when it is missing, and no other field changes |
| BookSchema.ValidIffCompleteAndValid | scraper/models/Books.js:3-41 | a document passes the schema iff, after the default is applied, it is a complete record with non-empty strings and a rating in [0, 5] |
| BookSchema.MissingRequiredFieldInvalid | scraper/models/Books.js:4-36 | a document that lacks any of the seven required fields is invalid |
| BookSchema.RatingOutOfBoundsInvalid | scraper/models/Books.js:22-28 | a rating below 0 or above 5 makes a document invalid |
| BookSchema.LastUpdatedOptional | scraper/models/Books.js:37-40 | the absence of `lastUpdated` never affects validity |
| BookSchema.PriceAndStockUnbounded | scraper/models/Books.js:9-17 | `price` and `stock` are checked for presence only: any value is accepted |
| Text.Trim | scraper/book-scraper.js:23 | `String.prototype.trim`: white space and line terminators, the Unicode space separators included, removed from both ends (`TrimStartShape`, `TrimEndShape`) |
| JsNumbers.ParseInt | backend/src/routes/books.js:9 | `parseInt` in radix 10: leading white space, an optional sign, the longest run of digits, NaN without a digit; `ParseIntOfIntToString` and `ParseIntIgnoresTail` state its reading |
| JsNumbers.ParseFloat | backend/src/routes/books.js:26 | `parseFloat` on decimal notation; `ParseFloatOfDecimalNotation` and `ParseFloatOfIntToString` state its reading |
| JsNumbers.ParseSkipsLeadingSpace | backend/src/routes/books.js:9-10 | `parseInt` and `parseFloat` read the same number after any leading white-space character, U+3000 included |
| BookScraper.ConvertRatingToNumber | scraper/book-scraper.js:5-15 | the result is non-zero iff the token is one of the table's words, and then it is that word's value; any other token, and a missing one, give 0 |
| BookScraper.RatingWords | scraper/book-scraper.js:5-15 | "One" to "Five" give 1 to 5, and a missing token gives 0 |
| BookScraper.RatingLookupMeetsSchema | scraper/models/Books.js:22-28 | every value of the corrected rating lookup satisfies the schema's rating bounds |
| BookScraper.RatingLookupAsWrittenNotANumber | scraper/book-scraper.js:14 | as written, the lookup returns an inherited function for "toString" and "constructor", and the prototype object for "__proto__" |
| BookScraper.RatingLookupAgrees | scraper/book-scraper.js:5-15 | on every token that is not an inherited member name, the as-written lookup returns the corrected rating |
| BookScraper.ClassToken | scraper/book-scraper.js:27-28 | the token is `undefined` (None) exactly when the class attribute has no space |
| BookScraper.ClassTokenIsSecondWord | scraper/book-scraper.js:27-28 | for `a b rest`, where a and b contain no space and rest is empty or starts with a space, the token is `b` |
| BookScraper.ExtractPrice | scraper/book-scraper.js:21 | `parseFloat(priceText.replace('Â£', ''))`, NaN as None; stated by the three price lemmas below |
| BookScraper.ExtractPriceOfMarkedDecimal | scraper/book-scraper.js:20-21 | the mark "Â£" followed by `w.f` reads as the decimal whose digits are those of w then f, with \|f\| of them after the point |
| BookScraper.ExtractPriceOfListedPrice | scraper/book-scraper.js:21 | "Â£51.77" reads as 51.77 |
| BookScraper.ExtractPriceOfBarePound | scraper/book-scraper.js:21 | "£51.77", without the "Â", does not read as a number |
| BookScraper.ParseAvailability | scraper/book-scraper.js:23-25 | the availability label and stock count read from the trimmed `.instock` text, or the throw of `null[0]`; stated by `AvailabilityRules` |
| BookScraper.AvailabilityRules | scraper/book-scraper.js:23-25 | the label is "In stock" iff the trimmed text contains "In stock", and the count is then the value of the first run of digits. With no digit, the extraction throws. Otherwise the label is "Out of stock" and the count 0 |
| BookScraper.AvailabilityOfStockText | scraper/book-scraper.js:23-25 | "In stock (N available)" reads as ("In stock", N) for every N, 0 included |
| BookScraper.ExtractBookData | scraper/book-scraper.js:18-47 | `extractBookData`: the document built from one product block, or the error it throws; stated by `ExtractBookDataRules` |
| BookScraper.ExtractBookDataRules | scraper/book-scraper.js:18-47 | a block throws iff its stock text says "In stock" with no digit, it has no rating class, or a URL fails to resolve. Otherwise the document carries the title as read, the parsed price, a stock ≥ 0 that is 0 when out of stock, a rating in [0, 5] taken from the class token, the resolved URLs and the time stamp |
| BookScraper.ExtractedValidIff | scraper/book-scraper.js:37-46 | an extracted document passes the schema iff its title is present and non-empty, its price is a number, and both URLs are non-empty |
| BookScraper.ExtractAllPerItem | scraper/book-scraper.js:57-60 | a page yields one document per block, in document order, iff no block throws |
| BookScraper.PushEach | scraper/book-scraper.js:57-60 | the push loop over the blocks returns the in-order results, or the first error |
| BookScraper.ScrapePageSpec | scraper/book-scraper.js:50-74 | `scrapePage` as a value: the fallback when the page cannot be fetched, otherwise the outcome of its extracted blocks and next link; stated by `BadItemDiscardsPage` and `GoodPageYieldsItsBooks` |
| BookScraper.PageOutcome | scraper/book-scraper.js:62-73 | the page's result once its blocks are extracted: the fallback on a throw or an unresolvable next link, otherwise the books and the next URL when there is a next link |
| BookScraper.ScrapePage | scraper/book-scraper.js:50-74 | the method's books and next URL are those of the page's specification function: the fallback `{[], null}` on a fetch failure, a throwing block or an unresolvable next link |
| BookScraper.FinishPage | scraper/book-scraper.js:62-73 | the steps after the `.each` loop give exactly the page outcome of the extraction result |
| BookScraper.BadItemDiscardsPage | scraper/book-scraper.js:57-73 | a single block that throws empties the whole page, and the page gives no next URL |
| BookScraper.GoodPageYieldsItsBooks | scraper/book-scraper.js:55-69 | a clean page yields its blocks' documents in order, and a next URL iff it has a next link |
| BookScraper.Crawl | scraper/book-scraper.js:77-92 | the two-state crawl from a URL with a page budget: each page's books appended, one delay, then the next URL or the end; stated by the crawl lemmas below |
| BookScraper.ScrapeAllBooks | scraper/book-scraper.js:77-92 | the loop returns the books and the delay count of the crawl from the seed |
| BookScraper.CrawlFollowsLinks | scraper/book-scraper.js:78-88 | the crawl visits pages by following next links from its start until one gives none, and returns the visited pages' books concatenated in visit order |
| BookScraper.CrawlOneDelayPerPage | scraper/book-scraper.js:81-88 | there is exactly one delay per fetched page, the last one included |
| BookScraper.ThreePageCrawl | scraper/book-scraper.js:78-88 | three chained pages give the books of all three, in order, and 3 delays |
| BookScraper.FailedPageEndsCrawl | scraper/book-scraper.js:70-88 | a failing page ends the crawl: it adds no books, and its delay still happens |
| BookScraper.SelfLinkNeverEnds | scraper/book-scraper.js:81-88 | a page whose next link leads to itself makes the crawl run forever |
| Ingest.Cast | scraper/index.js:20-24 | an upsert of a document writes a record iff all seven required fields are present; the record carries every field of the document, with `lastUpdated` defaulting to now |
| Ingest.CastOfExtracted | scraper/index.js:18-25 | a scraped document fails its upsert iff its title is missing or its price is NaN, and a stored one keeps the extraction time |
| Ingest.SavedCount | scraper/index.js:18-25 | the count of documents written is the index of the first upsert that fails (the document does not cast, or the database refuses the write), or all of them if none fails |
| Ingest.RefusedWriteStops | scraper/index.js:18-32 | a write the database refuses stops the loop there at the latest |
| Ingest.AllAcceptedSavesAllIff | scraper/index.js:18-32 | when the database accepts every write, every document is saved iff every document casts |
| Ingest.CatalogStore.Upsert | scraper/index.js:20-24 | the record is stored under its title, inserting it or replacing the record already there |
| Ingest.CatalogStore.SaveAll | scraper/index.js:18-32 | the catalog becomes the old one with the documents before the first failed upsert (a cast failure or a refused write) upserted in order. Exit status 0 means every document was upserted, and 1 that one failed |
| Ingest.CatalogStore.Ingest | scraper/index.js:5-33 | a failed connection exits with 1 and writes nothing; otherwise the crawl's books are saved as `SaveAll` states |
| Ingest.Upserted | scraper/index.js:18-25 | the catalog after the upserts of a list of records, one after the other, keyed by title; stated by the upsert lemmas below |
| Ingest.UpsertedAt | scraper/index.js:18-25 | after the upserts, a title is stored iff it was stored before or was scraped. A scraped title maps to the last record with that title; any other title keeps its record |
| Ingest.LastWriterWins | scraper/index.js:18-25 | every scraped title is stored, with the last record in the list that carries it |
| Ingest.OthersUnchanged | scraper/index.js:18-25 | nothing is deleted, titles that were not scraped keep their records, and the stored titles are the old ones plus the scraped ones |
| Ingest.UpsertIdempotent | scraper/index.js:18-25 | running the same list of upserts twice gives the same catalog as running it once |
| Ingest.KeyGrowth | scraper/index.js:18-25 | the number of stored titles grows by exactly the number of scraped titles that were not stored before |
| BookQuery.PageOf | backend/src/routes/books.js:9 | `parseInt(page) \|\| 1`; stated by `PageAndLimitDefaults` |
| BookQuery.LimitOf | backend/src/routes/books.js:10 | `parseInt(limit) \|\| 20`, with no upper bound; stated by `PageAndLimitDefaults` |
| BookQuery.PageAndLimitDefaults | backend/src/routes/books.js:9-11 | a missing, unparsable or zero `page` gives 1, and any other value gives its integer prefix; likewise `limit` with 20. Neither is ever 0 |
| BookQuery.PageOfDecimal | backend/src/routes/books.js:9 | a page written in decimal notation is that number, unless it is 0 |
| BookQuery.PageOfSpacedDecimal | backend/src/routes/books.js:9 | a page written as white space then a decimal number is that number: "\U{3000}7" is page 7 |
| BookQuery.FilterOf | backend/src/routes/books.js:14-36 | the filter object: a member for each truthy option, `price` when either bound is set, `stock` only for "true" or "false"; stated by the per-option lemmas below |
| BookQuery.BuildFilter | backend/src/routes/books.js:14-36 | the filter built by conditional assignment is the one each set option calls for |
| BookQuery.CastFilter | backend/src/routes/books.js:20-28 | the cast of the filter's numbers when the query runs: any NaN bound fails the query; stated by `RatingKeepsIff`, `PriceBoundsIff` and `ListFailsIff` |
| BookQuery.Matches | backend/src/routes/books.js:14-39 | the conjunction of the set criteria on one record; stated by the per-option lemmas below |
| BookQuery.EmptyQueryMatchesAll | backend/src/routes/books.js:14-36 | with every option absent or empty there are no criteria, every record matches, and the matches are the whole store |
| BookQuery.SearchKeepsIff | backend/src/routes/books.js:16-18 | with `search` set, a record matches iff it meets the other criteria and its title contains the search text at some position, ignoring ASCII case |
| BookQuery.RatingKeepsIff | backend/src/routes/books.js:20-22 | with `rating` set, the query fails iff the rating is not a number; otherwise a record matches iff it meets the other criteria and its rating is at least the parsed value |
| BookQuery.PriceBoundsIff | backend/src/routes/books.js:24-28 | each price bound is present iff its option is set and equals the parsed value. A record matches iff it meets the other criteria and each present bound, inclusively |
| BookQuery.WholePriceBounds | backend/src/routes/books.js:24-28 | `minPrice` and `maxPrice` written as integers cast to exactly those two bounds and nothing else |
| BookQuery.PriceRangeExample | backend/src/routes/books.js:24-28 | over records priced 5, 10 and 15, the bounds 8 and 12 keep only the record priced 10 |
| BookQuery.InStockThreeWay | backend/src/routes/books.js:30-36 | "true" keeps exactly the records with stock > 0, "false" exactly those with stock 0, and any other value sets no stock criterion |
| BookQuery.MatchesOf | backend/src/routes/books.js:39 | the matches are exactly the stored records that meet the criteria, and form a sub-multiset of the store |
| BookQuery.MatchesOfCounts | backend/src/routes/books.js:39-44 | a matching record appears among the matches as many times as in the store, and any other record not at all, so their number is the `countDocuments` figure |
| BookQuery.SortByTitle | backend/src/routes/books.js:40 | `.sort({title: 1})`, as an insertion sort; stated by `SortByTitleCorrect` |
| BookQuery.SortByTitleCorrect | backend/src/routes/books.js:40 | the sort returns the same records (as a multiset) in ascending title order |
| BookQuery.TitleLeAntisymmetric | backend/src/routes/books.js:40 | the title order is antisymmetric: two titles ordered both ways are equal |
| BookQuery.Drop | backend/src/routes/books.js:41 | skipping k records leaves the records from position k on, or none when k is past the end |
| BookQuery.Take | backend/src/routes/books.js:42 | limiting to n keeps the first \|n\| records, or all of them if there are fewer |
| BookQuery.ListBooks | backend/src/routes/books.js:7-60 | the `GET /` handler: 500 when the filter does not cast, otherwise the page that `page` and `limit` name; stated by `ListFailsIff` |
| BookQuery.ListPage | backend/src/routes/books.js:11-55 | the sorted, skipped and limited matches with the pagination figures, or 500 on a negative skip; stated by `ListPageShape`, `ListPageMembers` and `PageBeyondTotalIsEmpty` |
| BookQuery.PageOfList | backend/src/routes/books.js:11-55 | the page of a sorted result list: 500 on a negative skip, otherwise the window and the pagination figures; stated by `PageOfSortedShape` |
| BookQuery.ListFailsIff | backend/src/routes/books.js:9-58 | the list request fails (500) iff a set rating or price option is not a number or the skip is negative. Otherwise it lists the page that `page` and `limit` name |
| BookQuery.ListPageShape | backend/src/routes/books.js:39-55 | a listed page holds the matches sorted by title from position skip: \|limit\| of them, or all that are left when fewer are. `count` is their number, `totalCount` the number of matches, `current` the page, and `total` the ceiling of totalCount / limit |
| BookQuery.ListPageMembers | backend/src/routes/books.js:39-42 | the sorted matches are exactly the stored records that meet the criteria, and a listed page holds only such records |
| BookQuery.PageOfSortedShape | backend/src/routes/books.js:41-55 | a listed page of a title-sorted list is title-sorted, holds \|limit\| records from position skip or all that are left, and carries its pagination figures |
| BookQuery.WindowOfSorted | backend/src/routes/books.js:40-42 | a skip/limit window of a title-sorted list is title-sorted, exactly min(\|limit\|, what is left) long, and holds the list's records from position skip on |
| BookQuery.PageBeyondTotalIsEmpty | backend/src/routes/books.js:44-55 | with a positive limit, a page past the last one is a normal response with zero items |
| JsNumbers.CeilDiv | backend/src/routes/books.js:45 | the result is the least integer at or above t / l, for both signs of l |
| BookQuery.FindById | backend/src/routes/books.js:63-75 | an identifier that is not 24 hexadecimal digits fails (500); a valid one with no record is not found (404); otherwise the stored record is returned |
| BookQuery.FindByIdIgnoresCase | backend/src/routes/books.js:65 | the lookup ignores the case of the identifier's hexadecimal letters |

The model follows the code, including where it behaves in ways a reader might not expect:
- One delay is awaited after every page, the last included, so three pages give three delays.
- A single product block that throws empties its whole page and ends the crawl; the other blocks of that page are lost too.
- A rating or price option that is not a number fails the request with the server-fault status (500).
- `limit` comes from the caller, with no upper bound.
- `lastUpdated` is the extraction time carried by the scraped document; the upsert does not restamp it.
- "£51.77" does not read as 51.77: only the two-character text "Â£" is removed before parsing (see `BookScraper.ExtractPriceOfBarePound`).
- The stock label and the count are read separately. "In stock (0 available)" gives "In stock" with stock 0, so "in stock iff stock > 0" holds only in the direction stock > 0 ⇒ "In stock".
- An upsert that fails, whether the document does not cast or the database refuses the write, ends the ingestion with exit status 1, and the remaining documents are not upserted.

## Left out

- I/O: HTTP fetching, HTML parsing with CSS selectors, `new URL`, the database connection and the database's answer to each write, logging and `process.exit` are parameters or results of the model. The delay is counted, not waited.
- `POST /refresh` (a fire-and-forget import of the scraper) and the frontend components are not part of this model.
- `backend/src/models/Book.js` is not part of this model. The backend's records are taken to have the shape of `scraper/models/Books.js`.
- `parseInt` is modelled for radix 10 only, so a `0x` prefix is not read as hexadecimal. `parseFloat` is modelled on plain decimal notation, without exponents or `Infinity`.
- Floating-point rounding is left out: prices are exact decimals.
- The search text is matched as a literal substring with ASCII case folding. MongoDB reads it as a regular expression with Unicode case-insensitivity, and the code does not escape metacharacters.
- The title order compares characters by code point. The collation of the database and the order among records with equal titles are not modelled; the model's sort is stable.
- Query-string values that are arrays (a repeated option) are not modelled.
- An identifier in its 12-byte binary form is not modelled; only the 24-digit hexadecimal form is.
- BookScraper.ScrapeAllBooks: the crawl is proved only for sites where it ends within a given number of pages (`fuel`). A chain of next links that never ends is shown to make the crawl run forever (`SelfLinkNeverEnds`), but it is not a run of the method.
- BookScraper.ScrapePage: one time stamp `now` is used for a whole crawl, while the code reads the clock once per product block.
- Ingest.Cast: a document with a required field missing other than the title or the price counts as a failed upsert. Mongoose, which does not run validators on update, might write it. Every scraped document carries those fields (`CastOfExtracted`), so the loop over a crawl is not affected.
- Ingest.CatalogStore.Ingest: the filter of an upsert whose title is `undefined` is not modelled; such a document counts as a failed upsert.
- The database is assumed to serve a single writer. Concurrent reads during a crawl are not modelled.

## Findings

| source | as written | input that shows it | evidently intended | confidence | as-written member | corrected member |
|---|---|---|---|---|---|---|
| scraper/book-scraper.js:6-14 | `ratingMap[ratingText] \|\| 0` indexes a plain object literal, so the names it inherits from `Object.prototype` are found and, being truthy, are returned | the class attribute "star-rating toString" gives the token "toString", and the lookup returns a function rather than a number in [0, 5] | a token outside "One" to "Five" gives 0 | low (the site never emits such a class); not executed | BookScraper.RatingLookupAsWrittenNotANumber | BookScraper.ConvertRatingToNumber |

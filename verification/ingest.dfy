/**
 * The ingestion entry point: connect, crawl, then upsert every scraped document
 * into the catalog, keyed by title, one after the other. The catalog is a map
 * from title to stored record, held by a class whose method changes it in place.
 */
module Ingest {
  import opened Wrappers
  import opened BookSchema
  import opened BookScraper

  /** Exit statuses of the ingestion process. */
  const ExitOk: int := 0
  const ExitFailure: int := 1

  /** The record an upsert of `d` writes, or `None` when the document cannot be cast:
      a title that is missing, or a price that is `NaN` (the Number cast refuses it).
      `lastUpdated` takes its default when missing. */
  function Cast(d: BookDoc, now: int): (r: Option<Book>)
    ensures r.Some? <==> && d.title.Some? && d.price.Some? && d.stock.Some? && d.availability.Some?
                         && d.rating.Some? && d.detailUrl.Some? && d.imageUrl.Some?
    ensures r.Some? ==> && Some(r.value.title) == d.title && Some(r.value.price) == d.price
                        && (d.lastUpdated.None? ==> r.value.lastUpdated == now)
    ensures r.Some? ==>
      WithDefaults(d, now) == BookDoc(Some(r.value.title), Some(r.value.price), Some(r.value.stock),
                                      Some(r.value.availability), Some(r.value.rating), Some(r.value.detailUrl),
                                      Some(r.value.imageUrl), Some(r.value.lastUpdated))
  {
    ToBook(WithDefaults(d, now))
  }

  /** A scraped document fails the cast exactly when its title is missing or its price is
      not a number; every other field is always filled in by the extraction. */
  lemma CastOfExtracted(item: Item, baseUrl: string, resolve: (string, string) -> Option<string>, t: int, now: int)
    requires ExtractBookData(item, baseUrl, resolve, t).Ok?
    ensures var d := ExtractBookData(item, baseUrl, resolve, t).value;
      && (Cast(d, now).None? <==> d.title.None? || d.price.None?)
      && (Cast(d, now).Some? ==> Cast(d, now).value.lastUpdated == t)
  {
    ExtractBookDataRules(item, baseUrl, resolve, t);
  }

  /** The titles of a list of records. */
  function Titles(bs: seq<Book>): (r: set<string>)
    ensures forall i :: 0 <= i < |bs| ==> bs[i].title in r
    ensures forall t :: t in r ==> exists i :: 0 <= i < |bs| && bs[i].title == t
  {
    if bs == [] then {} else Titles(bs[..|bs| - 1]) + {bs[|bs| - 1].title}
  }

  /** The position of the last record of the list with title `t`. */
  function LastIndex(bs: seq<Book>, t: string): (i: nat)
    requires t in Titles(bs)
    ensures i < |bs| && bs[i].title == t
    ensures forall j :: i < j < |bs| ==> bs[j].title != t
  {
    if bs[|bs| - 1].title == t then |bs| - 1 else LastIndex(bs[..|bs| - 1], t)
  }

  /** The last record of the list with title `t`. */
  function LastWithTitle(bs: seq<Book>, t: string): Book
    requires t in Titles(bs)
  {
    bs[LastIndex(bs, t)]
  }

  /** The catalog after upserting the records one by one, in order. */
  function Upserted(store: map<string, Book>, bs: seq<Book>): map<string, Book> {
    if bs == [] then store
    else
      var last := bs[|bs| - 1];
      Upserted(store, bs[..|bs| - 1])[last.title := last]
  }

  /** Upserting a list leaves every title of the list mapped to the last record with that
      title, and every other title as it was: present with the same record, or absent. */
  lemma {:induction false} UpsertedAt(store: map<string, Book>, bs: seq<Book>, t: string)
    ensures t in Upserted(store, bs) <==> t in store || t in Titles(bs)
    ensures t in Titles(bs) ==> Upserted(store, bs)[t] == LastWithTitle(bs, t)
    ensures t !in Titles(bs) && t in store ==> Upserted(store, bs)[t] == store[t]
  {
    if bs != [] {
      UpsertedAt(store, bs[..|bs| - 1], t);
    }
  }

  /** Last writer wins: after the loop every scraped title is stored, with the last record
      of the list that carries it. */
  lemma LastWriterWins(store: map<string, Book>, bs: seq<Book>)
    ensures forall t :: t in Titles(bs) ==> t in Upserted(store, bs) && Upserted(store, bs)[t] == LastWithTitle(bs, t)
  {
    forall t | t in Titles(bs)
      ensures t in Upserted(store, bs) && Upserted(store, bs)[t] == LastWithTitle(bs, t)
    {
      UpsertedAt(store, bs, t);
    }
  }

  /** Nothing is deleted, and titles that were not scraped keep their records. */
  lemma OthersUnchanged(store: map<string, Book>, bs: seq<Book>)
    ensures store.Keys <= Upserted(store, bs).Keys
    ensures forall t :: t in store && t !in Titles(bs) ==> Upserted(store, bs)[t] == store[t]
    ensures Upserted(store, bs).Keys == store.Keys + Titles(bs)
  {
    forall t | t in store
      ensures t in Upserted(store, bs) && (t !in Titles(bs) ==> Upserted(store, bs)[t] == store[t])
    {
      UpsertedAt(store, bs, t);
    }
    forall t | t in Upserted(store, bs) ensures t in store.Keys + Titles(bs) {
      UpsertedAt(store, bs, t);
    }
    forall t | t in Titles(bs) ensures t in Upserted(store, bs) {
      UpsertedAt(store, bs, t);
    }
  }

  /** Running the same list of upserts twice gives the same catalog as running it once. */
  lemma UpsertIdempotent(store: map<string, Book>, bs: seq<Book>)
    ensures Upserted(Upserted(store, bs), bs) == Upserted(store, bs)
  {
    var once := Upserted(store, bs);
    var twice := Upserted(once, bs);
    forall t ensures (t in twice <==> t in once) && (t in once ==> twice[t] == once[t]) {
      UpsertedAt(store, bs, t);
      UpsertedAt(once, bs, t);
    }
  }

  /** The number of stored titles grows by exactly the number of scraped titles that were
      not stored before. */
  lemma KeyGrowth(store: map<string, Book>, bs: seq<Book>)
    ensures |Upserted(store, bs).Keys| == |store.Keys| + |Titles(bs) - store.Keys|
  {
    OthersUnchanged(store, bs);
    var added := Titles(bs) - store.Keys;
    assert store.Keys + Titles(bs) == store.Keys + added;
    assert store.Keys * added == {};
  }

  /** The records of documents that all cast. */
  function CastAll(docs: seq<BookDoc>, now: int): (r: seq<Book>)
    requires forall i :: 0 <= i < |docs| ==> Cast(docs[i], now).Some?
    ensures |r| == |docs| && forall i :: 0 <= i < |docs| ==> r[i] == Cast(docs[i], now).value
  {
    seq(|docs|, i requires 0 <= i < |docs| => Cast(docs[i], now).value)
  }

  /** Whether the upsert of document `i` succeeds: the document casts, and the database
      accepts the write (`accepts(i)`, the outcome of the `i`-th call). */
  predicate WriteSucceeds(docs: seq<BookDoc>, now: int, accepts: nat -> bool, i: nat)
    requires i < |docs|
  {
    Cast(docs[i], now).Some? && accepts(i)
  }

  /** How many documents are upserted before the first upsert that fails: all of them
      when none fails. */
  function SavedCount(docs: seq<BookDoc>, now: int, accepts: nat -> bool): (k: nat)
    ensures k <= |docs|
    ensures forall i :: 0 <= i < k ==> WriteSucceeds(docs, now, accepts, i)
    ensures forall i :: 0 <= i < k ==> Cast(docs[i], now).Some?
    ensures k < |docs| ==> !WriteSucceeds(docs, now, accepts, k)
  {
    SavedFrom(docs, now, accepts, 0)
  }

  function SavedFrom(docs: seq<BookDoc>, now: int, accepts: nat -> bool, i: nat): (k: nat)
    requires i <= |docs|
    ensures i <= k <= |docs|
    ensures forall j :: i <= j < k ==> WriteSucceeds(docs, now, accepts, j)
    ensures forall j :: i <= j < k ==> Cast(docs[j], now).Some?
    ensures k < |docs| ==> !WriteSucceeds(docs, now, accepts, k)
    decreases |docs| - i
  {
    if i == |docs| || !WriteSucceeds(docs, now, accepts, i) then i else SavedFrom(docs, now, accepts, i + 1)
  }

  /** A write the database refuses stops the loop there at the latest. */
  lemma RefusedWriteStops(docs: seq<BookDoc>, now: int, accepts: nat -> bool, i: nat)
    requires i < |docs| && !accepts(i)
    ensures SavedCount(docs, now, accepts) <= i
  {
    assert !WriteSucceeds(docs, now, accepts, i);
  }

  /** When the database accepts every write, every document is saved exactly when every
      document casts. */
  lemma AllAcceptedSavesAllIff(docs: seq<BookDoc>, now: int, accepts: nat -> bool)
    requires forall i: nat :: accepts(i)
    ensures SavedCount(docs, now, accepts) == |docs| <==> forall i :: 0 <= i < |docs| ==> Cast(docs[i], now).Some?
  {
    var k := SavedCount(docs, now, accepts);
    if k < |docs| {
      assert !WriteSucceeds(docs, now, accepts, k);
    }
  }

  /** The catalog: stored records keyed by title. */
  class CatalogStore {
    var books: map<string, Book>

    constructor(initial: map<string, Book>)
      ensures books == initial
    {
      books := initial;
    }

    /** `findOneAndUpdate({title}, record, {upsert: true})`: inserts the record, or replaces
        the one stored under its title. */
    method Upsert(b: Book)
      modifies this
      ensures books == old(books)[b.title := b]
    {
      books := books[b.title := b];
    }

    /** The `for` loop of `main` with its `catch`: the documents are upserted in order; the
        first upsert that fails (the document does not cast, or the database refuses the
        write) stops the loop with exit status 1, and the upserts already done stay. Exit
        status 0 means every document was upserted. `accepts(i)` is the database's answer
        to the `i`-th write. */
    method SaveAll(docs: seq<BookDoc>, now: int, accepts: nat -> bool) returns (status: int)
      modifies this
      ensures var k := SavedCount(docs, now, accepts);
        && books == Upserted(old(books), CastAll(docs[..k], now))
        && (status == ExitOk <==> k == |docs|)
        && (status == ExitOk || status == ExitFailure)
    {
      var i := 0;
      while i < |docs|
        invariant 0 <= i <= |docs|
        invariant forall j :: 0 <= j < i ==> WriteSucceeds(docs, now, accepts, j)
        invariant forall j :: 0 <= j < i ==> Cast(docs[j], now).Some?
        invariant books == Upserted(old(books), CastAll(docs[..i], now))
      {
        var b := Cast(docs[i], now);
        if b.None? || !accepts(i) {
          assert !WriteSucceeds(docs, now, accepts, i);
          assert SavedCount(docs, now, accepts) == i;
          return ExitFailure;
        }
        assert CastAll(docs[..i + 1], now)[..i] == CastAll(docs[..i], now);
        Upsert(b.value);
        i := i + 1;
      }
      assert SavedCount(docs, now, accepts) == i;
      assert docs[..i] == docs;
      return ExitOk;
    }

    /** `main`: a failed connection exits with status 1 before anything is written;
        otherwise the crawl's books are saved as `SaveAll` describes. */
    method Ingest(connected: bool, site: Site, now: int, accepts: nat -> bool,
                  ghost scrape: string -> ScrapeResult, ghost fuel: nat)
      returns (status: int)
      requires ScrapesSite(scrape, site, now)
      requires Crawl(scrape, Fetching(Seed), fuel).Some?
      modifies this
      ensures !connected ==> status == ExitFailure && books == old(books)
      ensures connected ==>
        var docs := Crawl(scrape, Fetching(Seed), fuel).value.books;
        var k := SavedCount(docs, now, accepts);
        && books == Upserted(old(books), CastAll(docs[..k], now))
        && (status == ExitOk <==> k == |docs|)
        && (status == ExitOk || status == ExitFailure)
    {
      if !connected {
        return ExitFailure;
      }
      var docs, _ := ScrapeAllBooks(site, now, scrape, fuel);
      status := SaveAll(docs, now, accepts);
    }
  }
}

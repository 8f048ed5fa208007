/**
 * The catalog record: the book schema's fields, which of them are required,
 * the bounds on `rating` and the default of `lastUpdated`.
 */
module BookSchema {
  import opened Wrappers
  import opened JsNumbers

  /** A document as offered to the schema; any field may be missing. A price that is
      `NaN` is represented as missing, since the Number cast refuses it. */
  datatype BookDoc = BookDoc(
    title: Option<string>,
    price: Option<Decimal>,
    stock: Option<int>,
    availability: Option<string>,
    rating: Option<int>,
    detailUrl: Option<string>,
    imageUrl: Option<string>,
    lastUpdated: Option<int>)

  /** A stored book, every field present; `lastUpdated` is a time in milliseconds. */
  datatype Book = Book(
    title: string,
    price: Decimal,
    stock: int,
    availability: string,
    rating: int,
    detailUrl: string,
    imageUrl: string,
    lastUpdated: int)

  const MinRating: int := 0
  const MaxRating: int := 5

  /** `required: true` on a String path: present and not the empty string. */
  predicate RequiredString(v: Option<string>) {
    v.Some? && v.value != ""
  }

  /** `required: true` on a Number path: present (any number, no range). */
  predicate RequiredNumber<T>(v: Option<T>) {
    v.Some?
  }

  /** The `min: 0` and `max: 5` validators of `rating`. */
  predicate RatingInBounds(r: int) {
    MinRating <= r <= MaxRating
  }

  /** Whether the schema's validators accept a document: the seven required fields are
      present, the strings among them non-empty, and the rating within its bounds. */
  predicate Valid(d: BookDoc) {
    && RequiredString(d.title)
    && RequiredNumber(d.price)
    && RequiredNumber(d.stock)
    && RequiredString(d.availability)
    && RequiredNumber(d.rating) && RatingInBounds(d.rating.value)
    && RequiredString(d.detailUrl)
    && RequiredString(d.imageUrl)
  }

  /** The same constraints, on a record whose fields are all present. */
  predicate ValidBook(b: Book) {
    && b.title != ""
    && b.availability != ""
    && RatingInBounds(b.rating)
    && b.detailUrl != ""
    && b.imageUrl != ""
  }

  /** The `default: Date.now` of `lastUpdated`: filled in with `now` only when missing. */
  function WithDefaults(d: BookDoc, now: int): (r: BookDoc)
    ensures r.lastUpdated.Some?
    ensures d.lastUpdated.Some? ==> r == d
    ensures d.lastUpdated.None? ==> r.lastUpdated.value == now
    ensures r.(lastUpdated := d.lastUpdated) == d
  {
    if d.lastUpdated.Some? then d else d.(lastUpdated := Some(now))
  }

  /** The document as a stored record, when every field is present. */
  function ToBook(d: BookDoc): Option<Book> {
    if d.title.Some? && d.price.Some? && d.stock.Some? && d.availability.Some?
       && d.rating.Some? && d.detailUrl.Some? && d.imageUrl.Some? && d.lastUpdated.Some?
    then Some(Book(d.title.value, d.price.value, d.stock.value, d.availability.value,
                   d.rating.value, d.detailUrl.value, d.imageUrl.value, d.lastUpdated.value))
    else None
  }

  /** A document is valid exactly when, once its default is applied, it is a complete
      record that satisfies the constraints. */
  lemma ValidIffCompleteAndValid(d: BookDoc, now: int)
    ensures Valid(d) <==> ToBook(WithDefaults(d, now)).Some? && ValidBook(ToBook(WithDefaults(d, now)).value)
  {
  }

  /** Dropping any one required field makes a document invalid. */
  lemma MissingRequiredFieldInvalid(d: BookDoc)
    requires d.title.None? || d.price.None? || d.stock.None? || d.availability.None?
          || d.rating.None? || d.detailUrl.None? || d.imageUrl.None?
    ensures !Valid(d)
  {
  }

  /** A missing `lastUpdated` never makes a document invalid. */
  lemma LastUpdatedOptional(d: BookDoc)
    ensures Valid(d.(lastUpdated := None)) == Valid(d)
  {
  }

  /** `price` and `stock` are constrained by presence only: any values are accepted. */
  lemma PriceAndStockUnbounded(d: BookDoc, p: Decimal, s: int)
    requires d.price.Some? && d.stock.Some?
    ensures Valid(d.(price := Some(p), stock := Some(s))) == Valid(d)
  {
  }

  /** A rating outside [0, 5] makes a document invalid, whatever the other fields are. */
  lemma RatingOutOfBoundsInvalid(d: BookDoc)
    requires d.rating.Some? && (d.rating.value < 0 || d.rating.value > 5)
    ensures !Valid(d)
  {
  }
}

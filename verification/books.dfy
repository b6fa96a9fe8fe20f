/** The book record the front end works on (a volume in the shape of the
    book-search API) and the derived identity used by the reading lists. */
module Books {
  import opened Wrappers
  import opened Text

  /** The `volumeInfo` fields the core reads. A missing `volumeInfo` behaves
      like one whose fields are all missing (`volumeInfo || {}`, `?.`). */
  datatype VolumeInfo = VolumeInfo(
    title: Option<string>,
    authors: Option<seq<string>>,
    publisher: Option<string>,
    publishedDate: Option<string>,
    description: Option<string>,
    pageCount: Option<int>,
    categories: Option<seq<string>>)

  datatype Book = Book(id: Option<string>, info: VolumeInfo)

  const NoInfo := VolumeInfo(None, None, None, None, None, None, None)

  /** The value of `id || title + authors.join(',')`: a string, or `NaN`
      when both operands of `+` are `undefined`. */
  datatype Key = Str(s: string) | NaN

  /** JavaScript's `+` on an optional title and an optional joined author
      list: `undefined` turns into the text "undefined" next to a string, and
      `undefined + undefined` is `NaN`. */
  function ConcatKey(title: Option<string>, authors: Option<seq<string>>): (k: Key)
    ensures k.NaN? <==> title.None? && authors.None?
  {
    match (title, authors)
    case (None, None) => NaN
    case (Some(t), None) => Str(t + "undefined")
    case (None, Some(a)) => Str("undefined" + Join(a, ","))
    case (Some(t), Some(a)) => Str(t + Join(a, ","))
  }

  /** The derived identity of a book: its `id` when that is a non-empty
      string, else the concatenation of title and comma-joined authors. */
  function Identity(b: Book): (k: Key)
    ensures b.id.Some? && b.id.value != "" ==> k == Str(b.id.value)
    ensures k.NaN? <==> (b.id.None? || b.id.value == "") && b.info.title.None? && b.info.authors.None?
  {
    if b.id.Some? && b.id.value != "" then Str(b.id.value)
    else ConcatKey(b.info.title, b.info.authors)
  }

  /** `===` on identities: equal strings match, `NaN` matches nothing. */
  predicate SameIdentity(a: Book, b: Book) {
    Identity(a).Str? && Identity(a) == Identity(b)
  }

  /** The year of `publishedDate`, as `extractYear` finds it. */
  function YearOf(b: Book): Option<nat> {
    ExtractYear(b.info.publishedDate)
  }

  /** A year that is truthy: found and not 0. */
  predicate HasYear(b: Book) {
    YearOf(b).Some? && YearOf(b).value != 0
  }
}

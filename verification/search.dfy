/** `fetchBooks` and the search-form handler of the app script: the choice
    between the offline cache, the backend's answer and the fallbacks, the
    conversion of backend books to the front end's shape, and what the
    handler then does with the results. The online flag, the clock and the
    outcome of the request are parameters. */
module Search {
  import opened Wrappers
  import opened Books
  import opened OfflineCache
  import opened Backend
  import opened ResultsView
  import opened ReadingLists
  import opened Pipeline
  import opened Categories

  /** What the request to `/api/search` produced: no parsed body (a network
      error, or a body that is not JSON) or the backend's reply. */
  datatype FetchOutcome = NetworkFailure | Delivered(reply: Reply)

  /** The HTTP status of a reply; a cached answer is sent with 200. */
  function HttpStatus(reply: Reply): int {
    match reply
    case FromCache(_) => 200
    case Direct(r) => r.Status()
  }

  /** `response.ok`. */
  predicate Ok(status: int) {
    200 <= status <= 299
  }

  /** The reading of a parsed body: `data.success && data.data` fails
      (`Rejected`), or `(data.data.data || data.data).books` exists
      (`Accepted`) or is `undefined`, so that `.map` throws (`Broken`). */
  datatype Decoded = Rejected | Accepted(data: SearchData) | Broken

  function Decode(reply: Reply): (d: Decoded)
    ensures d.Accepted? <==> (reply.FromCache? && reply.cached.Success?) || (reply.Direct? && reply.response.Success?)
    ensures d.Broken? <==> reply.FromCache? && reply.cached.Failure?
  {
    match reply
    case Direct(Success(data, _)) => Accepted(data)
    case Direct(Failure(_, _)) => Rejected
    case FromCache(Success(data, _)) => Accepted(data)
    case FromCache(Failure(_, _)) => Broken
  }

  /** The `books.map(...)` conversion to the front end's volume shape. */
  function FromApi(a: ApiBook): (b: Book)
    ensures b.id == a.id && b.info.title == Some(a.title) && b.info.authors == Some(a.authors)
    ensures b.info.publishedDate == a.publishedDate && b.info.pageCount == a.pageCount
    ensures b.info.categories == Some(a.categories)
    ensures b.info.publisher == Some(a.publisher) && b.info.description == Some(a.description)
  {
    Book(a.id, VolumeInfo(Some(a.title), Some(a.authors), Some(a.publisher), a.publishedDate,
                          Some(a.description), a.pageCount, Some(a.categories)))
  }

  function ConvertBooks(data: SearchData): (books: seq<Book>)
    ensures |books| == |data.books|
    ensures forall i :: 0 <= i < |books| ==> books[i] == FromApi(data.books[i])
  {
    seq(|data.books|, i requires 0 <= i < |data.books| => FromApi(data.books[i]))
  }

  /** Which way `fetchBooks` returns. */
  datatype Decision =
    | UseCache(books: seq<Book>)   // offline and a fresh cache entry
    | FallBack                     // an error was caught: `getCachedBookData(query) || []`
    | NoneFound                    // the body says no success: `[]`
    | Fresh(books: seq<Book>)      // the converted backend books, also cached

  /** The decision of `fetchBooks` from the online flag, the cache entry
      found before the request and the request's outcome. */
  function Decide(online: bool, cached: Option<seq<Book>>, outcome: FetchOutcome): (d: Decision)
    ensures d.UseCache? <==> !online && cached.Some?
    ensures d.UseCache? ==> d.books == cached.value
    ensures outcome.NetworkFailure? ==> d.UseCache? || d.FallBack?
    ensures d.Fresh? ==> outcome.Delivered? && Ok(HttpStatus(outcome.reply)) && Decode(outcome.reply).Accepted?
    ensures d.NoneFound? ==> outcome.Delivered? && outcome.reply.Direct? && outcome.reply.response.Failure?
    ensures (online || cached.None?) && outcome.Delivered? && !Ok(HttpStatus(outcome.reply)) ==> d.FallBack?
    ensures (online || cached.None?) && outcome.Delivered? && Ok(HttpStatus(outcome.reply)) ==>
      && (d.Fresh? <==> Decode(outcome.reply).Accepted?)
      && (d.NoneFound? <==> Decode(outcome.reply).Rejected?)
      && (d.FallBack? <==> Decode(outcome.reply).Broken?)
    ensures d.Fresh? ==> d.books == ConvertBooks(Decode(outcome.reply).data)
  {
    if cached.Some? && !online then UseCache(cached.value)
    else match outcome
      case NetworkFailure => FallBack
      case Delivered(reply) =>
        if !Ok(HttpStatus(reply)) then FallBack
        else match Decode(reply)
          case Rejected => NoneFound
          case Broken => FallBack
          case Accepted(data) => Fresh(ConvertBooks(data))
  }

  /** A backend cache holding only successes never serves a reply that the
      front end fails to read: a cached answer always decodes to its data. */
  lemma CachedRepliesDecode(entries: map<string, (Response, real)>, key: string, now: real)
    requires OnlySuccesses(entries)
    requires CachedResponse(entries, key, now).Some?
    ensures var cached := CachedResponse(entries, key, now).value;
      Decode(FromCache(cached)) == Accepted(cached.data)
  {
  }

  /** The books `fetchBooks(query)` returns and the offline cache afterwards;
      `now` is the time before the request, `later` the time after it. */
  function Fetch(online: bool, entries: map<string, CacheEntry>, query: string, now: int,
                 outcome: FetchOutcome, later: int): (r: (seq<Book>, map<string, CacheEntry>))
    ensures !Decide(online, Lookup(entries, query, now), outcome).Fresh? ==> r.1 == entries
  {
    match Decide(online, Lookup(entries, query, now), outcome)
    case UseCache(books) => (books, entries)
    case FallBack => (Lookup(entries, query, later).GetOr([]), entries)
    case NoneFound => ([], entries)
    case Fresh(books) => (books, Stored(entries, query, books, later))
  }

  /** `fetchBooks`. */
  method FetchBooks(store: OfflineStore, online: bool, query: string, now: int, outcome: FetchOutcome, later: int)
    returns (books: seq<Book>)
    modifies store
    ensures (books, store.entries) == Fetch(online, old(store.entries), query, now, outcome, later)
  {
    var cachedBooks := store.Get(query, now);
    if cachedBooks.Some? && !online {
      return cachedBooks.value;
    }
    var failed := false;
    match outcome {
      case NetworkFailure =>
        failed := true;
      case Delivered(reply) =>
        if !Ok(HttpStatus(reply)) {
          failed := true;
        } else {
          match Decode(reply) {
            case Rejected =>
              return [];
            case Broken =>
              failed := true;
            case Accepted(data) =>
              books := ConvertBooks(data);
              store.Put(query, books, later);
              return books;
          }
        }
    }
    var fallback := store.Get(query, later);
    books := fallback.GetOr([]);
  }

  /** Offline, a fresh cache entry is returned without looking at the request. */
  lemma OfflineServesCache(entries: map<string, CacheEntry>, query: string, now: int, books: seq<Book>,
                           outcome: FetchOutcome, later: int)
    requires Lookup(entries, query, now) == Some(books)
    ensures Fetch(false, entries, query, now, outcome, later) == (books, entries)
  {
  }

  /** After a failed request a cache entry still fresh at `later` is used,
      however the entry compares with the online state. */
  lemma FailureUsesFreshCache(online: bool, entries: map<string, CacheEntry>, query: string, now: int,
                              later: int)
    requires online || Lookup(entries, query, now).None?
    requires query in entries && later - entries[query].timestamp < DayMillis
    ensures Fetch(online, entries, query, now, NetworkFailure, later) == (entries[query].books, entries)
  {
  }

  /** The fallback respects the 24-hour limit: an entry older than that is
      not used, and the result is empty. */
  lemma FailureIgnoresExpiredCache(online: bool, entries: map<string, CacheEntry>, query: string, now: int,
                                   later: int)
    requires online || Lookup(entries, query, now).None?
    requires query in entries ==> later - entries[query].timestamp >= DayMillis
    ensures Fetch(online, entries, query, now, NetworkFailure, later).0 == []
  {
  }

  /** A reply the backend serves from its cache gives the same books, and
      the same offline cache, as the reply it was stored from. */
  lemma CachedReplyAgrees(online: bool, entries: map<string, CacheEntry>, query: string, now: int,
                          data: SearchData, q: string, later: int)
    ensures Fetch(online, entries, query, now, Delivered(FromCache(Success(data, q))), later)
         == Fetch(online, entries, query, now, Delivered(Direct(Success(data, q))), later)
  {
  }

  /** An error response with a non-2xx status is caught like a network
      error, so the cache fallback applies. */
  lemma ErrorStatusFallsBack(online: bool, entries: map<string, CacheEntry>, query: string, now: int,
                             status: int, error: string, later: int)
    requires online || Lookup(entries, query, now).None?
    requires !Ok(status)
    ensures Fetch(online, entries, query, now, Delivered(Direct(Failure(status, error))), later)
         == Fetch(online, entries, query, now, NetworkFailure, later)
  {
  }

  /** Books fetched successfully are served offline for the next 24 hours. */
  lemma FetchedBooksServedOffline(online: bool, entries: map<string, CacheEntry>, query: string, now: int,
                                  data: SearchData, q: string, later: int, t: int, next: FetchOutcome, t2: int)
    requires online || Lookup(entries, query, now).None?
    requires |data.books| > 0 && t < later + DayMillis
    ensures var (books, after) := Fetch(online, entries, query, now, Delivered(Direct(Success(data, q))), later);
      books == ConvertBooks(data) && Fetch(false, after, query, t, next, t2) == (books, after)
  {
    var books := ConvertBooks(data);
    PutThenGet(entries, query, books, later, t);
  }

  /** Every book from the backend has a string identity (its title is always
      a string), so the reading lists recognise it once added. */
  lemma BackendBooksHaveIdentity(a: ApiBook)
    ensures Identity(FromApi(a)).Str?
  {
  }

  lemma FetchedBookFoundAfterAdd(s: seq<Book>, a: ApiBook)
    ensures Contains(AddTo(s, FromApi(a)), FromApi(a))
  {
    BackendBooksHaveIdentity(a);
    AddThenContains(s, FromApi(a));
  }

  /** The search-form handler: a blank input is refused with nothing
      changed; otherwise the books are fetched and shown. */
  method Submit(view: ResultsView, store: OfflineStore, input: string, online: bool, now: int,
                outcome: FetchOutcome, later: int)
    returns (query: Option<string>)
    modifies view, store
    ensures query == SearchQuery(input)
    ensures query.None? ==> unchanged(view) && unchanged(store)
    ensures query.Some? ==>
      var (books, after) := Fetch(online, old(store.entries), query.value, now, outcome, later);
      && view.allBooks == books && store.entries == after
      && view.currentSort == old(view.currentSort)
      && (books == [] ==>
            view.filteredBooks == [] && view.currentFilters == old(view.currentFilters)
            && view.categories == old(view.categories))
      && (books != [] ==>
            view.currentFilters == NoFilters && view.Consistent()
            && (view.splitsCategories ==> view.categories == DefaultTags + BookTags(books))
            && (!view.splitsCategories ==> view.categories == RawCategories(books)))
  {
    query := SearchQuery(input);
    if query.None? {
      return;
    }
    var books := FetchBooks(store, online, query.value, now, outcome, later);
    view.ShowResults(books);
  }
}

# BookQuest in Dafny

BookQuest is a book-search web application. A Flask proxy (`backend/app.py`)
forwards searches to the Google Books API and caches the answers. A browser
script (`app/script.js`, with an older standalone variant `script.js`) shows
the results and lets the user filter them, sort them, keep them in three
reading lists and export those lists as CSV.

This project models the state logic behind that interface, and the pure
parts of the proxy, and proves what they promise:

- the offline result cache with its 24-hour limit;
- the three reading lists, deduplicated by a derived identity
  (`id || title + authors.join(',')`, with JavaScript's `undefined` and
  `NaN` behaviour written out);
- the filter and sort pipeline and the handlers that drive it;
- category-tag collection in both script flavours;
- CSV export;
- the decision `fetchBooks` takes between the offline cache, the backend's
  answer and the fallbacks;
- on the backend: parameter checks, volume normalisation, the health-keyword
  check and the TTL response cache.

Modules, one per file:

- `Wrappers`: `Option`.
- `Text`: JavaScript and Python trimming, `split`/`join`, `truncate`,
  `extractYear` and decimal rendering.
- `Collation`: the string order used for `localeCompare`.
- `Books`: the book record and its derived identity.
- `OfflineCache`: the `OfflineStore` class.
- `ReadingLists`: the `ReadingLists` class.
- `Pipeline`: filter and sort as functions.
- `Categories`: `populateCategories`.
- `ResultsView`: the `ResultsView` class holding `allBooks`,
  `filteredBooks`, `categories`, `currentFilters` and `currentSort`, with
  its handlers.
- `Export`: CSV.
- `Backend`: `app.py`.
- `Search`: `fetchBooks` and the search-form handler.

Where the documented behaviour and the code differ, the model follows the
code:

- After a failed request, `fetchBooks` falls back to `getCachedBookData`,
  which still applies the 24-hour limit. An older entry is not used
  (`Search.FailureIgnoresExpiredCache`).
- The backend's defaults for missing volume fields are `"Unknown Title"`,
  `["Unknown Author"]`, `"Unknown Publisher"`,
  `"No description available"`, `[]` and `{}`.
- The category filter tests exact membership in a book's raw `categories`.
  The app script, however, offers tags made by splitting categories on `/`.
  So choosing such a tag hides a book whose only category is the combined
  one (`Categories.SplitTagHidesCombinedCategory`).

## Model

| member | source | states |
|---|---|---|
| Text.Truncate | app/script.js:388-391 | the input itself when it has at most `maxLength` characters; otherwise the first `maxLength` characters followed by `'…'`, length `maxLength + 1` |
| Text.TruncateIdempotent | script.js:188-191 | truncating a truncated string again changes nothing |
| Text.ExtractYear | app/script.js:394-398 | null for a missing or empty string or when no four-digit run occurs; otherwise the value (at most 9999) of the leftmost run |
| Text.FirstYearAt | script.js:194-198 | the leftmost position at or after `from` where `/\d{4}/` matches, or none when there is no match |
| Text.Trim | app/script.js:619 | `trim()`/`strip()`: characterised by TrimShape (a slice with only whitespace cut, non-blank ends) and TrimEmptyIff |
| Text.TrimEmptyIff | app/script.js:854-855 | `trim()` gives the empty string exactly when every character is whitespace |
| Text.TrimShape | app/script.js:619 | `trim()` returns a contiguous slice with only whitespace cut at each end and non-blank end characters |
| Text.Split | app/script.js:618 | `split('/')` yields at least one piece, and no piece contains the separator |
| Text.JoinSplit | app/script.js:618 | joining the pieces of a split with the separator gives back the original string |
| Text.Join | app/script.js:96 | `join(sep)`: inverse of `Split`, as JoinSplit states |
| Text.NatToStringRoundTrip | app/script.js:788 | the decimal text of a page count reads back as the same number |
| Collation.LocaleCompare | app/script.js:817-823 | the comparison returns -1, 0 or 1 |
| Collation.CompareReflexive | app/script.js:817 | a string compares equal to itself |
| Collation.CompareAntisymmetric | app/script.js:817-819 | swapping the operands negates the result |
| Collation.CompareTransitive | script.js:341-348 | "not after" is transitive |
| Books.ConcatKey | app/script.js:96 | `title + authors.join(',')` is NaN exactly when both are `undefined` |
| Books.Identity | app/script.js:96-99 | a non-empty `id` is the identity; otherwise the concatenated key, NaN exactly when id, title and authors are all missing |
| Books.YearOf | app/script.js:802 | the year `extractYear` finds in `publishedDate`, as ExtractYear states |
| Books.HasYear | app/script.js:803-804 | the year is truthy: found and not 0; YearBoundNeedsYear states that a set bound requires it |
| OfflineCache.Lookup | app/script.js:27-33 | the stored books exactly when an entry exists for the exact query and is less than 24 hours old; null otherwise |
| OfflineCache.Stored | app/script.js:16-24 | an empty list leaves the cache unchanged; otherwise only the query's entry changes, to `(books, now)` |
| OfflineCache.PutThenGet | app/script.js:16-33 | books stored at `t` are returned for the same query at any time before `t` plus 24 hours |
| OfflineCache.PutThenExpire | app/script.js:27-33 | from 24 hours after storing on, the entry is ignored |
| OfflineCache.PutOtherQuery | app/script.js:16-24 | storing for one query does not change what another query finds |
| OfflineCache.OfflineStore.constructor | app/script.js:5 | the cache starts as the persisted one |
| OfflineCache.OfflineStore.Put | app/script.js:16-24 | `cacheBookData`: the new cache is `Stored` of the old one |
| OfflineCache.OfflineStore.Get | app/script.js:27-33 | `getCachedBookData`: the entry's books iff present and fresh |
| ReadingLists.FindIndex | app/script.js:97-99 | `findIndex`: none iff no entry shares the identity; otherwise the first matching index |
| ReadingLists.AddTo | app/script.js:101-106 | an already contained book leaves the list as it is; otherwise the list gains exactly the book at its end |
| ReadingLists.RemoveFrom | app/script.js:116-121 | without a match the list is unchanged; otherwise exactly the entry at the first matching index is cut out, the rest kept in order |
| ReadingLists.SameIdentityLinks | app/script.js:97-99 | identity matching is symmetric and transitive (NaN matches nothing) |
| ReadingLists.AddThenContains | app/script.js:95-107 | after adding a book with a string identity, the list contains it |
| ReadingLists.AddIdempotent | app/script.js:95-107 | adding the same book twice equals adding it once |
| ReadingLists.LookalikeNotAdded | app/script.js:95-107 | two different id-less books with equal title and authors share an identity, so the second is not added once the first is in the list |
| ReadingLists.AddNaNAppendsAgain | app/script.js:95-107 | a book with no id, title or authors has identity NaN, so it is appended on every add |
| ReadingLists.AddKeepsDistinct | app/script.js:95-107 | adding keeps the identities in a list pairwise distinct |
| ReadingLists.RemoveKeepsDistinct | app/script.js:110-122 | removing keeps the identities pairwise distinct |
| ReadingLists.RemoveLength | app/script.js:110-122 | removal deletes exactly one entry when there is a match, and leaves the list unchanged otherwise |
| ReadingLists.RemoveThenAbsent | app/script.js:110-130 | on a duplicate-free list, the book is absent after removal |
| ReadingLists.AddThenRemove | app/script.js:95-122 | adding an absent book and removing it again restores the list |
| ReadingLists.RemoveThenAdd | app/script.js:95-122 | after a remove then an add, the list contains the book |
| ReadingLists.ReadingLists.constructor | app/script.js:82-87 | the lists start from the persisted ones, or empty and duplicate-free |
| ReadingLists.ReadingLists.Add | app/script.js:95-107 | `addToReadingList` returns true iff no entry shares the identity; the list becomes `AddTo` of the old one; the other lists are untouched; duplicate-freedom is kept |
| ReadingLists.ReadingLists.Remove | app/script.js:110-122 | `removeFromReadingList` returns true iff a match exists; the list becomes `RemoveFrom` of the old one; the other lists are untouched; duplicate-freedom is kept |
| ReadingLists.ReadingLists.IsIn | app/script.js:125-130 | `isInReadingList` is true iff some entry shares the identity |
| ReadingLists.ReadingLists.MarkAsRead | app/script.js:714-716 | remove from `toRead`, then add to `read`; favorites unchanged; with a string identity on duplicate-free lists the book ends up absent from `toRead` and present in `read` |
| ReadingLists.CardButtons | app/script.js:674-681 | the card of entry `idx` gets a remove button naming its list and, on `toRead`, a mark-read button |
| ReadingLists.IntendedCardButtons | app/script.js:674-681 | as intended: every button names the card's list and index |
| ReadingLists.ReadingLists.ButtonBook | app/script.js:706-708 | `readingLists[listType][index]`: a book exactly when the button names a list and the index is inside it, and then that entry |
| ReadingLists.ReadingLists.Click | app/script.js:703-720 | throws, changing nothing, iff the button names no list or (for remove and mark-read) finds no book; otherwise remove acts as `Remove` on the named list and mark-read as `MarkAsRead` |
| ReadingLists.MarkReadButtonFindsNoBook | app/script.js:678-708 | the rendered mark-read button finds no book, so its click throws and changes no list |
| ReadingLists.IntendedMarkReadButtonFindsBook | app/script.js:678-716 | with the intended button the click finds entry `idx` of `toRead` and marks it as read |
| Pipeline.Passes | app/script.js:797-806 | the test of one book; FilterMembership states that exactly the passing books of `allBooks` are kept |
| Pipeline.FilterBooks | app/script.js:796-807 | every kept book is from the input and passes the three checks |
| Pipeline.FilterIsSubsequence | app/script.js:796-807 | the filtered books are an order-preserving subsequence of `allBooks` |
| Pipeline.FilterMembership | script.js:322-333 | a book is kept iff it is in `allBooks` and passes the category check and both year-bound checks |
| Pipeline.FilterMultiplicity | app/script.js:797-806 | a passing book is kept exactly as often as it occurs in `allBooks`, a failing one never |
| Pipeline.YearBoundNeedsYear | app/script.js:803-804 | with a year bound set, no book without a year (or with year 0) survives |
| Pipeline.NoFiltersKeepAll | script.js:427-436 | with no criteria every book survives, in order |
| Pipeline.TitleKey | app/script.js:817 | `title \|\| ''`; SortOrdersByKey states the order on it |
| Pipeline.AuthorKey | app/script.js:821 | the first author or `''`; SortOrdersByKey states the order on it |
| Pipeline.YearKey | app/script.js:825-826 | `extractYear(...) \|\| 0`: in 0..9999, non-zero exactly when the book has a truthy year |
| Pipeline.PagesKey | app/script.js:835 | `pageCount \|\| 0`; SortOrdersByKey states the order on it |
| Pipeline.Compare | app/script.js:812-841 | the comparator; CompareIsTotalPreorder and CompareFlips state that it is a total preorder negated by swapping |
| Pipeline.CompareIsTotalPreorder | app/script.js:810-842 | each of the comparators is reflexive, total and transitive |
| Pipeline.Insert | app/script.js:812 | inserting adds exactly one occurrence of the element |
| Pipeline.SortBooks | script.js:335-367 | the sort result is a permutation of its input |
| Pipeline.InsertSorted | app/script.js:812 | inserting into a sorted list keeps it sorted |
| Pipeline.SortSorted | app/script.js:810-842 | the sort result is ordered by the comparator: non-decreasing keys for `*-asc`, non-increasing for `*-desc` |
| Pipeline.SortKeepsSorted | app/script.js:812 | a list already ordered by the comparator comes back unchanged |
| Pipeline.CompareFlips | app/script.js:815-840 | swapping the two books negates every comparator |
| Pipeline.TiesLink | app/script.js:815-840 | two books that tie with a third tie with each other |
| Pipeline.InsertTies | app/script.js:812 | inserting a book puts it ahead of the books it ties with and leaves their order alone |
| Pipeline.SortIsStable | app/script.js:812 | the sort is stable: for every book, the books tying with it come out in their input order |
| Pipeline.Reverse | app/script.js:818-823 | the reverse of a list: same length, mirrored positions, same books |
| Pipeline.SortedUnique | app/script.js:812 | when tying books are equal, two ordered arrangements of the same books are identical |
| Pipeline.TitleDescIsReverse | app/script.js:816-819 | when no two titles tie, `title-desc` gives exactly the reverse of `title-asc` |
| Pipeline.UnknownKeyKeepsOrder | script.js:364-365 | an unknown sort key (comparator 0) leaves the order unchanged |
| Pipeline.SortOrdersByKey | app/script.js:816-839 | in the result, earlier books have keys not after later ones in the direction of the sort key, with a missing year or page count counted as 0 |
| Pipeline.View | app/script.js:845-849 | filter then sort; ViewIsOrderedSelection states its contents and order |
| Pipeline.ViewIsOrderedSelection | app/script.js:845-849 | the displayed view holds each passing book exactly as often as `allBooks` does and no other book, and is sorted |
| Categories.CollectTags | app/script.js:610-623 | the tag set is the five default tags plus the trimmed `/`-pieces of every category of every book |
| Categories.TagMembership | app/script.js:610-623 | a tag is offered iff it is a default tag or a trimmed piece of some category of some book |
| Categories.SplitTagHidesCombinedCategory | app/script.js:799-801 | a tag split from a category containing `/` is never that category, so filtering by it hides a book whose only category is the combined one |
| Categories.CollectRawCategories | script.js:304-311 | the standalone script's set is built from the raw category strings, with no splitting and no defaults |
| Categories.RawCategoriesMembership | script.js:304-311 | a string is offered iff it is a category of some book |
| ResultsView.SearchQuery | app/script.js:854-858 | refused exactly when the input is all whitespace; otherwise the input with its leading and trailing whitespace cut, a non-empty slice with non-blank ends |
| ResultsView.ResultsView.constructor | app/script.js:63-71 | no books, no categories, empty criteria, sort `title-asc` |
| ResultsView.ResultsView.ApplyFilters | script.js:322-333 | `filteredBooks` becomes the filtered `allBooks`; nothing else changes |
| ResultsView.ResultsView.ApplySorting | script.js:335-367 | `filteredBooks` becomes its sorted self; nothing else changes |
| ResultsView.ResultsView.UpdateDisplay | script.js:369-373 | afterwards the display is the filtered and sorted view of `allBooks` |
| ResultsView.ResultsView.PopulateCategories | app/script.js:610-623 | the app flavour sets the split tags, the standalone flavour the raw categories |
| ResultsView.ResultsView.ShowResults | app/script.js:861-872 | an empty result empties the display and keeps criteria and tags; otherwise the tags are rebuilt, the criteria reset and the view recomputed |
| ResultsView.ResultsView.SelectCategory | app/script.js:881-884 | only the category criterion changes, then the view is recomputed |
| ResultsView.ResultsView.ApplyYearFilter | script.js:409-419 | refused iff both bounds are set and `min > max`, and then nothing changes; otherwise both bounds are replaced and the view is recomputed |
| ResultsView.ResultsView.SelectSort | app/script.js:900-903 | only the sort key changes, then the view is recomputed |
| ResultsView.ResultsView.ClearFilters | app/script.js:906-914 | the criteria become empty, the sort becomes `title-asc`, and the display is all books in title order |
| ResultsView.AcceptedYearFilterBounds | app/script.js:887-897 | every displayed book has a year within each set bound |
| ResultsView.RefusedRangeIsEmpty | app/script.js:890-893 | a refused range would have kept no book at all |
| Export.OrElse | app/script.js:746-751 | `value \|\| fallback`: the value when present and non-empty, never empty when the fallback is not |
| Export.PageCountText | app/script.js:751 | `pageCount \|\| 'N/A'`: the decimal page count when it is set and non-zero, else `N/A` |
| Export.ExportRow | app/script.js:745-751 | each field is the book's non-empty value (authors and categories joined with `, `) or its placeholder: `Untitled`, `Unknown Author`, `Unknown Publisher`, `Unknown Date`, `Uncategorized`, `N/A` |
| Export.ExportRows | app/script.js:745-752 | one row per book, in list order |
| Export.ExportData | app/script.js:744-769 | the lists in the key order `favorites`, `toRead`, `read`, each holding the rows of that reading list |
| Export.AppendListLines | app/script.js:787-789 | appends exactly the lines of one list, one per row in row order, after what was already written |
| Export.ConvertToCsv | app/script.js:783-793 | the header line followed by the lines of every list in key order, one quoted line per row |
| Export.ExportReadingLists | app/script.js:743-771 | the CSV of the current three lists |
| Export.HeaderIsOneLine | app/script.js:784 | the header is exactly one line |
| Export.CountConcat | app/script.js:788 | line breaks of appended text add up |
| Export.CsvLineIsOneLine | app/script.js:788 | a row whose fields hold no line break becomes exactly one line |
| Export.ListLinesCount | app/script.js:787-789 | a list contributes one line per book |
| Export.BodyCount | app/script.js:786-790 | all lists together contribute one line per row |
| Export.ExportLineCount | app/script.js:783-793 | with no line break inside a field, the CSV has one line plus one line per book of the three lists |
| Export.Quote | app/script.js:788 | a field in double quotes, unescaped: two characters longer, quote at each end, the field in between |
| Export.CsvLine | app/script.js:788 | one line ending in a line break; CsvLineIsOneLine states it has no other |
| Export.LineStartsWithList | app/script.js:788 | each line starts with its list's name, quoted |
| Backend.ValidateApiKey | backend/app.py:88-91 | true iff the key is set and contains a non-whitespace character |
| Backend.ParseRendered | backend/app.py:170 | `int()` reads back every integer written in decimal |
| Backend.ParsePyInt | backend/app.py:170 | `int()` succeeds only on a non-blank text; ParseRendered states that it reads back every decimal rendering |
| Backend.StrippedQuery | backend/app.py:169 | `q.strip()` is empty exactly when `q` is missing or all whitespace |
| Backend.ClampMaxResults | backend/app.py:170 | 20 when absent; never above 40; none exactly when `int()` raises; otherwise the parsed value or 40, whichever is smaller |
| Backend.ClampRendered | backend/app.py:170 | a numeric `maxResults` is lowered to 40 when above it and kept otherwise |
| Backend.Occurs | backend/app.py:113 | `sub in s` iff `sub` occurs at some position of `s` |
| Backend.AnyOccurs | backend/app.py:113 | `any(...)` iff some keyword occurs |
| Backend.LowerAscii | backend/app.py:112 | same length, every ASCII capital lowered and every other character kept |
| Backend.HealthContent | backend/app.py:107-124 | at most one resource; exactly one iff the lower-cased query contains one of the nine keywords, and it is the health-literacy resource |
| Backend.MentalHealthSubsumed | backend/app.py:107-110 | a text containing "mental health" also contains "health" |
| Backend.Normalize | backend/app.py:198-214 | every field falls back on its own: a given title, authors, publisher, description, categories or imageLinks is kept, a missing one gets its default; id, date and page count are copied |
| Backend.NormalizeDefaults | backend/app.py:198-214 | an item without `volumeInfo` gets every default value |
| Backend.NormalizePartialVolume | backend/app.py:198-214 | a volume with only a title keeps it and gets every other default |
| Backend.NormalizeAll | backend/app.py:195-215 | no books when `items` is absent; otherwise one book per item, in item order |
| Backend.NormalizeItems | backend/app.py:195-215 | the loop builds exactly `NormalizeAll` of the items |
| Backend.SearchRequest | backend/app.py:169-189 | something is sent upstream exactly when the key is valid, `maxResults` parses and the stripped query is not blank; then the stripped query, the clamped count (at most 40) and the key |
| Backend.SearchResponse | backend/app.py:159-246 | 500 without a valid key; 400 "Invalid search parameters" when `int()` fails; 400 "Search query is required" for a blank query; 503 when the upstream call fails, else 200 with the normalised books, `totalItems` (default 0) and the health content; cacheable exactly when the upstream call answered |
| Backend.SearchBooks | backend/app.py:159-246 | the handler with its normalisation loop returns `SearchResponse` and sends `SearchRequest` |
| Backend.BlankQueryRefused | backend/app.py:169-177 | an all-whitespace `q` strips to the empty query |
| Backend.CacheKey | backend/app.py:51 | the key starts with `search_books:` |
| Backend.CacheKeyInjective | backend/app.py:51 | two requests share a cache key iff their raw, untrimmed `q` agree |
| Backend.CachedResponse | backend/app.py:54-63 | a cached value is served iff its key is present and is less than 3600 s old |
| Backend.Cacheable | backend/app.py:76-80 | status 200 with `success` true; Remember and RememberKeepsOnlySuccesses state what it admits |
| Backend.Remember | backend/app.py:75-82 | only a 200 response with `success` true is stored; anything else leaves the cache unchanged |
| Backend.RememberThenServe | backend/app.py:54-82 | a stored response is served for its key until 3600 s have passed |
| Backend.FailureNotRemembered | backend/app.py:75-82 | a failed response does not change what the cache serves |
| Backend.RememberKeepsOnlySuccesses | backend/app.py:75-82 | remembering keeps a cache of successes a cache of successes |
| Backend.ApiCache.constructor | backend/app.py:39 | the cache starts empty |
| Backend.ApiCache.Serve | backend/app.py:47-85 | a fresh entry is served without calling the handler and nothing changes; otherwise the handler's `SearchResponse` is returned, its `SearchRequest` sent, and the cache becomes `Remember` of it at the finishing time; only successes are ever stored or served |
| Backend.ApiCache.Clear | backend/app.py:275-279 | `clear_cache` leaves the cache empty |
| Search.Decode | app/script.js:424-427 | `data.success && data.data` and `data.data.data \|\| data.data`: accepted iff the response is a success; a cached failure breaks on `.books` |
| Search.CachedRepliesDecode | app/script.js:424-427 | a reply served from a backend cache of successes always decodes to its data, never breaks |
| Search.FromApi | app/script.js:427-443 | the backend book becomes a volume with the same id, title, authors, publisher, date, description, page count and categories |
| Search.ConvertBooks | app/script.js:427-443 | one front-end book per backend book, in order |
| Search.Decide | app/script.js:401-470 | the cache is used iff offline with a fresh entry; a network failure or non-2xx reply falls back; for a 2xx reply: fresh iff it decodes, none found iff rejected, fall back iff broken |
| Search.Fetch | app/script.js:401-470 | the offline cache only changes on the fresh-books path |
| Search.FetchBooks | app/script.js:401-470 | `fetchBooks` returns the books `Fetch` chooses and leaves the cache as `Fetch` says |
| Search.OfflineServesCache | app/script.js:406-411 | offline with a fresh entry, the cached books are returned and nothing changes |
| Search.FailureUsesFreshCache | app/script.js:463-467 | after a failed request a still-fresh entry is returned |
| Search.FailureIgnoresExpiredCache | app/script.js:463-467 | the fallback respects the 24-hour limit: without a fresh entry the result is empty |
| Search.CachedReplyAgrees | app/script.js:424-427 | a reply served from the backend cache gives the same books and cache as the direct reply |
| Search.ErrorStatusFallsBack | app/script.js:418-420 | a non-2xx status is handled like a network error |
| Search.FetchedBooksServedOffline | app/script.js:445-458 | books fetched successfully are served offline for the next 24 hours |
| Search.BackendBooksHaveIdentity | app/script.js:96 | every book from the backend has a string identity |
| Search.FetchedBookFoundAfterAdd | app/script.js:95-107 | a fetched book is found in a list after it is added |
| Search.Submit | app/script.js:852-878 | the app script's handler: a blank input changes nothing; otherwise the fetched books become `allBooks`; an empty result clears the display and keeps filters and tags, a non-empty one resets the filters, rebuilds the tags and shows the view |

## Left out

- Rendering is not modelled: the DOM, book cards, toasts, modals, dark mode,
  back-to-top, "Read More" toggles and the image slider.
- `getPlaceholderImage` is not modelled because it uses `Math.random`.
- Network I/O is not modelled: `fetch`, `requests.get`, JSON decoding and
  async interleaving. Request results are inputs: `Search.FetchOutcome` and
  `Backend.Upstream`. A body that is not JSON counts as `NetworkFailure`.
- `localStorage` and JSON (de)serialisation are not modelled. Persisted
  state enters through the constructors.
- `navigator.onLine`, `Date.now()` and `time.time()` are parameters.
- Flask routing, CORS, `jsonify`, `os.getenv`, `socket.gethostname` and the
  `backend`/`timestamp`/`cached` response fields are not modelled. Neither
  are the `/api/health`, `/api/categories` and `/api/cache/stats` endpoints.
- The generic 500 "Internal server error" branch of `search_books` is not
  modelled, because the typed items cannot produce it.
- The rating, link and image fields of a volume are passed through by the
  code; only `imageLinks` and its `{}` default are kept.
- JSON `null` and a missing key are not distinguished.
- `Collation.LocaleCompare`: code-point lexicographic order stands in for
  ICU locale collation. It is proved to be a total order, which is all the
  sort relies on.
- `Pipeline.SortBooks`: a stable insertion sort on a value stands in for
  the engine's in-place `Array.prototype.sort`. The in-place update of
  `filteredBooks` is a field reassignment.
- `Pipeline.AuthorKey`: a present but empty `authors` array is keyed as `""`.
  In JavaScript `authors[0]` is then `undefined`: as the receiver of
  `localeCompare` it throws a TypeError that aborts `applySorting` and
  `updateDisplay`, and as the argument it is compared as the text
  `undefined`. The model sorts where the program throws.
- `Text.Truncate`: lengths and cuts count code points, while JavaScript's
  `length` and `slice` count UTF-16 code units. A text with characters
  outside the Basic Multilingual Plane is cut at a different place, and
  JavaScript can leave a lone surrogate before the `…`.
- `Search.Submit`: models the app script's search handler only. The
  standalone script's handler (script.js:376-402) fetches from the book API
  directly (script.js:200-214), has no offline cache and keeps the old
  state when the request fails; that path is not modelled, and the raw-tag
  branch of `Submit` is not that handler.
- `Backend.ParsePyInt`: only ASCII digits are accepted. Python's `int()`
  also reads other Unicode decimal digits.
- `Backend.LowerAscii`: only ASCII letters are lower-cased. Python's
  `str.lower()` also maps other letters.
- `Export.PageCountText`: page counts are integers; a fractional number
  would be written differently.
- The year inputs of the year-filter handler are already parsed. `None`
  stands for an empty field and for `NaN`.
- Sorting the offered category tags for the dropdown is display only.

## Findings

| source | as written | input that shows it | evidently intended | confidence | as-written member | corrected member |
|---|---|---|---|---|---|---|
| app/script.js:678-716 | the mark-read button has no `data-list`, so the handler looks up `readingLists[null][index]`, which throws before lines 715-716 | a click on the mark-read button of any `toRead` entry | the button names `toRead`, and the click removes the book there and adds it to `read` | high, not executed | ReadingLists.MarkReadButtonFindsNoBook | ReadingLists.IntendedMarkReadButtonFindsBook |

/** The Flask proxy: the `/api/search` handler with its parameter checks,
    the volume normalisation loop and the health-keyword check, wrapped in
    the `cache_response` TTL cache; plus `validate_api_key` and
    `clear_cache`. The API key, the request arguments, the upstream answer
    and `time.time()` are parameters. */
module Backend {
  import opened Wrappers
  import opened Text

  const CacheTtl: real := 3600.0
  const MaxResults: int := 40
  const DefaultMaxResults: int := 20
  /** `func.__name__` of the only cached endpoint. */
  const FunctionName: string := "search_books"

  // ---- configuration and request arguments ----

  /** `validate_api_key`: the key is set and not blank after `strip()`. */
  function ValidateApiKey(apiKey: Option<string>): (ok: bool)
    ensures ok <==> apiKey.Some? && exists k :: 0 <= k < |apiKey.value| && !IsPySpace(apiKey.value[k])
  {
    match apiKey
    case None => false
    case Some(key) =>
      TrimEmptyIff(key, IsPySpace);
      Trim(key, IsPySpace) != ""
  }

  /** `request.args.get("q", "").strip()`. */
  function StrippedQuery(q: Option<string>): (r: string)
    ensures r == "" <==> forall k :: 0 <= k < |q.GetOr("")| ==> IsPySpace(q.GetOr("")[k])
  {
    TrimEmptyIff(q.GetOr(""), IsPySpace);
    Trim(q.GetOr(""), IsPySpace)
  }

  /** Digits with single underscores between them, as `int()` accepts. */
  predicate GroupedDigits(d: string) {
    && |d| >= 1 && IsDigit(d[0]) && IsDigit(d[|d| - 1])
    && (forall k :: 0 <= k < |d| ==> IsDigit(d[k]) || d[k] == '_')
    && (forall k :: 0 <= k < |d| - 1 ==> !(d[k] == '_' && d[k + 1] == '_'))
  }

  function WithoutUnderscores(d: string): (r: string)
    requires forall k :: 0 <= k < |d| ==> IsDigit(d[k]) || d[k] == '_'
    ensures forall k :: 0 <= k < |r| ==> IsDigit(r[k])
    ensures |r| <= |d|
  {
    if d == [] then ""
    else if d[0] == '_' then WithoutUnderscores(d[1..])
    else [d[0]] + WithoutUnderscores(d[1..])
  }

  /** Python's `int(text)` on a string: surrounding whitespace, an optional
      sign, then decimal digits with optional single underscores between
      them; anything else raises `ValueError` (here: nothing). */
  function ParsePyInt(text: string): (r: Option<int>)
    ensures r.Some? ==> Trim(text, IsPySpace) != ""
  {
    var t := Trim(text, IsPySpace);
    if t == "" then None
    else
      var negative := t[0] == '-';
      var digits := if t[0] == '-' || t[0] == '+' then t[1..] else t;
      if !GroupedDigits(digits) then None
      else
        var magnitude: int := DigitsValue(WithoutUnderscores(digits));
        Some(if negative then -magnitude else magnitude)
  }

  /** `min(int(request.args.get("maxResults", 20)), MAX_RESULTS)`; nothing
      when `int()` raises. */
  function ClampMaxResults(maxResults: Option<string>): (r: Option<int>)
    ensures maxResults.None? ==> r == Some(DefaultMaxResults)
    ensures maxResults.Some? ==> (r.None? <==> ParsePyInt(maxResults.value).None?)
    ensures r.Some? ==> r.value <= MaxResults
    ensures maxResults.Some? && r.Some? ==>
      (r.value == MaxResults || r.value == ParsePyInt(maxResults.value).value)
      && r.value <= ParsePyInt(maxResults.value).value
  {
    match maxResults
    case None => Some(if DefaultMaxResults < MaxResults then DefaultMaxResults else MaxResults)
    case Some(text) =>
      match ParsePyInt(text)
      case None => None
      case Some(n) => Some(if n < MaxResults then n else MaxResults)
  }

  lemma {:induction false} NoUnderscoresKept(d: string)
    requires forall k :: 0 <= k < |d| ==> IsDigit(d[k])
    ensures WithoutUnderscores(d) == d
  {
    if d != [] {
      NoUnderscoresKept(d[1..]);
    }
  }

  lemma TrimKeepsSolid(s: string, ws: char -> bool)
    requires s != [] && !ws(s[0]) && !ws(s[|s| - 1])
    ensures Trim(s, ws) == s
  {
  }

  lemma RenderedDigits(m: nat)
    ensures GroupedDigits(NatToString(m))
    ensures DigitsValue(WithoutUnderscores(NatToString(m))) == m
  {
    NatToStringRoundTrip(m);
    NoUnderscoresKept(NatToString(m));
  }

  /** `int()` reads back every integer written in decimal. */
  lemma ParseRendered(n: int)
    ensures ParsePyInt(IntToString(n)) == Some(n)
  {
    if n < 0 {
      var digits := NatToString(-n);
      RenderedDigits(-n);
      var text := "-" + digits;
      assert text[0] == '-' && text[1..] == digits;
      TrimKeepsSolid(text, IsPySpace);
    } else {
      var digits := NatToString(n);
      RenderedDigits(n);
      assert digits[0] != '-' && digits[0] != '+';
      TrimKeepsSolid(digits, IsPySpace);
    }
  }

  /** A `maxResults` above the cap is lowered to it, and the front end's
      `maxResults=40` is used as given. */
  lemma ClampRendered(n: int)
    ensures ClampMaxResults(Some(IntToString(n))) == Some(if n < MaxResults then n else MaxResults)
  {
    ParseRendered(n);
  }

  // ---- health content ----

  /** ASCII letters in lower case (`str.lower()` on ASCII). */
  function LowerAscii(s: string): (r: string)
    ensures |r| == |s|
    ensures forall k :: 0 <= k < |s| ==> r[k] == (if 'A' <= s[k] <= 'Z' then s[k] - 'A' + 'a' else s[k])
  {
    if s == [] then "" else [if 'A' <= s[0] <= 'Z' then s[0] - 'A' + 'a' else s[0]] + LowerAscii(s[1..])
  }

  /** `sub` occurs in `s` starting at `i`. */
  predicate OccursAt(sub: string, s: string, i: nat) {
    i + |sub| <= |s| && s[i..i + |sub|] == sub
  }

  /** `sub in s` for strings. */
  function Occurs(sub: string, s: string): (r: bool)
    ensures r <==> exists i: nat :: OccursAt(sub, s, i)
    decreases |s|
  {
    if |s| < |sub| then false
    else if s[..|sub|] == sub then
      assert OccursAt(sub, s, 0);
      true
    else
      var rest := Occurs(sub, s[1..]);
      assert forall i: nat :: OccursAt(sub, s[1..], i) <==> OccursAt(sub, s, i + 1) by {
        forall i: nat ensures OccursAt(sub, s[1..], i) <==> OccursAt(sub, s, i + 1) {
          if i + 1 + |sub| <= |s| {
            assert s[1..][i..i + |sub|] == s[i + 1..i + 1 + |sub|];
          }
        }
      }
      assert !OccursAt(sub, s, 0);
      assert forall i: nat :: OccursAt(sub, s, i) ==> i == 0 || OccursAt(sub, s[1..], i - 1);
      rest
  }

  /** `any(keyword in text for keyword in keywords)`. */
  function AnyOccurs(keywords: seq<string>, text: string): (r: bool)
    ensures r <==> exists k :: k in keywords && Occurs(k, text)
  {
    if keywords == [] then false
    else if Occurs(keywords[0], text) then
      assert keywords[0] in keywords;
      true
    else
      var rest := AnyOccurs(keywords[1..], text);
      assert rest <==> exists k :: k in keywords && Occurs(k, text) by {
        if rest {
          var k :| k in keywords[1..] && Occurs(k, text);
          assert k in keywords;
        } else {
          forall k | k in keywords ensures !Occurs(k, text) {
            if k != keywords[0] {
              assert k in keywords[1..];
            }
          }
        }
      }
      rest
  }

  const HealthKeywords: seq<string> := ["health", "medical", "disease", "treatment", "medicine",
                                       "nutrition", "exercise", "mental health", "wellness"]

  datatype HealthResource = HealthResource(kind: string, title: string, description: string,
                                           url: string, source: string)

  const HealthLiteracy := HealthResource(
    "health_literacy", "Health Literacy Resources", "Find trusted health information and resources",
    "https://health.gov/our-work/national-health-initiatives/health-literacy", "Health.gov")

  /** `get_health_literacy_content`: the one resource when the lower-cased
      query contains a health keyword, else nothing. */
  function HealthContent(query: string): (r: seq<HealthResource>)
    ensures |r| <= 1
    ensures |r| == 1 <==> exists k :: k in HealthKeywords && Occurs(k, LowerAscii(query))
    ensures |r| == 1 ==> r[0] == HealthLiteracy
  {
    if AnyOccurs(HealthKeywords, LowerAscii(query)) then [HealthLiteracy] else []
  }

  /** The keyword "mental health" never decides anything: every text that
      contains it also contains "health". */
  lemma MentalHealthSubsumed(text: string)
    requires Occurs("mental health", text)
    ensures Occurs("health", text)
  {
    var i: nat :| OccursAt("mental health", text, i);
    assert text[i + 7..i + 13] == text[i..i + 13][7..];
    assert OccursAt("health", text, i + 7);
  }

  // ---- normalisation ----

  /** The fields of an upstream `volumeInfo` the handler reads. */
  datatype RawVolume = RawVolume(
    title: Option<string>,
    authors: Option<seq<string>>,
    publisher: Option<string>,
    publishedDate: Option<string>,
    description: Option<string>,
    pageCount: Option<int>,
    categories: Option<seq<string>>,
    imageLinks: Option<map<string, string>>)

  const EmptyVolume := RawVolume(None, None, None, None, None, None, None, None)

  /** An upstream item; no `volumeInfo` reads as `{}`. */
  datatype RawItem = RawItem(id: Option<string>, volumeInfo: Option<RawVolume>)

  /** A book as the backend sends it. */
  datatype ApiBook = ApiBook(
    id: Option<string>,
    title: string,
    authors: seq<string>,
    publisher: string,
    publishedDate: Option<string>,
    description: string,
    pageCount: Option<int>,
    categories: seq<string>,
    imageLinks: map<string, string>)

  /** The book built for one item: each field `volume_info.get(field, default)`
      falls back on its own, and `volumeInfo` missing reads as `{}`. */
  function Normalize(item: RawItem): (b: ApiBook)
    ensures b.id == item.id
    ensures var v := item.volumeInfo.GetOr(EmptyVolume);
      && (v.title.Some? ==> b.title == v.title.value)
      && (v.title.None? ==> b.title == "Unknown Title")
      && (v.authors.Some? ==> b.authors == v.authors.value)
      && (v.authors.None? ==> b.authors == ["Unknown Author"])
      && (v.publisher.Some? ==> b.publisher == v.publisher.value)
      && (v.publisher.None? ==> b.publisher == "Unknown Publisher")
      && b.publishedDate == v.publishedDate
      && (v.description.Some? ==> b.description == v.description.value)
      && (v.description.None? ==> b.description == "No description available")
      && b.pageCount == v.pageCount
      && (v.categories.Some? ==> b.categories == v.categories.value)
      && (v.categories.None? ==> b.categories == [])
      && (v.imageLinks.Some? ==> b.imageLinks == v.imageLinks.value)
      && (v.imageLinks.None? ==> b.imageLinks == map[])
  {
    var v := item.volumeInfo.GetOr(EmptyVolume);
    ApiBook(item.id,
            v.title.GetOr("Unknown Title"),
            v.authors.GetOr(["Unknown Author"]),
            v.publisher.GetOr("Unknown Publisher"),
            v.publishedDate,
            v.description.GetOr("No description available"),
            v.pageCount,
            v.categories.GetOr([]),
            v.imageLinks.GetOr(map[]))
  }

  /** An item without `volumeInfo` gets every default. */
  lemma NormalizeDefaults(id: Option<string>)
    ensures Normalize(RawItem(id, None)) ==
      ApiBook(id, "Unknown Title", ["Unknown Author"], "Unknown Publisher", None,
              "No description available", None, [], map[])
  {
  }

  /** A volume that gives only some fields keeps those and defaults the rest
      one by one: a title without a publisher still gets "Unknown Publisher". */
  lemma NormalizePartialVolume(id: Option<string>, title: string)
    ensures Normalize(RawItem(id, Some(EmptyVolume.(title := Some(title))))) ==
      ApiBook(id, title, ["Unknown Author"], "Unknown Publisher", None,
              "No description available", None, [], map[])
  {
  }

  /** The books `search_books` builds from `books_data.get("items")`. */
  function NormalizeAll(items: Option<seq<RawItem>>): (books: seq<ApiBook>)
    ensures items.None? ==> books == []
    ensures items.Some? ==> |books| == |items.value|
    ensures items.Some? ==> forall i :: 0 <= i < |books| ==> books[i] == Normalize(items.value[i])
  {
    match items
    case None => []
    case Some(s) => seq(|s|, i requires 0 <= i < |s| => Normalize(s[i]))
  }

  /** The normalisation loop: one book per item, in item order. */
  method NormalizeItems(items: Option<seq<RawItem>>) returns (books: seq<ApiBook>)
    ensures books == NormalizeAll(items)
  {
    books := [];
    if items.None? {
      return;
    }
    var s := items.value;
    var i := 0;
    while i < |s|
      invariant 0 <= i <= |s|
      invariant |books| == i
      invariant forall j :: 0 <= j < i ==> books[j] == Normalize(s[j])
    {
      books := books + [Normalize(s[i])];
      i := i + 1;
    }
  }

  // ---- the search handler ----

  datatype SearchData = SearchData(books: seq<ApiBook>, totalItems: int, healthContent: seq<HealthResource>)

  /** A JSON response of the handler with its status code. */
  datatype Response =
    | Failure(status: int, error: string)
    | Success(data: SearchData, query: string)
  {
    function Status(): int {
      if Failure? then status else 200
    }
  }

  const KeyMissing := "Google Books API key not configured"
  const InvalidParameters := "Invalid search parameters"
  const QueryRequired := "Search query is required"
  const UpstreamFailed := "Failed to fetch books from Google Books API"

  /** What the upstream call returned: nothing usable (a request error,
      a timeout, an HTTP error status) or a decoded body. */
  datatype Upstream = Unreachable | Answered(items: Option<seq<RawItem>>, totalItems: Option<int>)

  /** The parameters sent upstream. */
  datatype UpstreamRequest = UpstreamRequest(q: string, maxResults: int, key: string)

  /** The handler gets as far as the upstream call: the key is valid,
      `maxResults` parses and the stripped query is not empty. */
  predicate Forwarded(apiKey: Option<string>, q: Option<string>, maxResults: Option<string>) {
    ValidateApiKey(apiKey) && ClampMaxResults(maxResults).Some? && StrippedQuery(q) != ""
  }

  /** The parameters `search_books` sends upstream, if it gets that far. */
  function SearchRequest(apiKey: Option<string>, q: Option<string>, maxResults: Option<string>)
    : (sent: Option<UpstreamRequest>)
    ensures sent.Some? <==> Forwarded(apiKey, q, maxResults)
    ensures sent.Some? ==> sent.value.q == StrippedQuery(q) && sent.value.q != ""
    ensures sent.Some? ==> sent.value.maxResults == ClampMaxResults(maxResults).value <= MaxResults
    ensures sent.Some? ==> Some(sent.value.key) == apiKey
  {
    if Forwarded(apiKey, q, maxResults)
    then Some(UpstreamRequest(StrippedQuery(q), ClampMaxResults(maxResults).value, apiKey.value))
    else None
  }

  /** The response of `search_books` without the cache: the checks in
      source order, then the upstream answer. */
  function SearchResponse(apiKey: Option<string>, q: Option<string>, maxResults: Option<string>,
                          upstream: Upstream): (response: Response)
    ensures !ValidateApiKey(apiKey) ==> response == Failure(500, KeyMissing)
    ensures ValidateApiKey(apiKey) && ClampMaxResults(maxResults).None? ==>
      response == Failure(400, InvalidParameters)
    ensures ValidateApiKey(apiKey) && ClampMaxResults(maxResults).Some? && StrippedQuery(q) == "" ==>
      response == Failure(400, QueryRequired)
    ensures Forwarded(apiKey, q, maxResults) && upstream.Unreachable? ==> response == Failure(503, UpstreamFailed)
    ensures Forwarded(apiKey, q, maxResults) && upstream.Answered? ==>
      response == Success(SearchData(NormalizeAll(upstream.items), upstream.totalItems.GetOr(0),
                                     HealthContent(StrippedQuery(q))),
                          StrippedQuery(q))
    ensures Cacheable(response) <==> Forwarded(apiKey, q, maxResults) && upstream.Answered?
  {
    if !ValidateApiKey(apiKey) then Failure(500, KeyMissing)
    else if ClampMaxResults(maxResults).None? then Failure(400, InvalidParameters)
    else if StrippedQuery(q) == "" then Failure(400, QueryRequired)
    else match upstream
      case Unreachable => Failure(503, UpstreamFailed)
      case Answered(items, totalItems) =>
        var query := StrippedQuery(q);
        Success(SearchData(NormalizeAll(items), totalItems.GetOr(0), HealthContent(query)), query)
  }

  /** `search_books` without the cache, building the books with the
      normalisation loop. */
  method SearchBooks(apiKey: Option<string>, q: Option<string>, maxResults: Option<string>, upstream: Upstream)
    returns (response: Response, sent: Option<UpstreamRequest>)
    ensures response == SearchResponse(apiKey, q, maxResults, upstream)
    ensures sent == SearchRequest(apiKey, q, maxResults)
  {
    if !ValidateApiKey(apiKey) {
      return Failure(500, KeyMissing), None;
    }
    var query := StrippedQuery(q);
    var clamped := ClampMaxResults(maxResults);
    if clamped.None? {
      return Failure(400, InvalidParameters), None;
    }
    if query == "" {
      return Failure(400, QueryRequired), None;
    }
    sent := Some(UpstreamRequest(query, clamped.value, apiKey.value));
    match upstream
    case Unreachable =>
      response := Failure(503, UpstreamFailed);
    case Answered(items, totalItems) =>
      var books := NormalizeItems(items);
      response := Success(SearchData(books, totalItems.GetOr(0), HealthContent(query)), query);
  }

  /** A blank query is refused with a 400 before anything is sent. */
  lemma BlankQueryRefused(q: string)
    requires forall k :: 0 <= k < |q| ==> IsPySpace(q[k])
    ensures StrippedQuery(Some(q)) == ""
  {
    TrimEmptyIff(q, IsPySpace);
  }

  // ---- the response cache ----

  /** `f"{func.__name__}:{request.args.get('q', '')}"`: the raw, untrimmed query. */
  function CacheKey(q: Option<string>): (key: string)
    ensures FunctionName + ":" <= key
  {
    FunctionName + ":" + q.GetOr("")
  }

  /** Two requests share a cache entry exactly when their raw `q` agree
      (a missing `q` counts as empty). */
  lemma CacheKeyInjective(a: Option<string>, b: Option<string>)
    ensures CacheKey(a) == CacheKey(b) <==> a.GetOr("") == b.GetOr("")
  {
    var prefix := FunctionName + ":";
    if CacheKey(a) == CacheKey(b) {
      assert CacheKey(a)[|prefix|..] == a.GetOr("");
      assert CacheKey(b)[|prefix|..] == b.GetOr("");
    }
  }

  /** Only a 200 response with `success` true is stored. */
  predicate Cacheable(r: Response) {
    r.Status() == 200 && r.Success?
  }

  /** The cache lookup at time `now`. */
  function CachedResponse(entries: map<string, (Response, real)>, key: string, now: real)
    : (r: Option<Response>)
    ensures r.Some? <==> key in entries && now - entries[key].1 < CacheTtl
    ensures r.Some? ==> r.value == entries[key].0
  {
    if key in entries && now - entries[key].1 < CacheTtl then Some(entries[key].0) else None
  }

  /** The cache after the handler returned `r` at time `t`. */
  function Remember(entries: map<string, (Response, real)>, key: string, r: Response, t: real)
    : (e: map<string, (Response, real)>)
    ensures Cacheable(r) ==> e == entries[key := (r, t)]
    ensures !Cacheable(r) ==> e == entries
  {
    if Cacheable(r) then entries[key := (r, t)] else entries
  }

  /** A stored response is served again for the same key until the TTL ends. */
  lemma RememberThenServe(entries: map<string, (Response, real)>, key: string, r: Response, t: real, now: real)
    requires Cacheable(r)
    ensures CachedResponse(Remember(entries, key, r, t), key, now) == (if now - t < CacheTtl then Some(r) else None)
  {
  }

  /** A failed response leaves the cache as it was. */
  lemma FailureNotRemembered(entries: map<string, (Response, real)>, key: string, status: int, error: string,
                             t: real, now: real)
    ensures CachedResponse(Remember(entries, key, Failure(status, error), t), key, now)
      == CachedResponse(entries, key, now)
  {
  }

  /** Every stored response is one `Remember` would store. */
  predicate OnlySuccesses(entries: map<string, (Response, real)>) {
    forall key :: key in entries ==> Cacheable(entries[key].0)
  }

  /** Remembering keeps the cache free of failures. */
  lemma RememberKeepsOnlySuccesses(entries: map<string, (Response, real)>, key: string, r: Response, t: real)
    requires OnlySuccesses(entries)
    ensures OnlySuccesses(Remember(entries, key, r, t))
  {
  }

  /** What the wrapped endpoint returns: a fresh cached body or the handler's response. */
  datatype Reply = FromCache(cached: Response) | Direct(response: Response)

  /** The `api_cache` dictionary. */
  class ApiCache {
    var entries: map<string, (Response, real)>

    /** Every stored response is a successful search. */
    ghost predicate Valid()
      reads this
    {
      OnlySuccesses(entries)
    }

    constructor ()
      ensures entries == map[] && Valid()
    {
      entries := map[];
    }

    /** The `cache_response` wrapper around `search_books`: a fresh entry for
        the key is served without calling the handler; otherwise the handler
        runs and a successful response is stored with the time it finished. */
    method Serve(apiKey: Option<string>, q: Option<string>, maxResults: Option<string>, upstream: Upstream,
                 now: real, finishedAt: real)
      returns (reply: Reply, sent: Option<UpstreamRequest>)
      modifies this
      ensures CachedResponse(old(entries), CacheKey(q), now).Some? ==>
        reply == FromCache(old(entries)[CacheKey(q)].0) && sent.None? && entries == old(entries)
      ensures CachedResponse(old(entries), CacheKey(q), now).None? ==>
        var response := SearchResponse(apiKey, q, maxResults, upstream);
        && reply == Direct(response)
        && sent == SearchRequest(apiKey, q, maxResults)
        && entries == Remember(old(entries), CacheKey(q), response, finishedAt)
      ensures old(Valid()) ==> Valid()
      ensures old(Valid()) && reply.FromCache? ==> reply.cached.Success?
    {
      var key := CacheKey(q);
      if key in entries && now - entries[key].1 < CacheTtl {
        return FromCache(entries[key].0), None;
      }
      var response;
      response, sent := SearchBooks(apiKey, q, maxResults, upstream);
      if response.Status() == 200 && response.Success? {
        entries := entries[key := (response, finishedAt)];
      }
      reply := Direct(response);
    }

    /** `clear_cache`. */
    method Clear()
      modifies this
      ensures entries == map[] && Valid()
    {
      entries := map[];
    }
  }
}

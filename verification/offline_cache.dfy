/** The front end's offline result cache (`offlineData`): the books last
    fetched for each exact query string, with the time they were stored.
    Time is a parameter (`Date.now()`, milliseconds). */
module OfflineCache {
  import opened Wrappers
  import opened Books

  /** Entries older than this are ignored (24 hours in milliseconds). */
  const DayMillis: int := 24 * 60 * 60 * 1000

  datatype CacheEntry = CacheEntry(books: seq<Book>, timestamp: int)

  /** `getCachedBookData(query)` against a snapshot of the cache at time `now`. */
  function Lookup(entries: map<string, CacheEntry>, query: string, now: int): (r: Option<seq<Book>>)
    ensures r.Some? <==> query in entries && now - entries[query].timestamp < DayMillis
    ensures r.Some? ==> r.value == entries[query].books
  {
    if query in entries && now - entries[query].timestamp < DayMillis then Some(entries[query].books)
    else None
  }

  /** The cache after `cacheBookData(query, books)` at time `now`. */
  function Stored(entries: map<string, CacheEntry>, query: string, books: seq<Book>, now: int)
    : (r: map<string, CacheEntry>)
    ensures |books| == 0 ==> r == entries
    ensures |books| > 0 ==> r.Keys == entries.Keys + {query} && r[query] == CacheEntry(books, now)
    ensures forall q :: q in entries && q != query ==> q in r && r[q] == entries[q]
  {
    if |books| > 0 then entries[query := CacheEntry(books, now)] else entries
  }

  /** Books stored at `t` are returned for the same query until 24 hours later. */
  lemma PutThenGet(entries: map<string, CacheEntry>, query: string, books: seq<Book>, t: int, later: int)
    requires |books| > 0 && later < t + DayMillis
    ensures Lookup(Stored(entries, query, books, t), query, later) == Some(books)
  {
  }

  /** From 24 hours after storing on, the entry is ignored. */
  lemma PutThenExpire(entries: map<string, CacheEntry>, query: string, books: seq<Book>, t: int, later: int)
    requires |books| > 0 && later >= t + DayMillis
    ensures Lookup(Stored(entries, query, books, t), query, later) == None
  {
  }

  /** Storing for one query does not change what another query finds. */
  lemma PutOtherQuery(entries: map<string, CacheEntry>, query: string, books: seq<Book>, t: int,
                      other: string, later: int)
    requires other != query
    ensures Lookup(Stored(entries, query, books, t), other, later) == Lookup(entries, other, later)
  {
  }

  class OfflineStore {
    var entries: map<string, CacheEntry>

    /** Starts from the persisted cache (an empty one when nothing was stored). */
    constructor (saved: map<string, CacheEntry>)
      ensures entries == saved
    {
      entries := saved;
    }

    /** `cacheBookData`: does nothing for an empty list, otherwise replaces the
        entry for exactly this query and leaves every other entry alone. */
    method Put(query: string, books: seq<Book>, now: int)
      modifies this
      ensures entries == Stored(old(entries), query, books, now)
    {
      if |books| > 0 {
        entries := entries[query := CacheEntry(books, now)];
      }
    }

    /** `getCachedBookData`. */
    function Get(query: string, now: int): (r: Option<seq<Book>>)
      reads this
      ensures r.Some? <==> query in entries && now - entries[query].timestamp < DayMillis
      ensures r.Some? ==> r.value == entries[query].books
    {
      Lookup(entries, query, now)
    }
  }
}

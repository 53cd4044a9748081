/** The two time-to-live caches in front of the trends API. The clock is the
    `now` parameter (seconds, as `time.time()` returns them) and the lookups
    behind the caches are `fetch` parameters. */
module Cache {
  import opened Wrappers
  import opened Text
  import opened Seqs
  import opened Ordering
  import Discover
  import Interest

  /** `now_ts - ts < ttl_seconds`: an entry stored at `ts` is still fresh. */
  predicate Fresh(ts: real, now: real, ttl: real) {
    now - ts < ttl
  }

  /** A stored value with the time it was stored. */
  datatype Stamped<T> = Stamped(ts: real, data: T)

  /** `RELATED_CACHE`. */
  type RelatedCache = map<string, Stamped<Discover.RelatedResult>>

  /** The cache key `f"{normalize_text(keyword)}|{geo}|{timeframe}"`. */
  function RelatedKey(keyword: string, geo: string, timeframe: string): string {
    Normalize(keyword) + "|" + geo + "|" + timeframe
  }

  /** Keywords that differ only in case or in surrounding or repeated
      whitespace share one entry: looking up a keyword's canonical form hits
      the same key as the keyword itself. */
  lemma RelatedKeyCanonical(keyword: string, geo: string, timeframe: string)
    ensures RelatedKey(Normalize(keyword), geo, timeframe) == RelatedKey(keyword, geo, timeframe)
  {
    NormalizeIdempotent(keyword);
  }

  /** The outcome of a cached lookup: the cache afterwards, the data
      returned (`None` when the fetch raised, which propagates to the
      caller), and whether the fetch was called. */
  datatype Lookup<C, T> = Lookup(cache: C, data: Option<T>, fetched: bool)

  /** Whether `cached_related_queries_for_keyword` answers from the cache. */
  predicate RelatedHit(cache: RelatedCache, key: string, ttl: real, force: bool, now: real) {
    !force && key in cache && Fresh(cache[key].ts, now, ttl)
  }

  /** `cached_related_queries_for_keyword`. The fetch is called with the
      keyword as given, not its canonical form. */
  function CachedRelated(cache: RelatedCache, keyword: string, geo: string, timeframe: string,
                         ttl: real, force: bool, now: real,
                         fetch: (string, string, string) -> Option<Discover.RelatedResult>)
    : (r: Lookup<RelatedCache, Discover.RelatedResult>)
    ensures var key := RelatedKey(keyword, geo, timeframe);
      && (r.fetched <==> !RelatedHit(cache, key, ttl, force, now))
      && (!r.fetched ==> r.cache == cache && r.data == Some(cache[key].data))
      && (r.fetched ==> r.data == fetch(keyword, geo, timeframe))
      && (r.fetched && r.data.Some? ==> r.cache == cache[key := Stamped(now, r.data.value)])
      && (r.data.None? ==> r.cache == cache)
  {
    var key := RelatedKey(keyword, geo, timeframe);
    if RelatedHit(cache, key, ttl, force, now) then Lookup(cache, Some(cache[key].data), false)
    else
      match fetch(keyword, geo, timeframe)
      case Some(d) => Lookup(cache[key := Stamped(now, d)], Some(d), true)
      case None => Lookup(cache, None, true)
  }

  /** After a successful fetch, a lookup of the same keyword within the
      time to live does not fetch again and returns what was stored. */
  lemma RelatedSecondCallHits(cache: RelatedCache, keyword: string, geo: string, timeframe: string,
                              ttl: real, force: bool, t1: real, t2: real,
                              fetch: (string, string, string) -> Option<Discover.RelatedResult>)
    requires t1 <= t2 && t2 - t1 < ttl
    requires CachedRelated(cache, keyword, geo, timeframe, ttl, force, t1, fetch).fetched
    requires fetch(keyword, geo, timeframe).Some?
    ensures var first := CachedRelated(cache, keyword, geo, timeframe, ttl, force, t1, fetch);
      var second := CachedRelated(first.cache, keyword, geo, timeframe, ttl, false, t2, fetch);
      !second.fetched && second.data == first.data && second.cache == first.cache
  {
    var key := RelatedKey(keyword, geo, timeframe);
    var first := CachedRelated(cache, keyword, geo, timeframe, ttl, force, t1, fetch);
    assert first.cache == cache[key := Stamped(t1, fetch(keyword, geo, timeframe).value)];
    assert RelatedHit(first.cache, key, ttl, false, t2);
  }

  /** A forced refresh always fetches. */
  lemma RelatedForceFetches(cache: RelatedCache, keyword: string, geo: string, timeframe: string,
                            ttl: real, now: real,
                            fetch: (string, string, string) -> Option<Discover.RelatedResult>)
    ensures CachedRelated(cache, keyword, geo, timeframe, ttl, true, now, fetch).fetched
  {
  }

  /** A lookup touches only its own key. */
  lemma RelatedOtherKeysUnchanged(cache: RelatedCache, keyword: string, geo: string, timeframe: string,
                                  ttl: real, force: bool, now: real,
                                  fetch: (string, string, string) -> Option<Discover.RelatedResult>, other: string)
    requires other != RelatedKey(keyword, geo, timeframe)
    ensures var after := CachedRelated(cache, keyword, geo, timeframe, ttl, force, now, fetch).cache;
      (other in after <==> other in cache) && (other in cache ==> after[other] == cache[other])
  {
  }

  /** `TRENDS_CACHE`: a single slot holding the items for one keyword set. */
  datatype TrendsSlot = TrendsSlot(ts: real, sig: string, items: seq<Interest.TrendItem>)

  /** The slot as the server starts with it: stamped at time zero, empty. */
  const InitialSlot := TrendsSlot(0.0, "", [])

  /** The first lookup after start-up fetches once the clock is past the
      time to live, even for an empty keyword list, whose signature matches
      the empty one in the initial slot. */
  lemma FirstLookupFetches(keywords: seq<string>, ttl: real, force: bool, now: real,
                           fetch: seq<string> -> Interest.BatchOutcome)
    requires now >= ttl
    ensures CachedLastHourTrends(InitialSlot, keywords, ttl, force, now, fetch).fetched
  {
  }

  /** `"|".join(sorted(normalize_text(k) for k in keywords))`. */
  function Signature(keywords: seq<string>): string {
    Join(SortBy(MapSeq(Normalize, keywords), StrLess), "|")
  }

  /** The signature does not depend on the order of the keywords. */
  lemma SignatureOrderFree(k1: seq<string>, k2: seq<string>)
    requires multiset(k1) == multiset(k2)
    ensures Signature(k1) == Signature(k2)
  {
    MapSeqPermutation(Normalize, k1, k2);
    StrLessIsTotalOrder();
    SortByPermutation(MapSeq(Normalize, k1), MapSeq(Normalize, k2), StrLess);
  }

  /** The signature is built from the sorted canonical keywords, so keyword
      lists with the same canonical forms share a signature. */
  lemma SignatureCanonical(k1: seq<string>, k2: seq<string>)
    requires |k1| == |k2|
    requires forall i :: 0 <= i < |k1| ==> Normalize(k1[i]) == Normalize(k2[i])
    ensures Signature(k1) == Signature(k2)
  {
    assert MapSeq(Normalize, k1) == MapSeq(Normalize, k2);
  }

  /** Whether `cached_last_hour_trends` answers from the slot. */
  predicate TrendsHit(slot: TrendsSlot, sig: string, ttl: real, force: bool, now: real) {
    !force && slot.sig == sig && Fresh(slot.ts, now, ttl)
  }

  /** `cached_last_hour_trends`. A miss replaces the whole slot, whatever
      keyword set it held. */
  function CachedLastHourTrends(slot: TrendsSlot, keywords: seq<string>, ttl: real, force: bool, now: real,
                                fetch: seq<string> -> Interest.BatchOutcome)
    : (r: Lookup<TrendsSlot, seq<Interest.TrendItem>>)
    ensures r.data.Some?
    ensures r.fetched <==> !TrendsHit(slot, Signature(keywords), ttl, force, now)
    ensures !r.fetched ==> r.cache == slot && r.data == Some(slot.items)
    ensures r.fetched ==> (r.cache == TrendsSlot(now, Signature(keywords), r.data.value)
                           && r.data == Some(Interest.BuildLastHourTrends(keywords, fetch)))
  {
    var sig := Signature(keywords);
    if TrendsHit(slot, sig, ttl, force, now) then Lookup(slot, Some(slot.items), false)
    else
      var items := Interest.BuildLastHourTrends(keywords, fetch);
      Lookup(TrendsSlot(now, sig, items), Some(items), true)
  }

  /** After a rebuild, asking again for the same keywords, in any order,
      within the time to live returns the stored items without a new
      fetch. */
  lemma TrendsSecondCallHits(slot: TrendsSlot, k1: seq<string>, k2: seq<string>, ttl: real, force: bool,
                             t1: real, t2: real, fetch: seq<string> -> Interest.BatchOutcome)
    requires multiset(k1) == multiset(k2)
    requires t1 <= t2 && t2 - t1 < ttl
    requires CachedLastHourTrends(slot, k1, ttl, force, t1, fetch).fetched
    ensures var first := CachedLastHourTrends(slot, k1, ttl, force, t1, fetch);
      var second := CachedLastHourTrends(first.cache, k2, ttl, false, t2, fetch);
      !second.fetched && second.data == first.data
  {
    SignatureOrderFree(k1, k2);
  }

  /** Alternating between two keyword sets with different signatures
      fetches every time: the single slot only remembers the last set. */
  lemma TrendsThrash(slot: TrendsSlot, k1: seq<string>, k2: seq<string>, ttl: real, t1: real, t2: real,
                     fetch: seq<string> -> Interest.BatchOutcome)
    requires Signature(k1) != Signature(k2)
    ensures var first := CachedLastHourTrends(slot, k1, ttl, false, t1, fetch);
      var second := CachedLastHourTrends(first.cache, k2, ttl, false, t2, fetch);
      var third := CachedLastHourTrends(second.cache, k1, ttl, false, t2, fetch);
      second.fetched && third.fetched
  {
  }
}

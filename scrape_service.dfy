/** The scrape service: a process-wide metadata cache with a five-minute
    time-to-live, and `getMetadata`, which answers from the cache or drives
    one browser page through the extraction routine. */
module ScrapeService {
  import opened Basics
  import opened ScrapePage

  /** 5 * 60 * 1000 milliseconds. */
  const CACHE_TTL: int := 5 * 60 * 1000

  const SCRAPE_FAILED_PREFIX: string := "抓取元数据失败: "
  const SCRAPE_UNKNOWN_ERROR: string := "抓取元数据时发生未知错误"

  datatype CacheEntry = CacheEntry(data: Metadata, timestamp: int)

  /** An entry still counts as cached while it is younger than the TTL. */
  predicate IsFresh(e: CacheEntry, now: int) {
    now - e.timestamp < CACHE_TTL
  }

  type Cache = map<string, CacheEntry>

  /** The cache after a sweep at time `now`. */
  function Swept(cache: Cache, now: int): (r: Cache)
    ensures r.Keys <= cache.Keys
    ensures forall k :: k in r ==> r[k] == cache[k] && IsFresh(r[k], now)
    ensures forall k :: k in cache && IsFresh(cache[k], now) ==> k in r
  {
    map k | k in cache && IsFresh(cache[k], now) :: cache[k]
  }

  /** What a lookup at `now` returns. */
  function CachedValue(cache: Cache, url: string, now: int): (r: Option<Metadata>)
    ensures r.Some? <==> url in cache && IsFresh(cache[url], now)
    ensures r.Some? ==> r.value == cache[url].data
  {
    if url in cache && IsFresh(cache[url], now) then Some(cache[url].data) else None
  }

  /** The cache after a lookup at `now`: an expired entry for `url` is
      dropped, nothing else changes. */
  function AfterLookup(cache: Cache, url: string, now: int): (r: Cache)
    ensures r.Keys == if url in cache && !IsFresh(cache[url], now) then cache.Keys - {url} else cache.Keys
    ensures forall k :: k in r ==> r[k] == cache[k]
  {
    if url in cache && !IsFresh(cache[url], now) then cache - {url} else cache
  }

  /** A lookup never loses a fresh entry and never invents one. */
  lemma {:induction false} LookupKeepsFreshEntries(cache: Cache, url: string, now: int)
    ensures forall k :: k in cache && IsFresh(cache[k], now) ==>
              k in AfterLookup(cache, url, now) && AfterLookup(cache, url, now)[k] == cache[k]
    ensures CachedValue(AfterLookup(cache, url, now), url, now) == CachedValue(cache, url, now)
  {
  }

  /** A write followed by the sweep keeps the written value, however old the
      other entries are. */
  lemma {:induction false} WrittenEntrySurvivesSweep(cache: Cache, url: string, md: Metadata, now: int)
    ensures CachedValue(Swept(cache[url := CacheEntry(md, now)], now), url, now) == Some(md)
  {
    var written := cache[url := CacheEntry(md, now)];
    assert url in written && IsFresh(written[url], now);
  }

  /** How the browser side of one `getMetadata` call went: something threw
      before a page was open (URL parsing, launching the browser, opening
      the page), something threw while the page was open (page setup,
      navigation with its 30 s timeout, the in-page routine), or the page
      loaded and the routine read `doc`. The readiness waits that swallow
      their own timeouts have no observable effect and are not listed. */
  datatype BrowserRun =
    | FailedBeforePage(error: Thrown)
    | FailedOnPage(error: Thrown)
    | Loaded(doc: Document)

  /** The message of the error `getMetadata` rethrows. */
  function ScrapeErrorMessage(e: Thrown): (m: string)
    ensures e.ErrorObject? ==> m == SCRAPE_FAILED_PREFIX + e.message
    ensures e.OtherValue? ==> m == SCRAPE_UNKNOWN_ERROR
  {
    match e
    case ErrorObject(msg) => SCRAPE_FAILED_PREFIX + msg
    case OtherValue(_) => SCRAPE_UNKNOWN_ERROR
  }

  /** What a call that reaches the browser returns: the extracted record, or
      a 500 with the wrapped message. */
  function ScrapeReply(run: BrowserRun): (r: Reply<Metadata>)
    ensures r.Ok? <==> run.Loaded?
    ensures run.Loaded? ==> r.value == Extract(run.doc)
    ensures r.Fail? ==> r.status == 500 && r.message == ScrapeErrorMessage(run.error)
  {
    match run
    case Loaded(doc) => Ok(Extract(doc))
    case FailedBeforePage(e) => Fail(500, ScrapeErrorMessage(e))
    case FailedOnPage(e) => Fail(500, ScrapeErrorMessage(e))
  }

  class ScrapeService {
    /** The cache: URL (exactly as requested) to entry. */
    var cache: Cache
    /** Pages open right now. */
    var openPages: nat

    constructor ()
      ensures cache == map[] && openPages == 0
    {
      cache := map[];
      openPages := 0;
    }

    /** getCachedMetadata */
    method GetCachedMetadata(url: string, now: int) returns (r: Option<Metadata>)
      modifies this`cache
      ensures r == CachedValue(old(cache), url, now)
      ensures cache == AfterLookup(old(cache), url, now)
    {
      if url in cache && now - cache[url].timestamp < CACHE_TTL {
        return Some(cache[url].data);
      }
      if url in cache {
        cache := cache - {url};
      }
      return None;
    }

    /** setCachedMetadata */
    method SetCachedMetadata(url: string, metadata: Metadata, now: int)
      modifies this`cache
      ensures cache == old(cache)[url := CacheEntry(metadata, now)]
    {
      cache := cache[url := CacheEntry(metadata, now)];
    }

    /** cleanupCache: visits every entry and deletes the expired ones. */
    method CleanupCache(now: int)
      modifies this`cache
      ensures cache == Swept(old(cache), now)
    {
      var pending := cache.Keys;
      while pending != {}
        invariant pending <= old(cache).Keys
        invariant cache.Keys == pending + Swept(old(cache), now).Keys
        invariant forall k :: k in cache ==> cache[k] == old(cache)[k]
        decreases pending
      {
        var key :| key in pending;
        if now - cache[key].timestamp >= CACHE_TTL {
          cache := cache - {key};
        }
        pending := pending - {key};
      }
    }

    /** getMetadata(url, useCache). `now` is the time of the lookup and
        `doneAt` the time the result is written back; `run` is how the
        browser side went, and `pageOpened` says whether a page was opened. */
    method GetMetadata(url: string, useCache: bool, now: int, doneAt: int, run: BrowserRun)
      returns (r: Reply<Metadata>, pageOpened: bool)
      modifies this
      ensures openPages == old(openPages)
      ensures useCache && CachedValue(old(cache), url, now).Some? ==>
                r == Ok(CachedValue(old(cache), url, now).value) && !pageOpened && cache == old(cache)
      ensures !(useCache && CachedValue(old(cache), url, now).Some?) ==>
                r == ScrapeReply(run) && pageOpened == !run.FailedBeforePage?
      ensures !useCache ==> cache == old(cache)
      ensures useCache && CachedValue(old(cache), url, now).None? ==>
                cache == if r.Ok?
                         then Swept(AfterLookup(old(cache), url, now)[url := CacheEntry(r.value, doneAt)], doneAt)
                         else AfterLookup(old(cache), url, now)
    {
      if useCache {
        var cached := GetCachedMetadata(url, now);
        if cached.Some? {
          return Ok(cached.value), false;
        }
      }
      pageOpened := false;
      match run {
        case FailedBeforePage(e) =>
          r := Fail(500, ScrapeErrorMessage(e));
        case FailedOnPage(e) =>
          openPages, pageOpened := openPages + 1, true;
          r := Fail(500, ScrapeErrorMessage(e));
        case Loaded(doc) =>
          openPages, pageOpened := openPages + 1, true;
          var metadata := Extract(doc);
          if useCache {
            SetCachedMetadata(url, metadata, doneAt);
            CleanupCache(doneAt);
          }
          r := Ok(metadata);
      }
      // finally: the page, when one was pageOpened, is closed
      if pageOpened {
        openPages := openPages - 1;
      }
    }
  }

  /** Two calls in a row: a successful cached call is answered from the
      cache by a second call within the TTL, without opening a page. */
  method RepeatedCallHitsCache(url: string, doc: Document, t1: int, t2: int, run: BrowserRun)
    returns (first: Reply<Metadata>, second: Reply<Metadata>, pageOpened: bool)
    requires t1 <= t2 < t1 + CACHE_TTL
    ensures first == Ok(Extract(doc)) && second == first && !pageOpened
  {
    var service := new ScrapeService();
    var opened1;
    first, opened1 := service.GetMetadata(url, true, t1, t1, Loaded(doc));
    WrittenEntrySurvivesSweep(AfterLookup(map[], url, t1), url, Extract(doc), t1);
    second, pageOpened := service.GetMetadata(url, true, t2, t2, run);
  }
}

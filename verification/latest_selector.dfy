/**
 * `LatestVectorStoreSelector`: serves the newest-first prefix of the
 * vector-store listing from a cache held in two mutable fields, refreshing
 * it from the lister when forced or when the cache is not fresh.
 *
 * Freshness follows the code, not elapsed time: the test is
 * `(now - cache_timestamp).seconds < 300`, and `timedelta.seconds` is only
 * the seconds-within-a-day part of the difference. Instants are whole
 * seconds here, so the age is `(now - ts) mod 86400`.
 */
module LatestSelector {
  import opened PyText
  import opened StoreRecords
  import opened StoreSort

  /** `cache_ttl_seconds`. */
  const CacheTtlSeconds: int := 300

  const SecondsPerDay: int := 86400

  /** `(now - ts).seconds`: the elapsed time with whole days dropped. */
  function CacheAgeSeconds(now: int, ts: int): (age: int)
    ensures 0 <= age < SecondsPerDay
    ensures 0 <= now - ts < SecondsPerDay ==> age == now - ts
  {
    (now - ts) % SecondsPerDay
  }

  /** Adding whole days to the elapsed time does not change the age the cache test sees. */
  lemma {:induction false} AgeIgnoresWholeDays(now: int, ts: int, days: nat)
    ensures CacheAgeSeconds(now + days * SecondsPerDay, ts) == CacheAgeSeconds(now, ts)
  {
    if days > 0 {
      AgeIgnoresWholeDays(now, ts, days - 1);
      var d := now + (days - 1) * SecondsPerDay - ts;
      assert now + days * SecondsPerDay - ts == d + SecondsPerDay;
      assert (d + SecondsPerDay) % SecondsPerDay == d % SecondsPerDay;
    }
  }

  /** A cache entry one day and ten seconds old passes the freshness test. */
  lemma DayOldEntryCountsAsFresh(ts: int)
    ensures CacheAgeSeconds(ts + SecondsPerDay + 10, ts) < CacheTtlSeconds
  {
    AgeIgnoresWholeDays(ts + 10, ts, 1);
  }

  /** The freshness test on the whole elapsed time, `(now - ts).total_seconds() < ttl`. */
  predicate FreshByTotalSeconds(now: int, ts: int) {
    now - ts < CacheTtlSeconds
  }

  /**
   * Measured on the whole elapsed time, an entry is stale once the time to
   * live has passed, however many days later; within the first day the
   * two tests agree.
   */
  lemma TotalSecondsExpiresEntries(now: int, ts: int, days: nat)
    ensures now - ts >= CacheTtlSeconds ==> !FreshByTotalSeconds(now + days * SecondsPerDay, ts)
    ensures 0 <= now - ts < SecondsPerDay ==>
      (FreshByTotalSeconds(now, ts) <==> CacheAgeSeconds(now, ts) < CacheTtlSeconds)
  {
  }

  /** The entry a day and ten seconds old that the original test keeps is stale on the whole elapsed time. */
  lemma DayOldEntryIsStaleByTotalSeconds(ts: int)
    ensures !FreshByTotalSeconds(ts + SecondsPerDay + 10, ts)
    ensures CacheAgeSeconds(ts + SecondsPerDay + 10, ts) < CacheTtlSeconds
  {
    TotalSecondsExpiresEntries(ts + 10, ts, 1);
    DayOldEntryCountsAsFresh(ts);
  }

  /** The cache: `{'latest_stores': sorted, 'all_stores': raw}`. */
  datatype CacheEntry = CacheEntry(latestStores: seq<Store>, allStores: seq<Store>)

  /** The `selection_metadata` record written by `save_selected_stores`. */
  datatype SelectionMetadata = SelectionMetadata(
    totalAvailable: nat,
    selectedCount: nat,
    updatedAt: string,
    source: string,
    version: string)

  /** The whole document written by `save_selected_stores`. */
  datatype SaveData = SaveData(latestVectorStores: seq<Store>, selectionMetadata: SelectionMetadata)

  /** A newest-first prefix never holds more records than the listing it was cut from. */
  lemma ServedPrefixFitsListing(all: seq<Store>, n: int)
    ensures |Take(SortStoresByCreationDate(all), n)| <= |all|
    ensures 0 <= n ==> |Take(SortStoresByCreationDate(all), n)| == if n < |all| then n else |all|
  {
    SortPermutes(all, CreatedAt);
  }

  /** The records of a newest-first list, cut to a prefix, are still newest first. */
  lemma PrefixOfSortedIsSorted(all: seq<Store>, n: int)
    ensures var p := Take(SortStoresByCreationDate(all), n);
      forall i, j :: 0 <= i < j < |p| ==> p[i].createdAt >= p[j].createdAt
  {
    SortOrders(all, CreatedAt);
    var s := SortStoresByCreationDate(all);
    var p := Take(s, n);
    forall i, j | 0 <= i < j < |p| ensures p[i].createdAt >= p[j].createdAt {
      assert p[i] == s[i] && p[j] == s[j];
    }
  }

  class LatestVectorStoreSelector {
    /** `self.cache`; the empty dict `{}` is `None`. */
    var cache: Option<CacheEntry>
    /** `self.cache_timestamp`, in whole seconds. */
    var cacheTimestamp: Option<int>
    const cacheTtlSeconds: int

    /** A cache entry and its timestamp are set together, and the entry holds the sorted non-empty listing. */
    ghost predicate Valid()
      reads this
    {
      && cacheTtlSeconds == CacheTtlSeconds
      && (cache.Some? <==> cacheTimestamp.Some?)
      && (cache.Some? ==>
            cache.value.allStores != [] &&
            cache.value.latestStores == SortStoresByCreationDate(cache.value.allStores))
    }

    /** `__init__`: an empty cache, no timestamp, a 300-second time to live. */
    constructor ()
      ensures Valid()
      ensures cache == None && cacheTimestamp == None
    {
      cache := None;
      cacheTimestamp := None;
      cacheTtlSeconds := CacheTtlSeconds;
    }

    /** The guard of the cache branch in `get_latest_n_stores`. */
    predicate ServesFromCache(forceRefresh: bool, now: int)
      reads this
    {
      !forceRefresh && cache.Some? && cacheTimestamp.Some? &&
      CacheAgeSeconds(now, cacheTimestamp.value) < cacheTtlSeconds
    }

    /**
     * `get_latest_n_stores(n, force_refresh)` at time `now`. `listing` is what the
     * remote lister would return if called; `listed` says whether it was called.
     */
    method GetLatestNStores(n: int, forceRefresh: bool, now: int, listing: Listing, fmt: int -> string)
      returns (latest: seq<Store>, listed: bool)
      requires Valid()
      modifies this
      ensures Valid()
      ensures listed == !old(ServesFromCache(forceRefresh, now))
      ensures !listed ==>
        latest == Take(old(cache).value.latestStores, n) &&
        cache == old(cache) && cacheTimestamp == old(cacheTimestamp)
      ensures listed && FetchedStores(listing, fmt) == [] ==>
        latest == [] && cache == old(cache) && cacheTimestamp == old(cacheTimestamp)
      ensures listed && FetchedStores(listing, fmt) != [] ==>
        var all := FetchedStores(listing, fmt);
        && cache == Some(CacheEntry(SortStoresByCreationDate(all), all))
        && cacheTimestamp == Some(now)
        && latest == Take(SortStoresByCreationDate(all), n)
      ensures latest == [] || (cache.Some? && latest == Take(cache.value.latestStores, n))
      ensures forall i, j :: 0 <= i < j < |latest| ==> latest[i].createdAt >= latest[j].createdAt
      ensures cache.Some? ==> |latest| <= |cache.value.allStores|
    {
      if ServesFromCache(forceRefresh, now) {
        latest := Take(cache.value.latestStores, n);
        listed := false;
        PrefixOfSortedIsSorted(cache.value.allStores, n);
        ServedPrefixFitsListing(cache.value.allStores, n);
        return;
      }
      listed := true;
      var allStores := FetchAllVectorStores(listing, fmt);
      if allStores == [] {
        latest := [];
        return;
      }
      var sortedStores := SortStoresByCreationDate(allStores);
      latest := Take(sortedStores, n);
      PrefixOfSortedIsSorted(allStores, n);
      ServedPrefixFitsListing(allStores, n);
      cache := Some(CacheEntry(sortedStores, allStores));
      cacheTimestamp := Some(now);
    }

    /** The document `save_selected_stores` writes; `updatedAt` is `datetime.now().isoformat()`. */
    function SaveSelectedStoresData(latest: seq<Store>, updatedAt: string): (d: SaveData)
      reads this
      ensures d.latestVectorStores == latest
      ensures d.selectionMetadata.selectedCount == |latest|
      ensures cache.None? ==> d.selectionMetadata.totalAvailable == 0
      ensures cache.Some? ==> d.selectionMetadata.totalAvailable == |cache.value.allStores|
      ensures d.selectionMetadata.updatedAt == updatedAt
      ensures d.selectionMetadata.source == "LatestVectorStoreSelector"
      ensures d.selectionMetadata.version == "1.0"
    {
      var total := match cache case None => 0 case Some(entry) => |entry.allStores|;
      SaveData(latest, SelectionMetadata(total, |latest|, updatedAt, "LatestVectorStoreSelector", "1.0"))
    }
  }
}

/** The day-granular cache in front of the scrapers: a cached row is served
    only when a holding of the user matches the ticker and the row is dated
    today. "Today" is a parameter; reading the clock is not modelled. */
module Freshness {
  import opened Text
  import opened Database

  /** `is_data_fresh`: an entry exists and carries today's date. */
  predicate IsDataFresh(entry: Option<CachedEntry>, today: string)
  {
    entry.Some? && entry.value.date == today
  }

  /** A row just written is fresh on the day it is dated and on no other day. */
  lemma SavedEntryFreshOnlyThatDay(cache: map<string, CacheRow>, holdingId: string, userId: int,
                                   data: Json, date: string, time: string, today: string)
    ensures IsDataFresh(Lookup(cache[holdingId := CacheRow(userId, data, date, time)], holdingId), today) <==> date == today
  {
  }

  /** The holding the cache helpers look up first. */
  function HoldingFor(store: Store, ticker: string, userId: int): Option<Holding>
    reads store
  {
    store.FindExistingHoldingByTicker(ticker, userId)
  }

  /** `get_cached_ratios_by_ticker`. */
  function GetCachedRatiosByTicker(store: Store, ticker: string, userId: int, today: string): (r: Option<Json>)
    reads store
    ensures r.Some? ==>
      exists i :: 0 <= i < |store.holdings| && MatchesTicker(store.holdings[i], ticker, userId)
        && store.holdings[i].id in store.ratiosCache
        && store.ratiosCache[store.holdings[i].id].date == today
        && r.value == store.ratiosCache[store.holdings[i].id].data
    ensures (forall i :: 0 <= i < |store.holdings| ==> !MatchesTicker(store.holdings[i], ticker, userId)) ==> r.None?
    ensures FirstHoldingMatch(store.holdings, ticker, userId).Some? ==>
      var id := store.holdings[FirstHoldingMatch(store.holdings, ticker, userId).value].id;
      id in store.ratiosCache && store.ratiosCache[id].date == today ==> r == Some(store.ratiosCache[id].data)
  {
    match HoldingFor(store, ticker, userId)
    case None => None
    case Some(h) =>
      var cached := store.GetRatiosCache(h.id);
      if IsDataFresh(cached, today) then Some(cached.value.data) else None
  }

  /** `get_cached_quarterly_by_ticker`. */
  function GetCachedQuarterlyByTicker(store: Store, ticker: string, userId: int, today: string): (r: Option<Json>)
    reads store
    ensures r.Some? ==>
      exists i :: 0 <= i < |store.holdings| && MatchesTicker(store.holdings[i], ticker, userId)
        && store.holdings[i].id in store.quarterlyCache
        && store.quarterlyCache[store.holdings[i].id].date == today
        && r.value == store.quarterlyCache[store.holdings[i].id].data
    ensures (forall i :: 0 <= i < |store.holdings| ==> !MatchesTicker(store.holdings[i], ticker, userId)) ==> r.None?
    ensures FirstHoldingMatch(store.holdings, ticker, userId).Some? ==>
      var id := store.holdings[FirstHoldingMatch(store.holdings, ticker, userId).value].id;
      id in store.quarterlyCache && store.quarterlyCache[id].date == today ==> r == Some(store.quarterlyCache[id].data)
  {
    match HoldingFor(store, ticker, userId)
    case None => None
    case Some(h) =>
      var cached := store.GetQuarterlyCache(h.id);
      if IsDataFresh(cached, today) then Some(cached.value.data) else None
  }

  /** `save_ratios_to_cache_by_ticker`: without a matching holding nothing is
      written; otherwise the row is written under today's date, and a read on
      the same day returns exactly the saved data. */
  method SaveRatiosToCacheByTicker(store: Store, ticker: string, data: Json, userId: int, today: string, now: string)
    requires store.Valid()
    modifies store
    ensures store.Valid()
    ensures HoldingFor(store, ticker, userId) == old(HoldingFor(store, ticker, userId))
    ensures old(HoldingFor(store, ticker, userId)).None? ==> store.ratiosCache == old(store.ratiosCache)
    ensures old(HoldingFor(store, ticker, userId)).Some? ==>
      && store.ratiosCache == old(store.ratiosCache)[old(HoldingFor(store, ticker, userId)).value.id := CacheRow(userId, data, today, now)]
      && GetCachedRatiosByTicker(store, ticker, userId, today) == Some(data)
    ensures store.holdings == old(store.holdings) && store.quarterlyCache == old(store.quarterlyCache)
    ensures store.companies == old(store.companies) && store.nextCompanyId == old(store.nextCompanyId)
  {
    var existing := HoldingFor(store, ticker, userId);
    if existing.None? {
      return;
    }
    var ok := store.SaveRatiosCache(existing.value.id, data, today, now, userId);
    assert ok by {
      var k := FirstHoldingMatch(store.holdings, ticker, userId).value;
      assert store.holdings[k].id == existing.value.id;
    }
  }

  /** `save_quarterly_to_cache_by_ticker`: the same contract over the quarterly table. */
  method SaveQuarterlyToCacheByTicker(store: Store, ticker: string, data: Json, userId: int, today: string, now: string)
    requires store.Valid()
    modifies store
    ensures store.Valid()
    ensures HoldingFor(store, ticker, userId) == old(HoldingFor(store, ticker, userId))
    ensures old(HoldingFor(store, ticker, userId)).None? ==> store.quarterlyCache == old(store.quarterlyCache)
    ensures old(HoldingFor(store, ticker, userId)).Some? ==>
      && store.quarterlyCache == old(store.quarterlyCache)[old(HoldingFor(store, ticker, userId)).value.id := CacheRow(userId, data, today, now)]
      && GetCachedQuarterlyByTicker(store, ticker, userId, today) == Some(data)
    ensures store.holdings == old(store.holdings) && store.ratiosCache == old(store.ratiosCache)
    ensures store.companies == old(store.companies) && store.nextCompanyId == old(store.nextCompanyId)
  {
    var existing := HoldingFor(store, ticker, userId);
    if existing.None? {
      return;
    }
    var ok := store.SaveQuarterlyCache(existing.value.id, data, today, now, userId);
    assert ok by {
      var k := FirstHoldingMatch(store.holdings, ticker, userId).value;
      assert store.holdings[k].id == existing.value.id;
    }
  }
}

/**
 * A memoising decorator over a slow, fallible price service.
 *
 * The cache remembers, per item code, the last price the service reported and
 * the instant it was stored. A lookup is served from the cache while the entry
 * is younger than `maxAge`; otherwise the stale entry is dropped, the service is
 * asked, and a successful answer is stored with the current instant.
 *
 * The wall clock is an explicit `now` argument and the service is an oracle: a
 * total function from an item code and an instant to what the service would
 * answer for that item at that instant.
 */
module PriceCache {

  type ItemCode = string

  /** Prices are only stored and passed through, never computed on. */
  type Price = real

  /** Instants and durations in one integer unit. */
  type Time = int

  datatype Option<T> = None | Some(value: T)

  /** The only error a lookup reports: the service could not give a price. */
  datatype Error = FetchError

  /** What the underlying service answers for one item. */
  datatype Fetch = Fetched(price: Price) | Unavailable

  /** The underlying price service, as what it answers for an item at an instant. */
  type PriceService = (ItemCode, Time) -> Fetch

  /** One cache entry: the price and the instant it was assigned. */
  datatype CachedPrice = CachedPrice(value: Price, lastAssigment: Time)

  type Prices = map<ItemCode, CachedPrice>

  /** The outcome of one single-item lookup: the reply and the cache afterwards. */
  datatype Step = Step(value: Price, err: Option<Error>, after: Prices)

  /** The outcome of a batch lookup: the replies and the cache afterwards. */
  datatype BatchStep = BatchStep(values: seq<Price>, err: Option<Error>, after: Prices)

  /** An entry may be returned while its age is strictly below `maxAge`. */
  predicate IsFresh(entry: CachedPrice, maxAge: Time, now: Time)
  {
    now - entry.lastAssigment < maxAge
  }

  /** A lookup for `itemCode` at `now` is answered from the cache. */
  predicate ServedFromCache(prices: Prices, maxAge: Time, now: Time, itemCode: ItemCode)
  {
    itemCode in prices && IsFresh(prices[itemCode], maxAge, now)
  }

  /**
   * One single-item lookup. A fresh entry is returned as it is; otherwise a
   * present (stale) entry is deleted and the service is asked: a failure
   * replies 0 with an error and writes nothing, a success stores the price
   * with the current instant and replies with it.
   */
  function Lookup(prices: Prices, maxAge: Time, service: PriceService, now: Time, itemCode: ItemCode): (s: Step)
    ensures s.err.Some? ==> s.value == 0.0
    ensures s.err.None? ==> itemCode in s.after && s.after[itemCode].value == s.value
    ensures s.after - {itemCode} == prices - {itemCode}
  {
    if ServedFromCache(prices, maxAge, now, itemCode) then
      Step(prices[itemCode].value, None, prices)
    else
      var kept := prices - {itemCode};
      match service(itemCode, now)
      case Unavailable => Step(0.0, Some(FetchError), kept)
      case Fetched(price) => Step(price, None, kept[itemCode := CachedPrice(price, now)])
  }

  /**
   * The batch lookup run sequentially in input order: the lookups of all but
   * the last code, then, unless one of them failed, the lookup of the last one.
   * The first failure discards every value collected so far.
   */
  function Batch(prices: Prices, maxAge: Time, service: PriceService, now: Time, itemCodes: seq<ItemCode>): (b: BatchStep)
    ensures b.err.Some? ==> b.values == []
    ensures b.err.None? ==> |b.values| == |itemCodes|
    decreases |itemCodes|
  {
    if itemCodes == [] then
      BatchStep([], None, prices)
    else
      var done := Batch(prices, maxAge, service, now, itemCodes[..|itemCodes| - 1]);
      if done.err.Some? then
        done
      else
        var s := Lookup(done.after, maxAge, service, now, itemCodes[|itemCodes| - 1]);
        if s.err.Some? then BatchStep([], s.err, s.after)
        else BatchStep(done.values + [s.value], None, s.after)
  }

  // ---------------------------------------------------------------------------
  // Single-item lookup: the freshness state machine
  // ---------------------------------------------------------------------------

  /** A fresh hit returns the stored value, leaves the cache as it was and does not depend on the service at all. */
  lemma FreshHit(prices: Prices, maxAge: Time, service: PriceService, other: PriceService, now: Time, itemCode: ItemCode)
    requires itemCode in prices && now - prices[itemCode].lastAssigment < maxAge
    ensures Lookup(prices, maxAge, service, now, itemCode) == Step(prices[itemCode].value, None, prices)
    ensures Lookup(prices, maxAge, other, now, itemCode) == Lookup(prices, maxAge, service, now, itemCode)
  {
  }

  /**
   * The service is consulted exactly on a miss: two services that disagree
   * about this item at this instant lead to different outcomes if and only if
   * the cache cannot serve the lookup.
   */
  lemma ServiceConsultedOnMiss(prices: Prices, maxAge: Time, service: PriceService, other: PriceService, now: Time, itemCode: ItemCode)
    requires service(itemCode, now) != other(itemCode, now)
    ensures Lookup(prices, maxAge, service, now, itemCode) != Lookup(prices, maxAge, other, now, itemCode)
        <==> !ServedFromCache(prices, maxAge, now, itemCode)
  {
  }

  /** A first lookup of an unseen key that the service answers stores the price with the current instant. */
  lemma MissThenFetch(prices: Prices, maxAge: Time, service: PriceService, now: Time, itemCode: ItemCode, price: Price)
    requires itemCode !in prices && service(itemCode, now) == Fetched(price)
    ensures Lookup(prices, maxAge, service, now, itemCode) == Step(price, None, prices[itemCode := CachedPrice(price, now)])
  {
  }

  /** A service failure on a miss replies 0 with an error and leaves the cache unchanged. */
  lemma MissThenFail(prices: Prices, maxAge: Time, service: PriceService, now: Time, itemCode: ItemCode)
    requires itemCode !in prices && service(itemCode, now) == Unavailable
    ensures Lookup(prices, maxAge, service, now, itemCode) == Step(0.0, Some(FetchError), prices)
  {
  }

  /** A stale entry that the service refreshes is overwritten with the new price and instant. */
  lemma StaleThenRefresh(prices: Prices, maxAge: Time, service: PriceService, now: Time, itemCode: ItemCode, price: Price)
    requires itemCode in prices && now - prices[itemCode].lastAssigment >= maxAge
    requires service(itemCode, now) == Fetched(price)
    ensures Lookup(prices, maxAge, service, now, itemCode) == Step(price, None, prices[itemCode := CachedPrice(price, now)])
  {
  }

  /** A stale entry whose refresh fails is gone afterwards: it was deleted and nothing was written. */
  lemma StaleThenFail(prices: Prices, maxAge: Time, service: PriceService, now: Time, itemCode: ItemCode)
    requires itemCode in prices && now - prices[itemCode].lastAssigment >= maxAge
    requires service(itemCode, now) == Unavailable
    ensures Lookup(prices, maxAge, service, now, itemCode) == Step(0.0, Some(FetchError), prices - {itemCode})
    ensures itemCode !in Lookup(prices, maxAge, service, now, itemCode).after
  {
  }

  /**
   * The freshness window: once a lookup has stored a price at `fetchedAt`, a
   * later lookup of the same key at `now` returns that price without the
   * service while `now < fetchedAt + maxAge`, and asks the service again from
   * `fetchedAt + maxAge` on.
   */
  lemma FreshnessWindow(prices: Prices, maxAge: Time, service: PriceService, later: PriceService, fetchedAt: Time, now: Time, itemCode: ItemCode)
    requires Lookup(prices, maxAge, service, fetchedAt, itemCode).err.None?
    requires !ServedFromCache(prices, maxAge, fetchedAt, itemCode)
    ensures var cache := Lookup(prices, maxAge, service, fetchedAt, itemCode).after;
      (now < fetchedAt + maxAge <==> ServedFromCache(cache, maxAge, now, itemCode)) &&
      (now < fetchedAt + maxAge ==>
        Lookup(cache, maxAge, later, now, itemCode) == Step(service(itemCode, fetchedAt).price, None, cache))
  {
  }

  /** Repeated reads of a fresh key return the same value and leave the cache as it was. */
  lemma RepeatedFreshReads(prices: Prices, maxAge: Time, service: PriceService, now: Time, again: Time, itemCode: ItemCode)
    requires ServedFromCache(prices, maxAge, again, itemCode)
    requires again >= now
    ensures ServedFromCache(prices, maxAge, now, itemCode)
    ensures var first := Lookup(prices, maxAge, service, now, itemCode);
      first.after == prices && Lookup(first.after, maxAge, service, again, itemCode) == first
  {
  }

  // ---------------------------------------------------------------------------
  // A zero freshness window disables caching
  // ---------------------------------------------------------------------------

  /** No entry was assigned after `now`: the clock never runs backwards. */
  ghost predicate AssignedBy(prices: Prices, now: Time)
  {
    forall k :: k in prices ==> prices[k].lastAssigment <= now
  }

  /** With a non-positive `maxAge` and a clock that never runs backwards, no lookup is served from the cache. */
  lemma ZeroMaxAgeNeverHits(prices: Prices, maxAge: Time, now: Time, itemCode: ItemCode)
    requires maxAge <= 0 && AssignedBy(prices, now)
    ensures !ServedFromCache(prices, maxAge, now, itemCode)
  {
  }

  /** A lookup at `now` keeps every entry assigned by `now`, and so by any later instant. */
  lemma LookupKeepsClock(prices: Prices, maxAge: Time, service: PriceService, now: Time, later: Time, itemCode: ItemCode)
    requires AssignedBy(prices, now) && now <= later
    ensures AssignedBy(Lookup(prices, maxAge, service, now, itemCode).after, later)
  {
  }

  /** The cache after a sequence of single-item lookups, each at its own instant. */
  function Replay(prices: Prices, maxAge: Time, service: PriceService, requests: seq<(ItemCode, Time)>): (after: Prices)
    decreases |requests|
  {
    if requests == [] then prices
    else
      var last := requests[|requests| - 1];
      Lookup(Replay(prices, maxAge, service, requests[..|requests| - 1]), maxAge, service, last.1, last.0).after
  }

  /**
   * Lookups at non-decreasing instants with a zero `maxAge`: every one of them
   * misses the cache, so every one asks the service.
   */
  lemma {:induction false} ZeroMaxAgeAlwaysFetches(prices: Prices, service: PriceService, requests: seq<(ItemCode, Time)>, i: nat)
    requires i < |requests|
    requires AssignedBy(prices, requests[0].1)
    requires forall j :: 0 < j < |requests| ==> requests[j - 1].1 <= requests[j].1
    ensures !ServedFromCache(Replay(prices, 0, service, requests[..i]), 0, requests[i].1, requests[i].0)
  {
    ReplayKeepsClock(prices, 0, service, requests, i);
  }

  /**
   * Over a run of lookups at non-decreasing instants, the cache before each
   * lookup holds no entry newer than that lookup's instant.
   */
  lemma {:induction false} ReplayKeepsClock(prices: Prices, maxAge: Time, service: PriceService, requests: seq<(ItemCode, Time)>, i: nat)
    requires i < |requests|
    requires AssignedBy(prices, requests[0].1)
    requires forall j :: 0 < j < |requests| ==> requests[j - 1].1 <= requests[j].1
    ensures AssignedBy(Replay(prices, maxAge, service, requests[..i]), requests[i].1)
  {
    if i == 0 {
      assert requests[..0] == [];
    } else {
      ReplayKeepsClock(prices, maxAge, service, requests, i - 1);
      assert requests[..i][..i - 1] == requests[..i - 1];
      LookupKeepsClock(Replay(prices, maxAge, service, requests[..i - 1]), maxAge, service, requests[i - 1].1, requests[i].1, requests[i - 1].0);
    }
  }

  // ---------------------------------------------------------------------------
  // Batch lookup
  // ---------------------------------------------------------------------------

  /** Once a prefix of the batch has failed, the rest of the codes change nothing: the first error wins. */
  lemma {:induction false} BatchFailureIsFinal(prices: Prices, maxAge: Time, service: PriceService, now: Time, itemCodes: seq<ItemCode>, j: nat)
    requires j <= |itemCodes|
    requires Batch(prices, maxAge, service, now, itemCodes[..j]).err.Some?
    ensures Batch(prices, maxAge, service, now, itemCodes) == Batch(prices, maxAge, service, now, itemCodes[..j])
    decreases |itemCodes| - j
  {
    if j < |itemCodes| {
      var n := |itemCodes|;
      assert itemCodes[..n - 1][..j] == itemCodes[..j];
      BatchFailureIsFinal(prices, maxAge, service, now, itemCodes[..n - 1], j);
    } else {
      assert itemCodes[..j] == itemCodes;
    }
  }

  /**
   * A successful batch holds, at position i, the reply of the i-th lookup:
   * the lookup of `itemCodes[i]` on the cache the earlier lookups left behind.
   */
  lemma {:induction false} BatchValueAt(prices: Prices, maxAge: Time, service: PriceService, now: Time, itemCodes: seq<ItemCode>, i: nat)
    requires i < |itemCodes|
    requires Batch(prices, maxAge, service, now, itemCodes).err.None?
    ensures var before := Batch(prices, maxAge, service, now, itemCodes[..i]);
      var s := Lookup(before.after, maxAge, service, now, itemCodes[i]);
      before.err.None? && s.err.None? &&
      Batch(prices, maxAge, service, now, itemCodes).values[i] == s.value
    decreases |itemCodes|
  {
    var n := |itemCodes|;
    var init := itemCodes[..n - 1];
    if i < n - 1 {
      BatchValueAt(prices, maxAge, service, now, init, i);
      assert init[..i] == itemCodes[..i];
    } else {
      assert init == itemCodes[..i];
    }
  }

  /**
   * Every entry of `cache` is either the entry `prices` held for that key or
   * the service's answer for that key at `now`, stored at `now`.
   */
  ghost predicate Genuine(prices: Prices, service: PriceService, now: Time, cache: Prices)
  {
    forall k :: k in cache ==>
      (k in prices && cache[k] == prices[k]) ||
      (service(k, now).Fetched? && cache[k] == CachedPrice(service(k, now).price, now))
  }

  /**
   * What a batch leaves in the cache: only genuine entries, every entry that
   * was fresh before the batch still there unchanged, and the entries of codes
   * the batch did not request exactly as they were.
   */
  lemma {:induction false} BatchKeepsGenuine(prices: Prices, maxAge: Time, service: PriceService, now: Time, itemCodes: seq<ItemCode>)
    ensures var after := Batch(prices, maxAge, service, now, itemCodes).after;
      Genuine(prices, service, now, after) &&
      (forall k :: ServedFromCache(prices, maxAge, now, k) ==> k in after && after[k] == prices[k]) &&
      (forall k :: k !in itemCodes ==> (k in after <==> k in prices) && (k in prices ==> after[k] == prices[k]))
    decreases |itemCodes|
  {
    if itemCodes != [] {
      BatchKeepsGenuine(prices, maxAge, service, now, itemCodes[..|itemCodes| - 1]);
    }
  }

  /**
   * The batch succeeds if and only if every requested code is fresh in the
   * cache or answered by the service; otherwise it fails with no values.
   */
  lemma BatchSucceedsIff(prices: Prices, maxAge: Time, service: PriceService, now: Time, itemCodes: seq<ItemCode>)
    ensures Batch(prices, maxAge, service, now, itemCodes).err.None? <==>
      forall i :: 0 <= i < |itemCodes| ==>
        ServedFromCache(prices, maxAge, now, itemCodes[i]) || service(itemCodes[i], now).Fetched?
  {
    if Batch(prices, maxAge, service, now, itemCodes).err.None? {
      forall i | 0 <= i < |itemCodes|
        ensures ServedFromCache(prices, maxAge, now, itemCodes[i]) || service(itemCodes[i], now).Fetched?
      {
        BatchValueAt(prices, maxAge, service, now, itemCodes, i);
        BatchKeepsGenuine(prices, maxAge, service, now, itemCodes[..i]);
      }
    } else {
      BatchFailureHasCause(prices, maxAge, service, now, itemCodes);
    }
  }

  /** A failed batch names a code that was not fresh and that the service could not price. */
  lemma {:induction false} BatchFailureHasCause(prices: Prices, maxAge: Time, service: PriceService, now: Time, itemCodes: seq<ItemCode>)
    requires Batch(prices, maxAge, service, now, itemCodes).err.Some?
    ensures exists i ::
      0 <= i < |itemCodes| && !ServedFromCache(prices, maxAge, now, itemCodes[i]) && service(itemCodes[i], now) == Unavailable
    decreases |itemCodes|
  {
    var n := |itemCodes|;
    var init := itemCodes[..n - 1];
    var done := Batch(prices, maxAge, service, now, init);
    if done.err.Some? {
      BatchFailureHasCause(prices, maxAge, service, now, init);
      var i :| 0 <= i < |init| && !ServedFromCache(prices, maxAge, now, init[i]) && service(init[i], now) == Unavailable;
      assert itemCodes[i] == init[i];
    } else {
      BatchKeepsGenuine(prices, maxAge, service, now, init);
      var k := itemCodes[n - 1];
      assert service(k, now) == Unavailable;
      assert !ServedFromCache(prices, maxAge, now, k);
    }
  }

  /**
   * Each value of a successful batch is a genuine price for the code at its
   * position: the cached value when that entry was fresh before the batch,
   * and otherwise what the service answers now.
   */
  lemma BatchValuesGenuine(prices: Prices, maxAge: Time, service: PriceService, now: Time, itemCodes: seq<ItemCode>)
    requires Batch(prices, maxAge, service, now, itemCodes).err.None?
    ensures var values := Batch(prices, maxAge, service, now, itemCodes).values;
      forall i :: 0 <= i < |itemCodes| ==>
        if ServedFromCache(prices, maxAge, now, itemCodes[i]) then values[i] == prices[itemCodes[i]].value
        else service(itemCodes[i], now) == Fetched(values[i])
  {
    var values := Batch(prices, maxAge, service, now, itemCodes).values;
    forall i | 0 <= i < |itemCodes|
      ensures if ServedFromCache(prices, maxAge, now, itemCodes[i]) then values[i] == prices[itemCodes[i]].value
        else service(itemCodes[i], now) == Fetched(values[i])
    {
      BatchValueAt(prices, maxAge, service, now, itemCodes, i);
      BatchKeepsGenuine(prices, maxAge, service, now, itemCodes[..i]);
    }
  }

  /**
   * A successful batch leaves every requested code cached: the entry it held
   * when that entry was fresh before the batch, and otherwise the service's
   * price stored at `now`.
   */
  lemma {:induction false} BatchStoresRequested(prices: Prices, maxAge: Time, service: PriceService, now: Time, itemCodes: seq<ItemCode>)
    requires Batch(prices, maxAge, service, now, itemCodes).err.None?
    ensures var after := Batch(prices, maxAge, service, now, itemCodes).after;
      forall k :: k in itemCodes ==>
        k in after &&
        (if ServedFromCache(prices, maxAge, now, k) then after[k] == prices[k]
         else service(k, now).Fetched? && after[k] == CachedPrice(service(k, now).price, now))
    decreases |itemCodes|
  {
    if itemCodes != [] {
      var n := |itemCodes|;
      var init, last := itemCodes[..n - 1], itemCodes[n - 1];
      BatchStoresRequested(prices, maxAge, service, now, init);
      BatchKeepsGenuine(prices, maxAge, service, now, init);
      forall k | k in itemCodes
        ensures k !in init ==> k == last
      {
        var j :| 0 <= j < n && itemCodes[j] == k;
        if j < n - 1 { assert init[j] == k; }
      }
    }
  }

  // ---------------------------------------------------------------------------
  // The cache object
  // ---------------------------------------------------------------------------

  class TransparentCache {
    const actualPriceService: PriceService
    const maxAge: Time
    var prices: Prices

    constructor (actualPriceService: PriceService, maxAge: Time)
      ensures this.actualPriceService == actualPriceService && this.maxAge == maxAge
      ensures prices == map[]
    {
      this.actualPriceService := actualPriceService;
      this.maxAge := maxAge;
      prices := map[];
    }

    /** Gets the price for one item, from the cache while fresh, otherwise from the service. */
    method GetPriceFor(itemCode: ItemCode, now: Time) returns (price: Price, err: Option<Error>)
      modifies this
      ensures Lookup(old(prices), maxAge, actualPriceService, now, itemCode) == Step(price, err, prices)
    {
      if itemCode in prices {
        var cachePrice := prices[itemCode];
        if now - cachePrice.lastAssigment < maxAge {
          return cachePrice.value, None;
        }
        prices := prices - {itemCode};
      }
      match actualPriceService(itemCode, now)
      case Unavailable =>
        return 0.0, Some(FetchError);
      case Fetched(p) =>
        prices := prices[itemCode := CachedPrice(p, now)];
        return p, None;
    }

    /** Gets the prices for several items, in input order; the first error discards every value. */
    method GetPricesFor(itemCodes: seq<ItemCode>, now: Time) returns (results: seq<Price>, err: Option<Error>)
      modifies this
      ensures Batch(old(prices), maxAge, actualPriceService, now, itemCodes) == BatchStep(results, err, prices)
    {
      results := [];
      var i := 0;
      while i < |itemCodes|
        invariant 0 <= i <= |itemCodes|
        invariant Batch(old(prices), maxAge, actualPriceService, now, itemCodes[..i]) == BatchStep(results, None, prices)
      {
        var price, e := GetPriceFor(itemCodes[i], now);
        assert itemCodes[..i + 1][..i] == itemCodes[..i];
        if e.Some? {
          BatchFailureIsFinal(old(prices), maxAge, actualPriceService, now, itemCodes, i + 1);
          return [], e;
        }
        results := results + [price];
        i := i + 1;
      }
      assert itemCodes[..i] == itemCodes;
      err := None;
    }
  }
}

# TransparentCache — a verified model

This project models `TransparentCache`, a memoising decorator over a slow, fallible
`PriceService`. The cache maps each item code to the last price the service gave and
the instant that price was assigned. A single-item lookup goes through these steps:

- a fresh entry (`now - lastAssigment < maxAge`) is returned as it is;
- a stale entry is deleted, then the service is asked;
- a missing entry goes straight to the service;
- a successful answer is stored as `(price, now)` and returned;
- a failure returns `0` and an error, and writes nothing.

The batch lookup runs one lookup per requested code. The first error discards every
value collected so far.

Everything is in `cache.dfy`, module `PriceCache`:

- `Lookup` and `Batch` are the specification functions: the reply and the cache afterwards.
- The class `TransparentCache` keeps the service and `maxAge` as `const` fields. This means
  neither can change after construction. The `prices` map is a `var` field that the
  methods update in place.
- `GetPriceFor` follows the source's branches: check, delete the stale entry, fetch, store.
  It is proved equal to `Lookup`.
- `GetPricesFor` is a loop that appends to `results` and returns on the first error.
  It is proved equal to `Batch`.

The wall clock is an integer `now` argument. The service is an oracle of type
`(ItemCode, Time) -> Fetch`: what the service answers for an item at an instant.

The code deletes a stale entry before refetching (cache.go:50), so a stale entry whose
refresh fails is gone afterwards (`StaleThenFail`).

## Model

| member | source | states |
|---|---|---|
| `PriceCache.TransparentCache.constructor` | cache.go:31-38 | the cache starts with an empty `prices` map and stores the service and `maxAge` unchanged; both are `const`, so no later call can change them |
| `PriceCache.TransparentCache.GetPriceFor` | cache.go:42-63 | the reply and the new `prices` map are exactly those of `Lookup` on the old map |
| `PriceCache.TransparentCache.GetPricesFor` | cache.go:67-90 | the loop's results, error and new map are exactly those of `Batch` on the old map; the loop invariant is that the processed prefix equals `Batch` of that prefix |
| `PriceCache.Lookup` | cache.go:42-63 | an error reply carries value 0; a successful reply leaves its value stored under the key; no entry other than the key's is added, removed or changed |
| `PriceCache.Batch` | cache.go:67-90 | all-or-nothing: on error the value list is empty; on success there is exactly one value per requested code |
| `PriceCache.FreshHit` | cache.go:43-48 | a fresh entry is returned as stored, the map is unchanged, and the outcome is the same whatever the service would answer (the service is not called) |
| `PriceCache.ServiceConsultedOnMiss` | cache.go:46-52 | two services that disagree about the item give different outcomes if and only if the cache cannot serve the lookup: the service is consulted exactly on a miss or a stale entry |
| `PriceCache.MissThenFetch` | cache.go:52-62 | an absent key that the service prices yields that price, and afterwards the map is the old one plus `key -> (price, now)` |
| `PriceCache.MissThenFail` | cache.go:52-55 | an absent key that the service cannot price yields 0 with an error, and the map is unchanged |
| `PriceCache.StaleThenRefresh` | cache.go:46-62 | a stale entry that the service prices is overwritten with the new price and the current instant |
| `PriceCache.StaleThenFail` | cache.go:46-55 | a stale entry whose refresh fails yields 0 with an error, and the key is absent afterwards: the entry was deleted and nothing was written |
| `PriceCache.FreshnessWindow` | cache.go:47-60 | after a price is fetched at `t`, a lookup at `now` is served from the cache if and only if `now < t + maxAge`, and then it returns the fetched price without the service |
| `PriceCache.RepeatedFreshReads` | cache.go:44-48 | repeated reads of a key that is still fresh at the later instant return the same value and leave the map unchanged |
| `PriceCache.ZeroMaxAgeNeverHits` | cache.go:47 | with `maxAge <= 0` and no entry assigned after `now`, no lookup is served from the cache |
| `PriceCache.LookupKeepsClock` | cache.go:57-60 | a lookup at `now` assigns no entry later than `now`, so with a clock that does not go backwards no entry is ever from the future |
| `PriceCache.ReplayKeepsClock` | cache.go:57-60 | for any `maxAge`, over a run of lookups at non-decreasing instants, the cache before each lookup holds no entry newer than that lookup's instant |
| `PriceCache.ZeroMaxAgeAlwaysFetches` | cache.go:46-52 | with `maxAge == 0` and non-decreasing instants, every lookup in a run misses the cache, so every one asks the service |
| `PriceCache.BatchFailureIsFinal` | cache.go:85-86 | once a prefix of the batch has failed, the remaining codes change nothing: the first error is the batch's result |
| `PriceCache.BatchValueAt` | cache.go:70-84 | in a successful batch, value `i` is the successful reply of the lookup of code `i` on the cache the earlier lookups left |
| `PriceCache.BatchKeepsGenuine` | cache.go:67-89 | after a batch, every entry is the old one or the service's current answer stored at `now`, every entry that was fresh before is still there unchanged, and entries of codes the batch did not request are exactly as before |
| `PriceCache.BatchSucceedsIff` | cache.go:81-89 | the batch succeeds if and only if every requested code is fresh in the cache or priced by the service |
| `PriceCache.BatchFailureHasCause` | cache.go:71-86 | a failed batch has a requested code that was not fresh and that the service could not price |
| `PriceCache.BatchValuesGenuine` | cache.go:72-84 | each value of a successful batch is, for the code at its position, the cached value if that entry was fresh before the batch, and otherwise the price the service reports now |
| `PriceCache.BatchStoresRequested` | cache.go:72 | after a successful batch every requested code is cached: the entry it held if that entry was fresh before the batch, and otherwise the service's price stored with the current instant (the store at cache.go:57-60) |

## Left out

- Locking with `sync.Mutex` (cache.go:28, 43-45, 56-61) is not modelled. It only guards concurrent access, and the model is sequential. The same applies to the unlocked `delete` at cache.go:50, which races with other lookups.
- Goroutines and channels in `GetPricesFor` (cache.go:69-88) are not modelled.
- `PriceCache.TransparentCache.GetPricesFor`: the model runs the lookups one after another, in input order. The source returns values in completion order, so the model shows only one of the possible orders. It also does not show lookups that keep running, and may still write to the cache, after the batch has returned an error.
- `PriceCache.TransparentCache.GetPricesFor`: the whole batch uses one instant `now` and one service oracle. In the source, each lookup reads the clock itself.
- `PriceCache.TransparentCache.GetPriceFor`: one `now` stands for both clock readings: `time.Since` at cache.go:47 and `time.Now` at cache.go:59.
- `time.Now` and `time.Since` are replaced by the integer argument `now`. The 64-bit range of `time.Duration` is not modelled, so `now - lastAssigment` never overflows in the model.
- The `PriceService` interface (cache.go:11-13): its implementations are a foreign, slow dependency. The model replaces them with the oracle `PriceService`.
- The error text built by `fmt.Errorf` (cache.go:54) is not modelled. Every failure is the single error `FetchError`.
- `float64` prices are the opaque `real` values of `Price`. The source only stores and passes them through.
- The source does not check that `maxAge` is non-negative. The model takes any integer `maxAge`, and a non-positive one never serves from the cache as long as no entry is newer than `now` (`ZeroMaxAgeNeverHits`).

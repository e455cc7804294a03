# connected — a verified model of the cast mirror, its read route and the feed page

The repository is a small "Hacker News for a Farcaster channel". It has three parts:

- **The worker** (`workers/castWorker.ts`) is a Cloudflare Worker over a key-value namespace. On any request other than `GET`, it asks a sliding-window rate limiter for permission. If admitted, it fetches the channel feed from the Neynar API. Then, for every cast in the feed, it inserts, updates or skips the record stored under the cast's hash, re-reads the record, and reports three counters. A `null` entry in the feed stops the loop: the writes made so far stay and the request answers 500. A `GET` lists the namespace's keys, or returns the raw value stored under one key.
- **The read route** (`src/app/api/casts/route.ts`) is a `GET` endpoint. It asks the worker for its key listing, then fetches every key except the limiter's `api_calls`, and returns the casts it could fetch.
- **The feed page** (`src/app/page.tsx`) is the client component. It holds the list of casts, ranks it by votes and then by recency, and applies an up- or down-vote locally once the server accepts it.

The model is written in Dafny, one module per concern:

| file | module | what it holds |
|---|---|---|
| `common.dfy` | `Common` | `Option`/`Result`, HTTP ok-ness, decimal rendering, the substring test behind `includes` |
| `json.dfy` | `JsonValues` | JSON values (numbers as integers) |
| `cast_store.dfy` | `CastStore` | the values kept in the namespace, and the insert and merge policy for one cast |
| `rate_limit.dfy` | `RateLimit` | one call of `checkRateLimit`, as a function of the namespace, the clock and the namespace faults |
| `rate_limit_trace.dfy` | `RateLimitTrace` | runs of many limiter calls, and the sliding-window theorem |
| `key_order.dfy` | `KeyOrder` | the order in which the namespace lists keys, and its first page |
| `cast_worker.dfy` | `CastWorker` | class `Worker` holding the namespace (`store`): rate-limit check, sync loop, key listing, request dispatch, each proved against a specification function |
| `sync_properties.dfy` | `SyncProperties` | what one sync pass does to the namespace and the counters |
| `dispatch_properties.dfy` | `DispatchProperties` | which response each request gets |
| `casts_route.dfy` | `CastsRoute` | the key walk of the read route, and its error paths |
| `feed_page.dfy` | `FeedPage` | the comparator, the in-place sort on an array, the vote map, and class `Page` |

The world outside the code enters as parameters:

- The clock readings: whole seconds for the limiter, and one millisecond reading per processed cast for `lastUpdated`.
- Which namespace operations throw: limiter get/put, and per cast the lookup, the write and the re-read.
- The upstream reply: it throws, or answers with a status and a body that either throws or carries the feed.
- The route's fetches: a function from a listed key to its outcome.

The namespace (`store: map<string, Value>`) is a field that the worker's methods reassign. The page's list is a field of class `Page`. The sort works in place on an `array`.

Two behaviours one might expect of such a mirror do not hold in the code; the model follows the code:

- **The merge comparison includes `lastUpdated`.** An idempotent re-sync would compare the candidate with the stored record while ignoring `lastUpdated`, and skip unchanged casts. `castWorker.ts:144` instead compares the whole candidate, and the candidate always carries a fresh `new Date()`. So a record is rewritten and counted as updated on every sync, unless the clock reading equals the stored one to the millisecond. `CastStore.MergedUnchangedIff` and `SyncProperties.ResyncRewritesEveryRecord` state what the code does.
- **The ranking happens on the page, not in the route.** The tie-break is the cast's `timestamp`, not `lastUpdated`. The route returns casts in listing order (`CastsRoute.CollectedMeaning`), and the page ranks them (`FeedPage.SortCasts`).

## Model

| member | source | states |
|---|---|---|
| CastStore.NewRecord | workers/castWorker.ts:126-134 | a first sighting is written with the cast's hash, every upstream field except hash, votes and lastUpdated, 0 votes and the current clock reading |
| CastStore.Merged | workers/castWorker.ts:137-143 | the candidate keeps every stored field, takes each upstream field over it (the owned fields excepted), restores the stored votes and takes the current clock reading |
| CastStore.LookupCast | workers/castWorker.ts:125-126 | a missing key reads as absent, a stored record as that record, and any other stored value as a read that throws |
| CastStore.MergedUnchangedIff | workers/castWorker.ts:137-148 | the merged candidate equals the stored record exactly when the stored lastUpdated is the current reading, the hash agrees and every upstream field already holds the upstream value |
| CastStore.StaleRecordAlwaysDiffers | workers/castWorker.ts:138-144 | with a different clock reading the candidate always differs from the stored record, and keeps its votes |
| CastStore.MergeIdempotent | workers/castWorker.ts:138-143 | merging the same cast twice at the same instant gives the same record as merging once |
| RateLimit.ReadWindow | workers/castWorker.ts:28-29 | computes the stored window: a missing key or the empty string reads as no calls, a timestamp array as itself, anything else as a parse that throws (None) |
| RateLimit.Prune | workers/castWorker.ts:31-32 | every occurrence of a timestamp later than the window start is kept (repeats from the same second included), none earlier or equal, and the result is no longer than the input |
| RateLimit.PruneKeepsExactly | workers/castWorker.ts:31-32 | a timestamp is in the pruned window exactly when it was in the window and is later than the window start |
| RateLimit.Limit | workers/castWorker.ts:22-47 | a refusal leaves the namespace unchanged; a call is admitted iff neither namespace operation throws, the stored window parses and fewer than 5 of its timestamps are within the last 60 seconds |
| RateLimit.AdmissionStoresPrunedWindow | workers/castWorker.ts:29-42 | an admission writes the pruned window plus now, which holds 1 to 5 timestamps, all within the window, and touches no other key |
| RateLimit.BoundaryTimestampDropped | workers/castWorker.ts:24-32 | a call exactly 60 seconds old no longer counts |
| RateLimit.PruneAppend | workers/castWorker.ts:32 | the filter distributes over concatenation |
| RateLimit.PruneIdempotent | workers/castWorker.ts:32 | filtering a filtered window changes nothing |
| RateLimitTrace.AtMostLimitPerWindow | workers/castWorker.ts:15-47 | from a namespace without a window, any run of limiter calls with a clock that never goes back admits at most 5 calls in any 60-second span, whatever operations fail |
| RateLimitTrace.FullWindowRefuses | workers/castWorker.ts:32-36 | a window holding 5 calls that are all inside the last 60 seconds refuses, and the namespace stays as it was |
| RateLimitTrace.ExpiredWindowReadmits | workers/castWorker.ts:28-42 | once every stored call is at least 60 seconds old, a fault-free call is admitted and the window restarts with that call alone |
| KeyOrder.SortedKeysSound | workers/castWorker.ts:57-60 | the listing order holds each key exactly once, in strictly increasing lexicographic order |
| KeyOrder.ListingIsFirstPage | workers/castWorker.ts:57-60 | the listing is at most 1000 keys, all stored, sorted, and no unlisted key sorts before a listed one |
| KeyOrder.Smallest | workers/castWorker.ts:57-60 | returns the lexicographically least key of a non-empty set |
| CastWorker.Verified | workers/castWorker.ts:151-154 | computes the re-read check: the cast counts as verified when the second lookup neither throws nor comes back empty |
| CastWorker.Tally | workers/castWorker.ts:135-154 | computes the counters after one cast: one more new on an insert, one more updated on an update, one more verified on a successful re-read, nothing when the cast threw |
| CastWorker.ProcessItem | workers/castWorker.ts:123-163 | computes one pass of the loop body: lookup, then insert, update when the candidate differs, or skip, then the re-read; a lookup or write that throws leaves the namespace as it was and counts nothing, a re-read that throws only withholds the verified count |
| CastWorker.LeadingCasts | workers/castWorker.ts:122-124 | the casts the loop reaches: the feed's entries up to the first null one, each unchanged and in order, and a null entry right after them when any entry is left |
| CastWorker.Synced | workers/castWorker.ts:117-164 | computes the namespace and the three counters after the first n casts, from zero counters, one item at a time in batch order |
| CastWorker.PathKey | workers/castWorker.ts:53 | computes the key a GET asks for: the pathname without its leading slash |
| CastWorker.UpstreamFailureMessage | workers/castWorker.ts:112 | computes the message thrown for a non-ok upstream status other than 401 |
| CastWorker.CaughtResponse | workers/castWorker.ts:178-197 | computes the catch block's response: details are the Error's message or "An unknown error occurred", status 502 when that message includes "API request failed", else 500 |
| CastWorker.Handled | workers/castWorker.ts:49-198 | computes the response and the namespace after one request: GET reads, any other method goes through the limiter, the feed fetch, the sync up to the first null feed entry and the catch |
| CastWorker.Worker.CheckRateLimit | workers/castWorker.ts:22-47 | the decision and the new namespace are those of the limiter specification at the clock's whole second |
| CastWorker.Worker.SyncCasts | workers/castWorker.ts:115-164 | after the loop, the namespace and the three counters are those of the per-cast insert/update/skip/verify specification over the casts before the first null feed entry, an exception inside the try confined to its own cast; a null entry ends the loop with the catch block's error, keeping the writes made before it |
| CastWorker.Worker.ListKeys | workers/castWorker.ts:55-64 | the keys returned are the namespace's first listing page |
| CastWorker.Worker.HandleRequest | workers/castWorker.ts:49-198 | the response and the new namespace are those of the dispatch specification: GET reads, anything else goes through the limiter, the feed fetch, the sync (ended early by a null feed entry) and the catch |
| SyncProperties.CountsBounded | workers/castWorker.ts:117-164 | new plus updated is at most the number of casts processed, and so is verified |
| SyncProperties.ItemTouchesOnlyItsHash | workers/castWorker.ts:125-148 | processing one cast changes no key but its hash |
| SyncProperties.UntouchedBetween | workers/castWorker.ts:122-164 | casts with other hashes leave a key's value as it was |
| SyncProperties.OtherKeysUntouched | workers/castWorker.ts:122-164 | a key that is not the hash of any cast in the batch keeps its value |
| SyncProperties.KeysKept | workers/castWorker.ts:122-164 | a sync never removes a key |
| SyncProperties.VotesPreserved | workers/castWorker.ts:138-146 | a stored record keeps its vote count through a whole sync pass |
| SyncProperties.NewKeysStartAtZero | workers/castWorker.ts:126-134 | a key that a pass creates holds a record with zero votes |
| SyncProperties.InsertThenRead | workers/castWorker.ts:126-134 | a new hash, unique in the batch and with a fault-free lookup and write, is then stored with its upstream fields, zero votes and its own clock reading |
| SyncProperties.ReadableStaysReadable | workers/castWorker.ts:125-148 | a key that holds a record or nothing never becomes unreadable by a sync |
| SyncProperties.AllVerifiedWithoutFaults | workers/castWorker.ts:151-155 | if no operation throws and every hash is readable, every cast is counted as verified |
| SyncProperties.SyncedPrefixOnly | workers/castWorker.ts:122-164 | the state after n casts depends only on the first n casts and their environments |
| SyncProperties.FailedItemIsIsolated | workers/castWorker.ts:160-163 | a cast whose lookup throws leaves the pass as if that cast were not in the batch |
| SyncProperties.ResyncRewritesEveryRecord | workers/castWorker.ts:137-148 | re-syncing distinct stored casts at new clock readings counts every one as updated and none as new |
| SyncProperties.ItemWritePolicy | workers/castWorker.ts:125-148 | with a fault-free lookup and write, an unseen hash is inserted with zero votes, and a stored record is rewritten with its votes exactly when the candidate differs from it, else skipped |
| DispatchProperties.GetIsReadOnly | workers/castWorker.ts:52-78 | a GET never writes; the empty path lists the keys, a stored key returns its value, a missing key 404 |
| DispatchProperties.RefusalComesFirst | workers/castWorker.ts:81-91 | any other method answers 429 exactly when the limiter refuses, and then writes nothing and does not depend on the feed |
| DispatchProperties.UpstreamFailureIsRecognised | workers/castWorker.ts:112-187 | the message thrown for a failed upstream status contains the phrase the catch looks for |
| DispatchProperties.UpstreamStatusTable | workers/castWorker.ts:94-197 | once admitted: upstream 401 gives 401, another non-ok status 502, an exception the caught status, a feed with a null entry 500 with the namespace of the pass over the casts before it, and otherwise 200 with the counts and namespace of the sync pass; only the pass writes casts |
| DispatchProperties.NullEntryEndsBatch | workers/castWorker.ts:122-124 | the casts listed after a null feed entry are never processed |
| DispatchProperties.NullEntryReply | workers/castWorker.ts:178-197 | the TypeError of a null entry answers 500 with its own message, since that message does not contain the failed-request phrase |
| Common.ExcludesWithoutFirstChar | workers/castWorker.ts:186 | a string that never contains the first character of a phrase does not include the phrase |
| DispatchProperties.NullEntryMessageLacksA | workers/castWorker.ts:124 | the null-entry TypeError's message contains no 'A', the first letter of the failed-request phrase |
| DispatchProperties.NullEntryAborts | workers/castWorker.ts:122-197 | a feed with a null entry answers 500 with the TypeError's message, keeps the writes of the casts before it and ignores the ones after it |
| DispatchProperties.CaughtStatus | workers/castWorker.ts:178-197 | the catch answers 502 exactly for an Error whose message includes the failed-request phrase, 500 otherwise |
| DispatchProperties.StatusCodes | workers/castWorker.ts:49-198 | every response carries one of 200, 401, 404, 429, 500, 502 |
| CastsRoute.StoredKeysOf | src/app/api/casts/route.ts:47-48 | computes the listed keys when the body is an object whose storedKeys is an array, and nothing otherwise |
| CastsRoute.Collected | src/app/api/casts/route.ts:49-62 | computes the walk over the first n keys: api_calls and non-ok fetches are skipped, an ok parsed body is appended, a throw or an unparseable ok body ends in that error |
| CastsRoute.YieldedCasts | src/app/api/casts/route.ts:52-62 | computes, independently of the loop, the parsed bodies of the keys that are not api_calls and fetch ok, in key order |
| CastsRoute.CollectedMeaning | src/app/api/casts/route.ts:49-72 | the walk fails exactly when a walked key's fetch throws or its ok body does not parse; otherwise it returns, in listing order, the casts of the non-reserved keys whose fetch is ok |
| CastsRoute.ReservedKeyNeverReturned | src/app/api/casts/route.ts:52-53 | the api_calls key contributes no cast at whatever position it is listed, whatever its fetch would answer |
| CastsRoute.AllFetchedCount | src/app/api/casts/route.ts:52-62 | when every other key fetches fine, one cast comes back per key that is not api_calls |
| CastsRoute.ErrorPersists | src/app/api/casts/route.ts:52-72 | once a key has failed the walk, later keys do not change the outcome |
| CastsRoute.YieldedCastsAppend | src/app/api/casts/route.ts:52-62 | the casts of two key lists concatenated are the concatenation of their casts |
| CastsRoute.CollectCasts | src/app/api/casts/route.ts:49-62 | the loop returns the walk specification over all keys, leaving at the first failure |
| CastsRoute.Get | src/app/api/casts/route.ts:32-74 | 200 with {casts} exactly when the listing is ok, well-shaped and no key fails, the casts being the listing-ordered casts of the non-reserved ok keys; 500 with an error object otherwise |
| FeedPage.Compare | src/app/page.tsx:39-44 | computes the comparator: the vote difference b - a when the votes differ, else the timestamp difference b - a |
| FeedPage.CompareConsistent | src/app/page.tsx:39-44 | the comparator is antisymmetric, its order total and transitive, and it ranks by more votes first, then the newer timestamp |
| FeedPage.RankedHeadIsTop | src/app/page.tsx:38-45 | in a ranked list the first cast has the most votes and, among those, the newest timestamp |
| FeedPage.SortCasts | src/app/page.tsx:38-45 | the array is afterwards ranked by the comparator and is a permutation of its old contents |
| FeedPage.Voted | src/app/page.tsx:58-60 | same length; every cast with the voted hash moves by one vote in the action's direction, every other cast is kept |
| FeedPage.VoteThenOpposite | src/app/page.tsx:58-60 | an upvote followed by a downvote on the same hash (or the reverse) restores the list |
| FeedPage.VoteShiftsTotal | src/app/page.tsx:58-60 | the total of votes moves by one per cast carrying the hash |
| FeedPage.Page.FetchCasts | src/app/page.tsx:24-36 | a body with a casts array replaces the list by a ranked permutation of it; a throw or another shape keeps the list |
| FeedPage.Page.HandleVote | src/app/page.tsx:47-68 | an ok answer replaces the list by a ranked permutation of the voted list; a non-ok answer or an exception keeps it |

## Left out

- The network, the Cloudflare runtime and `console` logging: fetches and namespace operations are outcomes passed in as parameters.
- Concurrency between requests: two overlapping limiter calls or syncs can interleave their reads and writes, and the model runs each request alone. The same holds for the page's `handleVote` reading a stale `casts` closure.
- Floating point: timestamps, votes and the comparator's subtraction are integers. An ISO date that does not parse (NaN in the comparator) is not modelled.
- JSON text: records are compared as maps, not as `JSON.stringify` output. A difference only in key order inside a nested upstream object is therefore not seen as a change.
- Dates: each ISO `lastUpdated` string is its millisecond clock reading.
- CastWorker.Worker.HandleRequest: a namespace read that throws on a `GET` is not caught by the worker (the runtime turns it into an error page), and is not modelled.
- CastStore.LookupCast: a stored value that is not a record is treated as a lookup that throws. The source differs for values that parse: one that parses to `null`, `0` or `false` takes the insert branch and is overwritten by a new record with 0 votes, and a truthy non-object (`42`, `"x"`) takes the merge branch and is overwritten too. Only text that does not parse as JSON makes the source's lookup throw. The worker itself never writes such values under a cast's hash; the one it does write, the call window, lands there only if a cast's hash is `api_calls`.
- Key listing beyond the first 1000 keys: `list()` without a cursor returns only the first page, which is what the model returns.
- URL percent-decoding and the text form of listed keys: the route's fetch function is given the listed JSON key itself.
- The route's errors that are not `Error` objects: their `message` is undefined there; the model carries a message string.
- The feed of a 2xx upstream reply without a `casts` array: the for-of throws a TypeError, which the model represents as a body that throws an Error.
- Feed entries that are neither an object with a `hash` nor `null` (a number, a string, an object without `hash`): the model has a cast record or a null entry, and nothing else.
- The page's `ClientCast` elements are assumed well-typed, as the TypeScript cast asserts without a runtime check.
- FeedPage.SortCasts: it states ranked-and-permuted, not the stability of `Array.prototype.sort`, so casts that tie on votes and timestamp may come out in either order.
- Rendering of the page (JSX), the `coming-soon` page, the debug route and `functions/fetchCasts.ts` are not part of this model.

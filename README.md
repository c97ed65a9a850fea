# Rail-stop adjacency for the MBTA API wrapper — a Dafny model

This project models the core of a small service. The service answers
questions about the MBTA rail network by combining several queries to the
upstream transit API. The core has two parts.

- **The adjacency pipeline** (`src/data.ts`). Given a target stop, it finds
  the stops immediately before and after it on every line through its
  station. It asks for the route patterns of the stop's parent station. It
  keeps the "canonical" ones, de-duplicates them by route name, and expands
  each one's representative trip into an ordered list of stops. It then
  locates the target's station in that list and emits the previous and next
  stop.
- **The stop caches** (`src/data.ts` and `src/mbta-api.ts`). Each file keeps
  a module-level list of all rail stops so that the upstream is asked only
  once. The two files use different "not cached" tests. `data.ts` treats a
  list of length 0 as not cached. `mbta-api.ts` treats only `null` as not
  cached.

Every upstream request is a parameter of the model: a value or a function
that gives the answer the API would return, an `Ok` list of records or an
`Err`. The caches carry a ghost `fetchCount` of the requests they send.

Files:
- `types.dfy` (`Types`): `Stop`, `Attributes`, `RoutePattern`,
  `AdjacentStopsOnLine`, plus `Option`, `Result` and the error kinds.
- `records.dfy` (`Records`): upstream records and their conversion to `Stop`.
- `data.dfy` (`Data`): the pipeline and the `data.ts` cache.
- `mbta_api.dfy` (`MbtaApi`): the `mbta-api.ts` cache.

Two behaviours of the code are easy to misread:
- **Which pattern de-duplication keeps.** The code builds a JavaScript `Map`
  keyed by route name (src/data.ts:75-77). A repeated key keeps its first
  insertion position but takes the LAST value. So the model keeps the last
  pattern per name, at the position where the name first occurred.
- **When the cache refetches.** `data.ts` refetches whenever the cache has
  length 0 (src/data.ts:42), so a fetch that returned an empty list is
  repeated on the next call. `mbta-api.ts` refetches only while the cache is
  `null` (src/mbta-api.ts:23), so an empty list counts as cached.

## Model

| member | source | states |
|---|---|---|
| `Records.RecordsToStops` | src/mbta-api.ts:39-43 | Records map one to one and in order. Each stop keeps `id` and the attribute object verbatim, takes `parentStation` from the relationship, and has no optional fields. One record without a parent-station relationship fails the whole list with `MalformedUpstreamData`. The same mapping is done by `fetchStopsByIds` in src/data.ts:119-123. |
| `Data.Includes` | src/data.ts:108 | `includes` is true exactly when the marker occurs at some offset of the trip id. |
| `Data.CanonicalRoutePatterns` | src/data.ts:106-112 | The output is no longer than the input, and every kept pattern's trip id contains "canonical". |
| `Data.CanonicalRoutePatternsAppend` | src/data.ts:106-112 | The filter distributes over concatenation, so kept patterns stay in input order. |
| `Data.CanonicalRoutePatternsSingle` | src/data.ts:108-112 | A single record is kept exactly when its trip id contains the marker. It becomes (trip id, route id). |
| `Data.CanonicalRoutePatternsMembers` | src/data.ts:106-112 | A pattern is in the output exactly when it is the projection of some canonical input record. |
| `Data.FetchCanonicalRoutePatterns` | src/data.ts:102-114 | Patterns are requested for the stop's parent station, never its own id. A failed request is passed on. Otherwise the result is the canonical filter of the answer. |
| `Data.FindRouteName` | src/data.ts:75-77 | The key lookup of the `Map`: the first entry with the name, or -1 exactly when no entry has it. |
| `Data.FindLastRouteName` | src/data.ts:75-77 | The last input pattern with a name, or -1 exactly when none has it. This is the value a `Map` keeps after repeated `set`s. |
| `Data.MapSet` | src/data.ts:76 | `Map.set` on the values in insertion order. A new name grows the list by one, a known name keeps its length. Afterwards the first entry with the pattern's name is the pattern itself, and every entry with another name stays where it was. |
| `Data.UniqueRoutePatterns` | src/data.ts:75-77 | The de-duplicated list is never longer than the input and is empty exactly when the input is. |
| `Data.UniqueRoutePatternsCorrect` | src/data.ts:75-77 | De-duplicated patterns have pairwise distinct names and exactly the input's names. Each kept pattern is the last input pattern with its name. They are ordered by each name's first occurrence. |
| `Data.FindStation` | src/data.ts:138 | `findIndex` on `parent_station`: the first index whose parent station equals the target's, or -1 exactly when none does. |
| `Data.MbtaStopToSimpleStop` | src/data.ts:153-165 | Keeps `id`, `parentStation` and the five declared attributes. Drops all other attribute keys, `all_lines` and `neighbors`. |
| `Data.MbtaStopToSimpleStopFixesSimple` | src/data.ts:153-165 | A stop that already has only the declared fields is returned unchanged. |
| `Data.AdjacentStops` | src/data.ts:138-149 | No match gives no neighbours, and so does a one-stop trip. An interior match gives exactly [previous, next]. The first stop gives only the next one, and the last stop gives only the previous one. |
| `Data.AdjacentStopsUseStationOnly` | src/data.ts:138 | Two targets at the same parent station get the same neighbours: the raw id is never compared. |
| `Data.AdjacentStopsFirstMatch` | src/data.ts:138-149 | When the station first occurs after `before`, the neighbours are the last stop of `before` and the first stop after the match, as simple stops. Later stops at the same station do not matter. |
| `Data.GetAdjacentStops` | src/data.ts:137-150 | The conditional pushes compute exactly `AdjacentStops`: at most two neighbours, all simple stops. |
| `Data.ExpandTrip` | src/data.ts:82-83 | The trip's stop ids are requested, then all those stops in one batch. The first failed step gives the error; otherwise the records are converted as in `fetchStopsByIds`. |
| `Data.ResolveLines` | src/data.ts:80-91 | A successful answer has one entry per pattern, in pattern order, and entry k is named after the k-th pattern's route. |
| `Data.ResolveLinesEntries` | src/data.ts:80-91 | The answer succeeds exactly when every pattern's trip expands. It then has one entry per pattern, in pattern order. Entry k has line = the k-th route name and the target's neighbours on that pattern's trip. |
| `Data.ResolveLinesFirstFailure` | src/data.ts:81-84 | A failed answer carries the error of the first pattern whose trip could not be expanded. |
| `Data.AdjacentStopsAnswer` | src/data.ts:69-92 | A failed route-pattern request for the target's parent station is the answer's error. A successful answer has at most as many lines as there are canonical patterns. |
| `Data.AdjacentStopsAnswerLines` | src/data.ts:72-91 | A successful answer names each line exactly once. Every route name among the canonical patterns appears, and every line it names is the route name of some canonical pattern. |
| `Data.FetchAdjacentStops` | src/data.ts:69-92 | The loop returns exactly the specified answer: the canonical patterns of the target's station, de-duplicated, resolved line by line. |
| `Data.CachedStops` | src/data.ts:20-31 | The cached list has one stop per record, in order, with id, parent station and only the five declared attributes. It fails on a failed request or a missing parent station. |
| `Data.StopsCache.constructor` | src/data.ts:11 | The cache starts as the empty list, with no requests made. |
| `Data.StopsCache.FetchAndCacheAllStops` | src/data.ts:19-34 | Exactly one request. On success the cache is overwritten with the result; on failure it is unchanged. |
| `Data.StopsCache.FetchAllStops` | src/data.ts:41-47 | A non-empty cache is returned unchanged with no request. An empty one is fetched. A fetch that fails or yields an empty list leaves the cache empty. |
| `Data.FetchAllStopsTwice` | src/data.ts:41-47 | After a call that returns a non-empty list, the next call returns the same list with no request. After a call that returns the empty list, the next call asks again. |
| `MbtaApi.FetchStops` | src/mbta-api.ts:37-44 | One request per route type. The answer's records convert one to one, in order, keeping `id` and `attributes` and taking `parentStation` from the relationship. |
| `MbtaApi.AllRailStops` | src/mbta-api.ts:14-18 | Succeeds only when both requests succeed. The length is the sum of both, the light-rail stops come first in their order, and the heavy-rail stops follow in theirs. |
| `MbtaApi.StopsCache.constructor` | src/mbta-api.ts:11 | The cache starts as null, with no requests made. |
| `MbtaApi.StopsCache.FetchAndCacheAllStops` | src/mbta-api.ts:13-20 | Both requests are sent. On success the cache holds their concatenation and equals the result; otherwise it is unchanged. |
| `MbtaApi.StopsCache.FetchAllStops` | src/mbta-api.ts:22-28 | Any non-null cache, the empty list included, is returned with no request. A null cache is filled. After a success the cache is non-null and equals the result. |
| `MbtaApi.FetchAllStopsTwice` | src/mbta-api.ts:22-28 | Once a call has succeeded, the next returns identical data, and the request count grows by at most the one fill. |

## Left out

- HTTP routing, the health endpoint, the unrelated posts proxy and the OpenAPI configuration (`src/server.ts`, `src/swagger.ts`): these are transport plumbing with no logic of the core.
- `fetchLineNamesByParentStation` (src/data.ts:56-60) and `fetchLinesByParentStation` (src/mbta-api.ts:46-49): each only maps an upstream answer to the routes' long names.
- Request URLs, `axios`, promises and `console.log`: each request is a parameter giving the answer the API would return.
- The gateway functions imported at src/data.ts:1-7 are not defined in src/mbta-api.ts. Here they are the parameters `routePatterns`, `tripStopIds`, `stopsByIds` and the cache's `response`.
- `fetchTripStopIds` (src/data.ts:126-134) reduces a trip's stop relationship to its ids. The parameter `tripStopIds` returns those ids directly, so a trip answer without a stops relationship is only an `Err`.
- Route-pattern records carry their trip id and route id as plain strings. A pattern missing either relationship (a runtime error in the source) is not modelled; a missing parent-station relationship on a stop record is, as `MalformedUpstreamData`.
- The five declared attributes are modelled as always present, with fixed types (`string`, `real`). The source reads them from untyped JSON (for example `stop.attributes.line` at src/data.ts:26 and src/data.ts:159) and copies `undefined` or `null` when a key is missing. No computation depends on these values, so no contract is affected.
- Latitude and longitude are floating-point numbers that are only copied. They are carried as `real`, and attribute keys beyond the declared five are a `map<string, string>` standing for any JSON values.
- `MbtaApi.AllRailStops`: `Promise.all` rejects with whichever request fails first in time. The model reports the light-rail error when both fail. The two requests run concurrently in the source and one after the other here.
- Concurrency between callers of the caches: each method is one atomic step. Two callers that both see an empty cache would both fetch, and that interleaving is not modelled.
- `fetchAllStops` and `fetchAndCacheAllStops` return the cache array itself (src/data.ts:33, 44; src/mbta-api.ts:19, 25), so a caller that mutates the result also mutates the cache. The model returns values, so that aliasing is not modelled; no caller in the source mutates the result.

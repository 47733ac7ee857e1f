# Routes and stops of a transit network, in Dafny

This project models the core of a small MBTA route service (`route_service.py`):

- **Entities.** Routes and stops are linked both ways: `route.stops` and `stop.routes`. Both are identified by their `id`, because `__eq__` and `__hash__` compare `hash(id)`.
- **Population.** `MBTARouteService` fills two dictionaries, `__routes` and `__stops`, on first use. The route request comes first. Then, for each route, its stop request runs, and every route and stop is entered under its id and under its case-folded display name.
- **Accessors.** The lazy `routes` and `stops` properties, and the case-insensitive lookups `route(q)` and `stop(q)`.
- **Trip search.** `trip(here, there)` and `__create_trip` search depth-first through the route/stop graph. They return a shortest list of routes found, with the trip so far doubling as the set of visited routes.

Layout:

- `entities.dfy` (`Entities`): the arena `Graph`, holding the two dictionaries and both membership relations. It defines the well-formedness invariant `Wf` and the `Link` operation, which adds a membership in both directions.
- `population.dfy` (`Population`, `PopulationWf`): population as a function of what the API answers (`Source`), walked record by record and stopping at the first exception. It is proved to keep `Wf` whether it finishes or not.
- `population_errors.dfy` (`PopulationErrors`): which answers raise which exception, and what stays indexed when one is raised.
- `population_exact.dfy` (`PopulationExact`): what a population that raises nothing contains.
- `service.dfy` (`Service.MBTARouteService`): a class whose fields are the two dictionaries plus the membership sets. `Populate` updates them in place with loops, and is proved to produce exactly `Population.Build`. The accessors populate only when the dictionaries are `None`.
- `queries.dfy` (`Queries`): `str(q).casefold()` and the dictionary lookup as written, plus the lookup the code evidently intends (see Findings). The service uses the intended one.
- `trip.dfy` (`TripSearch`): the search as recursive functions over a `Network`. A `Network` lists each membership set as a sequence in one iteration order. `trip_theorems.dfy` (`TripTheorems`) proves, for every iteration order, that the search is sound, complete, and returns a shortest trip.
- `scenarios.dfy` (`Scenarios`): the situations of the repository's unit tests, on the model.

## Model

| member | source | states |
|---|---|---|
| Entities.Fold | route_service.py:306 | `casefold` keeps the length, leaves no upper-case letter, and changes each character at most in letter case (ASCII letters only) |
| Entities.FoldEqualIffCaseVariants | route_service.py:306 | two texts fold to the same key exactly when they differ only in letter case |
| Entities.FoldIdempotent | route_service.py:328 | a folded key folds to itself |
| Entities.Link | route_service.py:341-342 | `route.stops.add(stop)` and `stop.routes.add(route)` add exactly that one membership in both directions and change nothing else |
| Entities.LinkWf | route_service.py:341-342 | adding a membership between two existing entities keeps every membership two-way and every index key pointing at an existing entity |
| Entities.EmptyGraphWf | route_service.py:318-319 | the freshly installed empty dictionaries are well formed |
| Population.AddStop | route_service.py:335-342 | a stop record reuses the stop indexed under its raw id, or creates one; it raises the JSON error exactly when the id is not indexed and the record is incomplete; the routes are untouched |
| Population.AddStops | route_service.py:334-342 | the stop loop never adds or removes routes and never touches the route index |
| Population.AddRoute | route_service.py:326-342 | an incomplete route record raises the JSON error and changes nothing; a complete one adds exactly its id to the routes |
| Population.AddRoutes | route_service.py:325-342 | the route loop never removes a route |
| PopulationWf.NewStopWf | route_service.py:338-340 | creating a stop that is not yet indexed and indexing it under its id and folded name keeps the graph well formed |
| PopulationWf.NewRouteWf | route_service.py:326-328 | creating or re-indexing a route keeps the graph well formed |
| PopulationWf.AddStopWf | route_service.py:335-342 | one stop record keeps the graph well formed |
| PopulationWf.AddStopsWf | route_service.py:334-342 | the stop loop keeps the graph well formed at every exit |
| PopulationWf.AddRouteWf | route_service.py:325-345 | one route record keeps the graph well formed, whether it raises or not |
| PopulationWf.AddRoutesWf | route_service.py:325-345 | the route loop keeps the graph well formed at every exit |
| PopulationWf.BuildWf | route_service.py:316-351 | after population, finished or interrupted, `s in r.stops` exactly when `r in s.routes`, and every dictionary value is an existing entity |
| PopulationErrors.AddStopsOutcome | route_service.py:334-345 | the stop loop raises only the JSON error, only for an incomplete record whose id is not indexed, and never when all records are complete |
| PopulationErrors.AddRoutesOutcome | route_service.py:325-351 | the route loop raises the HTTP error only when some complete route's stop request failed, and the JSON error only for an incomplete route record, a stop body without "data" or an incomplete stop record; success means every route was complete and every stop request answered |
| PopulationErrors.BuildOutcome | route_service.py:316-351 | clean answers never raise; a failed route request raises its own error and leaves both dictionaries empty; each exception is traced to the answer that caused it |
| PopulationErrors.StopStageFailure | route_service.py:326-348 | when the first route's stop request fails, the matching exception is raised; the route dictionary holds that route under exactly its id and its folded name, the route has no stops, and no stop exists |
| PopulationExact.IndexExactValues | route_service.py:296 | an index holding each seen id under itself, whose values are all seen ids, has exactly the seen ids as values |
| PopulationExact.EnterExact | route_service.py:327-328 | entering a complete record under its id and its folded name keeps the index exact |
| PopulationExact.FoundExact | route_service.py:336 | a stop found under a record's raw id is the stop with that id, given no folded name shadows another id |
| PopulationExact.AddStopExact | route_service.py:335-342 | a stop record that does not raise adds exactly its id to the route's stops |
| PopulationExact.AddStopsExact | route_service.py:334-342 | the stop loop, when it does not raise, adds exactly the ids of the records to the route's stops and indexes each of them |
| PopulationExact.AddRouteExact | route_service.py:326-342 | a route record that does not raise leaves the route with exactly the stop ids its request returned, whether the id is new or repeated |
| PopulationExact.AddRoutesExact | route_service.py:325-342 | the route loop, when it does not raise, indexes every route and stop record and keeps every route's stops equal to its request's answer |
| PopulationExact.BuildExact | route_service.py:316-342 | a population that does not raise, over names that shadow no other id, yields one route per distinct route id, one stop per distinct stop id, and each route's stops equal to the ids its stop request returned |
| Queries.NatToString | route_service.py:306 | `str` of a natural number is a non-empty string of decimal digits, with no leading zero except for zero itself, that denotes the number |
| Queries.Lookup | route_service.py:304-314 | `get(str(q).casefold(), None)` never returns anything but an entity the dictionary holds, and hits exactly when the folded text is a key |
| Queries.LookupIgnoresCase | route_service.py:306 | queries that differ only in letter case find the same entity |
| Queries.LookupFindsNewEntry | route_service.py:327-328 | a just-entered entity is found by its display name in any case, and by its id when the id is already lower case |
| Queries.IdLookupMissesUnfoldedId | route_service.py:306 | as written, route `Red` (long name `Red Line`) is not found by its own id `Red` |
| Queries.LookupIdOrName | route_service.py:304-308 | the corrected lookup finds everything the lookup as written finds, also finds an entry under the text as typed and prefers it, hits only when one of the two keys is present, and returns only entities the dictionary holds |
| Queries.LookupIdOrNameFindsNewEntry | route_service.py:327-328 | with the corrected lookup, a just-entered entity is found by its raw id exactly as stored, whatever its letter case, and by its display name in any case unless that text is another key |
| Queries.IdOrNameFindsUnfoldedId | test_route_service.py:2075-2084 | the corrected lookup finds route `Red` both by `Red` and by `Red Line` |
| Service.MBTARouteService.constructor | route_service.py:289-290 | a new service has both dictionaries unset and no entities |
| Service.MBTARouteService.Populate | route_service.py:316-351 | the in-place population leaves exactly the dictionaries and memberships of `Build`, and reports exactly its exception |
| Service.MBTARouteService.EnterRoute | route_service.py:326-345 | one iteration of the route loop updates the fields exactly as `AddRoute` does |
| Service.MBTARouteService.EnterStops | route_service.py:334-342 | the stop loop updates the fields exactly as `AddStops` does |
| Service.MBTARouteService.EnterStop | route_service.py:335-342 | one stop record updates the fields exactly as `AddStop` does |
| Service.MBTARouteService.Routes | route_service.py:292-296 | populates only when the dictionary is unset; fails exactly when that population raised; otherwise returns the set of dictionary values |
| Service.MBTARouteService.Stops | route_service.py:298-302 | populates only when the dictionary is unset; fails exactly when that population raised; otherwise returns the set of dictionary values |
| Service.MBTARouteService.Route | route_service.py:304-308 | raises exactly when this call populated and population raised; never raises once populated; otherwise returns the corrected lookup (exact id, then case-insensitive), which names an existing route |
| Service.MBTARouteService.Stop | route_service.py:310-314 | raises exactly when this call populated and population raised; never raises once populated; otherwise returns the corrected lookup (exact id, then case-insensitive), which names an existing stop |
| TripSearch.UnusedShrinks | route_service.py:98-99 | each recursive call adds a route not yet on the trip, so the search terminates |
| TripSearch.FirstShortest | route_service.py:102-104 | stable `sort(key=len)[0]` returns a candidate no longer than any other, the first of the shortest, and `[]` only when there are none |
| TripSearch.Unvisited | route_service.py:97-98 | the routes of a stop tried next are exactly those not already on the trip |
| TripSearch.Neighbours | route_service.py:96-98 | the recursive calls go to exactly the routes of some stop of the current route that are not on the trip |
| TripTheorems.AttemptsSound | route_service.py:95-101 | every entry of `trips` is non-empty and is the result of one candidate |
| TripTheorems.AttemptsComplete | route_service.py:95-101 | every candidate that succeeds has its result in `trips` |
| TripTheorems.CreateTripSound | route_service.py:88-105 | a non-empty result continues the visited routes, route by route through shared stops, without repeating a route, to a route serving the destination |
| TripTheorems.CreateTripComplete | route_service.py:88-105 | whenever such a continuation exists, the result is non-empty and no longer |
| TripTheorems.CreateTripShortestOfExtensions | route_service.py:95-104 | each level keeps a path no longer than any successful recursive call |
| TripTheorems.TripSound | route_service.py:72-86 | a non-empty trip starts on a route of `here`, steps only through shared stops, repeats no route and ends on a route serving `there` |
| TripTheorems.TripComplete | route_service.py:72-86 | when any trip exists, the result is non-empty and uses no more routes than it |
| TripTheorems.TripEmptyIffUnreachable | route_service.py:72-86 | `[]` is returned exactly when no trip exists |
| TripTheorems.TripShortestOfOrigins | route_service.py:78-85 | the result is `[]` exactly when every starting route fails, and is no longer than any starting route's result |
| TripTheorems.TripDirect | route_service.py:93-94 | a destination on a route of the origin is reached with one route that serves both |
| TripTheorems.TripNeedsStops | route_service.py:74-86 | a missing origin or destination, such as the `None` a failed lookup returns, gives `[]` |
| TripTheorems.LinkedSharesStop | route_service.py:96-97 | in a two-way graph, the search steps from one route to another exactly when they share a stop |
| TripTheorems.TripToSelf | route_service.py:93-94 | the trip from a stop to itself is one route of that stop |
| TripTheorems.EnumeratedGraphIsSymmetric | route_service.py:15-52 | any walk of a well-formed graph gives a closed, two-way network for the search |
| Scenarios.FixtureFacts | test_route_service.py:133-2023 | the fixture memberships the trip tests depend on |
| Scenarios.MattapanNotLinkedToGreenB | test_route_service.py:133-2023 | Mattapan and Green-B share no stop |
| Scenarios.AshmontToArlington | test_route_service.py:2142-2170 | with Red, Green-B and Mattapan loaded, Ashmont to Arlington is `[Red, Green-B]` in every iteration order |
| Scenarios.MattapanDoesNotReachArlington | test_route_service.py:2172-2186 | with only Mattapan loaded there is no trip to Arlington, and a missing destination gives `[]` |
| Scenarios.RouteRequestFailure | test_route_service.py:2188-2206 | a failed route request makes `route` raise the matching exception, and nothing is indexed |
| Scenarios.PartialIndexLookups | route_service.py:304-308 | after Mattapan's stop request fails, its display name finds it with both lookups; its id `Mattapan` misses with the lookup as written and hits with the corrected one |
| Scenarios.StopRequestFailure | test_route_service.py:2208-2238 | a failed stop request makes the first `route` raise; the next `route` by display name finds the route entered before the failure, without requesting again |

## Left out

- HTTP is not modelled: the session, the retry policy (`Retry(total=5, ...)`, status 429), the API key header, URLs and query parameters. The answers of the API are a parameter, `Source`. Every status that `raise_for_status` rejects (lines 323 and 332) becomes `HttpFailure`.
- Exceptions the session raises by itself are not modelled: `RetryError` once the five retries of status 429 run out (the policy keeps `raise_on_status` on), `ConnectionError` and `Timeout`. None of them is an `HTTPError`, so the `except` at line 346 does not wrap them and they escape as they are; `Source` has no answer for them.
- The route-type filter (`RouteTypes`, `_route_types`) only shapes the request URL. It is not modelled.
- JSON decoding is not modelled. A record is reduced to its id and display name, with `None` standing for any missing field the constructor reads. An undecodable body raises `ValueError`, which the code does not catch; the model has no such answer.
- The attributes of `MBTARoute` and `MBTAStop` other than the id and the display name are not modelled.
- Logging is not modelled.
- The TUI client (`list_stops` and the rest of the file after line 354) is not part of this model.
- `casefold` is modelled as ASCII lower-casing (`Entities.Fold`). Unicode case folding is not modelled.
- `hash(id)` is treated as injective on ids. The model identifies entities by id, as `__eq__` does when hashes do not collide.
- Ids are strings. Integer ids are allowed by the type hints but not produced by the API. Queries may be text, an integer or `None`.
- A route id that appears twice in the route answer makes a second Python object. The old object stays in its stops' `routes` sets, and the dictionary points at the new one. The model keeps one route per id and merges the memberships. The two coincide unless the second stop request fails part-way or answers differently (`Source` answers each route id the same way every time), or a folded stop name entered between the two passes has taken over the key of one of the route's stop ids: the new object then gets only the stop now found under that key, while the model also keeps the stop linked on the first pass.
- A failed population installs the dictionaries before raising and keeps what was entered, so later accesses do not request again. The model follows the code here (`Scenarios.StopRequestFailure`), not the more useful behaviour of retrying on the next access.
- A stop whose folded name equals another stop's id is modelled as written. A later record with that id then links to the named stop. `PopulationExact.BuildExact` assumes no such clash. The same goes for routes.
- TripSearch.Trip: the iteration order of Python sets is a parameter. Every property is proved for every order. Which of several equally short trips is returned is stated only as "the first shortest in iteration order" (`TripSearch.FirstShortest`).

## Findings

| source | as written | input that shows it | evidently intended | confidence | as-written member | corrected member |
|---|---|---|---|---|---|---|
| route_service.py:306 | `route(q)` looks up `str(q).casefold()`, but line 327 stores the raw id. A route whose id has an upper-case letter is never found by its id. `stop(q)` on line 312 has the same flaw. | Route id `Red`, long name `Red Line`. The keys are `Red` and `red line`, and `route("Red")` looks up `red` and returns `None`. test_route_service.py:2083 expects the route. | Find a route by its exact id or by its name in any case | not executed | Queries.IdLookupMissesUnfoldedId | Queries.IdOrNameFindsUnfoldedId |

/**
 * The repository (route_service.py, `MBTARouteService`): two dictionary
 * fields that start as `None` and are filled, in place, by the first access
 * that finds them `None`; then lookups into them.
 */
module Service {
  import opened Wrappers
  import opened Entities
  import opened Population
  import opened PopulationWf
  import opened Queries

  class MBTARouteService {
    /** The transit API as seen through the session: what each request answers. */
    const source: Source

    /** `self.__routes`: `None` until population starts. */
    var routeIndex: Option<map<Key, RouteId>>
    /** `self.__stops`: `None` until population starts. */
    var stopIndex: Option<map<Key, StopId>>
    /** `r.stops` of every route object created so far. */
    var routeStops: map<RouteId, set<StopId>>
    /** `s.routes` of every stop object created so far. */
    var stopRoutes: map<StopId, set<RouteId>>

    /** The fields as one graph (an unset index reads as empty). */
    ghost function State(): Graph
      reads this
    {
      Graph(if routeIndex.Some? then routeIndex.value else map[],
            if stopIndex.Some? then stopIndex.value else map[],
            routeStops, stopRoutes)
    }

    /**
     * Both dictionaries are set together; before that no entity exists; the
     * graph is always well formed.
     */
    ghost predicate Valid()
      reads this
    {
      && (routeIndex.None? <==> stopIndex.None?)
      && (routeIndex.None? ==> routeStops == map[] && stopRoutes == map[])
      && Wf(State())
    }

    /** `MBTARouteService(...)`: nothing fetched yet (lines 289-290). */
    constructor (source: Source)
      ensures Valid()
      ensures this.source == source && routeIndex.None? && stopIndex.None?
    {
      this.source := source;
      routeIndex := None;
      stopIndex := None;
      routeStops := map[];
      stopRoutes := map[];
      new;
      EmptyGraphWf();
    }

    /**
     * `__get_routes_and_stops` (lines 316-351): install empty dictionaries
     * first, then walk the route records; the first failure ends the walk
     * and leaves everything entered so far in place.
     */
    method Populate() returns (err: Option<ServiceError>)
      modifies this
      ensures routeIndex.Some? && stopIndex.Some?
      ensures State() == Build(source).graph && err == Build(source).err
    {
      routeIndex, stopIndex := Some(map[]), Some(map[]);
      routeStops, stopRoutes := map[], map[];
      assert State() == EmptyGraph;
      match source.routeFetch {
        case HttpFailure =>
          return Some(HttpError);
        case DataMissing =>
          return Some(JsonError);
        case Records(routes) =>
          var i := 0;
          while i < |routes|
            invariant 0 <= i <= |routes|
            invariant routeIndex.Some? && stopIndex.Some?
            invariant Build(source) == AddRoutes(State(), routes[i..], source.stopFetch)
          {
            assert routes[i..][0] == routes[i] && routes[i..][1..] == routes[i + 1..];
            err := EnterRoute(routes[i]);
            if err.Some? {
              return;
            }
            i := i + 1;
          }
          return None;
      }
    }

    /** One pass of the route loop (lines 326-351). */
    method EnterRoute(rec: Record) returns (err: Option<ServiceError>)
      requires routeIndex.Some? && stopIndex.Some?
      modifies this
      ensures routeIndex.Some? && stopIndex.Some?
      ensures Step(State(), err) == AddRoute(old(State()), rec, source.stopFetch)
    {
      if !Complete(rec) {
        return Some(JsonError);
      }
      var r, name := rec.id.value, rec.name.value;
      routeIndex := Some(routeIndex.value[r := r][Fold(name) := r]);
      if r !in routeStops {
        routeStops := routeStops[r := {}];
      }
      assert State() == WithRoute(old(State()), r, name);
      match source.stopFetch(r) {
        case HttpFailure =>
          return Some(HttpError);
        case DataMissing =>
          return Some(JsonError);
        case Records(stops) =>
          err := EnterStops(r, stops);
      }
    }

    /** The stop loop of one route (lines 334-342). */
    method EnterStops(r: RouteId, stops: seq<Record>) returns (err: Option<ServiceError>)
      requires routeIndex.Some? && stopIndex.Some? && r in routeStops
      modifies this
      ensures routeIndex.Some? && stopIndex.Some?
      ensures Step(State(), err) == AddStops(old(State()), r, stops)
    {
      var j := 0;
      while j < |stops|
        invariant 0 <= j <= |stops|
        invariant routeIndex.Some? && stopIndex.Some? && r in routeStops
        invariant AddStops(old(State()), r, stops) == AddStops(State(), r, stops[j..])
      {
        assert stops[j..][0] == stops[j] && stops[j..][1..] == stops[j + 1..];
        err := EnterStop(r, stops[j]);
        if err.Some? {
          return;
        }
        j := j + 1;
      }
      return None;
    }

    /**
     * One stop record (lines 335-342): the stop indexed under the raw id, or
     * a new stop indexed under its id and folded name; then the membership
     * both ways.
     */
    method EnterStop(r: RouteId, rec: Record) returns (err: Option<ServiceError>)
      requires routeIndex.Some? && stopIndex.Some? && r in routeStops
      modifies this
      ensures routeIndex.Some? && stopIndex.Some? && r in routeStops
      ensures Step(State(), err) == AddStop(old(State()), r, rec)
    {
      var s: StopId;
      if rec.id.Some? && rec.id.value in stopIndex.value {
        s := stopIndex.value[rec.id.value];
      } else if Complete(rec) {
        s := rec.id.value;
        stopIndex := Some(stopIndex.value[s := s][Fold(rec.name.value) := s]);
        stopRoutes := stopRoutes[s := {}];
      } else {
        return Some(JsonError);
      }
      routeStops := routeStops[r := routeStops[r] + {s}];
      stopRoutes := stopRoutes[s := (if s in stopRoutes then stopRoutes[s] else {}) + {r}];
      return None;
    }

    /**
     * The `routes` property (lines 292-296): populate only while the
     * dictionary is `None`, then return the entities it holds. A failed
     * population raises, but it has already replaced `None` by the partial
     * dictionaries, so no later access populates again.
     */
    method Routes() returns (res: Result<set<RouteId>, ServiceError>)
      requires Valid()
      modifies this
      ensures Valid() && routeIndex.Some?
      ensures old(routeIndex).Some? ==> unchanged(this)
      ensures old(routeIndex).None? ==> State() == Build(source).graph
      ensures res == if old(routeIndex).None? && Build(source).err.Some? then Failure(Build(source).err.value)
                     else Success(routeIndex.value.Values)
    {
      if routeIndex.None? {
        var err := Populate();
        BuildWf(source);
        if err.Some? {
          return Failure(err.value);
        }
      }
      return Success(routeIndex.value.Values);
    }

    /** The `stops` property (lines 298-302), the same for stops. */
    method Stops() returns (res: Result<set<StopId>, ServiceError>)
      requires Valid()
      modifies this
      ensures Valid() && stopIndex.Some?
      ensures old(stopIndex).Some? ==> unchanged(this)
      ensures old(stopIndex).None? ==> State() == Build(source).graph
      ensures res == if old(stopIndex).None? && Build(source).err.Some? then Failure(Build(source).err.value)
                     else Success(stopIndex.value.Values)
    {
      if stopIndex.None? {
        var err := Populate();
        BuildWf(source);
        if err.Some? {
          return Failure(err.value);
        }
      }
      return Success(stopIndex.value.Values);
    }

    /**
     * `route(q)` (lines 304-308): after the `routes` property (which may
     * populate or raise), `None` for an empty repository, otherwise the route
     * under the text of `q` as typed or, failing that, folded (the corrected
     * lookup, `Queries.LookupIdOrName`). It never raises once populated, and
     * what it returns is an existing route.
     */
    method Route(q: Query) returns (res: Result<Option<RouteId>, ServiceError>)
      requires Valid()
      modifies this
      ensures Valid() && routeIndex.Some?
      ensures old(routeIndex).Some? ==> unchanged(this) && res.Success?
      ensures old(routeIndex).None? ==> State() == Build(source).graph
      ensures res.Failure? <==> old(routeIndex).None? && Build(source).err.Some?
      ensures res.Failure? ==> res.error == Build(source).err.value
      ensures res.Success? ==> res.value == LookupIdOrName(routeIndex.value, q)
      ensures res.Success? && res.value.Some? ==> res.value.value in routeStops
    {
      var all := Routes();
      if all.Failure? {
        return Failure(all.error);
      }
      if all.value != {} {
        return Success(LookupIdOrName(routeIndex.value, q));
      }
      return Success(None);
    }

    /** `stop(q)` (lines 310-314), the same for stops. */
    method Stop(q: Query) returns (res: Result<Option<StopId>, ServiceError>)
      requires Valid()
      modifies this
      ensures Valid() && stopIndex.Some?
      ensures old(stopIndex).Some? ==> unchanged(this) && res.Success?
      ensures old(stopIndex).None? ==> State() == Build(source).graph
      ensures res.Failure? <==> old(stopIndex).None? && Build(source).err.Some?
      ensures res.Failure? ==> res.error == Build(source).err.value
      ensures res.Success? ==> res.value == LookupIdOrName(stopIndex.value, q)
      ensures res.Success? && res.value.Some? ==> res.value.value in stopRoutes
    {
      var all := Stops();
      if all.Failure? {
        return Failure(all.error);
      }
      if all.value != {} {
        return Success(LookupIdOrName(stopIndex.value, q));
      }
      return Success(None);
    }
  }
}

/**
 * Building the graph (route_service.py, `MBTARouteService.__get_routes_and_stops`),
 * as a function of what the transit API answers. The HTTP session, its retry
 * policy and the JSON decoding are replaced by `Source`: for the route request
 * and for the stop request of each route id, either the list under "data" or
 * one of the two failures the code distinguishes.
 *
 * The building is a left-to-right walk over the records that stops at the
 * first exception; `Step` carries the graph as it stands at that point and the
 * exception, because the dictionaries are installed before any request is
 * made and keep whatever was entered before the failure.
 */
module Population {
  import opened Wrappers
  import opened Entities

  /**
   * A route or stop record, reduced to what the core reads: the "id" field
   * and the display name (`long_name` of a route, `name` of a stop). `name`
   * is `None` when the display name or any other field the entity's
   * constructor reads is missing.
   */
  datatype Record = Record(id: Option<Key>, name: Option<string>)

  /** The constructor (`MBTARoute(...)`, `MBTAStop(...)`) succeeds. */
  predicate Complete(rec: Record) {
    rec.id.Some? && rec.name.Some?
  }

  /** One request: the records under "data", a status `raise_for_status` rejects, or a body without "data". */
  datatype Fetch = Records(data: seq<Record>) | HttpFailure | DataMissing

  /** `RouteServiceHttpException` and `RouteServiceJsonException`. */
  datatype ServiceError = HttpError | JsonError

  /** The answers of the API: to the route request, and to the stop request for each route id. */
  datatype Source = Source(routeFetch: Fetch, stopFetch: Key -> Fetch)

  /** The graph when the walk ended, and the exception that ended it, if any. */
  datatype Step = Step(graph: Graph, err: Option<ServiceError>)

  /** A new stop `s`, indexed under its id and its folded name (lines 338-340). */
  function WithStop(g: Graph, s: StopId, name: string): Graph {
    g.(stopIndex := g.stopIndex[s := s][Fold(name) := s], stopRoutes := g.stopRoutes[s := {}])
  }

  /**
   * Route `r` indexed under its id and its folded name (lines 326-328). A
   * route id seen before keeps the stops it has.
   */
  function WithRoute(g: Graph, r: RouteId, name: string): Graph {
    g.(routeIndex := g.routeIndex[r := r][Fold(name) := r],
       routeStops := if r in g.routeStops then g.routeStops else g.routeStops[r := {}])
  }

  /**
   * One stop record of route `r` (lines 335-342): reuse the stop the index
   * holds under the record's raw id, or create the stop and index it under its
   * id and its folded name; then add the membership both ways.
   */
  function AddStop(g: Graph, r: RouteId, rec: Record): (st: Step)
    requires r in g.routeStops
    ensures st.graph.routeStops.Keys == g.routeStops.Keys
    ensures st.graph.routeIndex == g.routeIndex
    ensures g.stopIndex.Keys <= st.graph.stopIndex.Keys
    ensures st.err.Some? <==> !Complete(rec) && (rec.id.None? || rec.id.value !in g.stopIndex)
    ensures st.err.Some? ==> st == Step(g, Some(JsonError))
    ensures st.err.None? && rec.id.value in g.stopIndex ==>
              var s := g.stopIndex[rec.id.value];
              && st.graph.stopIndex == g.stopIndex
              && st.graph.routeStops == g.routeStops[r := g.routeStops[r] + {s}]
              && st.graph.stopRoutes == g.stopRoutes[s := RoutesOf(g, s) + {r}]
    ensures st.err.None? && rec.id.value !in g.stopIndex ==>
              var s := rec.id.value;
              && st.graph.stopIndex == g.stopIndex[s := s][Fold(rec.name.value) := s]
              && st.graph.routeStops == g.routeStops[r := g.routeStops[r] + {s}]
              && st.graph.stopRoutes == g.stopRoutes[s := {r}]
  {
    if rec.id.Some? && rec.id.value in g.stopIndex then
      Step(Link(g, r, g.stopIndex[rec.id.value]), None)
    else if Complete(rec) then
      var s := rec.id.value;
      assert {} + {r} == {r};
      assert g.stopRoutes[s := {}][s := {r}] == g.stopRoutes[s := {r}];
      Step(Link(WithStop(g, s, rec.name.value), r, s), None)
    else
      Step(g, Some(JsonError))
  }

  /** The loop over the stop records of route `r` (line 334). */
  function AddStops(g: Graph, r: RouteId, recs: seq<Record>): (st: Step)
    requires r in g.routeStops
    ensures st.graph.routeStops.Keys == g.routeStops.Keys
    ensures st.graph.routeIndex == g.routeIndex
    ensures g.stopIndex.Keys <= st.graph.stopIndex.Keys
    decreases |recs|
  {
    if recs == [] then Step(g, None)
    else
      var st := AddStop(g, r, recs[0]);
      if st.err.Some? then st else AddStops(st.graph, r, recs[1..])
  }

  /**
   * One route record (lines 326-342): construct the route, index it, request
   * its stops and add them.
   */
  function AddRoute(g: Graph, rec: Record, stopFetch: Key -> Fetch): (st: Step)
    ensures !Complete(rec) ==> st == Step(g, Some(JsonError))
    ensures Complete(rec) ==> st.graph.routeStops.Keys == g.routeStops.Keys + {rec.id.value}
  {
    if !Complete(rec) then Step(g, Some(JsonError))
    else
      var r := rec.id.value;
      var g1 := WithRoute(g, r, rec.name.value);
      match stopFetch(r)
      case HttpFailure => Step(g1, Some(HttpError))
      case DataMissing => Step(g1, Some(JsonError))
      case Records(recs) => AddStops(g1, r, recs)
  }

  /** The loop over the route records (line 325). */
  function AddRoutes(g: Graph, recs: seq<Record>, stopFetch: Key -> Fetch): (st: Step)
    ensures g.routeStops.Keys <= st.graph.routeStops.Keys
    decreases |recs|
  {
    if recs == [] then Step(g, None)
    else
      var st := AddRoute(g, recs[0], stopFetch);
      if st.err.Some? then st else AddRoutes(st.graph, recs[1..], stopFetch)
  }

  /** `__get_routes_and_stops` from the empty dictionaries of lines 318-319. */
  function Build(src: Source): Step {
    match src.routeFetch
    case HttpFailure => Step(EmptyGraph, Some(HttpError))
    case DataMissing => Step(EmptyGraph, Some(JsonError))
    case Records(recs) => AddRoutes(EmptyGraph, recs, src.stopFetch)
  }
}

/** The graph every population leaves behind is well formed, whether it ran to the end or not. */
module PopulationWf {
  import opened Entities
  import opened Population

  lemma NewStopBidirectional(g: Graph, s: StopId, name: string)
    requires Bidirectional(g) && s !in g.stopRoutes
    ensures Bidirectional(WithStop(g, s, name))
  {
    var g1 := WithStop(g, s, name);
    forall r2, s2 | r2 in g1.routeStops && s2 in g1.routeStops[r2]
      ensures s2 in g1.stopRoutes && r2 in g1.stopRoutes[s2]
    {
      assert s2 in g.stopRoutes;
    }
  }

  lemma NewStopIndexed(g: Graph, s: StopId, name: string)
    requires Indexed(g) && s !in g.stopIndex
    ensures Indexed(WithStop(g, s, name)) && s !in g.stopRoutes
  {
  }

  /** Creating a stop that is not yet indexed keeps the graph well formed. */
  lemma NewStopWf(g: Graph, s: StopId, name: string)
    requires Wf(g) && s !in g.stopIndex
    ensures Wf(WithStop(g, s, name))
  {
    NewStopIndexed(g, s, name);
    NewStopBidirectional(g, s, name);
  }

  lemma NewRouteBidirectional(g: Graph, r: RouteId, name: string)
    requires Bidirectional(g)
    ensures Bidirectional(WithRoute(g, r, name))
  {
    var g1 := WithRoute(g, r, name);
    forall s2, r2 | s2 in g1.stopRoutes && r2 in g1.stopRoutes[s2]
      ensures r2 in g1.routeStops && s2 in g1.routeStops[r2]
    {
      assert r2 in g.routeStops;
    }
  }

  lemma NewRouteIndexed(g: Graph, r: RouteId, name: string)
    requires Indexed(g)
    ensures Indexed(WithRoute(g, r, name))
  {
  }

  /** Creating or re-indexing a route keeps the graph well formed. */
  lemma NewRouteWf(g: Graph, r: RouteId, name: string)
    requires Wf(g)
    ensures Wf(WithRoute(g, r, name))
  {
    NewRouteIndexed(g, r, name);
    NewRouteBidirectional(g, r, name);
  }

  lemma AddStopWf(g: Graph, r: RouteId, rec: Record)
    requires Wf(g) && r in g.routeStops
    ensures Wf(AddStop(g, r, rec).graph)
  {
    if rec.id.Some? && rec.id.value in g.stopIndex {
      LinkWf(g, r, g.stopIndex[rec.id.value]);
    } else if Complete(rec) {
      var s := rec.id.value;
      NewStopWf(g, s, rec.name.value);
      NewStopIndexed(g, s, rec.name.value);
      LinkWf(WithStop(g, s, rec.name.value), r, s);
    }
  }

  lemma {:induction false} AddStopsWf(g: Graph, r: RouteId, recs: seq<Record>)
    requires Wf(g) && r in g.routeStops
    ensures Wf(AddStops(g, r, recs).graph)
    decreases |recs|
  {
    if recs != [] {
      AddStopWf(g, r, recs[0]);
      var st := AddStop(g, r, recs[0]);
      if st.err.None? {
        AddStopsWf(st.graph, r, recs[1..]);
      }
    }
  }

  lemma AddRouteWf(g: Graph, rec: Record, stopFetch: Key -> Fetch)
    requires Wf(g)
    ensures Wf(AddRoute(g, rec, stopFetch).graph)
  {
    if Complete(rec) {
      var r := rec.id.value;
      NewRouteWf(g, r, rec.name.value);
      if stopFetch(r).Records? {
        AddStopsWf(WithRoute(g, r, rec.name.value), r, stopFetch(r).data);
      }
    }
  }

  lemma {:induction false} AddRoutesWf(g: Graph, recs: seq<Record>, stopFetch: Key -> Fetch)
    requires Wf(g)
    ensures Wf(AddRoutes(g, recs, stopFetch).graph)
    decreases |recs|
  {
    if recs != [] {
      AddRouteWf(g, recs[0], stopFetch);
      var st := AddRoute(g, recs[0], stopFetch);
      if st.err.None? {
        AddRoutesWf(st.graph, recs[1..], stopFetch);
      }
    }
  }

  /**
   * After population, successful or not, `s in r.stops` exactly when
   * `r in s.routes`, and every index entry names an existing entity.
   */
  lemma BuildWf(src: Source)
    ensures Wf(Build(src).graph)
  {
    EmptyGraphWf();
    if src.routeFetch.Records? {
      AddRoutesWf(EmptyGraph, src.routeFetch.data, src.stopFetch);
    }
  }
}

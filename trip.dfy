/**
 * The trip finder (route_service.py, `RouteService.trip` and
 * `RouteService.__create_trip`): a depth-first search over the bipartite
 * route/stop graph in which the path built so far doubles as the visited set
 * and, at every level, the shortest successful candidate wins.
 *
 * The search walks Python sets, whose iteration order is unspecified. A
 * `Network` therefore lists the members of every set as a sequence, in the
 * order one walk happens to visit them; every property proved here holds for
 * every such order.
 */
module TripSearch {
  import opened Wrappers
  import opened Entities

  /** `stopsOf[r]` walks `r.stops`; `routesOf[s]` walks `s.routes`. */
  datatype Network = Network(stopsOf: map<RouteId, seq<StopId>>, routesOf: map<StopId, seq<RouteId>>)

  /** Every object reached through a membership set is an entity of the network. */
  ghost predicate Closed(net: Network) {
    && (forall r, s :: r in net.stopsOf && s in net.stopsOf[r] ==> s in net.routesOf)
    && (forall s, r :: s in net.routesOf && r in net.routesOf[s] ==> r in net.stopsOf)
  }

  /** The routes on a path, as a set. */
  function Elems(p: seq<RouteId>): set<RouteId> {
    set r | r in p
  }

  /** The routes of the network not yet on the path: the search's variant. */
  function Unused(net: Network, p: seq<RouteId>): set<RouteId> {
    net.stopsOf.Keys - Elems(p)
  }

  /** Appending a route of the network that is not yet on the path uses one up. */
  lemma UnusedShrinks(net: Network, p: seq<RouteId>, c: RouteId)
    requires c in net.stopsOf && c !in p
    ensures |Unused(net, p + [c])| < |Unused(net, p)|
  {
    assert Elems(p + [c]) == Elems(p) + {c};
    assert Unused(net, p) == Unused(net, p + [c]) + {c};
  }

  /**
   * `sort(key=len)` followed by `[0]`: the sort is stable, so the result is
   * the first of the shortest candidates; no candidate gives `[]`.
   */
  function FirstShortest<T>(ts: seq<seq<T>>): (best: seq<T>)
    ensures ts == [] ==> best == []
    ensures ts != [] ==> best in ts
    ensures forall t :: t in ts ==> |best| <= |t|
    ensures ts != [] ==> exists k :: 0 <= k < |ts| && ts[k] == best && forall j :: 0 <= j < k ==> |best| < |ts[j]|
  {
    if ts == [] then []
    else if |ts| == 1 then ts[0]
    else
      var rest := FirstShortest(ts[1..]);
      assert forall t :: t in ts[1..] ==> t in ts;
      if |ts[0]| <= |rest| then ts[0]
      else
        ghost var k :| 0 <= k < |ts| - 1 && ts[1..][k] == rest && forall j :: 0 <= j < k ==> |rest| < |ts[1..][j]|;
        assert ts[k + 1] == rest;
        rest
  }

  /** The routes of `routes` that are not on `path`, in walking order (the test on line 98). */
  function Unvisited(routes: seq<RouteId>, path: seq<RouteId>): (us: seq<RouteId>)
    ensures forall c :: c in us <==> c in routes && c !in path
  {
    if routes == [] then []
    else (if routes[0] in path then [] else [routes[0]]) + Unvisited(routes[1..], path)
  }

  /**
   * The routes the two nested loops of `__create_trip` recurse into, in the
   * order they are tried: for each stop of the route, each of its routes not
   * already on the path.
   */
  function Neighbours(net: Network, path: seq<RouteId>, stops: seq<StopId>): (ns: seq<RouteId>)
    requires forall s :: s in stops ==> s in net.routesOf
    ensures forall c :: c in ns ==> c !in path && exists s :: s in stops && c in net.routesOf[s]
    ensures forall s, c :: s in stops && c in net.routesOf[s] && c !in path ==> c in ns
  {
    if stops == [] then []
    else Unvisited(net.routesOf[stops[0]], path) + Neighbours(net, path, stops[1..])
  }

  /**
   * `__create_trip(looking, destination, visited)`; `visited == None` is the
   * empty path. Returns the path extended by `looking` when `looking` serves
   * the destination, otherwise the first shortest of the successful
   * extensions, otherwise `[]`.
   */
  function CreateTrip(net: Network, looking: RouteId, destination: StopId, visited: seq<RouteId>): seq<RouteId>
    requires Closed(net) && looking in net.stopsOf
    decreases |Unused(net, visited + [looking])|, 1, 0
  {
    var path := visited + [looking];
    if destination in net.stopsOf[looking] then path
    else FirstShortest(Attempts(net, Neighbours(net, path, net.stopsOf[looking]), destination, path))
  }

  /** The list `trips`: the non-empty results of the recursive calls, in the order they were made. */
  function Attempts(net: Network, candidates: seq<RouteId>, destination: StopId, path: seq<RouteId>): seq<seq<RouteId>>
    requires Closed(net)
    requires forall c :: c in candidates ==> c in net.stopsOf && c !in path
    decreases |Unused(net, path)|, 0, |candidates|
  {
    if candidates == [] then []
    else
      UnusedShrinks(net, path, candidates[0]);
      var t := CreateTrip(net, candidates[0], destination, path);
      (if t == [] then [] else [t]) + Attempts(net, candidates[1..], destination, path)
  }

  /**
   * `trip(here, there)`: `None` stands for any argument that is not a `Stop`
   * (such as the `None` a failed lookup returns). Every route of `here` is
   * tried as a starting route and the first shortest success is returned.
   */
  function Trip(net: Network, here: Option<StopId>, there: Option<StopId>): seq<RouteId>
    requires Closed(net)
    requires here.Some? ==> here.value in net.routesOf
  {
    if here.Some? && there.Some? then FirstShortest(Attempts(net, net.routesOf[here.value], there.value, []))
    else []
  }
}

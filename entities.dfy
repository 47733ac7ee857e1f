/**
 * Routes and stops (route_service.py, classes `Route` and `Stop`).
 *
 * Both kinds of entity are identified by their `id`: `__eq__` and `__hash__`
 * compare `hash(id)`, so two objects with the same id are the same element of
 * every set they are put in. The model therefore names an entity by its id and
 * keeps the back-references of each entity (`Route.stops`, `Stop.routes`) in an
 * arena, `Graph`, together with the two dictionaries of the repository that
 * index the entities by key.
 */
module Entities {

  type Key = string
  type RouteId = string
  type StopId = string

  /** ASCII lower-casing of one character. */
  function Lower(c: char): char {
    if 'A' <= c <= 'Z' then (c as int + 32) as char else c
  }

  /** `c` and `d` are the same character up to ASCII letter case. */
  predicate CaseVariants(c: char, d: char) {
    || c == d
    || ('A' <= c <= 'Z' && d as int == c as int + 32)
    || ('A' <= d <= 'Z' && c as int == d as int + 32)
  }

  /**
   * `str.casefold`, restricted to ASCII letters: the result has no upper-case
   * letter and differs from the input only in letter case.
   */
  function Fold(s: string): (r: string)
    ensures |r| == |s|
    ensures forall i :: 0 <= i < |r| ==> !('A' <= r[i] <= 'Z')
    ensures forall i :: 0 <= i < |s| ==> CaseVariants(s[i], r[i])
  {
    seq(|s|, i requires 0 <= i < |s| => Lower(s[i]))
  }

  /** Two texts fold alike exactly when they differ only in letter case. */
  lemma FoldEqualIffCaseVariants(s: string, t: string)
    ensures Fold(s) == Fold(t) <==> |s| == |t| && forall i :: 0 <= i < |s| ==> CaseVariants(s[i], t[i])
  {
    if |s| == |t| && forall i :: 0 <= i < |s| ==> CaseVariants(s[i], t[i]) {
      forall i | 0 <= i < |s|
        ensures Fold(s)[i] == Fold(t)[i]
      {
        assert CaseVariants(s[i], t[i]);
      }
    }
    if Fold(s) == Fold(t) {
      forall i | 0 <= i < |s|
        ensures CaseVariants(s[i], t[i])
      {
        assert Lower(s[i]) == Fold(s)[i] == Fold(t)[i] == Lower(t[i]);
      }
    }
  }

  /** Folding twice is folding once: a folded key is its own fold. */
  lemma FoldIdempotent(s: string)
    ensures Fold(Fold(s)) == Fold(s)
  {
  }

  /**
   * The repository's state: `routeIndex` and `stopIndex` are the dictionaries
   * `__routes` and `__stops` (key -> entity), `routeStops[r]` is the set
   * `r.stops` of route r and `stopRoutes[s]` the set `s.routes` of stop s. The
   * keys of `routeStops` and `stopRoutes` are the entities that exist.
   */
  datatype Graph = Graph(
    routeIndex: map<Key, RouteId>,
    stopIndex: map<Key, StopId>,
    routeStops: map<RouteId, set<StopId>>,
    stopRoutes: map<StopId, set<RouteId>>)

  /** The state right after `self.__routes = {}` and `self.__stops = {}`. */
  const EmptyGraph := Graph(map[], map[], map[], map[])

  /** `s in r.stops` exactly when `r in s.routes`, and both ends exist. */
  ghost predicate Bidirectional(g: Graph) {
    && (forall r, s :: r in g.routeStops && s in g.routeStops[r] ==> s in g.stopRoutes && r in g.stopRoutes[s])
    && (forall s, r :: s in g.stopRoutes && r in g.stopRoutes[s] ==> r in g.routeStops && s in g.routeStops[r])
  }

  /**
   * Every key of an index names an existing entity, and every entity has had
   * its own id entered as a key (keys are never removed, only overwritten).
   */
  ghost predicate Indexed(g: Graph) {
    && (forall k {:trigger g.routeIndex[k]} :: k in g.routeIndex ==> g.routeIndex[k] in g.routeStops)
    && (forall k {:trigger g.stopIndex[k]} :: k in g.stopIndex ==> g.stopIndex[k] in g.stopRoutes)
    && (forall r :: r in g.routeStops ==> r in g.routeIndex)
    && (forall s :: s in g.stopRoutes ==> s in g.stopIndex)
  }

  ghost predicate Wf(g: Graph) {
    Bidirectional(g) && Indexed(g)
  }

  lemma EmptyGraphWf()
    ensures Wf(EmptyGraph)
  {
  }

  /** `r.stops`, or the empty set of a route not yet created. */
  function StopsOf(g: Graph, r: RouteId): set<StopId> {
    if r in g.routeStops then g.routeStops[r] else {}
  }

  /** `s.routes`, or the empty set of a stop not yet created. */
  function RoutesOf(g: Graph, s: StopId): set<RouteId> {
    if s in g.stopRoutes then g.stopRoutes[s] else {}
  }

  /**
   * `route.stops.add(stop)` followed by `stop.routes.add(route)`: the two
   * halves of one membership, always added together.
   */
  function Link(g: Graph, r: RouteId, s: StopId): (g': Graph)
    ensures g'.routeIndex == g.routeIndex && g'.stopIndex == g.stopIndex
    ensures g'.routeStops.Keys == g.routeStops.Keys + {r} && g'.stopRoutes.Keys == g.stopRoutes.Keys + {s}
    ensures g'.routeStops == g.routeStops[r := StopsOf(g, r) + {s}]
    ensures g'.stopRoutes == g.stopRoutes[s := RoutesOf(g, s) + {r}]
  {
    g.(routeStops := g.routeStops[r := StopsOf(g, r) + {s}],
       stopRoutes := g.stopRoutes[s := RoutesOf(g, s) + {r}])
  }

  /** Adding a membership in both directions keeps the graph well formed. */
  lemma LinkWf(g: Graph, r: RouteId, s: StopId)
    requires r in g.routeStops && s in g.stopRoutes
    requires Wf(g)
    ensures Wf(Link(g, r, s))
  {
    LinkBidirectional(g, r, s);
    LinkIndexed(g, r, s);
  }

  lemma LinkIndexed(g: Graph, r: RouteId, s: StopId)
    requires r in g.routeStops && s in g.stopRoutes
    requires Indexed(g)
    ensures Indexed(Link(g, r, s))
  {
  }

  lemma LinkBidirectional(g: Graph, r: RouteId, s: StopId)
    requires r in g.routeStops && s in g.stopRoutes
    requires Bidirectional(g)
    ensures Bidirectional(Link(g, r, s))
  {
    var g' := Link(g, r, s);
    forall r2, s2 | r2 in g'.routeStops && s2 in g'.routeStops[r2]
      ensures s2 in g'.stopRoutes && r2 in g'.stopRoutes[s2]
    {
      if r2 != r || s2 != s {
        assert s2 in g.routeStops[r2];
      }
    }
    forall s2, r2 | s2 in g'.stopRoutes && r2 in g'.stopRoutes[s2]
      ensures r2 in g'.routeStops && s2 in g'.routeStops[r2]
    {
      if r2 != r || s2 != s {
        assert r2 in g.stopRoutes[s2];
      }
    }
  }
}

/**
 * What the trip finder guarantees, for every walking order of the sets:
 * a returned trip is a real trip (it starts on a route of the origin, each
 * route is reached through a stop of the one before, no route is used twice
 * and the last route serves the destination), the result is empty only when
 * no trip exists, and no trip uses fewer routes than the one returned.
 */
module TripTheorems {
  import opened Wrappers
  import opened Entities
  import opened TripSearch

  /** `b` is one of the routes of some stop of `a`: the step the inner loops take. */
  ghost predicate Linked(net: Network, a: RouteId, b: RouteId) {
    a in net.stopsOf && exists s :: s in net.stopsOf[a] && s in net.routesOf && b in net.routesOf[s]
  }

  /**
   * `p` continues `path` route by route to a route serving `dest`, never
   * returning to a route already on the path.
   */
  ghost predicate Extends(net: Network, path: seq<RouteId>, dest: StopId, p: seq<RouteId>) {
    && 0 < |path| <= |p| && p[..|path|] == path
    && p[|p| - 1] in net.stopsOf && dest in net.stopsOf[p[|p| - 1]]
    && (forall i :: |path| <= i < |p| ==> Linked(net, p[i - 1], p[i]) && p[i] !in p[..i])
  }

  /** No route occurs twice. */
  ghost predicate NoRepeats(p: seq<RouteId>) {
    forall i, j :: 0 <= i < j < |p| ==> p[i] != p[j]
  }

  /** A trip from stop `here` to stop `there`. */
  ghost predicate IsTrip(net: Network, here: StopId, there: StopId, p: seq<RouteId>) {
    && |p| > 0 && here in net.routesOf && p[0] in net.routesOf[here]
    && (forall i :: 0 < i < |p| ==> Linked(net, p[i - 1], p[i]))
    && NoRepeats(p)
    && p[|p| - 1] in net.stopsOf && there in net.stopsOf[p[|p| - 1]]
  }

  /** Every entry of `trips` is non-empty and comes from one of the candidates. */
  lemma {:induction false} AttemptsSound(net: Network, candidates: seq<RouteId>, dest: StopId, path: seq<RouteId>, t: seq<RouteId>)
    requires Closed(net)
    requires forall c :: c in candidates ==> c in net.stopsOf && c !in path
    requires t in Attempts(net, candidates, dest, path)
    ensures t != [] && exists c :: c in candidates && t == CreateTrip(net, c, dest, path)
    decreases |candidates|
  {
    var head := CreateTrip(net, candidates[0], dest, path);
    if t != head || head == [] {
      AttemptsSound(net, candidates[1..], dest, path, t);
      var c :| c in candidates[1..] && t == CreateTrip(net, c, dest, path);
      assert c in candidates;
    }
  }

  /** Every candidate that succeeds has its result in `trips`. */
  lemma {:induction false} AttemptsComplete(net: Network, candidates: seq<RouteId>, dest: StopId, path: seq<RouteId>, c: RouteId)
    requires Closed(net)
    requires forall c :: c in candidates ==> c in net.stopsOf && c !in path
    requires c in candidates && CreateTrip(net, c, dest, path) != []
    ensures CreateTrip(net, c, dest, path) in Attempts(net, candidates, dest, path)
    decreases |candidates|
  {
    if c != candidates[0] {
      AttemptsComplete(net, candidates[1..], dest, path, c);
    }
  }

  /** A non-empty `__create_trip` result is the path so far plus `looking`, continued to the destination. */
  lemma {:induction false} CreateTripSound(net: Network, looking: RouteId, dest: StopId, visited: seq<RouteId>)
    requires Closed(net) && looking in net.stopsOf
    ensures CreateTrip(net, looking, dest, visited) != [] ==> Extends(net, visited + [looking], dest, CreateTrip(net, looking, dest, visited))
    decreases |Unused(net, visited + [looking])|
  {
    var path := visited + [looking];
    var t := CreateTrip(net, looking, dest, visited);
    if dest !in net.stopsOf[looking] && t != [] {
      var ns := Neighbours(net, path, net.stopsOf[looking]);
      AttemptsSound(net, ns, dest, path, t);
      var c :| c in ns && t == CreateTrip(net, c, dest, path);
      UnusedShrinks(net, path, c);
      CreateTripSound(net, c, dest, path);
      var st :| st in net.stopsOf[looking] && st in net.routesOf && c in net.routesOf[st];
      ExtendsBack(net, path, c, dest, t);
    }
  }

  /** A continuation of `path + [c]` is a continuation of `path` when `c` is a new route linked to the last one. */
  lemma ExtendsBack(net: Network, path: seq<RouteId>, c: RouteId, dest: StopId, t: seq<RouteId>)
    requires 0 < |path| && c !in path
    requires Linked(net, path[|path| - 1], c)
    requires Extends(net, path + [c], dest, t)
    ensures Extends(net, path, dest, t)
  {
    assert t[..|path|] == path by {
      assert t[..|path|] == t[..|path| + 1][..|path|];
    }
    forall i | |path| <= i < |t|
      ensures Linked(net, t[i - 1], t[i]) && t[i] !in t[..i]
    {
      if i == |path| {
        assert t[i - 1] == path[|path| - 1] && t[i] == c by {
          assert t[..|path| + 1][i - 1] == path[|path| - 1] && t[..|path| + 1][i] == c;
        }
      }
    }
  }

  /** If some continuation of the path reaches the destination, `__create_trip` succeeds with one no longer. */
  lemma {:induction false} CreateTripComplete(net: Network, looking: RouteId, dest: StopId, visited: seq<RouteId>, p: seq<RouteId>)
    requires Closed(net) && looking in net.stopsOf
    requires Extends(net, visited + [looking], dest, p)
    ensures CreateTrip(net, looking, dest, visited) != []
    ensures |CreateTrip(net, looking, dest, visited)| <= |p|
    decreases |Unused(net, visited + [looking])|
  {
    var path := visited + [looking];
    if dest !in net.stopsOf[looking] {
      assert p[|path| - 1] == looking by {
        assert p[..|path|][|path| - 1] == looking;
      }
      assert |p| > |path|;
      var c := p[|path|];
      assert Linked(net, looking, c);
      assert c !in path by {
        assert p[..|path|] == path;
      }
      var ns := Neighbours(net, path, net.stopsOf[looking]);
      var s :| s in net.stopsOf[looking] && s in net.routesOf && c in net.routesOf[s];
      assert c in ns;
      assert p[..|path| + 1] == path + [c] by {
        assert p[..|path| + 1] == p[..|path|] + [p[|path|]];
      }
      assert Extends(net, path + [c], dest, p);
      UnusedShrinks(net, path, c);
      CreateTripComplete(net, c, dest, path, p);
      AttemptsComplete(net, ns, dest, path, c);
      var ts := Attempts(net, ns, dest, path);
      var best := FirstShortest(ts);
      AttemptsSound(net, ns, dest, path, best);
    }
  }

  /** Each search level keeps the shortest: no successful recursive call returned a shorter path. */
  lemma CreateTripShortestOfExtensions(net: Network, looking: RouteId, dest: StopId, visited: seq<RouteId>, c: RouteId)
    requires Closed(net) && looking in net.stopsOf
    requires dest !in net.stopsOf[looking]
    requires c in Neighbours(net, visited + [looking], net.stopsOf[looking])
    requires CreateTrip(net, c, dest, visited + [looking]) != []
    ensures CreateTrip(net, looking, dest, visited) != []
    ensures |CreateTrip(net, looking, dest, visited)| <= |CreateTrip(net, c, dest, visited + [looking])|
  {
    var path := visited + [looking];
    var ns := Neighbours(net, path, net.stopsOf[looking]);
    AttemptsComplete(net, ns, dest, path, c);
    AttemptsSound(net, ns, dest, path, FirstShortest(Attempts(net, ns, dest, path)));
  }

  /** A returned trip is a trip from `here` to `there`. */
  lemma TripSound(net: Network, here: StopId, there: StopId)
    requires Closed(net) && here in net.routesOf
    ensures Trip(net, Some(here), Some(there)) != [] ==> IsTrip(net, here, there, Trip(net, Some(here), Some(there)))
  {
    var t := Trip(net, Some(here), Some(there));
    if t != [] {
      var origins := net.routesOf[here];
      AttemptsSound(net, origins, there, [], t);
      var c :| c in origins && t == CreateTrip(net, c, there, []);
      CreateTripSound(net, c, there, []);
      assert [] + [c] == [c];
      assert t[0] == c by {
        assert t[..1][0] == c;
      }
      forall i, j | 0 <= i < j < |t|
        ensures t[i] != t[j]
      {
        assert t[i] == t[..j][i];
      }
    }
  }

  /** Any trip from `here` to `there` uses at least as many routes as the one returned, which is therefore not empty. */
  lemma TripComplete(net: Network, here: StopId, there: StopId, p: seq<RouteId>)
    requires Closed(net) && here in net.routesOf
    requires IsTrip(net, here, there, p)
    ensures Trip(net, Some(here), Some(there)) != []
    ensures |Trip(net, Some(here), Some(there))| <= |p|
  {
    var origins := net.routesOf[here];
    var c := p[0];
    assert [] + [c] == [c];
    assert p[..1] == [c];
    assert Extends(net, [] + [c], there, p);
    CreateTripComplete(net, c, there, [], p);
    AttemptsComplete(net, origins, there, [], c);
    var best := Trip(net, Some(here), Some(there));
    AttemptsSound(net, origins, there, [], best);
  }

  /** `trip` returns `[]` exactly when there is no trip between the two stops. */
  lemma TripEmptyIffUnreachable(net: Network, here: StopId, there: StopId)
    requires Closed(net) && here in net.routesOf
    ensures Trip(net, Some(here), Some(there)) == [] <==> !exists p :: IsTrip(net, here, there, p)
  {
    var t := Trip(net, Some(here), Some(there));
    if t != [] {
      TripSound(net, here, there);
    }
    if p :| IsTrip(net, here, there, p) {
      TripComplete(net, here, there, p);
    }
  }

  /**
   * `trip` keeps the shortest per origin route: it is no longer than any
   * successful `__create_trip` from a route of `here`, and it is `[]` exactly
   * when every one of them is.
   */
  lemma TripShortestOfOrigins(net: Network, here: StopId, there: StopId)
    requires Closed(net) && here in net.routesOf
    ensures Trip(net, Some(here), Some(there)) == [] <==>
              forall c :: c in net.routesOf[here] ==> CreateTrip(net, c, there, []) == []
    ensures forall c :: c in net.routesOf[here] && CreateTrip(net, c, there, []) != [] ==>
              |Trip(net, Some(here), Some(there))| <= |CreateTrip(net, c, there, [])|
  {
    var origins := net.routesOf[here];
    var t := Trip(net, Some(here), Some(there));
    forall c | c in origins && CreateTrip(net, c, there, []) != []
      ensures t != [] && |t| <= |CreateTrip(net, c, there, [])|
    {
      AttemptsComplete(net, origins, there, [], c);
      AttemptsSound(net, origins, there, [], t);
    }
    if t != [] {
      AttemptsSound(net, origins, there, [], t);
    }
  }

  /** A destination on a route of the origin is reached with that single route. */
  lemma TripDirect(net: Network, here: StopId, there: StopId, c: RouteId)
    requires Closed(net) && here in net.routesOf
    requires c in net.routesOf[here] && c in net.stopsOf && there in net.stopsOf[c]
    ensures |Trip(net, Some(here), Some(there))| == 1
    ensures Trip(net, Some(here), Some(there))[0] in net.routesOf[here]
    ensures there in net.stopsOf[Trip(net, Some(here), Some(there))[0]]
  {
    assert IsTrip(net, here, there, [c]);
    TripComplete(net, here, there, [c]);
    TripSound(net, here, there);
  }

  /** Only stops can be connected: any other argument gives `[]`. */
  lemma TripNeedsStops(net: Network, here: Option<StopId>, there: Option<StopId>)
    requires Closed(net)
    requires here.Some? ==> here.value in net.routesOf
    requires here.None? || there.None?
    ensures Trip(net, here, there) == []
  {
  }

  /** `s in r.stops` exactly when `r in s.routes`: the network of a well-formed graph. */
  ghost predicate Symmetric(net: Network) {
    forall r, s :: r in net.stopsOf && s in net.routesOf ==> (s in net.stopsOf[r] <==> r in net.routesOf[s])
  }

  /** Under symmetric membership, consecutive routes of a trip share a stop. */
  lemma LinkedSharesStop(net: Network, a: RouteId, b: RouteId)
    requires Closed(net) && Symmetric(net)
    requires a in net.stopsOf && b in net.stopsOf
    ensures Linked(net, a, b) <==> exists s :: s in net.stopsOf[a] && s in net.stopsOf[b]
  {
    if s :| s in net.stopsOf[a] && s in net.stopsOf[b] {
      assert s in net.routesOf && b in net.routesOf[s];
    }
  }

  /** A trip from a stop to itself is one route of that stop. */
  lemma TripToSelf(net: Network, here: StopId)
    requires Closed(net) && Symmetric(net)
    requires here in net.routesOf && net.routesOf[here] != []
    ensures |Trip(net, Some(here), Some(here))| == 1
    ensures Trip(net, Some(here), Some(here))[0] in net.routesOf[here]
  {
    var c := net.routesOf[here][0];
    TripDirect(net, here, here, c);
  }

  /**
   * `net` walks the membership sets of `g`: the same entities, and each
   * sequence holds exactly the members of the corresponding set.
   */
  ghost predicate Enumerates(net: Network, g: Graph) {
    && net.stopsOf.Keys == g.routeStops.Keys
    && net.routesOf.Keys == g.stopRoutes.Keys
    && (forall r, s :: r in net.stopsOf ==> (s in net.stopsOf[r] <==> s in g.routeStops[r]))
    && (forall s, r :: s in net.routesOf ==> (r in net.routesOf[s] <==> r in g.stopRoutes[s]))
  }

  /** Every walk of a well-formed graph is a closed, symmetric network. */
  lemma EnumeratedGraphIsSymmetric(net: Network, g: Graph)
    requires Bidirectional(g) && Enumerates(net, g)
    ensures Closed(net) && Symmetric(net)
  {
  }
}

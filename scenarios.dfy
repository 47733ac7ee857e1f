/**
 * The situations exercised by test_route_service.py, stated over the model:
 * the trip between Ashmont and Arlington on the Red, Green-B and Mattapan
 * fixtures, its absence when only Mattapan is loaded, and the failures of
 * the route and stop requests.
 */
module Scenarios {
  import opened Wrappers
  import opened Entities
  import opened TripSearch
  import opened TripTheorems
  import opened Population
  import opened PopulationErrors
  import opened Queries
  import opened Service

  /** The stop ids of the Red line fixture. */
  const RedStops: set<StopId> := {
    "place-alfcl", "place-davis", "place-portr", "place-harsq", "place-cntsq", "place-knncl",
    "place-chmnl", "place-pktrm", "place-dwnxg", "place-sstat", "place-brdwy", "place-andrw",
    "place-jfk", "place-shmnl", "place-fldcr", "place-smmnl", "place-asmnl", "place-nqncy",
    "place-wlsta", "place-qnctr", "place-qamnl", "place-brntn"}

  /** The stop ids of the Green Line B fixture. */
  const GreenBStops: set<StopId> := {
    "place-gover", "place-pktrm", "place-boyls", "place-armnl", "place-coecl", "place-hymnl",
    "place-kencl", "place-bland", "place-buest", "place-bucen", "place-amory", "place-babck",
    "place-brico", "place-harvd", "place-grigg", "place-alsgr", "place-wrnst", "place-wascm",
    "place-sthld", "place-chswk", "place-chill", "place-sougr", "place-lake"}

  /** The stop ids of the Mattapan Trolley fixture. */
  const MattapanStops: set<StopId> := {
    "place-asmnl", "place-cedgr", "place-butlr", "place-miltt", "place-cenav", "place-valrd",
    "place-capst", "place-matt"}

  /** Route `r` of `net` lists exactly the stops `stops`. */
  ghost predicate Lists(net: Network, r: RouteId, stops: set<StopId>) {
    r in net.stopsOf && forall s :: s in net.stopsOf[r] <==> s in stops
  }

  /** Any walk of the graph the three fixtures build (test_trip_exists). */
  ghost predicate ThreeLines(net: Network) {
    && Closed(net) && Symmetric(net)
    && net.stopsOf.Keys == {"Red", "Green-B", "Mattapan"}
    && Lists(net, "Red", RedStops) && Lists(net, "Green-B", GreenBStops) && Lists(net, "Mattapan", MattapanStops)
  }

  /** Any walk of the graph the Mattapan fixture alone builds (test_trip_not_exists). */
  ghost predicate MattapanOnly(net: Network) {
    && Closed(net) && Symmetric(net)
    && net.stopsOf.Keys == {"Mattapan"}
    && Lists(net, "Mattapan", MattapanStops)
  }

  /** The memberships of the fixtures the two trip scenarios turn on. */
  lemma FixtureFacts()
    ensures "place-asmnl" in RedStops && "place-asmnl" in MattapanStops && "place-asmnl" !in GreenBStops
    ensures "place-armnl" in GreenBStops && "place-armnl" !in RedStops && "place-armnl" !in MattapanStops
    ensures "place-pktrm" in RedStops && "place-pktrm" in GreenBStops
    ensures MattapanStops * GreenBStops == {}
  {
  }

  /** Mattapan shares no stop with Green-B, so no trip steps from one to the other. */
  lemma MattapanNotLinkedToGreenB(net: Network)
    requires ThreeLines(net)
    ensures !Linked(net, "Mattapan", "Green-B")
  {
    FixtureFacts();
    forall s | s in net.stopsOf["Mattapan"] && s in net.routesOf
      ensures "Green-B" !in net.routesOf[s]
    {
      assert s in MattapanStops;
      assert s !in GreenBStops;
    }
  }

  /**
   * From Ashmont to Arlington the trip is Red then Green-B, whatever order
   * the sets are walked in: no single route serves both, and Red is the only
   * route of Ashmont that shares a stop (Park Street) with Green-B.
   */
  lemma AshmontToArlington(net: Network)
    requires ThreeLines(net) && "place-asmnl" in net.routesOf
    ensures Trip(net, Some("place-asmnl"), Some("place-armnl")) == ["Red", "Green-B"]
  {
    FixtureFacts();
    var here, there := "place-asmnl", "place-armnl";
    var p: seq<RouteId> := ["Red", "Green-B"];
    assert "place-pktrm" in net.stopsOf["Red"] && "Green-B" in net.routesOf["place-pktrm"];
    assert IsTrip(net, here, there, p);
    TripComplete(net, here, there, p);
    TripSound(net, here, there);
    var t := Trip(net, Some(here), Some(there));
    var first, last := t[0], t[|t| - 1];
    assert here in net.stopsOf[first];
    assert there in net.stopsOf[last];
    assert last == "Green-B";
    assert first != "Green-B";
    assert |t| == 2;
    MattapanNotLinkedToGreenB(net);
    assert Linked(net, first, last);
  }

  /** With only the Mattapan line loaded, Ashmont and Arlington are not connected. */
  lemma MattapanDoesNotReachArlington(net: Network)
    requires MattapanOnly(net) && "place-asmnl" in net.routesOf
    ensures Trip(net, Some("place-asmnl"), Some("place-armnl")) == []
    ensures Trip(net, Some("place-asmnl"), None) == []
  {
    FixtureFacts();
    assert forall r :: r in net.stopsOf ==> "place-armnl" !in net.stopsOf[r];
    TripEmptyIffUnreachable(net, "place-asmnl", "place-armnl");
  }

  /** The Mattapan Trolley route record. */
  const Mattapan := Record(Some("Mattapan"), Some("Mattapan Trolley"))

  /**
   * A failing route request (test_routes_status_* and
   * test_routes_malformed_json): the first lookup raises the matching
   * exception and nothing is indexed.
   */
  method RouteRequestFailure(answer: Fetch) returns (res: Result<Option<RouteId>, ServiceError>, routes: set<RouteId>)
    requires !answer.Records?
    ensures res == Failure(if answer.HttpFailure? then HttpError else JsonError)
    ensures routes == {}
  {
    var service := new MBTARouteService(Source(answer, _ => Records([])));
    res := service.Route(Text("X"));
    var all := service.Routes();
    routes := all.value;
  }

  /** The API of the stop tests: one route, Mattapan, whose stop request answers `answer`. */
  function MattapanSource(answer: Fetch): Source {
    Source(Records([Mattapan]), _ => answer)
  }

  /**
   * After the stop request of Mattapan fails, the route dictionary holds the
   * route under "Mattapan" and "mattapan trolley" only. The display name
   * finds it with either lookup; the id finds it only with the corrected
   * lookup, because the lookup as written folds "Mattapan" to "mattapan".
   */
  lemma PartialIndexLookups(answer: Fetch)
    requires !answer.Records?
    ensures Lookup(Build(MattapanSource(answer)).graph.routeIndex, Text("Mattapan Trolley")) == Some("Mattapan")
    ensures LookupIdOrName(Build(MattapanSource(answer)).graph.routeIndex, Text("Mattapan Trolley")) == Some("Mattapan")
    ensures Lookup(Build(MattapanSource(answer)).graph.routeIndex, Text("Mattapan")) == None
    ensures LookupIdOrName(Build(MattapanSource(answer)).graph.routeIndex, Text("Mattapan")) == Some("Mattapan")
  {
    StopStageFailure(MattapanSource(answer), Mattapan);
    var name := Fold("Mattapan Trolley");
    assert |name| == 16 && name[0] == 'm';
    var id := Fold("Mattapan");
    assert |id| == 8 && id[0] == 'm';
    assert "Mattapan Trolley"[0] == 'M';
  }

  /**
   * A failing stop request for the only route (test_stops_status_* and
   * test_stops_malformed_json): the first lookup raises, and because the
   * dictionaries stay installed the next lookup finds the route entered
   * before the failure instead of fetching again.
   */
  method StopRequestFailure(answer: Fetch) returns (first: Result<Option<RouteId>, ServiceError>, second: Result<Option<RouteId>, ServiceError>)
    requires !answer.Records?
    ensures first == Failure(if answer.HttpFailure? then HttpError else JsonError)
    ensures second == Success(Some("Mattapan"))
  {
    var src := MattapanSource(answer);
    StopStageFailure(src, Mattapan);
    PartialIndexLookups(answer);
    var service := new MBTARouteService(src);
    first := service.Route(Text("X"));
    second := service.Route(Text("Mattapan Trolley"));
  }
}

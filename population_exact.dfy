/**
 * What a successful population builds (route_service.py:316-342), provided no
 * display name, once folded, coincides with the id of a different entity of
 * the same kind (the two kinds of key share one dictionary, so such a name
 * would shadow that id). Then `routes` holds one route per distinct route id,
 * `stops` one stop per distinct stop id however many routes list it, and each
 * route's `stops` are exactly the ids its stop request returned.
 */
module PopulationExact {
  import opened Entities
  import opened Population

  /** The ids carried by a set of records. */
  function IdsOf(recs: set<Record>): set<Key> {
    set a | a in recs && a.id.Some? :: a.id.value
  }

  /** The records of a sequence, as a set. */
  function RecordSet(recs: seq<Record>): set<Record> {
    set a | a in recs
  }

  /** No record's folded display name is the id of a record with another id. */
  ghost predicate NoNameShadowsId(all: set<Record>) {
    forall a, b :: a in all && b in all && a.name.Some? && b.id.Some? && Fold(a.name.value) == b.id.value ==> a.id == b.id
  }

  /**
   * An index after the records `seen` were entered: each id maps to itself,
   * every key is an id or a folded name of a seen record, and every value is
   * a seen id.
   */
  ghost predicate IndexExact(index: map<Key, Key>, seen: set<Record>) {
    && (forall a :: a in seen ==> a.id.Some? && a.id.value in index && index[a.id.value] == a.id.value)
    && (forall k :: k in index ==> k in IdsOf(seen) || exists a :: a in seen && a.name.Some? && Fold(a.name.value) == k)
    && (forall k :: k in index ==> index[k] in IdsOf(seen))
  }

  /** The values of an exact index are the distinct ids seen. */
  lemma IndexExactValues(index: map<Key, Key>, seen: set<Record>)
    requires IndexExact(index, seen)
    ensures index.Values == IdsOf(seen)
  {
    forall k | k in IdsOf(seen)
      ensures k in index.Values
    {
      var a :| a in seen && a.id.Some? && a.id.value == k;
      assert index[k] == k;
    }
  }

  /** Entering a complete record under its id and its folded name (lines 327-328, 339-340). */
  lemma EnterExact(index: map<Key, Key>, seen: set<Record>, c: Record, all: set<Record>)
    requires IndexExact(index, seen) && Complete(c)
    requires NoNameShadowsId(all) && seen <= all && c in all
    ensures IndexExact(index[c.id.value := c.id.value][Fold(c.name.value) := c.id.value], seen + {c})
  {
    var index' := index[c.id.value := c.id.value][Fold(c.name.value) := c.id.value];
    assert IdsOf(seen + {c}) == IdsOf(seen) + {c.id.value};
    forall a | a in seen + {c}
      ensures a.id.Some? && a.id.value in index' && index'[a.id.value] == a.id.value
    {
      if a != c && a.id.value == Fold(c.name.value) {
        assert a.id == c.id;
      }
    }
  }

  /** A record whose id is already a key finds the entity with that very id (line 336). */
  lemma FoundExact(index: map<Key, Key>, seen: set<Record>, c: Record, all: set<Record>)
    requires IndexExact(index, seen) && c.id.Some? && c.id.value in index
    requires NoNameShadowsId(all) && seen <= all && c in all
    ensures index[c.id.value] == c.id.value
    ensures IndexExact(index, seen + {c})
  {
    var k := c.id.value;
    var b :| b in seen && b.id.Some? && b.id.value == k;
    assert IdsOf(seen + {c}) == IdsOf(seen);
  }

  /**
   * One stop record that does not raise: the stop index now also covers it,
   * route `r` gains exactly the record's id, and no other route changes.
   */
  lemma AddStopExact(g: Graph, r: RouteId, rec: Record, seen: set<Record>, all: set<Record>)
    requires r in g.routeStops && IndexExact(g.stopIndex, seen)
    requires NoNameShadowsId(all) && seen <= all && rec in all
    requires AddStop(g, r, rec).err.None?
    ensures rec.id.Some?
    ensures IndexExact(AddStop(g, r, rec).graph.stopIndex, seen + {rec})
    ensures AddStop(g, r, rec).graph.routeStops == g.routeStops[r := g.routeStops[r] + {rec.id.value}]
  {
    if rec.id.value in g.stopIndex {
      FoundExact(g.stopIndex, seen, rec, all);
    } else {
      EnterExact(g.stopIndex, seen, rec, all);
    }
  }

  /**
   * The loop over the stop records of route `r`, when it does not raise:
   * route `r` gains exactly the ids of the records, and the stop index covers
   * them.
   */
  lemma {:induction false} AddStopsExact(g: Graph, r: RouteId, recs: seq<Record>, seen: set<Record>, all: set<Record>)
    requires r in g.routeStops && IndexExact(g.stopIndex, seen)
    requires NoNameShadowsId(all) && seen <= all && RecordSet(recs) <= all
    requires AddStops(g, r, recs).err.None?
    ensures IndexExact(AddStops(g, r, recs).graph.stopIndex, seen + RecordSet(recs))
    ensures AddStops(g, r, recs).graph.routeStops == g.routeStops[r := g.routeStops[r] + IdsOf(RecordSet(recs))]
    decreases |recs|
  {
    if recs == [] {
      assert RecordSet(recs) == {};
      assert IdsOf(RecordSet(recs)) == {};
      assert g.routeStops[r] + {} == g.routeStops[r];
      MapUpdateSame(g.routeStops, r);
    } else {
      var rec := recs[0];
      RecordSetCons(recs, seen);
      AddStopExact(g, r, rec, seen, all);
      IdsOfCons(recs);
      var g1 := AddStop(g, r, rec).graph;
      AddStopsExact(g1, r, recs[1..], seen + {rec}, all);
      assert AddStops(g, r, recs).graph == AddStops(g1, r, recs[1..]).graph;
      AddTwice(g.routeStops, g1.routeStops, AddStops(g1, r, recs[1..]).graph.routeStops, r, rec.id.value, IdsOf(RecordSet(recs[1..])));
    }
  }

  lemma IdsOfCons(recs: seq<Record>)
    requires recs != [] && recs[0].id.Some?
    ensures IdsOf(RecordSet(recs)) == {recs[0].id.value} + IdsOf(RecordSet(recs[1..]))
  {
    RecordSetCons(recs, {});
  }

  /** Adding `{x}` to entry `r`, then `ids`, adds `{x} + ids` at once. */
  lemma AddTwice<K, T>(m: map<K, set<T>>, m1: map<K, set<T>>, m2: map<K, set<T>>, r: K, x: T, ids: set<T>)
    requires r in m && m1 == m[r := m[r] + {x}] && m2 == m1[r := m1[r] + ids]
    ensures m2 == m[r := m[r] + ({x} + ids)]
  {
    assert m1[r] + ids == m[r] + ({x} + ids);
  }

  /** Every route's stops are the ids its stop request returned (lines 331-342). */
  ghost predicate StopsAsFetched(g: Graph, stopFetch: Key -> Fetch) {
    forall r :: r in g.routeStops ==> stopFetch(r).Records? && g.routeStops[r] == IdsOf(RecordSet(stopFetch(r).data))
  }

  /** The stop records returned for the routes of `recs`. */
  ghost function StopRecords(recs: seq<Record>, stopFetch: Key -> Fetch): set<Record> {
    set a, rec | rec in recs && rec.id.Some? && stopFetch(rec.id.value).Records? && a in stopFetch(rec.id.value).data :: a
  }

  lemma StopRecordsCons(recs: seq<Record>, stopFetch: Key -> Fetch)
    requires recs != [] && recs[0].id.Some? && stopFetch(recs[0].id.value).Records?
    ensures StopRecords(recs, stopFetch) == RecordSet(stopFetch(recs[0].id.value).data) + StopRecords(recs[1..], stopFetch)
  {
    var head := RecordSet(stopFetch(recs[0].id.value).data);
    forall a | a in StopRecords(recs, stopFetch)
      ensures a in head + StopRecords(recs[1..], stopFetch)
    {
      var rec :| rec in recs && rec.id.Some? && stopFetch(rec.id.value).Records? && a in stopFetch(rec.id.value).data;
      if rec != recs[0] {
        assert rec in recs[1..];
      }
    }
    assert recs[0] in recs;
  }

  /**
   * One route record that does not raise: both indices cover what was
   * entered, and the route's stops are those its request returned, whether
   * the route is new or its id came before.
   */
  lemma AddRouteExact(g: Graph, rec: Record, stopFetch: Key -> Fetch,
                      seenR: set<Record>, allR: set<Record>, seenS: set<Record>, allS: set<Record>)
    requires IndexExact(g.routeIndex, seenR) && IndexExact(g.stopIndex, seenS) && StopsAsFetched(g, stopFetch)
    requires NoNameShadowsId(allR) && seenR <= allR && rec in allR
    requires NoNameShadowsId(allS) && seenS <= allS
    requires rec.id.Some? && stopFetch(rec.id.value).Records? ==> RecordSet(stopFetch(rec.id.value).data) <= allS
    requires AddRoute(g, rec, stopFetch).err.None?
    ensures Complete(rec) && stopFetch(rec.id.value).Records?
    ensures IndexExact(AddRoute(g, rec, stopFetch).graph.routeIndex, seenR + {rec})
    ensures IndexExact(AddRoute(g, rec, stopFetch).graph.stopIndex, seenS + RecordSet(stopFetch(rec.id.value).data))
    ensures StopsAsFetched(AddRoute(g, rec, stopFetch).graph, stopFetch)
  {
    var r := rec.id.value;
    var data := stopFetch(r).data;
    var g1 := WithRoute(g, r, rec.name.value);
    EnterExact(g.routeIndex, seenR, rec, allR);
    AddStopsExact(g1, r, data, seenS, allS);
    var g2 := AddStops(g1, r, data).graph;
    assert g2 == AddRoute(g, rec, stopFetch).graph;
    var ids := IdsOf(RecordSet(data));
    assert g1.routeStops[r] + ids == ids;
    forall r2 | r2 in g2.routeStops
      ensures stopFetch(r2).Records? && g2.routeStops[r2] == IdsOf(RecordSet(stopFetch(r2).data))
    {
      if r2 != r {
        assert r2 in g.routeStops;
      }
    }
  }

  /** The loop over the route records, when it does not raise. */
  lemma {:induction false} AddRoutesExact(g: Graph, recs: seq<Record>, stopFetch: Key -> Fetch,
                                          seenR: set<Record>, allR: set<Record>, seenS: set<Record>, allS: set<Record>)
    requires IndexExact(g.routeIndex, seenR) && IndexExact(g.stopIndex, seenS) && StopsAsFetched(g, stopFetch)
    requires NoNameShadowsId(allR) && seenR <= allR && RecordSet(recs) <= allR
    requires NoNameShadowsId(allS) && seenS <= allS && StopRecords(recs, stopFetch) <= allS
    requires AddRoutes(g, recs, stopFetch).err.None?
    ensures IndexExact(AddRoutes(g, recs, stopFetch).graph.routeIndex, seenR + RecordSet(recs))
    ensures IndexExact(AddRoutes(g, recs, stopFetch).graph.stopIndex, seenS + StopRecords(recs, stopFetch))
    ensures StopsAsFetched(AddRoutes(g, recs, stopFetch).graph, stopFetch)
    decreases |recs|
  {
    if recs == [] {
      assert RecordSet(recs) == {} && StopRecords(recs, stopFetch) == {};
    } else {
      var rec := recs[0];
      assert rec in RecordSet(recs);
      AddRouteExact(g, rec, stopFetch, seenR, allR, seenS, allS);
      var data := stopFetch(rec.id.value).data;
      StopRecordsCons(recs, stopFetch);
      var g1 := AddRoute(g, rec, stopFetch).graph;
      assert AddRoutes(g, recs, stopFetch) == AddRoutes(g1, recs[1..], stopFetch);
      RecordSetCons(recs, seenR);
      AddRoutesExact(g1, recs[1..], stopFetch, seenR + {rec}, allR, seenS + RecordSet(data), allS);
      UnionAssoc(seenS, RecordSet(data), StopRecords(recs[1..], stopFetch));
    }
  }

  /**
   * A population that did not raise, over records whose folded names shadow
   * no other entity's id: `routes` is one route per distinct route id, `stops`
   * one stop per distinct stop id listed for any route, and each route's
   * `stops` are the ids its stop request returned.
   */
  lemma BuildExact(src: Source)
    requires src.routeFetch.Records? && Build(src).err.None?
    requires NoNameShadowsId(RecordSet(src.routeFetch.data))
    requires NoNameShadowsId(StopRecords(src.routeFetch.data, src.stopFetch))
    ensures Build(src).graph.routeIndex.Values == IdsOf(RecordSet(src.routeFetch.data))
    ensures Build(src).graph.stopIndex.Values == IdsOf(StopRecords(src.routeFetch.data, src.stopFetch))
    ensures forall r :: r in Build(src).graph.routeStops ==>
              src.stopFetch(r).Records? && Build(src).graph.routeStops[r] == IdsOf(RecordSet(src.stopFetch(r).data))
  {
    var routes := src.routeFetch.data;
    var stops := StopRecords(routes, src.stopFetch);
    AddRoutesExact(EmptyGraph, routes, src.stopFetch, {}, RecordSet(routes), {}, stops);
    var g := Build(src).graph;
    assert {} + RecordSet(routes) == RecordSet(routes);
    assert {} + stops == stops;
    IndexExactValues(g.routeIndex, RecordSet(routes));
    IndexExactValues(g.stopIndex, stops);
  }

  lemma RecordSetCons(recs: seq<Record>, seen: set<Record>)
    requires recs != []
    ensures RecordSet(recs) == {recs[0]} + RecordSet(recs[1..])
    ensures seen + RecordSet(recs) == seen + {recs[0]} + RecordSet(recs[1..])
  {
    assert RecordSet(recs) == {recs[0]} + RecordSet(recs[1..]);
  }

  lemma UnionAssoc<T>(a: set<T>, b: set<T>, c: set<T>)
    ensures a + (b + c) == a + b + c
  {
  }

  lemma MapUpdateSame<K, V>(m: map<K, V>, k: K)
    requires k in m
    ensures m[k := m[k]] == m
  {
  }
}

/**
 * Which exception population raises (route_service.py:343-351). A status that
 * `raise_for_status` rejects (lines 323 and 332), at the route request or at
 * any stop request, becomes `RouteServiceHttpException`; a missing field, in
 * the route response, a route record, a stop response or a stop record,
 * becomes `RouteServiceJsonException`. Among the answers `Source` can express,
 * nothing else raises; what the session raises by itself is not modelled.
 */
module PopulationErrors {
  import opened Wrappers
  import opened Entities
  import opened Population

  /** A stop response that holds records whose constructors all succeed. */
  predicate CleanStops(f: Fetch) {
    f.Records? && forall a :: a in f.data ==> Complete(a)
  }

  /** Every answer of the API is well formed. */
  ghost predicate Clean(src: Source) {
    && src.routeFetch.Records?
    && forall rec :: rec in src.routeFetch.data ==> Complete(rec) && CleanStops(src.stopFetch(rec.id.value))
  }

  /**
   * A malformed stop record whose id is not yet indexed is the only way the
   * stop loop can fail, and it fails as a JSON error.
   */
  lemma {:induction false} AddStopsOutcome(g: Graph, r: RouteId, recs: seq<Record>)
    requires r in g.routeStops
    ensures AddStops(g, r, recs).err.Some? ==>
              && AddStops(g, r, recs).err == Some(JsonError)
              && exists a :: a in recs && !Complete(a) && (a.id.None? || a.id.value !in g.stopIndex)
    ensures (forall a :: a in recs ==> Complete(a)) ==> AddStops(g, r, recs).err.None?
    decreases |recs|
  {
    if recs != [] {
      var st := AddStop(g, r, recs[0]);
      if st.err.None? {
        AddStopsOutcome(st.graph, r, recs[1..]);
        if AddStops(g, r, recs).err.Some? {
          var a :| a in recs[1..] && !Complete(a) && (a.id.None? || a.id.value !in st.graph.stopIndex);
          assert a in recs;
        }
      }
    }
  }

  /** The stop answer of a complete route record is the cause of a JSON error. */
  ghost predicate BadStops(f: Fetch) {
    f.DataMissing? || (f.Records? && exists a :: a in f.data && !Complete(a))
  }

  /** The error of the route loop, traced back to the answer that caused it. */
  lemma {:induction false} AddRoutesOutcome(g: Graph, recs: seq<Record>, stopFetch: Key -> Fetch)
    ensures AddRoutes(g, recs, stopFetch).err == Some(HttpError) ==>
              exists rec :: rec in recs && Complete(rec) && stopFetch(rec.id.value).HttpFailure?
    ensures AddRoutes(g, recs, stopFetch).err == Some(JsonError) ==>
              exists rec :: rec in recs && (!Complete(rec) || BadStops(stopFetch(rec.id.value)))
    ensures AddRoutes(g, recs, stopFetch).err.None? ==>
              forall rec :: rec in recs ==> Complete(rec) && stopFetch(rec.id.value).Records?
    ensures (forall rec :: rec in recs ==> Complete(rec) && CleanStops(stopFetch(rec.id.value))) ==>
              AddRoutes(g, recs, stopFetch).err.None?
    decreases |recs|
  {
    if recs != [] {
      var rec := recs[0];
      var st := AddRoute(g, rec, stopFetch);
      if Complete(rec) && stopFetch(rec.id.value).Records? {
        AddStopsOutcome(WithRoute(g, rec.id.value, rec.name.value), rec.id.value, stopFetch(rec.id.value).data);
        if st.err == Some(JsonError) {
          assert BadStops(stopFetch(rec.id.value));
        }
      }
      if st.err.None? {
        AddRoutesOutcome(st.graph, recs[1..], stopFetch);
        var err := AddRoutes(g, recs, stopFetch).err;
        if err == Some(HttpError) {
          var r :| r in recs[1..] && Complete(r) && stopFetch(r.id.value).HttpFailure?;
          assert r in recs;
        } else if err == Some(JsonError) {
          var r :| r in recs[1..] && (!Complete(r) || BadStops(stopFetch(r.id.value)));
          assert r in recs;
        }
      }
    }
  }

  /**
   * A clean source never raises; a failed route request raises its own kind
   * of exception with both dictionaries still empty; a population that did
   * not raise saw only record lists and complete route records; each
   * exception is traced to an answer of the matching kind.
   */
  lemma BuildOutcome(src: Source)
    ensures Clean(src) ==> Build(src).err.None?
    ensures !src.routeFetch.Records? ==>
              Build(src) == Step(EmptyGraph, Some(if src.routeFetch.HttpFailure? then HttpError else JsonError))
    ensures Build(src).err.None? ==>
              src.routeFetch.Records? &&
              forall rec :: rec in src.routeFetch.data ==> Complete(rec) && src.stopFetch(rec.id.value).Records?
    ensures Build(src).err == Some(HttpError) ==>
              src.routeFetch.HttpFailure? ||
              (src.routeFetch.Records? &&
               exists rec :: rec in src.routeFetch.data && Complete(rec) && src.stopFetch(rec.id.value).HttpFailure?)
    ensures Build(src).err == Some(JsonError) ==>
              src.routeFetch.DataMissing? ||
              (src.routeFetch.Records? &&
               exists rec :: rec in src.routeFetch.data && (!Complete(rec) || BadStops(src.stopFetch(rec.id.value))))
  {
    if src.routeFetch.Records? {
      AddRoutesOutcome(EmptyGraph, src.routeFetch.data, src.stopFetch);
    }
  }

  /**
   * The failure of the first route's stop request surfaces with its own kind,
   * and the route it was made for is already indexed: the dictionaries are
   * filled in place before the request (lines 318-330).
   */
  lemma StopStageFailure(src: Source, rec: Record)
    requires src.routeFetch.Records? && |src.routeFetch.data| > 0 && src.routeFetch.data[0] == rec
    requires Complete(rec) && !src.stopFetch(rec.id.value).Records?
    ensures Build(src).err == Some(if src.stopFetch(rec.id.value).HttpFailure? then HttpError else JsonError)
    ensures Build(src).graph.routeIndex == map[rec.id.value := rec.id.value][Fold(rec.name.value) := rec.id.value]
    ensures Build(src).graph.routeStops == map[rec.id.value := {}]
    ensures Build(src).graph.stopIndex == map[] && Build(src).graph.stopRoutes == map[]
  {
  }
}

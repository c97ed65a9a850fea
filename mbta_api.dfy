/** The stop cache of mbta-api.ts: a module-level list that starts out null,
    is filled with the light-rail stops followed by the heavy-rail stops, and
    once filled, even with an empty list, is returned without further requests.
    The HTTP request for one route type is a function parameter standing for
    the answer the API would give. */
module MbtaApi {
  import opened Types
  import opened Records

  /** The two route types the stop list is built from
      (route_type 0: tram, streetcar, light rail; 1: subway, metro). */
  datatype RouteType = LightRail | HeavyRail

  /** fetchStops: the stops of one route type, converted record by record. */
  function FetchStops(routeType: RouteType, upstream: RouteType -> Result<seq<StopRecord>>): (r: Result<seq<Stop>>)
    ensures upstream(routeType).Err? ==> r == Err(upstream(routeType).error)
    ensures upstream(routeType).Ok? ==>
              (r.Ok? <==> forall i :: 0 <= i < |upstream(routeType).value| ==> upstream(routeType).value[i].parentStationRef.Some?)
    ensures r.Ok? ==> upstream(routeType).Ok? && |r.value| == |upstream(routeType).value|
    ensures r.Ok? ==> forall i :: 0 <= i < |r.value| ==>
              && r.value[i].id == upstream(routeType).value[i].id
              && r.value[i].attributes == upstream(routeType).value[i].attributes
              && r.value[i].parentStation == upstream(routeType).value[i].parentStationRef.value
  {
    match upstream(routeType)
    case Err(e) => Err(e)
    case Ok(records) => RecordsToStops(records)
  }

  /** The join of the two requests: both must succeed; the result lists the
      light-rail stops, in their order, followed by the heavy-rail stops, in
      theirs. */
  function AllRailStops(upstream: RouteType -> Result<seq<StopRecord>>): (r: Result<seq<Stop>>)
    ensures r.Ok? <==> FetchStops(LightRail, upstream).Ok? && FetchStops(HeavyRail, upstream).Ok?
    ensures r.Ok? ==>
              var light, heavy := FetchStops(LightRail, upstream).value, FetchStops(HeavyRail, upstream).value;
              && |r.value| == |light| + |heavy|
              && r.value[..|light|] == light
              && r.value[|light|..] == heavy
    ensures r.Err? ==>
              r.error == if FetchStops(LightRail, upstream).Err? then FetchStops(LightRail, upstream).error
                         else FetchStops(HeavyRail, upstream).error
  {
    var light := FetchStops(LightRail, upstream);
    var heavy := FetchStops(HeavyRail, upstream);
    if light.Err? then Err(light.error)
    else if heavy.Err? then Err(heavy.error)
    else Ok(light.value + heavy.value)
  }

  /** The module-level `stopsCache` of mbta-api.ts; `None` is null.
      `fetchCount` counts the requests sent upstream. */
  class StopsCache {
    var stopsCache: Option<seq<Stop>>
    ghost var fetchCount: nat

    constructor ()
      ensures stopsCache == None && fetchCount == 0
    {
      stopsCache := None;
      fetchCount := 0;
    }

    /** fetchAndCacheAllStops: both requests are sent; when both succeed the
        cache holds their concatenation, otherwise it is left as it was. */
    method FetchAndCacheAllStops(upstream: RouteType -> Result<seq<StopRecord>>) returns (r: Result<seq<Stop>>)
      modifies this
      ensures fetchCount == old(fetchCount) + 2
      ensures r == AllRailStops(upstream)
      ensures stopsCache == if r.Ok? then Some(r.value) else old(stopsCache)
    {
      fetchCount := fetchCount + 2;
      var lightStops := FetchStops(LightRail, upstream);
      var heavyStops := FetchStops(HeavyRail, upstream);
      if lightStops.Err? {
        return Err(lightStops.error);
      }
      if heavyStops.Err? {
        return Err(heavyStops.error);
      }
      stopsCache := Some(lightStops.value + heavyStops.value);
      r := Ok(stopsCache.value);
    }

    /** fetchAllStops: any non-null cache, the empty list included, is
        returned without a request; a null one is filled. */
    method FetchAllStops(upstream: RouteType -> Result<seq<StopRecord>>) returns (r: Result<seq<Stop>>)
      modifies this
      ensures old(stopsCache).Some? ==>
                r == Ok(old(stopsCache).value) && stopsCache == old(stopsCache) && fetchCount == old(fetchCount)
      ensures old(stopsCache).None? ==>
                && r == AllRailStops(upstream)
                && fetchCount == old(fetchCount) + 2
                && stopsCache == if r.Ok? then Some(r.value) else None
      ensures r.Ok? ==> stopsCache == Some(r.value)
    {
      if stopsCache.Some? {
        return Ok(stopsCache.value);
      }
      r := FetchAndCacheAllStops(upstream);
    }
  }

  /** Two calls in a row: once the first has succeeded, the second returns the
      same list and sends no request, even when that list is empty. */
  method FetchAllStopsTwice(
    cache: StopsCache,
    first: RouteType -> Result<seq<StopRecord>>,
    second: RouteType -> Result<seq<StopRecord>>)
    returns (r1: Result<seq<Stop>>, r2: Result<seq<Stop>>)
    modifies cache
    ensures r1.Ok? ==> r2 == r1 && cache.stopsCache == Some(r1.value)
    ensures r1.Ok? ==> cache.fetchCount <= old(cache.fetchCount) + 2
    ensures old(cache.stopsCache).Some? ==> cache.fetchCount == old(cache.fetchCount)
  {
    r1 := cache.FetchAllStops(first);
    r2 := cache.FetchAllStops(second);
  }
}

/** Records as the upstream transit API returns them, and the mapping from a
    stop record to a Stop that both fetchStops (mbta-api.ts) and
    fetchStopsByIds (data.ts) perform. */
module Records {
  import opened Types

  /** A stop record: the parent station is a relationship whose `data` may be
      null, in which case reading its `id` throws. */
  datatype StopRecord = StopRecord(id: string, attributes: Attributes, parentStationRef: Option<string>)

  /** A route-pattern record: the ids of its representative trip and of its route. */
  datatype PatternRecord = PatternRecord(representativeTripRef: string, routeRef: string)

  /** Maps stop records one to one, in order, keeping `id` and the attribute
      object verbatim and flattening the parent-station relationship; the
      first record without that relationship aborts the whole mapping. */
  function RecordsToStops(records: seq<StopRecord>): (r: Result<seq<Stop>>)
    ensures r.Ok? <==> forall i :: 0 <= i < |records| ==> records[i].parentStationRef.Some?
    ensures r.Err? ==> r.error == MalformedUpstreamData
    ensures r.Ok? ==> |r.value| == |records|
    ensures r.Ok? ==> forall i :: 0 <= i < |records| ==>
      r.value[i] == Stop(records[i].id, records[i].attributes, records[i].parentStationRef.value, None, None)
  {
    if records == [] then Ok([])
    else
      match records[0].parentStationRef
      case None => Err(MalformedUpstreamData)
      case Some(parent) =>
        match RecordsToStops(records[1..])
        case Err(e) => Err(e)
        case Ok(rest) => Ok([Stop(records[0].id, records[0].attributes, parent, None, None)] + rest)
  }
}

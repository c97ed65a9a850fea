/** The data shapes shared by the adjacency pipeline and the stop caches:
    the Stop and Attributes records, route patterns, and the per-line result. */
module Types {

  datatype Option<+T> = None | Some(value: T)

  /** The failures the core surfaces to its caller. */
  datatype Error =
    | UpstreamUnavailable    // an upstream query failed (network error, non-2xx)
    | MalformedUpstreamData  // a record lacks a relationship the core dereferences

  datatype Result<+T> = Ok(value: T) | Err(error: Error)

  /** Latitude and longitude are floating-point numbers that are only ever
      copied, never computed with; `real` stands in for them. */
  type Coordinate = real

  /** The five attributes a Stop is declared with, plus `extra`: every further
      key the upstream attribute object happens to carry (the API sends more
      than the five, and an object copied verbatim keeps them). */
  datatype Attributes = Attributes(
    name: string,
    description: string,
    line: string,
    latitude: Coordinate,
    longitude: Coordinate,
    extra: map<string, string>)

  /** A stop (platform or station). `allLines` and `neighbors` are the two
      optional fields of the record; `None` is an absent field. */
  datatype Stop = Stop(
    id: string,
    attributes: Attributes,
    parentStation: string,
    allLines: Option<seq<string>>,
    neighbors: Option<seq<string>>)

  /** A route pattern reduced to its representative trip and its route name. */
  datatype RoutePattern = RoutePattern(representativeTrip: string, routeName: string)

  /** One entry of the adjacency answer: a line and the stops next to the
      target on it. */
  datatype AdjacentStopsOnLine = AdjacentStopsOnLine(line: string, adjacentStops: seq<Stop>)
}

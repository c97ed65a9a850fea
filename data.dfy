/** The adjacency pipeline of data.ts: the canonical route-pattern filter,
    de-duplication by route name with JavaScript `Map` semantics, the search
    for the target's station in a trip, neighbour extraction, the per-line
    assembly loop, and the module-level stop cache of that file.
    Every upstream query is a function parameter standing for the answer the
    API would give. */
module Data {
  import opened Types
  import opened Records

  // ---------------------------------------------------------------------------
  // Canonical filter
  // ---------------------------------------------------------------------------

  /** The marker the upstream API embeds in the id of the representative trip
      of a line's full-coverage route pattern. */
  const CanonicalMarker: string := "canonical"

  /** `sub` occurs in `s` starting at offset `i`. */
  predicate OccursAt(s: string, sub: string, i: nat)
  {
    i + |sub| <= |s| && s[i..i + |sub|] == sub
  }

  /** String.prototype.includes. */
  function Includes(s: string, sub: string): (r: bool)
    ensures r <==> exists i: nat :: OccursAt(s, sub, i)
    decreases |s|
  {
    if |sub| > |s| then false
    else if s[..|sub|] == sub then
      assert OccursAt(s, sub, 0);
      true
    else
      var r := Includes(s[1..], sub);
      assert r ==> exists i: nat :: OccursAt(s, sub, i) by {
        if r {
          var i: nat :| OccursAt(s[1..], sub, i);
          assert s[1..][i..i + |sub|] == s[i + 1..i + 1 + |sub|];
          assert OccursAt(s, sub, i + 1);
        }
      }
      assert (exists i: nat :: OccursAt(s, sub, i)) ==> r by {
        if exists i: nat :: OccursAt(s, sub, i) {
          var i: nat :| OccursAt(s, sub, i);
          assert i != 0;
          assert s[1..][i - 1..i - 1 + |sub|] == s[i..i + |sub|];
          assert OccursAt(s[1..], sub, i - 1);
        }
      }
      r
  }

  /** The test the filter applies to a raw route-pattern record. */
  predicate IsCanonical(pattern: PatternRecord)
  {
    Includes(pattern.representativeTripRef, CanonicalMarker)
  }

  /** The projection of a kept record: trip id and route id. */
  function ToRoutePattern(pattern: PatternRecord): (r: RoutePattern)
  {
    RoutePattern(pattern.representativeTripRef, pattern.routeRef)
  }

  /** The filter/map chain of fetchCanonicalRoutePatterns. */
  function CanonicalRoutePatterns(records: seq<PatternRecord>): (r: seq<RoutePattern>)
    ensures |r| <= |records|
    ensures forall k :: 0 <= k < |r| ==> Includes(r[k].representativeTrip, CanonicalMarker)
  {
    if records == [] then []
    else (if IsCanonical(records[0]) then [ToRoutePattern(records[0])] else [])
         + CanonicalRoutePatterns(records[1..])
  }

  /** The filter works record by record: filtering a concatenation is
      concatenating the filtered parts, so the input order is kept. */
  lemma {:induction false} CanonicalRoutePatternsAppend(a: seq<PatternRecord>, b: seq<PatternRecord>)
    ensures CanonicalRoutePatterns(a + b) == CanonicalRoutePatterns(a) + CanonicalRoutePatterns(b)
  {
    if a == [] {
      assert a + b == b;
    } else {
      assert (a + b)[1..] == a[1..] + b;
      CanonicalRoutePatternsAppend(a[1..], b);
    }
  }

  /** A single record is kept, projected, exactly when it is canonical. */
  lemma CanonicalRoutePatternsSingle(x: PatternRecord)
    ensures CanonicalRoutePatterns([x]) == if IsCanonical(x) then [ToRoutePattern(x)] else []
  {
    assert [x][1..] == [];
  }

  /** The output holds exactly the projections of the canonical input records. */
  lemma {:induction false} CanonicalRoutePatternsMembers(records: seq<PatternRecord>, p: RoutePattern)
    ensures p in CanonicalRoutePatterns(records) <==>
            exists i :: 0 <= i < |records| && IsCanonical(records[i]) && p == ToRoutePattern(records[i])
  {
    if records != [] {
      CanonicalRoutePatternsMembers(records[1..], p);
      if exists i :: 0 <= i < |records[1..]| && IsCanonical(records[1..][i]) && p == ToRoutePattern(records[1..][i]) {
        var i :| 0 <= i < |records[1..]| && IsCanonical(records[1..][i]) && p == ToRoutePattern(records[1..][i]);
        assert records[i + 1] == records[1..][i];
      }
      if exists i :: 0 <= i < |records| && IsCanonical(records[i]) && p == ToRoutePattern(records[i]) {
        var i :| 0 <= i < |records| && IsCanonical(records[i]) && p == ToRoutePattern(records[i]);
        if i > 0 {
          assert records[1..][i - 1] == records[i];
        }
      }
    }
  }

  /** fetchCanonicalRoutePatterns: route patterns are queried for the stop's
      parent station (never its own id), and a failed query is passed on. */
  function FetchCanonicalRoutePatterns(stop: Stop, routePatterns: string -> Result<seq<PatternRecord>>)
    : (r: Result<seq<RoutePattern>>)
    ensures routePatterns(stop.parentStation).Err? ==> r == Err(routePatterns(stop.parentStation).error)
    ensures routePatterns(stop.parentStation).Ok? ==>
              r == Ok(CanonicalRoutePatterns(routePatterns(stop.parentStation).value))
  {
    match routePatterns(stop.parentStation)
    case Err(e) => Err(e)
    case Ok(records) => Ok(CanonicalRoutePatterns(records))
  }

  // ---------------------------------------------------------------------------
  // De-duplication by route name (a JavaScript Map keyed by route name)
  // ---------------------------------------------------------------------------

  /** Index of the first pattern named `name`, or -1. */
  function FindRouteName(entries: seq<RoutePattern>, name: string): (i: int)
    ensures -1 <= i < |entries|
    ensures i == -1 <==> forall k :: 0 <= k < |entries| ==> entries[k].routeName != name
    ensures 0 <= i ==> entries[i].routeName == name && forall k :: 0 <= k < i ==> entries[k].routeName != name
  {
    if entries == [] then -1
    else
      var j := FindRouteName(entries[..|entries| - 1], name);
      if 0 <= j then j
      else if entries[|entries| - 1].routeName == name then |entries| - 1
      else -1
  }

  /** Index of the last pattern named `name`, or -1. */
  function FindLastRouteName(entries: seq<RoutePattern>, name: string): (i: int)
    ensures -1 <= i < |entries|
    ensures i == -1 <==> forall k :: 0 <= k < |entries| ==> entries[k].routeName != name
    ensures 0 <= i ==> entries[i].routeName == name && forall k :: i < k < |entries| ==> entries[k].routeName != name
  {
    if entries == [] then -1
    else if entries[|entries| - 1].routeName == name then |entries| - 1
    else FindLastRouteName(entries[..|entries| - 1], name)
  }

  /** Map.prototype.set on the map's values in insertion order: a key already
      present keeps its position and takes the new value; a new key is
      appended. */
  function MapSet(entries: seq<RoutePattern>, p: RoutePattern): (r: seq<RoutePattern>)
    ensures |r| == if FindRouteName(entries, p.routeName) < 0 then |entries| + 1 else |entries|
    ensures 0 <= FindRouteName(r, p.routeName) && r[FindRouteName(r, p.routeName)] == p
    ensures forall k :: 0 <= k < |entries| && entries[k].routeName != p.routeName ==> r[k] == entries[k]
  {
    var i := FindRouteName(entries, p.routeName);
    if i < 0 then
      FindRouteNameSnoc(entries, p, p.routeName);
      entries + [p]
    else
      FindRouteNameUpdate(entries, i, p);
      entries[i := p]
  }

  /** `Array.from(new Map(patterns.map(p => [p.routeName, p])).values())`:
      the patterns are set into the map one by one, in input order. */
  function UniqueRoutePatterns(patterns: seq<RoutePattern>): (r: seq<RoutePattern>)
    ensures |r| <= |patterns|
    ensures r == [] <==> patterns == []
  {
    if patterns == [] then []
    else MapSet(UniqueRoutePatterns(patterns[..|patterns| - 1]), patterns[|patterns| - 1])
  }

  predicate DistinctRouteNames(entries: seq<RoutePattern>)
  {
    forall a, b :: 0 <= a < b < |entries| ==> entries[a].routeName != entries[b].routeName
  }

  /** Every name of `patterns` is in `entries` and every name of `entries` is in `patterns`. */
  predicate SameRouteNames(entries: seq<RoutePattern>, patterns: seq<RoutePattern>)
  {
    && (forall i :: 0 <= i < |patterns| ==> 0 <= FindRouteName(entries, patterns[i].routeName))
    && (forall k :: 0 <= k < |entries| ==> 0 <= FindRouteName(patterns, entries[k].routeName))
  }

  /** The entry kept for each name is the last input pattern with that name. */
  predicate LastPatternWins(entries: seq<RoutePattern>, patterns: seq<RoutePattern>)
  {
    forall k :: 0 <= k < |entries| ==>
      0 <= FindLastRouteName(patterns, entries[k].routeName) &&
      entries[k] == patterns[FindLastRouteName(patterns, entries[k].routeName)]
  }

  /** Entries are ordered by the first occurrence of their name in the input. */
  predicate FirstOccurrenceOrder(entries: seq<RoutePattern>, patterns: seq<RoutePattern>)
  {
    forall a, b :: 0 <= a < b < |entries| ==>
      FindRouteName(patterns, entries[a].routeName) < FindRouteName(patterns, entries[b].routeName)
  }

  // The look-up on a list that grows by one pattern at the end.

  lemma FindRouteNameSnoc(prefix: seq<RoutePattern>, p: RoutePattern, name: string)
    ensures FindRouteName(prefix + [p], name) ==
              if 0 <= FindRouteName(prefix, name) then FindRouteName(prefix, name)
              else if p.routeName == name then |prefix| else -1
  {
  }

  /** Overwriting the first entry with a name by a pattern of the same name
      leaves that entry the first with the name. */
  lemma FindRouteNameUpdate(entries: seq<RoutePattern>, i: int, p: RoutePattern)
    requires 0 <= i == FindRouteName(entries, p.routeName)
    ensures FindRouteName(entries[i := p], p.routeName) == i
  {
    assert entries[i := p][i].routeName == p.routeName;
  }

  // A name the map does not hold yet: the pattern is appended.

  lemma NewNameDistinct(u: seq<RoutePattern>, p: RoutePattern)
    requires DistinctRouteNames(u)
    requires FindRouteName(u, p.routeName) < 0
    ensures DistinctRouteNames(u + [p])
  {
  }

  lemma NewNameSameNames(prefix: seq<RoutePattern>, u: seq<RoutePattern>, p: RoutePattern)
    requires SameRouteNames(u, prefix)
    requires FindRouteName(u, p.routeName) < 0
    ensures SameRouteNames(u + [p], prefix + [p])
  {
    var ps, u' := prefix + [p], u + [p];
    forall i | 0 <= i < |ps|
      ensures 0 <= FindRouteName(u', ps[i].routeName)
    {
      if i < |prefix| {
        var k := FindRouteName(u, prefix[i].routeName);
        assert u'[k].routeName == ps[i].routeName;
      } else {
        assert u'[|u|].routeName == ps[i].routeName;
      }
    }
    forall k | 0 <= k < |u'|
      ensures 0 <= FindRouteName(ps, u'[k].routeName)
    {
      FindRouteNameSnoc(prefix, p, u'[k].routeName);
    }
  }

  lemma NewNameLastWins(prefix: seq<RoutePattern>, u: seq<RoutePattern>, p: RoutePattern)
    requires LastPatternWins(u, prefix)
    requires FindRouteName(u, p.routeName) < 0
    ensures LastPatternWins(u + [p], prefix + [p])
  {
  }

  lemma NewNameOrder(prefix: seq<RoutePattern>, u: seq<RoutePattern>, p: RoutePattern)
    requires FirstOccurrenceOrder(u, prefix)
    requires SameRouteNames(u, prefix)
    requires FindRouteName(u, p.routeName) < 0
    ensures FirstOccurrenceOrder(u + [p], prefix + [p])
  {
  }

  // A name the map already holds: the value is replaced in place.

  lemma KnownNameSameNamesAt(u: seq<RoutePattern>, j: nat, p: RoutePattern)
    requires j < |u| && u[j].routeName == p.routeName
    ensures forall k :: 0 <= k < |u| ==> u[j := p][k].routeName == u[k].routeName
  {
  }

  lemma KnownNameDistinct(u: seq<RoutePattern>, p: RoutePattern)
    requires DistinctRouteNames(u)
    requires 0 <= FindRouteName(u, p.routeName)
    ensures DistinctRouteNames(u[FindRouteName(u, p.routeName) := p])
  {
  }

  lemma KnownNameSameNames(prefix: seq<RoutePattern>, u: seq<RoutePattern>, p: RoutePattern)
    requires SameRouteNames(u, prefix)
    requires 0 <= FindRouteName(u, p.routeName)
    ensures SameRouteNames(u[FindRouteName(u, p.routeName) := p], prefix + [p])
  {
    var j := FindRouteName(u, p.routeName);
    var ps, u' := prefix + [p], u[j := p];
    KnownNameSameNamesAt(u, j, p);
    forall i | 0 <= i < |ps|
      ensures 0 <= FindRouteName(u', ps[i].routeName)
    {
      if i < |prefix| {
        var k := FindRouteName(u, prefix[i].routeName);
        assert u'[k].routeName == ps[i].routeName;
      } else {
        assert u'[j].routeName == ps[i].routeName;
      }
    }
    forall k | 0 <= k < |u'|
      ensures 0 <= FindRouteName(ps, u'[k].routeName)
    {
      FindRouteNameSnoc(prefix, p, u'[k].routeName);
    }
  }

  lemma KnownNameLastWins(prefix: seq<RoutePattern>, u: seq<RoutePattern>, p: RoutePattern)
    requires DistinctRouteNames(u)
    requires LastPatternWins(u, prefix)
    requires 0 <= FindRouteName(u, p.routeName)
    ensures LastPatternWins(u[FindRouteName(u, p.routeName) := p], prefix + [p])
  {
  }

  lemma KnownNameOrder(prefix: seq<RoutePattern>, u: seq<RoutePattern>, p: RoutePattern)
    requires FirstOccurrenceOrder(u, prefix)
    requires SameRouteNames(u, prefix)
    requires 0 <= FindRouteName(u, p.routeName)
    ensures FirstOccurrenceOrder(u[FindRouteName(u, p.routeName) := p], prefix + [p])
  {
  }

  /** The de-duplicated patterns have distinct names, the same names as the
      input, the last pattern seen for each name, in first-seen order. */
  lemma {:induction false} UniqueRoutePatternsCorrect(patterns: seq<RoutePattern>)
    ensures DistinctRouteNames(UniqueRoutePatterns(patterns))
    ensures SameRouteNames(UniqueRoutePatterns(patterns), patterns)
    ensures LastPatternWins(UniqueRoutePatterns(patterns), patterns)
    ensures FirstOccurrenceOrder(UniqueRoutePatterns(patterns), patterns)
  {
    if patterns != [] {
      var n := |patterns| - 1;
      var prefix, p := patterns[..n], patterns[n];
      assert patterns == prefix + [p];
      UniqueRoutePatternsCorrect(prefix);
      var u := UniqueRoutePatterns(prefix);
      if FindRouteName(u, p.routeName) < 0 {
        NewNameDistinct(u, p);
        NewNameSameNames(prefix, u, p);
        NewNameLastWins(prefix, u, p);
        NewNameOrder(prefix, u, p);
      } else {
        KnownNameDistinct(u, p);
        KnownNameSameNames(prefix, u, p);
        KnownNameLastWins(prefix, u, p);
        KnownNameOrder(prefix, u, p);
      }
    }
  }

  // ---------------------------------------------------------------------------
  // Neighbours of the target stop in one trip
  // ---------------------------------------------------------------------------

  /** Array.prototype.findIndex with the test "same parent station": the index
      of the first stop of `route` whose parent station is `station`, or -1. */
  function FindStation(route: seq<Stop>, station: string): (i: int)
    ensures -1 <= i < |route|
    ensures i == -1 <==> forall k :: 0 <= k < |route| ==> route[k].parentStation != station
    ensures 0 <= i ==> route[i].parentStation == station && forall k :: 0 <= k < i ==> route[k].parentStation != station
  {
    if route == [] then -1
    else if route[0].parentStation == station then 0
    else
      var j := FindStation(route[1..], station);
      if j < 0 then -1 else j + 1
  }

  /** A stop carrying nothing beyond the declared Stop fields: no further
      attribute keys and neither optional field. */
  predicate IsSimpleStop(stop: Stop)
  {
    stop.attributes.extra == map[] && stop.allLines.None? && stop.neighbors.None?
  }

  /** The five declared attributes agree. */
  predicate SameDeclaredAttributes(a: Attributes, b: Attributes)
  {
    && a.name == b.name
    && a.description == b.description
    && a.line == b.line
    && a.latitude == b.latitude
    && a.longitude == b.longitude
  }

  /** mbtaStopToSimpleStop: keeps the identity, the parent station and the five
      declared attributes, and drops everything else. */
  function MbtaStopToSimpleStop(stop: Stop): (r: Stop)
    ensures IsSimpleStop(r)
    ensures r.id == stop.id && r.parentStation == stop.parentStation
    ensures SameDeclaredAttributes(r.attributes, stop.attributes)
  {
    var a := stop.attributes;
    Stop(stop.id, Attributes(a.name, a.description, a.line, a.latitude, a.longitude, map[]),
         stop.parentStation, None, None)
  }

  /** A stop that is already simple is left as it is. */
  lemma MbtaStopToSimpleStopFixesSimple(stop: Stop)
    requires IsSimpleStop(stop)
    ensures MbtaStopToSimpleStop(stop) == stop
  {
  }

  /** The neighbours getAdjacentStops returns, by the position of the target's
      station in the trip: none when the station is absent or the trip has a
      single stop; the previous and then the next stop for an interior
      station; the only adjacent stop at either terminus. */
  function AdjacentStops(target: Stop, routeStops: seq<Stop>): (r: seq<Stop>)
    ensures var i, n := FindStation(routeStops, target.parentStation), |routeStops|;
      && (i == -1 ==> r == [])
      && (0 <= i && n == 1 ==> r == [])
      && (0 < i < n - 1 ==> r == [MbtaStopToSimpleStop(routeStops[i - 1]), MbtaStopToSimpleStop(routeStops[i + 1])])
      && (i == 0 && 1 < n ==> r == [MbtaStopToSimpleStop(routeStops[1])])
      && (0 < i && i == n - 1 ==> r == [MbtaStopToSimpleStop(routeStops[i - 1])])
  {
    var i := FindStation(routeStops, target.parentStation);
    if i < 0 then []
    else (if 0 < i then [MbtaStopToSimpleStop(routeStops[i - 1])] else [])
         + (if i < |routeStops| - 1 then [MbtaStopToSimpleStop(routeStops[i + 1])] else [])
  }

  /** Only the target's parent station matters, never its own id: two targets
      at the same station get the same neighbours. */
  lemma AdjacentStopsUseStationOnly(target: Stop, other: Stop, routeStops: seq<Stop>)
    requires target.parentStation == other.parentStation
    ensures AdjacentStops(target, routeStops) == AdjacentStops(other, routeStops)
  {
  }

  /** When the station occurs in the trip, the first occurrence decides: the
      neighbours are those of that position, whatever later stops share the
      station. */
  lemma {:induction false} AdjacentStopsFirstMatch(target: Stop, before: seq<Stop>, at: Stop, after: seq<Stop>)
    requires forall k :: 0 <= k < |before| ==> before[k].parentStation != target.parentStation
    requires at.parentStation == target.parentStation
    ensures AdjacentStops(target, before + [at] + after) ==
              (if 0 < |before| then [MbtaStopToSimpleStop(before[|before| - 1])] else [])
              + (if 0 < |after| then [MbtaStopToSimpleStop(after[0])] else [])
  {
    var route := before + [at] + after;
    assert route[|before|] == at;
    assert forall k :: 0 <= k < |before| ==> route[k] == before[k];
    assert FindStation(route, target.parentStation) == |before|;
    if 0 < |after| {
      assert route[|before| + 1] == after[0];
    }
  }

  /** getAdjacentStops: locate the station, then push the previous stop and
      then the next stop where they exist. */
  method GetAdjacentStops(targetStop: Stop, routeStops: seq<Stop>) returns (adjacentStops: seq<Stop>)
    ensures adjacentStops == AdjacentStops(targetStop, routeStops)
    ensures |adjacentStops| <= 2
    ensures forall k :: 0 <= k < |adjacentStops| ==> IsSimpleStop(adjacentStops[k])
  {
    var targetIndex := FindStation(routeStops, targetStop.parentStation);
    if targetIndex == -1 {
      return [];
    }
    adjacentStops := [];
    if targetIndex > 0 {
      adjacentStops := adjacentStops + [MbtaStopToSimpleStop(routeStops[targetIndex - 1])];
    }
    if targetIndex < |routeStops| - 1 {
      adjacentStops := adjacentStops + [MbtaStopToSimpleStop(routeStops[targetIndex + 1])];
    }
  }

  // ---------------------------------------------------------------------------
  // Per-line assembly
  // ---------------------------------------------------------------------------

  /** The stops of a pattern's representative trip: the trip's stop ids
      (fetchTripStopIds), then one batched lookup of all of them
      (fetchStopsByIds). The first failing step decides the error. */
  function ExpandTrip(
    pattern: RoutePattern,
    tripStopIds: string -> Result<seq<string>>,
    stopsByIds: seq<string> -> Result<seq<StopRecord>>): (r: Result<seq<Stop>>)
    ensures tripStopIds(pattern.representativeTrip).Err? ==> r == Err(tripStopIds(pattern.representativeTrip).error)
    ensures tripStopIds(pattern.representativeTrip).Ok? ==>
              var records := stopsByIds(tripStopIds(pattern.representativeTrip).value);
              && (records.Err? ==> r == Err(records.error))
              && (records.Ok? ==> r == RecordsToStops(records.value))
  {
    match tripStopIds(pattern.representativeTrip)
    case Err(e) => Err(e)
    case Ok(ids) =>
      match stopsByIds(ids)
      case Err(e) => Err(e)
      case Ok(records) => RecordsToStops(records)
  }

  /** `entries` in front of a successful answer; an error stays as it is. */
  function Prepend(entries: seq<AdjacentStopsOnLine>, r: Result<seq<AdjacentStopsOnLine>>): (result: Result<seq<AdjacentStopsOnLine>>)
  {
    match r
    case Err(e) => Err(e)
    case Ok(rest) => Ok(entries + rest)
  }

  /** Prepending in two steps is prepending the concatenation once. */
  lemma PrependTwice(entries: seq<AdjacentStopsOnLine>, entry: AdjacentStopsOnLine, r: Result<seq<AdjacentStopsOnLine>>)
    ensures Prepend(entries, Prepend([entry], r)) == Prepend(entries + [entry], r)
  {
    if r.Ok? {
      assert entries + ([entry] + r.value) == (entries + [entry]) + r.value;
    }
  }

  /** One entry per pattern, in order: the pattern's route name and the
      target's neighbours on the pattern's trip; the first pattern whose trip
      cannot be expanded fails the whole answer with its error. */
  function ResolveLines(
    target: Stop,
    patterns: seq<RoutePattern>,
    tripStopIds: string -> Result<seq<string>>,
    stopsByIds: seq<string> -> Result<seq<StopRecord>>): (r: Result<seq<AdjacentStopsOnLine>>)
    ensures r.Ok? ==> |r.value| == |patterns|
    ensures r.Ok? ==> forall k :: 0 <= k < |patterns| ==> r.value[k].line == patterns[k].routeName
  {
    if patterns == [] then Ok([])
    else
      var trip := ExpandTrip(patterns[0], tripStopIds, stopsByIds);
      if trip.Err? then Err(trip.error)
      else Prepend([AdjacentStopsOnLine(patterns[0].routeName, AdjacentStops(target, trip.value))],
                   ResolveLines(target, patterns[1..], tripStopIds, stopsByIds))
  }

  /** ResolveLines on the suffix from `k`, unfolded once. */
  lemma ResolveLinesFrom(
    target: Stop,
    patterns: seq<RoutePattern>,
    k: nat,
    tripStopIds: string -> Result<seq<string>>,
    stopsByIds: seq<string> -> Result<seq<StopRecord>>)
    requires k < |patterns|
    ensures var trip := ExpandTrip(patterns[k], tripStopIds, stopsByIds);
      ResolveLines(target, patterns[k..], tripStopIds, stopsByIds) ==
        if trip.Err? then Err(trip.error)
        else Prepend([AdjacentStopsOnLine(patterns[k].routeName, AdjacentStops(target, trip.value))],
                     ResolveLines(target, patterns[k + 1..], tripStopIds, stopsByIds))
  {
  }

  /** The answer of fetchAdjacentStops as a function of what the upstream
      queries return. */
  function AdjacentStopsAnswer(
    targetStop: Stop,
    routePatterns: string -> Result<seq<PatternRecord>>,
    tripStopIds: string -> Result<seq<string>>,
    stopsByIds: seq<string> -> Result<seq<StopRecord>>): (r: Result<seq<AdjacentStopsOnLine>>)
    ensures routePatterns(targetStop.parentStation).Err? ==> r == Err(routePatterns(targetStop.parentStation).error)
    ensures r.Ok? ==>
              && routePatterns(targetStop.parentStation).Ok?
              && |r.value| <= |CanonicalRoutePatterns(routePatterns(targetStop.parentStation).value)|
  {
    match FetchCanonicalRoutePatterns(targetStop, routePatterns)
    case Err(e) => Err(e)
    case Ok(canonical) => ResolveLines(targetStop, UniqueRoutePatterns(canonical), tripStopIds, stopsByIds)
  }

  /** When every trip expands, there is exactly one entry per pattern, in
      pattern order, with the pattern's route name and the target's
      neighbours on that trip; and the answer is a success only then. */
  lemma {:induction false} ResolveLinesEntries(
    target: Stop,
    patterns: seq<RoutePattern>,
    tripStopIds: string -> Result<seq<string>>,
    stopsByIds: seq<string> -> Result<seq<StopRecord>>)
    ensures var r := ResolveLines(target, patterns, tripStopIds, stopsByIds);
      && (r.Ok? <==> forall k :: 0 <= k < |patterns| ==> ExpandTrip(patterns[k], tripStopIds, stopsByIds).Ok?)
      && (r.Ok? ==>
            && |r.value| == |patterns|
            && forall k :: 0 <= k < |patterns| ==>
                 r.value[k] == AdjacentStopsOnLine(patterns[k].routeName,
                   AdjacentStops(target, ExpandTrip(patterns[k], tripStopIds, stopsByIds).value)))
  {
    if patterns != [] {
      ResolveLinesEntries(target, patterns[1..], tripStopIds, stopsByIds);
      var rest := patterns[1..];
      assert forall k :: 0 <= k < |rest| ==> rest[k] == patterns[k + 1];
      if forall k :: 0 <= k < |rest| ==> ExpandTrip(rest[k], tripStopIds, stopsByIds).Ok? {
        assert forall k :: 1 <= k < |patterns| ==> patterns[k] == rest[k - 1];
      }
    }
  }

  /** The trip of `patterns[k]` is the first one that cannot be expanded, and it fails with `e`. */
  predicate FirstFailure(
    patterns: seq<RoutePattern>, k: int, tripStopIds: string -> Result<seq<string>>,
    stopsByIds: seq<string> -> Result<seq<StopRecord>>, e: Error)
  {
    && 0 <= k < |patterns|
    && (forall j :: 0 <= j < k ==> ExpandTrip(patterns[j], tripStopIds, stopsByIds).Ok?)
    && ExpandTrip(patterns[k], tripStopIds, stopsByIds) == Err(e)
  }

  /** A failed answer carries the error of the first trip that could not be
      expanded: no later failure masks an earlier one. */
  lemma {:induction false} ResolveLinesFirstFailure(
    target: Stop,
    patterns: seq<RoutePattern>,
    tripStopIds: string -> Result<seq<string>>,
    stopsByIds: seq<string> -> Result<seq<StopRecord>>)
    ensures var r := ResolveLines(target, patterns, tripStopIds, stopsByIds);
      r.Err? ==> exists k :: FirstFailure(patterns, k, tripStopIds, stopsByIds, r.error)
  {
    var r := ResolveLines(target, patterns, tripStopIds, stopsByIds);
    if patterns != [] && r.Err? {
      if ExpandTrip(patterns[0], tripStopIds, stopsByIds).Err? {
        assert FirstFailure(patterns, 0, tripStopIds, stopsByIds, r.error);
      } else {
        var rest := patterns[1..];
        ResolveLinesFirstFailure(target, rest, tripStopIds, stopsByIds);
        var k :| FirstFailure(rest, k, tripStopIds, stopsByIds, r.error);
        assert forall j :: 0 <= j < k ==> rest[j] == patterns[j + 1];
        assert FirstFailure(patterns, k + 1, tripStopIds, stopsByIds, r.error);
      }
    }
  }

  /** Some entry of `lines` is the line named `name`. */
  predicate HasLine(lines: seq<AdjacentStopsOnLine>, name: string)
  {
    exists k :: 0 <= k < |lines| && lines[k].line == name
  }

  /** Some pattern of `patterns` belongs to the route named `name`. */
  predicate HasRouteName(patterns: seq<RoutePattern>, name: string)
  {
    exists i :: 0 <= i < |patterns| && patterns[i].routeName == name
  }

  /** A successful answer names every line of the canonical patterns, each
      exactly once, however many canonical patterns share a route name, and
      names no other line. */
  lemma AdjacentStopsAnswerLines(
    targetStop: Stop,
    routePatterns: string -> Result<seq<PatternRecord>>,
    tripStopIds: string -> Result<seq<string>>,
    stopsByIds: seq<string> -> Result<seq<StopRecord>>)
    ensures var r := AdjacentStopsAnswer(targetStop, routePatterns, tripStopIds, stopsByIds);
      var canonical := FetchCanonicalRoutePatterns(targetStop, routePatterns);
      r.Ok? ==>
        && canonical.Ok?
        && (forall a, b :: 0 <= a < b < |r.value| ==> r.value[a].line != r.value[b].line)
        && (forall i :: 0 <= i < |canonical.value| ==> HasLine(r.value, canonical.value[i].routeName))
        && (forall k :: 0 <= k < |r.value| ==> HasRouteName(canonical.value, r.value[k].line))
  {
    var r := AdjacentStopsAnswer(targetStop, routePatterns, tripStopIds, stopsByIds);
    var canonical := FetchCanonicalRoutePatterns(targetStop, routePatterns);
    if r.Ok? {
      var unique := UniqueRoutePatterns(canonical.value);
      UniqueRoutePatternsCorrect(canonical.value);
      EveryPatternHasLine(r.value, unique, canonical.value);
      EveryLineHasPattern(r.value, unique, canonical.value);
    }
  }

  lemma {:induction false} EveryPatternHasLine(lines: seq<AdjacentStopsOnLine>, unique: seq<RoutePattern>, patterns: seq<RoutePattern>)
    requires |lines| == |unique|
    requires forall k :: 0 <= k < |unique| ==> lines[k].line == unique[k].routeName
    requires forall i :: 0 <= i < |patterns| ==> 0 <= FindRouteName(unique, patterns[i].routeName)
    ensures forall i :: 0 <= i < |patterns| ==> HasLine(lines, patterns[i].routeName)
  {
    forall i | 0 <= i < |patterns|
      ensures HasLine(lines, patterns[i].routeName)
    {
      var w := FindRouteName(unique, patterns[i].routeName);
      assert lines[w].line == patterns[i].routeName;
    }
  }

  lemma {:induction false} EveryLineHasPattern(lines: seq<AdjacentStopsOnLine>, unique: seq<RoutePattern>, patterns: seq<RoutePattern>)
    requires |lines| == |unique|
    requires forall k :: 0 <= k < |unique| ==> lines[k].line == unique[k].routeName
    requires forall k :: 0 <= k < |unique| ==> 0 <= FindRouteName(patterns, unique[k].routeName)
    ensures forall k :: 0 <= k < |lines| ==> HasRouteName(patterns, lines[k].line)
  {
    forall k | 0 <= k < |lines|
      ensures HasRouteName(patterns, lines[k].line)
    {
      var w := FindRouteName(patterns, unique[k].routeName);
      assert patterns[w].routeName == lines[k].line;
    }
  }

  /** fetchAdjacentStops: the canonical patterns for the target's station,
      de-duplicated by route name, then, pattern by pattern, the trip's stops
      and the target's neighbours on them, pushed as one entry per line. */
  method FetchAdjacentStops(
    targetStop: Stop,
    routePatterns: string -> Result<seq<PatternRecord>>,
    tripStopIds: string -> Result<seq<string>>,
    stopsByIds: seq<string> -> Result<seq<StopRecord>>)
    returns (r: Result<seq<AdjacentStopsOnLine>>)
    ensures r == AdjacentStopsAnswer(targetStop, routePatterns, tripStopIds, stopsByIds)
  {
    var canonical := FetchCanonicalRoutePatterns(targetStop, routePatterns);
    if canonical.Err? {
      return Err(canonical.error);
    }
    var unique := UniqueRoutePatterns(canonical.value);
    ghost var answer := ResolveLines(targetStop, unique, tripStopIds, stopsByIds);
    assert answer == AdjacentStopsAnswer(targetStop, routePatterns, tripStopIds, stopsByIds);
    var stopsByLine: seq<AdjacentStopsOnLine> := [];
    assert unique[0..] == unique;
    assert answer.Ok? ==> stopsByLine + answer.value == answer.value;
    for k := 0 to |unique|
      invariant answer == Prepend(stopsByLine, ResolveLines(targetStop, unique[k..], tripStopIds, stopsByIds))
    {
      var pattern := unique[k];
      ResolveLinesFrom(targetStop, unique, k, tripStopIds, stopsByIds);
      var stopIds := tripStopIds(pattern.representativeTrip);
      if stopIds.Err? {
        return Err(stopIds.error);
      }
      var records := stopsByIds(stopIds.value);
      if records.Err? {
        return Err(records.error);
      }
      var tripStops := RecordsToStops(records.value);
      if tripStops.Err? {
        return Err(tripStops.error);
      }
      var adjacentStops := GetAdjacentStops(targetStop, tripStops.value);
      PrependTwice(stopsByLine, AdjacentStopsOnLine(pattern.routeName, adjacentStops),
                   ResolveLines(targetStop, unique[k + 1..], tripStopIds, stopsByIds));
      stopsByLine := stopsByLine + [AdjacentStopsOnLine(pattern.routeName, adjacentStops)];
    }
    assert unique[|unique|..] == [];
    assert stopsByLine + [] == stopsByLine;
    r := Ok(stopsByLine);
  }

  // ---------------------------------------------------------------------------
  // The stop cache of data.ts
  // ---------------------------------------------------------------------------

  /** The stop list fetchAndCacheAllStops builds from the upstream answer:
      each record keeps its id and parent station and only the five declared
      attributes; a failed request or a record without a parent station fails
      the whole list. */
  function CachedStops(response: Result<seq<StopRecord>>): (r: Result<seq<Stop>>)
    ensures response.Err? ==> r == Err(response.error)
    ensures response.Ok? ==>
              (r.Ok? <==> forall i :: 0 <= i < |response.value| ==> response.value[i].parentStationRef.Some?)
    ensures r.Ok? ==> response.Ok? && |r.value| == |response.value|
    ensures r.Ok? ==> forall i :: 0 <= i < |r.value| ==>
              && IsSimpleStop(r.value[i])
              && r.value[i].id == response.value[i].id
              && r.value[i].parentStation == response.value[i].parentStationRef.value
              && SameDeclaredAttributes(r.value[i].attributes, response.value[i].attributes)
  {
    match response
    case Err(e) => Err(e)
    case Ok(records) =>
      match RecordsToStops(records)
      case Err(e) => Err(e)
      case Ok(stops) => Ok(seq(|stops|, i requires 0 <= i < |stops| => MbtaStopToSimpleStop(stops[i])))
  }

  /** The module-level `stopsCache` of data.ts. An empty list means "not
      cached yet". `fetchCount` counts the requests sent upstream. */
  class StopsCache {
    var stopsCache: seq<Stop>
    ghost var fetchCount: nat

    constructor ()
      ensures stopsCache == [] && fetchCount == 0
    {
      stopsCache := [];
      fetchCount := 0;
    }

    /** fetchAndCacheAllStops: one request; on success the cache is
        overwritten with the converted list, on failure it is left as it was. */
    method FetchAndCacheAllStops(response: Result<seq<StopRecord>>) returns (r: Result<seq<Stop>>)
      modifies this
      ensures fetchCount == old(fetchCount) + 1
      ensures r == CachedStops(response)
      ensures stopsCache == if r.Ok? then r.value else old(stopsCache)
    {
      fetchCount := fetchCount + 1;
      r := CachedStops(response);
      if r.Ok? {
        stopsCache := r.value;
      }
    }

    /** fetchAllStops: a non-empty cache is returned as it is and nothing is
        requested; an empty one is (re)fetched. `response` is what the
        upstream would answer if asked now. */
    method FetchAllStops(response: Result<seq<StopRecord>>) returns (r: Result<seq<Stop>>)
      modifies this
      ensures |old(stopsCache)| > 0 ==>
                r == Ok(old(stopsCache)) && stopsCache == old(stopsCache) && fetchCount == old(fetchCount)
      ensures |old(stopsCache)| == 0 ==>
                && r == CachedStops(response)
                && fetchCount == old(fetchCount) + 1
                && stopsCache == if r.Ok? then r.value else []
    {
      if |stopsCache| > 0 {
        return Ok(stopsCache);
      }
      r := FetchAndCacheAllStops(response);
    }
  }

  /** Two calls in a row: once the first has left a non-empty list, the second
      returns the same list without a request; a fetch that yields an empty
      list leaves the cache empty, so the next call asks upstream again. */
  method FetchAllStopsTwice(cache: StopsCache, first: Result<seq<StopRecord>>, second: Result<seq<StopRecord>>)
    returns (r1: Result<seq<Stop>>, r2: Result<seq<Stop>>)
    modifies cache
    ensures r1.Ok? && |r1.value| > 0 ==>
              r2 == r1 && cache.fetchCount <= old(cache.fetchCount) + 1 && cache.stopsCache == r1.value
    ensures |old(cache.stopsCache)| > 0 ==>
              r1 == r2 == Ok(old(cache.stopsCache)) && cache.fetchCount == old(cache.fetchCount)
    ensures r1 == Ok([]) ==> r2 == CachedStops(second) && cache.fetchCount == old(cache.fetchCount) + 2
  {
    r1 := cache.FetchAllStops(first);
    r2 := cache.FetchAllStops(second);
  }
}

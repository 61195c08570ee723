/** The GTFS route-stop converter: from already-parsed routes, stops, trips and stop_times
    rows it builds, for every route and every shape of that route, the ordered list of the
    stops served, each tagged with its stop sequence. CSV reading, number parsing, JSON
    writing and progress output are not part of this model. */
module RouteStops {
  import opened Common

  /** A latitude or longitude; the converter only copies these. */
  type Coord = real

  /** One row of routes.txt. */
  datatype RouteRow = RouteRow(routeId: string, routeShortName: string, routeLongName: string)
  datatype RouteInfo = RouteInfo(shortName: string, longName: string)

  /** One row of stops.txt; `stopCode` is None when the file has no stop_code column. */
  datatype StopRow = StopRow(stopId: string, stopCode: Option<string>, stopName: string, stopLat: Coord, stopLon: Coord)
  datatype Stop = Stop(id: string, code: string, name: string, lat: Coord, lon: Coord)

  /** One row of trips.txt; `tripHeadsign` is None when the file has no trip_headsign column. */
  datatype TripRow = TripRow(tripId: string, routeId: string, shapeId: string, tripHeadsign: Option<string>)
  datatype Trip = Trip(routeId: string, shapeId: string, headsign: string)

  /** One row of stop_times.txt, with stop_sequence already read as an integer. */
  datatype StopTimeRow = StopTimeRow(tripId: string, stopId: string, stopSequence: int)

  /** A stop record extended with the `sequence` field. */
  datatype StopEntry = StopEntry(id: string, code: string, name: string, lat: Coord, lon: Coord, sequence: int)

  /** One value of the output object, keyed by route id. */
  datatype RouteStopsRecord = RouteStopsRecord(name: string, longName: string, shapes: map<string, seq<StopEntry>>)

  /** A (stop_id, stop_sequence) pair as stored in the per-shape sets. */
  type StopAt = (string, int)

  // ---------------------------------------------------------------------------
  // Loaders: one dict entry per row, a later row with the same id replacing an earlier one

  function RouteIds(rows: seq<RouteRow>): (ids: seq<string>)
    ensures |ids| == |rows| && forall k :: 0 <= k < |rows| ==> ids[k] == rows[k].routeId
  {
    seq(|rows|, k requires 0 <= k < |rows| => rows[k].routeId)
  }

  function StopIds(rows: seq<StopRow>): (ids: seq<string>)
    ensures |ids| == |rows| && forall k :: 0 <= k < |rows| ==> ids[k] == rows[k].stopId
  {
    seq(|rows|, k requires 0 <= k < |rows| => rows[k].stopId)
  }

  function TripIds(rows: seq<TripRow>): (ids: seq<string>)
    ensures |ids| == |rows| && forall k :: 0 <= k < |rows| ==> ids[k] == rows[k].tripId
  {
    seq(|rows|, k requires 0 <= k < |rows| => rows[k].tripId)
  }

  /** The dict `load_routes` builds from the rows, entry by entry. */
  ghost function LoadedRoutes(rows: seq<RouteRow>): map<string, RouteInfo>
    decreases |rows|
  {
    if rows == [] then map[]
    else
      var row := rows[|rows| - 1];
      LoadedRoutes(rows[..|rows| - 1])[row.routeId := RouteInfo(row.routeShortName, row.routeLongName)]
  }

  method LoadRoutes(rows: seq<RouteRow>) returns (routes: map<string, RouteInfo>)
    ensures routes == LoadedRoutes(rows)
    ensures forall id :: id in routes <==> LastIndex(RouteIds(rows), id) >= 0
    ensures forall id :: id in routes ==>
      var k := LastIndex(RouteIds(rows), id);
      routes[id] == RouteInfo(rows[k].routeShortName, rows[k].routeLongName)
  {
    ghost var ids := RouteIds(rows);
    routes := map[];
    for i := 0 to |rows|
      invariant routes == LoadedRoutes(rows[..i])
      invariant forall id :: id in routes <==> LastIndex(ids[..i], id) >= 0
      invariant forall id :: id in routes ==>
        var k := LastIndex(ids[..i], id);
        0 <= k < i && routes[id] == RouteInfo(rows[k].routeShortName, rows[k].routeLongName)
    {
      routes := routes[rows[i].routeId := RouteInfo(rows[i].routeShortName, rows[i].routeLongName)];
      assert rows[..i + 1][..i] == rows[..i];
      assert ids[..i + 1] == ids[..i] + [ids[i]];
      forall id ensures LastIndex(ids[..i + 1], id) == if ids[i] == id then i else LastIndex(ids[..i], id) {
        LastIndexSnoc(ids[..i], ids[i], id);
      }
    }
    assert rows[..|rows|] == rows;
    assert ids[..|rows|] == ids;
  }

  /** Every stop is stored under its own id. */
  ghost predicate KeyedById(stops: map<string, Stop>) {
    forall id :: id in stops ==> stops[id].id == id
  }

  /** The dict `load_stops` builds from the rows, entry by entry. */
  ghost function LoadedStops(rows: seq<StopRow>): map<string, Stop>
    decreases |rows|
  {
    if rows == [] then map[]
    else
      var row := rows[|rows| - 1];
      LoadedStops(rows[..|rows| - 1])[row.stopId := Stop(row.stopId, row.stopCode.GetOr(""), row.stopName, row.stopLat, row.stopLon)]
  }

  method LoadStops(rows: seq<StopRow>) returns (stops: map<string, Stop>)
    ensures stops == LoadedStops(rows)
    ensures KeyedById(stops)
    ensures forall id :: id in stops <==> LastIndex(StopIds(rows), id) >= 0
    ensures forall id :: id in stops ==>
      var k := LastIndex(StopIds(rows), id);
      stops[id] == Stop(rows[k].stopId, rows[k].stopCode.GetOr(""), rows[k].stopName, rows[k].stopLat, rows[k].stopLon)
  {
    ghost var ids := StopIds(rows);
    stops := map[];
    for i := 0 to |rows|
      invariant stops == LoadedStops(rows[..i])
      invariant forall id :: id in stops <==> LastIndex(ids[..i], id) >= 0
      invariant forall id :: id in stops ==>
        var k := LastIndex(ids[..i], id);
        0 <= k < i && stops[id] == Stop(rows[k].stopId, rows[k].stopCode.GetOr(""), rows[k].stopName, rows[k].stopLat, rows[k].stopLon)
    {
      var row := rows[i];
      stops := stops[row.stopId := Stop(row.stopId, row.stopCode.GetOr(""), row.stopName, row.stopLat, row.stopLon)];
      assert rows[..i + 1][..i] == rows[..i];
      assert ids[..i + 1] == ids[..i] + [ids[i]];
      forall id ensures LastIndex(ids[..i + 1], id) == if ids[i] == id then i else LastIndex(ids[..i], id) {
        LastIndexSnoc(ids[..i], ids[i], id);
      }
    }
    assert rows[..|rows|] == rows;
    assert ids[..|rows|] == ids;
  }

  /** The dict `load_trips` builds from the rows, entry by entry. */
  ghost function LoadedTrips(rows: seq<TripRow>): map<string, Trip>
    decreases |rows|
  {
    if rows == [] then map[]
    else
      var row := rows[|rows| - 1];
      LoadedTrips(rows[..|rows| - 1])[row.tripId := Trip(row.routeId, row.shapeId, row.tripHeadsign.GetOr(""))]
  }

  method LoadTrips(rows: seq<TripRow>) returns (trips: map<string, Trip>)
    ensures trips == LoadedTrips(rows)
    ensures forall id :: id in trips <==> LastIndex(TripIds(rows), id) >= 0
    ensures forall id :: id in trips ==>
      var k := LastIndex(TripIds(rows), id);
      trips[id] == Trip(rows[k].routeId, rows[k].shapeId, rows[k].tripHeadsign.GetOr(""))
  {
    ghost var ids := TripIds(rows);
    trips := map[];
    for i := 0 to |rows|
      invariant trips == LoadedTrips(rows[..i])
      invariant forall id :: id in trips <==> LastIndex(ids[..i], id) >= 0
      invariant forall id :: id in trips ==>
        var k := LastIndex(ids[..i], id);
        0 <= k < i && trips[id] == Trip(rows[k].routeId, rows[k].shapeId, rows[k].tripHeadsign.GetOr(""))
    {
      var row := rows[i];
      trips := trips[row.tripId := Trip(row.routeId, row.shapeId, row.tripHeadsign.GetOr(""))];
      assert rows[..i + 1][..i] == rows[..i];
      assert ids[..i + 1] == ids[..i] + [ids[i]];
      forall id ensures LastIndex(ids[..i + 1], id) == if ids[i] == id then i else LastIndex(ids[..i], id) {
        LastIndexSnoc(ids[..i], ids[i], id);
      }
    }
    assert rows[..|rows|] == rows;
    assert ids[..|rows|] == ids;
  }

  // ---------------------------------------------------------------------------
  // Grouping stop_times rows by route and shape

  /** The row belongs to a known trip of route `routeId` on shape `shapeId` and names a known stop. */
  ghost predicate Feeds(trips: map<string, Trip>, stops: map<string, Stop>, row: StopTimeRow, routeId: string, shapeId: string) {
    && row.tripId in trips
    && trips[row.tripId].routeId == routeId
    && trips[row.tripId].shapeId == shapeId
    && row.stopId in stops
  }

  /** The set of (stop_id, stop_sequence) pairs that the rows contribute to one route and shape. */
  ghost function Pairs(trips: map<string, Trip>, stops: map<string, Stop>, rows: seq<StopTimeRow>,
                       routeId: string, shapeId: string): set<StopAt>
    decreases |rows|
  {
    if rows == [] then {}
    else
      var row := rows[|rows| - 1];
      Pairs(trips, stops, rows[..|rows| - 1], routeId, shapeId)
      + if Feeds(trips, stops, row, routeId, shapeId) then {(row.stopId, row.stopSequence)} else {}
  }

  /** A pair is recorded for a route and shape exactly when some row feeding them carries it. */
  lemma {:induction false} PairsMeaning(trips: map<string, Trip>, stops: map<string, Stop>, rows: seq<StopTimeRow>,
                                        routeId: string, shapeId: string, p: StopAt)
    ensures p in Pairs(trips, stops, rows, routeId, shapeId)
        <==> exists k :: 0 <= k < |rows| && Feeds(trips, stops, rows[k], routeId, shapeId)
                         && p == (rows[k].stopId, rows[k].stopSequence)
    decreases |rows|
  {
    if rows != [] {
      var init := rows[..|rows| - 1];
      PairsMeaning(trips, stops, init, routeId, shapeId, p);
      assert forall k :: 0 <= k < |init| ==> init[k] == rows[k];
    }
  }

  /** Grouping distributes over concatenation of the row sequence. */
  lemma {:induction false} PairsAppend(trips: map<string, Trip>, stops: map<string, Stop>, a: seq<StopTimeRow>,
                                       b: seq<StopTimeRow>, routeId: string, shapeId: string)
    ensures Pairs(trips, stops, a + b, routeId, shapeId)
         == Pairs(trips, stops, a, routeId, shapeId) + Pairs(trips, stops, b, routeId, shapeId)
    decreases |b|
  {
    if b != [] {
      var n := |b| - 1;
      assert (a + b)[..|a + b| - 1] == a + b[..n];
      PairsAppend(trips, stops, a, b[..n], routeId, shapeId);
    } else {
      assert a + b == a;
    }
  }

  /** A row that does not feed a route and shape can be removed, wherever it stands, without
      changing that route and shape's pairs. */
  lemma IgnoredRow(trips: map<string, Trip>, stops: map<string, Stop>, before: seq<StopTimeRow>, row: StopTimeRow,
                   after: seq<StopTimeRow>, routeId: string, shapeId: string)
    requires !Feeds(trips, stops, row, routeId, shapeId)
    ensures Pairs(trips, stops, before + [row] + after, routeId, shapeId)
         == Pairs(trips, stops, before + after, routeId, shapeId)
  {
    PairsAppend(trips, stops, before + [row], after, routeId, shapeId);
    PairsAppend(trips, stops, before, [row], routeId, shapeId);
    PairsAppend(trips, stops, before, after, routeId, shapeId);
    assert [row][..0] == [];
  }

  /** A stop_times row whose trip is unknown contributes nothing to any route or shape. */
  lemma UnknownTripIgnored(trips: map<string, Trip>, stops: map<string, Stop>, before: seq<StopTimeRow>,
                           row: StopTimeRow, after: seq<StopTimeRow>, routeId: string, shapeId: string)
    requires row.tripId !in trips
    ensures Pairs(trips, stops, before + [row] + after, routeId, shapeId)
         == Pairs(trips, stops, before + after, routeId, shapeId)
  {
    IgnoredRow(trips, stops, before, row, after, routeId, shapeId);
  }

  /** A stop_times row whose stop is unknown contributes nothing to any route or shape. */
  lemma UnknownStopIgnored(trips: map<string, Trip>, stops: map<string, Stop>, before: seq<StopTimeRow>,
                           row: StopTimeRow, after: seq<StopTimeRow>, routeId: string, shapeId: string)
    requires row.stopId !in stops
    ensures Pairs(trips, stops, before + [row] + after, routeId, shapeId)
         == Pairs(trips, stops, before + after, routeId, shapeId)
  {
    IgnoredRow(trips, stops, before, row, after, routeId, shapeId);
  }

  /** A row repeating a (stop_id, stop_sequence) pair already recorded for its route and shape,
      for instance from another trip on the same shape, changes nothing. */
  lemma RepeatedPairCollapses(trips: map<string, Trip>, stops: map<string, Stop>, before: seq<StopTimeRow>,
                              row: StopTimeRow, after: seq<StopTimeRow>, routeId: string, shapeId: string)
    requires (row.stopId, row.stopSequence) in Pairs(trips, stops, before, routeId, shapeId)
    ensures Pairs(trips, stops, before + [row] + after, routeId, shapeId)
         == Pairs(trips, stops, before + after, routeId, shapeId)
  {
    PairsAppend(trips, stops, before + [row], after, routeId, shapeId);
    PairsAppend(trips, stops, before, [row], routeId, shapeId);
    PairsAppend(trips, stops, before, after, routeId, shapeId);
    assert [row][..0] == [];
  }

  /** The state of the nested `defaultdict(set)` after some rows: it holds exactly the routes and
      shapes that received a pair, each with its pairs. */
  ghost predicate Grouped(trips: map<string, Trip>, stops: map<string, Stop>, rows: seq<StopTimeRow>,
                          groups: map<string, map<string, set<StopAt>>>)
  {
    && (forall r, s :: r in groups && s in groups[r] ==>
          groups[r][s] == Pairs(trips, stops, rows, r, s) && groups[r][s] != {})
    && (forall r, s :: Pairs(trips, stops, rows, r, s) != {} ==> r in groups && s in groups[r])
    && (forall r :: r in groups ==> groups[r] != map[])
  }

  /** `route_stops[route_id][shape_id].add(pair)`, creating the inner dict and set on first use. */
  function AddPair(groups: map<string, map<string, set<StopAt>>>, routeId: string, shapeId: string, p: StopAt)
    : (g: map<string, map<string, set<StopAt>>>)
    ensures g.Keys == groups.Keys + {routeId}
    ensures forall r :: r in g ==> g[r].Keys == (if r in groups then groups[r].Keys else {}) + (if r == routeId then {shapeId} else {})
    ensures forall r, s :: r in g && s in g[r] ==>
      g[r][s] == (if r in groups && s in groups[r] then groups[r][s] else {}) + (if r == routeId && s == shapeId then {p} else {})
  {
    var shapes := if routeId in groups then groups[routeId] else map[];
    var pairs := if shapeId in shapes then shapes[shapeId] else {};
    groups[routeId := shapes[shapeId := pairs + {p}]]
  }

  /** One more row adds its pair to the route and shape it feeds, and nothing elsewhere. */
  lemma PairsSnoc(trips: map<string, Trip>, stops: map<string, Stop>, rows: seq<StopTimeRow>, row: StopTimeRow,
                  routeId: string, shapeId: string)
    ensures Pairs(trips, stops, rows + [row], routeId, shapeId)
         == Pairs(trips, stops, rows, routeId, shapeId)
            + if Feeds(trips, stops, row, routeId, shapeId) then {(row.stopId, row.stopSequence)} else {}
  {
    assert (rows + [row])[..|rows|] == rows;
  }

  lemma GroupedStep(trips: map<string, Trip>, stops: map<string, Stop>, rows: seq<StopTimeRow>, row: StopTimeRow,
                    groups: map<string, map<string, set<StopAt>>>)
    requires Grouped(trips, stops, rows, groups)
    requires row.tripId in trips && row.stopId in stops
    ensures Grouped(trips, stops, rows + [row],
                    AddPair(groups, trips[row.tripId].routeId, trips[row.tripId].shapeId, (row.stopId, row.stopSequence)))
  {
    GroupedStepValues(trips, stops, rows, row, groups);
    GroupedStepKeys(trips, stops, rows, row, groups);
  }

  lemma GroupedStepValues(trips: map<string, Trip>, stops: map<string, Stop>, rows: seq<StopTimeRow>, row: StopTimeRow,
                          groups: map<string, map<string, set<StopAt>>>)
    requires Grouped(trips, stops, rows, groups)
    requires row.tripId in trips && row.stopId in stops
    ensures var g := AddPair(groups, trips[row.tripId].routeId, trips[row.tripId].shapeId, (row.stopId, row.stopSequence));
            forall r, s :: r in g && s in g[r] ==> g[r][s] == Pairs(trips, stops, rows + [row], r, s) && g[r][s] != {}
  {
    var route, shape, p := trips[row.tripId].routeId, trips[row.tripId].shapeId, (row.stopId, row.stopSequence);
    var g := AddPair(groups, route, shape, p);
    forall r, s | r in g && s in g[r] ensures g[r][s] == Pairs(trips, stops, rows + [row], r, s) && g[r][s] != {} {
      PairsSnoc(trips, stops, rows, row, r, s);
      assert Feeds(trips, stops, row, r, s) <==> r == route && s == shape;
      if r in groups && s in groups[r] {
        assert groups[r][s] == Pairs(trips, stops, rows, r, s);
      } else {
        assert Pairs(trips, stops, rows, r, s) == {};
      }
    }
  }

  lemma GroupedStepKeys(trips: map<string, Trip>, stops: map<string, Stop>, rows: seq<StopTimeRow>, row: StopTimeRow,
                        groups: map<string, map<string, set<StopAt>>>)
    requires Grouped(trips, stops, rows, groups)
    requires row.tripId in trips && row.stopId in stops
    ensures var g := AddPair(groups, trips[row.tripId].routeId, trips[row.tripId].shapeId, (row.stopId, row.stopSequence));
            forall r, s :: Pairs(trips, stops, rows + [row], r, s) != {} ==> r in g && s in g[r]
  {
    var route, shape, p := trips[row.tripId].routeId, trips[row.tripId].shapeId, (row.stopId, row.stopSequence);
    var g := AddPair(groups, route, shape, p);
    forall r, s | Pairs(trips, stops, rows + [row], r, s) != {} ensures r in g && s in g[r] {
      PairsSnoc(trips, stops, rows, row, r, s);
      assert Feeds(trips, stops, row, r, s) <==> r == route && s == shape;
    }
  }

  /** A row that feeds nothing leaves the grouping state as it is. */
  lemma GroupedSkip(trips: map<string, Trip>, stops: map<string, Stop>, rows: seq<StopTimeRow>, row: StopTimeRow,
                    groups: map<string, map<string, set<StopAt>>>)
    requires Grouped(trips, stops, rows, groups)
    requires !(row.tripId in trips && row.stopId in stops)
    ensures Grouped(trips, stops, rows + [row], groups)
  {
    forall r, s ensures Pairs(trips, stops, rows + [row], r, s) == Pairs(trips, stops, rows, r, s) {
      PairsSnoc(trips, stops, rows, row, r, s);
    }
  }

  method GroupStopTimes(trips: map<string, Trip>, stops: map<string, Stop>, stopTimes: seq<StopTimeRow>)
    returns (groups: map<string, map<string, set<StopAt>>>)
    ensures Grouped(trips, stops, stopTimes, groups)
  {
    groups := map[];
    for i := 0 to |stopTimes|
      invariant Grouped(trips, stops, stopTimes[..i], groups)
    {
      var row := stopTimes[i];
      assert stopTimes[..i + 1] == stopTimes[..i] + [row];
      if row.tripId !in trips {
        GroupedSkip(trips, stops, stopTimes[..i], row, groups);
        continue;
      }
      var trip := trips[row.tripId];
      if row.stopId in stops {
        GroupedStep(trips, stops, stopTimes[..i], row, groups);
        groups := AddPair(groups, trip.routeId, trip.shapeId, (row.stopId, row.stopSequence));
      } else {
        GroupedSkip(trips, stops, stopTimes[..i], row, groups);
      }
    }
    assert stopTimes[..|stopTimes|] == stopTimes;
  }

  // ---------------------------------------------------------------------------
  // Ordering one shape's pairs and keeping one entry per stop

  ghost predicate SortedBySequence(ps: seq<StopAt>) {
    forall i, j :: 0 <= i < j < |ps| ==> ps[i].1 <= ps[j].1
  }

  lemma {:induction false} MinSequenceExists(pairs: set<StopAt>)
    requires pairs != {}
    ensures exists m :: m in pairs && forall p :: p in pairs ==> m.1 <= p.1
  {
    var x :| x in pairs;
    var rest := pairs - {x};
    if rest == {} {
      forall p | p in pairs ensures x.1 <= p.1 {
        assert p !in rest;
      }
      assert x in pairs;
    } else {
      MinSequenceExists(rest);
      var m :| m in rest && forall p :: p in rest ==> m.1 <= p.1;
      var least := if x.1 < m.1 then x else m;
      forall p | p in pairs ensures least.1 <= p.1 {
        if p != x {
          assert p in rest;
        }
      }
      assert least in pairs;
    }
  }

  /** `sorted(stop_set, key=lambda x: x[1])`: the pairs of the set, each once, by ascending
      sequence. Python visits the set in an unspecified order and its sort is stable, so pairs
      with equal sequences may come out in any order; the choice below may pick any of them. */
  method SortBySequence(pairs: set<StopAt>) returns (sorted: seq<StopAt>)
    ensures SortedBySequence(sorted)
    ensures forall i, j :: 0 <= i < j < |sorted| ==> sorted[i] != sorted[j]
    ensures forall p :: p in pairs <==> p in sorted
  {
    sorted := [];
    var rest := pairs;
    while rest != {}
      invariant rest <= pairs
      invariant forall p :: p in pairs <==> p in sorted || p in rest
      invariant forall p :: p in sorted ==> p !in rest
      invariant forall i, j :: 0 <= i < j < |sorted| ==> sorted[i] != sorted[j]
      invariant SortedBySequence(sorted)
      invariant forall i, p :: 0 <= i < |sorted| && p in rest ==> sorted[i].1 <= p.1
      decreases |rest|
    {
      MinSequenceExists(rest);
      var m :| m in rest && forall p :: p in rest ==> m.1 <= p.1;
      sorted := sorted + [m];
      rest := rest - {m};
    }
  }

  function WithSequence(stop: Stop, sequence: int): StopEntry {
    StopEntry(stop.id, stop.code, stop.name, stop.lat, stop.lon, sequence)
  }

  ghost predicate AscendingBySequence(list: seq<StopEntry>) {
    forall i, j :: 0 <= i < j < |list| ==> list[i].sequence <= list[j].sequence
  }

  ghost predicate DistinctStops(list: seq<StopEntry>) {
    forall i, j :: 0 <= i < j < |list| ==> list[i].id != list[j].id
  }

  /** Every entry is a stop's record plus a sequence recorded for that stop, the smallest one. */
  ghost predicate EntriesFrom(stops: map<string, Stop>, pairs: set<StopAt>, list: seq<StopEntry>) {
    forall i :: 0 <= i < |list| ==>
      && list[i].id in stops
      && list[i] == WithSequence(stops[list[i].id], list[i].sequence)
      && (list[i].id, list[i].sequence) in pairs
      && forall p :: p in pairs && p.0 == list[i].id ==> list[i].sequence <= p.1
  }

  /** Every stop of `pairs` has an entry. */
  ghost predicate Covers(pairs: set<StopAt>, list: seq<StopEntry>) {
    forall p :: p in pairs ==> exists i :: 0 <= i < |list| && list[i].id == p.0
  }

  /** What the converter promises of one shape's stop list built from `pairs`:
      ascending sequence, one entry per stop, each entry the stop's record plus the smallest
      sequence recorded for that stop, and every stop of `pairs` present. */
  ghost predicate StopList(stops: map<string, Stop>, pairs: set<StopAt>, list: seq<StopEntry>) {
    AscendingBySequence(list) && DistinctStops(list) && EntriesFrom(stops, pairs, list) && Covers(pairs, list)
  }

  lemma StopListNonEmpty(stops: map<string, Stop>, pairs: set<StopAt>, list: seq<StopEntry>)
    requires StopList(stops, pairs, list) && pairs != {}
    ensures list != []
  {
    var p :| p in pairs;
    assert Covers(pairs, list);
  }

  /** The ids of the entries of a list: the `seen_stops` set. */
  ghost function IdSet(list: seq<StopEntry>): set<string> {
    set e | e in list :: e.id
  }

  lemma IdSetSnoc(list: seq<StopEntry>, e: StopEntry)
    ensures IdSet(list + [e]) == IdSet(list) + {e.id}
  {
    assert forall x :: x in list + [e] <==> x in list || x == e;
  }

  /** After `n` sorted pairs the loop has kept, in order, the first pair of every stop met so
      far; `idx` records the positions of the kept pairs. */
  ghost predicate FirstPicks(stops: map<string, Stop>, sorted: seq<StopAt>, n: nat, unique: seq<StopEntry>, idx: seq<int>) {
    && n <= |sorted|
    && |idx| == |unique|
    && (forall t :: 0 <= t < |idx| ==> 0 <= idx[t] < n)
    && (forall t, u :: 0 <= t < u < |idx| ==> idx[t] < idx[u])
    && (forall t :: 0 <= t < |idx| ==>
          && sorted[idx[t]].0 in stops
          && unique[t] == WithSequence(stops[sorted[idx[t]].0], sorted[idx[t]].1)
          && unique[t].id == sorted[idx[t]].0)
    && (forall t, j :: 0 <= t < |idx| && 0 <= j < idx[t] ==> sorted[j].0 != sorted[idx[t]].0)
    && (forall k :: 0 <= k < n ==> sorted[k].0 in IdSet(unique))
  }

  lemma FirstPicksSkip(stops: map<string, Stop>, sorted: seq<StopAt>, n: nat, unique: seq<StopEntry>, idx: seq<int>)
    requires FirstPicks(stops, sorted, n, unique, idx) && n < |sorted|
    requires sorted[n].0 in IdSet(unique)
    ensures FirstPicks(stops, sorted, n + 1, unique, idx)
  {
  }

  lemma FirstPicksTake(stops: map<string, Stop>, sorted: seq<StopAt>, n: nat, unique: seq<StopEntry>, idx: seq<int>)
    requires FirstPicks(stops, sorted, n, unique, idx) && n < |sorted|
    requires KeyedById(stops) && sorted[n].0 in stops
    requires sorted[n].0 !in IdSet(unique)
    ensures FirstPicks(stops, sorted, n + 1, unique + [WithSequence(stops[sorted[n].0], sorted[n].1)], idx + [n])
    ensures IdSet(unique + [WithSequence(stops[sorted[n].0], sorted[n].1)]) == IdSet(unique) + {sorted[n].0}
  {
    var e := WithSequence(stops[sorted[n].0], sorted[n].1);
    var more := unique + [e];
    assert e.id == sorted[n].0;
    IdSetSnoc(unique, e);
    var idx' := idx + [n];
    forall t | 0 <= t < |idx'|
      ensures 0 <= idx'[t] < n + 1
      ensures sorted[idx'[t]].0 in stops && more[t] == WithSequence(stops[sorted[idx'[t]].0], sorted[idx'[t]].1)
      ensures more[t].id == sorted[idx'[t]].0
    {
      if t < |idx| {
        assert idx'[t] == idx[t] && more[t] == unique[t];
      }
    }
    forall t, u | 0 <= t < u < |idx'| ensures idx'[t] < idx'[u] {
      assert idx'[t] == idx[t];
    }
    forall t, j | 0 <= t < |idx'| && 0 <= j < idx'[t] ensures sorted[j].0 != sorted[idx'[t]].0 {
      if t == |idx| {
        assert sorted[j].0 in IdSet(unique);
      } else {
        assert idx'[t] == idx[t];
      }
    }
  }

  /** Each kept entry carries the smallest sequence of its stop, because the pairs are sorted
      and the entry is the stop's first pair. */
  lemma FirstPicksMinimal(stops: map<string, Stop>, sorted: seq<StopAt>, unique: seq<StopEntry>, idx: seq<int>, i: int)
    requires FirstPicks(stops, sorted, |sorted|, unique, idx)
    requires SortedBySequence(sorted)
    requires 0 <= i < |unique|
    ensures (unique[i].id, unique[i].sequence) in sorted
    ensures forall p :: p in sorted && p.0 == unique[i].id ==> unique[i].sequence <= p.1
  {
    assert sorted[idx[i]] == (unique[i].id, unique[i].sequence);
    forall p | p in sorted && p.0 == unique[i].id ensures unique[i].sequence <= p.1 {
      var j :| 0 <= j < |sorted| && sorted[j] == p;
      assert !(j < idx[i]);
    }
  }

  lemma FirstPicksDone(stops: map<string, Stop>, sorted: seq<StopAt>, unique: seq<StopEntry>, idx: seq<int>)
    requires FirstPicks(stops, sorted, |sorted|, unique, idx)
    requires SortedBySequence(sorted)
    ensures StopList(stops, (set p | p in sorted), unique)
  {
    var pairs := set p | p in sorted;
    forall i, j | 0 <= i < j < |unique| ensures unique[i].sequence <= unique[j].sequence {
      assert idx[i] < idx[j];
    }
    assert AscendingBySequence(unique);
    forall i, j | 0 <= i < j < |unique| ensures unique[i].id != unique[j].id {
      assert idx[i] < idx[j];
    }
    assert DistinctStops(unique);
    forall i | 0 <= i < |unique|
      ensures (unique[i].id, unique[i].sequence) in pairs
      ensures forall p :: p in pairs && p.0 == unique[i].id ==> unique[i].sequence <= p.1
    {
      FirstPicksMinimal(stops, sorted, unique, idx, i);
    }
    assert EntriesFrom(stops, pairs, unique);
    forall p | p in pairs ensures exists i :: 0 <= i < |unique| && unique[i].id == p.0 {
      var k :| 0 <= k < |sorted| && sorted[k] == p;
      assert p.0 in IdSet(unique);
      var e :| e in unique && e.id == p.0;
      var i :| 0 <= i < |unique| && unique[i] == e;
    }
    assert Covers(pairs, unique);
  }

  /** The `seen_stops` loop: walks the sorted pairs and keeps the first pair of every stop. */
  method KeepFirstPerStop(stops: map<string, Stop>, sorted: seq<StopAt>) returns (unique: seq<StopEntry>)
    requires KeyedById(stops)
    requires forall k :: 0 <= k < |sorted| ==> sorted[k].0 in stops
    requires SortedBySequence(sorted)
    ensures StopList(stops, (set p | p in sorted), unique)
  {
    var seen: set<string> := {};
    unique := [];
    ghost var idx: seq<int> := [];
    for i := 0 to |sorted|
      invariant FirstPicks(stops, sorted, i, unique, idx)
      invariant seen == IdSet(unique)
    {
      var (stopId, sequence) := sorted[i];
      if stopId !in seen {
        FirstPicksTake(stops, sorted, i, unique, idx);
        seen := seen + {stopId};
        unique := unique + [WithSequence(stops[stopId], sequence)];
        idx := idx + [i];
      } else {
        FirstPicksSkip(stops, sorted, i, unique, idx);
      }
    }
    FirstPicksDone(stops, sorted, unique, idx);
  }

  /** One shape's list: the sort at line 86 followed by the loop at lines 88-95. */
  method OrderShapeStops(stops: map<string, Stop>, pairs: set<StopAt>) returns (list: seq<StopEntry>)
    requires KeyedById(stops)
    requires forall p :: p in pairs ==> p.0 in stops
    ensures StopList(stops, pairs, list)
  {
    var sorted := SortBySequence(pairs);
    list := KeepFirstPerStop(stops, sorted);
    assert (set p | p in sorted) == pairs;
  }

  /** The inner loop of lines 84-97 over one route's shapes. */
  method ConvertShapes(stops: map<string, Stop>, shapes: map<string, set<StopAt>>)
    returns (lists: map<string, seq<StopEntry>>)
    requires KeyedById(stops)
    requires forall s, p :: s in shapes && p in shapes[s] ==> p.0 in stops
    ensures lists.Keys == shapes.Keys
    ensures forall s :: s in lists ==> StopList(stops, shapes[s], lists[s])
  {
    lists := map[];
    var todo := shapes.Keys;
    while todo != {}
      invariant todo <= shapes.Keys
      invariant lists.Keys == shapes.Keys - todo
      invariant forall s :: s in lists ==> StopList(stops, shapes[s], lists[s])
      decreases |todo|
    {
      var s :| s in todo;
      var list := OrderShapeStops(stops, shapes[s]);
      lists := lists[s := list];
      todo := todo - {s};
    }
  }

  /** The outer loop of lines 81-97 over the grouped routes. */
  method ConvertGroups(stops: map<string, Stop>, groups: map<string, map<string, set<StopAt>>>)
    returns (result: map<string, map<string, seq<StopEntry>>>)
    requires KeyedById(stops)
    requires forall r, s, p :: r in groups && s in groups[r] && p in groups[r][s] ==> p.0 in stops
    ensures ConvertedFrom(stops, groups, result)
  {
    result := map[];
    var todo := groups.Keys;
    while todo != {}
      invariant todo <= groups.Keys
      invariant result.Keys == groups.Keys - todo
      invariant forall r :: r in result ==> result[r].Keys == groups[r].Keys
      invariant forall r, s :: r in result && s in result[r] ==> StopList(stops, groups[r][s], result[r][s])
      decreases |todo|
    {
      var r :| r in todo;
      var lists := ConvertShapes(stops, groups[r]);
      result := result[r := lists];
      todo := todo - {r};
    }
  }

  /** `load_route_stops`: route id -> shape id -> ordered, deduplicated stop list. A route or
      shape appears exactly when some stop_times row of a known trip names a known stop for it,
      so no emitted list is empty. With no stop_times row at all the function raises instead:
      the row counter it reports after the loop (line 78) is never bound. */
  method LoadRouteStops(trips: map<string, Trip>, stops: map<string, Stop>, stopTimes: seq<StopTimeRow>)
    returns (loaded: Option<map<string, map<string, seq<StopEntry>>>>)
    requires KeyedById(stops)
    ensures loaded.None? <==> stopTimes == []
    ensures loaded.Some? ==> forall r, s :: r in loaded.value && s in loaded.value[r] ==> Pairs(trips, stops, stopTimes, r, s) != {}
    ensures loaded.Some? ==> forall r, s :: Pairs(trips, stops, stopTimes, r, s) != {} ==> r in loaded.value && s in loaded.value[r]
    ensures loaded.Some? ==> forall r :: r in loaded.value ==> loaded.value[r] != map[]
    ensures loaded.Some? ==> forall r, s :: r in loaded.value && s in loaded.value[r] ==>
      StopList(stops, Pairs(trips, stops, stopTimes, r, s), loaded.value[r][s]) && loaded.value[r][s] != []
  {
    var groups := GroupStopTimes(trips, stops, stopTimes);
    if stopTimes == [] {
      return None;
    }
    GroupedStopsKnown(trips, stops, stopTimes, groups);
    var result := ConvertGroups(stops, groups);
    GroupsConvertedKeys(trips, stops, stopTimes, groups, result);
    GroupsConvertedLists(trips, stops, stopTimes, groups, result);
    loaded := Some(result);
  }

  /** Every pair recorded in the grouping names a known stop. */
  lemma GroupedStopsKnown(trips: map<string, Trip>, stops: map<string, Stop>, rows: seq<StopTimeRow>,
                          groups: map<string, map<string, set<StopAt>>>)
    requires Grouped(trips, stops, rows, groups)
    ensures forall r, s, p :: r in groups && s in groups[r] && p in groups[r][s] ==> p.0 in stops
  {
    forall r, s, p: StopAt | r in groups && s in groups[r] && p in groups[r][s] ensures p.0 in stops {
      PairsMeaning(trips, stops, rows, r, s, p);
    }
  }

  /** What the conversion loops keep of the grouping: the same routes and shapes, each set
      turned into its stop list. */
  ghost predicate ConvertedFrom(stops: map<string, Stop>, groups: map<string, map<string, set<StopAt>>>,
                                result: map<string, map<string, seq<StopEntry>>>)
  {
    && result.Keys == groups.Keys
    && (forall r :: r in result ==> result[r].Keys == groups[r].Keys)
    && (forall r, s :: r in result && s in result[r] ==> StopList(stops, groups[r][s], result[r][s]))
  }

  /** The converted routes and shapes are exactly those that received a pair. */
  lemma GroupsConvertedKeys(trips: map<string, Trip>, stops: map<string, Stop>, rows: seq<StopTimeRow>,
                            groups: map<string, map<string, set<StopAt>>>, result: map<string, map<string, seq<StopEntry>>>)
    requires Grouped(trips, stops, rows, groups)
    requires ConvertedFrom(stops, groups, result)
    ensures forall r, s :: r in result && s in result[r] ==> Pairs(trips, stops, rows, r, s) != {}
    ensures forall r, s :: Pairs(trips, stops, rows, r, s) != {} ==> r in result && s in result[r]
    ensures forall r :: r in result ==> result[r] != map[]
  {
    forall r | r in result ensures result[r] != map[] {
      assert groups[r] != map[];
      var s :| s in groups[r];
      assert s in result[r];
    }
  }

  /** Every converted list is the stop list of its route and shape's pairs, and is not empty. */
  lemma GroupsConvertedLists(trips: map<string, Trip>, stops: map<string, Stop>, rows: seq<StopTimeRow>,
                             groups: map<string, map<string, set<StopAt>>>, result: map<string, map<string, seq<StopEntry>>>)
    requires Grouped(trips, stops, rows, groups)
    requires ConvertedFrom(stops, groups, result)
    ensures forall r, s :: r in result && s in result[r] ==>
      StopList(stops, Pairs(trips, stops, rows, r, s), result[r][s]) && result[r][s] != []
  {
    forall r, s | r in result && s in result[r]
      ensures StopList(stops, Pairs(trips, stops, rows, r, s), result[r][s]) && result[r][s] != []
    {
      StopListNonEmpty(stops, groups[r][s], result[r][s]);
    }
  }

  /** The metadata join of `main`: only routes known to routes.txt are kept, each with its
      short and long name and its shapes unchanged. */
  method AttachRouteNames(routeStops: map<string, map<string, seq<StopEntry>>>, routes: map<string, RouteInfo>)
    returns (output: map<string, RouteStopsRecord>)
    ensures output.Keys == routeStops.Keys * routes.Keys
    ensures forall r :: r in output ==>
      output[r] == RouteStopsRecord(routes[r].shortName, routes[r].longName, routeStops[r])
  {
    output := map[];
    var todo := routeStops.Keys;
    while todo != {}
      invariant todo <= routeStops.Keys
      invariant output.Keys == (routeStops.Keys - todo) * routes.Keys
      invariant forall r :: r in output ==>
        output[r] == RouteStopsRecord(routes[r].shortName, routes[r].longName, routeStops[r])
      decreases |todo|
    {
      var r :| r in todo;
      if r in routes {
        output := output[r := RouteStopsRecord(routes[r].shortName, routes[r].longName, routeStops[r])];
      }
      todo := todo - {r};
    }
  }

  /** The object route-stops.json receives, stated over the loaded routes, stops and trips: the
      routes of routes.txt that received a stop, each with the shapes that received one, the stop
      list of each shape's pairs, and the route's names. */
  ghost predicate OutputFromLoaded(output: map<string, RouteStopsRecord>, routes: map<string, RouteInfo>,
                                   stops: map<string, Stop>, trips: map<string, Trip>, stopTimes: seq<StopTimeRow>)
  {
    && (forall r :: r in output ==> r in routes && output[r].shapes != map[])
    && (forall r, s :: r in routes && Pairs(trips, stops, stopTimes, r, s) != {} ==> r in output)
    && (forall r, s :: r in output ==> (s in output[r].shapes <==> Pairs(trips, stops, stopTimes, r, s) != {}))
    && (forall r :: r in output ==> output[r].name == routes[r].shortName && output[r].longName == routes[r].longName)
    && (forall r, s :: r in output && s in output[r].shapes ==>
          StopList(stops, Pairs(trips, stops, stopTimes, r, s), output[r].shapes[s]))
  }


  /** Attaching the names keeps every route of routes.txt that received a stop, with exactly the
      shapes that received one. */
  lemma AttachedKeys(trips: map<string, Trip>, stops: map<string, Stop>, stopTimes: seq<StopTimeRow>,
                     routes: map<string, RouteInfo>, routeStops: map<string, map<string, seq<StopEntry>>>,
                     output: map<string, RouteStopsRecord>)
    requires forall r, s :: r in routeStops && s in routeStops[r] ==> Pairs(trips, stops, stopTimes, r, s) != {}
    requires forall r, s :: Pairs(trips, stops, stopTimes, r, s) != {} ==> r in routeStops && s in routeStops[r]
    requires output.Keys == routeStops.Keys * routes.Keys
    requires forall r :: r in output ==> output[r] == RouteStopsRecord(routes[r].shortName, routes[r].longName, routeStops[r])
    ensures forall r, s :: r in routes && Pairs(trips, stops, stopTimes, r, s) != {} ==> r in output
    ensures forall r, s :: r in output ==> (s in output[r].shapes <==> Pairs(trips, stops, stopTimes, r, s) != {})
  {
    forall r, s | r in output ensures s in output[r].shapes <==> Pairs(trips, stops, stopTimes, r, s) != {} {
      assert output[r].shapes == routeStops[r];
    }
  }


  /** Attaching the names keeps only routes of routes.txt, with each shape's stop list, and takes
      the names from routes.txt. */
  lemma AttachedLists(trips: map<string, Trip>, stops: map<string, Stop>, stopTimes: seq<StopTimeRow>,
                      routes: map<string, RouteInfo>, routeStops: map<string, map<string, seq<StopEntry>>>,
                      output: map<string, RouteStopsRecord>)
    requires forall r :: r in routeStops ==> routeStops[r] != map[]
    requires forall r, s :: r in routeStops && s in routeStops[r] ==> StopList(stops, Pairs(trips, stops, stopTimes, r, s), routeStops[r][s])
    requires output.Keys == routeStops.Keys * routes.Keys
    requires forall r :: r in output ==> output[r] == RouteStopsRecord(routes[r].shortName, routes[r].longName, routeStops[r])
    ensures forall r :: r in output ==> r in routes && output[r].shapes != map[]
    ensures forall r :: r in output ==> output[r].name == routes[r].shortName && output[r].longName == routes[r].longName
    ensures forall r, s :: r in output && s in output[r].shapes ==>
      StopList(stops, Pairs(trips, stops, stopTimes, r, s), output[r].shapes[s])
  {
  }


  /** The whole conversion without its file I/O. `written` is the object written to
      route-stops.json, or None when the script aborts before writing (no stop_times row);
      `completes` tells whether the script then also prints its sample without failing, which
      needs at least one route in the output (line 135). Every emitted route is a route of
      routes.txt that received a stop, named by its last row there; its shapes are exactly the
      shapes that received a stop, each with the stop list of its pairs. */
  method ConvertRouteStops(routeRows: seq<RouteRow>, stopRows: seq<StopRow>, tripRows: seq<TripRow>,
                           stopTimeRows: seq<StopTimeRow>)
    returns (written: Option<map<string, RouteStopsRecord>>, completes: bool)
    ensures written.None? <==> stopTimeRows == []
    ensures completes <==> written.Some? && written.value != map[]
    ensures written.Some? ==>
      OutputFromLoaded(written.value, LoadedRoutes(routeRows), LoadedStops(stopRows), LoadedTrips(tripRows), stopTimeRows)
    ensures written.Some? ==> forall r :: r in written.value ==>
      var k := LastIndex(RouteIds(routeRows), r);
      k >= 0 && written.value[r].name == routeRows[k].routeShortName && written.value[r].longName == routeRows[k].routeLongName
    ensures written.Some? ==> forall r, s :: r in written.value && s in written.value[r].shapes ==>
      var list := written.value[r].shapes[s];
      && list != []
      && (forall i, j :: 0 <= i < j < |list| ==> list[i].sequence <= list[j].sequence && list[i].id != list[j].id)
      && (forall i :: 0 <= i < |list| ==> LastIndex(StopIds(stopRows), list[i].id) >= 0)
  {
    var routes := LoadRoutes(routeRows);
    var stops := LoadStops(stopRows);
    var trips := LoadTrips(tripRows);
    var loaded := LoadRouteStops(trips, stops, stopTimeRows);
    if loaded.None? {
      return None, false;
    }
    var routeStops := loaded.value;
    var output := AttachRouteNames(routeStops, routes);
    AttachedKeys(trips, stops, stopTimeRows, routes, routeStops, output);
    AttachedLists(trips, stops, stopTimeRows, routes, routeStops, output);
    written, completes := Some(output), output != map[];
  }
}

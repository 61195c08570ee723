/** The GTFS route-shape converter: from already-parsed routes, trips and shapes rows it
    builds, for every route that has drawable shapes, a record keyed by the route's short name
    holding each shape's polyline, thinned to every third point. CSV reading, number parsing,
    JSON writing and progress output are not part of this model. */
module RouteShapes {
  import opened Common

  /** A latitude or longitude; the converter copies these and compares them only when two
      points of a shape share a sequence number. */
  type Coord = real

  /** One row of routes.txt; `routeColor` is None when the file has no route_color column. */
  datatype RouteRow = RouteRow(routeId: string, routeShortName: string, routeLongName: string, routeColor: Option<string>)
  datatype RouteInfo = RouteInfo(shortName: string, longName: string, color: string)

  /** The two columns of trips.txt that this converter reads. */
  datatype TripRow = TripRow(routeId: string, shapeId: string)

  /** One row of shapes.txt, with the sequence already read as an integer. */
  datatype ShapeRow = ShapeRow(shapeId: string, lat: Coord, lon: Coord, sequence: int)

  /** The tuple `(seq, [lat, lon])` collected per shape. */
  datatype Point = Point(sequence: int, lat: Coord, lon: Coord)

  /** One `[lat, lon]` pair of an output polyline. */
  datatype LatLon = LatLon(lat: Coord, lon: Coord)

  /** One value of the output object, keyed by route short name. */
  datatype RouteShape = RouteShape(id: string, name: string, longName: string, color: string,
                                   shapes: map<string, seq<LatLon>>)

  // ---------------------------------------------------------------------------
  // load_routes: one entry per route id, the last row winning, colour defaulting to ""

  function RouteIds(rows: seq<RouteRow>): (ids: seq<string>)
    ensures |ids| == |rows| && forall k :: 0 <= k < |rows| ==> ids[k] == rows[k].routeId
  {
    seq(|rows|, k requires 0 <= k < |rows| => rows[k].routeId)
  }

  /** The dict `load_routes` builds from the rows, entry by entry. */
  ghost function LoadedRoutes(rows: seq<RouteRow>): map<string, RouteInfo>
    decreases |rows|
  {
    if rows == [] then map[]
    else
      var row := rows[|rows| - 1];
      LoadedRoutes(rows[..|rows| - 1])[row.routeId := RouteInfo(row.routeShortName, row.routeLongName, row.routeColor.GetOr(""))]
  }

  method LoadRoutes(rows: seq<RouteRow>) returns (routes: map<string, RouteInfo>)
    ensures routes == LoadedRoutes(rows)
    ensures forall id :: id in routes <==> LastIndex(RouteIds(rows), id) >= 0
    ensures forall id :: id in routes ==>
      var k := LastIndex(RouteIds(rows), id);
      routes[id] == RouteInfo(rows[k].routeShortName, rows[k].routeLongName, rows[k].routeColor.GetOr(""))
  {
    ghost var ids := RouteIds(rows);
    routes := map[];
    for i := 0 to |rows|
      invariant routes == LoadedRoutes(rows[..i])
      invariant forall id :: id in routes <==> LastIndex(ids[..i], id) >= 0
      invariant forall id :: id in routes ==>
        var k := LastIndex(ids[..i], id);
        0 <= k < i && routes[id] == RouteInfo(rows[k].routeShortName, rows[k].routeLongName, rows[k].routeColor.GetOr(""))
    {
      var row := rows[i];
      routes := routes[row.routeId := RouteInfo(row.routeShortName, row.routeLongName, row.routeColor.GetOr(""))];
      assert rows[..i + 1][..i] == rows[..i];
      assert ids[..i + 1] == ids[..i] + [ids[i]];
      forall id ensures LastIndex(ids[..i + 1], id) == if ids[i] == id then i else LastIndex(ids[..i], id) {
        LastIndexSnoc(ids[..i], ids[i], id);
      }
    }
    assert rows[..|rows|] == rows;
    assert ids[..|rows|] == ids;
  }

  // ---------------------------------------------------------------------------
  // load_trips: route id -> set of shape ids, keys in first-seen order

  function TripRouteIds(rows: seq<TripRow>): (ids: seq<string>)
    ensures |ids| == |rows| && forall k :: 0 <= k < |rows| ==> ids[k] == rows[k].routeId
  {
    seq(|rows|, k requires 0 <= k < |rows| => rows[k].routeId)
  }

  /** The shape ids of the trips of one route. */
  ghost function ShapeIdsOf(rows: seq<TripRow>, routeId: string): set<string>
    decreases |rows|
  {
    if rows == [] then {}
    else
      var row := rows[|rows| - 1];
      ShapeIdsOf(rows[..|rows| - 1], routeId) + if row.routeId == routeId then {row.shapeId} else {}
  }

  lemma {:induction false} ShapeIdsOfMeaning(rows: seq<TripRow>, routeId: string, shapeId: string)
    ensures shapeId in ShapeIdsOf(rows, routeId)
        <==> exists k :: 0 <= k < |rows| && rows[k].routeId == routeId && rows[k].shapeId == shapeId
    decreases |rows|
  {
    if rows != [] {
      var init := rows[..|rows| - 1];
      ShapeIdsOfMeaning(init, routeId, shapeId);
      assert forall k :: 0 <= k < |init| ==> init[k] == rows[k];
    }
  }

  /** The state of `route_shapes` after some rows, with its key order. */
  ghost predicate TripsLoaded(rows: seq<TripRow>, routeShapes: map<string, set<string>>, order: seq<string>) {
    && (forall r :: r in routeShapes <==> r in order)
    && order == RouteOrder(rows)
    && (forall r :: r in routeShapes ==> routeShapes[r] == ShapeIdsOf(rows, r) && routeShapes[r] != {})
    && (forall r :: ShapeIdsOf(rows, r) != {} ==> r in routeShapes)
  }

  /** `route_shapes[route_id].add(shape_id)` on a `defaultdict(set)`. */
  function AddShape(routeShapes: map<string, set<string>>, order: seq<string>, row: TripRow)
    : (res: (map<string, set<string>>, seq<string>))
  {
    var known := if row.routeId in routeShapes then routeShapes[row.routeId] else {};
    (routeShapes[row.routeId := known + {row.shapeId}],
     if row.routeId in routeShapes then order else order + [row.routeId])
  }

  lemma TripsLoadedStep(rows: seq<TripRow>, row: TripRow, routeShapes: map<string, set<string>>, order: seq<string>)
    requires TripsLoaded(rows, routeShapes, order)
    ensures TripsLoaded(rows + [row], AddShape(routeShapes, order, row).0, AddShape(routeShapes, order, row).1)
  {
    TripOrderStep(rows, row);
    AddShapeKeys(routeShapes, order, row);
    AddShapeValues(rows, row, routeShapes);
  }

  /** The key order grows exactly when a new route gets its first set. */
  lemma AddShapeKeys(routeShapes: map<string, set<string>>, order: seq<string>, row: TripRow)
    requires forall r :: r in routeShapes <==> r in order
    ensures forall r :: r in AddShape(routeShapes, order, row).0 <==> r in AddShape(routeShapes, order, row).1
  {
    var o := AddShape(routeShapes, order, row).1;
    forall r ensures r in AddShape(routeShapes, order, row).0 <==> r in o {
      assert r in o <==> r in order || r == row.routeId;
    }
  }

  /** Adding one trip's shape id keeps every set equal to the shape ids of its route's trips. */
  lemma AddShapeValues(rows: seq<TripRow>, row: TripRow, routeShapes: map<string, set<string>>)
    requires forall r :: r in routeShapes ==> routeShapes[r] == ShapeIdsOf(rows, r) && routeShapes[r] != {}
    requires forall r :: ShapeIdsOf(rows, r) != {} ==> r in routeShapes
    ensures var m := routeShapes[row.routeId := (if row.routeId in routeShapes then routeShapes[row.routeId] else {}) + {row.shapeId}];
      && (forall r :: r in m ==> m[r] == ShapeIdsOf(rows + [row], r) && m[r] != {})
      && (forall r :: ShapeIdsOf(rows + [row], r) != {} ==> r in m)
  {
    var m := routeShapes[row.routeId := (if row.routeId in routeShapes then routeShapes[row.routeId] else {}) + {row.shapeId}];
    forall r | r in m ensures m[r] == ShapeIdsOf(rows + [row], r) && m[r] != {} {
      ShapeIdsOfSnoc(rows, row, r);
      if r != row.routeId {
        assert m[r] == routeShapes[r];
      }
    }
    forall r | ShapeIdsOf(rows + [row], r) != {} ensures r in m {
      ShapeIdsOfSnoc(rows, row, r);
    }
  }

  lemma ShapeIdsOfSnoc(rows: seq<TripRow>, row: TripRow, routeId: string)
    ensures ShapeIdsOf(rows + [row], routeId) == ShapeIdsOf(rows, routeId) + if row.routeId == routeId then {row.shapeId} else {}
  {
    assert (rows + [row])[..|rows|] == rows;
  }

  /** The key order of `route_shapes`: a route joins the end when its first trip is read. */
  ghost function RouteOrder(rows: seq<TripRow>): seq<string>
    decreases |rows|
  {
    if rows == [] then []
    else
      var order := RouteOrder(rows[..|rows| - 1]);
      var routeId := rows[|rows| - 1].routeId;
      if routeId in order then order else order + [routeId]
  }

  lemma TripOrderStep(rows: seq<TripRow>, row: TripRow)
    ensures var order := RouteOrder(rows);
            RouteOrder(rows + [row]) == if row.routeId in order then order else order + [row.routeId]
  {
    assert (rows + [row])[..|rows|] == rows;
  }

  /** The key order is the route ids of the trips with repeats removed, first occurrence kept,
      so it lists every route with a trip exactly once. */
  lemma {:induction false} RouteOrderIsFirstOccurrences(rows: seq<TripRow>)
    ensures RouteOrder(rows) == FirstOccurrences(TripRouteIds(rows))
    decreases |rows|
  {
    if rows != [] {
      var init := rows[..|rows| - 1];
      RouteOrderIsFirstOccurrences(init);
      var ids := TripRouteIds(rows);
      assert ids[..|ids| - 1] == TripRouteIds(init);
    }
  }

  /** `load_trips`: every route with a trip maps to the set of distinct shape ids of its trips;
      `order` is the dict's key order, routes by first appearance. */
  /** The `route_shapes` dict and its key order that `load_trips` builds, row by row. */
  ghost function LoadedTrips(rows: seq<TripRow>): (map<string, set<string>>, seq<string>)
    decreases |rows|
  {
    if rows == [] then (map[], [])
    else
      var init := LoadedTrips(rows[..|rows| - 1]);
      AddShape(init.0, init.1, rows[|rows| - 1])
  }

  method LoadTrips(rows: seq<TripRow>) returns (routeShapes: map<string, set<string>>, order: seq<string>)
    ensures (routeShapes, order) == LoadedTrips(rows)
    ensures TripsLoaded(rows, routeShapes, order)
    ensures order == FirstOccurrences(TripRouteIds(rows))
  {
    routeShapes, order := map[], [];
    for i := 0 to |rows|
      invariant (routeShapes, order) == LoadedTrips(rows[..i])
      invariant TripsLoaded(rows[..i], routeShapes, order)
    {
      var row := rows[i];
      TripsLoadedStep(rows[..i], row, routeShapes, order);
      assert rows[..i + 1] == rows[..i] + [row];
      assert rows[..i + 1][..i] == rows[..i];
      routeShapes, order := AddShape(routeShapes, order, row).0, AddShape(routeShapes, order, row).1;
    }
    assert rows[..|rows|] == rows;
    RouteOrderIsFirstOccurrences(rows);
  }

  // ---------------------------------------------------------------------------
  // load_shapes: points grouped per shape, then sorted as (seq, [lat, lon]) tuples

  /** The points of one shape, in file order. */
  function PointsOf(rows: seq<ShapeRow>, shapeId: string): seq<Point>
    decreases |rows|
  {
    if rows == [] then []
    else
      var row := rows[|rows| - 1];
      PointsOf(rows[..|rows| - 1], shapeId) + if row.shapeId == shapeId then [Point(row.sequence, row.lat, row.lon)] else []
  }

  /** Python's ordering of `(seq, [lat, lon])` tuples: by sequence, then latitude, then longitude. */
  predicate PointLe(a: Point, b: Point) {
    a.sequence < b.sequence
    || (a.sequence == b.sequence && (a.lat < b.lat || (a.lat == b.lat && a.lon <= b.lon)))
  }

  predicate SortedPoints(s: seq<Point>) {
    forall i, j :: 0 <= i < j < |s| ==> PointLe(s[i], s[j])
  }

  /** The order on points is total and antisymmetric. */
  lemma PointLeTotal(a: Point, b: Point)
    ensures PointLe(a, b) || PointLe(b, a)
    ensures PointLe(a, b) && PointLe(b, a) ==> a == b
  {
  }

  lemma PointLeTrans(a: Point, b: Point, c: Point)
    requires PointLe(a, b) && PointLe(b, c)
    ensures PointLe(a, c)
  {
  }

  /** A point below every point of a sorted list can go in front of it. */
  lemma ConsSorted(p: Point, s: seq<Point>)
    requires SortedPoints(s) && forall y :: y in s ==> PointLe(p, y)
    ensures SortedPoints([p] + s)
  {
    var r := [p] + s;
    forall i, j | 0 <= i < j < |r| ensures PointLe(r[i], r[j]) {
      assert r[j] == s[j - 1];
      if i > 0 {
        assert r[i] == s[i - 1];
      }
    }
  }

  /** A point not above the head of a sorted list is not above any of its points. */
  lemma BelowHead(x: Point, s: seq<Point>)
    requires SortedPoints(s) && s != [] && PointLe(x, s[0])
    ensures forall y :: y in s ==> PointLe(x, y)
  {
    forall y | y in s ensures PointLe(x, y) {
      var k :| 0 <= k < |s| && s[k] == y;
      if k > 0 {
        PointLeTrans(x, s[0], y);
      }
    }
  }

  function InsertPoint(x: Point, s: seq<Point>): (r: seq<Point>)
    requires SortedPoints(s)
    ensures forall y :: y in r <==> y == x || y in s
    ensures SortedPoints(r)
    ensures multiset(r) == multiset(s) + multiset{x}
    decreases |s|
  {
    if s == [] then [x]
    else
      assert s == [s[0]] + s[1..];
      if PointLe(x, s[0]) then
        BelowHead(x, s);
        ConsSorted(x, s);
        [x] + s
      else
        var rest := InsertPoint(x, s[1..]);
        PointLeTotal(x, s[0]);
        BelowHead(s[0], s);
        assert forall y :: y in rest ==> PointLe(s[0], y);
        ConsSorted(s[0], rest);
        [s[0]] + rest
  }

  /** `sorted(...)` on one shape's points. */
  function SortPoints(s: seq<Point>): (r: seq<Point>)
    ensures SortedPoints(r)
    ensures multiset(r) == multiset(s)
  {
    if s == [] then []
    else
      assert s == [s[0]] + s[1..];
      InsertPoint(s[0], SortPoints(s[1..]))
  }

  /** The order on points is total and antisymmetric, so a sorted permutation is unique:
      points sharing a sequence number are ordered by their coordinates, never by file order. */
  lemma {:induction false} SortedPermutationUnique(a: seq<Point>, b: seq<Point>)
    requires SortedPoints(a) && SortedPoints(b)
    requires multiset(a) == multiset(b)
    ensures a == b
    decreases |a|
  {
    assert |a| == |multiset(a)| == |multiset(b)| == |b|;
    if a != [] {
      SortedHeadsEqual(a, b);
      SameTails(a, b);
      SortedPermutationUnique(a[1..], b[1..]);
      assert a == [a[0]] + a[1..] && b == [b[0]] + b[1..];
    }
  }

  /** Two sorted permutations of each other start with the same point. */
  lemma SortedHeadsEqual(a: seq<Point>, b: seq<Point>)
    requires SortedPoints(a) && SortedPoints(b) && a != [] && b != []
    requires multiset(a) == multiset(b)
    ensures a[0] == b[0]
  {
    assert a[0] in multiset(b) && b[0] in multiset(a);
    assert a[0] in b && b[0] in a;
    assert PointLe(b[0], a[0]);
    assert PointLe(a[0], b[0]);
    PointLeTotal(a[0], b[0]);
  }

  lemma SameTails(a: seq<Point>, b: seq<Point>)
    requires a != [] && b != [] && a[0] == b[0] && multiset(a) == multiset(b)
    ensures multiset(a[1..]) == multiset(b[1..])
  {
    assert a == [a[0]] + a[1..];
    assert b == [b[0]] + b[1..];
    assert multiset(a) == multiset{a[0]} + multiset(a[1..]);
    assert multiset(b) == multiset{b[0]} + multiset(b[1..]);
    assert multiset(a[1..]) == multiset(a) - multiset{a[0]} == multiset(b) - multiset{b[0]} == multiset(b[1..]);
  }

  /** `[coord for seq, coord in ...]`. */
  function Coords(s: seq<Point>): (r: seq<LatLon>)
    ensures |r| == |s| && forall i :: 0 <= i < |s| ==> r[i] == LatLon(s[i].lat, s[i].lon)
  {
    seq(|s|, i requires 0 <= i < |s| => LatLon(s[i].lat, s[i].lon))
  }

  /** The state of the `shapes` defaultdict after some rows. */
  ghost predicate PointsGrouped(rows: seq<ShapeRow>, groups: map<string, seq<Point>>) {
    && (forall s :: s in groups <==> PointsOf(rows, s) != [])
    && (forall s :: s in groups ==> groups[s] == PointsOf(rows, s))
  }

  lemma PointsGroupedStep(rows: seq<ShapeRow>, row: ShapeRow, groups: map<string, seq<Point>>)
    requires PointsGrouped(rows, groups)
    ensures PointsGrouped(rows + [row], groups[row.shapeId := (if row.shapeId in groups then groups[row.shapeId] else [])
                                                       + [Point(row.sequence, row.lat, row.lon)]])
  {
    assert (rows + [row])[..|rows|] == rows;
  }

  /** The `shapes` defaultdict after the rows: each shape's points in file order. */
  ghost function LoadedGroups(rows: seq<ShapeRow>): map<string, seq<Point>>
    decreases |rows|
  {
    if rows == [] then map[]
    else
      var groups := LoadedGroups(rows[..|rows| - 1]);
      var row := rows[|rows| - 1];
      groups[row.shapeId := (if row.shapeId in groups then groups[row.shapeId] else []) + [Point(row.sequence, row.lat, row.lon)]]
  }

  /** The grouping holds, for each shape with a point, exactly its points in file order. */
  lemma {:induction false} LoadedGroupsMeaning(rows: seq<ShapeRow>)
    ensures PointsGrouped(rows, LoadedGroups(rows))
    decreases |rows|
  {
    if rows != [] {
      var init := rows[..|rows| - 1];
      LoadedGroupsMeaning(init);
      PointsGroupedStep(init, rows[|rows| - 1], LoadedGroups(init));
      assert init + [rows[|rows| - 1]] == rows;
    }
  }

  /** The dict `load_shapes` returns: each shape's points sorted, as coordinate pairs. */
  ghost function LoadedShapes(rows: seq<ShapeRow>): map<string, seq<LatLon>> {
    map s | s in LoadedGroups(rows) :: Coords(SortPoints(LoadedGroups(rows)[s]))
  }

  method LoadShapes(rows: seq<ShapeRow>) returns (shapes: map<string, seq<LatLon>>)
    ensures shapes == LoadedShapes(rows)
    ensures forall s :: s in shapes <==> PointsOf(rows, s) != []
    ensures forall s :: s in shapes ==> shapes[s] == Coords(SortPoints(PointsOf(rows, s)))
  {
    var groups := GroupShapePoints(rows);
    shapes := SortGroups(groups);
    SortedGroups(rows, shapes);
  }

  /** The sorting loop of `load_shapes` (lines 51-52): each shape's list replaced by the
      coordinates of its points sorted as tuples. */
  method SortGroups(groups: map<string, seq<Point>>) returns (shapes: map<string, seq<LatLon>>)
    ensures shapes.Keys == groups.Keys
    ensures forall s :: s in shapes ==> shapes[s] == Coords(SortPoints(groups[s]))
  {
    shapes := map[];
    var todo := groups.Keys;
    while todo != {}
      invariant todo <= groups.Keys
      invariant shapes.Keys == groups.Keys - todo
      invariant forall s :: s in shapes ==> shapes[s] == Coords(SortPoints(groups[s]))
      decreases |todo|
    {
      var s :| s in todo;
      shapes := shapes[s := Coords(SortPoints(groups[s]))];
      todo := todo - {s};
    }
  }

  /** The reading loop of `load_shapes` (lines 41-48): each point appended to its shape's list. */
  method GroupShapePoints(rows: seq<ShapeRow>) returns (groups: map<string, seq<Point>>)
    ensures groups == LoadedGroups(rows)
    ensures PointsGrouped(rows, groups)
  {
    groups := map[];
    for i := 0 to |rows|
      invariant groups == LoadedGroups(rows[..i])
    {
      var row := rows[i];
      assert rows[..i + 1][..i] == rows[..i];
      var pts := if row.shapeId in groups then groups[row.shapeId] else [];
      groups := groups[row.shapeId := pts + [Point(row.sequence, row.lat, row.lon)]];
    }
    assert rows[..|rows|] == rows;
    LoadedGroupsMeaning(rows);
  }

  /** Sorting every group of the loaded points gives the loaded shapes. */
  lemma SortedGroups(rows: seq<ShapeRow>, shapes: map<string, seq<LatLon>>)
    requires shapes.Keys == LoadedGroups(rows).Keys
    requires forall s :: s in shapes ==> shapes[s] == Coords(SortPoints(LoadedGroups(rows)[s]))
    ensures shapes == LoadedShapes(rows)
    ensures forall s :: s in shapes <==> PointsOf(rows, s) != []
    ensures forall s :: s in shapes ==> shapes[s] == Coords(SortPoints(PointsOf(rows, s)))
  {
    LoadedGroupsMeaning(rows);
  }

  /** Each stored polyline lists the coordinates of its shape's points by ascending
      `shape_pt_sequence`, every point exactly once. */
  lemma LoadedShapeOrder(rows: seq<ShapeRow>, s: string, sorted: seq<Point>)
    requires SortedPoints(sorted) && multiset(sorted) == multiset(PointsOf(rows, s))
    ensures Coords(SortPoints(PointsOf(rows, s))) == Coords(sorted)
    ensures |Coords(sorted)| == |PointsOf(rows, s)|
    ensures forall i, j :: 0 <= i < j < |sorted| ==> sorted[i].sequence <= sorted[j].sequence
  {
    SortedPermutationUnique(SortPoints(PointsOf(rows, s)), sorted);
    assert |multiset(sorted)| == |multiset(PointsOf(rows, s))|;
  }

  // ---------------------------------------------------------------------------
  // main: thinning, empty-shape filtering and short-name keying

  /** `coords[::3]`: the elements at indices 0, 3, 6, ... in their original order. */
  function EveryThird<T>(s: seq<T>): (r: seq<T>)
    ensures |r| == (|s| + 2) / 3
    ensures forall i :: 0 <= i < |r| ==> 3 * i < |s| && r[i] == s[3 * i]
    decreases |s|
  {
    if |s| == 0 then []
    else
      var rest := if |s| <= 3 then [] else s[3..];
      [s[0]] + EveryThird(rest)
  }

  /** The shapes kept for one route: those present in the shapes map with a non-empty thinned
      polyline, each thinned. */
  ghost function ThinnedShapes(shapeIds: set<string>, shapes: map<string, seq<LatLon>>): map<string, seq<LatLon>> {
    map s | s in shapeIds && s in shapes && EveryThird(shapes[s]) != [] :: EveryThird(shapes[s])
  }

  /** The loop of lines 74-80 over one route's shape ids. */
  method CollectRouteShapes(shapeIds: set<string>, shapes: map<string, seq<LatLon>>)
    returns (data: map<string, seq<LatLon>>)
    ensures forall s :: s in data <==> s in shapeIds && s in shapes && shapes[s] != []
    ensures forall s :: s in data ==> data[s] == EveryThird(shapes[s]) && data[s][0] == shapes[s][0]
    ensures data == ThinnedShapes(shapeIds, shapes)
  {
    data := map[];
    var todo := shapeIds;
    while todo != {}
      invariant todo <= shapeIds
      invariant forall s :: s in data <==> s in shapeIds - todo && s in shapes && shapes[s] != []
      invariant forall s :: s in data ==> data[s] == EveryThird(shapes[s])
      decreases |todo|
    {
      var s :| s in todo;
      if s in shapes {
        var coords := EveryThird(shapes[s]);
        if coords != [] {
          data := data[s := coords];
        }
      }
      todo := todo - {s};
    }
  }

  /** The short name under which a route is emitted, or None when it is not emitted. */
  ghost function EmitKey(routes: map<string, RouteInfo>, routeShapes: map<string, set<string>>,
                         shapes: map<string, seq<LatLon>>, r: string): Option<string>
  {
    if r in routes && r in routeShapes && ThinnedShapes(routeShapes[r], shapes) != map[]
    then Some(routes[r].shortName) else None
  }

  ghost function EmitKeys(routes: map<string, RouteInfo>, routeShapes: map<string, set<string>>,
                          shapes: map<string, seq<LatLon>>, order: seq<string>): (keys: seq<Option<string>>)
    ensures |keys| == |order| && forall k :: 0 <= k < |order| ==> keys[k] == EmitKey(routes, routeShapes, shapes, order[k])
  {
    seq(|order|, k requires 0 <= k < |order| => EmitKey(routes, routeShapes, shapes, order[k]))
  }

  /** The assembly loop of `main`, visiting the routes of `routeShapes` in `order`. A route
      without metadata or without a surviving shape is skipped; when two routes share a short
      name the one visited later replaces the earlier. */
  method Assemble(routes: map<string, RouteInfo>, routeShapes: map<string, set<string>>,
                  shapes: map<string, seq<LatLon>>, order: seq<string>)
    returns (output: map<string, RouteShape>)
    requires forall k :: 0 <= k < |order| ==> order[k] in routeShapes
    ensures forall n :: n in output <==> LastIndex(EmitKeys(routes, routeShapes, shapes, order), Some(n)) >= 0
    ensures forall n :: n in output ==>
      var r := order[LastIndex(EmitKeys(routes, routeShapes, shapes, order), Some(n))];
      && r in routes
      && output[n] == RouteShape(r, n, routes[r].longName, routes[r].color, ThinnedShapes(routeShapes[r], shapes))
  {
    ghost var keys := EmitKeys(routes, routeShapes, shapes, order);
    output := map[];
    for i := 0 to |order|
      invariant AssembledUpTo(routes, routeShapes, shapes, order, keys, i, output)
    {
      var routeId := order[i];
      AssembledStep(routes, routeShapes, shapes, order, keys, i, output);
      if routeId !in routes {
        continue;
      }
      var info := routes[routeId];
      var data := CollectRouteShapes(routeShapes[routeId], shapes);
      if data != map[] {
        output := output[info.shortName := RouteShape(routeId, info.shortName, info.longName, info.color, data)];
      }
    }
    assert keys[..|order|] == keys;
  }

  /** The output after the first `i` routes of `order`: a short name is present exactly when
      some visited route is emitted under it, and holds the record of the last such route. */
  ghost predicate AssembledUpTo(routes: map<string, RouteInfo>, routeShapes: map<string, set<string>>,
                                shapes: map<string, seq<LatLon>>, order: seq<string>,
                                keys: seq<Option<string>>, i: int, output: map<string, RouteShape>)
  {
    && 0 <= i <= |order| == |keys|
    && (forall n :: n in output <==> LastIndex(keys[..i], Some(n)) >= 0)
    && (forall n :: n in output ==>
          var k := LastIndex(keys[..i], Some(n));
          && 0 <= k < i && order[k] in routes && order[k] in routeShapes
          && output[n] == RouteShape(order[k], n, routes[order[k]].longName, routes[order[k]].color,
                                     ThinnedShapes(routeShapes[order[k]], shapes)))
  }

  /** Visiting one more route adds or replaces the entry under its short name when it is
      emitted, and leaves the output as it is otherwise. */
  lemma AssembledStep(routes: map<string, RouteInfo>, routeShapes: map<string, set<string>>,
                      shapes: map<string, seq<LatLon>>, order: seq<string>,
                      keys: seq<Option<string>>, i: int, output: map<string, RouteShape>)
    requires AssembledUpTo(routes, routeShapes, shapes, order, keys, i, output) && i < |order|
    requires order[i] in routeShapes && keys[i] == EmitKey(routes, routeShapes, shapes, order[i])
    ensures var r := order[i];
            AssembledUpTo(routes, routeShapes, shapes, order, keys, i + 1,
              if keys[i].Some?
              then output[keys[i].value := RouteShape(r, routes[r].shortName, routes[r].longName, routes[r].color,
                                                      ThinnedShapes(routeShapes[r], shapes))]
              else output)
    ensures keys[i].Some? <==> order[i] in routes && ThinnedShapes(routeShapes[order[i]], shapes) != map[]
  {
    PrefixLastIndexStep(keys, i);
    var r := order[i];
    var next := if keys[i].Some?
      then output[keys[i].value := RouteShape(r, routes[r].shortName, routes[r].longName, routes[r].color,
                                              ThinnedShapes(routeShapes[r], shapes))]
      else output;
    forall n ensures n in next <==> LastIndex(keys[..i + 1], Some(n)) >= 0 {
    }
    forall n | n in next
      ensures var k := LastIndex(keys[..i + 1], Some(n));
          && 0 <= k < i + 1 && order[k] in routes && order[k] in routeShapes
          && next[n] == RouteShape(order[k], n, routes[order[k]].longName, routes[order[k]].color,
                                   ThinnedShapes(routeShapes[order[k]], shapes))
    {
      if keys[i] != Some(n) {
        assert next[n] == output[n];
      }
    }
  }

  /** Extending the visited prefix by one key moves the last index only for that key. */
  lemma PrefixLastIndexStep(keys: seq<Option<string>>, i: int)
    requires 0 <= i < |keys|
    ensures forall n :: LastIndex(keys[..i + 1], Some(n)) == if keys[i] == Some(n) then i else LastIndex(keys[..i], Some(n))
  {
    assert keys[..i + 1] == keys[..i] + [keys[i]];
    forall n ensures LastIndex(keys[..i + 1], Some(n)) == if keys[i] == Some(n) then i else LastIndex(keys[..i], Some(n)) {
      LastIndexSnoc(keys[..i], keys[i], Some(n));
    }
  }

  /** Every emitted record has a non-empty `shapes` object whose polylines are all non-empty. */
  lemma EmittedShapesNonEmpty(routes: map<string, RouteInfo>, routeShapes: map<string, set<string>>,
                              shapes: map<string, seq<LatLon>>, order: seq<string>, n: string)
    requires LastIndex(EmitKeys(routes, routeShapes, shapes, order), Some(n)) >= 0
    ensures var r := order[LastIndex(EmitKeys(routes, routeShapes, shapes, order), Some(n))];
      && r in routes && r in routeShapes && routes[r].shortName == n
      && ThinnedShapes(routeShapes[r], shapes) != map[]
      && forall s :: s in ThinnedShapes(routeShapes[r], shapes) ==> ThinnedShapes(routeShapes[r], shapes)[s] != []
  {
  }

  /** The whole conversion without its file I/O. The routes are visited in order of their first
      trip; a short name is present exactly when some visited route is emitted under it, and holds
      the record of the last such route, whose polylines are every third sorted point of its
      trips' shapes. Every record sits under its own short name, belongs to a route named in
      routes.txt (by its last row) that has trips, takes its colour from that row or "" when the
      column is absent, and holds only non-empty polylines. */
  method ConvertRouteShapes(routeRows: seq<RouteRow>, tripRows: seq<TripRow>, shapeRows: seq<ShapeRow>)
    returns (output: map<string, RouteShape>)
    ensures
      var routes := LoadedRoutes(routeRows);
      var routeShapes := LoadedTrips(tripRows).0;
      var order := FirstOccurrences(TripRouteIds(tripRows));
      var keys := EmitKeys(routes, routeShapes, LoadedShapes(shapeRows), order);
      && (forall n :: n in output <==> LastIndex(keys, Some(n)) >= 0)
      && (forall n :: n in output ==>
            var r := order[LastIndex(keys, Some(n))];
            && r in routes
            && output[n] == RouteShape(r, n, routes[r].longName, routes[r].color,
                                       ThinnedShapes(ShapeIdsOf(tripRows, r), LoadedShapes(shapeRows))))
    ensures forall n, s :: n in output && s in output[n].shapes ==>
      output[n].shapes[s] == EveryThird(Coords(SortPoints(PointsOf(shapeRows, s))))
    ensures forall n :: n in output ==>
      var k := LastIndex(RouteIds(routeRows), output[n].id);
      && output[n].name == n
      && k >= 0
      && routeRows[k].routeShortName == n
      && output[n].longName == routeRows[k].routeLongName
      && output[n].color == routeRows[k].routeColor.GetOr("")
      && ShapeIdsOf(tripRows, output[n].id) != {}
    ensures forall n :: n in output ==> output[n].shapes != map[]
    ensures forall n, s :: n in output && s in output[n].shapes ==>
      output[n].shapes[s] != [] && s in ShapeIdsOf(tripRows, output[n].id)
  {
    var routes := LoadRoutes(routeRows);
    var routeShapes, order := LoadTrips(tripRows);
    var shapes := LoadShapes(shapeRows);
    output := Assemble(routes, routeShapes, shapes, order);
    forall n | n in output
      ensures output[n].shapes != map[]
      ensures forall s :: s in output[n].shapes ==> output[n].shapes[s] != []
    {
      EmittedShapesNonEmpty(routes, routeShapes, shapes, order, n);
    }
  }
}

# find-a-bus: route data converters and browser client logic

This project models three parts of the find-a-bus transit viewer and proves what each promises.

- **Route-stop converter** (`convert_route_stops.py`). It takes the GTFS routes, stops, trips and
  stop_times rows. For every route and every shape of that route, it builds the list of stops
  served. Each list is ordered by stop sequence and holds each stop once. Each entry is the stop's
  record plus its `sequence`. The result is then joined with the route names.
- **Route-shape converter** (`convert_route_shapes.py`). It groups shape points per shape and sorts
  them as `(sequence, [lat, lon])` tuples. It thins each polyline to every third point and drops
  shapes that are missing or empty. It then emits one record per route, keyed by the route's short
  name. A later route with the same short name replaces an earlier one.
- **Browser client** (`app.js`). The model covers:
  - the `fetchFromApi` decision chain: key check, request URL, status check, `errorMessage` check;
  - the per-field display rule of result cards;
  - what each of the three search forms shows for the data that comes back.

The Python loops are imperative Dafny methods. Their loop invariants are stated through
specification functions such as `Pairs`, `ShapeIdsOf`, `PointsOf` and `LastIndex` (the first two
ghost). The client logic
is made of functions over a small model of JavaScript values (`js_values.dfy`). The query string is
the `application/x-www-form-urlencoded` serializer of section 5.2 of the WHATWG URL Standard,
written over the UTF-8 encoding of RFC 3629. Its parse/serialize round trip is proved.

Files:

- `common.dfy`: `Option`, `LastIndex` (which row of a "later row wins" loader is kept) and
  `FirstOccurrences` (dict key order).
- `route_stops.dfy`: `convert_route_stops.py`.
- `route_shapes.dfy`: `convert_route_shapes.py`.
- `js_values.dfy`: JavaScript values, truthiness, `??`, property reads and `String.prototype.trim`.
- `form_urlencoded.dfy`: UTF-8, percent-encoding, `URLSearchParams` serialization and parsing.
- `card_display.dfy`: the value rule of `renderCard`.
- `bus_client.dfy`: `fetchFromApi` and the three submit handlers.

All three forms go through the same JSON `fetchFromApi` (app.js:103, 130, 155). The only check
on the key is that it is non-empty after trimming (app.js:72-75).

## Model

| member | source | states |
|---|---|---|
| RouteStops.LoadRoutes | convert_route_stops.py:11-21 | a route id is a key exactly when some row has it; its value holds the short and long name of the last such row |
| RouteStops.LoadStops | convert_route_stops.py:23-36 | one record per stop id, taken from the last row with that id; a missing stop_code becomes ""; every record sits under its own id |
| RouteStops.LoadTrips | convert_route_stops.py:38-49 | one record per trip id from the last row with that id; a missing trip_headsign becomes "" |
| RouteStops.GroupStopTimes | convert_route_stops.py:56-76 | the nested dict holds exactly the routes and shapes that received a pair, each with the set `Pairs` of its (stop_id, stop_sequence) pairs, and no set or inner dict is empty |
| RouteStops.PairsMeaning | convert_route_stops.py:65-76 | a pair is recorded for a route and shape exactly when some row of a known trip of that route and shape, naming a known stop, carries it |
| RouteStops.PairsAppend | convert_route_stops.py:59-76 | grouping the concatenation of two row sequences gives the union of the two groupings |
| RouteStops.IgnoredRow | convert_route_stops.py:65-76 | a row that does not feed a route and shape can be removed anywhere without changing that route and shape's pairs |
| RouteStops.UnknownTripIgnored | convert_route_stops.py:65-67 | a row whose trip_id is not in `trips` contributes nothing anywhere |
| RouteStops.UnknownStopIgnored | convert_route_stops.py:75-76 | a row whose stop_id is not in `stops` contributes nothing anywhere |
| RouteStops.RepeatedPairCollapses | convert_route_stops.py:76 | a row repeating a recorded pair, for instance from another trip of the same shape, changes nothing |
| RouteStops.AddPair | convert_route_stops.py:76 | adding a pair creates the inner dict and set on first use and changes no other route, shape or pair |
| RouteStops.SortBySequence | convert_route_stops.py:86 | the result holds every pair of the set exactly once, in non-decreasing sequence order |
| RouteStops.KeepFirstPerStop | convert_route_stops.py:88-95 | from sorted pairs it keeps one entry per stop, in order; each entry is the stop's record plus the smallest sequence of that stop; every stop of the input has an entry |
| RouteStops.FirstPicksMinimal | convert_route_stops.py:88-95 | the entry kept for a stop is a pair of the input, and its sequence is not above any other sequence of that stop |
| RouteStops.OrderShapeStops | convert_route_stops.py:86-95 | one shape's list is ascending by sequence, has no repeated stop, is made of stop records plus one of their recorded sequences (the smallest), and covers every stop of the set |
| RouteStops.StopListNonEmpty | convert_route_stops.py:84-97 | the list of a non-empty pair set is not empty |
| RouteStops.ConvertShapes | convert_route_stops.py:84-97 | one route's shapes become stop lists under the same shape ids |
| RouteStops.ConvertGroups | convert_route_stops.py:81-99 | the result has the same routes and shapes as the grouping, and each set becomes its stop list |
| RouteStops.GroupedStopsKnown | convert_route_stops.py:75-76 | every recorded pair names a stop of `stops` |
| RouteStops.GroupsConvertedKeys | convert_route_stops.py:81-97 | the converted routes and shapes are exactly those that received a pair, and no route is left without shapes |
| RouteStops.GroupsConvertedLists | convert_route_stops.py:81-97 | every converted list is the stop list of its route and shape's pairs and is not empty |
| RouteStops.LoadRouteStops | convert_route_stops.py:51-99 | with no stop_times row at all the function fails, since the counter it prints at line 78 was never bound; otherwise a route and shape appear exactly when some row of a known trip names a known stop for them, no route has an empty dict, and each list is non-empty and is the stop list of their pairs |
| RouteStops.AttachRouteNames | convert_route_stops.py:114-121 | the output keeps exactly the route ids that are also in the routes metadata, with `name` the short name, `long_name` the long name and `shapes` unchanged |
| RouteStops.AttachedKeys | convert_route_stops.py:114-121 | every route of the metadata that received a stop is emitted, and an emitted route holds exactly the shapes that received a stop |
| RouteStops.AttachedLists | convert_route_stops.py:114-121 | an emitted route is in the metadata, has at least one shape, takes both names from it, and keeps each shape's stop list |
| RouteStops.ConvertRouteStops | convert_route_stops.py:101-137 | no file is written exactly when stop_times has no row; the sample printout completes exactly when the written object is non-empty (line 135 fails otherwise); the written object holds every route of routes.txt that received a stop and only such routes, each with exactly the shapes that received a stop, each shape with the stop list of its pairs over the loaded stops and trips, and the names of the route's last routes.txt row; every list is non-empty, ascending by sequence, has no repeated stop and names only stops of stops.txt |
| RouteShapes.LoadRoutes | convert_route_shapes.py:11-22 | one record per route id, from the last row with that id; the colour is "" when the column is absent |
| RouteShapes.LoadTrips | convert_route_shapes.py:24-33 | each route with a trip maps to the set `ShapeIdsOf` of distinct shape ids of its trips, no set is empty, and the key order lists the routes by first appearance, each once |
| RouteShapes.ShapeIdsOfMeaning | convert_route_shapes.py:29-32 | a shape id belongs to a route's set exactly when some trip row pairs them |
| RouteShapes.RouteOrderIsFirstOccurrences | convert_route_shapes.py:26-33 | the dict's key order is the route ids of the trips with repeats removed, keeping first occurrences |
| RouteShapes.PointLeTotal | convert_route_shapes.py:52 | the order on `(seq, [lat, lon])` tuples is total and antisymmetric |
| RouteShapes.InsertPoint | convert_route_shapes.py:52 | inserting into a sorted list keeps it sorted and adds exactly that point to its multiset |
| RouteShapes.SortPoints | convert_route_shapes.py:52 | `sorted` returns a sorted permutation of its input |
| RouteShapes.SortedPermutationUnique | convert_route_shapes.py:52 | two sorted permutations of the same points are equal, so ties in sequence are ordered by coordinate and never by file order |
| RouteShapes.Coords | convert_route_shapes.py:52 | the coordinate list has one `[lat, lon]` per point, in the same order |
| RouteShapes.LoadShapes | convert_route_shapes.py:35-54 | a shape is a key exactly when it has a point; its list is the coordinates of its points sorted as tuples |
| RouteShapes.GroupShapePoints | convert_route_shapes.py:37-48 | the reading loop leaves each shape with a point holding exactly its points in file order |
| RouteShapes.SortGroups | convert_route_shapes.py:51-52 | the sorting loop keeps the same shapes and replaces each list by the coordinates of its points sorted as tuples |
| RouteShapes.LoadedGroupsMeaning | convert_route_shapes.py:41-48 | after the grouping loop, a shape has an entry exactly when it has a point, holding its points in file order |
| RouteShapes.SortedGroups | convert_route_shapes.py:50-52 | sorting every group of points gives, for each shape with a point, the coordinates of its points sorted as tuples |
| RouteShapes.LoadedShapeOrder | convert_route_shapes.py:51-52 | any sorted permutation of a shape's points gives the stored list, which has one entry per point and ascending sequences |
| RouteShapes.EveryThird | convert_route_shapes.py:78 | `[::3]` keeps exactly the elements at indices 0, 3, 6, … in order, and its length is ceil(n/3) |
| RouteShapes.CollectRouteShapes | convert_route_shapes.py:74-80 | a shape id is kept exactly when it is in the shapes map with a non-empty list; its value is the thinned list, which starts with the first point |
| RouteShapes.Assemble | convert_route_shapes.py:65-89 | a short name is in the output exactly when some visited route with metadata and a surviving shape carries it; its record is built from the last such route in key order |
| RouteShapes.AssembledStep | convert_route_shapes.py:66-89 | visiting a route adds or replaces the entry under its short name when it has metadata and a surviving shape, and leaves the output unchanged otherwise |
| RouteShapes.EmittedShapesNonEmpty | convert_route_shapes.py:79-89 | every emitted record belongs to a route with metadata whose short name is its key, has at least one shape, and has no empty polyline |
| RouteShapes.ConvertRouteShapes | convert_route_shapes.py:56-89 | visiting the routes in order of their first trip, a short name is emitted exactly when some visited route with metadata keeps a shape, and holds the record of the last such route: its id, long name, colour ("" when absent) and, for each of its trips' shapes with a surviving polyline, every third of that shape's points sorted by sequence; every record sits under its own short name, comes from the route's last routes.txt row, and holds only non-empty polylines of shapes of the route's trips |
| JsValues.Prop | app.js:54 | a property read gives an object's own field or undefined, the length and indexed elements of arrays and strings, and undefined on booleans and numbers |
| JsValues.NatToString | app.js:82 | a decimal numeral is a non-empty string of digits without a leading zero |
| JsValues.NatToStringValue | app.js:82 | the numeral of a number reads back as that number |
| JsValues.IndexKeyIff | app.js:54 | the property names that address elements are exactly the numerals of natural numbers |
| JsValues.Coalesce | app.js:131 | `a ?? b` is b exactly when a is null or undefined, and a otherwise |
| JsValues.TrimStart | app.js:72 | strips the leading white space and line terminators, and no more |
| JsValues.TrimEnd | app.js:72 | strips the trailing white space and line terminators, and no more |
| JsValues.Trim | app.js:72 | `trim()` is the slice of its input between the leading and the trailing white space; both removed parts are white space and the result neither starts nor ends with it |
| JsValues.TrimEmptyIff | app.js:72-73 | the trimmed key is empty exactly when the input is white space only |
| FormUrlEncoded.Utf8 | app.js:77 | a character encodes as 1 to 4 bytes; one byte exactly for ASCII, else a lead byte and continuation bytes |
| FormUrlEncoded.Utf8RoundTrip | app.js:77 | decoding the UTF-8 encoding of a string gives the string back |
| FormUrlEncoded.EncodeByte | app.js:77 | a byte becomes "+" exactly when it is a space, and itself exactly when it is unreserved; all output characters are query-safe |
| FormUrlEncoded.Encode | app.js:77 | an encoded name or value contains no '&' and no '=' |
| FormUrlEncoded.EncodeRoundTrip | app.js:77 | percent-decoding an encoded string gives it back |
| FormUrlEncoded.UnreservedUnchanged | app.js:77 | a string of unreserved ASCII characters is sent as it is |
| FormUrlEncoded.Serialize | app.js:77-78 | the query is empty exactly when there are no parameters |
| FormUrlEncoded.SplitSerialized | app.js:77-78 | splitting the query on '&' gives one encoded `name=value` part per parameter |
| FormUrlEncoded.ParseSerializeRoundTrip | app.js:77-78 | parsing the serialized query gives back every name and value, in order |
| CardDisplay.DisplayWith | app.js:56-65 | `estimated` and `canceled` show their labels, chosen by truthiness |
| CardDisplay.DisplayValueAsWritten | app.js:56-65 | with the placeholder as the source holds it, a missing, null or empty value of another field shows the three-character text |
| CardDisplay.DisplayValue | app.js:56-65 | with an em dash placeholder, a missing, null or empty value of another field shows the placeholder |
| CardDisplay.DisplayValueRule | app.js:56-65 | the two labelled fields never show the placeholder; any other field shows it exactly when its value is undefined, null, "" or the placeholder itself, and otherwise shows its value unchanged |
| CardDisplay.DisplayNeverBlank | app.js:62-64 | no slot is ever undefined, null or "" |
| CardDisplay.CardValues | app.js:52-67 | a card has one value per slot, each the display value of that field of the record |
| CardDisplay.EmptyRecordCard | app.js:56-64 | an empty record reads as "Scheduled only" and "On schedule" in the labelled slots and as the placeholder elsewhere |
| CardDisplay.PlaceholderMojibake | app.js:63 | the source's placeholder is the UTF-8 bytes of an em dash read as Windows-1252, and it differs from the em dash |
| BusClient.FailureMessage | app.js:87-88 | a service error with a string message shows that message |
| BusClient.RequestFailedMessage | app.js:82 | the failure text is "Request failed (" then the status as a numeral that reads back as the status, then ")" |
| BusClient.SetProperty | app.js:77 | assigning a property to an object with distinct names puts the new value in place of an existing property of that name and leaves every other property as it was; a new name is appended last |
| BusClient.RequestParams | app.js:77 | the request parameters start with `key` |
| BusClient.RequestParamsOrder | app.js:77 | when the caller's parameters are distinct and do not name `key`, the request carries `key` first and then the caller's parameters in their order |
| BusClient.RequestQueryReadsBack | app.js:77-78 | the query part of the request URL parses back to the key followed by the caller's parameters |
| BusClient.RequestUrl | app.js:78 | the URL is the API base, the path and `?`, followed by a query that parses back to the request parameters |
| BusClient.Classify | app.js:80-91 | each outcome comes from exactly one kind of answer: a rejected fetch gives the network error; a status outside 200-299 gives the request failure carrying that status, and only such a status does; a 2xx body that is not JSON gives the JSON error; a null 2xx body gives the type error; a success carries a body that is not null or undefined; the missing-key error never arises here |
| BusClient.FetchFromApi | app.js:71-92 | a success carries a body that is not null or undefined |
| BusClient.FetchMissingKey | app.js:72-75 | the result is the missing-key error exactly when the key field is white space only, whatever the network would answer, and that error shows the fixed message |
| BusClient.FetchAsksOnlyRequestUrl | app.js:77-80 | the outcome depends on the network's answer for the request URL only |
| BusClient.FetchNotOk | app.js:81-83 | a status outside 200-299 gives `Request failed (status)` whatever the body |
| BusClient.FetchTransportFailures | app.js:80-85 | past a non-empty key, the network error, the request failure with a given status, the JSON error and the null-body type error each arise exactly from their kind of answer to the request URL |
| BusClient.ClassifyServiceError | app.js:87-89 | a service error is exactly a 2xx JSON body with a truthy `errorMessage`, and carries that message |
| BusClient.ClassifyOk | app.js:85-91 | success is exactly a 2xx JSON body that is neither null nor carries a truthy `errorMessage`, returned unchanged |
| BusClient.FetchServiceError | app.js:87-89 | past a non-empty key, a service error carries exactly the answer's truthy `errorMessage` |
| BusClient.FetchOk | app.js:71-92 | the call succeeds exactly when the key is non-empty and the answer is such a body, and returns it unchanged |
| BusClient.RouteParams | app.js:103-106 | `route` is always sent first; `headsign` is sent exactly when it is a non-empty string |
| BusClient.FormText | app.js:97-98 | a form value is sent as it is, and a missing field as the text "null" |
| BusClient.RouteSearchQuery | app.js:103-106 | the route search query reads back as key, route, then headsign only when non-empty |
| BusClient.VehicleSearchQuery | app.js:130 | the vehicle search query reads back as key, then num |
| BusClient.ArrivalsSearchQuery | app.js:155 | the arrivals search query reads back as key, then stop |
| BusClient.CardsOf | app.js:114-116 | one card per item, in order, each built by the display rule |
| BusClient.RenderEach | app.js:113-116 | cards are shown exactly when the list is an array whose items can be read; otherwise the handler fails with a type error |
| BusClient.VehicleRecords | app.js:139-141 | each vehicle card reads the element's `vehicle`, or an empty record when it is missing, never null |
| BusClient.RouteResults | app.js:108-116 | the empty state carries the no-routes message; the only error is a type error; cards are shown only for a non-empty `route` array, one per element, in order, by the display rule |
| BusClient.VehicleResults | app.js:131-141 | the empty state carries the no-vehicles message; the only error is a type error; cards are shown only for a non-empty `vehicles` array of non-null elements, one per element, each from its `vehicle ?? {}` |
| BusClient.ArrivalResults | app.js:156-166 | the empty state carries the no-arrivals message; the only error is a type error; cards are shown only for a non-empty `arrivals` array, one per element, in order |
| BusClient.RouteSearch | app.js:94-120 | the missing-key error shows exactly when the key field is white space only; any other error other than a type error is the fetch's own failure; after a successful fetch the panel is the form's handling of the returned data (`RouteResults`); the empty state carries the no-routes message; cards follow only a successful fetch |
| BusClient.VehicleSearch | app.js:122-145 | the missing-key error shows exactly when the key field is white space only; any other error other than a type error is the fetch's own failure; after a successful fetch the panel is the form's handling of the returned data (`VehicleResults`); the empty state carries the no-vehicles message; cards follow only a successful fetch |
| BusClient.ArrivalsSearch | app.js:147-170 | the missing-key error shows exactly when the key field is white space only; any other error other than a type error is the fetch's own failure; after a successful fetch the panel is the form's handling of the returned data (`ArrivalResults`); the empty state carries the no-arrivals message; cards follow only a successful fetch |
| BusClient.RouteResultsEmpty | app.js:108-116 | the route form shows "No routes found…" exactly when `route` is falsy or has length 0; a non-empty array is rendered card by card |
| BusClient.VehicleResultsEmpty | app.js:131-141 | a missing `vehicles` list shows the empty state; otherwise the empty state shows exactly when its length is 0; a non-empty array of non-null elements is shown as cards, each from `vehicle ?? {}` |
| BusClient.ArrivalResultsEmpty | app.js:156-166 | a missing `arrivals` list shows the empty state; otherwise the empty state shows exactly when its length is 0; a non-empty array whose elements can be read is shown as cards, one per element |
| BusClient.RouteSearchEmpty | app.js:103-111 | after a successful fetch, the route form shows "No routes found…" exactly when `route` is falsy or has length 0 |
| BusClient.VehicleSearchEmpty | app.js:130-136 | after a successful fetch, the vehicle form shows its empty message exactly when `vehicles` is missing or has length 0 |
| BusClient.ArrivalsSearchEmpty | app.js:155-161 | after a successful fetch, the arrivals form shows its empty message exactly when `arrivals` is missing or has length 0 |
| BusClient.FalsyListsDiffer | app.js:108 | a `false` route list shows the empty state, but a `false` arrivals list fails |
| BusClient.SearchFailuresShown | app.js:117-169 | a failed fetch reaches the error state of each of the three forms unchanged, with no cards |

## Left out

- File reading, CSV parsing, `float()` and `int()` conversion, `json.dump`, file-size statistics and
  progress printing in both converters. The model works on rows already parsed, with integer
  sequence numbers.
- Coordinates are opaque `real` values. They are copied and, in the shape sort, compared. NaN and
  floating-point formatting are not modelled.
- Python set and dict iteration order inside the conversion loops. The loops that visit a set or
  the nested dicts of `convert_route_stops.py` pick an arbitrary element, and their contracts do
  not depend on the order. `convert_route_shapes.py` depends on the key order of `route_shapes`
  through short-name collisions, so that order is modelled explicitly (first appearance). The
  order of the shape ids within one route is not modelled, since it only orders the keys of
  `route_shapes_data`.
- RouteStops.SortBySequence: pairs with equal sequence numbers may come out in any order. Python's
  order for them depends on set iteration, which is unspecified.
- The cards of the three forms are built with the corrected em dash placeholder (`DisplayValue`),
  not with the literal app.js:63 holds. The literal as written is modelled only by
  `DisplayValueAsWritten` and `PlaceholderMojibake` (see "## Findings").
- The DOM work of `app.js`: template cloning, `replaceChildren`, the loading and message elements,
  event wiring and `localStorage` (app.js:1-48). `renderCard` is modelled as the list of values it
  writes into the slots. The `String` conversion that `textContent` applies to non-string values is
  not modelled.
- `fetch` and `response.json()` are a parameter: a function from the request URL to a network
  failure or a status with an optional parsed body. The engine's own error texts (network failure,
  JSON syntax error, type errors) are left as `None` in `FailureMessage`.
- BusClient.FailureMessage: it does not state the `String` conversion of a non-string `errorMessage`
  (for example a number or an object). Such a message is only carried as the JavaScript value.
- JavaScript objects are modelled with their own properties only. Inherited properties such as
  `toString`, and the key ordering JavaScript gives to integer-like names, are not modelled.
  `params` in `fetchFromApi` is a list of string-valued properties in insertion order.
- BusClient.RequestParamsOrder: it assumes the caller's names are distinct and do not include
  `key`, as at every call site in app.js. When a caller passes `key`, the spread replaces the
  value in first position. `SetProperty` states that replacement, but the order lemma does not.
- JsValues.Prop: string `length` and string indices count Unicode scalar values, where JavaScript
  counts UTF-16 code units. The two differ for characters outside the Basic Multilingual Plane.
  The handlers only compare a length with 0, which does not depend on the unit.
- JSON numbers too large for a double, which `JSON.parse` turns into Infinity, are not
  represented. Infinity is truthy like any other non-zero number.
- Strings are sequences of Unicode scalar values, so lone surrogates, which `URLSearchParams`
  would replace with U+FFFD, cannot occur.
- The test files under `tests/` assert browser behaviour (visibility, storage, themes) and are not
  modelled.

## Findings

| source | as written | input that shows it | evidently intended | confidence | as-written member | corrected member |
|---|---|---|---|---|---|---|
| app.js:63 | the placeholder literal is "â€”" (U+00E2 U+20AC U+201D), the UTF-8 bytes E2 80 94 of an em dash decoded as Windows-1252 | a route card whose `headsign` is null shows "â€”" instead of a dash | the single character U+2014 (em dash) | not executed; the literal's characters follow from the bytes of the file | CardDisplay.DisplayValueAsWritten, CardDisplay.PlaceholderMojibake | CardDisplay.DisplayValue |

/** The browser client's request pipeline and result handling (app.js:71-170): the API key
    check, the request URL, the classification of the response, and what each of the three
    search forms shows for the data that comes back. The network is a parameter: `fetch` and
    `response.json()` are a function from the request URL to what they produce. */
module BusClient {
  import opened Common
  import opened JsValues
  import FormUrlEncoded
  import opened CardDisplay

  const ApiBase: string := "https://api.thebus.org"
  const MissingKeyMessage: string := "Please enter your TheBus API key to continue."
  const NoRoutesMessage: string := "No routes found. Try a different search."
  const NoVehiclesMessage: string := "No vehicle data available. Check the vehicle number and try again."
  const NoArrivalsMessage: string := "No upcoming arrivals reported for this stop."

  /** What `fetch(url)` followed by `response.json()` yields: a rejected fetch, or a response
      with its HTTP status and its body parsed as JSON (`None` when the body is not JSON). */
  datatype Response = NetworkFailure | Http(status: nat, body: Option<JsValue>)

  /** `response.ok`. */
  predicate IsOk(status: nat) {
    200 <= status <= 299
  }

  /** Why a search ends in the error state. */
  datatype Failure =
    | MissingKey                 // the trimmed key is empty
    | NetworkError               // `fetch` rejected
    | RequestFailed(status: nat) // the status is not in 200-299
    | InvalidJson                // `response.json()` rejected
    | TypeError                  // a property read on null or undefined, or `forEach` on a non-array
    | ServiceError(message: JsValue) // the body's truthy `errorMessage`

  datatype Fetched = Ok(data: JsValue) | Err(failure: Failure)

  /** The text the error state shows, where the code fixes it; `None` where the engine writes
      it, or where `String` converts a non-string service message. */
  function FailureMessage(f: Failure): (m: Option<string>)
    ensures f.ServiceError? && f.message.Str? ==> m == Some(f.message.s)
  {
    match f
    case MissingKey => Some(MissingKeyMessage)
    case RequestFailed(status) => Some("Request failed (" + NatToString(status) + ")")
    case ServiceError(Str(s)) => Some(s)
    case _ => None
  }

  /** The status in a request failure message reads back as the status itself. */
  lemma RequestFailedMessage(status: nat)
    ensures var m := FailureMessage(RequestFailed(status)).value;
            |m| > 17 && m[..16] == "Request failed (" && m[|m| - 1] == ')'
            && DigitsValue(m[16..|m| - 1]) == status
  {
    var m := FailureMessage(RequestFailed(status)).value;
    assert m[16..|m| - 1] == NatToString(status);
    NatToStringValue(status);
  }

  /** The own properties of a plain object, in their order, with string values. */
  type Params = seq<(string, string)>

  function Names(ps: Params): (names: seq<string>)
    ensures |names| == |ps| && forall i :: 0 <= i < |ps| ==> names[i] == ps[i].0
  {
    seq(|ps|, i requires 0 <= i < |ps| => ps[i].0)
  }

  predicate DistinctNames(ps: Params) {
    forall i, j :: 0 <= i < j < |ps| ==> ps[i].0 != ps[j].0
  }

  /** The object has a property of that name. */
  predicate HasName(obj: Params, name: string)
    decreases |obj|
  {
    obj != [] && (obj[0].0 == name || HasName(obj[1..], name))
  }

  /** Assigning a property: an existing one keeps its place and takes the new value, a new one
      goes last. */
  function SetProperty(obj: Params, name: string, value: string): (r: Params)
    ensures |r| >= 1
    ensures obj != [] ==> r[0].0 == obj[0].0
    ensures !HasName(obj, name) ==> r == obj + [(name, value)]
    ensures HasName(obj, name) ==> |r| == |obj| && forall i :: 0 <= i < |obj| && obj[i].0 != name ==> r[i] == obj[i]
    ensures HasName(obj, name) && DistinctNames(obj) ==>
      forall i :: 0 <= i < |obj| ==> r[i] == if obj[i].0 == name then (name, value) else obj[i]
  {
    if obj == [] then [(name, value)]
    else if obj[0].0 == name then [(name, value)] + obj[1..]
    else [obj[0]] + SetProperty(obj[1..], name, value)
  }

  /** `{ ...obj, ...params }`: the properties of `params` assigned in order. */
  function Spread(obj: Params, params: Params): (r: Params)
    requires obj != []
    ensures r != [] && r[0].0 == obj[0].0
    decreases |params|
  {
    if params == [] then obj else Spread(SetProperty(obj, params[0].0, params[0].1), params[1..])
  }

  /** `{ key: apiKey, ...params }` (app.js:77). */
  function RequestParams(apiKey: string, params: Params): (r: Params)
    ensures r != [] && r[0].0 == "key"
  {
    Spread([("key", apiKey)], params)
  }

  /** The names of `params` are distinct and none of them is a property of `obj`. */
  predicate FreshNames(params: Params, obj: Params)
    decreases |params|
  {
    params == [] || (!HasName(obj, params[0].0) && FreshNames(params[1..], obj + [params[0]]))
  }

  lemma {:induction false} HasNameSnoc(obj: Params, p: (string, string), name: string)
    ensures HasName(obj + [p], name) <==> HasName(obj, name) || p.0 == name
    decreases |obj|
  {
    if obj != [] {
      assert (obj + [p])[1..] == obj[1..] + [p];
      HasNameSnoc(obj[1..], p, name);
    }
  }

  lemma {:induction false} DistinctFresh(params: Params, obj: Params)
    requires DistinctNames(params)
    requires forall i :: 0 <= i < |params| ==> !HasName(obj, params[i].0)
    ensures FreshNames(params, obj)
    decreases |params|
  {
    if params != [] {
      var tail := params[1..];
      var more := obj + [params[0]];
      forall i | 0 <= i < |tail| ensures !HasName(more, tail[i].0) {
        assert tail[i] == params[i + 1];
        HasNameSnoc(obj, params[0], tail[i].0);
      }
      forall i, j | 0 <= i < j < |tail| ensures tail[i].0 != tail[j].0 {
        assert tail[i] == params[i + 1] && tail[j] == params[j + 1];
      }
      DistinctFresh(tail, more);
    }
  }

  /** Spreading a first property `obj` lacks appends it and spreads the rest onto the result. */
  lemma SpreadFreshStep(obj: Params, params: Params)
    requires obj != [] && params != [] && !HasName(obj, params[0].0)
    ensures Spread(obj, params) == Spread(obj + [params[0]], params[1..])
  {
  }

  lemma {:induction false} SpreadFresh(obj: Params, params: Params)
    requires obj != [] && FreshNames(params, obj)
    ensures Spread(obj, params) == obj + params
    decreases |params|
  {
    if params == [] {
      assert obj + params == obj;
    } else {
      var next := obj + [params[0]];
      calc {
        Spread(obj, params);
      == { SpreadFreshStep(obj, params); }
        Spread(next, params[1..]);
      == { SpreadFresh(next, params[1..]); }
        next + params[1..];
      == { assert params == [params[0]] + params[1..]; }
        obj + params;
      }
    }
  }

  /** When the caller's parameters do not name `key`, the request carries `key` first and then
      the caller's parameters in their order. */
  lemma RequestParamsOrder(apiKey: string, params: Params)
    requires DistinctNames(params) && "key" !in Names(params)
    ensures RequestParams(apiKey, params) == [("key", apiKey)] + params
  {
    forall i | 0 <= i < |params| ensures !HasName([("key", apiKey)], params[i].0) {
      assert Names(params)[i] == params[i].0;
    }
    DistinctFresh(params, [("key", apiKey)]);
    SpreadFresh([("key", apiKey)], params);
  }

  /** The request URL of app.js:78: the API base, the path, `?`, and a query that reads back
      as the request parameters. */
  function RequestUrl(apiKey: string, path: string, params: Params): (url: string)
    ensures |url| > |ApiBase| + |path| && url[..|ApiBase| + |path| + 1] == ApiBase + path + "?"
    ensures FormUrlEncoded.Parse(url[|ApiBase| + |path| + 1..]) == Some(RequestParams(apiKey, params))
  {
    var query := FormUrlEncoded.Serialize(RequestParams(apiKey, params));
    FormUrlEncoded.ParseSerializeRoundTrip(RequestParams(apiKey, params));
    assert (ApiBase + path + "?" + query)[|ApiBase| + |path| + 1..] == query;
    ApiBase + path + "?" + query
  }

  /** The query of the request URL, parsed back, is the key followed by the caller's
      parameters, names and values exactly. */
  lemma RequestQueryReadsBack(apiKey: string, path: string, params: Params)
    requires DistinctNames(params) && "key" !in Names(params)
    ensures var url := RequestUrl(apiKey, path, params);
            FormUrlEncoded.Parse(url[|ApiBase| + |path| + 1..]) == Some([("key", apiKey)] + params)
  {
    RequestParamsOrder(apiKey, params);
  }

  /** The classification of the answer to the request (app.js:80-91): a rejected fetch, a
      status outside 200-299, a body that is not JSON, a null body (reading its `errorMessage`
      throws) and a truthy `errorMessage` fail; every other body is the result. */
  function Classify(response: Response): (r: Fetched)
    ensures r.Ok? ==> !Nullish(r.data)
    ensures r != Err(MissingKey)
    ensures r == Err(NetworkError) <==> response.NetworkFailure?
    ensures r.Err? && r.failure.RequestFailed? <==> response.Http? && !IsOk(response.status)
    ensures r.Err? && r.failure.RequestFailed? ==> r.failure.status == response.status
    ensures r == Err(InvalidJson) <==> response.Http? && IsOk(response.status) && response.body.None?
    ensures r == Err(TypeError) <==>
      response.Http? && IsOk(response.status) && response.body.Some? && Nullish(response.body.value)
  {
    match response
    case NetworkFailure => Err(NetworkError)
    case Http(status, body) =>
      if !IsOk(status) then Err(RequestFailed(status))
      else match body
        case None => Err(InvalidJson)
        case Some(data) =>
          if Nullish(data) then Err(TypeError)
          else if Truthy(Prop(data, "errorMessage")) then Err(ServiceError(Prop(data, "errorMessage")))
          else Ok(data)
  }

  /** `fetchFromApi(path, params)` with the key field holding `keyInput` (app.js:71-92). */
  function FetchFromApi(keyInput: string, path: string, params: Params, network: string -> Response): (r: Fetched)
    ensures r.Ok? ==> !Nullish(r.data)
  {
    var apiKey := Trim(keyInput);
    if apiKey == [] then Err(MissingKey)
    else Classify(network(RequestUrl(apiKey, path, params)))
  }

  /** The key check: a key field holding only white space, and nothing else, fails with the
      missing-key message whatever the network would answer, so no request is made. */
  lemma FetchMissingKey(keyInput: string, path: string, params: Params, network: string -> Response)
    ensures FetchFromApi(keyInput, path, params, network) == Err(MissingKey) <==>
              forall k :: 0 <= k < |keyInput| ==> IsJsSpace(keyInput[k])
    ensures FailureMessage(MissingKey) == Some(MissingKeyMessage)
  {
    TrimEmptyIff(keyInput);
  }

  /** Past the key check, the outcome depends on the network's answer for the request URL
      only: exactly that one request is made. */
  lemma FetchAsksOnlyRequestUrl(keyInput: string, path: string, params: Params,
                                 n1: string -> Response, n2: string -> Response)
    requires n1(RequestUrl(Trim(keyInput), path, params)) == n2(RequestUrl(Trim(keyInput), path, params))
    ensures FetchFromApi(keyInput, path, params, n1) == FetchFromApi(keyInput, path, params, n2)
  {
  }

  /** A response outside 200-299 fails with its status, whatever its body. */
  lemma FetchNotOk(keyInput: string, path: string, params: Params, network: string -> Response,
                   status: nat, body: Option<JsValue>)
    requires Trim(keyInput) != []
    requires network(RequestUrl(Trim(keyInput), path, params)) == Http(status, body)
    requires !IsOk(status)
    ensures FetchFromApi(keyInput, path, params, network) == Err(RequestFailed(status))
  {
  }

  /** Past the key check, each transport failure of `fetchFromApi` comes from exactly one kind of
      answer: a rejected fetch, a status outside 200-299 (carried unchanged), a 2xx body that is
      not JSON, or a null 2xx body. */
  lemma FetchTransportFailures(keyInput: string, path: string, params: Params, network: string -> Response,
                               status: nat)
    ensures var answer := network(RequestUrl(Trim(keyInput), path, params));
            && (FetchFromApi(keyInput, path, params, network) == Err(NetworkError) <==>
                  Trim(keyInput) != [] && answer.NetworkFailure?)
            && (FetchFromApi(keyInput, path, params, network) == Err(RequestFailed(status)) <==>
                  Trim(keyInput) != [] && answer.Http? && answer.status == status && !IsOk(status))
            && (FetchFromApi(keyInput, path, params, network) == Err(InvalidJson) <==>
                  Trim(keyInput) != [] && answer.Http? && IsOk(answer.status) && answer.body.None?)
            && (FetchFromApi(keyInput, path, params, network) == Err(TypeError) <==>
                  Trim(keyInput) != [] && answer.Http? && IsOk(answer.status) && answer.body.Some?
                  && Nullish(answer.body.value))
  {
    var answer := network(RequestUrl(Trim(keyInput), path, params));
    assert Classify(answer) == Err(RequestFailed(status)) <==> answer.Http? && answer.status == status && !IsOk(status);
  }

  /** A service error is exactly a 2xx JSON body with a truthy `errorMessage`, and carries
      that message unchanged. */
  lemma ClassifyServiceError(response: Response, message: JsValue)
    ensures Classify(response) == Err(ServiceError(message)) <==>
              && response.Http? && IsOk(response.status) && response.body.Some?
              && !Nullish(response.body.value) && Truthy(message)
              && Prop(response.body.value, "errorMessage") == message
  {
  }

  /** Success is exactly a 2xx JSON body that is neither null nor carries a truthy
      `errorMessage`, and that body is the result unchanged. */
  lemma ClassifyOk(response: Response, data: JsValue)
    ensures Classify(response) == Ok(data) <==>
              && response.Http? && IsOk(response.status) && response.body == Some(data)
              && !Nullish(data) && !Truthy(Prop(data, "errorMessage"))
  {
  }

  /** A service error from `fetchFromApi` carries exactly the answer's truthy `errorMessage`. */
  lemma FetchServiceError(keyInput: string, path: string, params: Params, network: string -> Response,
                          message: JsValue)
    ensures var answer := network(RequestUrl(Trim(keyInput), path, params));
            FetchFromApi(keyInput, path, params, network) == Err(ServiceError(message)) <==>
              && Trim(keyInput) != []
              && answer.Http? && IsOk(answer.status) && answer.body.Some?
              && !Nullish(answer.body.value) && Truthy(message)
              && Prop(answer.body.value, "errorMessage") == message
  {
    ClassifyServiceError(network(RequestUrl(Trim(keyInput), path, params)), message);
  }

  /** `fetchFromApi` returns exactly the 2xx JSON bodies that are neither null nor carry a
      truthy `errorMessage`, unchanged. */
  lemma FetchOk(keyInput: string, path: string, params: Params, network: string -> Response,
                data: JsValue)
    ensures var answer := network(RequestUrl(Trim(keyInput), path, params));
            FetchFromApi(keyInput, path, params, network) == Ok(data) <==>
              && Trim(keyInput) != []
              && answer.Http? && IsOk(answer.status) && answer.body == Some(data)
              && !Nullish(data) && !Truthy(Prop(data, "errorMessage"))
  {
    ClassifyOk(network(RequestUrl(Trim(keyInput), path, params)), data);
  }

  /** What a result panel ends up showing. */
  datatype Panel =
    | EmptyState(message: string)
    | ErrorState(failure: Failure)
    | Cards(cards: seq<seq<JsValue>>)

  /** A form value as `URLSearchParams` sends it: `formData.get` gives null for a missing field,
      which is sent as the text "null". */
  function FormText(v: Option<string>): (text: string)
    ensures v.Some? ==> text == v.value
    ensures v.None? ==> text == "null"
  {
    match v
    case Some(s) => s
    case None => "null"
  }

  /** The route search parameters (app.js:103-106): `route` always, `headsign` only when it is
      a non-empty string. */
  function RouteParams(route: Option<string>, headsign: Option<string>): (ps: Params)
    ensures |ps| >= 1 && ps[0] == ("route", FormText(route)) && DistinctNames(ps) && "key" !in Names(ps)
    ensures "headsign" in Names(ps) <==> headsign.Some? && headsign.value != ""
    ensures headsign.Some? && headsign.value != "" ==> ps == [("route", FormText(route)), ("headsign", headsign.value)]
  {
    var ps := [("route", FormText(route))] + (if headsign.Some? && headsign.value != "" then [("headsign", headsign.value)] else []);
    assert Names(ps)[0] == "route";
    assert |ps| == 2 ==> Names(ps)[1] == "headsign";
    ps
  }

  function CardsOf(items: seq<JsValue>, fields: seq<string>): (cards: seq<seq<JsValue>>)
    requires fields == [] || forall i :: 0 <= i < |items| ==> !Nullish(items[i])
    ensures |cards| == |items|
    ensures forall i :: 0 <= i < |items| ==> cards[i] == CardValues(items[i], fields)
  {
    if items == [] then [] else [CardValues(items[0], fields)] + CardsOf(items[1..], fields)
  }

  /** `list.forEach(item => renderCard(..., item))`: one card per element, in order. It throws
      when the list is not an array, or when a card slot reads a field of a null or undefined
      element. */
  function RenderEach(list: JsValue, fields: seq<string>): (panel: Panel)
    ensures panel.Cards? <==> list.Arr? && (fields == [] || forall i :: 0 <= i < |list.items| ==> !Nullish(list.items[i]))
    ensures panel.Cards? ==> |panel.cards| == |list.items|
                             && forall i :: 0 <= i < |list.items| ==> panel.cards[i] == CardValues(list.items[i], fields)
    ensures !panel.Cards? ==> panel == ErrorState(TypeError)
  {
    if !list.Arr? then ErrorState(TypeError)
    else if fields != [] && exists i :: 0 <= i < |list.items| && Nullish(list.items[i]) then ErrorState(TypeError)
    else Cards(CardsOf(list.items, fields))
  }

  /** The route form's handling of the returned data (app.js:108-116). */
  function RouteResults(data: JsValue, fields: seq<string>): (panel: Panel)
    requires !Nullish(data)
    ensures panel.EmptyState? ==> panel.message == NoRoutesMessage
    ensures panel.ErrorState? ==> panel.failure == TypeError
    ensures panel.Cards? ==>
      && Prop(data, "route").Arr?
      && |panel.cards| == |Prop(data, "route").items| > 0
      && (fields == [] || forall i :: 0 <= i < |Prop(data, "route").items| ==> !Nullish(Prop(data, "route").items[i]))
      && forall i :: 0 <= i < |Prop(data, "route").items| ==>
           panel.cards[i] == CardValues(Prop(data, "route").items[i], fields)
  {
    var list := Prop(data, "route");
    if !Truthy(list) || Prop(list, "length") == Num(0.0) then EmptyState(NoRoutesMessage)
    else RenderEach(list, fields)
  }

  /** The vehicle form's handling of the returned data (app.js:131-141): each element is
      destructured for its `vehicle`, and a missing one is rendered as an empty record. */
  function VehicleResults(data: JsValue, fields: seq<string>): (panel: Panel)
    requires !Nullish(data)
    ensures panel.EmptyState? ==> panel.message == NoVehiclesMessage
    ensures panel.ErrorState? ==> panel.failure == TypeError
    ensures panel.Cards? ==>
      && Prop(data, "vehicles").Arr?
      && |panel.cards| == |Prop(data, "vehicles").items| > 0
      && (forall i :: 0 <= i < |Prop(data, "vehicles").items| ==> !Nullish(Prop(data, "vehicles").items[i]))
      && forall i :: 0 <= i < |Prop(data, "vehicles").items| ==>
           panel.cards[i] == CardValues(Coalesce(Prop(Prop(data, "vehicles").items[i], "vehicle"), Obj(map[])), fields)
  {
    var list := Coalesce(Prop(data, "vehicles"), Arr([]));
    if Prop(list, "length") == Num(0.0) then EmptyState(NoVehiclesMessage)
    else if !list.Arr? then ErrorState(TypeError)
    else if exists i :: 0 <= i < |list.items| && Nullish(list.items[i]) then ErrorState(TypeError)
    else Cards(CardsOf(VehicleRecords(list.items), fields))
  }

  /** `({ vehicle }) => vehicle ?? {}` over elements that are not null or undefined. */
  function VehicleRecords(items: seq<JsValue>): (records: seq<JsValue>)
    requires forall i :: 0 <= i < |items| ==> !Nullish(items[i])
    ensures |records| == |items|
    ensures forall i :: 0 <= i < |items| ==> records[i] == Coalesce(Prop(items[i], "vehicle"), Obj(map[]))
    ensures forall i :: 0 <= i < |items| ==> !Nullish(records[i])
  {
    if items == [] then [] else [Coalesce(Prop(items[0], "vehicle"), Obj(map[]))] + VehicleRecords(items[1..])
  }

  /** The arrivals form's handling of the returned data (app.js:156-166). */
  function ArrivalResults(data: JsValue, fields: seq<string>): (panel: Panel)
    requires !Nullish(data)
    ensures panel.EmptyState? ==> panel.message == NoArrivalsMessage
    ensures panel.ErrorState? ==> panel.failure == TypeError
    ensures panel.Cards? ==>
      && Prop(data, "arrivals").Arr?
      && |panel.cards| == |Prop(data, "arrivals").items| > 0
      && (fields == [] || forall i :: 0 <= i < |Prop(data, "arrivals").items| ==> !Nullish(Prop(data, "arrivals").items[i]))
      && forall i :: 0 <= i < |Prop(data, "arrivals").items| ==>
           panel.cards[i] == CardValues(Prop(data, "arrivals").items[i], fields)
  {
    var list := Coalesce(Prop(data, "arrivals"), Arr([]));
    if Prop(list, "length") == Num(0.0) then EmptyState(NoArrivalsMessage)
    else RenderEach(list, fields)
  }

  /** The route form's submit handler (app.js:94-120): a key field of white space only, and nothing
      else, ends in the missing-key error; any other error is the fetch's own failure or a
      failed rendering, and the cards only ever show a successful answer. */
  function RouteSearch(keyInput: string, route: Option<string>, headsign: Option<string>,
                       fields: seq<string>, network: string -> Response): (panel: Panel)
    ensures panel == ErrorState(MissingKey) <==> forall k :: 0 <= k < |keyInput| ==> IsJsSpace(keyInput[k])
    ensures panel.ErrorState? && panel.failure != TypeError ==>
      FetchFromApi(keyInput, "/routeJSON", RouteParams(route, headsign), network) == Err(panel.failure)
    ensures panel.EmptyState? ==> panel.message == NoRoutesMessage
    ensures panel.Cards? ==> FetchFromApi(keyInput, "/routeJSON", RouteParams(route, headsign), network).Ok?
    ensures FetchFromApi(keyInput, "/routeJSON", RouteParams(route, headsign), network).Ok? ==>
      panel == RouteResults(FetchFromApi(keyInput, "/routeJSON", RouteParams(route, headsign), network).data, fields)
  {
    FetchMissingKey(keyInput, "/routeJSON", RouteParams(route, headsign), network);
    match FetchFromApi(keyInput, "/routeJSON", RouteParams(route, headsign), network)
    case Err(f) => ErrorState(f)
    case Ok(data) => RouteResults(data, fields)
  }

  /** The vehicle form's submit handler (app.js:122-145): a key field of white space only, and nothing
      else, ends in the missing-key error; any other error is the fetch's own failure or a
      failed rendering, and the cards only ever show a successful answer. */
  function VehicleSearch(keyInput: string, num: Option<string>, fields: seq<string>,
                         network: string -> Response): (panel: Panel)
    ensures panel == ErrorState(MissingKey) <==> forall k :: 0 <= k < |keyInput| ==> IsJsSpace(keyInput[k])
    ensures panel.ErrorState? && panel.failure != TypeError ==>
      FetchFromApi(keyInput, "/vehicle", [("num", FormText(num))], network) == Err(panel.failure)
    ensures panel.EmptyState? ==> panel.message == NoVehiclesMessage
    ensures panel.Cards? ==> FetchFromApi(keyInput, "/vehicle", [("num", FormText(num))], network).Ok?
    ensures FetchFromApi(keyInput, "/vehicle", [("num", FormText(num))], network).Ok? ==>
      panel == VehicleResults(FetchFromApi(keyInput, "/vehicle", [("num", FormText(num))], network).data, fields)
  {
    FetchMissingKey(keyInput, "/vehicle", [("num", FormText(num))], network);
    match FetchFromApi(keyInput, "/vehicle", [("num", FormText(num))], network)
    case Err(f) => ErrorState(f)
    case Ok(data) => VehicleResults(data, fields)
  }

  /** The arrivals form's submit handler (app.js:147-170): a key field of white space only, and nothing
      else, ends in the missing-key error; any other error is the fetch's own failure or a
      failed rendering, and the cards only ever show a successful answer. */
  function ArrivalsSearch(keyInput: string, stop: Option<string>, fields: seq<string>,
                          network: string -> Response): (panel: Panel)
    ensures panel == ErrorState(MissingKey) <==> forall k :: 0 <= k < |keyInput| ==> IsJsSpace(keyInput[k])
    ensures panel.ErrorState? && panel.failure != TypeError ==>
      FetchFromApi(keyInput, "/arrivalsJSON", [("stop", FormText(stop))], network) == Err(panel.failure)
    ensures panel.EmptyState? ==> panel.message == NoArrivalsMessage
    ensures panel.Cards? ==> FetchFromApi(keyInput, "/arrivalsJSON", [("stop", FormText(stop))], network).Ok?
    ensures FetchFromApi(keyInput, "/arrivalsJSON", [("stop", FormText(stop))], network).Ok? ==>
      panel == ArrivalResults(FetchFromApi(keyInput, "/arrivalsJSON", [("stop", FormText(stop))], network).data, fields)
  {
    FetchMissingKey(keyInput, "/arrivalsJSON", [("stop", FormText(stop))], network);
    match FetchFromApi(keyInput, "/arrivalsJSON", [("stop", FormText(stop))], network)
    case Err(f) => ErrorState(f)
    case Ok(data) => ArrivalResults(data, fields)
  }

  /** The route form's empty state: exactly a falsy `route` or one whose `length` is 0. */
  lemma RouteResultsEmpty(data: JsValue, fields: seq<string>)
    requires !Nullish(data)
    ensures RouteResults(data, fields) == EmptyState(NoRoutesMessage) <==>
              !Truthy(Prop(data, "route")) || Prop(Prop(data, "route"), "length") == Num(0.0)
    ensures Prop(data, "route").Arr? && Prop(data, "route").items != [] ==>
              RouteResults(data, fields) == RenderEach(Prop(data, "route"), fields)
  {
  }

  /** The vehicle form's empty state: a missing list counts as empty; otherwise exactly a list
      whose `length` is 0. Every card comes from a record that is never null or undefined. */
  lemma VehicleResultsEmpty(data: JsValue, fields: seq<string>)
    requires !Nullish(data)
    ensures Nullish(Prop(data, "vehicles")) ==> VehicleResults(data, fields) == EmptyState(NoVehiclesMessage)
    ensures !Nullish(Prop(data, "vehicles")) ==>
              (VehicleResults(data, fields) == EmptyState(NoVehiclesMessage) <==>
                 Prop(Prop(data, "vehicles"), "length") == Num(0.0))
    ensures var list := Prop(data, "vehicles");
            list.Arr? && list.items != [] && (forall i :: 0 <= i < |list.items| ==> !Nullish(list.items[i])) ==>
              VehicleResults(data, fields).Cards?
    ensures VehicleResults(data, fields).Cards? ==>
              var items := Prop(data, "vehicles").items;
              |VehicleResults(data, fields).cards| == |items| > 0
              && forall i :: 0 <= i < |items| ==>
                   VehicleResults(data, fields).cards[i] == CardValues(Coalesce(Prop(items[i], "vehicle"), Obj(map[])), fields)
  {
  }

  /** The arrivals form's empty state: a missing list counts as empty; otherwise exactly a list
      whose `length` is 0. */
  lemma ArrivalResultsEmpty(data: JsValue, fields: seq<string>)
    requires !Nullish(data)
    ensures Nullish(Prop(data, "arrivals")) ==> ArrivalResults(data, fields) == EmptyState(NoArrivalsMessage)
    ensures !Nullish(Prop(data, "arrivals")) ==>
              (ArrivalResults(data, fields) == EmptyState(NoArrivalsMessage) <==>
                 Prop(Prop(data, "arrivals"), "length") == Num(0.0))
    ensures var list := Prop(data, "arrivals");
            list.Arr? && list.items != [] && (fields == [] || forall i :: 0 <= i < |list.items| ==> !Nullish(list.items[i])) ==>
              ArrivalResults(data, fields) == RenderEach(list, fields) && ArrivalResults(data, fields).Cards?
  {
  }

  /** The route form treats any falsy `route` as no routes, but the arrivals form only a
      missing one: a `false` list shows the empty state for routes and an error for arrivals. */
  lemma FalsyListsDiffer(fields: seq<string>)
    ensures RouteResults(Obj(map["route" := Bool(false)]), fields) == EmptyState(NoRoutesMessage)
    ensures ArrivalResults(Obj(map["arrivals" := Bool(false)]), fields) == ErrorState(TypeError)
  {
  }

  /** A failed fetch reaches every form's error state unchanged, and no cards are shown. */
  lemma SearchFailuresShown(keyInput: string, route: Option<string>, headsign: Option<string>,
                            num: Option<string>, stop: Option<string>,
                            fields: seq<string>, network: string -> Response, f: Failure)
    ensures FetchFromApi(keyInput, "/routeJSON", RouteParams(route, headsign), network) == Err(f) ==>
              RouteSearch(keyInput, route, headsign, fields, network) == ErrorState(f)
    ensures FetchFromApi(keyInput, "/vehicle", [("num", FormText(num))], network) == Err(f) ==>
              VehicleSearch(keyInput, num, fields, network) == ErrorState(f)
    ensures FetchFromApi(keyInput, "/arrivalsJSON", [("stop", FormText(stop))], network) == Err(f) ==>
              ArrivalsSearch(keyInput, stop, fields, network) == ErrorState(f)
  {
  }

  /** After a successful fetch, the route form shows its empty state exactly when `route` is
      falsy or has length 0. */
  lemma RouteSearchEmpty(keyInput: string, route: Option<string>, headsign: Option<string>,
                         fields: seq<string>, network: string -> Response, data: JsValue)
    requires FetchFromApi(keyInput, "/routeJSON", RouteParams(route, headsign), network) == Ok(data)
    ensures RouteSearch(keyInput, route, headsign, fields, network) == EmptyState(NoRoutesMessage) <==>
              !Truthy(Prop(data, "route")) || Prop(Prop(data, "route"), "length") == Num(0.0)
  {
    RouteResultsEmpty(data, fields);
  }

  /** After a successful fetch, the vehicle form shows its empty state exactly when `vehicles`
      is missing or has length 0. */
  lemma VehicleSearchEmpty(keyInput: string, num: Option<string>,
                           fields: seq<string>, network: string -> Response, data: JsValue)
    requires FetchFromApi(keyInput, "/vehicle", [("num", FormText(num))], network) == Ok(data)
    ensures VehicleSearch(keyInput, num, fields, network) == EmptyState(NoVehiclesMessage) <==>
              Nullish(Prop(data, "vehicles")) || Prop(Prop(data, "vehicles"), "length") == Num(0.0)
  {
    VehicleResultsEmpty(data, fields);
  }

  /** After a successful fetch, the arrivals form shows its empty state exactly when `arrivals`
      is missing or has length 0. */
  lemma ArrivalsSearchEmpty(keyInput: string, stop: Option<string>,
                            fields: seq<string>, network: string -> Response, data: JsValue)
    requires FetchFromApi(keyInput, "/arrivalsJSON", [("stop", FormText(stop))], network) == Ok(data)
    ensures ArrivalsSearch(keyInput, stop, fields, network) == EmptyState(NoArrivalsMessage) <==>
              Nullish(Prop(data, "arrivals")) || Prop(Prop(data, "arrivals"), "length") == Num(0.0)
  {
    ArrivalResultsEmpty(data, fields);
  }

  /** The route search request: the key first, then `route`, then `headsign` only when it is a
      non-empty string. */
  lemma RouteSearchQuery(apiKey: string, route: Option<string>, headsign: Option<string>)
    ensures var url := RequestUrl(apiKey, "/routeJSON", RouteParams(route, headsign));
            FormUrlEncoded.Parse(url[|ApiBase| + |"/routeJSON"| + 1..]) ==
              Some([("key", apiKey), ("route", FormText(route))]
                   + (if headsign.Some? && headsign.value != "" then [("headsign", headsign.value)] else []))
  {
    var ps := RouteParams(route, headsign);
    RequestQueryReadsBack(apiKey, "/routeJSON", ps);
    assert [("key", apiKey)] + ps == [("key", apiKey), ("route", FormText(route))]
             + (if headsign.Some? && headsign.value != "" then [("headsign", headsign.value)] else []);
  }

  /** The vehicle search request: the key, then `num`. */
  lemma VehicleSearchQuery(apiKey: string, num: Option<string>)
    ensures var url := RequestUrl(apiKey, "/vehicle", [("num", FormText(num))]);
            FormUrlEncoded.Parse(url[|ApiBase| + |"/vehicle"| + 1..]) == Some([("key", apiKey), ("num", FormText(num))])
  {
    var ps := [("num", FormText(num))];
    assert Names(ps)[0] == "num";
    RequestQueryReadsBack(apiKey, "/vehicle", ps);
    assert [("key", apiKey)] + ps == [("key", apiKey), ("num", FormText(num))];
  }

  /** The arrivals search request: the key, then `stop`. */
  lemma ArrivalsSearchQuery(apiKey: string, stop: Option<string>)
    ensures var url := RequestUrl(apiKey, "/arrivalsJSON", [("stop", FormText(stop))]);
            FormUrlEncoded.Parse(url[|ApiBase| + |"/arrivalsJSON"| + 1..]) == Some([("key", apiKey), ("stop", FormText(stop))])
  {
    var ps := [("stop", FormText(stop))];
    assert Names(ps)[0] == "stop";
    RequestQueryReadsBack(apiKey, "/arrivalsJSON", ps);
    assert [("key", apiKey)] + ps == [("key", apiKey), ("stop", FormText(stop))];
  }
}

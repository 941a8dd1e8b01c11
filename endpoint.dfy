/**
 * The current library's public objects. A `Discuss` is an HTTP endpoint
 * with default headers and options; its verb methods build a `Request`,
 * whose decorators record a query, a body, headers and callbacks; `send`
 * turns the two into what goes over the wire: the URL, the transport,
 * the header set and the payload.
 */
module Endpoint {

  import opened Wrappers
  import opened Js
  import opened Text
  import opened Options
  import opened Transport
  import opened Paths
  import opened QueryStrings
  import opened HeaderComposition
  import ResponseHandling

  /** The five verbs of the method table. */
  datatype Verb = Get | Post | Put | Delete | Head

  /** An entry of the method table: the verb's name and whether it takes a query or a body. */
  datatype HttpMethod = HttpMethod(name: string, query: bool, body: bool)

  /** The method table, in the order it is declared. */
  const MethodTable: seq<HttpMethod> := [
    HttpMethod("get", true, false),
    HttpMethod("post", false, true),
    HttpMethod("put", false, true),
    HttpMethod("delete", true, false),
    HttpMethod("head", true, false)]

  /** A verb's entry: get, delete and head take a query, post and put a body, none takes both. */
  function MethodOf(verb: Verb): (m: HttpMethod)
    ensures m in MethodTable
    ensures m.query <==> verb == Get || verb == Delete || verb == Head
    ensures m.body <==> verb == Post || verb == Put
    ensures !(m.query && m.body)
  {
    match verb
    case Get => MethodTable[0]
    case Post => MethodTable[1]
    case Put => MethodTable[2]
    case Delete => MethodTable[3]
    case Head => MethodTable[4]
  }

  /** Whether `query()` or `body()` stores its argument: the flag is set and `typeof` is 'object' or 'string'. */
  predicate Admits(flag: bool, v: Value) {
    flag && (TypeOf(v) == ObjectType || TypeOf(v) == StringType)
  }

  /** `query(q)` is kept exactly for get, delete and head, and only for an object, `null` or a string. */
  lemma QueryAdmittedIff(verb: Verb, q: Value)
    ensures Admits(MethodOf(verb).query, q) <==> (verb == Get || verb == Delete || verb == Head) && (q.Object? || q.Null? || q.Str?)
  {
  }

  /** `body(b)` is kept exactly for post and put, and only for an object, `null` or a string. */
  lemma BodyAdmittedIff(verb: Verb, b: Value)
    ensures Admits(MethodOf(verb).body, b) <==> (verb == Post || verb == Put) && (b.Object? || b.Null? || b.Str?)
  {
  }

  /** Everything a `Discuss` holds. */
  datatype EndpointState = EndpointState(basepath: Value, reqHeaders: Value, options: map<string, Value>)

  /** Everything a `Request` holds; `undefined` stands for a property never set. */
  datatype RequestState = RequestState(
    owner: Discuss, httpMethod: HttpMethod, path: Value,
    reqHeaders: Value, query: Value, body: Value, onSuccess: Value, onError: Value)

  /** What `send` hands to the transport: `open(method, url)`, the headers, the timeout and `send(payload)`. */
  datatype Payload = NoPayload | Payload(text: string)

  datatype Dispatch = Dispatch(methodName: string, url: string, xhr: Xhr, headers: map<string, Value>, payload: Payload, timeout: Value)

  /** The three ways `send` throws before anything is sent. */
  datatype SendError = InvalidSendParameters | PathsUnparsable | CorsUnsupported

  /**
   * The URL: the base path, joined with the path when that is truthy, then
   * the query string when the query is truthy.
   */
  function RequestUrl(basepath: Value, path: Value, query: Value): (r: Result<string, SendError>) {
    var joined := PathUrl(basepath, path);
    if joined.Err? then Err(PathsUnparsable) else Ok(joined.value + AppendedQuery(query))
  }

  /** What the query adds to the URL: its query string when it is truthy, nothing otherwise. */
  function AppendedQuery(query: Value): string {
    if Truthy(query) && QueryStringOf(query).Ok? then QueryStringOf(query).value else ""
  }

  /** The URL before the query: the base path, joined with the path when that is truthy. */
  function PathUrl(basepath: Value, path: Value): Result<string, PathError> {
    if Truthy(path) then JoinPaths(ToJsString(basepath), path) else Ok(ToJsString(basepath))
  }

  /** What is passed to `xhr.send`: a truthy object as JSON, a truthy string as it is, otherwise nothing. */
  function PayloadOf(body: Value, stringify: Value -> string): (p: Payload) {
    if Truthy(body) && TypeOf(body) == ObjectType then Payload(stringify(body))
    else if Truthy(body) && TypeOf(body) == StringType then Payload(body.s)
    else NoPayload
  }

  /** The whole of `send` before the request goes out, as one value. */
  function SendPlan(endpoint: EndpointState, request: RequestState, agent: UserAgent, stringify: Value -> string): (r: Result<Dispatch, SendError>) {
    var options := endpoint.options;
    if !Truthy(request.onSuccess) then Err(InvalidSendParameters)
    else
      match RequestUrl(endpoint.basepath, request.path, request.query)
      case Err(e) => Err(e)
      case Ok(url) =>
        match BuildXhr(Truthy(OptionValue(options, "cors")), Truthy(OptionValue(options, "corsWithCredentials")), agent)
        case Err(_) => Err(CorsUnsupported)
        case Ok(xhr) =>
          var headers := ComposedHeaders(EntriesToMap(OwnEntries(endpoint.reqHeaders)), EntriesToMap(OwnEntries(request.reqHeaders)),
                                         InferredContentType(BodyKindOf(request.body), "text/html", OptionValue(options, "charset")));
          Ok(Dispatch(request.httpMethod.name, url, xhr, headers, PayloadOf(request.body, stringify), OptionValue(options, "timeout")))
  }

  /** A truthy query never makes `buildQueryString` throw: only `null` does, and `null` is falsy. */
  lemma TruthyQueryBuilds(query: Value)
    requires Truthy(query)
    ensures QueryStringOf(query).Ok?
  {
  }

  /** `send` refuses a request exactly when it has no success callback. */
  lemma SendNeedsSuccessCallback(endpoint: EndpointState, request: RequestState, agent: UserAgent, stringify: Value -> string)
    ensures SendPlan(endpoint, request, agent, stringify) == Err(InvalidSendParameters) <==> !Truthy(request.onSuccess)
  {
  }

  /** A falsy query (`''`, `undefined`, `null`, `0`) and an object without keys all leave the URL as it is. */
  lemma EmptyQueriesAppendNothing(basepath: Value, path: Value, query: Value)
    requires !Truthy(query) || query == Object([])
    ensures RequestUrl(basepath, path, query) == RequestUrl(basepath, path, Undefined)
  {
    assert AppendedQuery(Undefined) == "";
    if Truthy(query) {
      assert QueryStringOf(query) == Ok("") by {
        assert query == Object([]);
      }
    }
    assert AppendedQuery(query) == "";
  }

  /** When neither the base path nor the path holds `?`, the URL before the query holds none either. */
  lemma PathUrlHasNoQueryMark(basepath: Value, path: Value)
    requires '?' !in ToJsString(basepath) && '?' !in ToJsString(path)
    ensures PathUrl(basepath, path).Ok? ==> '?' !in PathUrl(basepath, path).value
  {
    if Truthy(path) {
      JoinHasNoQueryMark(ToJsString(basepath), ToJsString(path));
    }
  }

  lemma JoinHasNoQueryMark(first: string, second: string)
    requires '?' !in first && '?' !in second
    ensures '?' !in StripTrailing(first, '/') + "/" + StripLeading(second, '/')
  {
    StripKeepsOut(first, '/', '?');
    StripKeepsOut(second, '/', '?');
  }

  /** Text without `?` followed by '' or by `?` and text without `?` holds at most one `?`. */
  lemma OneQueryMark(base: string, queryString: string)
    requires '?' !in base
    requires queryString == "" || (queryString[0] == '?' && '?' !in queryString[1..])
    ensures forall i, j :: 0 <= i < j < |base + queryString| && (base + queryString)[i] == '?' ==> (base + queryString)[j] != '?'
  {
    var url := base + queryString;
    forall i, j | 0 <= i < j < |url| && url[i] == '?'
      ensures url[j] != '?'
    {
      assert url[j] == queryString[1..][j - |base| - 1];
    }
  }

  /**
   * When neither the base path nor the path holds a `?`, the URL holds at
   * most one: the one that starts the query string.
   */
  lemma UrlHasOneQueryMark(basepath: Value, path: Value, query: Value)
    requires '?' !in ToJsString(basepath) && '?' !in ToJsString(path)
    ensures RequestUrl(basepath, path, query).Ok? ==>
      var url := RequestUrl(basepath, path, query).value;
      forall i, j :: 0 <= i < j < |url| && url[i] == '?' ==> url[j] != '?'
  {
    var joined := PathUrl(basepath, path);
    if joined.Ok? {
      var base := joined.value;
      assert '?' !in base by {
        PathUrlHasNoQueryMark(basepath, path);
      }
      var queryString := AppendedQuery(query);
      assert queryString == "" || (queryString[0] == '?' && '?' !in queryString[1..]) by {
        QueryStringShape(query);
      }
      OneQueryMark(base, queryString);
    }
  }

  /**
   * A numeric path is written in decimal: a request for `42` on '/api'
   * addresses '/api/42'. The number 0 is falsy, so it addresses the base path itself.
   */
  lemma NumericPathUrl(basepath: string, n: nat)
    requires IsPathPart(basepath) && n <= MaxSafeInteger
    ensures n != 0 ==> RequestUrl(Str(basepath), Number(n), Undefined) == Ok(basepath + "/" + NatToDecimal(n))
    ensures n == 0 ==> RequestUrl(Str(basepath), Number(n), Undefined) == Ok(basepath)
  {
    assert AppendedQuery(Undefined) == "";
    var url := if n == 0 then basepath else basepath + "/" + NatToDecimal(n);
    NumericPath(basepath, n);
    assert url + "" == url;
  }

  /** The URL before the query for a numeric path. */
  lemma NumericPath(basepath: string, n: nat)
    requires IsPathPart(basepath) && n <= MaxSafeInteger
    ensures PathUrl(Str(basepath), Number(n)) == Ok(if n == 0 then basepath else basepath + "/" + NatToDecimal(n))
  {
    assert ToJsString(Str(basepath)) == basepath;
    if n != 0 {
      JoinPathsNumber(basepath, n);
    }
  }

  /**
   * Something is sent exactly for a truthy object or string body, and then
   * a Content-Type that matches it is set; an empty string or `null` body
   * sends nothing yet still sets a Content-Type.
   */
  lemma PayloadAndContentType(body: Value, stringify: Value -> string, charset: Value)
    ensures PayloadOf(body, stringify).Payload? <==> Truthy(body) && (body.Object? || body.Str?)
    ensures PayloadOf(body, stringify).Payload? ==> InferredContentType(BodyKindOf(body), "text/html", charset).Some?
    ensures body.Object? ==> PayloadOf(body, stringify) == Payload(stringify(body))
    ensures body.Str? && body.s != "" ==> PayloadOf(body, stringify) == Payload(body.s)
    ensures body == Null || body == Str("") ==>
      PayloadOf(body, stringify) == NoPayload && InferredContentType(BodyKindOf(body), "text/html", charset).Some?
  {
  }

  /** An endpoint: `new Discuss(basepath)`, `header()`, `configure()`, the verb methods and `send`. */
  class Discuss {
    var basepath: Value
    var reqHeaders: Value
    var options: map<string, Value>

    function State(): EndpointState
      reads this
    {
      EndpointState(basepath, reqHeaders, options)
    }

    /** A new endpoint has no default headers and the five default options. */
    constructor(basepath: Value)
      ensures State() == EndpointState(basepath, Object([]), DefaultOptions)
    {
      this.basepath := basepath;
      reqHeaders := Object([]);
      options := DefaultOptions;
    }

    /** Replaces the default headers, but only with an object (or `null`). */
    method Header(reqHeaders: Value)
      modifies this
      ensures State() == old(State()).(reqHeaders := if TypeOf(reqHeaders) == ObjectType then reqHeaders else old(this.reqHeaders))
    {
      if TypeOf(reqHeaders) == ObjectType {
        this.reqHeaders := reqHeaders;
      }
    }

    /** Merges the recognised options of the argument; the key set never changes. */
    method Configure(options: Value)
      modifies this
      ensures State() == old(State()).(options := Merged(old(this.options), EntriesToMap(OwnEntries(options))))
      ensures this.options.Keys == old(this.options.Keys)
    {
      this.options := MergeOptions(this.options, OwnEntries(options));
      MergeKeepsKeys(old(this.options), EntriesToMap(OwnEntries(options)));
    }

    /** `get(path)`, `post(path)`, ...: a new request for that verb, owned by this endpoint. */
    method NewRequest(verb: Verb, path: Value) returns (request: Request)
      ensures fresh(request)
      ensures request.State() == RequestState(this, MethodOf(verb), path, Undefined, Undefined, Undefined, Undefined, Undefined)
    {
      request := new Request(this, MethodOf(verb), path);
    }

    /**
     * `send(request)` up to the point where the transport takes over:
     * validation, the URL, the transport, the headers and the payload.
     */
    method Send(request: Request?, agent: UserAgent, stringify: Value -> string) returns (r: Result<Dispatch, SendError>)
      ensures request == null ==> r == Err(InvalidSendParameters)
      ensures request != null ==> r == SendPlan(State(), request.State(), agent, stringify)
    {
      if request == null || !Truthy(request.onSuccess) {
        return Err(InvalidSendParameters);
      }
      var url := ToJsString(basepath);
      if Truthy(request.path) {
        var joined := JoinPaths(ToJsString(basepath), request.path);
        if joined.Err? {
          return Err(PathsUnparsable);
        }
        url := joined.value;
      }
      if Truthy(request.query) {
        var queryString := BuildQueryString(request.query);
        TruthyQueryBuilds(request.query);
        url := url + queryString.value;
      } else {
        assert url + AppendedQuery(request.query) == url;
      }
      var xhr := BuildXhr(Truthy(OptionValue(options, "cors")), Truthy(OptionValue(options, "corsWithCredentials")), agent);
      if xhr.Err? {
        return Err(CorsUnsupported);
      }
      var headers := BuildHeaders(reqHeaders, request.reqHeaders, BodyKindOf(request.body), OptionValue(options, "charset"));
      var payload;
      if Truthy(request.body) && TypeOf(request.body) == ObjectType {
        payload := Payload(stringify(request.body));
      } else if Truthy(request.body) && TypeOf(request.body) == StringType {
        payload := Payload(request.body.s);
      } else {
        payload := NoPayload;
      }
      r := Ok(Dispatch(request.httpMethod.name, url, xhr.value, headers, payload, OptionValue(options, "timeout")));
    }

    /**
     * The completion handlers: what an event from the transport leads to,
     * with `autoParse` read from this endpoint when the event arrives. A
     * completed response reaches the routed callback of the request; with
     * `autoParse` off it carries the raw header text and the raw body, with
     * it on the normalised headers and the parsed body. A timeout, a network
     * error or a throwing `send` reaches the request's `onError`.
     */
    method Complete<J>(request: Request, event: ResponseHandling.Event, parseJson: string -> Option<J>)
      returns (r: Option<ResponseHandling.Invocation<J>>)
      ensures event.ReadyStateChange? ==>
        (r.Some? <==> event.readyState == 4 && ResponseHandling.RoutedCallback(event.status, request.onSuccess, request.onError).Some?)
      ensures r.Some? && r.value.Respond? ==>
        event.ReadyStateChange? && r.value.status == event.status
        && Some(r.value.callback) == ResponseHandling.RoutedCallback(event.status, request.onSuccess, request.onError)
      ensures r.Some? && r.value.Respond? && !Truthy(OptionValue(options, "autoParse")) ==>
        r.value.headers == ResponseHandling.RawHeaders(event.responseHeaderText) && r.value.body == ResponseHandling.TextBody(event.responseText)
      ensures r.Some? && r.value.Respond? && Truthy(OptionValue(options, "autoParse")) ==>
        r.value.headers == ResponseHandling.NormalisedHeaders(event.responseHeaderText, true)
        && r.value.body == ResponseHandling.ParseResponseBody(event.responseText, r.value.headers, true, parseJson)
      ensures r.Some? && r.value.Fail? ==> Truthy(request.onError) && !event.ReadyStateChange?
      ensures !event.ReadyStateChange? ==> (r.Some? <==> Truthy(request.onError))
      ensures event.TimedOut? && r.Some? ==> r.value == ResponseHandling.Fail(Str(ResponseHandling.TimeoutMessage))
      ensures event.NetworkError? && r.Some? ==> r.value == ResponseHandling.Fail(Str(ResponseHandling.NetworkErrorMessage))
      ensures event.SendThrew? && r.Some? ==> r.value == ResponseHandling.Fail(event.error)
    {
      r := ResponseHandling.Settle(event, request.onSuccess, request.onError, Truthy(OptionValue(options, "autoParse")), parseJson);
    }
  }

  /** A request under construction. */
  class Request {
    var owner: Discuss
    var httpMethod: HttpMethod
    var path: Value
    var reqHeaders: Value
    var query: Value
    var body: Value
    var onSuccess: Value
    var onError: Value

    function State(): RequestState
      reads this
    {
      RequestState(owner, httpMethod, path, reqHeaders, query, body, onSuccess, onError)
    }

    /** `new Request(d, method, path)`: nothing else is set yet. */
    constructor(d: Discuss, httpMethod: HttpMethod, path: Value)
      ensures State() == RequestState(d, httpMethod, path, Undefined, Undefined, Undefined, Undefined, Undefined)
    {
      owner := d;
      this.httpMethod := httpMethod;
      this.path := path;
      reqHeaders := Undefined;
      query := Undefined;
      body := Undefined;
      onSuccess := Undefined;
      onError := Undefined;
    }

    /** Replaces the request's headers, but only with an object (or `null`). */
    method Header(reqHeaders: Value)
      modifies this
      ensures State() == old(State()).(reqHeaders := if TypeOf(reqHeaders) == ObjectType then reqHeaders else old(this.reqHeaders))
    {
      if TypeOf(reqHeaders) == ObjectType {
        this.reqHeaders := reqHeaders;
      }
    }

    /** Records the query when the verb takes one and it is an object or a string; otherwise changes nothing. */
    method Query(query: Value)
      modifies this
      ensures State() == old(State()).(query := if Admits(httpMethod.query, query) then query else old(this.query))
    {
      if httpMethod.query && (TypeOf(query) == ObjectType || TypeOf(query) == StringType) {
        this.query := query;
      }
    }

    /** Records the body when the verb takes one and it is an object or a string; otherwise changes nothing. */
    method Body(body: Value)
      modifies this
      ensures State() == old(State()).(body := if Admits(httpMethod.body, body) then body else old(this.body))
    {
      if httpMethod.body && (TypeOf(body) == ObjectType || TypeOf(body) == StringType) {
        this.body := body;
      }
    }

    method Success(onSuccess: Value)
      modifies this
      ensures State() == old(State()).(onSuccess := onSuccess)
    {
      this.onSuccess := onSuccess;
    }

    method Error(onError: Value)
      modifies this
      ensures State() == old(State()).(onError := onError)
    {
      this.onError := onError;
    }

    /** `send()`: hands the request to its owner's `send`. */
    method Send(agent: UserAgent, stringify: Value -> string) returns (r: Result<Dispatch, SendError>)
      ensures r == SendPlan(owner.State(), State(), agent, stringify)
    {
      r := owner.Send(this, agent, stringify);
    }
  }
}

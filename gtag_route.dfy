/** The `/gtag/js` route: a GET handler that fetches the analytics script
    from a fixed upstream URL and hands it back, and four handlers that
    refuse every other method. The fetch is a parameter (`origin`): it
    receives the forwarded request headers and yields the upstream outcome. */
module GtagRoute {

  /** A `Headers` object: header names (lower case, as `Headers` stores
      them) to values. */
  type Headers = map<string, string>

  /** An incoming request: its method (`request.method`) and its headers. */
  datatype Request = Request(verb: string, headers: Headers)

  /** The outcome of reading the upstream body with `text()`. */
  datatype BodyRead = Read(text: string) | ReadFailure

  /** The outcome of the upstream `fetch`: a response, or a rejected promise. */
  datatype Upstream = Reply(status: int, headers: Headers, body: BodyRead) | FetchFailure

  datatype Response = Response(status: int, headers: Headers, body: string)

  /** The request headers passed on to the upstream. */
  const RequestAllowList: set<string> := {"user-agent", "accept", "accept-encoding"}
  const CacheControl := "public, max-age=3600"
  const FetchErrorBody := "Error fetching from GTAG"
  const InternalErrorBody := "Internal Server Error"

  /** `Response.ok`: a status in the range 200 to 299. */
  predicate IsOk(status: int)
  {
    200 <= status <= 299
  }

  /** The request headers the upstream sees: the incoming ones whose names
      are on the allow-list, with their values. */
  function Forwarded(incoming: Headers): Headers
  {
    map k | k in incoming.Keys * RequestAllowList :: incoming[k]
  }

  /** The response headers of a successful reply: the upstream's
      `content-type`, if it has one, and a fixed `cache-control`. */
  function PassedThrough(upstream: Headers): Headers
  {
    map k | k in {"cache-control"} + (upstream.Keys * {"content-type"}) ::
      if k == "cache-control" then CacheControl else upstream[k]
  }

  /** The building of `requestHeaders`, one conditional `set` per allowed name. */
  method ForwardRequestHeaders(incoming: Headers) returns (requestHeaders: Headers)
    ensures requestHeaders == Forwarded(incoming)
    ensures requestHeaders.Keys <= RequestAllowList
    ensures forall k :: k in RequestAllowList ==> (k in requestHeaders <==> k in incoming)
    ensures forall k :: k in requestHeaders ==> requestHeaders[k] == incoming[k]
  {
    requestHeaders := map[];
    if "user-agent" in incoming {
      requestHeaders := requestHeaders["user-agent" := incoming["user-agent"]];
    }
    if "accept" in incoming {
      requestHeaders := requestHeaders["accept" := incoming["accept"]];
    }
    if "accept-encoding" in incoming {
      requestHeaders := requestHeaders["accept-encoding" := incoming["accept-encoding"]];
    }
  }

  /** The building of the success response's `headers`. */
  method ResponseHeaders(upstream: Headers) returns (headers: Headers)
    ensures headers == PassedThrough(upstream)
    ensures "cache-control" in headers && headers["cache-control"] == CacheControl
    ensures "content-type" in headers <==> "content-type" in upstream
    ensures "content-type" in upstream ==> headers["content-type"] == upstream["content-type"]
    ensures headers.Keys <= {"cache-control", "content-type"}
  {
    headers := map[];
    if "content-type" in upstream {
      headers := headers["content-type" := upstream["content-type"]];
    }
    headers := headers["cache-control" := CacheControl];
  }

  /** `GET`: forward the allowed headers, fetch, and map the outcome to a
      response. Every failure inside the `try` (the fetch or the body read
      rejecting) ends in the `catch`. */
  method Get(request: Request, origin: Headers -> Upstream) returns (response: Response)
    ensures var up := origin(Forwarded(request.headers));
            up.FetchFailure? ==> response == Response(500, map[], InternalErrorBody)
    ensures var up := origin(Forwarded(request.headers));
            up.Reply? && !IsOk(up.status) ==> response == Response(up.status, map[], FetchErrorBody)
    ensures var up := origin(Forwarded(request.headers));
            up.Reply? && IsOk(up.status) && up.body.ReadFailure? ==>
              response == Response(500, map[], InternalErrorBody)
    ensures var up := origin(Forwarded(request.headers));
            up.Reply? && IsOk(up.status) && up.body.Read? ==>
              response == Response(up.status, PassedThrough(up.headers), up.body.text)
  {
    var requestHeaders := ForwardRequestHeaders(request.headers);
    var responseFromOrigin := origin(requestHeaders);
    match responseFromOrigin
    case FetchFailure =>
      response := Response(500, map[], InternalErrorBody);
    case Reply(status, upstreamHeaders, body) =>
      if !IsOk(status) {
        response := Response(status, map[], FetchErrorBody);
      } else {
        match body
        case ReadFailure =>
          response := Response(500, map[], InternalErrorBody);
        case Read(responseText) =>
          var headers := ResponseHeaders(upstreamHeaders);
          response := Response(status, headers, responseText);
      }
  }

  const AllowHeaders: Headers := map["allow" := "GET"]

  /** `methodNotAllowed`: status 405, `Allow: GET`, and a body naming the method. */
  function MethodNotAllowed(request: Request): (r: Response)
    ensures r.status == 405 && r.headers == AllowHeaders
    ensures |r.body| == |request.verb| + 19
    ensures r.body[..7] == "Method " && r.body[|r.body| - 12..] == " Not Allowed"
    ensures r.body[7..|r.body| - 12] == request.verb
  {
    var body := "Method " + request.verb + " Not Allowed";
    assert body[..7] == "Method ";
    assert body[7..|body| - 12] == request.verb;
    assert body[|body| - 12..] == " Not Allowed";
    Response(405, AllowHeaders, body)
  }

  /** Two refused requests get the same response only if they name the same method. */
  lemma NotAllowedDistinguishesMethods(a: Request, b: Request)
    requires MethodNotAllowed(a) == MethodNotAllowed(b)
    ensures a.verb == b.verb
  {
    var ra, rb := MethodNotAllowed(a), MethodNotAllowed(b);
    assert ra.body[7..|ra.body| - 12] == rb.body[7..|rb.body| - 12];
  }

  /** The `DELETE` handler, which the router calls for DELETE requests only. */
  function Delete(request: Request): (r: Response)
    requires request.verb == "DELETE"
    ensures r == Response(405, map["allow" := "GET"], "Method DELETE Not Allowed")
  {
    MethodNotAllowed(request)
  }

  /** The `POST` handler, which the router calls for POST requests only. */
  function Post(request: Request): (r: Response)
    requires request.verb == "POST"
    ensures r == Response(405, map["allow" := "GET"], "Method POST Not Allowed")
  {
    MethodNotAllowed(request)
  }

  /** The `PUT` handler, which the router calls for PUT requests only. */
  function Put(request: Request): (r: Response)
    requires request.verb == "PUT"
    ensures r == Response(405, map["allow" := "GET"], "Method PUT Not Allowed")
  {
    MethodNotAllowed(request)
  }

  /** The `PATCH` handler, which the router calls for PATCH requests only. */
  function Patch(request: Request): (r: Response)
    requires request.verb == "PATCH"
    ensures r == Response(405, map["allow" := "GET"], "Method PATCH Not Allowed")
  {
    MethodNotAllowed(request)
  }
}

/** The event enricher: `Integration::applyToEvent` and the global event
    processor that `Integration::setupOnce` registers. */
module Enricher {
  import opened Values
  import opened Config
  import Headers
  import Masking

  /** The inbound request, as the Yii application exposes it. */
  datatype Request = Request(
    isConsoleRequest: bool,
    httpMethod: string,          // getMethod()
    url: string,                 // getUrl()
    queryString: string,         // getQueryString()
    headers: Entries,            // getHeaders()->toArray()
    remoteAddr: Option<string>,  // getHeaders()->has / get('REMOTE_ADDR')
    cookies: Entries,            // getCookies()
    rawBody: string,             // getRawBody()
    bodyParams: Entries,         // getBodyParams()
    actionId: string)            // requestedAction->getUniqueId()

  /** The request record attached to the event. A None field is a key the
      record does not have. */
  datatype RequestData = RequestData(
    url: string,
    httpMethod: string,
    queryString: string,
    env: Option<string>,         // env.REMOTE_ADDR
    cookies: Option<Entries>,
    headers: Entries,
    data: Option<string>)

  /** The part of the monitoring event the enricher reads and writes. */
  datatype EventData = EventData(
    request: Option<RequestData>,  // None: the event's empty request array
    extra: Entries,
    userIp: Option<string>)        // the user context's IP address

  class Event {
    var request: Option<RequestData>
    var extra: Entries
    var userIp: Option<string>

    function Data(): EventData
      reads this
    {
      EventData(request, extra, userIp)
    }
  }

  const NotAvailable: string := "Not available due to PII. See \"bodyParams\" in Additional data block."

  /** The body is recorded: the method is in the allow-list (exact,
      case-sensitive match) and the raw body is not empty. */
  predicate CapturesBody(cfg: Config, req: Request)
  {
    req.httpMethod in cfg.httpMethodsWithRequestBody && req.rawBody != ""
  }

  /** The body is redacted: default PII sending is off and the route has
      configured body fields. */
  predicate MasksBody(cfg: Config, sendDefaultPii: bool, req: Request)
  {
    !sendDefaultPii && req.actionId in cfg.piiBodyFields
  }

  /** When the body is redacted, masking it does not raise a TypeError
      (every nested spec entry names an existing sub-array). */
  predicate Maskable(cfg: Config, sendDefaultPii: bool, req: Request)
  {
    !req.isConsoleRequest && CapturesBody(cfg, req) && MasksBody(cfg, sendDefaultPii, req) ==>
      Masking.Masked(req.bodyParams, cfg.piiBodyFields[req.actionId], Placeholder(cfg)).Some?
  }

  /** The request record built for a web request. */
  function Record(cfg: Config, sendDefaultPii: bool, req: Request): RequestData
  {
    RequestData(
      req.url, req.httpMethod, req.queryString,
      if sendDefaultPii then req.remoteAddr else None,
      if sendDefaultPii then Some(req.cookies) else None,
      if sendDefaultPii then req.headers else Headers.Processed(cfg, req.headers),
      if !CapturesBody(cfg, req) then None
      else if MasksBody(cfg, sendDefaultPii, req) then Some(NotAvailable)
      else Some(req.rawBody))
  }

  /** The decoded body parameters attached as extra data. */
  function DecodedParams(cfg: Config, sendDefaultPii: bool, req: Request): Entries
    requires Maskable(cfg, sendDefaultPii, req) && !req.isConsoleRequest
  {
    if CapturesBody(cfg, req) && MasksBody(cfg, sendDefaultPii, req) then
      Masking.Masked(req.bodyParams, cfg.piiBodyFields[req.actionId], Placeholder(cfg)).value
    else req.bodyParams
  }

  /** The event after enrichment. */
  function Enriched(cfg: Config, sendDefaultPii: bool, req: Request, ev: EventData): EventData
    requires Maskable(cfg, sendDefaultPii, req)
  {
    if req.isConsoleRequest then ev
    else EventData(
      Some(Record(cfg, sendDefaultPii, req)),
      if CapturesBody(cfg, req) then [("decodedParams", Arr(DecodedParams(cfg, sendDefaultPii, req)))]
      else ev.extra,
      if sendDefaultPii && ev.userIp.None? && req.remoteAddr.Some? then req.remoteAddr
      else ev.userIp)
  }

  method ApplyToEvent(cfg: Config, sendDefaultPii: bool, req: Request, event: Event)
    requires Maskable(cfg, sendDefaultPii, req)
    modifies event
    ensures event.Data() == Enriched(cfg, sendDefaultPii, req, old(event.Data()))
  {
    // A console invocation has no web request to describe.
    if req.isConsoleRequest {
      return;
    }
    var requestMethod := req.httpMethod;
    var requestData := RequestData(req.url, requestMethod, req.queryString, None, None, [], None);

    if sendDefaultPii {
      if req.remoteAddr.Some? {
        requestData := requestData.(env := req.remoteAddr);
      }
      requestData := requestData.(cookies := Some(req.cookies));
      requestData := requestData.(headers := req.headers);
      if event.userIp.None? && req.remoteAddr.Some? {
        event.userIp := req.remoteAddr;
      }
    } else {
      var headers := Headers.ProcessHeaders(cfg, req.headers);
      requestData := requestData.(headers := headers);
    }

    // The body, for allow-listed methods with a non-empty raw body
    if requestMethod in cfg.httpMethodsWithRequestBody {
      var rawBody := req.rawBody;
      if rawBody != "" {
        var bodyParams := req.bodyParams;
        var actionId := req.actionId;
        if !sendDefaultPii && actionId in cfg.piiBodyFields {
          requestData := requestData.(data := Some(NotAvailable));
          bodyParams := Masking.RemoveKeysFromArrayRecursively(bodyParams, cfg.piiBodyFields[actionId], Placeholder(cfg));
        } else {
          requestData := requestData.(data := Some(rawBody));
        }
        event.extra := [("decodedParams", Arr(bodyParams))];
      }
    }

    event.request := Some(requestData);
  }

  /** The global event processor: the event is enriched only when the
      Integration is registered on the current hub. */
  method ProcessEvent(registered: bool, cfg: Config, sendDefaultPii: bool, req: Request, event: Event)
    returns (result: Event)
    requires registered ==> Maskable(cfg, sendDefaultPii, req)
    modifies event
    ensures result == event
    ensures event.Data() == if registered then Enriched(cfg, sendDefaultPii, req, old(event.Data())) else old(event.Data())
  {
    if !registered {
      return event;
    }
    ApplyToEvent(cfg, sendDefaultPii, req, event);
    return event;
  }

  /** A console invocation leaves the event as it was. */
  lemma ConsoleRequestUnchanged(cfg: Config, sendDefaultPii: bool, req: Request, ev: EventData)
    requires Maskable(cfg, sendDefaultPii, req) && req.isConsoleRequest
    ensures Enriched(cfg, sendDefaultPii, req, ev) == ev
  {
  }

  /** A web request always records url, method and query string. */
  lemma RecordsRequestLine(cfg: Config, sendDefaultPii: bool, req: Request, ev: EventData)
    requires Maskable(cfg, sendDefaultPii, req) && !req.isConsoleRequest
    ensures Enriched(cfg, sendDefaultPii, req, ev).request.Some?
    ensures var r := Enriched(cfg, sendDefaultPii, req, ev).request.value;
      r.url == req.url && r.httpMethod == req.httpMethod && r.queryString == req.queryString
  {
  }

  /** Default PII sending off: the headers are the filtered headers (nothing
      stripped left, personal ones masked, the rest original, input order
      kept), and neither cookies, the remote address nor the user IP are
      recorded. */
  lemma WithoutPiiHeadersAreRedacted(cfg: Config, req: Request, ev: EventData)
    requires Maskable(cfg, false, req) && !req.isConsoleRequest
    ensures var r := Enriched(cfg, false, req, ev).request.value;
      && r.headers == Headers.Processed(cfg, req.headers)
      && Headers.IsRedacted(cfg, r.headers)
      && (forall i :: 0 <= i < |r.headers| && !Headers.Personal(cfg, r.headers[i].0) ==> r.headers[i] in req.headers)
      && (DistinctKeys(req.headers) ==> KeysOf(r.headers) == Headers.Unstripped(cfg, KeysOf(req.headers)))
      && r.cookies.None? && r.env.None?
    ensures Enriched(cfg, false, req, ev).userIp == ev.userIp
  {
    Headers.ProcessedIsRedacted(cfg, req.headers);
    Headers.ProcessedKeepsValues(cfg, req.headers);
    if DistinctKeys(req.headers) {
      Headers.ProcessedOrder(cfg, req.headers);
    }
  }

  /** Default PII sending on: raw headers and cookies are attached,
      env.REMOTE_ADDR exists exactly when the header does, and the user IP is
      filled from it only when it was unknown. */
  lemma WithPiiEverythingAttached(cfg: Config, req: Request, ev: EventData)
    requires Maskable(cfg, true, req) && !req.isConsoleRequest
    ensures var r := Enriched(cfg, true, req, ev).request.value;
      && r.headers == req.headers
      && r.cookies == Some(req.cookies)
      && r.env == req.remoteAddr
    ensures ev.userIp.None? && req.remoteAddr.Some? ==> Enriched(cfg, true, req, ev).userIp == req.remoteAddr
    ensures ev.userIp.Some? || req.remoteAddr.None? ==> Enriched(cfg, true, req, ev).userIp == ev.userIp
  {
  }

  /** Body data and decoded parameters are attached exactly when the method
      is allow-listed and the raw body is not empty; the data is the fixed
      notice exactly when the body is redacted, the raw body otherwise. */
  lemma BodyCapture(cfg: Config, sendDefaultPii: bool, req: Request, ev: EventData)
    requires Maskable(cfg, sendDefaultPii, req) && !req.isConsoleRequest
    ensures var out := Enriched(cfg, sendDefaultPii, req, ev);
      && (out.request.value.data.Some? <==> CapturesBody(cfg, req))
      && (!CapturesBody(cfg, req) ==> out.extra == ev.extra)
      && (CapturesBody(cfg, req) ==> out.extra == [("decodedParams", Arr(DecodedParams(cfg, sendDefaultPii, req)))])
      && (CapturesBody(cfg, req) && MasksBody(cfg, sendDefaultPii, req) ==>
            out.request.value.data == Some(NotAvailable))
      && (CapturesBody(cfg, req) && !MasksBody(cfg, sendDefaultPii, req) ==>
            out.request.value.data == Some(req.rawBody) && DecodedParams(cfg, sendDefaultPii, req) == req.bodyParams)
  {
  }

  /** A redacted body keeps every field name and order; each set field named
      by a leaf of the route's spec holds the placeholder; absent or null
      fields stay so; fields the spec does not reach keep their value at any
      depth. */
  lemma RedactedBodyParams(cfg: Config, req: Request, k: Key, p: seq<Key>)
    requires Maskable(cfg, false, req) && !req.isConsoleRequest
    requires CapturesBody(cfg, req) && MasksBody(cfg, false, req)
    ensures var spec, params := cfg.piiBodyFields[req.actionId], DecodedParams(cfg, false, req);
      && KeysOf(params) == KeysOf(req.bodyParams)
      && (Leaf(k) in spec && IsSet(req.bodyParams, k) ==> Lookup(params, k) == Some(Placeholder(cfg)))
      && (!IsSet(req.bodyParams, k) ==> Lookup(params, k) == Lookup(req.bodyParams, k))
      && (p != [] && !Masking.Touches(spec, p) ==> Masking.At(params, p) == Masking.At(req.bodyParams, p))
  {
    var spec, text := cfg.piiBodyFields[req.actionId], Placeholder(cfg);
    if IsSet(req.bodyParams, k) {
      Masking.LeafMasked(req.bodyParams, spec, text, k);
    } else {
      Masking.UnsetUntouched(req.bodyParams, spec, text, k);
    }
    if p != [] && !Masking.Touches(spec, p) {
      Masking.UntouchedAtAnyDepth(req.bodyParams, spec, text, p);
    }
  }

  /** With the default method allow-list, a GET request never records its
      body, whatever the other rules say. */
  lemma DefaultGetOmitsBody(cfg: Config, sendDefaultPii: bool, req: Request, ev: EventData)
    requires cfg.httpMethodsWithRequestBody == Default.httpMethodsWithRequestBody
    requires Maskable(cfg, sendDefaultPii, req) && !req.isConsoleRequest && req.httpMethod == "GET"
    ensures Enriched(cfg, sendDefaultPii, req, ev).request.value.data.None?
    ensures Enriched(cfg, sendDefaultPii, req, ev).extra == ev.extra
  {
  }
}

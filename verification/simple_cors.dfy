/** The CORS middleware of the Django service (`config/simple_cors.py`): preflight requests
    are answered at once, and responses to an allowed origin gain the CORS headers. The
    downstream view is a parameter. */
module SimpleCors {
  import opened Wrappers
  import opened OrderedMap

  datatype CorsRequest = CorsRequest(verb: string, origin: Option<string>)

  /** A response: the status, the headers in insertion order, and the body. Django's
      `ResponseHeaders` compares header names case-insensitively, so headers are keyed here
      by their lower-cased names. */
  datatype Response = Response(status: int, headers: seq<Entry<string, string>>, body: string)

  /** `CORS_ALLOW_ALL_ORIGINS` and `CORS_ALLOWED_ORIGINS` (a missing or empty setting is the
      empty list). */
  datatype CorsSettings = CorsSettings(allowAll: bool, allowedOrigins: seq<string>)

  const AllowOrigin := "access-control-allow-origin"
  const VaryHeader := "vary"
  const AllowMethods := "access-control-allow-methods"
  const AllowHeaders := "access-control-allow-headers"
  const AllowCredentials := "access-control-allow-credentials"
  const MethodsValue := "GET, POST, PUT, PATCH, DELETE, OPTIONS"
  const HeadersValue := "Authorization, Content-Type"

  /** An empty `HttpResponse(status=200)`. */
  const Preflight := Response(200, [], "")

  /** `origin and (allow_all or origin in allowed_origins)`: an empty Origin header counts as
      absent. */
  predicate OriginAllowed(cfg: CorsSettings, origin: Option<string>) {
    origin.Some? && origin.value != "" && (cfg.allowAll || origin.value in cfg.allowedOrigins)
  }

  /** The five header assignments, each replacing a header of the same name in any case. */
  function WithCorsHeaders(resp: Response, origin: string): (r: Response)
    ensures r.status == resp.status && r.body == resp.body
    ensures Get(r.headers, AllowOrigin) == Some(origin)
    ensures Get(r.headers, VaryHeader) == Some("Origin")
    ensures Get(r.headers, AllowMethods) == Some(MethodsValue)
    ensures Get(r.headers, AllowHeaders) == Some(HeadersValue)
    ensures Get(r.headers, AllowCredentials) == Some("true")
    ensures forall k :: k !in {AllowOrigin, VaryHeader, AllowMethods, AllowHeaders, AllowCredentials} ==>
      Get(r.headers, k) == Get(resp.headers, k)
  {
    var h0 := resp.headers;
    var h1 := Put(h0, AllowOrigin, origin);
    var h2 := Put(h1, VaryHeader, "Origin");
    var h3 := Put(h2, AllowMethods, MethodsValue);
    var h4 := Put(h3, AllowHeaders, HeadersValue);
    var h5 := Put(h4, AllowCredentials, "true");
    forall k
      ensures Get(h5, k) == if k == AllowCredentials then Some("true")
        else if k == AllowHeaders then Some(HeadersValue)
        else if k == AllowMethods then Some(MethodsValue)
        else if k == VaryHeader then Some("Origin")
        else if k == AllowOrigin then Some(origin)
        else Get(h0, k)
    {
      PutGet(h0, AllowOrigin, origin, k);
      PutGet(h1, VaryHeader, "Origin", k);
      PutGet(h2, AllowMethods, MethodsValue, k);
      PutGet(h3, AllowHeaders, HeadersValue, k);
      PutGet(h4, AllowCredentials, "true", k);
    }
    Response(resp.status, h5, resp.body)
  }

  /** `SimpleCORSMiddleware.__call__`. */
  function Handle(cfg: CorsSettings, downstream: CorsRequest -> Response, req: CorsRequest): (r: Response)
    ensures var base := if req.verb == "OPTIONS" then Preflight else downstream(req);
      && r.status == base.status && r.body == base.body
      && (OriginAllowed(cfg, req.origin) ==>
            && Get(r.headers, AllowOrigin) == Some(req.origin.value)
            && Get(r.headers, VaryHeader) == Some("Origin")
            && Get(r.headers, AllowCredentials) == Some("true"))
      && (!OriginAllowed(cfg, req.origin) ==> r == base)
  {
    var base := if req.verb == "OPTIONS" then Preflight else downstream(req);
    if OriginAllowed(cfg, req.origin) then WithCorsHeaders(base, req.origin.value) else base
  }

  /** A preflight request never reaches the view: any two views give the same answer. */
  lemma PreflightSkipsDownstream(cfg: CorsSettings, d1: CorsRequest -> Response, d2: CorsRequest -> Response, req: CorsRequest)
    requires req.verb == "OPTIONS"
    ensures Handle(cfg, d1, req) == Handle(cfg, d2, req)
    ensures Handle(cfg, d1, req).status == 200
  {
  }

  /** The Allow-Origin header appears exactly for allowed origins (the view's own response
      carries none), and then echoes the request's origin. */
  lemma AllowOriginIff(cfg: CorsSettings, downstream: CorsRequest -> Response, req: CorsRequest)
    requires req.verb == "OPTIONS" || Get(downstream(req).headers, AllowOrigin).None?
    ensures Get(Handle(cfg, downstream, req).headers, AllowOrigin).Some? <==> OriginAllowed(cfg, req.origin)
    ensures OriginAllowed(cfg, req.origin) ==> Get(Handle(cfg, downstream, req).headers, AllowOrigin) == req.origin
  {
  }
}

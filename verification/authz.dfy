/** Live authorisation context from the Django service's introspection endpoint, behind a
    per-token cache with a time-to-live (`services/authz.py`). The clock readings and the
    HTTP exchange are parameters. */
module Authz {
  import opened Wrappers
  import opened OrderedMap
  import opened Json
  import Text
  import Numeric
  import PyConvert

  const DefaultCacheTtl := 60
  const DefaultIntrospectPath := "/api/auth/introspect"
  const DefaultDjangoUrl := "http://127.0.0.1:8000"

  datatype AuthzContext = AuthzContext(userId: int, role: string, agreementAccepted: bool)

  /** `AuthzInvalidToken`, `AuthzUnavailable(message)`, or an exception the service does
      not anticipate (an answer body that is JSON but not an object fails at `payload.get`). */
  datatype IntrospectError = InvalidToken | Unavailable(detail: string) | Crash

  // ----- the cache -----

  datatype CachedContext = CachedContext(expiresAt: real, value: AuthzContext)

  type Cache = map<string, CachedContext>

  /** `_cache_get`: the context only while its expiry lies strictly after `now`; a stale
      entry is removed. */
  function CacheGet(cache: Cache, token: string, now: real): (r: (Option<AuthzContext>, Cache))
    ensures r.0.Some? <==> token in cache && now < cache[token].expiresAt
    ensures r.0.Some? ==> r.0.value == cache[token].value && r.1 == cache
    ensures r.0.None? ==> r.1 == cache - {token}
  {
    if token !in cache then (None, cache)
    else if cache[token].expiresAt <= now then (None, cache - {token})
    else (Some(cache[token].value), cache)
  }

  /** `_cache_set`: a negative time-to-live counts as zero. */
  function CacheSet(cache: Cache, token: string, ctx: AuthzContext, now: real, ttl: int): (r: Cache)
    ensures token in r && r[token].value == ctx
    ensures r[token].expiresAt == now + Numeric.MaxI(ttl, 0) as real
    ensures forall t :: t != token ==> (t in r <==> t in cache) && (t in cache ==> r[t] == cache[t])
  {
    cache[token := CachedContext(now + Numeric.MaxI(ttl, 0) as real, ctx)]
  }

  /** A cached context is served strictly before `setAt + ttl`; with a time-to-live of zero
      or less it is stale at once, so caching is switched off. */
  lemma SetThenGet(cache: Cache, token: string, ctx: AuthzContext, setAt: real, ttl: int, now: real)
    requires now >= setAt
    ensures var got := CacheGet(CacheSet(cache, token, ctx, setAt, ttl), token, now).0;
      && (got.Some? <==> ttl > 0 && now < setAt + ttl as real)
      && (got.Some? ==> got.value == ctx)
  {
  }

  // ----- the introspection call -----

  /** `rstrip("/")`: every trailing slash removed. */
  function StripTrailingSlashes(s: string): (r: string)
    ensures |r| <= |s| && r == s[..|r|]
    ensures r == [] || r[|r| - 1] != '/'
    ensures forall k :: |r| <= k < |s| ==> s[k] == '/'
  {
    if |s| > 0 && s[|s| - 1] == '/' then
      var init := s[..|s| - 1];
      var r := StripTrailingSlashes(init);
      assert init[..|r|] == s[..|r|];
      r
    else s
  }

  /** The introspection URL: the base without trailing slashes, then the path with exactly
      one leading slash added when it has none. */
  function IntrospectUrl(base: string, path: string): (url: string)
    ensures Text.StartsWith(url, StripTrailingSlashes(base))
    ensures Text.StartsWith(path, "/") ==> url[|StripTrailingSlashes(base)|..] == path
  {
    StripTrailingSlashes(base) + (if Text.StartsWith(path, "/") then path else "/" + path)
  }

  /** Slashes at the junction: one from the path when the base ends in any number of them. */
  lemma IntrospectUrlJunction(base: string, path: string)
    requires !Text.StartsWith(path, "/")
    ensures var b := StripTrailingSlashes(base);
      && IntrospectUrl(base, path)[|b|] == '/'
      && IntrospectUrl(base, path)[|b| + 1..] == path
      && (b == [] || IntrospectUrl(base, path)[|b| - 1] != '/')
  {
  }

  datatype Request = Request(url: string, authorization: string)

  /** The outcome of the GET: a transport error (`httpx.HTTPError`), or a status with a body
      that may not decode as JSON. */
  datatype Response = TransportError(detail: string) | Answer(status: int, body: Option<Value>)

  /** Python `isinstance(v, int)`: booleans are integers too. */
  function AsInt(v: Option<Value>): (r: Option<int>)
    ensures r.Some? <==> v.Some? && (v.value.JInt? || v.value.JBool?)
  {
    match v
    case Some(JInt(i)) => Some(i)
    case Some(JBool(b)) => Some(if b then 1 else 0)
    case _ => None
  }

  /** Reading the context out of a 2xx answer: the three fields must have the right types. */
  function ContextOf(body: Value): (r: Result<AuthzContext, IntrospectError>)
    ensures !body.JObject? ==> r == Err(Crash)
    ensures body.JObject? ==>
      var uid, role, accepted := LastFor(body.fields, "user_id"), LastFor(body.fields, "role"), LastFor(body.fields, "agreement_accepted");
      && (r.Ok? <==> AsInt(uid).Some? && role.Some? && role.value.JStr? && accepted.Some? && accepted.value.JBool?)
      && (r.Ok? ==> r.value == AuthzContext(AsInt(uid).value, role.value.s, accepted.value.b))
      && (r.Err? ==> r.error == Unavailable("Invalid introspection schema"))
  {
    if !body.JObject? then Err(Crash)
    else
      var uid, role, accepted := LastFor(body.fields, "user_id"), LastFor(body.fields, "role"), LastFor(body.fields, "agreement_accepted");
      if AsInt(uid).Some? && role.Some? && role.value.JStr? && accepted.Some? && accepted.value.JBool? then
        Ok(AuthzContext(AsInt(uid).value, role.value.s, accepted.value.b))
      else Err(Unavailable("Invalid introspection schema"))
  }

  /** The answer's classification: 401 and 403 reject the token; a transport error, a
      status of 500 or more, any other status outside 2xx (httpx's `raise_for_status`) or an
      undecodable body make Django unavailable. */
  function Classify(resp: Response): (r: Result<AuthzContext, IntrospectError>)
    ensures resp.TransportError? ==> r == Err(Unavailable(resp.detail))
    ensures resp.Answer? && (resp.status == 401 || resp.status == 403) ==> r == Err(InvalidToken)
    ensures resp.Answer? && resp.status >= 500 ==> r == Err(Unavailable("Django auth error (" + PyConvert.ShowInt(resp.status) + ")"))
    ensures (resp.Answer? && resp.status != 401 && resp.status != 403 && resp.status < 500
             && !(200 <= resp.status < 300 && resp.body.Some?))
      ==> r == Err(Unavailable("Unexpected Django introspection response"))
    ensures r.Ok? ==> resp.Answer? && 200 <= resp.status < 300 && resp.body.Some?
    ensures resp.Answer? && 200 <= resp.status < 300 && resp.body.Some? ==> r == ContextOf(resp.body.value)
  {
    match resp
    case TransportError(d) => Err(Unavailable(d))
    case Answer(status, body) =>
      if status == 401 || status == 403 then Err(InvalidToken)
      else if status >= 500 then Err(Unavailable("Django auth error (" + PyConvert.ShowInt(status) + ")"))
      else if !(200 <= status < 300) || body.None? then Err(Unavailable("Unexpected Django introspection response"))
      else ContextOf(body.value)
  }

  /** `introspect_with_django(token)`: a live cached context is returned without a call;
      otherwise Django is asked with the bearer token, and only a well-typed answer is cached,
      at `doneAt`, the clock reading after the exchange. */
  function Introspect(cache: Cache, django: Request -> Response, url: string, now: real, doneAt: real, ttl: int, token: string)
    : (r: (Result<AuthzContext, IntrospectError>, Cache))
    ensures var cached, afterGet := CacheGet(cache, token, now).0, CacheGet(cache, token, now).1;
      && (cached.Some? ==> r == (Ok(cached.value), cache))
      && (cached.None? ==> r.0 == Classify(django(Request(url, "Bearer " + token))))
      && (cached.None? && r.0.Err? ==> r.1 == afterGet)
      && (cached.None? && r.0.Ok? ==> r.1 == CacheSet(afterGet, token, r.0.value, doneAt, ttl))
  {
    var (cached, afterGet) := CacheGet(cache, token, now);
    if cached.Some? then (Ok(cached.value), cache)
    else
      match Classify(django(Request(url, "Bearer " + token)))
      case Err(e) => (Err(e), afterGet)
      case Ok(ctx) => (Ok(ctx), CacheSet(afterGet, token, ctx, doneAt, ttl))
  }

  /** Every cached context came from a well-typed 2xx answer: whatever the cache held
      before, a failed introspection adds nothing to it. */
  lemma FailureCachesNothing(cache: Cache, django: Request -> Response, url: string, now: real, doneAt: real, ttl: int, token: string)
    requires Introspect(cache, django, url, now, doneAt, ttl, token).0.Err?
    ensures token !in Introspect(cache, django, url, now, doneAt, ttl, token).1
    ensures Introspect(cache, django, url, now, doneAt, ttl, token).1 == cache - {token}
  {
  }

  /** A live cache entry answers alone: Django's reply, whatever it would be, is not used. */
  lemma CacheHitSkipsDjango(cache: Cache, d1: Request -> Response, d2: Request -> Response, url: string,
                            now: real, doneAt: real, ttl: int, token: string)
    requires token in cache && now < cache[token].expiresAt
    ensures Introspect(cache, d1, url, now, doneAt, ttl, token) == Introspect(cache, d2, url, now, doneAt, ttl, token)
    ensures Introspect(cache, d1, url, now, doneAt, ttl, token) == (Ok(cache[token].value), cache)
  {
  }
}

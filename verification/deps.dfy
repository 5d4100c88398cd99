/** The FastAPI authorisation dependencies (`deps.py`): bearer token extraction, the live
    context with its JWT fallback, and the role and agreement gates. Verifying a JWT is
    left to a parameter (`verifyJwt`), as is Python's `str()` of a non-text claim. */
module Deps {
  import opened Wrappers
  import opened OrderedMap
  import opened Json
  import opened Http
  import PyConvert
  import Authz

  const MissingToken := "Missing token"
  const InvalidTokenText := "Invalid token"
  const AuthUnavailable := "Auth service unavailable"
  const InsufficientRole := "Insufficient role"
  const AgreementRequired := "User agreement required"
  const InternalServerError := 500

  /** `get_token`: the bearer credentials, 401 when absent or empty. */
  function GetToken(credentials: Option<string>): (r: Result<string, HttpError>)
    ensures r.Ok? <==> credentials.Some? && credentials.value != ""
    ensures r.Ok? ==> r.value == credentials.value
    ensures r.Err? ==> r.error == HttpError(Unauthorized, MissingToken)
  {
    if credentials.None? || credentials.value == "" then Err(HttpError(Unauthorized, MissingToken))
    else Ok(credentials.value)
  }

  /** JWT claims as decoded. */
  type Claims = seq<Entry<string, Value>>

  /** `claims.get(key)`, absent as None (a present null stays a falsy value). */
  function Claim(claims: Claims, key: string): Option<Value> {
    LastFor(claims, key)
  }

  predicate ClaimTruthy(claims: Claims, key: string) {
    Claim(claims, key).Some? && Truthy(Claim(claims, key).value)
  }

  /** `user_id or id or sub or 0` followed by `int()`, which falls back to 0 when it raises. */
  function FallbackUserId(claims: Claims): (r: int)
    ensures !ClaimTruthy(claims, "user_id") && !ClaimTruthy(claims, "id") && !ClaimTruthy(claims, "sub") ==> r == 0
    ensures ClaimTruthy(claims, "user_id") ==> r == PyConvert.PyInt(Claim(claims, "user_id").value).GetOr(0)
    ensures !ClaimTruthy(claims, "user_id") && ClaimTruthy(claims, "id") ==> r == PyConvert.PyInt(Claim(claims, "id").value).GetOr(0)
    ensures !ClaimTruthy(claims, "user_id") && !ClaimTruthy(claims, "id") && ClaimTruthy(claims, "sub") ==>
      r == PyConvert.PyInt(Claim(claims, "sub").value).GetOr(0)
  {
    var chosen :=
      if ClaimTruthy(claims, "user_id") then Claim(claims, "user_id")
      else if ClaimTruthy(claims, "id") then Claim(claims, "id")
      else if ClaimTruthy(claims, "sub") then Claim(claims, "sub")
      else None;
    if chosen.None? then 0 else PyConvert.PyInt(chosen.value).GetOr(0)
  }

  /** `int()` accepts digit grouping: a `user_id` claim "1_0" is the user 10. */
  lemma GroupedUserIdClaim()
    ensures FallbackUserId([Entry("user_id", JStr("1_0"))]) == 10
  {
    var claims := [Entry("user_id", JStr("1_0"))];
    assert Claim(claims, "user_id") == Some(JStr("1_0"));
    PyConvert.UnderscoreTenExample();
  }

  /** Python `str(v)` of a truthy claim: text as is, integers and booleans as Python writes
      them, anything else through `repr`. */
  function PyStr(repr: Value -> string, v: Value): (r: string)
    ensures v.JStr? ==> r == v.s
    ensures v.JInt? ==> r == PyConvert.ShowInt(v.i)
  {
    match v
    case JStr(s) => s
    case JInt(i) => PyConvert.ShowInt(i)
    case JBool(b) => if b then "True" else "False"
    case _ => repr(v)
  }

  /** The best-effort context built from the JWT claims when Django cannot be reached. */
  function FallbackContext(repr: Value -> string, claims: Claims): (ctx: Authz.AuthzContext)
    ensures !ClaimTruthy(claims, "role") ==> ctx.role == "user"
    ensures ctx.agreementAccepted <==> ClaimTruthy(claims, "agreement_accepted")
    ensures ctx.userId == FallbackUserId(claims)
  {
    var role := if ClaimTruthy(claims, "role") then PyStr(repr, Claim(claims, "role").value) else "user";
    Authz.AuthzContext(FallbackUserId(claims), role, ClaimTruthy(claims, "agreement_accepted"))
  }

  /** `verify_jwt` followed by `if not payload`: an empty claim set is refused like a bad one. */
  function JwtClaims(verifyJwt: string -> Option<Claims>, token: string): (r: Option<Claims>)
    ensures r.Some? ==> r.value != []
  {
    if token == "" then None
    else match verifyJwt(token)
      case Some(claims) => if claims == [] then None else Some(claims)
      case None => None
  }

  /** `get_authz_context`, given the outcome of `introspect_with_django`: a rejected token is
      401; an unreachable Django is 503 in strict mode, otherwise the JWT claims stand in
      (401 when the JWT does not verify). An unanticipated failure is a plain 500. */
  function ContextFrom(strict: bool, verifyJwt: string -> Option<Claims>, repr: Value -> string, token: string,
                       introspected: Result<Authz.AuthzContext, Authz.IntrospectError>)
    : (r: Result<Authz.AuthzContext, HttpError>)
    ensures introspected.Ok? ==> r == Ok(introspected.value)
    ensures introspected == Err(Authz.InvalidToken) ==> r == Err(HttpError(Unauthorized, InvalidTokenText))
    ensures introspected.Err? && introspected.error.Unavailable? ==>
      && (strict ==> r == Err(HttpError(Unavailable, AuthUnavailable)))
      && (!strict && JwtClaims(verifyJwt, token).None? ==> r == Err(HttpError(Unauthorized, InvalidTokenText)))
      && (!strict && JwtClaims(verifyJwt, token).Some? ==> r == Ok(FallbackContext(repr, JwtClaims(verifyJwt, token).value)))
    ensures introspected == Err(Authz.Crash) ==> r.Err? && r.error.status == InternalServerError
  {
    match introspected
    case Ok(ctx) => Ok(ctx)
    case Err(e) =>
      if e.InvalidToken? then Err(HttpError(Unauthorized, InvalidTokenText))
      else if e.Crash? then Err(HttpError(InternalServerError, "Internal Server Error"))
      else if strict then Err(HttpError(Unavailable, AuthUnavailable))
      else match JwtClaims(verifyJwt, token)
        case None => Err(HttpError(Unauthorized, InvalidTokenText))
        case Some(claims) => Ok(FallbackContext(repr, claims))
  }

  /** In strict mode the JWT is never consulted: two verifiers give the same answer. */
  lemma StrictIgnoresJwt(v1: string -> Option<Claims>, v2: string -> Option<Claims>, repr: Value -> string, token: string,
                         introspected: Result<Authz.AuthzContext, Authz.IntrospectError>)
    ensures ContextFrom(true, v1, repr, token, introspected) == ContextFrom(true, v2, repr, token, introspected)
  {
  }

  /** `require_roles(*roles)`: admits exactly the contexts with a non-empty role among the
      given ones. */
  function RequireRoles(roles: set<string>, ctx: Authz.AuthzContext): (r: Result<Authz.AuthzContext, HttpError>)
    ensures r.Ok? <==> ctx.role != "" && ctx.role in roles
    ensures r.Ok? ==> r.value == ctx
    ensures r.Err? ==> r.error == HttpError(Forbidden, InsufficientRole)
  {
    if ctx.role != "" && ctx.role in roles then Ok(ctx) else Err(HttpError(Forbidden, InsufficientRole))
  }

  /** `require_agreement`. */
  function RequireAgreement(ctx: Authz.AuthzContext): (r: Result<Authz.AuthzContext, HttpError>)
    ensures r.Ok? <==> ctx.agreementAccepted
    ensures r.Ok? ==> r.value == ctx
    ensures r.Err? ==> r.error == HttpError(Forbidden, AgreementRequired)
  {
    if ctx.agreementAccepted then Ok(ctx) else Err(HttpError(Forbidden, AgreementRequired))
  }

  /** A protected endpoint's whole guard: token, live context (through the cache), then the
      role gate. */
  function GuardRoles(cache: Authz.Cache, django: Authz.Request -> Authz.Response, url: string, now: real, doneAt: real,
                      ttl: int, strict: bool, verifyJwt: string -> Option<Claims>, repr: Value -> string,
                      credentials: Option<string>, roles: set<string>)
    : (r: (Result<Authz.AuthzContext, HttpError>, Authz.Cache))
    ensures credentials.None? || credentials == Some("") ==> r == (Err(HttpError(Unauthorized, MissingToken)), cache)
    ensures r.0.Ok? ==> r.0.value.role in roles && r.0.value.role != ""
  {
    match GetToken(credentials)
    case Err(e) => (Err(e), cache)
    case Ok(token) =>
      var (introspected, cache1) := Authz.Introspect(cache, django, url, now, doneAt, ttl, token);
      match ContextFrom(strict, verifyJwt, repr, token, introspected)
      case Err(e) => (Err(e), cache1)
      case Ok(ctx) => (RequireRoles(roles, ctx), cache1)
  }

  /** In strict mode only Django's word admits a caller: an admitted context is either live in
      the cache or taken from a well-typed 2xx introspection answer. */
  lemma StrictAdmitsOnlyIntrospected(cache: Authz.Cache, django: Authz.Request -> Authz.Response, url: string, now: real,
                                     doneAt: real, ttl: int, verifyJwt: string -> Option<Claims>, repr: Value -> string,
                                     credentials: Option<string>, roles: set<string>)
    requires GuardRoles(cache, django, url, now, doneAt, ttl, true, verifyJwt, repr, credentials, roles).0.Ok?
    ensures credentials.Some? && credentials.value != ""
    ensures var token := credentials.value;
      var ctx := GuardRoles(cache, django, url, now, doneAt, ttl, true, verifyJwt, repr, credentials, roles).0.value;
      || (token in cache && now < cache[token].expiresAt && cache[token].value == ctx)
      || Authz.Classify(django(Authz.Request(url, "Bearer " + token))) == Ok(ctx)
  {
  }
}

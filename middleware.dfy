/** The authentication middleware for protected routes (src/auth/middleware.rs):
    bearer-token extraction, the mapping of authentication errors to HTTP responses,
    the ordered checks of `require_auth`, and the `Claims` extractor handlers use. */
module Middleware {
  import opened Wrappers
  import opened Json
  import opened AuthClaims
  import opened AppConfig
  import Jwks
  import Jwt

  newtype byte = x: int | 0 <= x < 256

  const Unauthorized: nat := 401
  const InternalServerError: nat := 500

  datatype AuthError =
    | MissingToken
    | InvalidToken(message: string)
    | ExpiredToken
    | InvalidIssuer
    | JwksError(message: string)

  /** An HTTP response: a status code and a JSON body. */
  datatype Response = Response(status: nat, body: Json)

  /** The `error` text of each authentication error. */
  function ErrorMessage(e: AuthError): string
  {
    match e
    case MissingToken => "Missing authorization header"
    case InvalidToken(m) => "Invalid token: " + m
    case ExpiredToken => "Token has expired"
    case InvalidIssuer => "Invalid token issuer"
    case JwksError(m) => "Authentication service error: " + m
  }

  /** `AuthError::into_response`: a key-service failure is a 500, every other error a
      401, and the body is `{"error": <text>, "status": <the same status>}`. */
  function IntoResponse(e: AuthError): (r: Response)
    ensures r.status == (if e.JwksError? then InternalServerError else Unauthorized)
    ensures r.body.JObject? && r.body.members.Keys == {"error", "status"}
    ensures Member(r.body, "status") == Some(JInt(r.status))
    ensures Member(r.body, "error") == Some(JString(ErrorMessage(e)))
  {
    var status := if e.JwksError? then InternalServerError else Unauthorized;
    Response(status, JObject(map["error" := JString(ErrorMessage(e)), "status" := JInt(status)]))
  }

  /** The first character of each error text, and of the two texts that start with
      "Invalid token", the character after it. */
  lemma ErrorMessageShape(e: AuthError)
    ensures |ErrorMessage(e)| >= 15
    ensures ErrorMessage(e)[0] == match e
      case MissingToken => 'M'
      case InvalidToken(_) => 'I'
      case ExpiredToken => 'T'
      case InvalidIssuer => 'I'
      case JwksError(_) => 'A'
    ensures e.InvalidToken? ==> ErrorMessage(e)[13] == ':' && ErrorMessage(e)[15..] == e.message
    ensures e.InvalidIssuer? ==> ErrorMessage(e)[13] == ' '
    ensures e.JwksError? ==> |ErrorMessage(e)| >= 30 && ErrorMessage(e)[30..] == e.message
  {
  }

  /** Different errors have different texts. */
  lemma {:induction false} ErrorMessageInjective(e1: AuthError, e2: AuthError)
    requires ErrorMessage(e1) == ErrorMessage(e2)
    ensures e1 == e2
  {
    ErrorMessageShape(e1);
    ErrorMessageShape(e2);
  }

  /** The response determines the error it was built from: the body's `error` text
      tells every error apart. */
  lemma {:induction false} ResponseDeterminesError(e1: AuthError, e2: AuthError)
    requires IntoResponse(e1) == IntoResponse(e2)
    ensures e1 == e2
  {
    assert Member(IntoResponse(e1).body, "error") == Member(IntoResponse(e2).body, "error");
    ErrorMessageInjective(e1, e2);
  }

  /** `extract_bearer_token`: the rest of the header after "Bearer " or "bearer ". */
  function ExtractBearerToken(header: string): (r: Option<string>)
    ensures r.Some? <==> |header| >= 7 && (header[..7] == "Bearer " || header[..7] == "bearer ")
    ensures r.Some? ==> |r.value| == |header| - 7 && r.value == header[7..]
  {
    match Text.StripPrefix(header, "Bearer ")
    case Some(token) => Some(token)
    case None => Text.StripPrefix(header, "bearer ")
  }

  /** Both accepted spellings of the scheme give back exactly the token after them. */
  lemma BearerRoundTrip(token: string)
    ensures ExtractBearerToken("Bearer " + token) == Some(token)
    ensures ExtractBearerToken("bearer " + token) == Some(token)
  {
    assert ("Bearer " + token)[..7] == "Bearer ";
    assert ("bearer " + token)[..7] == "bearer ";
  }

  /** The cases of `test_extract_bearer_token`. */
  lemma BearerExamples()
    ensures ExtractBearerToken("Bearer abc123") == Some("abc123")
    ensures ExtractBearerToken("bearer abc123") == Some("abc123")
    ensures ExtractBearerToken("Basic abc123") == None
    ensures ExtractBearerToken("abc123") == None
  {
    BearerRoundTrip("abc123");
    assert "Basic abc123"[..7] == "Basic a";
  }

  /** A byte `HeaderValue::to_str` accepts: tab or visible ASCII. */
  predicate IsVisibleAscii(b: byte)
  {
    b == 9 || 32 <= b < 127
  }

  /** `HeaderValue::to_str`: the value as text when every byte is visible ASCII. */
  function HeaderToStr(v: seq<byte>): (r: Option<string>)
    ensures r.Some? <==> forall i :: 0 <= i < |v| ==> IsVisibleAscii(v[i])
    ensures r.Some? ==> |r.value| == |v| && forall i :: 0 <= i < |v| ==> r.value[i] as int == v[i] as int
  {
    if forall i :: 0 <= i < |v| ==> IsVisibleAscii(v[i])
    then Some(seq(|v|, i requires 0 <= i < |v| => (v[i] as int) as char))
    else None
  }

  /** The `Authorization` header as text, if present and readable. Header names are
      kept in lower case, as `HeaderMap` stores them. */
  function AuthorizationHeader(headers: map<string, seq<byte>>): (r: Option<string>)
    ensures r.Some? <==>
      && "authorization" in headers
      && forall i :: 0 <= i < |headers["authorization"]| ==> IsVisibleAscii(headers["authorization"][i])
    ensures r.Some? ==>
      && |r.value| == |headers["authorization"]|
      && forall i :: 0 <= i < |r.value| ==> r.value[i] as int == headers["authorization"][i] as int
  {
    if "authorization" in headers then HeaderToStr(headers["authorization"]) else None
  }

  /** The validation `require_auth` configures for a key's algorithm: the configured
      issuer is required, and the audience is checked only when one is configured. */
  function ValidationFor(alg: Jwks.Algorithm, config: ClerkConfig): (v: Jwt.Validation)
    ensures v.algorithms == [alg]
    ensures v.iss == Some({config.issuer})
    ensures v.validateAud <==> config.audience.Some?
    ensures v.aud == (if config.audience.Some? then Some({config.audience.value}) else None)
    ensures v.validateExp
  {
    var v := Jwt.NewValidation(alg).(iss := Some({config.issuer}));
    if config.audience.Some? then v.(aud := Some({config.audience.value}))
    else v.(validateAud := false)
  }

  /** The `Display` text of a payload that does not deserialise into `Claims`. */
  function ClaimsErrorText(e: ClaimsError): string
  {
    match e
    case MissingField(name) => "JSON error: missing field `" + name + "`"
    case InvalidType(name) => "JSON error: invalid type for field `" + name + "`"
  }

  /** `decode::<Claims>`: the signature is verified first, the payload is then
      deserialised into `Claims` (a failure there is a decode error of kind `Json`),
      and only a payload that deserialised has its registered claims checked. */
  function DecodeClaims(jwt: Jwt.Library, token: string, key: Jwks.DecodingKey, v: Jwt.Validation)
    : (r: Result<Claims, Jwt.DecodeError>)
    ensures jwt.verifySignature(token, key, v).Failure? ==>
      r == Failure(jwt.verifySignature(token, key, v).error)
    ensures jwt.verifySignature(token, key, v).Success? ==>
      var payload := jwt.verifySignature(token, key, v).value;
      && (ParseClaims(payload).Failure? ==>
            r == Failure(Jwt.DecodeError(Jwt.Json, ClaimsErrorText(ParseClaims(payload).error))))
      && (ParseClaims(payload).Success? && jwt.validateClaims(payload, v).Failure? ==>
            r == Failure(jwt.validateClaims(payload, v).error))
    ensures r.Success? <==>
      && jwt.verifySignature(token, key, v).Success?
      && ParseClaims(jwt.verifySignature(token, key, v).value).Success?
      && jwt.validateClaims(jwt.verifySignature(token, key, v).value, v).Success?
    ensures r.Success? ==> ParseClaims(jwt.verifySignature(token, key, v).value) == Success(r.value)
  {
    match jwt.verifySignature(token, key, v)
    case Failure(e) => Failure(e)
    case Success(payload) =>
      match ParseClaims(payload)
      case Failure(ce) => Failure(Jwt.DecodeError(Jwt.Json, ClaimsErrorText(ce)))
      case Success(c) =>
        match jwt.validateClaims(payload, v)
        case Failure(e) => Failure(e)
        case Success(_) => Success(c)
  }

  /** A correctly signed token whose payload does not deserialise into `Claims` is an
      invalid token whatever its claims would have failed: deserialisation comes before
      the expiry and issuer checks, so even an expired token of that kind is not
      reported as expired. */
  lemma UndeserialisableBeforeClaimChecks(jwt: Jwt.Library, token: string, key: Jwks.DecodingKey,
                                          v: Jwt.Validation)
    requires jwt.verifySignature(token, key, v).Success?
    requires !Deserializable(jwt.verifySignature(token, key, v).value)
    ensures DecodeClaims(jwt, token, key, v).Failure?
    ensures DecodeClaims(jwt, token, key, v).error.kind == Jwt.Json
    ensures Classify(DecodeClaims(jwt, token, key, v).error).InvalidToken?
  {
  }

  /** The error a decode failure is reported as: an expired signature and a wrong
      issuer have their own errors, every other kind is an invalid token carrying the
      decode error's text. */
  function Classify(e: Jwt.DecodeError): (r: AuthError)
    ensures r == ExpiredToken <==> e.kind == Jwt.ExpiredSignature
    ensures r == InvalidIssuer <==> e.kind == Jwt.InvalidIssuer
    ensures r.InvalidToken? <==> e.kind !in {Jwt.ExpiredSignature, Jwt.InvalidIssuer}
    ensures r.InvalidToken? ==> r.message == e.message
    ensures IntoResponse(r).status == Unauthorized
  {
    match e.kind
    case ExpiredSignature => ExpiredToken
    case InvalidIssuer => InvalidIssuer
    case _ => InvalidToken(e.message)
  }

  /** What `require_auth` decides for a request with this `Authorization` header,
      and the key cache state afterwards. */
  function Authenticate(header: Option<string>, s: Jwks.CacheState, config: ClerkConfig, now: nat,
                        fetched: Jwks.FetchOutcome, rsaParses: (string, string) -> bool, jwt: Jwt.Library)
    : (r: (Result<Claims, AuthError>, Jwks.CacheState))
    ensures r.1 != s || r.0.Success? ==>
      && header.Some? && ExtractBearerToken(header.value).Some?
      && var token := ExtractBearerToken(header.value).value;
      && jwt.decodeHeader(token).Success? && jwt.decodeHeader(token).value.kid.Some?
      && r.1 == Jwks.GetKeySpec(s, jwt.decodeHeader(token).value.kid.value, now, fetched, rsaParses).1
    ensures r.0.Failure? ==> IntoResponse(r.0.error).status in {Unauthorized, InternalServerError}
  {
    if header.None? then (Failure(MissingToken), s)
    else match ExtractBearerToken(header.value)
      case None => (Failure(MissingToken), s)
      case Some(token) =>
        match jwt.decodeHeader(token)
        case Failure(m) => (Failure(InvalidToken("Invalid JWT header: " + m)), s)
        case Success(h) =>
          match h.kid
          case None => (Failure(InvalidToken("Missing key ID in token header")), s)
          case Some(kid) =>
            var (got, s') := Jwks.GetKeySpec(s, kid, now, fetched, rsaParses);
            match got
            case Failure(e) => (Failure(JwksError(Jwks.Describe(e))), s')
            case Success(key) =>
              match DecodeClaims(jwt, token, key.decodingKey, ValidationFor(key.algorithm, config))
              case Failure(e) => (Failure(Classify(e)), s')
              case Success(claims) => (Success(claims), s')
  }

  /** A missing or unreadable header, or one without a Bearer prefix, is
      `MissingToken`, decided before the key cache is consulted: the cache state is
      untouched whatever the key set would have been. */
  lemma MissingTokenBeforeLookup(header: Option<string>, s: Jwks.CacheState, config: ClerkConfig,
                                 now: nat, fetched: Jwks.FetchOutcome,
                                 rsaParses: (string, string) -> bool, jwt: Jwt.Library)
    requires header.None? || ExtractBearerToken(header.value).None?
    ensures Authenticate(header, s, config, now, fetched, rsaParses, jwt) == (Failure(MissingToken), s)
  {
  }

  /** A Bearer token whose JWT header cannot be decoded, or names no key, is
      `InvalidToken` with the decoder's reason or the missing-kid text, also without
      touching the cache. */
  lemma HeaderFailuresBeforeLookup(header: string, s: Jwks.CacheState, config: ClerkConfig,
                                   now: nat, fetched: Jwks.FetchOutcome,
                                   rsaParses: (string, string) -> bool, jwt: Jwt.Library)
    requires ExtractBearerToken(header).Some?
    ensures var token := ExtractBearerToken(header).value;
      var (r, s') := Authenticate(Some(header), s, config, now, fetched, rsaParses, jwt);
      && (jwt.decodeHeader(token).Failure? ==>
            r == Failure(InvalidToken("Invalid JWT header: " + jwt.decodeHeader(token).error)) && s' == s)
      && (jwt.decodeHeader(token).Success? && jwt.decodeHeader(token).value.kid.None? ==>
            r == Failure(InvalidToken("Missing key ID in token header")) && s' == s)
  {
  }

  /** Once the token names a key, the outcome is the key lookup's: a failed lookup is
      a `JwksError` carrying the lookup error's text, a decode failure is reported as
      `Classify` says, and a token that decodes is accepted with its claims. The cache
      state is the lookup's in every case. */
  lemma OutcomeAfterKeyId(header: string, s: Jwks.CacheState, config: ClerkConfig,
                          now: nat, fetched: Jwks.FetchOutcome,
                          rsaParses: (string, string) -> bool, jwt: Jwt.Library)
    requires ExtractBearerToken(header).Some?
    requires jwt.decodeHeader(ExtractBearerToken(header).value).Success?
    requires jwt.decodeHeader(ExtractBearerToken(header).value).value.kid.Some?
    ensures var token := ExtractBearerToken(header).value;
      var kid := jwt.decodeHeader(token).value.kid.value;
      var (got, s1) := Jwks.GetKeySpec(s, kid, now, fetched, rsaParses);
      var (r, s') := Authenticate(Some(header), s, config, now, fetched, rsaParses, jwt);
      && s' == s1
      && (got.Failure? ==> r == Failure(JwksError(Jwks.Describe(got.error))))
      && (got.Success? ==>
            var d := DecodeClaims(jwt, token, got.value.decodingKey, ValidationFor(got.value.algorithm, config));
            && (d.Success? ==> r == Success(d.value))
            && (d.Failure? ==> r == Failure(Classify(d.error))))
  {
  }

  /** Every rejection is a 401 except a key lookup failure, which is a 500 and
      happens only when the header was read, the token found, and its header named
      a key that the cache could not provide. */
  lemma RejectionStatus(header: Option<string>, s: Jwks.CacheState, config: ClerkConfig,
                        now: nat, fetched: Jwks.FetchOutcome,
                        rsaParses: (string, string) -> bool, jwt: Jwt.Library)
    requires Authenticate(header, s, config, now, fetched, rsaParses, jwt).0.Failure?
    ensures var e := Authenticate(header, s, config, now, fetched, rsaParses, jwt).0.error;
      IntoResponse(e).status == InternalServerError <==>
        && header.Some? && ExtractBearerToken(header.value).Some?
        && var token := ExtractBearerToken(header.value).value;
        && jwt.decodeHeader(token).Success? && jwt.decodeHeader(token).value.kid.Some?
        && Jwks.GetKeySpec(s, jwt.decodeHeader(token).value.kid.value, now, fetched, rsaParses).0.Failure?
  {
  }

  /** Claims come out only when every step succeeded: a Bearer token, a header with a
      key id, a key from the cache, and a payload that passed the library's checks
      under the configured validation and deserialised into these claims. */
  lemma SuccessNeedsEveryStep(header: Option<string>, s: Jwks.CacheState, config: ClerkConfig,
                              now: nat, fetched: Jwks.FetchOutcome,
                              rsaParses: (string, string) -> bool, jwt: Jwt.Library)
    requires Authenticate(header, s, config, now, fetched, rsaParses, jwt).0.Success?
    ensures header.Some? && ExtractBearerToken(header.value).Some?
    ensures var token := ExtractBearerToken(header.value).value;
      && jwt.decodeHeader(token).Success? && jwt.decodeHeader(token).value.kid.Some?
      && var key := Jwks.GetKeySpec(s, jwt.decodeHeader(token).value.kid.value, now, fetched, rsaParses).0;
      && key.Success?
      && var v := ValidationFor(key.value.algorithm, config);
      && exists payload ::
           && jwt.verifySignature(token, key.value.decodingKey, v) == Success(payload)
           && ParseClaims(payload) == Success(Authenticate(header, s, config, now, fetched, rsaParses, jwt).0.value)
           && jwt.validateClaims(payload, v).Success?
  {
  }

  /** The request extension that carries the verified claims. */
  datatype AuthenticatedUser = AuthenticatedUser(claims: Claims)

  /** An incoming request: its headers, and the `AuthenticatedUser` slot of its
      extensions. */
  class Request {
    var headers: map<string, seq<byte>>
    var authenticatedUser: Option<AuthenticatedUser>

    constructor (headers: map<string, seq<byte>>)
      ensures this.headers == headers && authenticatedUser == None
    {
      this.headers := headers;
      authenticatedUser := None;
    }
  }

  /** The `Claims` extractor: the claims `require_auth` stored, or `MissingToken` when
      the request never went through it. */
  function ClaimsFromParts(user: Option<AuthenticatedUser>): (r: Result<Claims, AuthError>)
    ensures r.Failure? <==> user.None?
    ensures r.Failure? ==> r.error == MissingToken
    ensures r.Success? ==> user == Some(AuthenticatedUser(r.value))
  {
    match user
    case None => Failure(MissingToken)
    case Some(u) => Success(u.claims)
  }

  /** `require_auth`: each check in turn, the first failure is the answer; when all
      pass, the claims are stored in the request and the next handler runs. */
  method RequireAuth(cache: Jwks.JwksCache, config: ClerkConfig, request: Request, now: nat,
                     fetched: Jwks.FetchOutcome, rsaParses: (string, string) -> bool,
                     jwt: Jwt.Library, next: Claims -> Response)
    returns (r: Result<Response, AuthError>)
    modifies cache, request
    ensures request.headers == old(request.headers)
    ensures var (outcome, s') := Authenticate(AuthorizationHeader(old(request.headers)), old(cache.State()),
                                              config, now, fetched, rsaParses, jwt);
      && cache.State() == s'
      && (outcome.Failure? ==>
            r == Failure(outcome.error) && request.authenticatedUser == old(request.authenticatedUser))
      && (outcome.Success? ==>
            && r == Success(next(outcome.value))
            && request.authenticatedUser == Some(AuthenticatedUser(outcome.value))
            && ClaimsFromParts(request.authenticatedUser) == Success(outcome.value))
  {
    var header := AuthorizationHeader(request.headers);
    if header.None? {
      return Failure(MissingToken);
    }
    var token := ExtractBearerToken(header.value);
    if token.None? {
      return Failure(MissingToken);
    }
    var jwtHeader := jwt.decodeHeader(token.value);
    if jwtHeader.Failure? {
      return Failure(InvalidToken("Invalid JWT header: " + jwtHeader.error));
    }
    if jwtHeader.value.kid.None? {
      return Failure(InvalidToken("Missing key ID in token header"));
    }
    var kid := jwtHeader.value.kid.value;
    var key := cache.GetKey(kid, now, fetched, rsaParses);
    if key.Failure? {
      return Failure(JwksError(Jwks.Describe(key.error)));
    }
    var validation := Jwt.NewValidation(key.value.algorithm);
    validation := validation.(iss := Some({config.issuer}));
    if config.audience.Some? {
      validation := validation.(aud := Some({config.audience.value}));
    } else {
      validation := validation.(validateAud := false);
    }
    var tokenData := DecodeClaims(jwt, token.value, key.value.decodingKey, validation);
    if tokenData.Failure? {
      return Failure(Classify(tokenData.error));
    }
    request.authenticatedUser := Some(AuthenticatedUser(tokenData.value));
    r := Success(next(tokenData.value));
  }
}

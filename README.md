# Clerk session-token authentication, modelled in Dafny

This project models the authentication core of the scho1ar backend. The model covers:

- **Reading the configuration** from the environment (`Config::from_env`). This covers the required variables, the `u16` port, the comma-separated CORS origin list, and the Clerk issuer, JWKS URL and audience.
- **The JWKS key cache** (`JwksCache`). It holds Clerk's RSA signing keys by key id. A lookup of a key id the cache holds is answered from the cache while the last fetch is at most one hour old; any other lookup fetches and replaces the whole key set. Keys that are not RSA, that lack a modulus or exponent, that name an unsupported algorithm or whose components do not parse are skipped.
- **The `require_auth` middleware.** The steps run in a fixed order: Bearer extraction, JWT header decode, key id, key lookup, validation settings, then decode and claim checks. The first failure is the answer. On success the claims are stored in the request and the next handler runs. Authentication errors map to 401 and 500 responses with a JSON body.
- **The `Claims` payload**, its deserialisation with serde defaults, its accessors, and the extractor that hands the stored claims to handlers.
- **The `ValidatedJson` extractor** and the message built from validation errors.

Values that come from outside the program are parameters:

- the environment is a map;
- the result of the GET and JSON parse of the key set is a `FetchOutcome`;
- the RSA component check is a predicate;
- `jsonwebtoken`'s `decode_header`, and the signature check and the registered-claim checks that `decode` runs before and after deserialising the payload, are functions in a `Jwt.Library` value;
- the monotonic clock is a reading in nanoseconds;
- the payload validator is a function.

The key cache and the request are classes whose methods update their fields. Each method is proved equal to a pure specification function (`Jwks.GetKeySpec`, `Jwks.RefreshSpec`, `Middleware.Authenticate`). The lemmas then state what those functions promise.

Files: `wrappers.dfy`, `text.dfy` (the Rust string operations used), `json.dfy`, `claims.dfy`, `config.dfy`, `jwks.dfy`, `jwt.dfy` (the interface of the JWT library), `middleware.dfy` and `validation.dfy`.

A lookup of a key id the cache holds also refreshes when the cache is stale; `Jwks.StaleHitStillRefreshes` states it.

## Model

| member | source | states |
|---|---|---|
| AuthClaims.ParseClaims | src/auth/claims.rs:5-40 | deserialisation succeeds exactly when `sub`, `iss`, `exp` and `iat` are present and well typed (i64 range for the times) and every defaulted claim is absent, null or of its type; the required fields equal the payload members, and each optional field is `None` exactly when its member is absent or null |
| AuthClaims.ClaimsRoundTrip | src/auth/claims.rs:6-40 | the contract of the derived `Serialize`: each of the twelve fields is written under its own name, `None` as null, and deserialising that object gives back the same claims |
| AuthClaims.OptionalClaimsDefault | src/auth/claims.rs:12-39 | a payload with only the four required claims is accepted, and every optional claim is `None` |
| AuthClaims.AccessorsReadPayload | src/auth/claims.rs:42-61 | `user_id` is the payload's `sub`; `organization_id` and `organization_role` are the `org_id` and `org_role` strings when present and not null; `has_organization` holds exactly when there is an organisation id |
| AppConfig.FromEnv | src/config.rs:24-68 | a missing `DATABASE_URL` is reported first as `Missing("DATABASE_URL")`, then a `PORT` that is not a u16 as `Invalid("PORT must be a valid number")`, then a missing `CLERK_ISSUER` as `Missing("CLERK_ISSUER")`, and these are the only failures; on success the database URL and issuer are the variables' values, the host is `HOST` or "0.0.0.0", the environment is `NODE_ENV` or "development", the port is the parsed u16 (default "3001") and the origins are the trimmed comma-separated pieces |
| AppConfig.Defaults | src/config.rs:30-52 | with only the two required variables set: host 0.0.0.0, port 3001, the default origin list, environment "development", JWKS URL = issuer + "/.well-known/jwks.json", no audience |
| AppConfig.DefaultPortValue | src/config.rs:32-35 | the default port text "3001" parses as the u16 3001 |
| AppConfig.DefaultOrigins | src/config.rs:37-41 | the default origin list reads as the two local front-end origins |
| AppConfig.ProductionFromNodeEnv | src/config.rs:70-72 | `Config::is_production` holds exactly when `NODE_ENV` is "production"; without `NODE_ENV` the environment is "development" and not production |
| AppConfig.ClerkSettings | src/config.rs:45-72 | the issuer is stored as given; the JWKS URL is `CLERK_JWKS_URL` when set and otherwise derived from the issuer; the audience is set exactly when `CLERK_AUDIENCE` is; `is_production` holds exactly when `NODE_ENV` is "production" |
| AppConfig.CorsOrigins | src/config.rs:37-41 | one origin per comma-separated piece, each trimmed of white space |
| AppConfig.CorsOriginCount | src/config.rs:37-41 | there is one origin more than there are commas |
| AppConfig.CorsOriginsOfTwo | src/config.rs:37-41 | two comma-free, already-trimmed origins joined by a comma are read back as exactly those two |
| Text.SplitJoin | src/config.rs:39 | joining the pieces of `split(',')` with the separator gives back the original string |
| Text.SplitCount | src/config.rs:39 | `split` yields one piece more than there are separators |
| Text.SplitPiecesFree | src/config.rs:39 | no piece of `split` contains the separator |
| Text.TrimIsInnerSlice | src/config.rs:40 | `trim` gives an inner slice with only white space outside it and none at either end |
| Text.ParseU16 | src/config.rs:32-35 | `parse::<u16>` accepts only values up to 65535, and only strings of digits with an optional leading '+'; it rejects the empty string, a lone "+" and a leading "-" |
| Text.ParseU16Digits | src/config.rs:32-35 | any non-empty digit string, with or without '+' and with leading zeros, reads as its decimal value when that is at most 65535 and is refused otherwise |
| Text.ParseU16RoundTrip | src/config.rs:32-35 | every u16 written in decimal parses back to itself |
| Text.ParseU16RejectsOverflow | src/config.rs:32-35 | every decimal number above 65535 is refused |
| Text.StripPrefix | src/auth/middleware.rs:61-65 | `strip_prefix` succeeds exactly when the string starts with the prefix, and the prefix followed by the rest is the string |
| Jwks.JwksCache.constructor | src/auth/jwks.rs:58-66 | a new cache has no keys, has never fetched, uses the configured JWKS URL and has a one-hour duration |
| Jwks.JwksCache.GetKey | src/auth/jwks.rs:69-97 | the result and the new cache state are those of `GetKeySpec`; one GET of the key set exactly when the lookup is not a hit |
| Jwks.JwksCache.RefreshKeys | src/auth/jwks.rs:100-179 | the admission loop builds exactly `KeyMap` of the fetched keys; the result and the new state are those of `RefreshSpec`; one GET per call |
| Jwks.AlgorithmFor | src/auth/jwks.rs:140-148 | a missing `alg` or "RS256" gives RS256, "RS384" gives RS384, "RS512" gives RS512, and every other value is unsupported |
| Jwks.Admit | src/auth/jwks.rs:124-163 | a key is admitted exactly when it is RSA, has both components, names a supported algorithm and its components parse; the cached key is built from those components and that algorithm |
| Jwks.KeyMapLookup | src/auth/jwks.rs:122-164 | the map `KeyMap` builds from a key list: a key id is in it exactly when some admitted key has that id, and it maps to the last such key in document order |
| Jwks.DescribeInjective | src/auth/jwks.rs:190-200 | the `Display` texts of `JwksError` (`Describe`) tell every error apart, message and key id included |
| Jwks.RefreshSpec | src/auth/jwks.rs:100-179 | a refresh succeeds exactly when the GET was answered with a 2xx status and a parsable key set; a send failure is `FetchError` with its reason, a non-2xx status is `FetchError("JWKS endpoint returned status <status>")`, an unparsable body is `ParseError` with its reason; a failure leaves the cache unchanged; a success replaces the key map and sets the fetch time to now |
| Jwks.GetKeySpec | src/auth/jwks.rs:69-97 | a hit in a fresh cache is answered without change; otherwise the state is the refresh's, and a failed refresh answers with the refresh's own error; a returned key is the one the map holds; `KeyNotFound(kid)` exactly when a refresh succeeded and the id is still absent |
| Jwks.RefreshReplacesWholeMap | src/auth/jwks.rs:166-175 | after a successful refresh only ids of admitted keys of the new set resolve, so ids held only by the old map are gone |
| Jwks.MissResolvesFromNewSet | src/auth/jwks.rs:89-96 | a miss whose refresh succeeds finds the key exactly when the new set admits a key with that id, the last such key, and otherwise fails with `KeyNotFound(kid)` |
| Jwks.StaleHitStillRefreshes | src/auth/jwks.rs:71-90 | a key held by a stale cache is not served: the cache refreshes, and a failed refresh fails the lookup and leaves the state unchanged |
| Middleware.IntoResponse | src/auth/middleware.rs:31-57 | a `JwksError` gives 500 and every other error gives 401; the body is exactly `{"error": <message>, "status": <the same status>}` |
| Middleware.ErrorMessageInjective | src/auth/middleware.rs:33-49 | the `error` texts of the authentication errors (`ErrorMessage`) tell every error apart, messages included |
| Middleware.ResponseDeterminesError | src/auth/middleware.rs:31-57 | two errors with the same response are the same error |
| Middleware.ExtractBearerToken | src/auth/middleware.rs:61-65 | a token is found exactly when the header starts with "Bearer " or "bearer ", and it is the rest of the header |
| Middleware.BearerRoundTrip | src/auth/middleware.rs:61-65 | "Bearer " or "bearer " followed by a token gives back that token |
| Middleware.BearerExamples | src/auth/middleware.rs:189-195 | the four unit-test cases: both spellings of the scheme give "abc123"; "Basic abc123" and "abc123" give nothing |
| Middleware.HeaderToStr | src/auth/middleware.rs:94-98 | the header value reads as text exactly when every byte is a tab or visible ASCII, and then the text has the same characters |
| Middleware.AuthorizationHeader | src/auth/middleware.rs:94-98 | the `Authorization` header reads as text exactly when it is present and every byte is a tab or visible ASCII, and the text has one character per byte, the same character code as the byte |
| Jwt.NewValidation | src/auth/middleware.rs:118 | `Validation::new(alg)` allows only `alg`, checks expiry with 60 s leeway and the audience, does not check not-before, and expects no audience or issuer yet |
| Middleware.ValidationFor | src/auth/middleware.rs:117-127 | validation accepts only the key's algorithm, requires the configured issuer, checks expiry, and checks the audience exactly when one is configured |
| Middleware.DecodeClaims | src/auth/middleware.rs:130-131 | `decode::<Claims>` verifies the signature first, then deserialises the payload (a failure is a `Json` decode error), and only then checks the registered claims; each step's failure is the result, and claims come out exactly when all three pass |
| Middleware.UndeserialisableBeforeClaimChecks | src/auth/middleware.rs:130-135 | a correctly signed token whose payload does not deserialise into `Claims` is a `Json` decode error and so `InvalidToken`, even when it has expired |
| Middleware.Classify | src/auth/middleware.rs:131-135 | an expired signature is `ExpiredToken`; a wrong issuer is `InvalidIssuer`; every other decode error is `InvalidToken` carrying its text; all three are answered with 401 |
| Middleware.MissingTokenBeforeLookup | src/auth/middleware.rs:93-101 | a missing or unreadable header, or one without the Bearer scheme, is `MissingToken`, and the key cache is untouched |
| Middleware.HeaderFailuresBeforeLookup | src/auth/middleware.rs:103-109 | for any Bearer header, a JWT header that does not decode is `InvalidToken("Invalid JWT header: <reason>")` and one without a key id is `InvalidToken("Missing key ID in token header")`, and the key cache is untouched |
| Middleware.RejectionStatus | src/auth/middleware.rs:88-135 | a rejection is a 500 exactly when the key lookup failed, after the token and its key id were read; every other rejection is a 401 |
| Middleware.SuccessNeedsEveryStep | src/auth/middleware.rs:88-143 | claims are produced only if every step passed: a Bearer token, a key id, a key from the cache, and a payload the library accepted under the configured validation that deserialises into those claims |
| Middleware.ClaimsFromParts | src/auth/middleware.rs:158-183 | the extractor returns the stored claims, and `MissingToken` exactly when none were stored |
| Middleware.OutcomeAfterKeyId | src/auth/middleware.rs:111-143 | once the token names a key id, a failed key lookup is `JwksError` with the lookup error's text, a decode failure is `Classify` of the decode error, and a token that decodes is accepted with its claims; the cache state is the lookup's |
| Middleware.Authenticate | src/auth/middleware.rs:88-135 | the decision of `require_auth`: the key cache changes only through the key lookup of the token's key id, and succeeding needs that lookup; every rejection is answered with 401 or 500 |
| Middleware.RequireAuth | src/auth/middleware.rs:88-144 | the outcome and the new cache state are those of `Authenticate`; on failure the request's claims slot is unchanged; on success the claims are stored, the extractor returns them, and the response is the next handler's |
| RequestValidation.FormatValidationErrors | src/validation.rs:82-101 | the message is empty exactly when there are no field errors |
| RequestValidation.FormatAppendField | src/validation.rs:82-101 | a further field with errors adds "; " and then its segment, or gives just its segment when it is the first |
| RequestValidation.FormatIgnoresNested | src/validation.rs:83-85 | errors of nested structs and lists do not appear in the message |
| RequestValidation.SingleErrorSegment | src/validation.rs:86-96 | a field with one error renders as "<field>: <message>", and the message falls back to "invalid value for '<code>'" |
| RequestValidation.FromRequest | src/validation.rs:62-78 | a body that does not parse is `BadRequest("Invalid JSON: …")`; a parsed payload that fails validation is `Validation(<formatted errors>)`; otherwise the parsed payload itself is returned |
| RequestValidation.ParseFailureSkipsValidation | src/validation.rs:62-75 | when the body does not parse, the result does not depend on the validator |

## Left out

- Concurrency is not modelled. The model leaves out `async`, `tokio::sync::RwLock`, sharing the cache through `Arc` (`SharedJwksCache`, `create_jwks_cache`) and the interleavings the separate lock scopes allow. Each call runs as if alone.
- The HTTP GET of the key set and the JSON parse of its body are not modelled. Their outcome is an input (`FetchOutcome`), and send and parse error texts are opaque strings.
- `DecodingKey::from_rsa_components` is a predicate on the modulus and exponent. RSA arithmetic is not modelled.
- Signature verification and the registered-claim checks of `jsonwebtoken::decode` and `decode_header` are not modelled. They are the functions of `Jwt.Library`. The model fixes the `Validation` they receive, their order around deserialisation, and how their errors are classified.
- Jwks.RefreshSpec: the status-error text writes only the numeric status. `StatusCode`'s `Display` also appends the reason phrase.
- Middleware.DecodeClaims: the text of a claims deserialisation error is a simplified form of serde's message, which also carries a position.
- AuthClaims.ParseClaims: when several members are wrong, the error reports the first in field-declaration order. serde reports the first in document order. Integer members written as floats are not modelled.
- The wall clock is one nanosecond reading per call. It does not advance between the freshness check and the refresh.
- Only the first `Authorization` value of the request is read, as `HeaderMap::get` does. Multiple values are not modelled.
- `dotenvy::dotenv()` loading a `.env` file is not modelled. Neither are environment values that are not valid Unicode, which `env::var` treats as absent.
- The `validator` crate's rules are a function from payload to errors. Entries keep the map's iteration order as given.
- The HTTP status and body of `AppError::BadRequest` and `AppError::Validation` are not modelled: src/error.rs is not part of this model.
- `tracing` log output is not modelled.
- src/main.rs, src/lib.rs, the module files and src/routes are not modelled. They wire routes and start the server.
- Pagination, role guards and background jobs have no implementation in the code, so they are not modelled.

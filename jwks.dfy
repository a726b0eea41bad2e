/** The cache of Clerk's token-signing keys (src/auth/jwks.rs).

    The cache holds the RSA keys of the issuer's JSON Web Key Set (RFC 7517) by key
    id, and the time of the last successful fetch. A lookup of a key id the cache
    holds is answered from the cache while the last fetch is at most one hour old;
    any other lookup fetches and replaces the whole key set. The HTTP GET and JSON
    parse of the key set arrive as a `FetchOutcome`, the RSA component check of
    `DecodingKey::from_rsa_components` as a predicate on the two base64url strings,
    and the clock as a reading in nanoseconds of a monotonic clock. */
module Jwks {
  import opened Wrappers
  import opened Text
  import opened AppConfig

  const NanosPerSecond: nat := 1_000_000_000

  /** One hour. */
  const CacheDuration: nat := 3600 * NanosPerSecond

  /** The signature algorithms a cached key may be used with: RSASSA-PKCS1-v1_5
      with SHA-256, SHA-384 or SHA-512 (section 3.1 of RFC 7518). */
  datatype Algorithm = RS256 | RS384 | RS512

  /** One member of the key set. `kty` and `kid` are required by the JSON parse;
      the rest may be absent. For RSA keys `n` and `e` are the base64url modulus and
      exponent (section 6.3.1 of RFC 7518). */
  datatype Jwk = Jwk(
    kty: string,
    kid: string,
    alg: Option<string>,
    n: Option<string>,
    e: Option<string>,
    keyUse: Option<string>)

  /** Key material built from a modulus and an exponent. */
  datatype DecodingKey = RsaComponents(modulus: string, exponent: string)

  datatype CachedKey = CachedKey(decodingKey: DecodingKey, algorithm: Algorithm)

  /** The body of a key-set response: either it did not parse as a key set, or the
      list of keys it holds, in document order. */
  datatype JwksBody = Malformed(reason: string) | KeySet(keys: seq<Jwk>)

  /** What a GET of the key-set URL gives: the request was not sent or answered, or
      a status code and a body. */
  datatype FetchOutcome = SendFailed(reason: string) | Received(status: nat, body: JwksBody)

  /** The start of the `FetchError` text for a non-2xx answer; the status follows. */
  const StatusErrorPrefix := "JWKS endpoint returned status "

  datatype JwksError = FetchError(message: string) | ParseError(message: string) | KeyNotFound(kid: string)

  /** The `Display` text of a `JwksError`. */
  function Describe(e: JwksError): string
  {
    match e
    case FetchError(m) => "Failed to fetch JWKS: " + m
    case ParseError(m) => "Failed to parse JWKS: " + m
    case KeyNotFound(k) => "Key not found: " + k
  }

  /** Different errors have different texts: the first character tells a missing key
      from a failed refresh, the eleventh a fetch from a parse, and the rest is the
      error's own message or key id. */
  lemma {:induction false} DescribeInjective(e1: JwksError, e2: JwksError)
    requires Describe(e1) == Describe(e2)
    ensures e1 == e2
  {
    DescribeShape(e1);
    DescribeShape(e2);
  }

  lemma DescribeShape(e: JwksError)
    ensures |Describe(e)| >= 15
    ensures Describe(e)[0] == if e.KeyNotFound? then 'K' else 'F'
    ensures !e.KeyNotFound? ==> |Describe(e)| >= 22 && Describe(e)[22..] == e.message
    ensures !e.KeyNotFound? ==> Describe(e)[10] == if e.FetchError? then 'f' else 'p'
    ensures e.KeyNotFound? ==> Describe(e)[15..] == e.kid
  {
  }

  /** A 2xx status. */
  predicate IsSuccess(status: nat)
  {
    200 <= status <= 299
  }

  /** The algorithm a key is cached with: no `alg` means RS256; RS256, RS384 and
      RS512 name themselves; any other value is unsupported. */
  function AlgorithmFor(alg: Option<string>): (r: Option<Algorithm>)
    ensures r.Some? <==> alg in {None, Some("RS256"), Some("RS384"), Some("RS512")}
    ensures r == Some(RS256) <==> alg == None || alg == Some("RS256")
    ensures r == Some(RS384) <==> alg == Some("RS384")
    ensures r == Some(RS512) <==> alg == Some("RS512")
  {
    match alg
    case None => Some(RS256)
    case Some(a) =>
      if a == "RS256" then Some(RS256)
      else if a == "RS384" then Some(RS384)
      else if a == "RS512" then Some(RS512)
      else None
  }

  /** The entry a key contributes to the cache, if it is admitted: an RSA key with
      both components, a supported algorithm, and components that parse. */
  function Admit(k: Jwk, rsaParses: (string, string) -> bool): (r: Option<CachedKey>)
    ensures r.Some? <==>
      && k.kty == "RSA" && k.n.Some? && k.e.Some?
      && AlgorithmFor(k.alg).Some? && rsaParses(k.n.value, k.e.value)
    ensures r.Some? ==> r.value.decodingKey == RsaComponents(k.n.value, k.e.value)
    ensures r.Some? ==> Some(r.value.algorithm) == AlgorithmFor(k.alg)
  {
    if k.kty != "RSA" || k.n.None? || k.e.None? then None
    else match AlgorithmFor(k.alg)
      case None => None
      case Some(algorithm) =>
        if rsaParses(k.n.value, k.e.value)
        then Some(CachedKey(RsaComponents(k.n.value, k.e.value), algorithm))
        else None
  }

  /** The map built from a key list: admitted keys are inserted in order, so a later
      key with the same id replaces an earlier one. */
  function KeyMap(ks: seq<Jwk>, rsaParses: (string, string) -> bool): map<string, CachedKey>
  {
    if |ks| == 0 then map[]
    else
      var m := KeyMap(ks[..|ks| - 1], rsaParses);
      var k := ks[|ks| - 1];
      match Admit(k, rsaParses)
      case Some(ck) => m[k.kid := ck]
      case None => m
  }

  /** Key `i` of the list has id `kid` and is admitted. */
  predicate AdmittedAs(ks: seq<Jwk>, i: nat, kid: string, rsaParses: (string, string) -> bool)
    requires i < |ks|
  {
    ks[i].kid == kid && Admit(ks[i], rsaParses).Some?
  }

  /** An id is in the map exactly when some key with that id is admitted, and it maps
      to the entry of the LAST such key. */
  lemma {:induction false} KeyMapLookup(ks: seq<Jwk>, rsaParses: (string, string) -> bool, kid: string)
    ensures kid in KeyMap(ks, rsaParses) <==> exists i :: 0 <= i < |ks| && AdmittedAs(ks, i, kid, rsaParses)
    ensures kid in KeyMap(ks, rsaParses) ==>
      exists i :: 0 <= i < |ks| && AdmittedAs(ks, i, kid, rsaParses)
        && KeyMap(ks, rsaParses)[kid] == Admit(ks[i], rsaParses).value
        && forall j :: i < j < |ks| ==> !AdmittedAs(ks, j, kid, rsaParses)
  {
    if |ks| > 0 {
      var n := |ks| - 1;
      var p := ks[..n];
      KeyMapLookup(p, rsaParses, kid);
      forall i | 0 <= i < n
        ensures AdmittedAs(ks, i, kid, rsaParses) == AdmittedAs(p, i, kid, rsaParses)
      {
        assert ks[i] == p[i];
      }
      if AdmittedAs(ks, n, kid, rsaParses) {
        KeyMapLast(ks, rsaParses, kid);
      } else {
        KeyMapKeep(ks, rsaParses, kid);
        if kid in KeyMap(p, rsaParses) {
          var i :| 0 <= i < n && AdmittedAs(p, i, kid, rsaParses)
            && KeyMap(p, rsaParses)[kid] == Admit(p[i], rsaParses).value
            && forall j :: i < j < n ==> !AdmittedAs(p, j, kid, rsaParses);
          assert AdmittedAs(ks, i, kid, rsaParses) && ks[i] == p[i];
          assert forall j :: i < j < |ks| ==> !AdmittedAs(ks, j, kid, rsaParses);
        }
      }
    }
  }

  /** When the last key is admitted with this id, it is the entry. */
  lemma KeyMapLast(ks: seq<Jwk>, rsaParses: (string, string) -> bool, kid: string)
    requires |ks| > 0 && AdmittedAs(ks, |ks| - 1, kid, rsaParses)
    ensures kid in KeyMap(ks, rsaParses)
    ensures KeyMap(ks, rsaParses)[kid] == Admit(ks[|ks| - 1], rsaParses).value
  {
  }

  /** When the last key is not admitted with this id, the entry is the prefix's. */
  lemma KeyMapKeep(ks: seq<Jwk>, rsaParses: (string, string) -> bool, kid: string)
    requires |ks| > 0 && !AdmittedAs(ks, |ks| - 1, kid, rsaParses)
    ensures kid in KeyMap(ks, rsaParses) <==> kid in KeyMap(ks[..|ks| - 1], rsaParses)
    ensures kid in KeyMap(ks, rsaParses) ==>
      KeyMap(ks, rsaParses)[kid] == KeyMap(ks[..|ks| - 1], rsaParses)[kid]
  {
    var m := KeyMap(ks[..|ks| - 1], rsaParses);
    var k := ks[|ks| - 1];
    if Admit(k, rsaParses).Some? {
      assert k.kid != kid;
      assert KeyMap(ks, rsaParses) == m[k.kid := Admit(k, rsaParses).value];
    } else {
      assert KeyMap(ks, rsaParses) == m;
    }
  }

  /** The part of the cache that changes: the key map and the time of the last
      successful fetch. */
  datatype CacheState = CacheState(keys: map<string, CachedKey>, lastFetch: Option<nat>)

  /** `Instant::elapsed`, which never goes below zero. */
  function Elapsed(since: nat, now: nat): nat
  {
    if now >= since then now - since else 0
  }

  /** The keys were fetched, and no more than the cache duration ago: a cache whose
      age is exactly the duration is still fresh. */
  predicate IsFresh(s: CacheState, now: nat)
  {
    s.lastFetch.Some? && Elapsed(s.lastFetch.value, now) <= CacheDuration
  }

  /** A lookup is answered from the cache without fetching. */
  predicate IsHit(s: CacheState, kid: string, now: nat)
  {
    kid in s.keys && IsFresh(s, now)
  }

  /** `refresh_keys`: any failure of the fetch, of the status or of the parse is an
      error that leaves the state as it was; a parsed key set replaces the whole key
      map, and the fetch time becomes `now`. Keys that are not admitted are skipped
      and never make the refresh fail. */
  function RefreshSpec(s: CacheState, now: nat, fetched: FetchOutcome, rsaParses: (string, string) -> bool)
    : (r: (Result<(), JwksError>, CacheState))
    ensures r.0.Success? <==> fetched.Received? && IsSuccess(fetched.status) && fetched.body.KeySet?
    ensures r.0.Failure? ==> r.1 == s && !r.0.error.KeyNotFound?
    ensures fetched.SendFailed? ==> r.0 == Failure(FetchError(fetched.reason))
    ensures fetched.Received? && !IsSuccess(fetched.status) ==>
      r.0 == Failure(FetchError(StatusErrorPrefix + NatToString(fetched.status)))
    ensures fetched.Received? && IsSuccess(fetched.status) && fetched.body.Malformed? ==>
      r.0 == Failure(ParseError(fetched.body.reason))
    ensures r.0.Success? ==> r.1 == CacheState(KeyMap(fetched.body.keys, rsaParses), Some(now))
  {
    match fetched
    case SendFailed(reason) => (Failure(FetchError(reason)), s)
    case Received(status, body) =>
      if !IsSuccess(status) then
        (Failure(FetchError(StatusErrorPrefix + NatToString(status))), s)
      else match body
        case Malformed(reason) => (Failure(ParseError(reason)), s)
        case KeySet(ks) => (Success(()), CacheState(KeyMap(ks, rsaParses), Some(now)))
  }

  /** `get_key`: a hit is answered from the cache and changes nothing; otherwise
      there is one refresh followed by one lookup in the refreshed map. */
  function GetKeySpec(s: CacheState, kid: string, now: nat, fetched: FetchOutcome,
                      rsaParses: (string, string) -> bool)
    : (r: (Result<CachedKey, JwksError>, CacheState))
    ensures IsHit(s, kid, now) ==> r == (Success(s.keys[kid]), s)
    ensures !IsHit(s, kid, now) ==> r.1 == RefreshSpec(s, now, fetched, rsaParses).1
    ensures !IsHit(s, kid, now) && RefreshSpec(s, now, fetched, rsaParses).0.Failure? ==>
      r.0 == Failure(RefreshSpec(s, now, fetched, rsaParses).0.error)
    ensures r.0.Success? ==> kid in r.1.keys && r.0.value == r.1.keys[kid]
    ensures r.0.Failure? ==> r.1.keys == s.keys || kid !in r.1.keys
    ensures r.0 == Failure(KeyNotFound(kid)) <==>
      !IsHit(s, kid, now) && RefreshSpec(s, now, fetched, rsaParses).0.Success? && kid !in r.1.keys
  {
    if IsHit(s, kid, now) then (Success(s.keys[kid]), s)
    else
      var (refreshed, s') := RefreshSpec(s, now, fetched, rsaParses);
      if refreshed.Failure? then (Failure(refreshed.error), s')
      else if kid in s'.keys then (Success(s'.keys[kid]), s')
      else (Failure(KeyNotFound(kid)), s')
  }

  /** After a successful refresh, an id resolves exactly when the new key set holds
      an admitted key with that id, to the last such key; ids only the old map held
      no longer resolve. */
  lemma RefreshReplacesWholeMap(s: CacheState, now: nat, ks: seq<Jwk>, status: nat,
                                rsaParses: (string, string) -> bool, kid: string)
    requires IsSuccess(status)
    ensures var s' := RefreshSpec(s, now, Received(status, KeySet(ks)), rsaParses).1;
      && s'.lastFetch == Some(now)
      && (kid in s'.keys <==> exists i :: 0 <= i < |ks| && AdmittedAs(ks, i, kid, rsaParses))
      && (kid in s'.keys ==>
            exists i :: (0 <= i < |ks| && AdmittedAs(ks, i, kid, rsaParses)
                         && s'.keys[kid] == Admit(ks[i], rsaParses).value))
      && ((forall i :: 0 <= i < |ks| ==> ks[i].kid != kid) ==> kid !in s'.keys)
  {
    KeyMapLookup(ks, rsaParses, kid);
  }

  /** A miss whose refresh succeeds finds the key exactly when the new key set holds
      an admitted key with that id, and otherwise fails with `KeyNotFound(kid)`. */
  lemma MissResolvesFromNewSet(s: CacheState, kid: string, now: nat, status: nat, ks: seq<Jwk>,
                               rsaParses: (string, string) -> bool)
    requires !IsHit(s, kid, now) && IsSuccess(status)
    ensures var r := GetKeySpec(s, kid, now, Received(status, KeySet(ks)), rsaParses).0;
      && (r.Success? <==> exists i :: 0 <= i < |ks| && AdmittedAs(ks, i, kid, rsaParses))
      && (r.Failure? ==> r.error == KeyNotFound(kid))
      && (r.Success? ==>
            exists i :: (0 <= i < |ks| && AdmittedAs(ks, i, kid, rsaParses)
                         && r.value == Admit(ks[i], rsaParses).value
                         && forall j :: i < j < |ks| ==> !AdmittedAs(ks, j, kid, rsaParses)))
  {
    KeyMapLookup(ks, rsaParses, kid);
  }

  /** A stale cache that holds the key still refreshes, and when that refresh fails
      the lookup fails although the old key was there; the state stays as it was. */
  lemma StaleHitStillRefreshes(s: CacheState, kid: string, now: nat, fetched: FetchOutcome,
                               rsaParses: (string, string) -> bool)
    requires kid in s.keys && !IsFresh(s, now)
    requires RefreshSpec(s, now, fetched, rsaParses).0.Failure?
    ensures GetKeySpec(s, kid, now, fetched, rsaParses)
         == (Failure(RefreshSpec(s, now, fetched, rsaParses).0.error), s)
  {
  }

  /** The cache of one issuer. `keys` and `lastFetch` are replaced by refreshes;
      `requests` counts the GETs of the key-set URL. */
  class JwksCache {
    var keys: map<string, CachedKey>
    var lastFetch: Option<nat>
    const jwksUrl: string
    const cacheDuration: nat := CacheDuration
    ghost var requests: nat

    function State(): CacheState
      reads this
    {
      CacheState(keys, lastFetch)
    }

    /** `JwksCache::new`: no keys, never fetched. */
    constructor (config: ClerkConfig)
      ensures keys == map[] && lastFetch == None && requests == 0
      ensures jwksUrl == config.jwksUrl && cacheDuration == 3600 * NanosPerSecond
      ensures !IsFresh(State(), 0)
    {
      keys := map[];
      lastFetch := None;
      jwksUrl := config.jwksUrl;
      requests := 0;
    }

    /** `JwksCache::get_key`. */
    method GetKey(kid: string, now: nat, fetched: FetchOutcome, rsaParses: (string, string) -> bool)
      returns (r: Result<CachedKey, JwksError>)
      modifies this
      ensures (r, State()) == GetKeySpec(old(State()), kid, now, fetched, rsaParses)
      ensures requests == old(requests) + (if IsHit(old(State()), kid, now) then 0 else 1)
    {
      var shouldRefresh := match lastFetch
        case Some(instant) => Elapsed(instant, now) > cacheDuration
        case None => true;
      if kid in keys && !shouldRefresh {
        return Success(keys[kid]);
      }
      var refreshed := RefreshKeys(now, fetched, rsaParses);
      if refreshed.Failure? {
        return Failure(refreshed.error);
      }
      if kid in keys {
        r := Success(keys[kid]);
      } else {
        r := Failure(KeyNotFound(kid));
      }
    }

    /** `JwksCache::refresh_keys`: the admission loop builds a fresh map, which then
      replaces the old one. */
    method RefreshKeys(now: nat, fetched: FetchOutcome, rsaParses: (string, string) -> bool)
      returns (r: Result<(), JwksError>)
      modifies this
      ensures (r, State()) == RefreshSpec(old(State()), now, fetched, rsaParses)
      ensures requests == old(requests) + 1
    {
      requests := requests + 1;
      if fetched.SendFailed? {
        return Failure(FetchError(fetched.reason));
      }
      if !IsSuccess(fetched.status) {
        return Failure(FetchError(StatusErrorPrefix + NatToString(fetched.status)));
      }
      if fetched.body.Malformed? {
        return Failure(ParseError(fetched.body.reason));
      }
      var ks := fetched.body.keys;
      var newKeys: map<string, CachedKey> := map[];
      for i := 0 to |ks|
        invariant newKeys == KeyMap(ks[..i], rsaParses)
      {
        var key := ks[i];
        assert ks[..i + 1][..i] == ks[..i];
        if key.kty != "RSA" {
          continue;
        }
        if key.n.None? {
          continue;
        }
        if key.e.None? {
          continue;
        }
        var algorithm: Algorithm;
        match key.alg {
          case None => algorithm := RS256;
          case Some(a) =>
            if a == "RS256" {
              algorithm := RS256;
            } else if a == "RS384" {
              algorithm := RS384;
            } else if a == "RS512" {
              algorithm := RS512;
            } else {
              continue;
            }
        }
        if rsaParses(key.n.value, key.e.value) {
          newKeys := newKeys[key.kid := CachedKey(RsaComponents(key.n.value, key.e.value), algorithm)];
        }
      }
      assert ks[..|ks|] == ks;
      keys := newKeys;
      lastFetch := Some(now);
      r := Success(());
    }
  }
}

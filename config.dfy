/** Service configuration read from the process environment (src/config.rs). The
    environment is a map from variable name to value. */
module AppConfig {
  import opened Wrappers
  import opened Text

  const DefaultHost := "0.0.0.0"
  const DefaultPort := "3001"
  const DefaultCorsOrigins := "http://localhost:3000,http://localhost:5173"
  const DefaultEnvironment := "development"
  const JwksPath := "/.well-known/jwks.json"

  /** Where and how session tokens are verified. */
  datatype ClerkConfig = ClerkConfig(jwksUrl: string, issuer: string, audience: Option<string>)

  datatype Config = Config(
    databaseUrl: string,
    host: string,
    port: nat,
    corsOrigins: seq<string>,
    environment: string,
    clerk: ClerkConfig)
  {
    /** `Config::is_production`. */
    predicate IsProduction()
    {
      environment == "production"
    }
  }

  datatype ConfigError = Missing(name: string) | Invalid(message: string)

  /** `env::var(name).unwrap_or_else(|_| default)`. */
  function VarOr(env: map<string, string>, name: string, default: string): string
  {
    if name in env then env[name] else default
  }

  /** The comma-separated origin list, each entry trimmed. */
  function CorsOrigins(raw: string): (r: seq<string>)
    ensures |r| == |Split(raw, ',')|
    ensures forall i :: 0 <= i < |r| ==> r[i] == Trim(Split(raw, ',')[i])
  {
    var pieces := Split(raw, ',');
    seq(|pieces|, i requires 0 <= i < |pieces| => Trim(pieces[i]))
  }

  /** There is one origin more than there are commas. */
  lemma CorsOriginCount(raw: string)
    ensures |CorsOrigins(raw)| == Count(raw, ',') + 1
  {
    SplitCount(raw, ',');
  }

  /** Two comma-free origins without surrounding white space are read back as
      exactly those two. */
  lemma {:induction false} CorsOriginsOfTwo(a: string, b: string)
    requires ',' !in a && ',' !in b
    requires a == [] || (!IsWhitespace(a[0]) && !IsWhitespace(a[|a| - 1]))
    requires b == [] || (!IsWhitespace(b[0]) && !IsWhitespace(b[|b| - 1]))
    ensures CorsOrigins(a + [','] + b) == [a, b]
  {
    var raw := a + [','] + b;
    assert Split(raw, ',') == [a, b] by {
      SplitAtFirst(a, b, ',');
      SplitNoSeparator(b, ',');
    }
    assert Trim(a) == a && Trim(b) == b by {
      TrimUnchanged(a);
      TrimUnchanged(b);
    }
    var r := CorsOrigins(raw);
    PairOf(r, a, b);
  }

  lemma PairOf(r: seq<string>, a: string, b: string)
    requires |r| == 2 && r[0] == a && r[1] == b
    ensures r == [a, b]
  {
  }

  /** `Config::from_env`: `DATABASE_URL` is required and checked first, then `PORT`
      must parse as a u16, then `CLERK_ISSUER` is required; everything else has a
      default. */
  function FromEnv(env: map<string, string>): (r: Result<Config, ConfigError>)
    ensures "DATABASE_URL" !in env ==> r == Failure(Missing("DATABASE_URL"))
    ensures "DATABASE_URL" in env && ParseU16(VarOr(env, "PORT", DefaultPort)).None?
            ==> r == Failure(Invalid("PORT must be a valid number"))
    ensures "DATABASE_URL" in env && ParseU16(VarOr(env, "PORT", DefaultPort)).Some? && "CLERK_ISSUER" !in env
            ==> r == Failure(Missing("CLERK_ISSUER"))
    ensures r.Failure? <==>
      "DATABASE_URL" !in env || ParseU16(VarOr(env, "PORT", DefaultPort)).None? || "CLERK_ISSUER" !in env
    ensures r.Success? ==>
      && r.value.databaseUrl == env["DATABASE_URL"]
      && r.value.host == VarOr(env, "HOST", DefaultHost)
      && r.value.environment == VarOr(env, "NODE_ENV", DefaultEnvironment)
      && r.value.port <= MaxU16
      && Some(r.value.port) == ParseU16(VarOr(env, "PORT", DefaultPort))
      && r.value.clerk.issuer == env["CLERK_ISSUER"]
      && r.value.corsOrigins == CorsOrigins(VarOr(env, "CORS_ORIGINS", DefaultCorsOrigins))
  {
    if "DATABASE_URL" !in env then Failure(Missing("DATABASE_URL"))
    else
      var databaseUrl := env["DATABASE_URL"];
      var host := VarOr(env, "HOST", DefaultHost);
      var port := ParseU16(VarOr(env, "PORT", DefaultPort));
      if port.None? then Failure(Invalid("PORT must be a valid number"))
      else
        var corsOrigins := CorsOrigins(VarOr(env, "CORS_ORIGINS", DefaultCorsOrigins));
        var environment := VarOr(env, "NODE_ENV", DefaultEnvironment);
        if "CLERK_ISSUER" !in env then Failure(Missing("CLERK_ISSUER"))
        else
          var issuer := env["CLERK_ISSUER"];
          var jwksUrl := VarOr(env, "CLERK_JWKS_URL", issuer + JwksPath);
          var audience := if "CLERK_AUDIENCE" in env then Some(env["CLERK_AUDIENCE"]) else None;
          Success(Config(databaseUrl, host, port.value, corsOrigins, environment,
                         ClerkConfig(jwksUrl, issuer, audience)))
  }

  /** With only the two required variables set, every default applies: host 0.0.0.0,
      port 3001, the default origin list, the development environment, the JWKS
      document under the issuer, and no audience. */
  lemma Defaults(env: map<string, string>)
    requires env.Keys == {"DATABASE_URL", "CLERK_ISSUER"}
    ensures FromEnv(env).Success?
    ensures FromEnv(env).value.host == "0.0.0.0"
    ensures FromEnv(env).value.port == 3001
    ensures FromEnv(env).value.corsOrigins == CorsOrigins(DefaultCorsOrigins)
    ensures FromEnv(env).value.environment == "development"
    ensures FromEnv(env).value.clerk
         == ClerkConfig(env["CLERK_ISSUER"] + "/.well-known/jwks.json", env["CLERK_ISSUER"], None)
  {
    assert "DATABASE_URL" in env && "CLERK_ISSUER" in env;
    assert "HOST" !in env && "PORT" !in env && "CORS_ORIGINS" !in env && "NODE_ENV" !in env;
    assert "CLERK_JWKS_URL" !in env && "CLERK_AUDIENCE" !in env;
    DefaultPortValue();
  }

  /** The default port text reads as 3001. */
  lemma DefaultPortValue()
    ensures ParseU16(DefaultPort) == Some(3001)
  {
    assert DefaultPort[0] != '+' && AllDigits(DefaultPort);
    assert DigitsValue("30") == 30 by { assert "30"[..1] == "3"; }
    assert DigitsValue("300") == 300 by { assert "300"[..2] == "30"; }
    assert DigitsValue("3001") == 3001 by { assert "3001"[..3] == "300"; }
  }

  /** The default origin list is the two local front-end origins. */
  lemma DefaultOrigins()
    ensures CorsOrigins(DefaultCorsOrigins) == ["http://localhost:3000", "http://localhost:5173"]
  {
    var first, second := "http://localhost:3000", "http://localhost:5173";
    assert DefaultCorsOrigins == first + [','] + second;
    CorsOriginsOfTwo(first, second);
  }

  /** The issuer is stored verbatim; the JWKS URL is `CLERK_JWKS_URL` when set and
      otherwise the issuer followed by the well-known JWKS path; the audience is
      `CLERK_AUDIENCE` or nothing; production means exactly `NODE_ENV=production`. */
  lemma ClerkSettings(env: map<string, string>)
    requires FromEnv(env).Success?
    ensures var c := FromEnv(env).value;
      && c.clerk.issuer == env["CLERK_ISSUER"]
      && ("CLERK_JWKS_URL" in env ==> c.clerk.jwksUrl == env["CLERK_JWKS_URL"])
      && ("CLERK_JWKS_URL" !in env ==> c.clerk.jwksUrl == env["CLERK_ISSUER"] + "/.well-known/jwks.json")
      && (c.clerk.audience.Some? <==> "CLERK_AUDIENCE" in env)
      && (c.clerk.audience.Some? ==> c.clerk.audience.value == env["CLERK_AUDIENCE"])
      && (c.IsProduction() <==> "NODE_ENV" in env && env["NODE_ENV"] == "production")
  {
  }

  /** `is_production` holds exactly when `NODE_ENV` is set to "production"; when it is
      not set the environment is "development", which is not production. */
  lemma ProductionFromNodeEnv(env: map<string, string>)
    requires FromEnv(env).Success?
    ensures FromEnv(env).value.IsProduction() ==> "NODE_ENV" in env
    ensures "NODE_ENV" !in env ==> FromEnv(env).value.environment == "development"
    ensures FromEnv(env).value.IsProduction() <==> VarOr(env, "NODE_ENV", DefaultEnvironment) == "production"
  {
    assert DefaultEnvironment != "production" by { assert DefaultEnvironment[0] != "production"[0]; }
  }
}

/** The claims of a verified Clerk session token (src/auth/claims.rs): the
    registered claims of section 4.1 of RFC 7519 that the service reads, plus
    Clerk's session and organisation claims, and the accessors handlers use. */
module AuthClaims {
  import opened Wrappers
  import opened Json

  /** Rust's `i64`. */
  newtype I64 = x: int | IsI64(x)

  datatype Claims = Claims(
    sub: string,
    iss: string,
    aud: Option<string>,
    exp: I64,
    iat: I64,
    nbf: Option<I64>,
    jti: Option<string>,
    azp: Option<string>,
    sid: Option<string>,
    orgId: Option<string>,
    orgRole: Option<string>,
    orgSlug: Option<string>)
  {
    /** `Claims::user_id`: the Clerk user id. */
    function UserId(): string
    {
      sub
    }

    /** `Claims::organization_id`. */
    function OrganizationId(): Option<string>
    {
      orgId
    }

    /** `Claims::has_organization`. */
    predicate HasOrganization()
    {
      orgId.Some?
    }

    /** `Claims::organization_role`. */
    function OrganizationRole(): Option<string>
    {
      orgRole
    }
  }

  /** Why a payload does not deserialise into `Claims`. */
  datatype ClaimsError = MissingField(name: string) | InvalidType(name: string)

  predicate IsI64(i: int)
  {
    -0x8000_0000_0000_0000 <= i < 0x8000_0000_0000_0000
  }

  /** A required member holding a string. */
  predicate HasString(obj: map<string, Json>, name: string)
  {
    name in obj && obj[name].JString?
  }

  /** A required member holding an integer in the i64 range. */
  predicate HasI64(obj: map<string, Json>, name: string)
  {
    name in obj && obj[name].JInt? && IsI64(obj[name].i)
  }

  /** An optional string member: absent, null, or a string. */
  predicate OptString(obj: map<string, Json>, name: string)
  {
    name !in obj || obj[name].JNull? || obj[name].JString?
  }

  /** An optional i64 member: absent, null, or an integer in range. */
  predicate OptI64(obj: map<string, Json>, name: string)
  {
    name !in obj || obj[name].JNull? || (obj[name].JInt? && IsI64(obj[name].i))
  }

  /** The payloads serde accepts for `Claims`: `sub`, `iss`, `exp` and `iat` present
      with the right type, every `#[serde(default)]` member absent, null or of the
      right type. Members the struct does not name are ignored. */
  predicate Deserializable(obj: map<string, Json>)
  {
    && HasString(obj, "sub") && HasString(obj, "iss")
    && OptString(obj, "aud")
    && HasI64(obj, "exp") && HasI64(obj, "iat")
    && OptI64(obj, "nbf")
    && OptString(obj, "jti") && OptString(obj, "azp") && OptString(obj, "sid")
    && OptString(obj, "org_id") && OptString(obj, "org_role") && OptString(obj, "org_slug")
  }

  /** The field value `v` is what member `name` says: `None` exactly when the member
      is absent or null. */
  predicate MirrorsString(obj: map<string, Json>, name: string, v: Option<string>)
  {
    match v
    case None => name !in obj || obj[name] == JNull
    case Some(x) => name in obj && obj[name] == JString(x)
  }

  predicate MirrorsI64(obj: map<string, Json>, name: string, v: Option<I64>)
  {
    match v
    case None => name !in obj || obj[name] == JNull
    case Some(x) => name in obj && obj[name] == JInt(x as int)
  }

  function RequiredString(obj: map<string, Json>, name: string): Result<string, ClaimsError>
  {
    if name !in obj then Failure(MissingField(name))
    else match obj[name]
      case JString(s) => Success(s)
      case _ => Failure(InvalidType(name))
  }

  function RequiredI64(obj: map<string, Json>, name: string): Result<I64, ClaimsError>
  {
    if name !in obj then Failure(MissingField(name))
    else match obj[name]
      case JInt(i) => if IsI64(i) then Success(i as I64) else Failure(InvalidType(name))
      case _ => Failure(InvalidType(name))
  }

  /** `#[serde(default)] Option<String>`: absent or null is `None`. */
  function DefaultString(obj: map<string, Json>, name: string): Result<Option<string>, ClaimsError>
  {
    if name !in obj then Success(None)
    else match obj[name]
      case JNull => Success(None)
      case JString(s) => Success(Some(s))
      case _ => Failure(InvalidType(name))
  }

  function DefaultI64(obj: map<string, Json>, name: string): Result<Option<I64>, ClaimsError>
  {
    if name !in obj then Success(None)
    else match obj[name]
      case JNull => Success(None)
      case JInt(i) => if IsI64(i) then Success(Some(i as I64)) else Failure(InvalidType(name))
      case _ => Failure(InvalidType(name))
  }

  /** `Deserialize for Claims` on a JSON object, fields taken in declaration order. */
  function ParseClaims(obj: map<string, Json>): (r: Result<Claims, ClaimsError>)
    ensures r.Success? <==> Deserializable(obj)
    ensures "sub" !in obj || "iss" !in obj || "exp" !in obj || "iat" !in obj ==> r.Failure?
    ensures r.Success? ==>
      && obj["sub"] == JString(r.value.sub) && obj["iss"] == JString(r.value.iss)
      && obj["exp"] == JInt(r.value.exp as int) && obj["iat"] == JInt(r.value.iat as int)
    ensures r.Success? ==>
      && MirrorsString(obj, "aud", r.value.aud) && MirrorsI64(obj, "nbf", r.value.nbf)
      && MirrorsString(obj, "jti", r.value.jti) && MirrorsString(obj, "azp", r.value.azp)
      && MirrorsString(obj, "sid", r.value.sid) && MirrorsString(obj, "org_id", r.value.orgId)
      && MirrorsString(obj, "org_role", r.value.orgRole)
      && MirrorsString(obj, "org_slug", r.value.orgSlug)
  {
    var sub := RequiredString(obj, "sub");
    var iss := RequiredString(obj, "iss");
    var aud := DefaultString(obj, "aud");
    var exp := RequiredI64(obj, "exp");
    var iat := RequiredI64(obj, "iat");
    var nbf := DefaultI64(obj, "nbf");
    var jti := DefaultString(obj, "jti");
    var azp := DefaultString(obj, "azp");
    var sid := DefaultString(obj, "sid");
    var orgId := DefaultString(obj, "org_id");
    var orgRole := DefaultString(obj, "org_role");
    var orgSlug := DefaultString(obj, "org_slug");
    if sub.Failure? then Failure(sub.error)
    else if iss.Failure? then Failure(iss.error)
    else if aud.Failure? then Failure(aud.error)
    else if exp.Failure? then Failure(exp.error)
    else if iat.Failure? then Failure(iat.error)
    else if nbf.Failure? then Failure(nbf.error)
    else if jti.Failure? then Failure(jti.error)
    else if azp.Failure? then Failure(azp.error)
    else if sid.Failure? then Failure(sid.error)
    else if orgId.Failure? then Failure(orgId.error)
    else if orgRole.Failure? then Failure(orgRole.error)
    else if orgSlug.Failure? then Failure(orgSlug.error)
    else Success(Claims(sub.value, iss.value, aud.value, exp.value, iat.value, nbf.value,
                        jti.value, azp.value, sid.value, orgId.value, orgRole.value, orgSlug.value))
  }

  function OptStringJson(v: Option<string>): Json
  {
    match v
    case None => JNull
    case Some(s) => JString(s)
  }

  function OptI64Json(v: Option<I64>): Json
  {
    match v
    case None => JNull
    case Some(i) => JInt(i as int)
  }

  /** `Serialize for Claims`: every field is written, `None` as null. */
  function ClaimsToJson(c: Claims): map<string, Json>
  {
    map[
      "sub" := JString(c.sub), "iss" := JString(c.iss), "aud" := OptStringJson(c.aud),
      "exp" := JInt(c.exp as int), "iat" := JInt(c.iat as int), "nbf" := OptI64Json(c.nbf),
      "jti" := OptStringJson(c.jti), "azp" := OptStringJson(c.azp), "sid" := OptStringJson(c.sid),
      "org_id" := OptStringJson(c.orgId), "org_role" := OptStringJson(c.orgRole),
      "org_slug" := OptStringJson(c.orgSlug)]
  }

  /** The serialised object holds the required fields under their own names. */
  lemma ClaimsToJsonRequired(c: Claims)
    ensures var obj := ClaimsToJson(c);
      && "sub" in obj && obj["sub"] == JString(c.sub)
      && "iss" in obj && obj["iss"] == JString(c.iss)
      && "exp" in obj && obj["exp"] == JInt(c.exp as int)
      && "iat" in obj && obj["iat"] == JInt(c.iat as int)
  {
  }

  /** The serialised object holds the optional fields under their own names. */
  lemma ClaimsToJsonOptional(c: Claims)
    ensures var obj := ClaimsToJson(c);
      && "aud" in obj && obj["aud"] == OptStringJson(c.aud)
      && "nbf" in obj && obj["nbf"] == OptI64Json(c.nbf)
      && "jti" in obj && obj["jti"] == OptStringJson(c.jti)
      && "azp" in obj && obj["azp"] == OptStringJson(c.azp)
  {
  }

  /** The serialised object holds the session and organisation fields under their
      own names. */
  lemma ClaimsToJsonOrganization(c: Claims)
    ensures var obj := ClaimsToJson(c);
      && "sid" in obj && obj["sid"] == OptStringJson(c.sid)
      && "org_id" in obj && obj["org_id"] == OptStringJson(c.orgId)
      && "org_role" in obj && obj["org_role"] == OptStringJson(c.orgRole)
      && "org_slug" in obj && obj["org_slug"] == OptStringJson(c.orgSlug)
  {
  }

  /** Any object holding each field of `c` as its serialised value deserialises to `c`. */
  lemma ParseFromMembers(obj: map<string, Json>, c: Claims)
    requires "sub" in obj && obj["sub"] == JString(c.sub)
    requires "iss" in obj && obj["iss"] == JString(c.iss)
    requires "exp" in obj && obj["exp"] == JInt(c.exp as int)
    requires "iat" in obj && obj["iat"] == JInt(c.iat as int)
    requires "aud" in obj && obj["aud"] == OptStringJson(c.aud)
    requires "nbf" in obj && obj["nbf"] == OptI64Json(c.nbf)
    requires "jti" in obj && obj["jti"] == OptStringJson(c.jti)
    requires "azp" in obj && obj["azp"] == OptStringJson(c.azp)
    requires "sid" in obj && obj["sid"] == OptStringJson(c.sid)
    requires "org_id" in obj && obj["org_id"] == OptStringJson(c.orgId)
    requires "org_role" in obj && obj["org_role"] == OptStringJson(c.orgRole)
    requires "org_slug" in obj && obj["org_slug"] == OptStringJson(c.orgSlug)
    ensures ParseClaims(obj) == Success(c)
  {
    assert Deserializable(obj);
    var d := ParseClaims(obj).value;
    assert d.sub == c.sub && d.iss == c.iss && d.exp == c.exp && d.iat == c.iat;
    assert d.aud == c.aud && d.nbf == c.nbf && d.jti == c.jti && d.azp == c.azp;
    assert d.sid == c.sid && d.orgId == c.orgId && d.orgRole == c.orgRole && d.orgSlug == c.orgSlug;
  }

  /** Serialising claims and deserialising them again gives the same claims. */
  lemma ClaimsRoundTrip(c: Claims)
    ensures ParseClaims(ClaimsToJson(c)) == Success(c)
  {
    ClaimsToJsonRequired(c);
    ClaimsToJsonOptional(c);
    ClaimsToJsonOrganization(c);
    ParseFromMembers(ClaimsToJson(c), c);
  }

  /** The optional claims default to `None` when the payload leaves them out, and the
      payload is accepted as long as the four required claims are well typed. */
  lemma OptionalClaimsDefault(sub: string, iss: string, exp: I64, iat: I64)
    ensures ParseClaims(map["sub" := JString(sub), "iss" := JString(iss),
                            "exp" := JInt(exp as int), "iat" := JInt(iat as int)])
         == Success(Claims(sub, iss, None, exp, iat, None, None, None, None, None, None, None))
  {
  }

  /** The accessors read the payload the claims came from: the user id is the `sub`
      string, the organisation id and role are the `org_id` and `org_role` strings when
      present and not null, and `has_organization` holds exactly when there is an id. */
  lemma AccessorsReadPayload(obj: map<string, Json>, c: Claims)
    requires ParseClaims(obj) == Success(c)
    ensures obj["sub"] == JString(c.UserId())
    ensures forall x :: c.OrganizationId() == Some(x) <==> "org_id" in obj && obj["org_id"] == JString(x)
    ensures forall x :: c.OrganizationRole() == Some(x) <==> "org_role" in obj && obj["org_role"] == JString(x)
    ensures c.HasOrganization() <==> c.OrganizationId().Some?
    ensures c.HasOrganization() <==> "org_id" in obj && obj["org_id"] != JNull
  {
  }
}

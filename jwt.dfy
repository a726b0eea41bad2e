/** The parts of the `jsonwebtoken` crate the middleware calls, as an interface:
    the token header, the decode error kinds, the `Validation` settings, and the
    decoding steps, which arrive as functions because signature and claim checking
    are not part of this model. */
module Jwt {
  import opened Wrappers
  import opened Json
  import Jwks

  /** The decoded JOSE header of a token; only the key id is read. */
  datatype Header = Header(alg: string, kid: Option<string>)

  /** `jsonwebtoken::errors::ErrorKind`, the kinds a decode can fail with. */
  datatype ErrorKind =
    | InvalidToken
    | InvalidSignature
    | InvalidAlgorithm
    | MissingRequiredClaim
    | ExpiredSignature
    | ImmatureSignature
    | InvalidIssuer
    | InvalidAudience
    | Base64
    | Json

  /** A decode error: its kind and its `Display` text. */
  datatype DecodeError = DecodeError(kind: ErrorKind, message: string)

  /** The validation settings a token is checked against. */
  datatype Validation = Validation(
    algorithms: seq<Jwks.Algorithm>,
    leeway: nat,
    validateExp: bool,
    validateNbf: bool,
    validateAud: bool,
    aud: Option<set<string>>,
    iss: Option<set<string>>)

  /** `Validation::new(alg)`: only `alg`, expiry checked with 60 s leeway, not-before
      not checked, audience checked, no expected audience or issuer yet. */
  function NewValidation(alg: Jwks.Algorithm): (v: Validation)
    ensures v.algorithms == [alg] && v.leeway == 60
    ensures v.validateExp && !v.validateNbf && v.validateAud
    ensures v.aud.None? && v.iss.None?
  {
    Validation([alg], 60, true, false, true, None, None)
  }

  /** The library. `decode_header` fails with a message. `decode` runs in three
      steps: `verifySignature` checks the token's algorithm against the validation
      and its signature with the key, giving the payload as a JSON object; the
      payload is then deserialised into the claims type; only after that does
      `validateClaims` check `exp`, `nbf`, `iss` and `aud` against the validation. */
  datatype Library = Library(
    decodeHeader: string -> Result<Header, string>,
    verifySignature: (string, Jwks.DecodingKey, Validation) -> Result<map<string, Json>, DecodeError>,
    validateClaims: (map<string, Json>, Validation) -> Result<(), DecodeError>)
}

/** What the core receives from outside: configuration values, the records it
    hands to the JWT library, and the foreign primitives (BCrypt and the JWT
    handler), which are inputs here because their internals are not modelled. */
module Externals {
  import opened Basics

  /** `ClaimTypes.NameIdentifier`. */
  const NameIdentifierClaimType: string := "http://schemas.xmlsoap.org/ws/2005/05/identity/claims/nameidentifier"

  /** `SecurityAlgorithms.HmacSha256Signature` (HS256, section 3.2 of RFC 7518). */
  const HmacSha256Signature: string := "http://www.w3.org/2001/04/xmldsig-more#hmac-sha256"

  /** The configuration values the core reads. A missing value is `None`. */
  datatype Config = Config(
    jwtSecretKey: Option<string>,           // "Jwt:SecretKey", read by the token service
    jwtSecret: Option<string>,              // "Jwt:Secret", read by the login token of the controller
    jwtIssuer: Option<string>,              // "Jwt:Issuer"
    jwtAudience: Option<string>,            // "Jwt:Audience"
    accessTokenMinutes: Option<Int32>,      // "AccessTokenExpirationTimeInMinutes", as Convert.ToInt32 reads it
    useHashedRefreshToken: Option<bool>)    // "UseHashedRefreshToken"

  /** The text encoding that turns a configured secret into key bytes. */
  datatype TextEncoding = Ascii | Utf8

  datatype SigningKey = SigningKey(encoding: TextEncoding, secret: string)

  datatype Claim = Claim(claimType: string, value: string)

  /** A `SecurityTokenDescriptor`: the claim set and times of a token before signing.
      Times are seconds on the UTC clock; an absent time is `None`. */
  datatype TokenDescriptor = TokenDescriptor(
    subject: seq<Claim>,
    issuer: Option<string>,
    audience: Option<string>,
    expires: Option<int>,
    notBefore: Option<int>,
    key: SigningKey,
    algorithm: string)

  /** `TokenValidationParameters`. */
  datatype ValidationParameters = ValidationParameters(
    validateIssuerSigningKey: bool,
    key: SigningKey,
    validateIssuer: bool,
    validIssuer: Option<string>,
    validateAudience: bool,
    validAudience: Option<string>,
    validateLifetime: bool,
    requireExpirationTime: bool,
    clockSkewSeconds: int)

  /** How `ValidateToken` ends: it returns, throws a `SecurityTokenException`, or throws anything else. */
  datatype ValidationOutcome = Validated | TokenRejected | OtherException

  /** The foreign primitives, as functions of their inputs. */
  datatype Crypto = Crypto(
    // BCrypt.HashPassword(text, salt)
    bcryptHash: (string, string) -> string,
    // BCrypt.Verify(text, hash): Some(answer), or None when it throws
    bcryptVerify: (string, Option<string>) -> Option<bool>,
    // CreateToken followed by WriteToken: the compact token, or None when either throws
    createToken: TokenDescriptor -> Option<string>,
    // ValidateToken(token, parameters)
    validateToken: (string, ValidationParameters) -> ValidationOutcome)
}

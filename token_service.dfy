/** The token service: the access token's claim set, the refresh token and the
    update of the user record it causes, and the guards of hashing and validation.
    The clock, the random source and the BCrypt salt are parameters. */
module TokenServices {
  import opened Basics
  import opened Externals
  import opened Users
  import opened UserStore
  import Decimal
  import Base64

  const SecondsPerMinute: int := 60

  /** The access token's not-before time lies this many seconds before its expiry. */
  const NotBeforeLead: int := 10

  /** A refresh token expires 30 days after it is issued. */
  const RefreshTokenLifetime: int := 30 * 24 * 60 * 60

  /** `RandomNumberGenerator.GetBytes(32)` always yields 32 bytes. */
  type RandomBytes = s: seq<Base64.Byte> | |s| == 32 witness seq(32, i => 0)

  /** `Convert.ToInt32` of the configured lifetime; a missing value converts to 0. */
  function AccessTokenMinutes(config: Config): int {
    config.accessTokenMinutes.GetOr(0)
  }

  /** The descriptor `GenerateAccessTokenAsync` hands to the JWT handler. A null
      user is rejected first; a missing secret key then fails in the key's
      ASCII encoding (`Encoding.GetBytes(string s)`), and an empty one when the
      `SymmetricSecurityKey` is made from its zero bytes. */
  function AccessTokenDescriptor(user: User?, config: Config, now: int): (r: Result<TokenDescriptor>)
    reads user
    ensures user == null ==> r == Err(ArgumentNull("user"))
    ensures user != null && config.jwtSecretKey.None? ==> r == Err(ArgumentNull("s"))
    ensures user != null && config.jwtSecretKey == Some("") ==> r == Err(EmptyKey)
    ensures r.Ok? <==> user != null && !IsNullOrEmpty(config.jwtSecretKey)
    // exactly one identity claim, whose value reads back as the user's id
    ensures r.Ok? ==>
      && |r.value.subject| == 1
      && r.value.subject[0].claimType == NameIdentifierClaimType
      && Decimal.ParseInt(r.value.subject[0].value) == Some(user.id as int)
    ensures r.Ok? ==> r.value.issuer == config.jwtIssuer && r.value.audience == config.jwtAudience
    ensures r.Ok? ==> r.value.expires == Some(now + AccessTokenMinutes(config) * SecondsPerMinute)
    ensures r.Ok? ==>
      && r.value.notBefore.Some? && r.value.expires.Some?
      && r.value.notBefore.value == r.value.expires.value - NotBeforeLead
      && r.value.notBefore.value < r.value.expires.value
    ensures r.Ok? && AccessTokenMinutes(config) > 0 ==> r.value.expires.value > now
    ensures r.Ok? ==>
      && r.value.key == SigningKey(Ascii, config.jwtSecretKey.value)
      && r.value.algorithm == HmacSha256Signature
  {
    if user == null then Err(ArgumentNull("user"))
    else if config.jwtSecretKey.None? then Err(ArgumentNull("s"))
    else if config.jwtSecretKey.value == "" then Err(EmptyKey)
    else
      Decimal.ParseIntToString(user.id);
      var expires := now + AccessTokenMinutes(config) * SecondsPerMinute;
      Ok(TokenDescriptor(
        [Claim(NameIdentifierClaimType, Decimal.IntToString(user.id))],
        config.jwtIssuer,
        config.jwtAudience,
        Some(expires),
        Some(expires - NotBeforeLead),
        SigningKey(Ascii, config.jwtSecretKey.value),
        HmacSha256Signature))
  }

  /** `GenerateAccessTokenAsync`: the descriptor, signed and serialised by the JWT handler. */
  function GenerateAccessToken(user: User?, config: Config, crypto: Crypto, now: int): (r: Result<string>)
    reads user
    ensures user == null ==> r == Err(ArgumentNull("user"))
    ensures r.Ok? <==> (
      && AccessTokenDescriptor(user, config, now).Ok?
      && crypto.createToken(AccessTokenDescriptor(user, config, now).value).Some?)
    ensures r.Ok? ==> crypto.createToken(AccessTokenDescriptor(user, config, now).value) == Some(r.value)
    ensures AccessTokenDescriptor(user, config, now).Ok? && r.Err? ==> r == Err(TokenCreationFailed)
  {
    match AccessTokenDescriptor(user, config, now)
    case Err(e) => Err(e)
    case Ok(d) =>
      match crypto.createToken(d)
      case None => Err(TokenCreationFailed)
      case Some(token) => Ok(token)
  }

  /** `HashRefreshToken`: BCrypt with a fresh salt (work factor 12), after rejecting a null or empty token. */
  function HashRefreshToken(refreshToken: Option<string>, salt: string, crypto: Crypto): (r: Result<string>)
    ensures r.Err? <==> IsNullOrEmpty(refreshToken)
    ensures r.Err? ==> r.error == ArgumentNull("refreshToken")
    ensures r.Ok? ==> r.value == crypto.bcryptHash(refreshToken.value, salt)
  {
    if IsNullOrEmpty(refreshToken) then Err(ArgumentNull("refreshToken"))
    else Ok(crypto.bcryptHash(refreshToken.value, salt))
  }

  /** The parameters `ValidateAccessTokenAsync` validates against: signing key,
      issuer, audience and lifetime all checked, with no clock skew. */
  function ValidationParametersOf(config: Config): ValidationParameters
    requires config.jwtSecretKey.Some?
  {
    ValidationParameters(true, SigningKey(Ascii, config.jwtSecretKey.value),
      true, config.jwtIssuer, true, config.jwtAudience, true, true, 0)
  }

  /** `ValidateAccessTokenAsync`: false for a null or empty token and for any
      `SecurityTokenException`; other exceptions, including those of a missing
      or empty secret key, propagate. */
  function ValidateAccessToken(accessToken: Option<string>, config: Config, crypto: Crypto): (r: Result<bool>)
    ensures IsNullOrEmpty(accessToken) ==> r == Ok(false)
    ensures r == Ok(true) <==> (
      && !IsNullOrEmpty(accessToken)
      && !IsNullOrEmpty(config.jwtSecretKey)
      && crypto.validateToken(accessToken.value, ValidationParametersOf(config)) == Validated)
    ensures (
      && !IsNullOrEmpty(accessToken)
      && !IsNullOrEmpty(config.jwtSecretKey)
      && crypto.validateToken(accessToken.value, ValidationParametersOf(config)) == TokenRejected)
      ==> r == Ok(false)
    ensures !IsNullOrEmpty(accessToken) && config.jwtSecretKey.None? ==> r == Err(ArgumentNull("s"))
    ensures !IsNullOrEmpty(accessToken) && config.jwtSecretKey == Some("") ==> r == Err(EmptyKey)
    ensures r.Err? <==> (
      && !IsNullOrEmpty(accessToken)
      && (|| IsNullOrEmpty(config.jwtSecretKey)
          || crypto.validateToken(accessToken.value, ValidationParametersOf(config)) == OtherException))
  {
    if IsNullOrEmpty(accessToken) then Ok(false)
    else if config.jwtSecretKey.None? then Err(ArgumentNull("s"))
    else if config.jwtSecretKey.value == "" then Err(EmptyKey)
    else
      match crypto.validateToken(accessToken.value, ValidationParametersOf(config))
      case Validated => Ok(true)
      case TokenRejected => Ok(false)
      case OtherException => Err(ValidationFault)
  }

  /** The record after a refresh token is issued at `now`: the previous hash and
      expiration are replaced, every other field is kept. */
  function WithRefreshIssued(s: Snapshot, hash: string, now: int): (r: Snapshot)
    ensures r.id == s.id && r.email == s.email && r.passwordHash == s.passwordHash
      && r.passwordSalt == s.passwordSalt && r.refreshToken == s.refreshToken
    ensures r.refreshTokenHash == Some(hash)
    ensures forall t :: SessionOf(r, t) == if t <= now + RefreshTokenLifetime then ActiveSession else ExpiredSession
  {
    s.(refreshTokenHash := Some(hash), refreshTokenExpiration := Some(now + RefreshTokenLifetime))
  }

  /** `GenerateRefreshTokenAsync`: 32 random bytes in base 64 are the token; the
      user's hash and expiration are overwritten and the user is saved once.
      A null user fails before anything is touched. */
  method GenerateRefreshToken(user: User?, repo: UserRepository, crypto: Crypto, now: int, random: RandomBytes, salt: string)
    returns (r: Result<string>)
    modifies user, repo`calls
    ensures user == null ==> r == Err(ArgumentNull("user")) && repo.calls == old(repo.calls)
    ensures user != null ==> r == Ok(Base64.Encode(random)) && |r.value| == 44
    ensures user != null ==>
      user.Snap() == WithRefreshIssued(old(user.Snap()), crypto.bcryptHash(Base64.Encode(random), salt), now)
    ensures user != null ==> repo.calls == old(repo.calls) + [Updated(user, user.Snap())]
  {
    if user == null {
      r := Err(ArgumentNull("user"));
      return;
    }
    var token := Base64.Encode(random);
    var hashed := HashRefreshToken(Some(token), salt, crypto);
    assert |token| == 44;
    user.refreshTokenHash := Some(hashed.value);
    user.refreshTokenExpiration := Some(now + RefreshTokenLifetime);
    repo.UpdateUser(user);
    r := Ok(token);
  }

  /** Issuing twice leaves only the second token's hash and expiration: at most
      one refresh token is on record. */
  lemma LatestRefreshWins(s: Snapshot, h1: string, n1: int, h2: string, n2: int)
    ensures WithRefreshIssued(WithRefreshIssued(s, h1, n1), h2, n2) == WithRefreshIssued(s, h2, n2)
  {
  }

  /** The refresh token reads back as the random bytes it was made from, so
      different random bytes give different tokens. */
  lemma RefreshTokenDeterminesBytes(a: RandomBytes, b: RandomBytes)
    ensures Base64.Decode(Base64.Encode(a)) == Some(a)
    ensures Base64.Encode(a) == Base64.Encode(b) ==> a == b
  {
    Base64.DecodeEncode(a);
    if Base64.Encode(a) == Base64.Encode(b) {
      Base64.EncodeInjective(a, b);
    }
  }

  /** With a configured lifetime above ten seconds, the access token's
      not-before time lies after its issue time. */
  lemma AccessTokenNotValidAtIssue(user: User, config: Config, now: int)
    requires !IsNullOrEmpty(config.jwtSecretKey)
    requires AccessTokenMinutes(config) * SecondsPerMinute > NotBeforeLead
    ensures AccessTokenDescriptor(user, config, now).Ok?
    ensures AccessTokenDescriptor(user, config, now).value.notBefore.value > now
  {
  }
}

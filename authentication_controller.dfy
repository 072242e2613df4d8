/** The accept/reject decisions of the authentication controller's login and
    refresh actions, and the claim set of the login token. HTTP results are
    represented by the outcome values below. */
module Authentication {
  import opened Basics
  import opened Externals
  import opened Users
  import opened UserStore
  import Decimal
  import Base64
  import TokenServices
  import UserServices

  const InvalidCredentialsMessage: string := "Invalid username or password"
  const InvalidRefreshTokenMessage: string := "Invalid refresh token"

  /** The login token's claim type and lifetime (30 minutes, in seconds). */
  const UserIdClaimType: string := "userId"
  const LoginTokenLifetime: int := 30 * 60

  datatype LoginOutcome =
    | LoggedIn(token: string)         // 200 with the token
    | Unauthorized(message: string)   // 401
    | Faulted(error: Error)           // an exception, reported as a problem

  datatype RefreshOutcome =
    | BadRequest                      // the request failed model validation
    | RefreshRejected(message: string)
    | Refreshed(accessToken: string, refreshToken: string)

  /** The descriptor of `GenerateToken`: one `userId` claim, expiry in 30 minutes,
      no issuer, audience or not-before, signed with the UTF-8 bytes of "Jwt:Secret".
      A missing secret fails in its encoding, an empty one when the key is made. */
  function LoginTokenDescriptor(userId: Int32, config: Config, now: int): (r: Result<TokenDescriptor>)
    ensures r.Ok? <==> !IsNullOrEmpty(config.jwtSecret)
    ensures config.jwtSecret.None? ==> r == Err(ArgumentNull("s"))
    ensures config.jwtSecret == Some("") ==> r == Err(EmptyKey)
    ensures r.Ok? ==>
      && |r.value.subject| == 1
      && r.value.subject[0].claimType == UserIdClaimType
      && Decimal.ParseInt(r.value.subject[0].value) == Some(userId as int)
    ensures r.Ok? ==> r.value.expires == Some(now + LoginTokenLifetime) && r.value.expires.value > now
    ensures r.Ok? ==> r.value.issuer.None? && r.value.audience.None? && r.value.notBefore.None?
    ensures r.Ok? ==> r.value.key == SigningKey(Utf8, config.jwtSecret.value) && r.value.algorithm == HmacSha256Signature
  {
    if config.jwtSecret.None? then Err(ArgumentNull("s"))
    else if config.jwtSecret.value == "" then Err(EmptyKey)
    else
      Decimal.ParseIntToString(userId);
      Ok(TokenDescriptor(
        [Claim(UserIdClaimType, Decimal.IntToString(userId))],
        None, None,
        Some(now + LoginTokenLifetime),
        None,
        SigningKey(Utf8, config.jwtSecret.value),
        HmacSha256Signature))
  }

  /** `GenerateToken`: the descriptor, signed and serialised. */
  function GenerateToken(userId: Int32, config: Config, crypto: Crypto, now: int): (r: Result<string>)
    ensures r.Ok? <==> (
      && LoginTokenDescriptor(userId, config, now).Ok?
      && crypto.createToken(LoginTokenDescriptor(userId, config, now).value).Some?)
    ensures r.Ok? ==> crypto.createToken(LoginTokenDescriptor(userId, config, now).value) == Some(r.value)
  {
    match LoginTokenDescriptor(userId, config, now)
    case Err(e) => Err(e)
    case Ok(d) =>
      match crypto.createToken(d)
      case None => Err(TokenCreationFailed)
      case Some(token) => Ok(token)
  }

  /** The decision of `Login` once the user is looked up: a missing user and a
      wrong password get the same answer; a token is issued only for an existing
      user whose password verifies. */
  function LoginDecision(user: User?, password: string, config: Config, crypto: Crypto, now: int): (d: LoginOutcome)
    reads user
    ensures user == null ==> d == Unauthorized(InvalidCredentialsMessage)
    ensures user != null && crypto.bcryptVerify(password, user.passwordHash) == Some(false) ==>
      d == Unauthorized(InvalidCredentialsMessage)
    ensures d.Unauthorized? ==> d.message == InvalidCredentialsMessage
    ensures d.LoggedIn? <==> (
      && user != null
      && crypto.bcryptVerify(password, user.passwordHash) == Some(true)
      && GenerateToken(user.id, config, crypto, now).Ok?)
    ensures d.LoggedIn? ==> d.token == GenerateToken(user.id, config, crypto, now).value
  {
    if user == null then Unauthorized(InvalidCredentialsMessage)
    else
      match crypto.bcryptVerify(password, user.passwordHash)
      case None => Faulted(VerifyFault)
      case Some(false) => Unauthorized(InvalidCredentialsMessage)
      case Some(true) =>
        match GenerateToken(user.id, config, crypto, now)
        case Err(e) => Faulted(e)
        case Ok(token) => LoggedIn(token)
  }

  /** An unknown email and a wrong password cannot be told apart. */
  lemma LoginRejectionsAlike(missing: User?, known: User, email: string, password: string, config: Config, crypto: Crypto, now: int)
    requires missing == null
    requires crypto.bcryptVerify(password, known.passwordHash) == Some(false)
    ensures LoginDecision(missing, password, config, crypto, now) == LoginDecision(known, password, config, crypto, now)
  {
  }

  /** `Login`: looks the user up by email, then decides. */
  method Login(email: string, password: string, repo: UserRepository, config: Config, crypto: Crypto, now: int)
    returns (d: LoginOutcome)
    modifies repo`calls
    ensures d == LoginDecision(Find(repo.users, ByEmail(email)), password, config, crypto, now)
    ensures repo.calls == old(repo.calls) + [Looked(ByEmail(email))]
  {
    var user := UserServices.GetUserByEmail(repo, email);
    d := LoginDecision(user, password, config, crypto, now);
  }

  /** `RefreshToken`: an invalid request is refused before any lookup; otherwise
      the user is looked up by the token and refused, since the refresh-token
      check never accepts. No token is generated and no user is changed. */
  method RefreshToken(requestValid: bool, refreshToken: string, repo: UserRepository, config: Config)
    returns (o: RefreshOutcome)
    modifies repo`calls
    ensures !requestValid ==> o == BadRequest && repo.calls == old(repo.calls)
    ensures requestValid ==>
      && o == RefreshRejected(InvalidRefreshTokenMessage)
      && repo.calls == old(repo.calls) + [Looked(ByRefreshToken(refreshToken, UserServices.UseHashedRefreshToken(config)))]
  {
    if !requestValid {
      o := BadRequest;
      return;
    }
    var user := UserServices.GetUserByRefreshToken(repo, config, refreshToken);
    if user != null && user.IsRefreshTokenValid(Some(refreshToken)) {
      // The rotation of IssueRotatedTokens would follow here; this branch is never taken.
      assert false;
    }
    o := RefreshRejected(InvalidRefreshTokenMessage);
  }

  /** The rotation `RefreshToken` performs after a successful check: a new access
      token, a new refresh token saved by the token service, then the plaintext
      token stored on the user and saved again; the response carries that token.
      The two token calls read the clock separately. */
  method IssueRotatedTokens(user: User, repo: UserRepository, config: Config, crypto: Crypto,
                            accessNow: int, refreshNow: int, random: TokenServices.RandomBytes, salt: string)
    returns (r: Result<RefreshOutcome>)
    modifies user, repo`calls
    ensures TokenServices.GenerateAccessToken(user, config, crypto, accessNow).Err? ==>
      && r == Err(TokenServices.GenerateAccessToken(user, config, crypto, accessNow).error)
      && user.Snap() == old(user.Snap())
      && repo.calls == old(repo.calls)
    ensures TokenServices.GenerateAccessToken(user, config, crypto, accessNow).Ok? ==>
      var token := Base64.Encode(random);
      var saved := TokenServices.WithRefreshIssued(old(user.Snap()), crypto.bcryptHash(token, salt), refreshNow);
      && r == Ok(Refreshed(TokenServices.GenerateAccessToken(user, config, crypto, accessNow).value, token))
      && user.Snap() == saved.(refreshToken := Some(token))
      && user.refreshToken == Some(r.value.refreshToken)
      && repo.calls == old(repo.calls) + [Updated(user, saved), Updated(user, user.Snap())]
  {
    var accessToken := TokenServices.GenerateAccessToken(user, config, crypto, accessNow);
    if accessToken.Err? {
      r := Err(accessToken.error);
      return;
    }
    var refreshToken := TokenServices.GenerateRefreshToken(user, repo, crypto, refreshNow, random, salt);
    user.refreshToken := Some(refreshToken.value);
    UserServices.UpdateUser(repo, user);
    r := Ok(Refreshed(accessToken.value, refreshToken.value));
  }
}

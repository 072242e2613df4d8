/** The user service: pass-through lookups, account creation, and its own
    refresh-token method over the token service. */
module UserServices {
  import opened Basics
  import opened Externals
  import opened Users
  import opened UserStore
  import Base64
  import TokenServices

  /** What account creation returns: the user object and the two tokens. */
  datatype UserWithTokens = UserWithTokens(user: User, accessToken: string, refreshToken: string)

  method GetUserById(repo: UserRepository, id: Int32) returns (u: User?)
    modifies repo`calls
    ensures u == Find(repo.users, ById(id))
    ensures repo.calls == old(repo.calls) + [Looked(ById(id))]
  {
    u := repo.GetUser(ById(id));
  }

  method GetUserByEmail(repo: UserRepository, email: string) returns (u: User?)
    modifies repo`calls
    ensures u == Find(repo.users, ByEmail(email))
    ensures repo.calls == old(repo.calls) + [Looked(ByEmail(email))]
  {
    u := repo.GetUser(ByEmail(email));
  }

  /** The configured `UseHashedRefreshToken` flag; `GetValue<bool>` of a missing value is false. */
  function UseHashedRefreshToken(config: Config): (flag: bool)
    ensures flag <==> config.useHashedRefreshToken == Some(true)
  {
    config.useHashedRefreshToken.GetOr(false)
  }

  /** Forwards the token and the configured flag unchanged. */
  method GetUserByRefreshToken(repo: UserRepository, config: Config, refreshToken: string) returns (u: User?)
    modifies repo`calls
    ensures u == Find(repo.users, ByRefreshToken(refreshToken, UseHashedRefreshToken(config)))
    ensures repo.calls == old(repo.calls) + [Looked(ByRefreshToken(refreshToken, UseHashedRefreshToken(config)))]
  {
    u := repo.GetUser(ByRefreshToken(refreshToken, UseHashedRefreshToken(config)));
  }

  method UpdateUser(repo: UserRepository, user: User)
    modifies repo`calls
    ensures repo.calls == old(repo.calls) + [Updated(user, user.Snap())]
  {
    repo.UpdateUser(user);
  }

  /** The record once its salt and password hash are set: the hash is BCrypt of
      the password under that salt, and no other field changes. */
  function Registered(s: Snapshot, password: string, salt: string, crypto: Crypto): (r: Snapshot)
    ensures r.passwordSalt == Some(salt)
    ensures r.passwordHash == Some(crypto.bcryptHash(password, salt))
    ensures r.(passwordHash := s.passwordHash, passwordSalt := s.passwordSalt) == s
  {
    s.(passwordSalt := Some(salt), passwordHash := Some(crypto.bcryptHash(password, salt)))
  }

  /** `CreateUserAsync`: null for a null user, with nothing called. Otherwise the
      salt and hash are set, the user is created (and receives the key the
      database assigns), then the access token and then the refresh token are
      generated, each once, each at its own reading of the clock. A failure of
      the access token propagates after the user was created. */
  method CreateUser(user: User?, password: string, repo: UserRepository, config: Config, crypto: Crypto,
                    generatedSalt: string, assignedId: Int32, accessNow: int, refreshNow: int,
                    random: TokenServices.RandomBytes, tokenSalt: string)
    returns (r: Result<Option<UserWithTokens>>)
    modifies user, repo
    ensures user == null ==> r == Ok(None) && repo.calls == old(repo.calls) && repo.users == old(repo.users)
    ensures user != null ==> repo.users == old(repo.users) + [user] && user.id == assignedId
    ensures user != null && TokenServices.GenerateAccessToken(user, config, crypto, accessNow).Err? ==>
      var registered := Registered(old(user.Snap()), password, generatedSalt, crypto);
      && r == Err(TokenServices.GenerateAccessToken(user, config, crypto, accessNow).error)
      && user.Snap() == registered.(id := assignedId)
      && repo.calls == old(repo.calls) + [Created(user, registered)]
    ensures user != null && TokenServices.GenerateAccessToken(user, config, crypto, accessNow).Ok? ==>
      var registered := Registered(old(user.Snap()), password, generatedSalt, crypto);
      var token := Base64.Encode(random);
      && r == Ok(Some(UserWithTokens(user, TokenServices.GenerateAccessToken(user, config, crypto, accessNow).value, token)))
      && user.Snap() == TokenServices.WithRefreshIssued(registered.(id := assignedId), crypto.bcryptHash(token, tokenSalt), refreshNow)
      && repo.calls == old(repo.calls) + [Created(user, registered), Updated(user, user.Snap())]
  {
    if user == null {
      r := Ok(None);
      return;
    }
    user.passwordSalt := Some(generatedSalt);
    user.passwordHash := Some(crypto.bcryptHash(password, generatedSalt));
    repo.CreateUser(user, assignedId);
    var accessToken := TokenServices.GenerateAccessToken(user, config, crypto, accessNow);
    if accessToken.Err? {
      r := Err(accessToken.error);
      return;
    }
    var refreshToken := TokenServices.GenerateRefreshToken(user, repo, crypto, refreshNow, random, tokenSalt);
    r := Ok(Some(UserWithTokens(user, accessToken.value, refreshToken.value)));
  }

  /** `GenerateRefreshTokenAsync` of the user service: after the token service
      has saved the token's hash, the in-memory record's hash field is
      overwritten with the plaintext token itself. */
  method GenerateRefreshToken(user: User?, repo: UserRepository, crypto: Crypto, now: int,
                              random: TokenServices.RandomBytes, salt: string)
    returns (r: Result<string>)
    modifies user, repo`calls
    ensures user == null ==> r == Err(ArgumentNull("user")) && repo.calls == old(repo.calls)
    ensures user != null ==>
      var token := Base64.Encode(random);
      var saved := TokenServices.WithRefreshIssued(old(user.Snap()), crypto.bcryptHash(token, salt), now);
      && r == Ok(token)
      && repo.calls == old(repo.calls) + [Updated(user, saved)]
      && user.Snap() == saved.(refreshTokenHash := Some(token))
  {
    r := TokenServices.GenerateRefreshToken(user, repo, crypto, now, random, salt);
    if r.Ok? {
      user.refreshTokenHash := Some(r.value);
    }
  }
}

/** The `User` record, on which the whole credential and token lifecycle is kept. */
module Users {
  import opened Basics
  import opened Externals

  /** The values of all fields of a user at one moment. */
  datatype Snapshot = Snapshot(
    id: Int32,
    email: Option<string>,
    passwordHash: Option<string>,
    passwordSalt: Option<string>,
    refreshToken: Option<string>,
    refreshTokenHash: Option<string>,
    refreshTokenExpiration: Option<int>)

  /** The state of a freshly constructed user: every field at its default. */
  const Blank: Snapshot := Snapshot(0, None, None, None, None, None, None)

  /** The session a user's stored fields describe at a given time. */
  datatype SessionState = NoSession | ActiveSession | ExpiredSession

  /** No expiration means no refresh token was issued; otherwise the session
      lasts up to and including the expiration time. */
  function SessionOf(s: Snapshot, now: int): (st: SessionState)
    ensures st == NoSession <==> s.refreshTokenExpiration.None?
    ensures st == ActiveSession <==> s.refreshTokenExpiration.Some? && now <= s.refreshTokenExpiration.value
  {
    match s.refreshTokenExpiration
    case None => NoSession
    case Some(e) => if now <= e then ActiveSession else ExpiredSession
  }

  class User {
    var id: Int32
    var email: Option<string>
    var passwordHash: Option<string>
    var passwordSalt: Option<string>
    var refreshToken: Option<string>
    var refreshTokenHash: Option<string>
    var refreshTokenExpiration: Option<int>

    function Snap(): Snapshot
      reads this
    {
      Snapshot(id, email, passwordHash, passwordSalt, refreshToken, refreshTokenHash, refreshTokenExpiration)
    }

    function Session(now: int): SessionState
      reads this
    {
      SessionOf(Snap(), now)
    }

    /** `new User()`. */
    constructor ()
      ensures Snap() == Blank
      ensures forall t :: Session(t) == NoSession
    {
      id := 0;
      email := None;
      passwordHash := None;
      passwordSalt := None;
      refreshToken := None;
      refreshTokenHash := None;
      refreshTokenExpiration := None;
    }

    /** `new User(email, password)`: the password is hashed by BCrypt with the salt
        BCrypt generates for it; the salt field itself is left unset. */
    constructor WithPassword(email: Option<string>, password: string, generatedSalt: string, crypto: Crypto)
      ensures Snap() == Blank.(email := email, passwordHash := Some(crypto.bcryptHash(password, generatedSalt)))
      ensures forall t :: Session(t) == NoSession
    {
      id := 0;
      this.email := email;
      passwordHash := Some(crypto.bcryptHash(password, generatedSalt));
      passwordSalt := None;
      refreshToken := None;
      refreshTokenHash := None;
      refreshTokenExpiration := None;
    }

    /** The refresh-token check. Its comparison of the token against the stored
        hash was never written: after the null-or-empty guard it rejects as well,
        so no token is ever accepted. */
    function IsRefreshTokenValid(refreshToken: Option<string>): (valid: bool)
      reads this
      ensures IsNullOrEmpty(refreshTokenHash) ==> !valid
      ensures IsNullOrEmpty(refreshToken) ==> !valid
      ensures !valid
    {
      if IsNullOrEmpty(refreshTokenHash) || IsNullOrEmpty(refreshToken) then false
      else false
    }

    /** Sets the token and its hash together; nothing else changes. */
    method SetRefreshToken(refreshToken: Option<string>, refreshTokenHash: Option<string>)
      modifies this
      ensures Snap() == old(Snap()).(refreshToken := refreshToken, refreshTokenHash := refreshTokenHash)
      ensures forall t :: Session(t) == old(Session(t))
    {
      this.refreshToken := refreshToken;
      this.refreshTokenHash := refreshTokenHash;
    }
  }
}

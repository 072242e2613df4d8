# KitchenHero authentication core in Dafny

This project models the credential and token lifecycle of KitchenHero's
authentication API, all of it kept on the `User` record:

- the token service builds the access-token claim set, mints a refresh token,
  overwrites the user's refresh-token hash and expiration, and guards hashing
  and validation against null or empty input;
- the user record's refresh-token check and setter;
- the user service's account creation and its pass-through lookups;
- the accept/reject decisions of the controller's login and refresh actions.

BCrypt, the JWT handler, the random source, the clock and the configuration
are inputs. The foreign primitives are function-valued fields of
`Externals.Crypto`. The clock is an integer `now`, in seconds. The 32 random
bytes are a `RandomBytes` value. The configuration is an `Externals.Config`
record. The repository (`IUserRepository`) is an abstract store: a sequence of
`User` objects plus a log of every call made on it, with the user's field
values at call time. `Convert.ToBase64String` (RFC 4648, section 4) and
`int.ToString()` are modelled concretely, each with a decoder, so the model
proves what the tokens carry: the refresh token is 44 characters that decode
back to the random bytes, and the identity claim reads back as the user's id.

The model follows the code as written, including three behaviours a design
would not choose:

- The access token's not-before time is its expiry minus ten seconds, not the
  issue time minus a skew. `TokenServices.AccessTokenNotValidAtIssue` proves
  that, for any lifetime above ten seconds, the token is not yet valid when it
  is issued.
- `User.IsRefreshTokenValid` returns false on every path. So the controller's
  refresh action always answers "Invalid refresh token" after its lookup, and
  never generates or saves a token. The rotation that would follow
  (AuthenticationController.cs lines 63-69) is modelled on its own by
  `Authentication.IssueRotatedTokens`. In `Authentication.RefreshToken` the
  branch that would call it is proved unreachable.
- The user service's `GenerateRefreshTokenAsync` overwrites the in-memory
  `RefreshTokenHash` with the plaintext token. The record the token service
  saved holds the BCrypt hash.

The code departs from a conventional token-service design in these ways:

- Login returns one token, not a user with two tokens.
- Registration does not check for a duplicate email.
- Refresh lookups pass the configured `UseHashedRefreshToken` flag to the
  repository. They do not look up by hash.
- Refresh tokens are never accepted, so there is no rotation on refresh.
- There is no revocation operation.
- The login token reads "Jwt:Secret"; the token service reads "Jwt:SecretKey".

`Users.SessionOf` is vocabulary for the contracts, not an operation of the
code: it names what the stored refresh-token expiration means at a time `now`
(none, active up to and including the expiration, or expired). The constructors
and `TokenServices.WithRefreshIssued` state their effect on the record in these
terms.

Modules, one per file: `Basics` (Option, Result, the exceptions, `Int32`,
`IsNullOrEmpty`); `Decimal`; `Base64`; `Externals`; `Users`; `UserStore`;
`TokenServices`; `UserServices`; `Authentication`.

## Model

| member | source | states |
|---|---|---|
| `Decimal.ParseIntToString` | Auth/AuthAPI/Models/TokenService.cs:45 | the decimal text of an id parses back to that id, so distinct ids give distinct claim values |
| `Base64.Encode` | Auth/AuthAPI/Models/TokenService.cs:79 | the encoding of n bytes has 4 * ceil(n / 3) characters, so 32 bytes give 44 |
| `Base64.DecodeEncode` | Auth/AuthAPI/Models/TokenService.cs:78-79 | decoding the encoding of any byte string returns that byte string |
| `Base64.EncodeInjective` | Auth/AuthAPI/Models/TokenService.cs:79 | different byte strings have different encodings |
| `Users.User.constructor` | Shared/Data.Models/Models/User.cs:20 | every field has its default (id 0, all strings and the expiration null), so there is no session |
| `Users.User.WithPassword` | Shared/Data.Models/Models/User.cs:23-28 | Email is the given email and PasswordHash is BCrypt of the password; the salt field stays null, all other fields keep their defaults, and there is no session |
| `Users.User.IsRefreshTokenValid` | Shared/Data.Models/Models/User.cs:29-44 | false when the stored hash is null or empty, false when the given token is null or empty, and false on every other input and state; it reads the user and changes nothing |
| `Users.User.SetRefreshToken` | Shared/Data.Models/Models/User.cs:46-50 | RefreshToken and RefreshTokenHash take the given values; every other field, and so the session, is unchanged |
| `UserStore.Find` | Shared/Data.Access/Repositories/IUserRepository.cs:10-12 | the result is null exactly when no stored record answers the lookup; otherwise it is the first stored record that answers it |
| `UserStore.UserRepository.GetUser` | Shared/Data.Access/Repositories/IUserRepository.cs:10-12 | returns the first matching record or null, and logs exactly one lookup with its arguments |
| `UserStore.UserRepository.CreateUser` | Shared/Data.Access/Repositories/UserRepository.cs:82-96 | appends the user to the store and logs one create call with the state the caller handed in; saving writes the key the database generates into the user's id, and changes no other field |
| `UserStore.UserRepository.UpdateUser` | Shared/Data.Access/Repositories/IUserRepository.cs:13 | logs one update call with the user's state at that moment and changes nothing else |
| `TokenServices.AccessTokenDescriptor` | Auth/AuthAPI/Models/TokenService.cs:25-53 | a null user fails with an argument-null error, and so does a missing secret key; an empty secret key fails with the argument error of a zero-length key; a descriptor exists exactly when the user is non-null and the key non-empty, and then: exactly one NameIdentifier claim, which reads back as the user's id; issuer and audience unchanged from the configuration; expiry is now plus the configured minutes; not-before is exactly 10 s before expiry, hence earlier; the expiry is after now when the lifetime is positive; HS256 with the ASCII secret key |
| `TokenServices.GenerateAccessToken` | Auth/AuthAPI/Models/TokenService.cs:25-66 | a null user fails with an argument-null error and produces no token; a token exists exactly when the descriptor exists and the handler can sign it, and it is the handler's serialisation of that descriptor; a handler failure propagates |
| `TokenServices.HashRefreshToken` | Auth/AuthAPI/Models/TokenService.cs:105-115 | fails with an argument-null error exactly when the token is null or empty; otherwise BCrypt of the token under the fresh salt |
| `TokenServices.ValidateAccessToken` | Auth/AuthAPI/Models/TokenService.cs:117-149 | false for a null or empty token; true exactly when the token is non-empty, a non-empty key is configured and the handler validates it; false when the handler rejects it; other handler exceptions propagate, and so do the argument-null error of a missing key and the argument error of an empty one |
| `TokenServices.WithRefreshIssued` | Auth/AuthAPI/Models/TokenService.cs:82-88 | the new hash replaces any previous one; id, email, password hash, salt and stored token are kept; the session is active until 30 days after issue and expired afterwards |
| `TokenServices.GenerateRefreshToken` | Auth/AuthAPI/Models/TokenService.cs:69-102 | a null user fails with an argument-null error and the store is not called; otherwise the token is the base-64 text of the 32 random bytes, 44 characters long; the stored hash becomes BCrypt of that token; the expiration becomes now plus 30 days; all other fields are unchanged; exactly one update call is made, with that state |
| `TokenServices.LatestRefreshWins` | Auth/AuthAPI/Models/TokenService.cs:85-88 | issuing twice leaves only the second hash and expiration: at most one refresh token is on record |
| `TokenServices.RefreshTokenDeterminesBytes` | Auth/AuthAPI/Models/TokenService.cs:78-79 | the refresh token decodes to its random bytes, so different bytes give different tokens |
| `TokenServices.AccessTokenNotValidAtIssue` | Auth/AuthAPI/Models/TokenService.cs:39-40 | with a non-empty key and a lifetime above 10 s the not-before time lies after the issue time |
| `UserServices.GetUserById` | Auth/AuthAPI/Models/UserService.cs:23-26 | returns exactly the repository's answer to the id lookup, null included, after one lookup |
| `UserServices.GetUserByEmail` | Auth/AuthAPI/Models/UserService.cs:28-31 | returns exactly the repository's answer to the email lookup, null included, after one lookup |
| `UserServices.UseHashedRefreshToken` | Auth/AuthAPI/Models/UserService.cs:35 | the flag is true only when the configuration says true; a missing value reads as false |
| `UserServices.GetUserByRefreshToken` | Auth/AuthAPI/Models/UserService.cs:33-37 | forwards the token and the configured flag unchanged and returns the repository's answer |
| `UserServices.UpdateUser` | Auth/AuthAPI/Models/UserService.cs:39-42 | forwards one update call with the user's current state |
| `UserServices.Registered` | Auth/AuthAPI/Models/UserService.cs:48-49 | the salt is the new salt, the hash is BCrypt of the password under that salt, and no other field changes |
| `UserServices.CreateUser` | Auth/AuthAPI/Models/UserService.cs:44-63 | a null user gives null and nothing is called. Otherwise the user is stored with salt and hash already set, and takes the id the store assigns. Then the access token (for that id) and then the refresh token are generated, each at its own clock reading. The calls log holds exactly the create and then the one update. The result holds the same user object and exactly the two tokens. If the access token fails, the error propagates after the create, and no refresh token is made |
| `UserServices.GenerateRefreshToken` | Auth/AuthAPI/Models/UserService.cs:70-79 | the token service's update is saved with the BCrypt hash; afterwards the in-memory RefreshTokenHash equals the returned plaintext token; a null user fails as in the token service |
| `Authentication.LoginTokenDescriptor` | Auth/AuthAPI/Controllers/AuthenticationController.cs:76-84 | a missing "Jwt:Secret" fails with an argument-null error and an empty one with the argument error of a zero-length key; otherwise exactly one `userId` claim, which reads back as the id; expiry 30 minutes after now; no issuer, audience or not-before; HS256 with the UTF-8 secret |
| `Authentication.GenerateToken` | Auth/AuthAPI/Controllers/AuthenticationController.cs:76-89 | a token exists exactly when the descriptor exists and the handler can sign it, and it is that descriptor's serialisation |
| `Authentication.LoginDecision` | Auth/AuthAPI/Controllers/AuthenticationController.cs:32-39 | a missing user and a failed verification both get "Invalid username or password"; a token is issued exactly when the user exists, the password verifies and the token can be made, and it is the login token for the user's id |
| `Authentication.LoginRejectionsAlike` | Auth/AuthAPI/Controllers/AuthenticationController.cs:33-36 | a missing user and a wrong password give equal outcomes |
| `Authentication.Login` | Auth/AuthAPI/Controllers/AuthenticationController.cs:28-45 | one lookup by email, then the decision above on its answer |
| `Authentication.RefreshToken` | Auth/AuthAPI/Controllers/AuthenticationController.cs:49-70 | an invalid request is refused with no lookup. Otherwise exactly one lookup is made, with the token and the configured flag, and the answer is "Invalid refresh token". No user changes and no update is made, since the refresh-token check never accepts |
| `Authentication.IssueRotatedTokens` | Auth/AuthAPI/Controllers/AuthenticationController.cs:63-69 | a new access token and a new refresh token are made, each at its own clock reading, and the token service saves the refresh token's hash. Then RefreshToken is set to that token and saved again. The response carries the same token. An access-token failure propagates with nothing changed |

## Left out

- BCrypt (salt generation, hashing, verification): the salts are parameters and hashing and verification are inputs; nothing is assumed about one-wayness or salt uniqueness.
- The JWT handler: signing and serialisation, and validation of signature, issuer, audience and lifetime, are inputs (`createToken`, `validateToken`). The defaults the handler adds itself (issued-at, a default not-before) are not modelled.
- Key bytes: the secret is kept as text with its encoding (ASCII or UTF-8), not converted to bytes.
- Configuration parsing: `Convert.ToInt32` of malformed or out-of-range text throws, and so does `GetValue<bool>("UseHashedRefreshToken")` of text that is not a boolean. Only a missing value and a well-formed value are modelled: a missing minutes value reads as 0 and a missing flag as false.
- Date ranges: `DateTime.AddMinutes` and `AddDays` beyond the representable range throw; times here are unbounded integers.
- Clock reads: each read of `DateTime.UtcNow` is an integer parameter. `UserServices.CreateUser` and `Authentication.IssueRotatedTokens` take one for the access token and one for the refresh token. Nothing relates these readings, so a clock that runs backwards is not excluded.
- Logging, `async`/`Task`, and the mapping of exceptions to HTTP results: exceptions are `Err` values, and results are outcome values.
- The repository implementation over Entity Framework, its exceptions (a duplicate key on create, a conflicting update), deleting and listing users: the store always accepts creates and updates. The code looks every user up with `FindAsync`, by primary key, and both branches of the hashed-token flag are identical. The model instead picks the first record whose id, email or stored token matches, and lets the flag choose which token field is compared.
- Null strings where the core does not test for them: login and refresh request fields and passwords are non-null strings (BCrypt's behaviour on null is foreign).
- The dependency-injection constructors of the services and controller, and their configuration lookups: the services are methods that take the store, the configuration and the primitives.
- Decimal.IntToString: `Int32.ToString()` takes its negative sign from the current culture, and some cultures use U+2212. The model always writes the ASCII hyphen-minus of the invariant culture, so for a negative id under such a culture the claim text differs.
- `Authentication.RefreshToken`: it does not call `IssueRotatedTokens`, because the refresh-token check never accepts and the call after it cannot be reached.

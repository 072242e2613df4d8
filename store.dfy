/** The user repository (`IUserRepository`), kept abstract: a table of user
    records and the log of the calls made on it. Its implementation over a
    database is not part of this model. */
module UserStore {
  import opened Basics
  import opened Users

  /** The three lookups of the repository. */
  datatype Query =
    | ById(id: int)
    | ByEmail(email: string)
    | ByRefreshToken(token: string, useHashedRefreshToken: bool)

  /** One call made on the repository, with the user's field values at call time. */
  datatype Call =
    | Created(user: User, state: Snapshot)
    | Updated(user: User, state: Snapshot)
    | Looked(query: Query)

  /** Whether a record answers a lookup: by its id, its email, or its stored
     refresh token (the hash when the hashed lookup is asked for). */
  predicate Matches(u: User, q: Query)
    reads u
  {
    match q
    case ById(id) => u.id == id
    case ByEmail(e) => u.email == Some(e)
    case ByRefreshToken(t, hashed) =>
      if hashed then u.refreshTokenHash == Some(t) else u.refreshToken == Some(t)
  }

  /** The first record that answers the lookup, or null when none does. */
  function Find(users: seq<User>, q: Query): (r: User?)
    reads set u | u in users
    ensures r != null ==> r in users && Matches(r, q)
    ensures r == null ==> forall i :: 0 <= i < |users| ==> !Matches(users[i], q)
    ensures r != null ==> exists i :: 0 <= i < |users| && users[i] == r && forall j :: 0 <= j < i ==> !Matches(users[j], q)
    decreases |users|
  {
    if |users| == 0 then null
    else if Matches(users[0], q) then users[0]
    else Find(users[1..], q)
  }

  class UserRepository {
    var users: seq<User>
    var calls: seq<Call>

    constructor (initial: seq<User>)
      ensures users == initial && calls == []
    {
      users := initial;
      calls := [];
    }

    method GetUser(q: Query) returns (u: User?)
      modifies this`calls
      ensures u == Find(users, q)
      ensures calls == old(calls) + [Looked(q)]
    {
      u := Find(users, q);
      calls := calls + [Looked(q)];
    }

    /** Adds the user and saves. The database generates the key and writes it
        back into `Id`; `assignedId` is the key it generates. The call is logged
        with the state the caller handed in. */
    method CreateUser(u: User, assignedId: Int32)
      modifies this, u
      ensures users == old(users) + [u]
      ensures calls == old(calls) + [Created(u, old(u.Snap()))]
      ensures u.Snap() == old(u.Snap()).(id := assignedId)
    {
      calls := calls + [Created(u, u.Snap())];
      users := users + [u];
      u.id := assignedId;
    }

    method UpdateUser(u: User)
      modifies this`calls
      ensures calls == old(calls) + [Updated(u, u.Snap())]
    {
      calls := calls + [Updated(u, u.Snap())];
    }
  }
}

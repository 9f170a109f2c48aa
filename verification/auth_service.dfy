/**
 The session manager of `src/auth/auth.service.ts`: signup, login, logout and
 refresh as pure transitions over an in-memory user table. Every transition
 returns the thrown error or the result together with the table afterwards.
 */
module AuthService {
  import opened Common
  import opened Crypto

  type UserId = string

  /** A row of the `User` table. */
  datatype User = User(email: string, password: Digest, refreshTokenHash: Option<Digest>)

  type Users = map<UserId, User>

  /** The access/refresh pair every successful signup, login and refresh returns. */
  datatype Tokens = Tokens(accessToken: string, refreshToken: string)

  /**
   The errors the service raises. `Internal` stands for an exception the
   service does not classify (the framework answers it with status 500).
   */
  datatype AuthError = Conflict(message: string) | Unauthorized(message: string) | Internal

  const UserExists: string := "User already exists"
  const InvalidCredentials: string := "Invalid email or password"
  const InvalidRefreshToken: string := "Invalid refresh token"

  /** The nondeterministic inputs of one call: the issue time and fresh bcrypt salts. */
  datatype Entropy = Entropy(now: nat, passwordSalt: nat, tokenSalt: nat)

  /** A transition: what the call returned or threw, and the user table afterwards. */
  datatype Step<T> = Step(result: Result<T, AuthError>, users: Users)

  /** The unique index on `email`. */
  predicate UniqueEmails(users: Users)
  {
    forall a, b :: a in users && b in users && users[a].email == users[b].email ==> a == b
  }

  /** `findUnique({where: {email}})`. */
  function FindByEmail(users: Users, email: string): (r: Option<UserId>)
    requires UniqueEmails(users)
    ensures r.Some? ==> r.value in users && users[r.value].email == email
    ensures r.None? ==> forall id :: id in users ==> users[id].email != email
  {
    if exists id :: id in users && users[id].email == email then
      var id :| id in users && users[id].email == email;
      Some(id)
    else
      None
  }

  /**
   `getTokens`: an access token and a refresh token over the same claims,
   signed under the two token classes.
   */
  function GetTokens(p: Provider, userId: UserId, email: string, now: nat): (r: Tokens)
    ensures SignLaw(p) ==> p.decode(r.accessToken, AccessToken) == Some(Claims(userId, email))
    ensures SignLaw(p) ==> p.decode(r.refreshToken, RefreshToken) == Some(Claims(userId, email))
  {
    var claims := Claims(userId, email);
    Tokens(p.sign(claims, AccessToken, now), p.sign(claims, RefreshToken, now))
  }

  /** The transition of one user's stored refresh hash; nothing else in the table moves. */
  ghost predicate OnlyHashChanged(before: Users, after: Users, id: UserId)
  {
    && after.Keys == before.Keys
    && id in before
    && after[id].email == before[id].email
    && after[id].password == before[id].password
    && forall other :: other in before && other != id ==> after[other] == before[other]
  }

  /** `updateRefreshTokenHash`: store a new digest of the refresh token on the user. */
  function UpdateRefreshTokenHash(p: Provider, users: Users, userId: UserId, token: string, salt: nat): (r: Users)
    requires userId in users
    ensures OnlyHashChanged(users, r, userId)
    ensures r[userId].refreshTokenHash.Some?
    ensures HashLaw(p) ==> p.compare(token, r[userId].refreshTokenHash.value)
    ensures UniqueEmails(users) ==> UniqueEmails(r)
  {
    users[userId := users[userId].(refreshTokenHash := Some(p.hash(token, salt)))]
  }

  /** A user who holds a valid session for `t`: its stored hash accepts the refresh token. */
  predicate Holds(p: Provider, users: Users, id: UserId, t: Tokens)
  {
    id in users && users[id].refreshTokenHash.Some? && p.compare(t.refreshToken, users[id].refreshTokenHash.value)
  }

  /** `signup`: a new email gets a new user and a session; a taken one is a Conflict. */
  function Signup(p: Provider, users: Users, email: string, password: string, newId: UserId, e: Entropy): (r: Step<Tokens>)
    requires UniqueEmails(users)
    requires newId !in users
    ensures UniqueEmails(r.users)
    ensures r.result.Err? <==> exists id :: id in users && users[id].email == email
    ensures r.result.Err? ==> r.result.error == Conflict(UserExists) && r.users == users
    ensures r.result.Ok? ==>
      && r.users.Keys == users.Keys + {newId}
      && (forall id :: id in users ==> r.users[id] == users[id])
      && r.users[newId].email == email
      && r.users[newId].password == p.hash(password, e.passwordSalt)
      && r.users[newId].refreshTokenHash.Some?
    ensures r.result.Ok? && HashLaw(p) ==>
      && p.compare(password, r.users[newId].password)
      && Holds(p, r.users, newId, r.result.value)
    ensures r.result.Ok? && SignLaw(p) ==>
      && p.decode(r.result.value.accessToken, AccessToken) == Some(Claims(newId, email))
      && p.decode(r.result.value.refreshToken, RefreshToken) == Some(Claims(newId, email))
  {
    var hashedPassword := p.hash(password, e.passwordSalt);
    if FindByEmail(users, email).Some? then
      Step(Err(Conflict(UserExists)), users)
    else
      var created := users[newId := User(email, hashedPassword, None)];
      var tokens := GetTokens(p, newId, email, e.now);
      Step(Ok(tokens), UpdateRefreshTokenHash(p, created, newId, tokens.refreshToken, e.tokenSalt))
  }

  /**
   `login`: one Unauthorized error, with one message, whether the email is
   unknown or the password wrong; on success the user's refresh hash rotates.
   */
  function Login(p: Provider, users: Users, email: string, password: string, e: Entropy): (r: Step<Tokens>)
    requires UniqueEmails(users)
    ensures UniqueEmails(r.users)
    ensures r.result.Ok? <==> exists id :: id in users && users[id].email == email && p.compare(password, users[id].password)
    ensures r.result.Err? ==> r.result.error == Unauthorized(InvalidCredentials) && r.users == users
    ensures r.result.Ok? ==>
      exists id :: id in users && users[id].email == email
        && OnlyHashChanged(users, r.users, id)
        && (HashLaw(p) ==> Holds(p, r.users, id, r.result.value))
        && (SignLaw(p) ==> p.decode(r.result.value.accessToken, AccessToken) == Some(Claims(id, email)))
        && (SignLaw(p) ==> p.decode(r.result.value.refreshToken, RefreshToken) == Some(Claims(id, email)))
  {
    match FindByEmail(users, email)
    case None => Step(Err(Unauthorized(InvalidCredentials)), users)
    case Some(id) =>
      if !p.compare(password, users[id].password) then
        Step(Err(Unauthorized(InvalidCredentials)), users)
      else
        var tokens := GetTokens(p, id, email, e.now);
        Step(Ok(tokens), UpdateRefreshTokenHash(p, users, id, tokens.refreshToken, e.tokenSalt))
  }

  /**
   `logout`: clear the stored refresh hash, whatever it was. Prisma's `update`
   throws when no row has the id.
   */
  function Logout(users: Users, userId: UserId): (r: Step<()>)
    ensures r.result.Ok? <==> userId in users
    ensures r.result.Err? ==> r.result.error == Internal && r.users == users
    ensures r.result.Ok? ==> OnlyHashChanged(users, r.users, userId) && r.users[userId].refreshTokenHash == None
    ensures UniqueEmails(users) ==> UniqueEmails(r.users)
  {
    if userId in users then
      Step(Ok(()), users[userId := users[userId].(refreshTokenHash := None)])
    else
      Step(Err(Internal), users)
  }

  /**
   `refreshToken`: an unknown user or a presented token the stored hash rejects
   is Unauthorized; a cleared (null) hash makes `bcrypt.compare` throw, which is
   not classified. On success new tokens, over the STORED email, are minted and
   the hash rotates to the new refresh token.
   */
  function Refresh(p: Provider, users: Users, userId: UserId, token: string, e: Entropy): (r: Step<Tokens>)
    ensures UniqueEmails(users) ==> UniqueEmails(r.users)
    ensures r.result.Ok? <==>
      userId in users && users[userId].refreshTokenHash.Some? && p.compare(token, users[userId].refreshTokenHash.value)
    ensures r.result.Err? ==> r.users == users
    ensures userId !in users ==> r.result == Err(Unauthorized(InvalidRefreshToken))
    ensures userId in users && users[userId].refreshTokenHash.None? ==> r.result == Err(Internal)
    ensures userId in users && users[userId].refreshTokenHash.Some? && r.result.Err? ==>
      r.result.error == Unauthorized(InvalidRefreshToken)
    ensures r.result.Ok? ==>
      && OnlyHashChanged(users, r.users, userId)
      && r.users[userId].refreshTokenHash == Some(p.hash(r.result.value.refreshToken, e.tokenSalt))
      && (HashLaw(p) ==> Holds(p, r.users, userId, r.result.value))
      && (SignLaw(p) ==> p.decode(r.result.value.accessToken, AccessToken) == Some(Claims(userId, users[userId].email)))
      && (SignLaw(p) ==> p.decode(r.result.value.refreshToken, RefreshToken) == Some(Claims(userId, users[userId].email)))
  {
    if userId !in users then
      Step(Err(Unauthorized(InvalidRefreshToken)), users)
    else
      match users[userId].refreshTokenHash
      case None => Step(Err(Internal), users)
      case Some(h) =>
        if !p.compare(token, h) then
          Step(Err(Unauthorized(InvalidRefreshToken)), users)
        else
          var tokens := GetTokens(p, userId, users[userId].email, e.now);
          Step(Ok(tokens), UpdateRefreshTokenHash(p, users, userId, tokens.refreshToken, e.tokenSalt))
  }

  /** Two logouts in a row leave the table as one does. */
  lemma LogoutIdempotent(users: Users, userId: UserId)
    ensures Logout(Logout(users, userId).users, userId) == Logout(users, userId)
  {
  }

  /** After a successful refresh the token presented no longer opens the session, when hashes compare whole inputs. */
  lemma RefreshRevokesPresentedToken(p: Provider, users: Users, userId: UserId, token: string, e: Entropy)
    requires WholeInputHash(p)
    requires Refresh(p, users, userId, token, e).result.Ok?
    requires Refresh(p, users, userId, token, e).result.value.refreshToken != token
    ensures var s := Refresh(p, users, userId, token, e).users;
      !p.compare(token, s[userId].refreshTokenHash.value)
    ensures Refresh(p, Refresh(p, users, userId, token, e).users, userId, token, e).result
      == Err(Unauthorized(InvalidRefreshToken))
  {
  }

  /**
   With bcrypt's 72-byte input limit, rotation does not revoke anything: when
   the new refresh token agrees with the presented one on its first 72
   characters, the presented token refreshes again after the rotation.
   */
  lemma RefreshReplayWithPrefix72Hash(p: Provider, users: Users, userId: UserId, token: string, e: Entropy, e2: Entropy)
    requires HashLaw(p) && Prefix72Hash(p)
    requires Refresh(p, users, userId, token, e).result.Ok?
    requires Prefix72(Refresh(p, users, userId, token, e).result.value.refreshToken) == Prefix72(token)
    ensures Refresh(p, Refresh(p, users, userId, token, e).users, userId, token, e2).result.Ok?
  {
    var s := Refresh(p, users, userId, token, e);
    var rotated := s.result.value.refreshToken;
    var d := s.users[userId].refreshTokenHash.value;
    assert p.compare(rotated, d);
    assert p.compare(token, d) == p.compare(rotated, d);
  }

  /** A bcrypt-like provider that digests the first 72 characters only. */
  function Truncating(sign: (Claims, TokenClass, nat) -> string, decode: (string, TokenClass) -> Option<Claims>): (p: Provider)
    ensures HashLaw(p) && Prefix72Hash(p)
    ensures !WholeInputHash(p)
  {
    var p := Provider((x: string, salt: nat) => Prefix72(x), (x: string, d: Digest) => Prefix72(x) == d, sign, decode);
    var long := seq(73, i => 'a');
    var other := seq(72, i => 'a') + "b";
    assert long != other by { assert long[72] != other[72]; }
    assert Prefix72(long) == Prefix72(other);
    assert p.compare(other, p.hash(long, 0));
    p
  }
}

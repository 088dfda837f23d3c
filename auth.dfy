/**
 * Token issuing, sign-in and refresh (AuthService).
 *
 * AuthService changes no state after construction, so its operations are
 * functions of the user table and of the current time `now` (Unix seconds,
 * which datetime.now(timezone.utc) reads). Lifetimes are whole seconds.
 */
module Auth {
  import opened Common
  import opened Crypto
  import opened Jwt
  import opened Models

  /** timedelta(minutes=15): the access-token default and the sign-in/refresh lifetime. */
  const AccessTokenTtl: int := 15 * 60
  /** timedelta(minutes=30): the refresh-token default. */
  const RefreshTokenDefaultTtl: int := 30 * 60
  /** timedelta(days=30): the refresh-token lifetime sign-in asks for. */
  const SignInRefreshTtl: int := 30 * 24 * 60 * 60

  const InvalidCredentials := "Invalid username or password"
  const RefreshExpired := "Refresh token has expired"
  const InvalidRefreshToken := "Invalid refresh token"
  const UserNotFound := "User not found"
  const Bearer := "bearer"

  /** The claims dictionary a caller hands to token creation, before `exp` is added. */
  datatype Payload = Payload(sub: Option<string>, role: Option<string>)

  /** Token: what sign-in returns. */
  datatype TokenPair = TokenPair(accessToken: string, refreshToken: string, tokenType: string)

  /** AccessToken: what refresh returns. */
  datatype AccessTokenResponse = AccessTokenResponse(accessToken: string, tokenType: string)

  /** `if expires_delta:` — an absent delta and a zero delta both fall back to the default. */
  function Lifetime(expiresDelta: Option<int>, default: int): (ttl: int)
    ensures expiresDelta.Some? && expiresDelta.value != 0 ==> ttl == expiresDelta.value
    ensures expiresDelta == None || expiresDelta == Some(0) ==> ttl == default
    ensures default != 0 ==> ttl != 0
  {
    if expiresDelta.Some? && expiresDelta.value != 0 then expiresDelta.value else default
  }

  /** create_access_token: the caller's claims plus `exp`, encoded. */
  function CreateAccessToken(data: Payload, expiresDelta: Option<int>, now: int): (token: string)
    ensures expiresDelta.Some? && expiresDelta.value != 0 ==>
              Parse(token) == Some(Claims(data.sub, data.role, now + expiresDelta.value))
    ensures expiresDelta == None || expiresDelta == Some(0) ==>
              Parse(token) == Some(Claims(data.sub, data.role, now + 900))
  {
    var claims := Claims(data.sub, data.role, now + Lifetime(expiresDelta, AccessTokenTtl));
    ParseEncode(claims);
    Encode(claims)
  }

  /** create_refresh_token: as create_access_token, with a 30-minute default. */
  function CreateRefreshToken(data: Payload, expiresDelta: Option<int>, now: int): (token: string)
    ensures expiresDelta.Some? && expiresDelta.value != 0 ==>
              Parse(token) == Some(Claims(data.sub, data.role, now + expiresDelta.value))
    ensures expiresDelta == None || expiresDelta == Some(0) ==>
              Parse(token) == Some(Claims(data.sub, data.role, now + 1800))
  {
    var claims := Claims(data.sub, data.role, now + Lifetime(expiresDelta, RefreshTokenDefaultTtl));
    ParseEncode(claims);
    Encode(claims)
  }

  /** authenticate_user: the stored user when the password verifies against its digest.
      An unknown username and a wrong password fail in the same way. */
  function AuthenticateUser(users: map<string, User>, username: string, password: string): (r: Result<User, string>)
    ensures r.Ok? <==> username in users && Verify(password, users[username].password)
    ensures r.Ok? ==> r.value == users[username]
    ensures r.Err? ==> r.error == InvalidCredentials
  {
    if username !in users || !Verify(password, users[username].password) then Err(InvalidCredentials)
    else Ok(users[username])
  }

  /** sign_in: a 15-minute access token with `sub` and `role`, a 30-day refresh token with
      `sub` only, and the "bearer" type. */
  function SignIn(users: map<string, User>, username: string, password: string, now: int): (r: Result<TokenPair, string>)
    ensures r.Ok? <==> username in users && Verify(password, users[username].password)
    ensures r.Err? ==> r.error == InvalidCredentials
    ensures r.Ok? ==>
              var u := users[username];
              && Decode(r.value.accessToken, now) == Decoded(Claims(Some(u.username), Some(u.role), now + 900))
              && Decode(r.value.refreshToken, now) == Decoded(Claims(Some(u.username), None, now + 2592000))
              && r.value.tokenType == "bearer"
  {
    match AuthenticateUser(users, username, password)
    case Err(e) => Err(e)
    case Ok(user) =>
      var access := CreateAccessToken(Payload(Some(user.username), Some(user.role)), Some(AccessTokenTtl), now);
      var refresh := CreateRefreshToken(Payload(Some(user.username), None), Some(SignInRefreshTtl), now);
      Ok(TokenPair(access, refresh, Bearer))
  }

  /** refresh_access_token: a new 15-minute access token for the refresh token's subject,
      carrying the role the user has now. A malformed token is reported as an invalid
      refresh token (the evidently intended handler; see RefreshAccessTokenAsWritten). */
  function RefreshAccessToken(users: map<string, User>, refreshToken: string, now: int): (r: Result<AccessTokenResponse, string>)
    ensures Decode(refreshToken, now) == ExpiredSignature ==> r == Err("Refresh token has expired")
    ensures Decode(refreshToken, now) == InvalidToken ==> r == Err("Invalid refresh token")
    ensures Decode(refreshToken, now).Decoded? && Decode(refreshToken, now).claims.sub == None ==>
              r == Err("Invalid refresh token")
    ensures Decode(refreshToken, now).Decoded? && Decode(refreshToken, now).claims.sub.Some? ==>
              var name := Decode(refreshToken, now).claims.sub.value;
              && (name !in users ==> r == Err("User not found"))
              && (name in users ==>
                    && r.Ok?
                    && Decode(r.value.accessToken, now)
                       == Decoded(Claims(Some(users[name].username), Some(users[name].role), now + 900))
                    && r.value.tokenType == "bearer")
  {
    match Decode(refreshToken, now)
    case ExpiredSignature => Err(RefreshExpired)
    case InvalidToken => Err(InvalidRefreshToken)
    case Decoded(payload) =>
      if payload.sub.None? then Err(InvalidRefreshToken)
      else if payload.sub.value !in users then Err(UserNotFound)
      else
        var user := users[payload.sub.value];
        var access := CreateAccessToken(Payload(Some(user.username), Some(user.role)), Some(AccessTokenTtl), now);
        Ok(AccessTokenResponse(access, Bearer))
  }

  // ---------------------------------------------------------------------------
  // The refresh handler as written

  /** The exceptions refresh_access_token can end in as written. */
  datatype RaisedError = ValueError(message: string) | AttributeError(message: string)

  const NoJwtError := "module 'jwt' has no attribute 'JWTError'"

  /** refresh_access_token exactly as written: the second handler names `jwt.JWTError`,
      which the jwt package (PyJWT) does not define. Python evaluates that name whenever an
      exception other than ExpiredSignatureError leaves the `try` block, so a malformed
      token, a token without `sub` and a vanished user all end in AttributeError. */
  function RefreshAccessTokenAsWritten(users: map<string, User>, refreshToken: string, now: int): (r: Result<AccessTokenResponse, RaisedError>)
    ensures Decode(refreshToken, now) == ExpiredSignature ==> r == Err(ValueError("Refresh token has expired"))
    ensures RefreshAccessToken(users, refreshToken, now).Ok? <==> r.Ok?
    ensures r.Ok? ==> r.value == RefreshAccessToken(users, refreshToken, now).value
    ensures r.Err? && Decode(refreshToken, now) != ExpiredSignature ==>
              r.error == AttributeError(NoJwtError)
  {
    match Decode(refreshToken, now)
    case ExpiredSignature => Err(ValueError(RefreshExpired))
    case InvalidToken => Err(AttributeError(NoJwtError))
    case Decoded(payload) =>
      if payload.sub.None? || payload.sub.value !in users then Err(AttributeError(NoJwtError))
      else
        var user := users[payload.sub.value];
        var access := CreateAccessToken(Payload(Some(user.username), Some(user.role)), Some(AccessTokenTtl), now);
        Ok(AccessTokenResponse(access, Bearer))
  }

  /** A live refresh token for a user who has since been deleted: the intended handler says
      "User not found", the code as written raises AttributeError instead. */
  lemma RefreshAsWrittenLosesUserNotFound(users: map<string, User>, username: string, issuedAt: int, now: int)
    requires username !in users
    requires issuedAt <= now < issuedAt + SignInRefreshTtl
    ensures var token := CreateRefreshToken(Payload(Some(username), None), Some(SignInRefreshTtl), issuedAt);
            && RefreshAccessToken(users, token, now) == Err("User not found")
            && RefreshAccessTokenAsWritten(users, token, now) == Err(AttributeError(NoJwtError))
  {
    var token := CreateRefreshToken(Payload(Some(username), None), Some(SignInRefreshTtl), issuedAt);
    assert Parse(token) == Some(Claims(Some(username), None, issuedAt + SignInRefreshTtl));
  }

  // ---------------------------------------------------------------------------
  // Properties relating several operations

  /** A stored user who signs in with the right password gets an access token whose `role`
      is the stored role and whose `sub` is the username. */
  lemma SignInCarriesStoredRole(users: map<string, User>, username: string, password: string, salt: string, now: int)
    requires UsersKeyed(users)
    requires username in users && users[username].password == Hash(password, salt)
    ensures SignIn(users, username, password, now).Ok?
    ensures Decode(SignIn(users, username, password, now).value.accessToken, now)
            == Decoded(Claims(Some(username), Some(users[username].role), now + 900))
  {
  }

  /** A refresh token from sign-in, used before it expires against a store where the user's
      role has since changed, yields an access token for the same user with the new role. */
  lemma RefreshReflectsCurrentRole(
    before: map<string, User>, after: map<string, User>, username: string, password: string,
    signedInAt: int, refreshedAt: int)
    requires UsersKeyed(before) && UsersKeyed(after)
    requires SignIn(before, username, password, signedInAt).Ok?
    requires username in after
    requires signedInAt <= refreshedAt < signedInAt + SignInRefreshTtl
    ensures var refresh := SignIn(before, username, password, signedInAt).value.refreshToken;
            var r := RefreshAccessToken(after, refresh, refreshedAt);
            && r.Ok?
            && Decode(r.value.accessToken, refreshedAt)
               == Decoded(Claims(Some(username), Some(after[username].role), refreshedAt + 900))
  {
    var refresh := SignIn(before, username, password, signedInAt).value.refreshToken;
    assert Parse(refresh) == Some(Claims(Some(username), None, signedInAt + SignInRefreshTtl));
    assert Decode(refresh, refreshedAt) == Decoded(Claims(Some(username), None, signedInAt + SignInRefreshTtl));
  }

  /** Sign-in rejects a wrong password. */
  lemma SignInRejectsWrongPassword(users: map<string, User>, username: string, password: string, wrong: string, salt: string, now: int)
    requires username in users && users[username].password == Hash(password, salt)
    requires wrong != password
    ensures SignIn(users, username, wrong, now) == Err(InvalidCredentials)
  {
  }
}

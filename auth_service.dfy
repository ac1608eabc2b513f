/**
 * service/impl/AuthServiceImpl.java: registration, sign-in, refresh-token
 * rotation and logout, as steps over the user store and the token store.
 *
 * The collaborators the service calls are inputs here: `credentialsOk` is the
 * verdict of the AuthenticationManager, `encodedPassword` what the
 * PasswordEncoder produced, `issued` the access and refresh strings JwtService
 * returned, `isTokenExpired` the JwtParser's expiry check, `now` the clock and
 * `refreshTokenExpiryMs` the configured refresh lifetime. A refresh cookie is
 * an `Option<string>`: `None` when the request carries none.
 */
module AuthService {
  import opened Wrappers
  import opened Constants
  import opened Entities
  import opened Repositories

  /** dto/auth/RegisterRequest.java. */
  datatype RegisterRequest = RegisterRequest(
    email: string,
    firstName: string,
    lastName: string,
    patronymic: Option<string>,
    password: string)

  /** The access and refresh token strings issued for one sign-in. */
  datatype IssuedTokens = IssuedTokens(accessToken: string, refreshToken: string)

  /** dto/auth/AuthResponse.java; the user's profile is represented by the user's id. */
  datatype AuthResponse = AuthResponse(accessToken: string, tokenType: Option<string>, user: UserId)

  /** What a successful sign-in or refresh hands back: the body and the refresh cookie's new value. */
  datatype Session = Session(response: AuthResponse, refreshCookie: string)

  /** The outcome of an operation together with the token store it leaves behind. */
  datatype TokenStep = TokenStep(result: Result<Session, Error>, tokens: map<string, Token>)

  /** The record saved for a newly issued refresh token. */
  function NewRefreshToken(value: string, user: UserId, expiresAt: Instant): (t: Token)
    ensures t.token == value && t.user == user && t.expiresAt == expiresAt
    ensures t.tokenType == Refresh && !t.revoked && !t.expired
  {
    Token(value, Refresh, false, false, expiresAt, user)
  }

  /** The record after rotation or logout: both flags set, everything else kept. */
  function Revoked(t: Token): (r: Token)
    ensures r.revoked && r.expired
    ensures r.(revoked := t.revoked, expired := t.expired) == t
  {
    t.(revoked := true, expired := true)
  }

  /** A stored record that still passes the flag checks of refreshToken. */
  predicate Usable(t: Token)
  {
    !t.revoked && !t.expired
  }

  /** The user register builds. */
  function RegisteredUser(request: RegisterRequest, encodedPassword: string, id: UserId): (u: User)
    ensures u.id == id && u.email == request.email && u.password == encodedPassword
    ensures u.firstName == request.firstName && u.lastName == request.lastName
    ensures u.patronymic == request.patronymic
    ensures u.role == RoleUser && u.enabled && u.accountNonLocked
  {
    User(id, request.email, request.firstName, request.lastName, request.patronymic,
         encodedPassword, RoleUser, true, true)
  }

  lemma FindByEmailUnique(users: map<UserId, User>, email: string, id: UserId)
    requires UniqueEmails(users) && id in users && users[id].email == email
    ensures FindByEmail(users, email) == Some(users[id])
  {
    var found := FindByEmail(users, email).value;
    var other :| other in users && users[other] == found;
  }

  // ---------------------------------------------------------------------------
  // Specification functions

  /** authenticateInternal: credentials, then the user, then one new refresh record. */
  ghost function SignIn(users: map<UserId, User>, tokens: map<string, Token>, email: string,
                        credentialsOk: bool, issued: IssuedTokens, expiresAt: Instant): (r: TokenStep)
    ensures r.result.Failure? ==> r.tokens == tokens
    ensures r.result.Success? ==>
              && credentialsOk && ExistsByEmail(users, email) && issued.refreshToken !in tokens
              && r.tokens.Keys == tokens.Keys + {issued.refreshToken}
              && r.result.value.response.tokenType == Some(BEARER_TOKEN)
  {
    if !credentialsOk then TokenStep(Failure(AuthenticationFailed), tokens)
    else match FindByEmail(users, email)
      case None => TokenStep(Failure(ResourceNotFound(USER_RESOURCE)), tokens)
      case Some(user) =>
        if issued.refreshToken in tokens then TokenStep(Failure(DuplicateTokenValue), tokens)
        else
          TokenStep(
            Success(Session(AuthResponse(issued.accessToken, Some(BEARER_TOKEN), user.id), issued.refreshToken)),
            tokens[issued.refreshToken := NewRefreshToken(issued.refreshToken, user.id, expiresAt)])
  }

  /** The checks of refreshToken: a cookie, a stored record, both flags clear and the token itself unexpired. */
  function RefreshCheck(tokens: map<string, Token>, refreshCookie: Option<string>,
                        isTokenExpired: string -> bool): (r: Outcome<Error>)
    ensures r == Pass <==> refreshCookie.Some? && refreshCookie.value in tokens
                           && Usable(tokens[refreshCookie.value]) && !isTokenExpired(refreshCookie.value)
  {
    if refreshCookie.None? then Fail(RefreshTokenMissing(REFRESH_TOKEN_MISSING))
    else if refreshCookie.value !in tokens then Fail(RefreshTokenMissing(REFRESH_TOKEN_MISSING))
    else
      var stored := tokens[refreshCookie.value];
      if stored.revoked || stored.expired || isTokenExpired(refreshCookie.value) then
        Fail(IllegalArgument(INVALID_REFRESH_TOKEN_MSG))
      else Pass
  }

  /**
   * The body refreshToken builds, as written: AuthResponse's builder is given
   * no tokenType, and Lombok's builder ignores the field's initialiser, so the
   * field is null.
   */
  function RefreshResponseAsWritten(accessToken: string, user: UserId): (r: AuthResponse)
    ensures r.tokenType.None? && r.accessToken == accessToken && r.user == user
  {
    AuthResponse(accessToken, None, user)
  }

  /** The body refreshToken evidently means to build: the same "Bearer" type sign-in reports. */
  function RefreshResponse(accessToken: string, user: UserId): (r: AuthResponse)
    ensures r.tokenType == Some(BEARER_TOKEN) && r.accessToken == accessToken && r.user == user
  {
    AuthResponse(accessToken, Some(BEARER_TOKEN), user)
  }

  /**
   * The rotation of refreshToken, with `respond` the body it builds. The old
   * record is revoked and saved before the new one is inserted, outside any
   * transaction: when the insert fails the revocation stays.
   */
  function Rotate(tokens: map<string, Token>, refreshCookie: Option<string>, isTokenExpired: string -> bool,
                  issued: IssuedTokens, expiresAt: Instant, respond: (string, UserId) -> AuthResponse): (r: TokenStep)
    ensures RefreshCheck(tokens, refreshCookie, isTokenExpired).Fail? ==>
              r == TokenStep(Failure(RefreshCheck(tokens, refreshCookie, isTokenExpired).error), tokens)
    ensures r.result.Success? ==>
              && refreshCookie.Some? && refreshCookie.value in tokens
              && r.result.value == Session(respond(issued.accessToken, tokens[refreshCookie.value].user),
                                           issued.refreshToken)
  {
    match RefreshCheck(tokens, refreshCookie, isTokenExpired)
    case Fail(e) => TokenStep(Failure(e), tokens)
    case Pass =>
      var value := refreshCookie.value;
      var user := tokens[value].user;
      var rotated := tokens[value := Revoked(tokens[value])];
      if issued.refreshToken in rotated then TokenStep(Failure(DuplicateTokenValue), rotated)
      else
        TokenStep(
          Success(Session(respond(issued.accessToken, user), issued.refreshToken)),
          rotated[issued.refreshToken := NewRefreshToken(issued.refreshToken, user, expiresAt)])
  }

  /** refreshToken as written: the response it returns carries no token type. */
  function RefreshStep(tokens: map<string, Token>, refreshCookie: Option<string>, isTokenExpired: string -> bool,
                       issued: IssuedTokens, expiresAt: Instant): (r: TokenStep)
    ensures r.result.Success? ==> r.result.value.refreshCookie == issued.refreshToken
  {
    Rotate(tokens, refreshCookie, isTokenExpired, issued, expiresAt, RefreshResponseAsWritten)
  }

  /** refreshToken as evidently intended: the same rotation, answering with the "Bearer" response. */
  function RefreshStepIntended(tokens: map<string, Token>, refreshCookie: Option<string>,
                               isTokenExpired: string -> bool, issued: IssuedTokens, expiresAt: Instant): (r: TokenStep)
    ensures r.result.Success? ==> r.result.value.refreshCookie == issued.refreshToken
  {
    Rotate(tokens, refreshCookie, isTokenExpired, issued, expiresAt, RefreshResponse)
  }

  /** logout: revoke the presented record if there is one; otherwise nothing. */
  function LogoutStore(tokens: map<string, Token>, refreshCookie: Option<string>): (r: map<string, Token>)
    ensures r.Keys == tokens.Keys
    ensures forall k :: k in tokens ==> r[k] == tokens[k] || r[k] == Revoked(tokens[k])
  {
    if refreshCookie.Some? && refreshCookie.value in tokens then
      tokens[refreshCookie.value := Revoked(tokens[refreshCookie.value])]
    else tokens
  }

  // ---------------------------------------------------------------------------
  // The service methods

  /** authenticateInternal (login is this method called with the request's email and password). */
  method AuthenticateInternal(userRepository: UserRepository, tokenRepository: TokenRepository,
                              email: string, credentialsOk: bool, issued: IssuedTokens,
                              now: Instant, refreshTokenExpiryMs: int) returns (r: Result<Session, Error>)
    requires userRepository.Valid() && tokenRepository.Valid()
    modifies tokenRepository
    ensures tokenRepository.Valid()
    ensures TokenStep(r, tokenRepository.tokens)
            == SignIn(userRepository.users, old(tokenRepository.tokens), email, credentialsOk, issued,
                      now + refreshTokenExpiryMs)
  {
    if !credentialsOk {
      return Failure(AuthenticationFailed);
    }
    if !ExistsByEmail(userRepository.users, email) {
      return Failure(ResourceNotFound(USER_RESOURCE));
    }
    var id :| id in userRepository.users && userRepository.users[id].email == email;
    var user := userRepository.users[id];
    FindByEmailUnique(userRepository.users, email, id);

    var refreshToken := NewRefreshToken(issued.refreshToken, user.id, now + refreshTokenExpiryMs);
    if issued.refreshToken in tokenRepository.tokens {
      return Failure(DuplicateTokenValue);
    }
    tokenRepository.tokens := tokenRepository.tokens[issued.refreshToken := refreshToken];
    r := Success(Session(AuthResponse(issued.accessToken, Some(BEARER_TOKEN), user.id), issued.refreshToken));
  }

  /**
   * register: refuses a taken email; otherwise saves the new user and signs in.
   * The save is not undone when signing in fails afterwards.
   */
  method Register(userRepository: UserRepository, tokenRepository: TokenRepository,
                  request: RegisterRequest, encodedPassword: string, newUserId: UserId,
                  credentialsOk: bool, issued: IssuedTokens,
                  now: Instant, refreshTokenExpiryMs: int) returns (r: Result<Session, Error>)
    requires userRepository.Valid() && tokenRepository.Valid()
    requires newUserId !in userRepository.users
    modifies userRepository, tokenRepository
    ensures userRepository.Valid() && tokenRepository.Valid()
    ensures ExistsByEmail(old(userRepository.users), request.email) ==>
              && r == Failure(UserAlreadyExists(USER_ALREADY_EXISTS))
              && userRepository.users == old(userRepository.users)
              && tokenRepository.tokens == old(tokenRepository.tokens)
    ensures !ExistsByEmail(old(userRepository.users), request.email) ==>
              && userRepository.users
                 == old(userRepository.users)[newUserId := RegisteredUser(request, encodedPassword, newUserId)]
              && TokenStep(r, tokenRepository.tokens)
                 == SignIn(userRepository.users, old(tokenRepository.tokens), request.email, credentialsOk,
                           issued, now + refreshTokenExpiryMs)
  {
    if ExistsByEmail(userRepository.users, request.email) {
      return Failure(UserAlreadyExists(USER_ALREADY_EXISTS));
    }
    var user := RegisteredUser(request, encodedPassword, newUserId);
    userRepository.users := userRepository.users[newUserId := user];
    r := AuthenticateInternal(userRepository, tokenRepository, request.email, credentialsOk, issued,
                              now, refreshTokenExpiryMs);
  }

  /** refreshToken. */
  method RefreshToken(tokenRepository: TokenRepository, refreshCookie: Option<string>,
                      isTokenExpired: string -> bool, issued: IssuedTokens,
                      now: Instant, refreshTokenExpiryMs: int) returns (r: Result<Session, Error>)
    requires tokenRepository.Valid()
    modifies tokenRepository
    ensures tokenRepository.Valid()
    ensures TokenStep(r, tokenRepository.tokens)
            == RefreshStep(old(tokenRepository.tokens), refreshCookie, isTokenExpired, issued, now + refreshTokenExpiryMs)
  {
    if refreshCookie.None? {
      return Failure(RefreshTokenMissing(REFRESH_TOKEN_MISSING));
    }
    var value := refreshCookie.value;
    if value !in tokenRepository.tokens {
      return Failure(RefreshTokenMissing(REFRESH_TOKEN_MISSING));
    }
    var stored := tokenRepository.tokens[value];
    if stored.revoked || stored.expired || isTokenExpired(value) {
      return Failure(IllegalArgument(INVALID_REFRESH_TOKEN_MSG));
    }
    var user := stored.user;

    stored := stored.(revoked := true, expired := true);
    tokenRepository.tokens := tokenRepository.tokens[value := stored];

    var newRefreshToken := NewRefreshToken(issued.refreshToken, user, now + refreshTokenExpiryMs);
    if issued.refreshToken in tokenRepository.tokens {
      return Failure(DuplicateTokenValue);
    }
    tokenRepository.tokens := tokenRepository.tokens[issued.refreshToken := newRefreshToken];
    r := Success(Session(RefreshResponseAsWritten(issued.accessToken, user), issued.refreshToken));
  }

  /** logout; clearing the cookie is not modelled. */
  method Logout(tokenRepository: TokenRepository, refreshCookie: Option<string>)
    requires tokenRepository.Valid()
    modifies tokenRepository
    ensures tokenRepository.Valid()
    ensures tokenRepository.tokens == LogoutStore(old(tokenRepository.tokens), refreshCookie)
  {
    if refreshCookie.Some? {
      var value := refreshCookie.value;
      if value in tokenRepository.tokens {
        var t := tokenRepository.tokens[value];
        t := t.(revoked := true, expired := true);
        tokenRepository.tokens := tokenRepository.tokens[value := t];
      }
    }
  }

  // ---------------------------------------------------------------------------
  // Properties of the token lifecycle

  /**
   * A successful sign-in adds exactly one record, under a new key: an unrevoked,
   * unexpired REFRESH token of the signed-in user; the response type is "Bearer".
   * A failed one leaves the store as it was.
   */
  lemma SignInAddsOneRefreshToken(users: map<UserId, User>, tokens: map<string, Token>, email: string,
                                  credentialsOk: bool, issued: IssuedTokens, expiresAt: Instant)
    ensures var step := SignIn(users, tokens, email, credentialsOk, issued, expiresAt);
      && (step.result.Failure? ==> step.tokens == tokens)
      && (step.result.Success? ==>
            && credentialsOk && ExistsByEmail(users, email)
            && issued.refreshToken !in tokens
            && step.tokens.Keys == tokens.Keys + {issued.refreshToken}
            && (forall k :: k in tokens ==> step.tokens[k] == tokens[k])
            && var t := step.tokens[issued.refreshToken];
            && t.tokenType == Refresh && Usable(t) && t.expiresAt == expiresAt
            && t.user == FindByEmail(users, email).value.id
            && step.result.value.refreshCookie == issued.refreshToken
            && step.result.value.response.tokenType == Some(BEARER_TOKEN)
            && step.result.value.response.user == t.user)
  {
  }

  /** Sign-in fails for bad credentials and for an unknown email, before touching the store. */
  lemma SignInFailures(users: map<UserId, User>, tokens: map<string, Token>, email: string,
                       credentialsOk: bool, issued: IssuedTokens, expiresAt: Instant)
    ensures !credentialsOk ==>
              SignIn(users, tokens, email, credentialsOk, issued, expiresAt) == TokenStep(Failure(AuthenticationFailed), tokens)
    ensures credentialsOk && !ExistsByEmail(users, email) ==>
              SignIn(users, tokens, email, credentialsOk, issued, expiresAt)
              == TokenStep(Failure(ResourceNotFound(USER_RESOURCE)), tokens)
  {
  }

  /** No cookie, or a cookie the store does not know: "missing", and the store is unchanged. */
  lemma RefreshMissing(tokens: map<string, Token>, refreshCookie: Option<string>, isTokenExpired: string -> bool,
                       issued: IssuedTokens, expiresAt: Instant)
    requires refreshCookie.None? || refreshCookie.value !in tokens
    ensures RefreshStep(tokens, refreshCookie, isTokenExpired, issued, expiresAt)
            == TokenStep(Failure(RefreshTokenMissing(REFRESH_TOKEN_MISSING)), tokens)
  {
  }

  /** A stored record that is revoked or expired, or a token past its own expiry: "invalid", store unchanged. */
  lemma RefreshInvalid(tokens: map<string, Token>, value: string, isTokenExpired: string -> bool,
                       issued: IssuedTokens, expiresAt: Instant)
    requires value in tokens
    requires !Usable(tokens[value]) || isTokenExpired(value)
    ensures RefreshStep(tokens, Some(value), isTokenExpired, issued, expiresAt)
            == TokenStep(Failure(IllegalArgument(INVALID_REFRESH_TOKEN_MSG)), tokens)
  {
  }

  /**
   * A successful refresh marks the old record revoked and expired, adds one
   * usable record for the same user, and leaves every other record alone.
   */
  lemma RefreshRotates(tokens: map<string, Token>, value: string, isTokenExpired: string -> bool,
                       issued: IssuedTokens, expiresAt: Instant)
    requires RefreshStep(tokens, Some(value), isTokenExpired, issued, expiresAt).result.Success?
    ensures var after := RefreshStep(tokens, Some(value), isTokenExpired, issued, expiresAt).tokens;
      && value in tokens && Usable(tokens[value]) && issued.refreshToken != value
      && issued.refreshToken !in tokens
      && after.Keys == tokens.Keys + {issued.refreshToken}
      && after[value] == Revoked(tokens[value])
      && after[issued.refreshToken] == NewRefreshToken(issued.refreshToken, tokens[value].user, expiresAt)
      && (forall k :: k in tokens && k != value ==> after[k] == tokens[k])
  {
  }

  /**
   * Once its checks pass, refresh never leaves the presented record usable,
   * even when the insert then fails; and on either path it touches no other
   * record and adds at most the newly issued key.
   */
  lemma RefreshAlwaysRetiresOldToken(tokens: map<string, Token>, value: string, isTokenExpired: string -> bool,
                                     issued: IssuedTokens, expiresAt: Instant)
    requires RefreshCheck(tokens, Some(value), isTokenExpired) == Pass
    ensures var after := RefreshStep(tokens, Some(value), isTokenExpired, issued, expiresAt).tokens;
            value in after && !Usable(after[value])
    ensures var after := RefreshStep(tokens, Some(value), isTokenExpired, issued, expiresAt).tokens;
            forall k :: k in tokens && k != value ==> k in after && after[k] == tokens[k]
    ensures var after := RefreshStep(tokens, Some(value), isTokenExpired, issued, expiresAt).tokens;
            after.Keys == tokens.Keys || after.Keys == tokens.Keys + {issued.refreshToken}
  {
  }

  /** Rotation makes a refresh token single-use: presenting it again fails as "invalid" and changes nothing. */
  lemma RefreshTokenSingleUse(tokens: map<string, Token>, value: string, isTokenExpired: string -> bool,
                              issued: IssuedTokens, issuedAgain: IssuedTokens, expiresAt: Instant, expiresAgain: Instant)
    requires RefreshStep(tokens, Some(value), isTokenExpired, issued, expiresAt).result.Success?
    ensures var after := RefreshStep(tokens, Some(value), isTokenExpired, issued, expiresAt).tokens;
            RefreshStep(after, Some(value), isTokenExpired, issuedAgain, expiresAgain)
            == TokenStep(Failure(IllegalArgument(INVALID_REFRESH_TOKEN_MSG)), after)
  {
    RefreshRotates(tokens, value, isTokenExpired, issued, expiresAt);
  }

  /** Logout revokes a known token and otherwise changes nothing; it touches no other record. */
  lemma LogoutEffect(tokens: map<string, Token>, refreshCookie: Option<string>)
    ensures refreshCookie.None? || refreshCookie.value !in tokens ==> LogoutStore(tokens, refreshCookie) == tokens
    ensures refreshCookie.Some? && refreshCookie.value in tokens ==>
              && LogoutStore(tokens, refreshCookie).Keys == tokens.Keys
              && LogoutStore(tokens, refreshCookie)[refreshCookie.value] == Revoked(tokens[refreshCookie.value])
              && forall k :: k in tokens && k != refreshCookie.value ==> LogoutStore(tokens, refreshCookie)[k] == tokens[k]
  {
  }

  /** Logging out twice leaves the same store as logging out once. */
  lemma LogoutIdempotent(tokens: map<string, Token>, refreshCookie: Option<string>)
    ensures LogoutStore(LogoutStore(tokens, refreshCookie), refreshCookie) == LogoutStore(tokens, refreshCookie)
  {
  }

  /**
   * After logging out with a known token, refreshing with that token fails as
   * "invalid", and refreshing with the cleared cookie fails as "missing".
   */
  lemma LogoutThenRefreshFails(tokens: map<string, Token>, value: string, isTokenExpired: string -> bool,
                               issued: IssuedTokens, expiresAt: Instant)
    requires value in tokens
    ensures var after := LogoutStore(tokens, Some(value));
      && RefreshStep(after, Some(value), isTokenExpired, issued, expiresAt)
         == TokenStep(Failure(IllegalArgument(INVALID_REFRESH_TOKEN_MSG)), after)
      && RefreshStep(after, None, isTokenExpired, issued, expiresAt)
         == TokenStep(Failure(RefreshTokenMissing(REFRESH_TOKEN_MISSING)), after)
  {
  }

  /**
   * As written, every successful refresh answers without a token type, while
   * every successful sign-in answers "Bearer".
   */
  lemma RefreshResponseAsWrittenLacksTokenType(tokens: map<string, Token>, refreshCookie: Option<string>,
                                               isTokenExpired: string -> bool, issued: IssuedTokens,
                                               expiresAt: Instant)
    ensures var step := RefreshStep(tokens, refreshCookie, isTokenExpired, issued, expiresAt);
            step.result.Success? ==> step.result.value.response.tokenType == None
    ensures var step := RefreshStep(tokens, refreshCookie, isTokenExpired, issued, expiresAt);
            step.result.Success? ==> step.result.value.response.tokenType != Some(BEARER_TOKEN)
  {
  }

  /** A concrete refresh: the stored usable token "r1" is rotated to "r2", and the answer has no token type. */
  lemma RefreshAsWrittenExample(isTokenExpired: string -> bool)
    requires !isTokenExpired("r1")
    ensures var tokens := map["r1" := NewRefreshToken("r1", 7, 100)];
            var step := RefreshStep(tokens, Some("r1"), isTokenExpired, IssuedTokens("a2", "r2"), 200);
            && step.result == Success(Session(AuthResponse("a2", None, 7), "r2"))
            && step.tokens == map["r1" := Revoked(tokens["r1"]), "r2" := NewRefreshToken("r2", 7, 200)]
  {
    var tokens := map["r1" := NewRefreshToken("r1", 7, 100)];
    assert "r2" != "r1";
    assert RefreshCheck(tokens, Some("r1"), isTokenExpired) == Pass;
  }

  /** The corrected refresh reports "Bearer", as every sign-in response does. */
  lemma RefreshResponseReportsBearer(tokens: map<string, Token>, refreshCookie: Option<string>,
                                     isTokenExpired: string -> bool, issued: IssuedTokens, expiresAt: Instant)
    ensures var step := RefreshStepIntended(tokens, refreshCookie, isTokenExpired, issued, expiresAt);
            step.result.Success? ==> step.result.value.response.tokenType == Some(BEARER_TOKEN)
  {
  }

  /**
   * The corrected refresh differs from the written one only in the token type:
   * the same store, the same success or error, the same access token and user.
   */
  lemma RefreshIntendedDiffersOnlyInTokenType(tokens: map<string, Token>, refreshCookie: Option<string>,
                                              isTokenExpired: string -> bool, issued: IssuedTokens,
                                              expiresAt: Instant)
    ensures var written := RefreshStep(tokens, refreshCookie, isTokenExpired, issued, expiresAt);
            var intended := RefreshStepIntended(tokens, refreshCookie, isTokenExpired, issued, expiresAt);
            && intended.tokens == written.tokens
            && intended.result.Success? == written.result.Success?
            && (written.result.Failure? ==> intended.result == written.result)
            && (written.result.Success? ==>
                  intended.result.value
                  == written.result.value.(response := written.result.value.response.(tokenType := Some(BEARER_TOKEN))))
  {
  }
}

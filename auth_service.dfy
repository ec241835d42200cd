/**
 * service.impl.AuthServiceImpl: registration, login and token refresh.
 *
 * The service keeps `refreshStorage`, the last refresh token issued at login
 * for each username. Login overwrites the entry; refresh only reads it, so a
 * refresh token stays usable until it expires and the refresh token that a
 * refresh hands out is never recorded (refresh tokens are not rotated).
 */
module AuthServices {
  import opened Errors
  import opened Domain
  import opened Dto
  import opened Validation
  import opened PasswordEncoding
  import opened JwtService
  import opened UserServices
  import opened Http

  /** The answer to a registration whose two passwords differ. */
  const PasswordsDiffer: Response := Response(400, ErrorBody(ErrorMessage(400, "Passwords do not matches")))

  class AuthService {
    /** username -> the refresh token issued at that user's last login */
    var refreshStorage: map<string, string>
    const userService: UserService
    const jwt: JwtConfig
    const encoder: PasswordEncoder

    /** A new service has an empty store. */
    constructor (userService: UserService, jwt: JwtConfig, encoder: PasswordEncoder)
      ensures refreshStorage == map[]
      ensures this.userService == userService && this.jwt == jwt && this.encoder == encoder
    {
      refreshStorage := map[];
      this.userService := userService;
      this.jwt := jwt;
      this.encoder := encoder;
    }

    /**
     * checkAndRegister: differing passwords are answered with 400 and no user
     * is created; otherwise the user is created (or UserAlreadyExistsException
     * escapes) and its id and username are returned with 200.
     */
    method CheckAndRegister(dto: RegistrationUserDto, freshId: Uuid) returns (r: Result<Response>)
      requires RegistrationValid(dto) && userService.Valid()
      requires forall name :: name in userService.users ==> userService.users[name].id != freshId
      modifies userService
      ensures userService.Valid()
      ensures dto.password != dto.confirmPassword ==>
        r == Ok(PasswordsDiffer) && userService.users == old(userService.users)
      ensures dto.password == dto.confirmPassword && dto.username.value in old(userService.users) ==>
        && r == Throw(UserAlreadyExists("User with username '" + dto.username.value + "' already exists"))
        && userService.users == old(userService.users)
      ensures dto.password == dto.confirmPassword && dto.username.value !in old(userService.users) ==>
        && r == Ok(Response(200, UserBody(UserDto(freshId, dto.username.value))))
        && userService.users == old(userService.users)[dto.username.value :=
             User(freshId, dto.username.value, encoder.encode(dto.password.value), {RoleUser})]
    {
      if dto.password != dto.confirmPassword {
        return Ok(PasswordsDiffer);
      }
      var user := userService.CreateNewUser(dto, encoder, freshId);
      if user.Throw? {
        return Throw(user.error);
      }
      r := Ok(Response(200, UserBody(UserDto(user.value.id, user.value.username))));
    }

    /**
     * The credential check of authAndGetToken: the user must exist and the
     * raw password must match the stored hash. The encoder refuses a null raw
     * password.
     */
    function CheckCredentials(request: AuthRequest): (r: Result<User>)
      reads userService
      ensures userService.GetUserByUsername(request.username).Throw? ==>
        r == Throw(userService.GetUserByUsername(request.username).error)
      ensures r.Ok? <==>
        && userService.GetUserByUsername(request.username).Ok?
        && request.password.Some?
        && encoder.matches(request.password.value, userService.users[request.username.value].password)
      ensures r.Ok? ==> r.value == userService.users[request.username.value]
      ensures userService.GetUserByUsername(request.username).Ok? && request.password.Some? && r.Throw? ==>
        r.error == AuthError("Incorrect password")
    {
      match userService.GetUserByUsername(request.username)
      case Throw(e) => Throw(e)
      case Ok(user) =>
        if request.password.None? then Throw(IllegalArgument(NullRawPassword))
        else if !encoder.matches(request.password.value, user.password) then Throw(AuthError("Incorrect password"))
        else Ok(user)
    }

    /**
     * authAndGetToken: on good credentials an access and a refresh token are
     * issued, the refresh token replaces the user's entry in the store, and
     * both tokens are returned with 200. On bad credentials the store is
     * untouched.
     */
    method AuthAndGetToken(request: AuthRequest, now: int) returns (r: Result<Response>)
      modifies this
      ensures CheckCredentials(request).Throw? ==>
        r == Throw(CheckCredentials(request).error) && refreshStorage == old(refreshStorage)
      ensures CheckCredentials(request).Ok? ==>
        var user := CheckCredentials(request).value;
        && refreshStorage == old(refreshStorage)[user.username := GenerateRefreshToken(jwt, user, now)]
        && r == Ok(Response(200, JwtBody(JwtResponse(Some(GenerateToken(jwt, user, now)), Some(GenerateRefreshToken(jwt, user, now))))))
    {
      var user := CheckCredentials(request);
      if user.Throw? {
        return Throw(user.error);
      }
      var token := GenerateToken(jwt, user.value, now);
      var refreshToken := GenerateRefreshToken(jwt, user.value, now);
      refreshStorage := refreshStorage[user.value.username := refreshToken];
      r := Ok(Response(200, JwtBody(JwtResponse(Some(token), Some(refreshToken)))));
    }

    /**
     * refreshAndGetToken: an invalid token throws JwtException; a valid one
     * whose subject's stored token is that very string gets a new pair for the
     * stored user; any other valid token gets a pair of nulls. The store is
     * only read.
     */
    function RefreshAndGetToken(refreshToken: Option<string>, now: int): (r: Result<JwtResponse>)
      reads this, userService
      ensures ValidateRefreshToken(jwt, now, refreshToken).Throw? ==>
        r == Throw(ValidateRefreshToken(jwt, now, refreshToken).error)
      ensures ValidateRefreshToken(jwt, now, refreshToken).Ok? ==>
        var sub := jwt.codec.parse(refreshToken.value).claims.sub;
        && (sub in refreshStorage && refreshStorage[sub] == refreshToken.value ==>
              && (sub in userService.users ==>
                    r == Ok(JwtResponse(Some(GenerateToken(jwt, userService.users[sub], now)),
                                        Some(GenerateRefreshToken(jwt, userService.users[sub], now)))))
              && (sub !in userService.users ==> r == Throw(UsernameNotFound("User with username '" + sub + "' not found"))))
        && (!(sub in refreshStorage && refreshStorage[sub] == refreshToken.value) ==> r == Ok(JwtResponse(None, None)))
    {
      match ValidateRefreshToken(jwt, now, refreshToken)
      case Throw(e) => Throw(e)
      case Ok(valid) =>
        if !valid then Ok(JwtResponse(None, None))
        else
          var username := GetRefreshClaims(jwt, now, refreshToken).value.sub;
          if username in refreshStorage && refreshStorage[username] == refreshToken.value then
            match userService.GetUserByUsername(Some(username))
            case Throw(e) => Throw(e)
            case Ok(user) => Ok(JwtResponse(Some(GenerateToken(jwt, user, now)), Some(GenerateRefreshToken(jwt, user, now))))
          else Ok(JwtResponse(None, None))
    }

    /**
     * The refresh token handed out at login refreshes, at any time before it
     * expires and as often as it is presented, into a new pair for the stored
     * user.
     */
    lemma LoginTokenRefreshes(user: User, issued: int, now: int)
      requires Sound(jwt.codec) && userService.Valid()
      requires user.username in userService.users && userService.users[user.username] == user
      requires user.username in refreshStorage && refreshStorage[user.username] == GenerateRefreshToken(jwt, user, issued)
      requires now <= issued + jwt.refreshTokenLifetime
      ensures RefreshAndGetToken(Some(GenerateRefreshToken(jwt, user, issued)), now)
        == Ok(JwtResponse(Some(GenerateToken(jwt, user, now)), Some(GenerateRefreshToken(jwt, user, now))))
    {
      var token := GenerateRefreshToken(jwt, user, issued);
      assert jwt.codec.parse(token) == Signed(RefreshClaims(jwt, user, issued));
      ValidatorsAgree(jwt, now, user, issued, token);
    }

    /**
     * The refresh token that a refresh hands out is not recorded: presented
     * later, it gets the null pair while the login token is still stored,
     * unless it happens to be issued in the same second as the login token.
     */
    lemma MintedRefreshTokenNotRecorded(user: User, issued: int, minted: int, now: int)
      requires Sound(jwt.codec)
      requires user.username in refreshStorage && refreshStorage[user.username] == GenerateRefreshToken(jwt, user, issued)
      requires issued != minted && now <= minted + jwt.refreshTokenLifetime
      ensures RefreshAndGetToken(Some(GenerateRefreshToken(jwt, user, minted)), now) == Ok(JwtResponse(None, None))
    {
      var token := GenerateRefreshToken(jwt, user, minted);
      assert jwt.codec.parse(token) == Signed(RefreshClaims(jwt, user, minted));
      ValidatorsAgree(jwt, now, user, minted, token);
      SignInjective(jwt.codec, RefreshClaims(jwt, user, issued), RefreshClaims(jwt, user, minted));
    }

    /**
     * A valid refresh token of a user who has never logged in through this
     * service instance gets the null pair, not an error.
     */
    lemma UnknownSubjectGetsNullPair(user: User, issued: int, now: int)
      requires Sound(jwt.codec) && user.username !in refreshStorage
      requires now <= issued + jwt.refreshTokenLifetime
      ensures RefreshAndGetToken(Some(GenerateRefreshToken(jwt, user, issued)), now) == Ok(JwtResponse(None, None))
    {
      var token := GenerateRefreshToken(jwt, user, issued);
      assert jwt.codec.parse(token) == Signed(RefreshClaims(jwt, user, issued));
      ValidatorsAgree(jwt, now, user, issued, token);
    }

    /** A null or empty refresh token throws "Incorrect refresh token" instead of getting the null pair. */
    lemma EmptyRefreshTokenThrows(now: int)
      ensures RefreshAndGetToken(None, now) == Throw(JwtError("Incorrect refresh token"))
      ensures RefreshAndGetToken(Some(""), now) == Throw(JwtError("Incorrect refresh token"))
    {
    }

    /** A user stored by registration passes the credential check with the password given at registration. */
    lemma RegisteredUserCanLogIn(name: string, password: string, id: Uuid)
      requires MatchesOwnEncoding(encoder)
      requires name in userService.users && userService.users[name] == User(id, name, encoder.encode(password), {RoleUser})
      ensures CheckCredentials(AuthRequest(Some(name), Some(password))) == Ok(userService.users[name])
    {
    }
  }
}

/**
 * security.JwtService: building access and refresh tokens, validating them and
 * turning validated claims into a principal.
 *
 * Signing and parsing (JWS compact serialisation, RFC 7515, with an HMAC key)
 * are a library's job; here they are the two functions of a Codec, fixed for
 * the server's key, and the only thing assumed of them is that parsing a
 * signed token gives back its claims. The clock is the parameter `now`, in
 * whole seconds.
 */
module JwtService {
  import opened Errors
  import opened Domain
  import opened Authentication

  /**
   * The claims of a token: "sub" (section 4.1.2 of RFC 7519), "exp" in
   * seconds (section 4.1.4 of RFC 7519), and the private claims "roles" (a
   * list of role names) and "username", absent when null.
   */
  datatype Claims = Claims(sub: string, exp: int, roles: Option<seq<string>>, username: Option<string>)

  /** What parsing a string with the server key yields. */
  datatype Parsed =
    | Signed(claims: Claims)  // well formed and signed with the server key
    | Malformed               // MalformedJwtException
    | BadSignature            // SignatureException
    | Unsupported             // UnsupportedJwtException
    | OtherFailure            // any other exception of the parser

  /** Signing with, and parsing against, the server's key. */
  datatype Codec = Codec(sign: Claims -> string, parse: string -> Parsed)

  /**
   * Parsing a token the server signed gives back exactly the claims it
   * signed; a signed token (three dot-separated parts) is never empty.
   */
  ghost predicate Sound(c: Codec) {
    forall cl :: c.parse(c.sign(cl)) == Signed(cl) && c.sign(cl) != ""
  }

  /** The service's configuration: the key (as a codec) and the two lifetimes in seconds. */
  datatype JwtConfig = JwtConfig(codec: Codec, accessTokenLife: int, refreshTokenLifetime: int)

  /** A sound codec never gives two different claim sets the same token. */
  lemma SignInjective(c: Codec, a: Claims, b: Claims)
    requires Sound(c)
    ensures c.sign(a) == c.sign(b) ==> a == b
  {
    assert c.parse(c.sign(a)) == Signed(a);
    assert c.parse(c.sign(b)) == Signed(b);
  }

  /** The "roles" claim written for a set of roles: each role's name once. */
  function RoleNameList(roles: set<Role>): (r: seq<string>)
    ensures forall n :: n in r <==> exists role :: role in roles && role.Name() == n
  {
    (if RoleAdmin in roles then [RoleAdmin.Name()] else [])
    + (if RoleUser in roles then [RoleUser.Name()] else [])
  }

  /** The claims generateToken signs: subject, expiry now + accessTokenLife, roles and username. */
  function AccessClaims(jwt: JwtConfig, user: User, now: int): (r: Claims)
    ensures r.sub == user.username && r.username == Some(user.username)
    ensures r.exp - now == jwt.accessTokenLife
    ensures r.roles.Some? && forall n :: n in r.roles.value <==> exists role :: role in user.roles && role.Name() == n
  {
    Claims(user.username, now + jwt.accessTokenLife, Some(RoleNameList(user.roles)), Some(user.username))
  }

  /** The claims generateRefreshToken signs: subject and expiry now + refreshTokenLifetime only. */
  function RefreshClaims(jwt: JwtConfig, user: User, now: int): (r: Claims)
    ensures r.sub == user.username && r.exp - now == jwt.refreshTokenLifetime
    ensures r.roles.None? && r.username.None?
  {
    Claims(user.username, now + jwt.refreshTokenLifetime, None, None)
  }

  /** generateToken: under a sound key the token is non-empty and parses back to the access claims. */
  function GenerateToken(jwt: JwtConfig, user: User, now: int): (r: string)
    ensures Sound(jwt.codec) ==> r != "" && jwt.codec.parse(r) == Signed(AccessClaims(jwt, user, now))
  {
    jwt.codec.sign(AccessClaims(jwt, user, now))
  }

  /** generateRefreshToken: under a sound key the token is non-empty and parses back to the refresh claims. */
  function GenerateRefreshToken(jwt: JwtConfig, user: User, now: int): (r: string)
    ensures Sound(jwt.codec) ==> r != "" && jwt.codec.parse(r) == Signed(RefreshClaims(jwt, user, now))
  {
    jwt.codec.sign(RefreshClaims(jwt, user, now))
  }

  /** An access token decodes to the user's name as subject, the role names, the username and expiry now + accessTokenLife. */
  lemma AccessTokenCarries(jwt: JwtConfig, user: User, now: int)
    requires Sound(jwt.codec)
    ensures var p := jwt.codec.parse(GenerateToken(jwt, user, now));
      && p.Signed?
      && p.claims.sub == user.username
      && p.claims.exp == now + jwt.accessTokenLife
      && p.claims.username == Some(user.username)
      && p.claims.roles.Some?
      && (forall n :: n in p.claims.roles.value <==> exists role :: role in user.roles && role.Name() == n)
  {
  }

  /** A refresh token decodes to the subject and expiry now + refreshTokenLifetime, with no roles and no username claim. */
  lemma RefreshTokenCarries(jwt: JwtConfig, user: User, now: int)
    requires Sound(jwt.codec)
    ensures var p := jwt.codec.parse(GenerateRefreshToken(jwt, user, now));
      && p.Signed?
      && p.claims.sub == user.username
      && p.claims.exp == now + jwt.refreshTokenLifetime
      && p.claims.roles.None? && p.claims.username.None?
  {
  }

  /** The parser's expiry test: a token is expired once the clock has passed "exp". */
  predicate Expired(c: Claims, now: int) {
    now > c.exp
  }

  /** The token parses with the server key and has not expired. */
  predicate Accepts(jwt: JwtConfig, now: int, token: string) {
    jwt.codec.parse(token).Signed? && !Expired(jwt.codec.parse(token).claims, now)
  }

  /** checkToken: JwtException(message) exactly when the token is null or empty; otherwise the token itself. */
  function CheckToken(token: Option<string>, message: string): (r: Result<string>)
    ensures r.Throw? <==> token.None? || token.value == ""
    ensures r.Throw? ==> r.error == JwtError(message)
    ensures r.Ok? ==> token == Some(r.value)
  {
    if token.None? || token.value == "" then Throw(JwtError(message)) else Ok(token.value)
  }

  /**
   * validateToken: true when the token parses and has not expired. An
   * expired, unsupported, malformed or badly signed token becomes the single
   * JwtException "Incorrect jwt token"; other parser exceptions escape.
   */
  function ValidateToken(jwt: JwtConfig, now: int, token: string): (r: Result<bool>)
    ensures r != Ok(false)
    ensures r == Ok(true) <==> Accepts(jwt, now, token)
    ensures r.Throw? ==>
      if jwt.codec.parse(token).OtherFailure? then r.error == TokenLibrary
      else r.error == JwtError("Incorrect jwt token")
  {
    match jwt.codec.parse(token)
    case Signed(c) => if Expired(c, now) then Throw(JwtError("Incorrect jwt token")) else Ok(true)
    case OtherFailure => Throw(TokenLibrary)
    case _ => Throw(JwtError("Incorrect jwt token"))
  }

  /** validateAccessToken: checkToken with "Incorrect token", then validateToken. */
  function ValidateAccessToken(jwt: JwtConfig, now: int, token: Option<string>): (r: Result<bool>)
    ensures r != Ok(false)
    ensures r == Ok(true) <==> token.Some? && token.value != "" && Accepts(jwt, now, token.value)
    ensures token.None? || token.value == "" ==> r == Throw(JwtError("Incorrect token"))
  {
    match CheckToken(token, "Incorrect token")
    case Throw(e) => Throw(e)
    case Ok(t) => ValidateToken(jwt, now, t)
  }

  /** validateRefreshToken: checkToken with "Incorrect refresh token", then validateToken. */
  function ValidateRefreshToken(jwt: JwtConfig, now: int, token: Option<string>): (r: Result<bool>)
    ensures r != Ok(false)
    ensures r == Ok(true) <==> token.Some? && token.value != "" && Accepts(jwt, now, token.value)
    ensures token.None? || token.value == "" ==> r == Throw(JwtError("Incorrect refresh token"))
  {
    match CheckToken(token, "Incorrect refresh token")
    case Throw(e) => Throw(e)
    case Ok(t) => ValidateToken(jwt, now, t)
  }

  /**
   * The two validators do not tell token kinds apart: on any non-empty token
   * they give the same answer, so a refresh token passes validateAccessToken.
   */
  lemma ValidatorsAgree(jwt: JwtConfig, now: int, user: User, issued: int, token: string)
    requires token != ""
    ensures ValidateAccessToken(jwt, now, Some(token)) == ValidateRefreshToken(jwt, now, Some(token))
    ensures Sound(jwt.codec) && now <= issued + jwt.refreshTokenLifetime ==>
      ValidateAccessToken(jwt, now, Some(GenerateRefreshToken(jwt, user, issued))) == Ok(true)
  {
    if Sound(jwt.codec) && now <= issued + jwt.refreshTokenLifetime {
      var t := GenerateRefreshToken(jwt, user, issued);
      assert jwt.codec.parse(t) == Signed(RefreshClaims(jwt, user, issued)) && t != "";
    }
  }

  /**
   * getClaims: the parsed claims. Unlike validateToken nothing is caught here,
   * so any parser failure, expiry included, escapes as the parser's exception.
   */
  function GetClaims(jwt: JwtConfig, now: int, token: string): (r: Result<Claims>)
    ensures r.Ok? <==> token != "" && Accepts(jwt, now, token)
    ensures r.Ok? ==> jwt.codec.parse(token) == Signed(r.value)
  {
    match CheckToken(Some(token), "Incorrect token")
    case Throw(e) => Throw(e)
    case Ok(t) =>
      match jwt.codec.parse(t)
      case Signed(c) => if Expired(c, now) then Throw(TokenLibrary) else Ok(c)
      case _ => Throw(TokenLibrary)
  }

  /** getAccessClaims: checkToken with "Incorrect token", then getClaims. */
  function GetAccessClaims(jwt: JwtConfig, now: int, token: Option<string>): (r: Result<Claims>)
    ensures r.Ok? <==> ValidateAccessToken(jwt, now, token) == Ok(true)
    ensures r.Ok? ==> jwt.codec.parse(token.value) == Signed(r.value)
    ensures token.None? || token.value == "" ==> r == Throw(JwtError("Incorrect token"))
  {
    match CheckToken(token, "Incorrect token")
    case Throw(e) => Throw(e)
    case Ok(t) => GetClaims(jwt, now, t)
  }

  /** getRefreshClaims: the same steps, with the same message, as getAccessClaims. */
  function GetRefreshClaims(jwt: JwtConfig, now: int, token: Option<string>): (r: Result<Claims>)
    ensures r.Ok? <==> ValidateRefreshToken(jwt, now, token) == Ok(true)
    ensures r.Ok? ==> jwt.codec.parse(token.value) == Signed(r.value)
    ensures token.None? || token.value == "" ==> r == Throw(JwtError("Incorrect token"))
  {
    match CheckToken(token, "Incorrect token")
    case Throw(e) => Throw(e)
    case Ok(t) => GetClaims(jwt, now, t)
  }

  /** getAccessClaims and getRefreshClaims behave identically on every input. */
  lemma ClaimGettersAgree(jwt: JwtConfig, now: int, token: Option<string>)
    ensures GetAccessClaims(jwt, now, token) == GetRefreshClaims(jwt, now, token)
  {
  }

  /**
   * The stream in `generate`: Role.valueOf on each name in order, collected
   * into a set. The first unknown name throws IllegalArgumentException.
   */
  function RolesFromNames(names: seq<string>): (r: Result<set<Role>>)
    ensures r.Ok? <==> forall i :: 0 <= i < |names| ==> names[i] in RoleNames
    ensures r.Ok? ==> forall role :: role in r.value <==> role.Name() in names
    ensures r.Throw? ==> r.error.IllegalArgument?
  {
    if names == [] then Ok({})
    else
      match RoleValueOf(names[0])
      case Throw(e) => Throw(e)
      case Ok(role) =>
        match RolesFromNames(names[1..])
        case Throw(e) => Throw(e)
        case Ok(rest) =>
          assert names == [names[0]] + names[1..];
          Ok({role} + rest)
  }

  /** The role names an access token carries convert back to the very same role set. */
  lemma RolesRoundTrip(roles: set<Role>)
    ensures RolesFromNames(RoleNameList(roles)) == Ok(roles)
  {
    var names := RoleNameList(roles);
    assert forall i :: 0 <= i < |names| ==> names[i] in RoleNames;
    assert RolesFromNames(names).Ok?;
    var back := RolesFromNames(names).value;
    forall role ensures role in back <==> role in roles {
      assert role in back <==> role.Name() in names;
      match role
      case RoleAdmin => assert RoleAdmin.Name() in names <==> RoleAdmin in roles;
      case RoleUser => assert RoleUser.Name() in names <==> RoleUser in roles;
    }
    assert back == roles;
  }

  /** The data `generate` puts into a JwtAuthentication. */
  datatype Principal = Principal(username: string, roles: set<Role>)

  /**
   * The value part of `generate`: subject as username, the "roles" claim
   * converted with Role.valueOf. A token without a "roles" claim (a refresh
   * token) throws NullPointerException.
   */
  function PrincipalOf(claims: Claims): (r: Result<Principal>)
    ensures claims.roles.None? ==> r == Throw(NullPointer)
    ensures r.Ok? ==>
      && r.value.username == claims.sub
      && claims.roles.Some?
      && RolesFromNames(claims.roles.value) == Ok(r.value.roles)
  {
    match claims.roles
    case None => Throw(NullPointer)
    case Some(names) =>
      match RolesFromNames(names)
      case Throw(e) => Throw(e)
      case Ok(roles) => Ok(Principal(claims.sub, roles))
  }

  /** generate: a new, authenticated JwtAuthentication for the claims' subject and roles. */
  method Generate(claims: Claims) returns (r: Result<JwtAuthentication>)
    ensures r.Ok? <==> PrincipalOf(claims).Ok?
    ensures r.Ok? ==>
      && fresh(r.value)
      && r.value.authenticated
      && r.value.username == PrincipalOf(claims).value.username
      && r.value.roles == PrincipalOf(claims).value.roles
    ensures r.Throw? ==> r.error == PrincipalOf(claims).error
  {
    var p := PrincipalOf(claims);
    if p.Throw? {
      return Throw(p.error);
    }
    var a := new JwtAuthentication(true, p.value.username, p.value.roles);
    r := Ok(a);
  }

  /**
   * Round trip: before it expires, an access token's claims turn back into
   * the principal of the user it was issued for.
   */
  lemma AccessTokenRoundTrip(jwt: JwtConfig, user: User, issued: int, now: int)
    requires Sound(jwt.codec)
    requires now <= issued + jwt.accessTokenLife
    ensures GetAccessClaims(jwt, now, Some(GenerateToken(jwt, user, issued))) == Ok(AccessClaims(jwt, user, issued))
    ensures PrincipalOf(AccessClaims(jwt, user, issued)) == Ok(Principal(user.username, user.roles))
  {
    assert jwt.codec.parse(GenerateToken(jwt, user, issued)) == Signed(AccessClaims(jwt, user, issued));
    RolesRoundTrip(user.roles);
  }

  /** A refresh token's claims have no "roles", so `generate` fails on them. */
  lemma RefreshClaimsHaveNoPrincipal(jwt: JwtConfig, user: User, issued: int)
    ensures PrincipalOf(RefreshClaims(jwt, user, issued)) == Throw(NullPointer)
  {
  }
}

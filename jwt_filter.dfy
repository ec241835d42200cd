/**
 * security.JwtFilter: the per-request gate. It takes a bearer token from the
 * Authorization header (section 2.1 of RFC 6750), validates it as an access
 * token and, on success, puts a JwtAuthentication into the security context
 * before the rest of the chain runs. A JwtException ends the request with 401.
 */
module JwtFilter {
  import opened Errors
  import opened Domain
  import opened Validation
  import opened Authentication
  import opened JwtService

  /** The authentication scheme prefix, compared case-sensitively. */
  const BearerPrefix: string := "Bearer "

  /**
   * getTokenFromRequest: the header without its first 7 characters when it
   * has text and starts with "Bearer "; null otherwise.
   */
  function GetTokenFromRequest(header: Option<string>): (r: Option<string>)
    ensures r.Some? <==> header.Some? && HasText(header) && BearerPrefix <= header.value
    ensures r.Some? ==> header.value == BearerPrefix + r.value
  {
    if HasText(header) && BearerPrefix <= header.value then Some(header.value[7..]) else None
  }

  /**
   * The bearer syntax inverted: a token is extracted exactly from a header
   * that is "Bearer " followed by it (the hasText test is implied by the
   * prefix), so "Bearer " alone yields the empty token.
   */
  lemma BearerIff(header: Option<string>, token: string)
    ensures GetTokenFromRequest(header) == Some(token) <==> header == Some(BearerPrefix + token)
  {
    if header == Some(BearerPrefix + token) {
      var h := header.value;
      assert h[0] == 'B' && !JavaWhitespace(h[0]);
      assert BearerPrefix <= h;
      assert h[7..] == token;
    }
  }

  /** The scheme is matched case-sensitively, and a missing header gives no token. */
  lemma NoBearerNoToken(token: string)
    ensures GetTokenFromRequest(Some("bearer " + token)) == None
    ensures GetTokenFromRequest(Some("Basic " + token)) == None
    ensures GetTokenFromRequest(None) == None
  {
    assert ("bearer " + token)[0] == 'b';
    assert ("Basic " + token)[1] == 'a';
  }

  /** How doFilter ends. */
  datatype Decision =
    | Continue(principal: Option<Principal>)  // the chain runs, with this authentication set (if any)
    | Reject(status: int, message: string)    // 401 with an ErrorMessage, the chain does not run
    | Escape(error: Exception)                // an exception other than JwtException leaves the filter

  /** What the catch block makes of an exception: JwtException is answered, others escape. */
  function Catch(e: Exception): (d: Decision)
    ensures e.JwtError? ==> d == Reject(401, e.message)
    ensures !e.JwtError? ==> d == Escape(e)
  {
    if e.JwtError? then Reject(401, e.message) else Escape(e)
  }

  /**
   * The decision of doFilter for one request: no token means continue
   * unauthenticated; a token is validated as an access token, its claims read
   * and converted by `generate`, and only then the chain continues.
   */
  function Decide(jwt: JwtConfig, now: int, header: Option<string>): (d: Decision)
    ensures GetTokenFromRequest(header).None? ==> d == Continue(None)
    ensures d.Continue? && d.principal.Some? ==>
      && ValidateAccessToken(jwt, now, GetTokenFromRequest(header)) == Ok(true)
      && GetAccessClaims(jwt, now, GetTokenFromRequest(header)).Ok?
      && PrincipalOf(GetAccessClaims(jwt, now, GetTokenFromRequest(header)).value) == Ok(d.principal.value)
    ensures d.Reject? ==> d.status == 401 && GetTokenFromRequest(header).Some?
    ensures var token := GetTokenFromRequest(header);
      && ValidateAccessToken(jwt, now, token) == Ok(true)
      && GetAccessClaims(jwt, now, token).Ok?
      && PrincipalOf(GetAccessClaims(jwt, now, token).value).Ok?
      ==> d == Continue(Some(PrincipalOf(GetAccessClaims(jwt, now, token).value).value))
    ensures var token := GetTokenFromRequest(header);
      token.Some? && ValidateAccessToken(jwt, now, token).Throw? ==> d == Catch(ValidateAccessToken(jwt, now, token).error)
  {
    var token := GetTokenFromRequest(header);
    if token.None? then Continue(None)
    else
      match ValidateAccessToken(jwt, now, token)
      case Throw(e) => Catch(e)
      case Ok(valid) =>
        if !valid then Continue(None)
        else
          match GetAccessClaims(jwt, now, token)
          case Throw(e) => Catch(e)
          case Ok(claims) =>
            match PrincipalOf(claims)
            case Throw(e) => Catch(e)
            case Ok(p) => Continue(Some(p))
  }

  /**
   * A header of exactly "Bearer " gives the empty token, which is rejected
   * with 401 "Incorrect token" rather than treated as absent.
   */
  lemma EmptyBearerRejected(jwt: JwtConfig, now: int)
    ensures Decide(jwt, now, Some(BearerPrefix)) == Reject(401, "Incorrect token")
  {
    BearerIff(Some(BearerPrefix), "");
    assert BearerPrefix + "" == BearerPrefix;
  }

  /**
   * A valid access token for a user authenticates the request as that user,
   * with the roles written into the token.
   */
  lemma AccessTokenAuthenticates(jwt: JwtConfig, user: User, issued: int, now: int)
    requires Sound(jwt.codec) && now <= issued + jwt.accessTokenLife
    ensures Decide(jwt, now, Some(BearerPrefix + GenerateToken(jwt, user, issued)))
      == Continue(Some(Principal(user.username, user.roles)))
  {
    var token := GenerateToken(jwt, user, issued);
    BearerIff(Some(BearerPrefix + token), token);
    AccessTokenRoundTrip(jwt, user, issued, now);
  }

  /**
   * A refresh token passes validateAccessToken but carries no "roles" claim,
   * so the filter neither authenticates nor answers 401: the
   * NullPointerException of `generate` leaves the filter.
   */
  lemma RefreshTokenAsBearerEscapes(jwt: JwtConfig, user: User, issued: int, now: int)
    requires Sound(jwt.codec) && now <= issued + jwt.refreshTokenLifetime
    ensures Decide(jwt, now, Some(BearerPrefix + GenerateRefreshToken(jwt, user, issued))) == Escape(NullPointer)
  {
    var token := GenerateRefreshToken(jwt, user, issued);
    BearerIff(Some(BearerPrefix + token), token);
    assert jwt.codec.parse(token) == Signed(RefreshClaims(jwt, user, issued));
  }

  /**
   * An expired or forged access token is answered with 401 "Incorrect jwt
   * token", whichever of the four caught failures it is.
   */
  lemma RejectedTokenMessage(jwt: JwtConfig, now: int, token: string)
    requires token != "" && !Accepts(jwt, now, token) && !jwt.codec.parse(token).OtherFailure?
    ensures Decide(jwt, now, Some(BearerPrefix + token)) == Reject(401, "Incorrect jwt token")
  {
    BearerIff(Some(BearerPrefix + token), token);
  }

  /**
   * doFilter: the outcome is Decide's; on Continue with a principal the
   * security context now holds a new, authenticated JwtAuthentication with
   * that principal's username and roles, and otherwise the context is as
   * before.
   */
  method DoFilter(jwt: JwtConfig, now: int, header: Option<string>, context: Option<Authentication>)
    returns (d: Decision, newContext: Option<Authentication>)
    ensures d == Decide(jwt, now, header)
    ensures d.Continue? && d.principal.Some? ==>
      && newContext.Some? && newContext.value.Jwt?
      && fresh(newContext.value.principal)
      && newContext.value.principal.authenticated
      && newContext.value.principal.username == d.principal.value.username
      && newContext.value.principal.roles == d.principal.value.roles
    ensures !(d.Continue? && d.principal.Some?) ==> newContext == context
  {
    newContext := context;
    var token := GetTokenFromRequest(header);
    if token.Some? {
      var valid := ValidateAccessToken(jwt, now, token);
      if valid.Throw? {
        return Catch(valid.error), context;
      }
      if valid.value {
        // with one clock reading per request, claims of a validated token are always readable
        var claims := GetAccessClaims(jwt, now, token).value;
        var auth := Generate(claims);
        if auth.Throw? {
          return Catch(auth.error), context;
        }
        newContext := Some(Jwt(auth.value));
        return Continue(Some(PrincipalOf(claims).value)), newContext;
      }
    }
    d := Continue(None);
  }
}

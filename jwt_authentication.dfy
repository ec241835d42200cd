/**
 * security.JwtAuthentication, the principal the request filter puts into the
 * security context, and the security context's content: an authentication
 * that is either one of these objects or some other Spring Security type.
 */
module Authentication {
  import opened Errors
  import opened Domain

  /** A mutable principal: the flag, the username and the roles it was built with. */
  class JwtAuthentication {
    var authenticated: bool
    var username: string
    var roles: set<Role>

    /** Stores the three values exactly as given. */
    constructor (authenticated: bool, username: string, roles: set<Role>)
      ensures this.authenticated == authenticated
      ensures this.username == username
      ensures this.roles == roles
    {
      this.authenticated := authenticated;
      this.username := username;
      this.roles := roles;
    }

    /** getAuthorities: the role set itself. */
    function GetAuthorities(): (r: set<Role>)
      reads this
      ensures r == roles
    {
      roles
    }

    /** getCredentials: never used, always null. */
    function GetCredentials(): (r: Option<object>)
      ensures r == None
    {
      None
    }

    /** getDetails: never used, always null. */
    function GetDetails(): (r: Option<object>)
      ensures r == None
    {
      None
    }

    /** getPrincipal: the object itself. */
    function GetPrincipal(): (r: JwtAuthentication)
      ensures r == this
    {
      this
    }

    /** isAuthenticated: the current value of the flag. */
    function IsAuthenticated(): (r: bool)
      reads this
      ensures r == authenticated
    {
      authenticated
    }

    /** getName: the username. */
    function GetName(): (r: string)
      reads this
      ensures r == username
    {
      username
    }

    /** setAuthenticated: overwrites the flag and nothing else. */
    method SetAuthenticated(isAuthenticated: bool)
      modifies this
      ensures authenticated == isAuthenticated
      ensures username == old(username) && roles == old(roles)
    {
      authenticated := isAuthenticated;
    }
  }

  /**
   * What the security context may hold: a JwtAuthentication, or another
   * Authentication implementation (an anonymous token, say) with its own flag.
   */
  datatype Authentication =
    | Jwt(principal: JwtAuthentication)
    | Other(authenticated: bool)

  /** The objects a function must read to inspect the context. */
  function ContextObjects(context: Option<Authentication>): set<object> {
    if context.Some? && context.value.Jwt? then {context.value.principal} else {}
  }

  /** `isAuthenticated()` of whatever the context holds. */
  predicate IsAuthenticated(a: Authentication)
    reads if a.Jwt? then {a.principal} else {}
  {
    match a
    case Jwt(p) => p.authenticated
    case Other(flag) => flag
  }
}
